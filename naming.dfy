/** The pure naming rules around an upload: the decimal form of a millisecond
    timestamp, the stored file name chosen by the disk storage, the public URL
    of a stored file and the image-only upload filter. */
module Naming {
  import opened Fields

  /** The port the server listens on; it also appears in every image URL. */
  const Port: nat := 5000

  /** The largest value of `Math.round(Math.random() * 1E9)`. */
  const RandomBound: nat := 1000000000

  /** Where every stored file is served from. */
  const UploadsBase: string := "http://localhost:5000/uploads/"

  predicate IsDigit(c: char) {
    '0' <= c <= '9'
  }

  predicate AllDigits(s: string) {
    forall i :: 0 <= i < |s| ==> IsDigit(s[i])
  }

  function DigitChar(d: nat): (c: char)
    requires d < 10
    ensures IsDigit(c)
  {
    (48 + d) as char
  }

  function DigitValue(c: char): (d: nat)
    requires IsDigit(c)
    ensures d < 10
  {
    c as int - 48
  }

  /** `n.toString()` for a non-negative integer such as `Date.now()`:
      decimal digits, most significant first, no leading zero. */
  function DecimalString(n: nat): (s: string)
    ensures |s| > 0 && AllDigits(s)
    ensures s[0] == '0' <==> n == 0
    decreases n
  {
    if n < 10 then [DigitChar(n)] else DecimalString(n / 10) + [DigitChar(n % 10)]
  }

  /** The number a string of decimal digits denotes. */
  function DecimalValue(s: string): nat
    requires AllDigits(s)
    decreases |s|
  {
    if s == [] then 0 else DecimalValue(s[..|s| - 1]) * 10 + DigitValue(s[|s| - 1])
  }

  /** Reading back the decimal form of a timestamp gives the timestamp. */
  lemma {:induction false} DecimalRoundTrip(n: nat)
    ensures DecimalValue(DecimalString(n)) == n
    decreases n
  {
    var s := DecimalString(n);
    if n >= 10 {
      DecimalRoundTrip(n / 10);
      assert s[..|s| - 1] == DecimalString(n / 10);
    } else {
      assert s[..|s| - 1] == [];
    }
  }

  /** Distinct timestamps have distinct decimal forms (so distinct ids). */
  lemma DecimalInjective(a: nat, b: nat)
    requires DecimalString(a) == DecimalString(b)
    ensures a == b
  {
    DecimalRoundTrip(a);
    DecimalRoundTrip(b);
  }

  /** The URL's port is the server's port. */
  lemma UploadsBaseNamesPort()
    ensures UploadsBase == "http://localhost:" + DecimalString(Port) + "/uploads/"
  {
    assert DecimalString(5000) == DecimalString(500) + ['0'];
    assert DecimalString(500) == DecimalString(50) + ['0'];
    assert DecimalString(50) == DecimalString(5) + ['0'];
  }

  /** The file name the disk storage gives an upload:
      `${section || 'women'}-${Date.now()}-${Math.round(Math.random() * 1E9)}${extname}`.
      The raw section field is used, not the section the image is placed in. */
  function StoredFilename(section: string, millis: nat, random: nat, ext: string): (f: string)
    requires random <= RandomBound
    ensures OrDefault(section, "women") + "-" <= f
    ensures |f| >= |ext| && f[|f| - |ext|..] == ext
  {
    OrDefault(section, "women") + "-" + DecimalString(millis) + "-" + DecimalString(random) + ext
  }

  /** A dash never stands where a digit string is still running. */
  lemma DashMismatch(a: string, b: string, c: string, d: string)
    requires AllDigits(c) && |a| < |c|
    ensures (a + "-" + b)[|a|] != (c + "-" + d)[|a|]
  {
    assert (a + "-" + b)[|a|] == '-';
    assert (c + "-" + d)[|a|] == c[|a|];
  }

  /** Two digit strings joined by a dash can be split apart again. */
  lemma DashSplit(a: string, b: string, c: string, d: string)
    requires AllDigits(a) && AllDigits(c)
    requires a + "-" + b == c + "-" + d
    ensures a == c && b == d
  {
    var x := a + "-" + b;
    if |a| < |c| {
      DashMismatch(a, b, c, d);
      assert false;
    } else if |c| < |a| {
      DashMismatch(c, d, a, b);
      assert false;
    }
    assert a == x[..|a|];
    assert c == x[..|c|];
    assert b == x[|a| + 1..];
    assert d == x[|c| + 1..];
  }

  /** Within one section field and extension, distinct (timestamp, random)
      pairs give distinct stored file names. */
  lemma StoredFilenameInjective(section: string, m1: nat, r1: nat, m2: nat, r2: nat, ext: string)
    requires r1 <= RandomBound && r2 <= RandomBound
    requires StoredFilename(section, m1, r1, ext) == StoredFilename(section, m2, r2, ext)
    ensures m1 == m2 && r1 == r2
  {
    var p := OrDefault(section, "women") + "-";
    var x1 := DecimalString(m1) + "-" + DecimalString(r1);
    var x2 := DecimalString(m2) + "-" + DecimalString(r2);
    var f := StoredFilename(section, m1, r1, ext);
    assert f == p + x1 + ext;
    assert StoredFilename(section, m2, r2, ext) == p + x2 + ext;
    assert x1 == f[|p|..|f| - |ext|];
    assert x2 == f[|p|..|f| - |ext|];
    DashSplit(DecimalString(m1), DecimalString(r1), DecimalString(m2), DecimalString(r2));
    DecimalInjective(m1, m2);
    DecimalInjective(r1, r2);
  }

  /** The public URL of a stored file. */
  function ImageUrl(filename: string): (url: string)
    ensures UploadsBase <= url
    ensures url[|UploadsBase|..] == filename
  {
    UploadsBase + filename
  }

  /** The stored file name a URL of this server refers to. */
  function FilenameOfUrl(url: string): string
    requires UploadsBase <= url
  {
    url[|UploadsBase|..]
  }

  /** Two images with different file names have different URLs. */
  lemma ImageUrlInjective(f1: string, f2: string)
    requires ImageUrl(f1) == ImageUrl(f2)
    ensures f1 == f2
  {
    assert f1 == FilenameOfUrl(ImageUrl(f1));
  }

  /** The upload filter: `mimetype.startsWith('image/')`. */
  function IsImageMime(mimetype: string): (ok: bool)
    ensures ok <==> |mimetype| >= 6 && mimetype[..6] == "image/"
  {
    "image/" <= mimetype
  }
}
