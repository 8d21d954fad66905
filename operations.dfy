/** What each request handler does to the four sections, as functions of the
    state before the request: section choice, list resolution, placement with
    the size caps, update and delete by id, title/description edits and the
    startup merge of a saved snapshot. The class in module Store performs the
    same steps in place and is proved against these functions. */
module Operations {
  import opened Fields
  import opened Naming
  import opened Catalog

  // ---------------------------------------------------------------------
  // Section choice

  /** The upload handler's choice: "main", "men" and "kids" select that
      section; anything else, and a missing field, selects women. */
  function UploadSectionKey(section: string): (k: SectionKey)
    ensures k == Main <==> section == "main"
    ensures k == Men <==> section == "men"
    ensures k == Kids <==> section == "kids"
  {
    var selected := OrDefault(section, "women");
    if selected == "main" then Main
    else if selected == "men" then Men
    else if selected == "kids" then Kids
    else Women
  }

  /** The update and delete handlers' choice: only "men" and "kids" are
      recognised; everything else, "main" included, selects women. */
  function LookupSectionKey(section: string): (k: SectionKey)
    ensures k != Main
    ensures k == Men <==> section == "men"
    ensures k == Kids <==> section == "kids"
  {
    var selected := OrDefault(section, "women");
    if selected == "men" then Men
    else if selected == "kids" then Kids
    else Women
  }

  /** Update and delete choose as upload does, except that main becomes women. */
  lemma LookupSectionDropsMain(section: string)
    ensures LookupSectionKey(section)
         == if UploadSectionKey(section) == Main then Women else UploadSectionKey(section)
  {
  }

  // ---------------------------------------------------------------------
  // List resolution

  /** The guard of the upload handler's nested branch. */
  predicate HasType(key: SectionKey, s: Section, category: string, clothingType: string) {
    && key == Main && Given(category) && Given(clothingType)
    && category in s.categories && clothingType in s.categories[category].types
  }

  /** The list an upload goes to: the clothing type's list when the section
      is main and both the category and the type exist; else the category's
      list when the category exists; else the root list. Unknown names fall
      back silently and nothing is created. */
  function UploadTarget(key: SectionKey, s: Section, category: string, clothingType: string): (t: Target)
    ensures ValidTarget(s, t)
    ensures t.InType? <==> HasType(key, s, category, clothingType)
    ensures t.InCategory? <==> !HasType(key, s, category, clothingType) && Given(category) && category in s.categories
    ensures !t.Root? ==> t.category == category
    ensures t.InType? ==> t.clothingType == clothingType
  {
    if HasType(key, s, category, clothingType) then InType(category, clothingType)
    else if Given(category) && category in s.categories then InCategory(category)
    else Root
  }

  /** The list update and delete search: the category's list when the
      category exists, else the root list. The clothing type is never read. */
  function LookupTarget(s: Section, category: string): (t: Target)
    ensures ValidTarget(s, t) && !t.InType?
    ensures t.InCategory? <==> Given(category) && category in s.categories
    ensures t.InCategory? ==> t.category == category
  {
    if Given(category) && category in s.categories then InCategory(category) else Root
  }

  /** A clothing type's list seen one level up. */
  function Coarsen(t: Target): Target {
    match t
    case InType(c, _) => InCategory(c)
    case _ => t
  }

  /** Update/delete resolution is upload resolution without the type level;
      outside main the two coincide. */
  lemma LookupIsUploadWithoutTypes(key: SectionKey, s: Section, category: string, clothingType: string)
    ensures LookupTarget(s, category) == Coarsen(UploadTarget(key, s, category, clothingType))
    ensures key != Main ==> LookupTarget(s, category) == UploadTarget(key, s, category, clothingType)
  {
  }

  // ---------------------------------------------------------------------
  // Upload

  /** `slice(-n)` once the list is longer than `n`: its last `n` entries. */
  function KeepLast(l: seq<Image>, n: nat): (r: seq<Image>)
    ensures |r| == if |l| <= n then |l| else n
    ensures r == l[|l| - |r|..]
  {
    if |l| <= n then l else l[|l| - n..]
  }

  /** The record the upload handler builds. */
  function NewImage(filename: string, name: string, price: string,
                    idMillis: nat, nameMillis: nat, uploadedAt: string): (img: Image)
    ensures img.id == DecimalString(idMillis)
    ensures img.filename == filename
    ensures UploadsBase <= img.url && FilenameOfUrl(img.url) == filename
    ensures Given(name) ==> img.name == name
    ensures !Given(name) ==> img.name == "Product " + DecimalString(nameMillis)
    ensures Given(price) ==> img.price == price
    ensures !Given(price) ==> img.price == "$49.99"
    ensures img.uploadedAt == uploadedAt
  {
    Image(DecimalString(idMillis), filename, ImageUrl(filename),
          OrDefault(name, "Product " + DecimalString(nameMillis)),
          OrDefault(price, "$49.99"), uploadedAt)
  }

  /** The state after an upload of `img`. */
  function PlaceUpload(st: State, section: string, category: string, clothingType: string, img: Image): (r: State)
    ensures var key := UploadSectionKey(section);
            && Get(r, key).title == Get(st, key).title
            && Get(r, key).description == Get(st, key).description
            && Get(r, key).categories.Keys == Get(st, key).categories.Keys
  {
    var key := UploadSectionKey(section);
    var s := Get(st, key);
    var t := UploadTarget(key, s, category, clothingType);
    Put(st, key, WithList(s, t, KeepLast(ListAt(s, t) + [img], Cap(t))))
  }

  /** After an upload the target list is the last min(n + 1, cap) entries of
      the old list followed by the new image, which is last; every other list
      of every section, and every title, description, key and name, is as
      it was. */
  lemma PlaceUploadEffect(st: State, section: string, category: string, clothingType: string, img: Image)
    ensures var key := UploadSectionKey(section);
            var s := Get(st, key);
            var t := UploadTarget(key, s, category, clothingType);
            var s' := Get(PlaceUpload(st, section, category, clothingType, img), key);
            var l := ListAt(s, t);
            && ValidTarget(s', t)
            && |ListAt(s', t)| == (if |l| + 1 <= Cap(t) then |l| + 1 else Cap(t))
            && ListAt(s', t) == (l + [img])[|l| + 1 - |ListAt(s', t)|..]
            && ListAt(s', t)[|ListAt(s', t)| - 1] == img
            && (forall u :: ValidTarget(s, u) && u != t ==> ValidTarget(s', u) && ListAt(s', u) == ListAt(s, u))
            && Skeleton(s') == Skeleton(s)
    ensures forall k :: k != UploadSectionKey(section) ==>
              Get(PlaceUpload(st, section, category, clothingType, img), k) == Get(st, k)
  {
    var key := UploadSectionKey(section);
    var s := Get(st, key);
    var t := UploadTarget(key, s, category, clothingType);
    var l := ListAt(s, t);
    var l' := KeepLast(l + [img], Cap(t));
    WithListFrame(s, t, l');
    assert l'[|l'| - 1] == (l + [img])[|l|];
  }

  /** An upload keeps every list within its cap. */
  lemma PlaceUploadKeepsCaps(st: State, section: string, category: string, clothingType: string, img: Image)
    requires AllWithinCaps(st)
    ensures AllWithinCaps(PlaceUpload(st, section, category, clothingType, img))
  {
    var key := UploadSectionKey(section);
    var s := Get(st, key);
    var t := UploadTarget(key, s, category, clothingType);
    var r := PlaceUpload(st, section, category, clothingType, img);
    PlaceUploadEffect(st, section, category, clothingType, img);
    assert WithinCaps(s);
    forall u | ValidTarget(Get(r, key), u)
      ensures |ListAt(Get(r, key), u)| <= Cap(u)
    {
      WithListFrame(s, t, KeepLast(ListAt(s, t) + [img], Cap(t)));
    }
    assert WithinCaps(Get(r, key));
  }

  /** An image sent to main / featured / t-shirts of the built-in catalog
      lands in that clothing type's list, not in the category or root list. */
  lemma UploadToFeaturedTShirts(img: Image)
    ensures var main' := Get(PlaceUpload(Defaults(), "main", "featured", "t-shirts", img), Main);
            && "featured" in main'.categories
            && "t-shirts" in main'.categories["featured"].types
            && main'.categories["featured"].types["t-shirts"].images == [img]
            && main'.categories["featured"].images == []
            && main'.images == []
  {
    assert "featured" in DefaultMain().categories;
    assert "t-shirts" in DefaultMain().categories["featured"].types;
  }

  // ---------------------------------------------------------------------
  // Update and delete by id

  /** `findIndex(img => img.id === id)`: the first position holding `id`,
      or -1 when there is none. */
  function FirstIndexOf(l: seq<Image>, id: string): (i: int)
    ensures -1 <= i < |l|
    ensures i == -1 <==> forall j :: 0 <= j < |l| ==> l[j].id != id
    ensures i >= 0 ==> l[i].id == id && forall j :: 0 <= j < i ==> l[j].id != id
  {
    if l == [] then -1
    else if l[0].id == id then 0
    else
      var k := FirstIndexOf(l[1..], id);
      if k == -1 then -1 else k + 1
  }

  /** `if (name) img.name = name; if (price) img.price = price;` */
  function UpdatedImage(img: Image, name: string, price: string): (r: Image)
    ensures r.id == img.id && r.filename == img.filename
    ensures r.url == img.url && r.uploadedAt == img.uploadedAt
    ensures r.name == (if Given(name) then name else img.name)
    ensures r.price == (if Given(price) then price else img.price)
  {
    img.(name := OrDefault(name, img.name), price := OrDefault(price, img.price))
  }

  /** The answer of update and delete: the new state and the image the
      request acted on, or a 404. */
  datatype Outcome = Done(after: State, image: Image) | NotFound

  /** The list update and delete search for a request. */
  function SearchedList(st: State, section: string, category: string): seq<Image> {
    var s := Get(st, LookupSectionKey(section));
    ListAt(s, LookupTarget(s, category))
  }

  function ApplyUpdate(st: State, section: string, category: string, id: string, name: string, price: string): (r: Outcome)
    ensures r.Done? ==> r.image.id == id && r.after.main == st.main
  {
    var key := LookupSectionKey(section);
    var s := Get(st, key);
    var t := LookupTarget(s, category);
    var l := ListAt(s, t);
    var i := FirstIndexOf(l, id);
    if i == -1 then NotFound
    else
      var img := UpdatedImage(l[i], name, price);
      Done(Put(st, key, WithList(s, t, l[i := img])), img)
  }

  function ApplyDelete(st: State, section: string, category: string, id: string): (r: Outcome)
    ensures r.Done? ==> r.image.id == id && r.image in SearchedList(st, section, category) && r.after.main == st.main
  {
    var key := LookupSectionKey(section);
    var s := Get(st, key);
    var t := LookupTarget(s, category);
    var l := ListAt(s, t);
    var i := FirstIndexOf(l, id);
    if i == -1 then NotFound
    else Done(Put(st, key, WithList(s, t, l[..i] + l[i + 1..])), l[i])
  }

  /** An update whose id is found rewrites the first entry with it. */
  lemma ApplyUpdateAt(st: State, section: string, category: string, id: string, name: string, price: string)
    requires FirstIndexOf(SearchedList(st, section, category), id) != -1
    ensures var key := LookupSectionKey(section);
            var s := Get(st, key);
            var t := LookupTarget(s, category);
            var l := ListAt(s, t);
            var i := FirstIndexOf(l, id);
            var img := UpdatedImage(l[i], name, price);
            ApplyUpdate(st, section, category, id, name, price) == Done(Put(st, key, WithList(s, t, l[i := img])), img)
  {
  }

  /** Update and delete report not-found exactly when no entry of the
      searched list has the id. */
  lemma NotFoundIffAbsent(st: State, section: string, category: string, id: string, name: string, price: string)
    ensures var l := SearchedList(st, section, category);
            && (ApplyUpdate(st, section, category, id, name, price).NotFound? <==> forall j :: 0 <= j < |l| ==> l[j].id != id)
            && (ApplyDelete(st, section, category, id).NotFound? <==> forall j :: 0 <= j < |l| ==> l[j].id != id)
  {
    var s := Get(st, LookupSectionKey(section));
    var l := ListAt(s, LookupTarget(s, category));
    assert SearchedList(st, section, category) == l;
    assert ApplyUpdate(st, section, category, id, name, price).NotFound? <==> FirstIndexOf(l, id) == -1;
    assert ApplyDelete(st, section, category, id).NotFound? <==> FirstIndexOf(l, id) == -1;
  }

  /** An update rewrites the first entry with the id, replacing name and
      price only where a non-empty value is supplied; every other entry,
      list and section is as it was. */
  lemma ApplyUpdateEffect(st: State, section: string, category: string, id: string, name: string, price: string)
    requires ApplyUpdate(st, section, category, id, name, price).Done?
    ensures var o := ApplyUpdate(st, section, category, id, name, price);
            var key := LookupSectionKey(section);
            var s := Get(st, key);
            var t := LookupTarget(s, category);
            var s' := Get(o.after, key);
            var l := ListAt(s, t);
            exists i :: 0 <= i < |l|
              && l[i].id == id && (forall j :: 0 <= j < i ==> l[j].id != id)
              && o.image == UpdatedImage(l[i], name, price)
              && ValidTarget(s', t) && |ListAt(s', t)| == |l| && ListAt(s', t)[i] == o.image
              && (forall j :: 0 <= j < |l| && j != i ==> ListAt(s', t)[j] == l[j])
    ensures var o := ApplyUpdate(st, section, category, id, name, price);
            var key := LookupSectionKey(section);
            var s := Get(st, key);
            var t := LookupTarget(s, category);
            var s' := Get(o.after, key);
            && (forall u :: ValidTarget(s, u) && u != t ==> ValidTarget(s', u) && ListAt(s', u) == ListAt(s, u))
            && Skeleton(s') == Skeleton(s)
            && (forall k :: k != key ==> Get(o.after, k) == Get(st, k))
  {
    var key := LookupSectionKey(section);
    var s := Get(st, key);
    var t := LookupTarget(s, category);
    var l := ListAt(s, t);
    var i := FirstIndexOf(l, id);
    WithListFrame(s, t, l[i := UpdatedImage(l[i], name, price)]);
  }

  /** A delete removes exactly the first entry with the id; the others keep
      their order, and every other list and section is as it was. */
  lemma ApplyDeleteEffect(st: State, section: string, category: string, id: string)
    requires ApplyDelete(st, section, category, id).Done?
    ensures var o := ApplyDelete(st, section, category, id);
            var key := LookupSectionKey(section);
            var s := Get(st, key);
            var t := LookupTarget(s, category);
            var s' := Get(o.after, key);
            var l := ListAt(s, t);
            exists i :: 0 <= i < |l|
              && l[i].id == id && (forall j :: 0 <= j < i ==> l[j].id != id)
              && o.image == l[i]
              && ValidTarget(s', t) && |ListAt(s', t)| == |l| - 1
              && (forall j :: 0 <= j < i ==> ListAt(s', t)[j] == l[j])
              && (forall j :: i <= j < |l| - 1 ==> ListAt(s', t)[j] == l[j + 1])
              && multiset(ListAt(s', t)) + multiset{o.image} == multiset(l)
    ensures var o := ApplyDelete(st, section, category, id);
            var key := LookupSectionKey(section);
            var s := Get(st, key);
            var t := LookupTarget(s, category);
            var s' := Get(o.after, key);
            && (forall u :: ValidTarget(s, u) && u != t ==> ValidTarget(s', u) && ListAt(s', u) == ListAt(s, u))
            && Skeleton(s') == Skeleton(s)
            && (forall k :: k != key ==> Get(o.after, k) == Get(st, k))
  {
    var key := LookupSectionKey(section);
    var s := Get(st, key);
    var t := LookupTarget(s, category);
    var l := ListAt(s, t);
    var i := FirstIndexOf(l, id);
    var l' := l[..i] + l[i + 1..];
    WithListFrame(s, t, l');
    RemoveAt(l, i);
    var o := ApplyDelete(st, section, category, id);
    assert o.after == Put(st, key, WithList(s, t, l'));
    assert ListAt(Get(o.after, key), t) == l';
  }

  /** `splice(i, 1)`: the entries before `i` stay, the ones after move down
      by one, and the multiset loses exactly `l[i]`. */
  lemma RemoveAt(l: seq<Image>, i: nat)
    requires i < |l|
    ensures var l' := l[..i] + l[i + 1..];
            && |l'| == |l| - 1
            && (forall j :: 0 <= j < i ==> l'[j] == l[j])
            && (forall j :: i <= j < |l| - 1 ==> l'[j] == l[j + 1])
            && multiset(l') + multiset{l[i]} == multiset(l)
  {
    assert l == l[..i] + [l[i]] + l[i + 1..];
    assert multiset(l) == multiset(l[..i]) + multiset{l[i]} + multiset(l[i + 1..]);
  }

  /** Neither update nor delete can touch the main section: a named
      corollary of the contracts of ApplyUpdate and ApplyDelete. */
  lemma UpdateDeleteLeaveMain(st: State, section: string, category: string, id: string, name: string, price: string)
    ensures ApplyUpdate(st, section, category, id, name, price).Done? ==>
              ApplyUpdate(st, section, category, id, name, price).after.main == st.main
    ensures ApplyDelete(st, section, category, id).Done? ==>
              ApplyDelete(st, section, category, id).after.main == st.main
  {
  }

  /** When the category exists, only its list is searched: a miss there is a
      404 even if the root list holds the id. */
  lemma NoRootFallback(st: State, section: string, category: string, id: string, name: string, price: string)
    requires Given(category) && category in Get(st, LookupSectionKey(section)).categories
    requires forall j :: 0 <= j < |Get(st, LookupSectionKey(section)).categories[category].images| ==>
               Get(st, LookupSectionKey(section)).categories[category].images[j].id != id
    ensures ApplyUpdate(st, section, category, id, name, price) == NotFound
    ensures ApplyDelete(st, section, category, id) == NotFound
  {
  }

  /** Deleting "1" from women / jeans when "1" sits in women's root list:
      the request is a 404, while the same request without a category
      deletes it. */
  lemma DeleteJeansMissScenario(img: Image)
    requires img.id == "1"
    ensures var st := Defaults().(women := DefaultWomen().(images := [img]));
            && ApplyDelete(st, "women", "jeans", "1") == NotFound
            && ApplyDelete(st, "women", "", "1") == Done(Defaults(), img)
  {
    var st := Defaults().(women := DefaultWomen().(images := [img]));
    assert "jeans" in DefaultWomen().categories;
    assert DefaultWomen().categories["jeans"].images == [];
    assert FirstIndexOf([img], "1") == 0;
    assert st.women.(images := []) == DefaultWomen();
  }

  /** An update keeps every list within its cap. */
  lemma UpdateKeepsCaps(st: State, section: string, category: string, id: string, name: string, price: string)
    requires AllWithinCaps(st)
    requires ApplyUpdate(st, section, category, id, name, price).Done?
    ensures AllWithinCaps(ApplyUpdate(st, section, category, id, name, price).after)
  {
    var key := LookupSectionKey(section);
    var s := Get(st, key);
    var o := ApplyUpdate(st, section, category, id, name, price);
    assert WithinCaps(s);
    ApplyUpdateEffect(st, section, category, id, name, price);
    forall u | ValidTarget(Get(o.after, key), u)
      ensures |ListAt(Get(o.after, key), u)| <= Cap(u)
    {
      assert ValidTarget(s, u);
    }
    assert WithinCaps(Get(o.after, key));
  }

  /** A delete keeps every list within its cap. */
  lemma DeleteKeepsCaps(st: State, section: string, category: string, id: string)
    requires AllWithinCaps(st)
    requires ApplyDelete(st, section, category, id).Done?
    ensures AllWithinCaps(ApplyDelete(st, section, category, id).after)
  {
    var key := LookupSectionKey(section);
    var s := Get(st, key);
    var o := ApplyDelete(st, section, category, id);
    assert WithinCaps(s);
    ApplyDeleteEffect(st, section, category, id);
    forall u | ValidTarget(Get(o.after, key), u)
      ensures |ListAt(Get(o.after, key), u)| <= Cap(u)
    {
      assert ValidTarget(s, u);
    }
    assert WithinCaps(Get(o.after, key));
  }

  /** Update and delete keep every list within its cap: UpdateKeepsCaps and
      DeleteKeepsCaps stated together. */
  lemma UpdateDeleteKeepCaps(st: State, section: string, category: string, id: string, name: string, price: string)
    requires AllWithinCaps(st)
    ensures ApplyUpdate(st, section, category, id, name, price).Done? ==>
              AllWithinCaps(ApplyUpdate(st, section, category, id, name, price).after)
    ensures ApplyDelete(st, section, category, id).Done? ==>
              AllWithinCaps(ApplyDelete(st, section, category, id).after)
  {
    if ApplyUpdate(st, section, category, id, name, price).Done? {
      UpdateKeepsCaps(st, section, category, id, name, price);
    }
    if ApplyDelete(st, section, category, id).Done? {
      DeleteKeepsCaps(st, section, category, id);
    }
  }

  // ---------------------------------------------------------------------
  // Upload followed by update or delete

  /** In a capped list that had no entry with the new image's id, the first
      entry with that id is the new image, at the end. */
  lemma FreshImageFoundLast(l: seq<Image>, img: Image, n: nat)
    requires n >= 1
    requires forall j :: 0 <= j < |l| ==> l[j].id != img.id
    ensures var l1 := KeepLast(l + [img], n);
            |l1| >= 1 && FirstIndexOf(l1, img.id) == |l1| - 1
  {
    var l1 := KeepLast(l + [img], n);
    var off := |l| + 1 - |l1|;
    assert forall j :: 0 <= j < |l1| - 1 ==> l1[j] == l[off + j];
    assert l1[|l1| - 1] == img;
  }

  /** Capping a list with one entry appended keeps a suffix of the old list
      followed by that entry. */
  lemma KeepLastAppend(l: seq<Image>, x: Image, n: nat)
    requires n >= 1
    ensures var off := if |l| + 1 <= n then 0 else |l| + 1 - n;
            KeepLast(l + [x], n) == l[off..] + [x]
  {
    var off := if |l| + 1 <= n then 0 else |l| + 1 - n;
    assert (l + [x])[off..] == l[off..] + [x];
  }

  /** Rewriting the last entry of a capped list is capping with the
      rewritten entry. */
  lemma KeepLastReplaceLast(l: seq<Image>, img: Image, img': Image, n: nat)
    requires n >= 1
    ensures var l1 := KeepLast(l + [img], n);
            |l1| >= 1 && l1[|l1| - 1 := img'] == KeepLast(l + [img'], n)
  {
    var off := if |l| + 1 <= n then 0 else |l| + 1 - n;
    KeepLastAppend(l, img, n);
    KeepLastAppend(l, img', n);
    assert (l[off..] + [img])[|l| - off := img'] == l[off..] + [img'];
  }

  /** Outside main, an upload goes to the list that an update or delete
      with the same section and category searches, and leaves that list
      resolvable the same way afterwards. */
  lemma UploadLandsInSearchedList(st: State, section: string, category: string, clothingType: string, img: Image)
    requires UploadSectionKey(section) != Main
    ensures var key := UploadSectionKey(section);
            var s := Get(st, key);
            var t := LookupTarget(s, category);
            var after := PlaceUpload(st, section, category, clothingType, img);
            && LookupSectionKey(section) == key
            && SearchedList(st, section, category) == ListAt(s, t)
            && after == Put(st, key, WithList(s, t, KeepLast(ListAt(s, t) + [img], Cap(t))))
            && LookupTarget(Get(after, key), category) == t
  {
    var key := UploadSectionKey(section);
    var s := Get(st, key);
    var t := LookupTarget(s, category);
    LookupIsUploadWithoutTypes(key, s, category, clothingType);
    WithListFrame(s, t, KeepLast(ListAt(s, t) + [img], Cap(t)));
  }

  /** Within one section: after an upload of a fresh id, the first entry
      with that id is the last one, and rewriting it is uploading the
      rewritten image instead. */
  lemma RewriteUploaded(s: Section, t: Target, img: Image, img': Image)
    requires ValidTarget(s, t)
    requires forall j :: 0 <= j < |ListAt(s, t)| ==> ListAt(s, t)[j].id != img.id
    ensures var s1 := WithList(s, t, KeepLast(ListAt(s, t) + [img], Cap(t)));
            var l1 := ListAt(s1, t);
            && |l1| >= 1 && FirstIndexOf(l1, img.id) == |l1| - 1 && l1[|l1| - 1] == img
            && WithList(s1, t, l1[|l1| - 1 := img']) == WithList(s, t, KeepLast(ListAt(s, t) + [img'], Cap(t)))
  {
    var l := ListAt(s, t);
    var l1 := KeepLast(l + [img], Cap(t));
    FreshImageFoundLast(l, img, Cap(t));
    KeepLastReplaceLast(l, img, img', Cap(t));
    WithListTwice(s, t, l1, l1[|l1| - 1 := img']);
  }

  /** Outside main, an image uploaded with an id not yet in its list is found
      again by an update with the same section and category. */
  lemma UpdateFindsUpload(st: State, section: string, category: string, clothingType: string,
                          img: Image, name: string, price: string)
    requires UploadSectionKey(section) != Main
    requires forall j :: 0 <= j < |SearchedList(st, section, category)| ==> SearchedList(st, section, category)[j].id != img.id
    ensures ApplyUpdate(PlaceUpload(st, section, category, clothingType, img), section, category, img.id, name, price)
         == Done(PlaceUpload(st, section, category, clothingType, UpdatedImage(img, name, price)), UpdatedImage(img, name, price))
  {
    var key := UploadSectionKey(section);
    var s := Get(st, key);
    var t := LookupTarget(s, category);
    var img' := UpdatedImage(img, name, price);
    var s1 := WithList(s, t, KeepLast(ListAt(s, t) + [img], Cap(t)));
    var l1 := ListAt(s1, t);
    UploadLandsInSearchedList(st, section, category, clothingType, img);
    UploadLandsInSearchedList(st, section, category, clothingType, img');
    RewriteUploaded(s, t, img, img');
    var after := Put(st, key, s1);
    assert SearchedList(after, section, category) == l1;
    ApplyUpdateAt(after, section, category, img.id, name, price);
    PutTwice(st, key, s1, WithList(s1, t, l1[|l1| - 1 := img']));
  }

  /** Outside main, deleting the image just uploaded, when its list had room
      and no entry with its id, gives back the state before the upload. */
  lemma DeleteUndoesUpload(st: State, section: string, category: string, clothingType: string, img: Image)
    requires UploadSectionKey(section) != Main
    requires |SearchedList(st, section, category)| < Cap(LookupTarget(Get(st, UploadSectionKey(section)), category))
    requires forall j :: 0 <= j < |SearchedList(st, section, category)| ==> SearchedList(st, section, category)[j].id != img.id
    ensures ApplyDelete(PlaceUpload(st, section, category, clothingType, img), section, category, img.id) == Done(st, img)
  {
    var key := UploadSectionKey(section);
    var s := Get(st, key);
    var t := LookupTarget(s, category);
    var l := ListAt(s, t);
    var l1 := l + [img];
    UploadLandsInSearchedList(st, section, category, clothingType, img);
    FreshImageFoundLast(l, img, Cap(t));
    assert KeepLast(l1, Cap(t)) == l1;
    assert l1[..|l|] + l1[|l| + 1..] == l;
    WithListTwice(s, t, l1, l);
    WithListSame(s, t);
    assert Put(st, key, s) == st;
  }

  // ---------------------------------------------------------------------
  // Section title and description

  /** `if (title) s.title = title; if (description) s.description = description;`
      There is a route for women, men and kids only. */
  function ApplyEdit(st: State, key: SectionKey, title: string, description: string): (r: State)
    requires key != Main
    ensures r.main == st.main
    ensures Get(r, key).images == Get(st, key).images && Get(r, key).categories == Get(st, key).categories
    ensures forall k :: k != key ==> Get(r, k) == Get(st, k)
  {
    var s := Get(st, key);
    Put(st, key, s.(title := OrDefault(title, s.title), description := OrDefault(description, s.description)))
  }

  /** An edit sets title and description only where a non-empty value is
      supplied and changes nothing else. */
  lemma ApplyEditEffect(st: State, key: SectionKey, title: string, description: string)
    requires key != Main
    ensures var s := Get(st, key);
            var s' := Get(ApplyEdit(st, key, title, description), key);
            && s'.title == (if Given(title) then title else s.title)
            && s'.description == (if Given(description) then description else s.description)
            && s'.images == s.images && s'.categories == s.categories && s'.exploreLink == s.exploreLink
    ensures forall k :: k != key ==> Get(ApplyEdit(st, key, title, description), k) == Get(st, k)
  {
  }

  /** An edit keeps every list within its cap. */
  lemma ApplyEditKeepsCaps(st: State, key: SectionKey, title: string, description: string)
    requires key != Main
    requires AllWithinCaps(st)
    ensures AllWithinCaps(ApplyEdit(st, key, title, description))
  {
    var r := ApplyEdit(st, key, title, description);
    forall k
      ensures WithinCaps(Get(r, k))
    {
      assert WithinCaps(Get(st, k));
      forall t | ValidTarget(Get(r, k), t)
        ensures |ListAt(Get(r, k), t)| <= Cap(t)
      {
        assert ValidTarget(Get(st, k), t);
      }
    }
  }

  /** Sending the same edit twice is the same as sending it once. */
  lemma ApplyEditIdempotent(st: State, key: SectionKey, title: string, description: string)
    requires key != Main
    ensures ApplyEdit(ApplyEdit(st, key, title, description), key, title, description)
         == ApplyEdit(st, key, title, description)
  {
  }

  // ---------------------------------------------------------------------
  // Persistence

  /** The data file's content: one entry per section it contains. */
  datatype Snapshot = Snapshot(main: Option<Section>, women: Option<Section>, men: Option<Section>, kids: Option<Section>)

  /** What `saveData` writes: all four sections. */
  function SnapshotOf(st: State): (snap: Snapshot)
    ensures forall k :: Entry(snap, k) == Some(Get(st, k))
  {
    Snapshot(Some(st.main), Some(st.women), Some(st.men), Some(st.kids))
  }

  /** How `fs.writeFileSync` ends. It opens the file with flag `'w'`, which
      empties it, and then writes: a failure at the open leaves the old file,
      a failure after it leaves an empty or partial file. `saveData` swallows
      both. */
  datatype WriteOutcome = Written | OpenFailed | FailedAfterOpen

  /** The data file after `saveData` of `st`. An empty or partial file holds
      no parsable JSON document, so it loads as `None`. */
  function FileAfterSave(previous: Option<Snapshot>, st: State, w: WriteOutcome): Option<Snapshot> {
    match w
    case Written => Some(SnapshotOf(st))
    case OpenFailed => previous
    case FailedAfterOpen => None
  }

  function Entry(snap: Snapshot, k: SectionKey): Option<Section> {
    match k
    case Main => snap.main
    case Women => snap.women
    case Men => snap.men
    case Kids => snap.kids
  }

  /** The startup merge: each section found in the snapshot replaces the
      current one wholesale; a missing or unreadable file (`None`) keeps
      every section. */
  function Merge(current: State, saved: Option<Snapshot>): (r: State)
    ensures saved.None? ==> r == current
    ensures saved.Some? ==> forall k :: Get(r, k) == OrElse(Entry(saved.value, k), Get(current, k))
  {
    match saved
    case None => current
    case Some(snap) =>
      State(OrElse(snap.main, current.main), OrElse(snap.women, current.women),
            OrElse(snap.men, current.men), OrElse(snap.kids, current.kids))
  }

  /** Loading what was saved restores every section, whatever the server
      would otherwise start with. */
  lemma MergeRestoresSaved(st: State, current: State)
    ensures Merge(current, Some(SnapshotOf(st))) == st
  {
  }

  /** What the next start finds after a save: the saved sections, the state
      the previous file gives, or (after a write that failed past the open)
      the sections the server would otherwise start with. */
  lemma LoadAfterSave(previous: Option<Snapshot>, st: State, current: State, w: WriteOutcome)
    ensures Merge(current, FileAfterSave(previous, st, w))
         == match w
            case Written => st
            case OpenFailed => Merge(current, previous)
            case FailedAfterOpen => current
  {
    if w == Written {
      MergeRestoresSaved(st, current);
    }
  }

  /** The built-in catalog starts within the caps. */
  lemma DefaultsWithinCaps()
    ensures AllWithinCaps(Defaults())
  {
    DefaultsShape();
  }
}
