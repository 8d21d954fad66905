/** The catalog's data: four sections, each with a root image list and a
    dictionary of categories; a category may hold a dictionary of clothing
    types, each with its own image list. A `Target` names one of these lists. */
module Catalog {
  import opened Fields

  /** One uploaded product photo. Only `name` and `price` ever change. */
  datatype Image = Image(
    id: string,
    filename: string,
    url: string,
    name: string,
    price: string,
    uploadedAt: string)

  datatype ClothingType = ClothingType(name: string, images: seq<Image>)

  /** A category; `types` is empty for a category that has none. */
  datatype Category = Category(name: string, images: seq<Image>, types: map<string, ClothingType>)

  datatype Section = Section(
    title: string,
    description: string,
    images: seq<Image>,
    exploreLink: Option<string>,
    categories: map<string, Category>)

  datatype SectionKey = Main | Women | Men | Kids

  /** The four module-level section records. */
  datatype State = State(main: Section, women: Section, men: Section, kids: Section)

  function Get(st: State, k: SectionKey): Section {
    match k
    case Main => st.main
    case Women => st.women
    case Men => st.men
    case Kids => st.kids
  }

  function Put(st: State, k: SectionKey, s: Section): (r: State)
    ensures Get(r, k) == s
    ensures forall j :: j != k ==> Get(r, j) == Get(st, j)
  {
    match k
    case Main => st.(main := s)
    case Women => st.(women := s)
    case Men => st.(men := s)
    case Kids => st.(kids := s)
  }

  /** The last write to a section wins. */
  lemma PutTwice(st: State, k: SectionKey, a: Section, b: Section)
    ensures Put(Put(st, k, a), k, b) == Put(st, k, b)
  {
  }

  /** One image list of a section. */
  datatype Target = Root | InCategory(category: string) | InType(category: string, clothingType: string)

  predicate ValidTarget(s: Section, t: Target) {
    match t
    case Root => true
    case InCategory(c) => c in s.categories
    case InType(c, ty) => c in s.categories && ty in s.categories[c].types
  }

  function ListAt(s: Section, t: Target): seq<Image>
    requires ValidTarget(s, t)
  {
    match t
    case Root => s.images
    case InCategory(c) => s.categories[c].images
    case InType(c, ty) => s.categories[c].types[ty].images
  }

  /** The section with the list at `t` replaced by `l`. */
  function WithList(s: Section, t: Target, l: seq<Image>): (r: Section)
    requires ValidTarget(s, t)
    ensures ValidTarget(r, t) && ListAt(r, t) == l
  {
    match t
    case Root => s.(images := l)
    case InCategory(c) => s.(categories := s.categories[c := s.categories[c].(images := l)])
    case InType(c, ty) =>
      var cat := s.categories[c];
      s.(categories := s.categories[c := cat.(types := cat.types[ty := cat.types[ty].(images := l)])])
  }

  /** A section with every image list emptied: what is left is what no image
      operation may change (title, description, link, category and type keys
      and names). */
  function Skeleton(s: Section): Section {
    s.(images := [], categories := map c | c in s.categories :: EmptyCategory(s.categories[c]))
  }

  function EmptyCategory(cat: Category): Category {
    cat.(images := [], types := map ty | ty in cat.types :: cat.types[ty].(images := []))
  }

  /** Replacing one list keeps the skeleton, keeps the set of lists, and
      leaves every other list as it was. */
  lemma WithListFrame(s: Section, t: Target, l: seq<Image>)
    requires ValidTarget(s, t)
    ensures Skeleton(WithList(s, t, l)) == Skeleton(s)
    ensures forall u :: ValidTarget(WithList(s, t, l), u) <==> ValidTarget(s, u)
    ensures forall u :: ValidTarget(s, u) && u != t ==> ListAt(WithList(s, t, l), u) == ListAt(s, u)
  {
    var r := WithList(s, t, l);
    match t
    case Root =>
    case InCategory(c) =>
      assert Skeleton(r).categories == Skeleton(s).categories;
    case InType(c, ty) =>
      assert EmptyCategory(r.categories[c]) == EmptyCategory(s.categories[c]);
      assert Skeleton(r).categories == Skeleton(s).categories;
  }

  /** Writing back the list that is already there changes nothing. */
  lemma WithListSame(s: Section, t: Target)
    requires ValidTarget(s, t)
    ensures WithList(s, t, ListAt(s, t)) == s
  {
    match t
    case Root =>
    case InCategory(c) =>
      assert s.categories[c := s.categories[c]] == s.categories;
    case InType(c, ty) =>
      var cat := s.categories[c];
      assert cat.types[ty := cat.types[ty]] == cat.types;
      assert s.categories[c := cat] == s.categories;
  }

  /** The last write to a list wins. */
  lemma WithListTwice(s: Section, t: Target, l1: seq<Image>, l2: seq<Image>)
    requires ValidTarget(s, t)
    ensures WithList(WithList(s, t, l1), t, l2) == WithList(s, t, l2)
  {
    match t
    case Root =>
    case InCategory(c) =>
      assert WithList(s, t, l1).categories[c := s.categories[c].(images := l2)]
          == s.categories[c := s.categories[c].(images := l2)];
    case InType(c, ty) =>
      var cat := s.categories[c];
      var cat1 := cat.(types := cat.types[ty := cat.types[ty].(images := l1)]);
      assert cat1.types[ty := cat.types[ty].(images := l2)] == cat.types[ty := cat.types[ty].(images := l2)];
      assert s.categories[c := cat1][c := cat1.(types := cat.types[ty := cat.types[ty].(images := l2)])]
          == s.categories[c := cat.(types := cat.types[ty := cat.types[ty].(images := l2)])];
  }

  /** The caps of the source: 6 images in a root list, 10 in a category or
      clothing type list. */
  function Cap(t: Target): nat {
    if t.Root? then 6 else 10
  }

  ghost predicate WithinCaps(s: Section) {
    forall t :: ValidTarget(s, t) ==> |ListAt(s, t)| <= Cap(t)
  }

  ghost predicate AllWithinCaps(st: State) {
    forall k :: WithinCaps(Get(st, k))
  }

  // The built-in sections the server starts with.

  function EmptyType(name: string): ClothingType {
    ClothingType(name, [])
  }

  function EmptyFlat(name: string): Category {
    Category(name, [], map[])
  }

  /** The eight clothing types of every main-section category. */
  function MainTypes(): map<string, ClothingType> {
    map[
      "t-shirts" := EmptyType("T-shirts"),
      "dresses" := EmptyType("Dresses"),
      "crop-tops" := EmptyType("Crop Tops"),
      "pants" := EmptyType("Pants"),
      "jeans" := EmptyType("Jeans"),
      "skirts" := EmptyType("Skirts"),
      "shorts" := EmptyType("Shorts"),
      "caps" := EmptyType("Caps")]
  }

  function DefaultMain(): Section {
    Section("Home Page", "Main page collection", [], None, map[
      "featured" := Category("Featured", [], MainTypes()),
      "trending" := Category("Trending", [], MainTypes()),
      "sale" := Category("Sale", [], MainTypes())])
  }

  function DefaultWomen(): Section {
    Section("Women's Collection", "Discover the latest trends in women's fashion", [], Some("/women"), map[
      "crop-tops" := EmptyFlat("Crop Tops"),
      "t-shirts" := EmptyFlat("T-shirts"),
      "dresses" := EmptyFlat("Dresses"),
      "jeans" := EmptyFlat("Jeans"),
      "skirts" := EmptyFlat("Skirts"),
      "ethical-clothing" := EmptyFlat("Ethical Clothing")])
  }

  function DefaultMen(): Section {
    Section("Men's Collection", "Modern fashion for the contemporary man", [], Some("/men"), map[
      "t-shirts" := EmptyFlat("T-shirts"),
      "shirts" := EmptyFlat("Shirts"),
      "jeans" := EmptyFlat("Jeans"),
      "pants" := EmptyFlat("Pants"),
      "caps" := EmptyFlat("Caps")])
  }

  function DefaultKids(): Section {
    Section("Kids' Collection", "Adorable outfits for your little ones", [], Some("/kids"), map[
      "t-shirts" := EmptyFlat("T-shirts"),
      "tops" := EmptyFlat("Tops"),
      "pants" := EmptyFlat("Pants"),
      "shorts" := EmptyFlat("Shorts"),
      "dresses" := EmptyFlat("Dresses"),
      "caps" := EmptyFlat("Caps")])
  }

  /** Every root list starts empty; main has the three categories featured,
      trending and sale and no explore link, the other sections have one. */
  function Defaults(): (d: State)
    ensures forall k :: Get(d, k).images == []
    ensures d.main.categories.Keys == {"featured", "trending", "sale"}
    ensures d.main.exploreLink == None
    ensures forall k :: k != Main ==> Get(d, k).exploreLink.Some?
  {
    State(DefaultMain(), DefaultWomen(), DefaultMen(), DefaultKids())
  }

  /** A section with empty lists and no clothing types. */
  ghost predicate FlatAndEmpty(s: Section) {
    && s.images == []
    && forall c :: c in s.categories ==> s.categories[c].images == [] && s.categories[c].types == map[]
  }

  lemma DefaultWomenFlat()
    ensures FlatAndEmpty(DefaultWomen())
  {
  }

  lemma DefaultMenFlat()
    ensures FlatAndEmpty(DefaultMen())
  {
  }

  lemma DefaultKidsFlat()
    ensures FlatAndEmpty(DefaultKids())
  {
  }

  lemma DefaultMainEmpty()
    ensures DefaultMain().images == []
    ensures forall c :: c in DefaultMain().categories ==>
              DefaultMain().categories[c].images == [] && DefaultMain().categories[c].types == MainTypes()
    ensures forall ty :: ty in MainTypes() ==> MainTypes()[ty].images == []
  {
  }

  /** Only main-section categories carry clothing types, and every section
      starts with every list empty. */
  lemma DefaultsShape()
    ensures forall k, c :: k != Main && c in Get(Defaults(), k).categories ==> Get(Defaults(), k).categories[c].types == map[]
    ensures forall c :: c in DefaultMain().categories ==> DefaultMain().categories[c].types == MainTypes()
    ensures forall k, t :: ValidTarget(Get(Defaults(), k), t) ==> ListAt(Get(Defaults(), k), t) == []
  {
    DefaultWomenFlat();
    DefaultMenFlat();
    DefaultKidsFlat();
    DefaultMainEmpty();
    forall k, t | ValidTarget(Get(Defaults(), k), t)
      ensures ListAt(Get(Defaults(), k), t) == []
    {
      assert k != Main ==> FlatAndEmpty(Get(Defaults(), k));
    }
  }
}
