/** Property lookup as JavaScript performs it on the plain objects that hold
    a section's categories and a category's clothing types: `obj[name]` also
    finds the names every object inherits from Object.prototype. Their
    values are functions (or the prototype object itself), none of which has
    an `images` or a `types` property, so a handler that passes its guard on
    such a name then reads `.images` of it, gets `undefined`, and fails with
    a TypeError (an HTTP 500) before anything changes.

    The functions here resolve the target list as written, with that lookup;
    the rest of the model resolves on own keys only (Operations.UploadTarget,
    Operations.LookupTarget), which is the lenient fallback the handlers
    evidently intend. A category's `types` object with no entries is
    modelled as an absent one. */
module InheritedLookup {
  import opened Fields
  import opened Catalog
  import opened Operations

  /** The property names of Object.prototype. */
  const InheritedKeys: set<string> := {
    "constructor", "__proto__", "toString", "toLocaleString", "valueOf",
    "hasOwnProperty", "isPrototypeOf", "propertyIsEnumerable",
    "__defineGetter__", "__defineSetter__", "__lookupGetter__", "__lookupSetter__"}

  /** The upload handler's resolution as written; `None` is the TypeError. */
  function UploadTargetAsWritten(key: SectionKey, s: Section, category: string, clothingType: string): (r: Option<Target>)
    ensures r.Some? ==> r.value == UploadTarget(key, s, category, clothingType)
    ensures r.None? ==> category in InheritedKeys || clothingType in InheritedKeys
  {
    if key == Main && Given(category) && Given(clothingType) && category in s.categories
       && s.categories[category].types != map[]
       && clothingType !in s.categories[category].types && clothingType in InheritedKeys
    then None
    else if HasType(key, s, category, clothingType) then Some(InType(category, clothingType))
    else if Given(category) && category in s.categories then Some(InCategory(category))
    else if Given(category) && category in InheritedKeys then None
    else Some(Root)
  }

  /** The update and delete handlers' resolution as written; `None` is the
      TypeError. */
  function LookupTargetAsWritten(s: Section, category: string): (r: Option<Target>)
    ensures r.Some? ==> r.value == LookupTarget(s, category)
    ensures r.None? <==> Given(category) && category !in s.categories && category in InheritedKeys
  {
    if Given(category) && category in s.categories then Some(InCategory(category))
    else if Given(category) && category in InheritedKeys then None
    else Some(Root)
  }

  /** For every name that is not an inherited property name, the resolution
      as written is the one the model uses. */
  lemma AsWrittenAgreesOnPlainNames(key: SectionKey, s: Section, category: string, clothingType: string)
    requires category !in InheritedKeys && clothingType !in InheritedKeys
    ensures UploadTargetAsWritten(key, s, category, clothingType) == Some(UploadTarget(key, s, category, clothingType))
    ensures LookupTargetAsWritten(s, category) == Some(LookupTarget(s, category))
  {
  }

  /** A request naming category "constructor" in the built-in women section
      fails as written, in upload, update and delete alike, where the
      evident intent is to fall back to the root list. */
  lemma ConstructorCategoryFails()
    ensures UploadTargetAsWritten(Women, DefaultWomen(), "constructor", "") == None
    ensures LookupTargetAsWritten(DefaultWomen(), "constructor") == None
    ensures UploadTarget(Women, DefaultWomen(), "constructor", "") == Root
    ensures LookupTarget(DefaultWomen(), "constructor") == Root
  {
    assert "constructor" !in DefaultWomen().categories;
  }

  /** An upload to main / featured with clothing type "toString" fails as
      written, where the evident intent is the featured category's list. */
  lemma InheritedTypeNameFails()
    ensures UploadTargetAsWritten(Main, DefaultMain(), "featured", "toString") == None
    ensures UploadTarget(Main, DefaultMain(), "featured", "toString") == InCategory("featured")
  {
    assert "featured" in DefaultMain().categories;
    assert "t-shirts" in DefaultMain().categories["featured"].types;
    assert "toString" !in MainTypes();
  }
}
