/** The server's module-level state: the four section records, which the
    handlers change in place, and the data file, which every mutating handler
    overwrites with a snapshot of all four sections. Each method performs the
    handler's steps and is proved against the function in module Operations
    that describes the same request. */
module Store {
  import opened Fields
  import opened Catalog
  import opened Operations

  /** The answer of the update and delete handlers: success with the
      updated image (update), success with no image (delete), the 404 of an
      id that is not found, or the 500 of an exception thrown on the way. */
  datatype Reply = Success(image: Image) | Deleted | Missing | Failure

  class CatalogStore {
    var main: Section
    var women: Section
    var men: Section
    var kids: Section
    /** The content of the data file: `None` when there is no file or it
        cannot be parsed. */
    var disk: Option<Snapshot>

    function Sections(): State
      reads this
    {
      State(main, women, men, kids)
    }

    /** The built-in sections, before the startup merge. */
    constructor (file: Option<Snapshot>)
      ensures Sections() == Defaults()
      ensures disk == file
    {
      main := DefaultMain();
      women := DefaultWomen();
      men := DefaultMen();
      kids := DefaultKids();
      disk := file;
    }

    function SectionAt(k: SectionKey): (s: Section)
      reads this
      ensures s == Get(Sections(), k)
    {
      match k
      case Main => main
      case Women => women
      case Men => men
      case Kids => kids
    }

    method SetSection(k: SectionKey, s: Section)
      modifies this`main, this`women, this`men, this`kids
      ensures Sections() == Put(old(Sections()), k, s)
    {
      match k
      case Main => main := s;
      case Women => women := s;
      case Men => men := s;
      case Kids => kids := s;
    }

    /** `saveData`: a failure is swallowed. One at the open leaves the file as
        it was; one after the open has emptied it leaves a file the next
        start cannot parse. */
    method Save(w: WriteOutcome)
      modifies this`disk
      ensures w == Written ==> disk == Some(SnapshotOf(Sections()))
      ensures w == OpenFailed ==> disk == old(disk)
      ensures w == FailedAfterOpen ==> disk == None
    {
      match w
      case Written => disk := Some(Snapshot(Some(main), Some(women), Some(men), Some(kids)));
      case OpenFailed =>
      case FailedAfterOpen => disk := None;
    }

    /** The startup load: every section present in the file replaces the
        built-in one. */
    method Startup()
      modifies this
      ensures Sections() == Merge(old(Sections()), disk)
      ensures disk == old(disk)
    {
      var saved := disk;
      if saved.Some? {
        main := OrElse(saved.value.main, main);
        women := OrElse(saved.value.women, women);
        men := OrElse(saved.value.men, men);
        kids := OrElse(saved.value.kids, kids);
      }
    }

    /** POST /api/upload-image, once the file is stored as `filename`.
        `idMillis` and `nameMillis` are the two `Date.now()` readings,
        `uploadedAt` the ISO time. */
    method Upload(name: string, price: string, section: string, category: string, clothingType: string,
                  filename: string, idMillis: nat, nameMillis: nat, uploadedAt: string, w: WriteOutcome)
      returns (image: Image)
      modifies this
      ensures image == NewImage(filename, name, price, idMillis, nameMillis, uploadedAt)
      ensures Sections() == PlaceUpload(old(Sections()), section, category, clothingType, image)
      ensures disk == FileAfterSave(old(disk), Sections(), w)
    {
      ghost var before := Sections();
      var key := UploadSectionKey(section);
      var target := SectionAt(key);
      image := NewImage(filename, name, price, idMillis, nameMillis, uploadedAt);
      var dest := UploadTarget(key, target, category, clothingType);
      var images := ListAt(target, dest) + [image];
      if |images| > Cap(dest) {
        images := images[|images| - Cap(dest)..];
      }
      assert images == KeepLast(ListAt(target, dest) + [image], Cap(dest));
      SetSection(key, WithList(target, dest, images));
      assert Sections() == PlaceUpload(before, section, category, clothingType, image);
      Save(w);
    }

    /** PUT /api/update-image/:id; with the own-key resolution it never fails
        with a 500. */
    method Update(id: string, name: string, price: string, section: string, category: string, w: WriteOutcome)
      returns (reply: Reply)
      modifies this
      ensures var o := ApplyUpdate(old(Sections()), section, category, id, name, price);
              && (o.NotFound? ==> reply == Missing && Sections() == old(Sections()) && disk == old(disk))
              && (o.Done? ==> reply == Success(o.image) && Sections() == o.after
                              && disk == FileAfterSave(old(disk), o.after, w))
    {
      var key := LookupSectionKey(section);
      var target := SectionAt(key);
      var dest := LookupTarget(target, category);
      var images := ListAt(target, dest);
      var index := FirstIndexOf(images, id);
      if index == -1 {
        return Missing;
      }
      var image := images[index];
      if Given(name) {
        image := image.(name := name);
      }
      if Given(price) {
        image := image.(price := price);
      }
      assert image == UpdatedImage(images[index], name, price);
      images := images[index := image];
      SetSection(key, WithList(target, dest, images));
      assert Sections() == ApplyUpdate(old(Sections()), section, category, id, name, price).after;
      Save(w);
      reply := Success(image);
    }

    /** DELETE /api/delete-image/:id. Before the entry is removed the image's
        file is unlinked when it exists; `unlinkOk` says that the file is
        absent or the unlink succeeds. An unlink that throws ends the request
        with a 500 before anything changes. */
    method Delete(id: string, section: string, category: string, unlinkOk: bool, w: WriteOutcome)
      returns (reply: Reply)
      modifies this
      ensures var o := ApplyDelete(old(Sections()), section, category, id);
              && (o.NotFound? ==> reply == Missing && Sections() == old(Sections()) && disk == old(disk))
              && (o.Done? && !unlinkOk ==> reply == Failure && Sections() == old(Sections()) && disk == old(disk))
              && (o.Done? && unlinkOk ==> reply == Deleted && Sections() == o.after
                                          && disk == FileAfterSave(old(disk), o.after, w))
    {
      var key := LookupSectionKey(section);
      var target := SectionAt(key);
      var dest := LookupTarget(target, category);
      var images := ListAt(target, dest);
      var index := FirstIndexOf(images, id);
      if index == -1 {
        return Missing;
      }
      var image := images[index];  // `image.filename` is the file to unlink
      if !unlinkOk {
        return Failure;
      }
      images := images[..index] + images[index + 1..];
      SetSection(key, WithList(target, dest, images));
      assert Sections() == ApplyDelete(old(Sections()), section, category, id).after;
      Save(w);
      reply := Deleted;
    }

    /** PUT /api/women-section, /api/men-section and /api/kids-section. */
    method EditMeta(key: SectionKey, title: string, description: string, w: WriteOutcome)
      requires key != Main
      modifies this
      ensures Sections() == ApplyEdit(old(Sections()), key, title, description)
      ensures disk == FileAfterSave(old(disk), Sections(), w)
    {
      var s := SectionAt(key);
      if Given(title) {
        s := s.(title := title);
      }
      if Given(description) {
        s := s.(description := description);
      }
      SetSection(key, s);
      Save(w);
    }
  }

  /** A server restarted on the file its predecessor wrote last starts with
      the sections the predecessor had. */
  method Restart(previous: CatalogStore) returns (next: CatalogStore)
    requires previous.disk == Some(SnapshotOf(previous.Sections()))
    ensures fresh(next)
    ensures next.Sections() == previous.Sections()
  {
    next := new CatalogStore(previous.disk);
    next.Startup();
    MergeRestoresSaved(previous.Sections(), Defaults());
  }
}
