# Catalog store of the Miola clothing backend, in Dafny

The backend keeps a storefront image catalog in memory: four section records
(`main`, `women`, `men`, `kids`), each with a title, a description, a root
image list and a fixed dictionary of categories; only the categories of
`main` carry a further dictionary of clothing types, each with its own image
list. Request handlers upload an image into one of these lists (with a cap
and first-in-first-out eviction), update an image's name and price by id,
delete an image by id, and edit a section's title and description; after
every change the four sections are written to a data file, which the server
reads back at startup.

This project models that store and proves what its handlers do.

- `fields.dfy` (module `Fields`): request fields. A missing field and `""`
  are both falsy in JavaScript and the handlers treat them alike, so every
  optional field is a `string` in which `""` stands for both.
- `naming.dfy` (module `Naming`): the decimal form of `Date.now()`, the
  stored file name `${section}-${timestamp}-${random}${ext}`, the image URL
  `http://localhost:5000/uploads/<file>` and the `image/` MIME filter.
- `catalog.dfy` (module `Catalog`): the records (`Image`, `ClothingType`,
  `Category`, `Section`, the four-section `State`), a `Target` naming one
  image list, list replacement with its frame lemmas, the caps (6 for a root
  list, 10 for a category or clothing type list) and the built-in sections.
- `operations.dfy` (module `Operations`): each handler as a function of the
  state before the request, and the lemmas about them.
- `store.dfy` (module `Store`): class `CatalogStore`, whose four section
  fields and data-file field the methods change in place as the handlers
  do; each method is proved against the function of `Operations` for the
  same request.
- `inherited_lookup.dfy` (module `InheritedLookup`): target resolution with JavaScript's
  inherited property lookup, for the finding below.

Outside inputs are parameters: the two `Date.now()` readings of an upload
(id and default name), the ISO upload time, the stored file name, the file
content at startup (`None` for a missing or unparsable file), whether the
delete handler's `fs.unlinkSync` succeeds (`unlinkOk`), and how the data
file write ends (`WriteOutcome`). `fs.writeFileSync` opens the file with
flag `'w'`, which empties it, and then writes. A failure at the open leaves
the old file. A failure after the open leaves an empty or partial file,
which the next start cannot parse, so it starts from the built-in sections.
`saveData` swallows both failures and the request still succeeds.

Behaviour kept as the code has it, including its asymmetries:

- Upload selects `main`, `men` or `kids` by name and `women` otherwise;
  update and delete recognise only `men` and `kids`, so `"main"` means
  `women` there and the main section can never be updated or deleted from.
- Upload resolves clothing type, then category, then root; update and
  delete never read the clothing type, and when the category exists they
  search only its list: a miss there is a 404 even when the root list holds
  the id (server.js:298-306, 345-353; `Operations.NoRootFallback`,
  `Operations.DeleteJeansMissScenario`).
- The cap applies only to the list just appended to; a snapshot loaded at
  startup may hold longer lists, so staying within the caps is proved as an
  invariant that upload, update, delete and the section edits preserve and
  the built-in sections satisfy, not as a property of every state.
- Update and delete act on the first entry with the id; ids come from
  `Date.now()` and may repeat.

## Model

| member | source | states |
|---|---|---|
| `Naming.DecimalString` | backend/server.js:231 | the id `Date.now().toString()` is a non-empty string of decimal digits with no leading zero |
| `Naming.DecimalRoundTrip` | backend/server.js:231 | reading the decimal form of a timestamp back gives the timestamp |
| `Naming.DecimalInjective` | backend/server.js:231 | distinct timestamps give distinct ids |
| `Naming.StoredFilename` | backend/server.js:30-33 | the stored name starts with the raw section field (default `women`) and a dash and ends with the original extension |
| `Naming.StoredFilenameInjective` | backend/server.js:31-33 | for one section field and extension, distinct (timestamp, random) pairs give distinct file names |
| `Naming.UploadsBaseNamesPort` | backend/server.js:12 | the URL prefix carries the server's port 5000 |
| `Naming.ImageUrl` | backend/server.js:233 | the URL is the uploads prefix followed by exactly the file name |
| `Naming.ImageUrlInjective` | backend/server.js:233 | different file names give different URLs |
| `Naming.IsImageMime` | backend/server.js:39-45 | a file is accepted exactly when its MIME type begins with `image/` |
| `Catalog.WithListFrame` | backend/server.js:241-258 | replacing one list keeps every title, description, key and name, keeps the set of lists and leaves every other list unchanged |
| `Catalog.Defaults` | backend/server.js:76-168 | the built-in sections: every root list empty, main with categories featured, trending and sale and no explore link, the others with one |
| `Catalog.DefaultsShape` | backend/server.js:76-168 | only main categories have clothing types, each main category has the same eight, and every list starts empty |
| `Operations.UploadSectionKey` | backend/server.js:216-228 | upload selects main, men, kids exactly for those names, women for every other or missing value |
| `Operations.LookupSectionKey` | backend/server.js:283-292 | update selects men, kids exactly for those names, never main, women otherwise |
| `Operations.LookupSectionDropsMain` | backend/server.js:330-339 | delete's (and update's) choice is upload's with main replaced by women |
| `Operations.UploadTarget` | backend/server.js:240-259 | the type list exactly when the section is main and category and type both exist, else the category list exactly when the category exists, else the root list; always an existing list |
| `Operations.LookupTarget` | backend/server.js:294-300 | the category list exactly when the category is given and exists, else the root list; never a type list |
| `Operations.LookupIsUploadWithoutTypes` | backend/server.js:341-347 | delete/update resolution is upload resolution with the type level removed, and equal to it outside main |
| `Operations.PlaceUpload` | backend/server.js:239-259 | an upload changes only the chosen section's image lists: its title, description and category keys stay, and every other section is kept (together with `Operations.PlaceUploadEffect`) |
| `Operations.KeepLast` | backend/server.js:243-244 | `slice(-n)` after an overflow keeps the last min(length, n) entries in order |
| `Operations.NewImage` | backend/server.js:230-237 | the new record's id is the timestamp's decimal form, its URL names its file, name defaults to `Product <ms>` and price to `$49.99` only when empty |
| `Operations.PlaceUploadEffect` | backend/server.js:239-259 | the target list becomes the last min(n+1, cap) entries of the old list plus the new image, which is last; every other list and section, and every key and name, is unchanged |
| `Operations.PlaceUploadKeepsCaps` | backend/server.js:250-257 | an upload keeps every list within its cap (6 root, 10 category or type) |
| `Operations.UploadToFeaturedTShirts` | backend/server.js:240-241 | an upload to main / featured / t-shirts lands in that type's list, not in the category or root list |
| `Operations.FirstIndexOf` | backend/server.js:302 | `findIndex`: -1 exactly when no entry has the id, else the first entry having it |
| `Operations.UpdatedImage` | backend/server.js:308-309 | name and price are replaced only by non-empty values; id, filename, url and uploadedAt are kept |
| `Operations.ApplyUpdate` | backend/server.js:283-309 | a found update acts on an image with the requested id and never changes main (together with `Operations.ApplyUpdateEffect`) |
| `Operations.ApplyDelete` | backend/server.js:330-363 | a found delete removes an image with the requested id taken from the searched list and never changes main (together with `Operations.ApplyDeleteEffect`) |
| `Operations.NotFoundIffAbsent` | backend/server.js:302-306 | update and delete report not-found exactly when the searched list has no entry with the id |
| `Operations.ApplyUpdateEffect` | backend/server.js:302-309 | update rewrites exactly the first entry with the id; all other entries, lists and sections are unchanged |
| `Operations.ApplyDeleteEffect` | backend/server.js:349-363 | delete removes exactly the first entry with the id; the list shrinks by one, the others keep their order, the multiset loses just that image, nothing else changes |
| `Operations.RemoveAt` | backend/server.js:363 | `splice(i, 1)` keeps the entries before `i`, shifts the later ones down by one and removes exactly one copy of the entry at `i` |
| `Operations.UpdateDeleteLeaveMain` | backend/server.js:285-292 | neither update nor delete ever changes the main section |
| `Operations.NoRootFallback` | backend/server.js:297-305 | with an existing category, a miss in its list is not-found for update and delete whatever the root list holds |
| `Operations.DeleteJeansMissScenario` | backend/server.js:344-353 | deleting id "1" from women / jeans when "1" is only in women's root list is a 404, while the same delete without a category removes it |
| `Operations.UpdateKeepsCaps` | backend/server.js:302-309 | a found update keeps every list within its cap |
| `Operations.DeleteKeepsCaps` | backend/server.js:349-363 | a found delete keeps every list within its cap |
| `Operations.UpdateDeleteKeepCaps` | backend/server.js:363 | update and delete keep every list within its cap |
| `Operations.UpdateFindsUpload` | backend/server.js:294-309 | outside main, an update with the section and category of an upload whose id was new finds that image and the result is the upload of the updated image |
| `Operations.DeleteUndoesUpload` | backend/server.js:341-363 | outside main, deleting a freshly uploaded image from a list that had room restores the state before the upload |
| `Operations.ApplyEdit` | backend/server.js:377-381 | an edit keeps the section's images and categories, never touches main and keeps every other section |
| `Operations.ApplyEditEffect` | backend/server.js:377-381 | an edit sets title and description only to non-empty values and leaves images, categories, link and other sections unchanged |
| `Operations.ApplyEditIdempotent` | backend/server.js:398-399 | repeating an edit changes nothing further |
| `Operations.ApplyEditKeepsCaps` | backend/server.js:377-381 | an edit keeps every list within its cap |
| `Operations.SnapshotOf` | backend/server.js:262-267 | the data `saveData` receives holds every one of the four sections as it is |
| `Operations.Merge` | backend/server.js:432-437 | each section present in a snapshot replaces the current one; a missing file keeps every section |
| `Operations.MergeRestoresSaved` | backend/server.js:262-267 | loading the snapshot `saveData` writes restores all four sections |
| `Operations.LoadAfterSave` | backend/server.js:54-73 | the next start finds the saved sections after a successful write, whatever the previous file gave after a failed open, and the built-in sections after a failure past the open |
| `Operations.DefaultsWithinCaps` | backend/server.js:76-168 | the built-in sections start within the caps |
| `Store.CatalogStore.constructor` | backend/server.js:76-168 | the store starts with the built-in sections and the data file as found |
| `Store.CatalogStore.SectionAt` | backend/server.js:220-228 | reads the section record the key names |
| `Store.CatalogStore.SetSection` | backend/server.js:434-437 | replaces the named section record and no other |
| `Store.CatalogStore.Save` | backend/server.js:67-73 | a successful write records all four sections; a failure at the open leaves the file as it was; a failure after the open leaves a file that loads as nothing |
| `Store.CatalogStore.Startup` | backend/server.js:430-439 | the sections become the merge of the file into the built-in ones |
| `Store.CatalogStore.Upload` | backend/server.js:209-267 | returns the new record and leaves the sections as the upload placement states, then saves |
| `Store.CatalogStore.Update` | backend/server.js:280-323 | a 404 changes nothing, not even the file; otherwise answers with the updated image and leaves the sections as the update states, then saves |
| `Store.CatalogStore.Delete` | backend/server.js:327-373 | a 404 changes nothing; an unlink that throws is a 500 that changes nothing; otherwise answers success without the image and leaves the sections as the delete states, then saves |
| `Store.CatalogStore.EditMeta` | backend/server.js:377-428 | the women, men and kids edit routes leave the sections as the edit states, then save |
| `Store.Restart` | backend/server.js:430-437 | a server restarted on the file its predecessor last wrote starts with the predecessor's sections |
| `InheritedLookup.UploadTargetAsWritten` | backend/server.js:240-259 | the upload resolution with inherited property lookup: whenever it does not fail it picks the model's list, and it fails only on an inherited category or clothing type name |
| `InheritedLookup.LookupTargetAsWritten` | backend/server.js:298-299 | the update and delete resolution with inherited property lookup: it fails exactly on an inherited category name that is not an own key, and otherwise picks the model's list |
| `InheritedLookup.AsWrittenAgreesOnPlainNames` | backend/server.js:240-259 | for names that are not inherited property names, resolution as written equals the model's |
| `InheritedLookup.ConstructorCategoryFails` | backend/server.js:246-248 | category `constructor` passes the guard as written and fails; the model falls back to the root list |
| `InheritedLookup.InheritedTypeNameFails` | backend/server.js:240-241 | clothing type `toString` under main / featured passes the guard as written and fails; the model uses the category list |

## Left out

- HTTP transport: Express routing, CORS, JSON body parsing, the static
  `/uploads` route and the four GET handlers, which only return a section
  record (`Store.CatalogStore.SectionAt` is that read).
- The multer disk storage itself, the 5 MB size limit, the missing-file 400
  answer and the error answer of a rejected MIME type: these belong to a
  foreign library. `Store.CatalogStore.Upload` starts once the file is stored
  and takes its name as a parameter; the naming and MIME rules are modelled
  as pure functions.
- Filesystem calls (creating the uploads directory, writing the uploaded
  file, unlinking it on delete, reading and writing the data file) and JSON
  serialisation: the data file is the field `disk` holding a snapshot, the
  unlink is represented only by whether it throws (`unlinkOk`), and
  JSON of these string-only records is taken to round-trip exactly. A
  snapshot whose sections are not shaped like sections (say, with no
  `categories`) is not modelled.
- `Date.now()`, `Math.random()` and `new Date().toISOString()` are
  parameters, because they are nondeterministic.
- Console logging, and the upload handler's catch-all 500 answer.
- `Store.CatalogStore.Upload`, `Update` and `Delete` follow the corrected
  resolution on own keys: the 500 of an inherited category or clothing type
  name (see the findings) is modelled only in module `InheritedLookup`.
- Concurrency between requests: the code assumes one request at a time, and
  so does the model.
- Request fields that are not strings (a numeric `price` in a JSON body):
  every field is a string.
- Object identity: the nested section, category and image objects are
  values; in the source each is reachable by exactly one path, so no
  aliasing is lost.
- A `types` object with no entries is treated like an absent one; the
  handlers give both the same result except in the inherited-name case of
  the findings.
- backend/server-minimal.js (a hello-world server) and
  backend/auth0Middleware.js (a pass-through middleware) hold no catalog
  logic and are not part of this model.

## Findings

| source | as written | input that shows it | evidently intended | confidence | as-written member | corrected member |
|---|---|---|---|---|---|---|
| backend/server.js:240-259, 298-299, 345-346 | `categories[category]` and `types[clothingType]` are ordinary property reads, so Object.prototype names such as `constructor` or `toString` pass the existence guard; the handler then reads `.images` of a function, gets `undefined`, and the request fails with a TypeError (500) | upload, update or delete with `section=women&category=constructor`; upload with `section=main&category=featured&clothingType=toString` | unknown names fall back to the next broader list, as for any other unknown name | not executed | `InheritedLookup.UploadTargetAsWritten`, `InheritedLookup.LookupTargetAsWritten`, exhibited by `InheritedLookup.ConstructorCategoryFails` and `InheritedLookup.InheritedTypeNameFails` | `Operations.UploadTarget`, `Operations.LookupTarget` (always an existing list), related by `InheritedLookup.AsWrittenAgreesOnPlainNames` |
