# tidyphotos core, modelled in Dafny

tidyphotos is a self-hosted photo library. An importer walks a photos
directory and records every new image in a SQLite database. It also asks for
a WebP thumbnail of each one. An HTTP server then serves the full-size photos
and exposes JSON endpoints for people and for face tags (rectangles on a
photo, optionally linked to a person).

This project models three parts of the system and proves properties about
them:

- **The store** (`store.dfy`, module `FaceStore`). This models the
  `photos`, `people` and `face_tags` tables as the class `Database`. Each
  table is a sequence of rows plus the last id that its `AUTOINCREMENT`
  counter handed out. The invariant `Valid` says four things: ids are
  positive; they strictly increase in row order; none is above its table's
  counter; and photo paths are unique.
  - Each method does what its SQL statement does. Every method states the
    full new state of all three tables, so "nothing else changes" is part
    of every contract.
  - The `ORDER BY` queries are an insertion sort, `Ordering.SortBy`, over the
    table order.
- **The server's request handling** (`server.dfy`, module `Server`). This
  covers the photo-serving decision and the four JSON handlers. They act on a
  `Database` and are written as methods with a decoded request as input.
  - `paths.dfy` (module `Paths`) models the cleaning that `filepath.Join`
    does. It also models `filepath.Rel` over sequences of path elements and
    the `isPathSafe` check.
  - `gotext.dfy` (module `GoText`) models the Go library routines that the
    core depends on: `filepath.Ext`, `strings.ToLower`, decimal
    formatting, and `fmt.Sscanf(s, "%d", &id)`.
- **The importer** (`importer.dfy`, module `Importer`).
  - `IsImageFile` is the extension test.
  - `ScanAndImport` collects the filenames already stored, then walks a
    given sequence of directory entries. Each entry carries its EXIF
    outcome and its thumbnail outcome, so those are inputs, not computed.
  - The method is proved equal to a reference fold, `ScanFrom`. Lemmas on
    the fold state the counting and skipping rules.

`ordering.dfy` holds the generic insertion sort and the
lexicographic text order, which is SQLite's `BINARY` collation.
`wrappers.dfy` holds `Option` and `Result`.

Modelling choices:

- **Time.** The clock (`time.Now().Unix()`) is a `now` parameter.
- **Working directory.** `filepath.Abs` of the photos directory is a
  parameter, with `None` meaning that it failed.
- **Files on disk.** The set of existing files is a parameter.
- **Request bodies.** A request body is an `Option` of its decoded fields.
  `None` means the JSON did not decode. A missing field decodes to its
  zero value (`""`, `0.0`, `false`, `None`).
- **Store failures.** The only store failure modelled is the `UNIQUE`
  constraint on `photos.path`. Driver failures, the 500 answers, are not
  modelled.

## Model

| member | source | states |
|---|---|---|
| FaceStore.Database.InsertPhoto | internal/db/db.go:141-158 | A path already stored makes the insert fail and leaves every table as it was. Otherwise exactly one row is appended with the next id, the given path, filename and metadata, the current time, favorite false and no thumbnail path. The returned id is above every earlier id. |
| FaceStore.Database.GetPhotos | internal/db/db.go:161-182 | The result holds every stored photo, each as often as stored, most recently imported first. |
| FaceStore.ImportedOrder | internal/db/db.go:165 | "Newer or equally recent import" is a total preorder, so sorting by it is meaningful. |
| FaceStore.Database.GetPeople | internal/db/db.go:185-206 | The result holds every person, each as often as stored, ordered by name. |
| FaceStore.NameOrder | internal/db/db.go:189 | Ordering people by name with byte-wise text comparison is a total preorder. |
| Ordering.TextLeTotal | internal/db/db.go:189 | The byte-wise text order relates any two strings, in one direction or the other. |
| Ordering.TextLeTransitive | internal/db/db.go:189 | The byte-wise text order is transitive. |
| Ordering.TextLeAntisymmetric | internal/db/db.go:189 | Two strings that are each at most the other are equal. |
| Ordering.SortBySorted | internal/db/db.go:161-182 | Sorting by a total preorder gives a sorted permutation of the input. |
| Ordering.InsertBySorted | internal/db/db.go:173-179 | Inserting into a sorted sequence keeps it sorted and adds exactly that element. |
| FaceStore.Database.InsertPerson | internal/db/db.go:209-219 | One person is appended with a fresh id, the given name, no face encodings and the current time. Photos and face tags are unchanged. |
| FaceStore.Database.UpdatePerson | internal/db/db.go:222-225 | The new people table is `Renamed`: only the name of the row with that id changes. A missing id changes nothing. |
| FaceStore.Renamed | internal/db/db.go:222-225 | Every row keeps its position. A row with another id is unchanged. A row with that id changes only its name. |
| FaceStore.Database.DeletePerson | internal/db/db.go:228-231 | The person with that id is removed and everyone else is kept. A missing id leaves the table unchanged. Face tags that point at the person stay in place. |
| FaceStore.WithoutPerson | internal/db/db.go:228-231 | A person is in the result exactly when it was in the table with another id. If no row has the id, the table is returned as it was. |
| FaceStore.Database.GetFaceTagsForPhoto | internal/db/db.go:234-255 | A tag is in the result exactly when it is stored with that photo filename. The result holds each such tag as often as `TagsFor` does, ordered by creation time. |
| FaceStore.TagsFor | internal/db/db.go:236-240 | The filter keeps exactly the tags of that photo filename, each as many times as the table holds it. |
| FaceStore.CreatedOrder | internal/db/db.go:239 | Ordering by creation time is a total preorder. |
| FaceStore.Database.InsertFaceTag | internal/db/db.go:259-275 | Exactly one row is appended with the next id, returned to the caller. An absent person id is stored as no person. The other tables are unchanged. |
| FaceStore.Database.UpdateFaceTag | internal/db/db.go:279-291 | The new face tag table is `Retagged`. The other tables and the id counter are unchanged. |
| FaceStore.Retagged | internal/db/db.go:279-291 | Only the row with that id changes, and only in its person link, box and confidence. An absent person id clears the link. Id, photo filename, manual flag and creation time stay the same. Every other row is unchanged. |
| FaceStore.Database.DeleteFaceTag | internal/db/db.go:294-297 | The new face tag table is `WithoutTag`, and the other tables are unchanged. Deleting an absent id is not an error. |
| FaceStore.WithoutTag | internal/db/db.go:294-297 | A tag is in the result exactly when it was stored with another id. An absent id leaves the table as it was. |
| FaceStore.WithoutTagRemovesOne | internal/db/db.go:294-297 | When the id is present, exactly one row is removed. |
| FaceStore.Filenames | internal/importer/importer.go:54-57 | A name is in the set exactly when some stored photo has that filename. |
| Paths.CleanFrom | cmd/server/main.go:113 | Lexical cleaning yields a clean path (no empty, "." or ".." elements) no longer than its inputs, and a run of plain names is simply appended to the directory. |
| Paths.CleanFromAppend | cmd/server/main.go:113 | Cleaning is compositional: cleaning two runs of elements one after the other is the same as cleaning them together. |
| Paths.DotElementVanishes | cmd/server/main.go:113 | An empty or "." element anywhere in the path changes nothing. |
| Paths.ParentCancels | cmd/server/main.go:113 | A name followed by ".." cancels out wherever it occurs. |
| Paths.ParentOfRoot | cmd/server/main.go:113 | ".." at the root stays at the root. |
| Paths.JoinClean | cmd/server/main.go:113 | Joining a tail to the directory yields a clean absolute path, and a tail made of plain names lands right below the directory. |
| Paths.JoinCleanOfNames | cmd/server/main.go:113 | Names written out with '/' between them join to the directory followed by exactly those names. |
| Paths.SiblingJoin | cmd/server/main.go:113 | "../<sibling>" resolves to the sibling of the directory. |
| Paths.SplitPath | cmd/server/main.go:111-113 | Splitting at '/' yields at least one element, none containing '/', and writing the elements back out with '/' between them gives the input back. |
| Paths.SplitJoin | cmd/server/main.go:111-113 | Conversely, splitting elements written out with '/' between them gives those elements back. |
| Paths.CommonPrefixLen | cmd/server/main.go:159 | The result is the length of the longest common prefix of the two paths. |
| Paths.Rel | cmd/server/main.go:159 | The relative path is "." for the base itself, the elements below the base for a target under it, and starts with ".." for any other target. |
| Paths.IsPathSafe | cmd/server/main.go:148-166 | A failed `Abs` on either side is never safe, and a safe target lies strictly below the base. |
| Paths.PathSafeExactly | cmd/server/main.go:159-165 | For absolute clean paths, `isPathSafe` holds exactly when three things hold: the target is strictly below the base, it extends the base, and the first element below the base does not start with '.'. |
| Paths.EscapesUnsafe | cmd/server/main.go:159-165 | The base itself, its parent and a sibling reached via "../" are all rejected. |
| Server.ContentType | cmd/server/main.go:128-137 | Case-sensitive dispatch: ".png" gives image/png, ".heic" or ".HEIC" gives image/heic, ".webp" gives image/webp, anything else gives image/jpeg. |
| Server.ServePhoto | cmd/server/main.go:108-145 | Without an absolute photos directory the answer is 400. Otherwise the answer is that of `ServeJoined` for the cleaned join of the directory and the request. |
| Server.ServeJoined | cmd/server/main.go:113-143 | A path `isPathSafe` refuses gets 400. A safe path that does not exist gets 404. A safe existing path is served with the content type of its last element's extension. |
| Server.OrdinaryRequestServed | cmd/server/main.go:108-143 | A request whose elements are plain names, the first not starting with '.', is served from right below the photos directory when the file exists, with the content type of its extension, and gets 404 otherwise. |
| Server.NamesBelowSafe | cmd/server/main.go:148-166 | Plain names below the directory, the first not starting with '.', form a safe path. |
| Server.ServedInsidePhotosDir | cmd/server/main.go:113-125 | A served path lies strictly inside the photos directory, and its first element below that directory does not start with '.'. An unsafe request gets 400 whatever files exist, so the safety check comes before the existence check. |
| Server.EscapingRequestsRefused | cmd/server/main.go:113-119 | The empty path, ".." and "../<sibling>" are answered 400, even when the file they name exists. |
| Server.NoWorkingDirectoryNothingServed | cmd/server/main.go:149-157 | When the photos directory cannot be made absolute, every request gets 400. |
| Server.UpperCaseExtensionsServedAsJpeg | cmd/server/main.go:128-137 | The importer accepts ".PNG" and ".JPG", but both are served as image/jpeg. ".HEIC" is recognised. |
| Server.DefaultConfidence | cmd/server/main.go:397-400 | A confidence of exactly 0 becomes 1.0, any other value is kept, and the result is never 0. |
| Server.Present | cmd/server/main.go:357-371 | A listed tag carries the stored tag's id, filename, box, confidence and manual flag. Its `person_id` is present exactly when the stored link is non-null, and then equals it. |
| Server.Show | cmd/server/main.go:231-238 | A listed person carries the stored id, name and creation time. |
| Server.TagViews | cmd/server/main.go:356-371 | One response entry per tag, in order, each the presentation of that tag. |
| Server.PersonViews | cmd/server/main.go:231-238 | One response entry per person, in order. |
| Server.StatusOf | cmd/server/main.go:269-270 | Error and empty replies carry their own status. Lists and JSON objects are 200. |
| Server.ListFaceTags | cmd/server/main.go:330-374 | Without a photo parameter the answer is 400 and nothing else. Otherwise the answer lists the photo's tags (`ListsTags`): each stored tag of the photo once, nothing else, in `created_at` order. |
| Server.ListedTagsExactly | cmd/server/main.go:356-371 | A tag listing has as many entries as the photo has tags, lists every tag of the photo, and every entry is some tag of that photo. |
| Server.TagsListedFrom | cmd/server/main.go:356-371 | The same facts for the listing produced from a given ordering of the photo's tags. |
| Server.ListPeople | cmd/server/main.go:218-241 | The answer lists the people (`ListsPeople`): everyone once, nothing else, in byte-wise name order. |
| Server.ListedPeopleExactly | cmd/server/main.go:231-238 | A people listing has one entry per person, lists every person, every entry is some person, and names are in byte-wise order. |
| Server.HandleFaceTags | cmd/server/main.go:327-424 | GET answers as `ListFaceTags` does (400 without a photo, otherwise `ListsTags` of the stored tags) without changing the store. A POST with an undecodable body or an empty photo_filename gets 400 and inserts nothing. A valid POST inserts one tag with confidence 0 replaced by 1.0, returns the new id and advances only the face tag counter to it. Any other method gets 405 and changes nothing. The photo and person counters never change. |
| Server.HandleFaceTagActions | cmd/server/main.go:427-471 | An id that does not scan gets 400 whatever the method, with no change. PUT with an undecodable body gets 400. PUT otherwise gets 200 and the table becomes `Retagged` with the confidence exactly as sent. DELETE gets 204 with the table `WithoutTag`. Other methods get 405 and change nothing. Photos, people and all three counters never change. |
| Server.HandlePeople | cmd/server/main.go:215-273 | GET answers with `ListsPeople` of the stored people (everyone once, in name order) without changes. A POST with an undecodable body or an empty name gets 400 before the store is touched. A valid POST appends one person, echoes the new id and the name, and advances only the person counter to it. Other methods get 405 and change nothing. The photo and face tag counters never change. |
| Server.HandlePersonActions | cmd/server/main.go:276-324 | An id that does not scan gets 400 before method dispatch. A PUT with a bad body or an empty name gets 400 with no change. A valid PUT renames the person and echoes the id and name. DELETE gets 204 and removes only that person. Other methods get 405 and change nothing. Photos, face tags and all three counters never change. |
| Server.TrailingPathIgnored | cmd/server/main.go:279-284 | Every int64 id written in decimal scans back to itself, also when a "/" and anything else follow the digits. |
| GoText.ScanFormatRoundTrip | cmd/server/main.go:430-435 | An int64 written with `%d` and followed by a non-digit scans back to the same number with `%d`. |
| GoText.ScanDecimal | cmd/server/main.go:279-284 | A scanned id always fits in an int64. Which inputs scan, and to what, is stated by `ScanDecimalOf` and `ScanDecimalRejects`. |
| GoText.SkipSpace | cmd/server/main.go:281 | Skipping leaves a suffix of the input that does not start with white space, and fails only on input holding a newline. |
| GoText.SkipSpaces | cmd/server/main.go:281 | Leading white space other than newlines is skipped entirely. |
| GoText.ScanSigned | cmd/server/main.go:281 | A number read at the start of the input fits in an int64 and contains a digit. |
| GoText.ScanDecimalOf | cmd/server/main.go:281 | Spaces, a sign ("", "+" or "-"), a digit run and anything not starting with a digit scan as the signed value of the digits when it fits an int64, and fail otherwise. |
| GoText.ScanSignedOf | cmd/server/main.go:281 | A sign and a digit run followed by a non-digit scan as the signed value of the digits when it fits an int64, and fail otherwise. |
| GoText.ScanDecimalRejects | cmd/server/main.go:432 | Input whose first character after the spaces is a newline, the end, neither a sign nor a digit, or a sign not followed by a digit never scans. |
| GoText.ScanNeedsDigit | cmd/server/main.go:279-284 | Input without any digit never scans. |
| GoText.Ext | internal/importer/importer.go:231 | The extension is a suffix of the path that starts with '.' and has no other '.' and no '/'. If it is empty, every '.' in the path is followed later by a '/'. |
| GoText.ExtOfSuffix | internal/importer/importer.go:231 | A trailing ".xyz" with no '.' or '/' in "xyz" is exactly the extension, whatever precedes it. |
| GoText.ExtWithoutDot | internal/importer/importer.go:231 | A path without a '.' has an empty extension. |
| GoText.LowerChar | internal/importer/importer.go:231 | 'A'..'Z' are lowered by 32 and other ASCII code points are kept. Only ASCII code points, U+0130 or U+212A lower to an ASCII letter. |
| GoText.ToLower | internal/importer/importer.go:231 | Lowering preserves length and works code point by code point. |
| GoText.FormatNat | internal/importer/importer.go:112 | The decimal form is non-empty, made of digits, and has no leading zero. |
| GoText.FormatNatValue | internal/importer/importer.go:112 | The digits denote the number formatted. |
| GoText.FormatInt | internal/importer/importer.go:112 | Non-empty, and it starts with '-' exactly for negative numbers. |
| Importer.IsImageFileByExtension | internal/importer/importer.go:230-237 | For a name ending in an extension, the verdict depends only on the lower-cased extension being .jpg, .jpeg, .png, .heic or .webp. |
| Importer.UpperCaseExtensionsAreImages | internal/importer/importer.go:230-237 | Upper-case ".JPG" and ".PNG" are images, whatever precedes them. |
| Importer.NoDotNoImage | internal/importer/importer.go:230-237 | A path with no '.' is never an image. |
| Importer.IsImageFile | internal/importer/importer.go:230-237 | An image path ends in its extension: a '.' followed by three or four more characters. |
| Importer.KnownFilenames | internal/importer/importer.go:47-57 | The set built from `GetPhotos` is exactly the set of stored filenames. |
| Importer.FilenamesOfPermutation | internal/importer/importer.go:48-57 | Reading the table in another order gives the same filename set. |
| Importer.ScanAndImport | internal/importer/importer.go:44-131 | The new photo table, the id counter, the counters, the thumbnail requests and the wrapped walk error are exactly those of `ScanFrom`. The known filenames are the ones stored before the walk, and people and face tags are unchanged. |
| Importer.ImportEntry | internal/importer/importer.go:68-119 | One walk callback has exactly the effect of `Step`. |
| Importer.Step | internal/importer/importer.go:68-117 | One walk callback adds a row exactly when the entry is an image file with an unknown filename whose path is not stored, and that row has the entry's path, name and metadata and the next id. A new photo is then counted, its `<id>.webp` thumbnail is requested, and the thumbnail counter advances exactly when generation succeeds. Otherwise the state is unchanged. |
| Importer.ScanFrom | internal/importer/importer.go:63-66 | The scan ends in an error exactly when the walk reports one. |
| Importer.ScanFromAt | internal/importer/importer.go:63-66 | From position i the walk takes one step, or stops with the walk error found at i. |
| Importer.ScanCounts | internal/importer/importer.go:102-117 | Rows are only appended. `newPhotos` grows by the number of rows added, that is successful inserts only. Each added row has exactly one thumbnail request, for `<id>.webp` in the thumbnail directory. Thumbnails grow no faster than new photos. |
| Importer.ThumbnailsNeverExceedNewPhotos | internal/importer/importer.go:108-117 | After a scan, thumbnails generated ≤ new photos = rows added = thumbnail requests. |
| Importer.ScanInsertsOnlyNewImages | internal/importer/importer.go:68-102 | Every added row comes from a visited entry that is a file, an image, and whose filename was not known before the scan. The row stores that entry's path, filename and metadata. Its id is above every id handed out before. |
| Importer.StepAdds | internal/importer/importer.go:68-108 | One step appends only rows for its own entry, with ids above the last one. |
| Importer.KnownFilenamesSkipped | internal/importer/importer.go:80-83 | A walk in which every visited filename was already known imports nothing and changes nothing. |
| Importer.SameFilenameTwiceBothImported | internal/importer/importer.go:54-57 | The known set is not updated during the walk. So two new images with the same filename at different paths are both imported. |
| Importer.FailedInsertContinues | internal/importer/importer.go:102-106 | An insert that fails on an already-stored path is passed over, and the walk goes on with nothing counted. |
| Importer.ExifFailureStillImported | internal/importer/importer.go:85-117 | A new image without EXIF data is still inserted, with no metadata. It is counted and its thumbnail is requested. |
| Importer.ThumbnailFailureStillImported | internal/importer/importer.go:101-117 | A new image whose thumbnail generation fails is still inserted and counted as a new photo, but not as a generated thumbnail. |
| Importer.ThumbnailsCountSuccesses | internal/importer/importer.go:108-117 | Over a whole walk, the thumbnail counter advances with every new photo when all generations succeed, and stays put when none does. |
| Importer.WalkErrorAborts | internal/importer/importer.go:63-66 | A walk error ends the scan. Entries after it have no effect, and the error is returned. |
| Importer.JobsForAppend | internal/importer/importer.go:112 | The thumbnail requests for two runs of rows are the requests for the first run followed by those for the second. |

## Left out

- HTTP plumbing is not modelled. That covers routing, `ServeMux` path cleaning, headers, `http.ServeFile`, caching and JSON encoding and decoding. Requests are given as decoded values and replies as `Reply` values.
- Failures of the SQLite driver and of row scanning are not modelled, so no handler answers 500. The only store error modelled is the `UNIQUE` constraint on `photos.path`.
- The `albums`, `photo_people` and `import_status` tables and `initSchema` are not modelled. No core operation touches those tables.
- Foreign keys are not enforced, as in SQLite's default configuration. Deleting a person leaves their face tags pointing at the old id.
- FaceStore.Database.GetPhotos, FaceStore.Database.GetPeople and FaceStore.Database.GetFaceTagsForPhoto: rows that compare equal under `ORDER BY` come out in whatever order the insertion sort over the table gives them. The contracts promise only a sorted permutation, which is also all that SQL promises for ties.
- `listPhotos`, `serveThumbnail`, `ImportStats`, `getEnv`, `New` and `Open` are not modelled. They are I/O or configuration outside the modelled core.
- `time.Now` is a parameter, and the Unix-to-RFC 3339 date formatting is not modelled.
- `filepath.Abs` depends on the working directory, so its result for the photos directory is a parameter. The model assumes that `os.Getwd` answers the same for both calls inside `isPathSafe`.
- Server.ServePhoto: only "does not exist" is modelled from `os.Stat`. Other `Stat` errors fall through to `http.ServeFile` in the source.
- Server.ServePhoto: the content type comes from the extension of the last element of the cleaned absolute path. Whenever the path is safe, this is the extension of the joined path that the source inspects.
- The exiftool, vips, sips and cwebp processes and the filesystem walk are inputs: a sequence of entries, each carrying its EXIF result and its thumbnail outcome. Thumbnail files are not written. The model records a request for each one instead.
- GoText.ToLower: exact only where Go's lower case is ASCII. Other non-ASCII code points are kept unchanged, which does not affect the extension test.
- GoText.ScanDecimal: does not model how `Sscanf` reports how many items it read. Only success or failure and the value are modelled.
- The `int64` width of ids is not modelled in the store; ids are unbounded.
- The `float64` box and confidence fields are modelled as `real`. They are only stored, copied and compared with 0, so rounding plays no part.
- `cmd/regenerate-thumbs/main.go` and `cmd/regen-thumbs/main.go` are not part of this model. At `cmd/regenerate-thumbs/main.go:42`, `regenerate-thumbs` names a thumbnail `string(rune(photo.ID)) + ".webp"`: the character with that code point, not the decimal id that the importer writes.
- Face detection, descriptor matching and the tag-drawing controls are not part of this model, because they are not in these source files.
