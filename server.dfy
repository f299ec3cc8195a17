/**
 * The HTTP server's request handling, without the HTTP plumbing: serving a
 * full-size photo from the photos directory, and the JSON endpoints for
 * people and face tags. A request arrives as its method, the part of the
 * URL path after the route prefix (or the `photo` query parameter) and its
 * decoded JSON body, `None` when the body does not decode. A handler
 * answers with a `Reply` and acts on the `Database`.
 */
module Server {
  import opened Wrappers
  import opened GoText
  import opened Paths
  import opened Ordering
  import opened FaceStore
  import Importer

  const StatusOK := 200
  const StatusNoContent := 204
  const StatusBadRequest := 400
  const StatusNotFound := 404
  const StatusMethodNotAllowed := 405

  // ---------------------------------------------------------------------
  // Full-size photos

  /** The Content-Type sent for a photo, chosen by its exact extension. */
  function ContentType(ext: string): (ct: string)
    ensures ct == "image/png" <==> ext == ".png"
    ensures ct == "image/heic" <==> ext == ".heic" || ext == ".HEIC"
    ensures ct == "image/webp" <==> ext == ".webp"
    ensures ct == "image/jpeg" <==> ext !in {".png", ".heic", ".HEIC", ".webp"}
  {
    if ext == ".png" then "image/png"
    else if ext == ".heic" || ext == ".HEIC" then "image/heic"
    else if ext == ".webp" then "image/webp"
    else "image/jpeg"
  }

  datatype PhotoReply =
    | PhotoError(status: int)
    | PhotoFile(path: Path, contentType: string)

  /**
   * `servePhoto`: `absDir` is `filepath.Abs` of the photos directory
   * (`None` when it fails), `tail` the URL path after "/api/photos/" and
   * `files` the absolute paths that exist. The joined path is checked with
   * `isPathSafe` first (400), then for existence (404); otherwise the file
   * is served with the content type of its extension.
   */
  function ServePhoto(absDir: Option<Path>, tail: string, files: set<Path>): (r: PhotoReply)
    requires absDir.Some? ==> IsClean(absDir.value)
    ensures absDir.None? ==> r == PhotoError(StatusBadRequest)
    ensures absDir.Some? ==> r == ServeJoined(absDir.value, JoinClean(absDir.value, tail), files)
  {
    if absDir.None? then PhotoError(StatusBadRequest)
    else ServeJoined(absDir.value, JoinClean(absDir.value, tail), files)
  }

  /**
   * The answer for the joined path `full`: 400 unless `isPathSafe` accepts
   * it, then 404 unless the file exists, and otherwise the file with the
   * content type of its extension.
   */
  function ServeJoined(absDir: Path, full: Path, files: set<Path>): (r: PhotoReply)
    ensures !IsPathSafe(Some(full), Some(absDir)) ==> r == PhotoError(StatusBadRequest)
    ensures IsPathSafe(Some(full), Some(absDir)) && full !in files ==> r == PhotoError(StatusNotFound)
    ensures IsPathSafe(Some(full), Some(absDir)) && full in files ==>
              r == PhotoFile(full, ContentType(Ext(full[|full| - 1])))
  {
    if !IsPathSafe(Some(full), Some(absDir)) then PhotoError(StatusBadRequest)
    else if full !in files then PhotoError(StatusNotFound)
    else PhotoFile(full, ContentType(Ext(full[|full| - 1])))
  }

  /**
   * An ordinary request, a tail whose '/'-separated elements are all plain
   * names and whose first name does not start with '.', is served from
   * right below the photos directory when the file exists, with the content
   * type of its own extension, and is answered 404 when it does not.
   */
  lemma OrdinaryRequestServed(absDir: Path, tail: string, files: set<Path>)
    requires IsClean(absDir) && IsClean(SplitPath(tail)) && SplitPath(tail)[0][0] != '.'
    ensures var names := SplitPath(tail);
            var full := absDir + names;
            ServePhoto(Some(absDir), tail, files) ==
              if full in files then PhotoFile(full, ContentType(Ext(names[|names| - 1])))
              else PhotoError(StatusNotFound)
  {
    var names := SplitPath(tail);
    var full := absDir + names;
    assert IsPathSafe(Some(full), Some(absDir)) by {
      NamesBelowSafe(absDir, names);
    }
    assert full[|full| - 1] == names[|names| - 1];
  }


  /** Names below the directory, the first not starting with '.', are a safe path. */
  lemma NamesBelowSafe(absDir: Path, names: seq<string>)
    requires IsClean(absDir) && IsClean(names) && names != [] && names[0][0] != '.'
    ensures IsPathSafe(Some(absDir + names), Some(absDir))
  {
    var full := absDir + names;
    assert full[..|absDir|] == absDir && full[|absDir|] == names[0];
    assert IsClean(full) by {
      assert forall i :: |absDir| <= i < |full| ==> full[i] == names[i - |absDir|];
    }
    PathSafeExactly(full, absDir);
  }


  /**
   * Only paths strictly below the photos directory are ever served, and
   * never one whose first element below it starts with '.'; a request the
   * safety check refuses is answered 400 whichever files exist.
   */
  lemma ServedInsidePhotosDir(absDir: Path, tail: string, files: set<Path>)
    requires IsClean(absDir)
    ensures var r := ServePhoto(Some(absDir), tail, files);
            r.PhotoFile? ==>
              |absDir| < |r.path| && r.path[..|absDir|] == absDir && r.path[|absDir|][0] != '.'
    ensures !IsPathSafe(Some(JoinClean(absDir, tail)), Some(absDir)) ==>
              ServePhoto(Some(absDir), tail, files) == PhotoError(StatusBadRequest)
  {
    PathSafeExactly(JoinClean(absDir, tail), absDir);
  }

  /**
   * The empty path, ".." and "../<sibling>" are refused with 400 even when
   * the file they name exists.
   */
  lemma EscapingRequestsRefused(absDir: Path, sibling: string, files: set<Path>)
    requires IsClean(absDir) && absDir != []
    requires IsCleanElement(sibling)
    ensures ServePhoto(Some(absDir), "", files) == PhotoError(StatusBadRequest)
    ensures ServePhoto(Some(absDir), "..", files) == PhotoError(StatusBadRequest)
    ensures ServePhoto(Some(absDir), "../" + sibling, files) == PhotoError(StatusBadRequest)
  {
    EscapesUnsafe(absDir, sibling);
  }

  /** Without an absolute photos directory nothing is served. */
  lemma NoWorkingDirectoryNothingServed(tail: string, files: set<Path>)
    ensures ServePhoto(None, tail, files) == PhotoError(StatusBadRequest)
  {
  }

  /**
   * The importer accepts extensions in any case, but the content type is
   * chosen case-sensitively: an imported ".PNG" or ".JPG" file is sent as
   * "image/jpeg", while ".HEIC" is recognised.
   */
  lemma UpperCaseExtensionsServedAsJpeg(stem: string)
    ensures Importer.IsImageFile(stem + ".PNG") && ContentType(".PNG") == "image/jpeg"
    ensures Importer.IsImageFile(stem + ".JPG") && ContentType(".JPG") == "image/jpeg"
    ensures ContentType(".HEIC") == "image/heic"
  {
    Importer.UpperCaseExtensionsAreImages(stem);
  }

  // ---------------------------------------------------------------------
  // JSON endpoints

  /** A face tag as the API lists it: `person_id` is omitted when NULL. */
  datatype TagView = TagView(
    id: int, photoFilename: string, personId: Option<int>,
    x: real, y: real, width: real, height: real, confidence: real, isManual: bool)

  /** A person as the API lists it. */
  datatype PersonView = PersonView(id: int, name: string, createdAt: int)

  /** The JSON body of a face tag creation; absent fields decode as zero values. */
  datatype NewTagBody = NewTagBody(
    photoFilename: string, personId: Option<int>,
    x: real, y: real, width: real, height: real, confidence: real, isManual: bool)

  /** The JSON body of a face tag update. */
  datatype TagEditBody = TagEditBody(
    personId: Option<int>, x: real, y: real, width: real, height: real, confidence: real)

  /** The JSON body carrying a person's name. */
  datatype NameBody = NameBody(name: string)

  datatype Reply =
    | Error(status: int, message: string)
    | TagList(tags: seq<TagView>)
    | PersonList(people: seq<PersonView>)
    | CreatedTag(id: int)
    | NamedPerson(id: int, name: string)
    | NoBody(status: int)

  /** The HTTP status a reply is sent with. */
  function StatusOf(r: Reply): (status: int)
    ensures r.Error? || r.NoBody? ==> status == r.status
    ensures r.TagList? || r.PersonList? || r.CreatedTag? || r.NamedPerson? ==> status == StatusOK
  {
    match r
    case Error(status, _) => status
    case NoBody(status) => status
    case _ => StatusOK
  }

  /** How a stored face tag is listed. */
  function Present(t: FaceTag): (v: TagView)
    ensures v.id == t.id && v.photoFilename == t.photoFilename && v.isManual == t.isManual
    ensures v.personId.Some? <==> t.personId.Some?
    ensures t.personId.Some? ==> v.personId.value == t.personId.value
    ensures (v.x, v.y, v.width, v.height, v.confidence) == (t.x, t.y, t.width, t.height, t.confidence)
  {
    TagView(t.id, t.photoFilename, t.personId, t.x, t.y, t.width, t.height, t.confidence, t.isManual)
  }

  /** How a stored person is listed. */
  function Show(p: Person): (v: PersonView)
    ensures v.id == p.id && v.name == p.name && v.createdAt == p.createdAt
  {
    PersonView(p.id, p.name, p.createdAt)
  }

  /** The response list for some face tags, in their order. */
  method TagViews(tags: seq<FaceTag>) returns (views: seq<TagView>)
    ensures |views| == |tags|
    ensures forall i :: 0 <= i < |tags| ==> views[i] == Present(tags[i])
  {
    views := [];
    var i := 0;
    while i < |tags|
      invariant 0 <= i <= |tags|
      invariant |views| == i
      invariant forall k :: 0 <= k < i ==> views[k] == Present(tags[k])
    {
      views := views + [Present(tags[i])];
      i := i + 1;
    }
  }

  /** The response list for some people, in their order. */
  method PersonViews(people: seq<Person>) returns (views: seq<PersonView>)
    ensures |views| == |people|
    ensures forall i :: 0 <= i < |people| ==> views[i] == Show(people[i])
  {
    views := [];
    var i := 0;
    while i < |people|
      invariant 0 <= i <= |people|
      invariant |views| == i
      invariant forall k :: 0 <= k < i ==> views[k] == Show(people[k])
    {
      views := views + [Show(people[i])];
      i := i + 1;
    }
  }

  /** Confidence 0 (absent from the request) is stored as 1.0. */
  function DefaultConfidence(c: real): (r: real)
    ensures r != 0.0
    ensures c != 0.0 ==> r == c
    ensures c == 0.0 ==> r == 1.0
  {
    if c == 0.0 then 1.0 else c
  }

  /**
   * `views` lists the tags of `photo` among `rows`: each such tag once,
   * nothing else, in `created_at` order.
   */
  ghost predicate ListsTags(views: seq<TagView>, rows: seq<FaceTag>, photo: string)
  {
    exists listed: seq<FaceTag> ::
      && multiset(listed) == multiset(TagsFor(rows, photo))
      && SortedBy(listed, CreatedNoLater)
      && |views| == |listed|
      && (forall i :: 0 <= i < |listed| ==> views[i] == Present(listed[i]))
  }

  /** A tag listing holds every tag of the photo and nothing else. */
  lemma ListedTagsExactly(views: seq<TagView>, rows: seq<FaceTag>, photo: string)
    requires ListsTags(views, rows, photo)
    ensures |views| == |TagsFor(rows, photo)|
    ensures forall k :: 0 <= k < |rows| && rows[k].photoFilename == photo ==> Present(rows[k]) in views
    ensures forall i :: 0 <= i < |views| ==>
              exists k :: 0 <= k < |rows| && rows[k].photoFilename == photo && views[i] == Present(rows[k])
  {
    var listed :| && multiset(listed) == multiset(TagsFor(rows, photo))
                  && SortedBy(listed, CreatedNoLater)
                  && |views| == |listed|
                  && (forall i :: 0 <= i < |listed| ==> views[i] == Present(listed[i]));
    TagsListedFrom(views, rows, photo, listed);
  }

  lemma TagsListedFrom(views: seq<TagView>, rows: seq<FaceTag>, photo: string, listed: seq<FaceTag>)
    requires multiset(listed) == multiset(TagsFor(rows, photo))
    requires |views| == |listed|
    requires forall i :: 0 <= i < |listed| ==> views[i] == Present(listed[i])
    ensures |views| == |TagsFor(rows, photo)|
    ensures forall k :: 0 <= k < |rows| && rows[k].photoFilename == photo ==> Present(rows[k]) in views
    ensures forall i :: 0 <= i < |views| ==>
              exists k :: 0 <= k < |rows| && rows[k].photoFilename == photo && views[i] == Present(rows[k])
  {
    var matching := TagsFor(rows, photo);
    assert |listed| == |matching| by {
      assert |multiset(listed)| == |multiset(matching)|;
    }
    forall k | 0 <= k < |rows| && rows[k].photoFilename == photo
      ensures Present(rows[k]) in views
    {
      var t := rows[k];
      SameMembers(listed, matching, t);
      var i :| 0 <= i < |listed| && listed[i] == t;
      assert views[i] == Present(t);
    }
    forall i | 0 <= i < |views|
      ensures exists k :: 0 <= k < |rows| && rows[k].photoFilename == photo && views[i] == Present(rows[k])
    {
      var t := listed[i];
      SameMembers(listed, matching, t);
      var k :| 0 <= k < |rows| && rows[k] == t;
      assert rows[k].photoFilename == photo && views[i] == Present(rows[k]);
    }
  }

  /**
   * GET /api/face-tags?photo=…: the tags of that photo, every one of them
   * and nothing else, oldest first; 400 without the parameter.
   */
  method ListFaceTags(db: Database, photo: string) returns (reply: Reply)
    requires db.Valid()
    ensures photo == "" <==> reply == Error(StatusBadRequest, "photo parameter required")
    ensures photo != "" ==> reply.TagList? && ListsTags(reply.tags, db.faceTags, photo)
  {
    if photo == "" {
      return Error(StatusBadRequest, "photo parameter required");
    }
    var tags := db.GetFaceTagsForPhoto(photo);
    var views := TagViews(tags);
    reply := TagList(views);
    assert ListsTags(views, db.faceTags, photo) by {
      assert && multiset(tags) == multiset(TagsFor(db.faceTags, photo))
             && SortedBy(tags, CreatedNoLater)
             && |views| == |tags|
             && (forall i :: 0 <= i < |tags| ==> views[i] == Present(tags[i]));
    }
  }

  /**
   * `views` lists everyone in `rows` once, nothing else, in name order
   * (byte-wise, as SQLite compares text).
   */
  ghost predicate ListsPeople(views: seq<PersonView>, rows: seq<Person>)
  {
    exists listed: seq<Person> ::
      && multiset(listed) == multiset(rows)
      && SortedBy(listed, NameNoGreater)
      && |views| == |listed|
      && (forall i :: 0 <= i < |listed| ==> views[i] == Show(listed[i]))
  }

  /** A people listing holds everyone and nothing else, by name. */
  lemma ListedPeopleExactly(views: seq<PersonView>, rows: seq<Person>)
    requires ListsPeople(views, rows)
    ensures |views| == |rows|
    ensures forall k :: 0 <= k < |rows| ==> Show(rows[k]) in views
    ensures forall i :: 0 <= i < |views| ==> exists k :: 0 <= k < |rows| && views[i] == Show(rows[k])
    ensures forall i, j :: 0 <= i < j < |views| ==> TextLe(views[i].name, views[j].name)
  {
    var listed :| && multiset(listed) == multiset(rows)
                  && SortedBy(listed, NameNoGreater)
                  && |views| == |listed|
                  && (forall i :: 0 <= i < |listed| ==> views[i] == Show(listed[i]));
    assert |listed| == |rows| by {
      assert |multiset(listed)| == |multiset(rows)|;
    }
    forall k | 0 <= k < |rows| ensures Show(rows[k]) in views {
      var p := rows[k];
      SameMembers(listed, rows, p);
      var i :| 0 <= i < |listed| && listed[i] == p;
      assert views[i] == Show(p);
    }
    forall i | 0 <= i < |views|
      ensures exists k :: 0 <= k < |rows| && views[i] == Show(rows[k])
    {
      SameMembers(listed, rows, listed[i]);
      var k :| 0 <= k < |rows| && rows[k] == listed[i];
      assert views[i] == Show(rows[k]);
    }
    forall i, j | 0 <= i < j < |views| ensures TextLe(views[i].name, views[j].name) {
      assert NameNoGreater(listed[i], listed[j]);
    }
  }

  /** GET /api/people: everyone, in name order. */
  method ListPeople(db: Database) returns (reply: Reply)
    requires db.Valid()
    ensures reply.PersonList? && ListsPeople(reply.people, db.people)
  {
    var rows := db.GetPeople();
    var views := PersonViews(rows);
    reply := PersonList(views);
    assert ListsPeople(views, db.people) by {
      assert && multiset(rows) == multiset(db.people)
             && SortedBy(rows, NameNoGreater)
             && |views| == |rows|
             && (forall i :: 0 <= i < |rows| ==> views[i] == Show(rows[i]));
    }
  }

  /**
   * `handleFaceTags`: GET lists a photo's tags; POST creates a tag
   * (400 for an undecodable body or an empty photo_filename; a zero
   * confidence is stored as 1.0); any other method is 405.
   */
  method HandleFaceTags(db: Database, httpMethod: string, photo: string, body: Option<NewTagBody>, now: int)
    returns (reply: Reply)
    requires db.Valid()
    modifies db
    ensures db.Valid()
    ensures db.lastPhotoId == old(db.lastPhotoId) && db.lastPersonId == old(db.lastPersonId)
    ensures httpMethod != "POST" || body.None? || body.value.photoFilename == "" ==>
              unchanged(db)
    ensures httpMethod == "GET" && photo == "" ==> reply == Error(StatusBadRequest, "photo parameter required")
    ensures httpMethod == "GET" && photo != "" ==> reply.TagList? && ListsTags(reply.tags, db.faceTags, photo)
    ensures httpMethod == "POST" && body.None? ==> reply == Error(StatusBadRequest, "Invalid request")
    ensures httpMethod == "POST" && body.Some? && body.value.photoFilename == "" ==>
              reply == Error(StatusBadRequest, "photo_filename is required")
    ensures httpMethod == "POST" && body.Some? && body.value.photoFilename != "" ==>
              var b := body.value;
              && reply == CreatedTag(old(db.lastFaceTagId) + 1)
              && db.lastFaceTagId == reply.id
              && db.faceTags == old(db.faceTags) +
                   [FaceTag(reply.id, b.photoFilename, b.personId, b.x, b.y, b.width, b.height,
                            DefaultConfidence(b.confidence), b.isManual, now)]
              && db.photos == old(db.photos) && db.people == old(db.people)
    ensures httpMethod != "GET" && httpMethod != "POST" ==>
              reply == Error(StatusMethodNotAllowed, "Method not allowed")
  {
    if httpMethod == "GET" {
      reply := ListFaceTags(db, photo);
    } else if httpMethod == "POST" {
      if body.None? {
        return Error(StatusBadRequest, "Invalid request");
      }
      var b := body.value;
      if b.photoFilename == "" {
        return Error(StatusBadRequest, "photo_filename is required");
      }
      var confidence := DefaultConfidence(b.confidence);
      var id := db.InsertFaceTag(b.photoFilename, b.personId, b.x, b.y, b.width, b.height,
                                 confidence, b.isManual, now);
      reply := CreatedTag(id);
    } else {
      reply := Error(StatusMethodNotAllowed, "Method not allowed");
    }
  }

  /**
   * `handleFaceTagActions`: the id after "/api/face-tags/" is scanned first
   * (400 when it does not scan, whatever the method); PUT replaces the
   * tag's person link, box and confidence as sent (a zero confidence stays
   * zero) and answers 200 even when no tag has that id; DELETE answers 204;
   * any other method is 405.
   */
  method HandleFaceTagActions(db: Database, httpMethod: string, idTail: string, body: Option<TagEditBody>)
    returns (reply: Reply)
    requires db.Valid()
    modifies db
    ensures db.Valid()
    ensures db.photos == old(db.photos) && db.people == old(db.people)
    ensures db.lastFaceTagId == old(db.lastFaceTagId)
    ensures db.lastPhotoId == old(db.lastPhotoId) && db.lastPersonId == old(db.lastPersonId)
    ensures ScanDecimal(idTail).None? ==>
              reply == Error(StatusBadRequest, "Invalid face tag ID") && unchanged(db)
    ensures ScanDecimal(idTail).Some? ==>
              var id := ScanDecimal(idTail).value;
              && (httpMethod == "PUT" && body.None? ==>
                    reply == Error(StatusBadRequest, "Invalid request") && unchanged(db))
              && (httpMethod == "PUT" && body.Some? ==>
                    var b := body.value;
                    reply == NoBody(StatusOK) &&
                    db.faceTags == Retagged(old(db.faceTags), id, b.personId, b.x, b.y, b.width, b.height, b.confidence))
              && (httpMethod == "DELETE" ==>
                    reply == NoBody(StatusNoContent) && db.faceTags == WithoutTag(old(db.faceTags), id))
              && (httpMethod != "PUT" && httpMethod != "DELETE" ==>
                    reply == Error(StatusMethodNotAllowed, "Method not allowed") && unchanged(db))
  {
    var parsed := ScanDecimal(idTail);
    if parsed.None? {
      return Error(StatusBadRequest, "Invalid face tag ID");
    }
    var id := parsed.value;
    if httpMethod == "PUT" {
      if body.None? {
        return Error(StatusBadRequest, "Invalid request");
      }
      var b := body.value;
      db.UpdateFaceTag(id, b.personId, b.x, b.y, b.width, b.height, b.confidence);
      reply := NoBody(StatusOK);
    } else if httpMethod == "DELETE" {
      db.DeleteFaceTag(id);
      reply := NoBody(StatusNoContent);
    } else {
      reply := Error(StatusMethodNotAllowed, "Method not allowed");
    }
  }

  /**
   * `handlePeople`: GET lists everyone; POST creates a person (400 for an
   * undecodable body or an empty name) and echoes the new id and the name;
   * any other method is 405.
   */
  method HandlePeople(db: Database, httpMethod: string, body: Option<NameBody>, now: int)
    returns (reply: Reply)
    requires db.Valid()
    modifies db
    ensures db.Valid()
    ensures db.lastPhotoId == old(db.lastPhotoId) && db.lastFaceTagId == old(db.lastFaceTagId)
    ensures httpMethod != "POST" || body.None? || body.value.name == "" ==> unchanged(db)
    ensures httpMethod == "GET" ==> reply.PersonList? && ListsPeople(reply.people, db.people)
    ensures httpMethod == "POST" && body.None? ==> reply == Error(StatusBadRequest, "Invalid request")
    ensures httpMethod == "POST" && body.Some? && body.value.name == "" ==>
              reply == Error(StatusBadRequest, "Name is required")
    ensures httpMethod == "POST" && body.Some? && body.value.name != "" ==>
              && reply == NamedPerson(old(db.lastPersonId) + 1, body.value.name)
              && db.lastPersonId == reply.id
              && db.people == old(db.people) + [Person(reply.id, body.value.name, None, now)]
              && db.photos == old(db.photos) && db.faceTags == old(db.faceTags)
    ensures httpMethod != "GET" && httpMethod != "POST" ==>
              reply == Error(StatusMethodNotAllowed, "Method not allowed")
  {
    if httpMethod == "GET" {
      reply := ListPeople(db);
    } else if httpMethod == "POST" {
      if body.None? {
        return Error(StatusBadRequest, "Invalid request");
      }
      var name := body.value.name;
      if name == "" {
        return Error(StatusBadRequest, "Name is required");
      }
      var id := db.InsertPerson(name, now);
      reply := NamedPerson(id, name);
    } else {
      reply := Error(StatusMethodNotAllowed, "Method not allowed");
    }
  }

  /**
   * `handlePersonActions`: the id after "/api/people/" is scanned first
   * (400 when it does not scan, whatever the method); PUT renames (400 for
   * an undecodable body or an empty name) and echoes id and name even when
   * no person has that id; DELETE answers 204 and leaves the person's face
   * tags in place; any other method is 405.
   */
  method HandlePersonActions(db: Database, httpMethod: string, idTail: string, body: Option<NameBody>)
    returns (reply: Reply)
    requires db.Valid()
    modifies db
    ensures db.Valid()
    ensures db.photos == old(db.photos) && db.faceTags == old(db.faceTags)
    ensures db.lastPersonId == old(db.lastPersonId)
    ensures db.lastPhotoId == old(db.lastPhotoId) && db.lastFaceTagId == old(db.lastFaceTagId)
    ensures ScanDecimal(idTail).None? ==>
              reply == Error(StatusBadRequest, "Invalid person ID") && unchanged(db)
    ensures ScanDecimal(idTail).Some? ==>
              var id := ScanDecimal(idTail).value;
              && (httpMethod == "PUT" && body.None? ==>
                    reply == Error(StatusBadRequest, "Invalid request") && unchanged(db))
              && (httpMethod == "PUT" && body.Some? && body.value.name == "" ==>
                    reply == Error(StatusBadRequest, "Name is required") && unchanged(db))
              && (httpMethod == "PUT" && body.Some? && body.value.name != "" ==>
                    reply == NamedPerson(id, body.value.name) &&
                    db.people == Renamed(old(db.people), id, body.value.name))
              && (httpMethod == "DELETE" ==>
                    reply == NoBody(StatusNoContent) && db.people == WithoutPerson(old(db.people), id))
              && (httpMethod != "PUT" && httpMethod != "DELETE" ==>
                    reply == Error(StatusMethodNotAllowed, "Method not allowed") && unchanged(db))
  {
    var parsed := ScanDecimal(idTail);
    if parsed.None? {
      return Error(StatusBadRequest, "Invalid person ID");
    }
    var id := parsed.value;
    if httpMethod == "PUT" {
      if body.None? {
        return Error(StatusBadRequest, "Invalid request");
      }
      var name := body.value.name;
      if name == "" {
        return Error(StatusBadRequest, "Name is required");
      }
      db.UpdatePerson(id, name);
      reply := NamedPerson(id, name);
    } else if httpMethod == "DELETE" {
      db.DeletePerson(id);
      reply := NoBody(StatusNoContent);
    } else {
      reply := Error(StatusMethodNotAllowed, "Method not allowed");
    }
  }

  /**
   * The id in a URL is read by `%d`: anything from a '/' after the digits
   * on is ignored, so "/api/people/7/x" addresses person 7, and every int64
   * id written out in decimal addresses itself.
   */
  lemma TrailingPathIgnored(id: int, tail: string)
    requires IsInt64(id)
    requires tail == [] || tail[0] == '/'
    ensures ScanDecimal(FormatInt(id) + tail) == Some(id)
  {
    ScanFormatRoundTrip(id, tail);
  }
}
