/**
 * The photo library's SQLite store, as an in-memory database: one row
 * sequence per table, kept in rowid order, and the last id each
 * `AUTOINCREMENT` table has handed out. Each method does what the SQL
 * statement it issues does to the tables.
 */
module FaceStore {
  import opened Wrappers
  import opened Ordering

  /** A row of `photos`. */
  datatype Photo = Photo(
    id: int,
    path: string,
    filename: string,
    importedAt: int,
    favorite: bool,
    metadataJson: Option<string>,
    thumbnailPath: Option<string>)

  /** A row of `people`. */
  datatype Person = Person(id: int, name: string, faceEncodings: Option<string>, createdAt: int)

  /** A row of `face_tags`; `personId` is `None` for SQL NULL. */
  datatype FaceTag = FaceTag(
    id: int,
    photoFilename: string,
    personId: Option<int>,
    x: real,
    y: real,
    width: real,
    height: real,
    confidence: real,
    isManual: bool,
    createdAt: int)

  /** The one constraint violation the modelled statements can raise. */
  datatype StoreError = UniquePathViolation

  // ---------------------------------------------------------------------
  // Table invariants: rows in strictly ascending id order, every id in
  // 1..last, and (for photos) no path twice.

  ghost predicate PhotosNumbered(rows: seq<Photo>, last: int)
  {
    && (forall i :: 0 <= i < |rows| ==> 0 < rows[i].id <= last)
    && (forall i, j :: 0 <= i < j < |rows| ==> rows[i].id < rows[j].id && rows[i].path != rows[j].path)
  }

  ghost predicate PeopleNumbered(rows: seq<Person>, last: int)
  {
    && (forall i :: 0 <= i < |rows| ==> 0 < rows[i].id <= last)
    && (forall i, j :: 0 <= i < j < |rows| ==> rows[i].id < rows[j].id)
  }

  ghost predicate TagsNumbered(rows: seq<FaceTag>, last: int)
  {
    && (forall i :: 0 <= i < |rows| ==> 0 < rows[i].id <= last)
    && (forall i, j :: 0 <= i < j < |rows| ==> rows[i].id < rows[j].id)
  }

  // ---------------------------------------------------------------------
  // Photos

  /** Some row already holds `path` (the `path UNIQUE` constraint). */
  predicate PathTaken(rows: seq<Photo>, path: string)
  {
    exists i :: 0 <= i < |rows| && rows[i].path == path
  }

  /** The set of filenames in a photo table, gathered front to back. */
  function Filenames(rows: seq<Photo>): (names: set<string>)
    ensures forall n :: n in names <==> exists i :: 0 <= i < |rows| && rows[i].filename == n
  {
    if rows == [] then {}
    else
      var init := rows[..|rows| - 1];
      var names := Filenames(init) + {rows[|rows| - 1].filename};
      assert forall i :: 0 <= i < |init| ==> init[i] == rows[i];
      names
  }

  /** `ORDER BY imported_at DESC`. */
  predicate ImportedNoEarlier(a: Photo, b: Photo)
  {
    a.importedAt >= b.importedAt
  }

  lemma ImportedOrder()
    ensures TotalPreorder(ImportedNoEarlier)
  {
  }

  // ---------------------------------------------------------------------
  // People

  /** `ORDER BY name`, compared as SQLite compares text. */
  predicate NameNoGreater(a: Person, b: Person)
  {
    TextLe(a.name, b.name)
  }

  lemma NameOrder()
    ensures TotalPreorder(NameNoGreater)
  {
    forall a: Person, b: Person ensures NameNoGreater(a, b) || NameNoGreater(b, a) {
      TextLeTotal(a.name, b.name);
    }
    forall a: Person, b: Person, c: Person | NameNoGreater(a, b) && NameNoGreater(b, c)
      ensures NameNoGreater(a, c)
    {
      TextLeTransitive(a.name, b.name, c.name);
    }
  }

  /** `UPDATE people SET name = ? WHERE id = ?` applied to the rows. */
  function Renamed(rows: seq<Person>, id: int, name: string): (r: seq<Person>)
    ensures |r| == |rows|
    ensures forall i :: 0 <= i < |rows| && rows[i].id != id ==> r[i] == rows[i]
    ensures forall i :: 0 <= i < |rows| && rows[i].id == id ==> r[i] == rows[i].(name := name)
  {
    if rows == [] then []
    else
      var head := if rows[0].id == id then rows[0].(name := name) else rows[0];
      var r := [head] + Renamed(rows[1..], id, name);
      assert forall i :: 1 <= i < |rows| ==> rows[i] == rows[1..][i - 1] && r[i] == Renamed(rows[1..], id, name)[i - 1];
      r
  }

  /** `DELETE FROM people WHERE id = ?` applied to the rows. */
  function WithoutPerson(rows: seq<Person>, id: int): (r: seq<Person>)
    ensures forall p :: p in r <==> p in rows && p.id != id
    ensures (forall i :: 0 <= i < |rows| ==> rows[i].id != id) ==> r == rows
  {
    if rows == [] then []
    else
      assert rows == [rows[0]] + rows[1..];
      var rest := WithoutPerson(rows[1..], id);
      if rows[0].id == id then rest else [rows[0]] + rest
  }

  // ---------------------------------------------------------------------
  // Face tags

  /** `WHERE photo_filename = ?`, in table order, gathered front to back. */
  function TagsFor(rows: seq<FaceTag>, photoFilename: string): (r: seq<FaceTag>)
    ensures forall t :: t in r <==> t in rows && t.photoFilename == photoFilename
    ensures forall t :: multiset(r)[t] == if t.photoFilename == photoFilename then multiset(rows)[t] else 0
  {
    if rows == [] then []
    else
      var init := rows[..|rows| - 1];
      var last := rows[|rows| - 1];
      assert rows == init + [last];
      TagsFor(init, photoFilename) + if last.photoFilename == photoFilename then [last] else []
  }

  /** `ORDER BY created_at`. */
  predicate CreatedNoLater(a: FaceTag, b: FaceTag)
  {
    a.createdAt <= b.createdAt
  }

  lemma CreatedOrder()
    ensures TotalPreorder(CreatedNoLater)
  {
  }

  /**
   * `UPDATE face_tags SET person_id = ?, x = ?, y = ?, width = ?, height = ?,
   * confidence = ? WHERE id = ?` applied to the rows.
   */
  function Retagged(rows: seq<FaceTag>, id: int, personId: Option<int>,
                    x: real, y: real, width: real, height: real, confidence: real): (r: seq<FaceTag>)
    ensures |r| == |rows|
    ensures forall i :: 0 <= i < |rows| && rows[i].id != id ==> r[i] == rows[i]
    ensures forall i :: 0 <= i < |rows| && rows[i].id == id ==>
      && r[i].id == id && r[i].photoFilename == rows[i].photoFilename
      && r[i].isManual == rows[i].isManual && r[i].createdAt == rows[i].createdAt
      && r[i].personId == personId && r[i].x == x && r[i].y == y
      && r[i].width == width && r[i].height == height && r[i].confidence == confidence
  {
    if rows == [] then []
    else
      var t := rows[0];
      var head := if t.id == id
        then t.(personId := personId, x := x, y := y, width := width, height := height, confidence := confidence)
        else t;
      var tail := Retagged(rows[1..], id, personId, x, y, width, height, confidence);
      var r := [head] + tail;
      assert forall i :: 1 <= i < |rows| ==> rows[i] == rows[1..][i - 1] && r[i] == tail[i - 1];
      r
  }

  /** `DELETE FROM face_tags WHERE id = ?` applied to the rows. */
  function WithoutTag(rows: seq<FaceTag>, id: int): (r: seq<FaceTag>)
    ensures forall t :: t in r <==> t in rows && t.id != id
    ensures (forall i :: 0 <= i < |rows| ==> rows[i].id != id) ==> r == rows
  {
    if rows == [] then []
    else
      assert rows == [rows[0]] + rows[1..];
      var rest := WithoutTag(rows[1..], id);
      if rows[0].id == id then rest else [rows[0]] + rest
  }

  /** With unique ids, deleting a present id removes exactly one row. */
  lemma {:induction false} WithoutTagRemovesOne(rows: seq<FaceTag>, last: int, id: int)
    requires TagsNumbered(rows, last)
    requires exists i :: 0 <= i < |rows| && rows[i].id == id
    ensures |WithoutTag(rows, id)| == |rows| - 1
  {
    assert rows == [rows[0]] + rows[1..];
    TagsNumberedTail(rows, last);
    if rows[0].id == id {
      assert forall i :: 0 <= i < |rows[1..]| ==> rows[1..][i].id != id by {
        assert forall i :: 0 <= i < |rows[1..]| ==> rows[1..][i] == rows[i + 1];
      }
    } else {
      var i :| 0 <= i < |rows| && rows[i].id == id;
      assert rows[1..][i - 1].id == id;
      WithoutTagRemovesOne(rows[1..], last, id);
    }
  }

  lemma TagsNumberedTail(rows: seq<FaceTag>, last: int)
    requires TagsNumbered(rows, last) && rows != []
    ensures TagsNumbered(rows[1..], last)
  {
    assert forall i :: 0 <= i < |rows[1..]| ==> rows[1..][i] == rows[i + 1];
  }

  // ---------------------------------------------------------------------
  // The database

  class Database {
    var photos: seq<Photo>
    var lastPhotoId: nat
    var people: seq<Person>
    var lastPersonId: nat
    var faceTags: seq<FaceTag>
    var lastFaceTagId: nat

    ghost predicate Valid()
      reads this
    {
      && PhotosNumbered(photos, lastPhotoId)
      && PeopleNumbered(people, lastPersonId)
      && TagsNumbered(faceTags, lastFaceTagId)
    }

    /** A freshly created schema: every table empty. */
    constructor ()
      ensures Valid()
      ensures photos == [] && people == [] && faceTags == []
      ensures lastPhotoId == 0 && lastPersonId == 0 && lastFaceTagId == 0
    {
      photos, people, faceTags := [], [], [];
      lastPhotoId, lastPersonId, lastFaceTagId := 0, 0, 0;
    }

    /**
     * `InsertPhoto`: a new row with a fresh id, not a favourite and without
     * a thumbnail path, unless the path is already stored.
     */
    method InsertPhoto(path: string, filename: string, metadataJson: Option<string>, now: int)
      returns (r: Result<int, StoreError>)
      requires Valid()
      modifies this
      ensures Valid()
      ensures PathTaken(old(photos), path) ==>
        r == Err(UniquePathViolation) && photos == old(photos) && lastPhotoId == old(lastPhotoId)
      ensures !PathTaken(old(photos), path) ==>
        && r == Ok(old(lastPhotoId) + 1) && lastPhotoId == r.value
        && photos == old(photos) + [Photo(r.value, path, filename, now, false, metadataJson, None)]
      ensures r.Ok? ==> forall i :: 0 <= i < |old(photos)| ==> old(photos)[i].id < r.value
      ensures people == old(people) && lastPersonId == old(lastPersonId)
      ensures faceTags == old(faceTags) && lastFaceTagId == old(lastFaceTagId)
    {
      if PathTaken(photos, path) {
        return Err(UniquePathViolation);
      }
      lastPhotoId := lastPhotoId + 1;
      photos := photos + [Photo(lastPhotoId, path, filename, now, false, metadataJson, None)];
      r := Ok(lastPhotoId);
    }

    /** `GetPhotos`: every photo, most recently imported first. */
    method GetPhotos() returns (rows: seq<Photo>)
      requires Valid()
      ensures multiset(rows) == multiset(photos)
      ensures SortedBy(rows, ImportedNoEarlier)
    {
      ImportedOrder();
      SortBySorted(photos, ImportedNoEarlier);
      rows := SortBy(photos, ImportedNoEarlier);
    }

    /** `GetPeople`: every person, ordered by name. */
    method GetPeople() returns (rows: seq<Person>)
      requires Valid()
      ensures multiset(rows) == multiset(people)
      ensures SortedBy(rows, NameNoGreater)
    {
      NameOrder();
      SortBySorted(people, NameNoGreater);
      rows := SortBy(people, NameNoGreater);
    }

    /** `InsertPerson`: a new person with that name and no face encodings. */
    method InsertPerson(name: string, now: int) returns (id: int)
      requires Valid()
      modifies this
      ensures Valid()
      ensures id == old(lastPersonId) + 1 && lastPersonId == id
      ensures forall i :: 0 <= i < |old(people)| ==> old(people)[i].id < id
      ensures people == old(people) + [Person(id, name, None, now)]
      ensures photos == old(photos) && lastPhotoId == old(lastPhotoId)
      ensures faceTags == old(faceTags) && lastFaceTagId == old(lastFaceTagId)
    {
      lastPersonId := lastPersonId + 1;
      id := lastPersonId;
      people := people + [Person(id, name, None, now)];
    }

    /** `UpdatePerson`: only the name of the person with that id changes. */
    method UpdatePerson(id: int, name: string)
      requires Valid()
      modifies this
      ensures Valid()
      ensures people == Renamed(old(people), id, name)
      ensures lastPersonId == old(lastPersonId)
      ensures photos == old(photos) && lastPhotoId == old(lastPhotoId)
      ensures faceTags == old(faceTags) && lastFaceTagId == old(lastFaceTagId)
    {
      people := Renamed(people, id, name);
    }

    /**
     * `DeletePerson`: the person with that id, if any, is gone. Face tags
     * that name the person keep their `person_id` (foreign keys are not
     * enforced).
     */
    method DeletePerson(id: int)
      requires Valid()
      modifies this
      ensures Valid()
      ensures people == WithoutPerson(old(people), id)
      ensures lastPersonId == old(lastPersonId)
      ensures photos == old(photos) && lastPhotoId == old(lastPhotoId)
      ensures faceTags == old(faceTags) && lastFaceTagId == old(lastFaceTagId)
    {
      PeopleNumberedWithout(people, lastPersonId, id);
      people := WithoutPerson(people, id);
    }

    /**
     * `GetFaceTagsForPhoto`: the tags of that photo and of no other,
     * each once, ordered by creation time.
     */
    method GetFaceTagsForPhoto(photoFilename: string) returns (tags: seq<FaceTag>)
      requires Valid()
      ensures forall t :: t in tags <==> t in faceTags && t.photoFilename == photoFilename
      ensures multiset(tags) == multiset(TagsFor(faceTags, photoFilename))
      ensures SortedBy(tags, CreatedNoLater)
    {
      var matching: seq<FaceTag> := [];
      var i := 0;
      while i < |faceTags|
        invariant 0 <= i <= |faceTags|
        invariant matching == TagsFor(faceTags[..i], photoFilename)
      {
        assert faceTags[..i + 1][..i] == faceTags[..i];
        if faceTags[i].photoFilename == photoFilename {
          matching := matching + [faceTags[i]];
        }
        i := i + 1;
      }
      assert faceTags[..i] == faceTags;
      CreatedOrder();
      SortBySorted(matching, CreatedNoLater);
      tags := SortBy(matching, CreatedNoLater);
      forall t ensures t in tags <==> t in matching {
        SameMembers(tags, matching, t);
      }
    }

    /**
     * `InsertFaceTag`: one new row with a fresh id; a missing person is
     * stored as NULL.
     */
    method InsertFaceTag(photoFilename: string, personId: Option<int>, x: real, y: real,
                         width: real, height: real, confidence: real, isManual: bool, now: int)
      returns (id: int)
      requires Valid()
      modifies this
      ensures Valid()
      ensures id == old(lastFaceTagId) + 1 && lastFaceTagId == id
      ensures forall i :: 0 <= i < |old(faceTags)| ==> old(faceTags)[i].id < id
      ensures faceTags == old(faceTags) +
        [FaceTag(id, photoFilename, personId, x, y, width, height, confidence, isManual, now)]
      ensures photos == old(photos) && lastPhotoId == old(lastPhotoId)
      ensures people == old(people) && lastPersonId == old(lastPersonId)
    {
      lastFaceTagId := lastFaceTagId + 1;
      id := lastFaceTagId;
      faceTags := faceTags + [FaceTag(id, photoFilename, personId, x, y, width, height, confidence, isManual, now)];
    }

    /**
     * `UpdateFaceTag`: the person link, box and confidence of the tag with
     * that id are replaced; a missing person clears the link.
     */
    method UpdateFaceTag(id: int, personId: Option<int>, x: real, y: real,
                         width: real, height: real, confidence: real)
      requires Valid()
      modifies this
      ensures Valid()
      ensures faceTags == Retagged(old(faceTags), id, personId, x, y, width, height, confidence)
      ensures lastFaceTagId == old(lastFaceTagId)
      ensures photos == old(photos) && lastPhotoId == old(lastPhotoId)
      ensures people == old(people) && lastPersonId == old(lastPersonId)
    {
      faceTags := Retagged(faceTags, id, personId, x, y, width, height, confidence);
    }

    /** `DeleteFaceTag`: the tag with that id, if any, is gone; never an error. */
    method DeleteFaceTag(id: int)
      requires Valid()
      modifies this
      ensures Valid()
      ensures faceTags == WithoutTag(old(faceTags), id)
      ensures lastFaceTagId == old(lastFaceTagId)
      ensures photos == old(photos) && lastPhotoId == old(lastPhotoId)
      ensures people == old(people) && lastPersonId == old(lastPersonId)
    {
      TagsNumberedWithout(faceTags, lastFaceTagId, id);
      faceTags := WithoutTag(faceTags, id);
    }
  }

  lemma {:induction false} PeopleNumberedWithout(rows: seq<Person>, last: int, id: int)
    requires PeopleNumbered(rows, last)
    ensures PeopleNumbered(WithoutPerson(rows, id), last)
  {
    if rows != [] {
      var tail := rows[1..];
      assert PeopleNumbered(tail, last) by {
        assert forall i :: 0 <= i < |tail| ==> tail[i] == rows[i + 1];
      }
      PeopleNumberedWithout(tail, last, id);
      var rest := WithoutPerson(tail, id);
      if rows[0].id != id {
        assert forall k :: 0 <= k < |rest| ==> rows[0].id < rest[k].id by {
          forall k | 0 <= k < |rest| ensures rows[0].id < rest[k].id {
            assert rest[k] in tail;
          }
        }
        PeopleNumberedCons(rows[0], rest, last);
      }
    }
  }

  lemma PeopleNumberedCons(head: Person, rest: seq<Person>, last: int)
    requires 0 < head.id <= last && PeopleNumbered(rest, last)
    requires forall k :: 0 <= k < |rest| ==> head.id < rest[k].id
    ensures PeopleNumbered([head] + rest, last)
  {
    var r := [head] + rest;
    assert forall i :: 1 <= i < |r| ==> r[i] == rest[i - 1];
  }

  lemma {:induction false} TagsNumberedWithout(rows: seq<FaceTag>, last: int, id: int)
    requires TagsNumbered(rows, last)
    ensures TagsNumbered(WithoutTag(rows, id), last)
  {
    if rows != [] {
      var tail := rows[1..];
      TagsNumberedTail(rows, last);
      TagsNumberedWithout(tail, last, id);
      var rest := WithoutTag(tail, id);
      if rows[0].id != id {
        assert forall k :: 0 <= k < |rest| ==> rows[0].id < rest[k].id by {
          forall k | 0 <= k < |rest| ensures rows[0].id < rest[k].id {
            assert rest[k] in tail;
          }
        }
        TagsNumberedCons(rows[0], rest, last);
      }
    }
  }

  lemma TagsNumberedCons(head: FaceTag, rest: seq<FaceTag>, last: int)
    requires 0 < head.id <= last && TagsNumbered(rest, last)
    requires forall k :: 0 <= k < |rest| ==> head.id < rest[k].id
    ensures TagsNumbered([head] + rest, last)
  {
    var r := [head] + rest;
    assert forall i :: 1 <= i < |r| ==> r[i] == rest[i - 1];
  }
}
