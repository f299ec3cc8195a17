/**
 * The photo importer: which files a library scan imports, and the counters
 * and thumbnail requests it produces. The directory walk is given as the
 * sequence of entries it visits; the outcome of running exiftool and of
 * generating each thumbnail is recorded in the entry.
 */
module Importer {
  import opened Wrappers
  import opened GoText
  import opened Ordering
  import opened FaceStore

  /** The extensions, in lower case, of the image formats the library imports. */
  const ImageExtensions: set<string> := {".jpg", ".jpeg", ".png", ".heic", ".webp"}

  /** `isImageFile`: the lower-cased extension of the path is an image extension. */
  predicate IsImageFile(path: string)
    ensures IsImageFile(path) ==>
              (|Ext(path)| == 4 || |Ext(path)| == 5) && path[|path| - |Ext(path)|] == '.'
  {
    ToLower(Ext(path)) in ImageExtensions
  }

  /**
   * For a name that ends in an extension, the verdict depends on that
   * extension alone, in any mixture of upper and lower case.
   */
  lemma IsImageFileByExtension(stem: string, ext: string)
    requires |ext| > 0 && ext[0] == '.'
    requires forall i :: 1 <= i < |ext| ==> ext[i] != '.' && ext[i] != '/'
    ensures IsImageFile(stem + ext) <==> ToLower(ext) in ImageExtensions
  {
    ExtOfSuffix(stem, ext);
  }

  /** Upper-case spellings of the extensions are images too, whatever the stem. */
  lemma UpperCaseExtensionsAreImages(stem: string)
    ensures IsImageFile(stem + ".JPG") && IsImageFile(stem + ".PNG")
  {
    IsImageFileByExtension(stem, ".JPG");
    assert ToLower(".JPG") == ".jpg";
    IsImageFileByExtension(stem, ".PNG");
    assert ToLower(".PNG") == ".png";
  }

  /** A path with no '.' anywhere has no extension and is never an image. */
  lemma NoDotNoImage(path: string)
    requires forall i :: 0 <= i < |path| ==> path[i] != '.'
    ensures !IsImageFile(path)
  {
    ExtWithoutDot(path);
  }

  /**
   * One entry of the directory walk: a visited file or directory, with the
   * metadata JSON exiftool would yield for it (`None` when extraction
   * fails), whether thumbnail generation would succeed, and the clock
   * reading when it is inserted; or an error the walk reports.
   */
  datatype Entry =
    | Visit(path: string, name: string, isDir: bool, exif: Option<string>, thumbnailOk: bool, now: int)
    | WalkError(message: string)

  /** A thumbnail the scan asks for: `dir/file` generated from `source`. */
  datatype ThumbJob = ThumbJob(source: string, dir: string, file: string)

  /** The store's photo table and the scan's counters while the walk runs. */
  datatype ScanState = ScanState(
    photos: seq<Photo>,
    lastId: nat,
    newPhotos: nat,
    thumbnails: nat,
    jobs: seq<ThumbJob>)

  /**
   * The outcome of `ScanAndImport`: the wrapped walk error, if any, and the
   * counters and thumbnail requests of the scan (the source only logs the
   * counters, and only when the walk succeeds).
   */
  datatype ScanReport = ScanReport(
    error: Option<string>,
    newPhotos: nat,
    thumbnailsGenerated: nat,
    thumbnailJobs: seq<ThumbJob>)

  /**
   * The scan tries to insert a visited entry when it is a file, an image,
   * and its filename was not among the filenames stored before the scan.
   */
  predicate Attempted(existing: set<string>, e: Entry)
  {
    e.Visit? && !e.isDir && IsImageFile(e.path) && e.name !in existing
  }

  /** The thumbnail file for the photo with that id: `<id>.webp`. */
  function ThumbFile(id: int): string
  {
    FormatInt(id) + ".webp"
  }

  /**
   * The effect of visiting one entry: an attempted insert whose path is not
   * stored yet adds a row with the next id, counts a new photo, requests its
   * thumbnail and counts the thumbnail if generation succeeds. Anything
   * else, a failed insert included, leaves the state as it was.
   */
  function Step(existing: set<string>, thumbsDir: string, s: ScanState, e: Entry): (next: ScanState)
    requires e.Visit?
    ensures |next.photos| == |s.photos| + 1 <==> Attempted(existing, e) && !PathTaken(s.photos, e.path)
    ensures |next.photos| != |s.photos| + 1 ==> next == s
    ensures |next.photos| == |s.photos| + 1 ==>
              && next.photos[..|s.photos|] == s.photos
              && next.photos[|s.photos|] == Photo(s.lastId + 1, e.path, e.name, e.now, false, e.exif, None)
              && next.lastId == s.lastId + 1
              && next.newPhotos == s.newPhotos + 1
              && next.thumbnails == s.thumbnails + (if e.thumbnailOk then 1 else 0)
              && next.jobs == s.jobs + [ThumbJob(e.path, thumbsDir, ThumbFile(next.lastId))]
  {
    if !Attempted(existing, e) || PathTaken(s.photos, e.path) then s
    else
      var id := s.lastId + 1;
      ScanState(
        s.photos + [Photo(id, e.path, e.name, e.now, false, e.exif, None)],
        id,
        s.newPhotos + 1,
        if e.thumbnailOk then s.thumbnails + 1 else s.thumbnails,
        s.jobs + [ThumbJob(e.path, thumbsDir, ThumbFile(id))])
  }

  /**
   * The walk from state `s` over `entries`, as a reference definition: the
   * final state, and the walk error that stopped it if one did.
   */
  function ScanFrom(existing: set<string>, thumbsDir: string, s: ScanState, entries: seq<Entry>)
    : (r: (ScanState, Option<string>))
    ensures r.1.Some? <==> exists i :: 0 <= i < |entries| && entries[i].WalkError?
    decreases |entries|
  {
    if entries == [] then (s, None)
    else
      match entries[0]
      case WalkError(msg) => (s, Some(msg))
      case Visit(_, _, _, _, _, _) =>
        assert forall i :: 1 <= i < |entries| ==> entries[i] == entries[1..][i - 1];
        ScanFrom(existing, thumbsDir, Step(existing, thumbsDir, s, entries[0]), entries[1..])
  }

  /** The error `ScanAndImport` returns for a walk error. */
  function WalkFailure(msg: string): string
  {
    "failed to walk directory: " + msg
  }

  /** The thumbnail requests for a run of new photo rows, in order. */
  function JobsFor(rows: seq<Photo>, thumbsDir: string): (jobs: seq<ThumbJob>)
    ensures |jobs| == |rows|
    ensures forall k :: 0 <= k < |rows| ==> jobs[k] == ThumbJob(rows[k].path, thumbsDir, ThumbFile(rows[k].id))
  {
    if rows == [] then [] else [ThumbJob(rows[0].path, thumbsDir, ThumbFile(rows[0].id))] + JobsFor(rows[1..], thumbsDir)
  }

  /**
   * How the state after a walk relates to the state before it: rows are only
   * appended, one new photo is counted per appended row, each appended row
   * has exactly one thumbnail request, for `<id>.webp` in the thumbnail
   * directory, and no more thumbnails are counted than new photos.
   */
  ghost predicate Grows(s: ScanState, t: ScanState, thumbsDir: string)
  {
    && |s.photos| <= |t.photos| && t.photos[..|s.photos|] == s.photos
    && t.newPhotos - s.newPhotos == |t.photos| - |s.photos|
    && t.jobs == s.jobs + JobsFor(t.photos[|s.photos|..], thumbsDir)
    && s.thumbnails <= t.thumbnails
    && t.thumbnails - s.thumbnails <= t.newPhotos - s.newPhotos
  }

  /** The counters agree with the table after any walk. */
  lemma {:induction false} ScanCounts(existing: set<string>, thumbsDir: string, s: ScanState, entries: seq<Entry>)
    ensures Grows(s, ScanFrom(existing, thumbsDir, s, entries).0, thumbsDir)
    decreases |entries|
  {
    if entries != [] && entries[0].Visit? {
      var next := Step(existing, thumbsDir, s, entries[0]);
      ScanCounts(existing, thumbsDir, next, entries[1..]);
      StepGrows(existing, thumbsDir, s, entries[0]);
      GrowsTransitive(s, next, ScanFrom(existing, thumbsDir, next, entries[1..]).0, thumbsDir);
    }
  }

  lemma StepGrows(existing: set<string>, thumbsDir: string, s: ScanState, e: Entry)
    requires e.Visit?
    ensures Grows(s, Step(existing, thumbsDir, s, e), thumbsDir)
  {
    var next := Step(existing, thumbsDir, s, e);
    if next == s {
      assert s.photos[|s.photos|..] == [];
    } else {
      assert next.photos[|s.photos|..] == [next.photos[|s.photos|]];
    }
  }

  lemma GrowsTransitive(s: ScanState, m: ScanState, t: ScanState, thumbsDir: string)
    requires Grows(s, m, thumbsDir) && Grows(m, t, thumbsDir)
    ensures Grows(s, t, thumbsDir)
  {
    PrefixCompose(s.photos, m.photos, t.photos);
    JobsCompose(s.jobs, m.jobs, t.jobs, m.photos[|s.photos|..], t.photos[|m.photos|..], thumbsDir);
  }

  lemma PrefixCompose<T>(a: seq<T>, b: seq<T>, c: seq<T>)
    requires |a| <= |b| && b[..|a|] == a
    requires |b| <= |c| && c[..|b|] == b
    ensures c[..|a|] == a
    ensures c[|a|..] == b[|a|..] + c[|b|..]
  {
    assert c[..|a|] == c[..|b|][..|a|];
  }

  lemma JobsCompose(sj: seq<ThumbJob>, mj: seq<ThumbJob>, tj: seq<ThumbJob>, a: seq<Photo>, b: seq<Photo>, thumbsDir: string)
    requires mj == sj + JobsFor(a, thumbsDir)
    requires tj == mj + JobsFor(b, thumbsDir)
    ensures tj == sj + JobsFor(a + b, thumbsDir)
  {
    JobsForAppend(a, b, thumbsDir);
    Associative(sj, JobsFor(a, thumbsDir), JobsFor(b, thumbsDir));
  }

  lemma Associative<T>(a: seq<T>, b: seq<T>, c: seq<T>)
    ensures a + (b + c) == (a + b) + c
  {
  }

  lemma {:induction false} JobsForAppend(a: seq<Photo>, b: seq<Photo>, thumbsDir: string)
    ensures JobsFor(a + b, thumbsDir) == JobsFor(a, thumbsDir) + JobsFor(b, thumbsDir)
  {
    if a != [] {
      assert (a + b)[1..] == a[1..] + b;
      JobsForAppend(a[1..], b, thumbsDir);
    }
  }

  /** A thumbnail is never generated for a photo that was not imported. */
  lemma ThumbnailsNeverExceedNewPhotos(existing: set<string>, thumbsDir: string, photos: seq<Photo>, lastId: nat, entries: seq<Entry>)
    ensures var t := ScanFrom(existing, thumbsDir, ScanState(photos, lastId, 0, 0, []), entries).0;
      t.thumbnails <= t.newPhotos && t.newPhotos == |t.photos| - |photos| == |t.jobs|
  {
    ScanCounts(existing, thumbsDir, ScanState(photos, lastId, 0, 0, []), entries);
  }

  /** Row `row` was added by the walk for entry `e`. */
  predicate AddedFor(existing: set<string>, row: Photo, e: Entry)
  {
    Attempted(existing, e) && row.path == e.path && row.filename == e.name && row.metadataJson == e.exif
  }

  /**
   * Every row the walk adds comes from a visited entry that was a file, an
   * image, and not already known by filename; the row stores that entry's
   * path, filename and metadata (`None` when exiftool failed), and its id
   * exceeds every id handed out before.
   */
  lemma {:induction false} ScanInsertsOnlyNewImages(existing: set<string>, thumbsDir: string, s: ScanState, entries: seq<Entry>)
    ensures var t := ScanFrom(existing, thumbsDir, s, entries).0;
      && |s.photos| <= |t.photos| && s.lastId <= t.lastId
      && forall i :: |s.photos| <= i < |t.photos| ==>
           s.lastId < t.photos[i].id && exists j :: 0 <= j < |entries| && AddedFor(existing, t.photos[i], entries[j])
    decreases |entries|
  {
    if entries != [] && entries[0].Visit? {
      var rest := entries[1..];
      var next := Step(existing, thumbsDir, s, entries[0]);
      var t := ScanFrom(existing, thumbsDir, next, rest).0;
      ScanInsertsOnlyNewImages(existing, thumbsDir, next, rest);
      StepAdds(existing, thumbsDir, s, entries[0]);
      assert |next.photos| <= |t.photos| && t.photos[..|next.photos|] == next.photos by {
        ScanCounts(existing, thumbsDir, next, rest);
      }
      forall i | |s.photos| <= i < |t.photos|
        ensures s.lastId < t.photos[i].id
        ensures exists j :: 0 <= j < |entries| && AddedFor(existing, t.photos[i], entries[j])
      {
        if i < |next.photos| {
          assert t.photos[i] == next.photos[i] by {
            assert t.photos[i] == t.photos[..|next.photos|][i];
          }
          assert AddedFor(existing, t.photos[i], entries[0]);
        } else {
          var j :| 0 <= j < |rest| && AddedFor(existing, t.photos[i], rest[j]);
          assert entries[j + 1] == rest[j];
        }
      }
    }
  }

  /** One step only appends rows for its own entry, with ids above the last one. */
  lemma StepAdds(existing: set<string>, thumbsDir: string, s: ScanState, e: Entry)
    requires e.Visit?
    ensures var next := Step(existing, thumbsDir, s, e);
      && s.lastId <= next.lastId
      && |s.photos| <= |next.photos| && next.photos[..|s.photos|] == s.photos
      && forall i :: |s.photos| <= i < |next.photos| ==>
           s.lastId < next.photos[i].id && AddedFor(existing, next.photos[i], e)
  {
  }

  /**
   * An insert that fails (the path is already stored) is passed over and
   * the walk goes on with the next entry, with nothing counted.
   */
  lemma FailedInsertContinues(existing: set<string>, thumbsDir: string, s: ScanState, e: Entry, rest: seq<Entry>)
    requires e.Visit? && PathTaken(s.photos, e.path)
    ensures ScanFrom(existing, thumbsDir, s, [e] + rest) == ScanFrom(existing, thumbsDir, s, rest)
  {
    assert ([e] + rest)[0] == e && ([e] + rest)[1..] == rest;
  }

  /**
   * A new image is imported even when exiftool yields nothing: the row is
   * stored without metadata and its thumbnail is requested.
   */
  lemma ExifFailureStillImported(existing: set<string>, thumbsDir: string, s: ScanState, e: Entry)
    requires Attempted(existing, e) && !PathTaken(s.photos, e.path) && e.exif.None?
    ensures var next := Step(existing, thumbsDir, s, e);
      && next.photos == s.photos + [Photo(s.lastId + 1, e.path, e.name, e.now, false, None, None)]
      && next.newPhotos == s.newPhotos + 1
      && next.jobs == s.jobs + [ThumbJob(e.path, thumbsDir, ThumbFile(s.lastId + 1))]
  {
  }

  /**
   * A photo whose thumbnail generation fails is still inserted and counted
   * as new, but not counted as a generated thumbnail.
   */
  lemma ThumbnailFailureStillImported(existing: set<string>, thumbsDir: string, s: ScanState, e: Entry)
    requires Attempted(existing, e) && !PathTaken(s.photos, e.path) && !e.thumbnailOk
    ensures var next := Step(existing, thumbsDir, s, e);
      && |next.photos| == |s.photos| + 1
      && next.newPhotos == s.newPhotos + 1
      && next.thumbnails == s.thumbnails
  {
  }

  /**
   * The thumbnail counter counts successes only: when every generation
   * succeeds it advances with every new photo, and when none succeeds it
   * does not move.
   */
  lemma {:induction false} ThumbnailsCountSuccesses(existing: set<string>, thumbsDir: string, s: ScanState, entries: seq<Entry>)
    ensures var t := ScanFrom(existing, thumbsDir, s, entries).0;
      && ((forall j :: 0 <= j < |entries| && entries[j].Visit? ==> entries[j].thumbnailOk) ==>
            t.thumbnails - s.thumbnails == t.newPhotos - s.newPhotos)
      && ((forall j :: 0 <= j < |entries| && entries[j].Visit? ==> !entries[j].thumbnailOk) ==>
            t.thumbnails == s.thumbnails)
    decreases |entries|
  {
    if entries != [] && entries[0].Visit? {
      var next := Step(existing, thumbsDir, s, entries[0]);
      assert forall j :: 0 <= j < |entries[1..]| ==> entries[1..][j] == entries[j + 1];
      ThumbnailsCountSuccesses(existing, thumbsDir, next, entries[1..]);
      StepGrows(existing, thumbsDir, s, entries[0]);
    }
  }

  /** A scan in which every visited filename is already known imports nothing. */
  lemma {:induction false} KnownFilenamesSkipped(existing: set<string>, thumbsDir: string, s: ScanState, entries: seq<Entry>)
    requires forall j :: 0 <= j < |entries| && entries[j].Visit? ==> entries[j].name in existing
    ensures ScanFrom(existing, thumbsDir, s, entries).0 == s
    decreases |entries|
  {
    if entries != [] && entries[0].Visit? {
      assert forall j :: 0 <= j < |entries[1..]| ==> entries[1..][j] == entries[j + 1];
      KnownFilenamesSkipped(existing, thumbsDir, s, entries[1..]);
    }
  }

  /**
   * The known filenames are fixed before the walk: two new images with the
   * same filename in different folders are both imported.
   */
  lemma SameFilenameTwiceBothImported(existing: set<string>, thumbsDir: string, s: ScanState, a: Entry, b: Entry)
    requires Attempted(existing, a) && Attempted(existing, b)
    requires a.name == b.name && a.path != b.path
    requires !PathTaken(s.photos, a.path) && !PathTaken(s.photos, b.path)
    ensures ScanFrom(existing, thumbsDir, s, [a, b]).0.newPhotos == s.newPhotos + 2
    ensures |ScanFrom(existing, thumbsDir, s, [a, b]).0.photos| == |s.photos| + 2
  {
    var next := Step(existing, thumbsDir, s, a);
    assert next.photos == s.photos + [next.photos[|s.photos|]];
    assert !PathTaken(next.photos, b.path) by {
      assert forall i :: 0 <= i < |s.photos| ==> next.photos[i] == s.photos[i];
    }
    var last := Step(existing, thumbsDir, next, b);
    assert ScanFrom(existing, thumbsDir, next, [b]) == ScanFrom(existing, thumbsDir, last, []) by {
      assert [b][1..] == [];
    }
    assert [a, b][1..] == [b];
  }

  /**
   * A walk error stops the scan: what happened before it stands (nothing is
   * rolled back), nothing after it is visited, and the error is reported.
   */
  lemma {:induction false} WalkErrorAborts(existing: set<string>, thumbsDir: string, s: ScanState,
                                           before: seq<Entry>, msg: string, after: seq<Entry>)
    requires forall i :: 0 <= i < |before| ==> before[i].Visit?
    ensures ScanFrom(existing, thumbsDir, s, before + [WalkError(msg)] + after)
         == (ScanFrom(existing, thumbsDir, s, before).0, Some(msg))
    decreases |before|
  {
    var all := before + [WalkError(msg)] + after;
    if before == [] {
      assert all[0] == WalkError(msg);
    } else {
      assert all[0] == before[0];
      assert all[1..] == before[1..] + [WalkError(msg)] + after;
      WalkErrorAborts(existing, thumbsDir, Step(existing, thumbsDir, s, before[0]), before[1..], msg, after);
    }
  }

  /** The filenames of the photos already stored, read through `GetPhotos`. */
  method KnownFilenames(db: Database) returns (existing: set<string>)
    requires db.Valid()
    ensures existing == Filenames(db.photos)
  {
    var known := db.GetPhotos();
    existing := {};
    var k := 0;
    while k < |known|
      invariant 0 <= k <= |known|
      invariant existing == Filenames(known[..k])
    {
      assert known[..k + 1][..k] == known[..k];
      existing := existing + {known[k].filename};
      k := k + 1;
    }
    assert known[..k] == known;
    FilenamesOfPermutation(known, db.photos);
  }

  /**
   * `ScanAndImport`: collects the filenames already stored, then walks the
   * entries, inserting each new image and asking for its thumbnail.
   */
  method ScanAndImport(db: Database, thumbsDir: string, entries: seq<Entry>) returns (report: ScanReport)
    requires db.Valid()
    modifies db
    ensures db.Valid()
    ensures
      var start := ScanState(old(db.photos), old(db.lastPhotoId), 0, 0, []);
      var (t, err) := ScanFrom(Filenames(old(db.photos)), thumbsDir, start, entries);
      && db.photos == t.photos && db.lastPhotoId == t.lastId
      && report == ScanReport(if err.Some? then Some(WalkFailure(err.value)) else None,
                              t.newPhotos, t.thumbnails, t.jobs)
    ensures db.people == old(db.people) && db.lastPersonId == old(db.lastPersonId)
    ensures db.faceTags == old(db.faceTags) && db.lastFaceTagId == old(db.lastFaceTagId)
  {
    var existing := KnownFilenames(db);
    ghost var start := ScanState(db.photos, db.lastPhotoId, 0, 0, []);
    var newPhotos, thumbnails, jobs := 0, 0, [];
    var i := 0;
    while i < |entries|
      invariant 0 <= i <= |entries|
      invariant db.Valid()
      invariant db.people == old(db.people) && db.lastPersonId == old(db.lastPersonId)
      invariant db.faceTags == old(db.faceTags) && db.lastFaceTagId == old(db.lastFaceTagId)
      invariant ScanFrom(existing, thumbsDir, ScanState(db.photos, db.lastPhotoId, newPhotos, thumbnails, jobs), entries[i..])
             == ScanFrom(existing, thumbsDir, start, entries)
    {
      var e := entries[i];
      ghost var here := ScanState(db.photos, db.lastPhotoId, newPhotos, thumbnails, jobs);
      if e.WalkError? {
        ScanFromAt(existing, thumbsDir, here, entries, i);
        return ScanReport(Some(WalkFailure(e.message)), newPhotos, thumbnails, jobs);
      }
      ScanFromAt(existing, thumbsDir, here, entries, i);
      newPhotos, thumbnails, jobs := ImportEntry(db, existing, thumbsDir, e, newPhotos, thumbnails, jobs);
      i := i + 1;
    }
    assert entries[i..] == [];
    report := ScanReport(None, newPhotos, thumbnails, jobs);
  }

  /**
   * The walk callback for one visited entry: a file that is an image and
   * whose filename is not known yet is inserted; when the insert succeeds
   * the counters advance and its thumbnail is requested.
   */
  method ImportEntry(db: Database, existing: set<string>, thumbsDir: string, e: Entry,
                     newPhotos: nat, thumbnails: nat, jobs: seq<ThumbJob>)
    returns (newPhotos': nat, thumbnails': nat, jobs': seq<ThumbJob>)
    requires db.Valid() && e.Visit?
    modifies db
    ensures db.Valid()
    ensures ScanState(db.photos, db.lastPhotoId, newPhotos', thumbnails', jobs')
         == Step(existing, thumbsDir, ScanState(old(db.photos), old(db.lastPhotoId), newPhotos, thumbnails, jobs), e)
    ensures db.people == old(db.people) && db.lastPersonId == old(db.lastPersonId)
    ensures db.faceTags == old(db.faceTags) && db.lastFaceTagId == old(db.lastFaceTagId)
  {
    newPhotos', thumbnails', jobs' := newPhotos, thumbnails, jobs;
    if Attempted(existing, e) {
      var r := db.InsertPhoto(e.path, e.name, e.exif, e.now);
      if r.Ok? {
        newPhotos' := newPhotos + 1;
        jobs' := jobs + [ThumbJob(e.path, thumbsDir, ThumbFile(r.value))];
        if e.thumbnailOk {
          thumbnails' := thumbnails + 1;
        }
      }
    }
  }

  /** The walk from position `i` on: one step, or the error at `i`. */
  lemma ScanFromAt(existing: set<string>, thumbsDir: string, s: ScanState, entries: seq<Entry>, i: nat)
    requires i < |entries|
    ensures entries[i].Visit? ==> ScanFrom(existing, thumbsDir, s, entries[i..])
                                  == ScanFrom(existing, thumbsDir, Step(existing, thumbsDir, s, entries[i]), entries[i + 1..])
    ensures entries[i].WalkError? ==> ScanFrom(existing, thumbsDir, s, entries[i..]) == (s, Some(entries[i].message))
  {
    assert entries[i..][0] == entries[i] && entries[i..][1..] == entries[i + 1..];
  }

  /** Reordering a photo table does not change its set of filenames. */
  lemma FilenamesOfPermutation(a: seq<Photo>, b: seq<Photo>)
    requires multiset(a) == multiset(b)
    ensures Filenames(a) == Filenames(b)
  {
    forall n ensures n in Filenames(a) ==> n in Filenames(b) {
      if n in Filenames(a) {
        var i :| 0 <= i < |a| && a[i].filename == n;
        SameMembers(a, b, a[i]);
        var j :| 0 <= j < |b| && b[j] == a[i];
      }
    }
    forall n ensures n in Filenames(b) ==> n in Filenames(a) {
      if n in Filenames(b) {
        var j :| 0 <= j < |b| && b[j].filename == n;
        SameMembers(a, b, b[j]);
        var i :| 0 <= i < |a| && a[i] == b[j];
      }
    }
  }
}
