/**
 * Face extraction: every image file of a directory is resolved to a
 * timestamp, read, and handed to the face detector; each detected face gets
 * the next id of a running counter, its crop is written as `face_<id>.jpg`
 * below the faces cache directory, and a face record is appended.
 */
module Extraction {
  import opened Wrappers
  import opened Decimal
  import opened Paths
  import opened Timestamps
  import Seqs

  /** A face embedding; only the detector and the distance computation look inside. */
  type Embedding = seq<real>

  /**
   * One face the detector returns. `cropRaises` says whether writing its
   * crop raises (an empty crop, for one, makes `cv2.imwrite` raise).
   */
  datatype DetectedFace = DetectedFace(embedding: Embedding, cropRaises: bool)

  /**
   * What reading a file and running the detector on it gives: `Unreadable`
   * when `cv2.imread` returns nothing or the detector raises.
   */
  datatype Detection = Unreadable | Detected(faces: seq<DetectedFace>)

  /** The inputs the extraction loop draws from one file. */
  datatype SourceFile = SourceFile(
    exif: Option<map<string, ExifValue>>,
    mtime: Option<UtcTime>,
    detection: Detection)

  /**
   * A face record. Records made by extraction carry no `faceImageUrl`; the
   * ones written to the cache carry it.
   */
  datatype FaceRecord = FaceRecord(
    faceId: int,
    embedding: Embedding,
    originalPath: string,
    faceImagePath: string,
    faceImageUrl: Option<string>,
    takenAt: Option<string>,
    timestampSource: TimestampSource)

  /** The crop's file name, `face_{face_id}.jpg`. */
  function FaceFileName(id: nat): string {
    "face_" + NatToString(id) + ".jpg"
  }

  /** A crop name is a plain relative name: no `/` anywhere in it. */
  lemma {:induction false} FaceFileNameRelative(id: nat)
    ensures |FaceFileName(id)| > 0 && '/' !in FaceFileName(id)
  {
    var digits := NatToString(id);
    assert forall k :: 0 <= k < |digits| ==> IsDigit(digits[k]);
    assert FaceFileName(id) == "face_" + digits + ".jpg";
  }

  /** Two ids never share a crop name. */
  lemma {:induction false} FaceFileNameInjective(i: nat, j: nat)
    requires FaceFileName(i) == FaceFileName(j)
    ensures i == j
  {
    var a, b := FaceFileName(i), FaceFileName(j);
    assert NatToString(i) == a[5..|a| - 4];
    assert NatToString(j) == b[5..|b| - 4];
    NatToStringInjective(i, j);
  }

  /** Two ids never share a crop file. */
  lemma {:induction false} CropPathsDistinct(cacheDir: string, i: nat, j: nat)
    requires i != j
    ensures Join(cacheDir, FaceFileName(i)) != Join(cacheDir, FaceFileName(j))
  {
    if Join(cacheDir, FaceFileName(i)) == Join(cacheDir, FaceFileName(j)) {
      FaceFileNameRelative(i);
      FaceFileNameRelative(j);
      JoinInjective(cacheDir, FaceFileName(i), FaceFileName(j));
      FaceFileNameInjective(i, j);
    }
  }

  function NewRecord(id: nat, face: DetectedFace, path: string, stamp: Stamp, cacheDir: string): FaceRecord {
    FaceRecord(id, face.embedding, path, Join(cacheDir, FaceFileName(id)), None, stamp.takenAt, stamp.source)
  }

  /**
   * The records one file contributes once its faces are known: one per face
   * in detector order, up to the first face whose crop raises (that
   * exception abandons the rest of the file).
   */
  function FileRecords(path: string, stamp: Stamp, faces: seq<DetectedFace>, cacheDir: string, nextId: nat): seq<FaceRecord> {
    if faces == [] || faces[0].cropRaises then []
    else [NewRecord(nextId, faces[0], path, stamp, cacheDir)] + FileRecords(path, stamp, faces[1..], cacheDir, nextId + 1)
  }

  /**
   * What the per-file `try` settles before any crop is written: the file is
   * skipped when resolving its timestamp raises or the image cannot be read;
   * otherwise it has a stamp and the detected faces.
   */
  datatype FilePlan = Skipped | Crops(stamp: Stamp, faces: seq<DetectedFace>)

  function PlanFile(file: SourceFile): FilePlan {
    match DetermineTimestamp(file.exif, file.mtime)
    case None => Skipped
    case Some(stamp) =>
      match file.detection
      case Unreadable => Skipped
      case Detected(faces) => Crops(stamp, faces)
  }

  function Plans(files: seq<DirEntry<SourceFile>>): (ps: seq<FilePlan>)
    ensures |ps| == |files| && forall i :: 0 <= i < |files| ==> ps[i] == PlanFile(files[i].content)
  {
    seq(|files|, i requires 0 <= i < |files| => PlanFile(files[i].content))
  }

  /** The records one file contributes, ids from `nextId`. */
  function PlanRecords(path: string, plan: FilePlan, cacheDir: string, nextId: nat): seq<FaceRecord> {
    match plan
    case Skipped => []
    case Crops(stamp, faces) => FileRecords(path, stamp, faces, cacheDir, nextId)
  }

  /** The records of `files[i..]` in order, given their plans, ids continuing from `nextId`. */
  function Numbered(dir: string, files: seq<DirEntry<SourceFile>>, plans: seq<FilePlan>, i: nat, cacheDir: string, nextId: nat): seq<FaceRecord>
    requires |plans| == |files| && i <= |files|
    decreases |files| - i
  {
    if i == |files| then []
    else
      var rs := PlanRecords(Join(dir, files[i].name), plans[i], cacheDir, nextId);
      rs + Numbered(dir, files, plans, i + 1, cacheDir, nextId + |rs|)
  }

  /** The records `extract_faces` collects from `files`, ids from `nextId`. */
  function Extracted(dir: string, files: seq<DirEntry<SourceFile>>, cacheDir: string, nextId: nat): seq<FaceRecord> {
    Numbered(dir, files, Plans(files), 0, cacheDir, nextId)
  }

  /** The web locator `save_face_data` stores for a crop. */
  function WebPath(faceImagePath: string): string {
    "/output_albums/.cache/faces/" + Basename(faceImagePath)
  }

  /** One record as `save_face_data` serialises it: the same fields plus the web locator. */
  function CacheRecord(r: FaceRecord): (c: FaceRecord)
    ensures c.faceImageUrl == Some(WebPath(r.faceImagePath))
    ensures c.(faceImageUrl := r.faceImageUrl) == r
  {
    r.(faceImageUrl := Some(WebPath(r.faceImagePath)))
  }

  function CacheRecords(rs: seq<FaceRecord>): (cs: seq<FaceRecord>)
    ensures |cs| == |rs| && forall i :: 0 <= i < |rs| ==> cs[i] == CacheRecord(rs[i])
  {
    seq(|rs|, i requires 0 <= i < |rs| => CacheRecord(rs[i]))
  }

  // ---------------------------------------------------------------------
  // Properties of the specification
  // ---------------------------------------------------------------------

  /** Within a file, ids run on from `nextId`, and each record names its own crop. */
  lemma {:induction false} FileRecordsIds(path: string, stamp: Stamp, faces: seq<DetectedFace>, cacheDir: string, nextId: nat)
    ensures var rs := FileRecords(path, stamp, faces, cacheDir, nextId);
      |rs| <= |faces|
      && forall i :: 0 <= i < |rs| ==>
        rs[i].faceId == nextId + i && rs[i].originalPath == path
        && rs[i].faceImagePath == Join(cacheDir, FaceFileName(nextId + i))
        && rs[i].takenAt == stamp.takenAt && rs[i].timestampSource == stamp.source
        && rs[i].embedding == faces[i].embedding && !faces[i].cropRaises
  {
    if faces != [] && !faces[0].cropRaises {
      FileRecordsIds(path, stamp, faces[1..], cacheDir, nextId + 1);
    }
  }

  /** The locator `save_face_data` stores for a crop named after face `id`. */
  lemma {:induction false} CacheUrl(r: FaceRecord, cacheDir: string, id: nat)
    requires r.faceImagePath == Join(cacheDir, FaceFileName(id))
    ensures CacheRecord(r).faceImageUrl == Some(CachedLocator(id))
  {
    FaceFileNameRelative(id);
    BasenameOfJoin(cacheDir, FaceFileName(id));
  }

  /** The web locator of the crop of face `id`. */
  function CachedLocator(id: nat): string {
    "/output_albums/.cache/faces/" + FaceFileName(id)
  }

  /** Two faces never share a web locator. */
  lemma {:induction false} CachedLocatorsDistinct(i: nat, j: nat)
    requires i != j
    ensures CachedLocator(i) != CachedLocator(j)
  {
    if CachedLocator(i) == CachedLocator(j) {
      var prefix := "/output_albums/.cache/faces/";
      assert FaceFileName(i) == CachedLocator(i)[|prefix|..];
      assert FaceFileName(j) == CachedLocator(j)[|prefix|..];
      FaceFileNameInjective(i, j);
    }
  }

  /**
   * The cache written for an id run from `nextId`: record `i` carries the
   * locator `/output_albums/.cache/faces/face_<nextId + i>.jpg`, so no two
   * records share a locator, and every other field is the extracted one.
   */
  lemma {:induction false} CacheUrls(rs: seq<FaceRecord>, cacheDir: string, nextId: nat)
    requires IdsFrom(rs, cacheDir, nextId)
    ensures var cs := CacheRecords(rs);
      |cs| == |rs|
      && (forall i :: 0 <= i < |rs| ==> cs[i].(faceImageUrl := None) == rs[i].(faceImageUrl := None))
      && LocatorsFrom(cs, nextId)
      && forall i, j :: 0 <= i < j < |rs| ==> cs[i].faceImageUrl != cs[j].faceImageUrl
  {
    var cs := CacheRecords(rs);
    forall i | 0 <= i < |rs|
      ensures cs[i].faceImageUrl == Some(CachedLocator(nextId + i))
    {
      CacheUrl(rs[i], cacheDir, nextId + i);
    }
    LocatorRunDistinct(cs, nextId);
  }

  /** Record `i` of `cs` carries the locator of face `nextId + i`. */
  predicate LocatorsFrom(cs: seq<FaceRecord>, nextId: nat) {
    forall i :: 0 <= i < |cs| ==> cs[i].faceImageUrl == Some(CachedLocator(nextId + i))
  }

  /** Records that carry the locators of consecutive ids carry pairwise different locators. */
  lemma {:induction false} LocatorRunDistinct(cs: seq<FaceRecord>, nextId: nat)
    requires LocatorsFrom(cs, nextId)
    ensures forall i, j :: 0 <= i < j < |cs| ==> cs[i].faceImageUrl != cs[j].faceImageUrl
  {
    forall i, j | 0 <= i < j < |cs| ensures cs[i].faceImageUrl != cs[j].faceImageUrl {
      CachedLocatorsDistinct(nextId + i, nextId + j);
    }
  }

  /** Without crop failures, a file contributes exactly one record per detected face. */
  lemma {:induction false} FileRecordsCount(path: string, stamp: Stamp, faces: seq<DetectedFace>, cacheDir: string, nextId: nat)
    requires forall i :: 0 <= i < |faces| ==> !faces[i].cropRaises
    ensures |FileRecords(path, stamp, faces, cacheDir, nextId)| == |faces|
  {
    if faces != [] {
      FileRecordsCount(path, stamp, faces[1..], cacheDir, nextId + 1);
    }
  }

  /**
   * `rs` carries the ids `nextId`, `nextId + 1`, ... in order, and each
   * record's crop is `face_<id>.jpg` in `cacheDir`.
   */
  predicate IdsFrom(rs: seq<FaceRecord>, cacheDir: string, nextId: nat) {
    forall i :: 0 <= i < |rs| ==>
      rs[i].faceId == nextId + i && rs[i].faceImagePath == Join(cacheDir, FaceFileName(nextId + i))
  }

  /** Ids run on across files: concatenating two id runs that meet gives one. */
  lemma {:induction false} IdsFromAppend(rs: seq<FaceRecord>, rest: seq<FaceRecord>, cacheDir: string, nextId: nat)
    requires IdsFrom(rs, cacheDir, nextId) && IdsFrom(rest, cacheDir, nextId + |rs|)
    ensures IdsFrom(rs + rest, cacheDir, nextId)
  {
    forall i | 0 <= i < |rs + rest|
      ensures (rs + rest)[i].faceId == nextId + i
      ensures (rs + rest)[i].faceImagePath == Join(cacheDir, FaceFileName(nextId + i))
    {
      if i >= |rs| {
        assert (rs + rest)[i] == rest[i - |rs|];
      }
    }
  }

  /**
   * The ids of the records are exactly `nextId`, `nextId + 1`, ... in
   * discovery order, and each record's crop is `face_<id>.jpg`.
   */
  lemma {:induction false} NumberedIds(dir: string, files: seq<DirEntry<SourceFile>>, plans: seq<FilePlan>, i: nat, cacheDir: string, nextId: nat)
    requires |plans| == |files| && i <= |files|
    ensures IdsFrom(Numbered(dir, files, plans, i, cacheDir, nextId), cacheDir, nextId)
    decreases |files| - i
  {
    if i < |files| {
      var path := Join(dir, files[i].name);
      var rs := PlanRecords(path, plans[i], cacheDir, nextId);
      if plans[i].Crops? {
        FileRecordsIds(path, plans[i].stamp, plans[i].faces, cacheDir, nextId);
      }
      NumberedIds(dir, files, plans, i + 1, cacheDir, nextId + |rs|);
      IdsFromAppend(rs, Numbered(dir, files, plans, i + 1, cacheDir, nextId + |rs|), cacheDir, nextId);
    }
  }

  /** Putting a file in front of the listing moves every position one on and changes nothing else. */
  lemma {:induction false} NumberedShift(dir: string, f: DirEntry<SourceFile>, p: FilePlan, files: seq<DirEntry<SourceFile>>,
                                          plans: seq<FilePlan>, i: nat, cacheDir: string, nextId: nat)
    requires |plans| == |files| && i <= |files|
    ensures Numbered(dir, [f] + files, [p] + plans, i + 1, cacheDir, nextId) == Numbered(dir, files, plans, i, cacheDir, nextId)
    decreases |files| - i
  {
    if i < |files| {
      assert ([f] + files)[i + 1] == files[i] && ([p] + plans)[i + 1] == plans[i];
      var rs := PlanRecords(Join(dir, files[i].name), plans[i], cacheDir, nextId);
      NumberedShift(dir, f, p, files, plans, i + 1, cacheDir, nextId + |rs|);
    }
  }

  /** A file that cannot be read, or has no faces, adds no record and leaves the ids as they were. */
  lemma {:induction false} FacelessFileAddsNothing(dir: string, f: DirEntry<SourceFile>, files: seq<DirEntry<SourceFile>>, cacheDir: string, nextId: nat)
    requires f.content.detection.Unreadable? || f.content.detection == Detected([])
    ensures Extracted(dir, [f] + files, cacheDir, nextId) == Extracted(dir, files, cacheDir, nextId)
  {
    PlansCons(f, files);
    FacelessPlanRecords(Join(dir, f.name), f.content, cacheDir, nextId);
    NumberedSkipHead(dir, f, PlanFile(f.content), files, Plans(files), cacheDir, nextId);
  }

  /** A first file that contributes no record leaves the records of the others as they were. */
  lemma {:induction false} NumberedSkipHead(dir: string, f: DirEntry<SourceFile>, p: FilePlan, files: seq<DirEntry<SourceFile>>,
                         plans: seq<FilePlan>, cacheDir: string, nextId: nat)
    requires |plans| == |files|
    requires PlanRecords(Join(dir, f.name), p, cacheDir, nextId) == []
    ensures Numbered(dir, [f] + files, [p] + plans, 0, cacheDir, nextId) == Numbered(dir, files, plans, 0, cacheDir, nextId)
  {
    var all, ps := [f] + files, [p] + plans;
    assert all[0] == f && ps[0] == p;
    var head := PlanRecords(Join(dir, all[0].name), ps[0], cacheDir, nextId);
    assert Numbered(dir, all, ps, 0, cacheDir, nextId) == head + Numbered(dir, all, ps, 1, cacheDir, nextId + |head|);
    NumberedShift(dir, f, p, files, plans, 0, cacheDir, nextId);
    Seqs.AppendEmpty(Numbered(dir, all, ps, 1, cacheDir, nextId));
  }

  lemma {:induction false} PlansCons(f: DirEntry<SourceFile>, files: seq<DirEntry<SourceFile>>)
    ensures Plans([f] + files) == [PlanFile(f.content)] + Plans(files)
  {
    var a, b := Plans([f] + files), [PlanFile(f.content)] + Plans(files);
    forall k | 0 <= k < |a| ensures a[k] == b[k] {
      if k > 0 {
        assert ([f] + files)[k] == files[k - 1];
      }
    }
  }

  /** A file that cannot be read, or has no faces, contributes no record whatever its timestamp. */
  lemma {:induction false} FacelessPlanRecords(path: string, file: SourceFile, cacheDir: string, nextId: nat)
    requires file.detection.Unreadable? || file.detection == Detected([])
    ensures PlanRecords(path, PlanFile(file), cacheDir, nextId) == []
  {
  }

  function DetectedCount(d: Detection): nat {
    match d
    case Unreadable => 0
    case Detected(faces) => |faces|
  }

  /** The number of faces the detector finds across the files. */
  function FaceCount(files: seq<DirEntry<SourceFile>>): nat {
    if files == [] then 0 else DetectedCount(files[0].content.detection) + FaceCount(files[1..])
  }

  /** Every readable file is planned with all its faces, and no crop write raises. */
  predicate CompletePlan(plan: FilePlan, file: SourceFile) {
    match file.detection
    case Unreadable => plan.Skipped?
    case Detected(faces) =>
      plan.Crops? && plan.faces == faces && forall k :: 0 <= k < |faces| ==> !faces[k].cropRaises
  }

  lemma {:induction false} NumberedCount(dir: string, files: seq<DirEntry<SourceFile>>, plans: seq<FilePlan>, i: nat, cacheDir: string, nextId: nat)
    requires |plans| == |files| && i <= |files|
    requires forall k :: 0 <= k < |files| ==> CompletePlan(plans[k], files[k].content)
    ensures |Numbered(dir, files, plans, i, cacheDir, nextId)| == FaceCount(files[i..])
    decreases |files| - i
  {
    if i < |files| {
      var rs := PlanRecords(Join(dir, files[i].name), plans[i], cacheDir, nextId);
      PlanRecordsCount(Join(dir, files[i].name), plans[i], files[i].content, cacheDir, nextId);
      Seqs.DropStep(files, i);
      NumberedCount(dir, files, plans, i + 1, cacheDir, nextId + |rs|);
    }
  }

  /** A complete plan gives one record per detected face. */
  lemma {:induction false} PlanRecordsCount(path: string, plan: FilePlan, file: SourceFile, cacheDir: string, nextId: nat)
    requires CompletePlan(plan, file)
    ensures |PlanRecords(path, plan, cacheDir, nextId)| == DetectedCount(file.detection)
  {
    if plan.Crops? {
      FileRecordsCount(path, plan.stamp, plan.faces, cacheDir, nextId);
    }
  }

  /** No timestamp lookup can raise and no crop write raises. */
  predicate NoFailures(files: seq<DirEntry<SourceFile>>) {
    forall i :: 0 <= i < |files| ==>
      TextOnly(files[i].content.exif)
      && (files[i].content.detection.Detected? ==>
            forall k :: 0 <= k < |files[i].content.detection.faces| ==> !files[i].content.detection.faces[k].cropRaises)
  }

  /** When nothing raises, there is one record per face the detector found. */
  lemma {:induction false} OneRecordPerFace(dir: string, files: seq<DirEntry<SourceFile>>, cacheDir: string, nextId: nat)
    requires NoFailures(files)
    ensures |Extracted(dir, files, cacheDir, nextId)| == FaceCount(files)
  {
    var plans := Plans(files);
    forall i | 0 <= i < |files|
      ensures CompletePlan(plans[i], files[i].content)
    {
      TextOnlyNeverRaises(files[i].content.exif, files[i].content.mtime);
    }
    NumberedCount(dir, files, plans, 0, cacheDir, nextId);
    Seqs.DropEnds(files);
  }

  // ---------------------------------------------------------------------
  // The loops
  // ---------------------------------------------------------------------

  /** The inner loop's step: a face whose crop is written adds its record, with the next id. */
  lemma {:induction false} FileRecordsLoopStep(path: string, stamp: Stamp, faces: seq<DetectedFace>, j: nat, cacheDir: string,
                            all: seq<FaceRecord>, done: seq<FaceRecord>, nextId: nat)
    requires j < |faces| && !faces[j].cropRaises
    requires all == done + FileRecords(path, stamp, faces[j..], cacheDir, nextId)
    ensures all == (done + [NewRecord(nextId, faces[j], path, stamp, cacheDir)])
      + FileRecords(path, stamp, faces[j + 1..], cacheDir, nextId + 1)
  {
    Seqs.DropStep(faces, j);
    Seqs.AppendAssoc(done, [NewRecord(nextId, faces[j], path, stamp, cacheDir)],
      FileRecords(path, stamp, faces[j + 1..], cacheDir, nextId + 1));
  }

  /** A face whose crop write raises ends the file: no record from it on. */
  lemma {:induction false} FileRecordsStopsAt(path: string, stamp: Stamp, faces: seq<DetectedFace>, j: nat, cacheDir: string, nextId: nat)
    requires j < |faces| && faces[j].cropRaises
    ensures FileRecords(path, stamp, faces[j..], cacheDir, nextId) == []
  {
    Seqs.DropStep(faces, j);
  }

  /**
   * The inner loop of `extract_faces`: one crop written and one record
   * appended per face, ids from `nextId`, until a crop write raises.
   */
  method WriteCrops(imagePath: string, stamp: Stamp, faces: seq<DetectedFace>, facesCachePath: string, nextId: nat)
    returns (records: seq<FaceRecord>)
    ensures records == FileRecords(imagePath, stamp, faces, facesCachePath, nextId)
  {
    ghost var all := FileRecords(imagePath, stamp, faces, facesCachePath, nextId);
    records := [];
    var faceIdCounter := nextId;
    var j := 0;
    Seqs.DropEnds(faces);
    while j < |faces|
      invariant 0 <= j <= |faces|
      invariant all == records + FileRecords(imagePath, stamp, faces[j..], facesCachePath, faceIdCounter)
    {
      if faces[j].cropRaises {
        FileRecordsStopsAt(imagePath, stamp, faces, j, facesCachePath, faceIdCounter);
        Seqs.AppendEmpty(records);
        return;
      }
      FileRecordsLoopStep(imagePath, stamp, faces, j, facesCachePath, all, records, faceIdCounter);
      records := records + [NewRecord(faceIdCounter, faces[j], imagePath, stamp, facesCachePath)];
      faceIdCounter := faceIdCounter + 1;
      j := j + 1;
    }
    Seqs.DropEnds(faces);
    Seqs.AppendEmpty(records);
  }

  /**
   * The body of the per-file `try` of `extract_faces`: resolve the
   * timestamp, read and detect, then write the crops. An exception anywhere
   * ends the file, keeping the records already appended.
   */
  method ExtractFile(imagePath: string, file: SourceFile, facesCachePath: string, nextId: nat)
    returns (records: seq<FaceRecord>)
    ensures records == PlanRecords(imagePath, PlanFile(file), facesCachePath, nextId)
  {
    var exifTimestamp := ReadExifTimestamp(file.exif);
    if exifTimestamp.Raised? {
      // the exception is caught by the per-file handler
      return [];
    }
    StampSources(file.exif, file.mtime);
    var stamp := DetermineTimestamp(file.exif, file.mtime).value;
    if file.detection.Unreadable? {
      return [];
    }
    records := WriteCrops(imagePath, stamp, file.detection.faces, facesCachePath, nextId);
  }

  /** What the outer loop keeps: the records so far followed by those of the files left give all the records. */
  lemma {:induction false} NumberedLoopStep(dir: string, files: seq<DirEntry<SourceFile>>, plans: seq<FilePlan>, i: nat, cacheDir: string,
                         all: seq<FaceRecord>, done: seq<FaceRecord>, records: seq<FaceRecord>, counter: nat)
    requires |plans| == |files| && i < |files|
    requires all == done + Numbered(dir, files, plans, i, cacheDir, counter)
    requires records == PlanRecords(Join(dir, files[i].name), plans[i], cacheDir, counter)
    ensures all == (done + records) + Numbered(dir, files, plans, i + 1, cacheDir, counter + |records|)
  {
    Seqs.AppendAssoc(done, records, Numbered(dir, files, plans, i + 1, cacheDir, counter + |records|));
  }

  /** The outer loop of `extract_faces`: every image file in listing order, one shared id counter. */
  method ExtractAll(inputPath: string, imageFiles: seq<DirEntry<SourceFile>>, facesCachePath: string)
    returns (allFaces: seq<FaceRecord>)
    ensures allFaces == Extracted(inputPath, imageFiles, facesCachePath, 0)
  {
    ghost var plans := Plans(imageFiles);
    ghost var all := Extracted(inputPath, imageFiles, facesCachePath, 0);
    allFaces := [];
    var faceIdCounter: nat := 0;
    var i := 0;
    Seqs.AppendEmpty(Numbered(inputPath, imageFiles, plans, 0, facesCachePath, 0));
    while i < |imageFiles|
      invariant 0 <= i <= |imageFiles|
      invariant faceIdCounter == |allFaces|
      invariant all == allFaces + Numbered(inputPath, imageFiles, plans, i, facesCachePath, faceIdCounter)
    {
      var records := ExtractFile(Join(inputPath, imageFiles[i].name), imageFiles[i].content, facesCachePath, faceIdCounter);
      NumberedLoopStep(inputPath, imageFiles, plans, i, facesCachePath, all, allFaces, records, faceIdCounter);
      allFaces := allFaces + records;
      faceIdCounter := faceIdCounter + |records|;
      i := i + 1;
    }
    assert Numbered(inputPath, imageFiles, plans, i, facesCachePath, faceIdCounter) == [];
    Seqs.AppendEmpty(allFaces);
  }

  /**
   * `extract_faces`. `listing` is `None` when the directory does not exist:
   * the result is then empty and the cache is left alone. Otherwise the
   * image files are processed in listing order with a running id counter, and
   * the records are what gets written to the cache (`cache`).
   */
  method ExtractFaces(inputPath: string, listing: Option<seq<DirEntry<SourceFile>>>, facesCachePath: string)
    returns (allFaces: seq<FaceRecord>, cache: Option<seq<FaceRecord>>)
    ensures listing.None? ==> allFaces == [] && cache.None?
    ensures listing.Some? ==>
      allFaces == Extracted(inputPath, ImageEntries(listing.value), facesCachePath, 0)
      && cache == Some(CacheRecords(allFaces))
    ensures IdsFrom(allFaces, facesCachePath, 0)
    ensures cache.Some? ==> LocatorsFrom(cache.value, 0)
  {
    if listing.None? {
      return [], None;
    }
    var imageFiles := ImageEntries(listing.value);
    allFaces := ExtractAll(inputPath, imageFiles, facesCachePath);
    NumberedIds(inputPath, imageFiles, Plans(imageFiles), 0, facesCachePath, 0);
    CacheUrls(allFaces, facesCachePath, 0);
    cache := Some(CacheRecords(allFaces));
  }
}
