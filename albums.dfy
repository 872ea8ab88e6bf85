/**
 * `save_final_albums`: the edited clusters become album directories below
 * the output directory, each receiving a copy of every original photo one of
 * its faces came from. Directory creation and copying are recorded as a plan
 * of steps; the copies themselves are file-system effects outside the model.
 */
module Albums {
  import opened Wrappers
  import opened Decimal
  import opened Paths
  import opened Extraction
  import Seqs

  /** `str.isalnum`, on ASCII letters and digits. */
  predicate IsAlnum(c: char) {
    'a' <= c <= 'z' || 'A' <= c <= 'Z' || '0' <= c <= '9'
  }

  /** The characters the sanitiser keeps. */
  predicate IsNameChar(c: char) {
    IsAlnum(c) || c == ' ' || c == '_'
  }

  /** `str.isspace`: the characters `str.rstrip()` removes. */
  predicate IsWhitespace(c: char) {
    var x := c as int;
    9 <= x <= 13 || 28 <= x <= 32 || x == 0x85 || x == 0xA0 || x == 0x1680
    || 0x2000 <= x <= 0x200A || x == 0x2028 || x == 0x2029 || x == 0x202F || x == 0x205F || x == 0x3000
  }

  /**
   * The filter of the sanitiser: the letters, digits, spaces and underscores
   * of `s`, in order, every other character dropped.
   */
  function KeepNameChars(s: string): (r: string)
    ensures |r| <= |s| && forall c :: c in r ==> IsNameChar(c)
  {
    if s == [] then [] else (if IsNameChar(s[0]) then [s[0]] else []) + KeepNameChars(s[1..])
  }

  /** Nothing the sanitiser allows is dropped: each such character is kept as often as it occurs. */
  lemma {:induction false} KeepNameCharsKeepsAll(s: string)
    ensures forall c :: IsNameChar(c) ==> multiset(KeepNameChars(s))[c] == multiset(s)[c]
  {
    if s != [] {
      assert s == [s[0]] + s[1..];
      KeepNameCharsKeepsAll(s[1..]);
    }
  }

  /** The filter works character by character, so it keeps the order of what it keeps. */
  lemma {:induction false} KeepNameCharsAppend(a: string, b: string)
    ensures KeepNameChars(a + b) == KeepNameChars(a) + KeepNameChars(b)
  {
    if a != [] {
      assert (a + b)[1..] == a[1..] + b;
      KeepNameCharsAppend(a[1..], b);
      Seqs.AppendAssoc(if IsNameChar(a[0]) then [a[0]] else [], KeepNameChars(a[1..]), KeepNameChars(b));
    } else {
      assert a + b == b;
    }
  }

  /** `str.rstrip()`: the longest prefix that does not end in whitespace, dropping only whitespace. */
  function RStrip(s: string): (r: string)
    ensures |r| <= |s| && (r == [] || !IsWhitespace(r[|r| - 1]))
    ensures (forall i :: 0 <= i < |r| ==> r[i] == s[i]) && forall i :: |r| <= i < |s| ==> IsWhitespace(s[i])
  {
    if s != [] && IsWhitespace(s[|s| - 1]) then RStrip(s[..|s| - 1]) else s
  }

  /** The directory name made from a cluster name. */
  function Sanitize(name: string): string {
    RStrip(KeepNameChars(name))
  }

  /** A sanitised name holds only letters, digits, spaces and underscores, and does not end in a space. */
  lemma {:induction false} SanitizeShape(name: string)
    ensures var r := Sanitize(name);
      (forall c :: c in r ==> IsNameChar(c)) && (r == [] || r[|r| - 1] != ' ')
  {
    var k := KeepNameChars(name);
    var r := Sanitize(name);
    forall c | c in r ensures IsNameChar(c) {
      var i :| 0 <= i < |r| && r[i] == c;
      assert c == k[i];
    }
  }

  lemma {:induction false} KeepClean(s: string)
    requires forall c :: c in s ==> IsNameChar(c)
    ensures KeepNameChars(s) == s
  {
    if s != [] {
      assert s[0] in s;
      assert forall c :: c in s[1..] ==> c in s;
      KeepClean(s[1..]);
      assert [s[0]] + s[1..] == s;
    }
  }

  /** A name that is already clean is left as it is. */
  lemma {:induction false} SanitizeClean(name: string)
    requires forall c :: c in name ==> IsNameChar(c)
    requires name == [] || name[|name| - 1] != ' '
    ensures Sanitize(name) == name
  {
    KeepClean(name);
    if name != [] {
      assert name[|name| - 1] in name;
    }
  }

  /** Sanitising twice changes nothing more. */
  lemma {:induction false} SanitizeIdempotent(name: string)
    ensures Sanitize(Sanitize(name)) == Sanitize(name)
  {
    SanitizeShape(name);
    SanitizeClean(Sanitize(name));
  }

  /** A non-empty sanitised name is one directory directly below the output directory. */
  lemma {:induction false} AlbumDirIsChild(base: string, name: string)
    requires Sanitize(name) != []
    ensures Basename(Join(base, Sanitize(name))) == Sanitize(name)
  {
    SanitizeShape(name);
    BasenameOfJoin(base, Sanitize(name));
  }

  /**
   * The map from face id to record built at the start of the save, keeping
   * only the `original_path` that is used: a later record with the same id
   * wins.
   */
  function FaceMap(records: seq<FaceRecord>): map<int, string> {
    if records == [] then map[]
    else
      var n := |records| - 1;
      FaceMap(records[..n])[records[n].faceId := records[n].originalPath]
  }

  /** Every face id of the cache is a key, mapped to the path of its last record. */
  lemma {:induction false} FaceMapLastWins(records: seq<FaceRecord>, id: int)
    ensures id in FaceMap(records) <==> exists k :: 0 <= k < |records| && records[k].faceId == id
    ensures id in FaceMap(records) ==>
      exists k :: 0 <= k < |records| && records[k].faceId == id
        && FaceMap(records)[id] == records[k].originalPath && forall j :: k < j < |records| ==> records[j].faceId != id
  {
    if records != [] {
      var n := |records| - 1;
      var p := records[..n];
      FaceMapLastWins(p, id);
      if records[n].faceId != id && id in FaceMap(p) {
        var k :| 0 <= k < n && p[k].faceId == id && FaceMap(p)[id] == p[k].originalPath
          && forall j :: k < j < n ==> p[j].faceId != id;
        assert records[k] == p[k];
      }
      if exists k :: 0 <= k < |records| && records[k].faceId == id {
        var k :| 0 <= k < |records| && records[k].faceId == id;
        if k < n {
          assert p[k].faceId == id;
        }
      }
    }
  }

  /** A cluster as the UI sends it back; `name`, `cluster_id` and `faces` may be missing. */
  datatype EditedCluster = EditedCluster(name: Option<string>, clusterId: Option<int>, faceIds: Option<seq<int>>)

  /** One file-system effect: `os.makedirs(dir)` or copying a set of photos into `dir`. */
  datatype Step = MakeDir(dir: string) | CopyPhotos(dir: string, photos: set<string>)

  /** The `KeyError`s the loop can raise. */
  datatype SaveError = MissingClusterId | MissingFaces | UnknownFaceId(faceId: int)

  /** The steps taken, and the error that ended the loop early, if any. */
  datatype SaveOutcome = SaveOutcome(steps: seq<Step>, error: Option<SaveError>)

  /**
   * The album name: the cluster's name, or `cluster_<id>` when it has none.
   * The default is built before the name is looked up, so a missing id
   * raises even when a name is given.
   */
  function AlbumName(c: EditedCluster): Option<string> {
    match c.clusterId
    case None => None
    case Some(id) => Some(c.name.GetOr("cluster_" + IntToString(id)))
  }

  /** Position of the first face id that is not in the map. */
  function FirstUnknown(ids: seq<int>, m: map<int, string>): (r: Option<nat>)
    ensures r.Some? ==> r.value < |ids| && ids[r.value] !in m && forall i :: 0 <= i < r.value ==> ids[i] in m
    ensures r.None? ==> forall i :: 0 <= i < |ids| ==> ids[i] in m
  {
    if ids == [] then None
    else if ids[0] !in m then Some(0)
    else
      match FirstUnknown(ids[1..], m)
      case None => None
      case Some(k) => Some(k + 1)
  }

  /** The original photos of the listed faces, each once. */
  function PhotoSet(ids: seq<int>, m: map<int, string>): set<string>
    requires forall i :: 0 <= i < |ids| ==> ids[i] in m
  {
    set i | 0 <= i < |ids| :: m[ids[i]]
  }

  /** What one iteration of the loop does. */
  function AlbumSteps(c: EditedCluster, m: map<int, string>, base: string): SaveOutcome {
    match AlbumName(c)
    case None => SaveOutcome([], Some(MissingClusterId))
    case Some(name) =>
      var dir := Join(base, Sanitize(name));
      match c.faceIds
      case None => SaveOutcome([MakeDir(dir)], Some(MissingFaces))
      case Some(ids) =>
        match FirstUnknown(ids, m)
        case Some(k) => SaveOutcome([MakeDir(dir)], Some(UnknownFaceId(ids[k])))
        case None => SaveOutcome([MakeDir(dir), CopyPhotos(dir, PhotoSet(ids, m))], None)
  }

  /** `steps` followed by what `o` does. */
  function Then(steps: seq<Step>, o: SaveOutcome): SaveOutcome {
    SaveOutcome(steps + o.steps, o.error)
  }

  /** The whole loop: the clusters in order, stopping at the first error. */
  function SavePlan(cs: seq<EditedCluster>, m: map<int, string>, base: string): SaveOutcome {
    if cs == [] then SaveOutcome([], None)
    else
      var first := AlbumSteps(cs[0], m, base);
      if first.error.Some? then first else Then(first.steps, SavePlan(cs[1..], m, base))
  }

  /** The inner loop: the set of original paths, or the first face id missing from the map. */
  method CollectPhotos(ids: seq<int>, faceMap: map<int, string>) returns (photos: set<string>, unknown: Option<int>)
    ensures match FirstUnknown(ids, faceMap)
      case Some(k) => unknown == Some(ids[k])
      case None => unknown == None && photos == PhotoSet(ids, faceMap)
  {
    photos := {};
    var j := 0;
    while j < |ids|
      invariant j <= |ids|
      invariant forall i :: 0 <= i < j ==> ids[i] in faceMap
      invariant photos == set i | 0 <= i < j :: faceMap[ids[i]]
    {
      if ids[j] !in faceMap {
        return photos, Some(ids[j]);
      }
      assert (set i | 0 <= i < j + 1 :: faceMap[ids[i]]) == photos + {faceMap[ids[j]]};
      photos := photos + {faceMap[ids[j]]};
      j := j + 1;
    }
    unknown := None;
  }

  lemma {:induction false} SavePlanStep(cs: seq<EditedCluster>, m: map<int, string>, base: string, i: nat)
    requires i < |cs|
    ensures var first := AlbumSteps(cs[i], m, base);
      SavePlan(cs[i..], m, base) == if first.error.Some? then first else Then(first.steps, SavePlan(cs[i + 1..], m, base))
  {
    Seqs.DropStep(cs, i);
  }

  lemma {:induction false} ThenAssoc(a: seq<Step>, b: seq<Step>, o: SaveOutcome)
    ensures Then(a, Then(b, o)) == Then(a + b, o)
  {
    Seqs.AppendAssoc(a, b, o.steps);
  }

  /** One iteration of the loop of `save_final_albums`. */
  method SaveAlbum(cluster: EditedCluster, faceMap: map<int, string>, outputPathBase: string) returns (o: SaveOutcome)
    ensures o == AlbumSteps(cluster, faceMap, outputPathBase)
  {
    if cluster.clusterId.None? {
      return SaveOutcome([], Some(MissingClusterId));
    }
    var clusterName := cluster.name.GetOr("cluster_" + IntToString(cluster.clusterId.value));
    var clusterDir := Join(outputPathBase, Sanitize(clusterName));
    if cluster.faceIds.None? {
      return SaveOutcome([MakeDir(clusterDir)], Some(MissingFaces));
    }
    var photos, unknown := CollectPhotos(cluster.faceIds.value, faceMap);
    if unknown.Some? {
      return SaveOutcome([MakeDir(clusterDir)], Some(UnknownFaceId(unknown.value)));
    }
    o := SaveOutcome([MakeDir(clusterDir), CopyPhotos(clusterDir, photos)], None);
  }

  /** The loop of `save_final_albums`: the clusters in order, until a `KeyError`. */
  method SaveFinalAlbums(clusterData: seq<EditedCluster>, allFacesData: seq<FaceRecord>, outputPathBase: string)
    returns (steps: seq<Step>, error: Option<SaveError>)
    ensures SaveOutcome(steps, error) == SavePlan(clusterData, FaceMap(allFacesData), outputPathBase)
  {
    var faceMap := FaceMap(allFacesData);
    ghost var all := SavePlan(clusterData, faceMap, outputPathBase);
    steps := [];
    var i := 0;
    Seqs.DropEnds(clusterData);
    Seqs.AppendEmpty(all.steps);
    while i < |clusterData|
      invariant i <= |clusterData|
      invariant all == Then(steps, SavePlan(clusterData[i..], faceMap, outputPathBase))
    {
      var o := SaveAlbum(clusterData[i], faceMap, outputPathBase);
      SavePlanStep(clusterData, faceMap, outputPathBase, i);
      if o.error.Some? {
        return steps + o.steps, o.error;
      }
      ThenAssoc(steps, o.steps, SavePlan(clusterData[i + 1..], faceMap, outputPathBase));
      steps := steps + o.steps;
      i := i + 1;
    }
    Seqs.DropEnds(clusterData);
    Seqs.AppendEmpty(steps);
    error := None;
  }

  /** A cluster can be saved exactly when it has an id, a face list, and every face id is in the cache. */
  predicate Saveable(c: EditedCluster, m: map<int, string>) {
    c.clusterId.Some? && c.faceIds.Some? && forall i :: 0 <= i < |c.faceIds.value| ==> c.faceIds.value[i] in m
  }

  /** The loop finishes without a `KeyError` exactly when every cluster can be saved. */
  lemma {:induction false} SavePlanSucceeds(cs: seq<EditedCluster>, m: map<int, string>, base: string)
    ensures SavePlan(cs, m, base).error == None <==> forall i :: 0 <= i < |cs| ==> Saveable(cs[i], m)
  {
    if cs != [] {
      SavePlanSucceeds(cs[1..], m, base);
      var c := cs[0];
      if c.clusterId.Some? && c.faceIds.Some? {
        var r := FirstUnknown(c.faceIds.value, m);
        assert r.Some? <==> !Saveable(c, m);
      }
      assert forall i :: 1 <= i < |cs| ==> cs[i] == cs[1..][i - 1];
    }
  }

  /** A cluster that can be saved gets its directory made, then its photos copied into it. */
  lemma {:induction false} SaveableSteps(c: EditedCluster, m: map<int, string>, base: string)
    requires Saveable(c, m)
    ensures var dir := Join(base, Sanitize(AlbumName(c).value));
      AlbumSteps(c, m, base) == SaveOutcome([MakeDir(dir), CopyPhotos(dir, PhotoSet(c.faceIds.value, m))], None)
  {
    assert FirstUnknown(c.faceIds.value, m).None?;
  }

  /** A successful run takes two steps per cluster, and each step belongs to one of the clusters. */
  lemma {:induction false} SavePlanSteps(cs: seq<EditedCluster>, m: map<int, string>, base: string)
    requires forall i :: 0 <= i < |cs| ==> Saveable(cs[i], m)
    ensures var steps := SavePlan(cs, m, base).steps;
      |steps| == 2 * |cs|
      && forall s :: s in steps <==> exists i :: 0 <= i < |cs| && s in AlbumSteps(cs[i], m, base).steps
  {
    if cs != [] {
      SaveableSteps(cs[0], m, base);
      assert forall i :: 1 <= i < |cs| ==> cs[i] == cs[1..][i - 1];
      SavePlanSteps(cs[1..], m, base);
      var first, rest := AlbumSteps(cs[0], m, base).steps, SavePlan(cs[1..], m, base).steps;
      forall s | s in first + rest ensures exists i :: 0 <= i < |cs| && s in AlbumSteps(cs[i], m, base).steps {
        if s !in first {
          var i :| 0 <= i < |cs| - 1 && s in AlbumSteps(cs[1..][i], m, base).steps;
          assert s in AlbumSteps(cs[i + 1], m, base).steps;
        }
      }
      forall s | exists i :: 0 <= i < |cs| && s in AlbumSteps(cs[i], m, base).steps ensures s in first + rest {
        var i :| 0 <= i < |cs| && s in AlbumSteps(cs[i], m, base).steps;
        if i > 0 {
          assert s in AlbumSteps(cs[1..][i - 1], m, base).steps;
        }
      }
    }
  }

  /** A face id missing from the cache fails the cluster after its directory was made, and copies nothing. */
  lemma {:induction false} UnknownFaceAfterMakeDir(c: EditedCluster, m: map<int, string>, base: string)
    requires c.clusterId.Some? && c.faceIds.Some? && !Saveable(c, m)
    ensures var o := AlbumSteps(c, m, base);
      o.error.Some? && o.error.value.UnknownFaceId? && o.error.value.faceId !in m
      && o.steps == [MakeDir(Join(base, Sanitize(AlbumName(c).value)))]
  {
    var r := FirstUnknown(c.faceIds.value, m);
    assert r.Some?;
  }

  /**
   * Each photo copied for a cluster is the original of one of its faces (the
   * path of that face's last cache record), every face contributes its photo,
   * and a photo shared by several faces is copied once.
   */
  lemma {:induction false} PhotoSetOfFaces(ids: seq<int>, records: seq<FaceRecord>)
    requires forall i :: 0 <= i < |ids| ==> ids[i] in FaceMap(records)
    ensures var photos := PhotoSet(ids, FaceMap(records));
      |photos| <= |ids|
      && (forall i :: 0 <= i < |ids| ==> FaceMap(records)[ids[i]] in photos)
      && forall p :: p in photos ==> exists k :: 0 <= k < |records| && records[k].originalPath == p && records[k].faceId in ids
  {
    var m := FaceMap(records);
    PhotoSetSize(ids, m, |ids|);
    forall p | p in PhotoSet(ids, m)
      ensures exists k :: 0 <= k < |records| && records[k].originalPath == p && records[k].faceId in ids
    {
      var i :| 0 <= i < |ids| && m[ids[i]] == p;
      FaceMapLastWins(records, ids[i]);
    }
  }

  lemma {:induction false} PhotoSetSize(ids: seq<int>, m: map<int, string>, n: nat)
    requires n <= |ids| && forall i :: 0 <= i < |ids| ==> ids[i] in m
    ensures |set i | 0 <= i < n :: m[ids[i]]| <= n
  {
    if n > 0 {
      PhotoSetSize(ids, m, n - 1);
      assert (set i | 0 <= i < n :: m[ids[i]]) == (set i | 0 <= i < n - 1 :: m[ids[i]]) + {m[ids[n - 1]]};
    }
  }
}
