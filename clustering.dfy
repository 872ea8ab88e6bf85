/**
 * What the photo processor does with the labels DBSCAN assigns: the cluster
 * count it reports, and the grouping of the faces by label into the UI
 * clusters, together with the per-cluster face-id snapshot it persists.
 * DBSCAN itself is not modelled: its labels are an input.
 */
module Clustering {
  import opened Wrappers
  import opened Decimal
  import opened Timestamps
  import opened Extraction
  import Seqs

  /** The label DBSCAN gives to a noise point. */
  const Noise: int := -1

  /**
   * The cluster count `cluster_faces` reports: the number of distinct labels,
   * less one when noise occurs, which is the number of distinct labels other
   * than noise.
   */
  function ClusterCount(labels: seq<int>): (n: nat)
    ensures n == |set l | l in labels && l != Noise|
  {
    var all := set l | l in labels;
    var clustered := set l | l in labels && l != Noise;
    if Noise in labels then
      assert all == clustered + {Noise} && Noise !in clustered;
      |all| - 1
    else
      assert all == clustered;
      |all|
  }

  /** `Person {label + 1}`, or `Unidentified` for noise; only noise is unidentified. */
  function DefaultName(lab: int): (name: string)
    ensures name == "Unidentified" <==> lab == Noise
  {
    if lab != Noise then
      var name := "Person " + IntToString(lab + 1);
      assert name[0] == 'P' != "Unidentified"[0];
      name
    else "Unidentified"
  }

  /** Two different labels never get the same default name. */
  lemma {:induction false} DefaultNamesDistinct(a: int, b: int)
    requires a != b
    ensures DefaultName(a) != DefaultName(b)
  {
    if a != Noise && b != Noise && DefaultName(a) == DefaultName(b) {
      var p := "Person ";
      assert IntToString(a + 1) == DefaultName(a)[|p|..];
      assert IntToString(b + 1) == DefaultName(b)[|p|..];
      IntToStringInjective(a + 1, b + 1);
    }
  }

  /** One face as the UI shows it. */
  datatype UiFace = UiFace(faceId: int, faceImageUrl: string, takenAt: Option<string>, timestampSource: TimestampSource)

  datatype UiCluster = UiCluster(clusterId: int, name: string, faces: seq<UiFace>)

  /** One entry of the persisted snapshot: the ids of a cluster's faces. */
  datatype Assignment = Assignment(clusterId: int, name: string, faceIds: seq<int>)

  /** The locator the UI shows: the record's own when it is present and non-empty, else one rebuilt from the crop path. */
  function UiUrl(r: FaceRecord): string {
    match r.faceImageUrl
    case Some(u) => if u != [] then u else WebPath(r.faceImagePath)
    case None => WebPath(r.faceImagePath)
  }

  /** A fresh record and its cached copy show the same locator. */
  lemma {:induction false} UiUrlFreshOrCached(r: FaceRecord)
    requires r.faceImageUrl == None
    ensures UiUrl(r) == UiUrl(CacheRecord(r)) == CacheRecord(r).faceImageUrl.value
  {
  }

  function UiFaceOf(r: FaceRecord): UiFace {
    UiFace(r.faceId, UiUrl(r), r.takenAt, r.timestampSource)
  }

  predicate Distinct(s: seq<int>) {
    forall a, b :: 0 <= a < b < |s| ==> s[a] != s[b]
  }

  /**
   * The distinct labels in the order they first occur: the key order of the
   * `clusters` dict, which Python keeps in insertion order.
   */
  function FirstSeen(labels: seq<int>): (order: seq<int>)
    ensures Distinct(order)
    ensures forall l :: l in order <==> l in labels
  {
    if labels == [] then []
    else
      var n := |labels| - 1;
      Seqs.SplitLast(labels);
      var prev := FirstSeen(labels[..n]);
      if labels[n] in prev then prev else prev + [labels[n]]
  }

  /** The UI entries of the faces labelled `label`, in input order. */
  function Members(faces: seq<FaceRecord>, labels: seq<int>, lab: int): seq<UiFace>
    requires |labels| <= |faces|
  {
    if labels == [] then []
    else
      var n := |labels| - 1;
      var prev := Members(faces, labels[..n], lab);
      if labels[n] == lab then prev + [UiFaceOf(faces[n])] else prev
  }

  /** The ids of the faces labelled `label`, in input order. */
  function MemberIds(faces: seq<FaceRecord>, labels: seq<int>, lab: int): seq<int>
    requires |labels| <= |faces|
  {
    if labels == [] then []
    else
      var n := |labels| - 1;
      var prev := MemberIds(faces, labels[..n], lab);
      if labels[n] == lab then prev + [faces[n].faceId] else prev
  }

  /** The UI clusters, one per distinct label, in first-seen order. */
  function Groups(faces: seq<FaceRecord>, labels: seq<int>): seq<UiCluster>
    requires |labels| <= |faces|
  {
    var order := FirstSeen(labels);
    seq(|order|, k requires 0 <= k < |order| => UiCluster(order[k], DefaultName(order[k]), Members(faces, labels, order[k])))
  }

  /** The persisted snapshot, one entry per distinct label, in first-seen order. */
  function Snapshot(faces: seq<FaceRecord>, labels: seq<int>): seq<Assignment>
    requires |labels| <= |faces|
  {
    var order := FirstSeen(labels);
    seq(|order|, k requires 0 <= k < |order| => Assignment(order[k], DefaultName(order[k]), MemberIds(faces, labels, order[k])))
  }

  /**
   * The outcome of `generate_cluster_ui_data`: an `IndexError` when there are
   * more labels than faces, otherwise the UI clusters and the snapshot that
   * `_persist_cluster_assignments` writes.
   */
  datatype UiOutcome = IndexError | Generated(clusters: seq<UiCluster>, assignments: seq<Assignment>)

  function ClusterUiData(faces: seq<FaceRecord>, labels: seq<int>): UiOutcome {
    if |labels| > |faces| then IndexError else Generated(Groups(faces, labels), Snapshot(faces, labels))
  }

  lemma {:induction false} MembersAbsent(faces: seq<FaceRecord>, labels: seq<int>, lab: int)
    requires |labels| <= |faces| && lab !in labels
    ensures Members(faces, labels, lab) == [] && MemberIds(faces, labels, lab) == []
  {
    if labels != [] {
      Seqs.SplitLast(labels);
      MembersAbsent(faces, labels[..|labels| - 1], lab);
    }
  }

  /**
   * The two dicts of `generate_cluster_ui_data` with the insertion order of
   * their keys (the same for both, since they always gain a key together).
   */
  datatype Tables = Tables(order: seq<int>, clusters: map<int, UiCluster>, assignments: map<int, Assignment>)

  /** One iteration: create both entries for a new label, then append the face to them. */
  function AddFace(t: Tables, lab: int, face: FaceRecord): Tables {
    var isNew := lab !in t.clusters;
    var cluster := if isNew then UiCluster(lab, DefaultName(lab), []) else t.clusters[lab];
    var assignment := if lab !in t.assignments then Assignment(lab, DefaultName(lab), []) else t.assignments[lab];
    Tables(if isNew then t.order + [lab] else t.order,
           t.clusters[lab := cluster.(faces := cluster.faces + [UiFaceOf(face)])],
           t.assignments[lab := assignment.(faceIds := assignment.faceIds + [face.faceId])])
  }

  /** The dicts after the first `|labels|` iterations. */
  function TablesAfter(faces: seq<FaceRecord>, labels: seq<int>): Tables
    requires |labels| <= |faces|
  {
    if labels == [] then Tables([], map[], map[])
    else
      var n := |labels| - 1;
      AddFace(TablesAfter(faces, labels[..n]), labels[n], faces[n])
  }

  lemma {:induction false} TablesAfterStep(faces: seq<FaceRecord>, labels: seq<int>, i: nat)
    requires i < |labels| && i < |faces|
    ensures TablesAfter(faces, labels[..i + 1]) == AddFace(TablesAfter(faces, labels[..i]), labels[i], faces[i])
  {
    Seqs.TakeStep(labels, i);
  }

  /** The dicts gain each distinct label once, in first-seen order. */
  lemma {:induction false} TablesAfterKeys(faces: seq<FaceRecord>, labels: seq<int>)
    requires |labels| <= |faces|
    ensures var t := TablesAfter(faces, labels);
      t.order == FirstSeen(labels)
      && (forall l :: l in t.clusters <==> l in labels)
      && (forall l :: l in t.assignments <==> l in labels)
  {
    if labels != [] {
      var n := |labels| - 1;
      Seqs.SplitLast(labels);
      TablesAfterKeys(faces, labels[..n]);
    }
  }

  /** Each entry has the default name and exactly the faces carrying its label. */
  lemma {:induction false} TablesAfterContents(faces: seq<FaceRecord>, labels: seq<int>)
    requires |labels| <= |faces|
    ensures var t := TablesAfter(faces, labels);
      (forall l :: l in t.clusters ==> t.clusters[l] == UiCluster(l, DefaultName(l), Members(faces, labels, l)))
      && (forall l :: l in t.assignments ==> t.assignments[l] == Assignment(l, DefaultName(l), MemberIds(faces, labels, l)))
  {
    if labels != [] {
      var n := |labels| - 1;
      var p := labels[..n];
      TablesAfterContents(faces, p);
      TablesAfterKeys(faces, p);
      var lab := labels[n];
      if lab !in p {
        MembersAbsent(faces, p, lab);
      }
    }
  }

  /** The values of a dictionary, listed in the insertion order of its keys. */
  function Values<V>(order: seq<int>, m: map<int, V>): (vs: seq<V>)
    requires forall k :: 0 <= k < |order| ==> order[k] in m
    ensures |vs| == |order| && forall k :: 0 <= k < |order| ==> vs[k] == m[order[k]]
  {
    seq(|order|, k requires 0 <= k < |order| => m[order[k]])
  }

  /** Reading the two dicts back in key order gives the UI clusters and the snapshot. */
  lemma {:induction false} ReadTables(faces: seq<FaceRecord>, labels: seq<int>)
    requires |labels| <= |faces|
    ensures var t := TablesAfter(faces, labels);
      (forall k :: 0 <= k < |t.order| ==> t.order[k] in t.clusters && t.order[k] in t.assignments)
      && Values(t.order, t.clusters) == Groups(faces, labels)
      && Values(t.order, t.assignments) == Snapshot(faces, labels)
  {
    var t := TablesAfter(faces, labels);
    TablesAfterKeys(faces, labels);
    TablesAfterContents(faces, labels);
    var groups, snapshot := Groups(faces, labels), Snapshot(faces, labels);
    forall k | 0 <= k < |t.order|
      ensures t.order[k] in t.clusters && t.order[k] in t.assignments
      ensures t.clusters[t.order[k]] == groups[k] && t.assignments[t.order[k]] == snapshot[k]
    {
      assert t.order[k] in labels;
    }
    assert Values(t.order, t.clusters) == groups;
    assert Values(t.order, t.assignments) == snapshot;
  }

  /** The loop of `generate_cluster_ui_data`, over a dict and its insertion order. */
  method GenerateClusterUiData(faces: seq<FaceRecord>, labels: seq<int>) returns (r: UiOutcome)
    ensures r == ClusterUiData(faces, labels)
  {
    var clusters: map<int, UiCluster> := map[];
    var assignments: map<int, Assignment> := map[];
    var order: seq<int> := [];
    var i := 0;
    Seqs.TakeAll(labels);
    while i < |labels|
      invariant i <= |labels| && i <= |faces|
      invariant Tables(order, clusters, assignments) == TablesAfter(faces, labels[..i])
      invariant forall l :: l in clusters <==> l in assignments
    {
      if i >= |faces| {
        return IndexError;
      }
      var lab, face := labels[i], faces[i];
      TablesAfterStep(faces, labels, i);
      var cluster, assignment;
      if lab in clusters {
        cluster, assignment := clusters[lab], assignments[lab];
      } else {
        var name := DefaultName(lab);
        cluster, assignment := UiCluster(lab, name, []), Assignment(lab, name, []);
        order := order + [lab];
      }
      clusters := clusters[lab := cluster.(faces := cluster.faces + [UiFaceOf(face)])];
      assignments := assignments[lab := assignment.(faceIds := assignment.faceIds + [face.faceId])];
      i := i + 1;
    }
    assert labels[..i] == labels;
    ReadTables(faces, labels);
    r := Generated(Values(order, clusters), Values(order, assignments));
  }

  /** Position of the first occurrence of `l` in `s`. */
  function FirstIndex(s: seq<int>, l: int): (i: nat)
    requires l in s
    ensures i < |s| && s[i] == l && forall j :: 0 <= j < i ==> s[j] != l
  {
    if s[0] == l then 0 else 1 + FirstIndex(s[1..], l)
  }

  lemma {:induction false} FirstIndexIs(s: seq<int>, l: int, i: nat)
    requires i < |s| && s[i] == l && forall j :: 0 <= j < i ==> s[j] != l
    ensures FirstIndex(s, l) == i
  {
  }

  /** The clusters come in the order in which their labels first occur. */
  lemma {:induction false} FirstSeenOrder(labels: seq<int>, a: nat, b: nat)
    requires a < b < |FirstSeen(labels)|
    ensures FirstIndex(labels, FirstSeen(labels)[a]) < FirstIndex(labels, FirstSeen(labels)[b])
  {
    var n := |labels| - 1;
    var p := labels[..n];
    Seqs.SplitLast(labels);
    var prev, order := FirstSeen(p), FirstSeen(labels);
    var x, y := order[a], order[b];
    assert x == prev[a] && x in p;
    FirstIndexIs(labels, x, FirstIndex(p, x));
    if b < |prev| {
      assert y == prev[b] && y in p;
      FirstIndexIs(labels, y, FirstIndex(p, y));
      FirstSeenOrder(p, a, b);
    } else {
      assert y == labels[n] && y !in p;
      FirstIndexIs(labels, y, n);
    }
  }

  /** A cluster holds one face per occurrence of its label. */
  lemma {:induction false} MembersCount(faces: seq<FaceRecord>, labels: seq<int>, lab: int)
    requires |labels| <= |faces|
    ensures |Members(faces, labels, lab)| == |MemberIds(faces, labels, lab)| == multiset(labels)[lab]
  {
    if labels != [] {
      var n := |labels| - 1;
      Seqs.SplitLast(labels);
      MembersCount(faces, labels[..n], lab);
      assert multiset(labels) == multiset(labels[..n]) + multiset{labels[n]};
    }
  }

  /** Every face of a cluster is the UI entry of a face with that label. */
  lemma {:induction false} MembersLabelled(faces: seq<FaceRecord>, labels: seq<int>, lab: int)
    requires |labels| <= |faces|
    ensures forall u :: u in Members(faces, labels, lab) ==>
      exists i :: 0 <= i < |labels| && labels[i] == lab && u == UiFaceOf(faces[i])
  {
    if labels != [] {
      var n := |labels| - 1;
      MembersLabelled(faces, labels[..n], lab);
      forall u | u in Members(faces, labels, lab)
        ensures exists i :: 0 <= i < |labels| && labels[i] == lab && u == UiFaceOf(faces[i])
      {
        if u in Members(faces, labels[..n], lab) {
          var i :| 0 <= i < n && labels[..n][i] == lab && u == UiFaceOf(faces[i]);
          assert labels[i] == lab;
        } else {
          assert labels[n] == lab && u == UiFaceOf(faces[n]);
        }
      }
    }
  }

  /** The ids shown per cluster. */
  function Ids(us: seq<UiFace>): (ids: seq<int>)
    ensures |ids| == |us| && forall j :: 0 <= j < |us| ==> ids[j] == us[j].faceId
  {
    if us == [] then [] else Ids(us[..|us| - 1]) + [us[|us| - 1].faceId]
  }

  lemma {:induction false} MemberIdsAreIds(faces: seq<FaceRecord>, labels: seq<int>, lab: int)
    requires |labels| <= |faces|
    ensures MemberIds(faces, labels, lab) == Ids(Members(faces, labels, lab))
  {
    if labels != [] {
      var n := |labels| - 1;
      MemberIdsAreIds(faces, labels[..n], lab);
      var us := Members(faces, labels[..n], lab);
      if labels[n] == lab {
        assert (us + [UiFaceOf(faces[n])])[..|us|] == us;
      }
    }
  }

  /** The persisted snapshot lists, cluster by cluster, exactly the ids of the faces the UI shows. */
  lemma {:induction false} SnapshotMirrorsGroups(faces: seq<FaceRecord>, labels: seq<int>)
    requires |labels| <= |faces|
    ensures var gs, snap := Groups(faces, labels), Snapshot(faces, labels);
      |snap| == |gs| && forall k :: 0 <= k < |gs| ==> snap[k] == Assignment(gs[k].clusterId, gs[k].name, Ids(gs[k].faces))
  {
    forall l {
      MemberIdsAreIds(faces, labels, l);
    }
  }

  /** The number of faces over all clusters. */
  function TotalFaces(gs: seq<UiCluster>): nat {
    if gs == [] then 0 else TotalFaces(gs[..|gs| - 1]) + |gs[|gs| - 1].faces|
  }

  /** How many of the labels counted in `m` fall in the labels of `order`. */
  function Occurrences(order: seq<int>, m: multiset<int>): nat {
    if order == [] then 0 else Occurrences(order[..|order| - 1], m) + m[order[|order| - 1]]
  }

  lemma {:induction false} TotalIsOccurrences(gs: seq<UiCluster>, order: seq<int>, m: multiset<int>)
    requires |gs| == |order| && forall k :: 0 <= k < |gs| ==> |gs[k].faces| == m[order[k]]
    ensures TotalFaces(gs) == Occurrences(order, m)
  {
    if gs != [] {
      var n := |gs| - 1;
      TotalIsOccurrences(gs[..n], order[..n], m);
    }
  }

  lemma {:induction false} OccurrencesAdd(order: seq<int>, m: multiset<int>, x: int)
    requires Distinct(order)
    ensures Occurrences(order, m + multiset{x}) == Occurrences(order, m) + if x in order then 1 else 0
  {
    if order != [] {
      var n := |order| - 1;
      Seqs.SplitLast(order);
      OccurrencesAdd(order[..n], m, x);
    }
  }

  lemma {:induction false} OccurrencesOfLabels(labels: seq<int>)
    ensures Occurrences(FirstSeen(labels), multiset(labels)) == |labels|
  {
    if labels != [] {
      var n := |labels| - 1;
      var p, x := labels[..n], labels[n];
      Seqs.SplitLast(labels);
      assert multiset(labels) == multiset(p) + multiset{x};
      OccurrencesOfLabels(p);
      var prev := FirstSeen(p);
      OccurrencesAdd(prev, multiset(p), x);
      if x !in prev {
        assert (prev + [x])[..|prev|] == prev;
        assert multiset(p)[x] == 0;
      }
    }
  }

  /** Every face lands in exactly one cluster: the cluster sizes add up to the number of labels. */
  lemma {:induction false} ClusterSizesSum(faces: seq<FaceRecord>, labels: seq<int>)
    requires |labels| <= |faces|
    ensures TotalFaces(Groups(faces, labels)) == |labels|
  {
    var order := FirstSeen(labels);
    forall l {
      MembersCount(faces, labels, l);
    }
    TotalIsOccurrences(Groups(faces, labels), order, multiset(labels));
    OccurrencesOfLabels(labels);
  }

  lemma {:induction false} DistinctCard(s: seq<int>)
    requires Distinct(s)
    ensures |set x | x in s| == |s|
  {
    if s != [] {
      var n := |s| - 1;
      Seqs.SplitLast(s);
      DistinctCard(s[..n]);
      assert (set x | x in s) == (set x | x in s[..n]) + {s[n]};
    }
  }

  /**
   * The reported count is the number of UI clusters, leaving out the
   * `Unidentified` one when noise is present.
   */
  lemma {:induction false} CountMatchesGroups(faces: seq<FaceRecord>, labels: seq<int>)
    requires |labels| <= |faces|
    ensures ClusterCount(labels) == |Groups(faces, labels)| - if Noise in labels then 1 else 0
  {
    var order := FirstSeen(labels);
    DistinctCard(order);
    assert (set x | x in order) == set x | x in labels;
  }
}
