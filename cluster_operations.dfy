/** Merging one cluster into another and deleting a cluster, as functions of
    the point list, with what they promise: who moves, which label the moved
    points end up with, and how the member counts and costs shift. */
module ClusterOperations {
  import opened Basics
  import opened Records
  import opened DataHandlers

  /** The clusters offered as merge targets for `source`: every id present,
      ascending, except `source` itself and the unassigned cluster. */
  function MergeTargets(ps: seq<Point>, source: int): (r: seq<int>)
    ensures StrictlyAscending(r)
    ensures forall c :: c in r <==> HasCluster(ps, c) && c != source && c != SemLote
  {
    Without(ClusterIds(ps), source, SemLote)
  }

  /** Index of the first point, in list order, carrying `s` or `t`. */
  function FirstOfEither(ps: seq<Point>, s: int, t: int): (r: Option<nat>)
    ensures r.Some? ==> r.value < |ps| && (ps[r.value].cluster == s || ps[r.value].cluster == t)
    ensures r.Some? ==> forall j :: 0 <= j < r.value ==> ps[j].cluster != s && ps[j].cluster != t
    ensures r.None? ==> forall j :: 0 <= j < |ps| ==> ps[j].cluster != s && ps[j].cluster != t
  {
    if ps == [] then None
    else if ps[0].cluster == s || ps[0].cluster == t then Some(0)
    else
      match FirstOfEither(ps[1..], s, t)
      case None =>
        assert forall i :: 1 <= i < |ps| ==> ps[i] == ps[1..][i - 1];
        None
      case Some(k) => Some(k + 1)
  }

  /** The label every moved point carries after merging `s` into `t`: each
      moved point reads the target's label after it has itself been moved, and
      the first carrier of the target id is then the first point of the old
      list that carried either `s` or `t`. */
  function MergeLabel(ps: seq<Point>, s: int, t: int): (l: string)
    ensures l != ""
    ensures t == SemLote ==> l == SemLoteLabel
  {
    if t == SemLote then SemLoteLabel
    else
      var first := match FirstOfEither(ps, s, t)
        case Some(k) => ps[k].clusterLabel
        case None => "";
      NonEmptyOr(first, "Cluster " + IntToString(t))
  }

  /** A point after moving the members of `s` to `t` under label `l`. */
  function Moved(p: Point, s: int, t: int, l: string): Point {
    if p.cluster == s then p.(cluster := t, clusterLabel := l) else p
  }

  function MoveAll(ps: seq<Point>, s: int, t: int, l: string): (r: seq<Point>)
    ensures |r| == |ps|
    ensures forall i :: 0 <= i < |ps| ==> r[i] == Moved(ps[i], s, t, l)
  {
    seq(|ps|, i requires 0 <= i < |ps| => Moved(ps[i], s, t, l))
  }

  /** The point list after merging cluster `s` into cluster `t`: the members
      of `s` get id `t` and label MergeLabel; nothing else changes. */
  function Merged(ps: seq<Point>, s: int, t: int): (r: seq<Point>)
    ensures |r| == |ps|
    ensures forall i :: 0 <= i < |ps| && ps[i].cluster == s ==>
      r[i] == ps[i].(cluster := t, clusterLabel := MergeLabel(ps, s, t))
    ensures forall i :: 0 <= i < |ps| && ps[i].cluster != s ==> r[i] == ps[i]
  {
    MoveAll(ps, s, t, MergeLabel(ps, s, t))
  }

  /** The point list after deleting cluster `c`: its members go to the
      unassigned cluster with label "Sem Lote"; nothing else changes. */
  function Deleted(ps: seq<Point>, c: int): (r: seq<Point>)
    ensures |r| == |ps|
    ensures forall i :: 0 <= i < |ps| && ps[i].cluster == c ==>
      r[i] == ps[i].(cluster := SemLote, clusterLabel := SemLoteLabel)
    ensures forall i :: 0 <= i < |ps| && ps[i].cluster != c ==> r[i] == ps[i]
  {
    MoveAll(ps, c, SemLote, SemLoteLabel)
  }

  /** Deleting `c` distributes points exactly as merging `c` into -1 does,
      labels included. */
  lemma DeleteIsMergeIntoSemLote(ps: seq<Point>, c: int)
    ensures Deleted(ps, c) == Merged(ps, c, SemLote)
  {
    assert MergeLabel(ps, c, SemLote) == SemLoteLabel;
  }

  /** The state the merge loop reaches when it has processed the points before
      `j` and has just given point `j` (a member of `s`) the id `t`. */
  function MidMerge(ps: seq<Point>, s: int, t: int, j: nat): seq<Point>
    requires j < |ps|
  {
    Merged(ps, s, t)[..j] + [ps[j].(cluster := t)] + ps[j + 1..]
  }

  /** At that moment the statistics of `t` report MergeLabel: this is the label
      the loop gives point `j`. */
  lemma MergeStepLabel(ps: seq<Point>, s: int, t: int, j: nat)
    requires j < |ps| && ps[j].cluster == s
    ensures var st := GetClusterStats(MidMerge(ps, s, t, j), t);
      st.Some? && st.value.clusterLabel == MergeLabel(ps, s, t)
  {
    var cur := MidMerge(ps, s, t, j);
    var m := Merged(ps, s, t);
    var l := MergeLabel(ps, s, t);
    assert |cur| == |ps|;
    assert forall i :: 0 <= i < j ==> cur[i] == m[i];
    assert cur[j] == ps[j].(cluster := t);
    var k := FirstOfEither(ps, s, t).value;
    assert k <= j;
    forall i | 0 <= i < k ensures cur[i].cluster != t {
      assert cur[i] == ps[i];
    }
    assert cur[k].cluster == t;
    FirstWithIs(cur, t, k);
    if t != SemLote {
      if k < j && ps[k].cluster == s {
        assert cur[k].clusterLabel == l;
      } else {
        assert cur[k].clusterLabel == ps[k].clusterLabel;
      }
    }
  }

  /** One pass of the merge loop over point `j`: a member of `s` first gets
      id `t`, then the label the statistics of `t` report; any other point is
      left alone. Either way the processed prefix grows by one. */
  lemma MergeLoopMoves(ps: seq<Point>, s: int, t: int, j: nat)
    requires j < |ps| && ps[j].cluster == s
    ensures var cur := Merged(ps, s, t)[..j] + ps[j..];
      cur[j := cur[j].(cluster := t)] == MidMerge(ps, s, t, j)
  {
    var m := Merged(ps, s, t);
    SplitAt(m, ps, j, ps[j].(cluster := t));
  }

  lemma MergeLoopRelabels(ps: seq<Point>, s: int, t: int, j: nat)
    requires j < |ps| && ps[j].cluster == s
    ensures var mid := MidMerge(ps, s, t, j);
      mid[j := mid[j].(clusterLabel := MergeLabel(ps, s, t))] == Merged(ps, s, t)[..j + 1] + ps[j + 1..]
  {
    var m := Merged(ps, s, t);
    StepAt(m, ps, j, ps[j].(cluster := t), m[j]);
  }

  lemma MergeLoopKeeps(ps: seq<Point>, s: int, t: int, j: nat)
    requires j < |ps| && ps[j].cluster != s
    ensures Merged(ps, s, t)[..j] + ps[j..] == Merged(ps, s, t)[..j + 1] + ps[j + 1..]
  {
    var m := Merged(ps, s, t);
    StepAt(m, ps, j, ps[j], m[j]);
    SplitAt(m, ps, j, ps[j]);
  }

  /** One pass of the delete loop over point `j`. */
  lemma DeleteLoopStep(ps: seq<Point>, c: int, j: nat)
    requires j < |ps|
    ensures var cur := Deleted(ps, c)[..j] + ps[j..];
      && (ps[j].cluster == c ==>
            cur[j := cur[j].(cluster := SemLote, clusterLabel := SemLoteLabel)]
              == Deleted(ps, c)[..j + 1] + ps[j + 1..])
      && (ps[j].cluster != c ==> cur == Deleted(ps, c)[..j + 1] + ps[j + 1..])
  {
    var d := Deleted(ps, c);
    SplitAt(d, ps, j, d[j]);
    StepAt(d, ps, j, ps[j], d[j]);
    SplitAt(d, ps, j, ps[j]);
  }

  /** Writing `y` at the boundary of a processed prefix of `m` and the
      unprocessed rest of `ps`. */
  lemma SplitAt<T>(m: seq<T>, ps: seq<T>, j: nat, y: T)
    requires j < |ps| && |m| == |ps|
    ensures (m[..j] + ps[j..])[j := y] == m[..j] + [y] + ps[j + 1..]
  {
  }

  /** Once position `j` holds `m[j]`, the processed prefix has grown by one. */
  lemma StepAt<T>(m: seq<T>, ps: seq<T>, j: nat, y: T, x: T)
    requires j < |ps| && |m| == |ps| && x == m[j]
    ensures (m[..j] + [y] + ps[j + 1..])[j := x] == m[..j + 1] + ps[j + 1..]
  {
    assert m[..j + 1] == m[..j] + [m[j]];
  }

  /** Moving points between clusters keeps every point labelled and leaves
      every dataset tag where it was. */
  lemma MoveAllKeepsLabelsAndTags(ps: seq<Point>, s: int, t: int, l: string, n: nat)
    requires l != ""
    ensures AllLabelled(ps) ==> AllLabelled(MoveAll(ps, s, t, l))
    ensures TaggedUpTo(ps, n) ==> TaggedUpTo(MoveAll(ps, s, t, l), n)
  {
  }

  /** After the merge, the target's statistics report the very label the moved
      points carry, so the moved points agree with the cluster they joined. */
  lemma MergedLabelIsTargetLabel(ps: seq<Point>, s: int, t: int)
    requires HasCluster(ps, s)
    ensures var st := GetClusterStats(Merged(ps, s, t), t);
      st.Some? && st.value.clusterLabel == MergeLabel(ps, s, t)
  {
    var m := Merged(ps, s, t);
    var l := MergeLabel(ps, s, t);
    var k := FirstOfEither(ps, s, t).value;
    forall i | 0 <= i < k ensures m[i].cluster != t {
      assert m[i] == ps[i];
    }
    assert m[k].cluster == t;
    FirstWithIs(m, t, k);
    if t != SemLote && ps[k].cluster != s {
      assert m[k].clusterLabel == ps[k].clusterLabel;
    }
  }

  /** Moving the members of `s` to a different `t` adds their count to `t`,
      empties `s` and leaves every other cluster's count alone. */
  lemma {:induction false} MoveAllCounts(ps: seq<Point>, s: int, t: int, l: string)
    requires s != t
    ensures Count(MoveAll(ps, s, t, l), t) == Count(ps, s) + Count(ps, t)
    ensures Count(MoveAll(ps, s, t, l), s) == 0
    ensures forall c :: c != s && c != t ==> Count(MoveAll(ps, s, t, l), c) == Count(ps, c)
  {
    if ps != [] {
      MoveAllCounts(ps[1..], s, t, l);
      assert MoveAll(ps, s, t, l)[1..] == MoveAll(ps[1..], s, t, l);
    }
  }

  /** The same for the cost sums. */
  lemma {:induction false} MoveAllCosts(ps: seq<Point>, s: int, t: int, l: string)
    requires s != t
    ensures CostSum(MoveAll(ps, s, t, l), t) == CostSum(ps, s) + CostSum(ps, t)
    ensures CostSum(MoveAll(ps, s, t, l), s) == 0.0
    ensures forall c :: c != s && c != t ==> CostSum(MoveAll(ps, s, t, l), c) == CostSum(ps, c)
  {
    if ps != [] {
      MoveAllCosts(ps[1..], s, t, l);
      assert MoveAll(ps, s, t, l)[1..] == MoveAll(ps[1..], s, t, l);
    }
  }

  /** Merging distinct clusters: count(t) after = count(s) + count(t) before,
      count(s) after = 0, totals likewise, other clusters untouched. */
  lemma MergeCounts(ps: seq<Point>, s: int, t: int)
    requires s != t
    ensures Count(Merged(ps, s, t), t) == Count(ps, s) + Count(ps, t)
    ensures Count(Merged(ps, s, t), s) == 0
    ensures CostSum(Merged(ps, s, t), t) == CostSum(ps, s) + CostSum(ps, t)
    ensures forall c :: c != s && c != t ==> Count(Merged(ps, s, t), c) == Count(ps, c)
    ensures !HasCluster(Merged(ps, s, t), s)
  {
    MoveAllCounts(ps, s, t, MergeLabel(ps, s, t));
    MoveAllCosts(ps, s, t, MergeLabel(ps, s, t));
  }

  /** Deleting `c` (not the unassigned cluster itself) moves its whole count
      to the unassigned cluster and leaves `c` empty. */
  lemma DeleteCounts(ps: seq<Point>, c: int)
    requires c != SemLote
    ensures Count(Deleted(ps, c), SemLote) == Count(ps, c) + Count(ps, SemLote)
    ensures !HasCluster(Deleted(ps, c), c)
    ensures GetClusterStats(Deleted(ps, c), c).None?
  {
    MoveAllCounts(ps, c, SemLote, SemLoteLabel);
  }
}
