/** The data side of the editor's controls: reassigning the selected point
    (to "Sem Lote", to a new cluster, or to an existing one), the ordering of
    the lots panel, the hidden-cluster toggle, and the export summary. */
module UiControls {
  import opened Basics
  import opened Records
  import opened DataHandlers

  // ===== Reassigning the selected point =====

  /** The value chosen in the target list: nothing, "Sem Lote" (value "-1"),
      "create a new lot in unit U" (value "NEW_U"), or an existing cluster id. */
  datatype Target = NoTarget | Unassign | NewIn(unidadeLocal: string) | Existing(id: int)

  /** The value "-1" is recognised as text before any id is parsed, so an
      existing-cluster choice of -1 is the same as choosing "Sem Lote". */
  predicate ChoosesSemLote(target: Target) {
    target.Unassign? || (target.Existing? && target.id == SemLote)
  }

  /** Index of the first point whose id is `id`. */
  function FindIndex(ps: seq<Point>, id: string): (r: Option<nat>)
    ensures r.Some? ==> r.value < |ps| && ps[r.value].id == id
    ensures r.Some? ==> forall j :: 0 <= j < r.value ==> ps[j].id != id
    ensures r.None? ==> forall j :: 0 <= j < |ps| ==> ps[j].id != id
  {
    if ps == [] then None
    else if ps[0].id == id then Some(0)
    else
      match FindIndex(ps[1..], id)
      case None =>
        assert forall j :: 1 <= j < |ps| ==> ps[j] == ps[1..][j - 1];
        None
      case Some(k) => Some(k + 1)
  }

  /** The id a new cluster gets: one more than the largest id present
      anywhere in the session (0 on an empty session). */
  function NewClusterId(ps: seq<Point>): (n: int)
    ensures forall j :: 0 <= j < |ps| ==> ps[j].cluster < n
    ensures !HasCluster(ps, n)
    ensures ps != [] ==> HasCluster(ps, n - 1)
  {
    ExistingMax(ps) + 1
  }

  /** Index of the first point of cluster `t` whose id differs from `sel`. */
  function FirstOther(ps: seq<Point>, t: int, sel: string): (r: Option<nat>)
    ensures r.Some? ==> r.value < |ps| && ps[r.value].cluster == t && ps[r.value].id != sel
    ensures r.Some? ==> forall j :: 0 <= j < r.value ==> !(ps[j].cluster == t && ps[j].id != sel)
    ensures r.None? ==> forall j :: 0 <= j < |ps| ==> !(ps[j].cluster == t && ps[j].id != sel)
  {
    if ps == [] then None
    else if ps[0].cluster == t && ps[0].id != sel then Some(0)
    else
      match FirstOther(ps[1..], t, sel)
      case None =>
        assert forall j :: 1 <= j < |ps| ==> ps[j] == ps[1..][j - 1];
        None
      case Some(k) => Some(k + 1)
  }

  /** The label a point moved into existing cluster `t` receives: that of the
      first other member of `t`, or "<its own unit>-C<t>" when it has none. */
  function JoinLabel(ps: seq<Point>, t: int, sel: string, ownUnit: string): string {
    match FirstOther(ps, t, sel)
    case Some(j) => ps[j].clusterLabel
    case None => UnitLabel(ownUnit, t)
  }

  /** The point list after reassigning point `i` (the selected one). Only
      point `i` changes, and only its cluster, label and unit. */
  function Reassigned(ps: seq<Point>, i: nat, target: Target): (r: seq<Point>)
    requires i < |ps| && target != NoTarget
    ensures |r| == |ps|
    ensures forall j :: 0 <= j < |ps| && j != i ==> r[j] == ps[j]
    ensures r[i] == ps[i].(cluster := r[i].cluster, clusterLabel := r[i].clusterLabel,
                           unidadeLocal := r[i].unidadeLocal)
    ensures ChoosesSemLote(target) ==>
      r[i].cluster == SemLote && r[i].clusterLabel == SemLoteLabel && r[i].unidadeLocal == ps[i].unidadeLocal
    ensures target.NewIn? ==>
      r[i].cluster == NewClusterId(ps) && r[i].unidadeLocal == target.unidadeLocal
      && r[i].clusterLabel == UnitLabel(target.unidadeLocal, r[i].cluster)
    ensures target.Existing? ==>
      r[i].cluster == target.id && r[i].unidadeLocal == ps[i].unidadeLocal
  {
    match target
    case Unassign =>
      ps[i := ps[i].(cluster := SemLote, clusterLabel := SemLoteLabel)]
    case NewIn(u) =>
      var n := NewClusterId(ps);
      ps[i := ps[i].(cluster := n, clusterLabel := UnitLabel(u, n), unidadeLocal := u)]
    case Existing(t) =>
      if t == SemLote then ps[i := ps[i].(cluster := SemLote, clusterLabel := SemLoteLabel)]
      else
      var moved := ps[i := ps[i].(cluster := t)];
      moved[i := moved[i].(clusterLabel := JoinLabel(moved, t, ps[i].id, ps[i].unidadeLocal),
                           unidadeLocal := ps[i].unidadeLocal)]
  }

  /** Changing one point changes the count of its old cluster and of its new
      cluster by one each, and no other count. */
  lemma {:induction false} CountAfterUpdate(ps: seq<Point>, i: nat, p: Point, c: int)
    requires i < |ps|
    ensures Count(ps[i := p], c) ==
      Count(ps, c) - (if ps[i].cluster == c then 1 else 0) + (if p.cluster == c then 1 else 0)
  {
    if i > 0 {
      CountAfterUpdate(ps[1..], i - 1, p, c);
      assert ps[i := p][1..] == ps[1..][i - 1 := p];
    } else {
      assert ps[i := p][1..] == ps[1..];
    }
  }

  /** A new cluster is strictly above every id seen so far, overlay ids
      included; it ends with exactly one member, and any index of the new list
      lists it under the chosen unit. */
  lemma ReassignToNewCluster(ps: seq<Point>, i: nat, u: string)
    requires i < |ps|
    ensures var r := Reassigned(ps, i, NewIn(u));
      && (forall j :: 0 <= j < |ps| ==> ps[j].cluster < r[i].cluster)
      && Count(r, r[i].cluster) == 1
      && (forall idx :: IndexOf(idx, r) ==> u in idx && r[i].cluster in idx[u])
  {
    var r := Reassigned(ps, i, NewIn(u));
    var n := NewClusterId(ps);
    assert r == ps[i := r[i]];
    CountAfterUpdate(ps, i, r[i], n);
    assert Count(ps, n) == 0;
    assert r[i] in r;
  }

  /** Joining an existing cluster other than -1 copies the label of the first OTHER member
      of the target in the old list (the point itself never counts, nor any
      point sharing its id); with no other member the label is
      "<own unit>-C<t>". Choosing -1 gives "Sem Lote". */
  lemma ReassignToExistingLabel(ps: seq<Point>, i: nat, t: int)
    requires i < |ps|
    ensures t == SemLote ==> Reassigned(ps, i, Existing(t))[i].clusterLabel == SemLoteLabel
    ensures var r := Reassigned(ps, i, Existing(t));
      t != SemLote ==>
      match FirstOther(ps, t, ps[i].id)
      case Some(j) => j != i && r[i].clusterLabel == ps[j].clusterLabel
      case None => r[i].clusterLabel == UnitLabel(ps[i].unidadeLocal, t)
  {
    if t != SemLote {
      var moved := ps[i := ps[i].(cluster := t)];
      var sel := ps[i].id;
      assert forall j :: 0 <= j < |ps| ==> (moved[j].cluster == t && moved[j].id != sel <==>
                                            ps[j].cluster == t && ps[j].id != sel);
      match FirstOther(ps, t, sel)
      case Some(j) =>
        assert FirstOther(moved, t, sel) == Some(j) by {
          var f := FirstOther(moved, t, sel);
          assert f.Some?;
          assert !(f.value < j) && !(j < f.value);
        }
      case None =>
        assert FirstOther(moved, t, sel).None?;
    }
  }

  /** Moving the selected point to a different cluster: its old cluster loses
      one member, its new cluster gains one, all others keep their counts. */
  lemma ReassignCounts(ps: seq<Point>, i: nat, target: Target, c: int)
    requires i < |ps| && target != NoTarget
    ensures var r := Reassigned(ps, i, target);
      Count(r, c) == Count(ps, c) - (if ps[i].cluster == c then 1 else 0)
                                  + (if r[i].cluster == c then 1 else 0)
  {
    var r := Reassigned(ps, i, target);
    assert r == ps[i := r[i]];
    CountAfterUpdate(ps, i, r[i], c);
  }

  /** Reassigning never leaves a point without a label and never changes a
      dataset tag. */
  lemma ReassignKeepsLabels(ps: seq<Point>, i: nat, target: Target, n: nat)
    requires i < |ps| && target != NoTarget
    ensures AllLabelled(ps) ==> AllLabelled(Reassigned(ps, i, target))
    ensures TaggedUpTo(ps, n) ==> TaggedUpTo(Reassigned(ps, i, target), n)
  {
    if target.Existing? && target.id != SemLote && AllLabelled(ps) {
      var moved := ps[i := ps[i].(cluster := target.id)];
      assert AllLabelled(moved);
    }
  }

  // ===== Lots panel =====

  /** The order of the lots panel: every cluster present in ascending order,
      then the unassigned cluster, which is listed even when empty. */
  function PanelOrder(ps: seq<Point>): (r: seq<int>)
    ensures |r| >= 1 && r[|r| - 1] == SemLote
    ensures StrictlyAscending(r[..|r| - 1]) && SemLote !in r[..|r| - 1]
    ensures forall c :: c in r <==> HasCluster(ps, c) || c == SemLote
  {
    var r := Without(ClusterIds(ps), SemLote, SemLote) + [SemLote];
    assert r[..|r| - 1] == Without(ClusterIds(ps), SemLote, SemLote);
    r
  }

  /** One entry of the lots panel. */
  datatype LoteEntry = LoteEntry(clusterId: int, clusterLabel: string, nPoints: nat,
                                 totalCost: real, hidden: bool)

  function PanelEntry(ps: seq<Point>, hidden: set<int>, c: int): (e: LoteEntry)
    ensures e.clusterId == c && e.nPoints == Count(ps, c) && e.totalCost == CostSum(ps, c)
    ensures e.hidden <==> c in hidden
    ensures c == SemLote ==> e.clusterLabel == SemLoteLabel
    ensures HasCluster(ps, c) ==>
      GetClusterStats(ps, c).Some? && e.clusterLabel == GetClusterStats(ps, c).value.clusterLabel
    ensures !HasCluster(ps, c) && c != SemLote ==> e.clusterLabel == "Cluster " + IntToString(c)
  {
    var group := Members(ps, c);
    var shown := match GetClusterStats(ps, c)
      case Some(st) => st.clusterLabel
      case None => if c == SemLote then SemLoteLabel else "Cluster " + IntToString(c);
    LoteEntry(c, shown, |group|, TotalCost(group), c in hidden)
  }

  /** The lots panel: one entry per id of PanelOrder, with that cluster's
      member count and total cost, and whether it is hidden. */
  function LotesPanel(ps: seq<Point>, hidden: set<int>): (r: seq<LoteEntry>)
    ensures |r| == |PanelOrder(ps)|
    ensures forall i :: 0 <= i < |r| ==>
      && r[i].clusterId == PanelOrder(ps)[i]
      && r[i].nPoints == Count(ps, r[i].clusterId)
      && r[i].totalCost == CostSum(ps, r[i].clusterId)
      && (r[i].hidden <==> r[i].clusterId in hidden)
    ensures r[|r| - 1].clusterId == SemLote && r[|r| - 1].clusterLabel == SemLoteLabel
    ensures forall i :: 0 <= i < |r| - 1 ==>
      && GetClusterStats(ps, r[i].clusterId).Some?
      && r[i].clusterLabel == GetClusterStats(ps, r[i].clusterId).value.clusterLabel
  {
    PanelEntries(ps, hidden, PanelOrder(ps))
  }

  /** The panel entries of the listed clusters, in the listed order. */
  function PanelEntries(ps: seq<Point>, hidden: set<int>, order: seq<int>): (r: seq<LoteEntry>)
    ensures |r| == |order|
    ensures forall i :: 0 <= i < |order| ==> r[i] == PanelEntry(ps, hidden, order[i])
  {
    seq(|order|, i requires 0 <= i < |order| => PanelEntry(ps, hidden, order[i]))
  }

  // ===== Hidden clusters =====

  /** The hidden set after clicking a lot's checkbox. */
  function Toggled(hidden: set<int>, c: int): (r: set<int>)
    ensures c in r <==> c !in hidden
    ensures forall x :: x != c ==> (x in r <==> x in hidden)
  {
    if c in hidden then hidden - {c} else hidden + {c}
  }

  /** Toggling the same cluster twice restores the hidden set. */
  lemma ToggleTwice(hidden: set<int>, c: int)
    ensures Toggled(Toggled(hidden, c), c) == hidden
  {
  }

  // ===== Export summary =====

  function SummaryRowOf(ps: seq<Point>, c: int): (r: SummaryRow)
    requires HasCluster(ps, c)
    ensures r.clusterId == c && r.nPoints == Count(ps, c) && r.nPoints > 0
    ensures r.totalCost == CostSum(ps, c)
    ensures GetClusterStats(ps, c).Some? && r.clusterLabel == GetClusterStats(ps, c).value.clusterLabel
    ensures r.unidadeLocal == GetClusterStats(ps, c).value.unidadeLocal
  {
    var st := GetClusterStats(ps, c).value;
    SummaryRow(c, st.clusterLabel, st.unidadeLocal, st.nPoints, st.totalCost)
  }

  /** The summary sheet: one row per distinct cluster id, ascending, each with
      the statistics of that cluster. */
  function ExportSummary(ps: seq<Point>): (r: seq<SummaryRow>)
    ensures |r| == |ClusterIds(ps)|
    ensures forall i, j :: 0 <= i < j < |r| ==> r[i].clusterId < r[j].clusterId
    ensures forall c :: HasCluster(ps, c) <==> exists i :: 0 <= i < |r| && r[i].clusterId == c
    ensures forall i :: 0 <= i < |r| ==>
      && r[i].nPoints == Count(ps, r[i].clusterId) && r[i].nPoints > 0
      && r[i].totalCost == CostSum(ps, r[i].clusterId)
      && GetClusterStats(ps, r[i].clusterId).Some?
      && r[i].clusterLabel == GetClusterStats(ps, r[i].clusterId).value.clusterLabel
      && r[i].unidadeLocal == GetClusterStats(ps, r[i].clusterId).value.unidadeLocal
  {
    SummaryRows(ps, ClusterIds(ps))
  }

  /** The summary rows of the listed clusters, in the listed order. */
  function SummaryRows(ps: seq<Point>, ids: seq<int>): (r: seq<SummaryRow>)
    requires forall i :: 0 <= i < |ids| ==> HasCluster(ps, ids[i])
    ensures |r| == |ids|
    ensures forall i :: 0 <= i < |ids| ==> r[i] == SummaryRowOf(ps, ids[i])
  {
    seq(|ids|, i requires 0 <= i < |ids| => SummaryRowOf(ps, ids[i]))
  }
}
