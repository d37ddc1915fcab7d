/** The point record held in the editing session, and the queries over the
    point list that every operation shares: membership, counting, cost sums,
    first member in list order, largest id, distinct ids. A cluster is not
    stored anywhere: it is the set of points carrying the same `cluster` id. */
module Records {
  import opened Basics

  /** The reserved id of the "unassigned" pseudo-cluster, and its label. */
  const SemLote: int := -1
  const SemLoteLabel: string := "Sem Lote"

  /** The label "<unit>-C<id>" both the preprocessing step and the editor
      synthesize for a cluster. */
  function UnitLabel(u: string, id: int): (l: string)
    ensures |l| > |u| + 2 && l[..|u|] == u && l[|u|..|u| + 2] == "-C"
    ensures l[|u| + 2..] == IntToString(id)
  {
    u + "-C" + IntToString(id)
  }

  /** One inspected structure (OAE). Coordinates and measures are kept as
      reals; `dataset` is 0 for the primary import and k for overlay k. */
  datatype Point = Point(
    id: string,
    lat: real,
    lon: real,
    cluster: int,
    unidadeLocal: string,
    sge: int,
    codPro: string,
    idOae: string,
    largura: real,
    extensao: real,
    nota: int,
    custo: real,
    clusterLabel: string,
    rodovia: string,
    km: string,
    municipio: string,
    statusGeral: string,
    statusDetalhado: string,
    dataset: nat)

  predicate HasCluster(ps: seq<Point>, c: int) {
    exists i :: 0 <= i < |ps| && ps[i].cluster == c
  }

  /** Every point carries a non-empty cluster label. */
  predicate AllLabelled(ps: seq<Point>) {
    forall i :: 0 <= i < |ps| ==> ps[i].clusterLabel != ""
  }

  /** No point is tagged with a dataset number above `n`. */
  predicate TaggedUpTo(ps: seq<Point>, n: nat) {
    forall i :: 0 <= i < |ps| ==> ps[i].dataset <= n
  }

  /** Number of points carrying cluster id `c`. */
  function Count(ps: seq<Point>, c: int): (n: nat)
    ensures n <= |ps|
    ensures n > 0 <==> HasCluster(ps, c)
  {
    if ps == [] then 0
    else
      var rest := Count(ps[1..], c);
      assert HasCluster(ps, c) <==> ps[0].cluster == c || HasCluster(ps[1..], c) by {
        if HasCluster(ps[1..], c) {
          var i :| 0 <= i < |ps[1..]| && ps[1..][i].cluster == c;
          assert ps[i + 1].cluster == c;
        }
        if HasCluster(ps, c) && ps[0].cluster != c {
          var i :| 0 <= i < |ps| && ps[i].cluster == c;
          assert ps[1..][i - 1].cluster == c;
        }
      }
      (if ps[0].cluster == c then 1 else 0) + rest
  }

  /** Sum of `custo` over the points of cluster `c`. */
  function CostSum(ps: seq<Point>, c: int): real {
    if ps == [] then 0.0
    else (if ps[0].cluster == c then ps[0].custo else 0.0) + CostSum(ps[1..], c)
  }

  /** Sum of `custo` over all the given points. */
  function TotalCost(ps: seq<Point>): real {
    if ps == [] then 0.0 else ps[0].custo + TotalCost(ps[1..])
  }

  /** Index of the first point, in list order, carrying cluster `c`. */
  function FirstWith(ps: seq<Point>, c: int): (r: Option<nat>)
    ensures r.None? <==> !HasCluster(ps, c)
    ensures r.Some? ==> r.value < |ps| && ps[r.value].cluster == c
    ensures r.Some? ==> forall j :: 0 <= j < r.value ==> ps[j].cluster != c
  {
    if ps == [] then None
    else if ps[0].cluster == c then Some(0)
    else
      match FirstWith(ps[1..], c)
      case None =>
        assert forall i :: 1 <= i < |ps| ==> ps[i] == ps[1..][i - 1];
        None
      case Some(k) => Some(k + 1)
  }

  /** Any index that carries `c` and has no earlier carrier is the first one. */
  lemma FirstWithIs(ps: seq<Point>, c: int, k: nat)
    requires k < |ps| && ps[k].cluster == c
    requires forall j :: 0 <= j < k ==> ps[j].cluster != c
    ensures FirstWith(ps, c) == Some(k)
  {
    var r := FirstWith(ps, c);
    assert r.Some? by { assert HasCluster(ps, c); }
    assert !(r.value < k) && !(k < r.value);
  }

  /** Largest cluster id present in a non-empty list: the maximum the editor
      takes before importing an overlay or creating a lot. */
  function MaxCluster(ps: seq<Point>): (m: int)
    requires ps != []
    ensures HasCluster(ps, m)
    ensures forall i :: 0 <= i < |ps| ==> ps[i].cluster <= m
  {
    if |ps| == 1 then ps[0].cluster
    else
      var rest := MaxCluster(ps[1..]);
      var i :| 0 <= i < |ps[1..]| && ps[1..][i].cluster == rest;
      assert ps[i + 1].cluster == rest;
      assert forall j :: 1 <= j < |ps| ==> ps[j].cluster == ps[1..][j - 1].cluster;
      if ps[0].cluster > rest then ps[0].cluster else rest
  }

  /** The distinct cluster ids present, in ascending numeric order. */
  function ClusterIds(ps: seq<Point>): (r: seq<int>)
    ensures StrictlyAscending(r)
    ensures forall c :: c in r <==> HasCluster(ps, c)
  {
    var ids := seq(|ps|, i requires 0 <= i < |ps| => ps[i].cluster);
    assert forall c :: HasCluster(ps, c) ==> c in ids by {
      forall c | HasCluster(ps, c) ensures c in ids {
        var i :| 0 <= i < |ps| && ps[i].cluster == c;
        assert ids[i] == c;
      }
    }
    SortedDistinct(ids)
  }

  /** One row of the "Cluster Summary" sheet as both the preprocessing step
      and the editor write it (the average is not kept). */
  datatype SummaryRow = SummaryRow(clusterId: int, clusterLabel: string, unidadeLocal: string,
                                   nPoints: nat, totalCost: real)
}
