/** The store-side logic of the editor: cluster statistics, the transformation
    of imported spreadsheet rows into points (with the overlay offsets), and
    the unit -> cluster-ids index rebuilt from the point list. */
module DataHandlers {
  import opened Basics
  import opened Records

  // ===== Cluster statistics =====

  /** What the editor shows for a cluster. The average cost is not kept. */
  datatype ClusterStats = ClusterStats(nPoints: nat, totalCost: real, clusterLabel: string, unidadeLocal: string)

  /** The points of cluster `c`, in list order. */
  function Members(ps: seq<Point>, c: int): (r: seq<Point>)
    ensures |r| == Count(ps, c)
    ensures TotalCost(r) == CostSum(ps, c)
    ensures forall q :: q in r ==> q in ps && q.cluster == c
    ensures r != [] ==> FirstWith(ps, c).Some? && r[0] == ps[FirstWith(ps, c).value]
  {
    if ps == [] then []
    else if ps[0].cluster == c then [ps[0]] + Members(ps[1..], c)
    else Members(ps[1..], c)
  }

  /** Statistics of cluster `c`, or None when no point carries `c`. The
      unassigned cluster always reads "Sem Lote" / "N/A"; any other cluster
      takes its label and unit from its first member in list order, with
      "Cluster <c>" and "N/A" standing in for empty fields. */
  function GetClusterStats(ps: seq<Point>, c: int): (r: Option<ClusterStats>)
    ensures r.None? <==> !HasCluster(ps, c)
    ensures r.Some? ==> r.value.nPoints == Count(ps, c) && r.value.nPoints > 0
    ensures r.Some? ==> r.value.totalCost == CostSum(ps, c)
    ensures r.Some? && c == SemLote ==>
      r.value.clusterLabel == SemLoteLabel && r.value.unidadeLocal == "N/A"
    ensures r.Some? && c != SemLote ==>
      var first := ps[FirstWith(ps, c).value];
      && r.value.clusterLabel == NonEmptyOr(first.clusterLabel, "Cluster " + IntToString(c))
      && r.value.unidadeLocal == NonEmptyOr(first.unidadeLocal, "N/A")
    ensures r.Some? ==> r.value.clusterLabel != ""
  {
    var m := Members(ps, c);
    if |m| == 0 then None
    else if c == SemLote then Some(ClusterStats(|m|, TotalCost(m), SemLoteLabel, "N/A"))
    else
      Some(ClusterStats(|m|, TotalCost(m),
        NonEmptyOr(m[0].clusterLabel, "Cluster " + IntToString(c)),
        NonEmptyOr(m[0].unidadeLocal, "N/A")))
  }

  // ===== Import =====

  /** One row of the "All Points" sheet. Text cells may be absent; numeric
      cells arrive already parsed, with the defaults the reader supplies. */
  datatype Row = Row(
    pointId: Option<string>,
    lat: real,
    lon: real,
    clusterId: int,
    unidadeLocal: Option<string>,
    sge: int,
    codPro: Option<string>,
    idOae: Option<string>,
    largura: real,
    extensao: real,
    nota: int,
    custo: real,
    clusterLabel: Option<string>,
    rodovia: Option<string>,
    km: Option<string>,
    municipio: Option<string>,
    statusGeral: Option<string>,
    statusDetalhado: Option<string>)

  datatype ImportError = MissingSheet | EmptySheet

  /** The largest cluster id already loaded, -1 when nothing is loaded. */
  function ExistingMax(ps: seq<Point>): (m: int)
    ensures forall i :: 0 <= i < |ps| ==> ps[i].cluster <= m
    ensures ps == [] ==> m == -1
    ensures ps != [] ==> HasCluster(ps, m)
  {
    if ps != [] then MaxCluster(ps) else -1
  }

  function OverlayPrefix(k: nat): string {
    "sobreposicao_" + NatToString(k) + "_"
  }

  /** The point built from row number `idx`. A primary import (`overlay` false)
      keeps the row's cluster id and tags dataset 0; overlay number `k` shifts
      the id by `maxExisting + 1000 * k`, prefixes the point id and tags
      dataset `k`. */
  function ToPoint(row: Row, idx: nat, overlay: bool, k: nat, maxExisting: int): (p: Point)
    ensures !overlay ==> p.cluster == row.clusterId && p.dataset == 0
    ensures overlay ==> p.cluster == row.clusterId + maxExisting + 1000 * k && p.dataset == k
    ensures overlay && k >= 1 && row.clusterId >= -1 ==> p.cluster > maxExisting
    ensures p.id == (if overlay then OverlayPrefix(k) else "") + OrElse(row.pointId, NatToString(idx))
    ensures overlay ==> OverlayPrefix(k) <= p.id
    ensures p.clusterLabel != "" && p.unidadeLocal != ""
    ensures p.clusterLabel == OrElse(row.clusterLabel, "Cluster " + IntToString(p.cluster))
  {
    var cluster := if overlay then row.clusterId + maxExisting + 1000 * k else row.clusterId;
    Point(
      id := (if overlay then OverlayPrefix(k) else "") + OrElse(row.pointId, NatToString(idx)),
      lat := row.lat,
      lon := row.lon,
      cluster := cluster,
      unidadeLocal := OrElse(row.unidadeLocal, "N/A"),
      sge := row.sge,
      codPro := OrElse(row.codPro, "N/A"),
      idOae := OrElse(row.idOae, "N/A"),
      largura := row.largura,
      extensao := row.extensao,
      nota := row.nota,
      custo := row.custo,
      clusterLabel := OrElse(row.clusterLabel, "Cluster " + IntToString(cluster)),
      rodovia := OrElse(row.rodovia, "N/A"),
      km := OrElse(row.km, "N/A"),
      municipio := OrElse(row.municipio, "N/A"),
      statusGeral := OrElse(row.statusGeral, "N/A"),
      statusDetalhado := OrElse(row.statusDetalhado, "N/A"),
      dataset := if overlay then k else 0)
  }

  /** The points built from all rows, in row order. */
  function NewPoints(rows: seq<Row>, overlay: bool, k: nat, maxExisting: int): (r: seq<Point>)
    ensures |r| == |rows|
    ensures forall i :: 0 <= i < |rows| ==> r[i] == ToPoint(rows[i], i, overlay, k, maxExisting)
  {
    seq(|rows|, i requires 0 <= i < |rows| => ToPoint(rows[i], i, overlay, k, maxExisting))
  }

  /** Overlay ids never collide with what is loaded: when every row's own id
      is at least -1, every shifted id exceeds every id already present. */
  lemma OverlayIdsAboveExisting(ps: seq<Point>, rows: seq<Row>, k: nat)
    requires k >= 1
    requires forall i :: 0 <= i < |rows| ==> rows[i].clusterId >= -1
    ensures var added := NewPoints(rows, true, k, ExistingMax(ps));
      forall i, j :: 0 <= i < |added| && 0 <= j < |ps| ==> ps[j].cluster < added[i].cluster
  {
    var m := ExistingMax(ps);
    var added := NewPoints(rows, true, k, m);
    forall i, j | 0 <= i < |added| && 0 <= j < |ps| ensures ps[j].cluster < added[i].cluster {
      assert added[i] == ToPoint(rows[i], i, true, k, m);
    }
  }

  // ===== Unit -> cluster ids index =====

  type UnitIndex = map<string, seq<int>>

  predicate InUnit(ps: seq<Point>, u: string) {
    exists p :: p in ps && p.unidadeLocal == u
  }

  predicate UnitHasCluster(ps: seq<Point>, u: string, c: int) {
    exists p :: p in ps && p.unidadeLocal == u && p.cluster == c
  }

  /** `idx` is the index of `ps`: its keys are exactly the units present, and
      each unit lists, ascending and without repeats, exactly the cluster ids
      of its points. */
  ghost predicate IndexOf(idx: UnitIndex, ps: seq<Point>) {
    && (forall u :: u in idx <==> InUnit(ps, u))
    && (forall u :: u in idx ==> StrictlyAscending(idx[u]))
    && (forall u, c :: u in idx ==> (c in idx[u] <==> UnitHasCluster(ps, u, c)))
  }

  /** Builds the index in one pass over the points, adding each point's id to
      its unit's list. */
  method BuildIndex(ps: seq<Point>) returns (idx: UnitIndex)
    ensures IndexOf(idx, ps)
  {
    idx := map[];
    var i := 0;
    while i < |ps|
      invariant 0 <= i <= |ps|
      invariant IndexOf(idx, ps[..i])
    {
      var p := ps[i];
      assert ps[..i + 1] == ps[..i] + [p];
      var ids := if p.unidadeLocal in idx then idx[p.unidadeLocal] else [];
      idx := idx[p.unidadeLocal := InsertSorted(ids, p.cluster)];
      i := i + 1;
    }
    assert ps[..i] == ps;
  }

  /** The index depends on the point list alone: two indexes of the same list
      are equal, so rebuilding twice gives the same result. */
  lemma IndexUnique(a: UnitIndex, b: UnitIndex, ps: seq<Point>)
    requires IndexOf(a, ps) && IndexOf(b, ps)
    ensures a == b
  {
    assert a.Keys == b.Keys;
    forall u | u in a ensures a[u] == b[u] {
      AscendingUnique(a[u], b[u]);
    }
  }

  /** Every point's cluster id is listed under its unit. */
  lemma IndexCoversPoints(idx: UnitIndex, ps: seq<Point>, i: nat)
    requires IndexOf(idx, ps) && i < |ps|
    ensures ps[i].unidadeLocal in idx && ps[i].cluster in idx[ps[i].unidadeLocal]
  {
    assert ps[i] in ps;
  }
}
