/** The "All Points" sheet at cell level: how the importer picks its columns
    out of a spreadsheet row, and which columns the editor's export writes.
    The two do not use the same titles for two columns, so an exported file
    loses them on re-import; `ExportCells` is the export with the importer's
    titles, and it round-trips. */
module Sheets {
  import opened Basics
  import opened Records
  import opened DataHandlers

  /** A spreadsheet cell as the reader hands it over: text or a number. */
  datatype Cell = Text(text: string) | Number(value: real)

  /** One sheet row: the cell under each column title the importer or the
      exporter uses, None where the row has no such cell. */
  datatype SheetRow = SheetRow(
    pointId: Option<Cell>,             // "Point ID"
    clusterId: Option<Cell>,           // "Cluster ID"
    clusterLabel: Option<Cell>,        // "Cluster Label"
    unidadeLocal: Option<Cell>,        // "Unidade Local"
    sge: Option<Cell>,                 // "SGE"
    codigoSge: Option<Cell>,           // "Código (SGE)"
    codPro: Option<Cell>,              // "CodPro"
    identificacaoDaOae: Option<Cell>,  // "Identificação da OAE"
    idOae: Option<Cell>,               // "IdOAE"
    latitude: Option<Cell>,            // "Latitude"
    latUpper: Option<Cell>,            // "LAT"
    longitude: Option<Cell>,           // "Longitude"
    longUpper: Option<Cell>,           // "LONG"
    largura: Option<Cell>,             // "Largura"
    extensaoAccented: Option<Cell>,    // "Extensão"
    extensaoPlain: Option<Cell>,       // "Extensao"
    notaConsolidada: Option<Cell>,     // "Nota Consolidada"
    notaUpper: Option<Cell>,           // "NOTA CONSOLIDADA"
    custoFinalRs: Option<Cell>,        // "Custo Final (R$)"
    custoFinal: Option<Cell>,          // "Custo final"
    rodovia: Option<Cell>,             // "Rodovia"
    km: Option<Cell>,                  // "km"
    municipio: Option<Cell>,           // "Município"
    statusGeral: Option<Cell>,         // "Status Geral"
    statusDetalhado: Option<Cell>,     // "Status Detalhado"
    dataset: Option<Cell>)             // "Dataset"

  /** JavaScript truthiness of a cell: present, non-empty text, non-zero number. */
  predicate Truthy(c: Option<Cell>) {
    match c
    case None => false
    case Some(Text(s)) => s != ""
    case Some(Number(x)) => x != 0.0
  }

  /** `a || b` on cells. */
  function Or(a: Option<Cell>, b: Option<Cell>): (r: Option<Cell>)
    ensures Truthy(a) ==> r == a
    ensures !Truthy(a) ==> r == b
  {
    if Truthy(a) then a else b
  }

  const Zero: Option<Cell> := Some(Number(0.0))

  /** A cell read as a number; None stands for NaN and for text cells. */
  function AsNumber(c: Option<Cell>): (r: Option<real>)
    ensures r.Some? <==> c.Some? && c.value.Number?
    ensures r.Some? ==> r.value == c.value.value
  {
    if c.Some? && c.value.Number? then Some(c.value.value) else None
  }

  /** A cell read as text; numeric cells in text columns read as absent. */
  function AsText(c: Option<Cell>): (r: Option<string>)
    ensures r.Some? <==> c.Some? && c.value.Text?
    ensures r.Some? ==> r.value == c.value.text
  {
    if c.Some? && c.value.Text? then Some(c.value.text) else None
  }

  /** Integer parsing of a number: truncation toward zero. */
  function Trunc(x: real): (n: int)
    ensures x >= 0.0 ==> n as real <= x < n as real + 1.0
    ensures x < 0.0 ==> n as real - 1.0 < x <= n as real
  {
    if x >= 0.0 then x.Floor else -((-x).Floor)
  }

  /** Integers survive the trip through a numeric cell. */
  lemma TruncOfInt(n: int)
    ensures Trunc(n as real) == n
  {
  }

  /** The importer's reading of one row: each field from its column, or from
      the first truthy one of its alternative columns, with numeric fields
      falling back to 0 where the importer supplies `|| 0`. None when a
      numeric field would be NaN (no cluster id, no coordinate) or holds text. */
  function ReadRow(r: SheetRow): (row: Option<Row>)
    ensures row.Some? <==>
      && AsNumber(r.clusterId).Some?
      && AsNumber(Or(r.latitude, r.latUpper)).Some?
      && AsNumber(Or(r.longitude, r.longUpper)).Some?
      && AsNumber(Or(Or(r.sge, r.codigoSge), Zero)).Some?
      && AsNumber(Or(r.largura, Zero)).Some?
      && AsNumber(Or(r.extensaoAccented, Zero)).Some?
      && AsNumber(Or(Or(r.notaConsolidada, r.notaUpper), Zero)).Some?
      && AsNumber(Or(Or(r.custoFinalRs, r.custoFinal), Zero)).Some?
    ensures row.Some? ==> row.value.idOae == AsText(r.identificacaoDaOae)
    ensures row.Some? ==> row.value.clusterLabel == AsText(r.clusterLabel)
    ensures row.Some? ==> row.value.clusterId == Trunc(r.clusterId.value.value)
  {
    var clusterId := AsNumber(r.clusterId);
    var lat := AsNumber(Or(r.latitude, r.latUpper));
    var lon := AsNumber(Or(r.longitude, r.longUpper));
    var sge := AsNumber(Or(Or(r.sge, r.codigoSge), Zero));
    var largura := AsNumber(Or(r.largura, Zero));
    var extensao := AsNumber(Or(r.extensaoAccented, Zero));
    var nota := AsNumber(Or(Or(r.notaConsolidada, r.notaUpper), Zero));
    var custo := AsNumber(Or(Or(r.custoFinalRs, r.custoFinal), Zero));
    if clusterId.None? || lat.None? || lon.None? || sge.None? || largura.None?
       || extensao.None? || nota.None? || custo.None? then None
    else
      Some(Row(
        pointId := AsText(r.pointId),
        lat := lat.value,
        lon := lon.value,
        clusterId := Trunc(clusterId.value),
        unidadeLocal := AsText(r.unidadeLocal),
        sge := Trunc(sge.value),
        codPro := AsText(r.codPro),
        idOae := AsText(r.identificacaoDaOae),
        largura := largura.value,
        extensao := extensao.value,
        nota := Trunc(nota.value),
        custo := custo.value,
        clusterLabel := AsText(r.clusterLabel),
        rodovia := AsText(r.rodovia),
        km := AsText(r.km),
        municipio := AsText(r.municipio),
        statusGeral := AsText(r.statusGeral),
        statusDetalhado := AsText(r.statusDetalhado)))
  }

  /** The "Dataset" column: the registered file name, else "Principal" for
      dataset 0 and "Sobreposto <k>" for overlay k. */
  function DatasetName(filenames: map<nat, string>, d: nat): (s: string)
    ensures s != ""
    ensures d in filenames && filenames[d] != "" ==> s == filenames[d]
    ensures (d !in filenames || filenames[d] == "") && d == 0 ==> s == "Principal"
    ensures (d !in filenames || filenames[d] == "") && d != 0 ==> s == "Sobreposto " + NatToString(d)
  {
    if d in filenames && filenames[d] != "" then filenames[d]
    else if d == 0 then "Principal"
    else "Sobreposto " + NatToString(d)
  }

  /** The columns every export writes, with the OAE identification and the
      length left out. */
  function CommonCells(p: Point, filenames: map<nat, string>): SheetRow {
    SheetRow(
      pointId := Some(Text(p.id)),
      clusterId := Some(Number(p.cluster as real)),
      clusterLabel := Some(Text(p.clusterLabel)),
      unidadeLocal := Some(Text(p.unidadeLocal)),
      sge := Some(Number(p.sge as real)),
      codigoSge := None,
      codPro := Some(Text(p.codPro)),
      identificacaoDaOae := None,
      idOae := None,
      latitude := Some(Number(p.lat)),
      latUpper := None,
      longitude := Some(Number(p.lon)),
      longUpper := None,
      largura := Some(Number(p.largura)),
      extensaoAccented := None,
      extensaoPlain := None,
      notaConsolidada := Some(Number(p.nota as real)),
      notaUpper := None,
      custoFinalRs := Some(Number(p.custo)),
      custoFinal := None,
      rodovia := Some(Text(p.rodovia)),
      km := Some(Text(p.km)),
      municipio := Some(Text(p.municipio)),
      statusGeral := Some(Text(p.statusGeral)),
      statusDetalhado := Some(Text(p.statusDetalhado)),
      dataset := Some(Text(DatasetName(filenames, p.dataset))))
  }

  /** The export row as the editor writes it: the OAE identification under
      the title "IdOAE" and the length under "Extensao", neither of which the
      importer reads. */
  function ExportCellsAsWritten(p: Point, filenames: map<nat, string>): (r: SheetRow)
    ensures r.identificacaoDaOae == None && r.extensaoAccented == None
    ensures r.idOae == Some(Text(p.idOae)) && r.extensaoPlain == Some(Number(p.extensao))
  {
    CommonCells(p, filenames).(idOae := Some(Text(p.idOae)),
                               extensaoPlain := Some(Number(p.extensao)))
  }

  /** The export row with the titles the importer (and the preprocessing
      step's own output) uses for those two columns. */
  function ExportCells(p: Point, filenames: map<nat, string>): (r: SheetRow)
    ensures r.identificacaoDaOae == Some(Text(p.idOae))
    ensures r.extensaoAccented == Some(Number(p.extensao))
    ensures r.idOae == None && r.extensaoPlain == None
  {
    CommonCells(p, filenames).(identificacaoDaOae := Some(Text(p.idOae)),
                               extensaoAccented := Some(Number(p.extensao)))
  }

  /** A point whose fields all survive a trip through the sheet: every text
      field is non-empty (empty ones read back as "N/A") and the coordinates
      are non-zero (a zero coordinate is falsy and reads as missing). */
  predicate Reimportable(p: Point) {
    && p.id != "" && p.unidadeLocal != "" && p.codPro != "" && p.idOae != ""
    && p.clusterLabel != "" && p.rodovia != "" && p.km != "" && p.municipio != ""
    && p.statusGeral != "" && p.statusDetalhado != ""
    && p.lat != 0.0 && p.lon != 0.0
  }

  /** The parsed row a point's own fields make. */
  function RowOf(p: Point): Row {
    Row(Some(p.id), p.lat, p.lon, p.cluster, Some(p.unidadeLocal), p.sge, Some(p.codPro),
        Some(p.idOae), p.largura, p.extensao, p.nota, p.custo, Some(p.clusterLabel),
        Some(p.rodovia), Some(p.km), Some(p.municipio), Some(p.statusGeral),
        Some(p.statusDetalhado))
  }

  /** A primary import of that row rebuilds the point, tagged dataset 0. */
  lemma ToPointOfRowOf(p: Point, idx: nat, maxExisting: int)
    requires Reimportable(p)
    ensures ToPoint(RowOf(p), idx, false, 0, maxExisting) == p.(dataset := 0)
  {
  }

  /** Reading the corrected export row gives back the point's own row. */
  lemma ReadExportCells(p: Point, filenames: map<nat, string>)
    requires p.lat != 0.0 && p.lon != 0.0
    ensures ReadRow(ExportCells(p, filenames)) == Some(RowOf(p))
  {
    TruncOfInt(p.cluster);
    TruncOfInt(p.sge);
    TruncOfInt(p.nota);
  }

  /** Reading the export row as written: the identification is absent and
      the length falls back to 0; every other field comes back. */
  lemma ReadExportCellsAsWritten(p: Point, filenames: map<nat, string>)
    requires p.lat != 0.0 && p.lon != 0.0
    ensures ReadRow(ExportCellsAsWritten(p, filenames))
              == Some(RowOf(p).(idOae := None, extensao := 0.0))
  {
    TruncOfInt(p.cluster);
    TruncOfInt(p.sge);
    TruncOfInt(p.nota);
  }

  /** As written, exporting and re-importing as the primary dataset gives the
      point back with its cluster id and label, but with the OAE
      identification replaced by "N/A" and the length by 0. */
  lemma ExportAsWrittenLosesColumns(p: Point, filenames: map<nat, string>, idx: nat, maxExisting: int)
    requires Reimportable(p)
    ensures var row := ReadRow(ExportCellsAsWritten(p, filenames));
      && row.Some?
      && ToPoint(row.value, idx, false, 0, maxExisting)
           == p.(idOae := "N/A", extensao := 0.0, dataset := 0)
  {
    ReadExportCellsAsWritten(p, filenames);
    ToPointOfRowOf(p.(idOae := "N/A", extensao := 0.0), idx, maxExisting);
    assert RowOf(p).(idOae := None, extensao := 0.0)
      == RowOf(p.(idOae := "N/A", extensao := 0.0)).(idOae := None);
  }

  /** A concrete point that shows the loss: its identification "OAE-1" and
      length 10 come back as "N/A" and 0. */
  lemma ExportAsWrittenCounterexample()
    ensures var p := Point("p1", 1.0, 1.0, 3, "UL", 7, "CP", "OAE-1", 2.0, 10.0, 5, 100.0,
                           "UL-C3", "BR-101", "12", "Cidade", "Ok", "Ok", 0);
      var q := ToPoint(ReadRow(ExportCellsAsWritten(p, map[])).value, 0, false, 0, -1);
      q.idOae == "N/A" && p.idOae == "OAE-1" && q.extensao == 0.0 && p.extensao == 10.0
  {
    var p := Point("p1", 1.0, 1.0, 3, "UL", 7, "CP", "OAE-1", 2.0, 10.0, 5, 100.0,
                   "UL-C3", "BR-101", "12", "Cidade", "Ok", "Ok", 0);
    ReadExportCellsAsWritten(p, map[]);
  }

  /** With the importer's titles, exporting and re-importing as the primary
      dataset gives every point back exactly, up to its dataset tag (a
      primary import tags dataset 0). */
  lemma ExportRoundTrip(p: Point, filenames: map<nat, string>, idx: nat, maxExisting: int)
    requires Reimportable(p)
    ensures var row := ReadRow(ExportCells(p, filenames));
      row.Some? && ToPoint(row.value, idx, false, 0, maxExisting) == p.(dataset := 0)
  {
    ReadExportCells(p, filenames);
    ToPointOfRowOf(p, idx, maxExisting);
  }

  /** The "All Points" sheet the editor exports, one row per point in list
      order, with the column titles as written. */
  function ExportSheet(ps: seq<Point>, filenames: map<nat, string>): (r: seq<SheetRow>)
    ensures |r| == |ps|
    ensures forall i :: 0 <= i < |ps| ==> r[i] == ExportCellsAsWritten(ps[i], filenames)
  {
    seq(|ps|, i requires 0 <= i < |ps| => ExportCellsAsWritten(ps[i], filenames))
  }

  /** Loading an exported sheet as the primary dataset gives back, row by
      row, each point with its OAE identification as "N/A" and its length
      as 0. */
  lemma ExportSheetReimport(ps: seq<Point>, filenames: map<nat, string>, i: nat, maxExisting: int)
    requires i < |ps| && Reimportable(ps[i])
    ensures var row := ReadRow(ExportSheet(ps, filenames)[i]);
      && row.Some?
      && ToPoint(row.value, i, false, 0, maxExisting)
           == ps[i].(idOae := "N/A", extensao := 0.0, dataset := 0)
  {
    ExportAsWrittenLosesColumns(ps[i], filenames, i, maxExisting);
  }
}
