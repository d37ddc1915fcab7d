# clusterizeOAE in Dafny

clusterizeOAE groups inspected road structures (OAEs, *obras de arte
especiais*) into work lots. A Python preprocessing step splits the
structures of each local unit (*Unidade Local*) into geographic clusters. It
numbers all clusters into one id space, labels each one `<unit>-C<id>` and
writes a two-sheet workbook ("All Points" and "Cluster Summary"). A browser
editor loads that workbook, optionally with overlay workbooks on top. The
analyst then moves points between lots, merges lots, deletes lots (their
points go to the pseudo-cluster -1, "Sem Lote") and exports the result.

This project models both halves:

- `basics.dfy`: optional values, the JavaScript `||` fallback, decimal
  rendering of integers and strictly ascending id lists.
- `records.dfy`: the point record and the queries every operation shares
  (membership, counts, cost sums, first member in list order, largest id,
  distinct ids).
- `data_handlers.dfy`: the cluster statistics, the conversion of imported
  rows into points with the overlay offsets, and the unit index. The index
  maps each unit to its cluster ids and is specified as a predicate, built
  by a loop.
- `cluster_operations.dfy`: merge and delete as functions of the point list.
  Lemmas relate the editor's step-by-step loops to these closed forms and
  state how counts, costs and labels move.
- `ui_controls.dfy`: reassigning the selected point, the order and contents
  of the lots panel, the hidden-cluster toggle and the export summary.
- `sheets.dfy`: the "All Points" sheet at cell level. It covers which
  columns the importer reads, which ones the editor's export writes, and the
  round trip between the two.
- `clustering.dfy`: the preprocessing core. It covers code cleaning, grade
  parsing, the number of clusters per unit, the global renumbering loop and
  the output workbook. It also proves that the editor's summary agrees with
  the preprocessing step's own summary.
- `session.dfy`: one `Session` class holding every piece of state the
  editor keeps in globals. Its methods change that state in place. Its
  invariant `Valid()` says four things:
  - the unit index is the one rebuilt from the points;
  - every point has a label;
  - no dataset tag exceeds the overlay counter;
  - no registered file number exceeds the overlay counter.

## Model

| member | source | states |
|---|---|---|
| Basics.NonEmptyOr | assets/js/data-handlers.js:168-169 | A non-empty string is kept; the empty string falls back to the default. |
| Basics.OrElse | assets/js/data-handlers.js:54-67 | An absent or empty cell gives the default; any other cell gives its text. |
| Basics.IntToString | assets/js/ui-controls.js:385 | Rendering an integer: the natural rendering, with a '-' in front for a negative value. |
| Basics.DigitsValueOfNatToString | utils/clustering.py:99-100 | Reading the rendering of a natural number back gives that number. |
| Basics.InsertSorted | assets/js/data-handlers.js:196-200 | Adding an id to an ascending, duplicate-free list keeps it ascending. The result holds exactly the old ids plus the new one. |
| Basics.AscendingUnique | assets/js/data-handlers.js:199-201 | Two ascending, duplicate-free lists with the same elements are equal, so the sorted set of a unit's ids is unique. |
| Basics.SortedDistinct | assets/js/cluster-operations.js:34 | The distinct values of a list, strictly ascending; a value is in the result iff it is in the list. |
| Basics.Without | assets/js/cluster-operations.js:35-36 | Drops two given values from an ascending list; the result is still ascending and holds exactly the other values. |
| Records.UnitLabel | utils/clustering.py:296-298 | The label is the unit name, then "-C", then the rendered id, recoverable part by part. |
| Records.Count | assets/js/data-handlers.js:148-149 | The number of members of a cluster is at most the list length, and positive iff some point carries the id. |
| Records.FirstWith | assets/js/data-handlers.js:168 | The first index carrying an id: it carries the id and no earlier index does. None iff no point carries it. |
| Records.FirstWithIs | assets/js/data-handlers.js:168 | Any index that carries the id and has no earlier carrier is the one FirstWith returns. |
| Records.MaxCluster | assets/js/data-handlers.js:37-39 | The largest id of a non-empty list is present and bounds every point's id. |
| Records.ClusterIds | assets/js/ui-controls.js:469-470 | The distinct ids, strictly ascending; an id is listed iff some point carries it. |
| DataHandlers.Members | assets/js/data-handlers.js:148 | A cluster's members: as many as Count, costs summing to CostSum, all from the list with that id, and the first one is the first carrier in list order. |
| DataHandlers.GetClusterStats | assets/js/data-handlers.js:147-171 | None iff the cluster is empty. Otherwise count and total cost of the members. Cluster -1 reads "Sem Lote"/"N/A"; any other takes its first member's label and unit, with "Cluster c" and "N/A" for empty fields. |
| DataHandlers.ExistingMax | assets/js/data-handlers.js:37-39 | Bounds every id already loaded; -1 on an empty list, an id present otherwise. |
| DataHandlers.ToPoint | assets/js/data-handlers.js:42-69 | Primary rows keep their id and dataset 0. Overlay k shifts the id by max + 1000k, prefixes the point id and tags dataset k. The label falls back to "Cluster <id>" of the shifted id. |
| DataHandlers.OverlayIdsAboveExisting | assets/js/data-handlers.js:44-47 | When every row id is at least -1, every overlay id exceeds every id already loaded, so overlays never merge with loaded clusters. |
| DataHandlers.BuildIndex | assets/js/data-handlers.js:192-202 | The rebuilt index has exactly the units present as keys, and lists each unit's cluster ids ascending without repeats. |
| DataHandlers.IndexUnique | assets/js/data-handlers.js:192-202 | Two indexes of the same list are equal: the index is a function of the points alone. |
| DataHandlers.IndexCoversPoints | assets/js/data-handlers.js:77-82 | Every point's id is listed under its own unit. |
| ClusterOperations.MergeTargets | assets/js/cluster-operations.js:34-43 | The merge targets: every id present except the source and -1, ascending. |
| ClusterOperations.MergeLabel | assets/js/cluster-operations.js:64-73 | The label moved points get is never empty, and is "Sem Lote" when the target is -1. |
| ClusterOperations.Merged | assets/js/cluster-operations.js:64-73 | Members of the source get the target id and MergeLabel; every other point is unchanged; the length is kept. |
| ClusterOperations.Deleted | assets/js/cluster-operations.js:96-101 | Members of the deleted cluster get id -1 and label "Sem Lote"; every other point is unchanged. |
| ClusterOperations.DeleteIsMergeIntoSemLote | assets/js/cluster-operations.js:96-101 | Deleting a cluster equals merging it into -1, labels included. |
| ClusterOperations.MergeStepLabel | assets/js/cluster-operations.js:66-71 | At the moment the loop relabels a moved point, the target's statistics report MergeLabel. |
| ClusterOperations.MergeLoopMoves | assets/js/cluster-operations.js:66-67 | Giving the current member the target id turns the processed-prefix state into the mid-step state. |
| ClusterOperations.MergeLoopRelabels | assets/js/cluster-operations.js:69-70 | Writing the reported label completes the step: the processed prefix of the merge grows by one. |
| ClusterOperations.MergeLoopKeeps | assets/js/cluster-operations.js:65 | A non-member is left alone and the processed prefix still grows by one. |
| ClusterOperations.DeleteLoopStep | assets/js/cluster-operations.js:96-101 | One pass of the delete loop extends the processed prefix of Deleted by one point. |
| ClusterOperations.MoveAllKeepsLabelsAndTags | assets/js/cluster-operations.js:64-73 | Moving points under a non-empty label keeps every point labelled and every dataset tag unchanged. |
| ClusterOperations.MergedLabelIsTargetLabel | assets/js/cluster-operations.js:64-73 | After the merge, the target's statistics report exactly the label the moved points carry. |
| ClusterOperations.MoveAllCounts | assets/js/cluster-operations.js:64-73 | Moving the source's points to a different id: the target's count gains the source's count, the source becomes empty, and other counts stay. |
| ClusterOperations.MoveAllCosts | assets/js/cluster-operations.js:64-73 | The same for cost sums: the target gains the source's total, the source's becomes 0, the others stay. |
| ClusterOperations.MergeCounts | assets/js/cluster-operations.js:64-73 | After a merge of distinct clusters, the target holds both counts and both costs, the source no longer exists and the other clusters are untouched. |
| ClusterOperations.DeleteCounts | assets/js/cluster-operations.js:96-101 | After deleting a cluster other than -1, "Sem Lote" holds both counts and the deleted cluster has no statistics. |
| UiControls.FindIndex | assets/js/ui-controls.js:351 | The first index with the selected id, or None when no point has it. |
| UiControls.NewClusterId | assets/js/ui-controls.js:375-379 | The new id exceeds every id present, so it is absent; it is one above an id that is present. |
| UiControls.FirstOther | assets/js/ui-controls.js:403 | The first member of the target cluster whose id differs from the selected one. None iff there is no such member. |
| UiControls.Reassigned | assets/js/ui-controls.js:347-415 | Only the selected point changes, and only its id, label and unit. "Sem Lote", or an existing-cluster choice of -1 (the value "-1" is recognised before any id is parsed), gives cluster -1 and "Sem Lote" with the unit kept. A new lot gets NewClusterId, the chosen unit and its label. An existing id keeps the unit. |
| UiControls.CountAfterUpdate | assets/js/ui-controls.js:352 | Replacing one point changes each count by that point's leaving and joining only. |
| UiControls.ReassignToNewCluster | assets/js/ui-controls.js:371-391 | A new lot's id is above all ids present, it ends with one member, and every index of the new list lists it under the chosen unit. |
| UiControls.ReassignToExistingLabel | assets/js/ui-controls.js:393-415 | Joining a lot other than -1 copies the label of its first other member in the old list (never the point itself), or "<own unit>-C<id>" if it has none. Choosing -1 gives "Sem Lote". |
| UiControls.ReassignCounts | assets/js/ui-controls.js:347-415 | The old cluster loses one member, the new one gains one, all other counts are unchanged. |
| UiControls.ReassignKeepsLabels | assets/js/ui-controls.js:347-415 | Reassignment keeps every point labelled and every dataset tag unchanged. |
| UiControls.PanelOrder | assets/js/ui-controls.js:133-152 | Every id present ascending, then -1 last and exactly once, even when no point is unassigned. |
| UiControls.PanelEntry | assets/js/ui-controls.js:154-162 | A panel entry carries the cluster's id, member count, total cost and hidden flag. A present cluster shows the label of its statistics; -1 reads "Sem Lote"; any other absent id reads "Cluster <id>". |
| UiControls.LotesPanel | assets/js/ui-controls.js:129-162 | One entry per id of PanelOrder, in that order, with its count, cost and hidden flag. Every entry but the last shows the label of its cluster's statistics; the last entry is "Sem Lote". |
| UiControls.Toggled | assets/js/ui-controls.js:200-205 | The clicked id flips its membership in the hidden set; every other id keeps its own. |
| UiControls.ToggleTwice | assets/js/ui-controls.js:200-205 | Clicking the same checkbox twice restores the hidden set. |
| UiControls.SummaryRowOf | assets/js/ui-controls.js:471-480 | A summary row carries the id, the positive member count, the cost sum, and the label and unit of the cluster's statistics. |
| UiControls.ExportSummary | assets/js/ui-controls.js:469-481 | One row per id present, ids strictly ascending, each with the cluster's count, cost sum, label and unit. |
| Sheets.Or | assets/js/data-handlers.js:51-52 | A truthy first cell is taken, otherwise the second. |
| Sheets.AsNumber | assets/js/data-handlers.js:51-61 | A numeric cell reads as its value; an absent or text cell reads as NaN (None). |
| Sheets.AsText | assets/js/data-handlers.js:54-67 | A text cell reads as its text; anything else as absent. |
| Sheets.Trunc | assets/js/data-handlers.js:43 | Integer parsing of a number truncates toward zero (the source agrees for numbers JS renders without an exponent; see Left out). |
| Sheets.TruncOfInt | assets/js/data-handlers.js:43 | An integer written into a cell reads back as itself (in the source, for magnitudes below 1e21). |
| Sheets.ReadRow | assets/js/data-handlers.js:42-69 | In the model, a row converts iff its cluster id, coordinates and numeric fields are numbers (after the fallbacks); see Left out for the rows the editor keeps with NaN fields. The OAE id comes from "Identificação da OAE", the label from "Cluster Label". |
| Sheets.DatasetName | assets/js/ui-controls.js:466 | The registered file name, else "Principal" for dataset 0 (else "Sobreposto k"); never empty. |
| Sheets.ExportCellsAsWritten | assets/js/ui-controls.js:447-467 | The export as written puts the OAE id under "IdOAE" and the length under "Extensao", and leaves the importer's columns for them empty. |
| Sheets.ExportCells | assets/js/data-handlers.js:57-59 | The corrected export writes those two fields under the titles the importer reads. |
| Sheets.ToPointOfRowOf | assets/js/data-handlers.js:49-69 | A point whose text fields are non-empty and whose coordinates are non-zero is rebuilt from its own row, with dataset 0. |
| Sheets.ReadExportCells | assets/js/data-handlers.js:51-67 | Reading the corrected export row gives the point's own row. |
| Sheets.ReadExportCellsAsWritten | assets/js/data-handlers.js:57-59 | Reading the export row as written gives the point's row without the OAE id and with length 0. |
| Sheets.ExportAsWrittenLosesColumns | assets/js/ui-controls.js:454-458 | As written, export then import returns the point with its OAE id replaced by "N/A" and its length by 0. |
| Sheets.ExportAsWrittenCounterexample | assets/js/ui-controls.js:454-458 | A concrete point whose "OAE-1" and length 10 come back as "N/A" and 0. |
| Sheets.ExportRoundTrip | assets/js/ui-controls.js:447-467 | With the importer's titles, export then primary import returns every point exactly, up to its dataset tag. |
| Sheets.ExportSheet | assets/js/ui-controls.js:447-467 | The "All Points" sheet the editor writes: one row per point, in list order, each the export row as written. |
| Sheets.ExportSheetReimport | assets/js/ui-controls.js:447-467 | Loading an exported sheet as the primary dataset gives back each row's point with its OAE id as "N/A" and its length as 0. |
| Clustering.LeadingSpaces | utils/clustering.py:87 | The length of the leading white-space run: every character in it is white space and the next one is not. |
| Clustering.TrailingSpaces | utils/clustering.py:87 | The length of the trailing white-space run: every character in it is white space and the one before it is not. |
| Clustering.StripLeft | utils/clustering.py:87 | Leading white space removed: the result does not start with white space and is unchanged when there was none. |
| Clustering.StripRight | utils/clustering.py:87 | Trailing white space removed: the result does not end with white space and is unchanged when there was none. |
| Clustering.StripLeftDrops | utils/clustering.py:87 | Stripping the left drops exactly the leading white-space run: the result is the suffix after it. |
| Clustering.StripRightDrops | utils/clustering.py:87 | Stripping the right drops exactly the trailing white-space run: the result is the prefix before it. |
| Clustering.Strip | utils/clustering.py:87 | The result neither starts nor ends with white space, and an already stripped string is unchanged. |
| Clustering.StripIsInfix | utils/clustering.py:87 | The stripped string is the infix of the input that starts after its leading white space, and every character outside that infix is white space. |
| Clustering.StripPadded | utils/clustering.py:87 | White space on both sides of a core that neither starts nor ends with white space strips to exactly that core. |
| Clustering.RemoveDotZero | utils/clustering.py:88 | Never lengthens; a string with no ".0" in it is unchanged. |
| Clustering.RemoveDotZeroKeep | utils/clustering.py:88 | A character that does not start ".0" is kept in front of the cleaned rest. |
| Clustering.RemoveDotZeroSkip | utils/clustering.py:88 | A leading ".0" is dropped and nothing else. |
| Clustering.RemoveDotZeroLeftmost | utils/clustering.py:88 | The leftmost ".0" is removed and the scan resumes after it: a prefix without ".0", then ".0", then a rest, gives the prefix followed by the cleaned rest. |
| Clustering.RemoveCommas | utils/clustering.py:89 | No comma is left, and a comma-free string is unchanged. |
| Clustering.RemoveCommasConcat | utils/clustering.py:89 | Comma removal works piece by piece: cleaning a concatenation gives the cleaned pieces in order, so the other characters keep their order. |
| Clustering.RemoveOneComma | utils/clustering.py:89 | Two comma-free pieces joined by a comma clean to the two pieces joined. |
| Clustering.CleanNumericalCode | utils/clustering.py:82-90 | A cleaned code never contains a comma. |
| Clustering.CleanPadded | utils/clustering.py:82-90 | Cleaning is strip, then ".0" removal, then comma removal: a core padded with white space cleans to the core with ".0" and then commas removed. |
| Clustering.CleanThousandsFloat | utils/clustering.py:82-90 | A code rendered with a thousands comma and ".0", such as "1,234.0", cleans to its digits, "1234". |
| Clustering.CleanFloatRendering | utils/clustering.py:82-90 | A code read as a float and rendered "n.0" cleans to "n". |
| Clustering.CleanDigits | utils/clustering.py:82-90 | A plain digit string is unchanged by cleaning. |
| Clustering.DigitsBeforeDotZero | utils/clustering.py:88 | Removing ".0" from digits followed by ".0" gives the digits. |
| Clustering.CommaToDot | utils/clustering.py:98 | Every comma becomes a point; every other character stays. |
| Clustering.CommaToDotDigits | utils/clustering.py:98 | In "[-]n,f" with digit strings n and f, the separator comma becomes the point and nothing else changes. |
| Clustering.LeadingDigits | utils/clustering.py:100 | The longest prefix made of digits. |
| Clustering.ParseBody | utils/clustering.py:100 | A parsed body is written whole digits, then optionally a point and fraction digits, with at least one digit in all; the decimal carries the given sign. |
| Clustering.ParseDecimal | utils/clustering.py:100 | A parsed literal, once stripped, spells that decimal: a '-' exactly when negative (otherwise an optional '+'), then whole[.fraction]. |
| Clustering.ParseBodyComplete | utils/clustering.py:100 | Every body written whole[.fraction] with at least one digit parses as that decimal, ".5" and "5." included. |
| Clustering.ParseDecimalComplete | utils/clustering.py:100 | Every literal that, once stripped, spells a decimal parses as that decimal. |
| Clustering.ParseSignedDigits | utils/clustering.py:100 | "[-]digits[.digits]" parses as that decimal. |
| Clustering.ProcessNotaFinal | utils/clustering.py:93-102 | "S/N" in any case gives -99. An empty cell gives -99. A number is truncated toward zero. Text that parses once the comma becomes a point gives the parsed decimal truncated toward zero; text that does not parse gives -99. |
| Clustering.NotaOfInteger | utils/clustering.py:93-102 | An integer written as text reads back as itself (in the source, within double precision). |
| Clustering.SignedDigitsNotSemNota | utils/clustering.py:96 | A digit string with an optional "-", followed by text that does not end in white space, is never read as "S/N". |
| Clustering.CommaDecimalParses | utils/clustering.py:96-100 | "[-]n,f" is not "S/N" and, with the comma as the point, parses as [-]n.f. |
| Clustering.NotaWithCommaDecimal | utils/clustering.py:93-102 | "n,f" reads as n and "-n,f" as -n: the fraction is truncated away (in the source, within double precision). |
| Clustering.NClusters | utils/clustering.py:222 | At least one cluster. Enough clusters of at most maxSize for n points, and no more than needed. |
| Clustering.ClusterUnidadeLocal | utils/clustering.py:202-246 | One label per point, each below the cluster count. All 0 when one cluster suffices; otherwise the geographic clustering's labels. |
| Clustering.SeqMaxIsMax | utils/clustering.py:295 | The largest local label is one of the labels and bounds all of them. |
| Clustering.Shifted | utils/clustering.py:294 | Every point of the unit keeps its unit and gets its local label plus the offset. |
| Clustering.NumberedFromAbove | utils/clustering.py:288-299 | Every id produced from an offset is at least that offset. |
| Clustering.NumberedFromCons | utils/clustering.py:290-295 | Numbering from unit k is unit k shifted by the offset, then the later units numbered from one past its largest id. |
| Clustering.RenumberStep | utils/clustering.py:290-299 | One turn of the loop keeps "output so far followed by the numbering of the remaining units" equal to the whole numbering. |
| Clustering.PerformRenumbering | utils/clustering.py:288-299 | The renumbering loop produces exactly Renumbered(groups), unit after unit with the running offset. |
| Clustering.ShiftedLabels | utils/clustering.py:296-298 | Each shifted point carries "<unit>-C<id>" of its unit and its global id. |
| Clustering.NumberedLabels | utils/clustering.py:296-298 | Every numbered point carries "<unit>-C<id>" of its own unit and global id. |
| Clustering.RenumberedLabels | utils/clustering.py:296-298 | Every renumbered point carries "<unit>-C<id>" of its own unit and global id. |
| Clustering.NumberedInOrder | utils/clustering.py:291-295 | Every id of a later unit exceeds every id of an earlier unit. |
| Clustering.LaterUnitsAbove | utils/clustering.py:291-295 | Across the whole output, a later unit's ids are above an earlier unit's ids. |
| Clustering.UnitsNeverShareClusters | utils/clustering.py:288-299 | Two points with the same global id belong to the same unit and carry the same label. |
| Clustering.OffFromStep | utils/clustering.py:291-295 | Numbering from any unit on, the offset of the unit after j is one past unit j's largest local label plus j's offset. |
| Clustering.OffSteps | utils/clustering.py:288-295 | The running offset starts at 0, and each next unit starts one past the largest local label plus the previous unit's offset. |
| Clustering.NumberedFromLength | utils/clustering.py:291-299 | Numbering the units from the k-th on yields one entry per point of those units. |
| Clustering.NumberedFromFlatten | utils/clustering.py:290-299 | Numbering the units from the k-th on is the concatenation of their shifted copies. |
| Clustering.PiecesAt | utils/clustering.py:293-295 | The copy of unit j is shifted by the offset reached after units k to j-1. |
| Clustering.PiecesPrefix | utils/clustering.py:290-299 | The copies of units k to j-1 hold as many points as those units. |
| Clustering.RenumberedLength | utils/clustering.py:288-299 | The output has exactly one entry per input point. |
| Clustering.RenumberedAt | utils/clustering.py:288-299 | The m-th point of unit j sits at Start(gs, j) + m, with its unit, its local label plus the unit's offset, and the label of that id. |
| Clustering.SameUnitSameId | utils/clustering.py:293-294 | Within one unit, two points share a global id exactly when they shared a local label. |
| Clustering.PrepareAllPoints | utils/clustering.py:343-370 | One row per point; row i has Point ID i, the point's cluster id and label, and Dataset "Principal". |
| Clustering.ImportPreparedOutput | utils/clustering.py:345-370 | The editor imports row i of the output as the same point, with id "i" and dataset 0. |
| Clustering.PreparedSummaryRow | utils/clustering.py:375-384 | A summary row holds the cluster's count and cost sum, and the label and unit of its first row. |
| Clustering.PreparedSummary | utils/clustering.py:373-386 | One row per id present, ids strictly ascending, each that id's PreparedSummaryRow. |
| Clustering.PrepareSummary | utils/clustering.py:373-386 | The summary loop produces exactly PreparedSummary. |
| Clustering.PreparedSummaryMatchesEditor | utils/clustering.py:373-386 | On output with no unassigned points and filled-in labels and units, the editor's summary equals the preprocessing step's summary. |
| EditorSession.Session.constructor | assets/js/data-handlers.js:2-5 | An empty session: no points, an empty index, counter 0, no files; nothing hidden and nothing selected (the globals of assets/js/ui-controls.js:2-3); no merge source (assets/js/cluster-operations.js:2). |
| EditorSession.Session.RebuildUnidadesClusters | assets/js/data-handlers.js:192-202 | Afterwards the index is the one of the current points. |
| EditorSession.Session.LoadExcelFile | assets/js/data-handlers.js:8-87 | A missing or empty sheet is rejected with nothing changed. Otherwise: the counter steps for an overlay, the file is registered, the new points are appended after the old ones, and the invariant is kept. |
| EditorSession.Session.SelectPoint | assets/js/ui-controls.js:6-7 | The clicked point becomes the selection. |
| EditorSession.Session.OpenMergeModal | assets/js/cluster-operations.js:26-46 | Remembers the source and offers exactly MergeTargets. |
| EditorSession.Session.CloseMergeModal | assets/js/cluster-operations.js:48-51 | Forgets the merge source. |
| EditorSession.Session.MergeMembers | assets/js/cluster-operations.js:64-73 | The in-place loop leaves exactly Merged of the old points. |
| EditorSession.Session.UnassignMembers | assets/js/cluster-operations.js:96-101 | The in-place loop leaves exactly Deleted of the old points. |
| EditorSession.Session.WriteReassignment | assets/js/ui-controls.js:347-415 | The field writes leave exactly Reassigned of the old points. |
| EditorSession.Session.ConfirmMerge | assets/js/cluster-operations.js:53-85 | Without a target or source nothing changes. Otherwise the points become Merged, the dialog closes, the rest is kept and the invariant holds. |
| EditorSession.Session.DeleteLote | assets/js/cluster-operations.js:88-112 | Deletes iff the cluster exists and the analyst confirms. The points become Deleted, the rest is kept and the invariant holds. |
| EditorSession.Session.Reassign | assets/js/ui-controls.js:334-439 | No selection, no target or an unknown id changes nothing. A selected point that is found with a target chosen is always reassigned: the points become Reassigned at its index and the selection is cleared. |
| EditorSession.Session.ReassignAt | assets/js/ui-controls.js:343-435 | At a found index, the points become Reassigned, the index is rebuilt, the selection is cleared and everything else is kept. |
| EditorSession.Session.ExportWorkbook | assets/js/ui-controls.js:441-493 | Nothing on an empty session; otherwise the "All Points" rows as the editor writes them (ExportSheet) and the summary rows (ExportSummary). |
| EditorSession.Session.ToggleClusterVisibility | assets/js/ui-controls.js:200-205 | The hidden set becomes Toggled of the old one. |
| EditorSession.Session.ClearSession | assets/js/ui-controls.js:495-500 | Once confirmed: no points, empty index, no selection, everything else kept. Refused: nothing changes. |

## Left out

- The map, markers, colours, popups, legends, alerts and every other DOM update in the editor are not part of this model. `assets/js/map-core.js` is not part of this model.
- `app.py` (the web front of the preprocessing step) is not part of this model. Neither are `merge_dataframes`, the filtering by state and grade, the centroids and the cluster metrics in `utils/clustering.py`.
- Reading and writing XLSX files is left out. A workbook is given to the model as parsed rows (`DataHandlers.Row`, `Sheets.SheetRow`), and an export returns its rows.
- The geographic clustering (KMeans on coordinates and normalised cost) is a parameter: `Clustering.ClusterUnidadeLocal` takes its labels as given. An empty unit is returned without a cluster column.
- Clustering.PerformRenumbering: the units arrive in the order the preprocessing step sorts them; Python's string ordering of unit names is not modelled.
- The "Avg Cost (R$)" column of both summaries (total divided by count, a float) is not modelled; the other summary columns are.
- Floating point: coordinates, widths, lengths and costs are Dafny reals, so sums are exact and rounding is not modelled.
- Clustering.ParseDecimal: accepts white space, a sign, ASCII digits and one decimal point only. Python's float() also accepts exponents ("1e3"), digit separators ("1_000") and non-ASCII decimal digits; on such text the model gives -99 where the source gives the number. "inf" and "nan" give -99 in both, since converting them to an integer raises and the source falls back to -99.
- Clustering.ProcessNotaFinal: the source reads the grade text through a double (`int(float(...))`) and then truncates; the model reads the decimal exactly and truncates it. Results differ where the text needs more precision than a double holds, e.g. "2.9999999999999999" gives 3 in the source and 2 in the model. The same holds for Clustering.NotaOfInteger (integers beyond 2^53 come back as the nearest double in the source) and Clustering.NotaWithCommaDecimal.
- Sheets.Trunc: JS `parseInt` on a number cell first renders the number as text, so numbers JS writes in exponent form (magnitude below 1e-6 or at least 1e21) read differently in the source: 5e-7 gives 5 and 1e21 gives 1. The model truncates the number itself; the same range limits Sheets.TruncOfInt, which holds in the source only for integers below 1e21 in magnitude.
- Clustering.IsSemNota: case folding is modelled only as far as the comparison with "S/N" needs it.
- The nullable integer column for SGE in the preprocessing output is modelled as a plain integer. The preprocessing step can write km and Rodovia as numbers; the model writes them as text.
- Sheets.ReadRow: a row whose cluster id, a coordinate or SGE does not read as a number is still appended by the editor, as a point holding NaN in that field (assets/js/data-handlers.js:43, 50-51, 55). The model's points hold only numbers, so such a row reads as None and is outside the model.
- Sheets.AsText: a number in a text column (which the editor would turn into its decimal rendering) reads as absent; the model does not render reals as text.
- Sheets.AsNumber: the editor's parseInt/parseFloat on a text cell (which can read a leading number out of text) is modelled as NaN.
- Clustering.ImportPreparedOutput: the numeric Point ID i of the preprocessing output is read back as the string "i". This is how the editor renders it, and also its fallback to the row index.
- The confirmation dialogs and the target lists are inputs: `confirmed` flags, `Option<int>` for the merge target (None for an empty or non-numeric choice) and `UiControls.Target` for the reassign target.
- EditorSession.Session.DeleteLote: deleting an empty cluster throws in the editor before it asks; the model reports `false` with nothing changed.
- EditorSession.Session.Reassign: when the selected id is no longer present the editor throws on its first write; the model reports `PointNotFound` with nothing changed.
- The selected point is modelled by its id; the editor keeps the whole point object.

## Findings

| source | as written | input that shows it | evidently intended | confidence | as-written member | corrected member |
|---|---|---|---|---|---|---|
| assets/js/ui-controls.js:454-458 | The export writes the OAE identification under "IdOAE" and the length under "Extensao". The importer reads "Identificação da OAE" and "Extensão" (assets/js/data-handlers.js:57-59), which is also what the preprocessing step writes (utils/clustering.py:349-350). | Export a point with identification "OAE-1" and length 10, then load the file: it comes back with "N/A" and 0. | Export under the importer's titles, so that an exported session loads back unchanged. | not executed | Sheets.ExportAsWrittenCounterexample | Sheets.ExportRoundTrip |

The session's export (`Sheets.ExportSheet`, `EditorSession.Session.ExportWorkbook`) follows the code as written; `Sheets.ExportCells` and `Sheets.ExportRoundTrip` state the corrected behaviour.
