/** The editing session: every piece of state the editor's scripts keep in
    globals, held in one object, and the operations that change it. Each
    operation that changes the points rebuilds the unit index from scratch
    afterwards, so the index never drifts from the points. */
module EditorSession {
  import opened Basics
  import opened Records
  import opened DataHandlers
  import opened ClusterOperations
  import opened UiControls
  import opened Sheets

  /** How a click on the reassign button ended. */
  datatype ReassignOutcome =
    | NothingSelected   // no point selected: the click is ignored
    | NoTargetChosen    // the target list is on its placeholder
    | PointNotFound     // the selected id is no longer in the list: the update fails before writing
    | Reassigned

  class Session {
    var pointsData: seq<Point>
    var unidadesClusters: UnitIndex
    var datasetCounter: nat
    var datasetFilenames: map<nat, string>
    var hiddenClusters: set<int>
    /** The id of the selected point, if any. */
    var selectedPoint: Option<string>
    /** The cluster whose merge dialog is open, if any. */
    var mergeSourceCluster: Option<int>

    /** The session invariant: the index is the one rebuilt from the points,
        every point has a label, and dataset tags and registered file numbers
        never run ahead of the overlay counter. */
    ghost predicate Valid()
      reads this
    {
      && IndexOf(unidadesClusters, pointsData)
      && AllLabelled(pointsData)
      && TaggedUpTo(pointsData, datasetCounter)
      && (forall k :: k in datasetFilenames ==> k <= datasetCounter)
    }

    constructor ()
      ensures Valid()
      ensures pointsData == [] && unidadesClusters == map[] && datasetCounter == 0
      ensures datasetFilenames == map[] && hiddenClusters == {}
      ensures selectedPoint == None && mergeSourceCluster == None
    {
      pointsData := [];
      unidadesClusters := map[];
      datasetCounter := 0;
      datasetFilenames := map[];
      hiddenClusters := {};
      selectedPoint := None;
      mergeSourceCluster := None;
    }

    /** Regroups every point by unit and lists each unit's cluster ids,
        ascending and without repeats. Nothing else changes. */
    method RebuildUnidadesClusters()
      modifies this`unidadesClusters
      ensures IndexOf(unidadesClusters, pointsData)
    {
      unidadesClusters := BuildIndex(pointsData);
    }

    /** Loads the "All Points" sheet (None when the workbook has no such
        sheet) as the primary dataset or as an overlay. A missing sheet or an
        empty one is rejected before anything changes; otherwise the overlay
        counter and the file registry are updated and the new points are
        appended after the old ones. */
    method LoadExcelFile(sheet: Option<seq<Row>>, overlay: bool, fileName: string)
      returns (err: Option<ImportError>)
      requires Valid()
      modifies this
      ensures Valid()
      ensures sheet.None? ==> err == Some(MissingSheet) && unchanged(this)
      ensures sheet == Some([]) ==> err == Some(EmptySheet) && unchanged(this)
      ensures sheet.Some? && sheet.value != [] ==>
        && err.None?
        && datasetCounter == old(datasetCounter) + (if overlay then 1 else 0)
        && datasetFilenames == old(datasetFilenames)[(if overlay then datasetCounter else 0) := fileName]
        && pointsData == old(pointsData)
             + NewPoints(sheet.value, overlay, datasetCounter, ExistingMax(old(pointsData)))
        && hiddenClusters == old(hiddenClusters) && selectedPoint == old(selectedPoint)
        && mergeSourceCluster == old(mergeSourceCluster)
    {
      if sheet.None? {
        return Some(MissingSheet);
      }
      var rows := sheet.value;
      if |rows| == 0 {
        return Some(EmptySheet);
      }
      if overlay {
        datasetCounter := datasetCounter + 1;
        datasetFilenames := datasetFilenames[datasetCounter := fileName];
      } else {
        datasetFilenames := datasetFilenames[0 := fileName];
      }
      var maxExistingCluster := ExistingMax(pointsData);
      var newPoints := NewPoints(rows, overlay, datasetCounter, maxExistingCluster);
      pointsData := pointsData + newPoints;
      RebuildUnidadesClusters();
      err := None;
    }

    /** Records the point the analyst clicked. */
    method SelectPoint(id: string)
      modifies this`selectedPoint
      ensures selectedPoint == Some(id)
    {
      selectedPoint := Some(id);
    }

    /** Opens the merge dialog for `clusterId`: remembers it as the merge
        source and returns the ids offered as targets. */
    method OpenMergeModal(clusterId: int) returns (options: seq<int>)
      modifies this`mergeSourceCluster
      ensures mergeSourceCluster == Some(clusterId)
      ensures options == MergeTargets(pointsData, clusterId)
    {
      mergeSourceCluster := Some(clusterId);
      var ids := ClusterIds(pointsData);
      options := Without(ids, clusterId, SemLote);
    }

    method CloseMergeModal()
      modifies this`mergeSourceCluster
      ensures mergeSourceCluster == None
    {
      mergeSourceCluster := None;
    }

    /** The merge loop: walks the list in order; each member of `s` first
        gets id `t`, then the label the statistics of `t` report at that
        moment. The result is the closed-form merge. */
    method MergeMembers(s: int, t: int)
      modifies this`pointsData
      ensures pointsData == Merged(old(pointsData), s, t)
    {
      ghost var ps := pointsData;
      var j := 0;
      while j < |pointsData|
        invariant |pointsData| == |ps| && 0 <= j <= |ps|
        invariant pointsData == Merged(ps, s, t)[..j] + ps[j..]
      {
        if pointsData[j].cluster == s {
          MergeLoopMoves(ps, s, t, j);
          MergeStepLabel(ps, s, t, j);
          MergeLoopRelabels(ps, s, t, j);
          pointsData := pointsData[j := pointsData[j].(cluster := t)];
          var targetStats := GetClusterStats(pointsData, t);
          if targetStats.Some? {
            pointsData := pointsData[j := pointsData[j].(clusterLabel := targetStats.value.clusterLabel)];
          }
        } else {
          MergeLoopKeeps(ps, s, t, j);
        }
        j := j + 1;
      }
    }

    /** The delete loop: every member of `c` goes to the unassigned cluster
        with label "Sem Lote". */
    method UnassignMembers(c: int)
      modifies this`pointsData
      ensures pointsData == Deleted(old(pointsData), c)
    {
      ghost var ps := pointsData;
      var j := 0;
      while j < |pointsData|
        invariant |pointsData| == |ps| && 0 <= j <= |ps|
        invariant pointsData == Deleted(ps, c)[..j] + ps[j..]
      {
        DeleteLoopStep(ps, c, j);
        if pointsData[j].cluster == c {
          pointsData := pointsData[j := pointsData[j].(cluster := SemLote, clusterLabel := SemLoteLabel)];
        }
        j := j + 1;
      }
    }

    /** The field writes of the reassign button on point `pointIndex`, one
        at a time, as the three target kinds do them. */
    method WriteReassignment(pointIndex: nat, target: Target)
      requires pointIndex < |pointsData| && target != NoTarget
      modifies this`pointsData
      ensures pointsData == UiControls.Reassigned(old(pointsData), pointIndex, target)
    {
      var sel := pointsData[pointIndex].id;
      match target {
        case Unassign =>
          pointsData := pointsData[pointIndex := pointsData[pointIndex].(cluster := SemLote)];
          pointsData := pointsData[pointIndex := pointsData[pointIndex].(clusterLabel := SemLoteLabel)];
        case NewIn(u) =>
          var maxCluster := if |pointsData| > 0 then MaxCluster(pointsData) else -1;
          var targetCluster := maxCluster + 1;
          var newClusterLabel := UnitLabel(u, targetCluster);
          pointsData := pointsData[pointIndex := pointsData[pointIndex].(cluster := targetCluster)];
          pointsData := pointsData[pointIndex := pointsData[pointIndex].(clusterLabel := newClusterLabel)];
          pointsData := pointsData[pointIndex := pointsData[pointIndex].(unidadeLocal := u)];
        case Existing(t) =>
          if t == SemLote {
            pointsData := pointsData[pointIndex := pointsData[pointIndex].(cluster := SemLote)];
            pointsData := pointsData[pointIndex := pointsData[pointIndex].(clusterLabel := SemLoteLabel)];
            return;
          }
          var originalUnidadeLocal := pointsData[pointIndex].unidadeLocal;
          pointsData := pointsData[pointIndex := pointsData[pointIndex].(cluster := t)];
          var firstOther := FirstOther(pointsData, t, sel);
          var newLabel := if firstOther.Some? then pointsData[firstOther.value].clusterLabel
                          else UnitLabel(originalUnidadeLocal, t);
          pointsData := pointsData[pointIndex := pointsData[pointIndex].(clusterLabel := newLabel)];
          pointsData := pointsData[pointIndex := pointsData[pointIndex].(unidadeLocal := originalUnidadeLocal)];
      }
    }

    /** Merges the open dialog's source cluster into `target` (None when the
        chosen value is empty or not a number). Without a target or a source
        nothing changes. Otherwise each member of the source, in list order,
        is given the target id and then the label the target's statistics
        report at that moment; the index is rebuilt and the dialog closed. */
    method ConfirmMerge(target: Option<int>) returns (merged: bool)
      requires Valid()
      modifies this
      ensures Valid()
      ensures merged <==> target.Some? && old(mergeSourceCluster).Some?
      ensures !merged ==> unchanged(this)
      ensures merged ==>
        && pointsData == Merged(old(pointsData), old(mergeSourceCluster).value, target.value)
        && mergeSourceCluster == None
        && datasetCounter == old(datasetCounter) && datasetFilenames == old(datasetFilenames)
        && hiddenClusters == old(hiddenClusters) && selectedPoint == old(selectedPoint)
    {
      if target.None? || mergeSourceCluster.None? {
        return false;
      }
      var s, t := mergeSourceCluster.value, target.value;
      ghost var ps := pointsData;
      MergeMembers(s, t);
      MoveAllKeepsLabelsAndTags(ps, s, t, MergeLabel(ps, s, t), datasetCounter);
      RebuildUnidadesClusters();
      mergeSourceCluster := None;
      merged := true;
    }

    /** Deletes lot `clusterId` once the analyst confirms: its members move to
        the unassigned cluster with label "Sem Lote" and the index is rebuilt.
        An empty cluster has no statistics to show, so the request fails before
        asking; a refused confirmation changes nothing. */
    method DeleteLote(clusterId: int, confirmed: bool) returns (deleted: bool)
      requires Valid()
      modifies this
      ensures Valid()
      ensures deleted <==> HasCluster(old(pointsData), clusterId) && confirmed
      ensures !deleted ==> unchanged(this)
      ensures deleted ==>
        && pointsData == Deleted(old(pointsData), clusterId)
        && datasetCounter == old(datasetCounter) && datasetFilenames == old(datasetFilenames)
        && hiddenClusters == old(hiddenClusters) && selectedPoint == old(selectedPoint)
        && mergeSourceCluster == old(mergeSourceCluster)
    {
      var stats := GetClusterStats(pointsData, clusterId);
      if stats.None? || !confirmed {
        return false;
      }
      ghost var ps := pointsData;
      UnassignMembers(clusterId);
      MoveAllKeepsLabelsAndTags(ps, clusterId, SemLote, SemLoteLabel, datasetCounter);
      RebuildUnidadesClusters();
      deleted := true;
    }

    /** The reassign button: moves the selected point to `target`, rebuilds
        the index and clears the selection. Only the selected point changes. */
    method Reassign(target: Target) returns (outcome: ReassignOutcome)
      requires Valid()
      modifies this
      ensures Valid()
      ensures old(selectedPoint).None? ==> outcome == NothingSelected && unchanged(this)
      ensures old(selectedPoint).Some? && target == NoTarget ==>
        outcome == NoTargetChosen && unchanged(this)
      ensures old(selectedPoint).Some? && target != NoTarget
              && FindIndex(old(pointsData), old(selectedPoint).value).None? ==>
        outcome == PointNotFound && unchanged(this)
      ensures old(selectedPoint).Some? && target != NoTarget
              && FindIndex(old(pointsData), old(selectedPoint).value).Some? ==>
        outcome == Reassigned
      ensures outcome == Reassigned ==>
        && target != NoTarget
        && FindIndex(old(pointsData), old(selectedPoint).value).Some?
        && pointsData == UiControls.Reassigned(old(pointsData),
             FindIndex(old(pointsData), old(selectedPoint).value).value, target)
        && selectedPoint == None
        && datasetCounter == old(datasetCounter) && datasetFilenames == old(datasetFilenames)
        && hiddenClusters == old(hiddenClusters) && mergeSourceCluster == old(mergeSourceCluster)
      ensures outcome == Reassigned || unchanged(this)
    {
      if selectedPoint.None? {
        return NothingSelected;
      }
      if target == NoTarget {
        return NoTargetChosen;
      }
      var sel := selectedPoint.value;
      var found := FindIndex(pointsData, sel);
      if found.None? {
        return PointNotFound;
      }
      ReassignAt(found.value, target);
      outcome := Reassigned;
    }

    /** The reassign button once the selected point is found at `pointIndex`:
        writes its fields, rebuilds the index and clears the selection. */
    method ReassignAt(pointIndex: nat, target: Target)
      requires Valid() && pointIndex < |pointsData| && target != NoTarget
      modifies this
      ensures Valid()
      ensures pointsData == UiControls.Reassigned(old(pointsData), pointIndex, target)
      ensures selectedPoint == None
      ensures datasetCounter == old(datasetCounter) && datasetFilenames == old(datasetFilenames)
      ensures hiddenClusters == old(hiddenClusters) && mergeSourceCluster == old(mergeSourceCluster)
    {
      ghost var ps := pointsData;
      WriteReassignment(pointIndex, target);
      ReassignKeepsLabels(ps, pointIndex, target, datasetCounter);
      RebuildUnidadesClusters();
      selectedPoint := None;
    }

    /** The export button: nothing on an empty session; otherwise the
        "All Points" rows, one per point in list order, and the "Cluster
        Summary" rows, one per cluster id in ascending order. */
    method ExportWorkbook() returns (workbook: Option<(seq<SheetRow>, seq<SummaryRow>)>)
      ensures workbook.None? <==> pointsData == []
      ensures workbook.Some? ==>
        && workbook.value.0 == ExportSheet(pointsData, datasetFilenames)
        && workbook.value.1 == ExportSummary(pointsData)
    {
      if |pointsData| == 0 {
        return None;
      }
      var allPoints := ExportSheet(pointsData, datasetFilenames);
      var summary := ExportSummary(pointsData);
      workbook := Some((allPoints, summary));
    }

    /** A lot's checkbox: hides a visible cluster, shows a hidden one. */
    method ToggleClusterVisibility(clusterId: int)
      modifies this`hiddenClusters
      ensures hiddenClusters == Toggled(old(hiddenClusters), clusterId)
    {
      if clusterId in hiddenClusters {
        hiddenClusters := hiddenClusters - {clusterId};
      } else {
        hiddenClusters := hiddenClusters + {clusterId};
      }
    }

    /** The clear button: once confirmed, drops every point, the index and
        the selection. The overlay counter, the file registry, the hidden set
        and the merge source are left as they were. */
    method ClearSession(confirmed: bool)
      requires Valid()
      modifies this
      ensures Valid()
      ensures !confirmed ==> unchanged(this)
      ensures confirmed ==>
        && pointsData == [] && unidadesClusters == map[] && selectedPoint == None
        && datasetCounter == old(datasetCounter) && datasetFilenames == old(datasetFilenames)
        && hiddenClusters == old(hiddenClusters) && mergeSourceCluster == old(mergeSourceCluster)
    {
      if confirmed {
        pointsData := [];
        unidadesClusters := map[];
        selectedPoint := None;
      }
    }
  }
}
