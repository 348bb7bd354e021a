/**
 * `MarkersPanel` as a class: the marker list, the panel values new markers fall
 * back on, and the session's stored marker state. Each handler changes its fields
 * as the source does, in place; its contract ties the new state to the reference
 * functions of `MarkerList` and `MarkerLoad`, whose lemmas carry the properties.
 *
 * The list control, dialogs, message boxes and bus messages are not modelled: a
 * row index the list control reports is a parameter, a dialog answer is a boolean,
 * a chosen file is its lines (`None` when the dialog is cancelled).
 */
module MarkerStore {
  import opened Wrappers
  import opened Markers
  import opened MarkerCodec
  import opened MarkerList
  import opened MarkerLoad

  const Origin: seq<Scalar> := [Num(0), Num(0), Num(0)]
  const NoOrientation: seq<Scalar> := [Unset, Unset, Unset]

  /** A dictionary `SetMarkers` receives: size, colour, position and orientation only. */
  datatype PoseDict = PoseDict(size: Scalar, colour: seq<Scalar>, position: seq<Scalar>, orientation: seq<Scalar>)

  /** The arguments `SetMarkers` passes to `CreateMarker`. */
  function PoseArgs(p: PoseDict): MarkerArgs
  {
    MarkerArgs(p.position, p.orientation, p.colour, p.size, "*", false, [], None, false)
  }

  /** What `OnDeleteMultipleMarkers` is asked to delete. */
  datatype DeleteRequest =
    | Selection(indexes: seq<int>)      // a button click: the selected rows, ascending
    | FiducialLabel(labelText: string)  // a bus message naming a fiducial's label

  /** The positions `OnDeleteMultipleMarkers` deletes. */
  function RequestedIndexes(ms: seq<Marker>, req: DeleteRequest, fiducialLabels: seq<string>): (idxs: seq<int>)
    ensures req.FiducialLabel? ==> |idxs| <= 1
    ensures req.FiducialLabel? && |idxs| == 1 ==>
      0 <= idxs[0] < |ms| && ms[idxs[0]].labelText == req.labelText && req.labelText in fiducialLabels
  {
    match req
    case Selection(indexes) => indexes
    case FiducialLabel(text) =>
      if text != "" && text in fiducialLabels && LastWithLabel(ms, text).Some? then [LastWithLabel(ms, text).value]
      else []
  }

  /** The marker loop of `OnSaveMarkers`: one `to_string` line per marker, in order. */
  method WriteMarkerLines(ms: seq<Marker>, toWorld: WorldConversion) returns (lines: seq<string>)
    ensures lines == MarkerLines(ms, toWorld)
  {
    lines := [];
    var i := 0;
    while i < |ms|
      invariant 0 <= i <= |ms|
      invariant lines == MarkerLines(ms[..i], toWorld)
    {
      MarkerLinesSnoc(ms[..i], ms[i], toWorld);
      assert ms[..i + 1] == ms[..i] + [ms[i]];
      lines := lines + [ToString(ms[i], toWorld)];
      i := i + 1;
    }
    assert ms[..i] == ms;
  }

  class MarkersPanel {
    var markers: seq<Marker>
    var currentPosition: seq<Scalar>
    var currentOrientation: seq<Scalar>
    var currentSeed: seq<Scalar>
    var markerColour: seq<Scalar>
    var markerSize: Scalar
    var currentSession: int
    var navStatus: bool
    /** The session's `'markers'` state; `None` until one is stored. */
    var sessionState: Option<seq<MarkerDict>>

    /** The panel values are triples, as the three-way unpacking setters need. */
    predicate Valid()
      reads this`currentPosition, this`currentOrientation, this`currentSeed, this`markerColour
    {
      |currentPosition| == 3 && |currentOrientation| == 3 && |currentSeed| == 3 && |markerColour| == 3
    }

    /** The values `CreateMarker` falls back on. */
    function Defaults(): (d: MarkerLoad.Defaults)
      reads this`currentPosition, this`currentOrientation, this`currentSeed, this`markerColour
      reads this`markerSize, this`currentSession
      requires Valid()
      ensures ValidDefaults(d)
    {
      MarkerLoad.Defaults(currentPosition, currentOrientation, markerColour, markerSize, currentSeed, currentSession)
    }

    /** The panel as `__init__` leaves it: start values, then `LoadState`. */
    constructor(colour: seq<Scalar>, size: Scalar, state: Option<seq<MarkerDict>>)
      requires |colour| == 3 && (state.Some? ==> ValidState(state.value))
      ensures Valid()
      ensures currentPosition == Origin && currentOrientation == NoOrientation && currentSeed == Origin
      ensures markerColour == colour && markerSize == size && currentSession == 1 && !navStatus
      ensures sessionState == state
      ensures state.None? ==> markers == []
      ensures state.Some? ==> markers == LoadAll([], state.value, Defaults())
      ensures AtMostOneTarget(markers)
    {
      markers := [];
      currentPosition := Origin;
      currentOrientation := NoOrientation;
      currentSeed := Origin;
      markerColour := colour;
      markerSize := size;
      currentSession := 1;
      navStatus := false;
      sessionState := state;
      new;
      assert TargetCount([]) == 0;
      LoadState();
    }

    /** `__find_target_marker`. */
    method FindTargetMarker() returns (r: Option<nat>)
      ensures r == FirstTarget(markers)
    {
      var i := 0;
      while i < |markers|
        invariant 0 <= i <= |markers|
        invariant forall j :: 0 <= j < i ==> !markers[j].isTarget
      {
        if markers[i].isTarget {
          return Some(i);
        }
        i := i + 1;
      }
      return None;
    }

    /** `__get_brain_target_markers`: the brain targets' coordinates, `None` when there are none. */
    method BrainTargetMarkers() returns (r: Option<seq<seq<Scalar>>>)
      ensures r.None? <==> forall j :: 0 <= j < |markers| ==> !markers[j].isBrainTarget
      ensures r.Some? ==> r.value == BrainTargets(markers)
    {
      var found: seq<seq<Scalar>> := [];
      var i := 0;
      while i < |markers|
        invariant 0 <= i <= |markers|
        invariant found == BrainTargets(markers[..i])
      {
        BrainTargetsSnoc(markers[..i], markers[i]);
        assert markers[..i + 1] == markers[..i] + [markers[i]];
        if markers[i].isBrainTarget {
          found := found + [markers[i].Coordinate()];
        }
        i := i + 1;
      }
      assert markers[..i] == markers;
      if found == [] {
        return None;
      }
      return Some(found);
    }

    /** The row search of `OnDeleteMultipleMarkers`: the last marker whose label is `text`. */
    method LastMarkerWithLabel(text: string) returns (r: Option<nat>)
      ensures r == LastWithLabel(markers, text)
    {
      r := None;
      var i := 0;
      while i < |markers|
        invariant 0 <= i <= |markers|
        invariant r == LastWithLabel(markers[..i], text)
      {
        assert markers[..i + 1][..i] == markers[..i];
        if markers[i].labelText == text {
          r := Some(i);
        }
        i := i + 1;
      }
      assert markers[..i] == markers;
    }

    /** `SaveState`: the session stores every marker's dictionary. */
    method SaveState()
      modifies this`sessionState
      ensures sessionState == Some(ToDicts(markers))
    {
      sessionState := Some(ToDicts(markers));
    }

    /** `CreateMarker`: appends one marker built from the arguments and the panel's fall-backs. */
    method CreateMarker(a: MarkerArgs)
      requires Valid() && ValidArgs(a)
      modifies this`markers
      ensures markers == old(markers) + [NewMarker(a, Defaults())]
      ensures AtMostOneTarget(old(markers)) && !a.isTarget ==> AtMostOneTarget(markers)
    {
      var m := NewMarker(a, Defaults());
      TargetCountAppend(markers, [m]);
      assert [m][..0] == [];
      markers := markers + [m];
    }

    /** `__set_marker_as_target(idx)`. */
    method SetTarget(idx: nat)
      requires idx < |markers|
      modifies this`markers
      ensures markers == MarkTarget(old(markers), idx)
      ensures AtMostOneTarget(old(markers)) ==> FirstTarget(markers) == Some(idx) && TargetCount(markers) == 1
    {
      if AtMostOneTarget(markers) {
        MarkTargetSpec(markers, idx);
      }
      var prev := FindTargetMarker();
      if prev == Some(idx) {
        return;
      }
      if prev.Some? {
        markers := markers[prev.value := markers[prev.value].(isTarget := false)];
      }
      markers := markers[idx := markers[idx].(isTarget := true)];
    }

    /**
     * The pattern both loaders follow: `CreateMarker(..., is_target=False)`, then
     * `__set_marker_as_target` on the new marker when the record was a target.
     */
    method AddLoadedMarker(a: MarkerArgs, target: bool)
      requires Valid() && ValidArgs(a)
      modifies this`markers
      ensures markers == AddLoaded(old(markers), a, target, Defaults())
    {
      CreateMarker(a);
      if target {
        SetTarget(|markers| - 1);
      }
    }

    /** `__delete_all_markers`: deletes from the last marker down. */
    method DeleteAllMarkers()
      modifies this`markers
      ensures markers == [] && FirstTarget(markers) == None
    {
      var i := |markers|;
      while i > 0
        invariant 0 <= i <= |old(markers)|
        invariant markers == old(markers)[..i]
      {
        i := i - 1;
        markers := markers[..i];
      }
    }

    /** `__delete_multiple_markers(indexes)`: deletes the listed positions, highest first. */
    method DeleteMultipleMarkers(idxs: seq<int>)
      requires AscendingIndexes(idxs, |markers|)
      modifies this`markers
      ensures markers == Without(old(markers), Elems(idxs))
      ensures |markers| == |old(markers)| - |idxs|
      ensures AtMostOneTarget(old(markers)) ==> AtMostOneTarget(markers)
      ensures (AtMostOneTarget(old(markers)) && FirstTarget(old(markers)).Some?
               && FirstTarget(old(markers)).value in Elems(idxs)) ==> FirstTarget(markers).None?
    {
      var k := |idxs|;
      assert Elems(idxs[k..]) == {};
      WithoutBeyond(markers, {});
      while k > 0
        invariant 0 <= k <= |idxs|
        invariant markers == Without(old(markers), Elems(idxs[k..]))
      {
        k := k - 1;
        var i := idxs[k];
        assert idxs[k..] == [i] + idxs[k + 1..];
        assert Elems(idxs[k..]) == Elems(idxs[k + 1..]) + {i};
        WithoutDeleteAt(old(markers), Elems(idxs[k + 1..]), i);
        markers := markers[..i] + markers[i + 1..];
      }
      assert idxs[0..] == idxs;
      WithoutLength(old(markers), idxs);
      if AtMostOneTarget(old(markers)) {
        WithoutTargets(old(markers), Elems(idxs));
      }
    }

    /** `LoadState`: recreates the session's markers after the present ones. */
    method LoadState()
      requires Valid() && (sessionState.Some? ==> ValidState(sessionState.value))
      modifies this`markers
      ensures sessionState.None? ==> markers == old(markers)
      ensures sessionState.Some? ==> markers == LoadAll(old(markers), sessionState.value, Defaults())
      ensures AtMostOneTarget(old(markers)) ==> AtMostOneTarget(markers)
    {
      if sessionState.None? {
        return;
      }
      if AtMostOneTarget(markers) {
        LoadAllKeeps(markers, sessionState.value, Defaults());
      }
      LoadDicts(sessionState.value);
    }

    /** The loop of `LoadState`: one `CreateMarker` per stored dictionary, in order. */
    method LoadDicts(state: seq<MarkerDict>)
      requires Valid() && ValidState(state)
      modifies this`markers
      ensures markers == LoadAll(old(markers), state, Defaults())
    {
      var d := Defaults();
      var i := 0;
      while i < |state|
        invariant 0 <= i <= |state| && d == Defaults()
        invariant LoadAll(markers, state[i..], d) == LoadAll(old(markers), state, d)
      {
        ValidStateSuffix(state, i);
        LoadAllStep(markers, state[i..], d);
        assert state[i..][0] == state[i] && state[i..][1..] == state[i + 1..];
        AddLoadedMarker(DictArgs(state[i]), state[i].isTarget);
        i := i + 1;
      }
    }

    /**
     * `OnLoadMarkers`: appends the markers of the chosen file's lines, each read by
     * `reader`; the source reads with `AsWritten`.
     */
    method OnLoadMarkers(file: Option<seq<string>>, reader: Reader) returns (outcome: LoadOutcome)
      requires Valid()
      modifies this`markers, this`sessionState
      ensures file.None? ==> outcome == Cancelled && markers == old(markers)
      ensures file.Some? ==> (markers, outcome) == LoadFile(old(markers), file.value, Defaults(), reader)
      ensures outcome == Loaded || outcome == InvalidFile ==> sessionState == Some(ToDicts(markers))
      ensures outcome == Cancelled || outcome == UnknownVersion ==> sessionState == old(sessionState)
      ensures AtMostOneTarget(old(markers)) ==> AtMostOneTarget(markers)
    {
      if file.None? {
        return Cancelled;
      }
      var lines := file.value;
      if AtMostOneTarget(markers) {
        LoadFileKeeps(markers, lines, Defaults(), reader);
      }
      var version := FileVersion(if lines == [] then "" else lines[0]);
      if version.Err? {
        SaveState();
        return InvalidFile;
      }
      if version.value != CurrentVersion {
        return UnknownVersion;
      }
      AcceptedFile(markers, lines, Defaults(), reader);
      var ok := LoadDataLines(DataLines(lines), reader);
      outcome := if ok then Loaded else InvalidFile;
      SaveState();
    }

    /** The data-line loop of `OnLoadMarkers`: stops at the first line that cannot be read. */
    method LoadDataLines(data: seq<string>, reader: Reader) returns (ok: bool)
      requires Valid()
      modifies this`markers
      ensures (markers, ok) == LoadLines(old(markers), data, Defaults(), reader)
    {
      var d := Defaults();
      ok := true;
      var i := 0;
      while i < |data|
        invariant 0 <= i <= |data| && d == Defaults()
        invariant LoadLines(markers, data[i..], d, reader) == LoadLines(old(markers), data, d, reader)
      {
        LoadLinesStep(markers, data[i..], d, reader);
        assert data[i..][0] == data[i] && data[i..][1..] == data[i + 1..];
        var read := FromString(reader, DefaultMarker, data[i]);
        if read.Err? {
          return false;
        }
        AddLoadedMarker(FileArgs(read.value), read.value.isTarget);
        i := i + 1;
      }
    }

    /** `OnSaveMarkers`: the lines written to the chosen file, `None` when the dialog is cancelled. */
    method OnSaveMarkers(toWorld: WorldConversion, chosen: bool) returns (written: Option<seq<string>>)
      ensures !chosen ==> written.None?
      ensures chosen ==> written == Some(SaveLines(markers, toWorld))
    {
      if !chosen {
        return None;
      }
      var lines := WriteMarkerLines(markers, toWorld);
      return Some([MagicLine(), HeaderLine()] + lines);
    }

    /** `OnCreateMarker`: one marker from the panel's current values. */
    method OnCreateMarker()
      requires Valid()
      modifies this`markers, this`sessionState
      ensures markers == old(markers) + [NewMarker(NoArgs, Defaults())]
      ensures sessionState == Some(ToDicts(markers))
      ensures AtMostOneTarget(old(markers)) ==> AtMostOneTarget(markers)
    {
      CreateMarker(NoArgs);
      SaveState();
    }

    /** `OnDeleteAllMarkers`: asks first when called from the button, then empties the list. */
    method OnDeleteAllMarkers(fromButton: bool, confirmed: bool)
      modifies this`markers, this`sessionState
      ensures fromButton && !confirmed ==> markers == old(markers) && sessionState == old(sessionState)
      ensures !fromButton || confirmed ==> markers == [] && sessionState == Some([])
      ensures !fromButton || confirmed ==> FirstTarget(markers) == None
    {
      if fromButton && !confirmed {
        return;
      }
      markers := [];
      SaveState();
    }

    /** `OnDeleteMultipleMarkers`: deletes the selected rows, or the marker with a fiducial's label. */
    method OnDeleteMultipleMarkers(req: DeleteRequest, fiducialLabels: seq<string>)
      requires req.Selection? ==> AscendingIndexes(req.indexes, |markers|)
      modifies this`markers, this`sessionState
      ensures var idxs := RequestedIndexes(old(markers), req, fiducialLabels);
        && markers == Without(old(markers), Elems(idxs))
        && |markers| == |old(markers)| - |idxs|
        && (idxs == [] ==> sessionState == old(sessionState))
        && (idxs != [] ==> sessionState == Some(ToDicts(markers)))
      ensures AtMostOneTarget(old(markers)) ==> AtMostOneTarget(markers)
      ensures (AtMostOneTarget(old(markers)) && FirstTarget(old(markers)).Some? &&
               FirstTarget(old(markers)).value in Elems(RequestedIndexes(old(markers), req, fiducialLabels)))
              ==> FirstTarget(markers).None?
    {
      var indexes: seq<int> := [];
      if req.Selection? {
        indexes := req.indexes;
      } else if req.labelText != "" && req.labelText in fiducialLabels {
        var found := LastMarkerWithLabel(req.labelText);
        if found.Some? {
          indexes := [found.value];
        }
      }
      if indexes == [] {
        WithoutBeyond(markers, Elems(indexes));
        return;
      }
      DeleteMultipleMarkers(indexes);
      SaveState();
    }

    /** `OnMenuSetTarget`: the focused row becomes the target; -1 means no row is focused. */
    method OnMenuSetTarget(focused: int)
      requires focused == -1 || 0 <= focused < |markers|
      modifies this`markers, this`sessionState
      ensures focused == -1 ==> markers == old(markers) && sessionState == old(sessionState)
      ensures focused != -1 ==> markers == MarkTarget(old(markers), focused) && sessionState == Some(ToDicts(markers))
      ensures focused != -1 && AtMostOneTarget(old(markers)) ==> FirstTarget(markers) == Some(focused)
    {
      if focused == -1 {
        return;
      }
      SetTarget(focused);
      SaveState();
    }

    /**
     * `OnMenuRemoveTarget`: clears the focused row's target flag. The row is not checked
     * against -1, so with no focused row Python's `markers[-1]` is the last marker.
     */
    method OnMenuRemoveTarget(focused: int)
      requires -1 <= focused < |markers| && |markers| > 0
      modifies this`markers, this`sessionState
      ensures var i := if focused == -1 then |old(markers)| - 1 else focused;
        && markers == old(markers)[i := old(markers)[i].(isTarget := false)]
        && (AtMostOneTarget(old(markers)) ==> AtMostOneTarget(markers))
        && (AtMostOneTarget(old(markers)) && old(markers)[i].isTarget ==> FirstTarget(markers).None?)
      ensures sessionState == Some(ToDicts(markers))
    {
      var i := if focused == -1 then |markers| - 1 else focused;
      if AtMostOneTarget(markers) {
        ClearTargetSpec(markers, i);
      }
      markers := markers[i := markers[i].(isTarget := false)];
      SaveState();
    }

    /** `SetMarkers`: replaces every marker by one per pose dictionary. */
    method SetMarkers(poses: seq<PoseDict>)
      requires Valid() && forall k :: 0 <= k < |poses| ==> ValidArgs(PoseArgs(poses[k]))
      modifies this`markers, this`sessionState
      ensures |markers| == |poses|
      ensures forall k :: 0 <= k < |poses| ==> markers[k] == NewMarker(PoseArgs(poses[k]), Defaults())
      ensures FirstTarget(markers).None?
      ensures sessionState == Some(ToDicts(markers))
    {
      DeleteAllMarkers();
      CreatePoseMarkers(poses);
      SaveState();
    }

    /** The loop of `SetMarkers`: one `CreateMarker` per pose, in order, none of them a target. */
    method CreatePoseMarkers(poses: seq<PoseDict>)
      requires Valid() && forall k :: 0 <= k < |poses| ==> ValidArgs(PoseArgs(poses[k]))
      modifies this`markers
      ensures |markers| == |old(markers)| + |poses|
      ensures forall k :: 0 <= k < |old(markers)| ==> markers[k] == old(markers)[k]
      ensures forall k :: 0 <= k < |poses| ==>
        markers[|old(markers)| + k] == NewMarker(PoseArgs(poses[k]), Defaults()) && !markers[|old(markers)| + k].isTarget
    {
      var d := Defaults();
      var n := |markers|;
      var i := 0;
      while i < |poses|
        invariant 0 <= i <= |poses| && |markers| == n + i && d == Defaults()
        invariant forall k :: 0 <= k < n ==> markers[k] == old(markers)[k]
        invariant forall k :: 0 <= k < i ==> markers[n + k] == NewMarker(PoseArgs(poses[k]), d) && !markers[n + k].isTarget
      {
        CreateMarker(PoseArgs(poses[i]));
        i := i + 1;
      }
    }

    /** `UpdateCurrentCoord`: the tracked pose; without a tracked object the orientation is unset. */
    method UpdateCurrentCoord(position: seq<Scalar>, trackObject: bool)
      requires |position| == 6
      modifies this`currentPosition, this`currentOrientation
      ensures currentPosition == position[..3]
      ensures currentOrientation == if trackObject then position[3..] else NoOrientation
    {
      currentPosition := position[..3];
      currentOrientation := position[3..];
      if !trackObject {
        currentOrientation := NoOrientation;
      }
    }

    /** `UpdateNavigationStatus`: leaving navigation unsets the orientation. */
    method UpdateNavigationStatus(status: bool)
      modifies this`navStatus, this`currentOrientation
      ensures navStatus == status
      ensures currentOrientation == if status then old(currentOrientation) else NoOrientation
    {
      if !status {
        navStatus := false;
        currentOrientation := NoOrientation;
      } else {
        navStatus := true;
      }
    }

    /** `UpdateSeedCoordinates`: the seed is the world-space offset. */
    method UpdateSeedCoordinates(offsetWorld: seq<Scalar>)
      requires |offsetWorld| == 3
      modifies this`currentSeed
      ensures currentSeed == offsetWorld
    {
      currentSeed := offsetWorld;
    }

    /** `OnChangeCurrentSession`. */
    method OnChangeCurrentSession(id: int)
      modifies this`currentSession
      ensures currentSession == id
    {
      currentSession := id;
    }
  }
}
