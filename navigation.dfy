/**
 * Three small rules of `NeuronavigationPanel`: the first-match fiducial lookup, the
 * gate that lets only one tracker fiducial be collected at a time, and the checks
 * `OnStartNavigation` makes before navigation starts.
 *
 * The fiducial tables themselves (`IMAGE_FIDUCIALS`, `TRACKER_FIDUCIALS`) live in
 * invesalius/constants.py, which is not part of this model: a table is a parameter.
 */
module Neuronavigation {
  import opened Wrappers

  /** A value in a fiducial record: a name or label, or an index. */
  datatype AttrValue = Text(text: string) | Index(index: int)

  /** A fiducial record, a Python dictionary from attribute names to values. */
  type Fiducial = map<string, AttrValue>

  /** How the lookup fails: a `KeyError` in the comprehension, or the failed `assert`. */
  datatype LookupError = MissingKey | NotFound

  /**
   * The list comprehension of `GetFiducialByAttribute`: the records whose attribute
   * `name` equals `value`, in table order. Reading `fiducial[name]` raises `KeyError`
   * as soon as a record lacks the key, whether or not a match came before it.
   */
  function Matching(fids: seq<Fiducial>, name: string, value: AttrValue): (r: Result<seq<Fiducial>, LookupError>)
    ensures r.Err? <==> exists k :: 0 <= k < |fids| && name !in fids[k]
    ensures r.Err? ==> r.error == MissingKey
    ensures r.Ok? ==> forall j :: 0 <= j < |r.value| ==> r.value[j] in fids && name in r.value[j] && r.value[j][name] == value
    ensures r.Ok? ==> (r.value == [] <==> forall k :: 0 <= k < |fids| ==> fids[k][name] != value)
  {
    if fids == [] then Ok([])
    else if name !in fids[0] then Err(MissingKey)
    else match Matching(fids[1..], name, value)
      case Err(e) =>
        assert forall k :: 0 < k < |fids| ==> fids[k] == fids[1..][k - 1];
        Err(e)
      case Ok(rest) =>
        assert forall k :: 0 < k < |fids| ==> fids[k] == fids[1..][k - 1];
        Ok(if fids[0][name] == value then [fids[0]] + rest else rest)
  }

  /** `GetFiducialByAttribute`: the first record of the comprehension; `NotFound` where the `assert` fails. */
  function GetFiducialByAttribute(fids: seq<Fiducial>, name: string, value: AttrValue): (r: Result<Fiducial, LookupError>)
    ensures r.Ok? ==> r.value in fids && name in r.value && r.value[name] == value
  {
    match Matching(fids, name, value)
    case Err(e) => Err(e)
    case Ok(found) => if found == [] then Err(NotFound) else Ok(found[0])
  }

  /** When every record has the attribute, the lookup returns the record at the smallest position that matches. */
  lemma {:induction false} FirstMatch(fids: seq<Fiducial>, name: string, value: AttrValue, i: nat)
    requires forall k :: 0 <= k < |fids| ==> name in fids[k]
    requires i < |fids| && fids[i][name] == value
    requires forall k :: 0 <= k < i ==> fids[k][name] != value
    ensures GetFiducialByAttribute(fids, name, value) == Ok(fids[i])
  {
    if i > 0 {
      FirstMatch(fids[1..], name, value, i - 1);
    }
  }

  /** When every record has the attribute and none matches, the `assert` fails. */
  lemma NoMatch(fids: seq<Fiducial>, name: string, value: AttrValue)
    requires forall k :: 0 <= k < |fids| ==> name in fids[k] && fids[k][name] != value
    ensures GetFiducialByAttribute(fids, name, value) == Err(NotFound)
  {
  }

  /** A record without the attribute makes the lookup fail with `KeyError`, even after a match. */
  lemma MissingKeyFails(fids: seq<Fiducial>, name: string, value: AttrValue, k: nat)
    requires k < |fids| && name !in fids[k]
    ensures GetFiducialByAttribute(fids, name, value) == Err(MissingKey)
  {
  }

  /**
   * The tracker-fiducial buttons of `NeuronavigationPanel` and the field
   * `tracker_fiducial_being_set`: the fiducial whose button is down, waiting for the
   * pedal or a second press to record it.
   */
  class TrackerFiducialGate {
    /** `tracker_fiducial_being_set`. */
    var beingSet: Option<nat>
    /** The value of each tracker-fiducial toggle button. */
    var pressed: seq<bool>
    /** The fiducials whose 'Set tracker fiducial' message went out, in order. */
    var recorded: seq<nat>

    /** A button is down only for the fiducial being set, which names a button. */
    predicate Valid()
      reads this
    {
      && (beingSet.Some? ==> beingSet.value < |pressed|)
      && (forall k :: 0 <= k < |pressed| && pressed[k] ==> beingSet == Some(k))
    }

    /** The panel after `__init__`: no button down, nothing being set. */
    constructor(count: nat)
      ensures Valid()
      ensures beingSet == None && pressed == seq(count, k => false) && recorded == []
    {
      beingSet := None;
      pressed := seq(count, k => false);
      recorded := [];
    }

    /** Under the invariant at most one tracker-fiducial button is down. */
    lemma AtMostOnePressed(j: nat, k: nat)
      requires Valid() && j < |pressed| && k < |pressed| && pressed[j] && pressed[k]
      ensures j == k
    {
    }

    /**
     * `set_fiducial_callback(state)` for fiducial `n`, as the pedal or a second press
     * calls it: with `state` true it records `n`, releases its button and clears the
     * field; with `state` false it does nothing.
     */
    method SetFiducialCallback(n: nat, state: bool)
      requires Valid() && n < |pressed|
      requires beingSet == None || beingSet == Some(n)
      modifies this
      ensures Valid()
      ensures state ==> recorded == old(recorded) + [n] && pressed == old(pressed)[n := false] && beingSet == None
      ensures !state ==> recorded == old(recorded) && pressed == old(pressed) && beingSet == old(beingSet)
    {
      if state {
        recorded := recorded + [n];
        pressed := pressed[n := false];
        beingSet := None;
      }
    }

    /**
     * `OnTrackerFiducials(n)` after a click on button `n` (the click flips the button
     * before the handler runs). While another fiducial is being set the click is undone
     * and nothing changes; a button pressed down starts setting `n`; a button released
     * records `n`.
     */
    method OnTrackerFiducials(n: nat)
      requires Valid() && n < |pressed|
      modifies this
      ensures Valid()
      ensures old(beingSet).Some? && old(beingSet) != Some(n) ==>
        pressed == old(pressed) && beingSet == old(beingSet) && recorded == old(recorded)
      ensures (old(beingSet) == None || old(beingSet) == Some(n)) && !old(pressed)[n] ==>
        pressed == old(pressed)[n := true] && beingSet == Some(n) && recorded == old(recorded)
      ensures (old(beingSet) == None || old(beingSet) == Some(n)) && old(pressed)[n] ==>
        pressed == old(pressed)[n := false] && beingSet == None && recorded == old(recorded) + [n]
    {
      pressed := pressed[n := !pressed[n]];
      if beingSet.Some? && beingSet.value != n {
        pressed := pressed[n := false];
        return;
      }
      if pressed[n] {
        beingSet := Some(n);
      } else {
        SetFiducialCallback(n, true);
      }
    }
  }

  /** The work `OnStartNavigation` hands to the navigation, tracker and ICP objects, in order. */
  datatype Step = EstimateTransform | CheckFre | RegisterIcp | StartNavigation

  /** How `OnStartNavigation` ends. */
  datatype StartOutcome =
    | FiducialsIncomplete    // "Invalid fiducials, select all coordinates."
    | TrackerNotInitialised  // the tracker warning dialog
    | Started(steps: seq<Step>, freWarning: bool)

  /**
   * `OnStartNavigation`: the fiducial check comes first, then the tracker check; past
   * both the transformation is estimated and the registration error checked (a bad one
   * only prints a warning), ICP registration runs, the error is checked once more when
   * ICP is in use, and navigation starts. `freOk` is the first error check's verdict,
   * `useIcp` the ICP flag after registration.
   */
  function OnStartNavigation(trackerFiducialsSet: bool, imageFiducialsSet: bool, trackerInitialised: bool,
                             freOk: bool, useIcp: bool): (r: StartOutcome)
    ensures r == FiducialsIncomplete <==> !trackerFiducialsSet || !imageFiducialsSet
    ensures r == TrackerNotInitialised <==> trackerFiducialsSet && imageFiducialsSet && !trackerInitialised
    ensures r.Started? <==> trackerFiducialsSet && imageFiducialsSet && trackerInitialised
    ensures r.Started? ==> r.freWarning == !freOk
    ensures r.Started? ==> |r.steps| >= 4 && r.steps[0] == EstimateTransform && r.steps[1] == CheckFre
    ensures r.Started? ==> (r.steps[|r.steps| - 1] == StartNavigation
                            && forall j :: 0 <= j < |r.steps| - 1 ==> r.steps[j] != StartNavigation)
  {
    if !trackerFiducialsSet || !imageFiducialsSet then FiducialsIncomplete
    else if !trackerInitialised then TrackerNotInitialised
    else
      Started([EstimateTransform, CheckFre, RegisterIcp] + (if useIcp then [CheckFre] else []) + [StartNavigation], !freOk)
  }

  /**
   * A bad registration error never blocks the start: whether navigation starts, and
   * the steps it takes, do not depend on the error check. The error is checked twice
   * exactly when ICP is in use.
   */
  lemma FreDoesNotBlock(trackerFiducialsSet: bool, imageFiducialsSet: bool, trackerInitialised: bool, useIcp: bool)
    ensures var good := OnStartNavigation(trackerFiducialsSet, imageFiducialsSet, trackerInitialised, true, useIcp);
      var bad := OnStartNavigation(trackerFiducialsSet, imageFiducialsSet, trackerInitialised, false, useIcp);
      && good.Started? == bad.Started?
      && (good.Started? ==> good.steps == bad.steps && multiset(good.steps)[CheckFre] == if useIcp then 2 else 1)
  {
    var r := OnStartNavigation(trackerFiducialsSet, imageFiducialsSet, trackerInitialised, true, useIcp);
    if r.Started? {
      var icp := if useIcp then [CheckFre] else [];
      assert r.steps == [EstimateTransform] + [CheckFre] + [RegisterIcp] + icp + [StartNavigation];
    }
  }
}
