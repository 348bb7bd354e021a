/**
 * How `MarkersPanel` builds markers: `CreateMarker` with its fall-back defaults,
 * and the two loaders that go through it, `OnLoadMarkers` (a marker file) and
 * `LoadState` (the session's list of marker dictionaries). Both create each
 * marker with `is_target=False` and only then make it the target, which is why
 * the at-most-one-target invariant survives loading.
 */
module MarkerLoad {
  import opened Wrappers
  import opened Text
  import opened Markers
  import opened MarkerCodec
  import opened MarkerList
  import opened Seqs

  /**
   * The keyword arguments of `CreateMarker`. An empty list, an unset size or a
   * missing session stands for an argument left at `None`.
   */
  datatype MarkerArgs = MarkerArgs(
    position: seq<Scalar>,
    orientation: seq<Scalar>,
    colour: seq<Scalar>,
    size: Scalar,
    labelText: string,
    isTarget: bool,
    seed: seq<Scalar>,
    sessionId: Option<int>,
    isBrainTarget: bool)

  /** `CreateMarker()` with every argument at its default. */
  const NoArgs: MarkerArgs := MarkerArgs([], [], [], Unset, "*", false, [], None, false)

  /** The panel values `CreateMarker` falls back on. */
  datatype Defaults = Defaults(
    position: seq<Scalar>,
    orientation: seq<Scalar>,
    colour: seq<Scalar>,
    size: Scalar,
    seed: seq<Scalar>,
    session: int)

  predicate ValidDefaults(d: Defaults)
  {
    |d.position| == 3 && |d.orientation| == 3 && |d.colour| == 3 && |d.seed| == 3
  }

  /** A list the three-way unpacking setters accept: absent (falsy), or three values. */
  predicate ListArg(xs: seq<Scalar>)
  {
    xs == [] || |xs| == 3
  }

  predicate ValidArgs(a: MarkerArgs)
  {
    ListArg(a.position) && ListArg(a.orientation) && ListArg(a.colour) && ListArg(a.seed)
  }

  /** The colour a brain-target marker is forced to. */
  const BrainTargetColour: seq<Scalar> := [Num(0), Num(0), Num(1)]

  /** Python's `given or fallback` for a list argument. */
  function OrList(given: seq<Scalar>, fallback: seq<Scalar>): seq<Scalar>
  {
    if given == [] then fallback else given
  }

  /** The marker `CreateMarker` appends, field by field as its assignments fill it. */
  function NewMarker(a: MarkerArgs, d: Defaults): Marker
    requires ValidArgs(a) && ValidDefaults(d)
  {
    var p := OrList(a.position, d.position);
    var o := OrList(a.orientation, d.orientation);
    var c := if a.isBrainTarget then BrainTargetColour else OrList(a.colour, d.colour);
    var s := OrList(a.seed, d.seed);
    var session := if a.sessionId.Some? && a.sessionId.value != 0 then a.sessionId.value else d.session;
    Marker(p[0], p[1], p[2], o[0], o[1], o[2], c[0], c[1], c[2],
           if Truthy(a.size) then a.size else d.size,
           a.labelText, s[0], s[1], s[2], a.isTarget, session, a.isBrainTarget)
  }

  /**
   * Each argument left out (or falsy) takes the panel's current value, every other
   * argument is taken as given, and a brain target is always blue.
   */
  lemma NewMarkerSpec(a: MarkerArgs, d: Defaults)
    requires ValidArgs(a) && ValidDefaults(d)
    ensures var m := NewMarker(a, d);
      && (a.position != [] ==> m.Position() == a.position)
      && (a.position == [] ==> m.Position() == d.position)
      && (a.orientation != [] ==> m.Orientation() == a.orientation)
      && (a.orientation == [] ==> m.Orientation() == d.orientation)
      && (a.seed != [] ==> m.Seed() == a.seed)
      && (a.seed == [] ==> m.Seed() == d.seed)
      && (a.isBrainTarget ==> m.Colour() == BrainTargetColour)
      && (!a.isBrainTarget && a.colour != [] ==> m.Colour() == a.colour)
      && (!a.isBrainTarget && a.colour == [] ==> m.Colour() == d.colour)
      && (Truthy(a.size) ==> m.size == a.size)
      && (!Truthy(a.size) ==> m.size == d.size)
      && (a.sessionId.Some? && a.sessionId.value != 0 ==> m.sessionId == a.sessionId.value)
      && (a.sessionId.None? || a.sessionId.value == 0 ==> m.sessionId == d.session)
      && m.labelText == a.labelText && m.isTarget == a.isTarget && m.isBrainTarget == a.isBrainTarget
  {
    var p := OrList(a.position, d.position);
    var o := OrList(a.orientation, d.orientation);
    var c := if a.isBrainTarget then BrainTargetColour else OrList(a.colour, d.colour);
    var s := OrList(a.seed, d.seed);
    assert [p[0], p[1], p[2]] == p && [o[0], o[1], o[2]] == o;
    assert [c[0], c[1], c[2]] == c && [s[0], s[1], s[2]] == s;
  }

  /** The arguments `OnLoadMarkers` passes for a marker read from a file line. */
  function FileArgs(m: Marker): MarkerArgs
  {
    MarkerArgs(m.Position(), m.Orientation(), m.Colour(), m.size, m.labelText, false,
               m.Seed(), Some(m.sessionId), m.isBrainTarget)
  }

  /** The arguments `LoadState` passes for a session dictionary; `is_brain_target` is not among them. */
  function DictArgs(d: MarkerDict): MarkerArgs
  {
    MarkerArgs(d.position, d.orientation, d.colour, d.size, d.labelText, false,
               d.seed, Some(d.sessionId), false)
  }

  /** A marker that comes back unchanged through `CreateMarker`'s fall-backs. */
  predicate KeepsValues(m: Marker)
  {
    Truthy(m.size) && m.sessionId != 0
  }

  /**
   * A marker `CreateMarker` recreates from its own fields: its size and session survive
   * the fall-backs, and a brain target already has the colour it is forced to.
   */
  predicate Recreatable(m: Marker)
  {
    KeepsValues(m) && (m.isBrainTarget ==> m.Colour() == BrainTargetColour)
  }

  /** A marker a file round trip restores exactly (target flag aside). */
  predicate Reloadable(m: Marker)
  {
    Serializable(m) && Recreatable(m)
  }

  /** A marker read from a file is recreated as itself, not yet a target. */
  lemma FileArgsRestore(m: Marker, d: Defaults)
    requires ValidDefaults(d) && Recreatable(m)
    ensures NewMarker(FileArgs(m), d) == m.(isTarget := false)
  {
    NewMarkerSpec(FileArgs(m), d);
    var r := NewMarker(FileArgs(m), d);
    assert r.Position() == m.Position() && r.Orientation() == m.Orientation();
    assert r.Colour() == m.Colour() && r.Seed() == m.Seed();
  }

  /** A marker saved to the session comes back as itself, not a target, and no longer a brain target. */
  lemma DictArgsRestore(m: Marker, d: Defaults)
    requires ValidDefaults(d) && KeepsValues(m)
    ensures NewMarker(DictArgs(ToDict(m)), d) == m.(isTarget := false, isBrainTarget := false)
  {
    NewMarkerSpec(DictArgs(ToDict(m)), d);
    var r := NewMarker(DictArgs(ToDict(m)), d);
    assert r.Position() == m.Position() && r.Orientation() == m.Orientation();
    assert r.Colour() == m.Colour() && r.Seed() == m.Seed();
  }

  /** Every marker with its target flag cleared. */
  function ClearTargets(ms: seq<Marker>): (r: seq<Marker>)
    ensures |r| == |ms|
  {
    seq(|ms|, j requires 0 <= j < |ms| => ms[j].(isTarget := false))
  }

  /** One loaded record: `CreateMarker(..., is_target=False)`, then `__set_marker_as_target` on it when it was a target. */
  function AddLoaded(ms: seq<Marker>, a: MarkerArgs, target: bool, d: Defaults): (r: seq<Marker>)
    requires ValidArgs(a) && ValidDefaults(d)
    ensures |r| == |ms| + 1
  {
    var grown := ms + [NewMarker(a, d)];
    if target then MarkTarget(grown, |ms|) else grown
  }

  /** Appending a marker created as a non-target and then perhaps marked keeps the invariant. */
  lemma AddLoadedKeeps(ms: seq<Marker>, a: MarkerArgs, target: bool, d: Defaults)
    requires ValidArgs(a) && ValidDefaults(d) && !a.isTarget && AtMostOneTarget(ms)
    ensures AtMostOneTarget(AddLoaded(ms, a, target, d))
  {
    var grown := ms + [NewMarker(a, d)];
    TargetCountAppend(ms, [NewMarker(a, d)]);
    assert [NewMarker(a, d)][..0] == [];
    if target {
      MarkTargetSpec(grown, |ms|);
    }
  }

  /**
   * Loading record `rec` appends it; when it is a target, the earlier target (the
   * invariant allows one) loses its flag.
   */
  lemma AddLoadedRestores(ms: seq<Marker>, a: MarkerArgs, rec: Marker, d: Defaults)
    requires ValidArgs(a) && ValidDefaults(d) && AtMostOneTarget(ms)
    requires NewMarker(a, d) == rec.(isTarget := false)
    ensures AddLoaded(ms, a, rec.isTarget, d) == (if rec.isTarget then ClearTargets(ms) else ms) + [rec]
  {
    var created := rec.(isTarget := false);
    var grown := ms + [created];
    if rec.isTarget {
      TargetCountAppend(ms, [created]);
      assert [created][..0] == [];
      MarkTargetSpec(grown, |ms|);
      var r := MarkTarget(grown, |ms|);
      assert forall j :: 0 <= j < |ms| ==> r[j] == ClearTargets(ms)[j];
      assert r == ClearTargets(ms) + [rec];
    } else {
      assert created == rec;
    }
  }

  lemma {:induction false} ClearedCount(ms: seq<Marker>)
    ensures TargetCount(ClearTargets(ms)) == 0
  {
    NoTargetCount(ClearTargets(ms));
  }

  /** Unflagging a list that ends in a non-target unflags the rest. */
  lemma ClearTargetsSnoc(ms: seq<Marker>, m: Marker)
    requires !m.isTarget
    ensures ClearTargets(ms + [m]) == ClearTargets(ms) + [m]
  {
    assert m.(isTarget := false) == m;
  }

  /** `recs` appended after `ms`; a target among them takes the flag from the markers of `ms`. */
  function Restored(ms: seq<Marker>, recs: seq<Marker>): seq<Marker>
  {
    (if TargetCount(recs) > 0 then ClearTargets(ms) else ms) + recs
  }

  /** The bookkeeping of one step of a loader that restores `[rec] + rest` after `ms`. */
  lemma RestoreStep(ms: seq<Marker>, rec: Marker, rest: seq<Marker>)
    requires AtMostOneTarget(ms) && AtMostOneTarget([rec] + rest)
    ensures var ms1 := (if rec.isTarget then ClearTargets(ms) else ms) + [rec];
      && AtMostOneTarget(ms1) && AtMostOneTarget(rest)
      && Restored(ms1, rest) == Restored(ms, [rec] + rest)
  {
    var cleared := ClearTargets(ms);
    TargetCountAppend([rec], rest);
    assert [rec][..0] == [];
    ClearedCount(ms);
    TargetCountAppend(if rec.isTarget then cleared else ms, [rec]);
    if rec.isTarget {
      assert TargetCount(rest) == 0;
      AppendAssoc(cleared, [rec], rest);
    } else if TargetCount(rest) > 0 {
      ClearTargetsSnoc(ms, rec);
      AppendAssoc(cleared, [rec], rest);
    } else {
      AppendAssoc(ms, [rec], rest);
    }
  }

  /**
   * The data-line loop of `OnLoadMarkers`: each line is read into a fresh marker by
   * `reader` (`AsWritten` is the source's `from_string`) and loaded; the first line that fails to parse ends the loop, keeping what was loaded
   * before it. The flag says whether every line was read.
   */
  function LoadLines(ms: seq<Marker>, lines: seq<string>, d: Defaults, reader: Reader): (seq<Marker>, bool)
    requires ValidDefaults(d)
    decreases |lines|
  {
    if lines == [] then (ms, true)
    else match ReadLine(reader, lines[0])
      case Err(_) => (ms, false)
      case Ok(m) => LoadLines(AddLoaded(ms, FileArgs(m), m.isTarget, d), lines[1..], d, reader)
  }

  /** One step of `LoadLines`: the first line is read, then either loaded or the end. */
  lemma LoadLinesStep(ms: seq<Marker>, lines: seq<string>, d: Defaults, reader: Reader)
    requires ValidDefaults(d) && lines != []
    ensures var read := ReadLine(reader, lines[0]);
      && (read.Err? ==> LoadLines(ms, lines, d, reader) == (ms, false))
      && (read.Ok? ==> LoadLines(ms, lines, d, reader)
                       == LoadLines(AddLoaded(ms, FileArgs(read.value), read.value.isTarget, d), lines[1..], d, reader))
  {
  }

  /** Loading lines, however far it gets, keeps the at-most-one-target invariant. */
  lemma {:induction false} LoadLinesKeeps(ms: seq<Marker>, lines: seq<string>, d: Defaults, reader: Reader)
    requires ValidDefaults(d) && AtMostOneTarget(ms)
    ensures AtMostOneTarget(LoadLines(ms, lines, d, reader).0)
    decreases |lines|
  {
    if lines != [] {
      match ReadLine(reader, lines[0])
      case Err(_) =>
      case Ok(m) =>
        AddLoadedKeeps(ms, FileArgs(m), m.isTarget, d);
        LoadLinesKeeps(AddLoaded(ms, FileArgs(m), m.isTarget, d), lines[1..], d, reader);
    }
  }

  /** What a load request ends in. */
  datatype LoadOutcome =
    | Cancelled        // no file was chosen
    | Loaded           // every line was read
    | UnknownVersion   // the magic line names another version; nothing is loaded
    | InvalidFile      // the magic line is wrong or a line failed to parse

  /**
   * `OnLoadMarkers` on the lines of the chosen file: the magic line is checked, the
   * header line skipped, and the data lines loaded.
   */
  function LoadFile(ms: seq<Marker>, file: seq<string>, d: Defaults, reader: Reader): (r: (seq<Marker>, LoadOutcome))
    requires ValidDefaults(d)
    ensures r.1 != Cancelled
    ensures r.1 == UnknownVersion ==> r.0 == ms
  {
    var first := if file == [] then "" else file[0];
    match FileVersion(first)
    case Err(_) => (ms, InvalidFile)
    case Ok(v) =>
      if v != CurrentVersion then (ms, UnknownVersion)
      else
        var (loaded, ok) := LoadLines(ms, DataLines(file), d, reader);
        (loaded, if ok then Loaded else InvalidFile)
  }

  /** Loading a file, whatever it holds, keeps the at-most-one-target invariant. */
  lemma LoadFileKeeps(ms: seq<Marker>, file: seq<string>, d: Defaults, reader: Reader)
    requires ValidDefaults(d) && AtMostOneTarget(ms)
    ensures AtMostOneTarget(LoadFile(ms, file, d, reader).0)
  {
    LoadLinesKeeps(ms, DataLines(file), d, reader);
  }

  /** The data lines of a file: everything after the magic and header lines. */
  function DataLines(file: seq<string>): seq<string>
  {
    if |file| >= 2 then file[2..] else []
  }

  /** A file with an accepted magic line loads its data lines. */
  lemma AcceptedFile(ms: seq<Marker>, file: seq<string>, d: Defaults, reader: Reader)
    requires ValidDefaults(d) && |file| >= 1 && FileVersion(file[0]) == Ok(CurrentVersion)
    ensures var (loaded, ok) := LoadLines(ms, DataLines(file), d, reader);
      LoadFile(ms, file, d, reader) == (loaded, if ok then Loaded else InvalidFile)
  {
  }

  /** A file whose magic line announces another version loads nothing. */
  lemma OtherVersionLoadsNothing(ms: seq<Marker>, file: seq<string>, d: Defaults, reader: Reader, v: int)
    requires ValidDefaults(d) && |file| >= 1 && v != CurrentVersion
    requires file[0] == MagicString + ShowInt(v)
    ensures LoadFile(ms, file, d, reader) == (ms, UnknownVersion)
  {
    VersionLine(v);
  }

  /** A line that reads back as a record the loader recreates exactly loads that record. */
  lemma LoadReadLine(ms: seq<Marker>, rec: Marker, lines: seq<string>, d: Defaults, reader: Reader)
    requires ValidDefaults(d) && AtMostOneTarget(ms) && Reloadable(rec)
    requires lines != [] && ReadLine(reader, lines[0]) == Ok(rec)
    ensures LoadLines(ms, lines, d, reader) == LoadLines((if rec.isTarget then ClearTargets(ms) else ms) + [rec], lines[1..], d, reader)
  {
    LoadLinesStep(ms, lines, d, reader);
    FileArgsRestore(rec, d);
    AddLoadedRestores(ms, FileArgs(rec), rec, d);
  }

  /** One step of `LoadLinesRestores`: line `i` loads record `i`, and what is left restores the rest. */
  lemma LoadLineRestores(ms: seq<Marker>, lines: seq<string>, recs: seq<Marker>, d: Defaults, reader: Reader, i: nat)
    requires ValidDefaults(d) && |lines| == |recs| && i < |recs|
    requires AtMostOneTarget(ms) && AtMostOneTarget(recs[i..])
    requires Reloadable(recs[i]) && ReadLine(reader, lines[i]) == Ok(recs[i])
    ensures var ms1 := (if recs[i].isTarget then ClearTargets(ms) else ms) + [recs[i]];
      && AtMostOneTarget(ms1) && AtMostOneTarget(recs[i + 1..])
      && Restored(ms1, recs[i + 1..]) == Restored(ms, recs[i..])
      && LoadLines(ms, lines[i..], d, reader) == LoadLines(ms1, lines[i + 1..], d, reader)
  {
    var rec, rest := recs[i], recs[i + 1..];
    assert recs[i..] == [rec] + rest;
    assert lines[i..][0] == lines[i] && lines[i..][1..] == lines[i + 1..];
    LoadReadLine(ms, rec, lines[i..], d, reader);
    RestoreStep(ms, rec, rest);
  }

  /**
   * Loading lines, from the `i`-th on, that the chosen reader reads as records the
   * loader recreates exactly restores those records after `ms`.
   */
  lemma {:induction false} LoadLinesRestores(ms: seq<Marker>, lines: seq<string>, recs: seq<Marker>, d: Defaults, reader: Reader, i: nat)
    requires ValidDefaults(d) && |lines| == |recs| && i <= |recs|
    requires AtMostOneTarget(ms) && AtMostOneTarget(recs[i..])
    requires forall k :: 0 <= k < |recs| ==>
      Reloadable(recs[k]) && ReadLine(reader, lines[k]) == Ok(recs[k])
    ensures LoadLines(ms, lines[i..], d, reader) == (Restored(ms, recs[i..]), true)
    decreases |recs| - i
  {
    if i == |recs| {
      assert lines[i..] == [] && ms + recs[i..] == ms;
    } else {
      LoadLineRestores(ms, lines, recs, d, reader, i);
      var ms1 := (if recs[i].isTarget then ClearTargets(ms) else ms) + [recs[i]];
      LoadLinesRestores(ms1, lines, recs, d, reader, i + 1);
    }
  }

  /** Every marker as the chosen reader gives it back from its line. */
  function Rereads(reader: Reader, ms: seq<Marker>): (r: seq<Marker>)
    ensures |r| == |ms|
  {
    seq(|ms|, j requires 0 <= j < |ms| => Reread(reader, ms[j]))
  }

  lemma {:induction false} TargetCountReread(reader: Reader, ms: seq<Marker>)
    ensures TargetCount(Rereads(reader, ms)) == TargetCount(ms)
  {
    if ms != [] {
      assert Rereads(reader, ms)[..|ms| - 1] == Rereads(reader, ms[..|ms| - 1]);
      TargetCountReread(reader, ms[..|ms| - 1]);
    }
  }

  /**
   * Loading a saved file appends the saved markers in order and reports success; if
   * one of them is the target, it replaces the target already in the list. With the
   * corrected reader every field is restored; with the source's reader every field
   * but `session_id`, which comes back as 1 (`from_string` leaves the default 1, and
   * `CreateMarker` keeps it because 1 is truthy).
   */
  lemma SaveThenLoad(ms: seq<Marker>, recs: seq<Marker>, toWorld: WorldConversion, d: Defaults, reader: Reader)
    requires ValidDefaults(d) && AtMostOneTarget(ms) && AtMostOneTarget(recs)
    requires forall k :: 0 <= k < |recs| ==> Reloadable(Reread(reader, recs[k]))
    ensures LoadFile(ms, SaveLines(recs, toWorld), d, reader) == (Restored(ms, Rereads(reader, recs)), Loaded)
    ensures reader == Corrected ==> LoadFile(ms, SaveLines(recs, toWorld), d, reader) == (Restored(ms, recs), Loaded)
  {
    var file := SaveLines(recs, toWorld);
    var rereads := Rereads(reader, recs);
    SavedFileVersion();
    AcceptedFile(ms, file, d, reader);
    var lines := MarkerLines(recs, toWorld);
    assert DataLines(file) == lines;
    forall k | 0 <= k < |recs|
      ensures Reloadable(rereads[k]) && ReadLine(reader, lines[k]) == Ok(rereads[k])
    {
      ReadBack(reader, recs[k], toWorld);
    }
    TargetCountReread(reader, recs);
    assert lines[0..] == lines && rereads[0..] == rereads;
    LoadLinesRestores(ms, lines, rereads, d, reader, 0);
    if reader == Corrected {
      assert rereads == recs;
    }
  }

  /** The session's marker state, as `SaveState` stores it. */
  function ToDicts(ms: seq<Marker>): (ds: seq<MarkerDict>)
    ensures |ds| == |ms|
    ensures forall j :: 0 <= j < |ms| ==> ds[j] == ToDict(ms[j])
  {
    seq(|ms|, j requires 0 <= j < |ms| => ToDict(ms[j]))
  }

  /** Session dictionaries whose lists the unpacking setters accept. */
  predicate ValidState(state: seq<MarkerDict>)
  {
    forall k :: 0 <= k < |state| ==> ValidArgs(DictArgs(state[k]))
  }

  lemma ValidStateSuffix(state: seq<MarkerDict>, i: nat)
    requires ValidState(state) && i <= |state|
    ensures ValidState(state[i..])
  {
    assert forall k :: 0 <= k < |state| - i ==> state[i..][k] == state[i + k];
  }

  /** The loop of `LoadState` over the session dictionaries. */
  function LoadAll(ms: seq<Marker>, state: seq<MarkerDict>, d: Defaults): seq<Marker>
    requires ValidDefaults(d) && ValidState(state)
    decreases |state|
  {
    if state == [] then ms
    else LoadAll(AddLoaded(ms, DictArgs(state[0]), state[0].isTarget, d), state[1..], d)
  }

  /** The first dictionary is loaded first. */
  lemma LoadAllStep(ms: seq<Marker>, state: seq<MarkerDict>, d: Defaults)
    requires ValidDefaults(d) && ValidState(state) && state != []
    ensures ValidArgs(DictArgs(state[0])) && ValidState(state[1..])
    ensures LoadAll(ms, state, d) == LoadAll(AddLoaded(ms, DictArgs(state[0]), state[0].isTarget, d), state[1..], d)
  {
  }

  /** Loading any session state keeps the invariant. */
  lemma {:induction false} LoadAllKeeps(ms: seq<Marker>, state: seq<MarkerDict>, d: Defaults)
    requires ValidDefaults(d) && ValidState(state) && AtMostOneTarget(ms)
    ensures AtMostOneTarget(LoadAll(ms, state, d))
    decreases |state|
  {
    if state != [] {
      AddLoadedKeeps(ms, DictArgs(state[0]), state[0].isTarget, d);
      LoadAllKeeps(AddLoaded(ms, DictArgs(state[0]), state[0].isTarget, d), state[1..], d);
    }
  }

  /** Each marker with the brain-target flag dropped, as the session dictionary loses it. */
  function ForgetBrainTargets(ms: seq<Marker>): (r: seq<Marker>)
    ensures |r| == |ms|
  {
    seq(|ms|, j requires 0 <= j < |ms| => ms[j].(isBrainTarget := false))
  }

  lemma {:induction false} TargetCountForget(ms: seq<Marker>)
    ensures TargetCount(ForgetBrainTargets(ms)) == TargetCount(ms)
  {
    if ms != [] {
      assert ForgetBrainTargets(ms)[..|ms| - 1] == ForgetBrainTargets(ms[..|ms| - 1]);
      TargetCountForget(ms[..|ms| - 1]);
    }
  }

  /**
   * Loading dictionaries each of which recreates the matching record appends the
   * records; a target among them replaces the target already present.
   */
  lemma {:induction false} LoadAllRestores(ms: seq<Marker>, state: seq<MarkerDict>, recs: seq<Marker>, d: Defaults)
    requires ValidDefaults(d) && ValidState(state) && |state| == |recs|
    requires AtMostOneTarget(ms) && AtMostOneTarget(recs)
    requires forall k :: 0 <= k < |state| ==>
      NewMarker(DictArgs(state[k]), d) == recs[k].(isTarget := false) && state[k].isTarget == recs[k].isTarget
    ensures LoadAll(ms, state, d) == Restored(ms, recs)
    decreases |state|
  {
    if state == [] {
      assert ms + recs == ms;
    } else {
      var rec, rest := recs[0], recs[1..];
      assert recs == [rec] + rest;
      LoadAllStep(ms, state, d);
      AddLoadedRestores(ms, DictArgs(state[0]), rec, d);
      RestoreStep(ms, rec, rest);
      var ms1 := (if rec.isTarget then ClearTargets(ms) else ms) + [rec];
      LoadAllRestores(ms1, state[1..], rest, d);
    }
  }

  /**
   * A session round trip (`SaveState`, then `LoadState` on an empty panel) gives back
   * the markers in order with every field but `is_brain_target`, which
   * `to_dict` does not store.
   */
  lemma SessionRoundTrip(ms: seq<Marker>, d: Defaults)
    requires ValidDefaults(d) && AtMostOneTarget(ms)
    requires forall k :: 0 <= k < |ms| ==> KeepsValues(ms[k])
    ensures ValidState(ToDicts(ms))
    ensures LoadAll([], ToDicts(ms), d) == ForgetBrainTargets(ms)
  {
    var state, recs := ToDicts(ms), ForgetBrainTargets(ms);
    forall k | 0 <= k < |ms|
      ensures ValidArgs(DictArgs(state[k]))
      ensures NewMarker(DictArgs(state[k]), d) == recs[k].(isTarget := false)
    {
      DictArgsRestore(ms[k], d);
    }
    TargetCountForget(ms);
    LoadAllRestores([], state, recs, d);
  }
}
