/**
 * The marker list of `MarkersPanel` as a value: the target flag invariant, the
 * read-only scans (`__find_target_marker`, `__get_brain_target_markers`, the label
 * search of `OnDeleteMultipleMarkers`) and the two in-place edits the panel makes
 * (`__set_marker_as_target` and deletion by position), each as a reference function
 * with the lemmas that say what it does.
 */
module MarkerList {
  import opened Wrappers
  import opened Markers
  import opened Seqs

  /** The number of markers flagged `is_target`. */
  function TargetCount(ms: seq<Marker>): nat
  {
    if ms == [] then 0
    else TargetCount(ms[..|ms| - 1]) + (if ms[|ms| - 1].isTarget then 1 else 0)
  }

  /** The store's invariant: at most one marker is the target. */
  predicate AtMostOneTarget(ms: seq<Marker>)
  {
    TargetCount(ms) <= 1
  }

  lemma {:induction false} TargetCountAppend(a: seq<Marker>, b: seq<Marker>)
    ensures TargetCount(a + b) == TargetCount(a) + TargetCount(b)
    decreases |b|
  {
    if b == [] {
      assert a + b == a;
    } else {
      assert (a + b)[..|a + b| - 1] == a + b[..|b| - 1];
      TargetCountAppend(a, b[..|b| - 1]);
    }
  }

  /** The count is zero exactly when no marker is a target. */
  lemma {:induction false} NoTargetCount(ms: seq<Marker>)
    ensures TargetCount(ms) == 0 <==> forall j :: 0 <= j < |ms| ==> !ms[j].isTarget
  {
    if ms != [] {
      var init := ms[..|ms| - 1];
      NoTargetCount(init);
      assert forall j :: 0 <= j < |init| ==> init[j] == ms[j];
    }
  }

  lemma {:induction false} SomeTarget(ms: seq<Marker>, i: nat)
    requires i < |ms| && ms[i].isTarget
    ensures TargetCount(ms) >= 1
  {
    if i < |ms| - 1 {
      SomeTarget(ms[..|ms| - 1], i);
    }
  }

  lemma {:induction false} TwoTargets(ms: seq<Marker>, i: nat, j: nat)
    requires i < j < |ms| && ms[i].isTarget && ms[j].isTarget
    ensures TargetCount(ms) >= 2
  {
    var init := ms[..|ms| - 1];
    if j == |ms| - 1 {
      SomeTarget(init, i);
    } else {
      TwoTargets(init, i, j);
    }
  }

  /** Under the invariant a target marker is the only one. */
  lemma OnlyTarget(ms: seq<Marker>, i: nat)
    requires AtMostOneTarget(ms) && i < |ms| && ms[i].isTarget
    ensures forall j :: 0 <= j < |ms| && j != i ==> !ms[j].isTarget
  {
    forall j | 0 <= j < |ms| && j != i
      ensures !ms[j].isTarget
    {
      if ms[j].isTarget {
        if i < j { TwoTargets(ms, i, j); } else { TwoTargets(ms, j, i); }
      }
    }
  }

  /** When no marker but `i` can be a target, the count is that of `i` alone. */
  lemma {:induction false} OnlyCandidate(ms: seq<Marker>, i: nat)
    requires i < |ms|
    requires forall j :: 0 <= j < |ms| && j != i ==> !ms[j].isTarget
    ensures TargetCount(ms) == if ms[i].isTarget then 1 else 0
  {
    var init := ms[..|ms| - 1];
    if i == |ms| - 1 {
      NoTargetCount(init);
    } else {
      OnlyCandidate(init, i);
    }
  }

  /** `__find_target_marker()`: the smallest index of a target marker, `None` when there is none. */
  function FirstTarget(ms: seq<Marker>): (r: Option<nat>)
    ensures r.Some? ==> r.value < |ms| && ms[r.value].isTarget
    ensures r.Some? ==> forall j :: 0 <= j < r.value ==> !ms[j].isTarget
    ensures r.None? <==> forall j :: 0 <= j < |ms| ==> !ms[j].isTarget
  {
    if ms == [] then None
    else if ms[0].isTarget then Some(0)
    else match FirstTarget(ms[1..])
      case None => None
      case Some(i) => Some(i + 1)
  }

  /** The first target is none exactly when the target count is zero. */
  lemma NoFirstTarget(ms: seq<Marker>)
    ensures FirstTarget(ms).None? <==> TargetCount(ms) == 0
  {
    NoTargetCount(ms);
  }

  /**
   * `__set_marker_as_target(idx)`: nothing when `idx` is the target found first;
   * otherwise that target (if any) loses the flag and marker `idx` gets it.
   */
  function MarkTarget(ms: seq<Marker>, idx: nat): (r: seq<Marker>)
    requires idx < |ms|
    ensures |r| == |ms|
  {
    var prev := FirstTarget(ms);
    if prev == Some(idx) then ms
    else
      var cleared := if prev.Some? then ms[prev.value := ms[prev.value].(isTarget := false)] else ms;
      cleared[idx := cleared[idx].(isTarget := true)]
  }

  /**
   * Under the invariant, setting a target flags `idx`, unflags every other marker
   * and touches no other field; `idx` is then the one and only target.
   */
  lemma MarkTargetSpec(ms: seq<Marker>, idx: nat)
    requires idx < |ms| && AtMostOneTarget(ms)
    ensures var r := MarkTarget(ms, idx);
      && r[idx] == ms[idx].(isTarget := true)
      && (forall j :: 0 <= j < |ms| && j != idx ==> r[j] == ms[j].(isTarget := false))
      && (ms[idx].isTarget ==> r == ms)
      && FirstTarget(r) == Some(idx)
      && TargetCount(r) == 1
  {
    var r := MarkTarget(ms, idx);
    var prev := FirstTarget(ms);
    if prev.Some? {
      OnlyTarget(ms, prev.value);
    }
    assert forall j :: 0 <= j < |ms| && j != idx ==> !r[j].isTarget;
    OnlyCandidate(r, idx);
  }

  /** `markers[i].is_target = False`, as `OnMenuRemoveTarget` does, keeps the invariant and leaves no target when `i` was it. */
  lemma ClearTargetSpec(ms: seq<Marker>, i: nat)
    requires i < |ms| && AtMostOneTarget(ms)
    ensures var r := ms[i := ms[i].(isTarget := false)];
      && AtMostOneTarget(r)
      && (ms[i].isTarget ==> FirstTarget(r) == None && TargetCount(r) == 0)
      && (!ms[i].isTarget ==> r == ms)
  {
    var r := ms[i := ms[i].(isTarget := false)];
    if ms[i].isTarget {
      OnlyTarget(ms, i);
      NoTargetCount(r);
    } else {
      assert r == ms;
    }
  }

  /** The set of positions listed in `idxs`. */
  function Elems(idxs: seq<int>): set<int>
  {
    set x | x in idxs
  }

  /** Indices that are valid positions in a list of length `n`, in strictly ascending order. */
  predicate AscendingIndexes(idxs: seq<int>, n: nat)
  {
    (forall k :: 0 <= k < |idxs| ==> 0 <= idxs[k] < n)
    && (forall k, l :: 0 <= k < l < |idxs| ==> idxs[k] < idxs[l])
  }

  /** The markers whose positions are not in `del`, in their original relative order. */
  function Without(ms: seq<Marker>, del: set<int>): (r: seq<Marker>)
    ensures |r| <= |ms|
  {
    if ms == [] then []
    else
      var last := |ms| - 1;
      Without(ms[..last], del) + (if last in del then [] else [ms[last]])
  }

  /** Positions at or beyond the end delete nothing. */
  lemma {:induction false} WithoutBeyond(ms: seq<Marker>, del: set<int>)
    requires forall d :: d in del ==> d >= |ms|
    ensures Without(ms, del) == ms
  {
    if ms != [] {
      WithoutBeyond(ms[..|ms| - 1], del);
      assert ms[..|ms| - 1] + [ms[|ms| - 1]] == ms;
    }
  }

  /**
   * Deleting position `i` from what is left after deleting only higher positions is
   * the same as deleting `i` along with them: the step of the reverse-order loop.
   */
  lemma {:induction false} WithoutDeleteAt(ms: seq<Marker>, del: set<int>, i: nat)
    requires i < |ms|
    requires forall d :: d in del ==> d > i
    ensures var w := Without(ms, del); i < |w| && w[..i] + w[i + 1..] == Without(ms, del + {i})
  {
    var last := |ms| - 1;
    var init := ms[..last];
    var w := Without(ms, del);
    if last == i {
      WithoutBeyond(init, del);
      WithoutBeyond(init, del + {i});
      assert w == init + [ms[i]];
      assert w[..i] + w[i + 1..] == init;
    } else {
      WithoutDeleteAt(init, del, i);
      var w0 := Without(init, del);
      var tail := if last in del then [] else [ms[last]];
      assert w == w0 + tail;
      assert Without(ms, del + {i}) == Without(init, del + {i}) + tail;
      assert w[..i] == w0[..i];
      assert w[i + 1..] == w0[i + 1..] + tail;
    }
  }

  /** Deleting strictly ascending valid positions shortens the list by their number. */
  lemma {:induction false} WithoutLength(ms: seq<Marker>, idxs: seq<int>)
    requires AscendingIndexes(idxs, |ms|)
    ensures |Without(ms, Elems(idxs))| == |ms| - |idxs|
  {
    if idxs == [] {
      WithoutBeyond(ms, Elems(idxs));
    } else {
      var rest := idxs[1..];
      assert AscendingIndexes(rest, |ms|);
      WithoutLength(ms, rest);
      assert forall d :: d in Elems(rest) ==> d > idxs[0];
      WithoutDeleteAt(ms, Elems(rest), idxs[0]);
      assert Elems(idxs) == Elems(rest) + {idxs[0]} by {
        assert idxs == [idxs[0]] + rest;
      }
    }
  }

  lemma {:induction false} WithoutCount(ms: seq<Marker>, del: set<int>)
    ensures TargetCount(Without(ms, del)) <= TargetCount(ms)
  {
    if ms != [] {
      var last := |ms| - 1;
      WithoutCount(ms[..last], del);
      TargetCountAppend(Without(ms[..last], del), if last in del then [] else [ms[last]]);
    }
  }

  lemma {:induction false} WithoutDropsTarget(ms: seq<Marker>, del: set<int>, t: nat)
    requires t < |ms| && t in del && ms[t].isTarget
    ensures TargetCount(Without(ms, del)) < TargetCount(ms)
  {
    var last := |ms| - 1;
    var init := ms[..last];
    TargetCountAppend(Without(init, del), if last in del then [] else [ms[last]]);
    if t == last {
      WithoutCount(init, del);
    } else {
      WithoutDropsTarget(init, del, t);
    }
  }

  /**
   * Deletion keeps the invariant, and deleting the position of the target (as
   * `OnDeleteMultipleMarkers` checks with `__find_target_marker() in indexes`) leaves none.
   */
  lemma WithoutTargets(ms: seq<Marker>, del: set<int>)
    requires AtMostOneTarget(ms)
    ensures AtMostOneTarget(Without(ms, del))
    ensures FirstTarget(ms).Some? && FirstTarget(ms).value in del ==> FirstTarget(Without(ms, del)).None?
  {
    WithoutCount(ms, del);
    var t := FirstTarget(ms);
    if t.Some? && t.value in del {
      WithoutDropsTarget(ms, del, t.value);
      NoFirstTarget(Without(ms, del));
    }
  }

  /** The coordinates of the brain-target markers, in list order. */
  function BrainTargets(ms: seq<Marker>): (r: seq<seq<Scalar>>)
    ensures |r| <= |ms|
    ensures r == [] <==> forall j :: 0 <= j < |ms| ==> !ms[j].isBrainTarget
  {
    if ms == [] then []
    else (if ms[0].isBrainTarget then [ms[0].Coordinate()] else []) + BrainTargets(ms[1..])
  }

  /** Scanning one marker more extends the brain-target list by that marker's coordinate, if it is one. */
  lemma {:induction false} BrainTargetsSnoc(ms: seq<Marker>, m: Marker)
    ensures BrainTargets(ms + [m]) == BrainTargets(ms) + (if m.isBrainTarget then [m.Coordinate()] else [])
  {
    var last := if m.isBrainTarget then [m.Coordinate()] else [];
    if ms == [] {
      assert [] + [m] == [m];
      assert BrainTargets([m]) == last + BrainTargets([]);
    } else {
      var first := if ms[0].isBrainTarget then [ms[0].Coordinate()] else [];
      assert (ms + [m])[0] == ms[0];
      assert (ms + [m])[1..] == ms[1..] + [m];
      BrainTargetsSnoc(ms[1..], m);
      calc {
        BrainTargets(ms + [m]);
        first + BrainTargets(ms[1..] + [m]);
        first + (BrainTargets(ms[1..]) + last);
        { AppendAssoc(first, BrainTargets(ms[1..]), last); }
        (first + BrainTargets(ms[1..])) + last;
        BrainTargets(ms) + last;
      }
    }
  }

  /** The highest position whose label is `text`: the row the fiducial search of `OnDeleteMultipleMarkers` settles on. */
  function LastWithLabel(ms: seq<Marker>, text: string): (r: Option<nat>)
    ensures r.Some? ==> r.value < |ms| && ms[r.value].labelText == text
    ensures r.Some? ==> forall j :: r.value < j < |ms| ==> ms[j].labelText != text
    ensures r.None? <==> forall j :: 0 <= j < |ms| ==> ms[j].labelText != text
  {
    if ms == [] then None
    else if ms[|ms| - 1].labelText == text then Some(|ms| - 1)
    else LastWithLabel(ms[..|ms| - 1], text)
  }
}
