/** The date/time window filter of `draw` (src.js lines 29-40): with filtering
    enabled, the visible path keeps, in order, exactly the points whose time lies
    strictly between the parsed start and end. */
module WindowFilter {
  import opened Wrappers
  import opened Points

  /** The parsed bounds `start = Date.parse(startDatetime.value)` and
      `end = Date.parse(endDatetime.value)`; either may be NaN. */
  datatype Window = Window(start: Millis, end: Millis)

  /** The test `start < time && time < end` with JavaScript's NaN semantics. */
  predicate InWindow(w: Window, t: Millis)
  {
    Less(w.start, t) && Less(t, w.end)
  }

  /** `wide` has a start no later and an end no earlier than `narrow`. */
  predicate Wider(wide: Window, narrow: Window)
  {
    && (narrow.start.Some? ==> wide.start.Some? && wide.start.value <= narrow.start.value)
    && (narrow.end.Some? ==> wide.end.Some? && wide.end.value >= narrow.end.value)
  }

  /** `r` is the subsequence of `s` at the strictly increasing positions `idx`. */
  ghost predicate Selects<T>(r: seq<T>, s: seq<T>, idx: seq<int>)
  {
    && |idx| == |r|
    && (forall k :: 0 <= k < |idx| ==> 0 <= idx[k] < |s| && r[k] == s[idx[k]])
    && (forall k, l :: 0 <= k < l < |idx| ==> idx[k] < idx[l])
  }

  /** The visible path: the points of `path` that pass the window, in order.
      The definition peels off the last point, which decides whether the
      loop's last push happens; `SelectVisible` runs the loop itself. */
  function Filter(path: seq<Point>, w: Window): (r: seq<Point>)
    ensures |r| <= |path|
    ensures forall p :: p in r ==> p in path && InWindow(w, p.time)
  {
    if |path| == 0 then []
    else
      var last := path[|path| - 1];
      Filter(path[..|path| - 1], w) + (if InWindow(w, last.time) then [last] else [])
  }

  /** The positions of `path` whose point passes the window, in increasing order. */
  ghost function KeptIndices(path: seq<Point>, w: Window): seq<int>
  {
    if |path| == 0 then []
    else
      KeptIndices(path[..|path| - 1], w)
      + (if InWindow(w, path[|path| - 1].time) then [|path| - 1] else [])
  }

  /** Every position `KeptIndices` lists lies inside `path`. */
  lemma {:induction false} KeptIndicesBounded(path: seq<Point>, w: Window)
    ensures forall k :: 0 <= k < |KeptIndices(path, w)| ==> 0 <= KeptIndices(path, w)[k] < |path|
  {
    if |path| > 0 {
      KeptIndicesBounded(path[..|path| - 1], w);
    }
  }

  /** The filter keeps exactly the passing points, in their original relative
      order: the result is `path` read at the increasing positions `idx`, and a
      position is in `idx` if and only if its point passes the window. */
  lemma {:induction false} FilterIsExactSelection(path: seq<Point>, w: Window)
    ensures exists idx :: Selects(Filter(path, w), path, idx)
                          && forall i :: 0 <= i < |path| ==> (InWindow(w, path[i].time) <==> i in idx)
  {
    var idx := KeptIndices(path, w);
    KeptSelection(path, w);
    assert Selects(Filter(path, w), path, idx);
  }

  /** Appending a point to the source keeps an existing selection, and
      extends it when the new point is also appended to the result. */
  lemma SelectsAppend<T>(r: seq<T>, s: seq<T>, idx: seq<int>, x: T)
    requires Selects(r, s, idx)
    ensures Selects(r, s + [x], idx)
    ensures Selects(r + [x], s + [x], idx + [|s|])
  {
  }

  /** The filter is `path` read at `KeptIndices`, and those are exactly the
      positions of the passing points. */
  lemma {:induction false} KeptSelection(path: seq<Point>, w: Window)
    ensures Selects(Filter(path, w), path, KeptIndices(path, w))
    ensures forall i :: 0 <= i < |path| ==> (InWindow(w, path[i].time) <==> i in KeptIndices(path, w))
  {
    KeptSelects(path, w);
    KeptMembership(path, w);
  }

  /** The filter is `path` read at `KeptIndices`. */
  lemma {:induction false} KeptSelects(path: seq<Point>, w: Window)
    ensures Selects(Filter(path, w), path, KeptIndices(path, w))
  {
    if |path| > 0 {
      var n := |path| - 1;
      var init, last := path[..n], path[n];
      KeptSelects(init, w);
      assert path == init + [last];
      SelectsAppend(Filter(init, w), init, KeptIndices(init, w), last);
    }
  }

  /** A position is in `KeptIndices` if and only if its point passes. */
  lemma {:induction false} KeptMembership(path: seq<Point>, w: Window)
    ensures forall i :: 0 <= i < |path| ==> (InWindow(w, path[i].time) <==> i in KeptIndices(path, w))
  {
    if |path| > 0 {
      var n := |path| - 1;
      var init := path[..n];
      KeptMembership(init, w);
      KeptIndicesBounded(init, w);
      var idx0 := KeptIndices(init, w);
      assert n !in idx0;
      forall i | 0 <= i < n
        ensures InWindow(w, path[i].time) <==> i in KeptIndices(path, w)
      {
        assert path[i] == init[i];
      }
      if InWindow(w, path[n].time) {
        assert KeptIndices(path, w) == idx0 + [n];
      } else {
        assert KeptIndices(path, w) == idx0;
      }
    }
  }

  /** The head of a strictly increasing list is its least member. */
  lemma HeadIsLeast(a: seq<int>)
    requires forall k, l :: 0 <= k < l < |a| ==> a[k] < a[l]
    ensures |a| > 0 ==> a[0] in a && forall x :: x in a ==> a[0] <= x
  {
    if |a| > 0 {
      forall x | x in a
        ensures a[0] <= x
      {
        var j :| 0 <= j < |a| && a[j] == x;
        assert j == 0 || a[0] < a[j];
      }
    }
  }

  /** Two strictly increasing position lists with the same members are equal. */
  lemma {:induction false} IncreasingUnique(a: seq<int>, b: seq<int>)
    requires forall k, l :: 0 <= k < l < |a| ==> a[k] < a[l]
    requires forall k, l :: 0 <= k < l < |b| ==> b[k] < b[l]
    requires forall x :: x in a <==> x in b
    ensures a == b
    decreases |a| + |b|
  {
    HeadIsLeast(a);
    HeadIsLeast(b);
    if |a| > 0 && |b| > 0 {
      assert a[0] == b[0];
      forall x
        ensures x in a[1..] <==> x in b[1..]
      {
        if x in a[1..] {
          var j :| 1 <= j < |a| && a[j] == x;
          assert x in b && x != b[0];
        }
        if x in b[1..] {
          var j :| 1 <= j < |b| && b[j] == x;
          assert x in a && x != a[0];
        }
      }
      IncreasingUnique(a[1..], b[1..]);
      assert a == [a[0]] + a[1..];
      assert b == [b[0]] + b[1..];
    }
  }

  /** Conversely, any in-order selection of exactly the passing points is the
      filter's result, so the filter is pinned down by that description. */
  lemma {:induction false} ExactSelectionIsFilter(path: seq<Point>, w: Window, r: seq<Point>, idx: seq<int>)
    requires Selects(r, path, idx)
    requires forall i :: 0 <= i < |path| ==> (InWindow(w, path[i].time) <==> i in idx)
    ensures r == Filter(path, w)
  {
    var kept := KeptIndices(path, w);
    KeptSelection(path, w);
    forall x
      ensures x in idx <==> x in kept
    {
      if x in idx {
        var k :| 0 <= k < |idx| && idx[k] == x;
      }
      if x in kept {
        var k :| 0 <= k < |kept| && kept[k] == x;
      }
    }
    IncreasingUnique(idx, kept);
  }

  /** A point is visible if and only if it is in `path` and passes the window. */
  lemma {:induction false} FilterMembership(path: seq<Point>, w: Window, p: Point)
    ensures p in Filter(path, w) <==> p in path && InWindow(w, p.time)
  {
    if |path| > 0 {
      var n := |path| - 1;
      FilterMembership(path[..n], w, p);
      assert path == path[..n] + [path[n]];
    }
  }

  /** The bounds are strict: a point whose time equals the start or the end is
      never visible. */
  lemma FilterExcludesBounds(path: seq<Point>, w: Window, p: Point)
    requires p in path
    requires p.time == w.start || p.time == w.end
    ensures p !in Filter(path, w)
  {
  }

  /** A bound that does not parse (NaN) makes every comparison false, so the
      visible path is empty. */
  lemma {:induction false} NaNBoundHidesEverything(path: seq<Point>, w: Window)
    requires w.start == NaN || w.end == NaN
    ensures Filter(path, w) == []
  {
    if |path| > 0 {
      NaNBoundHidesEverything(path[..|path| - 1], w);
    }
  }

  /** Filtering the result of a wider window with a narrower one gives the
      narrower window's result: narrowing only drops points. */
  lemma {:induction false} NarrowAfterWide(path: seq<Point>, wide: Window, narrow: Window)
    requires Wider(wide, narrow)
    ensures Filter(Filter(path, wide), narrow) == Filter(path, narrow)
  {
    if |path| > 0 {
      var n := |path| - 1;
      var init, last := path[..n], path[n];
      var fw := Filter(init, wide);
      var keep := if InWindow(narrow, last.time) then [last] else [];
      if InWindow(wide, last.time) {
        calc {
          Filter(Filter(path, wide), narrow);
          Filter(fw + [last], narrow);
          { assert (fw + [last])[..|fw|] == fw; }
          Filter(fw, narrow) + keep;
          { NarrowAfterWide(init, wide, narrow); }
          Filter(init, narrow) + keep;
          Filter(path, narrow);
        }
      } else {
        assert !InWindow(narrow, last.time);
        calc {
          Filter(Filter(path, wide), narrow);
          { assert Filter(path, wide) == fw + [] == fw; }
          Filter(fw, narrow);
          { NarrowAfterWide(init, wide, narrow); }
          Filter(init, narrow);
          { assert Filter(path, narrow) == Filter(init, narrow) + [] == Filter(init, narrow); }
          Filter(path, narrow);
        }
      }
    }
  }

  /** Widening the window (an earlier start or a later end) never removes a
      point: the narrower result is an in-order selection of the wider one, so
      it is no longer and each of its points is still visible. */
  lemma WideningKeepsPoints(path: seq<Point>, wide: Window, narrow: Window)
    requires Wider(wide, narrow)
    ensures |Filter(path, narrow)| <= |Filter(path, wide)|
    ensures forall p :: p in Filter(path, narrow) ==> p in Filter(path, wide)
  {
    NarrowAfterWide(path, wide, narrow);
  }

  /** The `forEach` loop of src.js lines 33-40: starting from an empty array,
      push each point of `path` that passes the window. */
  method SelectVisible(path: seq<Point>, w: Window) returns (drawPath: seq<Point>)
    ensures drawPath == Filter(path, w)
    ensures forall p :: p in drawPath <==> p in path && InWindow(w, p.time)
  {
    drawPath := [];
    var i := 0;
    while i < |path|
      invariant 0 <= i <= |path|
      invariant drawPath == Filter(path[..i], w)
    {
      var latlng := path[i];
      assert path[..i + 1][..i] == path[..i];
      if InWindow(w, latlng.time) {
        drawPath := drawPath + [latlng];
      }
      i := i + 1;
    }
    assert path[..|path|] == path;
    forall p
      ensures p in drawPath <==> p in path && InWindow(w, p.time)
    {
      FilterMembership(path, w, p);
    }
  }
}
