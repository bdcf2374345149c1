/**
 * Nearest-anchor snapping of a timeline position (milliseconds): a target moves to the anchor
 * closest to it when that anchor is no more than the threshold away.
 */
module Snapping {
  import opened Wrappers
  import opened JavaNum

  /**
   * The state of the snapping loop after the anchors: the closest anchor so far (initially
   * the target itself) and its distance (initially one more than the threshold). Only a
   * strictly smaller distance replaces it.
   */
  function SnapState(target: int, anchors: seq<int>, threshold: int): (int, int)
  {
    if anchors == [] then (target, threshold + 1)
    else
      var prev := SnapState(target, anchors[..|anchors| - 1], threshold);
      var anchor := anchors[|anchors| - 1];
      if Abs(target - anchor) < prev.1 then (anchor, Abs(target - anchor)) else prev
  }

  /** The position `snap` returns. */
  function SnapTo(target: int, anchors: seq<int>, threshold: int): int
  {
    SnapState(target, anchors, threshold).0
  }

  /** Some anchor is within the threshold of the target. */
  predicate InReach(target: int, anchors: seq<int>, threshold: int)
  {
    exists i :: 0 <= i < |anchors| && Abs(target - anchors[i]) <= threshold
  }

  /**
   * The distance the loop keeps is the least of the threshold + 1 and every anchor's distance;
   * while it is threshold + 1 the result is still the target.
   */
  lemma {:induction false} SnapStateLeast(target: int, anchors: seq<int>, threshold: int)
    ensures var (closest, minDelta) := SnapState(target, anchors, threshold);
      && minDelta <= threshold + 1
      && (forall i | 0 <= i < |anchors| :: minDelta <= Abs(target - anchors[i]))
      && (minDelta == threshold + 1 ==> closest == target)
  {
    if anchors != [] {
      var p := anchors[..|anchors| - 1];
      SnapStateLeast(target, p, threshold);
      assert forall i | 0 <= i < |p| :: anchors[i] == p[i];
    }
  }

  /** Index `i` holds the first anchor at distance `d` from the target. */
  predicate FirstAt(target: int, anchors: seq<int>, i: int, d: int)
  {
    0 <= i < |anchors| && Abs(target - anchors[i]) == d && forall j | 0 <= j < i :: Abs(target - anchors[j]) > d
  }

  /** A distance below threshold + 1 belongs to the first anchor at that distance. */
  lemma {:induction false} SnapStateFirst(target: int, anchors: seq<int>, threshold: int)
    ensures var (closest, minDelta) := SnapState(target, anchors, threshold);
      minDelta < threshold + 1 ==> exists i :: FirstAt(target, anchors, i, minDelta) && anchors[i] == closest
  {
    if anchors != [] {
      var p := anchors[..|anchors| - 1];
      var a := anchors[|anchors| - 1];
      SnapStateLeast(target, p, threshold);
      SnapStateFirst(target, p, threshold);
      var prev := SnapState(target, p, threshold);
      if Abs(target - a) < prev.1 {
        assert FirstAt(target, anchors, |p|, Abs(target - a)) by {
          assert forall j | 0 <= j < |p| :: anchors[j] == p[j];
        }
      } else if prev.1 < threshold + 1 {
        var i :| FirstAt(target, p, i, prev.1) && p[i] == prev.0;
        assert FirstAt(target, anchors, i, prev.1) by {
          assert forall j | 0 <= j <= i :: anchors[j] == p[j];
        }
      }
    }
  }

  /**
   * What the loop computes, independently of how: with no anchor within the threshold the
   * target is kept; otherwise the result is the first anchor, in iteration order, at the least
   * distance from the target, and that distance is within the threshold.
   */
  lemma SnapProperties(target: int, anchors: seq<int>, threshold: int)
    ensures var r := SnapTo(target, anchors, threshold);
      && (!InReach(target, anchors, threshold) <==> r == target && forall i | 0 <= i < |anchors| :: Abs(target - anchors[i]) > threshold)
      && (InReach(target, anchors, threshold) ==>
            exists i :: && 0 <= i < |anchors| && anchors[i] == r && Abs(target - r) <= threshold
                        && (forall j | 0 <= j < |anchors| :: Abs(target - r) <= Abs(target - anchors[j]))
                        && (forall j | 0 <= j < i :: Abs(target - anchors[j]) > Abs(target - r)))
      && (r == target || r in anchors)
  {
    SnapStateLeast(target, anchors, threshold);
    SnapStateFirst(target, anchors, threshold);
    var (closest, minDelta) := SnapState(target, anchors, threshold);
    if minDelta < threshold + 1 {
      var i :| FirstAt(target, anchors, i, minDelta) && anchors[i] == closest;
      assert InReach(target, anchors, threshold);
    }
  }

  /** With a threshold that is not negative, snapping moves a target by at most the threshold. */
  lemma SnapWithin(target: int, anchors: seq<int>, threshold: int)
    requires threshold >= 0
    ensures Abs(target - SnapTo(target, anchors, threshold)) <= threshold
  {
    SnapProperties(target, anchors, threshold);
  }

  /** The example of the timeline tests: an anchor at 5 s catches 5.05 s with a 100 ms threshold. */
  lemma SnapExample()
    ensures SnapTo(5050, [5000, 7000], 100) == 5000
  {
    assert [5000, 7000][..1] == [5000];
    assert [5000] == [5000][..0] + [5000];
  }

  /** `SnapEngine`: an immutable threshold, never negative. */
  datatype SnapEngine = SnapEngine(threshold: int)
  {
    ghost predicate Valid()
    {
      threshold >= 0
    }

    /** The constructor: a negative threshold is an illegal argument. */
    static function Create(threshold: int): (r: Result<SnapEngine>)
      ensures threshold < 0 <==> r == Err(IllegalArgument)
      ensures r.Ok? ==> r.value.threshold == threshold && r.value.Valid()
    {
      if threshold < 0 then Err(IllegalArgument) else Ok(SnapEngine(threshold))
    }

    /** `snap`: one pass over a copy of the anchors, keeping the strictly closest one. */
    method Snap(target: int, anchors: seq<int>) returns (closest: int)
      ensures closest == SnapTo(target, anchors, threshold)
    {
      var candidates := anchors;
      closest := target;
      var minDelta := threshold + 1;
      var i := 0;
      while i < |candidates|
        invariant 0 <= i <= |candidates|
        invariant (closest, minDelta) == SnapState(target, candidates[..i], threshold)
      {
        assert candidates[..i + 1][..i] == candidates[..i];
        var delta := Abs(target - candidates[i]);
        if delta < minDelta {
          minDelta := delta;
          closest := candidates[i];
        }
        i := i + 1;
      }
      assert candidates[..i] == anchors;
    }
  }
}
