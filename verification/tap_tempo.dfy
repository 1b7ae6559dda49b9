/**
 Tap-tempo estimation (the wizard's tempo step). Every press of the space
 bar appends one timestamp to the tap history; the gaps between
 consecutive taps are filtered to the plausible human band (200, 2000) ms,
 the tempo is `round(60000 / mean gap)`, and the tempo is committed to the
 song once at least 20 gaps survive and all of them lie within 50 ms of
 their mean.
 */
module TapTempo {
  import opened Maybe
  import opened Stats

  const MinTapInterval: real := 200.0
  const MaxTapInterval: real := 2000.0
  /** Number of kept intervals needed before the tempo may be committed. */
  const StableIntervalCount: nat := 20
  /** Largest deviation from the mean interval that still counts as stable (exclusive). */
  const MaxStableDeviation: real := 50.0

  /** Gaps between consecutive taps: interval k is `taps[k + 1] - taps[k]`. */
  function Intervals(taps: seq<real>): (r: seq<real>)
    ensures |r| == if |taps| == 0 then 0 else |taps| - 1
    ensures forall k :: 0 <= k < |r| ==> r[k] == taps[k + 1] - taps[k]
  {
    if |taps| < 2 then []
    else Intervals(taps[..|taps| - 1]) + [taps[|taps| - 1] - taps[|taps| - 2]]
  }

  /** A gap a human tapper plausibly meant: rejects double triggers and long pauses. */
  predicate Plausible(interval: real)
  {
    MinTapInterval < interval < MaxTapInterval
  }

  /** The intervals that survive the band filter, in their original order. */
  function Kept(xs: seq<real>): (r: seq<real>)
    ensures |r| <= |xs|
    ensures forall k :: 0 <= k < |r| ==> Plausible(r[k])
  {
    if |xs| == 0 then []
    else Kept(xs[..|xs| - 1]) + (if Plausible(xs[|xs| - 1]) then [xs[|xs| - 1]] else [])
  }

  /** Largest distance of an element from `center` (`Math.max` over the deviations). */
  function MaxDeviation(xs: seq<real>, center: real): (m: real)
    requires |xs| > 0
    ensures forall k :: 0 <= k < |xs| ==> Abs(xs[k] - center) <= m
    ensures exists k :: 0 <= k < |xs| && Abs(xs[k] - center) == m
  {
    if |xs| == 1 then Abs(xs[0] - center)
    else
      var m0 := MaxDeviation(xs[..|xs| - 1], center);
      var d := Abs(xs[|xs| - 1] - center);
      if d > m0 then d else m0
  }

  /**
   The stability test as written: the largest deviation from the mean is
   under 50 ms. On an empty list `Math.max()` is minus infinity, so the
   empty list counts as stable.
   */
  predicate IsStable(intervals: seq<real>)
    ensures |intervals| == 0 ==> IsStable(intervals)
    ensures IsStable(intervals) ==>
      forall k :: 0 <= k < |intervals| ==> Abs(intervals[k] - Average(intervals)) < MaxStableDeviation
  {
    |intervals| == 0 || MaxDeviation(intervals, Average(intervals)) < MaxStableDeviation
  }

  /** Independent statement of stability: every interval is close to the mean. */
  predicate AllNearMean(xs: seq<real>)
  {
    forall k :: 0 <= k < |xs| ==> Abs(xs[k] - Average(xs)) < MaxStableDeviation
  }

  /** The tempo a non-empty list of kept intervals gives: `round(60000 / mean)`. */
  function TempoOf(kept: seq<real>): (bpm: int)
    requires |kept| > 0
    requires forall k :: 0 <= k < |kept| ==> Plausible(kept[k])
    ensures MinTapInterval < Average(kept) < MaxTapInterval
    ensures 30 <= bpm <= 300
    ensures RoundsTo(60000.0 / Average(kept), bpm)
  {
    forall k | 0 <= k < |kept|
      ensures MinTapInterval < kept[k] < MaxTapInterval
    {
      assert Plausible(kept[k]);
    }
    AverageStrictlyWithin(kept, MinTapInterval, MaxTapInterval);
    var avg := Average(kept);
    assert 30.0 < 60000.0 / avg < 300.0 by {
      assert 60000.0 / avg * avg == 60000.0;
    }
    Round(60000.0 / avg)
  }

  /** State of one tempo capture session: the tap history and the tempo shown. */
  datatype TapSession = TapSession(taps: seq<real>, bpm: Option<int>)

  /** A session after one tap, and the tempo committed to the song if the estimate settled. */
  datatype TapOutcome = TapOutcome(session: TapSession, committed: Option<int>)

  /** The kept intervals of a tap history. */
  function KeptIntervals(taps: seq<real>): seq<real>
  {
    Kept(Intervals(taps))
  }

  /** One press of the space bar at time `now`. */
  function OnTap(s: TapSession, now: real): (o: TapOutcome)
    ensures o.session.taps == s.taps + [now]
    ensures |s.taps| == 0 ==> o.session.bpm == s.bpm && o.committed == None
    ensures |KeptIntervals(s.taps + [now])| == 0 ==> o.session.bpm == s.bpm && o.committed == None
    ensures |KeptIntervals(s.taps + [now])| > 0 ==> o.session.bpm == Some(TempoOf(KeptIntervals(s.taps + [now])))
    ensures o.committed.Some? <==> Settled(KeptIntervals(s.taps + [now]))
    ensures o.committed.Some? ==> o.committed == o.session.bpm
  {
    var updated := s.taps + [now];
    var kept := KeptIntervals(updated);
    if |updated| < 2 || |kept| == 0 then
      TapOutcome(TapSession(updated, s.bpm), None)
    else
      var bpm := TempoOf(kept);
      StableIffAllNearMean(kept);
      var commit := |kept| >= StableIntervalCount as int && IsStable(kept);
      TapOutcome(TapSession(updated, Some(bpm)), if commit then Some(bpm) else None)
  }

  /** `bpm` is the nearest whole number to `x`, halves rounding up. */
  predicate RoundsTo(x: real, bpm: int)
  {
    bpm as real - 0.5 <= x < bpm as real + 0.5
  }

  /** The commit condition, stated without `Math.max`: enough intervals, all near their mean. */
  predicate Settled(kept: seq<real>)
  {
    |kept| >= StableIntervalCount as int && AllNearMean(kept)
  }

  /** The `Math.max` formulation of stability agrees with "every interval is near the mean". */
  lemma StableIffAllNearMean(xs: seq<real>)
    ensures IsStable(xs) <==> AllNearMean(xs)
  {
    if |xs| > 0 {
      var m := MaxDeviation(xs, Average(xs));
      if AllNearMean(xs) {
        var k :| 0 <= k < |xs| && Abs(xs[k] - Average(xs)) == m;
      }
    }
  }

  /** Telescoping: the intervals of a history add up to its span. */
  lemma {:induction false} IntervalsSum(taps: seq<real>)
    requires |taps| > 0
    ensures Sum(Intervals(taps)) == taps[|taps| - 1] - taps[0]
    decreases |taps|
  {
    if |taps| >= 2 {
      var init := taps[..|taps| - 1];
      IntervalsSum(init);
      SumAppend(Intervals(init), taps[|taps| - 1] - taps[|taps| - 2]);
    }
  }

  /** Appending a tap appends exactly one interval, the gap to the previous tap. */
  lemma {:induction false} IntervalsAppend(taps: seq<real>, now: real)
    requires |taps| > 0
    ensures Intervals(taps + [now]) == Intervals(taps) + [now - taps[|taps| - 1]]
  {
    var u := taps + [now];
    assert u[..|u| - 1] == taps;
    assert u[|u| - 1] - u[|u| - 2] == now - taps[|taps| - 1];
  }

  /** Filtering distributes over concatenation. */
  lemma {:induction false} KeptConcat(a: seq<real>, b: seq<real>)
    ensures Kept(a + b) == Kept(a) + Kept(b)
    decreases |b|
  {
    if |b| == 0 {
      assert a + b == a;
    } else {
      var b' := b[..|b| - 1];
      assert (a + b)[..|a + b| - 1] == a + b';
      KeptConcat(a, b');
    }
  }

  /** A gap is kept exactly when it occurs among the inputs and is plausible. */
  lemma {:induction false} KeptMembers(xs: seq<real>, x: real)
    ensures x in Kept(xs) <==> x in xs && Plausible(x)
    decreases |xs|
  {
    if |xs| > 0 {
      var init := xs[..|xs| - 1];
      KeptMembers(init, x);
      assert xs == init + [xs[|xs| - 1]];
    }
  }

  /** An implausible gap (an outlier such as a 3000 ms pause) leaves the kept intervals unchanged. */
  lemma {:induction false} OutlierIgnored(a: seq<real>, x: real, b: seq<real>)
    requires !Plausible(x)
    ensures Kept(a + [x] + b) == Kept(a + b)
  {
    KeptConcat(a + [x], b);
    KeptConcat(a, [x]);
    KeptConcat(a, b);
    assert Kept([x]) == [] by {
      assert [x][..0] == [];
    }
  }

  /** A list of plausible gaps passes the filter whole. */
  lemma {:induction false} KeptAllPlausible(xs: seq<real>)
    requires forall k :: 0 <= k < |xs| ==> Plausible(xs[k])
    ensures Kept(xs) == xs
    decreases |xs|
  {
    if |xs| > 0 {
      KeptAllPlausible(xs[..|xs| - 1]);
    }
  }

  /** A committed tempo needs at least 21 taps. */
  lemma CommitNeedsTwentyOneTaps(s: TapSession, now: real)
    requires OnTap(s, now).committed.Some?
    ensures |s.taps| + 1 >= StableIntervalCount + 1
  {
    assert |KeptIntervals(s.taps + [now])| <= |Intervals(s.taps + [now])|;
  }

  /** Consecutive taps exactly `period` ms apart. */
  ghost predicate EvenlySpaced(taps: seq<real>, period: real)
  {
    forall i, j :: 0 <= i < j < |taps| && j == i + 1 ==> taps[j] - taps[i] == period
  }

  /**
   A steady tapper with a plausible period commits `round(60000 / period)`
   on the tap that completes the twentieth interval.
   */
  lemma {:induction false} SteadyTappingCommits(s: TapSession, now: real, period: real)
    requires Plausible(period)
    requires |s.taps| >= StableIntervalCount
    requires EvenlySpaced(s.taps + [now], period)
    ensures OnTap(s, now).committed == Some(Round(60000.0 / period))
  {
    var taps := s.taps + [now];
    var iv := Intervals(taps);
    forall k | 0 <= k < |iv|
      ensures iv[k] == period
    {
      assert iv[k] == taps[k + 1] - taps[k];
    }
    KeptAllPlausible(iv);
    AverageConstant(iv, period);
    assert KeptIntervals(taps) == iv;
    assert AllNearMean(iv);
  }

  /** Taps exactly 500 ms apart give 120 BPM once twenty intervals are in. */
  lemma {:induction false} HalfSecondTapsGive120(s: TapSession, now: real)
    requires |s.taps| >= StableIntervalCount
    requires EvenlySpaced(s.taps + [now], 500.0)
    ensures OnTap(s, now).committed == Some(120)
  {
    SteadyTappingCommits(s, now, 500.0);
    HalfSecondIs120();
  }

  /** 60000 ms over 500 ms beats rounds to 120. */
  lemma HalfSecondIs120()
    ensures Round(60000.0 / 500.0) == 120
  {
    assert 60000.0 / 500.0 == 120.0;
  }
}
