/**
 The player page: mapping the playback position onto the bar grid (bar
 index and beat subdivision), rewinding an active loop, the three-state
 click machine that selects a loop of bars, the bar highlight, and the
 metronome's downbeat rule. One call of `UpdateCursor` is one frame of the
 polling loop, with the audio position passed in.
 */
module Player {
  import opened Maybe
  import opened Stats
  import opened BarGrid

  /** Length assumed for the last bar, which has no successor to measure against. */
  const LastBarFallback: real := 4000.0

  // ---------------------------------------------------------------------
  // Locating the current bar

  /**
   Position `t` lies in bar `i`: at or after its start and before the next
   bar's start; the last bar is open-ended (`bars[i + 1] ?? Infinity`).
   */
  predicate InBar(bars: seq<real>, i: nat, t: real)
    requires i < |bars|
    ensures InBar(bars, i, t) ==> bars[i] <= t
    ensures i + 1 == |bars| ==> (InBar(bars, i, t) <==> bars[i] <= t)
  {
    bars[i] <= t && (i + 1 == |bars| || t < bars[i + 1])
  }

  /** `findIndex` from position `from` on: the first bar holding `t`, or -1. */
  function FindBarFrom(bars: seq<real>, t: real, from: nat): (r: int)
    requires from <= |bars|
    ensures r == -1 || from <= r < |bars|
    ensures r == -1 <==> forall i :: from <= i < |bars| ==> !InBar(bars, i, t)
    ensures r != -1 ==> InBar(bars, r, t) && forall i :: from <= i < r ==> !InBar(bars, i, t)
    decreases |bars| - from
  {
    if from == |bars| then -1
    else if InBar(bars, from, t) then from
    else FindBarFrom(bars, t, from + 1)
  }

  /** The bar index the cursor shows: the first bar holding `t`, or 0 when none does. */
  function BarIndex(bars: seq<real>, t: real): (i: nat)
    ensures |bars| > 0 ==> i < |bars|
    ensures (exists j :: 0 <= j < |bars| && InBar(bars, j, t)) ==>
      InBar(bars, i, t) && forall j :: 0 <= j < i ==> !InBar(bars, j, t)
    ensures (forall j :: 0 <= j < |bars| ==> !InBar(bars, j, t)) ==> i == 0
  {
    var f := FindBarFrom(bars, t, 0);
    if f == -1 then 0 else f
  }

  /**
   On an increasing grid the bar holding a position is unique, and every
   position from the first bar on lies in some bar.
   */
  lemma InBarUnique(bars: seq<real>, t: real, i: nat, j: nat)
    requires StrictlyIncreasing(bars)
    requires i < |bars| && j < |bars|
    requires InBar(bars, i, t) && InBar(bars, j, t)
    ensures i == j
  {
    InBarExcludesLater(bars, t, i, j);
    InBarExcludesLater(bars, t, j, i);
  }

  /** A position in bar `i` is not in any later bar. */
  lemma InBarExcludesLater(bars: seq<real>, t: real, i: nat, j: nat)
    requires StrictlyIncreasing(bars)
    requires i < |bars| && j < |bars|
    ensures i < j && InBar(bars, i, t) ==> !InBar(bars, j, t)
  {
    if i < j {
      assert bars[i + 1] <= bars[j];
    }
  }

  lemma {:induction false} SomeBarHolds(bars: seq<real>, t: real, lo: nat)
    requires StrictlyIncreasing(bars)
    requires lo < |bars| && bars[lo] <= t
    ensures exists j :: lo <= j < |bars| && InBar(bars, j, t)
    decreases |bars| - lo
  {
    if !InBar(bars, lo, t) {
      SomeBarHolds(bars, t, lo + 1);
    }
  }

  /**
   On an increasing grid the cursor's bar is the one holding `t` when `t`
   is at or after the first bar, and bar 0 before it.
   */
  lemma BarIndexOnGrid(bars: seq<real>, t: real)
    requires StrictlyIncreasing(bars) && |bars| > 0
    ensures t >= bars[0] ==> InBar(bars, BarIndex(bars, t), t)
    ensures t >= bars[0] ==> forall j :: 0 <= j < |bars| && InBar(bars, j, t) ==> j == BarIndex(bars, t)
    ensures t < bars[0] ==> BarIndex(bars, t) == 0
  {
    if t >= bars[0] {
      SomeBarHolds(bars, t, 0);
      forall j | 0 <= j < |bars| && InBar(bars, j, t)
        ensures j == BarIndex(bars, t)
      {
        InBarUnique(bars, t, j, BarIndex(bars, t));
      }
    }
  }

  // ---------------------------------------------------------------------
  // Subdivision

  /** End of bar `i`: the next bar's start, or the fallback length after the last bar. */
  function BarEnd(bars: seq<real>, i: nat): (e: real)
    requires i < |bars|
    ensures StrictlyIncreasing(bars) ==> e > bars[i]
    ensures i + 1 < |bars| ==> e == bars[i + 1]
    ensures i + 1 == |bars| ==> e == bars[i] + LastBarFallback
  {
    if i + 1 < |bars| then bars[i + 1] else bars[i] + LastBarFallback
  }

  /** Width of one beat-sized slice of bar `i`. */
  function SliceWidth(bars: seq<real>, beatsPerBar: nat, i: nat): (w: real)
    requires StrictlyIncreasing(bars) && i < |bars| && beatsPerBar > 0
    ensures w > 0.0
    ensures beatsPerBar as real * w == BarEnd(bars, i) - bars[i]
  {
    var w := (BarEnd(bars, i) - bars[i]) / beatsPerBar as real;
    assert w * beatsPerBar as real == BarEnd(bars, i) - bars[i];
    w
  }

  /**
   Index of the beat-sized slice of bar `i` that `t` falls in:
   `floor((t - start) / ((end - start) / beatsPerBar))`.
   */
  function Subdivision(bars: seq<real>, beatsPerBar: nat, t: real, i: nat): (s: int)
    requires StrictlyIncreasing(bars) && i < |bars| && beatsPerBar > 0
    ensures s as real * SliceWidth(bars, beatsPerBar, i) <= t - bars[i]
    ensures t - bars[i] < (s + 1) as real * SliceWidth(bars, beatsPerBar, i)
  {
    Slices(t - bars[i], SliceWidth(bars, beatsPerBar, i))
  }

  /** A position inside bar `i` falls in one of its `beatsPerBar` slices; its start in slice 0. */
  lemma SubdivisionInRange(bars: seq<real>, beatsPerBar: nat, t: real, i: nat)
    requires StrictlyIncreasing(bars) && i < |bars| && beatsPerBar > 0
    requires bars[i] <= t < BarEnd(bars, i)
    ensures 0 <= Subdivision(bars, beatsPerBar, t, i) < beatsPerBar
    ensures t == bars[i] ==> Subdivision(bars, beatsPerBar, t, i) == 0
  {
    var s := Subdivision(bars, beatsPerBar, t, i);
    var w := SliceWidth(bars, beatsPerBar, i);
    var b := beatsPerBar as real;
    assert b * w == BarEnd(bars, i) - bars[i];
    MulMonotone((s + 1) as real, 0.0, w);
    MulMonotone(b, s as real, w);
    if t == bars[i] {
      SlicesUnique(0.0, w, 0);
    }
  }

  /** The final stretch of a bar, one slice wide, is its last subdivision. */
  lemma LastSliceBeforeNextBar(bars: seq<real>, beatsPerBar: nat, t: real, i: nat)
    requires StrictlyIncreasing(bars) && i < |bars| && beatsPerBar > 0
    requires BarEnd(bars, i) - SliceWidth(bars, beatsPerBar, i) <= t < BarEnd(bars, i)
    ensures Subdivision(bars, beatsPerBar, t, i) == beatsPerBar - 1
  {
    var w := SliceWidth(bars, beatsPerBar, i);
    var k := beatsPerBar - 1;
    assert (k + 1) as real * w == BarEnd(bars, i) - bars[i];
    assert k as real * w == (k + 1) as real * w - w;
    SlicesUnique(t - bars[i], w, k);
  }

  // ---------------------------------------------------------------------
  // Loop selection

  /** The selected loop of bars and whether looping is switched on. */
  datatype LoopState = LoopState(start: Option<nat>, end: Option<nat>, active: bool)

  /** No loop selected. */
  const NoLoop: LoopState := LoopState(None, None, false)

  /** An end is only ever set together with a start not after it. */
  predicate Ordered(s: LoopState)
  {
    s.end.Some? ==> s.start.Some? && s.start.value <= s.end.value
  }

  /** Every selected bar exists in a grid of `n` bars. */
  predicate WithinGrid(s: LoopState, n: nat)
  {
    && (s.start.Some? ==> s.start.value < n)
    && (s.end.Some? ==> s.end.value < n)
  }

  /**
   A click on bar `i`: with nothing selected it selects the one-bar loop
   (i, i); with only a start it closes the loop at `i` when `i` is not
   before the start, otherwise it restarts the selection at `i`; with both
   ends set it restarts the selection at `i`.
   */
  function BarClick(s: LoopState, i: nat): (r: LoopState)
    ensures r.active == s.active
    ensures r.start == Some(i) || (r.start == s.start && r.end == Some(i))
    ensures s.start.None? ==> r.start == Some(i) && r.end == Some(i)
    ensures s.start.Some? && s.end.None? && i >= s.start.value ==> r.start == s.start && r.end == Some(i)
    ensures s.start.Some? && (s.end.Some? || i < s.start.value) ==> r.end.None?
  {
    if s.start.None? then s.(start := Some(i), end := Some(i))
    else if s.end.None? then
      if i >= s.start.value then s.(end := Some(i))
      else s.(start := Some(i), end := None)
    else s.(start := Some(i), end := None)
  }

  /** The "loop" button, enabled only while both ends are set. */
  function ToggleLoop(s: LoopState): (r: LoopState)
    ensures r.start == s.start && r.end == s.end
    ensures s.start.Some? && s.end.Some? ==> r.active == !s.active
    ensures s.start.None? || s.end.None? ==> r == s
  {
    if s.start.Some? && s.end.Some? then s.(active := !s.active) else s
  }

  /** The "clear loop" button. */
  function ClearLoop(s: LoopState): (r: LoopState)
    ensures r.start.None? && r.end.None? && !r.active
    ensures forall i :: !Highlighted(r, i)
  {
    NoLoop
  }

  /** Bar `i` is drawn highlighted: both ends set and `start <= i <= end`. */
  predicate Highlighted(s: LoopState, i: nat)
    ensures Highlighted(s, i) ==> s.start.Some? && s.end.Some? && s.start.value <= s.end.value
    ensures s.start.Some? && s.end.Some? && s.start.value == s.end.value ==>
      (Highlighted(s, i) <==> i == s.start.value)
  {
    s.start.Some? && s.end.Some? && s.start.value <= i <= s.end.value
  }

  /** Clicks, toggles and clearing keep the loop ends ordered and inside the grid. */
  lemma LoopInvariant(s: LoopState, i: nat, n: nat)
    requires Ordered(s) && WithinGrid(s, n) && i < n
    ensures Ordered(BarClick(s, i)) && WithinGrid(BarClick(s, i), n)
    ensures Ordered(ToggleLoop(s)) && WithinGrid(ToggleLoop(s), n)
    ensures Ordered(ClearLoop(s)) && WithinGrid(ClearLoop(s), n)
  {
  }

  /**
   What a click shows: the first click highlights exactly its bar; a
   closing click highlights the bars from the start to it; a restarting
   click highlights nothing.
   */
  lemma ClickHighlights(s: LoopState, i: nat, j: nat)
    requires Ordered(s)
    ensures var r := BarClick(s, i);
      && (s.start.None? ==> (Highlighted(r, j) <==> j == i))
      && (s.start.Some? && s.end.None? && i >= s.start.value ==>
            (Highlighted(r, j) <==> s.start.value <= j <= i))
      && (s.start.Some? && (s.end.Some? || i < s.start.value) ==> !Highlighted(r, j))
  {
  }

  // ---------------------------------------------------------------------
  // One frame of the cursor

  /** Where the cursor is drawn, and where playback jumps to when a loop rewinds. */
  datatype Cursor = Cursor(bar: nat, subdivision: int, seek: Option<real>)

  /** The loop rewinds when looping is on, both ends are set and `t` has reached the end of the last looped bar. */
  predicate Rewinds(bars: seq<real>, loop: LoopState, t: real)
    requires WithinGrid(loop, |bars|)
    ensures Rewinds(bars, loop, t) ==> loop.active && loop.start.Some? && loop.end.Some?
    ensures Rewinds(bars, loop, t) && loop.end.value + 1 < |bars| ==> t >= bars[loop.end.value + 1]
    ensures Rewinds(bars, loop, t) && loop.end.value + 1 == |bars| ==>
      t >= bars[loop.end.value] + LastBarFallback
  {
    loop.active && loop.start.Some? && loop.end.Some? && t >= BarEnd(bars, loop.end.value)
  }

  /**
   One polling step at audio position `t`: locate the bar, rewind an
   active loop that has run past its last bar (seeking to the loop's first
   bar and reporting it), then compute the subdivision.
   */
  function UpdateCursor(bars: seq<real>, beatsPerBar: nat, t: real, loop: LoopState): (c: Cursor)
    requires |bars| > 0 && StrictlyIncreasing(bars) && beatsPerBar > 0
    requires WithinGrid(loop, |bars|)
    ensures c.bar < |bars|
    ensures c.seek.Some? <==> Rewinds(bars, loop, t)
    ensures c.seek.Some? ==> c.seek.value == bars[loop.start.value] && c.bar == loop.start.value
    ensures c.seek.None? ==> c.bar == BarIndex(bars, t)
    ensures c.subdivision == Subdivision(bars, beatsPerBar, t, c.bar)
  {
    var located := BarIndex(bars, t);
    var rewind := Rewinds(bars, loop, t);
    var bar := if rewind then loop.start.value else located;
    Cursor(bar, Subdivision(bars, beatsPerBar, t, bar), if rewind then Some(bars[loop.start.value]) else None)
  }

  /**
   On a rewind the subdivision is still computed from the old position,
   which lies past the end of the loop's first bar, so for that frame it
   is at least `beatsPerBar` and no slice of the bar is lit.
   */
  lemma RewindFrameSubdivision(bars: seq<real>, beatsPerBar: nat, t: real, loop: LoopState)
    requires |bars| > 0 && StrictlyIncreasing(bars) && beatsPerBar > 0
    requires WithinGrid(loop, |bars|) && Ordered(loop)
    requires Rewinds(bars, loop, t)
    ensures UpdateCursor(bars, beatsPerBar, t, loop).subdivision >= beatsPerBar
  {
    var st := loop.start.value;
    var en := loop.end.value;
    var c := UpdateCursor(bars, beatsPerBar, t, loop);
    assert BarEnd(bars, st) <= BarEnd(bars, en) by {
      if st < en {
        assert bars[st + 1] <= bars[en];
      }
    }
    var w := SliceWidth(bars, beatsPerBar, st);
    assert c.bar == st;
    SlicesAtLeast(t - bars[st], w, beatsPerBar);
  }

  /**
   The loop of bars 1 to 2 on the grid 0, 1000, 2000, 3000 ms: 2999 ms
   plays on in bar 2, 3000 ms rewinds to 1000 ms and bar 1.
   */
  lemma LoopExample()
    ensures var bars := [0.0, 1000.0, 2000.0, 3000.0];
      var loop := LoopState(Some(1), Some(2), true);
      && UpdateCursor(bars, 4, 2999.0, loop).seek == None
      && UpdateCursor(bars, 4, 2999.0, loop).bar == 2
      && UpdateCursor(bars, 4, 3000.0, loop).seek == Some(1000.0)
      && UpdateCursor(bars, 4, 3000.0, loop).bar == 1
  {
    var bars := [0.0, 1000.0, 2000.0, 3000.0];
    assert InBar(bars, 2, 2999.0);
    BarIndexOnGrid(bars, 2999.0);
  }

  /** A position exactly on a bar start, with no rewind, shows that bar at subdivision 0. */
  lemma OnBarStart(bars: seq<real>, beatsPerBar: nat, j: nat, loop: LoopState)
    requires |bars| > 0 && StrictlyIncreasing(bars) && beatsPerBar > 0
    requires WithinGrid(loop, |bars|) && j < |bars|
    requires !Rewinds(bars, loop, bars[j])
    ensures UpdateCursor(bars, beatsPerBar, bars[j], loop).bar == j
    ensures UpdateCursor(bars, beatsPerBar, bars[j], loop).subdivision == 0
  {
    assert InBar(bars, j, bars[j]);
    BarIndexOnGrid(bars, bars[j]);
    SubdivisionInRange(bars, beatsPerBar, bars[j], j);
  }

  // ---------------------------------------------------------------------
  // Metronome

  /** Click number `beatCount` (from 0) is accented when it starts a bar. */
  predicate IsDownbeat(beatCount: nat, beatsPerBar: nat)
    requires beatsPerBar > 0
    ensures beatCount < beatsPerBar ==> (IsDownbeat(beatCount, beatsPerBar) <==> beatCount == 0)
  {
    beatCount % beatsPerBar == 0
  }

  /** Accented clicks are exactly the multiples of the bar length, so one per bar. */
  lemma {:induction false} DownbeatsAreBarStarts(beatCount: nat, beatsPerBar: nat)
    requires beatsPerBar > 0
    ensures IsDownbeat(beatCount, beatsPerBar) <==> exists bar: nat :: beatCount == bar * beatsPerBar
  {
    if IsDownbeat(beatCount, beatsPerBar) {
      var bar := beatCount / beatsPerBar;
      assert beatCount == bar * beatsPerBar;
    }
    if exists bar: nat :: beatCount == bar * beatsPerBar {
      var bar: nat :| beatCount == bar * beatsPerBar;
      ModUnique(beatCount, beatsPerBar, bar, 0);
    }
  }
}
