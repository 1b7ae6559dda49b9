/**
 The bar/beat read-out component. It locates the bar with its own search,
 which differs from the player's in two ways: the next bar's start is read
 with `||`, so a next bar starting at exactly 0 counts as open-ended, and
 a position in no bar keeps the index -1 instead of falling back to 0.
 The beat is counted from 1 in units of `60000 / tempo` ms.
 */
module BarDisplay {
  import opened Maybe
  import opened Stats
  import opened BarGrid
  import opened Meter
  import Player

  /** Position `t` is in bar `i` as this component sees it (`bars[i + 1] || Infinity`). */
  predicate InBarLoose(bars: seq<real>, i: nat, t: real)
    requires i < |bars|
    ensures InBarLoose(bars, i, t) ==> bars[i] <= t
    ensures i + 1 < |bars| && bars[i + 1] == 0.0 ==> (InBarLoose(bars, i, t) <==> bars[i] <= t)
  {
    bars[i] <= t && (i + 1 == |bars| || bars[i + 1] == 0.0 || t < bars[i + 1])
  }

  /** `findIndex` from position `from` on, or -1. */
  function FindBarLoose(bars: seq<real>, t: real, from: nat): (r: int)
    requires from <= |bars|
    ensures r == -1 || from <= r < |bars|
    ensures r == -1 <==> forall i :: from <= i < |bars| ==> !InBarLoose(bars, i, t)
    ensures r != -1 ==> InBarLoose(bars, r, t) && forall i :: from <= i < r ==> !InBarLoose(bars, i, t)
    decreases |bars| - from
  {
    if from == |bars| then -1
    else if InBarLoose(bars, from, t) then from
    else FindBarLoose(bars, t, from + 1)
  }

  /** Beat and bar lengths the component derives from the tempo and signature. */
  datatype Timing = Timing(msPerBeat: real, msPerBar: real)

  function TimingOf(tempo: nat, signature: string): (tm: Timing)
    requires tempo > 0 && WellFormed(signature)
    ensures tm.msPerBeat * tempo as real == 60000.0
    ensures tm.msPerBar == GridStep(tempo, signature)
  {
    var beat := 60000.0 / tempo as real;
    assert beat * tempo as real == 60000.0;
    var perBar := BeatsPerBar(signature).value as real * beat;
    assert perBar * tempo as real == BeatsPerBar(signature).value as real * 60000.0;
    BarDurationUnique(tempo, BeatsPerBar(signature).value, perBar);
    Timing(beat, perBar)
  }

  /** A bar length is determined by `d * bpm == 60000 * beatsPerBar`. */
  lemma BarDurationUnique(bpm: nat, beatsPerBar: nat, d: real)
    requires bpm > 0 && beatsPerBar > 0
    requires d * bpm as real == 60000.0 * beatsPerBar as real
    ensures d == BarDuration(bpm, beatsPerBar)
  {
    var e := BarDuration(bpm, beatsPerBar);
    var x := d - e;
    assert x * bpm as real == d * bpm as real - e * bpm as real;
    assert x * bpm as real == 0.0;
    assert x == (x * bpm as real) / bpm as real;
  }

  /** What the component shows: the located bar index (-1 for none) and the beat within it, from 1. */
  datatype Readout = Readout(bar: int, beat: int)

  /** Start the beat is counted from: `bars[bar] || 0`. */
  function CountFrom(bars: seq<real>, bar: int): (start: real)
    requires -1 <= bar < |bars|
    ensures bar >= 0 ==> start == bars[bar]
    ensures bar == -1 ==> start == 0.0
  {
    if bar >= 0 then bars[bar] else 0.0
  }

  /** The read-out at position `t`; nothing is shown for an empty grid. */
  function Display(bars: seq<real>, tempo: nat, t: real): (r: Option<Readout>)
    requires tempo > 0
    ensures r.None? <==> |bars| == 0
    ensures r.Some? ==> -1 <= r.value.bar < |bars|
    ensures r.Some? && r.value.bar >= 0 ==>
      InBarLoose(bars, r.value.bar, t) && forall i :: 0 <= i < r.value.bar ==> !InBarLoose(bars, i, t)
    ensures r.Some? && r.value.bar == -1 ==> forall i :: 0 <= i < |bars| ==> !InBarLoose(bars, i, t)
    ensures r.Some? ==>
      var beat := 60000.0 / tempo as real;
      var since := t - CountFrom(bars, r.value.bar);
      (r.value.beat - 1) as real * beat <= since < r.value.beat as real * beat
  {
    if |bars| == 0 then None
    else
      var bar := FindBarLoose(bars, t, 0);
      var beat := 60000.0 / tempo as real;
      assert beat > 0.0;
      var n := Slices(t - CountFrom(bars, bar), beat);
      Some(Readout(bar, n + 1))
  }

  /** At the start of the bar it locates, the read-out shows beat 1. */
  lemma BeatOneAtBarStart(bars: seq<real>, tempo: nat, j: nat)
    requires tempo > 0 && j < |bars|
    requires Display(bars, tempo, bars[j]).value.bar == j
    ensures Display(bars, tempo, bars[j]).value.beat == 1
  {
    var r := Display(bars, tempo, bars[j]).value;
    var beat := 60000.0 / tempo as real;
    assert beat > 0.0;
    var lo := (r.beat - 1) as real * beat;
    var hi := r.beat as real * beat;
    assert lo <= 0.0 < hi;
    MulMonotone(r.beat as real, 0.0, beat);
    MulMonotone(1.0, (r.beat - 1) as real, beat);
  }

  /** Where no later bar starts at exactly 0, both notions of "in bar" coincide. */
  lemma {:induction false} LooseSearchAgrees(bars: seq<real>, t: real, from: nat)
    requires from <= |bars|
    requires forall k :: 1 <= k < |bars| ==> bars[k] != 0.0
    ensures FindBarLoose(bars, t, from) == Player.FindBarFrom(bars, t, from)
    decreases |bars| - from
  {
    if from < |bars| {
      assert InBarLoose(bars, from, t) == Player.InBar(bars, from, t);
      LooseSearchAgrees(bars, t, from + 1);
    }
  }

  /**
   On such grids the read-out's bar is the player's bar, except that a
   position in no bar reads -1 here and 0 in the player.
   */
  lemma DisplayMatchesPlayer(bars: seq<real>, tempo: nat, t: real)
    requires tempo > 0 && |bars| > 0
    requires forall k :: 1 <= k < |bars| ==> bars[k] != 0.0
    ensures var shown := Display(bars, tempo, t).value.bar;
      && (shown >= 0 ==> shown == Player.BarIndex(bars, t))
      && (shown == -1 ==> Player.BarIndex(bars, t) == 0)
  {
    LooseSearchAgrees(bars, t, 0);
  }

  /** Grids built from non-negative downbeats never start a later bar at 0. */
  lemma GridHasNoLaterZero(downbeats: seq<real>, bpm: nat, signature: string, duration: real)
    requires bpm > 0 && WellFormed(signature)
    requires forall k :: 0 <= k < |downbeats| ==> downbeats[k] >= 0.0
    ensures var bars := CalcBars(downbeats, bpm, signature, duration);
      forall k :: 1 <= k < |bars| ==> bars[k] > 0.0
  {
    var bars := CalcBars(downbeats, bpm, signature, duration);
    if |bars| > 1 {
      FirstBarPlacement(downbeats, bpm, signature, duration);
      CalcBarsIncreasing(downbeats, bpm, signature, duration);
      var d := GridStep(bpm, signature);
      assert bars[1] - bars[0] == d;
      assert bars[1] > 0.0;
      forall k | 1 <= k < |bars|
        ensures bars[k] > 0.0
      {
        assert bars[1] <= bars[k];
      }
    }
  }

  /**
   A next bar starting at exactly 0 is read as open-ended: on the grid
   -2000, 0, 2000 ms the position 500 ms shows bar index 0 (beat 6 at
   120 BPM), while the player places it in bar 1.
   */
  lemma ZeroStartQuirk()
    ensures var bars := [-2000.0, 0.0, 2000.0];
      && Display(bars, 120, 500.0) == Some(Readout(0, 6))
      && Player.BarIndex(bars, 500.0) == 1
  {
    var bars := [-2000.0, 0.0, 2000.0];
    assert InBarLoose(bars, 0, 500.0);
    assert !Player.InBar(bars, 0, 500.0);
    assert Player.InBar(bars, 1, 500.0);
    var r := Display(bars, 120, 500.0).value;
    assert 60000.0 / 120.0 == 500.0;
    assert (r.beat - 1) as real * 500.0 <= 2500.0 < r.beat as real * 500.0;
  }

  /** Before the first bar of an increasing grid the read-out shows index -1. */
  lemma BeforeFirstBar(bars: seq<real>, tempo: nat, t: real)
    requires tempo > 0 && |bars| > 0 && StrictlyIncreasing(bars)
    requires t < bars[0]
    ensures Display(bars, tempo, t).value.bar == -1
  {
    forall i | 0 <= i < |bars|
      ensures !InBarLoose(bars, i, t)
    {
      assert bars[0] <= bars[i];
    }
  }
}
