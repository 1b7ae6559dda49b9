/**
 The wizard's time-signature step: the user taps the first beat of up to
 ten bars while the song plays; the mean of those taps anchors a grid of
 bar starts that is tiled forward one bar duration at a time until the end
 of the audio, with at most one extra bar added in front when the anchor
 lies more than half a bar after time zero.
 */
module BarGrid {
  import opened Maybe
  import opened Stats
  import opened Meter
  import opened Songs

  /** Number of downbeat taps collected (and required) per pass. */
  const MaxDownbeats: nat := 10

  // ---------------------------------------------------------------------
  // Downbeat capture

  /** The downbeats tapped so far and whether the space bar is being listened to. */
  datatype Capture = Capture(downbeats: seq<real>, listening: bool)

  /** The start button: forget earlier taps and listen. */
  function StartCapture(): (c: Capture)
    ensures c.listening && |c.downbeats| == 0
  {
    Capture([], true)
  }

  /**
   One space-bar press at playback time `now` (the key listener exists
   only while listening). A full list ignores the tap; the tenth tap stops
   listening.
   */
  function OnDownbeatTap(c: Capture, now: real): (r: Capture)
    requires c.listening
    ensures |c.downbeats| >= MaxDownbeats ==> r == c
    ensures |c.downbeats| < MaxDownbeats ==>
      && r.downbeats == c.downbeats + [now]
      && (r.listening <==> |r.downbeats| < MaxDownbeats)
  {
    if |c.downbeats| >= MaxDownbeats then c
    else
      var added := c.downbeats + [now];
      Capture(added, |added| < MaxDownbeats)
  }

  /** While listening there is room for another downbeat. */
  predicate CaptureInv(c: Capture)
  {
    c.listening ==> |c.downbeats| < MaxDownbeats
  }

  /** A sequence of presses; presses made while not listening reach no handler. */
  function CaptureTaps(c: Capture, presses: seq<real>): Capture
    decreases |presses|
  {
    if |presses| == 0 then c
    else
      var c' := if c.listening then OnDownbeatTap(c, presses[0]) else c;
      CaptureTaps(c', presses[1..])
  }

  /**
   Starting a pass and pressing any number of times keeps the first ten
   presses, and listening stops exactly when the tenth arrives.
   */
  lemma CaptureKeepsFirstTen(presses: seq<real>)
    ensures var c := CaptureTaps(StartCapture(), presses);
      && c.downbeats == presses[..if |presses| < MaxDownbeats then |presses| else MaxDownbeats]
      && (c.listening <==> |presses| < MaxDownbeats)
  {
    CaptureFrom(StartCapture(), presses);
    assert [] + presses == presses;
  }

  lemma {:induction false} CaptureFrom(c: Capture, presses: seq<real>)
    requires c.listening && CaptureInv(c)
    ensures var all := c.downbeats + presses;
      var n := if |all| < MaxDownbeats then |all| else MaxDownbeats;
      var r := CaptureTaps(c, presses);
      && r.downbeats == all[..n]
      && (r.listening <==> |all| < MaxDownbeats)
    decreases |presses|
  {
    var all := c.downbeats + presses;
    if |presses| == 0 {
      assert all == c.downbeats;
    } else {
      var c' := OnDownbeatTap(c, presses[0]);
      assert c'.downbeats + presses[1..] == all;
      if c'.listening {
        CaptureFrom(c', presses[1..]);
      } else {
        assert |c'.downbeats| == MaxDownbeats;
        CaptureIdle(c', presses[1..]);
        assert all[..MaxDownbeats] == c'.downbeats;
      }
    }
  }

  /** Once listening has stopped, further presses change nothing. */
  lemma {:induction false} CaptureIdle(c: Capture, presses: seq<real>)
    requires !c.listening
    ensures CaptureTaps(c, presses) == c
    decreases |presses|
  {
    if |presses| > 0 {
      CaptureIdle(c, presses[1..]);
    }
  }

  /** The capture invariant survives starting, tapping and stopping. */
  lemma CaptureInvPreserved(c: Capture, now: real)
    ensures CaptureInv(StartCapture())
    ensures CaptureInv(c.(listening := false))
    ensures c.listening && CaptureInv(c) ==>
      CaptureInv(OnDownbeatTap(c, now)) && |OnDownbeatTap(c, now).downbeats| <= MaxDownbeats
  {
  }

  // ---------------------------------------------------------------------
  // Grid construction

  /** Length of one bar in ms: `beatsPerBar` beats of `60000 / bpm` ms each. */
  function BarDuration(bpm: nat, beatsPerBar: nat): (d: real)
    requires bpm > 0 && beatsPerBar > 0
    ensures d > 0.0
    ensures d * bpm as real == 60000.0 * beatsPerBar as real
  {
    var beat := 60000.0 / bpm as real;
    assert beat * bpm as real == 60000.0;
    beat * beatsPerBar as real
  }

  /** Bar length for a tempo and a signature string. */
  function GridStep(bpm: nat, signature: string): (d: real)
    requires bpm > 0 && WellFormed(signature)
    ensures d > 0.0
  {
    BarDuration(bpm, BeatsPerBar(signature).value)
  }

  /** Adjacent entries differ by exactly `step`. */
  predicate Spaced(bars: seq<real>, step: real)
  {
    forall k :: 0 <= k < |bars| - 1 ==> bars[k + 1] - bars[k] == step
  }

  predicate StrictlyIncreasing(xs: seq<real>)
  {
    forall i, j :: 0 <= i < j < |xs| ==> xs[i] < xs[j]
  }

  /**
   The forward tiling loop: push `current`, advance by `step`, while
   `current` stays below `limit`.
   */
  function ForwardTiles(current: real, step: real, limit: real): (bars: seq<real>)
    requires step > 0.0
    ensures |bars| > 0 <==> current < limit
    ensures |bars| > 0 ==> bars[0] == current
    ensures Spaced(bars, step)
    ensures forall k :: 0 <= k < |bars| ==> bars[k] < limit
    ensures |bars| > 0 ==> bars[|bars| - 1] + step >= limit
    decreases if current < limit then ((limit - current) / step).Floor + 1 else 0
  {
    if current < limit then
      DivShift(limit - current, step);
      var rest := ForwardTiles(current + step, step, limit);
      var bars := [current] + rest;
      assert forall k :: 1 <= k < |bars| ==> bars[k] == rest[k - 1];
      bars
    else []
  }

  /** Closed form of a spaced grid: entry k lies k steps after the first. */
  lemma {:induction false} SpacedClosedForm(bars: seq<real>, step: real, k: nat)
    requires Spaced(bars, step) && k < |bars|
    ensures bars[k] == bars[0] + k as real * step
  {
    if k > 0 {
      SpacedClosedForm(bars, step, k - 1);
      assert bars[k] - bars[k - 1] == step;
      assert k as real * step == (k - 1) as real * step + step;
    }
  }

  lemma DivShift(a: real, s: real)
    requires s > 0.0
    ensures (a - s) / s == a / s - 1.0
  {
    var q := a / s;
    var r := (a - s) / s;
    assert q * s == a;
    assert r * s == a - s;
    assert (r - q + 1.0) * s == r * s - q * s + s;
    var x := r - q + 1.0;
    assert x * s == 0.0;
    assert x == (x * s) / s;
  }

  /** Bar starts for the given downbeats, tempo, signature and audio length. */
  function CalcBars(downbeats: seq<real>, bpm: nat, signature: string, duration: real): (bars: seq<real>)
    requires bpm > 0 && WellFormed(signature)
    ensures |downbeats| == 0 ==> bars == []
    ensures Spaced(bars, GridStep(bpm, signature))
    ensures forall k :: 0 <= k < |bars| ==> bars[k] < duration
    ensures |downbeats| > 0 ==> (|bars| > 0 <==> Average(downbeats) < duration)
    ensures |bars| > 0 ==>
      var a := Average(downbeats);
      var d := GridStep(bpm, signature);
      || (bars[0] == a && a <= d * 0.5)
      || (|bars| > 1 && bars[0] == a - d && a > d * 0.5 && bars[1] == a)
    ensures |bars| > 0 ==> bars[|bars| - 1] + GridStep(bpm, signature) >= duration
  {
    if |downbeats| == 0 then []
    else
      var d := GridStep(bpm, signature);
      var tiles := ForwardTiles(Average(downbeats), d, duration);
      if |tiles| > 0 && tiles[0] > d * 0.5 then
        var bars := [tiles[0] - d] + tiles;
        assert forall k :: 1 <= k < |bars| ==> bars[k] == tiles[k - 1];
        bars
      else tiles
  }

  /** A grid spaced by a positive step is strictly increasing. */
  lemma {:induction false} SpacedIncreasing(bars: seq<real>, step: real)
    requires step > 0.0 && Spaced(bars, step)
    ensures StrictlyIncreasing(bars)
    decreases |bars|
  {
    if |bars| > 1 {
      var init := bars[..|bars| - 1];
      SpacedIncreasing(init, step);
      var last := |bars| - 1;
      forall i | 0 <= i < last
        ensures bars[i] < bars[last]
      {
        assert init[i] <= init[last - 1] by {
          if i < last - 1 {
            assert init[i] < init[last - 1];
          }
        }
        assert bars[last] - bars[last - 1] == step;
      }
    }
  }

  /** The bar grid is strictly increasing. */
  lemma CalcBarsIncreasing(downbeats: seq<real>, bpm: nat, signature: string, duration: real)
    requires bpm > 0 && WellFormed(signature)
    ensures StrictlyIncreasing(CalcBars(downbeats, bpm, signature, duration))
  {
    SpacedIncreasing(CalcBars(downbeats, bpm, signature, duration), GridStep(bpm, signature));
  }

  /**
   Non-negative downbeats give a first bar later than minus half a bar;
   it is within half a bar of zero unless the anchor lies more than one and
   a half bars in, where only one leading bar is added and the start of
   the audio stays uncovered.
   */
  lemma FirstBarPlacement(downbeats: seq<real>, bpm: nat, signature: string, duration: real)
    requires bpm > 0 && WellFormed(signature)
    requires forall k :: 0 <= k < |downbeats| ==> downbeats[k] >= 0.0
    requires |downbeats| > 0 && Average(downbeats) < duration
    ensures var bars := CalcBars(downbeats, bpm, signature, duration);
      var d := GridStep(bpm, signature);
      var a := Average(downbeats);
      && |bars| > 0
      && bars[0] > -d * 0.5
      && (a <= 1.5 * d ==> bars[0] <= d * 0.5)
      && (a > 1.5 * d ==> bars[0] > d * 0.5)
  {
    AverageWithin(downbeats, 0.0, MaxOf(downbeats));
  }

  /** Largest element, or 0 for the empty list; used as a loose upper bound. */
  function MaxOf(xs: seq<real>): (m: real)
    ensures forall k :: 0 <= k < |xs| ==> xs[k] <= m
  {
    if |xs| == 0 then 0.0
    else
      var m0 := MaxOf(xs[..|xs| - 1]);
      if xs[|xs| - 1] > m0 then xs[|xs| - 1] else m0
  }

  /** Two bars of 4/4 at 120 BPM tapped at one second, in five seconds of audio. */
  lemma OneSecondAnchorExample(downbeats: seq<real>)
    requires |downbeats| == MaxDownbeats
    requires forall k :: 0 <= k < |downbeats| ==> downbeats[k] == 1000.0
    ensures CalcBars(downbeats, 120, "4/4", 5000.0) == [1000.0, 3000.0]
  {
    OfferedSignatures();
    AverageConstant(downbeats, 1000.0);
    assert GridStep(120, "4/4") == 2000.0 by {
      assert BarDuration(120, 4) * 120.0 == 240000.0;
    }
    var tiles := ForwardTiles(1000.0, 2000.0, 5000.0);
    assert tiles == [1000.0, 3000.0] by {
      assert |tiles| == 2 by {
        assert 1000.0 + |tiles| as real * 2000.0 >= 5000.0;
        assert tiles[|tiles| - 1] < 5000.0;
      }
    }
  }

  // ---------------------------------------------------------------------
  // Finishing the step

  datatype FinishError = TempoMissing | TooFewDownbeats

  datatype Finish = Saved(song: Song) | Rejected(error: FinishError)

  /** `!bpm` in the source: no tempo, or a tempo of zero. */
  predicate NoTempo(song: Song)
  {
    song.tempo.None? || song.tempo.value == 0
  }

  /**
   The "save and continue" button: refuses without a tempo or with fewer
   than ten downbeats, otherwise stores the signature, downbeats, grid and
   duration in the song. `selected` comes from the signature drop-down.
   */
  function OnFinish(song: Song, selected: string, downbeats: seq<real>, duration: real): (r: Finish)
    requires selected in TimeSignatures
    ensures NoTempo(song) ==> r == Rejected(TempoMissing)
    ensures !NoTempo(song) && |downbeats| < MaxDownbeats ==> r == Rejected(TooFewDownbeats)
    ensures r.Saved? <==> !NoTempo(song) && |downbeats| >= MaxDownbeats
    ensures r.Saved? ==>
      && r.song.id == song.id && r.song.name == song.name && r.song.tempo == song.tempo
      && r.song.timeSignature == selected
      && r.song.downbeats == downbeats
      && r.song.duration == duration
      && (|r.song.bars| > 0 <==> Average(downbeats) < duration)
      && r.song.bars == CalcBars(downbeats, song.tempo.value, selected, duration)
  {
    if NoTempo(song) then Rejected(TempoMissing)
    else if |downbeats| < MaxDownbeats then Rejected(TooFewDownbeats)
    else
      OfferedSignatures();
      var bars := CalcBars(downbeats, song.tempo.value, selected, duration);
      Saved(song.(timeSignature := selected, downbeats := downbeats, bars := bars, duration := duration))
  }
}
