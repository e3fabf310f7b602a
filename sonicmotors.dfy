/** The motor driver: a bank of pins driven with phase-shifted square
    waves of one frequency, replayed from one cyclic waveform.  `Motors.Set`
    builds the transitions of one period, sorts them, merges them into
    wave points and hands those to the waveform engine. */
module SonicMotors {
  import opened Bitmask
  import opened Schedule
  import opened Pulses

  /** The exceptions `set` can raise on its own inputs. */
  datatype Error =
    | IndexError         // fewer phases than driven pins
    | ZeroDivisionError  // a zero frequency, or a zero period with a driven pin

  datatype Result<T> = Success(value: T) | Failure(error: Error)

  /** The period in whole microseconds: `1e6 // freq`. */
  function PeriodOf(freq: nat): (p: nat)
    requires freq > 0
    ensures p * freq <= 1000000 < (p + 1) * freq
  {
    1000000 / freq
  }

  /** The rising times of the driven pins, one per phase fraction. */
  function Rises(phases: seq<real>, period: nat): (rises: seq<int>)
    ensures |rises| == |phases|
    ensures forall i :: 0 <= i < |phases| ==> rises[i] == RiseTime(phases[i], period)
  {
    seq(|phases|, i requires 0 <= i < |phases| => RiseTime(phases[i], period))
  }

  /** The exception the transition loop raises, if any.  Iteration `i` first
      reads `phases[i]` and then takes its fall modulo the period, so a
      missing first phase is reported before a zero period, and a zero
      period before any later missing phase. */
  function Raised(period: nat, pins: seq<Pin>, phases: seq<real>): (e: Result<()>)
    ensures e.Success? <==> |pins| <= 1 || (|phases| >= |pins| - 1 && period > 0)
    ensures e == Failure(ZeroDivisionError) <==> |pins| > 1 && |phases| > 0 && period == 0
    ensures e == Failure(IndexError) <==> |pins| > 1 && |phases| < |pins| - 1 && (|phases| == 0 || period > 0)
  {
    if |pins| <= 1 then Success(())
    else if |phases| == 0 then Failure(IndexError)
    else if period == 0 then Failure(ZeroDivisionError)
    else if |phases| < |pins| - 1 then Failure(IndexError)
    else Success(())
  }

  /** The loop raises nothing exactly when the transitions are defined. */
  lemma RaisesNothingIffSchedulable(period: nat, pins: seq<Pin>, phases: seq<real>)
    requires |pins| >= 1
    ensures Raised(period, pins, phases).Success? <==> Schedulable(period, pins, Rises(phases, period))
  {
  }

  /** What the transition loop produces: an exception, or the transitions of
      the reference pin and of each driven pin, in the order appended. */
  function Generated(period: nat, pins: seq<Pin>, phases: seq<real>): Result<seq<Transition>>
    requires |pins| >= 1
  {
    var raised := Raised(period, pins, phases);
    if raised.Failure? then Failure(raised.error)
    else Success(TransitionList(period, pins, Rises(phases, period)))
  }

  /** The wave points of one period: the transitions sorted on
      `(time, pin, level)` and merged, the last delay closing the cycle at
      `period`. */
  function Synthesize(period: nat, pins: seq<Pin>, phases: seq<real>): Result<seq<Pulse>>
    requires |pins| >= 1
  {
    var generated := Generated(period, pins, phases);
    if generated.Failure? then Failure(generated.error)
    else Success(Merge(Sort(generated.value), period))
  }

  /** The transition loop of `set`: the reference pin's two edges, then a
      rising and a falling edge per driven pin. */
  method GenerateTransitions(period: nat, pins: seq<Pin>, phases: seq<real>) returns (r: Result<seq<Transition>>)
    requires |pins| >= 1
    ensures r == Generated(period, pins, phases)
  {
    var rises := Rises(phases, period);
    var transitions := [Transition(0, pins[0], High), Transition(period / 2, pins[0], Low)];
    for i := 0 to |pins| - 1
      invariant i <= |phases| && (i > 0 ==> period > 0)
      invariant |transitions| == 2 + 2 * i
      invariant forall k :: 0 <= k < |transitions| ==> transitions[k] == Edge(period, pins, rises, k)
    {
      var pin := pins[i + 1];
      if i >= |phases| {
        return Failure(IndexError);
      }
      var rise := RiseTime(phases[i], period);
      transitions := transitions + [Transition(rise, pin, High)];
      if period == 0 {
        return Failure(ZeroDivisionError);
      }
      transitions := transitions + [Transition(FallTime(rise, period), pin, Low)];
    }
    assert Schedulable(period, pins, rises);
    assert transitions == TransitionList(period, pins, rises);
    r := Success(transitions);
  }

  // ---------------------------------------------------------------------
  // The driver object
  // ---------------------------------------------------------------------

  class Motors {
    /** The frequency of every wave, in Hz. */
    const freq: nat
    /** The GPIO pins driven; the first is the reference. */
    const pins: seq<Pin> := [19, 20, 21, 22]
    /** The period of the last `Set`, in microseconds. */
    var periodUs: nat
    /** The phase fractions of the last `Set`. */
    var phases: seq<real>
    /** The program the waveform engine replays: the wave points last sent. */
    var wave: seq<Pulse>

    constructor (freq: nat := 3000)
      ensures this.freq == freq && wave == []
    {
      this.freq := freq;
      periodUs := 0;
      phases := [];
      wave := [];
    }

    /** Set the phases: the waveform engine then replays the synthesised
        wave points, unless an exception is raised first.  The period and
        the phases are recorded before the transitions are built, so they
        stay recorded when the transition loop raises. */
    method Set(speeds: seq<real>) returns (r: Result<seq<Pulse>>)
      modifies this
      ensures freq == 0 ==> r == Failure(ZeroDivisionError) && periodUs == old(periodUs) && phases == old(phases)
      ensures freq > 0 ==> periodUs == PeriodOf(freq) && phases == speeds && r == Synthesize(periodUs, pins, speeds)
      ensures wave == if r.Success? then r.value else old(wave)
    {
      if freq == 0 {
        return Failure(ZeroDivisionError);
      }
      periodUs := 1000000 / freq;
      phases := speeds;
      var generated := GenerateTransitions(periodUs, pins, phases);
      if generated.Failure? {
        return Failure(generated.error);
      }
      var sorted := Sort(generated.value);
      var points := MergeTransitions(sorted, periodUs);
      wave := points;
      r := Success(points);
    }
  }

  // ---------------------------------------------------------------------
  // What the synthesised waveform is
  // ---------------------------------------------------------------------

  /** Every phase read is a fraction of the period: "max speed is 1". */
  predicate Fractions(pins: seq<Pin>, phases: seq<real>) {
    forall i :: 0 <= i < |pins| - 1 && i < |phases| ==> 0.0 <= phases[i] <= 1.0
  }

  /** Every phase read is non-negative. */
  predicate NonNegative(pins: seq<Pin>, phases: seq<real>) {
    forall i :: 0 <= i < |pins| - 1 && i < |phases| ==> 0.0 <= phases[i]
  }

  /** The inputs `set` synthesises a waveform from: a phase for every
      driven pin, and a positive period when a pin is driven. */
  predicate Synthesizable(period: nat, pins: seq<Pin>, phases: seq<real>) {
    |pins| >= 1 && |phases| >= |pins| - 1 && (|pins| > 1 ==> period > 0)
  }

  /** Synthesis fails only for too few phases, or a zero period with a
      driven pin. */
  lemma SynthesizeSucceeds(period: nat, pins: seq<Pin>, phases: seq<real>)
    requires |pins| >= 1
    ensures Synthesize(period, pins, phases).Success? <==> Synthesizable(period, pins, phases)
    ensures Synthesize(period, pins, phases).Failure? && |phases| < |pins| - 1 && (|phases| == 0 || period > 0) ==>
      Synthesize(period, pins, phases).error == IndexError
    ensures Synthesize(period, pins, phases).Failure? && |phases| > 0 && period == 0 ==>
      Synthesize(period, pins, phases).error == ZeroDivisionError
  {
  }

  /** The sorted transitions of a successful synthesis. */
  function SortedTransitions(period: nat, pins: seq<Pin>, phases: seq<real>): (s: seq<Transition>)
    requires Synthesizable(period, pins, phases)
    ensures |s| == 2 * |pins| && Sorted(s) && SortedByTime(s)
    ensures Synthesize(period, pins, phases).value == Merge(s, period)
    ensures forall x :: x in s <==> x in Generated(period, pins, phases).value
  {
    var ts := Generated(period, pins, phases).value;
    var s := Sort(ts);
    assert |s| == |ts| by {
      assert |multiset(s)| == |s| && |multiset(ts)| == |ts|;
    }
    SortedHasSortedTimes(s);
    forall x
      ensures x in s <==> x in ts
    {
      SortKeepsMembers(ts, x);
    }
    s
  }

  /** With non-negative phases the earliest transition is the reference
      pin's rise at 0. */
  lemma FirstTimeIsZero(period: nat, pins: seq<Pin>, phases: seq<real>)
    requires Synthesizable(period, pins, phases) && NonNegative(pins, phases)
    ensures SortedTransitions(period, pins, phases)[0].time == 0
  {
    var rises := Rises(phases, period);
    var ts := Generated(period, pins, phases).value;
    var s := SortedTransitions(period, pins, phases);
    RaisesNothingIffSchedulable(period, pins, phases);
    assert s[0] in ts;
    TimesNonNegative(period, pins, rises, s[0]);
    assert ts[0] in s;
    HeadIsLeast(s, ts[0]);
  }

  /** The pulse list is never empty and has one pulse per distinct
      transition time. */
  lemma WaveCount(period: nat, pins: seq<Pin>, phases: seq<real>)
    requires Synthesizable(period, pins, phases)
    ensures Synthesize(period, pins, phases).value != []
    ensures |Synthesize(period, pins, phases).value| == |TimeSet(SortedTransitions(period, pins, phases))|
  {
    MergeCount(SortedTransitions(period, pins, phases), period);
  }

  /** With non-negative phases the delays add up to the period: pulse `j`
      fires `Offset(w, j)` after the start, and the whole cycle lasts
      exactly `period`. */
  lemma WavePeriodClosure(period: nat, pins: seq<Pin>, phases: seq<real>)
    requires Synthesizable(period, pins, phases) && NonNegative(pins, phases)
    ensures Offset(Synthesize(period, pins, phases).value, |Synthesize(period, pins, phases).value|) == period
  {
    var s := SortedTransitions(period, pins, phases);
    FirstTimeIsZero(period, pins, phases);
    MergeOffset(s, period, |Merge(s, period)|);
  }

  /** Every delay but the last is positive, and the last one closes the
      cycle from the latest transition; with phases in [0, 1] it is not
      negative. */
  lemma WaveDelays(period: nat, pins: seq<Pin>, phases: seq<real>)
    requires Synthesizable(period, pins, phases)
    ensures var w := Synthesize(period, pins, phases).value;
      w != [] &&
      (forall j :: 0 <= j < |w| - 1 ==> w[j].delayUs > 0) &&
      w[|w| - 1].delayUs == period - SortedTransitions(period, pins, phases)[2 * |pins| - 1].time
    ensures Fractions(pins, phases) ==> Synthesize(period, pins, phases).value[|Synthesize(period, pins, phases).value| - 1].delayUs >= 0
  {
    var s := SortedTransitions(period, pins, phases);
    var w := Merge(s, period);
    forall j | 0 <= j < |w| - 1
      ensures w[j].delayUs > 0
    {
      MergeDelaysPositive(s, period, j);
    }
    MergeLastDelay(s, period);
    if Fractions(pins, phases) {
      var rises := Rises(phases, period);
      RaisesNothingIffSchedulable(period, pins, phases);
      if period > 0 {
        forall i | 0 <= i < |pins| - 1
          ensures 0 <= rises[i] <= period
        {
          RiseTimeInPeriod(phases[i], period);
        }
        TimesWithinPeriod(period, pins, rises, s[|s| - 1]);
      } else {
        assert |pins| == 1;
        assert s[|s| - 1] in TransitionList(period, pins, rises);
        assert TransitionList(period, pins, rises) == [Transition(0, pins[0], High), Transition(0, pins[0], Low)];
      }
    }
  }

  /** With non-negative phases the pulses fire in strictly increasing
      order, each at a transition time, and every transition time has its
      pulse. */
  lemma WaveTimes(period: nat, pins: seq<Pin>, phases: seq<real>, x: Transition)
    requires Synthesizable(period, pins, phases) && NonNegative(pins, phases)
    ensures var w := Synthesize(period, pins, phases).value;
      (forall i, j :: 0 <= i < j < |w| ==> Offset(w, i) < Offset(w, j)) &&
      (forall j :: 0 <= j < |w| ==> Offset(w, j) in TimeSet(SortedTransitions(period, pins, phases)))
    ensures x in Generated(period, pins, phases).value ==>
      exists j :: 0 <= j < |Synthesize(period, pins, phases).value| && Offset(Synthesize(period, pins, phases).value, j) == x.time
  {
    var s := SortedTransitions(period, pins, phases);
    var w := Merge(s, period);
    FirstTimeIsZero(period, pins, phases);
    WaveDelays(period, pins, phases);
    forall i, j | 0 <= i < j < |w|
      ensures Offset(w, i) < Offset(w, j)
    {
      OffsetsIncrease(w, i, j);
    }
    forall j | 0 <= j < |w|
      ensures Offset(w, j) in TimeSet(s)
    {
      MergePulse(s, period, j, 0, High);
    }
    if x in Generated(period, pins, phases).value {
      var j := MergeCovers(s, period, x);
    }
  }

  /** With non-negative phases, pulse `j` raises (lowers) pin `p` exactly
      when `p` has a rising (falling) transition at the pulse's time. */
  lemma WaveMasks(period: nat, pins: seq<Pin>, phases: seq<real>, j: nat, p: Pin, level: Level)
    requires Synthesizable(period, pins, phases) && NonNegative(pins, phases)
    requires j < |Synthesize(period, pins, phases).value|
    ensures HasBit(MaskFor(Synthesize(period, pins, phases).value[j], level), p) <==>
      Transition(Offset(Synthesize(period, pins, phases).value, j), p, level) in Generated(period, pins, phases).value
    ensures HasBit(MaskFor(Synthesize(period, pins, phases).value[j], level), p) ==> p in pins
  {
    var s := SortedTransitions(period, pins, phases);
    FirstTimeIsZero(period, pins, phases);
    MergePulse(s, period, j, p, level);
    var y := Transition(Offset(Merge(s, period), j), p, level);
    if y in Generated(period, pins, phases).value {
      RaisesNothingIffSchedulable(period, pins, phases);
      EdgesOfPins(period, pins, Rises(phases, period), y);
    }
  }

  /** The first pulse fires at 0 and raises the reference pin. */
  lemma WaveStartsWithReference(period: nat, pins: seq<Pin>, phases: seq<real>)
    requires Synthesizable(period, pins, phases) && NonNegative(pins, phases)
    ensures Synthesize(period, pins, phases).value != []
    ensures HasBit(Synthesize(period, pins, phases).value[0].upMask, pins[0])
  {
    WaveCount(period, pins, phases);
    WaveMasks(period, pins, phases, 0, pins[0], High);
    RaisesNothingIffSchedulable(period, pins, phases);
  }

  /** With distinct pins and non-negative phases, each pin is raised by
      exactly one pulse, the one firing at its rising time, and lowered by
      exactly one pulse, the one firing at its falling time. */
  lemma PinSwitchedOnce(period: nat, pins: seq<Pin>, phases: seq<real>, c: nat, level: Level) returns (j: nat)
    requires Synthesizable(period, pins, phases) && NonNegative(pins, phases)
    requires Distinct(pins) && c < |pins|
    ensures j < |Synthesize(period, pins, phases).value|
    ensures Offset(Synthesize(period, pins, phases).value, j) ==
        (if level == High then RiseOf(Rises(phases, period), c) else FallOf(period, Rises(phases, period), c))
    ensures forall k :: 0 <= k < |Synthesize(period, pins, phases).value| ==>
      (HasBit(MaskFor(Synthesize(period, pins, phases).value[k], level), pins[c]) <==> k == j)
  {
    var rises := Rises(phases, period);
    RaisesNothingIffSchedulable(period, pins, phases);
    var w := Synthesize(period, pins, phases).value;
    var t := if level == High then RiseOf(rises, c) else FallOf(period, rises, c);
    PinEdges(period, pins, rises, c, t);
    var x := Transition(t, pins[c], level);
    WaveTimes(period, pins, phases, x);
    j :| 0 <= j < |w| && Offset(w, j) == t;
    forall k | 0 <= k < |w|
      ensures HasBit(MaskFor(w[k], level), pins[c]) <==> k == j
    {
      WaveMasks(period, pins, phases, k, pins[c], level);
      PinEdges(period, pins, rises, c, Offset(w, k));
    }
  }
}
