/** Concrete waveforms: a quarter-phase pair of pins, and two driven pins
    whose rising edges coincide.  Both run `Synthesize` on a shorter pin
    list than the four pins of `Motors`; they are not `Motors.Set` calls
    (on a `Motors`, `Set([0.25])` raises `IndexError`). */
module Scenarios {
  import opened Bitmask
  import opened Schedule
  import opened Pulses
  import opened SonicMotors

  /** The transitions of a 1000 us period with the reference pin 19 and pin
      20 at phase 0.25, in the order appended. */
  const QuarterAppended := [Transition(0, 19, High), Transition(500, 19, Low), Transition(250, 20, High), Transition(750, 20, Low)]

  /** The same transitions, sorted. */
  const QuarterSorted := [Transition(0, 19, High), Transition(250, 20, High), Transition(500, 19, Low), Transition(750, 20, Low)]

  lemma QuarterGenerated()
    ensures Generated(1000, [19, 20], [0.25]) == Success(QuarterAppended)
  {
    assert RiseTime(0.25, 1000) == 250;
    assert FallTime(250, 1000) == 750;
    assert Rises([0.25], 1000) == [250];
    assert TransitionList(1000, [19, 20], [250]) == QuarterAppended;
  }

  lemma QuarterSort()
    ensures Sort(QuarterAppended) == QuarterSorted
  {
    assert Sorted(QuarterSorted);
    assert multiset(QuarterSorted) == multiset(QuarterAppended);
    SortedUnique(Sort(QuarterAppended), QuarterSorted);
  }

  /** No two transitions share a time, so each is a group of its own, and
      each holds for a quarter period. */
  lemma QuarterGroups()
    ensures Groups(QuarterSorted, 1000) ==
      [Group([QuarterSorted[0]], 250), Group([QuarterSorted[1]], 250), Group([QuarterSorted[2]], 250), Group([QuarterSorted[3]], 250)]
  {
    var s := QuarterSorted;
    assert s[..0] == [] && s[..4] == s;
    CloseGroup(s, 0, 1, 250, [s[0]]);
    CloseGroup(s, 1, 2, 500, [s[1]]);
    CloseGroup(s, 2, 3, 750, [s[2]]);
    CloseGroup(s, 3, 4, 1000, [s[3]]);
  }

  lemma QuarterMerged()
    ensures Merge(QuarterSorted, 1000) ==
      [Pulse(Bit(19), 0, 250), Pulse(Bit(20), 0, 250), Pulse(0, Bit(19), 250), Pulse(0, Bit(20), 250)]
  {
    var s := QuarterSorted;
    QuarterGroups();
    var gs := Groups(s, 1000);
    MaskOne(s[0], High);
    MaskOne(s[0], Low);
    MaskOne(s[1], High);
    MaskOne(s[1], Low);
    MaskOne(s[2], High);
    MaskOne(s[2], Low);
    MaskOne(s[3], High);
    MaskOne(s[3], Low);
    assert gs[..3][..2] == gs[..2] && gs[..2][..1] == gs[..1] && gs[..1][..0] == [];
    assert EncodeAll(gs[..1]) == [Pulse(Bit(19), 0, 250)];
    assert EncodeAll(gs[..2]) == [Pulse(Bit(19), 0, 250), Pulse(Bit(20), 0, 250)];
    assert EncodeAll(gs[..3]) == [Pulse(Bit(19), 0, 250), Pulse(Bit(20), 0, 250), Pulse(0, Bit(19), 250)];
  }

  /** Period 1000 us, one driven pin at phase 0.25: four pulses a quarter
      period apart raise the reference pin, raise the driven pin, lower the
      reference pin and lower the driven pin. */
  lemma QuarterPhase()
    ensures Synthesize(1000, [19, 20], [0.25]) ==
      Success([Pulse(Bit(19), 0, 250), Pulse(Bit(20), 0, 250), Pulse(0, Bit(19), 250), Pulse(0, Bit(20), 250)])
  {
    QuarterGenerated();
    QuarterSort();
    QuarterMerged();
  }

  /** The transitions of a 1000 us period with the reference pin 19 and
      pins 20 and 21 both at phase 0.25, in the order appended. */
  const CoincidentAppended := [Transition(0, 19, High), Transition(500, 19, Low), Transition(250, 20, High),
                               Transition(750, 20, Low), Transition(250, 21, High), Transition(750, 21, Low)]

  lemma CoincidentGenerated()
    ensures Generated(1000, [19, 20, 21], [0.25, 0.25]) == Success(CoincidentAppended)
  {
    assert RiseTime(0.25, 1000) == 250;
    assert FallTime(250, 1000) == 750;
    assert Rises([0.25, 0.25], 1000) == [250, 250];
    assert TransitionList(1000, [19, 20, 21], [250, 250]) == CoincidentAppended;
  }

  /** Six transitions at four distinct times give four pulses. */
  lemma CoincidentCount(pins: seq<Pin>, phases: seq<real>)
    requires pins == [19, 20, 21] && phases == [0.25, 0.25]
    ensures Synthesize(1000, pins, phases).Success?
    ensures |Synthesize(1000, pins, phases).value| == 4
  {
    CoincidentGenerated();
    WaveCount(1000, pins, phases);
    CoincidentTimes(pins, phases);
    FourTimes();
  }

  lemma CoincidentTimes(pins: seq<Pin>, phases: seq<real>)
    requires pins == [19, 20, 21] && phases == [0.25, 0.25]
    ensures Generated(1000, pins, phases).Success?
    ensures TimeSet(SortedTransitions(1000, pins, phases)) == {0, 250, 500, 750}
  {
    CoincidentGenerated();
    SameTimes(SortedTransitions(1000, pins, phases), CoincidentAppended);
    AppendedTimes();
  }

  lemma AppendedTimes()
    ensures TimeSet(CoincidentAppended) == {0, 250, 500, 750}
  {
    var ts := CoincidentAppended;
    assert ts[0] in ts && ts[1] in ts && ts[2] in ts && ts[3] in ts;
  }

  lemma FourTimes()
    ensures |{0, 250, 500, 750}| == 4
  {
  }

  /** Lists with the same members have the same times. */
  lemma SameTimes(s: seq<Transition>, ts: seq<Transition>)
    requires forall x :: x in s <==> x in ts
    ensures TimeSet(s) == TimeSet(ts)
  {
  }

  /** Two driven pins with the same phase rise in one pulse, which raises
      both, rather than in two pulses with a zero delay between them. */
  lemma CoincidentRises(pins: seq<Pin>, phases: seq<real>) returns (j: nat)
    requires pins == [19, 20, 21] && phases == [0.25, 0.25]
    ensures Synthesize(1000, pins, phases).Success?
    ensures |Synthesize(1000, pins, phases).value| == 4
    ensures j < 4 && HasBit(Synthesize(1000, pins, phases).value[j].upMask, 20) &&
      HasBit(Synthesize(1000, pins, phases).value[j].upMask, 21)
  {
    CoincidentCount(pins, phases);
    assert Distinct(pins);
    assert NonNegative(pins, phases);
    var w := Synthesize(1000, pins, phases).value;
    j := PinSwitchedOnce(1000, pins, phases, 1, High);
    var k := PinSwitchedOnce(1000, pins, phases, 2, High);
    assert Rises(phases, 1000) == [250, 250] by {
      assert RiseTime(0.25, 1000) == 250;
    }
    assert Offset(w, j) == Offset(w, k);
    WaveTimes(1000, pins, phases, CoincidentAppended[0]);
    assert k == j;
  }
}
