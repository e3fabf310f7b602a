/** The transitions of one waveform period: for each pin a rising and a
    falling edge, and their order. */
module Schedule {
  import opened Bitmask

  /** The level a transition drives its pin to: High is a rising edge
      (level 1), Low a falling edge (level 0). */
  datatype Level = Low | High

  /** The level as the integer the pulse tuples are sorted on. */
  function Rank(l: Level): nat {
    if l == Low then 0 else 1
  }

  /** One edge of one pin, `time` microseconds after the start of the period. */
  datatype Transition = Transition(time: int, pin: Pin, level: Level)

  // ---------------------------------------------------------------------
  // Times of the edges
  // ---------------------------------------------------------------------

  /** Conversion of a number to an integer by truncation toward zero. */
  function Trunc(x: real): (n: int)
    ensures 0.0 <= x ==> 0 <= n && n as real <= x < n as real + 1.0
    ensures x < 0.0 ==> n <= 0 && n as real - 1.0 < x <= n as real
  {
    if x >= 0.0 then x.Floor else -((-x).Floor)
  }

  /** The rising time of a driven pin: its phase fraction of the period,
      truncated to whole microseconds. */
  function RiseTime(phase: real, period: nat): (t: int)
    ensures 0.0 <= phase ==> 0 <= t && t as real <= phase * period as real < t as real + 1.0
    ensures phase < 0.0 ==> t <= 0 && t as real - 1.0 < phase * period as real <= t as real
  {
    assert phase < 0.0 ==> phase * period as real <= 0.0 by {
      if phase < 0.0 {
        MulNonNegative(-phase, period as real);
      }
    }
    assert 0.0 <= phase ==> 0.0 <= phase * period as real by {
      if 0.0 <= phase {
        MulNonNegative(phase, period as real);
      }
    }
    Trunc(phase * period as real)
  }

  /** A phase fraction in [0, 1] rises within the period. */
  lemma RiseTimeInPeriod(phase: real, period: nat)
    requires 0.0 <= phase <= 1.0
    ensures 0 <= RiseTime(phase, period) <= period
    ensures phase < 1.0 && period > 0 ==> RiseTime(phase, period) < period
  {
    var p := period as real;
    assert 0.0 <= phase * p by {
      MulNonNegative(phase, p);
    }
    assert phase * p <= p by {
      MulAtMost(phase, p);
    }
    if phase < 1.0 && period > 0 {
      assert phase * p < p by {
        MulBelow(phase, p);
      }
      var n := Trunc(phase * p);
      assert n as real <= phase * p;
      assert n < period;
    }
  }

  lemma MulNonNegative(x: real, y: real)
    requires 0.0 <= x && 0.0 <= y
    ensures 0.0 <= x * y
  {
  }

  lemma MulAtMost(x: real, y: real)
    requires x <= 1.0 && 0.0 <= y
    ensures x * y <= y
  {
    assert y - x * y == (1.0 - x) * y;
    MulNonNegative(1.0 - x, y);
  }

  lemma MulBelow(x: real, y: real)
    requires x < 1.0 && 0.0 < y
    ensures x * y < y
  {
    assert y - x * y == (1.0 - x) * y;
  }

  /** Division with remainder has a unique quotient and remainder. */
  lemma DivModUnique(x: int, m: int, q: int, r: int)
    requires m > 0 && x == q * m + r && 0 <= r < m
    ensures x / m == q && x % m == r
  {
    var q', r' := x / m, x % m;
    assert x == q' * m + r' && 0 <= r' < m;
    assert (q - q') * m == r' - r;
    if q > q' {
      MulAtLeast(q - q', m);
    } else if q < q' {
      MulAtLeast(q' - q, m);
    }
  }

  lemma MulAtLeast(a: int, m: int)
    requires a >= 1 && m > 0
    ensures a * m >= m
  {
    assert a * m == (a - 1) * m + m;
    assert (a - 1) * m >= 0;
  }

  lemma HalfPeriodLater(rise: int, period: nat)
    requires period > 0
    ensures ((2 * rise + period) % (2 * period)) / 2 == (rise + period / 2) % period
  {
    var h, e := period / 2, period % 2;
    var n := rise + h;
    var q, r := n / period, n % period;
    assert 2 * rise + period == q * (2 * period) + (2 * r + e);
    DivModUnique(2 * rise + period, 2 * period, q, 2 * r + e);
    assert (2 * r + e) / 2 == r;
  }

  /** The falling time of a driven pin: half a period after its rise,
      wrapped into the period.  The body is the exact value of the
      source's `(rise + period / 2) % period` on halves (written doubled);
      the contract states it as whole-microsecond arithmetic. */
  function FallTime(rise: int, period: nat): (t: int)
    requires period > 0
    ensures 0 <= t < period
    ensures t == (rise + period / 2) % period
  {
    HalfPeriodLater(rise, period);
    ((2 * rise + period) % (2 * period)) / 2
  }

  // ---------------------------------------------------------------------
  // The transition list of one period
  // ---------------------------------------------------------------------

  /** The inputs the generation reads: at least the reference pin, one
      rise per driven pin, and a positive period when a pin is driven
      (its fall is taken modulo the period). */
  predicate Schedulable(period: nat, pins: seq<Pin>, rises: seq<int>) {
    |pins| >= 1 && |rises| >= |pins| - 1 && (|pins| > 1 ==> period > 0)
  }

  /** Pin `pins[c]` rises here: the reference pin `pins[0]` at 0, the
      driven pin `pins[c]` at `rises[c - 1]`. */
  function RiseOf(rises: seq<int>, c: nat): int
    requires c == 0 || c - 1 < |rises|
  {
    if c == 0 then 0 else rises[c - 1]
  }

  /** Pin `pins[c]` falls here: the reference pin at half the period, a
      driven pin half a period after its rise. */
  function FallOf(period: nat, rises: seq<int>, c: nat): int
    requires c == 0 || (c - 1 < |rises| && period > 0)
  {
    if c == 0 then period / 2 else FallTime(rises[c - 1], period)
  }

  /** Entry `k` of the transition list: pin `k / 2`'s rise for even `k`,
      its fall for odd `k`. */
  function Edge(period: nat, pins: seq<Pin>, rises: seq<int>, k: nat): Transition
    requires k < 2 * |pins|
    requires k >= 2 ==> k / 2 - 1 < |rises| && period > 0
  {
    var c := k / 2;
    if k % 2 == 0 then Transition(RiseOf(rises, c), pins[c], High)
    else Transition(FallOf(period, rises, c), pins[c], Low)
  }

  /** The transitions appended before sorting, in the order appended. */
  function TransitionList(period: nat, pins: seq<Pin>, rises: seq<int>): (ts: seq<Transition>)
    requires Schedulable(period, pins, rises)
    ensures |ts| == 2 + 2 * (|pins| - 1)
    ensures ts[0] == Transition(0, pins[0], High)
    ensures ts[1] == Transition(period / 2, pins[0], Low)
  {
    seq(2 * |pins|, k requires 0 <= k < 2 * |pins| => Edge(period, pins, rises, k))
  }

  predicate Distinct(pins: seq<Pin>) {
    forall i, j :: 0 <= i < j < |pins| ==> pins[i] != pins[j]
  }

  /** Only the rises of the `|pins| - 1` driven pins are read. */
  lemma ReadsDrivenRisesOnly(period: nat, pins: seq<Pin>, rises: seq<int>)
    requires Schedulable(period, pins, rises)
    ensures TransitionList(period, pins, rises) == TransitionList(period, pins, rises[..|pins| - 1])
  {
    var ts, ts' := TransitionList(period, pins, rises), TransitionList(period, pins, rises[..|pins| - 1]);
    forall k | 0 <= k < |ts|
      ensures ts[k] == ts'[k]
    {
      assert ts[k] == Edge(period, pins, rises, k);
      assert ts'[k] == Edge(period, pins, rises[..|pins| - 1], k);
    }
  }

  /** Every transition is an edge of one of the pins. */
  lemma EdgesOfPins(period: nat, pins: seq<Pin>, rises: seq<int>, x: Transition)
    requires Schedulable(period, pins, rises)
    requires x in TransitionList(period, pins, rises)
    ensures x.pin in pins
  {
    var ts := TransitionList(period, pins, rises);
    var k :| 0 <= k < |ts| && ts[k] == x;
    assert ts[k] == Edge(period, pins, rises, k);
  }

  /** With rises in [0, period] every transition lies in [0, period], and
      every fall in [0, period). */
  lemma TimesWithinPeriod(period: nat, pins: seq<Pin>, rises: seq<int>, x: Transition)
    requires Schedulable(period, pins, rises) && period > 0
    requires forall i :: 0 <= i < |pins| - 1 ==> 0 <= rises[i] <= period
    requires x in TransitionList(period, pins, rises)
    ensures 0 <= x.time <= period
    ensures x.level == Low ==> x.time < period
  {
    var ts := TransitionList(period, pins, rises);
    var k :| 0 <= k < |ts| && ts[k] == x;
    assert ts[k] == Edge(period, pins, rises, k);
  }

  /** With non-negative rises no transition lies before the start of the period. */
  lemma TimesNonNegative(period: nat, pins: seq<Pin>, rises: seq<int>, x: Transition)
    requires Schedulable(period, pins, rises)
    requires forall i :: 0 <= i < |pins| - 1 ==> 0 <= rises[i]
    requires x in TransitionList(period, pins, rises)
    ensures 0 <= x.time
  {
    var ts := TransitionList(period, pins, rises);
    var k :| 0 <= k < |ts| && ts[k] == x;
    assert ts[k] == Edge(period, pins, rises, k);
  }

  /** With distinct pins, pin `pins[c]` has exactly one rising time,
      `RiseOf(rises, c)`, and exactly one falling time, `FallOf(period,
      rises, c)`; in particular the reference pin rises only at 0 and
      falls only at half the period. */
  lemma PinEdges(period: nat, pins: seq<Pin>, rises: seq<int>, c: nat, t: int)
    requires Schedulable(period, pins, rises) && Distinct(pins) && c < |pins|
    ensures Transition(t, pins[c], High) in TransitionList(period, pins, rises) <==> t == RiseOf(rises, c)
    ensures Transition(t, pins[c], Low) in TransitionList(period, pins, rises) <==> t == FallOf(period, rises, c)
  {
    var ts := TransitionList(period, pins, rises);
    assert ts[2 * c] == Edge(period, pins, rises, 2 * c);
    assert ts[2 * c + 1] == Edge(period, pins, rises, 2 * c + 1);
    forall k | 0 <= k < |ts| && ts[k].pin == pins[c]
      ensures k / 2 == c
    {
      assert ts[k] == Edge(period, pins, rises, k);
      assert pins[k / 2] == pins[c];
    }
  }

  // ---------------------------------------------------------------------
  // Sorting on (time, pin, level)
  // ---------------------------------------------------------------------

  /** The order of the tuples `(time_us, pin, level)`: lexicographic. */
  predicate Precedes(a: Transition, b: Transition)
    ensures Precedes(a, b) ==> a.time <= b.time
    ensures a.time < b.time ==> Precedes(a, b)
    ensures a == b ==> Precedes(a, b)
  {
    a.time < b.time ||
    (a.time == b.time && (a.pin < b.pin || (a.pin == b.pin && Rank(a.level) <= Rank(b.level))))
  }

  predicate Sorted(s: seq<Transition>) {
    forall i, j :: 0 <= i < j < |s| ==> Precedes(s[i], s[j])
  }

  /** Sorted on the tuple order means sorted on time. */
  predicate SortedByTime(s: seq<Transition>) {
    forall i, j :: 0 <= i <= j < |s| ==> s[i].time <= s[j].time
  }

  lemma PrecedesTotal(a: Transition, b: Transition)
    ensures Precedes(a, b) || Precedes(b, a)
  {
  }

  lemma PrecedesAntisymmetric(a: Transition, b: Transition)
    requires Precedes(a, b) && Precedes(b, a)
    ensures a == b
  {
    assert a.level == b.level by {
      assert Rank(a.level) == Rank(b.level);
    }
  }

  /** `s` with `x` inserted before the first element it precedes. */
  function Insert(x: Transition, s: seq<Transition>): (r: seq<Transition>)
    requires Sorted(s)
    ensures Sorted(r)
    ensures multiset(r) == multiset(s) + multiset{x}
  {
    if s == [] then [x]
    else if Precedes(x, s[0]) then [x] + s
    else
      var r' := Insert(x, s[1..]);
      InsertAfterHead(x, s, r');
      assert s == [s[0]] + s[1..];
      [s[0]] + r'
  }

  lemma InsertAfterHead(x: Transition, s: seq<Transition>, r': seq<Transition>)
    requires Sorted(s) && s != [] && !Precedes(x, s[0])
    requires Sorted(r') && multiset(r') == multiset(s[1..]) + multiset{x}
    ensures Sorted([s[0]] + r')
  {
    assert Precedes(s[0], x) by {
      PrecedesTotal(x, s[0]);
    }
    forall y | y in r'
      ensures Precedes(s[0], y)
    {
      assert y in multiset(r');
      if y != x {
        assert y in multiset(s[1..]);
        var i :| 0 <= i < |s[1..]| && s[1..][i] == y;
        assert s[i + 1] == y;
      }
    }
    SortedCons(s[0], r');
  }

  lemma SortedCons(a: Transition, s: seq<Transition>)
    requires Sorted(s)
    requires forall y :: y in s ==> Precedes(a, y)
    ensures Sorted([a] + s)
  {
    var r := [a] + s;
    forall i, j | 0 <= i < j < |r|
      ensures Precedes(r[i], r[j])
    {
      if i == 0 {
        assert r[j] == s[j - 1];
      } else {
        assert r[i] == s[i - 1] && r[j] == s[j - 1];
      }
    }
  }

  /** The sorted copy of a transition list. */
  function Sort(s: seq<Transition>): (r: seq<Transition>)
    ensures Sorted(r)
    ensures multiset(r) == multiset(s)
  {
    if s == [] then []
    else
      assert s == [s[0]] + s[1..];
      Insert(s[0], Sort(s[1..]))
  }

  /** There is only one sorted arrangement of a multiset of transitions, so
      `Sort` yields what any correct sort yields. */
  lemma {:induction false} SortedUnique(a: seq<Transition>, b: seq<Transition>)
    requires Sorted(a) && Sorted(b) && multiset(a) == multiset(b)
    ensures a == b
    decreases |a|
  {
    assert |b| == |a| by {
      assert |multiset(a)| == |a| && |multiset(b)| == |b|;
    }
    if a != [] {
      SameHead(a, b);
      var a', b' := a[1..], b[1..];
      assert a == [a[0]] + a' && b == [b[0]] + b';
      assert multiset(a') == multiset(b') by {
        assert multiset(a) == multiset{a[0]} + multiset(a');
        assert multiset(b) == multiset{a[0]} + multiset(b');
        assert multiset(a') == multiset(a) - multiset{a[0]};
        assert multiset(b') == multiset(b) - multiset{a[0]};
      }
      SortedUnique(a', b');
    }
  }

  lemma SameHead(a: seq<Transition>, b: seq<Transition>)
    requires Sorted(a) && Sorted(b) && multiset(a) == multiset(b) && a != [] && b != []
    ensures a[0] == b[0]
  {
    assert a[0] in multiset(b) && b[0] in multiset(a);
    HeadIsLeast(a, b[0]);
    HeadIsLeast(b, a[0]);
    PrecedesAntisymmetric(a[0], b[0]);
  }

  lemma HeadIsLeast(s: seq<Transition>, y: Transition)
    requires Sorted(s) && y in s
    ensures Precedes(s[0], y)
  {
    var i :| 0 <= i < |s| && s[i] == y;
    if i > 0 {
      assert Precedes(s[0], s[i]);
    }
  }

  lemma SortedHasSortedTimes(s: seq<Transition>)
    requires Sorted(s)
    ensures SortedByTime(s)
  {
    forall i, j | 0 <= i <= j < |s|
      ensures s[i].time <= s[j].time
    {
      if i < j {
        assert Precedes(s[i], s[j]);
      }
    }
  }

  /** Sorting keeps exactly the same transitions. */
  lemma SortKeepsMembers(s: seq<Transition>, x: Transition)
    ensures x in Sort(s) <==> x in s
  {
    assert x in multiset(Sort(s)) <==> x in multiset(s);
  }
}
