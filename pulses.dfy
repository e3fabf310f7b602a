/** Pulses: the entries of the cyclic waveform, one per distinct
    transition time, and the single pass that merges sorted transitions
    into them. */
module Pulses {
  import opened Bitmask
  import opened Schedule

  /** A wave point: the pins to raise, the pins to lower, and how long to
      hold before the next pulse. */
  datatype Pulse = Pulse(upMask: nat, downMask: nat, delayUs: int)

  /** The mask of a pulse that drives pins to `level`. */
  function MaskFor(p: Pulse, level: Level): nat {
    if level == High then p.upMask else p.downMask
  }

  /** The bit a transition contributes to the mask of `level`. */
  function EdgeBit(x: Transition, level: Level): nat {
    if x.level == level then Bit(x.pin) else 0
  }

  /** The OR of `1 << pin` over the transitions of `g` that drive `level`. */
  function Mask(g: seq<Transition>, level: Level): nat {
    if g == [] then 0 else Or(Mask(g[..|g| - 1], level), EdgeBit(g[|g| - 1], level))
  }

  predicate SameTime(g: seq<Transition>, t: int) {
    forall i :: 0 <= i < |g| ==> g[i].time == t
  }

  lemma EdgeBitMeaning(x: Transition, p: Pin, level: Level)
    ensures HasBit(EdgeBit(x, level), p) <==> x.level == level && x.pin == p
  {
    if x.level == level {
      BitOnly(x.pin, p);
    } else {
      NoBits(p);
    }
  }

  /** In a group of transitions at one time `t`, bit `p` of the `level`
      mask is set exactly when the group holds the edge of `p` to `level`. */
  lemma {:induction false} MaskBit(g: seq<Transition>, t: int, p: Pin, level: Level)
    requires SameTime(g, t)
    ensures HasBit(Mask(g, level), p) <==> Transition(t, p, level) in g
  {
    if g == [] {
      NoBits(p);
    } else {
      var g', x := g[..|g| - 1], g[|g| - 1];
      var m, e := Mask(g', level), EdgeBit(x, level);
      assert Mask(g, level) == Or(m, e);
      assert HasBit(Or(m, e), p) <==> HasBit(m, p) || HasBit(e, p) by {
        OrBits(m, e, p);
      }
      assert HasBit(m, p) <==> Transition(t, p, level) in g' by {
        assert SameTime(g', t);
        MaskBit(g', t, p, level);
      }
      assert HasBit(e, p) <==> x == Transition(t, p, level) by {
        EdgeBitMeaning(x, p, level);
      }
      assert g == g' + [x];
    }
  }

  /** Where the last group of a non-empty list begins: the first index of
      the trailing run of transitions that share the last time. */
  function LastStart(s: seq<Transition>): (g: nat)
    requires s != []
    ensures g < |s|
    decreases |s|
  {
    if |s| == 1 || s[|s| - 2].time != s[|s| - 1].time then |s| - 1
    else LastStart(s[..|s| - 1])
  }

  /** The last group is a run at one time, preceded by a different time. */
  lemma {:induction false} LastStartFacts(s: seq<Transition>)
    requires s != []
    ensures SameTime(s[LastStart(s)..], s[LastStart(s)].time)
    ensures 0 < LastStart(s) ==> s[LastStart(s) - 1].time != s[LastStart(s)].time
    decreases |s|
  {
    if !(|s| == 1 || s[|s| - 2].time != s[|s| - 1].time) {
      var s' := s[..|s| - 1];
      LastStartFacts(s');
      var g := LastStart(s');
      assert LastStart(s) == g;
      assert s'[g..][|s'| - 1 - g] == s[|s| - 2];
      forall k | 0 <= k < |s| - g
        ensures s[g..][k].time == s[g].time
      {
        if k < |s'| - g {
          assert s[g..][k] == s'[g..][k];
        }
      }
      assert s[g] == s'[g];
      assert g > 0 ==> s[g - 1] == s'[g - 1];
    }
  }

  /** A boundary `g` that starts a run reaching the end is what `LastStart`
      finds. */
  lemma {:induction false} LastStartAt(s: seq<Transition>, g: nat)
    requires g < |s| && SameTime(s[g..], s[g].time)
    requires 0 < g ==> s[g - 1].time != s[g].time
    ensures LastStart(s) == g
    decreases |s|
  {
    if g < |s| - 1 {
      var s' := s[..|s| - 1];
      assert s[g..][|s| - 2 - g] == s[|s| - 2] && s[g..][|s| - 1 - g] == s[|s| - 1];
      forall k | 0 <= k < |s'| - g
        ensures s'[g..][k].time == s'[g].time
      {
        assert s'[g..][k] == s[g..][k];
      }
      assert s'[g] == s[g];
      assert g > 0 ==> s'[g - 1] == s[g - 1];
      LastStartAt(s', g);
    }
  }

  /** The transitions that share one time, and how long the wave holds
      after them. */
  datatype Group = Group(edges: seq<Transition>, delayUs: int)

  /** The reference grouping: consecutive transitions with equal times form
      one group whose delay runs to the next group's time, or to `end` for
      the last group. */
  function Groups(s: seq<Transition>, end: int): (gs: seq<Group>)
    ensures |gs| <= |s|
    ensures gs == [] <==> s == []
    decreases |s|
  {
    if s == [] then []
    else
      var g := LastStart(s);
      Groups(s[..g], s[g].time) + [Group(s[g..], end - s[g].time)]
  }

  /** The wave point of a group: the OR of its rising pins, the OR of its
      falling pins, and its delay. */
  function Encode(x: Group): Pulse {
    Pulse(Mask(x.edges, High), Mask(x.edges, Low), x.delayUs)
  }

  /** The wave points of a sequence of groups. */
  function EncodeAll(gs: seq<Group>): (w: seq<Pulse>)
    ensures |w| == |gs|
  {
    if gs == [] then [] else EncodeAll(gs[..|gs| - 1]) + [Encode(gs[|gs| - 1])]
  }

  lemma {:induction false} EncodeAt(gs: seq<Group>, j: nat)
    requires j < |gs|
    ensures EncodeAll(gs)[j] == Encode(gs[j])
  {
    if j < |gs| - 1 {
      EncodeAt(gs[..|gs| - 1], j);
    }
  }

  lemma EncodeSnoc(gs: seq<Group>, x: Group)
    ensures EncodeAll(gs + [x]) == EncodeAll(gs) + [Encode(x)]
  {
    assert (gs + [x])[..|gs|] == gs;
  }

  /** The reference definition of the merge: the groups, encoded. */
  function Merge(s: seq<Transition>, end: int): seq<Pulse> {
    EncodeAll(Groups(s, end))
  }

  /** The time of a group. */
  function TimeOf(x: Group): int
    requires x.edges != []
  {
    x.edges[0].time
  }

  /** The distinct timestamps of a transition list. */
  function TimeSet(s: seq<Transition>): set<int> {
    set x | x in s :: x.time
  }

  /** Every transition of `front` is earlier than `t`. */
  predicate Before(front: seq<Transition>, t: int) {
    forall x :: x in front ==> x.time < t
  }

  lemma InFront(front: seq<Transition>, back: seq<Transition>, t: int, y: Transition)
    requires SameTime(back, t) && y.time != t
    ensures y in front + back <==> y in front
  {
  }

  lemma InBack(front: seq<Transition>, back: seq<Transition>, t: int, y: Transition)
    requires Before(front, t) && y.time == t
    ensures y in front + back <==> y in back
  {
  }

  /** In a time-sorted list the prefix before the last group is sorted and
      earlier than it. */
  lemma LastGroup(s: seq<Transition>)
    requires SortedByTime(s) && s != []
    ensures SortedByTime(s[..LastStart(s)])
    ensures Before(s[..LastStart(s)], s[LastStart(s)].time)
    ensures SameTime(s[LastStart(s)..], s[LastStart(s)].time)
  {
    var g := LastStart(s);
    LastStartFacts(s);
    forall x | x in s[..g]
      ensures x.time < s[g].time
    {
      var i :| 0 <= i < g && s[..g][i] == x;
      assert s[i].time <= s[g - 1].time <= s[g].time;
    }
  }

  /** The last step of the grouping. */
  lemma GroupsLast(s: seq<Transition>, end: int)
    requires s != []
    ensures Groups(s, end) == Groups(s[..LastStart(s)], s[LastStart(s)].time) + [Group(s[LastStart(s)..], end - s[LastStart(s)].time)]
  {
  }

  lemma SnocIndex(gs: seq<Group>, gs': seq<Group>, x: Group, j: nat)
    requires gs == gs' + [x] && j < |gs|
    ensures j < |gs'| ==> gs[j] == gs'[j]
    ensures j == |gs'| ==> gs[j] == x
  {
  }

  // ---------------------------------------------------------------------
  // What the groups are
  // ---------------------------------------------------------------------

  /** Every group is a non-empty run of transitions at one time. */
  lemma {:induction false} GroupsShape(s: seq<Transition>, end: int, j: nat)
    requires j < |Groups(s, end)|
    ensures Groups(s, end)[j].edges != []
    ensures SameTime(Groups(s, end)[j].edges, TimeOf(Groups(s, end)[j]))
    decreases |s|
  {
    var g := LastStart(s);
    var gs' := Groups(s[..g], s[g].time);
    GroupsLast(s, end);
    if j < |gs'| {
      GroupsShape(s[..g], s[g].time, j);
      assert Groups(s, end)[j] == gs'[j];
    } else {
      LastStartFacts(s);
      assert Groups(s, end)[j] == Group(s[g..], end - s[g].time);
    }
  }

  /** The first group starts with the first transition. */
  lemma {:induction false} GroupsFirst(s: seq<Transition>, end: int)
    requires s != []
    ensures Groups(s, end)[0].edges != [] && TimeOf(Groups(s, end)[0]) == s[0].time
    decreases |s|
  {
    var g := LastStart(s);
    var gs' := Groups(s[..g], s[g].time);
    GroupsLast(s, end);
    if g > 0 {
      GroupsFirst(s[..g], s[g].time);
      assert Groups(s, end)[0] == gs'[0];
      assert s[..g][0] == s[0];
    }
  }

  /** Each delay runs to the next group's time, and the last one to `end`. */
  lemma {:induction false} GroupsDelay(s: seq<Transition>, end: int, j: nat)
    requires j < |Groups(s, end)|
    ensures Groups(s, end)[j].edges != []
    ensures j + 1 < |Groups(s, end)| ==>
      Groups(s, end)[j + 1].edges != [] &&
      Groups(s, end)[j].delayUs == TimeOf(Groups(s, end)[j + 1]) - TimeOf(Groups(s, end)[j])
    ensures j + 1 == |Groups(s, end)| ==> Groups(s, end)[j].delayUs == end - TimeOf(Groups(s, end)[j])
    decreases |s|
  {
    var g := LastStart(s);
    var t := s[g].time;
    var gs' := Groups(s[..g], t);
    GroupsLast(s, end);
    if j < |gs'| {
      GroupsDelay(s[..g], t, j);
      assert Groups(s, end)[j] == gs'[j];
      if j + 1 < |gs'| {
        assert Groups(s, end)[j + 1] == gs'[j + 1];
      } else {
        assert Groups(s, end)[j + 1] == Group(s[g..], end - t);
        assert s[g..][0] == s[g];
      }
    } else {
      assert Groups(s, end)[j] == Group(s[g..], end - t);
      assert s[g..][0] == s[g];
    }
  }

  /** The edges of the front groups, seen in the whole list: they are the
      transitions at their time. */
  lemma FrontMembers(front: seq<Transition>, back: seq<Transition>, t: int, edges: seq<Transition>, time: int, y: Transition)
    requires Before(front, t) && SameTime(back, t)
    requires edges != [] && edges[0] in front && edges[0].time == time
    requires y in edges <==> y in front && y.time == time
    ensures y in edges <==> y in front + back && y.time == time
  {
    assert time < t;
    if y.time == time {
      InFront(front, back, t, y);
    }
  }

  /** The edges of the last group are the transitions at its time. */
  lemma BackMembers(front: seq<Transition>, back: seq<Transition>, t: int, y: Transition)
    requires Before(front, t) && SameTime(back, t)
    ensures y in back <==> y in front + back && y.time == t
  {
    if y.time == t {
      InBack(front, back, t, y);
    } else {
      InFront(front, back, t, y);
    }
  }

  /** In a time-sorted list, the edges of a group are exactly the
      transitions at its time. */
  lemma {:induction false} GroupsMembers(s: seq<Transition>, end: int, j: nat, y: Transition)
    requires SortedByTime(s) && j < |Groups(s, end)|
    ensures Groups(s, end)[j].edges != [] && Groups(s, end)[j].edges[0] in s
    ensures y in Groups(s, end)[j].edges <==> y in s && y.time == TimeOf(Groups(s, end)[j])
    decreases |s|
  {
    var g := LastStart(s);
    var front, back, t := s[..g], s[g..], s[g].time;
    var gs', last := Groups(front, t), Group(back, end - t);
    GroupsLast(s, end);
    LastGroup(s);
    SnocIndex(Groups(s, end), gs', last, j);
    assert s == front + back;
    if j < |gs'| {
      GroupsMembers(front, t, j, y);
      var x := gs'[j];
      FrontMembers(front, back, t, x.edges, TimeOf(x), y);
    } else {
      assert back[0] == s[g];
      BackMembers(front, back, t, y);
    }
  }

  /** In a time-sorted list the group times strictly increase. */
  lemma {:induction false} GroupsIncrease(s: seq<Transition>, end: int, j: nat)
    requires SortedByTime(s) && j + 1 < |Groups(s, end)|
    ensures Groups(s, end)[j].edges != [] && Groups(s, end)[j + 1].edges != []
    ensures TimeOf(Groups(s, end)[j]) < TimeOf(Groups(s, end)[j + 1])
    decreases |s|
  {
    var g := LastStart(s);
    var front, back, t := s[..g], s[g..], s[g].time;
    var gs' := Groups(front, t);
    GroupsLast(s, end);
    LastGroup(s);
    if j + 1 < |gs'| {
      GroupsIncrease(front, t, j);
      assert Groups(s, end)[j] == gs'[j] && Groups(s, end)[j + 1] == gs'[j + 1];
    } else {
      GroupsMembers(front, t, j, s[g]);
      assert Groups(s, end)[j] == gs'[j];
      assert Groups(s, end)[j + 1] == Group(back, end - t);
      assert back[0] == s[g];
    }
  }

  /** A member of `s` is before or after any cut. */
  lemma SplitMember(s: seq<Transition>, g: nat, y: Transition)
    requires g <= |s| && y in s
    ensures y in s[..g] || y in s[g..]
  {
    assert s == s[..g] + s[g..];
  }

  /** Every transition belongs to some group. */
  lemma {:induction false} GroupsCover(s: seq<Transition>, end: int, y: Transition) returns (j: nat)
    requires SortedByTime(s) && y in s
    ensures j < |Groups(s, end)| && y in Groups(s, end)[j].edges
    decreases |s|
  {
    var g := LastStart(s);
    var front, back, t := s[..g], s[g..], s[g].time;
    var gs', last := Groups(front, t), Group(back, end - t);
    GroupsLast(s, end);
    var gs := Groups(s, end);
    LastGroup(s);
    SplitMember(s, g, y);
    if y in front {
      j := GroupsCover(front, t, y);
    } else {
      j := |gs'|;
    }
    SnocIndex(gs, gs', last, j);
  }

  /** The times of `s` are those before the cut `g` and the time of the
      group that starts there. */
  lemma TimeSetSplit(s: seq<Transition>, g: nat)
    requires g < |s| && Before(s[..g], s[g].time) && SameTime(s[g..], s[g].time)
    ensures TimeSet(s) == TimeSet(s[..g]) + {s[g].time}
    ensures s[g].time !in TimeSet(s[..g])
  {
    var front, back, t := s[..g], s[g..], s[g].time;
    assert s == front + back;
    forall y | y in TimeSet(s)
      ensures y in TimeSet(front) + {t}
    {
      var x :| x in s && x.time == y;
      assert x in front || x in back;
    }
  }

  /** One group per distinct transition time. */
  lemma {:induction false} GroupsCount(s: seq<Transition>, end: int)
    requires SortedByTime(s)
    ensures |Groups(s, end)| == |TimeSet(s)|
    decreases |s|
  {
    if s != [] {
      var g := LastStart(s);
      GroupsLast(s, end);
      LastGroup(s);
      GroupsCount(s[..g], s[g].time);
      TimeSetSplit(s, g);
    }
  }

  // ---------------------------------------------------------------------
  // What the merged pulses mean
  // ---------------------------------------------------------------------

  /** The time, from the first pulse, at which pulse `j` fires: the sum of
      the delays of the pulses before it. */
  function Offset(w: seq<Pulse>, j: nat): int
    requires j <= |w|
  {
    if j == 0 then 0 else Offset(w, j - 1) + w[j - 1].delayUs
  }

  /** Pulse `j` fires at the time of group `j`, and the delays add up to the
      span from the first transition to `end`. */
  lemma {:induction false} MergeOffset(s: seq<Transition>, end: int, j: nat)
    requires s != [] && j <= |Merge(s, end)|
    ensures j < |Merge(s, end)| ==>
      Groups(s, end)[j].edges != [] && s[0].time + Offset(Merge(s, end), j) == TimeOf(Groups(s, end)[j])
    ensures j == |Merge(s, end)| ==> s[0].time + Offset(Merge(s, end), j) == end
  {
    var gs := Groups(s, end);
    if j == 0 {
      GroupsFirst(s, end);
    } else {
      MergeOffset(s, end, j - 1);
      GroupsDelay(s, end, j - 1);
      EncodeAt(gs, j - 1);
    }
  }

  /** Pulse `j` raises (lowers) exactly the pins with a rising (falling)
      transition at its time. */
  lemma MergePulse(s: seq<Transition>, end: int, j: nat, p: Pin, level: Level)
    requires SortedByTime(s) && j < |Merge(s, end)|
    ensures s[0].time + Offset(Merge(s, end), j) in TimeSet(s)
    ensures HasBit(MaskFor(Merge(s, end)[j], level), p) <==>
            Transition(s[0].time + Offset(Merge(s, end), j), p, level) in s
  {
    var x := Groups(s, end)[j];
    MergeOffset(s, end, j);
    var time := TimeOf(x);
    assert s[0].time + Offset(Merge(s, end), j) == time;
    GroupsShape(s, end, j);
    GroupsMembers(s, end, j, Transition(time, p, level));
    assert time in TimeSet(s) by {
      GroupsMembers(s, end, j, x.edges[0]);
    }
    EncodeAt(Groups(s, end), j);
    assert MaskFor(Merge(s, end)[j], level) == Mask(x.edges, level);
    MaskBit(x.edges, time, p, level);
  }

  /** Every pulse but the last has a positive delay: equal times never give a
      zero-delay pulse. */
  lemma MergeDelaysPositive(s: seq<Transition>, end: int, j: nat)
    requires SortedByTime(s) && j + 1 < |Merge(s, end)|
    ensures Merge(s, end)[j].delayUs > 0
  {
    EncodeAt(Groups(s, end), j);
    GroupsDelay(s, end, j);
    GroupsIncrease(s, end, j);
  }

  /** The last pulse holds from the last transition to `end`. */
  lemma MergeLastDelay(s: seq<Transition>, end: int)
    requires s != []
    ensures Merge(s, end) != [] && Merge(s, end)[|Merge(s, end)| - 1].delayUs == end - s[|s| - 1].time
  {
    var g := LastStart(s);
    assert Merge(s, end)[|Merge(s, end)| - 1] == Encode(Group(s[g..], end - s[g].time)) by {
      MergeLast(s, end);
    }
    assert s[g].time == s[|s| - 1].time by {
      LastStartFacts(s);
      assert s[g..][|s| - 1 - g] == s[|s| - 1];
    }
  }

  /** Every transition time has a pulse firing at it. */
  lemma MergeCovers(s: seq<Transition>, end: int, y: Transition) returns (j: nat)
    requires SortedByTime(s) && y in s
    ensures j < |Merge(s, end)| && s[0].time + Offset(Merge(s, end), j) == y.time
  {
    j := GroupsCover(s, end, y);
    GroupsMembers(s, end, j, y);
    MergeOffset(s, end, j);
  }

  /** One pulse per distinct transition time. */
  lemma MergeCount(s: seq<Transition>, end: int)
    requires SortedByTime(s)
    ensures |Merge(s, end)| == |TimeSet(s)|
  {
    GroupsCount(s, end);
  }

  /** With positive inner delays the pulses fire in strictly increasing
      order, so no two pulses share a time. */
  lemma {:induction false} OffsetsIncrease(w: seq<Pulse>, i: nat, j: nat)
    requires forall m :: 0 <= m < |w| - 1 ==> w[m].delayUs > 0
    requires i < j < |w|
    ensures Offset(w, i) < Offset(w, j)
    decreases j
  {
    if i < j - 1 {
      OffsetsIncrease(w, i, j - 1);
    }
  }

  /** Closing the last group appends its pulse to the merge of the rest. */
  lemma MergeLast(s: seq<Transition>, end: int)
    requires s != []
    ensures Merge(s, end) ==
      Merge(s[..LastStart(s)], s[LastStart(s)].time) + [Encode(Group(s[LastStart(s)..], end - s[LastStart(s)].time))]
  {
    GroupsLast(s, end);
    var g := LastStart(s);
    EncodeSnoc(Groups(s[..g], s[g].time), Group(s[g..], end - s[g].time));
  }

  /** One more transition ORs its bit into the mask. */
  lemma MaskSnoc(g: seq<Transition>, x: Transition, level: Level)
    ensures Mask(g + [x], level) == Or(Mask(g, level), EdgeBit(x, level))
  {
    assert (g + [x])[..|g|] == g;
  }

  /** The mask update of the merging pass: a transition ORs its bit into
      the mask of its level and leaves the other mask as it is. */
  lemma MaskStep(g: seq<Transition>, x: Transition, level: Level, m: nat)
    requires m == Mask(g, level)
    ensures Mask(g + [x], level) == if x.level == level then Or(m, Bit(x.pin)) else m
  {
    MaskSnoc(g, x, level);
    if x.level != level {
      OrZero(m);
    }
  }

  lemma MaskOne(x: Transition, level: Level)
    ensures Mask([x], level) == if x.level == level then Bit(x.pin) else 0
  {
    assert [x][..0] == [];
  }

  lemma SameTimeSnoc(g: seq<Transition>, x: Transition, t: int)
    requires SameTime(g, t) && x.time == t
    ensures SameTime(g + [x], t)
  {
    assert forall i :: 0 <= i < |g| ==> (g + [x])[i] == g[i];
  }

  /** Grouping a list whose last group starts at `g`. */
  lemma GroupsAt(s: seq<Transition>, g: nat, end: int)
    requires g < |s| && SameTime(s[g..], s[g].time)
    requires 0 < g ==> s[g - 1].time != s[g].time
    ensures Groups(s, end) == Groups(s[..g], s[g].time) + [Group(s[g..], end - s[g].time)]
  {
    LastStartAt(s, g);
    GroupsLast(s, end);
  }

  /** Closing the open group `s[g..i]` appends it to the groups of what came
      before it. */
  lemma CloseGroup(s: seq<Transition>, g: nat, i: nat, end: int, group: seq<Transition>)
    requires g < i <= |s| && group == s[g..i] && SameTime(group, s[g].time)
    requires 0 < g ==> s[g - 1].time != s[g].time
    ensures Groups(s[..i], end) == Groups(s[..g], s[g].time) + [Group(group, end - s[g].time)]
  {
    SliceOfPrefix(s, g, i);
    GroupsAt(s[..i], g, end);
  }

  lemma SliceOfPrefix(s: seq<Transition>, g: nat, i: nat)
    requires g < i <= |s|
    ensures s[..i][..g] == s[..g] && s[..i][g..] == s[g..i] && s[..i][g] == s[g]
  {
  }

  // ---------------------------------------------------------------------
  // The merging pass
  // ---------------------------------------------------------------------

  /** The variables of the merging pass: whether a pulse is open (its masks
      are not None), the open pulse's time and masks, and the wave points
      emitted so far. */
  datatype Pass = Pass(open: bool, prevTime: int, upMask: nat, downMask: nat, wave: seq<Pulse>)

  /** The variables before the first transition. */
  const Start := Pass(false, 0, 0, 0, [])

  /** One iteration over transition `tr`: at the open pulse's time it ORs
      the pin into that pulse's mask; otherwise it emits the open pulse with
      the gap to `tr`'s time and opens a pulse holding only `tr`. */
  function Step(p: Pass, tr: Transition): (r: Pass)
    ensures r.open && r.prevTime == tr.time
    ensures HasBit(if tr.level == High then r.upMask else r.downMask, tr.pin)
    ensures |r.wave| == |p.wave| + (if p.open && p.prevTime != tr.time then 1 else 0)
    ensures r.wave[..|p.wave|] == p.wave
    ensures p.open && p.prevTime != tr.time ==> r.wave[|p.wave|] == Pulse(p.upMask, p.downMask, tr.time - p.prevTime)
  {
    BitOnly(tr.pin, tr.pin);
    if p.open && p.prevTime == tr.time then
      OrBits(p.upMask, Bit(tr.pin), tr.pin);
      OrBits(p.downMask, Bit(tr.pin), tr.pin);
      if tr.level == High then p.(upMask := Or(p.upMask, Bit(tr.pin)))
      else p.(downMask := Or(p.downMask, Bit(tr.pin)))
    else
      var wave := if p.open then p.wave + [Pulse(p.upMask, p.downMask, tr.time - p.prevTime)] else p.wave;
      if tr.level == High then Pass(true, tr.time, Bit(tr.pin), 0, wave)
      else Pass(true, tr.time, 0, Bit(tr.pin), wave)
  }

  /** The iterations over all of `s`, in order. */
  function Scan(s: seq<Transition>): (r: Pass)
    ensures r.open <==> s != []
    ensures s != [] ==> r.prevTime == s[|s| - 1].time
    ensures |r.wave| + (if r.open then 1 else 0) <= |s|
  {
    if s == [] then Start else Step(Scan(s[..|s| - 1]), s[|s| - 1])
  }

  /** After the loop: the open pulse, if any, is emitted with the gap to
      `end`. */
  function Close(p: Pass, end: int): seq<Pulse> {
    if p.open then p.wave + [Pulse(p.upMask, p.downMask, end - p.prevTime)] else p.wave
  }

  lemma ScanSnoc(s: seq<Transition>, i: nat)
    requires i < |s|
    ensures Scan(s[..i + 1]) == Step(Scan(s[..i]), s[i])
  {
    assert s[..i + 1][..i] == s[..i];
  }

  /** After `s[..i]` a pulse is open on the run `s[g..i]` of transitions at
      its time, which a different time precedes; its masks are the run's
      masks, and the wave so far encodes the groups of `s[..g]`. */
  ghost predicate Pending(s: seq<Transition>, i: nat, g: nat, p: Pass) {
    p.open && g < i <= |s| && p.prevTime == s[g].time &&
    SameTime(s[g..i], p.prevTime) &&
    p.upMask == Mask(s[g..i], High) && p.downMask == Mask(s[g..i], Low) &&
    (0 < g ==> s[g - 1].time != s[g].time) &&
    p.wave == EncodeAll(Groups(s[..g], s[g].time))
  }

  /** The first transition opens the first pulse. */
  lemma StepFirst(s: seq<Transition>)
    requires s != []
    ensures Pending(s, 1, 0, Step(Start, s[0]))
  {
    assert s[0..1] == [s[0]];
    assert s[..0] == [];
    MaskOne(s[0], High);
    MaskOne(s[0], Low);
  }

  /** A transition at the open pulse's time joins its run. */
  lemma StepJoin(s: seq<Transition>, i: nat, g: nat, p: Pass)
    requires Pending(s, i, g, p) && i < |s| && s[i].time == p.prevTime
    ensures Pending(s, i + 1, g, Step(p, s[i]))
  {
    assert s[g..i + 1] == s[g..i] + [s[i]];
    MaskStep(s[g..i], s[i], High, p.upMask);
    MaskStep(s[g..i], s[i], Low, p.downMask);
    SameTimeSnoc(s[g..i], s[i], p.prevTime);
  }

  /** A transition at another time closes the run into a group and opens
      a run of its own. */
  lemma StepNext(s: seq<Transition>, i: nat, g: nat, p: Pass)
    requires Pending(s, i, g, p) && i < |s| && s[i].time != p.prevTime
    ensures Pending(s, i + 1, i, Step(p, s[i]))
  {
    var d := s[i].time - p.prevTime;
    var wave := p.wave + [Pulse(p.upMask, p.downMask, d)];
    EmitWave(s, i, g, p);
    assert s[i - 1].time == p.prevTime by {
      assert s[g..i][i - 1 - g] == s[i - 1];
    }
    var q := Step(p, s[i]);
    assert q.wave == wave && q.open && q.prevTime == s[i].time;
    assert s[i..i + 1] == [s[i]];
    MaskOne(s[i], High);
    MaskOne(s[i], Low);
  }

  /** Emitting the open pulse with the gap to `s[i]` encodes the groups of
      `s[..i]`. */
  lemma EmitWave(s: seq<Transition>, i: nat, g: nat, p: Pass)
    requires Pending(s, i, g, p) && i < |s|
    ensures p.wave + [Pulse(p.upMask, p.downMask, s[i].time - p.prevTime)] == EncodeAll(Groups(s[..i], s[i].time))
  {
    var d := s[i].time - p.prevTime;
    CloseGroup(s, g, i, s[i].time, s[g..i]);
    EncodeSnoc(Groups(s[..g], s[g].time), Group(s[g..i], d));
  }

  /** Closing the open run after the last transition completes the merge. */
  lemma PendingClose(s: seq<Transition>, g: nat, p: Pass, end: int)
    requires Pending(s, |s|, g, p)
    ensures Close(p, end) == Merge(s, end)
  {
    var groups, last := Groups(s[..g], s[g].time), Group(s[g..|s|], end - s[g].time);
    assert Close(p, end) == EncodeAll(groups) + [Encode(last)];
    assert Groups(s, end) == groups + [last] by {
      LastRun(s, g, end);
    }
    EncodeSnoc(groups, last);
  }

  /** The run `s[g..]` at one time, preceded by a different time, is the
      last group. */
  lemma LastRun(s: seq<Transition>, g: nat, end: int)
    requires g < |s| && SameTime(s[g..|s|], s[g].time)
    requires 0 < g ==> s[g - 1].time != s[g].time
    ensures Groups(s, end) == Groups(s[..g], s[g].time) + [Group(s[g..|s|], end - s[g].time)]
  {
    CloseGroup(s, g, |s|, end, s[g..|s|]);
    assert s[..|s|] == s;
  }

  /** One iteration keeps a pulse open. */
  lemma PendingStep(s: seq<Transition>, i: nat, g: nat, p: Pass) returns (g': nat)
    requires Pending(s, i, g, p) && i < |s|
    ensures Pending(s, i + 1, g', Step(p, s[i]))
  {
    if s[i].time == p.prevTime {
      StepJoin(s, i, g, p);
      g' := g;
    } else {
      StepNext(s, i, g, p);
      g' := i;
    }
  }

  /** After a non-empty prefix a pulse is open. */
  lemma {:induction false} ScanPending(s: seq<Transition>, i: nat) returns (g: nat)
    requires 0 < i <= |s|
    ensures Pending(s, i, g, Scan(s[..i]))
  {
    if i == 1 {
      ScanFirst(s);
      g := 0;
    } else {
      var g0 := ScanPending(s, i - 1);
      var p := Scan(s[..i - 1]);
      ScanSnoc(s, i - 1);
      g := PendingStep(s, i - 1, g0, p);
    }
  }

  /** The first iteration opens the first pulse. */
  lemma ScanFirst(s: seq<Transition>)
    requires s != []
    ensures Pending(s, 1, 0, Scan(s[..1]))
  {
    ScanSnoc(s, 0);
    assert s[..0] == [];
    StepFirst(s);
  }

  /** The single pass computes the reference merge. */
  lemma ScanMerge(s: seq<Transition>, end: int)
    ensures Close(Scan(s), end) == Merge(s, end)
  {
    if s != [] {
      var g := ScanPending(s, |s|);
      assert s[..|s|] == s;
      PendingClose(s, g, Scan(s), end);
    }
  }

  /** The merging loop: sorted transitions become wave points, one per
      distinct time, as `Merge` describes. */
  method MergeTransitions(s: seq<Transition>, period: int) returns (wave: seq<Pulse>)
    ensures wave == Merge(s, period)
  {
    var prevTime := 0;
    var open := false;  // whether a pulse has been started (the masks are not None)
    var upMask: nat := 0;
    var downMask: nat := 0;
    wave := [];
    assert s[..0] == [];
    for i := 0 to |s|
      invariant Pass(open, prevTime, upMask, downMask, wave) == Scan(s[..i])
    {
      ScanSnoc(s, i);
      var tr := s[i];
      ghost var next := Step(Pass(open, prevTime, upMask, downMask, wave), tr);
      if open && prevTime == tr.time {
        if tr.level == High {
          upMask := Or(upMask, Bit(tr.pin));
        } else {
          downMask := Or(downMask, Bit(tr.pin));
        }
      } else {
        if open {
          wave := wave + [Pulse(upMask, downMask, tr.time - prevTime)];
        }
        upMask := 0;
        downMask := 0;
        if tr.level == High {
          upMask := Bit(tr.pin);
        } else {
          downMask := Bit(tr.pin);
        }
        prevTime := tr.time;
        open := true;
      }
      assert Pass(open, prevTime, upMask, downMask, wave) == next;
    }
    assert s[..|s|] == s;
    if open {
      wave := wave + [Pulse(upMask, downMask, period - prevTime)];
    }
    ScanMerge(s, period);
  }
}
