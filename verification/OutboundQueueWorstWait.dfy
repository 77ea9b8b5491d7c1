/**
  The fairness rotation's bound on a lane's wait is exact: for every limit and number of
  other waiting lanes, a queue can be filled so that popping it reaches the bound.
*/
module OutboundQueueWorstWait {
  import opened Numbers
  import Sequences
  import opened Wire
  import opened Wrappers
  import opened OutboundQueue
  import opened OutboundQueueOrder
  import opened OutboundQueueFairness

  // ----- The schedule that makes lane 4 wait longest -----

  /**
    A point of the schedule. With a limit above 1, `Turn(m, j, k)`: lanes 0 to m - 1 are in
    the round, and lane j has had k pops of its turn; in every round the last lane runs dry
    one pop before its turn ends. With a limit of 1, `Single(m, n)`: n of m lanes have gone.
  */
  datatype Point = Turn(m: nat, j: nat, k: nat) | Single(m: nat, n: nat)

  /** `n` full turns. */
  function Turns(n: nat, max: nat): (t: nat)
    ensures t == max * n
  {
    if n == 0 then 0
    else
      NextMultiple(n - 1, n, max);
      assert max * n == max * (n - 1) + max;
      Turns(n - 1, max) + max
  }

  /** What lane `i` holds in a round of `m` lanes before its own turn. */
  function Load(m: nat, i: nat, max: nat): int {
    if i < m then Turns(m - i, max) - if i == 0 then 0 else 1 else 0
  }

  ghost predicate InRound(r: Rotation, m: nat, j: nat, k: nat, max: nat) {
    && max > 1 && 1 <= m <= 4 && j < m && k <= max && (0 < j == m - 1 ==> k < max)
    && r.current == j && r.consecutive == k && r.lanes[4] != []
    && forall i: LaneIndex :: i < 4 ==> |r.lanes[i]| == Load(m, i, max) - if i < j then max else if i == j then k else 0
  }

  ghost predicate InSingles(r: Rotation, m: nat, n: nat) {
    && m <= 4 && n <= m && r.lanes[4] != []
    && (if n == 0 then r.current == 0 && r.consecutive == 0 else r.current == n - 1 && r.consecutive == 1)
    && forall i: LaneIndex :: i < 4 ==> |r.lanes[i]| == if n <= i < m then 1 else 0
  }

  ghost predicate Reached(r: Rotation, p: Point, max: nat) {
    match p
    case Turn(m, j, k) => InRound(r, m, j, k, max)
    case Single(m, n) => max == 1 && InSingles(r, m, n)
  }

  /** The pops of other lanes that are still to come. */
  function Left(p: Point, max: nat): int
    requires max > 0
  {
    match p
    case Turn(m, j, k) => WorstWait(m, max) - Turns(j, max) - k
    case Single(m, n) => m - n
  }

  lemma StartsAt(lanes: LaneQueues, start: LaneIndex)
    requires lanes[start] != []
    ensures FirstNonEmptyFrom(lanes, start) == Some(start)
  {
    assert LaneAt(start, 0) == start;
  }

  lemma LoadIsPositive(m: nat, i: nat, max: nat)
    requires max > 1 && i < m
    ensures Load(m, i, max) >= max - 1
    ensures Load(m, i, max) == max - 1 <==> 0 < i == m - 1
    ensures i + 1 < m ==> Load(m, i, max) >= max + 1
  {
    assert Turns(m - i, max) == Turns(m - i - 1, max) + max;
  }

  /** A lane in the middle of its turn is served again. */
  lemma PopInTurn(r: Rotation, m: nat, j: nat, k: nat, max: nat)
    requires InRound(r, m, j, k, max) && k < max && (0 < j == m - 1 ==> k + 1 < max)
    ensures ServedLane(r, max) == Some(j)
    ensures InRound(AfterServing(r, max), m, j, k + 1, max)
  {
    LoadIsPositive(m, j, max);
    hide Load;
    assert |r.lanes[j]| > 0;
  }

  lemma NextIsServed(r: Rotation, j: nat, max: nat)
    requires r.current == j < 4 && r.consecutive >= max && r.lanes[j + 1] != []
    ensures ServedLane(r, max) == Some(j + 1)
    ensures AfterServing(r, max) == Rotation(r.lanes[j + 1 := r.lanes[j + 1][1..]], j + 1, 1)
  {
    StartsAt(r.lanes, j + 1);
    hide FirstNonEmptyFrom;
  }

  /** The lane has had its turn, and the next lane begins its own. */
  lemma PopNext(r: Rotation, m: nat, j: nat, max: nat)
    requires InRound(r, m, j, max, max) && j + 1 < m
    ensures ServedLane(r, max) == Some(j + 1)
    ensures InRound(AfterServing(r, max), m, j + 1, 1, max)
  {
    LoadIsPositive(m, j + 1, max);
    hide Load;
    assert |r.lanes[j + 1]| > 0;
    NextIsServed(r, j, max);
    hide ServedLane, AfterServing;
  }

  /** The last lane has run dry, and the rotation restarts without it. */
  lemma PopAgain(r: Rotation, m: nat, max: nat)
    requires m > 1 && max > 1 && InRound(r, m, m - 1, max - 1, max)
    ensures ServedLane(r, max) == Some(0)
    ensures InRound(AfterServing(r, max), m - 1, 0, 1, max)
  {
    LoadIsPositive(m, m - 1, max);
    LoadIsPositive(m, 0, max);
    forall i: nat | i < 4
      ensures Load(m - 1, i, max) == Load(m, i, max) - if i < m - 1 then max else if i == m - 1 then max - 1 else 0
    {
      NextRoundLoad(m, i, max);
    }
    hide Load;
    assert |r.lanes[m - 1]| == 0 && |r.lanes[0]| > 0;
    StartsAt(r.lanes, 0);
    hide FirstNonEmptyFrom;
  }

  lemma NextRoundLoad(m: nat, i: nat, max: nat)
    requires m > 1 && max > 1
    ensures Load(m - 1, i, max) == Load(m, i, max) - if i < m - 1 then max else if i == m - 1 then max - 1 else 0
  {
    if i < m - 1 {
      assert Turns(m - i, max) == Turns(m - 1 - i, max) + max;
    } else if i == m - 1 {
      assert Turns(1, max) == Turns(0, max) + max;
    }
  }

  lemma PopSingle(r: Rotation, m: nat, n: nat)
    requires InSingles(r, m, n) && n < m
    ensures ServedLane(r, 1) == Some(n)
    ensures InSingles(AfterServing(r, 1), m, n + 1)
  {
    StartsAt(r.lanes, n);
    hide FirstNonEmptyFrom;
  }

  /** Every pop takes the schedule one point further, as long as pops are left. */
  lemma PopOnSchedule(r: Rotation, p: Point, max: nat) returns (p': Point)
    requires max > 0 && Reached(r, p, max) && Left(p, max) > 0
    ensures ServedLane(r, max).Some? && ServedLane(r, max).value < 4
    ensures Reached(AfterServing(r, max), p', max) && Left(p', max) == Left(p, max) - 1
  {
    match p
    case Single(m, n) =>
      PopSingle(r, m, n);
      p' := Single(m, n + 1);
    case Turn(m, j, k) =>
      LeftInRound(m, j, k, max);
      assert 1 <= m <= 4 && j < m && k <= max && (0 < j == m - 1 ==> k < max);
      if k == max {
        PopNext(r, m, j, max);
        p' := Turn(m, j + 1, 1);
      } else if 0 < j == m - 1 && k == max - 1 {
        PopAgain(r, m, max);
        p' := Turn(m - 1, 0, 1);
      } else {
        PopInTurn(r, m, j, k, max);
        p' := Turn(m, j, k + 1);
      }
      hide InRound, ServedLane, AfterServing, Left;
  }

  lemma LeftInRound(m: nat, j: nat, k: nat, max: nat)
    requires max > 1 && m >= 1 && j < m
    ensures Left(Turn(m, j, k + 1), max) == Left(Turn(m, j, k), max) - 1
    ensures Left(Turn(m, j + 1, 1), max) == Left(Turn(m, j, max), max) - 1
    ensures m > 1 ==> Left(Turn(m - 1, 0, 1), max) == Left(Turn(m, m - 1, max - 1), max) - 1
    ensures m == 1 ==> Left(Turn(m, 0, max), max) == 0
  {
    assert Turns(j + 1, max) == Turns(j, max) + max;
    assert Turns(m, max) == Turns(m - 1, max) + max;
  }

  // ----- Popping a queue on schedule -----

  function Pops(n: nat): (ops: seq<TimedOp>)
    ensures |ops| == n && OnlyPops(ops)
  {
    seq(n, _ => At(0, Pop))
  }

  /** A fair queue without stream items. */
  ghost predicate LanesOnly(q: Queue, max: nat) {
    q.Valid() && FairMode(q) && q.maxConsecutive == max && q.streamFifo == []
  }

  lemma PopOneLane(t: Trace, p: Point, max: nat) returns (p': Point)
    requires max > 0 && LanesOnly(t.queue, max) && Reached(View(t.queue), p, max) && Left(p, max) > 0
    ensures var t' := Step(t, At(0, Pop));
            && LanesOnly(t'.queue, max) && Reached(View(t'.queue), p', max) && Left(p', max) == Left(p, max) - 1
            && |t'.left| == |t.left| + 1
            && |Select(PrioritySide, t'.left)| == |Select(PrioritySide, t.left)| + 1
            && Select(Lane(4), t'.left) == Select(Lane(4), t.left)
  {
    var q := t.queue;
    p' := PopOnSchedule(View(q), p, max);
    assert AnyNonEmpty(q.lanes) by { assert q.lanes[4] != []; }
    hide Reached, Left, AfterServing, ServedLane, AnyNonEmpty, FairMode;
    FairPop(q, 0);
    StreamStaysEmpty(q);
    assert !TakesStream(q);
    hide AfterPop, Queue.Valid, TakesStream;
    var e := AfterPop(q, 0).0.value;
    PopStep(t, e);
    LaneOnly(e, ServedLane(View(q), max).value);
    hide Select, Step, From;
    LaneCounts(t.left, e);
  }

  lemma PopStep(t: Trace, e: WireEnvelope)
    requires AfterPop(t.queue, 0).0 == Some(e)
    ensures Step(t, At(0, Pop)) == Trace(AfterPop(t.queue, 0).1, t.accepted, t.left + [e])
  {
    hide AfterPop;
  }

  lemma LaneOnly(e: WireEnvelope, lane: LaneIndex)
    requires From(Lane(lane), e)
    ensures !IsStream(e) && LaneOf(e) == lane
  {
  }

  lemma LaneCounts(left: seq<WireEnvelope>, e: WireEnvelope)
    requires !IsStream(e) && LaneOf(e) != 4
    ensures |Select(PrioritySide, left + [e])| == |Select(PrioritySide, left)| + 1
    ensures Select(Lane(4), left + [e]) == Select(Lane(4), left)
  {
    CountsAfter(left, e);
    SelectConcat(Lane(4), left, [e]);
    SelectOne(Lane(4), e);
    hide Select;
    Sequences.ConcatNothing(Select(Lane(4), left));
  }

  lemma StreamStaysEmpty(q: Queue)
    requires q.streamFifo == []
    ensures AfterPop(q, 0).1.streamFifo == []
  {
    hide FirstNonEmptyFrom, BestIndex;
  }

  lemma {:induction false} PopsOnSchedule(q: Queue, p: Point, max: nat, n: nat) returns (p': Point)
    requires max > 0 && LanesOnly(q, max) && Reached(View(q), p, max) && n <= Left(p, max)
    ensures var t := Run(q, Pops(n));
            && LanesOnly(t.queue, max) && Reached(View(t.queue), p', max) && Left(p', max) == Left(p, max) - n
            && |Select(PrioritySide, t.left)| == n && Select(Lane(4), t.left) == []
  {
    if n == 0 {
      p' := p;
      SelectNothing(PrioritySide);
      SelectNothing(Lane(4));
    } else {
      p' := PopsOnSchedule(q, p, max, n - 1);
      assert Pops(n)[..n - 1] == Pops(n - 1);
      hide LanesOnly, Reached, Left, Select;
      p' := PopOneLane(Run(q, Pops(n - 1)), p', max);
    }
  }

  // ----- Filling a queue -----

  function Copies(lane: LaneIndex, n: nat): (ops: seq<TimedOp>) {
    if n == 0 then [] else Copies(lane, n - 1) + [At(0, Push(SampleFor(lane)))]
  }

  lemma {:induction false} RunOn(q: Queue, a: seq<TimedOp>, b: seq<TimedOp>)
    ensures Run(q, a + b).queue == Run(Run(q, a).queue, b).queue
  {
    if b == [] {
      Sequences.ConcatNothing(a);
    } else {
      Sequences.InitOfConcat(a, b);
      RunOn(q, a, b[..|b| - 1]);
    }
  }

  /** An unbounded fair queue: what pushes into lanes need and keep. */
  ghost predicate Fillable(q: Queue, max: nat) {
    LanesOnly(q, max) && q.capacity == 0 && q.currentLane == 0 && q.consecutiveFromLane == 0
  }

  lemma OnePushFills(t: Trace, max: nat, lane: LaneIndex)
    requires Fillable(t.queue, max)
    ensures var q' := Step(t, At(0, Push(SampleFor(lane)))).queue;
            Fillable(q', max) && q'.lanes == t.queue.lanes[lane := t.queue.lanes[lane] + [SampleFor(lane)]]
  {
    PushKeepsValid(t.queue, SampleFor(lane), 0);
    hide Queue.Valid;
  }

  lemma RunAppend(q: Queue, ops: seq<TimedOp>, op: TimedOp)
    ensures Run(q, ops + [op]) == Step(Run(q, ops), op)
  {
    Sequences.InitOfAppend(ops, op);
    hide Step;
  }

  lemma {:induction false} CopiesFill(q: Queue, max: nat, lane: LaneIndex, n: nat)
    requires Fillable(q, max)
    ensures var q' := Run(q, Copies(lane, n)).queue;
            && Fillable(q', max)
            && forall i: LaneIndex :: |q'.lanes[i]| == |q.lanes[i]| + if i == lane then n else 0
  {
    if n > 0 {
      CopiesFill(q, max, lane, n - 1);
      Sequences.InitOfAppend(Copies(lane, n - 1), At(0, Push(SampleFor(lane))));
      hide Run, Fillable, Step;
      OnePushFills(Run(q, Copies(lane, n - 1)), max, lane);
      RunAppend(q, Copies(lane, n - 1), At(0, Push(SampleFor(lane))));
    }
  }

  /** Puts `sizes[i]` envelopes into each lane i below `upTo`. */
  function Fill(sizes: seq<nat>, upTo: nat): (ops: seq<TimedOp>)
    requires |sizes| == 5 && upTo <= 5
  {
    if upTo == 0 then [] else Fill(sizes, upTo - 1) + Copies(upTo - 1, sizes[upTo - 1])
  }

  /** Each lane below `upTo` holds as many envelopes as `sizes` says, and the others none. */
  ghost predicate Filled(q: Queue, sizes: seq<nat>, upTo: nat)
    requires |sizes| == 5
  {
    forall i: LaneIndex :: |q.lanes[i]| == if i < upTo then sizes[i] else 0
  }

  lemma FillOneMore(sizes: seq<nat>, upTo: nat)
    requires |sizes| == 5 && 0 < upTo <= 5
    ensures Fill(sizes, upTo) == Fill(sizes, upTo - 1) + Copies(upTo - 1, sizes[upTo - 1])
  {
  }

  lemma FilledOneMore(q: Queue, q': Queue, sizes: seq<nat>, lane: LaneIndex)
    requires |sizes| == 5 && Filled(q, sizes, lane)
    requires forall i: LaneIndex :: |q'.lanes[i]| == |q.lanes[i]| + if i == lane then sizes[lane] else 0
    ensures Filled(q', sizes, lane + 1)
  {
  }

  lemma {:induction false} FillFills(max: nat, sizes: seq<nat>, upTo: nat)
    requires max > 0 && |sizes| == 5 && upTo <= 5
    ensures var q := Run(EmptyQueue(0, max, None), Fill(sizes, upTo)).queue;
            Fillable(q, max) && Filled(q, sizes, upTo)
  {
    if upTo == 0 {
      EmptyLanes(max);
      hide Run, LanesOnly;
    } else {
      hide *;
      FillFills(max, sizes, upTo - 1);
      FillOneMore(sizes, upTo);
      var q0, before, copies := EmptyQueue(0, max, None), Fill(sizes, upTo - 1), Copies(upTo - 1, sizes[upTo - 1]);
      CopiesFill(Run(q0, before).queue, max, upTo - 1, sizes[upTo - 1]);
      RunOn(q0, before, copies);
      FilledOneMore(Run(q0, before).queue, Run(q0, before + copies).queue, sizes, upTo - 1);
    }
  }

  lemma EmptyLanes(max: nat)
    requires max > 0
    ensures Run(EmptyQueue(0, max, None), []).queue == EmptyQueue(0, max, None)
    ensures Fillable(EmptyQueue(0, max, None), max)
    ensures forall i: LaneIndex :: |EmptyQueue(0, max, None).lanes[i]| == 0
  {
  }

  /** What the lanes hold before the first pop of the schedule for `m` lanes. */
  function Sizes(m: nat, max: nat): (sizes: seq<nat>)
    requires max > 0
    ensures |sizes| == 5 && sizes[4] == 1
  {
    (if max == 1 then seq(4, i => if i < m then 1 else 0)
     else seq(4, i requires 0 <= i < 4 => LoadOrNone(m, i, max))) + [1]
  }

  function LoadOrNone(m: nat, i: nat, max: nat): nat
    requires max > 1
  {
    if i < m then
      LoadIsPositive(m, i, max);
      Load(m, i, max)
    else 0
  }

  /**
    For every limit and up to four other lanes: a queue that has been filled through pushes
    alone gives them exactly the worst wait's number of pops while lane 4 waits.
  */
  lemma WorstWaitIsReached(max: nat, m: nat)
    requires max > 0 && m <= 4
    ensures var q := Run(EmptyQueue(0, max, None), Fill(Sizes(m, max), 5)).queue;
            var t := Run(q, Pops(WorstWait(m, max)));
            && q.lanes[4] != [] && BusyOthers(q.lanes, 4) == m
            && |Select(PrioritySide, t.left)| == WorstWait(m, max) && Select(Lane(4), t.left) == []
  {
    var q := Run(EmptyQueue(0, max, None), Fill(Sizes(m, max), 5)).queue;
    FillFills(max, Sizes(m, max), 5);
    SizesBusy(m, max);
    FilledLanes(q, Sizes(m, max));
    hide Run, Fill;
    BusyAre(q.lanes, m);
    if m == 0 {
      SelectNothing(PrioritySide);
      SelectNothing(Lane(4));
      RunNothing(q);
    } else {
      var start := StartReached(q, m, max);
      hide *;
      var end := PopsOnSchedule(q, start, max, WorstWait(m, max));
    }
  }

  lemma SizesBusy(m: nat, max: nat)
    requires max > 0
    ensures forall i :: 0 <= i < 4 ==> (Sizes(m, max)[i] > 0 <==> i < m)
  {
    if max > 1 {
      forall i: nat | i < m ensures Load(m, i, max) > 0 { LoadIsPositive(m, i, max); }
    }
    hide Load;
  }

  /** The schedule's first point. */
  lemma StartReached(q: Queue, m: nat, max: nat) returns (start: Point)
    requires max > 0 && 1 <= m <= 4 && Fillable(q, max) && |q.lanes[4]| == 1
    requires forall i: LaneIndex :: i < 4 ==> |q.lanes[i]| == Sizes(m, max)[i]
    ensures Reached(View(q), start, max) && Left(start, max) == WorstWait(m, max)
  {
    start := if max == 1 then Single(m, 0) else Turn(m, 0, 0);
    hide Load, LanesOnly, Turns;
    StartLeft(m, max);
    hide Left, WorstWait;
  }

  lemma StartLeft(m: nat, max: nat)
    requires max > 0
    ensures Left(if max == 1 then Single(m, 0) else Turn(m, 0, 0), max) == WorstWait(m, max)
  {
  }

  lemma FilledLanes(q: Queue, sizes: seq<nat>)
    requires |sizes| == 5 && Filled(q, sizes, 5)
    ensures forall i: LaneIndex :: |q.lanes[i]| == sizes[i]
  {
  }

  lemma RunNothing(q: Queue)
    ensures Run(q, Pops(0)).left == []
  {
  }

  lemma BusyAre(lanes: LaneQueues, m: nat)
    requires m <= 4 && forall i: LaneIndex :: i < 4 ==> (|lanes[i]| > 0 <==> i < m)
    ensures BusyOthers(lanes, 4) == m
  {
  }

  // ----- The exact guarantee -----

  /** From every reachable state, a lane behind `m` others lets at most `bound` of their pops pass. */
  ghost predicate WaitsAtMost(max: nat, m: nat, bound: nat) {
    forall capacity: nat, fill: seq<TimedOp>, pops: seq<TimedOp>, target: LaneIndex ::
      Waits(Run(EmptyQueue(capacity, max, None), fill).queue, m, pops, target)
      ==> |Select(PrioritySide, Run(Run(EmptyQueue(capacity, max, None), fill).queue, pops).left)| <= bound
  }

  ghost predicate Waits(q: Queue, m: nat, pops: seq<TimedOp>, target: LaneIndex) {
    && q.lanes[target] != [] && BusyOthers(q.lanes, target) == m && OnlyPops(pops)
    && Select(Lane(target), Run(q, pops).left) == []
  }

  /** A bound on the wait behind `m` lanes holds in all runs of pops if and only if it is at least the worst wait. */
  lemma WorstWaitIsExact(max: nat, m: nat, bound: nat)
    requires max > 0 && m <= 4
    ensures WaitsAtMost(max, m, bound) <==> bound >= WorstWait(m, max)
  {
    hide Run, Select, BusyOthers, WorstWait;
    if bound >= WorstWait(m, max) {
      forall capacity: nat, fill, pops, target: LaneIndex
        | Waits(Run(EmptyQueue(capacity, max, None), fill).queue, m, pops, target)
        ensures |Select(PrioritySide, Run(Run(EmptyQueue(capacity, max, None), fill).queue, pops).left)| <= bound
      {
        RunKeepsValid(EmptyQueue(capacity, max, None), fill);
        FairStarvationBound(Run(EmptyQueue(capacity, max, None), fill).queue, pops, target);
      }
    } else {
      WorstWaitIsReached(max, m);
      assert Waits(Run(EmptyQueue(0, max, None), Fill(Sizes(m, max), 5)).queue, m, Pops(WorstWait(m, max)), 4);
    }
  }
}
