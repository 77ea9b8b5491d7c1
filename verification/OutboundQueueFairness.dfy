/**
  Who waits how long in the outbound queue: the interleaving of stream and priority
  traffic, the rotation of `max_consecutive`, and age-based promotion. Some promises hold
  only while nothing is pushed; those come with the exact condition and a run that breaks
  them.
*/
module OutboundQueueFairness {
  import opened Numbers
  import opened Wrappers
  import opened Wire
  import opened OutboundQueue
  import opened OutboundQueueOrder

  predicate OnlyPops(ops: seq<TimedOp>) {
    forall i :: 0 <= i < |ops| ==> ops[i].op.Pop?
  }

  predicate OnlyPushes(ops: seq<TimedOp>) {
    forall i :: 0 <= i < |ops| ==> ops[i].op.Push?
  }

  predicate NoDrain(ops: seq<TimedOp>) {
    forall i :: 0 <= i < |ops| ==> !ops[i].op.Drain?
  }

  predicate BothSources(q: Queue) {
    q.streamFifo != [] && q.HasPriority()
  }

  // ----- Interleaving of stream and priority traffic -----

  lemma {:induction false} PushesRaiseTotal(q: Queue, pushes: seq<TimedOp>)
    requires OnlyPushes(pushes)
    ensures Run(q, pushes).queue.total == q.total + |Run(q, pushes).accepted|
  {
    if pushes != [] { PushesRaiseTotal(q, pushes[..|pushes| - 1]); }
  }

  /**
    Two successive pops that both find both sources waiting take from different sources
    exactly when an even number of envelopes was accepted between them; with no push
    between them, always.
  */
  lemma AlternatesIffEvenPushes(q: Queue, first: Instant, pushes: seq<TimedOp>, second: Instant)
    requires q.Valid() && OnlyPushes(pushes) && BothSources(q)
    requires BothSources(Run(AfterPop(q, first).1, pushes).queue)
    ensures var between := Run(AfterPop(q, first).1, pushes);
            && between.queue.Valid()
            && AfterPop(q, first).0.Some? && AfterPop(between.queue, second).0.Some?
            && (IsStream(AfterPop(q, first).0.value) != IsStream(AfterPop(between.queue, second).0.value)
                <==> |between.accepted| % 2 == 0)
  {
    hide AfterPop, Queue.Valid, IsStream, BothSources, Run;
    PopSideByParity(q, first);
    var q1 := AfterPop(q, first).1;
    RunKeepsValid(q1, pushes);
    PushesRaiseTotal(q1, pushes);
    PopSideByParity(Run(q1, pushes).queue, second);
  }

  lemma PopSideByParity(q: Queue, now: Instant)
    requires q.Valid() && BothSources(q)
    ensures var (r, q') := AfterPop(q, now);
            r.Some? && (IsStream(r.value) <==> q.total % 2 == 0) && q'.Valid() && q'.total == q.total - 1
  {
    PopKeepsValid(q, now);
    PopSide(q, now);
  }

  /** A pop returns a stream item exactly when it takes from the FIFO. */
  lemma PopSide(q: Queue, now: Instant)
    requires q.Valid() && AfterPop(q, now).0.Some?
    ensures IsStream(AfterPop(q, now).0.value) <==> TakesStream(q)
  {
    if TakesStream(q) {
      assert IsStream(q.streamFifo[0]);
    } else if q.comparer.None? {
      var lane: LaneIndex :| q.lanes[lane] != [] && AfterPop(q, now).0.value == q.lanes[lane][0];
    }
  }

  function PopPushRounds(n: nat, e: WireEnvelope): seq<TimedOp> {
    if n == 0 then [] else PopPushRounds(n - 1, e) + [At(0, Pop)] + [At(0, Push(e))]
  }

  lemma RunTwoMore(q: Queue, ops: seq<TimedOp>, a: TimedOp, b: TimedOp)
    ensures Run(q, ops + [a] + [b]) == Step(Step(Run(q, ops), a), b)
  {
    assert (ops + [a] + [b])[..|ops| + 1] == ops + [a];
    assert (ops + [a])[..|ops|] == ops;
  }

  /**
    With one push per pop the parity of `total` never changes, so the source it favours is
    served every time and the other one waits for as long as that goes on.
  */
  lemma {:induction false} PushedSideStarvesOther(q: Queue, e: WireEnvelope, n: nat)
    requires q.Valid() && BothSources(q)
    requires IsStream(e) <==> q.total % 2 == 0
    ensures var t := Run(q, PopPushRounds(n, e));
            && t.queue.Valid() && BothSources(t.queue) && t.queue.total == q.total && |t.left| == n
            && (IsStream(e) ==> Select(PrioritySide, t.left) == []
                                && t.queue.lanes == q.lanes && t.queue.sorted == q.sorted)
            && (!IsStream(e) ==> Select(StreamSide, t.left) == [] && t.queue.streamFifo == q.streamFifo)
  {
    hide Select, AfterPop, Step, Queue.Valid, BothSources, IsStream;
    if n == 0 {
      SelectNothing(StreamSide);
      SelectNothing(PrioritySide);
    } else {
      PushedSideStarvesOther(q, e, n - 1);
      var t := Run(q, PopPushRounds(n - 1, e));
      RunTwoMore(q, PopPushRounds(n - 1, e), At(0, Pop), At(0, Push(e)));
      StarvingRound(t, e);
      CountsAfter(t.left, AfterPop(t.queue, 0).0.value);
      NothingIsShort(Select(StreamSide, t.left + [AfterPop(t.queue, 0).0.value]));
      NothingIsShort(Select(PrioritySide, t.left + [AfterPop(t.queue, 0).0.value]));
    }
  }

  lemma NothingIsShort<T>(s: seq<T>)
    ensures |s| == 0 <==> s == []
  {
  }

  lemma StarvingRound(t: Trace, e: WireEnvelope)
    requires t.queue.Valid() && BothSources(t.queue)
    requires IsStream(e) <==> t.queue.total % 2 == 0
    ensures var q, t' := t.queue, Step(Step(t, At(0, Pop)), At(0, Push(e)));
            && t'.queue.Valid() && BothSources(t'.queue) && t'.queue.total == q.total
            && AfterPop(q, 0).0.Some? && t'.left == t.left + [AfterPop(q, 0).0.value]
            && (IsStream(e) <==> IsStream(AfterPop(q, 0).0.value))
            && (IsStream(e) ==> t'.queue.lanes == q.lanes && t'.queue.sorted == q.sorted)
            && (!IsStream(e) ==> t'.queue.streamFifo == q.streamFifo)
  {
    hide Queue.Classified;
    PopKeepsValid(t.queue, 0);
    PopSide(t.queue, 0);
    var q1 := AfterPop(t.queue, 0).1;
    StarvingPop(t.queue);
    hide AfterPop;
    PushKeepsValid(q1, e, 0);
    PushRefills(q1, e);
  }

  /** A pop with both sources waiting takes from the side of the parity and leaves the other as it is. */
  lemma StarvingPop(q: Queue)
    requires q.Valid() && BothSources(q)
    ensures var q1 := AfterPop(q, 0).1;
            && !q1.Full() && q1.total == q.total - 1 && q1.comparer == q.comparer
            && (q.total % 2 == 0 ==> q1.lanes == q.lanes && q1.sorted == q.sorted)
            && (q.total % 2 != 0 ==> q1.streamFifo == q.streamFifo)
  {
    PopKeepsValid(q, 0);
    hide FirstNonEmptyFrom, BestIndex, Queue.Classified, AnyNonEmpty;
  }

  /** What is pushed then is waiting on its side, whatever the pop has left there. */
  lemma PushRefills(q: Queue, e: WireEnvelope)
    requires !q.Full()
    ensures var q' := AfterPush(q, e, 0);
            && q'.total == q.total + 1
            && (IsStream(e) ==> q'.streamFifo != [] && q'.lanes == q.lanes && q'.sorted == q.sorted)
            && (!IsStream(e) ==> q'.streamFifo == q.streamFifo && q'.HasPriority())
  {
    var q' := AfterPush(q, e, 0);
    if !IsStream(e) && q.comparer.None? { assert q'.lanes[LaneOf(e)] != []; }
  }

  // ----- The rotation among lanes -----

  /** The part of the queue that `pop_fair` reads. */
  datatype Rotation = Rotation(lanes: LaneQueues, current: LaneIndex, consecutive: nat)

  function View(q: Queue): Rotation {
    Rotation(q.lanes, q.currentLane, q.consecutiveFromLane)
  }

  function ServedLane(r: Rotation, max: nat): Option<LaneIndex> {
    FairChoice(r.lanes, r.current, r.consecutive, max).0
  }

  function AfterServing(r: Rotation, max: nat): Rotation
    requires ServedLane(r, max).Some?
  {
    var (lane, consecutive) := FairChoice(r.lanes, r.current, r.consecutive, max);
    Rotation(r.lanes[lane.value := r.lanes[lane.value][1..]], lane.value, consecutive + 1)
  }

  /** How many places after `from` the lane `to` comes in a rotation: 1 to 5. */
  function Ahead(from: LaneIndex, to: LaneIndex): (d: nat)
    ensures 1 <= d <= LANE_COUNT
  {
    if to > from then to - from else to + LANE_COUNT - from
  }

  /** The lane after which a rotation resumes: 4 when it restarts at lane 0. */
  function Origin(r: Rotation, max: nat): LaneIndex {
    if r.consecutive >= max then r.current else 4
  }

  predicate StaysOnLane(r: Rotation, max: nat) {
    r.consecutive < max && r.lanes[r.current] != []
  }

  lemma PlacesAhead(start: nat, origin: LaneIndex, i: nat, to: LaneIndex)
    requires start == origin + 1 || (start == 0 && origin == 4)
    requires i < LANE_COUNT
    ensures LaneAt(start, Ahead(origin, to) - 1) == to
    ensures Ahead(origin, LaneAt(start, i)) == i + 1
  {
  }

  lemma NearestFrom(lanes: LaneQueues, start: nat, origin: LaneIndex, other: LaneIndex)
    requires start == origin + 1 || (start == 0 && origin == 4)
    requires lanes[other] != []
    ensures var served := FirstNonEmptyFrom(lanes, start);
            served.Some? && lanes[served.value] != [] && Ahead(origin, served.value) <= Ahead(origin, other)
  {
    var d := Ahead(origin, other) - 1;
    PlacesAhead(start, origin, 0, other);
    assert lanes[LaneAt(start, d)] != [];
    var served := FirstNonEmptyFrom(lanes, start);
    var i :| 0 <= i < LANE_COUNT && served.value == LaneAt(start, i)
             && forall j :: 0 <= j < i ==> lanes[LaneAt(start, j)] == [];
    PlacesAhead(start, origin, i, other);
  }

  /** A rotation serves the nearest non-empty lane after its origin. */
  lemma ServesNearest(r: Rotation, max: nat, other: LaneIndex)
    requires r.lanes[other] != [] && !StaysOnLane(r, max)
    ensures var served := ServedLane(r, max);
            && served.Some? && r.lanes[served.value] != []
            && Ahead(Origin(r, max), served.value) <= Ahead(Origin(r, max), other)
            && AfterServing(r, max).consecutive == 1
  {
    NearestFrom(r.lanes, if r.consecutive >= max then r.current + 1 else 0, Origin(r, max), other);
  }

  function Waiting(lanes: LaneQueues, target: LaneIndex, lane: LaneIndex): nat {
    if lane != target && lanes[lane] != [] then 1 else 0
  }

  /** The other non-empty lanes. */
  function BusyOthers(lanes: LaneQueues, target: LaneIndex): nat {
    Waiting(lanes, target, 0) + Waiting(lanes, target, 1) + Waiting(lanes, target, 2)
    + Waiting(lanes, target, 3) + Waiting(lanes, target, 4)
  }

  function WaitingAhead(lanes: LaneQueues, origin: LaneIndex, target: LaneIndex, lane: LaneIndex): nat {
    if Ahead(origin, lane) < Ahead(origin, target) then Waiting(lanes, target, lane) else 0
  }

  /** The non-empty lanes a rotation passes on its way to the target. */
  function BusyAhead(lanes: LaneQueues, origin: LaneIndex, target: LaneIndex): nat {
    WaitingAhead(lanes, origin, target, 0) + WaitingAhead(lanes, origin, target, 1)
    + WaitingAhead(lanes, origin, target, 2) + WaitingAhead(lanes, origin, target, 3)
    + WaitingAhead(lanes, origin, target, 4)
  }

  /**
    The most priority pops that `m` other lanes can get before a waiting lane is served. A
    restart of the rotation takes a lane that runs dry before the end of its turn, so each
    of them costs one pop; with one pop a turn there are no restarts.
  */
  function WorstWait(m: nat, max: nat): nat
    requires max > 0
  {
    if m == 0 then 0
    else if max == 1 then m
    else if m == 1 then max
    else max * m - 1 + WorstWait(m - 1, max)
  }

  /** The pops left when the rotation moves on and has `ahead` of `m` other lanes on its way. */
  function MoveBound(ahead: nat, m: nat, max: nat): nat
    requires max > 0
  {
    if ahead == 0 || m == 0 then 0
    else if max == 1 || m == 1 then max * ahead
    else max * ahead - 1 + WorstWait(m - 1, max)
  }

  /** The pops left when one of the `m` lanes has had `used` pops of its turn. */
  function StayBound(used: nat, ahead: nat, m: nat, max: nat): nat
    requires used < max
  {
    if max == 1 || m <= 1 then max - used + max * ahead
    else max - used - 1 + max * ahead + WorstWait(m - 1, max)
  }

  /** A bound on the priority pops that other lanes get before the target is served. */
  function WaitBound(r: Rotation, target: LaneIndex, max: nat): nat
    requires max > 0
  {
    var m := BusyOthers(r.lanes, target);
    if !StaysOnLane(r, max) then MoveBound(BusyAhead(r.lanes, Origin(r, max), target), m, max)
    else if r.current == target then 0
    else StayBound(r.consecutive, BusyAhead(r.lanes, r.current, target), m, max)
  }

  // Arithmetic of the bounds.

  /** WorstWait as a formula: max * m * (m + 1) / 2, less one for every restart. */
  lemma {:induction false} WorstWaitFormula(m: nat, max: nat)
    requires max > 1 && m > 0
    ensures 2 * WorstWait(m, max) == max * (m * (m + 1)) - 2 * (m - 1)
  {
    if m > 1 {
      WorstWaitFormula(m - 1, max);
      TriangleStep(m, max);
    } else {
      assert m * (m + 1) == 2;
    }
  }

  lemma TriangleStep(m: nat, max: nat)
    requires m > 0
    ensures max * (m * (m + 1)) == max * ((m - 1) * m) + 2 * (max * m)
  {
    assert m * (m + 1) == (m - 1) * m + 2 * m;
    assert max * ((m - 1) * m + 2 * m) == max * ((m - 1) * m) + max * (2 * m);
  }

  lemma WorstWaitBounds(m: nat, max: nat)
    requires max > 0 && m <= 4
    ensures 2 * WorstWait(m, max) <= max * (m * (m + 1))
    ensures WorstWait(m, max) <= 10 * max
  {
    if m > 0 && max > 1 { WorstWaitFormula(m, max); }
    assert m == 0 || m == 1 || m == 2 || m == 3 || m == 4;
  }

  lemma TurnsAdd(max: nat, a: nat, b: nat)
    requires a <= b
    ensures max * a <= max * b
    ensures a < b ==> max * a + max <= max * b
  {
    ProductMonotone(a, b, max);
    if a < b { NextMultiple(a, b, max); }
  }

  lemma WorstWaitGrows(m: nat, max: nat)
    requires max > 0 && m > 0
    ensures WorstWait(m - 1, max) < WorstWait(m, max)
    ensures max > 1 ==> WorstWait(m - 1, max) + max <= WorstWait(m, max)
  {
    if m > 1 { TurnsAdd(max, 1, m); }
  }

  /** No state is worse than the start of a rotation with all the lanes on the way. */
  lemma MoveBoundIsWorst(a: nat, m: nat, max: nat)
    requires max > 0 && a <= m
    ensures MoveBound(a, m, max) <= WorstWait(m, max)
  {
    TurnsAdd(max, a, m);
  }

  lemma StayBoundIsWorst(used: nat, a: nat, m: nat, max: nat)
    requires used < max && a + 1 <= m
    ensures StayBound(used, a, m, max) <= WorstWait(m, max)
  {
    TurnsAdd(max, a, m);
  }

  /** A turn goes on, or ends by its limit, the lane keeping something or not. */
  lemma TurnGoesOn(used: nat, a: nat, a': nat, m: nat, max: nat)
    requires used < max && a' <= a < m
    ensures used + 1 < max ==> StayBound(used + 1, a', m, max) < StayBound(used, a, m, max)
    ensures used + 1 == max ==> MoveBound(a', m, max) < StayBound(used, a, m, max)
    ensures used + 1 == max ==> MoveBound(a', m - 1, max) < StayBound(used, a, m, max)
  {
    TurnsAdd(max, a', a);
    if m > 1 { WorstWaitGrows(m - 1, max); }
  }

  /** A lane runs dry early, and the rotation restarts without it. */
  lemma LaneRunsDry(used: nat, a: nat, a': nat, m: nat, max: nat)
    requires used + 1 < max && a < m && a' <= m - 1
    ensures MoveBound(a', m - 1, max) < StayBound(used, a, m, max)
  {
    MoveBoundIsWorst(a', m - 1, max);
    hide MoveBound, WorstWait;
    NoProductIsNegative(max, a);
    if m == 1 { NoWorstWait(max); }
  }

  lemma NoProductIsNegative(a: nat, b: nat)
    ensures a * b >= 0
  {
  }

  lemma NoWorstWait(max: nat)
    requires max > 0
    ensures WorstWait(0, max) == 0
  {
  }

  /** The rotation moves on to the next lane, which keeps its turn, runs dry, or has had its only pop. */
  lemma RotationMoves(a: nat, a': nat, rest: nat, m: nat, max: nat)
    requires max > 0 && a' < a <= m && rest <= m - 1
    ensures 1 < max ==> StayBound(1, a', m, max) < MoveBound(a, m, max)
    ensures 1 < max ==> MoveBound(rest, m - 1, max) < MoveBound(a, m, max)
    ensures max == 1 ==> MoveBound(a', m, max) < MoveBound(a, m, max)
    ensures max == 1 ==> MoveBound(a', m - 1, max) < MoveBound(a, m, max)
  {
    TurnsAdd(max, a', a);
    TurnsAdd(max, 1, a);
    MoveBoundIsWorst(rest, m - 1, max);
  }

  lemma ServingShrinksOthers(before: LaneQueues, after: LaneQueues, served: LaneIndex, target: LaneIndex)
    requires before[served] != [] && after == before[served := before[served][1..]] && served != target
    ensures BusyOthers(after, target) + (if after[served] == [] then 1 else 0) == BusyOthers(before, target) <= 4
  {
  }

  lemma ServingShrinksAhead(before: LaneQueues, after: LaneQueues, served: LaneIndex, target: LaneIndex,
                            origin: LaneIndex)
    requires before[served] != [] && after == before[served := before[served][1..]]
    ensures BusyAhead(after, origin, target) <= BusyAhead(before, origin, target)
  {
  }

  /** Moving on to the nearest waiting lane leaves one lane fewer on the way. */
  lemma PassingOne(lanes: LaneQueues, origin: LaneIndex, served: LaneIndex, target: LaneIndex)
    requires lanes[served] != [] && Ahead(origin, served) < Ahead(origin, target)
    ensures BusyAhead(lanes, served, target) + 1 <= BusyAhead(lanes, origin, target)
  {
    forall lane: LaneIndex | Ahead(served, lane) < Ahead(served, target)
      ensures Ahead(origin, lane) < Ahead(origin, target) && lane != served
    {
    }
  }

  lemma BusyAheadBound(lanes: LaneQueues, origin: LaneIndex, target: LaneIndex)
    ensures BusyAhead(lanes, origin, target) <= BusyOthers(lanes, target) <= 4
  {
  }

  lemma OriginIsNotAhead(lanes: LaneQueues, origin: LaneIndex, target: LaneIndex)
    requires lanes[origin] != [] && origin != target
    ensures BusyAhead(lanes, origin, target) + 1 <= BusyOthers(lanes, target)
  {
  }

  lemma ServedIsCurrent(r: Rotation, max: nat)
    requires ServedLane(r, max).Some?
    ensures var served, r' := ServedLane(r, max).value, AfterServing(r, max);
            && served == r'.current && r.lanes[served] != [] && r'.lanes == r.lanes[served := r.lanes[served][1..]]
            && (StaysOnLane(r, max) ==> served == r.current && r'.consecutive == r.consecutive + 1)
            && (!StaysOnLane(r, max) ==> r'.consecutive == 1)
  {
  }

  /** How the lanes stand after another lane has been served. */
  lemma LanesAfterServing(r: Rotation, target: LaneIndex, max: nat)
    requires ServedLane(r, max).Some? && ServedLane(r, max).value != target
    ensures var served, r' := ServedLane(r, max).value, AfterServing(r, max);
            var m, m' := BusyOthers(r.lanes, target), BusyOthers(r'.lanes, target);
            && r'.current == served
            && m == m' + (if r'.lanes[served] == [] then 1 else 0)
            && BusyAhead(r'.lanes, served, target) <= BusyAhead(r.lanes, served, target) <= m - 1
            && BusyAhead(r'.lanes, 4, target) <= m'
  {
    ServedIsCurrent(r, max);
    var served, r' := ServedLane(r, max).value, AfterServing(r, max);
    hide BusyOthers, BusyAhead, ServedLane, AfterServing;
    ServingShrinksOthers(r.lanes, r'.lanes, served, target);
    ServingShrinksAhead(r.lanes, r'.lanes, served, target, served);
    BusyAheadBound(r'.lanes, 4, target);
    OriginIsNotAhead(r.lanes, served, target);
  }

  lemma ServingInTurn(r: Rotation, target: LaneIndex, max: nat)
    requires max > 0 && StaysOnLane(r, max) && ServedLane(r, max).Some? && ServedLane(r, max).value != target
    ensures WaitBound(AfterServing(r, max), target, max) < WaitBound(r, target, max)
  {
    ServedIsCurrent(r, max);
    LanesAfterServing(r, target, max);
    hide BusyOthers, BusyAhead, ServedLane, AfterServing, StayBound, MoveBound, WorstWait;
    var served, r' := ServedLane(r, max).value, AfterServing(r, max);
    var m, ahead := BusyOthers(r.lanes, target), BusyAhead(r.lanes, served, target);
    var ahead' := BusyAhead(r'.lanes, served, target);
    if r.consecutive + 1 < max && r'.lanes[served] == [] {
      LaneRunsDry(r.consecutive, ahead, BusyAhead(r'.lanes, 4, target), m, max);
    } else {
      TurnGoesOn(r.consecutive, ahead, ahead', m, max);
    }
  }

  lemma ServingNext(r: Rotation, target: LaneIndex, max: nat)
    requires max > 0 && r.lanes[target] != []
    requires !StaysOnLane(r, max) && ServedLane(r, max).Some? && ServedLane(r, max).value != target
    ensures WaitBound(AfterServing(r, max), target, max) < WaitBound(r, target, max)
  {
    ServesNearest(r, max, target);
    ServedIsCurrent(r, max);
    LanesAfterServing(r, target, max);
    hide BusyOthers, BusyAhead, ServedLane, AfterServing, StayBound, MoveBound, WorstWait, Ahead, Origin;
    var served, r', origin := ServedLane(r, max).value, AfterServing(r, max), Origin(r, max);
    var m, ahead := BusyOthers(r.lanes, target), BusyAhead(r.lanes, origin, target);
    var ahead' := BusyAhead(r'.lanes, served, target);
    PassingOne(r.lanes, origin, served, target);
    BusyAheadBound(r.lanes, origin, target);
    RotationMoves(ahead, ahead', if r'.lanes[served] == [] then BusyAhead(r'.lanes, 4, target) else 0, m, max);
  }

  /** Every priority pop brings a waiting lane's turn closer. */
  lemma ServingReducesWait(r: Rotation, target: LaneIndex, max: nat)
    requires max > 0 && r.lanes[target] != [] && ServedLane(r, max).Some? && ServedLane(r, max).value != target
    ensures WaitBound(AfterServing(r, max), target, max) < WaitBound(r, target, max)
  {
    if StaysOnLane(r, max) { ServingInTurn(r, target, max); } else { ServingNext(r, target, max); }
  }

  /** With m other lanes waiting the bound is at most the worst wait. */
  lemma WaitBoundSize(r: Rotation, target: LaneIndex, max: nat)
    requires max > 0
    ensures WaitBound(r, target, max) <= WorstWait(BusyOthers(r.lanes, target), max)
    ensures BusyOthers(r.lanes, target) <= 4
  {
    var m := BusyOthers(r.lanes, target);
    hide FairChoice, BusyOthers, BusyAhead, StayBound, MoveBound, WorstWait;
    BusyAheadBound(r.lanes, r.current, target);
    BusyAheadBound(r.lanes, Origin(r, max), target);
    if !StaysOnLane(r, max) {
      MoveBoundIsWorst(BusyAhead(r.lanes, Origin(r, max), target), m, max);
    } else if r.current != target {
      OriginIsNotAhead(r.lanes, r.current, target);
      StayBoundIsWorst(r.consecutive, BusyAhead(r.lanes, r.current, target), m, max);
    }
  }

  // ----- Waiting in runs of pops -----

  predicate FairMode(q: Queue) {
    q.comparer.None? && q.maxConsecutive > 0
  }

  /** What one pop of a fair queue does to the rotation. */
  lemma FairPop(q: Queue, now: Instant)
    requires q.Valid() && FairMode(q) && AnyNonEmpty(q.lanes)
    ensures var (r, q') := AfterPop(q, now);
            && r.Some? && q'.Valid() && FairMode(q') && q'.maxConsecutive == q.maxConsecutive
            && q'.total == q.total - 1
            && (TakesStream(q) ==> From(StreamSide, r.value) && View(q') == View(q))
            && (!TakesStream(q) ==>
                  && ServedLane(View(q), q.maxConsecutive).Some?
                  && From(Lane(ServedLane(View(q), q.maxConsecutive).value), r.value)
                  && View(q') == AfterServing(View(q), q.maxConsecutive))
  {
    PopKeepsValid(q, now);
    PopPriorityKeepsValid(q, now);
    PopSide(q, now);
    if !TakesStream(q) {
      var (lane, _) := FairChoice(q.lanes, q.currentLane, q.consecutiveFromLane, q.maxConsecutive);
      hide FirstNonEmptyFrom;
      assert q.lanes[lane.value] != [];
      assert LaneOf(q.lanes[lane.value][0]) == lane.value;
    }
  }

  lemma {:induction false} SidesPartition(s: seq<WireEnvelope>)
    ensures |s| == |Select(StreamSide, s)| + |Select(PrioritySide, s)|
  {
    if s != [] { SidesPartition(s[1..]); }
  }

  /** Until lane `target` is served, each pop of another lane is paid for by the wait bound. */
  ghost predicate PaidFor(q: Queue, t: Trace, target: LaneIndex, pops: nat)
    requires FairMode(q)
  {
    var max := q.maxConsecutive;
    && t.queue.Valid() && FairMode(t.queue) && t.queue.maxConsecutive == max
    && t.queue.lanes[target] == q.lanes[target]
    && |t.left| == pops
    && |Select(PrioritySide, t.left)| + WaitBound(View(t.queue), target, max) <= WaitBound(View(q), target, max)
    && |Select(StreamSide, t.left)| <= |Select(PrioritySide, t.left)| + t.queue.total % 2
  }

  /** How the two counts change when `e` leaves. */
  lemma CountsAfter(left: seq<WireEnvelope>, e: WireEnvelope)
    ensures |Select(StreamSide, left + [e])| == |Select(StreamSide, left)| + if IsStream(e) then 1 else 0
    ensures |Select(PrioritySide, left + [e])| == |Select(PrioritySide, left)| + if IsStream(e) then 0 else 1
  {
    SelectConcat(StreamSide, left, [e]);
    SelectConcat(PrioritySide, left, [e]);
  }

  lemma StreamPopIsPaidFor(q: Queue, t: Trace, t': Trace, target: LaneIndex, pops: nat, e: WireEnvelope)
    requires FairMode(q) && PaidFor(q, t, target, pops) && t'.left == t.left + [e] && IsStream(e)
    requires t'.queue.Valid() && FairMode(t'.queue) && t'.queue.maxConsecutive == q.maxConsecutive
    requires t'.queue.total == t.queue.total - 1 && t.queue.total % 2 == 0
    requires View(t'.queue) == View(t.queue)
    ensures PaidFor(q, t', target, pops + 1)
  {
    hide Queue.Valid, WaitBound, Select;
    CountsAfter(t.left, e);
  }

  lemma PriorityPopIsPaidFor(q: Queue, t: Trace, t': Trace, target: LaneIndex, pops: nat, e: WireEnvelope)
    requires FairMode(q) && PaidFor(q, t, target, pops) && t'.left == t.left + [e] && !IsStream(e)
    requires q.lanes[target] != []
    requires t'.queue.Valid() && FairMode(t'.queue) && t'.queue.maxConsecutive == q.maxConsecutive
    requires ServedLane(View(t.queue), q.maxConsecutive).Some?
    requires ServedLane(View(t.queue), q.maxConsecutive).value != target
    requires View(t'.queue) == AfterServing(View(t.queue), q.maxConsecutive)
    ensures PaidFor(q, t', target, pops + 1)
  {
    CountsAfter(t.left, e);
    ServedIsCurrent(View(t.queue), q.maxConsecutive);
    ServingReducesWait(View(t.queue), target, q.maxConsecutive);
    hide Queue.Valid, WaitBound, Select, AfterServing, ServedLane;
  }

  lemma PopIsPaidFor(q: Queue, t: Trace, target: LaneIndex, pops: nat, now: Instant)
    requires q.Valid() && FairMode(q) && q.lanes[target] != [] && PaidFor(q, t, target, pops)
    requires Select(Lane(target), Step(t, At(now, Pop)).left) == []
    ensures PaidFor(q, Step(t, At(now, Pop)), target, pops + 1)
  {
    FairPop(t.queue, now);
    var (r, q') := AfterPop(t.queue, now);
    hide AfterPop, Queue.Valid, WaitBound, PaidFor, AfterServing, ServedLane;
    var t' := Step(t, At(now, Pop));
    if TakesStream(t.queue) {
      StreamPopIsPaidFor(q, t, t', target, pops, r.value);
    } else {
      SelectConcat(Lane(target), t.left, [r.value]);
      PriorityPopIsPaidFor(q, t, t', target, pops, r.value);
    }
  }

  lemma {:induction false} FairWait(q: Queue, ops: seq<TimedOp>, target: LaneIndex)
    requires q.Valid() && FairMode(q) && q.lanes[target] != [] && OnlyPops(ops)
    requires Select(Lane(target), Run(q, ops).left) == []
    ensures PaidFor(q, Run(q, ops), target, |ops|)
  {
    if ops != [] {
      var prior, last := ops[..|ops| - 1], ops[|ops| - 1];
      var t := Run(q, prior);
      assert Select(Lane(target), t.left) == [] by {
        LeftGrows(t, last);
        EarlierSelection(t.left, Step(t, last).left, target);
      }
      FairWait(q, prior, target);
      assert last == At(last.now, Pop);
      PopIsPaidFor(q, t, target, |prior|, last.now);
    }
  }

  lemma LeftGrows(t: Trace, at: TimedOp)
    ensures t.left <= Step(t, at).left
  {
  }

  lemma EarlierSelection(shorter: seq<WireEnvelope>, longer: seq<WireEnvelope>, target: LaneIndex)
    requires shorter <= longer && Select(Lane(target), longer) == []
    ensures Select(Lane(target), shorter) == []
  {
    SelectConcat(Lane(target), shorter, longer[|shorter|..]);
    assert longer == shorter + longer[|shorter|..];
  }

  /**
    Without pushes a waiting lane is served soon: while it is not, the m other lanes that are
    waiting get at most the worst wait of m lanes, which is less than max * m * (m + 1) / 2
    unless m is 1, hence at most 10 * max; and twice as many pops plus one pass in all.
  */
  lemma FairStarvationBound(q: Queue, ops: seq<TimedOp>, target: LaneIndex)
    requires q.Valid() && FairMode(q) && q.lanes[target] != [] && OnlyPops(ops)
    requires Select(Lane(target), Run(q, ops).left) == []
    ensures var others := |Select(PrioritySide, Run(q, ops).left)|;
            var m := BusyOthers(q.lanes, target);
            && others <= WorstWait(m, q.maxConsecutive)
            && 2 * others <= q.maxConsecutive * (m * (m + 1))
            && others <= 10 * q.maxConsecutive
            && |ops| <= 20 * q.maxConsecutive + 1
  {
    hide WaitBound, WorstWait, BusyOthers, Select, Run, Queue.Valid;
    FairWait(q, ops, target);
    WaitBoundSize(View(q), target, q.maxConsecutive);
    WorstWaitBounds(BusyOthers(q.lanes, target), q.maxConsecutive);
    SidesPartition(Run(q, ops).left);
  }

  // ----- Waiting in runs with pushes -----

  /** The lane a pop at this point would take from, if it takes a priority item. */
  function NextLane(q: Queue): Option<LaneIndex> {
    if q.total > 0 && !TakesStream(q) then ServedLane(View(q), q.maxConsecutive) else None
  }

  ghost predicate OtherBusy(lanes: LaneQueues, lane: LaneIndex) {
    exists other: LaneIndex :: other != lane && lanes[other] != []
  }

  /**
    How many of the latest successive priority pops `lane` supplied, each while another
    lane had something waiting.
  */
  ghost function Streak(q: Queue, ops: seq<TimedOp>, lane: LaneIndex): nat {
    if ops == [] then 0
    else
      var prior, last := ops[..|ops| - 1], ops[|ops| - 1];
      var at := Run(q, prior).queue;
      match last.op
      case Push(_) => Streak(q, prior, lane)
      case Drain => 0
      case Pop =>
        if NextLane(at).None? then Streak(q, prior, lane)
        else if NextLane(at).value == lane && OtherBusy(at.lanes, lane) then Streak(q, prior, lane) + 1
        else 0
  }

  lemma FullTurnPassesOn(r: Rotation, max: nat, lane: LaneIndex)
    requires max > 0 && r.consecutive >= max && r.current == lane && OtherBusy(r.lanes, lane)
    ensures ServedLane(r, max).Some? && ServedLane(r, max).value != lane
  {
    var other: LaneIndex :| other != lane && r.lanes[other] != [];
    ServesNearest(r, max, other);
  }

  /**
    Whatever is pushed meanwhile, no lane supplies more than `max_consecutive` successive
    priority pops while another lane has something waiting.
  */
  lemma {:induction false} NoLaneExceedsItsTurn(q: Queue, ops: seq<TimedOp>, lane: LaneIndex)
    requires q.Valid() && FairMode(q)
    ensures Streak(q, ops, lane) <= q.maxConsecutive
    ensures Streak(q, ops, lane) > 0 ==>
              Run(q, ops).queue.currentLane == lane && Streak(q, ops, lane) <= Run(q, ops).queue.consecutiveFromLane
  {
    if ops != [] {
      var prior, last := ops[..|ops| - 1], ops[|ops| - 1];
      var at := Run(q, prior).queue;
      NoLaneExceedsItsTurn(q, prior, lane);
      RunKeepsValid(q, prior);
      RunKeepsValid(q, ops);
      if last.op.Pop? && at.total > 0 {
        if AnyNonEmpty(at.lanes) {
          FairPop(at, last.now);
          if !TakesStream(at) {
            ServedIsCurrent(View(at), q.maxConsecutive);
            if at.consecutiveFromLane >= q.maxConsecutive && at.currentLane == lane && OtherBusy(at.lanes, lane) {
              FullTurnPassesOn(View(at), q.maxConsecutive, lane);
            }
          }
        }
      }
    }
  }

  // ----- When pushes can starve a lane -----

  /**
    In every run from an empty queue, a lane with something waiting is served before other
    lanes get more than `bound` further priority pops, whatever is pushed meanwhile.
  */
  ghost predicate ServesWithin(max: nat, bound: nat) {
    forall capacity: nat, ops, more, target: LaneIndex ::
      StarvedFor(Run(EmptyQueue(capacity, max, None), ops).queue, more, target)
      ==> |Select(PrioritySide, Run(Run(EmptyQueue(capacity, max, None), ops).queue, more).left)| <= bound
  }

  /** `target` has something waiting and `more` never serves it. */
  ghost predicate StarvedFor(q: Queue, more: seq<TimedOp>, target: LaneIndex) {
    q.lanes[target] != [] && NoDrain(more) && Select(Lane(target), Run(q, more).left) == []
  }

  /** With `max_consecutive` = 1: the pops that other lanes may still get. */
  function PassesLeft(r: Rotation, target: LaneIndex): nat {
    if r.consecutive == 0 then 4 else Ahead(r.current, target) - 1
  }

  lemma OnePopEach(r: Rotation, target: LaneIndex)
    requires r.lanes[target] != []
    ensures var served := ServedLane(r, 1);
            served.Some? && (served.value != target ==> PassesLeft(AfterServing(r, 1), target) < PassesLeft(r, target))
  {
    if !StaysOnLane(r, 1) { ServesNearest(r, 1, target); }
    ServedIsCurrent(r, 1);
  }

  /** The one-pop-each rotation so far: each pop of another lane used up a pass. */
  ghost predicate Passing(q: Queue, t: Trace, target: LaneIndex) {
    && t.queue.Valid() && FairMode(t.queue) && t.queue.maxConsecutive == 1
    && q.lanes[target] <= t.queue.lanes[target]
    && |Select(PrioritySide, t.left)| + PassesLeft(View(t.queue), target) <= PassesLeft(View(q), target)
  }

  lemma PopPasses(q: Queue, t: Trace, target: LaneIndex, now: Instant)
    requires q.lanes[target] != [] && Passing(q, t, target)
    requires Select(Lane(target), Step(t, At(now, Pop)).left) == []
    ensures Passing(q, Step(t, At(now, Pop)), target)
  {
    FairPop(t.queue, now);
    OnePopEach(View(t.queue), target);
    ServedIsCurrent(View(t.queue), 1);
    var (r, q') := AfterPop(t.queue, now);
    hide AfterPop, Queue.Valid, AfterServing, ServedLane, PassesLeft;
    CountsAfter(t.left, r.value);
    SelectConcat(Lane(target), t.left, [r.value]);
  }

  lemma {:induction false} OnePopEachServes(q: Queue, more: seq<TimedOp>, target: LaneIndex)
    requires q.Valid() && FairMode(q) && q.maxConsecutive == 1 && StarvedFor(q, more, target)
    ensures Passing(q, Run(q, more), target)
  {
    if more != [] {
      var prior, last := more[..|more| - 1], more[|more| - 1];
      var t := Run(q, prior);
      LeftGrows(t, last);
      EarlierSelection(t.left, Run(q, more).left, target);
      OnePopEachServes(q, prior, target);
      RunKeepsValid(q, more);
      if last.op.Pop? {
        assert last == At(last.now, Pop);
        PopPasses(q, t, target, last.now);
      }
    }
  }

  /** An envelope whose priority header puts it in `lane`. */
  function SampleFor(lane: LaneIndex): (e: WireEnvelope)
    ensures !IsStream(e) && LaneOf(e) == lane
  {
    WireEnvelope("", Tell, map[PRIORITY_HEADER_NAME := [if lane == 4 then 255 else 64 * lane]], [])
  }

  function RefillRounds(n: nat): seq<TimedOp> {
    if n == 0 then [] else RefillRounds(n - 1) + [At(0, Pop)] + [At(0, Push(SampleFor(n % 2)))]
  }

  const RefillSetup: seq<TimedOp> := [At(0, Push(SampleFor(4)))] + [At(0, Push(SampleFor(0)))]

  /** Lane 0 or 1 has one envelope and is next; lane 4 waits. */
  ghost predicate Refilled(q: Queue, max: nat, next: LaneIndex) {
    && next < 2 && q.Valid() && q.comparer.None? && q.maxConsecutive == max && q.capacity == 0
    && q.streamFifo == [] && q.total == 2
    && (forall k: LaneIndex :: q.lanes[k] == if k == next || k == 4 then [SampleFor(k)] else [])
    && q.currentLane == (if q.consecutiveFromLane == 0 then next else 1 - next) && q.consecutiveFromLane <= 1
  }

  lemma RefillPushes(q: Queue, max: nat, next: LaneIndex)
    requires max >= 2 && next < 2 && q.Valid() && q.total == 1 && q.currentLane == next && q.consecutiveFromLane == 1
    requires q.streamFifo == [] && q.comparer.None? && q.capacity == 0 && q.maxConsecutive == max
    requires forall k: LaneIndex :: q.lanes[k] == if k == 4 then [SampleFor(k)] else []
    ensures Refilled(AfterPush(q, SampleFor(1 - next), 0), max, 1 - next)
  {
    PushKeepsValid(q, SampleFor(1 - next), 0);
    assert !IsStream(SampleFor(1 - next)) && LaneOf(SampleFor(1 - next)) == 1 - next;
    hide Queue.Valid, SampleFor, IsStream, LaneOf;
  }

  lemma RefillRound(t: Trace, max: nat, next: LaneIndex)
    requires max >= 2 && Refilled(t.queue, max, next)
    ensures var t' := Step(Step(t, At(0, Pop)), At(0, Push(SampleFor(1 - next))));
            Refilled(t'.queue, max, 1 - next) && t'.left == t.left + [SampleFor(next)]
  {
    var q := t.queue;
    RefilledServes(q, max, next);
    RefillPops(q, max, next);
    var q1 := AfterPop(q, 0).1;
    assert q1.Valid() by { PopKeepsValid(q, 0); }
    hide AfterPop, AfterPush, Queue.Valid, SampleFor, ServedLane;
    RefillPushes(q1, max, next);
  }

  lemma RefillPops(q: Queue, max: nat, next: LaneIndex)
    requires max >= 2 && Refilled(q, max, next) && ServedLane(View(q), max) == Some(next)
    ensures var (r, q1) := AfterPop(q, 0);
            && r == Some(SampleFor(next)) && q1.total == 1 && q1.currentLane == next && q1.consecutiveFromLane == 1
            && q1.streamFifo == [] && q1.comparer.None? && q1.capacity == 0 && q1.maxConsecutive == max
            && q1.lanes == q.lanes[next := []]
  {
    assert q.lanes[next] == [SampleFor(next)];
    hide FirstNonEmptyFrom, SampleFor;
    assert [q.lanes[next][0]][1..] == [];
  }

  lemma RefilledServes(q: Queue, max: nat, next: LaneIndex)
    requires max >= 2 && Refilled(q, max, next)
    ensures ServedLane(View(q), max) == Some(next)
  {
    assert LaneAt(0, 0) == 0 && LaneAt(0, 1) == 1;
    assert q.lanes[next] == [SampleFor(next)] && q.lanes[1 - next] == [];
    assert FirstNonEmptyFrom(q.lanes, 0, 1) == if next == 1 then Some(1) else FirstNonEmptyFrom(q.lanes, 0, 1);
  }

  /** After `n` rounds lane 4 still waits, and `n` pops went to lanes 0 and 1. */
  ghost predicate RefilledFor(t: Trace, max: nat, n: nat) {
    Refilled(t.queue, max, n % 2) && Select(Lane(4), t.left) == [] && |Select(PrioritySide, t.left)| == n
  }

  lemma RefillStep(t: Trace, max: nat, n: nat)
    requires max >= 2 && n > 0 && RefilledFor(t, max, n - 1)
    ensures RefilledFor(Step(Step(t, At(0, Pop)), At(0, Push(SampleFor(n % 2)))), max, n)
  {
    hide Refilled, Select, AfterPop, AfterPush;
    var next: LaneIndex := (n - 1) % 2;
    assert n % 2 == 1 - next;
    RefillRound(t, max, next);
    CountsAfter(t.left, SampleFor(next));
    SelectConcat(Lane(4), t.left, [SampleFor(next)]);
    SelectNone(Lane(4), [SampleFor(next)]);
  }

  lemma {:induction false} RefillNeverDrains(n: nat)
    ensures NoDrain(RefillRounds(n))
  {
    if n > 0 { RefillNeverDrains(n - 1); }
  }

  lemma {:induction false} RefillStarves(q: Queue, max: nat, n: nat)
    requires max >= 2 && Refilled(q, max, 0)
    ensures RefilledFor(Run(q, RefillRounds(n)), max, n)
  {
    if n == 0 {
      assert Run(q, RefillRounds(0)) == Trace(q, [], []);
    } else {
      RefillStarves(q, max, n - 1);
      hide *;
      assert RefillRounds(n) == RefillRounds(n - 1) + [At(0, Pop)] + [At(0, Push(SampleFor(n % 2)))] by {
        RefillUnfold(n);
      }
      RunTwoMore(q, RefillRounds(n - 1), At(0, Pop), At(0, Push(SampleFor(n % 2))));
      RefillStep(Run(q, RefillRounds(n - 1)), max, n);
    }
  }

  lemma RefillUnfold(n: nat)
    requires n > 0
    ensures RefillRounds(n) == RefillRounds(n - 1) + [At(0, Pop)] + [At(0, Push(SampleFor(n % 2)))]
  {
  }

  lemma RefillStart(max: nat)
    ensures Refilled(Run(EmptyQueue(0, max, None), RefillSetup).queue, max, 0)
  {
    var q0 := EmptyQueue(0, max, None);
    RunKeepsValid(q0, RefillSetup);
    assert RefillSetup[..1] == [At(0, Push(SampleFor(4)))];
    assert RefillSetup[..1][..0] == [];
    assert Run(q0, RefillSetup[..1]) == Step(Run(q0, []), At(0, Push(SampleFor(4))));
    assert Run(q0, RefillSetup) == Step(Run(q0, RefillSetup[..1]), At(0, Push(SampleFor(0))));
  }

  /**
    The rotation protects every lane against traffic that keeps arriving exactly when
    `max_consecutive` is 1: each waiting lane is then served after at most four other
    priority pops. With a larger limit, two lanes that take turns running dry restart the
    rotation each time, and a later lane waits for as long as they are refilled.
  */
  lemma StarvationFreeIffOnePopEach(max: nat)
    requires max > 0
    ensures (exists bound: nat :: ServesWithin(max, bound)) <==> max == 1
    ensures max == 1 ==> ServesWithin(max, 4)
  {
    if max == 1 {
      forall capacity: nat, ops, more, target: LaneIndex
        | StarvedFor(Run(EmptyQueue(capacity, max, None), ops).queue, more, target)
        ensures |Select(PrioritySide, Run(Run(EmptyQueue(capacity, max, None), ops).queue, more).left)| <= 4
      {
        RunKeepsValid(EmptyQueue(capacity, max, None), ops);
        OnePopEachServes(Run(EmptyQueue(capacity, max, None), ops).queue, more, target);
      }
      assert ServesWithin(max, 4);
    } else {
      forall bound: nat ensures !ServesWithin(max, bound) {
        RefillStart(max);
        var q := Run(EmptyQueue(0, max, None), RefillSetup).queue;
        RefillStarves(q, max, bound + 1);
        RefillNeverDrains(bound + 1);
        assert StarvedFor(q, RefillRounds(bound + 1), 4);
      }
    }
  }
}
