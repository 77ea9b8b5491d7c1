/**
  Where an envelope is put and which envelope leaves, told from send modes, headers,
  priorities and instants alone: what classification, parity and the shipped comparers come
  to for the queue's users.
*/
module OutboundQueueChoice {
  import opened Sequences
  import opened Wrappers
  import opened Wire
  import opened OutboundQueue
  import opened OutboundQueueOrder

  // ----- What a push does -----

  /** The priority an envelope asks for: the first byte of its header, or 128. */
  function Asked(e: WireEnvelope): Byte {
    var name := "dactor.Priority";
    if name !in e.headers then 128
    else
      var bytes := e.headers[name];
      if |bytes| > 0 then bytes[0] else 128
  }

  /**
    An envelope is refused exactly when as many are queued as a positive capacity allows.
    Otherwise it goes to the back of one container: the stream FIFO for `Expand` and
    `Reduce`; the vector of a comparer, with its priority and the instant; or lane 4 for
    priority 255, and the lane of its band of 64 priorities for any other.
  */
  lemma PushPutsEnvelope(q: Queue, e: WireEnvelope, now: Instant)
    requires q.Valid()
    ensures var q' := AfterPush(q, e, now);
            var queued := |q.streamFifo| + |q.sorted| + LaneTotal(q.lanes);
            if q.capacity > 0 && queued == q.capacity then q' == q
            else if e.sendMode == Expand || e.sendMode == Reduce then
              q'.streamFifo == q.streamFifo + [e] && q'.lanes == q.lanes && q'.sorted == q.sorted
            else if q.comparer.Some? then
              && q'.sorted == q.sorted + [QueuedEnvelope(e, EnvelopeMetadata(Asked(e), now))]
              && q'.streamFifo == q.streamFifo && q'.lanes == q.lanes
            else
              var lane := if Asked(e) == 255 then 4 else Asked(e) / 64;
              && q'.lanes == q.lanes[lane := q.lanes[lane] + [e]]
              && q'.streamFifo == q.streamFifo && q'.sorted == q.sorted
  {
    LanesAreBands(Asked(e), 0);
    hide Queue.Classified, LaneTotal, LaneIndexFromPriority;
  }

  /** Over any run: a push is accepted exactly while fewer envelopes are out than a positive capacity allows. */
  lemma PushIsAcceptedIff(capacity: nat, max: nat, cmp: Option<Comparer>, ops: seq<TimedOp>, e: WireEnvelope,
                          now: Instant)
    ensures var t := Run(EmptyQueue(capacity, max, cmp), ops);
            Step(t, At(now, Push(e))).accepted
            == if capacity == 0 || |t.accepted| - |t.left| < capacity then t.accepted + [e] else t.accepted
  {
    hide *;
    var q0 := EmptyQueue(capacity, max, cmp);
    EmptyQueueIs(capacity, max, cmp, StreamSide);
    EmptyCapacity(capacity, max, cmp);
    NothingLostOrDuplicated(capacity, max, cmp, ops);
    RunKeepsValid(q0, ops);
    FullIff(Run(q0, ops), e, now);
  }

  lemma EmptyCapacity(capacity: nat, max: nat, cmp: Option<Comparer>)
    ensures EmptyQueue(capacity, max, cmp).capacity == capacity
  {
  }

  lemma FullIff(t: Trace, e: WireEnvelope, now: Instant)
    requires t.queue.total == |t.accepted| - |t.left|
    ensures Step(t, At(now, Push(e))).accepted
         == if t.queue.capacity == 0 || |t.accepted| - |t.left| < t.queue.capacity then t.accepted + [e] else t.accepted
  {
    hide AfterPush;
  }

  /** A cleared queue is a new one, but for the lane the rotation stands at. */
  lemma ClearedIsNew(q: Queue)
    ensures AfterClear(q) == EmptyQueue(q.capacity, q.maxConsecutive, q.comparer).(currentLane := q.currentLane)
  {
  }

  // ----- Which side is served -----

  /**
    With items on both sides the stream is served exactly when their number is even; with
    items on one side, that side is. The stream yields its oldest item.
  */
  lemma ParityDecides(q: Queue, now: Instant)
    requires q.Valid()
    ensures var priority := |q.sorted| + LaneTotal(q.lanes);
            var served := q.streamFifo != [] && (priority == 0 || (|q.streamFifo| + priority) % 2 == 0);
            var (r, q') := AfterPop(q, now);
            && (served ==> r == Some(q.streamFifo[0]) && q'.streamFifo == q.streamFifo[1..])
            && (served ==> q'.sorted == q.sorted && q'.lanes == q.lanes)
            && (!served ==> q'.streamFifo == q.streamFifo)
            && (!served && priority > 0 ==> r.Some? && r.value.sendMode !in {Expand, Reduce})
            && (!served && priority == 0 ==> r == None && q' == q)
  {
    var priority := |q.sorted| + LaneTotal(q.lanes);
    PriorityCount(q);
    if q.total > 0 && !TakesStream(q) {
      PopPriorityKeepsValid(q, now);
      hide Queue.Valid, LaneTotal;
      ServedFromLanes(q, now);
    } else {
      hide Queue.Valid, AfterPopPriority, LaneTotal;
    }
  }

  lemma PriorityCount(q: Queue)
    requires q.Valid()
    ensures q.HasPriority() <==> |q.sorted| + LaneTotal(q.lanes) > 0
  {
    if q.comparer.None? && LaneTotal(q.lanes) > 0 {
      assert |q.lanes[0]| > 0 || |q.lanes[1]| > 0 || |q.lanes[2]| > 0 || |q.lanes[3]| > 0 || |q.lanes[4]| > 0;
    }
  }

  lemma ServedFromLanes(q: Queue, now: Instant)
    requires q.Valid() && q.HasPriority()
    ensures var (r, q') := AfterPopPriority(q, now);
            r.Some? && !IsStream(r.value) && q'.streamFifo == q.streamFifo
  {
    PopPriorityKeepsValid(q, now);
    if q.comparer.None? {
      assert forall k: LaneIndex :: q.lanes[k] != [] ==> !IsStream(q.lanes[k][0]);
      hide Queue.Valid, LaneOf, IsStream, LaneAt;
      if q.maxConsecutive == 0 { StrictFromLanes(q); } else { FairFromLanes(q); }
    } else {
      hide BestIndex, LaneOf, IsStream;
    }
  }

  lemma StrictFromLanes(q: Queue)
    requires forall k: LaneIndex :: q.lanes[k] != [] ==> !IsStream(q.lanes[k][0])
    ensures var (r, q') := AfterPopStrict(q);
            q'.streamFifo == q.streamFifo && (r.Some? ==> !IsStream(r.value))
  {
    hide FirstNonEmptyFrom, IsStream;
  }

  lemma FairFromLanes(q: Queue)
    requires forall k: LaneIndex :: q.lanes[k] != [] ==> !IsStream(q.lanes[k][0])
    ensures var (r, q') := AfterPopFair(q);
            q'.streamFifo == q.streamFifo && (r.Some? ==> !IsStream(r.value))
  {
    hide FirstNonEmptyFrom, IsStream;
  }

  // ----- What a comparer chooses -----

  /** The entry has waited for `maxAge`. */
  predicate HasWaited(m: EnvelopeMetadata, maxAge: nat, now: Instant) {
    maxAge == 0 || m.enqueuedAt + maxAge <= now
  }

  /** Entry i has the least priority value, and is the first that has. */
  ghost predicate IsFirstOfMostUrgent(s: seq<QueuedEnvelope>, i: nat) {
    && i < |s|
    && (forall j :: 0 <= j < |s| ==> s[i].metadata.priority <= s[j].metadata.priority)
    && (forall j :: 0 <= j < i ==> s[i].metadata.priority < s[j].metadata.priority)
  }

  /** Entry i has waited for `maxAge`, and is the first of those that have waited longest. */
  ghost predicate IsFirstOfOldest(s: seq<QueuedEnvelope>, maxAge: nat, now: Instant, i: nat) {
    && i < |s| && HasWaited(s[i].metadata, maxAge, now)
    && (forall j :: 0 <= j < |s| && HasWaited(s[j].metadata, maxAge, now) ==>
                      s[i].metadata.enqueuedAt <= s[j].metadata.enqueuedAt)
    && (forall j :: 0 <= j < i && HasWaited(s[j].metadata, maxAge, now) ==>
                      s[i].metadata.enqueuedAt < s[j].metadata.enqueuedAt)
  }

  /** A pop of a queue with a comparer that takes entry i, and nothing else. */
  ghost predicate Takes(q: Queue, now: Instant, i: nat) {
    && i < |q.sorted|
    && AfterPop(q, now).0 == Some(q.sorted[i].envelope)
    && AfterPop(q, now).1.sorted == q.sorted[..i] + q.sorted[i + 1..]
    && AfterPop(q, now).1.streamFifo == q.streamFifo
  }

  /** The pop's turn is that of the priority side, and there is an entry. */
  ghost predicate ComparerTurn(q: Queue) {
    q.Valid() && q.sorted != [] && (q.streamFifo == [] || (|q.streamFifo| + |q.sorted|) % 2 == 1)
  }

  lemma TakesBest(q: Queue, now: Instant)
    requires ComparerTurn(q)
    ensures q.comparer.Some? && Takes(q, now, BestIndex(q.sorted, q.comparer.value, now, |q.sorted|))
  {
    hide BestIndex, Queue.Classified;
    assert LaneTotal(q.lanes) == 0;
  }

  /** The strict comparer: the most urgent entry leaves, and of several the one that was pushed first. */
  lemma StrictPopTakesMostUrgent(q: Queue, now: Instant) returns (i: nat)
    requires ComparerTurn(q) && q.comparer == Some(StrictPriorityWireComparer)
    ensures IsFirstOfMostUrgent(q.sorted, i) && Takes(q, now, i)
  {
    i := BestIndex(q.sorted, q.comparer.value, now, |q.sorted|);
    TakesBest(q, now);
    StrictBest(q.sorted, now);
    hide BestIndex, Takes, ComparerTurn;
  }

  /**
    The aging comparer: if some entry has waited for the maximal age, the one that has waited
    longest leaves; otherwise the most urgent one does. Of several it is the first.
  */
  lemma AgingPopTakes(q: Queue, maxAge: nat, now: Instant) returns (i: nat)
    requires ComparerTurn(q) && q.comparer == Some(AgingWireComparer(maxAge))
    ensures Takes(q, now, i)
    ensures if exists j :: 0 <= j < |q.sorted| && HasWaited(q.sorted[j].metadata, maxAge, now)
            then IsFirstOfOldest(q.sorted, maxAge, now, i)
            else IsFirstOfMostUrgent(q.sorted, i)
  {
    i := BestIndex(q.sorted, q.comparer.value, now, |q.sorted|);
    TakesBest(q, now);
    AgingIsTotalPreorder(maxAge, now);
    BestIsFirstMinimum(q.sorted, AgingWireComparer(maxAge), now, |q.sorted|);
    hide BestIndex, Takes, ComparerTurn;
    AgingMinimum(q.sorted, maxAge, now, i);
  }

  lemma AgingMinimum(s: seq<QueuedEnvelope>, maxAge: nat, now: Instant, i: nat)
    requires FirstMinimum(s, AgingWireComparer(maxAge), now, |s|, i)
    ensures if exists j :: 0 <= j < |s| && HasWaited(s[j].metadata, maxAge, now)
            then IsFirstOfOldest(s, maxAge, now, i)
            else IsFirstOfMostUrgent(s, i)
  {
    assert forall j :: 0 <= j < |s| ==> AgingCompare(maxAge, s[j].metadata, s[i].metadata, now) != Less;
    assert forall j :: 0 <= j < i ==> AgingCompare(maxAge, s[i].metadata, s[j].metadata, now) == Less;
  }

  lemma ComparerTurnHasEntry(q: Queue)
    requires ComparerTurn(q)
    ensures q.sorted != []
  {
  }

  lemma AgedHead(s: seq<QueuedEnvelope>, maxAge: nat, now: Instant, i: nat)
    requires TimeSorted(s) && s != []
    requires if exists j :: 0 <= j < |s| && HasWaited(s[j].metadata, maxAge, now)
             then IsFirstOfOldest(s, maxAge, now, i)
             else IsFirstOfMostUrgent(s, i)
    ensures HasWaited(s[0].metadata, maxAge, now) ==> i == 0
    ensures !HasWaited(s[0].metadata, maxAge, now) ==> IsFirstOfMostUrgent(s, i)
  {
    assert forall j :: 0 <= j < |s| ==> s[0].metadata.enqueuedAt <= s[j].metadata.enqueuedAt;
  }

  /**
    In the vector that any run with a monotone clock leaves, the head has waited longest. So
    an aged head leaves, and as long as the head is not aged the most urgent entry does.
  */
  lemma AgingPopInRun(capacity: nat, max: nat, maxAge: nat, ops: seq<TimedOp>, now: Instant) returns (i: nat)
    requires MonotoneClock(ops) && LastInstant(ops) <= now
    requires ComparerTurn(Run(EmptyQueue(capacity, max, Some(AgingWireComparer(maxAge))), ops).queue)
    ensures var q := Run(EmptyQueue(capacity, max, Some(AgingWireComparer(maxAge))), ops).queue;
            && Takes(q, now, i)
            && (HasWaited(q.sorted[0].metadata, maxAge, now) ==> i == 0)
            && (!HasWaited(q.sorted[0].metadata, maxAge, now) ==> IsFirstOfMostUrgent(q.sorted, i))
  {
    var q0 := EmptyQueue(capacity, max, Some(AgingWireComparer(maxAge)));
    var q := Run(q0, ops).queue;
    EmptyQueueIs(capacity, max, Some(AgingWireComparer(maxAge)), StreamSide);
    hide *;
    RunKeepsValid(q0, ops);
    RunEnqueuesInOrder(q0, ops);
    EnqueuedIsSorted(q, LastInstant(ops));
    ComparerTurnHasEntry(q);
    i := AgingPopTakes(q, maxAge, now);
    AgedHead(q.sorted, maxAge, now, i);
  }

  lemma TwoEntries(first: WireEnvelope, second: WireEnvelope)
    requires first.sendMode == Tell == second.sendMode
    ensures var cmp := Some(AgingWireComparer(100));
            var q := AfterPush(AfterPush(EmptyQueue(0, 0, cmp), first, 1), second, 2);
            var a := QueuedEnvelope(first, EnvelopeMetadata(Asked(first), 1));
            var b := QueuedEnvelope(second, EnvelopeMetadata(Asked(second), 2));
            q.Valid() && q.comparer == cmp && q.streamFifo == [] && q.sorted == [a, b]
  {
    var q0 := EmptyQueue(0, 0, Some(AgingWireComparer(100)));
    var q1 := AfterPush(q0, first, 1);
    PushKeepsValid(q0, first, 1);
    PushKeepsValid(q1, second, 2);
    hide Queue.Valid, AnyNonEmpty;
  }

  /** Two tells, pushed at 1 and 2 under a maximal age of 100: at 3 the one with priority 10 leaves. */
  lemma FreshEntriesLeaveByPriority(urgent: WireEnvelope, other: WireEnvelope)
    requires urgent.sendMode == Tell == other.sendMode && Asked(urgent) == 10 && Asked(other) == 200
    ensures var q := AfterPush(AfterPush(EmptyQueue(0, 0, Some(AgingWireComparer(100))), urgent, 1), other, 2);
            AfterPop(q, 3).0 == Some(urgent)
  {
    var q := AfterPush(AfterPush(EmptyQueue(0, 0, Some(AgingWireComparer(100))), urgent, 1), other, 2);
    TwoEntries(urgent, other);
    hide AfterPush, Queue.Valid, AfterPop, LaneTotal;
    var i := AgingPopTakes(q, 100, 3);
  }

  // ----- Draining -----

  /** The drained vector is in lexicographic order of priority and enqueue time. */
  lemma DrainIsLexicographic(s: seq<QueuedEnvelope>, i: nat, j: nat)
    requires i < j < |s|
    ensures |StableSort(s)| == |s|
    ensures var a, b := StableSort(s)[i].metadata, StableSort(s)[j].metadata;
            a.priority < b.priority || (a.priority == b.priority && a.enqueuedAt <= b.enqueuedAt)
  {
    StableSortIsStable(s, EnvelopeMetadata(0, 0));
    assert |multiset(StableSort(s))| == |multiset(s)|;
    hide StableSort;
  }
}
