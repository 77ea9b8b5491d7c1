/**
  Ordering and bookkeeping of the outbound queue over whole runs: nothing is lost or
  duplicated, each source leaves in acceptance order, and repeated `pop` agrees with
  `drain_ordered`.
*/
module OutboundQueueOrder {
  import opened Sequences
  import opened Wrappers
  import opened Wire
  import opened OutboundQueue

  // ----- Selecting the envelopes of one source -----

  datatype Source = StreamSide | PrioritySide | Lane(lane: LaneIndex) | OfPriority(priority: Byte)

  predicate From(src: Source, e: WireEnvelope) {
    match src
    case StreamSide => IsStream(e)
    case PrioritySide => !IsStream(e)
    case Lane(k) => !IsStream(e) && LaneOf(e) == k
    case OfPriority(p) => !IsStream(e) && ExtractPriority(e) == p
  }

  function Select(src: Source, s: seq<WireEnvelope>): seq<WireEnvelope> {
    if s == [] then [] else (if From(src, s[0]) then [s[0]] else []) + Select(src, s[1..])
  }

  lemma SelectHead(src: Source, s: seq<WireEnvelope>)
    requires s != []
    ensures Select(src, s) == Select(src, [s[0]]) + Select(src, s[1..])
  {
    assert [s[0]][1..] == [];
    ConcatNothing(if From(src, s[0]) then [s[0]] else []);
  }

  lemma {:induction false} SelectConcat(src: Source, a: seq<WireEnvelope>, b: seq<WireEnvelope>)
    ensures Select(src, a + b) == Select(src, a) + Select(src, b)
  {
    if a == [] {
      ConcatNothing(b);
      ConcatNothing(Select(src, b));
    } else {
      hide Select;
      SelectConcat(src, a[1..], b);
      SelectHead(src, a);
      SelectHead(src, a + b);
      assert (a + b)[1..] == a[1..] + b;
      ConcatAssociates(Select(src, [a[0]]), Select(src, a[1..]), Select(src, b));
    }
  }

  lemma {:induction false} SelectAll(src: Source, s: seq<WireEnvelope>)
    requires forall i :: 0 <= i < |s| ==> From(src, s[i])
    ensures Select(src, s) == s
  {
    if s != [] { SelectAll(src, s[1..]); }
  }

  lemma {:induction false} SelectNone(src: Source, s: seq<WireEnvelope>)
    requires forall i :: 0 <= i < |s| ==> !From(src, s[i])
    ensures Select(src, s) == []
  {
    if s != [] { SelectNone(src, s[1..]); }
  }

  // ----- The drain's stable sort -----

  predicate SortedForDrain(s: seq<QueuedEnvelope>) {
    forall i, j :: 0 <= i < j < |s| ==> DrainsBefore(s[i].metadata, s[j].metadata)
  }

  /** Enqueue times follow the vector order, because the clock never runs backwards. */
  predicate TimeSorted(s: seq<QueuedEnvelope>) {
    forall i, j :: 0 <= i < j < |s| ==> s[i].metadata.enqueuedAt <= s[j].metadata.enqueuedAt
  }

  function SelectEntries(m: EnvelopeMetadata, s: seq<QueuedEnvelope>): seq<QueuedEnvelope> {
    if s == [] then [] else (if s[0].metadata == m then [s[0]] else []) + SelectEntries(m, s[1..])
  }

  lemma {:induction false} InsertStableSorts(x: QueuedEnvelope, s: seq<QueuedEnvelope>)
    requires SortedForDrain(s)
    ensures SortedForDrain(InsertStable(x, s))
    ensures multiset(InsertStable(x, s)) == multiset{x} + multiset(s)
  {
    if s == [] || DrainsBefore(x.metadata, s[0].metadata) {
      ConcatNothing([x]);
    } else {
      var rest := InsertStable(x, s[1..]);
      InsertStableSorts(x, s[1..]);
      HeadAndTail(s);
      assert forall i :: 0 <= i < |s[1..]| ==> DrainsBefore(s[0].metadata, s[1..][i].metadata);
      hide InsertStable;
      FirstOfSorted(s[0], s[1..], x, rest);
    }
  }

  lemma FirstOfSorted(first: QueuedEnvelope, s: seq<QueuedEnvelope>, x: QueuedEnvelope, rest: seq<QueuedEnvelope>)
    requires !DrainsBefore(x.metadata, first.metadata) && SortedForDrain(rest)
    requires multiset(rest) == multiset{x} + multiset(s)
    requires forall i :: 0 <= i < |s| ==> DrainsBefore(first.metadata, s[i].metadata)
    ensures SortedForDrain([first] + rest)
  {
    forall i | 0 <= i < |rest| ensures DrainsBefore(first.metadata, rest[i].metadata) {
      assert rest[i] in multiset(rest);
      assert rest[i] == x || rest[i] in s;
    }
  }

  lemma {:induction false} InsertStableIsStable(x: QueuedEnvelope, s: seq<QueuedEnvelope>, m: EnvelopeMetadata)
    ensures SelectEntries(m, InsertStable(x, s)) == (if x.metadata == m then [x] else []) + SelectEntries(m, s)
  {
    if s == [] || DrainsBefore(x.metadata, s[0].metadata) {
      assert ([x] + s)[1..] == s;
    } else {
      InsertStableIsStable(x, s[1..], m);
      var rest := InsertStable(x, s[1..]);
      assert ([s[0]] + rest)[1..] == rest;
    }
  }

  /** The drain order is sorted, a permutation, and stable among entries of equal rank. */
  lemma {:induction false} StableSortIsStable(s: seq<QueuedEnvelope>, m: EnvelopeMetadata)
    ensures SortedForDrain(StableSort(s))
    ensures multiset(StableSort(s)) == multiset(s)
    ensures SelectEntries(m, StableSort(s)) == SelectEntries(m, s)
  {
    if s != [] {
      StableSortIsStable(s[1..], m);
      InsertStableSorts(s[0], StableSort(s[1..]));
      InsertStableIsStable(s[0], StableSort(s[1..]), m);
      assert s == [s[0]] + s[1..];
    }
  }

  // ----- What the comparer scan selects -----

  /** A comparer that is a total preorder at `now`. */
  ghost predicate TotalPreorder(cmp: Comparer, now: Instant) {
    && (forall a, b :: cmp(a, b, now) == Less <==> cmp(b, a, now) == Greater)
    && (forall a, b, c :: cmp(a, b, now) != Greater && cmp(b, c, now) != Greater ==> cmp(a, c, now) != Greater)
  }

  lemma StrictIsTotalPreorder(now: Instant)
    ensures TotalPreorder(StrictPriorityWireComparer, now)
  {
  }

  lemma AgingIsTotalPreorder(maxAge: nat, now: Instant)
    ensures TotalPreorder(AgingWireComparer(maxAge), now)
  {
  }

  /** The scan finds the first of the entries that nothing precedes. */
  ghost predicate FirstMinimum(s: seq<QueuedEnvelope>, cmp: Comparer, now: Instant, n: nat, best: nat)
    requires n <= |s|
  {
    && best < n
    && (forall j :: 0 <= j < n ==> cmp(s[j].metadata, s[best].metadata, now) != Less)
    && (forall j :: 0 <= j < best ==> cmp(s[best].metadata, s[j].metadata, now) == Less)
  }

  lemma {:induction false} BestIsFirstMinimum(s: seq<QueuedEnvelope>, cmp: Comparer, now: Instant, n: nat)
    requires 1 <= n <= |s|
    requires TotalPreorder(cmp, now)
    ensures FirstMinimum(s, cmp, now, n, BestIndex(s, cmp, now, n))
    ensures forall i :: FirstMinimum(s, cmp, now, n, i) ==> i == BestIndex(s, cmp, now, n)
  {
    if n == 1 {
      assert cmp(s[0].metadata, s[0].metadata, now) != Less;
    } else {
      BestIsFirstMinimum(s, cmp, now, n - 1);
      var m := s[n - 1].metadata;
      var prior := s[BestIndex(s, cmp, now, n - 1)].metadata;
      assert cmp(m, m, now) != Less;
      if cmp(m, prior, now) == Less {
        forall j | 0 <= j < n - 1
          ensures cmp(m, s[j].metadata, now) == Less
        {
          var other := s[j].metadata;
          assert cmp(prior, other, now) != Greater;
          assert cmp(other, m, now) != Greater ==> cmp(prior, m, now) != Greater;
        }
      }
    }
  }

  lemma StrictBest(s: seq<QueuedEnvelope>, now: Instant)
    requires s != []
    ensures var b := BestIndex(s, StrictPriorityWireComparer, now, |s|);
            && (forall j :: 0 <= j < |s| ==> s[b].metadata.priority <= s[j].metadata.priority)
            && (forall j :: 0 <= j < b ==> s[b].metadata.priority < s[j].metadata.priority)
  {
    StrictIsTotalPreorder(now);
    BestIsFirstMinimum(s, StrictPriorityWireComparer, now, |s|);
  }

  // ----- Selection agrees with the stable sort -----

  lemma SortStartsWithFirst(s: seq<QueuedEnvelope>)
    requires s != [] && forall j :: 0 <= j < |s| ==> DrainsBefore(s[0].metadata, s[j].metadata)
    ensures StableSort(s) == [s[0]] + StableSort(s[1..])
  {
    var sorted := StableSort(s[1..]);
    StableSortIsStable(s[1..], s[0].metadata);
    if sorted != [] {
      assert sorted[0] in multiset(sorted);
      var i :| 0 <= i < |s[1..]| && s[1..][i] == sorted[0];
      assert s[1..][i] == s[i + 1];
    }
  }

  /** Taking the strict comparer's choice out leaves the stable sort of the rest behind it. */
  lemma {:induction false} SortStartsWithBest(s: seq<QueuedEnvelope>, best: nat)
    requires best < |s| && TimeSorted(s)
    requires forall j :: 0 <= j < |s| ==> s[best].metadata.priority <= s[j].metadata.priority
    requires forall j :: 0 <= j < best ==> s[best].metadata.priority < s[j].metadata.priority
    ensures StableSort(s) == [s[best]] + StableSort(RemoveAt(s, best))
  {
    if best == 0 {
      SortStartsWithFirst(s);
      assert RemoveAt(s, 0) == s[1..];
    } else {
      var rest := s[1..];
      var without := RemoveAt(rest, best - 1);
      SortStartsWithBest(rest, best - 1);
      assert RemoveAt(s, best) == [s[0]] + without;
      assert RemoveAt(s, best)[1..] == without;
      var tail := StableSort(without);
      assert StableSort(rest) == [s[best]] + tail;
      assert ([s[best]] + tail)[1..] == tail;
      assert !DrainsBefore(s[0].metadata, s[best].metadata);
    }
  }

  lemma LanesFromNext(lanes: LaneQueues, from: LaneIndex)
    ensures LanesFrom(lanes, from) == lanes[from] + LanesFrom(lanes, from + 1)
  {
  }

  lemma {:induction false} LanesFromServed(lanes: LaneQueues, lane: nat, from: nat)
    requires from <= lane < LANE_COUNT && lanes[lane] != []
    requires forall k :: from <= k < lane ==> lanes[k] == []
    ensures LanesFrom(lanes, from) == [lanes[lane][0]] + LanesFrom(lanes[lane := lanes[lane][1..]], from)
    decreases LANE_COUNT - from
  {
    var after := lanes[lane := lanes[lane][1..]];
    LanesFromNext(lanes, from);
    LanesFromNext(after, from);
    hide LanesFrom;
    if from < lane {
      LanesFromServed(lanes, lane, from + 1);
      ConcatNothing(LanesFrom(lanes, from + 1));
      ConcatNothing(LanesFrom(after, from + 1));
    } else {
      LanesFromAgree(lanes, after, from + 1);
      HeadAndTail(lanes[lane]);
      ConcatAssociates([lanes[lane][0]], after[lane], LanesFrom(after, from + 1));
    }
  }

  lemma {:induction false} LanesFromAgree(a: LaneQueues, b: LaneQueues, from: nat)
    requires from <= LANE_COUNT
    requires forall k :: from <= k < LANE_COUNT ==> a[k] == b[k]
    ensures LanesFrom(a, from) == LanesFrom(b, from)
    decreases LANE_COUNT - from
  {
    if from < LANE_COUNT { LanesFromAgree(a, b, from + 1); }
  }

  /** The queues whose drain order repeated popping reproduces. */
  ghost predicate StrictQueue(q: Queue) {
    || (q.comparer == Some(StrictPriorityWireComparer) && TimeSorted(q.sorted))
    || (q.comparer == None && q.maxConsecutive == 0)
  }

  lemma StrictComparerPopFollowsDrain(q: Queue, now: Instant)
    requires q.Valid() && q.comparer == Some(StrictPriorityWireComparer) && TimeSorted(q.sorted) && q.sorted != []
    ensures var (r, q') := AfterPopComparer(q, now);
            && r.Some? && q'.Valid() && TimeSorted(q'.sorted) && !IsStream(r.value)
            && DrainedPriority(q) == [r.value] + DrainedPriority(q')
  {
    var (r, q') := AfterPopComparer(q, now);
    assert q'.Valid() by { PopPriorityKeepsValid(q, now); }
    var best := BestIndex(q.sorted, q.comparer.value, now, |q.sorted|);
    StrictBest(q.sorted, now);
    hide BestIndex, StableSort, IsStream, ExtractPriority;
    RemovalStaysSorted(q.sorted, best);
    assert StableSort(q.sorted) == [q.sorted[best]] + StableSort(q'.sorted) by { SortStartsWithBest(q.sorted, best); }
    hide TimeSorted;
    assert Envelopes([q.sorted[best]] + StableSort(q'.sorted)) == [r.value] + Envelopes(StableSort(q'.sorted));
  }

  lemma RemovalStaysSorted(s: seq<QueuedEnvelope>, i: nat)
    requires i < |s| && TimeSorted(s)
    ensures TimeSorted(RemoveAt(s, i))
  {
  }

  lemma StrictLanePopFollowsDrain(q: Queue)
    requires q.Valid() && q.comparer == None && AnyNonEmpty(q.lanes)
    ensures var (r, q') := AfterPopStrict(q);
            && r.Some? && !IsStream(r.value)
            && DrainedPriority(q) == [r.value] + DrainedPriority(q')
  {
    FirstNonEmptyIsComplete(q.lanes, 0);
    var lane := FirstNonEmptyFrom(q.lanes, 0).value;
    forall k | 0 <= k < lane ensures q.lanes[k] == [] { assert LaneAt(0, k) == k; }
    LanesFromServed(q.lanes, lane, 0);
  }

  /** Lanes are bands of 64 priorities, the last value apart; a lower lane is never less urgent. */
  lemma LanesAreBands(p: Byte, other: Byte)
    ensures LaneIndexFromPriority(p) == if p == 255 then 4 else p / 64
    ensures p <= other ==> LaneIndexFromPriority(p) <= LaneIndexFromPriority(other)
  {
  }

  /** So a strict pop is beaten by a queued envelope's priority only within its own lane. */
  lemma StrictPopServesUrgentLane(q: Queue, k: LaneIndex, i: nat)
    requires q.Valid() && q.comparer == None && i < |q.lanes[k]|
    ensures var served := AfterPopStrict(q).0;
            && served.Some?
            && LaneOf(served.value) <= LaneOf(q.lanes[k][i])
            && (ExtractPriority(q.lanes[k][i]) < ExtractPriority(served.value) ==> LaneOf(served.value) == k)
  {
    FirstNonEmptyIsComplete(q.lanes, 0);
    var lane := FirstNonEmptyFrom(q.lanes, 0).value;
    assert k == LaneAt(0, k) && lane == LaneAt(0, lane);
    assert LaneOf(q.lanes[lane][0]) == lane && LaneOf(q.lanes[k][i]) == k;
    LanesAreBands(ExtractPriority(q.lanes[k][i]), ExtractPriority(q.lanes[lane][0]));
  }

  lemma StrictPopFollowsDrain(q: Queue, now: Instant)
    requires q.Valid() && StrictQueue(q) && q.HasPriority()
    ensures var (r, q') := AfterPopPriority(q, now);
            && r.Some? && q'.Valid() && StrictQueue(q') && !IsStream(r.value)
            && q'.streamFifo == q.streamFifo && q'.total == q.total - 1
            && DrainedPriority(q) == [r.value] + DrainedPriority(q')
  {
    PopPriorityKeepsValid(q, now);
    if q.comparer.Some? { StrictComparerPopFollowsDrain(q, now); } else { StrictLanePopFollowsDrain(q); }
  }

  /** What `pop` yields when it is called at each of the given instants. */
  function PopAll(q: Queue, clock: seq<Instant>): seq<WireEnvelope>
    decreases |clock|
  {
    if clock == [] then []
    else
      var (r, q') := AfterPop(q, clock[0]);
      (if r.Some? then [r.value] else []) + PopAll(q', clock[1..])
  }

  /**
    Repeated `pop` and `drain_ordered` agree: the stream items leave in FIFO order and the
    others in exactly the drain's order, however the two are interleaved.
  */
  lemma {:induction false} RepeatedPopIsDrain(q: Queue, clock: seq<Instant>)
    requires q.Valid() && StrictQueue(q)
    requires |clock| >= q.total
    ensures Select(StreamSide, PopAll(q, clock)) == q.streamFifo
    ensures Select(PrioritySide, PopAll(q, clock)) == DrainedPriority(q)
    decreases |clock|
  {
    hide AfterPop, Select, StrictQueue, DrainedPriority;
    if q.total == 0 {
      NothingLeft(q, clock);
      SelectNothing(StreamSide);
      SelectNothing(PrioritySide);
    } else {
      OnePopOfDrain(q, clock[0]);
      var (r, q') := AfterPop(q, clock[0]);
      RepeatedPopIsDrain(q', clock[1..]);
      var rest := PopAll(q', clock[1..]);
      SelectConcat(StreamSide, [r.value], rest);
      SelectConcat(PrioritySide, [r.value], rest);
    }
  }

  lemma SelectNothing(src: Source)
    ensures Select(src, []) == []
  {
  }

  /** One pop takes the head of the stream or of the drained priority items. */
  lemma OnePopOfDrain(q: Queue, now: Instant)
    requires q.Valid() && StrictQueue(q) && q.total > 0
    ensures var (r, q') := AfterPop(q, now);
            && r.Some? && q'.Valid() && StrictQueue(q') && q'.total == q.total - 1
            && q.streamFifo == Select(StreamSide, [r.value]) + q'.streamFifo
            && DrainedPriority(q) == Select(PrioritySide, [r.value]) + DrainedPriority(q')
  {
    hide AfterPop, StrictQueue, DrainedPriority, Queue.Valid;
    PopKeepsValid(q, now);
    var (r, q') := AfterPop(q, now);
    if TakesStream(q) { PopOfStream(q, now); } else { PopOfPriority(q, now); }
  }

  lemma PopOfStream(q: Queue, now: Instant)
    requires q.Valid() && StrictQueue(q) && TakesStream(q)
    ensures var (r, q') := AfterPop(q, now);
            && r.Some? && StrictQueue(q')
            && q.streamFifo == Select(StreamSide, [r.value]) + q'.streamFifo
            && DrainedPriority(q) == Select(PrioritySide, [r.value]) + DrainedPriority(q')
  {
    var head, rest := q.streamFifo[0], q.streamFifo[1..];
    assert q.total > 0 && IsStream(head) && AfterPop(q, now).1 == q.(streamFifo := rest, total := q.total - 1);
    SelectOne(StreamSide, head);
    SelectOne(PrioritySide, head);
    HeadAndTail(q.streamFifo);
    hide Select, IsStream, AfterPop, Queue.Valid;
    assert DrainedPriority(AfterPop(q, now).1) == DrainedPriority(q);
    hide DrainedPriority;
    ConcatNothing(DrainedPriority(q));
  }

  lemma PopOfPriority(q: Queue, now: Instant)
    requires q.Valid() && StrictQueue(q) && q.total > 0 && !TakesStream(q)
    ensures var (r, q') := AfterPop(q, now);
            && r.Some? && StrictQueue(q')
            && q.streamFifo == Select(StreamSide, [r.value]) + q'.streamFifo
            && DrainedPriority(q) == Select(PrioritySide, [r.value]) + DrainedPriority(q')
  {
    assert q.HasPriority();
    hide AfterPopPriority, StrictQueue, DrainedPriority, Queue.Valid, Select, IsStream, Queue.HasPriority, TakesStream;
    StrictPopFollowsDrain(q, now);
    var e := AfterPop(q, now).0.value;
    hide AfterPop;
    SelectOne(StreamSide, e);
    SelectOne(PrioritySide, e);
    ConcatNothing(q.streamFifo);
  }

  lemma SelectOne(src: Source, e: WireEnvelope)
    ensures Select(src, [e]) == if From(src, e) then [e] else []
  {
    SelectNothing(src);
    assert [e][1..] == [];
    ConcatNothing(if From(src, e) then [e] else []);
  }

  lemma {:induction false} NothingLeft(q: Queue, clock: seq<Instant>)
    requires q.Valid() && q.total == 0
    ensures PopAll(q, clock) == [] && q.streamFifo == [] && DrainedPriority(q) == []
  {
    assert forall k :: 0 <= k < LANE_COUNT ==> q.lanes[k] == [];
    LanesFromAgree(q.lanes, [[], [], [], [], []], 0);
    assert LanesFrom([[], [], [], [], []], 0) == [] by {
      assert LanesFrom([[], [], [], [], []], 5) == [];
      assert LanesFrom([[], [], [], [], []], 4) == [];
      assert LanesFrom([[], [], [], [], []], 3) == [];
      assert LanesFrom([[], [], [], [], []], 2) == [];
      assert LanesFrom([[], [], [], [], []], 1) == [];
    }
    if clock != [] { NothingLeft(q, clock[1..]); }
  }

  // ----- Runs -----

  datatype Op = Push(e: WireEnvelope) | Pop | Drain

  datatype TimedOp = At(now: Instant, op: Op)

  /** A run so far: the queue, and what it has accepted and given back, in order. */
  datatype Trace = Trace(queue: Queue, accepted: seq<WireEnvelope>, left: seq<WireEnvelope>)

  function Step(t: Trace, at: TimedOp): Trace {
    match at.op
    case Push(e) =>
      Trace(AfterPush(t.queue, e, at.now), if t.queue.Full() then t.accepted else t.accepted + [e], t.left)
    case Pop =>
      var (r, q) := AfterPop(t.queue, at.now);
      Trace(q, t.accepted, if r.Some? then t.left + [r.value] else t.left)
    case Drain =>
      Trace(AfterClear(t.queue), t.accepted, t.left + (t.queue.streamFifo + DrainedPriority(t.queue)))
  }

  function Run(q: Queue, ops: seq<TimedOp>): Trace {
    if ops == [] then Trace(q, [], []) else Step(Run(q, ops[..|ops| - 1]), ops[|ops| - 1])
  }

  lemma StepKeepsValid(t: Trace, at: TimedOp)
    requires t.queue.Valid()
    ensures Step(t, at).queue.Valid()
    ensures Step(t, at).queue.comparer == t.queue.comparer
    ensures Step(t, at).queue.capacity == t.queue.capacity
    ensures Step(t, at).queue.maxConsecutive == t.queue.maxConsecutive
  {
    match at.op
    case Push(e) => PushKeepsValid(t.queue, e, at.now);
    case Pop => PopKeepsValid(t.queue, at.now);
    case Drain => ClearKeepsValid(t.queue);
  }

  lemma {:induction false} RunKeepsValid(q: Queue, ops: seq<TimedOp>)
    requires q.Valid()
    ensures Run(q, ops).queue.Valid()
    ensures Run(q, ops).queue.comparer == q.comparer
    ensures Run(q, ops).queue.capacity == q.capacity
    ensures Run(q, ops).queue.maxConsecutive == q.maxConsecutive
  {
    if ops != [] {
      RunKeepsValid(q, ops[..|ops| - 1]);
      StepKeepsValid(Run(q, ops[..|ops| - 1]), ops[|ops| - 1]);
    }
  }

  predicate MonotoneClock(ops: seq<TimedOp>) {
    forall i, j :: 0 <= i < j < |ops| ==> ops[i].now <= ops[j].now
  }

  function LastInstant(ops: seq<TimedOp>): Instant {
    if ops == [] then 0 else ops[|ops| - 1].now
  }

  // ----- Conservation -----

  function Everything(q: Queue): seq<WireEnvelope> {
    q.streamFifo + LanesFrom(q.lanes, 0) + Envelopes(q.sorted)
  }

  /** `big` is `small` with `e` added to one lane. */
  ghost predicate OneMore(small: LaneQueues, big: LaneQueues, lane: LaneIndex, e: WireEnvelope) {
    && multiset(big[lane]) == multiset(small[lane]) + multiset{e}
    && forall k: LaneIndex :: k != lane ==> big[k] == small[k]
  }

  lemma {:induction false} LaneGrows(small: LaneQueues, big: LaneQueues, lane: LaneIndex, e: WireEnvelope, from: nat)
    requires OneMore(small, big, lane, e) && from <= LANE_COUNT
    ensures multiset(LanesFrom(big, from))
         == multiset(LanesFrom(small, from)) + if from <= lane then multiset{e} else multiset{}
    decreases LANE_COUNT - from
  {
    if from < LANE_COUNT { LaneGrows(small, big, lane, e, from + 1); }
  }

  lemma {:induction false} LanesLength(lanes: LaneQueues)
    ensures |LanesFrom(lanes, 0)| == LaneTotal(lanes)
  {
    assert |LanesFrom(lanes, 4)| == |lanes[4]| + |LanesFrom(lanes, 5)|;
    assert |LanesFrom(lanes, 2)| == |lanes[2]| + |lanes[3]| + |LanesFrom(lanes, 4)|;
  }

  lemma EnvelopesSplit(s: seq<QueuedEnvelope>, i: nat)
    requires i < |s|
    ensures Envelopes(s) == Envelopes(s[..i]) + ([s[i].envelope] + Envelopes(s[i + 1..]))
    ensures Envelopes(RemoveAt(s, i)) == Envelopes(s[..i]) + Envelopes(s[i + 1..])
  {
  }

  lemma EnvelopesRemove(s: seq<QueuedEnvelope>, i: nat)
    requires i < |s|
    ensures multiset(Envelopes(s)) == multiset{s[i].envelope} + multiset(Envelopes(RemoveAt(s, i)))
  {
    EnvelopesSplit(s, i);
  }

  lemma MultisetRemove<T>(s: seq<T>, i: nat)
    requires i < |s|
    ensures multiset(RemoveAt(s, i)) == multiset(s) - multiset{s[i]}
  {
    assert s == s[..i] + ([s[i]] + s[i + 1..]);
  }

  lemma {:induction false} EnvelopesMultiset(s: seq<QueuedEnvelope>, t: seq<QueuedEnvelope>)
    requires multiset(s) == multiset(t)
    ensures multiset(Envelopes(s)) == multiset(Envelopes(t))
    decreases |s|
  {
    if s == [] {
      assert |multiset(t)| == 0;
    } else {
      assert s[0] in multiset(t);
      var i :| 0 <= i < |t| && t[i] == s[0];
      MultisetRemove(s, 0);
      MultisetRemove(t, i);
      EnvelopesMultiset(RemoveAt(s, 0), RemoveAt(t, i));
      EnvelopesRemove(s, 0);
      EnvelopesRemove(t, i);
    }
  }

  lemma PushConserves(q: Queue, e: WireEnvelope, now: Instant)
    requires !q.Full()
    ensures multiset(Everything(AfterPush(q, e, now))) == multiset(Everything(q)) + multiset{e}
  {
    var q' := AfterPush(q, e, now);
    if IsStream(e) {
    } else if q.comparer.Some? {
      assert Envelopes(q'.sorted) == Envelopes(q.sorted) + [e];
    } else {
      LaneGrows(q.lanes, q'.lanes, LaneOf(e), e, 0);
    }
  }

  lemma ServeConserves(q: Queue, lane: LaneIndex, consecutive: nat, current: LaneIndex)
    requires q.lanes[lane] != []
    ensures var (r, q') := ServeLane(q, lane, consecutive, current);
            multiset(Everything(q)) == multiset{r.value} + multiset(Everything(q'))
  {
    var (r, q') := ServeLane(q, lane, consecutive, current);
    assert q.lanes[lane] == [r.value] + q'.lanes[lane];
    LaneGrows(q'.lanes, q.lanes, lane, r.value, 0);
  }

  lemma ComparerPopConserves(q: Queue, now: Instant)
    requires q.comparer.Some? && q.sorted != []
    ensures var (r, q') := AfterPopComparer(q, now);
            multiset(Everything(q)) == multiset{r.value} + multiset(Everything(q'))
  {
    EnvelopesRemove(q.sorted, BestIndex(q.sorted, q.comparer.value, now, |q.sorted|));
  }

  lemma PopPriorityConserves(q: Queue, now: Instant)
    requires AfterPopPriority(q, now).0.Some?
    ensures var (r, q') := AfterPopPriority(q, now);
            multiset(Everything(q)) == multiset{r.value} + multiset(Everything(q'))
  {
    if q.comparer.Some? {
      ComparerPopConserves(q, now);
    } else if q.maxConsecutive == 0 {
      ServeConserves(q, FirstNonEmptyFrom(q.lanes, 0).value, q.consecutiveFromLane, q.currentLane);
    } else {
      var (lane, n) := FairChoice(q.lanes, q.currentLane, q.consecutiveFromLane, q.maxConsecutive);
      ServeConserves(q, lane.value, n + 1, lane.value);
    }
  }

  lemma PopConserves(q: Queue, now: Instant)
    requires AfterPop(q, now).0.Some?
    ensures var (r, q') := AfterPop(q, now);
            multiset(Everything(q)) == multiset{r.value} + multiset(Everything(q'))
  {
    if TakesStream(q) {
      assert q.streamFifo == [q.streamFifo[0]] + q.streamFifo[1..];
    } else {
      PopPriorityConserves(q, now);
    }
  }

  lemma DrainConserves(q: Queue)
    requires q.Valid()
    ensures multiset(q.streamFifo + DrainedPriority(q)) == multiset(Everything(q))
    ensures |q.streamFifo + DrainedPriority(q)| == q.total
    ensures Everything(AfterClear(q)) == []
  {
    hide StableSort, LanesFrom, PopAll;
    ClearKeepsValid(q);
    NothingLeft(AfterClear(q), []);
    LanesLength(AfterClear(q).lanes);
    LanesLength(q.lanes);
    if q.comparer.Some? {
      StableSortIsStable(q.sorted, EnvelopeMetadata(0, 0));
      EnvelopesMultiset(StableSort(q.sorted), q.sorted);
      assert |multiset(StableSort(q.sorted))| == |q.sorted|;
    }
  }

  /** What was accepted is what has left together with what is queued. */
  ghost predicate Conserved(t: Trace) {
    && multiset(t.accepted) == multiset(t.left) + multiset(Everything(t.queue))
    && t.queue.total == |t.accepted| - |t.left|
  }

  lemma PushStepConserves(t: Trace, e: WireEnvelope, now: Instant)
    requires Conserved(t) && !t.queue.Full()
    ensures Conserved(Trace(AfterPush(t.queue, e, now), t.accepted + [e], t.left))
  {
    hide AfterPush, Everything;
    PushConserves(t.queue, e, now);
    PushCounts(t.queue, e, now);
  }

  lemma PushCounts(q: Queue, e: WireEnvelope, now: Instant)
    requires !q.Full()
    ensures AfterPush(q, e, now).total == q.total + 1
  {
  }

  lemma PopStepConserves(t: Trace, now: Instant)
    requires t.queue.Valid() && Conserved(t) && t.queue.total > 0
    ensures var (r, q) := AfterPop(t.queue, now);
            r.Some? && Conserved(Trace(q, t.accepted, t.left + [r.value]))
  {
    PopKeepsValid(t.queue, now);
    PopConserves(t.queue, now);
  }

  lemma DrainStepConserves(t: Trace)
    requires t.queue.Valid() && Conserved(t)
    ensures Conserved(Trace(AfterClear(t.queue), t.accepted, t.left + (t.queue.streamFifo + DrainedPriority(t.queue))))
  {
    DrainConserves(t.queue);
  }

  lemma StepConserves(t: Trace, at: TimedOp)
    requires t.queue.Valid() && Conserved(t)
    ensures Conserved(Step(t, at))
  {
    hide AfterPop, AfterClear, DrainedPriority, Conserved, Queue.Classified;
    match at.op
    case Push(e) =>
      if !t.queue.Full() { PushStepConserves(t, e, at.now); }
    case Pop =>
      PopKeepsValid(t.queue, at.now);
      if t.queue.total > 0 { PopStepConserves(t, at.now); }
    case Drain =>
      DrainStepConserves(t);
  }

  lemma {:induction false} RunConserves(q: Queue, ops: seq<TimedOp>)
    requires q.Valid() && q.total == 0
    ensures Conserved(Run(q, ops))
  {
    if ops == [] {
      LanesLength(q.lanes);
    } else {
      var prior := ops[..|ops| - 1];
      RunConserves(q, prior);
      RunKeepsValid(q, prior);
      StepConserves(Run(q, prior), ops[|ops| - 1]);
    }
  }

  /**
    Over any run of pushes, pops and drains, with any comparer or none: what was accepted
    is what has left together with what is queued, nothing more and nothing less; `total`
    is the difference of the two lengths; and the capacity is never exceeded.
  */
  lemma NothingLostOrDuplicated(capacity: nat, max: nat, cmp: Option<Comparer>, ops: seq<TimedOp>)
    ensures var t := Run(EmptyQueue(capacity, max, cmp), ops);
            && multiset(t.accepted) == multiset(t.left) + multiset(Everything(t.queue))
            && t.queue.total == |t.accepted| - |t.left|
            && (capacity > 0 ==> t.queue.total <= capacity)
            && t.queue.Valid()
  {
    RunConserves(EmptyQueue(capacity, max, cmp), ops);
    RunKeepsValid(EmptyQueue(capacity, max, cmp), ops);
  }

  // ----- Order within each source -----

  ghost predicate AgeOrStrict(cmp: Comparer) {
    cmp == StrictPriorityWireComparer || exists maxAge: nat :: cmp == AgingWireComparer(maxAge)
  }

  /** The sources that a queue serves in arrival order. */
  ghost predicate KeepsOrder(cmp: Option<Comparer>, src: Source) {
    match src
    case StreamSide => true
    case Lane(_) => cmp.None?
    case OfPriority(p) => cmp.Some? && AgeOrStrict(cmp.value)
    case PrioritySide => false
  }

  /** The queued envelopes of a source that keeps its order. */
  function Holding(q: Queue, src: Source): seq<WireEnvelope> {
    match src
    case StreamSide => q.streamFifo
    case Lane(k) => q.lanes[k]
    case OfPriority(p) => Select(src, Envelopes(q.sorted))
    case PrioritySide => []
  }

  lemma PushAppends(q: Queue, src: Source, e: WireEnvelope, now: Instant)
    requires !q.Full() && KeepsOrder(q.comparer, src)
    ensures Holding(AfterPush(q, e, now), src) == Holding(q, src) + Select(src, [e])
  {
    if !IsStream(e) && q.comparer.Some? {
      assert Envelopes(AfterPush(q, e, now).sorted) == Envelopes(q.sorted) + [e];
      SelectConcat(src, Envelopes(q.sorted), [e]);
    }
  }

  lemma AgingBestIsFirstOfItsPriority(s: seq<QueuedEnvelope>, maxAge: nat, now: Instant)
    requires s != [] && TimeSorted(s)
    ensures var b := BestIndex(s, AgingWireComparer(maxAge), now, |s|);
            forall j :: 0 <= j < b ==> s[j].metadata.priority != s[b].metadata.priority
  {
    hide BestIndex;
    AgingIsTotalPreorder(maxAge, now);
    BestIsFirstMinimum(s, AgingWireComparer(maxAge), now, |s|);
    var b := BestIndex(s, AgingWireComparer(maxAge), now, |s|);
    forall j | 0 <= j < b ensures s[j].metadata.priority != s[b].metadata.priority {
      assert AgingCompare(maxAge, s[b].metadata, s[j].metadata, now) == Less;
      assert s[j].metadata.enqueuedAt <= s[b].metadata.enqueuedAt;
    }
  }

  /** Both shipped comparers take the first of the entries of one priority. */
  lemma BestIsFirstOfItsPriority(s: seq<QueuedEnvelope>, cmp: Comparer, now: Instant)
    requires s != [] && TimeSorted(s) && AgeOrStrict(cmp)
    ensures var b := BestIndex(s, cmp, now, |s|);
            forall j :: 0 <= j < b ==> s[j].metadata.priority != s[b].metadata.priority
  {
    hide BestIndex;
    if cmp == StrictPriorityWireComparer {
      StrictBest(s, now);
    } else {
      var maxAge: nat :| cmp == AgingWireComparer(maxAge);
      AgingBestIsFirstOfItsPriority(s, maxAge, now);
    }
  }

  lemma RemovingFirst(src: Source, s: seq<QueuedEnvelope>, best: nat)
    requires best < |s| && From(src, s[best].envelope) ==> forall j :: 0 <= j < best ==> !From(src, s[j].envelope)
    requires best < |s|
    ensures Select(src, Envelopes(s)) == Select(src, [s[best].envelope]) + Select(src, Envelopes(RemoveAt(s, best)))
  {
    var e := s[best].envelope;
    var front, back := Envelopes(s[..best]), Envelopes(s[best + 1..]);
    EnvelopesSplit(s, best);
    SelectConcat(src, front, [e] + back);
    SelectConcat(src, [e], back);
    SelectConcat(src, front, back);
    if From(src, e) { SelectNone(src, front); }
  }

  lemma ComparerPopTakesFirst(q: Queue, p: Byte, now: Instant)
    requires q.Classified() && q.comparer.Some? && AgeOrStrict(q.comparer.value)
    requires TimeSorted(q.sorted) && q.sorted != []
    ensures var (r, q') := AfterPopComparer(q, now);
            Holding(q, OfPriority(p)) == Select(OfPriority(p), [r.value]) + Holding(q', OfPriority(p))
  {
    BestIsFirstOfItsPriority(q.sorted, q.comparer.value, now);
    RemovingFirst(OfPriority(p), q.sorted, BestIndex(q.sorted, q.comparer.value, now, |q.sorted|));
  }

  lemma ServeTakesFirst(q: Queue, src: Source, lane: LaneIndex, consecutive: nat, current: LaneIndex)
    requires q.Classified() && q.lanes[lane] != [] && (src.StreamSide? || src.Lane?)
    ensures var (r, q') := ServeLane(q, lane, consecutive, current);
            Holding(q, src) == Select(src, [r.value]) + Holding(q', src)
  {
    var e := q.lanes[lane][0];
    assert !IsStream(e) && LaneOf(e) == lane;
    HeadAndTail(q.lanes[lane]);
    SelectOne(src, e);
    hide Select, IsStream, LaneOf;
    ConcatNothing(Holding(q, src));
  }

  lemma PopPriorityTakesFirst(q: Queue, src: Source, now: Instant)
    requires q.Classified() && KeepsOrder(q.comparer, src) && TimeSorted(q.sorted)
    requires AfterPopPriority(q, now).0.Some?
    ensures var (r, q') := AfterPopPriority(q, now);
            Holding(q, src) == Select(src, [r.value]) + Holding(q', src)
  {
    if q.comparer.Some? {
      if src.OfPriority? { ComparerPopTakesFirst(q, src.priority, now); }
    } else if q.maxConsecutive == 0 {
      ServeTakesFirst(q, src, FirstNonEmptyFrom(q.lanes, 0).value, q.consecutiveFromLane, q.currentLane);
    } else {
      var (lane, n) := FairChoice(q.lanes, q.currentLane, q.consecutiveFromLane, q.maxConsecutive);
      ServeTakesFirst(q, src, lane.value, n + 1, lane.value);
    }
  }

  lemma PopTakesFirst(q: Queue, src: Source, now: Instant)
    requires q.Classified() && KeepsOrder(q.comparer, src) && TimeSorted(q.sorted)
    requires AfterPop(q, now).0.Some?
    ensures var (r, q') := AfterPop(q, now);
            Holding(q, src) == Select(src, [r.value]) + Holding(q', src)
  {
    if TakesStream(q) {
      assert IsStream(q.streamFifo[0]);
      assert q.streamFifo == [q.streamFifo[0]] + q.streamFifo[1..];
    } else {
      PopPriorityTakesFirst(q, src, now);
    }
  }

  lemma EnvelopesAppend(a: seq<QueuedEnvelope>, b: seq<QueuedEnvelope>)
    ensures Envelopes(a + b) == Envelopes(a) + Envelopes(b)
  {
  }

  lemma EnvelopesOfOne(x: QueuedEnvelope)
    ensures Envelopes([x]) == [x.envelope]
  {
  }

  lemma InsertPassesHead(x: QueuedEnvelope, s: seq<QueuedEnvelope>)
    requires s != [] && !DrainsBefore(x.metadata, s[0].metadata)
    ensures InsertStable(x, s) == [s[0]] + InsertStable(x, s[1..])
  {
  }

  /** An older entry that drains after `head` is of another priority. */
  lemma SelectsOneOf(x: QueuedEnvelope, head: QueuedEnvelope, p: Byte)
    requires x.metadata.enqueuedAt <= head.metadata.enqueuedAt && !DrainsBefore(x.metadata, head.metadata)
    requires x.metadata.priority == ExtractPriority(x.envelope)
    requires head.metadata.priority == ExtractPriority(head.envelope)
    ensures Select(OfPriority(p), [x.envelope]) == [] || Select(OfPriority(p), [head.envelope]) == []
  {
    SelectOne(OfPriority(p), x.envelope);
    SelectOne(OfPriority(p), head.envelope);
    hide Select;
  }

  lemma {:induction false} InsertKeepsPriorityOrder(x: QueuedEnvelope, s: seq<QueuedEnvelope>, p: Byte)
    requires forall i :: 0 <= i < |s| ==> x.metadata.enqueuedAt <= s[i].metadata.enqueuedAt
    requires forall i :: 0 <= i < |s| ==> s[i].metadata.priority == ExtractPriority(s[i].envelope)
    requires x.metadata.priority == ExtractPriority(x.envelope)
    ensures Select(OfPriority(p), Envelopes(InsertStable(x, s)))
         == Select(OfPriority(p), [x.envelope]) + Select(OfPriority(p), Envelopes(s))
  {
    var src := OfPriority(p);
    if s == [] || DrainsBefore(x.metadata, s[0].metadata) {
      EnvelopesAppend([x], s);
      EnvelopesOfOne(x);
      hide *;
      SelectConcat(src, [x.envelope], Envelopes(s));
    } else {
      var rest := InsertStable(x, s[1..]);
      InsertKeepsPriorityOrder(x, s[1..], p);
      InsertPassesHead(x, s);
      SelectsOneOf(x, s[0], p);
      hide *;
      EnvelopesOfOne(s[0]);
      HeadAndTail(s);
      EnvelopesAppend([s[0]], s[1..]);
      EnvelopesAppend([s[0]], rest);
      SelectConcat(src, [s[0].envelope], Envelopes(rest));
      SelectConcat(src, [s[0].envelope], Envelopes(s[1..]));
      var one, head, tail :=
        Select(src, [x.envelope]), Select(src, [s[0].envelope]), Select(src, Envelopes(s[1..]));
      ConcatAssociates(head, one, tail);
      ConcatAssociates(one, head, tail);
      ConcatNothing(one);
      ConcatNothing(head);
    }
  }

  lemma SortedElements(s: seq<QueuedEnvelope>, i: nat)
    requires i < |StableSort(s)|
    ensures StableSort(s)[i] in s
  {
    StableSortIsStable(s, EnvelopeMetadata(0, 0));
    assert StableSort(s)[i] in multiset(StableSort(s));
  }

  lemma {:induction false} SortKeepsPriorityOrder(s: seq<QueuedEnvelope>, p: Byte)
    requires TimeSorted(s)
    requires forall i :: 0 <= i < |s| ==> s[i].metadata.priority == ExtractPriority(s[i].envelope)
    ensures Select(OfPriority(p), Envelopes(StableSort(s))) == Select(OfPriority(p), Envelopes(s))
  {
    if s != [] {
      var rest := s[1..];
      var sorted := StableSort(rest);
      SortKeepsPriorityOrder(rest, p);
      forall i | 0 <= i < |sorted|
        ensures s[0].metadata.enqueuedAt <= sorted[i].metadata.enqueuedAt
        ensures sorted[i].metadata.priority == ExtractPriority(sorted[i].envelope)
      {
        SortedElements(rest, i);
        var j :| 0 <= j < |rest| && rest[j] == sorted[i];
        assert rest[j] == s[j + 1];
      }
      InsertKeepsPriorityOrder(s[0], sorted, p);
      RemovingFirst(OfPriority(p), s, 0);
      assert RemoveAt(s, 0) == rest;
    }
  }

  ghost predicate EachInItsLane(lanes: LaneQueues) {
    forall l: LaneIndex, i :: 0 <= i < |lanes[l]| ==> !IsStream(lanes[l][i]) && LaneOf(lanes[l][i]) == l
  }

  lemma SelectOneLane(lanes: LaneQueues, k: LaneIndex, l: LaneIndex)
    requires EachInItsLane(lanes)
    ensures Select(Lane(k), lanes[l]) == if k == l then lanes[k] else []
    ensures Select(StreamSide, lanes[l]) == []
  {
    SelectNone(StreamSide, lanes[l]);
    if k == l { SelectAll(Lane(k), lanes[l]); } else { SelectNone(Lane(k), lanes[l]); }
  }

  lemma {:induction false} SelectFromLanes(lanes: LaneQueues, k: LaneIndex, from: nat)
    requires from <= LANE_COUNT
    requires EachInItsLane(lanes)
    ensures Select(Lane(k), LanesFrom(lanes, from)) == if from <= k then lanes[k] else []
    ensures Select(StreamSide, LanesFrom(lanes, from)) == []
    decreases LANE_COUNT - from
  {
    if from < LANE_COUNT {
      hide Select, EachInItsLane;
      var rest := LanesFrom(lanes, from + 1);
      SelectFromLanes(lanes, k, from + 1);
      SelectConcat(Lane(k), lanes[from], rest);
      SelectConcat(StreamSide, lanes[from], rest);
      SelectOneLane(lanes, k, from);
      ConcatNothing(Select(Lane(k), rest));
      ConcatNothing(lanes[k]);
    }
  }

  lemma SelectFromDrained(q: Queue, src: Source)
    requires q.Valid() && KeepsOrder(q.comparer, src) && TimeSorted(q.sorted)
    ensures Select(src, DrainedPriority(q)) == if src.StreamSide? then [] else Holding(q, src)
  {
    if q.comparer.None? {
      SelectFromLanes(q.lanes, if src.Lane? then src.lane else 0, 0);
    } else if src.OfPriority? {
      SortKeepsPriorityOrder(q.sorted, src.priority);
    } else {
      var drained := StableSort(q.sorted);
      forall i | 0 <= i < |drained| ensures !IsStream(drained[i].envelope) { SortedElements(q.sorted, i); }
      SelectNone(src, Envelopes(drained));
    }
  }

  lemma DrainTakesAllInOrder(q: Queue, src: Source)
    requires q.Valid() && KeepsOrder(q.comparer, src) && TimeSorted(q.sorted)
    ensures Select(src, q.streamFifo + DrainedPriority(q)) == Holding(q, src)
    ensures Holding(AfterClear(q), src) == []
  {
    hide DrainedPriority;
    ClearedHoldsNothing(q, src);
    SelectConcat(src, q.streamFifo, DrainedPriority(q));
    SelectFromDrained(q, src);
    if src.StreamSide? { SelectAll(src, q.streamFifo); } else { SelectNone(src, q.streamFifo); }
    ConcatNothing(Holding(q, src));
    hide AfterClear, Select, KeepsOrder;
  }

  lemma ClearedHoldsNothing(q: Queue, src: Source)
    ensures Holding(AfterClear(q), src) == []
  {
  }

  ghost predicate EnqueuedInOrder(q: Queue, now: Instant) {
    && TimeSorted(q.sorted)
    && forall i :: 0 <= i < |q.sorted| ==> q.sorted[i].metadata.enqueuedAt <= now
  }

  /** No step reorders the comparer's vector, and a push only appends to it. */
  lemma StepOnSorted(t: Trace, at: TimedOp)
    ensures var s, s' := t.queue.sorted, Step(t, at).queue.sorted;
            || s' == s || s' == [] || (exists k: nat :: k < |s| && s' == RemoveAt(s, k))
            || (exists x: QueuedEnvelope :: x.metadata.enqueuedAt == at.now && s' == s + [x])
  {
    hide FirstNonEmptyFrom, BestIndex, IsStream, LaneOf, Select;
  }

  lemma AppendStaysSorted(s: seq<QueuedEnvelope>, x: QueuedEnvelope, last: Instant)
    requires TimeSorted(s) && last <= x.metadata.enqueuedAt
    requires forall i :: 0 <= i < |s| ==> s[i].metadata.enqueuedAt <= last
    ensures TimeSorted(s + [x])
    ensures forall i :: 0 <= i < |s + [x]| ==> (s + [x])[i].metadata.enqueuedAt <= x.metadata.enqueuedAt
  {
  }

  lemma RemovalStaysEarlier(s: seq<QueuedEnvelope>, k: nat, last: Instant)
    requires TimeSorted(s) && k < |s|
    requires forall i :: 0 <= i < |s| ==> s[i].metadata.enqueuedAt <= last
    ensures TimeSorted(RemoveAt(s, k))
    ensures forall i :: 0 <= i < |RemoveAt(s, k)| ==> RemoveAt(s, k)[i].metadata.enqueuedAt <= last
  {
  }

  lemma StepEnqueuesInOrder(t: Trace, at: TimedOp, last: Instant)
    requires EnqueuedInOrder(t.queue, last) && last <= at.now
    ensures EnqueuedInOrder(Step(t, at).queue, at.now)
  {
    StepOnSorted(t, at);
    hide Step;
    var s, s' := t.queue.sorted, Step(t, at).queue.sorted;
    if s' != s && s' != [] {
      if k: nat :| k < |s| && s' == RemoveAt(s, k) {
        RemovalStaysEarlier(s, k, last);
      } else {
        var x: QueuedEnvelope :| x.metadata.enqueuedAt == at.now && s' == s + [x];
        AppendStaysSorted(s, x, last);
      }
    }
  }

  lemma {:induction false} RunEnqueuesInOrder(q: Queue, ops: seq<TimedOp>)
    requires q.sorted == [] && MonotoneClock(ops)
    ensures EnqueuedInOrder(Run(q, ops).queue, LastInstant(ops))
  {
    if ops != [] {
      var prior := ops[..|ops| - 1];
      RunEnqueuesInOrder(q, prior);
      StepEnqueuesInOrder(Run(q, prior), ops[|ops| - 1], LastInstant(prior));
    }
  }

  /** What has left, followed by what is held, is what was accepted. */
  ghost predicate InOrder(t: Trace, src: Source) {
    Select(src, t.accepted) == Select(src, t.left) + Holding(t.queue, src)
  }

  lemma PushStepKeepsOrder(t: Trace, src: Source, e: WireEnvelope, now: Instant)
    requires InOrder(t, src) && KeepsOrder(t.queue.comparer, src) && !t.queue.Full()
    ensures InOrder(Trace(AfterPush(t.queue, e, now), t.accepted + [e], t.left), src)
  {
    PushAppends(t.queue, src, e, now);
    SelectConcat(src, t.accepted, [e]);
  }

  lemma PopStepKeepsOrder(t: Trace, src: Source, now: Instant)
    requires InOrder(t, src) && KeepsOrder(t.queue.comparer, src)
    requires t.queue.Classified() && TimeSorted(t.queue.sorted) && AfterPop(t.queue, now).0.Some?
    ensures var (r, q) := AfterPop(t.queue, now); InOrder(Trace(q, t.accepted, t.left + [r.value]), src)
  {
    PopTakesFirst(t.queue, src, now);
    SelectConcat(src, t.left, [AfterPop(t.queue, now).0.value]);
    hide AfterPop, Select, Holding, KeepsOrder, TimeSorted;
  }

  lemma DrainStepKeepsOrder(t: Trace, src: Source)
    requires InOrder(t, src) && KeepsOrder(t.queue.comparer, src) && t.queue.Valid() && TimeSorted(t.queue.sorted)
    ensures var drained := t.queue.streamFifo + DrainedPriority(t.queue);
            InOrder(Trace(AfterClear(t.queue), t.accepted, t.left + drained), src)
  {
    DrainTakesAllInOrder(t.queue, src);
    SelectConcat(src, t.left, t.queue.streamFifo + DrainedPriority(t.queue));
  }

  lemma StepKeepsOrder(t: Trace, at: TimedOp, src: Source)
    requires t.queue.Valid() && TimeSorted(t.queue.sorted) && KeepsOrder(t.queue.comparer, src)
    requires InOrder(t, src)
    ensures InOrder(Step(t, at), src)
  {
    hide AfterPop, AfterClear, DrainedPriority, InOrder;
    match at.op
    case Push(e) =>
      if !t.queue.Full() { PushStepKeepsOrder(t, src, e, at.now); }
    case Pop =>
      PopKeepsValid(t.queue, at.now);
      if t.queue.total > 0 { PopStepKeepsOrder(t, src, at.now); }
    case Drain =>
      DrainStepKeepsOrder(t, src);
  }

  lemma EmptyQueueIs(capacity: nat, max: nat, cmp: Option<Comparer>, src: Source)
    ensures var q := EmptyQueue(capacity, max, cmp);
            q.Valid() && q.sorted == [] && q.comparer == cmp && InOrder(Run(q, []), src)
  {
    SelectNothing(src);
  }

  lemma PriorOfClock(ops: seq<TimedOp>)
    requires MonotoneClock(ops) && ops != []
    ensures MonotoneClock(ops[..|ops| - 1]) && LastInstant(ops[..|ops| - 1]) <= ops[|ops| - 1].now
  {
  }

  lemma EnqueuedIsSorted(q: Queue, now: Instant)
    requires EnqueuedInOrder(q, now)
    ensures TimeSorted(q.sorted)
  {
  }

  lemma RunOneMore(q: Queue, ops: seq<TimedOp>)
    requires ops != []
    ensures Run(q, ops) == Step(Run(q, ops[..|ops| - 1]), ops[|ops| - 1])
  {
  }

  /**
    Over any run with a monotone clock, the stream items, the items of each lane and, under
    either shipped comparer, the items of each priority leave in the order of acceptance:
    what has left, followed by what is still held, is what was accepted.
  */
  lemma {:induction false} EachSourceIsFifo(capacity: nat, max: nat, cmp: Option<Comparer>, ops: seq<TimedOp>,
                                            src: Source)
    requires MonotoneClock(ops) && KeepsOrder(cmp, src)
    ensures InOrder(Run(EmptyQueue(capacity, max, cmp), ops), src)
  {
    hide *;
    var q0 := EmptyQueue(capacity, max, cmp);
    EmptyQueueIs(capacity, max, cmp, src);
    if ops != [] {
      var prior, last := ops[..|ops| - 1], ops[|ops| - 1];
      PriorOfClock(ops);
      EachSourceIsFifo(capacity, max, cmp, prior, src);
      RunKeepsValid(q0, prior);
      RunEnqueuesInOrder(q0, prior);
      EnqueuedIsSorted(Run(q0, prior).queue, LastInstant(prior));
      RunOneMore(q0, ops);
      StepKeepsOrder(Run(q0, prior), last, src);
    }
  }
}
