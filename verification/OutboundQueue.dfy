/**
  The per-destination outbound priority queue: five priority lanes or a pluggable
  comparer, a stream FIFO beside them, and one `total` shared by all of them.

  `Queue` is the queue as a value; the functions on it say what each operation does.
  `OutboundPriorityQueue` is the mutable object, proved against those functions.
  What the operations guarantee over whole runs is proved in the modules that import
  this one.
*/
module OutboundQueue {
  import opened Sequences
  import opened Wrappers
  import opened Wire

  const LANE_COUNT: nat := 5
  const PRIORITY_HEADER_NAME := "dactor.Priority"
  const PRIORITY_NORMAL: Byte := 128

  // ----- Envelope metadata and comparers -----

  datatype Ordering = Less | Equal | Greater

  datatype EnvelopeMetadata = EnvelopeMetadata(priority: Byte, enqueuedAt: Instant)

  datatype QueuedEnvelope = QueuedEnvelope(envelope: WireEnvelope, metadata: EnvelopeMetadata)

  /** A pluggable ordering; `Less` means that the first argument leaves first. */
  type Comparer = (EnvelopeMetadata, EnvelopeMetadata, Instant) -> Ordering

  function CompareInt(a: int, b: int): Ordering {
    if a < b then Less else if a == b then Equal else Greater
  }

  function StrictCompare(a: EnvelopeMetadata, b: EnvelopeMetadata, now: Instant): Ordering {
    CompareInt(a.priority, b.priority)
  }

  predicate Aged(maxAge: nat, m: EnvelopeMetadata, now: Instant) {
    DurationSince(now, m.enqueuedAt) >= maxAge
  }

  function AgingCompare(maxAge: nat, a: EnvelopeMetadata, b: EnvelopeMetadata, now: Instant): Ordering {
    match (Aged(maxAge, a, now), Aged(maxAge, b, now))
    case (true, false) => Less
    case (false, true) => Greater
    case (true, true) => CompareInt(a.enqueuedAt, b.enqueuedAt)
    case (false, false) => CompareInt(a.priority, b.priority)
  }

  const StrictPriorityWireComparer: Comparer :=
    (a: EnvelopeMetadata, b: EnvelopeMetadata, now: Instant) => StrictCompare(a, b, now)

  function AgingWireComparer(maxAge: nat): Comparer {
    (a: EnvelopeMetadata, b: EnvelopeMetadata, now: Instant) => AgingCompare(maxAge, a, b, now)
  }

  // ----- Classifying envelopes -----

  predicate IsStream(e: WireEnvelope) {
    e.sendMode in {Expand, Reduce}
  }

  function ExtractPriority(e: WireEnvelope): Byte {
    if PRIORITY_HEADER_NAME in e.headers && e.headers[PRIORITY_HEADER_NAME] != []
    then e.headers[PRIORITY_HEADER_NAME][0]
    else PRIORITY_NORMAL
  }

  type LaneIndex = k: nat | k < LANE_COUNT

  function LaneIndexFromPriority(priority: Byte): LaneIndex {
    if priority <= 63 then 0
    else if priority <= 127 then 1
    else if priority <= 191 then 2
    else if priority <= 254 then 3
    else 4
  }

  function LaneOf(e: WireEnvelope): LaneIndex {
    LaneIndexFromPriority(ExtractPriority(e))
  }

  // ----- The queue as a value -----

  type LaneQueues = qs: seq<seq<WireEnvelope>> | |qs| == LANE_COUNT witness [[], [], [], [], []]

  function LaneTotal(lanes: LaneQueues): nat {
    |lanes[0]| + |lanes[1]| + |lanes[2]| + |lanes[3]| + |lanes[4]|
  }

  predicate AnyNonEmpty(lanes: LaneQueues) {
    exists k: LaneIndex :: lanes[k] != []
  }

  datatype Queue = Queue(
    lanes: LaneQueues,
    maxConsecutive: nat,
    consecutiveFromLane: nat,
    currentLane: LaneIndex,
    comparer: Option<Comparer>,
    sorted: seq<QueuedEnvelope>,
    streamFifo: seq<WireEnvelope>,
    total: int,
    capacity: nat)
  {
    /** The consistency of the redundant state. */
    ghost predicate Valid() {
      && total == |streamFifo| + LaneTotal(lanes) + |sorted|
      && (capacity > 0 ==> total <= capacity)
      && (comparer.Some? ==> !AnyNonEmpty(lanes))
      && (comparer.None? ==> sorted == [])
      && consecutiveFromLane <= maxConsecutive
      && Classified()
    }

    /** Every envelope is kept where its send mode and priority put it. */
    ghost predicate Classified() {
      && (forall i :: 0 <= i < |streamFifo| ==> IsStream(streamFifo[i]))
      && (forall k: LaneIndex, i :: 0 <= i < |lanes[k]| ==> !IsStream(lanes[k][i]) && LaneOf(lanes[k][i]) == k)
      && (forall i :: 0 <= i < |sorted| ==>
                        && !IsStream(sorted[i].envelope)
                        && sorted[i].metadata.priority == ExtractPriority(sorted[i].envelope))
    }

    predicate HasPriority() {
      if comparer.Some? then sorted != [] else AnyNonEmpty(lanes)
    }

    predicate Full() {
      capacity > 0 && total >= capacity
    }
  }

  function EmptyQueue(capacity: nat, maxConsecutive: nat, comparer: Option<Comparer>): Queue {
    Queue([[], [], [], [], []], maxConsecutive, 0, 0, comparer, [], [], 0, capacity)
  }

  /** The queue after `e` was offered at `now`; a full queue does not change. */
  function AfterPush(q: Queue, e: WireEnvelope, now: Instant): Queue {
    if q.Full() then q
    else if IsStream(e) then q.(streamFifo := q.streamFifo + [e], total := q.total + 1)
    else if q.comparer.Some? then
      var entry := QueuedEnvelope(e, EnvelopeMetadata(ExtractPriority(e), now));
      q.(sorted := q.sorted + [entry], total := q.total + 1)
    else
      var lane := LaneOf(e);
      q.(lanes := q.lanes[lane := q.lanes[lane] + [e]], total := q.total + 1)
  }

  /** The lane `offset` places after `start` in cyclic order. */
  function LaneAt(start: nat, offset: nat): LaneIndex {
    (start + offset) % LANE_COUNT
  }

  /** The first non-empty lane in cyclic order from `start`, passing over `skipped` lanes. */
  function FirstNonEmptyFrom(lanes: LaneQueues, start: nat, skipped: nat := 0): (r: Option<LaneIndex>)
    requires skipped <= LANE_COUNT
    ensures r.None? ==> forall i :: skipped <= i < LANE_COUNT ==> lanes[LaneAt(start, i)] == []
    ensures r.Some? ==>
              && lanes[r.value] != []
              && exists i :: && skipped <= i < LANE_COUNT && r.value == LaneAt(start, i)
                             && forall j :: skipped <= j < i ==> lanes[LaneAt(start, j)] == []
    decreases LANE_COUNT - skipped
  {
    if skipped == LANE_COUNT then None
    else
      var lane := LaneAt(start, skipped);
      if lanes[lane] != [] then Some(lane) else FirstNonEmptyFrom(lanes, start, skipped + 1)
  }

  /** The index the comparer scan settles on after looking at the first `n` entries. */
  function BestIndex(s: seq<QueuedEnvelope>, cmp: Comparer, now: Instant, n: nat): (best: nat)
    requires 1 <= n <= |s|
    ensures best < n
  {
    if n == 1 then 0
    else
      var best := BestIndex(s, cmp, now, n - 1);
      if cmp(s[n - 1].metadata, s[best].metadata, now) == Less then n - 1 else best
  }

  /** Removes the head of `lane`, leaving the fairness fields as given. */
  function ServeLane(q: Queue, lane: LaneIndex, consecutive: nat, current: LaneIndex): (Option<WireEnvelope>, Queue)
    requires q.lanes[lane] != []
  {
    (Some(q.lanes[lane][0]),
     q.(lanes := q.lanes[lane := q.lanes[lane][1..]],
     total := q.total - 1,
     consecutiveFromLane := consecutive,
     currentLane := current))
  }

  /** Where `pop_fair` goes next: the lane it serves and the consecutive count before serving. */
  function FairChoice(lanes: LaneQueues, current: LaneIndex, consecutive: nat, max: nat): (Option<LaneIndex>, nat) {
    if consecutive >= max then (FirstNonEmptyFrom(lanes, current + 1), 0)
    else if lanes[current] == [] then (FirstNonEmptyFrom(lanes, 0), 0)
    else (Some(current), consecutive)
  }

  function AfterPopComparer(q: Queue, now: Instant): (Option<WireEnvelope>, Queue)
    requires q.comparer.Some?
  {
    if q.sorted == [] then (None, q)
    else
      var best := BestIndex(q.sorted, q.comparer.value, now, |q.sorted|);
      (Some(q.sorted[best].envelope), q.(sorted := RemoveAt(q.sorted, best), total := q.total - 1))
  }

  function AfterPopStrict(q: Queue): (Option<WireEnvelope>, Queue) {
    var lane := FirstNonEmptyFrom(q.lanes, 0);
    if lane.None? then (None, q)
    else ServeLane(q, lane.value, q.consecutiveFromLane, q.currentLane)
  }

  function AfterPopFair(q: Queue): (Option<WireEnvelope>, Queue) {
    var (lane, consecutive) := FairChoice(q.lanes, q.currentLane, q.consecutiveFromLane, q.maxConsecutive);
    if lane.None? then (None, q.(consecutiveFromLane := consecutive))
    else ServeLane(q, lane.value, consecutive + 1, lane.value)
  }

  function AfterPopPriority(q: Queue, now: Instant): (Option<WireEnvelope>, Queue) {
    if q.comparer.Some? then AfterPopComparer(q, now)
    else if q.maxConsecutive == 0 then AfterPopStrict(q)
    else AfterPopFair(q)
  }

  /** Whether the next pop takes from the stream FIFO. */
  predicate TakesStream(q: Queue) {
    q.streamFifo != [] && (!q.HasPriority() || q.total % 2 == 0)
  }

  function AfterPop(q: Queue, now: Instant): (Option<WireEnvelope>, Queue) {
    if q.total == 0 then (None, q)
    else if TakesStream(q) then
      (Some(q.streamFifo[0]), q.(streamFifo := q.streamFifo[1..], total := q.total - 1))
    else AfterPopPriority(q, now)
  }

  // ----- Draining -----

  /** The drain order: priority, then enqueue time. */
  predicate DrainsBefore(a: EnvelopeMetadata, b: EnvelopeMetadata) {
    a.priority < b.priority || (a.priority == b.priority && a.enqueuedAt <= b.enqueuedAt)
  }

  function InsertStable(x: QueuedEnvelope, s: seq<QueuedEnvelope>): seq<QueuedEnvelope> {
    if s == [] || DrainsBefore(x.metadata, s[0].metadata) then [x] + s
    else [s[0]] + InsertStable(x, s[1..])
  }

  /** The standard library's stable sort by (priority, enqueue time). */
  function StableSort(s: seq<QueuedEnvelope>): seq<QueuedEnvelope> {
    if s == [] then [] else InsertStable(s[0], StableSort(s[1..]))
  }

  function Envelopes(s: seq<QueuedEnvelope>): (r: seq<WireEnvelope>)
    ensures |r| == |s|
    ensures forall i :: 0 <= i < |s| ==> r[i] == s[i].envelope
  {
    seq(|s|, i requires 0 <= i < |s| => s[i].envelope)
  }

  /** Lanes `from..`, concatenated. */
  function LanesFrom(lanes: LaneQueues, from: nat): seq<WireEnvelope>
    requires from <= LANE_COUNT
    decreases LANE_COUNT - from
  {
    if from == LANE_COUNT then [] else lanes[from] + LanesFrom(lanes, from + 1)
  }

  function DrainedPriority(q: Queue): seq<WireEnvelope> {
    if q.comparer.Some? then Envelopes(StableSort(q.sorted)) else LanesFrom(q.lanes, 0)
  }

  function AfterClear(q: Queue): Queue {
    q.(lanes := [[], [], [], [], []], sorted := [], streamFifo := [], total := 0, consecutiveFromLane := 0)
  }

  // ----- The operations keep the queue consistent -----

  lemma LanesFromNext(lanes: LaneQueues, i: nat)
    requires i < LANE_COUNT
    ensures LanesFrom(lanes, i) == lanes[i] + LanesFrom(lanes, i + 1)
  {
  }

  lemma NoLanesFrom(lanes: LaneQueues)
    ensures LanesFrom(lanes, LANE_COUNT) == []
  {
  }

  lemma PushKeepsValid(q: Queue, e: WireEnvelope, now: Instant)
    requires q.Valid()
    ensures AfterPush(q, e, now).Valid()
  {
    var q' := AfterPush(q, e, now);
    if !q.Full() && !IsStream(e) && q.comparer.None? {
      var lane := LaneOf(e);
      assert LaneTotal(q'.lanes) == LaneTotal(q.lanes) + 1;
    }
  }

  lemma ServeKeepsValid(q: Queue, lane: LaneIndex, consecutive: nat, current: LaneIndex)
    requires q.Valid() && q.comparer.None?
    requires q.lanes[lane] != [] && consecutive <= q.maxConsecutive
    ensures ServeLane(q, lane, consecutive, current).1.Valid()
  {
    var q' := ServeLane(q, lane, consecutive, current).1;
    assert LaneTotal(q'.lanes) == LaneTotal(q.lanes) - 1;
    hide AnyNonEmpty, LaneTotal, IsStream, LaneOf;
  }

  lemma PopComparerKeepsValid(q: Queue, now: Instant)
    requires q.Valid() && q.comparer.Some? && q.sorted != []
    ensures AfterPopComparer(q, now).0.Some? && AfterPopComparer(q, now).1.Valid()
    ensures AfterPopComparer(q, now).1.total == q.total - 1
  {
    hide BestIndex, AnyNonEmpty, LaneTotal, IsStream, ExtractPriority, LaneOf;
    var best := BestIndex(q.sorted, q.comparer.value, now, |q.sorted|);
    assert forall e :: e in RemoveAt(q.sorted, best) ==> e in q.sorted;
  }

  lemma PopPriorityKeepsValid(q: Queue, now: Instant)
    requires q.Valid()
    ensures AfterPopPriority(q, now).1.Valid()
    ensures AfterPopPriority(q, now).0.Some? <==> q.HasPriority()
    ensures AfterPopPriority(q, now).0.Some? ==> AfterPopPriority(q, now).1.total == q.total - 1
  {
    hide FirstNonEmptyFrom, AnyNonEmpty, Queue.Classified, LaneTotal, BestIndex;
    if q.comparer.Some? {
      if q.sorted != [] { PopComparerKeepsValid(q, now); }
    } else if q.maxConsecutive == 0 {
      FirstNonEmptyIsComplete(q.lanes, 0);
      var lane := FirstNonEmptyFrom(q.lanes, 0);
      if lane.Some? { ServeKeepsValid(q, lane.value, q.consecutiveFromLane, q.currentLane); }
    } else {
      FirstNonEmptyIsComplete(q.lanes, 0);
      FirstNonEmptyIsComplete(q.lanes, q.currentLane + 1);
      CurrentIsBusy(q.lanes, q.currentLane);
      var (lane, consecutive) := FairChoice(q.lanes, q.currentLane, q.consecutiveFromLane, q.maxConsecutive);
      if lane.Some? {
        ServeKeepsValid(q, lane.value, consecutive + 1, lane.value);
      } else {
        StartingOverKeepsValid(q, consecutive);
      }
    }
  }

  lemma CurrentIsBusy(lanes: LaneQueues, lane: LaneIndex)
    ensures lanes[lane] != [] ==> AnyNonEmpty(lanes)
  {
  }

  lemma StartingOverKeepsValid(q: Queue, consecutive: nat)
    requires q.Valid() && consecutive <= q.maxConsecutive
    ensures q.(consecutiveFromLane := consecutive).Valid()
  {
    hide AnyNonEmpty, LaneTotal, IsStream, ExtractPriority, LaneOf;
  }

  /** A cyclic scan of all the lanes misses none of them. */
  lemma FirstNonEmptyIsComplete(lanes: LaneQueues, start: nat)
    ensures FirstNonEmptyFrom(lanes, start).Some? <==> AnyNonEmpty(lanes)
  {
    if FirstNonEmptyFrom(lanes, start).None? {
      forall k: LaneIndex ensures lanes[k] == [] {
        PlaceOf(start, k);
      }
    }
    hide FirstNonEmptyFrom;
  }

  lemma PlaceOf(start: nat, k: LaneIndex)
    ensures var i := (k + LANE_COUNT - start % LANE_COUNT) % LANE_COUNT; i < LANE_COUNT && LaneAt(start, i) == k
  {
  }

  /** `pop` returns an envelope exactly when `total` is positive, and takes exactly one. */
  lemma PopKeepsValid(q: Queue, now: Instant)
    requires q.Valid()
    ensures AfterPop(q, now).1.Valid()
    ensures AfterPop(q, now).0.Some? <==> q.total > 0
    ensures AfterPop(q, now).1.total == if q.total > 0 then q.total - 1 else 0
    ensures q.total <= 0 ==> AfterPop(q, now).1 == q
  {
    if q.total > 0 && !TakesStream(q) {
      if !q.HasPriority() {
        assert false;
      }
      PopPriorityKeepsValid(q, now);
    }
  }

  lemma ClearKeepsValid(q: Queue)
    requires q.Valid()
    ensures AfterClear(q).Valid()
  {
    assert LaneTotal(AfterClear(q).lanes) == 0;
  }

  // ----- The mutable queue -----

  class OutboundPriorityQueue {
    const lanes: array<seq<WireEnvelope>>
    const maxConsecutive: nat
    var consecutiveFromLane: nat
    var currentLane: LaneIndex
    const comparer: Option<Comparer>
    var sorted: seq<QueuedEnvelope>
    var streamFifo: seq<WireEnvelope>
    var total: nat
    const capacity: nat

    ghost function State(): Queue
      reads this, lanes
      requires lanes.Length == LANE_COUNT
    {
      Queue(lanes[..], maxConsecutive, consecutiveFromLane, currentLane, comparer, sorted, streamFifo, total, capacity)
    }

    ghost predicate Valid()
      reads this, lanes
    {
      lanes.Length == LANE_COUNT && State().Valid()
    }

    constructor New()
      ensures Valid() && fresh(lanes)
      ensures State() == EmptyQueue(0, 0, None)
    {
      lanes := new seq<WireEnvelope>[LANE_COUNT](_ => []);
      maxConsecutive, consecutiveFromLane, currentLane := 0, 0, 0;
      comparer, sorted, streamFifo, total, capacity := None, [], [], 0, 0;
    }

    constructor WithConfig(capacity: nat, maxConsecutive: nat)
      ensures Valid() && fresh(lanes)
      ensures State() == EmptyQueue(capacity, maxConsecutive, None)
    {
      lanes := new seq<WireEnvelope>[LANE_COUNT](_ => []);
      this.maxConsecutive, consecutiveFromLane, currentLane := maxConsecutive, 0, 0;
      comparer, sorted, streamFifo, total, this.capacity := None, [], [], 0, capacity;
    }

    constructor WithComparer(comparer: Comparer, capacity: nat)
      ensures Valid() && fresh(lanes)
      ensures State() == EmptyQueue(capacity, 0, Some(comparer))
    {
      lanes := new seq<WireEnvelope>[LANE_COUNT](_ => []);
      maxConsecutive, consecutiveFromLane, currentLane := 0, 0, 0;
      this.comparer, sorted, streamFifo, total, this.capacity := Some(comparer), [], [], 0, capacity;
    }

    method Push(e: WireEnvelope, now: Instant) returns (r: Result<(), WireEnvelope>)
      requires Valid()
      modifies this, lanes
      ensures Valid() && State() == AfterPush(old(State()), e, now)
      ensures r == if old(State()).Full() then Err(e) else Ok(())
    {
      PushKeepsValid(State(), e, now);
      if capacity > 0 && total >= capacity {
        return Err(e);
      }
      if IsStream(e) {
        streamFifo := streamFifo + [e];
      } else if comparer.Some? {
        var metadata := EnvelopeMetadata(ExtractPriority(e), now);
        sorted := sorted + [QueuedEnvelope(e, metadata)];
      } else {
        var lane := LaneOf(e);
        lanes[lane] := lanes[lane] + [e];
      }
      total := total + 1;
      return Ok(());
    }

    method Pop(now: Instant) returns (r: Option<WireEnvelope>)
      requires Valid()
      modifies this, lanes
      ensures Valid() && (r, State()) == AfterPop(old(State()), now)
      ensures r.Some? <==> old(total) > 0
    {
      PopKeepsValid(State(), now);
      PopPriorityKeepsValid(State(), now);
      if total == 0 {
        return None;
      }
      var hasStream := streamFifo != [];
      var hasPriority := HasPriority();
      if hasStream && !hasPriority {
        r := PopStream();
        return;
      }
      if !hasStream && hasPriority {
        r := PopPriority(now);
        return;
      }
      // Both sources have items, so the first attempt succeeds and needs no fallback.
      if total % 2 == 0 {
        r := PopStream();
      } else {
        r := PopPriority(now);
      }
    }

    method HasPriority() returns (found: bool)
      requires Valid()
      ensures found == State().HasPriority()
    {
      if comparer.Some? {
        return sorted != [];
      }
      found := false;
      for i := 0 to lanes.Length
        invariant found <==> exists k: LaneIndex :: k < i && lanes[..][k] != []
      {
        if lanes[i] != [] {
          found := true;
        }
      }
    }

    method PopStream() returns (r: Option<WireEnvelope>)
      requires Valid()
      modifies this
      ensures Valid()
      ensures old(streamFifo) == [] ==> r.None? && State() == old(State())
      ensures old(streamFifo) != [] ==>
                && r == Some(old(streamFifo[0]))
                && old(total) > 0
                && State() == old(State()).(streamFifo := old(streamFifo[1..]), total := old(total) - 1)
    {
      if streamFifo == [] {
        return None;
      }
      r := Some(streamFifo[0]);
      streamFifo := streamFifo[1..];
      total := total - 1;
    }

    method PopPriority(now: Instant) returns (r: Option<WireEnvelope>)
      requires Valid()
      modifies this, lanes
      ensures Valid() && (r, State()) == AfterPopPriority(old(State()), now)
    {
      if comparer.Some? {
        r := PopComparer(now);
      } else if maxConsecutive == 0 {
        r := PopStrict();
      } else {
        r := PopFair();
      }
    }

    method PopComparer(now: Instant) returns (r: Option<WireEnvelope>)
      requires Valid() && comparer.Some?
      modifies this
      ensures Valid() && (r, State()) == AfterPopComparer(old(State()), now)
    {
      PopPriorityKeepsValid(State(), now);
      if sorted == [] {
        return None;
      }
      var best := ScanForBest(now);
      r := Some(sorted[best].envelope);
      sorted := RemoveAt(sorted, best);
      total := total - 1;
    }

    /** The loop of `pop_comparer`: an entry replaces the best so far only if it comes before it. */
    method ScanForBest(now: Instant) returns (best: nat)
      requires comparer.Some? && sorted != []
      ensures best < |sorted| && best == BestIndex(sorted, comparer.value, now, |sorted|)
    {
      best := 0;
      for i := 1 to |sorted|
        invariant best == BestIndex(sorted, comparer.value, now, i)
      {
        if comparer.value(sorted[i].metadata, sorted[best].metadata, now) == Less {
          best := i;
        }
      }
    }

    method PopStrict() returns (r: Option<WireEnvelope>)
      requires Valid() && comparer.None? && maxConsecutive == 0
      modifies this, lanes
      ensures Valid() && (r, State()) == AfterPopStrict(old(State()))
    {
      ghost var q := State();
      PopPriorityKeepsValid(q, 0);
      for i := 0 to lanes.Length
        invariant State() == q
        invariant FirstNonEmptyFrom(q.lanes, 0) == FirstNonEmptyFrom(q.lanes, 0, i)
      {
        if lanes[i] != [] {
          assert LaneAt(0, i) == i;
          r := Some(lanes[i][0]);
          lanes[i] := lanes[i][1..];
          total := total - 1;
          assert lanes[..] == q.lanes[i := q.lanes[i][1..]];
          return;
        }
      }
      return None;
    }

    method PopFair() returns (r: Option<WireEnvelope>)
      requires Valid() && comparer.None? && maxConsecutive > 0
      modifies this, lanes
      ensures Valid() && (r, State()) == AfterPopFair(old(State()))
    {
      ghost var q := State();
      PopPriorityKeepsValid(q, 0);
      var found := ChooseFairLane();
      if !found {
        return None;
      }
      r := TakeFromCurrentLane(q);
    }

    /** The first lines of `pop_fair`: move `currentLane` on when its turn is over. */
    method ChooseFairLane() returns (found: bool)
      requires lanes.Length == LANE_COUNT
      modifies this`currentLane, this`consecutiveFromLane
      ensures var (lane, consecutive) :=
                FairChoice(lanes[..], old(currentLane), old(consecutiveFromLane), maxConsecutive);
              && consecutiveFromLane == consecutive
              && found == lane.Some?
              && currentLane == if found then lane.value else old(currentLane)
    {
      if consecutiveFromLane >= maxConsecutive {
        consecutiveFromLane := 0;
        var next := NextNonEmptyLane(currentLane + 1);
        if next.None? {
          return false;
        }
        currentLane := next.value;
      } else if lanes[currentLane] == [] {
        consecutiveFromLane := 0;
        var next := NextNonEmptyLane(0);
        if next.None? {
          return false;
        }
        currentLane := next.value;
      }
      return true;
    }

    /** The last lines of `pop_fair`: serve `currentLane`, which is not empty. */
    method TakeFromCurrentLane(ghost q: Queue) returns (r: Option<WireEnvelope>)
      requires q.Valid() && lanes.Length == LANE_COUNT && lanes[currentLane] != []
      requires State() == q.(consecutiveFromLane := consecutiveFromLane, currentLane := currentLane)
      requires q.total > 0
      modifies this, lanes
      ensures (r, State()) == ServeLane(q, old(currentLane), old(consecutiveFromLane) + 1, old(currentLane))
    {
      r := Some(lanes[currentLane][0]);
      lanes[currentLane] := lanes[currentLane][1..];
      total := total - 1;
      consecutiveFromLane := consecutiveFromLane + 1;
    }

    method NextNonEmptyLane(start: nat) returns (r: Option<LaneIndex>)
      requires lanes.Length == LANE_COUNT
      ensures r == FirstNonEmptyFrom(lanes[..], start)
    {
      for i := 0 to LANE_COUNT
        invariant FirstNonEmptyFrom(lanes[..], start) == FirstNonEmptyFrom(lanes[..], start, i)
      {
        var idx: LaneIndex := (start + i) % LANE_COUNT;
        if lanes[idx] != [] {
          return Some(idx);
        }
      }
      return None;
    }

    method DrainOrdered() returns (result: seq<WireEnvelope>)
      requires Valid()
      modifies this, lanes
      ensures Valid() && State() == AfterClear(old(State()))
      ensures result == old(streamFifo) + DrainedPriority(old(State()))
    {
      ClearKeepsValid(State());
      result := streamFifo;
      streamFifo := [];
      if comparer.Some? {
        result := result + Envelopes(StableSort(sorted));
        sorted := [];
      } else {
        var drained := DrainLanes();
        result := result + drained;
      }
      total := 0;
      consecutiveFromLane := 0;
    }

    method DrainLanes() returns (drained: seq<WireEnvelope>)
      requires lanes.Length == LANE_COUNT
      modifies lanes
      ensures drained == LanesFrom(old(lanes[..]), 0)
      ensures lanes[..] == [[], [], [], [], []]
    {
      hide LanesFrom;
      drained := [];
      ConcatNothing(LanesFrom(lanes[..], 0));
      for i := 0 to lanes.Length
        invariant drained + LanesFrom(old(lanes[..]), i) == LanesFrom(old(lanes[..]), 0)
        invariant forall k :: 0 <= k < i ==> lanes[k] == []
        invariant forall k :: i <= k < LANE_COUNT ==> lanes[k] == old(lanes[k])
      {
        LanesFromNext(old(lanes[..]), i);
        ConcatAssociates(drained, lanes[i], LanesFrom(old(lanes[..]), i + 1));
        drained := drained + lanes[i];
        lanes[i] := [];
      }
      NoLanesFrom(old(lanes[..]));
      ConcatNothing(drained);
    }

    method Clear()
      requires Valid()
      modifies this, lanes
      ensures Valid() && State() == AfterClear(old(State()))
    {
      ClearKeepsValid(State());
      for i := 0 to lanes.Length
        invariant forall k :: 0 <= k < i ==> lanes[k] == []
        invariant State() == old(State()).(lanes := lanes[..])
      {
        lanes[i] := [];
      }
      sorted := [];
      streamFifo := [];
      total := 0;
      consecutiveFromLane := 0;
      assert lanes[..] == [[], [], [], [], []];
    }
  }
}
