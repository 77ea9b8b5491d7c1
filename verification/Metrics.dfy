/**
  Per-actor metrics: all-time counters and a deque of time buckets that approximates a
  sliding window. The windowed figures are shown to be exact for one suffix of the recorded
  events, whose start is off by less than one bucket.
*/
module Metrics {
  import opened Wire

  datatype MetricsBucket = MetricsBucket(
    timestamp: Instant,
    messageCount: nat,
    errorCount: nat,
    latencies: seq<nat>,
    messageCountsByType: map<string, nat>)

  datatype Event = Message(messageType: string) | Error | Latency(duration: nat)

  function NewBucket(timestamp: Instant): MetricsBucket {
    MetricsBucket(timestamp, 0, 0, [], map[])
  }

  function CountOf(counts: map<string, nat>, messageType: string): nat {
    if messageType in counts then counts[messageType] else 0
  }

  function AddToBucket(b: MetricsBucket, e: Event): MetricsBucket {
    match e
    case Message(t) =>
      var counts := b.messageCountsByType[t := CountOf(b.messageCountsByType, t) + 1];
      b.(messageCount := b.messageCount + 1, messageCountsByType := counts)
    case Error => b.(errorCount := b.errorCount + 1)
    case Latency(d) => b.(latencies := b.latencies + [d])
  }

  predicate Expired(b: MetricsBucket, window: nat, now: Instant) {
    DurationSince(now, b.timestamp) > window
  }

  function Evicted(buckets: seq<MetricsBucket>, window: nat, now: Instant): seq<MetricsBucket> {
    if buckets != [] && Expired(buckets[0], window, now) then Evicted(buckets[1..], window, now) else buckets
  }

  /** The buckets with the current one last; `evictAt` is the clock reading of the eviction. */
  function WithCurrent(buckets: seq<MetricsBucket>, bucketDuration: nat, window: nat, now: Instant, evictAt: Instant)
    : (r: seq<MetricsBucket>)
    ensures r != []
  {
    var kept := Evicted(buckets, window, evictAt);
    if kept == [] || DurationSince(now, kept[|kept| - 1].timestamp) >= bucketDuration
    then kept + [NewBucket(now)]
    else kept
  }

  function Recorded(buckets: seq<MetricsBucket>, bucketDuration: nat, window: nat, e: Event, now: Instant,
                    evictAt: Instant)
    : seq<MetricsBucket>
  {
    var current := WithCurrent(buckets, bucketDuration, window, now, evictAt);
    current[|current| - 1 := AddToBucket(current[|current| - 1], e)]
  }

  // ----- Windowed figures -----

  function ActiveBuckets(buckets: seq<MetricsBucket>, window: nat, now: Instant): seq<MetricsBucket> {
    if buckets == [] then []
    else (if Expired(buckets[0], window, now) then [] else [buckets[0]]) + ActiveBuckets(buckets[1..], window, now)
  }

  function TotalMessages(buckets: seq<MetricsBucket>): nat {
    if buckets == [] then 0 else buckets[0].messageCount + TotalMessages(buckets[1..])
  }

  function TotalErrors(buckets: seq<MetricsBucket>): nat {
    if buckets == [] then 0 else buckets[0].errorCount + TotalErrors(buckets[1..])
  }

  function AllLatencies(buckets: seq<MetricsBucket>): seq<nat> {
    if buckets == [] then [] else buckets[0].latencies + AllLatencies(buckets[1..])
  }

  function TotalOfType(buckets: seq<MetricsBucket>, messageType: string): nat {
    if buckets == [] then 0
    else CountOf(buckets[0].messageCountsByType, messageType) + TotalOfType(buckets[1..], messageType)
  }

  datatype Snapshot = Snapshot(
    messageCount: nat,
    errorCount: nat,
    windowedMessages: nat,
    windowedErrors: nat,
    messageCountsByType: map<string, nat>,
    latencies: seq<nat>)

  /** The four clock readings of a snapshot. */
  datatype Readings = Readings(messagesAt: Instant, errorsAt: Instant, typesAt: Instant, latenciesAt: Instant)

  /** The windowed figures of `s` are those of the buckets that are active at each reading. */
  ghost predicate Shows(s: Snapshot, buckets: seq<MetricsBucket>, window: nat, r: Readings) {
    && s.windowedMessages == TotalMessages(ActiveBuckets(buckets, window, r.messagesAt))
    && s.windowedErrors == TotalErrors(ActiveBuckets(buckets, window, r.errorsAt))
    && (forall t :: CountOf(s.messageCountsByType, t) == TotalOfType(ActiveBuckets(buckets, window, r.typesAt), t))
    && s.latencies == AllLatencies(ActiveBuckets(buckets, window, r.latenciesAt))
  }

  // ----- The handle -----

  class ActorMetricsHandle {
    var messageCount: nat
    var errorCount: nat
    var buckets: seq<MetricsBucket>
    const window: nat
    const bucketDuration: nat

    constructor (window: nat, bucketDuration: nat)
      ensures this.window == window && this.bucketDuration == bucketDuration
      ensures messageCount == 0 && errorCount == 0 && buckets == []
    {
      this.window, this.bucketDuration := window, bucketDuration;
      messageCount, errorCount, buckets := 0, 0, [];
    }

    method EvictExpired(now: Instant)
      modifies this`buckets
      ensures buckets == Evicted(old(buckets), window, now)
    {
      while buckets != [] && Expired(buckets[0], window, now)
        invariant Evicted(buckets, window, now) == Evicted(old(buckets), window, now)
        decreases |buckets|
      {
        buckets := buckets[1..];
      }
    }

    /** Makes sure that the last bucket is the current one. */
    method CurrentBucket(now: Instant, evictAt: Instant)
      modifies this`buckets
      ensures buckets == WithCurrent(old(buckets), bucketDuration, window, now, evictAt)
    {
      EvictExpired(evictAt);
      var needNew := buckets == [] || DurationSince(now, buckets[|buckets| - 1].timestamp) >= bucketDuration;
      if needNew {
        buckets := buckets + [NewBucket(now)];
      }
    }

    method RecordMessage(messageType: string, now: Instant, evictAt: Instant)
      modifies this
      ensures buckets == Recorded(old(buckets), bucketDuration, window, Message(messageType), now, evictAt)
      ensures messageCount == old(messageCount) + 1 && errorCount == old(errorCount)
    {
      messageCount := messageCount + 1;
      CurrentBucket(now, evictAt);
      var bucket := buckets[|buckets| - 1];
      var count := CountOf(bucket.messageCountsByType, messageType);
      var counts := bucket.messageCountsByType[messageType := count + 1];
      bucket := bucket.(messageCount := bucket.messageCount + 1, messageCountsByType := counts);
      buckets := buckets[|buckets| - 1 := bucket];
    }

    method RecordError(now: Instant, evictAt: Instant)
      modifies this
      ensures buckets == Recorded(old(buckets), bucketDuration, window, Error, now, evictAt)
      ensures messageCount == old(messageCount) && errorCount == old(errorCount) + 1
    {
      errorCount := errorCount + 1;
      CurrentBucket(now, evictAt);
      var bucket := buckets[|buckets| - 1];
      buckets := buckets[|buckets| - 1 := bucket.(errorCount := bucket.errorCount + 1)];
    }

    method RecordLatency(latency: nat, now: Instant, evictAt: Instant)
      modifies this
      ensures buckets == Recorded(old(buckets), bucketDuration, window, Latency(latency), now, evictAt)
      ensures messageCount == old(messageCount) && errorCount == old(errorCount)
    {
      CurrentBucket(now, evictAt);
      var bucket := buckets[|buckets| - 1];
      buckets := buckets[|buckets| - 1 := bucket.(latencies := bucket.latencies + [latency])];
    }

    /** The four windowed figures are read one after the other, each against the clock at its own instant. */
    method TakeSnapshot(r: Readings) returns (s: Snapshot)
      ensures s.messageCount == messageCount && s.errorCount == errorCount
      ensures Shows(s, buckets, window, r)
    {
      var active := ActiveBuckets(buckets, window, r.typesAt);
      var byType: map<string, nat> := map[];
      for i := 0 to |active|
        invariant forall t :: CountOf(byType, t) + TotalOfType(active[i..], t) == TotalOfType(active, t)
      {
        assert active[i..][1..] == active[i + 1..];
        byType := MergeCounts(byType, active[i].messageCountsByType);
      }
      s := Snapshot(messageCount, errorCount,
                    TotalMessages(ActiveBuckets(buckets, window, r.messagesAt)),
                    TotalErrors(ActiveBuckets(buckets, window, r.errorsAt)),
                    byType, AllLatencies(ActiveBuckets(buckets, window, r.latenciesAt)));
    }
  }

  /** Adds every count of `more` to `counts`, key by key. */
  method MergeCounts(counts: map<string, nat>, more: map<string, nat>) returns (merged: map<string, nat>)
    ensures forall t :: CountOf(merged, t) == CountOf(counts, t) + CountOf(more, t)
  {
    merged := counts;
    var keys := more.Keys;
    while keys != {}
      invariant keys <= more.Keys
      invariant forall t :: CountOf(merged, t) == CountOf(counts, t) + if t in keys then 0 else CountOf(more, t)
      decreases |keys|
    {
      var k :| k in keys;
      merged := merged[k := CountOf(merged, k) + more[k]];
      keys := keys - {k};
    }
  }
}

/** The windowed figures of any run of recordings, measured against the recorded history. */
module MetricsWindow {
  import Sequences
  import opened Numbers
  import opened Wire
  import opened Metrics

  datatype Recording = Recording(event: Event, now: Instant, evictAt: Instant)

  /** Clock readings never decrease: within a recording, and from one to the next. */
  predicate MonotoneClock(history: seq<Recording>) {
    && (forall i :: 0 <= i < |history| ==> history[i].now <= history[i].evictAt)
    && (forall i, j :: 0 <= i < j < |history| ==> history[i].evictAt <= history[j].now)
  }

  function Buckets(history: seq<Recording>, bucketDuration: nat, window: nat): seq<MetricsBucket> {
    if history == [] then []
    else
      var last := history[|history| - 1];
      Recorded(Buckets(history[..|history| - 1], bucketDuration, window), bucketDuration, window,
               last.event, last.now, last.evictAt)
  }

  // ----- Exact figures of a stretch of history -----

  function Messages(h: seq<Recording>): nat {
    if h == [] then 0 else Messages(h[..|h| - 1]) + if h[|h| - 1].event.Message? then 1 else 0
  }

  function Errors(h: seq<Recording>): nat {
    if h == [] then 0 else Errors(h[..|h| - 1]) + if h[|h| - 1].event.Error? then 1 else 0
  }

  function OfType(h: seq<Recording>, messageType: string): nat {
    if h == [] then 0
    else OfType(h[..|h| - 1], messageType) + if h[|h| - 1].event == Message(messageType) then 1 else 0
  }

  function Latencies(h: seq<Recording>): seq<nat> {
    if h == [] then []
    else Latencies(h[..|h| - 1]) + if h[|h| - 1].event.Latency? then [h[|h| - 1].event.duration] else []
  }

  /** The figures of `b` are those of the recordings `h`. */
  ghost predicate Summarizes(b: MetricsBucket, h: seq<Recording>) {
    && b.messageCount == Messages(h)
    && b.errorCount == Errors(h)
    && b.latencies == Latencies(h)
    && forall t :: CountOf(b.messageCountsByType, t) == OfType(h, t)
  }

  lemma {:induction false} FiguresConcat(a: seq<Recording>, b: seq<Recording>, t: string)
    ensures Messages(a + b) == Messages(a) + Messages(b)
    ensures Errors(a + b) == Errors(a) + Errors(b)
    ensures OfType(a + b, t) == OfType(a, t) + OfType(b, t)
    ensures Latencies(a + b) == Latencies(a) + Latencies(b)
  {
    if b == [] {
      assert a + b == a;
    } else {
      FiguresConcat(a, b[..|b| - 1], t);
      assert (a + b)[..|a + b| - 1] == a + b[..|b| - 1];
    }
  }

  // ----- Buckets cover a suffix of the history, none of them empty -----

  /** Bucket i summarizes `history[starts[i]..EndOf(i)]`. */
  function EndOf(starts: seq<nat>, n: nat, i: nat): nat
    requires i < |starts|
  {
    if i + 1 < |starts| then starts[i + 1] else n
  }

  /** `e` was recorded less than a bucket after `timestamp`, or right at it. */
  predicate WithinBucket(timestamp: Instant, e: Recording, bucketDuration: nat) {
    timestamp <= e.now && (e.now == timestamp || e.now < timestamp + bucketDuration)
  }

  ghost predicate BucketCovers(b: MetricsBucket, h: seq<Recording>, from: nat, to: nat, bucketDuration: nat) {
    && from < to <= |h|
    && Summarizes(b, h[from..to])
    && forall k :: from <= k < to ==> WithinBucket(b.timestamp, h[k], bucketDuration)
  }

  ghost predicate Covers(buckets: seq<MetricsBucket>, starts: seq<nat>, h: seq<Recording>, bucketDuration: nat) {
    && |starts| == |buckets|
    && forall i :: 0 <= i < |buckets| ==>
                     BucketCovers(buckets[i], h, starts[i], EndOf(starts, |h|, i), bucketDuration)
  }

  /** Timestamps are at least a bucket apart and not after `now`. */
  ghost predicate Spaced(buckets: seq<MetricsBucket>, bucketDuration: nat, now: Instant) {
    && (forall i, j :: 0 <= i < j < |buckets| ==> buckets[i].timestamp + bucketDuration <= buckets[j].timestamp)
    && (forall i :: 0 <= i < |buckets| ==> buckets[i].timestamp <= now)
  }

  /** What precedes the buckets is older than the window less one bucket. */
  ghost predicate Forgotten(h: seq<Recording>, upTo: nat, bucketDuration: nat, window: nat, now: Instant)
    requires upTo <= |h|
  {
    forall k :: 0 <= k < upTo ==> now + bucketDuration > window + h[k].now
  }

  function FirstKept(starts: seq<nat>, n: nat): nat {
    if starts == [] then n else starts[0]
  }

  ghost predicate Inv(buckets: seq<MetricsBucket>, starts: seq<nat>, h: seq<Recording>, bucketDuration: nat,
                      window: nat, now: Instant, clock: Instant) {
    && Covers(buckets, starts, h, bucketDuration)
    && Spaced(buckets, bucketDuration, now)
    && FirstKept(starts, |h|) <= |h|
    && Forgotten(h, FirstKept(starts, |h|), bucketDuration, window, clock)
  }

  lemma CoveredBucket(buckets: seq<MetricsBucket>, starts: seq<nat>, h: seq<Recording>, bucketDuration: nat, i: nat)
    requires Covers(buckets, starts, h, bucketDuration) && i < |buckets|
    ensures |starts| == |buckets|
    ensures BucketCovers(buckets[i], h, starts[i], EndOf(starts, |h|, i), bucketDuration)
  {
    hide BucketCovers;
  }

  lemma CoversTail(buckets: seq<MetricsBucket>, starts: seq<nat>, h: seq<Recording>, bucketDuration: nat)
    requires Covers(buckets, starts, h, bucketDuration) && buckets != []
    ensures |starts| == |buckets| && Covers(buckets[1..], starts[1..], h, bucketDuration)
  {
    hide BucketCovers;
    forall i | 0 <= i < |buckets[1..]|
      ensures BucketCovers(buckets[1..][i], h, starts[1..][i], EndOf(starts[1..], |h|, i), bucketDuration)
    {
      assert BucketCovers(buckets[i + 1], h, starts[i + 1], EndOf(starts, |h|, i + 1), bucketDuration);
    }
  }

  lemma SpacedTail(buckets: seq<MetricsBucket>, bucketDuration: nat, now: Instant)
    requires Spaced(buckets, bucketDuration, now) && buckets != []
    ensures Spaced(buckets[1..], bucketDuration, now)
  {
  }

  /** What an expired bucket covers is older than the window less one bucket, like everything before it. */
  lemma BucketIsOld(b: MetricsBucket, h: seq<Recording>, from: nat, to: nat, bucketDuration: nat, window: nat,
                    now: Instant)
    requires BucketCovers(b, h, from, to, bucketDuration) && Expired(b, window, now)
    requires Forgotten(h, from, bucketDuration, window, now)
    ensures Forgotten(h, to, bucketDuration, window, now)
  {
    hide Summarizes;
    forall k | 0 <= k < to ensures now + bucketDuration > window + h[k].now {
      if k >= from { assert WithinBucket(b.timestamp, h[k], bucketDuration); }
    }
  }

  lemma ForgottenLater(h: seq<Recording>, upTo: nat, bucketDuration: nat, window: nat, before: Instant, now: Instant)
    requires upTo <= |h| && Forgotten(h, upTo, bucketDuration, window, before) && before <= now
    ensures Forgotten(h, upTo, bucketDuration, window, now)
  {
  }

  lemma RangeInHistory(b: MetricsBucket, h: seq<Recording>, from: nat, to: nat, bucketDuration: nat)
    requires BucketCovers(b, h, from, to, bucketDuration)
    ensures from <= to <= |h|
  {
  }

  /** The oldest bucket goes once it has expired. */
  lemma EvictOneKeepsInv(buckets: seq<MetricsBucket>, starts: seq<nat>, h: seq<Recording>, bucketDuration: nat,
                         window: nat, now: Instant, before: Instant, clock: Instant)
    requires Inv(buckets, starts, h, bucketDuration, window, now, before) && before <= clock
    requires buckets != [] && Expired(buckets[0], window, clock)
    ensures |starts| == |buckets| && Inv(buckets[1..], starts[1..], h, bucketDuration, window, now, clock)
  {
    hide Covers, Spaced, Forgotten, BucketCovers, Expired;
    CoversTail(buckets, starts, h, bucketDuration);
    SpacedTail(buckets, bucketDuration, now);
    CoveredBucket(buckets, starts, h, bucketDuration, 0);
    ForgottenLater(h, starts[0], bucketDuration, window, before, clock);
    RangeInHistory(buckets[0], h, starts[0], EndOf(starts, |h|, 0), bucketDuration);
    BucketIsOld(buckets[0], h, starts[0], EndOf(starts, |h|, 0), bucketDuration, window, clock);
    assert FirstKept(starts[1..], |h|) == EndOf(starts, |h|, 0);
  }

  lemma {:induction false} EvictKeepsInv(buckets: seq<MetricsBucket>, starts: seq<nat>, h: seq<Recording>,
                                         bucketDuration: nat, window: nat, now: Instant, before: Instant,
                                         clock: Instant)
    returns (starts': seq<nat>)
    requires Inv(buckets, starts, h, bucketDuration, window, now, before) && before <= clock
    ensures Inv(Evicted(buckets, window, clock), starts', h, bucketDuration, window, now, clock)
    decreases |buckets|
  {
    if buckets != [] && Expired(buckets[0], window, clock) {
      EvictOneKeepsInv(buckets, starts, h, bucketDuration, window, now, before, clock);
      hide Inv, Expired;
      starts' := EvictKeepsInv(buckets[1..], starts[1..], h, bucketDuration, window, now, clock, clock);
    } else {
      starts' := starts;
      hide Covers, Spaced;
    }
  }

  lemma SummaryGrows(b: MetricsBucket, g: seq<Recording>, r: Recording)
    requires Summarizes(b, g)
    ensures Summarizes(AddToBucket(b, r.event), g + [r])
  {
    assert (g + [r])[..|g + [r]| - 1] == g;
  }

  lemma CoversLongerHistory(b: MetricsBucket, h: seq<Recording>, r: Recording, from: nat, to: nat, bucketDuration: nat)
    requires BucketCovers(b, h, from, to, bucketDuration)
    ensures BucketCovers(b, h + [r], from, to, bucketDuration)
  {
    assert (h + [r])[from..to] == h[from..to];
  }

  lemma CoversOneMore(b: MetricsBucket, h: seq<Recording>, r: Recording, from: nat, bucketDuration: nat)
    requires BucketCovers(b, h, from, |h|, bucketDuration) && WithinBucket(b.timestamp, r, bucketDuration)
    ensures BucketCovers(AddToBucket(b, r.event), h + [r], from, |h + [r]|, bucketDuration)
  {
    SummaryGrows(b, h[from..|h|], r);
    hide Summarizes;
    assert (h + [r])[from..|h + [r]|] == h[from..|h|] + [r];
    assert AddToBucket(b, r.event).timestamp == b.timestamp;
    hide AddToBucket, WithinBucket;
  }

  lemma JoinLastCovers(buckets: seq<MetricsBucket>, starts: seq<nat>, h: seq<Recording>, r: Recording,
                       bucketDuration: nat)
    requires Covers(buckets, starts, h, bucketDuration) && buckets != []
    requires WithinBucket(buckets[|buckets| - 1].timestamp, r, bucketDuration)
    ensures Covers(buckets[|buckets| - 1 := AddToBucket(buckets[|buckets| - 1], r.event)], starts, h + [r],
                   bucketDuration)
  {
    var n := |buckets| - 1;
    var joined := buckets[n := AddToBucket(buckets[n], r.event)];
    forall i | 0 <= i < |joined|
      ensures BucketCovers(joined[i], h + [r], starts[i], EndOf(starts, |h + [r]|, i), bucketDuration)
    {
      assert BucketCovers(buckets[i], h, starts[i], EndOf(starts, |h|, i), bucketDuration);
      hide Covers, BucketCovers, Summarizes, AddToBucket, WithinBucket;
      if i < n {
        CoversLongerHistory(buckets[i], h, r, starts[i], EndOf(starts, |h|, i), bucketDuration);
      } else {
        CoversOneMore(buckets[n], h, r, starts[n], bucketDuration);
      }
    }
  }

  /** The recording joins the last bucket. */
  lemma JoinLastKeepsInv(buckets: seq<MetricsBucket>, starts: seq<nat>, h: seq<Recording>, r: Recording,
                         bucketDuration: nat, window: nat, now: Instant)
    requires Inv(buckets, starts, h, bucketDuration, window, now, r.evictAt) && now <= r.now && buckets != []
    requires DurationSince(r.now, buckets[|buckets| - 1].timestamp) < bucketDuration
    ensures Inv(buckets[|buckets| - 1 := AddToBucket(buckets[|buckets| - 1], r.event)], starts, h + [r],
                bucketDuration, window, r.now, r.evictAt)
  {
    JoinLastCovers(buckets, starts, h, r, bucketDuration);
    assert |starts| == |buckets|;
    SpacedJoined(buckets, AddToBucket(buckets[|buckets| - 1], r.event), bucketDuration, now, r.now);
    ForgottenStays(h, r, FirstKept(starts, |h|), bucketDuration, window, r.evictAt);
    hide Covers, Spaced, Forgotten;
  }

  lemma SpacedJoined(buckets: seq<MetricsBucket>, last: MetricsBucket, bucketDuration: nat, before: Instant,
                     now: Instant)
    requires buckets != [] && Spaced(buckets, bucketDuration, before) && before <= now
    requires last.timestamp == buckets[|buckets| - 1].timestamp
    ensures Spaced(buckets[|buckets| - 1 := last], bucketDuration, now)
  {
  }

  lemma SpacedOpened(buckets: seq<MetricsBucket>, last: MetricsBucket, bucketDuration: nat, before: Instant)
    requires Spaced(buckets, bucketDuration, before) && before <= last.timestamp
    requires buckets != [] ==> DurationSince(last.timestamp, buckets[|buckets| - 1].timestamp) >= bucketDuration
    ensures Spaced(buckets + [last], bucketDuration, last.timestamp)
  {
    forall i | 0 <= i < |buckets| ensures buckets[i].timestamp + bucketDuration <= last.timestamp {
      assert i < |buckets| - 1 ==> buckets[i].timestamp + bucketDuration <= buckets[|buckets| - 1].timestamp;
    }
  }

  lemma ForgottenStays(h: seq<Recording>, r: Recording, upTo: nat, bucketDuration: nat, window: nat, now: Instant)
    requires upTo <= |h| && Forgotten(h, upTo, bucketDuration, window, now)
    ensures Forgotten(h + [r], upTo, bucketDuration, window, now)
  {
  }

  lemma OpenBucketCovers(buckets: seq<MetricsBucket>, starts: seq<nat>, h: seq<Recording>, r: Recording,
                         bucketDuration: nat)
    requires Covers(buckets, starts, h, bucketDuration)
    ensures Covers(buckets + [AddToBucket(NewBucket(r.now), r.event)], starts + [|h|], h + [r], bucketDuration)
  {
    var n := |buckets|;
    var b := AddToBucket(NewBucket(r.now), r.event);
    var grown, starts' := buckets + [b], starts + [|h|];
    NewBucketCovers(h, r, bucketDuration);
    hide AddToBucket, Summarizes;
    forall i | 0 <= i < n
      ensures BucketCovers(grown[i], h + [r], starts'[i], EndOf(starts', |h + [r]|, i), bucketDuration)
    {
      assert BucketCovers(buckets[i], h, starts[i], EndOf(starts, |h|, i), bucketDuration);
      CoversLongerHistory(buckets[i], h, r, starts[i], EndOf(starts, |h|, i), bucketDuration);
    }
    hide BucketCovers;
  }

  lemma NewBucketCovers(h: seq<Recording>, r: Recording, bucketDuration: nat)
    ensures BucketCovers(AddToBucket(NewBucket(r.now), r.event), h + [r], |h|, |h + [r]|, bucketDuration)
  {
    SummaryGrows(NewBucket(r.now), [], r);
    hide Summarizes;
    assert (h + [r])[|h|..|h + [r]|] == [] + [r];
  }

  /** The recording opens a bucket of its own. */
  lemma OpenBucketKeepsInv(buckets: seq<MetricsBucket>, starts: seq<nat>, h: seq<Recording>, r: Recording,
                           bucketDuration: nat, window: nat, now: Instant)
    requires Inv(buckets, starts, h, bucketDuration, window, now, r.evictAt) && now <= r.now
    requires buckets != [] ==> DurationSince(r.now, buckets[|buckets| - 1].timestamp) >= bucketDuration
    ensures Inv(buckets + [AddToBucket(NewBucket(r.now), r.event)], starts + [|h|], h + [r], bucketDuration, window,
                r.now, r.evictAt)
  {
    OpenBucketCovers(buckets, starts, h, r, bucketDuration);
    assert |starts| == |buckets|;
    SpacedOpened(buckets, AddToBucket(NewBucket(r.now), r.event), bucketDuration, now);
    ForgottenStays(h, r, FirstKept(starts, |h|), bucketDuration, window, r.evictAt);
    hide Covers, Spaced, Forgotten;
  }

  function LastNow(h: seq<Recording>): Instant {
    if h == [] then 0 else h[|h| - 1].now
  }

  function LastClock(h: seq<Recording>): Instant {
    if h == [] then 0 else h[|h| - 1].evictAt
  }

  lemma RecordingKeepsInv(buckets: seq<MetricsBucket>, starts: seq<nat>, h: seq<Recording>, r: Recording,
                          bucketDuration: nat, window: nat, now: Instant, clock: Instant)
    returns (starts': seq<nat>)
    requires Inv(buckets, starts, h, bucketDuration, window, now, clock)
    requires now <= r.now && clock <= r.evictAt
    ensures Inv(Recorded(buckets, bucketDuration, window, r.event, r.now, r.evictAt), starts', h + [r],
                bucketDuration, window, r.now, r.evictAt)
  {
    hide Inv, Evicted, Recorded;
    var kept := Evicted(buckets, window, r.evictAt);
    starts' := EvictKeepsInv(buckets, starts, h, bucketDuration, window, now, clock, r.evictAt);
    RecordedIs(buckets, bucketDuration, window, r);
    if kept == [] || DurationSince(r.now, kept[|kept| - 1].timestamp) >= bucketDuration {
      OpenBucketKeepsInv(kept, starts', h, r, bucketDuration, window, now);
      starts' := starts' + [|h|];
    } else {
      JoinLastKeepsInv(kept, starts', h, r, bucketDuration, window, now);
    }
  }

  /** A recording opens a bucket of its own or joins the last one kept. */
  lemma RecordedIs(buckets: seq<MetricsBucket>, bucketDuration: nat, window: nat, r: Recording)
    ensures var kept := Evicted(buckets, window, r.evictAt);
            Recorded(buckets, bucketDuration, window, r.event, r.now, r.evictAt)
            == if kept == [] || DurationSince(r.now, kept[|kept| - 1].timestamp) >= bucketDuration
            then kept + [AddToBucket(NewBucket(r.now), r.event)]
            else kept[|kept| - 1 := AddToBucket(kept[|kept| - 1], r.event)]
  {
    hide AddToBucket, Evicted, NewBucket;
    var kept, b := Evicted(buckets, window, r.evictAt), NewBucket(r.now);
    assert (kept + [b])[|kept| := AddToBucket(b, r.event)] == kept + [AddToBucket(b, r.event)];
  }

  lemma {:induction false} RunKeepsInv(h: seq<Recording>, bucketDuration: nat, window: nat) returns (starts: seq<nat>)
    requires MonotoneClock(h)
    ensures Inv(Buckets(h, bucketDuration, window), starts, h, bucketDuration, window, LastNow(h), LastClock(h))
  {
    if h == [] {
      starts := [];
    } else {
      var prior, r := h[..|h| - 1], h[|h| - 1];
      starts := RunKeepsInv(prior, bucketDuration, window);
      hide Inv, Recorded;
      starts := RecordingKeepsInv(Buckets(prior, bucketDuration, window), starts, prior, r, bucketDuration, window,
                                  LastNow(prior), LastClock(prior));
      assert prior + [r] == h;
    }
  }

  /** Bucket `b` began more than a window before `now`. */
  predicate HasPassed(b: MetricsBucket, window: nat, now: Instant) {
    b.timestamp + window < now
  }

  lemma {:induction false} EvictionDropsPassed(buckets: seq<MetricsBucket>, window: nat, now: Instant)
    returns (k: nat)
    ensures k <= |buckets| && Evicted(buckets, window, now) == buckets[k..]
    ensures forall i :: 0 <= i < k ==> HasPassed(buckets[i], window, now)
    ensures k < |buckets| ==> !HasPassed(buckets[k], window, now)
  {
    k := 0;
    if buckets != [] && Expired(buckets[0], window, now) {
      k := EvictionDropsPassed(buckets[1..], window, now);
      k := k + 1;
      assert buckets[1..][k - 1..] == buckets[k..];
      assert forall i :: 0 < i < |buckets| ==> buckets[i] == buckets[1..][i - 1];
    }
  }

  /**
    What a recording does to the buckets, whatever they are. Those at the front that began
    more than a window before the second reading of the clock go, up to the first that did
    not. The recording opens a bucket, which begins at the first reading, exactly when none is
    left or the last one began at least a bucket's duration before; otherwise it joins that one.
  */
  lemma RecordingMovesWindow(buckets: seq<MetricsBucket>, bucketDuration: nat, window: nat, r: Recording)
    returns (k: nat)
    ensures k <= |buckets| && forall i :: 0 <= i < k ==> HasPassed(buckets[i], window, r.evictAt)
    ensures k < |buckets| ==> !HasPassed(buckets[k], window, r.evictAt)
    ensures var kept, recorded := buckets[k..], Recorded(buckets, bucketDuration, window, r.event, r.now, r.evictAt);
            var opens := kept == [] || (kept[|kept| - 1].timestamp + bucketDuration <= r.now || bucketDuration == 0);
            if opens then
              && |recorded| == |kept| + 1 && recorded[..|kept|] == kept
              && recorded[|kept|] == AddToBucket(MetricsBucket(r.now, 0, 0, [], map[]), r.event)
            else
              && |recorded| == |kept| && recorded[..|kept| - 1] == kept[..|kept| - 1]
              && recorded[|kept| - 1] == AddToBucket(kept[|kept| - 1], r.event)
  {
    k := EvictionDropsPassed(buckets, window, r.evictAt);
    RecordedIs(buckets, bucketDuration, window, r);
    hide AddToBucket, Evicted, Recorded, HasPassed;
  }

  // ----- The window -----

  lemma {:induction false} AllActive(buckets: seq<MetricsBucket>, window: nat, now: Instant)
    requires forall i :: 0 <= i < |buckets| ==> !Expired(buckets[i], window, now)
    ensures ActiveBuckets(buckets, window, now) == buckets
  {
    if buckets != [] { AllActive(buckets[1..], window, now); }
  }

  ghost predicate TimeOrdered(buckets: seq<MetricsBucket>) {
    forall i, j :: 0 <= i < j < |buckets| ==> buckets[i].timestamp <= buckets[j].timestamp
  }

  lemma {:induction false} ActiveIsSuffix(buckets: seq<MetricsBucket>, window: nat, now: Instant) returns (m: nat)
    requires TimeOrdered(buckets)
    ensures m <= |buckets| && ActiveBuckets(buckets, window, now) == buckets[m..]
    ensures forall i :: 0 <= i < m ==> Expired(buckets[i], window, now)
    ensures forall i :: m <= i < |buckets| ==> !Expired(buckets[i], window, now)
  {
    m := 0;
    if buckets != [] {
      var rest := buckets[1..];
      if Expired(buckets[0], window, now) {
        var n := ActiveIsSuffix(rest, window, now);
        m := n + 1;
        hide TimeOrdered, Expired;
        FromTail(buckets, n);
        Sequences.ConcatNothing(ActiveBuckets(rest, window, now));
        forall i | 0 < i < |buckets| ensures i < m <==> Expired(buckets[i], window, now) {
          assert buckets[i] == rest[i - 1];
        }
      } else {
        FirstIsActive(buckets, window, now);
        AllActive(buckets, window, now);
        Sequences.TakeAll(buckets);
      }
    }
  }

  lemma FromTail<T>(s: seq<T>, n: nat)
    requires n < |s|
    ensures s[1..][n..] == s[n + 1..]
  {
  }

  lemma FirstIsActive(buckets: seq<MetricsBucket>, window: nat, now: Instant)
    requires TimeOrdered(buckets) && buckets != [] && !Expired(buckets[0], window, now)
    ensures forall i :: 0 <= i < |buckets| ==> !Expired(buckets[i], window, now)
  {
  }

  /** The first recording of bucket m, or the end of the history. */
  function StartOf(starts: seq<nat>, n: nat, m: nat): nat
    requires m <= |starts|
  {
    if m < |starts| then starts[m] else n
  }

  lemma FiguresSplit(h: seq<Recording>, j: nat, k: nat, t: string)
    requires j <= k <= |h|
    ensures Messages(h[j..]) == Messages(h[j..k]) + Messages(h[k..])
    ensures Errors(h[j..]) == Errors(h[j..k]) + Errors(h[k..])
    ensures OfType(h[j..], t) == OfType(h[j..k], t) + OfType(h[k..], t)
    ensures Latencies(h[j..]) == Latencies(h[j..k]) + Latencies(h[k..])
  {
    FiguresConcat(h[j..k], h[k..], t);
    hide Messages, Errors, OfType, Latencies;
    assert h[j..k] + h[k..] == h[j..];
  }

  lemma TotalsStep(buckets: seq<MetricsBucket>, m: nat, t: string)
    requires m < |buckets|
    ensures TotalMessages(buckets[m..]) == buckets[m].messageCount + TotalMessages(buckets[m + 1..])
    ensures TotalErrors(buckets[m..]) == buckets[m].errorCount + TotalErrors(buckets[m + 1..])
    ensures TotalOfType(buckets[m..], t)
         == CountOf(buckets[m].messageCountsByType, t) + TotalOfType(buckets[m + 1..], t)
    ensures AllLatencies(buckets[m..]) == buckets[m].latencies + AllLatencies(buckets[m + 1..])
  {
    assert buckets[m..][1..] == buckets[m + 1..];
  }

  /** The totals of the buckets from m on are the figures of the history from their start on. */
  lemma {:induction false} TotalsOfSuffix(buckets: seq<MetricsBucket>, starts: seq<nat>, h: seq<Recording>,
                                          bucketDuration: nat, m: nat, t: string)
    requires Covers(buckets, starts, h, bucketDuration) && m <= |buckets|
    ensures var j := StartOf(starts, |h|, m);
            && j <= |h|
            && TotalMessages(buckets[m..]) == Messages(h[j..])
            && TotalErrors(buckets[m..]) == Errors(h[j..])
            && TotalOfType(buckets[m..], t) == OfType(h[j..], t)
            && AllLatencies(buckets[m..]) == Latencies(h[j..])
    decreases |buckets| - m
  {
    if m < |buckets| {
      TotalsOfSuffix(buckets, starts, h, bucketDuration, m + 1, t);
      assert BucketCovers(buckets[m], h, starts[m], EndOf(starts, |h|, m), bucketDuration);
      var j, k := starts[m], EndOf(starts, |h|, m);
      FiguresSplit(h, j, k, t);
      TotalsStep(buckets, m, t);
      hide Messages, Errors, OfType, Latencies, Covers, TotalMessages, TotalErrors, TotalOfType, AllLatencies;
    }
  }

  /** Everything recorded before bucket m is older than the window less one bucket. */
  lemma {:induction false} BeforeIsOld(buckets: seq<MetricsBucket>, starts: seq<nat>, h: seq<Recording>,
                                       bucketDuration: nat, window: nat, now: Instant, m: nat)
    requires Covers(buckets, starts, h, bucketDuration) && m <= |buckets| == |starts|
    requires FirstKept(starts, |h|) <= |h| && Forgotten(h, FirstKept(starts, |h|), bucketDuration, window, now)
    requires forall i :: 0 <= i < m ==> Expired(buckets[i], window, now)
    ensures StartOf(starts, |h|, m) <= |h| && Forgotten(h, StartOf(starts, |h|, m), bucketDuration, window, now)
  {
    hide Covers, Forgotten, BucketCovers, Expired;
    if m == 0 {
    } else {
      CoveredBucket(buckets, starts, h, bucketDuration, m - 1);
      BeforeIsOld(buckets, starts, h, bucketDuration, window, now, m - 1);
      RangeInHistory(buckets[m - 1], h, starts[m - 1], EndOf(starts, |h|, m - 1), bucketDuration);
      BucketIsOld(buckets[m - 1], h, starts[m - 1], EndOf(starts, |h|, m - 1), bucketDuration, window, now);
    }
  }

  /** Everything recorded from bucket m on lies in the window. */
  lemma {:induction false} AfterIsRecent(buckets: seq<MetricsBucket>, starts: seq<nat>, h: seq<Recording>,
                                         bucketDuration: nat, window: nat, now: Instant, m: nat)
    requires Covers(buckets, starts, h, bucketDuration) && m <= |buckets| == |starts|
    requires forall i :: m <= i < |buckets| ==> !Expired(buckets[i], window, now)
    ensures forall k :: StartOf(starts, |h|, m) <= k < |h| ==> now <= h[k].now + window
    decreases |buckets| - m
  {
    hide Covers, BucketCovers, Expired;
    if m < |buckets| {
      AfterIsRecent(buckets, starts, h, bucketDuration, window, now, m + 1);
      CoveredBucket(buckets, starts, h, bucketDuration, m);
      BucketIsRecent(buckets[m], h, starts[m], EndOf(starts, |h|, m), bucketDuration, window, now);
    }
  }

  lemma BucketIsRecent(b: MetricsBucket, h: seq<Recording>, from: nat, to: nat, bucketDuration: nat, window: nat,
                       now: Instant)
    requires BucketCovers(b, h, from, to, bucketDuration) && !Expired(b, window, now)
    ensures to <= |h| && forall k :: from <= k < to ==> now <= h[k].now + window
  {
    hide Summarizes;
  }

  /** The windowed figures are exactly those of `history[j..]`. */
  ghost predicate ExactFrom(h: seq<Recording>, j: nat, active: seq<MetricsBucket>)
    requires j <= |h|
  {
    && TotalMessages(active) == Messages(h[j..])
    && TotalErrors(active) == Errors(h[j..])
    && AllLatencies(active) == Latencies(h[j..])
    && forall t :: TotalOfType(active, t) == OfType(h[j..], t)
  }

  /** The windowed figures at `now` are those of the buckets from the m-th on. */
  ghost predicate WindowStarts(h: seq<Recording>, buckets: seq<MetricsBucket>, starts: seq<nat>, bucketDuration: nat,
                               window: nat, now: Instant, m: nat) {
    && |starts| == |buckets| && m <= |buckets| && StartOf(starts, |h|, m) <= |h|
    && (forall i :: 0 <= i < |buckets| ==> (Expired(buckets[i], window, now) <==> i < m))
    && ExactFrom(h, StartOf(starts, |h|, m), ActiveBuckets(buckets, window, now))
    && InWindowFrom(h, StartOf(starts, |h|, m), bucketDuration, window, now)
  }

  /** `h[j..]` lies within the window, and everything before it is older than the window less one bucket. */
  ghost predicate InWindowFrom(h: seq<Recording>, j: nat, bucketDuration: nat, window: nat, now: Instant) {
    && (forall k :: j <= k < |h| ==> now <= h[k].now + window)
    && (forall k :: 0 <= k < j && k < |h| ==> now + bucketDuration > window + h[k].now)
  }

  lemma WindowAt(h: seq<Recording>, starts: seq<nat>, bucketDuration: nat, window: nat, now: Instant) returns (m: nat)
    requires Inv(Buckets(h, bucketDuration, window), starts, h, bucketDuration, window, LastNow(h), LastClock(h))
    requires LastClock(h) <= now
    ensures WindowStarts(h, Buckets(h, bucketDuration, window), starts, bucketDuration, window, now, m)
  {
    var buckets := Buckets(h, bucketDuration, window);
    m := ActiveIsSuffix(buckets, window, now);
    var j := StartOf(starts, |h|, m);
    BeforeIsOld(buckets, starts, h, bucketDuration, window, now, m);
    AfterIsRecent(buckets, starts, h, bucketDuration, window, now, m);
    forall t ensures TotalOfType(buckets[m..], t) == OfType(h[j..], t) {
      TotalsOfSuffix(buckets, starts, h, bucketDuration, m, t);
    }
    TotalsOfSuffix(buckets, starts, h, bucketDuration, m, "");
  }

  /**
    At any time after the last recording, all windowed figures (messages, errors, counts by
    type, latencies) are exact for one and the same suffix of the history. Everything in it
    lies within the window, and everything before it is older than the window less one
    bucket.
  */
  lemma WindowIsSuffix(h: seq<Recording>, bucketDuration: nat, window: nat, now: Instant) returns (j: nat)
    requires MonotoneClock(h) && LastClock(h) <= now
    ensures j <= |h|
    ensures ExactFrom(h, j, ActiveBuckets(Buckets(h, bucketDuration, window), window, now))
    ensures forall k :: j <= k < |h| ==> now <= h[k].now + window
    ensures forall k :: 0 <= k < j ==> now + bucketDuration > window + h[k].now
  {
    var starts := RunKeepsInv(h, bucketDuration, window);
    var m := WindowAt(h, starts, bucketDuration, window, now);
    j := StartOf(starts, |h|, m);
  }

  /** Windows that are read later start no earlier. */
  lemma LaterWindowStartsLater(h: seq<Recording>, buckets: seq<MetricsBucket>, starts: seq<nat>, bucketDuration: nat,
                               window: nat, earlier: Instant, m: nat, later: Instant, n: nat)
    requires Covers(buckets, starts, h, bucketDuration) && earlier <= later
    requires WindowStarts(h, buckets, starts, bucketDuration, window, earlier, m)
    requires WindowStarts(h, buckets, starts, bucketDuration, window, later, n)
    ensures StartOf(starts, |h|, m) <= StartOf(starts, |h|, n)
  {
    if n < m {
      ExpiredStays(buckets[n], window, earlier, later);
    } else {
      StartsAscend(buckets, starts, h, bucketDuration, m, n);
    }
  }

  lemma ExpiredStays(b: MetricsBucket, window: nat, earlier: Instant, later: Instant)
    requires Expired(b, window, earlier) && earlier <= later
    ensures Expired(b, window, later)
  {
  }

  lemma {:induction false} StartsAscend(buckets: seq<MetricsBucket>, starts: seq<nat>, h: seq<Recording>,
                                        bucketDuration: nat, m: nat, n: nat)
    requires Covers(buckets, starts, h, bucketDuration) && m <= n <= |buckets|
    ensures StartOf(starts, |h|, m) <= StartOf(starts, |h|, n)
    ensures StartOf(starts, |h|, m) == StartOf(starts, |h|, n) ==> m == n
  {
    hide BucketCovers, EndOf;
    if m < n {
      NextStart(buckets, starts, h, bucketDuration, n - 1);
      StartsAscend(buckets, starts, h, bucketDuration, m, n - 1);
    }
  }

  lemma NextStart(buckets: seq<MetricsBucket>, starts: seq<nat>, h: seq<Recording>, bucketDuration: nat, i: nat)
    requires Covers(buckets, starts, h, bucketDuration) && i < |buckets|
    ensures StartOf(starts, |h|, i) < StartOf(starts, |h|, i + 1)
  {
    hide Summarizes;
    assert BucketCovers(buckets[i], h, starts[i], EndOf(starts, |h|, i), bucketDuration);
  }

  /** The messages recorded no longer than `age` before `now`. */
  function MessagesWithin(h: seq<Recording>, now: Instant, age: int): nat {
    if h == [] then 0
    else MessagesWithin(h[..|h| - 1], now, age)
         + if h[|h| - 1].event.Message? && now - h[|h| - 1].now <= age then 1 else 0
  }

  lemma {:induction false} SuffixBetween(h: seq<Recording>, j: nat, now: Instant, inner: int, outer: int)
    requires j <= |h|
    requires forall k :: j <= k < |h| ==> now - h[k].now <= outer
    requires forall k :: 0 <= k < j ==> now - h[k].now > inner
    ensures MessagesWithin(h, now, inner) <= Messages(h[j..]) <= MessagesWithin(h, now, outer)
  {
    if h != [] {
      var n := |h| - 1;
      if j <= n {
        SuffixBetween(h[..n], j, now, inner, outer);
        assert h[j..][..|h[j..]| - 1] == h[..n][j..];
      } else {
        SuffixBetween(h[..n], n, now, inner, outer);
        assert h[..n][n..] == [] && h[j..] == [];
      }
    }
  }

  /** The windowed message count lies between the exact counts for the window less a bucket and for the window. */
  lemma WindowedCountIsSandwiched(h: seq<Recording>, bucketDuration: nat, window: nat, now: Instant)
    requires MonotoneClock(h) && LastClock(h) <= now
    ensures MessagesWithin(h, now, window - bucketDuration)
         <= TotalMessages(ActiveBuckets(Buckets(h, bucketDuration, window), window, now))
         <= MessagesWithin(h, now, window)
  {
    var j := WindowIsSuffix(h, bucketDuration, window, now);
    SuffixBetween(h, j, now, window - bucketDuration, window);
  }

  // ----- Memory -----

  lemma {:induction false} EvictedAreRecent(buckets: seq<MetricsBucket>, window: nat, now: Instant)
    ensures var kept := Evicted(buckets, window, now);
            && |kept| <= |buckets| && kept == buckets[|buckets| - |kept|..]
            && (kept != [] ==> !Expired(kept[0], window, now))
  {
    if buckets != [] && Expired(buckets[0], window, now) { EvictedAreRecent(buckets[1..], window, now); }
  }

  lemma {:induction false} SpacingAddsUp(buckets: seq<MetricsBucket>, bucketDuration: nat, now: Instant)
    requires Spaced(buckets, bucketDuration, now) && buckets != []
    ensures buckets[0].timestamp + (|buckets| - 1) * bucketDuration <= buckets[|buckets| - 1].timestamp
  {
    if |buckets| > 1 {
      var shorter := buckets[..|buckets| - 1];
      SpacingAddsUp(shorter, bucketDuration, now);
      assert (|buckets| - 1) * bucketDuration == (|shorter| - 1) * bucketDuration + bucketDuration;
    }
  }

  /** The oldest bucket is no older than the window when a recording is made. */
  lemma OldestIsInWindow(h: seq<Recording>, bucketDuration: nat, window: nat)
    requires MonotoneClock(h) && h != []
    ensures var buckets := Buckets(h, bucketDuration, window);
            buckets != [] && h[|h| - 1].now <= buckets[0].timestamp + window
  {
    var r := h[|h| - 1];
    var before := Buckets(h[..|h| - 1], bucketDuration, window);
    EvictedAreRecent(before, window, r.evictAt);
    hide Evicted;
  }

  /** After any recording there are at most window / bucket_duration + 1 buckets. */
  lemma BucketsAreBounded(h: seq<Recording>, bucketDuration: nat, window: nat)
    requires MonotoneClock(h) && bucketDuration > 0
    ensures |Buckets(h, bucketDuration, window)| <= window / bucketDuration + 1
  {
    if h != [] {
      var buckets := Buckets(h, bucketDuration, window);
      var starts := RunKeepsInv(h, bucketDuration, window);
      OldestIsInWindow(h, bucketDuration, window);
      hide Buckets, Covers, Forgotten;
      SpacingAddsUp(buckets, bucketDuration, LastNow(h));
      QuotientAtLeast(|buckets| - 1, bucketDuration, window);
    }
  }
}
