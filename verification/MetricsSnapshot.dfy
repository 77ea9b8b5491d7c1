/**
  When a metrics snapshot is one of a single point in time. It reads the clock four times, and
  buckets may leave the window from one reading to the next.
*/
module MetricsSnapshot {
  import opened Sequences
  import opened Wire
  import opened Metrics
  import opened MetricsWindow

  /** Bucket `b` is in the window at the earlier instant and no longer at the later one. */
  predicate Leaves(b: MetricsBucket, window: nat, earlier: Instant, later: Instant) {
    earlier <= b.timestamp + window < later
  }

  ghost predicate SomeLeave(buckets: seq<MetricsBucket>, window: nat, earlier: Instant, later: Instant) {
    exists i :: 0 <= i < |buckets| && Leaves(buckets[i], window, earlier, later)
  }

  lemma LeavesIff(b: MetricsBucket, window: nat, earlier: Instant, later: Instant)
    requires earlier <= later
    ensures Leaves(b, window, earlier, later) <==> !Expired(b, window, earlier) && Expired(b, window, later)
  {
  }

  /** Two readings see the same buckets if and only if none leaves between them. */
  lemma {:induction false} SameBucketsIff(buckets: seq<MetricsBucket>, window: nat, earlier: Instant, later: Instant)
    requires earlier <= later
    ensures |ActiveBuckets(buckets, window, later)| <= |ActiveBuckets(buckets, window, earlier)|
    ensures ActiveBuckets(buckets, window, earlier) == ActiveBuckets(buckets, window, later)
       <==> !SomeLeave(buckets, window, earlier, later)
  {
    if buckets != [] {
      var rest := buckets[1..];
      SameBucketsIff(rest, window, earlier, later);
      LeavesIff(buckets[0], window, earlier, later);
      FirstOrRestLeave(buckets, window, earlier, later);
      var before, after := ActiveBuckets(rest, window, earlier), ActiveBuckets(rest, window, later);
      hide Leaves, SomeLeave, Expired;
      if Expired(buckets[0], window, later) == Expired(buckets[0], window, earlier) {
        SameTailsIff(if Expired(buckets[0], window, later) then [] else [buckets[0]], before, after);
      } else {
        ExpiredLater(buckets[0], window, earlier, later);
        assert |[buckets[0]] + before| > |[] + after|;
      }
    }
  }

  lemma SameTailsIff<T>(head: seq<T>, a: seq<T>, b: seq<T>)
    ensures head + a == head + b <==> a == b
  {
    assert (head + a)[|head|..] == a && (head + b)[|head|..] == b;
  }

  lemma ExpiredLater(b: MetricsBucket, window: nat, earlier: Instant, later: Instant)
    requires earlier <= later && Expired(b, window, earlier) != Expired(b, window, later)
    ensures !Expired(b, window, earlier) && Expired(b, window, later)
  {
  }

  lemma FirstOrRestLeave(buckets: seq<MetricsBucket>, window: nat, earlier: Instant, later: Instant)
    requires buckets != []
    ensures SomeLeave(buckets, window, earlier, later)
       <==> Leaves(buckets[0], window, earlier, later) || SomeLeave(buckets[1..], window, earlier, later)
  {
    hide Leaves;
    if SomeLeave(buckets[1..], window, earlier, later) {
      var i :| 0 <= i < |buckets[1..]| && Leaves(buckets[1..][i], window, earlier, later);
      assert Leaves(buckets[i + 1], window, earlier, later);
    }
    if SomeLeave(buckets, window, earlier, later) {
      var i :| 0 <= i < |buckets| && Leaves(buckets[i], window, earlier, later);
      assert i > 0 ==> Leaves(buckets[1..][i - 1], window, earlier, later);
    }
  }

  // ----- The four suffixes -----

  predicate Ordered(r: Readings) {
    r.messagesAt <= r.errorsAt <= r.typesAt <= r.latenciesAt
  }

  /** Where the four suffixes of the recordings start. */
  datatype Suffixes = Suffixes(messages: nat, errors: nat, types: nat, latencies: nat)

  predicate Nested(j: Suffixes, n: nat) {
    j.messages <= j.errors <= j.types <= j.latencies <= n
  }

  /** The windowed figures of `s` are those of the suffixes of `h` at `j`. */
  ghost predicate FiguresAre(s: Snapshot, h: seq<Recording>, j: Suffixes)
    requires Nested(j, |h|)
  {
    && s.windowedMessages == Messages(h[j.messages..])
    && s.windowedErrors == Errors(h[j.errors..])
    && (forall t :: CountOf(s.messageCountsByType, t) == OfType(h[j.types..], t))
    && s.latencies == Latencies(h[j.latencies..])
  }

  ghost predicate InWindows(h: seq<Recording>, j: Suffixes, bucketDuration: nat, window: nat, r: Readings) {
    && InWindowFrom(h, j.messages, bucketDuration, window, r.messagesAt)
    && InWindowFrom(h, j.errors, bucketDuration, window, r.errorsAt)
    && InWindowFrom(h, j.types, bucketDuration, window, r.typesAt)
    && InWindowFrom(h, j.latencies, bucketDuration, window, r.latenciesAt)
  }

  /**
    The figures of a snapshot are those of four nested suffixes of the recordings, each of
    them exact and bounded for its own instant. The four are one if and only if no bucket
    leaves the window between the first reading and the last.
  */
  lemma SnapshotIsNestedSuffixes(h: seq<Recording>, bucketDuration: nat, window: nat, r: Readings, s: Snapshot)
    returns (j: Suffixes)
    requires MonotoneClock(h) && Ordered(r) && LastClock(h) <= r.messagesAt
    requires Shows(s, Buckets(h, bucketDuration, window), window, r)
    ensures Nested(j, |h|) && FiguresAre(s, h, j)
    ensures InWindows(h, j, bucketDuration, window, r)
    ensures j.messages == j.latencies
       <==> !SomeLeave(Buckets(h, bucketDuration, window), window, r.messagesAt, r.latenciesAt)
  {
    var buckets := Buckets(h, bucketDuration, window);
    var starts := RunKeepsInv(h, bucketDuration, window);
    var m1 := WindowAt(h, starts, bucketDuration, window, r.messagesAt);
    var m2 := WindowAt(h, starts, bucketDuration, window, r.errorsAt);
    var m3 := WindowAt(h, starts, bucketDuration, window, r.typesAt);
    var m4 := WindowAt(h, starts, bucketDuration, window, r.latenciesAt);
    j := Suffixes(StartOf(starts, |h|, m1), StartOf(starts, |h|, m2), StartOf(starts, |h|, m3),
                  StartOf(starts, |h|, m4));
    hide Covers, Spaced, Forgotten, InWindowFrom, StartOf, Buckets, MonotoneClock, SomeLeave;
    LaterWindowStartsLater(h, buckets, starts, bucketDuration, window, r.messagesAt, m1, r.errorsAt, m2);
    LaterWindowStartsLater(h, buckets, starts, bucketDuration, window, r.errorsAt, m2, r.typesAt, m3);
    LaterWindowStartsLater(h, buckets, starts, bucketDuration, window, r.typesAt, m3, r.latenciesAt, m4);
    SameStartIff(h, buckets, starts, bucketDuration, window, r.messagesAt, m1, r.latenciesAt, m4);
  }

  lemma SameStartIff(h: seq<Recording>, buckets: seq<MetricsBucket>, starts: seq<nat>, bucketDuration: nat,
                     window: nat, earlier: Instant, m: nat, later: Instant, n: nat)
    requires Covers(buckets, starts, h, bucketDuration) && earlier <= later
    requires WindowStarts(h, buckets, starts, bucketDuration, window, earlier, m)
    requires WindowStarts(h, buckets, starts, bucketDuration, window, later, n)
    ensures StartOf(starts, |h|, m) == StartOf(starts, |h|, n) <==> !SomeLeave(buckets, window, earlier, later)
  {
    hide Covers, ExactFrom, InWindowFrom, Leaves, Expired, StartOf;
    if n < m {
      ExpiredStays(buckets[n], window, earlier, later);
    } else {
      StartsAscend(buckets, starts, h, bucketDuration, m, n);
      if m < n {
        LeavesIff(buckets[m], window, earlier, later);
      } else if SomeLeave(buckets, window, earlier, later) {
        var i :| 0 <= i < |buckets| && Leaves(buckets[i], window, earlier, later);
        LeavesIff(buckets[i], window, earlier, later);
      }
    }
  }

  // ----- One suffix for all four -----

  datatype Kind = OfMessage | OfError | OfLatency

  predicate IsKind(kind: Kind, e: Event) {
    match kind
    case OfMessage => e.Message?
    case OfError => e.Error?
    case OfLatency => e.Latency?
  }

  /** No recording of the kind lies between the two places, in whichever order they come. */
  ghost predicate NoneBetween(h: seq<Recording>, kind: Kind, a: nat, b: nat)
    requires a <= |h| && b <= |h|
  {
    && (forall k :: a <= k < b ==> !IsKind(kind, h[k].event))
    && (forall k :: b <= k < a ==> !IsKind(kind, h[k].event))
  }

  ghost predicate SameTypes(h: seq<Recording>, a: nat, b: nat)
    requires a <= |h| && b <= |h|
  {
    forall t :: OfType(h[a..], t) == OfType(h[b..], t)
  }

  /** All four figures are those of `h[at..]`. */
  ghost predicate OneSuffix(h: seq<Recording>, j: Suffixes, at: nat)
    requires Nested(j, |h|)
  {
    && at <= |h|
    && Messages(h[at..]) == Messages(h[j.messages..])
    && Errors(h[at..]) == Errors(h[j.errors..])
    && SameTypes(h, at, j.types)
    && Latencies(h[at..]) == Latencies(h[j.latencies..])
  }

  /**
    Of what left the window during the snapshot, no message left before the types were read,
    and no latency was recorded after a message, or after an error that was counted.
  */
  ghost predicate NothingTorn(h: seq<Recording>, j: Suffixes)
    requires Nested(j, |h|)
  {
    && NoneBetween(h, OfMessage, j.messages, j.types)
    && forall k :: j.messages <= k < j.latencies && h[k].event.Latency? ==>
                     && NoneBetween(h, OfMessage, j.messages, k)
                     && (j.errors <= k ==> NoneBetween(h, OfError, j.errors, k))
  }

  lemma {:induction false} NoneMeansZero(g: seq<Recording>)
    ensures Messages(g) == 0 <==> forall k :: 0 <= k < |g| ==> !g[k].event.Message?
    ensures Errors(g) == 0 <==> forall k :: 0 <= k < |g| ==> !g[k].event.Error?
    ensures Latencies(g) == [] <==> forall k :: 0 <= k < |g| ==> !g[k].event.Latency?
  {
    if g != [] {
      var n := |g| - 1;
      NoneMeansZero(g[..n]);
      assert forall k :: 0 <= k < n ==> g[..n][k] == g[k];
    }
  }

  lemma {:induction false} TypeAtMost(g: seq<Recording>, t: string)
    ensures OfType(g, t) <= Messages(g)
  {
    if g != [] { TypeAtMost(g[..|g| - 1], t); }
  }

  lemma {:induction false} SomeType(g: seq<Recording>) returns (t: string)
    requires Messages(g) > 0
    ensures OfType(g, t) > 0
  {
    var last := g[|g| - 1].event;
    if last.Message? { t := last.messageType; } else { t := SomeType(g[..|g| - 1]); }
  }

  /** The counts by type of two suffixes agree exactly when their message counts do. */
  lemma SameTypesIff(h: seq<Recording>, a: nat, b: nat)
    requires a <= b <= |h|
    ensures SameTypes(h, a, b) <==> Messages(h[a..]) == Messages(h[b..])
  {
    hide Messages, OfType;
    FiguresSplit(h, a, b, "");
    if Messages(h[a..b]) > 0 {
      var t := SomeType(h[a..b]);
      FiguresSplit(h, a, b, t);
    } else {
      forall t ensures OfType(h[a..], t) == OfType(h[b..], t) {
        TypeAtMost(h[a..b], t);
        FiguresSplit(h, a, b, t);
      }
    }
  }

  /** Suffixes have the same figures exactly when nothing of the kind lies between them. */
  lemma SameFiguresIff(h: seq<Recording>, a: nat, b: nat)
    requires a <= |h| && b <= |h|
    ensures Messages(h[a..]) == Messages(h[b..]) <==> NoneBetween(h, OfMessage, a, b)
    ensures Errors(h[a..]) == Errors(h[b..]) <==> NoneBetween(h, OfError, a, b)
    ensures SameTypes(h, a, b) <==> NoneBetween(h, OfMessage, a, b)
    ensures Latencies(h[a..]) == Latencies(h[b..]) <==> NoneBetween(h, OfLatency, a, b)
  {
    if a <= b { SameInOrderIff(h, a, b); } else { SameInOrderIff(h, b, a); }
    hide Messages, Errors, OfType, Latencies;
  }

  lemma SameInOrderIff(h: seq<Recording>, a: nat, b: nat)
    requires a <= b <= |h|
    ensures Messages(h[a..]) == Messages(h[b..]) <==> NoneBetween(h, OfMessage, a, b)
    ensures Errors(h[a..]) == Errors(h[b..]) <==> NoneBetween(h, OfError, a, b)
    ensures SameTypes(h, a, b) <==> NoneBetween(h, OfMessage, a, b)
    ensures Latencies(h[a..]) == Latencies(h[b..]) <==> NoneBetween(h, OfLatency, a, b)
  {
    hide Messages, Errors, OfType, Latencies;
    SameTypesIff(h, a, b);
    NoneMeansZero(h[a..b]);
    FiguresSplit(h, a, b, "");
    assert forall k :: a <= k < b ==> h[a..b][k - a] == h[k];
    ConcatNothing(Latencies(h[b..]));
    assert |Latencies(h[a..])| == |Latencies(h[a..b])| + |Latencies(h[b..])|;
  }

  /** The figures of a snapshot are those of a single suffix if and only if nothing was torn. */
  lemma OneSuffixIff(h: seq<Recording>, j: Suffixes)
    requires Nested(j, |h|)
    ensures (exists at: nat :: OneSuffix(h, j, at)) <==> NothingTorn(h, j)
  {
    if at: nat :| OneSuffix(h, j, at) {
      OneSuffixBetween(h, j, at);
      OneSuffixTearsNothing(h, j, at);
    }
    if NothingTorn(h, j) {
      var at := Untorn(h, j);
      OneSuffixBetween(h, j, at);
      assert OneSuffix(h, j, at);
    }
  }

  lemma OneSuffixBetween(h: seq<Recording>, j: Suffixes, at: nat)
    requires Nested(j, |h|) && at <= |h|
    ensures OneSuffix(h, j, at) <==>
            && NoneBetween(h, OfMessage, at, j.messages) && NoneBetween(h, OfError, at, j.errors)
            && NoneBetween(h, OfMessage, at, j.types) && NoneBetween(h, OfLatency, at, j.latencies)
  {
    hide Messages, Errors, Latencies, SameTypes, NoneBetween;
    SameFiguresIff(h, at, j.messages);
    SameFiguresIff(h, at, j.errors);
    SameFiguresIff(h, at, j.types);
    SameFiguresIff(h, at, j.latencies);
  }

  lemma OneSuffixTearsNothing(h: seq<Recording>, j: Suffixes, at: nat)
    requires Nested(j, |h|) && at <= |h|
    requires NoneBetween(h, OfMessage, at, j.messages) && NoneBetween(h, OfError, at, j.errors)
    requires NoneBetween(h, OfMessage, at, j.types) && NoneBetween(h, OfLatency, at, j.latencies)
    ensures NothingTorn(h, j)
  {
    forall k | j.messages <= k < j.latencies && h[k].event.Latency? ensures k < at {
      assert IsKind(OfLatency, h[k].event);
    }
  }

  /** The last latency up to `j.latencies` that left during the snapshot, if any, decides where the suffix starts. */
  lemma {:induction false} Untorn(h: seq<Recording>, j: Suffixes) returns (at: nat)
    requires Nested(j, |h|) && NothingTorn(h, j)
    ensures at <= |h|
    ensures NoneBetween(h, OfMessage, at, j.messages) && NoneBetween(h, OfError, at, j.errors)
    ensures NoneBetween(h, OfMessage, at, j.types) && NoneBetween(h, OfLatency, at, j.latencies)
  {
    var end := AfterLastLatency(h, j.messages, j.latencies);
    at := if end <= j.errors then j.errors else end;
    if end > j.messages {
      assert h[end - 1].event.Latency? && NoneBetween(h, OfMessage, j.messages, end - 1);
    }
  }

  lemma {:induction false} AfterLastLatency(h: seq<Recording>, from: nat, to: nat) returns (end: nat)
    requires from <= to <= |h|
    ensures from <= end <= to && NoneBetween(h, OfLatency, end, to)
    ensures end > from ==> h[end - 1].event.Latency?
  {
    if from == to || h[to - 1].event.Latency? {
      end := to;
    } else {
      end := AfterLastLatency(h, from, to - 1);
    }
  }

  /**
    When a snapshot is one of a single point in time. All its figures are those of one suffix
    of the recordings if and only if nothing was torn; if no bucket leaves the window between
    the first reading and the last, nothing can be.
  */
  lemma SnapshotIsOneSuffixIff(h: seq<Recording>, bucketDuration: nat, window: nat, r: Readings, s: Snapshot)
    returns (j: Suffixes)
    requires MonotoneClock(h) && Ordered(r) && LastClock(h) <= r.messagesAt
    requires Shows(s, Buckets(h, bucketDuration, window), window, r)
    ensures Nested(j, |h|) && InWindows(h, j, bucketDuration, window, r)
    ensures (exists at: nat :: at <= |h| && AllFiguresAre(s, h, at)) <==> NothingTorn(h, j)
    ensures !SomeLeave(Buckets(h, bucketDuration, window), window, r.messagesAt, r.latenciesAt) ==> NothingTorn(h, j)
  {
    var buckets := Buckets(h, bucketDuration, window);
    j := SnapshotIsNestedSuffixes(h, bucketDuration, window, r, s);
    OneSuffixIff(h, j);
    hide Buckets, ActiveBuckets, TotalMessages, TotalErrors, TotalOfType, AllLatencies;
    hide Messages, Errors, OfType, Latencies, SomeLeave, InWindows, MonotoneClock;
    forall at: nat | at <= |h| ensures AllFiguresAre(s, h, at) <==> OneSuffix(h, j, at) {
    }
  }

  /** Every windowed figure of `s` is that of `h[at..]`. */
  ghost predicate AllFiguresAre(s: Snapshot, h: seq<Recording>, at: nat)
    requires at <= |h|
  {
    FiguresAre(s, h, Suffixes(at, at, at, at))
  }

  // ----- A torn snapshot -----

  /** A message and a latency, both recorded at instant 0. */
  const MessageAndLatency: seq<Recording> := [Recording(Message("m"), 0, 0), Recording(Latency(1), 0, 0)]

  /** The window's edge passes between the readings: a message is counted whose latency is not. */
  lemma SnapshotCanBeTorn(s: Snapshot)
    requires Shows(s, Buckets(MessageAndLatency, 5, 10), 10, Readings(10, 10, 10, 11))
    ensures var h, r := MessageAndLatency, Readings(10, 10, 10, 11);
            && MonotoneClock(h) && Ordered(r) && LastClock(h) <= r.messagesAt
            && s.windowedMessages == 1 && s.latencies == []
            && !exists at: nat :: at <= |h| && AllFiguresAre(s, h, at)
  {
    TornBuckets();
    hide Buckets, ActiveBuckets;
    TornFigures();
  }

  lemma TheBucket()
    ensures Buckets(MessageAndLatency, 5, 10) == [MetricsBucket(0, 1, 0, [1], map["m" := 1])]
  {
    var h := MessageAndLatency;
    assert h[..1] == [h[0]] && h[..1][..0] == [];
    assert Buckets([], 5, 10) == [];
    FirstBucket();
    assert Buckets(h[..1], 5, 10) == [MetricsBucket(0, 1, 0, [], map["m" := 1])];
    hide Recorded, Buckets;
    SecondRecording();
    BucketsUnfold(h);
  }

  lemma BucketsUnfold(h: seq<Recording>)
    requires h != []
    ensures var last := h[|h| - 1];
            Buckets(h, 5, 10) == Recorded(Buckets(h[..|h| - 1], 5, 10), 5, 10, last.event, last.now, last.evictAt)
  {
    hide Recorded;
  }

  lemma FirstBucket()
    ensures Recorded([], 5, 10, Message("m"), 0, 0) == [MetricsBucket(0, 1, 0, [], map["m" := 1])]
  {
  }

  lemma SecondRecording()
    ensures Recorded([MetricsBucket(0, 1, 0, [], map["m" := 1])], 5, 10, Latency(1), 0, 0)
         == [MetricsBucket(0, 1, 0, [1], map["m" := 1])]
  {
    ConcatNothing([1]);
  }

  lemma TornBuckets()
    ensures MonotoneClock(MessageAndLatency)
    ensures TotalMessages(ActiveBuckets(Buckets(MessageAndLatency, 5, 10), 10, 10)) == 1
    ensures AllLatencies(ActiveBuckets(Buckets(MessageAndLatency, 5, 10), 10, 11)) == []
  {
    TheBucket();
    hide Buckets;
  }

  lemma TornFigures()
    ensures forall at: nat :: at <= |MessageAndLatency| ==>
                                !(Messages(MessageAndLatency[at..]) == 1 && Latencies(MessageAndLatency[at..]) == [])
  {
    var h := MessageAndLatency;
    forall at: nat | at <= |h| ensures !(Messages(h[at..]) == 1 && Latencies(h[at..]) == []) {
      if at == 2 {
        assert h[at..] == [];
      } else {
        InitAndLast(h[at..]);
        assert h[at..][|h[at..]| - 1] == h[1];
      }
    }
  }
}
