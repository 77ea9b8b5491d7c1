/**
  Age-based promotion: under the aging comparer and a monotone clock, an envelope that has
  reached the maximum age leaves in its turn, whatever is pushed afterwards.
*/
module OutboundQueueAging {
  import opened Sequences
  import opened Wrappers
  import opened Wire
  import opened OutboundQueue
  import opened OutboundQueueOrder
  import F = OutboundQueueFairness

  /** The aged entries are a prefix: whatever precedes an aged entry is aged as well. */
  lemma AgedEntriesArePrefix(s: seq<QueuedEnvelope>, maxAge: nat, now: Instant, i: nat, j: nat)
    requires TimeSorted(s) && i <= j < |s| && Aged(maxAge, s[j].metadata, now)
    ensures Aged(maxAge, s[i].metadata, now)
  {
    assert s[i].metadata.enqueuedAt <= s[j].metadata.enqueuedAt;
  }

  lemma StaysAged(maxAge: nat, m: EnvelopeMetadata, since: Instant, now: Instant)
    requires Aged(maxAge, m, since) && since <= now
    ensures Aged(maxAge, m, now)
  {
  }

  /** An aged head beats everything behind it. */
  lemma AgedHeadIsBest(s: seq<QueuedEnvelope>, maxAge: nat, now: Instant)
    requires s != [] && TimeSorted(s) && Aged(maxAge, s[0].metadata, now)
    ensures BestIndex(s, AgingWireComparer(maxAge), now, |s|) == 0
  {
    AgingIsTotalPreorder(maxAge, now);
    BestIsFirstMinimum(s, AgingWireComparer(maxAge), now, |s|);
    hide BestIndex;
    forall j | 0 <= j < |s| ensures AgingCompare(maxAge, s[j].metadata, s[0].metadata, now) != Less {
      assert s[0].metadata.enqueuedAt <= s[j].metadata.enqueuedAt;
    }
    assert FirstMinimum(s, AgingWireComparer(maxAge), now, |s|, 0);
  }

  function PriorityPops(t: Trace): seq<WireEnvelope> {
    Select(PrioritySide, t.left)
  }

  /** The first `upTo` entries of `s` at the start have left in order or are still in front, in order. */
  ghost predicate FrontInOrder(s: seq<QueuedEnvelope>, upTo: nat, t: Trace)
    requires upTo <= |s|
  {
    var gone := PriorityPops(t);
    if |gone| < upTo
    then gone == Envelopes(s[..|gone|]) && s[|gone|..upTo] <= t.queue.sorted
    else gone[..upTo] == Envelopes(s[..upTo])
  }

  lemma PushKeepsFront(s: seq<QueuedEnvelope>, upTo: nat, t: Trace, e: WireEnvelope, now: Instant)
    requires upTo <= |s| && FrontInOrder(s, upTo, t)
    ensures FrontInOrder(s, upTo, Step(t, At(now, Push(e))))
  {
    hide Select;
    assert t.queue.sorted <= Step(t, At(now, Push(e))).queue.sorted;
  }

  /** A pop that takes `e`: from the stream, from the front of `sorted`, or after the front has left. */
  lemma PopKeepsFront(s: seq<QueuedEnvelope>, upTo: nat, t: Trace, t': Trace, e: WireEnvelope)
    requires upTo <= |s| && FrontInOrder(s, upTo, t) && t'.left == t.left + [e]
    requires IsStream(e) ==> t'.queue.sorted == t.queue.sorted
    requires !IsStream(e) && |PriorityPops(t)| < upTo ==>
               && t.queue.sorted != [] && e == t.queue.sorted[0].envelope
               && t'.queue.sorted == t.queue.sorted[1..]
    ensures FrontInOrder(s, upTo, t')
  {
    var gone := PriorityPops(t);
    assert PriorityPops(t') == if IsStream(e) then gone else gone + [e] by {
      SelectConcat(PrioritySide, t.left, [e]);
      SelectOne(PrioritySide, e);
      ConcatNothing(gone);
    }
    hide PriorityPops, IsStream, Envelopes;
    if !IsStream(e) {
      if |gone| < upTo {
        TakeFirst(s, upTo, t.queue.sorted, |gone|);
        TakeAll(gone + [e]);
      } else {
        PrefixOfAppend(gone, e, upTo);
      }
    }
  }

  lemma PrefixOfAppend<T>(s: seq<T>, x: T, n: nat)
    requires n <= |s|
    ensures (s + [x])[..n] == s[..n]
  {
  }

  lemma TakeFirst(s: seq<QueuedEnvelope>, upTo: nat, sorted: seq<QueuedEnvelope>, n: nat)
    requires n < upTo <= |s| && s[n..upTo] <= sorted
    ensures s[n] == sorted[0] && s[n + 1..upTo] <= sorted[1..]
    ensures Envelopes(s[..n + 1]) == Envelopes(s[..n]) + [s[n].envelope]
  {
    assert s[n] == s[n..upTo][0];
    assert s[n + 1..upTo] == s[n..upTo][1..];
  }

  lemma AgedHeadLeaves(q: Queue, maxAge: nat, now: Instant)
    requires q.Valid() && q.comparer == Some(AgingWireComparer(maxAge)) && TimeSorted(q.sorted)
    requires q.sorted != [] && Aged(maxAge, q.sorted[0].metadata, now) && !TakesStream(q)
    ensures var (r, q') := AfterPop(q, now);
            r == Some(q.sorted[0].envelope) && q'.sorted == q.sorted[1..]
  {
    AgedHeadIsBest(q.sorted, maxAge, now);
    assert RemoveAt(q.sorted, 0) == q.sorted[1..];
    assert q.total > 0;
  }

  lemma PopStepKeepsFront(s: seq<QueuedEnvelope>, upTo: nat, t: Trace, maxAge: nat, now: Instant)
    requires upTo <= |s| && FrontInOrder(s, upTo, t)
    requires t.queue.Valid() && t.queue.comparer == Some(AgingWireComparer(maxAge)) && TimeSorted(t.queue.sorted)
    requires forall i :: 0 <= i < upTo ==> Aged(maxAge, s[i].metadata, now)
    ensures FrontInOrder(s, upTo, Step(t, At(now, Pop)))
  {
    PopKeepsValid(t.queue, now);
    if t.queue.total > 0 {
      F.PopSide(t.queue, now);
      var (r, q') := AfterPop(t.queue, now);
      var n := |PriorityPops(t)|;
      if n < upTo {
        assert s[n..upTo][0] == t.queue.sorted[0];
        if !TakesStream(t.queue) { AgedHeadLeaves(t.queue, maxAge, now); }
      }
      PopKeepsFront(s, upTo, t, Step(t, At(now, Pop)), r.value);
    }
  }

  /**
    Take a queue whose clock stands at `since` and whose first `upTo` entries have reached
    the maximum age. In any run of pushes and pops from there, those entries are the first
    priority items to leave, in their order: entry i leaves with the (i + 1)-th priority
    pop, and until then it only moves forward.
  */
  lemma {:induction false} AgedEntriesLeaveInTurn(q: Queue, maxAge: nat, since: Instant, upTo: nat, ops: seq<TimedOp>)
    requires q.Valid() && q.comparer == Some(AgingWireComparer(maxAge)) && EnqueuedInOrder(q, since)
    requires upTo <= |q.sorted| && forall i :: 0 <= i < upTo ==> Aged(maxAge, q.sorted[i].metadata, since)
    requires MonotoneClock(ops) && F.NoDrain(ops) && forall i :: 0 <= i < |ops| ==> since <= ops[i].now
    ensures FrontInOrder(q.sorted, upTo, Run(q, ops))
    ensures EnqueuedInOrder(Run(q, ops).queue, if ops == [] then since else LastInstant(ops))
  {
    if ops == [] {
      assert q.sorted[0..upTo] <= q.sorted;
    } else {
      var prior, last := ops[..|ops| - 1], ops[|ops| - 1];
      var t := Run(q, prior);
      AgedEntriesLeaveInTurn(q, maxAge, since, upTo, prior);
      RunKeepsValid(q, prior);
      StepEnqueuesInOrder(t, last, if prior == [] then since else LastInstant(prior));
      hide AfterPush, AfterPop, Queue.Valid, FrontInOrder;
      match last.op
      case Push(e) =>
        PushKeepsFront(q.sorted, upTo, t, e, last.now);
        assert last == At(last.now, Push(e));
      case Pop =>
        forall i | 0 <= i < upTo ensures Aged(maxAge, q.sorted[i].metadata, last.now) {
          StaysAged(maxAge, q.sorted[i].metadata, since, last.now);
        }
        PopStepKeepsFront(q.sorted, upTo, t, maxAge, last.now);
        assert last == At(last.now, Pop);
    }
  }

  /**
    No starvation: an entry at index i that has reached the maximum age has left once i + 1
    priority pops have happened, whatever was pushed meanwhile.
  */
  lemma AgedEntryIsNotStarved(q: Queue, maxAge: nat, since: Instant, i: nat, ops: seq<TimedOp>)
    requires q.Valid() && q.comparer == Some(AgingWireComparer(maxAge)) && EnqueuedInOrder(q, since)
    requires i < |q.sorted| && Aged(maxAge, q.sorted[i].metadata, since)
    requires MonotoneClock(ops) && F.NoDrain(ops) && forall k :: 0 <= k < |ops| ==> since <= ops[k].now
    ensures var gone := Select(PrioritySide, Run(q, ops).left);
            |gone| > i ==> gone[i] == q.sorted[i].envelope
  {
    forall j | 0 <= j < i + 1 ensures Aged(maxAge, q.sorted[j].metadata, since) {
      AgedEntriesArePrefix(q.sorted, maxAge, since, j, i);
    }
    AgedEntriesLeaveInTurn(q, maxAge, since, i + 1, ops);
    var gone := PriorityPops(Run(q, ops));
    if |gone| > i {
      assert gone[..i + 1][i] == Envelopes(q.sorted[..i + 1])[i];
    }
  }
}
