/**
  The adapter's pump loop between an item stream and a batch writer. While something is
  buffered it waits for the next item or for a timer, and it re-arms the timer each time
  round. Steps take no time and the consumer never blocks; an item that is ready when the
  timer is due wins, as in a biased select.

  The documentation promises that a batch is flushed `max_delay` after its first item. The
  re-armed timer weakens that to (max_items - 1) * max_delay, and this bound is reached.
*/
module BatchPump {
  import Sequences
  import opened Numbers
  import opened Wrappers
  import opened Wire
  import S = Stream

  datatype Arrival<T> = Arrival(at: Instant, item: T)

  /** A flushed batch and when it was flushed. */
  datatype Flushed<T> = Flushed(at: Instant, batch: seq<Arrival<T>>)

  /** The loop's state: the writer's buffer and deadline, when the timer was armed, and what was flushed. */
  datatype Pump<T> = Pump(
    buffer: seq<Arrival<T>>,
    flushDeadline: Option<Instant>,
    armedAt: Instant,
    out: seq<Flushed<T>>)

  predicate Ordered<T>(arrivals: seq<Arrival<T>>) {
    forall i, j :: 0 <= i < j < |arrivals| ==> arrivals[i].at <= arrivals[j].at
  }

  function LastAt<T>(arrivals: seq<Arrival<T>>): Instant {
    if arrivals == [] then 0 else arrivals[|arrivals| - 1].at
  }

  function FlushAt<T>(p: Pump<T>, now: Instant): Pump<T> {
    if p.buffer == [] then p
    else Pump([], None, p.armedAt, p.out + [Flushed(now, p.buffer)])
  }

  /** The timer branch: check the writer's deadline, and arm the timer again. */
  function TimerFires<T>(c: S.BatchConfig, p: Pump<T>): Pump<T> {
    var now := p.armedAt + c.maxDelay;
    var checked := if p.flushDeadline.Some? && now >= p.flushDeadline.value then FlushAt(p, now) else p;
    checked.(armedAt := now)
  }

  /** The timer is due before anything that happens at `t`. */
  predicate TimerFirst<T>(c: S.BatchConfig, p: Pump<T>, t: Instant) {
    p.buffer != [] && p.armedAt + c.maxDelay < t
  }

  function UntilTime<T>(c: S.BatchConfig, p: Pump<T>, t: Instant): Pump<T> {
    if TimerFirst(c, p, t) then TimerFires(c, p) else p
  }

  /** The item branch. */
  function ItemArrives<T>(c: S.BatchConfig, p: Pump<T>, a: Arrival<T>): Pump<T> {
    var deadline := if p.flushDeadline.None? then Some(a.at + c.maxDelay) else p.flushDeadline;
    var pushed := p.(buffer := p.buffer + [a], flushDeadline := deadline, armedAt := a.at);
    if |pushed.buffer| >= c.maxItems then FlushAt(pushed, a.at) else pushed
  }

  function AfterArrivals<T>(c: S.BatchConfig, arrivals: seq<Arrival<T>>): Pump<T> {
    if arrivals == [] then Pump([], None, 0, [])
    else
      var a := arrivals[|arrivals| - 1];
      ItemArrives(c, UntilTime(c, AfterArrivals(c, arrivals[..|arrivals| - 1]), a.at), a)
  }

  /** The whole loop, until the stream closes at `closedAt`. */
  function PumpOutput<T>(c: S.BatchConfig, arrivals: seq<Arrival<T>>, closedAt: Instant): seq<Flushed<T>> {
    FlushAt(UntilTime(c, AfterArrivals(c, arrivals), closedAt), closedAt).out
  }

  function AllItems<T>(out: seq<Flushed<T>>): seq<Arrival<T>> {
    if out == [] then [] else AllItems(out[..|out| - 1]) + out[|out| - 1].batch
  }

  // ----- The invariant of the loop -----

  /** Consecutive items are no more than a delay apart, since the timer would have come first. */
  ghost predicate CloseTogether<T>(c: S.BatchConfig, items: seq<Arrival<T>>) {
    forall i :: 0 < i < |items| ==> items[i - 1].at <= items[i].at <= items[i - 1].at + c.maxDelay
  }

  /** The longest an item waits: one delay for each further item of a full batch. */
  function LongestWait(c: S.BatchConfig): nat {
    (c.Limit() - 1) * c.maxDelay
  }

  ghost predicate Prompt<T>(c: S.BatchConfig, f: Flushed<T>) {
    && 1 <= |f.batch| <= c.Limit()
    && forall i :: 0 <= i < |f.batch| ==> f.batch[i].at <= f.at <= f.batch[i].at + LongestWait(c)
  }

  ghost predicate Inv<T>(c: S.BatchConfig, p: Pump<T>, arrivals: seq<Arrival<T>>) {
    && AllItems(p.out) + p.buffer == arrivals
    && |p.buffer| < c.Limit()
    && CloseTogether(c, p.buffer)
    && (p.buffer == [] ==> p.flushDeadline == None)
    && (p.buffer != [] ==> p.flushDeadline == Some(p.buffer[0].at + c.maxDelay) && p.armedAt == LastAt(p.buffer))
    && forall i :: 0 <= i < |p.out| ==> Prompt(c, p.out[i])
  }

  lemma {:induction false} SpreadOfItems<T>(c: S.BatchConfig, items: seq<Arrival<T>>, i: nat)
    requires CloseTogether(c, items) && i < |items|
    ensures items[0].at <= items[i].at <= items[0].at + i * c.maxDelay
  {
    if i > 0 {
      SpreadOfItems(c, items, i - 1);
      assert i * c.maxDelay == (i - 1) * c.maxDelay + c.maxDelay;
    }
  }

  lemma SpreadToLast<T>(c: S.BatchConfig, items: seq<Arrival<T>>, i: nat)
    requires CloseTogether(c, items) && i < |items|
    ensures items[i].at <= items[|items| - 1].at <= items[i].at + (|items| - 1 - i) * c.maxDelay
  {
    assert CloseTogether(c, items[i..]);
    SpreadOfItems(c, items[i..], |items| - 1 - i);
  }

  /** A batch flushed within a delay of its last item, or at it when full, is prompt. */
  lemma FlushIsPrompt<T>(c: S.BatchConfig, items: seq<Arrival<T>>, now: Instant)
    requires items != [] && CloseTogether(c, items)
    requires (|items| < c.Limit() && LastAt(items) <= now <= LastAt(items) + c.maxDelay)
             || (|items| == c.Limit() && now == LastAt(items))
    ensures Prompt(c, Flushed(now, items))
  {
    var n := |items| - 1;
    forall i | 0 <= i < |items| ensures items[i].at <= now <= items[i].at + LongestWait(c) {
      SpreadOfItems(c, items, i);
      SpreadToLast(c, items, i);
      hide CloseTogether, S.BatchConfig.Limit;
      assert LastAt(items) == items[n].at;
      NextMultiple(n - i, n - i + 1, c.maxDelay);
      if |items| < c.Limit() {
        ProductMonotone(n - i + 1, c.Limit() - 1, c.maxDelay);
      } else {
        ProductMonotone(n - i, c.Limit() - 1, c.maxDelay);
      }
    }
  }

  lemma FlushKeepsItems<T>(p: Pump<T>, now: Instant)
    ensures AllItems(FlushAt(p, now).out) + FlushAt(p, now).buffer == AllItems(p.out) + p.buffer
  {
    if p.buffer != [] {
      assert (p.out + [Flushed(now, p.buffer)])[..|p.out|] == p.out;
    }
  }

  /** Whenever the timer branch runs, the deadline has passed and the check really flushes. */
  lemma TimerAlwaysFlushes<T>(c: S.BatchConfig, p: Pump<T>, arrivals: seq<Arrival<T>>)
    requires Inv(c, p, arrivals) && p.buffer != []
    ensures TimerFires(c, p) == FlushAt(p, p.armedAt + c.maxDelay).(armedAt := p.armedAt + c.maxDelay)
    ensures Inv(c, TimerFires(c, p), arrivals)
  {
    var now := p.armedAt + c.maxDelay;
    SpreadOfItems(c, p.buffer, |p.buffer| - 1);
    assert p.buffer[0].at <= LastAt(p.buffer) == p.armedAt;
    FlushIsPrompt(c, p.buffer, now);
    FlushKeepsItems(p, now);
    NoneApart<T>(c);
    hide AllItems, CloseTogether, Prompt, S.BatchConfig.Limit, LastAt, LongestWait;
    Sequences.InitOfAppend(p.out, Flushed(now, p.buffer));
  }

  lemma UntilKeepsInv<T>(c: S.BatchConfig, p: Pump<T>, arrivals: seq<Arrival<T>>, t: Instant)
    requires Inv(c, p, arrivals)
    ensures Inv(c, UntilTime(c, p, t), arrivals) && !TimerFirst(c, UntilTime(c, p, t), t)
  {
    if TimerFirst(c, p, t) { TimerAlwaysFlushes(c, p, arrivals); }
    hide Inv;
  }

  lemma ArrivalKeepsInv<T>(c: S.BatchConfig, p: Pump<T>, arrivals: seq<Arrival<T>>, a: Arrival<T>)
    requires Inv(c, p, arrivals) && !TimerFirst(c, p, a.at) && LastAt(p.buffer) <= a.at
    ensures Inv(c, ItemArrives(c, p, a), arrivals + [a])
  {
    var items := p.buffer + [a];
    AppendStaysClose(c, p, a);
    Sequences.ConcatAssociates(AllItems(p.out), p.buffer, [a]);
    hide AllItems, Prompt, CloseTogether, FlushAt;
    if |items| >= c.maxItems {
      FlushIsPrompt(c, items, a.at);
      FullFlushKeepsInv(c, p, arrivals, a);
    } else {
      HeadOfAppend(p.buffer, a);
    }
  }

  lemma AppendStaysClose<T>(c: S.BatchConfig, p: Pump<T>, a: Arrival<T>)
    requires CloseTogether(c, p.buffer) && !TimerFirst(c, p, a.at) && LastAt(p.buffer) <= a.at
    requires p.buffer != [] ==> p.armedAt == LastAt(p.buffer)
    ensures CloseTogether(c, p.buffer + [a])
  {
  }

  lemma HeadOfAppend<T>(items: seq<Arrival<T>>, a: Arrival<T>)
    ensures (items + [a])[0] == if items == [] then a else items[0]
    ensures LastAt(items + [a]) == a.at
  {
  }

  lemma AllItemsAppend<T>(out: seq<Flushed<T>>, f: Flushed<T>)
    ensures AllItems(out + [f]) == AllItems(out) + f.batch
  {
    Sequences.InitOfAppend(out, f);
  }

  lemma FullFlushKeepsInv<T>(c: S.BatchConfig, p: Pump<T>, arrivals: seq<Arrival<T>>, a: Arrival<T>)
    requires Inv(c, p, arrivals) && Prompt(c, Flushed(a.at, p.buffer + [a]))
    requires |p.buffer + [a]| >= c.maxItems
    ensures Inv(c, ItemArrives(c, p, a), arrivals + [a])
  {
    var items := p.buffer + [a];
    AllItemsAppend(p.out, Flushed(a.at, items));
    NoneApart<T>(c);
    hide Prompt, CloseTogether, AllItems;
    Sequences.ConcatAssociates(AllItems(p.out), p.buffer, [a]);
    Sequences.ConcatNothing(arrivals + [a]);
  }

  lemma NoneApart<T>(c: S.BatchConfig)
    ensures CloseTogether<T>(c, [])
  {
  }

  lemma RoundKeepsInv<T>(c: S.BatchConfig, p: Pump<T>, prior: seq<Arrival<T>>, a: Arrival<T>)
    requires Inv(c, p, prior) && LastAt(prior) <= a.at
    ensures Inv(c, ItemArrives(c, UntilTime(c, p, a.at), a), prior + [a])
  {
    hide Inv, UntilTime, ItemArrives, TimerFirst;
    UntilKeepsInv(c, p, prior, a.at);
    LastBuffered(c, UntilTime(c, p, a.at), prior);
    ArrivalKeepsInv(c, UntilTime(c, p, a.at), prior, a);
  }

  lemma {:induction false} LoopKeepsInv<T>(c: S.BatchConfig, arrivals: seq<Arrival<T>>)
    requires Ordered(arrivals)
    ensures Inv(c, AfterArrivals(c, arrivals), arrivals)
  {
    if arrivals == [] {
      NoneApart<T>(c);
    } else {
      var prior, a := arrivals[..|arrivals| - 1], arrivals[|arrivals| - 1];
      LoopKeepsInv(c, prior);
      hide Inv, UntilTime, ItemArrives;
      RoundKeepsInv(c, AfterArrivals(c, prior), prior, a);
      assert prior + [a] == arrivals;
    }
  }

  lemma LastBuffered<T>(c: S.BatchConfig, p: Pump<T>, arrivals: seq<Arrival<T>>)
    requires Inv(c, p, arrivals)
    ensures p.buffer != [] ==> arrivals != [] && LastAt(p.buffer) == LastAt(arrivals)
  {
    if p.buffer != [] {
      var all := AllItems(p.out) + p.buffer;
      assert all[|all| - 1] == p.buffer[|p.buffer| - 1];
    }
  }

  /**
    The pump delivers every item exactly once and in order, in batches of 1 to the limit of
    items, and no item waits longer than (max_items - 1) * max_delay, however the arrivals
    are timed.
  */
  lemma PumpIsPrompt<T>(c: S.BatchConfig, arrivals: seq<Arrival<T>>, closedAt: Instant)
    requires Ordered(arrivals) && LastAt(arrivals) <= closedAt
    ensures AllItems(PumpOutput(c, arrivals, closedAt)) == arrivals
    ensures forall i :: 0 <= i < |PumpOutput(c, arrivals, closedAt)| ==> Prompt(c, PumpOutput(c, arrivals, closedAt)[i])
  {
    LoopKeepsInv(c, arrivals);
    var q := AfterArrivals(c, arrivals);
    var p := UntilTime(c, q, closedAt);
    UntilKeepsInv(c, q, arrivals, closedAt);
    LastBuffered(c, p, arrivals);
    assert PumpOutput(c, arrivals, closedAt) == FlushAt(p, closedAt).out;
    hide AfterArrivals, UntilTime, PumpOutput;
    CloseIsPrompt(c, p, arrivals, closedAt);
  }

  /** The flush after the loop completes the output. */
  lemma CloseIsPrompt<T>(c: S.BatchConfig, p: Pump<T>, arrivals: seq<Arrival<T>>, closedAt: Instant)
    requires Inv(c, p, arrivals) && !TimerFirst(c, p, closedAt) && LastAt(p.buffer) <= closedAt
    ensures AllItems(FlushAt(p, closedAt).out) == arrivals
    ensures forall i :: 0 <= i < |FlushAt(p, closedAt).out| ==> Prompt(c, FlushAt(p, closedAt).out[i])
  {
    hide AllItems, Prompt, CloseTogether;
    FlushKeepsItems(p, closedAt);
    if p.buffer != [] {
      FlushIsPrompt(c, p.buffer, closedAt);
      Sequences.InitOfAppend(p.out, Flushed(closedAt, p.buffer));
    }
    Sequences.ConcatNothing(AllItems(FlushAt(p, closedAt).out));
  }

  // ----- The bound is reached -----

  /** Items that arrive exactly one delay apart. */
  function Trickle(n: nat, gap: nat): (arrivals: seq<Arrival<nat>>)
    ensures |arrivals| == n
    ensures forall i :: 0 <= i < n ==> arrivals[i] == Arrival(i * gap, i)
  {
    seq(n, i requires i >= 0 => Arrival(i * gap, i))
  }

  lemma {:induction false} TrickleFills(c: S.BatchConfig, n: nat)
    requires n < c.Limit()
    ensures var p := AfterArrivals(c, Trickle(n, c.maxDelay));
            p.buffer == Trickle(n, c.maxDelay) && p.out == [] && (n > 0 ==> p.armedAt == (n - 1) * c.maxDelay)
  {
    if n > 0 {
      TrickleFills(c, n - 1);
      assert Trickle(n, c.maxDelay)[..n - 1] == Trickle(n - 1, c.maxDelay);
      Spread(n, c.maxDelay);
    }
  }

  lemma Spread(n: nat, d: nat)
    ensures n > 1 ==> (n - 1) * d == (n - 2) * d + d
  {
  }

  lemma TrickleOrdered(n: nat, gap: nat)
    ensures Ordered(Trickle(n, gap))
  {
    forall i, j | 0 <= i < j < n ensures Trickle(n, gap)[i].at <= Trickle(n, gap)[j].at { ProductMonotone(i, j, gap); }
  }

  /** A full batch of items one delay apart keeps its first item waiting for exactly the bound. */
  lemma TrickleReachesBound(c: S.BatchConfig)
    ensures var n := c.Limit();
            && Ordered(Trickle(n, c.maxDelay))
            && LastAt(Trickle(n, c.maxDelay)) == LongestWait(c)
            && PumpOutput(c, Trickle(n, c.maxDelay), LongestWait(c))
               == [Flushed(LongestWait(c), Trickle(n, c.maxDelay))]
            && Trickle(n, c.maxDelay)[0].at == 0
  {
    var n := c.Limit();
    TrickleFills(c, n - 1);
    TrickleOrdered(n, c.maxDelay);
    TrickleGrows(n, c.maxDelay);
    Spread(n, c.maxDelay);
    hide Trickle;
    var shorter, all := Trickle(n - 1, c.maxDelay), Trickle(n, c.maxDelay);
    assert all[..|all| - 1] == shorter && all[|all| - 1] == Arrival((n - 1) * c.maxDelay, n - 1);
    var p := AfterArrivals(c, shorter);
    hide Ordered, S.BatchConfig.Limit;
    LastArrivalFlushes(c, p, all);
  }

  lemma TrickleGrows(n: nat, gap: nat)
    requires n > 0
    ensures Trickle(n, gap) == Trickle(n - 1, gap) + [Arrival((n - 1) * gap, n - 1)]
    ensures Trickle(n, gap)[..n - 1] == Trickle(n - 1, gap)
  {
  }

  /** The item that fills a batch, a delay after the timer was armed, flushes it before the timer fires. */
  lemma LastArrivalFlushes(c: S.BatchConfig, p: Pump<nat>, all: seq<Arrival<nat>>)
    requires |all| == c.Limit() && p == AfterArrivals(c, all[..|all| - 1])
    requires p.buffer == all[..|all| - 1] && p.out == []
    requires p.buffer != [] ==> p.armedAt + c.maxDelay == all[|all| - 1].at
    ensures PumpOutput(c, all, all[|all| - 1].at) == [Flushed(all[|all| - 1].at, all)]
  {
    var last := all[|all| - 1];
    Sequences.InitAndLast(all);
    assert !TimerFirst(c, p, last.at);
    assert UntilTime(c, p, last.at) == p;
    assert AfterArrivals(c, all) == ItemArrives(c, p, last);
    hide AfterArrivals;
    var after := ItemArrives(c, p, last);
    assert after.buffer == [] && after.out == [] + [Flushed(last.at, all)];
    Sequences.ConcatNothing([Flushed(last.at, all)]);
  }

  /** However items arrive, none waits longer than `bound`. */
  ghost predicate FlushesWithin(c: S.BatchConfig, bound: nat) {
    forall arrivals: seq<Arrival<nat>>, closedAt: Instant ::
      Ordered(arrivals) && LastAt(arrivals) <= closedAt ==> WaitsAtMost(PumpOutput(c, arrivals, closedAt), bound)
  }

  ghost predicate WaitsAtMost(out: seq<Flushed<nat>>, bound: nat) {
    forall i, k :: 0 <= i < |out| && 0 <= k < |out[i].batch| ==> out[i].at <= out[i].batch[k].at + bound
  }

  /** The exact guarantee of the pump, for every configuration. */
  lemma WorstCaseWait(c: S.BatchConfig, bound: nat)
    ensures FlushesWithin(c, bound) <==> bound >= LongestWait(c)
  {
    if bound >= LongestWait(c) {
      forall arrivals: seq<Arrival<nat>>, closedAt: Instant | Ordered(arrivals) && LastAt(arrivals) <= closedAt
        ensures WaitsAtMost(PumpOutput(c, arrivals, closedAt), bound)
      {
        PumpIsPrompt(c, arrivals, closedAt);
        hide PumpOutput;
      }
    } else {
      TrickleReachesBound(c);
      hide PumpOutput;
      var arrivals := Trickle(c.Limit(), c.maxDelay);
      var out := PumpOutput(c, arrivals, LongestWait(c));
      assert out[0].at > out[0].batch[0].at + bound;
      assert !WaitsAtMost(out, bound);
    }
  }

  /**
    The documented promise, a flush within `max_delay` of the first item, holds only for
    batches of at most two items or without a delay.
  */
  lemma DocumentedDelayHoldsIff(c: S.BatchConfig)
    ensures FlushesWithin(c, c.maxDelay) <==> c.Limit() <= 2 || c.maxDelay == 0
  {
    WorstCaseWait(c, c.maxDelay);
    hide FlushesWithin;
    if c.Limit() > 2 {
      ProductMonotone(2, c.Limit() - 1, c.maxDelay);
    }
  }

  // ----- The loop itself -----

  /** Runs the pump over a writer whose channel is empty; `flushedAt[i]` is when batch i was sent. */
  method RunPump<T>(writer: S.BatchWriter<Arrival<T>>, arrivals: seq<Arrival<T>>, closedAt: Instant)
    returns (out: seq<Flushed<T>>)
    requires Ordered(arrivals) && LastAt(arrivals) <= closedAt
    requires writer.buffer == [] && writer.flushDeadline == None
    requires writer.sender.batches == [] && !writer.sender.receiverDropped
    modifies writer, writer.sender`batches
    ensures out == PumpOutput(writer.config, arrivals, closedAt)
    ensures |out| == |writer.sender.batches|
    ensures forall i :: 0 <= i < |out| ==> out[i].batch == writer.sender.batches[i]
  {
    ghost var c := writer.config;
    out := [];
    var armedAt := 0;
    hide Inv, UntilTime, ItemArrives, FlushAt;
    for i := 0 to |arrivals|
      invariant Matches(writer, AfterArrivals(c, arrivals[..i]), armedAt, out)
    {
      ghost var prior := arrivals[..i];
      assert arrivals[..i + 1][..i] == prior;
      LoopKeepsInv(c, prior);
      armedAt, out := WaitUntil(writer, armedAt, out, arrivals[i].at, AfterArrivals(c, prior), prior);
      armedAt, out := AcceptItem(writer, out, arrivals[i], UntilTime(c, AfterArrivals(c, prior), arrivals[i].at));
    }
    assert arrivals[..|arrivals|] == arrivals;
    LoopKeepsInv(c, arrivals);
    armedAt, out := WaitUntil(writer, armedAt, out, closedAt, AfterArrivals(c, arrivals), arrivals);
    out := CloseAt(writer, out, closedAt, UntilTime(c, AfterArrivals(c, arrivals), closedAt));
  }

  /** The item branch: push the item and arm the timer. */
  method AcceptItem<T>(writer: S.BatchWriter<Arrival<T>>, logged: seq<Flushed<T>>, a: Arrival<T>, ghost p: Pump<T>)
    returns (armedAt: Instant, out: seq<Flushed<T>>)
    requires Matches(writer, p, p.armedAt, logged)
    modifies writer, writer.sender`batches
    ensures Matches(writer, ItemArrives(writer.config, p, a), armedAt, out)
  {
    var r := writer.Push(a, a.at);
    armedAt := a.at;
    out := Log(writer, a.at, logged);
  }

  /** The flush after the loop. */
  method CloseAt<T>(writer: S.BatchWriter<Arrival<T>>, logged: seq<Flushed<T>>, now: Instant, ghost p: Pump<T>)
    returns (out: seq<Flushed<T>>)
    requires Matches(writer, p, p.armedAt, logged)
    modifies writer, writer.sender`batches
    ensures Matches(writer, FlushAt(p, now), p.armedAt, out)
  {
    var r := writer.Flush();
    out := Log(writer, now, logged);
  }

  /** The writer, its channel and the log stand as the loop state says. */
  ghost predicate Matches<T>(writer: S.BatchWriter<Arrival<T>>, p: Pump<T>, armedAt: Instant, out: seq<Flushed<T>>)
    reads writer, writer.sender
  {
    && writer.buffer == p.buffer && writer.flushDeadline == p.flushDeadline && armedAt == p.armedAt && out == p.out
    && Logged(writer, out)
  }

  ghost predicate Logged<T>(writer: S.BatchWriter<Arrival<T>>, out: seq<Flushed<T>>)
    reads writer, writer.sender
  {
    && !writer.sender.receiverDropped
    && |out| == |writer.sender.batches|
    && forall i :: 0 <= i < |out| ==> out[i].batch == writer.sender.batches[i]
  }

  /** Records the batch that was sent at `now`, if one was. */
  method Log<T>(writer: S.BatchWriter<Arrival<T>>, now: Instant, out: seq<Flushed<T>>) returns (log: seq<Flushed<T>>)
    requires |out| <= |writer.sender.batches| <= |out| + 1
    ensures log == if |writer.sender.batches| == |out| then out else out + [Flushed(now, writer.sender.batches[|out|])]
  {
    log := out;
    if |writer.sender.batches| > |out| {
      log := log + [Flushed(now, writer.sender.batches[|out|])];
    }
  }

  /** The loop's iterations until `t`: the timer branch runs while it comes first. */
  method WaitUntil<T>(writer: S.BatchWriter<Arrival<T>>, armed: Instant, logged: seq<Flushed<T>>, t: Instant,
                                                    ghost p: Pump<T>, ghost arrivals: seq<Arrival<T>>)
    returns (armedAt: Instant, out: seq<Flushed<T>>)
    requires Matches(writer, p, armed, logged) && Inv(writer.config, p, arrivals)
    modifies writer, writer.sender`batches
    ensures Matches(writer, UntilTime(writer.config, p, t), armedAt, out)
    ensures Inv(writer.config, UntilTime(writer.config, p, t), arrivals)
  {
    armedAt, out := armed, logged;
    UntilKeepsInv(writer.config, p, arrivals, t);
    if p.buffer != [] {
      TimerAlwaysFlushes(writer.config, p, arrivals);
      assert TimerFires(writer.config, p).buffer == [];
    }
    hide Inv, FlushAt, TimerFires;
    while writer.buffer != [] && armedAt + writer.config.maxDelay < t
      invariant
        || Matches(writer, p, armedAt, out)
        || (writer.buffer == [] && Matches(writer, UntilTime(writer.config, p, t), armedAt, out))
      decreases |writer.buffer|
    {
      armedAt, out := FireTimer(writer, armedAt, out, p);
    }
  }

  /** The timer branch, which finds the deadline passed. */
  method FireTimer<T>(writer: S.BatchWriter<Arrival<T>>, armed: Instant, logged: seq<Flushed<T>>, ghost p: Pump<T>)
    returns (armedAt: Instant, out: seq<Flushed<T>>)
    requires Matches(writer, p, armed, logged)
    modifies writer, writer.sender`batches
    ensures Matches(writer, TimerFires(writer.config, p), armedAt, out)
  {
    armedAt := armed + writer.config.maxDelay;
    var r := writer.CheckDeadline(armedAt);
    out := Log(writer, armedAt, logged);
  }
}
