/**
  Batching of stream items: the writer that collects items into batches, the reader that
  takes them apart again, and what the two preserve together.
*/
module Stream {
  import opened Sequences
  import opened Wrappers
  import opened Wire

  datatype BatchConfig = BatchConfig(maxItems: nat, maxDelay: nat)
  {
    /** The items that fill a batch: a limit of 0 flushes every item by itself, like 1. */
    function Limit(): (n: nat)
      ensures n >= 1
    {
      if maxItems == 0 then 1 else maxItems
    }
  }

  /** `BatchConfig::new`, which clamps the limit. */
  function NewBatchConfig(maxItems: nat, maxDelay: nat): (c: BatchConfig)
    ensures c.maxItems == c.Limit() == BatchConfig(maxItems, maxDelay).Limit() && c.maxDelay == maxDelay
  {
    BatchConfig(if maxItems < 1 then 1 else maxItems, maxDelay)
  }

  datatype StreamSendError = ConsumerDropped | Full

  /** The writer's side of the state, and the batches it has sent that nobody has received yet. */
  datatype Writer<T> = Writer(buffer: seq<T>, flushDeadline: Option<Instant>, sent: seq<seq<T>>, consumerDropped: bool)

  type SendResult = Result<(), StreamSendError>

  function AfterFlush<T>(w: Writer<T>): (SendResult, Writer<T>) {
    if w.buffer == [] then (Ok(()), w)
    else
      var w' := w.(buffer := [], flushDeadline := None);
      if w.consumerDropped then (Err(ConsumerDropped), w') else (Ok(()), w'.(sent := w.sent + [w.buffer]))
  }

  function AfterPush<T>(c: BatchConfig, w: Writer<T>, item: T, now: Instant): (SendResult, Writer<T>) {
    var deadline := if w.flushDeadline.None? then Some(now + c.maxDelay) else w.flushDeadline;
    var w' := w.(buffer := w.buffer + [item], flushDeadline := deadline);
    if |w'.buffer| >= c.maxItems then AfterFlush(w') else (Ok(()), w')
  }

  function AfterCheckDeadline<T>(w: Writer<T>, now: Instant): (SendResult, Writer<T>) {
    if w.flushDeadline.Some? && now >= w.flushDeadline.value then AfterFlush(w) else (Ok(()), w)
  }

  function Flatten<T>(batches: seq<seq<T>>): seq<T> {
    if batches == [] then [] else batches[0] + Flatten(batches[1..])
  }

  datatype Received<T> = Item(item: T) | Closed | Pending

  /** Receiving from `current`, then from `batches`, skipping empty batches. */
  function AfterRecv<T>(current: seq<T>, batches: seq<seq<T>>, senderDropped: bool)
    : (r: (Received<T>, seq<T>, seq<seq<T>>))
    decreases |batches|
  {
    if current != [] then (Item(current[0]), current[1..], batches)
    else if batches != [] then AfterRecv(batches[0], batches[1..], senderDropped)
    else (if senderDropped then Closed else Pending, current, batches)
  }

  // ----- The objects -----

  /** The channel between the two, without its capacity limit. */
  class BatchChannel<T> {
    var batches: seq<seq<T>>
    var receiverDropped: bool
    var senderDropped: bool

    constructor ()
      ensures batches == [] && !receiverDropped && !senderDropped
    {
      batches, receiverDropped, senderDropped := [], false, false;
    }
  }

  class BatchWriter<T> {
    const sender: BatchChannel<T>
    const config: BatchConfig
    var buffer: seq<T>
    var flushDeadline: Option<Instant>

    constructor (sender: BatchChannel<T>, config: BatchConfig)
      ensures this.sender == sender && this.config == config && buffer == [] && flushDeadline == None
    {
      this.sender, this.config := sender, config;
      buffer, flushDeadline := [], None;
    }

    function State(): Writer<T>
      reads this, sender
    {
      Writer(buffer, flushDeadline, sender.batches, sender.receiverDropped)
    }

    method Push(item: T, now: Instant) returns (r: SendResult)
      modifies this, sender`batches
      ensures (r, State()) == AfterPush(config, old(State()), item, now)
    {
      r := Ok(());
      buffer := buffer + [item];
      if flushDeadline.None? {
        flushDeadline := Some(now + config.maxDelay);
      }
      if |buffer| >= config.maxItems {
        r := Flush();
      }
    }

    method Flush() returns (r: SendResult)
      modifies this, sender`batches
      ensures (r, State()) == AfterFlush(old(State()))
    {
      if buffer == [] {
        return Ok(());
      }
      var batch := buffer;
      buffer := [];
      flushDeadline := None;
      if sender.receiverDropped {
        return Err(ConsumerDropped);
      }
      sender.batches := sender.batches + [batch];
      return Ok(());
    }

    method CheckDeadline(now: Instant) returns (r: SendResult)
      modifies this, sender`batches
      ensures (r, State()) == AfterCheckDeadline(old(State()), now)
    {
      r := Ok(());
      if flushDeadline.Some? {
        if now >= flushDeadline.value {
          r := Flush();
        }
      }
    }
  }

  class BatchReader<T> {
    const receiver: BatchChannel<T>
    var currentBatch: seq<T>

    constructor (receiver: BatchChannel<T>)
      ensures this.receiver == receiver && currentBatch == []
    {
      this.receiver, currentBatch := receiver, [];
    }

    method Recv() returns (r: Received<T>)
      modifies this, receiver`batches
      ensures (r, currentBatch, receiver.batches)
           == AfterRecv(old(currentBatch), old(receiver.batches), receiver.senderDropped)
    {
      while true
        invariant AfterRecv(currentBatch, receiver.batches, receiver.senderDropped)
               == AfterRecv(old(currentBatch), old(receiver.batches), old(receiver.senderDropped))
        decreases |receiver.batches|
      {
        if currentBatch != [] {
          r := Item(currentBatch[0]);
          currentBatch := currentBatch[1..];
          return;
        }
        if receiver.batches == [] {
          return if receiver.senderDropped then Closed else Pending;
        }
        currentBatch := receiver.batches[0];
        receiver.batches := receiver.batches[1..];
      }
    }
  }

  // ----- Round trip -----

  datatype Op<T> = Push(item: T, now: Instant) | Flush | CheckDeadline(now: Instant) | Recv

  /** Writer, channel and reader in a run, with everything pushed and everything received. */
  datatype Pipe<T> = Pipe(writer: Writer<T>, current: seq<T>, pushed: seq<T>, received: seq<T>)

  function Step<T>(c: BatchConfig, p: Pipe<T>, op: Op<T>): Pipe<T> {
    match op
    case Push(item, now) => p.(writer := AfterPush(c, p.writer, item, now).1, pushed := p.pushed + [item])
    case Flush => p.(writer := AfterFlush(p.writer).1)
    case CheckDeadline(now) => p.(writer := AfterCheckDeadline(p.writer, now).1)
    case Recv =>
      var (r, current, batches) := AfterRecv(p.current, p.writer.sent, false);
      p.(writer := p.writer.(sent := batches), current := current,
      received := if r.Item? then p.received + [r.item] else p.received)
  }

  function Run<T>(c: BatchConfig, ops: seq<Op<T>>): Pipe<T> {
    if ops == [] then Pipe(Writer([], None, [], false), [], [], [])
    else Step(c, Run(c, ops[..|ops| - 1]), ops[|ops| - 1])
  }

  /** What the pipe holds between producer and consumer, oldest first. */
  function InTransit<T>(p: Pipe<T>): seq<T> {
    p.current + Flatten(p.writer.sent) + p.writer.buffer
  }

  ghost predicate Inv<T>(c: BatchConfig, p: Pipe<T>) {
    && !p.writer.consumerDropped
    && p.received + InTransit(p) == p.pushed
    && (forall i :: 0 <= i < |p.writer.sent| ==> 1 <= |p.writer.sent[i]| <= c.Limit())
    && |p.writer.buffer| < c.Limit()
    && (p.writer.flushDeadline.Some? <==> p.writer.buffer != [])
  }

  lemma {:induction false} FlattenAppend<T>(batches: seq<seq<T>>, batch: seq<T>)
    ensures Flatten(batches + [batch]) == Flatten(batches) + batch
  {
    if batches == [] {
      assert (batches + [batch])[1..] == [];
    } else {
      FlattenAppend(batches[1..], batch);
      assert (batches + [batch])[1..] == batches[1..] + [batch];
    }
  }

  /** Receiving takes the oldest item, and reports none only when there is none. */
  lemma {:induction false} RecvTakesOldest<T>(current: seq<T>, batches: seq<seq<T>>)
    requires forall i :: 0 <= i < |batches| ==> batches[i] != []
    ensures var (r, current', batches') := AfterRecv(current, batches, false);
            && (if r.Item? then [r.item] else []) + (current' + Flatten(batches')) == current + Flatten(batches)
            && (r.Item? <==> current + Flatten(batches) != [])
            && |batches'| <= |batches| && batches' == batches[|batches| - |batches'|..]
    decreases |batches|
  {
    if current == [] && batches != [] {
      RecvTakesOldest(batches[0], batches[1..]);
      assert current + Flatten(batches) == batches[0] + Flatten(batches[1..]);
    }
  }

  lemma FlushKeepsInv<T>(c: BatchConfig, p: Pipe<T>)
    requires !p.writer.consumerDropped && p.received + InTransit(p) == p.pushed
    requires forall i :: 0 <= i < |p.writer.sent| ==> 1 <= |p.writer.sent[i]| <= c.Limit()
    requires |p.writer.buffer| <= c.Limit() && (p.writer.flushDeadline.Some? <==> p.writer.buffer != [])
    ensures Inv(c, p.(writer := AfterFlush(p.writer).1))
  {
    FlattenAppend(p.writer.sent, p.writer.buffer);
  }

  lemma StepKeepsInv<T>(c: BatchConfig, p: Pipe<T>, op: Op<T>)
    requires Inv(c, p)
    ensures Inv(c, Step(c, p, op))
  {
    match op
    case Push(item, now) =>
      PushKeepsInv(c, p, item, now);
    case Flush =>
      FlushKeepsInv(c, p);
    case CheckDeadline(now) =>
      FlushKeepsInv(c, p);
    case Recv =>
      RecvKeepsInv(c, p);
  }

  lemma SuffixKeepsSizes<T>(batches: seq<seq<T>>, rest: seq<seq<T>>, limit: nat)
    requires |rest| <= |batches| && rest == batches[|batches| - |rest|..]
    requires forall i :: 0 <= i < |batches| ==> 1 <= |batches[i]| <= limit
    ensures forall i :: 0 <= i < |rest| ==> 1 <= |rest[i]| <= limit
  {
  }

  lemma RecvKeepsInv<T>(c: BatchConfig, p: Pipe<T>)
    requires Inv(c, p)
    ensures Inv(c, Step(c, p, Recv))
  {
    var (r, current, batches) := AfterRecv(p.current, p.writer.sent, false);
    RecvTakesOldest(p.current, p.writer.sent);
    SuffixKeepsSizes(p.writer.sent, batches, c.Limit());
    RecvKeepsItems(p);
    hide AfterRecv, InTransit, Flatten, BatchConfig.Limit;
    ConcatNothing(p.received);
  }

  /** What has been received and what is in transit stay the same together. */
  lemma RecvKeepsItems<T>(p: Pipe<T>)
    requires !p.writer.consumerDropped && forall i :: 0 <= i < |p.writer.sent| ==> p.writer.sent[i] != []
    ensures var (r, current, batches) := AfterRecv(p.current, p.writer.sent, false);
            var after := p.(writer := p.writer.(sent := batches), current := current,
                         received := p.received + if r.Item? then [r.item] else []);
            after.received + InTransit(after) == p.received + InTransit(p)
  {
    RecvTakesOldest(p.current, p.writer.sent);
    var (r, current, batches) := AfterRecv(p.current, p.writer.sent, false);
    hide AfterRecv, Flatten;
    var head := if r.Item? then [r.item] else [];
    var after := p.(writer := p.writer.(sent := batches), current := current, received := p.received + head);
    InTransitIs(p);
    InTransitIs(after);
    hide InTransit;
    var rest := current + Flatten(batches);
    ConcatAssociates(head, rest, p.writer.buffer);
    ConcatAssociates(p.received, head, rest + p.writer.buffer);
  }

  lemma InTransitIs<T>(p: Pipe<T>)
    ensures InTransit(p) == p.current + Flatten(p.writer.sent) + p.writer.buffer
  {
  }

  lemma PushKeepsInv<T>(c: BatchConfig, p: Pipe<T>, item: T, now: Instant)
    requires Inv(c, p)
    ensures Inv(c, Step(c, p, Push(item, now)))
  {
    var deadline := if p.writer.flushDeadline.None? then Some(now + c.maxDelay) else p.writer.flushDeadline;
    var w := p.writer.(buffer := p.writer.buffer + [item], flushDeadline := deadline);
    var p' := p.(writer := w, pushed := p.pushed + [item]);
    assert InTransit(p') == InTransit(p) + [item];
    if |w.buffer| >= c.maxItems { FlushKeepsInv(c, p'); }
    hide AfterFlush, Flatten;
  }

  /**
    The round trip: over any interleaving of pushes, flushes, deadline checks and receives,
    what was received, followed by what the reader, the channel and the writer hold, is
    exactly what was pushed. Every batch has between 1 and the limit of items, the buffer
    stays below the limit, and a flush deadline is set exactly while something is buffered.
  */
  lemma {:induction false} BatchRoundTrip<T>(c: BatchConfig, ops: seq<Op<T>>)
    ensures Inv(c, Run(c, ops))
    ensures Run(c, ops).received <= Run(c, ops).pushed
  {
    if ops != [] {
      BatchRoundTrip(c, ops[..|ops| - 1]);
      StepKeepsInv(c, Run(c, ops[..|ops| - 1]), ops[|ops| - 1]);
    }
  }
}
