/**
  What batch writers and readers report: when a batch leaves, what it holds, and what happens
  at either end once the other one has been dropped.
*/
module StreamReports {
  import opened Sequences
  import opened Wrappers
  import opened Wire
  import opened Stream

  /** A limit of 0 works like 1. */
  function FullSize(c: BatchConfig): nat {
    if c.maxItems == 0 then 1 else c.maxItems
  }

  // ----- One operation of the writer -----

  /** What an operation of the writer makes leave, if anything: the items buffered, and the one pushed last. */
  ghost function Due<T>(c: BatchConfig, w: Writer<T>, op: Op<T>): seq<T> {
    match op
    case Push(item, _) => if |w.buffer| + 1 >= FullSize(c) then w.buffer + [item] else []
    case Flush => w.buffer
    case CheckDeadline(now) =>
      if exists deadline :: deadline <= now && w.flushDeadline == Some(deadline) then w.buffer else []
    case Recv => []
  }

  function Written<T>(c: BatchConfig, w: Writer<T>, op: Op<T>): (SendResult, Writer<T>) {
    match op
    case Push(item, now) => AfterPush(c, w, item, now)
    case Flush => AfterFlush(w)
    case CheckDeadline(now) => AfterCheckDeadline(w, now)
    case Recv => (Ok(()), w)
  }

  /**
    A push makes the buffer leave when it fills it, a check when a deadline is set and has
    come, and a flush always. What leaves is one batch, after which the buffer is empty and
    no deadline is set; if the consumer has been dropped, it is lost and reported.
    Otherwise nothing is sent, nothing is reported, and the item pushed waits, with a deadline
    that is `maxDelay` after the first.
  */
  lemma WriterReports<T>(c: BatchConfig, w: Writer<T>, op: Op<T>)
    requires !op.Recv?
    ensures var (r, w') := Written(c, w, op);
            var due := Due(c, w, op);
            && w'.consumerDropped == w.consumerDropped
            && (due != [] && w.consumerDropped ==> r == Err(ConsumerDropped) && w'.sent == w.sent)
            && (due != [] && !w.consumerDropped ==> r == Ok(()) && w'.sent == w.sent + [due])
            && (due != [] ==> w'.buffer == [] && w'.flushDeadline == None)
            && (due == [] ==> r == Ok(()) && w'.sent == w.sent)
            && (due == [] && !op.Push? ==> w' == w)
            && (due == [] && op.Push? ==>
                  && w'.buffer == w.buffer + [op.item]
                  && w'.flushDeadline == if w.flushDeadline == None then Some(op.now + c.maxDelay) else w.flushDeadline)
  {
    if op.CheckDeadline? && w.flushDeadline.Some? { assert w.flushDeadline == Some(w.flushDeadline.value); }
  }

  // ----- Full batches -----

  lemma RestKeepsSizes<T>(batches: seq<seq<T>>, rest: seq<seq<T>>, size: nat)
    requires |rest| <= |batches| && rest == batches[|batches| - |rest|..]
    requires forall i :: 0 <= i < |batches| ==> |batches[i]| == size
    ensures forall i :: 0 <= i < |rest| ==> |rest[i]| == size
  {
  }

  /** As long as items are only pushed and received, every batch is full. */
  lemma {:induction false} PushesFillBatches<T>(c: BatchConfig, ops: seq<Op<T>>)
    requires forall i :: 0 <= i < |ops| ==> ops[i].Push? || ops[i].Recv?
    ensures var p := Run(c, ops);
            && |p.writer.buffer| < FullSize(c) && !p.writer.consumerDropped
            && forall i :: 0 <= i < |p.writer.sent| ==> |p.writer.sent[i]| == FullSize(c)
  {
    if ops != [] {
      var prior, op := ops[..|ops| - 1], ops[|ops| - 1];
      PushesFillBatches(c, prior);
      var p := Run(c, prior);
      if op.Push? {
        WriterReports(c, p.writer, op);
        hide AfterPush, AfterRecv;
      } else {
        assert forall i :: 0 <= i < |p.writer.sent| ==> p.writer.sent[i] != [];
        RecvTakesOldest(p.current, p.writer.sent);
        hide AfterRecv, FullSize, Flatten;
        RestKeepsSizes(p.writer.sent, AfterRecv(p.current, p.writer.sent, false).2, FullSize(c));
      }
    }
  }

  // ----- A dropped consumer -----

  function WriterRun<T>(c: BatchConfig, w: Writer<T>, ops: seq<Op<T>>): Writer<T> {
    if ops == [] then w else Written(c, WriterRun(c, w, ops[..|ops| - 1]), ops[|ops| - 1]).1
  }

  /** The reports that are errors. */
  function Errors<T>(c: BatchConfig, w: Writer<T>, ops: seq<Op<T>>): seq<StreamSendError> {
    if ops == [] then []
    else
      var prior := ops[..|ops| - 1];
      var r := Written(c, WriterRun(c, w, prior), ops[|ops| - 1]).0;
      Errors(c, w, prior) + match r case Ok(_) => [] case Err(error) => [error]
  }

  function PushedBy<T>(ops: seq<Op<T>>): seq<T> {
    if ops == [] then []
    else PushedBy(ops[..|ops| - 1]) + if ops[|ops| - 1].Push? then [ops[|ops| - 1].item] else []
  }

  /**
    Once the consumer has been dropped nothing is sent any more. What is pushed is lost, in
    non-empty batches and in order, or still waits; every batch lost is reported, as one error
    of the operation that lost it, and nothing else is.
  */
  lemma {:induction false} DroppedConsumerLosesBatches<T>(c: BatchConfig, w: Writer<T>, ops: seq<Op<T>>)
    returns (lost: seq<seq<T>>)
    requires w.consumerDropped && forall i :: 0 <= i < |ops| ==> !ops[i].Recv?
    ensures var w' := WriterRun(c, w, ops);
            && w'.consumerDropped && w'.sent == w.sent
            && Flatten(lost) + w'.buffer == w.buffer + PushedBy(ops)
            && (forall i :: 0 <= i < |lost| ==> lost[i] != [])
            && |Errors(c, w, ops)| == |lost|
            && forall i :: 0 <= i < |lost| ==> Errors(c, w, ops)[i] == ConsumerDropped
  {
    if ops == [] {
      lost := [];
      ConcatNothing(w.buffer);
    } else {
      var prior, op := ops[..|ops| - 1], ops[|ops| - 1];
      lost := DroppedConsumerLosesBatches(c, w, prior);
      var w1 := WriterRun(c, w, prior);
      WriterReports(c, w1, op);
      var due := Due(c, w1, op);
      var pushed := if op.Push? then [op.item] else [];
      assert due != [] ==> due == w1.buffer + pushed by { ConcatNothing(w1.buffer); }
      assert due == [] ==> Written(c, w1, op).1.buffer == w1.buffer + pushed by { ConcatNothing(w1.buffer); }
      hide Written, Due;
      ConcatAssociates(Flatten(lost), w1.buffer, pushed);
      ConcatAssociates(w.buffer, PushedBy(prior), pushed);
      if due != [] {
        FlattenAppend(lost, due);
        lost := lost + [due];
        ConcatNothing(Flatten(lost));
      }
    }
  }

  // ----- Receiving -----

  /**
    What a reader gets from any batches, empty ones included: the oldest item and nothing
    else, or, when there is none, whether more can come: it is told that the stream is closed
    exactly when the writer has been dropped.
  */
  lemma {:induction false} ReaderReports<T>(current: seq<T>, batches: seq<seq<T>>, senderDropped: bool)
    ensures var (r, current', batches') := AfterRecv(current, batches, senderDropped);
            var rest := current + Flatten(batches);
            && (rest != [] ==> r == Item(rest[0]) && current' + Flatten(batches') == rest[1..])
            && (rest == [] ==> r == (if senderDropped then Closed else Pending) && current' == [] && batches' == [])
    decreases |batches|
  {
    if current != [] {
      TailOfConcat(current, Flatten(batches));
    } else if batches != [] {
      ReaderReports(batches[0], batches[1..], senderDropped);
      ConcatNothing(Flatten(batches));
    }
  }
}
