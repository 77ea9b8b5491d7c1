/**
  The batched transport sender: tell envelopes collect per destination node under a lock,
  and leave in batches that are sent after the lock has been released. Tasks therefore
  interleave: a batch in flight is out of the buffers but not yet delivered or failed.
*/
module BatchedTransport {
  import opened Wrappers
  import opened Wire
  import opened Sequences
  import opened Stream

  type Envelopes = seq<WireEnvelope>
  type Buffers = map<NodeId, Envelopes>

  datatype TransportError = NotTell(mode: SendMode) | SendFailed(reason: string)

  function BufferOf(b: Buffers, node: NodeId): Envelopes {
    if node in b then b[node] else []
  }

  /** The locked part of `send`: the buffers afterwards, and the batch to send, if the buffer was full. */
  function AfterAccept(c: BatchConfig, b: Buffers, e: WireEnvelope): (Buffers, Envelopes) {
    var buffer := BufferOf(b, e.node) + [e];
    if |buffer| >= c.maxItems then (b[e.node := []], buffer) else (b[e.node := buffer], [])
  }

  /** The locked part of `flush_node`. */
  function AfterFlushNode(b: Buffers, node: NodeId): (Buffers, Envelopes) {
    (b - {node}, BufferOf(b, node))
  }

  // ----- The sender and the transport it uses -----

  /** A batch handed to the transport, and whether that failed. */
  datatype Attempt = Attempt(node: NodeId, batch: Envelopes, fault: Option<TransportError>)

  class Transport {
    var attempts: seq<Attempt>

    constructor ()
      ensures attempts == []
    {
      attempts := [];
    }

    method Send(node: NodeId, batch: Envelopes, fault: Option<TransportError>) returns (r: Result<(), TransportError>)
      modifies this
      ensures attempts == old(attempts) + [Attempt(node, batch, fault)]
      ensures r == if fault.Some? then Err(fault.value) else Ok(())
    {
      attempts := attempts + [Attempt(node, batch, fault)];
      r := if fault.Some? then Err(fault.value) else Ok(());
    }
  }

  /** The attempts that flushing `nodes` in this order makes. */
  function AttemptsFor(b: Buffers, nodes: seq<NodeId>, faults: NodeId -> Option<TransportError>): seq<Attempt> {
    if nodes == [] then []
    else
      var n := nodes[|nodes| - 1];
      AttemptsFor(b, nodes[..|nodes| - 1], faults) + [Attempt(n, BufferOf(b, n), faults(n))]
  }

  function FirstFault(nodes: seq<NodeId>, faults: NodeId -> Option<TransportError>): Option<TransportError> {
    if nodes == [] then None
    else if faults(nodes[0]).Some? then faults(nodes[0])
    else FirstFault(nodes[1..], faults)
  }

  /** The nodes with something buffered. */
  function BusyNodes(b: Buffers): set<NodeId> {
    set n | n in b && b[n] != []
  }

  ghost predicate Distinct(nodes: seq<NodeId>) {
    forall i, j :: 0 <= i < j < |nodes| ==> nodes[i] != nodes[j]
  }

  /** Of the nodes drained, those with something buffered that are no longer to do have been visited once. */
  ghost predicate Visits(drained: Buffers, visited: seq<NodeId>, todo: set<NodeId>) {
    Distinct(visited) && forall n :: n in visited <==> n in BusyNodes(drained) && n !in todo
  }

  lemma VisitsNext(drained: Buffers, visited: seq<NodeId>, todo: set<NodeId>, node: NodeId)
    requires Visits(drained, visited, todo) && node in todo && node in drained
    ensures Visits(drained, if drained[node] != [] then visited + [node] else visited, todo - {node})
  {
    assert node !in visited;
  }

  lemma AttemptsAppend(b: Buffers, nodes: seq<NodeId>, node: NodeId, faults: NodeId -> Option<TransportError>)
    ensures AttemptsFor(b, nodes + [node], faults)
         == AttemptsFor(b, nodes, faults) + [Attempt(node, BufferOf(b, node), faults(node))]
  {
    InitOfAppend(nodes, node);
  }

  class BatchedTransportSender {
    const transport: Transport
    const config: BatchConfig
    var buffers: Buffers

    constructor (transport: Transport, config: BatchConfig)
      ensures this.transport == transport && this.config == config && buffers == map[]
    {
      this.transport, this.config, buffers := transport, config, map[];
    }

    method Send(e: WireEnvelope, fault: Option<TransportError>) returns (r: Result<(), TransportError>)
      modifies this, transport
      ensures e.sendMode != Tell ==>
                && r == Err(NotTell(e.sendMode))
                && buffers == old(buffers) && transport.attempts == old(transport.attempts)
      ensures e.sendMode == Tell ==>
                var (b, batch) := AfterAccept(config, old(buffers), e);
                && buffers == b
                && transport.attempts == old(transport.attempts)
                                         + (if batch == [] then [] else [Attempt(e.node, batch, fault)])
                && r == if batch != [] && fault.Some? then Err(fault.value) else Ok(())
    {
      if e.sendMode != Tell {
        return Err(NotTell(e.sendMode));
      }
      var buffer := if e.node in buffers then buffers[e.node] else [];
      buffer := buffer + [e];
      buffers := buffers[e.node := buffer];
      if |buffer| >= config.maxItems {
        buffers := buffers[e.node := []];
        r := transport.Send(e.node, buffer, fault);
        return;
      }
      return Ok(());
    }

    method FlushNode(node: NodeId, fault: Option<TransportError>) returns (r: Result<(), TransportError>)
      modifies this, transport
      ensures var (b, batch) := AfterFlushNode(old(buffers), node);
              && buffers == b
              && transport.attempts == old(transport.attempts)
                                       + (if batch == [] then [] else [Attempt(node, batch, fault)])
              && r == if batch != [] && fault.Some? then Err(fault.value) else Ok(())
    {
      var batch := if node in buffers then buffers[node] else [];
      buffers := buffers - {node};
      r := Ok(());
      if batch != [] {
        r := transport.Send(node, batch, fault);
      }
    }

    /**
      Every node with something buffered is attempted exactly once, in the order `visited`
      that the map happened to yield, whether or not others fail; the first fault is returned.
    */
    method FlushAll(faults: NodeId -> Option<TransportError>)
      returns (r: Result<(), TransportError>, ghost visited: seq<NodeId>)
      modifies this, transport
      ensures buffers == map[]
      ensures Distinct(visited) && forall n :: n in visited <==> n in old(buffers) && old(buffers)[n] != []
      ensures |transport.attempts| == |old(transport.attempts)| + |visited|
      ensures transport.attempts[..|old(transport.attempts)|] == old(transport.attempts)
      ensures forall i :: 0 <= i < |visited| ==>
                            transport.attempts[|old(transport.attempts)| + i]
                            == Attempt(visited[i], old(buffers)[visited[i]], faults(visited[i]))
      ensures r.Ok? ==> forall i :: 0 <= i < |visited| ==> faults(visited[i]) == None
      ensures r.Err? ==> exists i :: && 0 <= i < |visited| && faults(visited[i]) == Some(r.error)
                                     && forall j :: 0 <= j < i ==> faults(visited[j]) == None
    {
      var drained := buffers;
      buffers := map[];
      visited := [];
      var firstError: Option<TransportError> := None;
      var todo := drained.Keys;
      while todo != {}
        invariant buffers == map[]
        invariant todo <= drained.Keys
        invariant Visits(drained, visited, todo)
        invariant transport.attempts == old(transport.attempts) + AttemptsFor(drained, visited, faults)
        invariant firstError == FirstFault(visited, faults)
        decreases |todo|
      {
        hide Visits, AttemptsFor, FirstFault;
        var node :| node in todo;
        var batch := drained[node];
        VisitsNext(drained, visited, todo, node);
        todo := todo - {node};
        if batch != [] {
          var sent := transport.Send(node, batch, faults(node));
          FirstFaultAppend(visited, node, faults);
          AttemptsAppend(drained, visited, node, faults);
          if sent.Err? && firstError.None? {
            firstError := Some(sent.error);
          }
          ConcatAssociates(old(transport.attempts), AttemptsFor(drained, visited, faults),
                           [Attempt(node, batch, faults(node))]);
          visited := visited + [node];
        }
      }
      r := if firstError.Some? then Err(firstError.value) else Ok(());
      AttemptsInOrder(drained, visited, faults);
      FirstFaultIs(visited, faults);
    }
  }

  lemma {:induction false} AttemptsInOrder(b: Buffers, nodes: seq<NodeId>, faults: NodeId -> Option<TransportError>)
    ensures |AttemptsFor(b, nodes, faults)| == |nodes|
    ensures forall i :: 0 <= i < |nodes| ==>
                          AttemptsFor(b, nodes, faults)[i] == Attempt(nodes[i], BufferOf(b, nodes[i]), faults(nodes[i]))
  {
    if nodes != [] { AttemptsInOrder(b, nodes[..|nodes| - 1], faults); }
  }

  /** The first fault is that of the first node which has one. */
  lemma {:induction false} FirstFaultIs(nodes: seq<NodeId>, faults: NodeId -> Option<TransportError>)
    ensures var fault := FirstFault(nodes, faults);
            && (fault.None? ==> forall i :: 0 <= i < |nodes| ==> faults(nodes[i]) == None)
            && (fault.Some? ==> exists i :: && 0 <= i < |nodes| && faults(nodes[i]) == fault
                                            && forall j :: 0 <= j < i ==> faults(nodes[j]) == None)
  {
    if nodes != [] && faults(nodes[0]).None? {
      FirstFaultIs(nodes[1..], faults);
      var fault := FirstFault(nodes, faults);
      if fault.Some? {
        var i :| && 0 <= i < |nodes[1..]| && faults(nodes[1..][i]) == fault
                 && forall j :: 0 <= j < i ==> faults(nodes[1..][j]) == None;
        assert faults(nodes[i + 1]) == fault;
        assert forall j :: 0 < j < i + 1 ==> nodes[j] == nodes[1..][j - 1];
      }
    }
  }

  lemma {:induction false} FirstFaultAppend(nodes: seq<NodeId>, node: NodeId, faults: NodeId -> Option<TransportError>)
    ensures FirstFault(nodes + [node], faults)
         == if FirstFault(nodes, faults).Some? then FirstFault(nodes, faults) else faults(node)
  {
    if nodes == [] {
      assert FirstFault([node][1..], faults) == None;
    } else {
      FirstFaultAppend(nodes[1..], node, faults);
      assert (nodes + [node])[1..] == nodes[1..] + [node];
    }
  }

  // ----- Interleaved tasks -----

  datatype Status = InFlight | Delivered | Failed

  datatype Batch = Batch(envelopes: Envelopes, status: Status)

  /**
    The buffers, and for every node the batches taken from them so far, in the order of the
    lock, and the indices of those that have been delivered, in the order of their delivery.
  */
  datatype Net = Net(buffers: Buffers, taken: map<NodeId, seq<Batch>>, order: map<NodeId, seq<nat>>)

  /** A step that holds the lock, or the end of one batch's transmission outside it. */
  datatype Step =
    | Accept(envelope: WireEnvelope)
    | FlushNode(node: NodeId)
    | FlushAll
    | Finish(node: NodeId, index: nat, delivered: bool)

  function TakenFor(s: Net, node: NodeId): seq<Batch> {
    if node in s.taken then s.taken[node] else []
  }

  function OrderFor(s: Net, node: NodeId): seq<nat> {
    if node in s.order then s.order[node] else []
  }

  function Take(s: Net, b: Buffers, node: NodeId, batch: Envelopes): Net {
    if batch == [] then s.(buffers := b)
    else s.(buffers := b, taken := s.taken[node := TakenFor(s, node) + [Batch(batch, InFlight)]])
  }

  /** The batches taken for `node`, with `buffer` as one more unless it is empty. */
  function TakenWith(s: Net, node: NodeId, buffer: Envelopes): seq<Batch> {
    TakenFor(s, node) + if buffer == [] then [] else [Batch(buffer, InFlight)]
  }

  function AfterStep(c: BatchConfig, s: Net, step: Step): Net {
    match step
    case Accept(e) =>
      if e.sendMode != Tell then s
      else
        var (b, batch) := AfterAccept(c, s.buffers, e);
        Take(s, b, e.node, batch)
    case FlushNode(node) =>
      var (b, batch) := AfterFlushNode(s.buffers, node);
      Take(s, b, node, batch)
    case FlushAll =>
      var nodes := s.taken.Keys + s.buffers.Keys;
      s.(buffers := map[], taken := map n | n in nodes :: TakenWith(s, n, BufferOf(s.buffers, n)))
    case Finish(node, index, delivered) =>
      var batches := TakenFor(s, node);
      if index < |batches| && batches[index].status.InFlight? then
        var done := batches[index].(status := if delivered then Delivered else Failed);
        var order := if delivered then s.order[node := OrderFor(s, node) + [index]] else s.order;
        s.(taken := s.taken[node := batches[index := done]], order := order)
      else s
  }

  function Run(c: BatchConfig, steps: seq<Step>): Net {
    if steps == [] then Net(map[], map[], map[]) else AfterStep(c, Run(c, steps[..|steps| - 1]), steps[|steps| - 1])
  }

  predicate AcceptedBy(step: Step, node: NodeId) {
    step.Accept? && step.envelope.sendMode == Tell && step.envelope.node == node
  }

  /** The envelopes accepted for `node`, in order. */
  function AcceptedFor(steps: seq<Step>, node: NodeId): Envelopes {
    if steps == [] then []
    else
      var last := steps[|steps| - 1];
      AcceptedFor(steps[..|steps| - 1], node)
      + if AcceptedBy(last, node) then [last.envelope] else []
  }

  function Contents(batches: seq<Batch>): Envelopes {
    if batches == [] then [] else Contents(batches[..|batches| - 1]) + batches[|batches| - 1].envelopes
  }

  /** For one node: every accepted envelope is in exactly one taken batch or in the buffer, in order. */
  ghost predicate NodeInv(c: BatchConfig, batches: seq<Batch>, buffer: Envelopes, accepted: Envelopes, node: NodeId) {
    && Contents(batches) + buffer == accepted
    && |buffer| < c.Limit()
    && (forall i :: 0 <= i < |batches| ==> 1 <= |batches[i].envelopes| <= c.Limit())
    && (forall i :: 0 <= i < |accepted| ==> accepted[i].node == node)
  }

  lemma ContentsAppend(batches: seq<Batch>, b: Batch)
    ensures Contents(batches + [b]) == Contents(batches) + b.envelopes
  {
    assert (batches + [b])[..|batches|] == batches;
  }

  lemma {:induction false} ContentsKeepEnvelopes(a: seq<Batch>, b: seq<Batch>)
    requires |a| == |b| && forall i :: 0 <= i < |a| ==> a[i].envelopes == b[i].envelopes
    ensures Contents(a) == Contents(b)
  {
    if a != [] { ContentsKeepEnvelopes(a[..|a| - 1], b[..|b| - 1]); }
  }

  /** Taking the buffer as a batch moves its envelopes and nothing else. */
  lemma TakingKeepsNodeInv(c: BatchConfig, batches: seq<Batch>, buffer: Envelopes, accepted: Envelopes, node: NodeId)
    requires Contents(batches) + buffer == accepted && 1 <= |buffer| <= c.Limit()
    requires forall i :: 0 <= i < |batches| ==> 1 <= |batches[i].envelopes| <= c.Limit()
    requires forall i :: 0 <= i < |accepted| ==> accepted[i].node == node
    ensures NodeInv(c, batches + [Batch(buffer, InFlight)], [], accepted, node)
  {
    ContentsAppend(batches, Batch(buffer, InFlight));
  }

  lemma AcceptKeepsNodeInv(c: BatchConfig, s: Net, e: WireEnvelope, accepted: Envelopes)
    requires e.sendMode == Tell && NodeInv(c, TakenFor(s, e.node), BufferOf(s.buffers, e.node), accepted, e.node)
    ensures var s' := AfterStep(c, s, Accept(e));
            NodeInv(c, TakenFor(s', e.node), BufferOf(s'.buffers, e.node), accepted + [e], e.node)
  {
    var batches, buffer := TakenFor(s, e.node), BufferOf(s.buffers, e.node) + [e];
    assert Contents(batches) + buffer == accepted + [e];
    if |buffer| >= c.maxItems {
      TakingKeepsNodeInv(c, batches, buffer, accepted + [e], e.node);
    }
    hide Contents;
  }

  lemma FinishKeepsNodeInv(c: BatchConfig, s: Net, node: NodeId, index: nat, delivered: bool, accepted: Envelopes)
    requires NodeInv(c, TakenFor(s, node), BufferOf(s.buffers, node), accepted, node)
    ensures var s' := AfterStep(c, s, Finish(node, index, delivered));
            NodeInv(c, TakenFor(s', node), BufferOf(s'.buffers, node), accepted, node)
  {
    ContentsKeepEnvelopes(TakenFor(s, node), TakenFor(AfterStep(c, s, Finish(node, index, delivered)), node));
  }

  lemma FlushKeepsNodeInv(c: BatchConfig, s: Net, step: Step, node: NodeId, accepted: Envelopes)
    requires NodeInv(c, TakenFor(s, node), BufferOf(s.buffers, node), accepted, node)
    requires step.FlushNode? || step.FlushAll?
    ensures var s' := AfterStep(c, s, step);
            NodeInv(c, TakenFor(s', node), BufferOf(s'.buffers, node), accepted, node)
  {
    var batches, buffer := TakenFor(s, node), BufferOf(s.buffers, node);
    if buffer != [] { TakingKeepsNodeInv(c, batches, buffer, accepted, node); }
    if step.FlushAll? { FlushAllEffect(c, s, node); } else { FlushNodeEffect(c, s, step.node, node); }
    hide NodeInv, AfterStep, TakenFor, BufferOf;
  }

  lemma FlushNodeEffect(c: BatchConfig, s: Net, flushed: NodeId, node: NodeId)
    ensures var s', buffer := AfterStep(c, s, FlushNode(flushed)), BufferOf(s.buffers, node);
            && BufferOf(s'.buffers, node) == (if flushed == node then [] else buffer)
            && TakenFor(s', node)
               == if flushed != node || buffer == [] then TakenFor(s, node)
                  else TakenFor(s, node) + [Batch(buffer, InFlight)]
  {
  }

  lemma FlushAllEffect(c: BatchConfig, s: Net, node: NodeId)
    ensures var s', buffer := AfterStep(c, s, FlushAll), BufferOf(s.buffers, node);
            && BufferOf(s'.buffers, node) == []
            && TakenFor(s', node)
               == if buffer == [] then TakenFor(s, node) else TakenFor(s, node) + [Batch(buffer, InFlight)]
  {
    var s' := AfterStep(c, s, FlushAll);
    var taken := TakenFor(s, node);
    assert taken + [] == taken;
    if node in s.taken.Keys + s.buffers.Keys {
      assert node in s'.taken;
    } else {
      assert node !in s'.taken;
    }
  }

  lemma OthersKeepNodeInv(c: BatchConfig, s: Net, step: Step, node: NodeId)
    requires (step.Accept? && !AcceptedBy(step, node)) || (step.Finish? && step.node != node)
    ensures var s' := AfterStep(c, s, step);
            TakenFor(s', node) == TakenFor(s, node) && BufferOf(s'.buffers, node) == BufferOf(s.buffers, node)
  {
  }

  lemma StepKeepsNodeInv(c: BatchConfig, s: Net, step: Step, node: NodeId, accepted: Envelopes)
    requires NodeInv(c, TakenFor(s, node), BufferOf(s.buffers, node), accepted, node)
    ensures var s' := AfterStep(c, s, step);
            var more := if AcceptedBy(step, node) then [step.envelope] else [];
            NodeInv(c, TakenFor(s', node), BufferOf(s'.buffers, node), accepted + more, node)
  {
    assert accepted + [] == accepted;
    hide NodeInv, AfterStep, TakenFor, BufferOf;
    match step
    case Accept(e) =>
      if e.sendMode == Tell && e.node == node {
        AcceptKeepsNodeInv(c, s, e, accepted);
      } else {
        OthersKeepNodeInv(c, s, step, node);
      }
    case FlushNode(_) =>
      FlushKeepsNodeInv(c, s, step, node, accepted);
    case FlushAll =>
      FlushKeepsNodeInv(c, s, step, node, accepted);
    case Finish(n, index, delivered) =>
      if n == node {
        FinishKeepsNodeInv(c, s, node, index, delivered, accepted);
      } else {
        OthersKeepNodeInv(c, s, step, node);
      }
  }

  /**
    Conservation under every interleaving: the envelopes accepted for a node are, in order,
    those of the batches taken for it (in flight, delivered or failed) followed by those in
    its buffer. Batches are never empty nor over the limit, and whenever the lock is free
    every buffer is below the limit.
  */
  lemma {:induction false} EnvelopesAreConserved(c: BatchConfig, steps: seq<Step>, node: NodeId)
    ensures var s := Run(c, steps);
            NodeInv(c, TakenFor(s, node), BufferOf(s.buffers, node), AcceptedFor(steps, node), node)
  {
    if steps != [] {
      var prior := steps[..|steps| - 1];
      EnvelopesAreConserved(c, prior, node);
      StepKeepsNodeInv(c, Run(c, prior), steps[|steps| - 1], node, AcceptedFor(prior, node));
      hide NodeInv, AfterStep;
    }
  }

  /** As long as nothing is flushed, every batch taken is full. */
  lemma {:induction false} AcceptsFillBatches(c: BatchConfig, steps: seq<Step>, node: NodeId)
    requires forall k :: 0 <= k < |steps| ==> steps[k].Accept? || steps[k].Finish?
    ensures var s := Run(c, steps);
            forall i :: 0 <= i < |TakenFor(s, node)| ==>
                          |TakenFor(s, node)[i].envelopes| == if c.maxItems == 0 then 1 else c.maxItems
  {
    if steps != [] {
      var prior, last := steps[..|steps| - 1], steps[|steps| - 1];
      AcceptsFillBatches(c, prior, node);
      EnvelopesAreConserved(c, prior, node);
      assert |BufferOf(Run(c, prior).buffers, node)| < c.Limit();
      if last.Accept? {
        AcceptTakesFull(c, Run(c, prior), last.envelope, node);
      } else {
        FinishKeepsSizes(c, Run(c, prior), last, node);
      }
      hide AfterStep, TakenFor, NodeInv, BufferOf;
    }
  }

  lemma AcceptTakesFull(c: BatchConfig, s: Net, e: WireEnvelope, node: NodeId)
    requires |BufferOf(s.buffers, node)| < c.Limit()
    ensures var before, after := TakenFor(s, node), TakenFor(AfterStep(c, s, Accept(e)), node);
            after == before || exists b: Batch :: |b.envelopes| == c.Limit() && after == before + [b]
  {
    var after := TakenFor(AfterStep(c, s, Accept(e)), node);
    if after != TakenFor(s, node) {
      var b := Batch(BufferOf(s.buffers, node) + [e], InFlight);
      assert |b.envelopes| == c.Limit() && after == TakenFor(s, node) + [b];
    }
  }

  lemma FinishKeepsSizes(c: BatchConfig, s: Net, step: Step, node: NodeId)
    requires step.Finish?
    ensures var before, after := TakenFor(s, node), TakenFor(AfterStep(c, s, step), node);
            |after| == |before| && forall i :: 0 <= i < |before| ==> after[i].envelopes == before[i].envelopes
  {
  }

  /** The envelopes of the batches with a given status, in order. */
  function ContentsWith(batches: seq<Batch>, status: Status): Envelopes {
    if batches == [] then []
    else
      var last := batches[|batches| - 1];
      ContentsWith(batches[..|batches| - 1], status) + if last.status == status then last.envelopes else []
  }

  lemma {:induction false} StatusesPartition(batches: seq<Batch>)
    ensures multiset(Contents(batches))
         == multiset(ContentsWith(batches, InFlight)) + multiset(ContentsWith(batches, Delivered))
            + multiset(ContentsWith(batches, Failed))
  {
    if batches != [] {
      var last := batches[|batches| - 1];
      StatusesPartition(batches[..|batches| - 1]);
      assert last.status == InFlight || last.status == Delivered || last.status == Failed;
    }
  }

  lemma {:induction false} AllDelivered(batches: seq<Batch>)
    ensures (forall i :: 0 <= i < |batches| ==> batches[i].status.Delivered?) ==>
              ContentsWith(batches, Delivered) == Contents(batches)
  {
    if batches != [] { AllDelivered(batches[..|batches| - 1]); }
  }

  /**
    Each accepted envelope is in exactly one place: in flight, delivered, failed or
    buffered. Once every transmission has ended without a failure, the delivered batches, in
    the order in which they were taken, followed by what is buffered, are what was accepted.
  */
  lemma EveryEnvelopeHasOnePlace(c: BatchConfig, steps: seq<Step>, node: NodeId)
    ensures var s := Run(c, steps);
            var batches, buffer := TakenFor(s, node), BufferOf(s.buffers, node);
            && multiset(AcceptedFor(steps, node))
               == multiset(ContentsWith(batches, InFlight)) + multiset(ContentsWith(batches, Delivered))
                  + multiset(ContentsWith(batches, Failed)) + multiset(buffer)
            && ((forall i :: 0 <= i < |batches| ==> batches[i].status.Delivered?) ==>
                  ContentsWith(batches, Delivered) + buffer == AcceptedFor(steps, node))
  {
    EnvelopesAreConserved(c, steps, node);
    StatusesPartition(TakenFor(Run(c, steps), node));
    AllDelivered(TakenFor(Run(c, steps), node));
    hide Contents, ContentsWith;
  }
}
