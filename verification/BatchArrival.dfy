/**
  The order in which a node receives what the batched transport sender has accepted for it.
  Batches leave in the order in which the lock was held, but their transmissions overlap.
*/
module BatchArrival {
  import opened Sequences
  import S = Stream
  import opened Wire
  import opened BatchedTransport

  /** What the node has received: the delivered batches in the order of their delivery. */
  function Arrived(batches: seq<Batch>, order: seq<nat>): Envelopes
    requires InRange(batches, order)
  {
    if order == [] then []
    else Arrived(batches, order[..|order| - 1]) + batches[order[|order| - 1]].envelopes
  }

  predicate InRange(batches: seq<Batch>, order: seq<nat>) {
    forall k :: 0 <= k < |order| ==> order[k] < |batches|
  }

  predicate Increasing(s: seq<nat>) {
    forall i, j :: 0 <= i < j < |s| ==> s[i] < s[j]
  }

  // ----- Where envelopes come from -----

  /** The position of batch `i`'s first envelope among those accepted for the node. */
  function StartOf(batches: seq<Batch>, i: nat): nat
    requires i <= |batches|
  {
    |Contents(batches[..i])|
  }

  /** `n` positions from `start` on. */
  function Places(start: nat, n: nat): (r: seq<nat>)
    ensures |r| == n && forall i :: 0 <= i < n ==> r[i] == start + i
  {
    seq(n, i requires 0 <= i => start + i)
  }

  /** The acceptance positions of the envelopes received, in the order of arrival. */
  function Positions(batches: seq<Batch>, order: seq<nat>): seq<nat>
    requires InRange(batches, order)
  {
    if order == [] then []
    else
      var i := order[|order| - 1];
      Positions(batches, order[..|order| - 1]) + Places(StartOf(batches, i), |batches[i].envelopes|)
  }

  lemma StartOfNext(batches: seq<Batch>, i: nat)
    requires i < |batches|
    ensures StartOf(batches, i + 1) == StartOf(batches, i) + |batches[i].envelopes|
  {
    assert batches[..i + 1][..i] == batches[..i];
  }

  lemma {:induction false} StartsGrow(batches: seq<Batch>, i: nat, j: nat)
    requires i <= j <= |batches|
    ensures StartOf(batches, i) <= StartOf(batches, j)
  {
    if i < j {
      StartsGrow(batches, i, j - 1);
      StartOfNext(batches, j - 1);
    }
  }

  lemma {:induction false} ContentsAt(batches: seq<Batch>, i: nat, j: nat)
    requires i < |batches| && j < |batches[i].envelopes|
    ensures StartOf(batches, i) + j < |Contents(batches)|
    ensures Contents(batches)[StartOf(batches, i) + j] == batches[i].envelopes[j]
  {
    var n := |batches| - 1;
    if i < n {
      ContentsAt(batches[..n], i, j);
      assert batches[..n][..i] == batches[..i];
    }
  }

  /** The envelope that arrived at place `j` is the one accepted at the position noted for it. */
  lemma {:induction false} PositionsLocate(batches: seq<Batch>, order: seq<nat>, j: nat)
    requires InRange(batches, order)
    ensures |Positions(batches, order)| == |Arrived(batches, order)|
    ensures j < |Arrived(batches, order)| ==>
              && Positions(batches, order)[j] < |Contents(batches)|
              && Contents(batches)[Positions(batches, order)[j]] == Arrived(batches, order)[j]
  {
    if order != [] {
      var init, i := order[..|order| - 1], order[|order| - 1];
      PositionsLocate(batches, init, j);
      var before := |Arrived(batches, init)|;
      assert Arrived(batches, order) == Arrived(batches, init) + batches[i].envelopes;
      var places := Places(StartOf(batches, i), |batches[i].envelopes|);
      assert Positions(batches, order) == Positions(batches, init) + places;
      hide Contents, StartOf, Arrived, Positions;
      if before <= j < before + |batches[i].envelopes| { ContentsAt(batches, i, j - before); }
    }
  }

  // ----- In order of arrival -----

  lemma {:induction false} ChunkStarts(batches: seq<Batch>, order: seq<nat>, k: nat)
    requires InRange(batches, order) && k < |order| && batches[order[k]].envelopes != []
    ensures StartOf(batches, order[k]) in Positions(batches, order)
  {
    hide StartOf;
    var n := |order| - 1;
    if k < n {
      ChunkStarts(batches, order[..n], k);
    } else {
      assert Places(StartOf(batches, order[n]), |batches[order[n]].envelopes|)[0] == StartOf(batches, order[n]);
    }
  }

  lemma {:induction false} PositionsBounded(batches: seq<Batch>, order: seq<nat>, bound: nat)
    requires InRange(batches, order) && bound <= |batches| && forall k :: 0 <= k < |order| ==> order[k] < bound
    ensures forall p :: p in Positions(batches, order) ==> p < StartOf(batches, bound)
  {
    if order != [] {
      var i := order[|order| - 1];
      PositionsBounded(batches, order[..|order| - 1], bound);
      StartOfNext(batches, i);
      StartsGrow(batches, i + 1, bound);
      hide StartOf;
    }
  }

  lemma IncreasingParts(a: seq<nat>, b: seq<nat>)
    requires Increasing(a + b)
    ensures Increasing(a) && Increasing(b)
    ensures b != [] ==> forall x :: x in a ==> x < b[0]
  {
    assert forall i :: 0 <= i < |a| ==> (a + b)[i] == a[i];
    assert forall i :: 0 <= i < |b| ==> (a + b)[|a| + i] == b[i];
  }

  lemma IncreasingJoin(a: seq<nat>, b: seq<nat>)
    requires Increasing(a) && Increasing(b) && forall x, y :: x in a && y in b ==> x < y
    ensures Increasing(a + b)
  {
    forall i, j | 0 <= i < j < |a + b| ensures (a + b)[i] < (a + b)[j] {
      if i < |a| <= j { assert a[i] in a && b[j - |a|] in b; }
    }
  }

  /** Envelopes arrive in the order of their acceptance exactly when batches do. */
  lemma {:induction false} InOrderIff(batches: seq<Batch>, order: seq<nat>)
    requires InRange(batches, order) && forall i :: 0 <= i < |batches| ==> batches[i].envelopes != []
    ensures Increasing(Positions(batches, order)) <==> Increasing(order)
  {
    if order != [] {
      var init, i := order[..|order| - 1], order[|order| - 1];
      var places := Places(StartOf(batches, i), |batches[i].envelopes|);
      InOrderIff(batches, init);
      InitAndLast(order);
      if Increasing(order) {
        IncreasingParts(init, [i]);
        PositionsBounded(batches, init, i);
        IncreasingJoin(Positions(batches, init), places);
      }
      if Increasing(Positions(batches, order)) {
        IncreasingParts(Positions(batches, init), places);
        forall x | x in init ensures x < i {
          var k :| 0 <= k < |init| && init[k] == x;
          ChunkStarts(batches, init, k);
          if i <= x { StartsGrow(batches, i, x); }
        }
        IncreasingJoin(init, [i]);
      }
    }
  }

  // ----- Every run -----

  /** `order` lists each delivered batch once. */
  ghost predicate ListsDelivered(batches: seq<Batch>, order: seq<nat>) {
    && (forall k :: 0 <= k < |order| ==> order[k] < |batches| && batches[order[k]].status.Delivered?)
    && (forall k, l :: 0 <= k < l < |order| ==> order[k] != order[l])
    && (forall i: nat :: i < |batches| && batches[i].status.Delivered? ==> i in order)
  }

  ghost predicate Listed(s: Net, node: NodeId) {
    ListsDelivered(TakenFor(s, node), OrderFor(s, node))
  }

  lemma TakingKeepsList(batches: seq<Batch>, order: seq<nat>, envelopes: Envelopes)
    requires ListsDelivered(batches, order)
    ensures ListsDelivered(batches + [Batch(envelopes, InFlight)], order)
  {
  }

  lemma FinishingKeepsList(batches: seq<Batch>, order: seq<nat>, index: nat, done: Batch)
    requires ListsDelivered(batches, order) && index < |batches| && batches[index].status.InFlight?
    requires !done.status.InFlight?
    ensures ListsDelivered(batches[index := done], if done.status.Delivered? then order + [index] else order)
  {
    var batches' := batches[index := done];
    assert index !in order;
    assert (order + [index])[|order|] == index;
    forall i: nat | i < |batches'| && batches'[i].status.Delivered? ensures i in order + [index] {
    }
  }

  lemma StepKeepsList(c: S.BatchConfig, s: Net, step: Step, node: NodeId)
    requires Listed(s, node)
    ensures Listed(AfterStep(c, s, step), node)
  {
    var batches, order, buffer := TakenFor(s, node), OrderFor(s, node), BufferOf(s.buffers, node);
    hide ListsDelivered;
    match step
    case Accept(e) =>
      TakingKeepsList(batches, order, buffer + [e]);
    case FlushNode(n) =>
      TakingKeepsList(batches, order, buffer);
    case FlushAll =>
      FlushAllEffect(c, s, node);
      hide AfterStep;
      FlushAllKeepsOrder(c, s, node);
      TakingKeepsList(batches, order, buffer);
    case Finish(n, index, delivered) =>
      if n == node && index < |batches| && batches[index].status.InFlight? {
        FinishingKeepsList(batches, order, index, batches[index].(status := if delivered then Delivered else Failed));
      }
  }

  lemma FlushAllKeepsOrder(c: S.BatchConfig, s: Net, node: NodeId)
    ensures OrderFor(AfterStep(c, s, FlushAll), node) == OrderFor(s, node)
  {
  }

  lemma {:induction false} RunIsListed(c: S.BatchConfig, steps: seq<Step>, node: NodeId)
    ensures Listed(Run(c, steps), node)
  {
    if steps != [] {
      RunIsListed(c, steps[..|steps| - 1], node);
      StepKeepsList(c, Run(c, steps[..|steps| - 1]), steps[|steps| - 1], node);
      hide Listed, AfterStep;
    }
  }

  // ----- What arrives -----

  lemma {:induction false} LastOfIncreasing(order: seq<nat>, x: nat)
    requires Increasing(order) && x in order && forall k :: 0 <= k < |order| ==> order[k] <= x
    ensures order[|order| - 1] == x
  {
    var k :| 0 <= k < |order| && order[k] == x;
  }

  lemma {:induction false} ArrivedIgnores(batches: seq<Batch>, more: seq<Batch>, order: seq<nat>)
    requires InRange(batches, order)
    ensures Arrived(batches + more, order) == Arrived(batches, order)
  {
    if order != [] { ArrivedIgnores(batches, more, order[..|order| - 1]); }
  }

  /** Batches that finish in the order in which they were taken bring what was accepted and not lost, in order. */
  lemma {:induction false} InOrderArrivals(batches: seq<Batch>, order: seq<nat>)
    requires ListsDelivered(batches, order) && Increasing(order)
    ensures Arrived(batches, order) == ContentsWith(batches, Delivered)
  {
    if batches == [] {
    } else {
      var n := |batches| - 1;
      var init, last := batches[..n], batches[n];
      InitAndLast(batches);
      if last.status.Delivered? {
        LastOfIncreasing(order, n);
        var order' := order[..|order| - 1];
        WithoutLast(batches, order);
        assert Arrived(batches, order) == Arrived(batches, order') + last.envelopes;
        assert ContentsWith(batches, Delivered) == ContentsWith(init, Delivered) + last.envelopes;
        hide ListsDelivered, Arrived, ContentsWith, Increasing;
        InOrderArrivals(init, order');
        ArrivedIgnores(init, [last], order');
      } else {
        WithoutUndelivered(batches, order);
        assert ContentsWith(batches, Delivered) == ContentsWith(init, Delivered) + [];
        hide ListsDelivered, Arrived, ContentsWith, Increasing;
        ConcatNothing(ContentsWith(init, Delivered));
        InOrderArrivals(init, order);
        ArrivedIgnores(init, [last], order);
      }
    }
  }

  lemma WithoutLast(batches: seq<Batch>, order: seq<nat>)
    requires ListsDelivered(batches, order) && Increasing(order) && batches != []
    requires order != [] && order[|order| - 1] == |batches| - 1
    ensures ListsDelivered(batches[..|batches| - 1], order[..|order| - 1]) && Increasing(order[..|order| - 1])
    ensures InRange(batches[..|batches| - 1], order[..|order| - 1])
  {
    forall i: nat | i < |batches| - 1 && batches[i].status.Delivered? ensures i in order[..|order| - 1] {
      var k :| 0 <= k < |order| && order[k] == i;
      assert order[..|order| - 1][k] == i;
    }
  }

  lemma WithoutUndelivered(batches: seq<Batch>, order: seq<nat>)
    requires ListsDelivered(batches, order) && batches != [] && !batches[|batches| - 1].status.Delivered?
    ensures ListsDelivered(batches[..|batches| - 1], order) && InRange(batches[..|batches| - 1], order)
  {
  }

  /**
    In every reachable state: each envelope that has arrived was accepted at the position
    noted for it; positions increase, that is, envelopes arrive in the order of their
    acceptance, if and only if the node's batches have finished in the order in which they
    were taken; and then what has arrived is the delivered part of what was accepted, in
    order. If besides nothing failed or is in flight, it is all that is not buffered.
  */
  lemma ArrivalInOrderIff(c: S.BatchConfig, steps: seq<Step>, node: NodeId)
    ensures var s := Run(c, steps);
            var batches, order := TakenFor(s, node), OrderFor(s, node);
            && ListsDelivered(batches, order)
            && (Increasing(Positions(batches, order)) <==> Increasing(order))
            && (Increasing(order) ==> Arrived(batches, order) == ContentsWith(batches, Delivered))
            && (Increasing(order) && (forall i :: 0 <= i < |batches| ==> batches[i].status.Delivered?) ==>
                  Arrived(batches, order) + BufferOf(s.buffers, node) == AcceptedFor(steps, node))
  {
    var s := Run(c, steps);
    var batches, order := TakenFor(s, node), OrderFor(s, node);
    RunIsListed(c, steps, node);
    EnvelopesAreConserved(c, steps, node);
    assert forall i :: 0 <= i < |batches| ==> batches[i].envelopes != [];
    AllDelivered(batches);
    InOrderIff(batches, order);
    if Increasing(order) { InOrderArrivals(batches, order); }
    hide Run, Arrived, Positions, Contents, ContentsWith, Increasing;
  }

  /** Each arrival is an accepted envelope, found at its position. */
  lemma ArrivalsAreLocated(c: S.BatchConfig, steps: seq<Step>, node: NodeId, j: nat)
    ensures var s := Run(c, steps);
            var batches, order := TakenFor(s, node), OrderFor(s, node);
            && InRange(batches, order)
            && |Positions(batches, order)| == |Arrived(batches, order)|
            && (j < |Arrived(batches, order)| ==>
                  && Positions(batches, order)[j] < |AcceptedFor(steps, node)|
                  && AcceptedFor(steps, node)[Positions(batches, order)[j]] == Arrived(batches, order)[j])
  {
    var s := Run(c, steps);
    var batches, order := TakenFor(s, node), OrderFor(s, node);
    RunIsListed(c, steps, node);
    EnvelopesAreConserved(c, steps, node);
    assert InRange(batches, order);
    PositionsLocate(batches, order, j);
    hide Run, Arrived, Positions, Contents;
  }

  // ----- Sequential use -----

  /** Nobody takes a batch for the node while an earlier one is in flight. */
  ghost predicate OneAtATime(c: S.BatchConfig, steps: seq<Step>, node: NodeId) {
    forall k :: 0 <= k <= |steps| ==> EarlierAreDone(TakenFor(Run(c, steps[..k]), node))
  }

  predicate EarlierAreDone(batches: seq<Batch>) {
    forall i :: 0 <= i < |batches| - 1 ==> !batches[i].status.InFlight?
  }

  lemma {:induction false} SequentialUseKeepsOrder(c: S.BatchConfig, steps: seq<Step>, node: NodeId)
    requires OneAtATime(c, steps, node)
    ensures Increasing(OrderFor(Run(c, steps), node))
  {
    if steps != [] {
      var prior, step := steps[..|steps| - 1], steps[|steps| - 1];
      assert OneAtATime(c, prior, node) by {
        forall k | 0 <= k <= |prior| ensures EarlierAreDone(TakenFor(Run(c, prior[..k]), node)) {
          assert prior[..k] == steps[..k];
        }
      }
      SequentialUseKeepsOrder(c, prior, node);
      RunIsListed(c, prior, node);
      assert EarlierAreDone(TakenFor(Run(c, prior), node)) by { assert prior[..|prior|] == prior; }
      NextInOrder(c, Run(c, prior), step, node);
    }
  }

  lemma NextInOrder(c: S.BatchConfig, s: Net, step: Step, node: NodeId)
    requires Listed(s, node) && EarlierAreDone(TakenFor(s, node)) && Increasing(OrderFor(s, node))
    ensures Increasing(OrderFor(AfterStep(c, s, step), node))
  {
    if step.FlushAll? {
      FlushAllKeepsOrder(c, s, node);
    } else if step.Finish? && step.node == node {
      var batches, order := TakenFor(s, node), OrderFor(s, node);
      if step.index < |batches| && batches[step.index].status.InFlight? {
        assert step.index == |batches| - 1;
        IncreasingJoin(order, [step.index]);
      }
    }
  }

  /** Two batches of one envelope, the second of which is delivered first. */
  lemma OvertakingArrivesOutOfOrder(c: S.BatchConfig, first: WireEnvelope, second: WireEnvelope)
    requires c.maxItems == 1 && first.sendMode == second.sendMode == Tell && first.node == second.node
    ensures var steps := [Accept(first)] + [Accept(second)]
                         + [Finish(first.node, 1, true)] + [Finish(first.node, 0, true)];
            var s := Run(c, steps);
            && AcceptedFor(steps, first.node) == [first, second]
            && InRange(TakenFor(s, first.node), OrderFor(s, first.node))
            && Arrived(TakenFor(s, first.node), OrderFor(s, first.node)) == [second, first]
  {
    var node := first.node;
    var steps1 := [Accept(first)];
    var steps2 := steps1 + [Accept(second)];
    var steps3 := steps2 + [Finish(node, 1, true)];
    RunOneMore(c, [], Accept(first), node);
    RunOneMore(c, steps1, Accept(second), node);
    RunOneMore(c, steps2, Finish(node, 1, true), node);
    RunOneMore(c, steps3, Finish(node, 0, true), node);
    NothingYet(c, node);
    AcceptSendsAtOnce(c, Run(c, []), first);
    AcceptSendsAtOnce(c, Run(c, steps1), second);
    BothFinish(c, Run(c, steps2), node, first, second);
    hide *;
    ConcatNothing(steps1);
    ConcatNothing([first]);
    ConcatNothing([Batch([first], InFlight)]);
    ConcatNothing([first] + [second]);
  }

  lemma NothingYet(c: S.BatchConfig, node: NodeId)
    ensures AcceptedFor([], node) == [] && OrderFor(Run(c, []), node) == [] && TakenFor(Run(c, []), node) == []
    ensures BufferOf(Run(c, []).buffers, node) == []
  {
  }

  /** Two batches are under way, and the later one is delivered first. */
  lemma BothFinish(c: S.BatchConfig, s: Net, node: NodeId, first: WireEnvelope, second: WireEnvelope)
    requires TakenFor(s, node) == [Batch([first], InFlight), Batch([second], InFlight)] && OrderFor(s, node) == []
    ensures var s' := AfterStep(c, AfterStep(c, s, Finish(node, 1, true)), Finish(node, 0, true));
            && InRange(TakenFor(s', node), OrderFor(s', node))
            && Arrived(TakenFor(s', node), OrderFor(s', node)) == [second, first]
  {
    FinishDelivers(c, s, node, 1);
    var s1 := AfterStep(c, s, Finish(node, 1, true));
    FinishDelivers(c, s1, node, 0);
    hide AfterStep, TakenFor, OrderFor, Arrived;
    var batches := [Batch([first], Delivered), Batch([second], Delivered)];
    assert TakenFor(s1, node)[0 := Batch([first], Delivered)] == batches;
    assert [] + [1] + [0] == [1, 0];
    ArrivedOfTwo(batches);
  }

  lemma FinishDelivers(c: S.BatchConfig, s: Net, node: NodeId, index: nat)
    requires index < |TakenFor(s, node)| && TakenFor(s, node)[index].status.InFlight?
    ensures var s', batch := AfterStep(c, s, Finish(node, index, true)), TakenFor(s, node)[index];
            && TakenFor(s', node) == TakenFor(s, node)[index := Batch(batch.envelopes, Delivered)]
            && OrderFor(s', node) == OrderFor(s, node) + [index]
  {
  }

  lemma AcceptSendsAtOnce(c: S.BatchConfig, s: Net, e: WireEnvelope)
    requires c.maxItems == 1 && e.sendMode == Tell && BufferOf(s.buffers, e.node) == []
    ensures var s' := AfterStep(c, s, Accept(e));
            && BufferOf(s'.buffers, e.node) == []
            && TakenFor(s', e.node) == TakenFor(s, e.node) + [Batch([e], InFlight)]
            && OrderFor(s', e.node) == OrderFor(s, e.node)
  {
    ConcatNothing([e]);
  }

  lemma ArrivedOfTwo(batches: seq<Batch>)
    requires |batches| == 2
    ensures Arrived(batches, [1, 0]) == batches[1].envelopes + batches[0].envelopes
  {
    var one, both: seq<nat> := [1], [1, 0];
    assert both[..1] == one && one[..0] == [];
    assert Arrived(batches, one) == batches[1].envelopes by {
      assert Arrived(batches, []) == [];
      ConcatNothing(batches[1].envelopes);
    }
    assert Arrived(batches, both) == Arrived(batches, both[..1]) + batches[both[1]].envelopes;
  }

  lemma RunOneMore(c: S.BatchConfig, steps: seq<Step>, step: Step, node: NodeId)
    ensures Run(c, steps + [step]) == AfterStep(c, Run(c, steps), step)
    ensures AcceptedFor(steps + [step], node) == AcceptedFor(steps, node)
                                                 + if AcceptedBy(step, node) then [step.envelope] else []
  {
    InitOfAppend(steps, step);
  }
}
