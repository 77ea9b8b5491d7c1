/**
  What the persistence operations tell their callers: the sequence ids they return, which of
  several errors they report, and what a recovery that gives up has tried.
*/
module PersistenceReports {
  import opened Numbers
  import opened Wrappers
  import opened Persistence
  import opened PersistenceRuns
  import opened Sequences

  // ----- The first error of a sequence -----

  /** The first event that does not serialize fails with `error`. */
  ghost predicate FirstUnserializable<S, E>(b: Behavior<S, E>, events: seq<E>, error: PersistError) {
    exists i :: && 0 <= i < |events| && b.serializeEvent(events[i]) == Err(error)
                && forall j :: 0 <= j < i ==> b.serializeEvent(events[j]).Ok?
  }

  /** The first entry that does not decode fails with `error`. */
  ghost predicate FirstUndecodable<S, E>(b: Behavior<S, E>, entries: seq<JournalEntry>, error: PersistError) {
    exists i :: && 0 <= i < |entries| && b.deserializeEvent(entries[i].payload) == Err(error)
                && forall j :: 0 <= j < i ==> b.deserializeEvent(entries[j].payload).Ok?
  }

  /**
    The entries of a batch: one for each event, with consecutive numbers, the actor's event
    type and what the codec makes of the event; or the first error that the codec gives.
  */
  lemma {:induction false} EntriesReport<S, E>(b: Behavior<S, E>, last: int, events: seq<E>)
    ensures Entries(b, last, events).Ok? <==> forall i :: 0 <= i < |events| ==> b.serializeEvent(events[i]).Ok?
    ensures Entries(b, last, events).Err? ==> FirstUnserializable(b, events, Entries(b, last, events).error)
    ensures Entries(b, last, events).Ok? ==>
              var entries := Entries(b, last, events).value;
              && |entries| == |events|
              && forall i :: 0 <= i < |events| ==>
                               entries[i] == JournalEntry(last + 1 + i, b.eventType, b.serializeEvent(events[i]).value)
  {
    if events != [] {
      var n := |events| - 1;
      EntriesReport(b, last, events[..n]);
      assert forall i :: 0 <= i < n ==> events[..n][i] == events[i];
      if Entries(b, last, events[..n]).Err? {
        var error := Entries(b, last, events).error;
        var i :| && 0 <= i < n && b.serializeEvent(events[..n][i]) == Err(error)
                 && forall j :: 0 <= j < i ==> b.serializeEvent(events[..n][j]).Ok?;
        assert forall j :: 0 <= j < i ==> events[..n][j] == events[j];
      }
    }
  }

  lemma {:induction false} DecodeReport<S, E>(b: Behavior<S, E>, entries: seq<JournalEntry>)
    ensures DecodeAll(b, entries).Ok? <==>
            forall i :: 0 <= i < |entries| ==> b.deserializeEvent(entries[i].payload).Ok?
    ensures DecodeAll(b, entries).Err? ==> FirstUndecodable(b, entries, DecodeAll(b, entries).error)
    ensures DecodeAll(b, entries).Ok? ==>
              var events := DecodeAll(b, entries).value;
              && |events| == |entries|
              && forall i :: 0 <= i < |entries| ==> Ok(events[i]) == b.deserializeEvent(entries[i].payload)
  {
    if entries != [] {
      var n := |entries| - 1;
      DecodeReport(b, entries[..n]);
      assert forall i :: 0 <= i < n ==> entries[..n][i] == entries[i];
      if DecodeAll(b, entries[..n]).Err? {
        var error := DecodeAll(b, entries).error;
        var i :| && 0 <= i < n && b.deserializeEvent(entries[..n][i].payload) == Err(error)
                 && forall j :: 0 <= j < i ==> b.deserializeEvent(entries[..n][j].payload).Ok?;
        assert forall j :: 0 <= j < i ==> entries[..n][j] == entries[j];
      }
    }
  }

  // ----- Persisting -----

  /**
    Persisting a batch from a running actor of any run. It succeeds exactly when every event
    serializes and the storage has no fault, and then returns how many events have been
    persisted in all, which is the number of the last one. Otherwise it reports the first
    event that fails, else the storage's error, and changes nothing. An empty batch always
    succeeds.
  */
  lemma PersistBatchReports<S, E>(b: Behavior<S, E>, s: System<S, E>, base: nat, events: seq<E>, fault: Fault)
    requires Inv(b, s, base) && s.running
    ensures var (r, w) := AfterPersistBatch(b, s.world, events, fault);
            && (r.Ok? <==>
                events == [] || (fault == None && forall i :: 0 <= i < |events| ==> b.serializeEvent(events[i]).Ok?))
            && (r.Ok? ==> r.value == |s.history| + |events|)
            && (r.Err? ==> w == s.world && (FirstUnserializable(b, events, r.error) || fault == Some(r.error)))
            && (r.Err? && (exists i :: 0 <= i < |events| && b.serializeEvent(events[i]).Err?) ==>
                  FirstUnserializable(b, events, r.error))
  {
    EntriesReport(b, s.world.actor.lastSequenceId, events);
    hide Entries, Fold, StoreHolds, AtPrefix, FirstUnserializable;
  }

  /** The same of a single event. */
  lemma PersistReports<S, E>(b: Behavior<S, E>, s: System<S, E>, base: nat, e: E, fault: Fault)
    requires Inv(b, s, base) && s.running
    ensures var (r, w) := AfterPersist(b, s.world, e, fault);
            var serialized := b.serializeEvent(e);
            && r == (if serialized.Err? then Err(serialized.error)
                     else if fault.Some? then Err(fault.value) else Ok(|s.history| + 1))
            && (r.Err? ==> w == s.world)
  {
    hide StoreHolds, AtPrefix;
  }

  /** A snapshot reports the codec's error, else the storage's; on success it covers everything persisted so far. */
  lemma SnapshotReports<S, E>(b: Behavior<S, E>, s: System<S, E>, base: nat, fault: Fault)
    requires Inv(b, s, base) && s.running
    ensures var (r, w) := AfterSnapshot(b, s.world, fault);
            var payload := b.snapshotPayload(Fold(b, b.initial, s.history));
            && r == (if payload.Err? then Err(payload.error) else if fault.Some? then Err(fault.value) else Ok(()))
            && (r.Err? ==> w == s.world)
            && (r.Ok? ==> w == s.world.(store := s.world.store.(snapshots := w.store.snapshots)))
            && (r.Ok? ==> w.store.snapshots == s.world.store.snapshots + [SnapshotEntry(|s.history|, payload.value)])
  {
    assert s.history[..|s.history|] == s.history;
    hide StoreHolds, Fold;
  }

  ghost predicate TypesHold<S, E>(b: Behavior<S, E>, journal: seq<JournalEntry>) {
    forall i :: 0 <= i < |journal| ==> journal[i].eventType == b.eventType
  }

  lemma StepKeepsTypes<S, E>(b: Behavior<S, E>, s: System<S, E>, op: Op<E>)
    requires TypesHold(b, s.world.store.journal)
    ensures TypesHold(b, Step(b, s, op).world.store.journal)
  {
    hide Fold, EventsFrom, SnapshotsFrom, Entries, AfterRecovery;
    match op
    case PersistBatch(events, _) =>
      EntriesReport(b, s.world.actor.lastSequenceId, events);
    case DeleteEvents(to, _) =>
      KeptAreFound(s.world.store.journal, to + 1);
    case _ =>
  }

  lemma {:induction false} KeptAreFound(journal: seq<JournalEntry>, from: int)
    ensures forall i :: 0 <= i < |EventsFrom(journal, from)| ==> EventsFrom(journal, from)[i] in journal
  {
    if journal != [] {
      KeptAreFound(journal[1..], from);
      var rest := EventsFrom(journal[1..], from);
      forall i | 0 <= i < |rest| ensures rest[i] in journal {
        assert rest[i] in journal[1..];
      }
    }
  }

  /** In every run all entries of the journal carry the actor's event type. */
  lemma {:induction false} EntriesCarryTheirType<S, E>(b: Behavior<S, E>, ops: seq<Op<E>>)
    ensures TypesHold(b, Run(b, ops).world.store.journal)
  {
    hide TypesHold, Step;
    if ops == [] {
      NoTypes(b);
    } else {
      EntriesCarryTheirType(b, ops[..|ops| - 1]);
      StepKeepsTypes(b, Run(b, ops[..|ops| - 1]), ops[|ops| - 1]);
    }
  }

  lemma NoTypes<S, E>(b: Behavior<S, E>)
    ensures TypesHold(b, [])
  {
  }

  // ----- Deleting snapshots -----

  /**
    What is left after deleting the snapshots before an id: `kept` lists places of the old
    sequence in order, exactly those of the snapshots from the id on.
  */
  lemma {:induction false} DeletionKeepsExactly(snapshots: seq<SnapshotEntry>, from: int) returns (kept: seq<nat>)
    ensures |SnapshotsFrom(snapshots, from)| == |kept|
    ensures forall i :: 0 <= i < |kept| ==>
                          kept[i] < |snapshots| && SnapshotsFrom(snapshots, from)[i] == snapshots[kept[i]]
    ensures forall i, j :: 0 <= i < j < |kept| ==> kept[i] < kept[j]
    ensures forall k :: 0 <= k < |snapshots| ==> (k in kept <==> snapshots[k].sequenceId >= from)
  {
    if snapshots == [] {
      kept := [];
    } else {
      var n := |snapshots| - 1;
      var init, last := snapshots[..n], snapshots[n];
      kept := DeletionKeepsExactly(init, from);
      SnapshotsFromAppend(init, last, from);
      assert init + [last] == snapshots;
      hide SnapshotsFrom;
      if last.sequenceId >= from { kept := kept + [n]; }
    }
  }

  lemma {:induction false} SnapshotsFromAppend(snapshots: seq<SnapshotEntry>, last: SnapshotEntry, from: int)
    ensures SnapshotsFrom(snapshots + [last], from)
         == SnapshotsFrom(snapshots, from) + if last.sequenceId >= from then [last] else []
  {
    var tail := if last.sequenceId >= from then [last] else [];
    if snapshots == [] {
      assert ([] + [last])[1..] == [];
      ConcatNothing(tail);
    } else {
      SnapshotsFromAppend(snapshots[1..], last, from);
      TailOfConcat(snapshots, [last]);
      var head := if snapshots[0].sequenceId >= from then [snapshots[0]] else [];
      assert SnapshotsFrom(snapshots + [last], from) == head + SnapshotsFrom((snapshots + [last])[1..], from);
      assert SnapshotsFrom(snapshots, from) == head + SnapshotsFrom(snapshots[1..], from);
      hide SnapshotsFrom;
      ConcatAssociates(head, SnapshotsFrom(snapshots[1..], from), tail);
    }
  }

  // ----- Recovering -----

  /**
    What a recovery reports of any store: the error of loading the snapshot, of its codec, of
    reading the journal, or of the first entry that does not decode, whichever comes first.
    Without one, the actor is at the last entry read, or at the snapshot if there is none, and
    its state is the snapshot's with the events of those entries applied in order.
  */
  lemma RecoveryReports<S, E>(b: Behavior<S, E>, store: Store, actor: ActorState<S>, faults: RecoveryFaults)
    ensures var (r, actor') := AfterRecovery(b, store, actor, faults);
            var n := |store.snapshots|;
            var restored := if n == 0 then Ok(actor.state) else b.restoreSnapshot(store.snapshots[n - 1].payload);
            var point := if n == 0 then actor.lastSequenceId else store.snapshots[n - 1].sequenceId;
            var entries := EventsFrom(store.journal, point + 1);
            if faults.loadSnapshot.Some? then r == Err(faults.loadSnapshot.value)
            else if restored.Err? then r == Err(restored.error)
            else if faults.readEvents.Some? then r == Err(faults.readEvents.value)
            else if exists i :: 0 <= i < |entries| && b.deserializeEvent(entries[i].payload).Err?
            then r.Err? && FirstUndecodable(b, entries, r.error)
            else
              && r == Ok(())
              && actor'.lastSequenceId == (if entries == [] then point else entries[|entries| - 1].sequenceId)
              && actor'.state == Fold(b, restored.value, Decoded(b, entries))
  {
    hide EventsFrom, Fold;
    var point :=
      if store.snapshots == [] then actor.lastSequenceId else store.snapshots[|store.snapshots| - 1].sequenceId;
    var entries := EventsFrom(store.journal, point + 1);
    DecodeReport(b, entries);
    if DecodeAll(b, entries).Ok? { assert DecodeAll(b, entries).value == Decoded(b, entries); }
    hide DecodeAll, FirstUndecodable;
  }

  /** The events of entries that all decode. */
  function Decoded<S, E>(b: Behavior<S, E>, entries: seq<JournalEntry>): (events: seq<E>)
    requires forall i :: 0 <= i < |entries| ==> b.deserializeEvent(entries[i].payload).Ok?
    ensures |events| == |entries|
    ensures forall i :: 0 <= i < |entries| ==> events[i] == b.deserializeEvent(entries[i].payload).value
  {
    seq(|entries|, i requires 0 <= i < |entries| => b.deserializeEvent(entries[i].payload).value)
  }

  /** The tries that a policy allows, and the most that it sleeps between them. */
  function Allowance(policy: RecoveryFailurePolicy): nat {
    match policy
    case Stop => 1
    case SkipAndStart => 1
    case Retry(None, _) => 3
    case Retry(Some(n), _) => if n > 1 then n else 1
  }

  /**
    What a recovery reports, whatever is stored. Under a policy that skips, success. Under
    any other, success exactly when one of the tries allowed succeeds, and otherwise, after
    all of them, the error of the first, whatever the later ones met.
  */
  lemma FirstErrorIsReported<S, E>(b: Behavior<S, E>, store: Store, actor: ActorState<S>,
                                   policy: RecoveryFailurePolicy, env: nat -> RecoveryFaults)
    ensures var r := RecoveryResult(b, store, actor, policy, env);
            var tries := TriesMade(b, store, actor, env, TriesAllowed(policy));
            && tries <= Allowance(policy)
            && (policy.SkipAndStart? ==> r == Ok(()))
            && (!policy.SkipAndStart? ==>
                  (r.Ok? <==> exists k: nat :: k < Allowance(policy) && OutcomeOf(b, store, actor, env, k).Ok?))
            && (r.Err? ==> r == AfterRecovery(b, store, actor, env(0)).0 && tries == Allowance(policy))
  {
    var limit := TriesAllowed(policy);
    var tries := TriesMade(b, store, actor, env, limit);
    assert limit == Allowance(policy);
    AttemptsBeforeLastFail(b, store, actor, env, limit, 0);
    FirstOutcome(b, store, actor, env);
    hide OutcomeOf, TriesMade, AfterRecovery;
    assert OutcomeOf(b, store, actor, env, tries - 1).Ok? ==> tries - 1 < Allowance(policy);
  }

  lemma FirstOutcome<S, E>(b: Behavior<S, E>, store: Store, actor: ActorState<S>, env: nat -> RecoveryFaults)
    ensures OutcomeOf(b, store, actor, env, 0) == AfterRecovery(b, store, actor, env(0)).0
  {
    hide AfterRecovery;
  }

  /** Two tries that fail for different reasons: the first reason is reported. */
  lemma SecondErrorIsNotReported<S, E>(b: Behavior<S, E>, initialDelayNanos: nat)
    ensures var first, second := StorageUnavailable("a"), StorageUnavailable("b");
            var env := (k: nat) => RecoveryFaults(Some(if k == 0 then first else second), None);
            RecoveryResult(b, Store([], []), ActorState(b.initial, 0), Retry(Some(2), initialDelayNanos), env)
            == Err(first)
  {
    var first, second := StorageUnavailable("a"), StorageUnavailable("b");
    var env := (k: nat) => RecoveryFaults(Some(if k == 0 then first else second), None);
    var store, actor, policy := Store([], []), ActorState(b.initial, 0), Retry(Some(2), initialDelayNanos);
    FirstErrorIsReported(b, store, actor, policy, env);
    forall k: nat ensures OutcomeOf(b, store, actor, env, k).Err? {
      RecoveryReports(b, store, AfterTries(b, store, actor, env, k), env(k));
    }
    RecoveryReports(b, store, actor, env(0));
    hide RecoveryResult, TriesMade, AfterRecovery, OutcomeOf;
  }
}
