/**
  Event-sourced persistence: the journal and snapshot storage, the actor's persist, batch
  and snapshot operations, and recovery with its failure policies.

  Storage is a party that may fail: every call carries the fault it meets, if any, and a
  failed call has written nothing. The functions on values say what each operation does;
  the classes below them are proved against those functions.
*/
module Persistence {
  import opened Numbers
  import opened Wrappers
  import opened Wire

  type Bytes = seq<Byte>
  type PersistenceId = string

  datatype PersistError =
    | StorageUnavailable(detail: string)
    | SerializationFailed(detail: string)
    | CorruptEntry(sequenceId: int, detail: string)
    | NotConfigured

  type Fault = Option<PersistError>

  datatype JournalEntry = JournalEntry(sequenceId: int, eventType: string, payload: Bytes)

  datatype SnapshotEntry = SnapshotEntry(sequenceId: int, payload: Bytes)

  /** What an event-sourced actor type supplies: its `apply` and its codecs. */
  datatype Behavior<!S, !E> = Behavior(
    initial: S,
    apply: (S, E) -> S,
    eventType: string,
    serializeEvent: E -> Result<Bytes, PersistError>,
    deserializeEvent: Bytes -> Result<E, PersistError>,
    snapshotPayload: S -> Result<Bytes, PersistError>,
    restoreSnapshot: Bytes -> Result<S, PersistError>)

  // ----- The storage of one persistence id, as a value -----

  datatype Store = Store(journal: seq<JournalEntry>, snapshots: seq<SnapshotEntry>)

  function EventsFrom(journal: seq<JournalEntry>, from: int): seq<JournalEntry> {
    if journal == [] then []
    else (if journal[0].sequenceId >= from then [journal[0]] else []) + EventsFrom(journal[1..], from)
  }

  function SnapshotsFrom(snapshots: seq<SnapshotEntry>, from: int): seq<SnapshotEntry> {
    if snapshots == [] then []
    else (if snapshots[0].sequenceId >= from then [snapshots[0]] else []) + SnapshotsFrom(snapshots[1..], from)
  }

  function DeleteEventsTo(journal: seq<JournalEntry>, to: int): seq<JournalEntry> {
    EventsFrom(journal, to + 1)
  }

  function LatestSnapshot(snapshots: seq<SnapshotEntry>): Option<SnapshotEntry> {
    if snapshots == [] then None else Some(snapshots[|snapshots| - 1])
  }

  function WithEvent(store: Store, entry: JournalEntry): Store {
    store.(journal := store.journal + [entry])
  }

  function WithSnapshot(store: Store, entry: SnapshotEntry): Store {
    store.(snapshots := store.snapshots + [entry])
  }

  // ----- The actor and its operations, as values -----

  datatype ActorState<S> = ActorState(state: S, lastSequenceId: int)

  datatype World<S> = World(store: Store, actor: ActorState<S>)

  /** The state after applying `events` to `s`, in order. */
  function Fold<S, E>(b: Behavior<S, E>, s: S, events: seq<E>): S {
    if events == [] then s
    else b.apply(Fold(b, s, events[..|events| - 1]), events[|events| - 1])
  }

  function AfterPersist<S, E>(b: Behavior<S, E>, w: World<S>, e: E, fault: Fault)
    : (Result<int, PersistError>, World<S>)
  {
    var next := w.actor.lastSequenceId + 1;
    match b.serializeEvent(e)
    case Err(error) => (Err(error), w)
    case Ok(payload) =>
      if fault.Some? then (Err(fault.value), w)
      else
        (Ok(next),
         World(w.store.(journal := w.store.journal + [JournalEntry(next, b.eventType, payload)]),
         ActorState(b.apply(w.actor.state, e), next)))
  }

  /** Journal entries for `events`, numbered after `last`; the first event that fails to serialize fails all. */
  function Entries<S, E>(b: Behavior<S, E>, last: int, events: seq<E>): Result<seq<JournalEntry>, PersistError> {
    if events == [] then Ok([])
    else
      var n := |events| - 1;
      match Entries(b, last, events[..n])
      case Err(error) => Err(error)
      case Ok(entries) =>
        match b.serializeEvent(events[n])
        case Err(error) => Err(error)
        case Ok(payload) => Ok(entries + [JournalEntry(last + n + 1, b.eventType, payload)])
  }

  function AfterPersistBatch<S, E>(b: Behavior<S, E>, w: World<S>, events: seq<E>, fault: Fault)
    : (Result<int, PersistError>, World<S>)
  {
    if events == [] then (Ok(w.actor.lastSequenceId), w)
    else
      match Entries(b, w.actor.lastSequenceId, events)
      case Err(error) => (Err(error), w)
      case Ok(entries) =>
        if fault.Some? then (Err(fault.value), w)
        else
          var last := w.actor.lastSequenceId + |events|;
          (Ok(last),
           World(w.store.(journal := w.store.journal + entries),
           ActorState(Fold(b, w.actor.state, events), last)))
  }

  function AfterSnapshot<S, E>(b: Behavior<S, E>, w: World<S>, fault: Fault): (Result<(), PersistError>, World<S>) {
    match b.snapshotPayload(w.actor.state)
    case Err(error) => (Err(error), w)
    case Ok(payload) =>
      if fault.Some? then (Err(fault.value), w)
      else
        var entry := SnapshotEntry(w.actor.lastSequenceId, payload);
        (Ok(()), w.(store := w.store.(snapshots := w.store.snapshots + [entry])))
  }

  // ----- Recovery, as values -----

  /** The faults one recovery attempt meets: loading the snapshot, and reading the journal. */
  datatype RecoveryFaults = RecoveryFaults(loadSnapshot: Fault, readEvents: Fault)

  function DecodeAll<S, E>(b: Behavior<S, E>, entries: seq<JournalEntry>): Result<seq<E>, PersistError> {
    if entries == [] then Ok([])
    else
      var n := |entries| - 1;
      match DecodeAll(b, entries[..n])
      case Err(error) => Err(error)
      case Ok(events) =>
        match b.deserializeEvent(entries[n].payload)
        case Err(error) => Err(error)
        case Ok(event) => Ok(events + [event])
  }

  /** The first half of a recovery: the actor at its latest snapshot. */
  function AfterRestore<S, E>(b: Behavior<S, E>, store: Store, actor: ActorState<S>, fault: Fault)
    : (Result<(), PersistError>, ActorState<S>)
  {
    if fault.Some? then (Err(fault.value), actor)
    else
      match LatestSnapshot(store.snapshots)
      case None => (Ok(()), actor)
      case Some(snap) =>
        match b.restoreSnapshot(snap.payload)
        case Err(error) => (Err(error), actor)
        case Ok(state) => (Ok(()), ActorState(state, snap.sequenceId))
  }

  /** The second half: replay of the journal after the actor's last sequence id. */
  function AfterReplay<S, E>(b: Behavior<S, E>, store: Store, actor: ActorState<S>, fault: Fault)
    : (Result<(), PersistError>, ActorState<S>)
  {
    if fault.Some? then (Err(fault.value), actor)
    else
      var entries := EventsFrom(store.journal, actor.lastSequenceId + 1);
      match DecodeAll(b, entries)
      case Err(error) => (Err(error), actor)
      case Ok(events) =>
        (Ok(()), ActorState(Fold(b, actor.state, events),
         if entries == [] then actor.lastSequenceId else entries[|entries| - 1].sequenceId))
  }

  function AfterRecovery<S, E>(b: Behavior<S, E>, store: Store, actor: ActorState<S>, faults: RecoveryFaults)
    : (Result<(), PersistError>, ActorState<S>)
  {
    var (restored, actor1) := AfterRestore(b, store, actor, faults.loadSnapshot);
    if restored.Err? then (restored, actor1)
    else AfterReplay(b, store, actor1, faults.readEvents)
  }

  // ----- Recovery with a failure policy -----

  const DEFAULT_ATTEMPTS: U32 := 3
  const NANOS_PER_MILLI: nat := 1_000_000
  const MAX_DELAY_MILLIS: nat := 30_000

  datatype RecoveryFailurePolicy =
    | Stop
    | Retry(maxAttempts: Option<U32>, initialDelayNanos: nat)
    | SkipAndStart

  /** The delay that follows `delay` (both in nanoseconds): doubled in whole milliseconds and capped. */
  function NextDelay(delay: nat): nat {
    var millis := (delay / NANOS_PER_MILLI) % U64_RANGE;
    Min(Min(millis * 2, U64_RANGE - 1), MAX_DELAY_MILLIS) * NANOS_PER_MILLI
  }

  /** The k-th delay of a retry loop that starts with `initial`. */
  function DelayAt(initial: nat, k: nat): nat {
    if k == 0 then initial else NextDelay(DelayAt(initial, k - 1))
  }

  /** The tries a policy allows in all. */
  function TriesAllowed(policy: RecoveryFailurePolicy): (n: nat)
    ensures n >= 1
  {
    match policy
    case Retry(attempts, _) =>
      var n := if attempts.Some? then attempts.value else DEFAULT_ATTEMPTS;
      if n == 0 then 1 else n
    case _ => 1
  }

  /** The actor after `k` recovery attempts, the i-th of which meets the faults `env(i)`. */
  function AfterTries<S, E>(b: Behavior<S, E>, store: Store, actor: ActorState<S>, env: nat -> RecoveryFaults, k: nat)
    : ActorState<S>
  {
    if k == 0 then actor else AfterRecovery(b, store, AfterTries(b, store, actor, env, k - 1), env(k - 1)).1
  }

  /** The outcome of the k-th attempt, counting from 0. */
  function OutcomeOf<S, E>(b: Behavior<S, E>, store: Store, actor: ActorState<S>, env: nat -> RecoveryFaults, k: nat)
    : Result<(), PersistError>
  {
    AfterRecovery(b, store, AfterTries(b, store, actor, env, k), env(k)).0
  }

  /** The attempts made when the `k` first ones have failed and at most `limit` are made. */
  function TriesMade<S, E>(b: Behavior<S, E>, store: Store, actor: ActorState<S>, env: nat -> RecoveryFaults,
                           limit: nat, k: nat := 0)
    : (tries: nat)
    requires k < limit
    ensures k < tries <= limit
    decreases limit - k
  {
    if k + 1 == limit || OutcomeOf(b, store, actor, env, k).Ok? then k + 1
    else TriesMade(b, store, actor, env, limit, k + 1)
  }

  /** What a recovery under `policy` reports: a success, or the error of the first attempt unless that is skipped. */
  function RecoveryResult<S, E>(b: Behavior<S, E>, store: Store, actor: ActorState<S>, policy: RecoveryFailurePolicy,
                                env: nat -> RecoveryFaults)
    : Result<(), PersistError>
  {
    var tries := TriesMade(b, store, actor, env, TriesAllowed(policy));
    if OutcomeOf(b, store, actor, env, tries - 1).Ok? || policy.SkipAndStart? then Ok(())
    else OutcomeOf(b, store, actor, env, 0)
  }

  /** The attempts stop at the first success, or at the limit. */
  lemma {:induction false} StopsAtFirstSuccess<S, E>(b: Behavior<S, E>, store: Store, actor: ActorState<S>,
                                                     env: nat -> RecoveryFaults, limit: nat, k: nat, tries: nat)
    requires k < tries <= limit
    requires forall i :: k <= i < tries - 1 ==> OutcomeOf(b, store, actor, env, i).Err?
    requires tries < limit ==> OutcomeOf(b, store, actor, env, tries - 1).Ok?
    ensures TriesMade(b, store, actor, env, limit, k) == tries
    decreases tries - k
  {
    hide OutcomeOf;
    if k + 1 < tries { StopsAtFirstSuccess(b, store, actor, env, limit, k + 1, tries); }
  }

  lemma {:induction false} AttemptsBeforeLastFail<S, E>(b: Behavior<S, E>, store: Store, actor: ActorState<S>,
                                                        env: nat -> RecoveryFaults, limit: nat, k: nat)
    requires k < limit
    ensures var tries := TriesMade(b, store, actor, env, limit, k);
            && (forall i :: k <= i < tries - 1 ==> OutcomeOf(b, store, actor, env, i).Err?)
            && (tries < limit ==> OutcomeOf(b, store, actor, env, tries - 1).Ok?)
    decreases limit - k
  {
    hide OutcomeOf;
    if k + 1 < limit { AttemptsBeforeLastFail(b, store, actor, env, limit, k + 1); }
  }

  /** No sleep exceeds 30 seconds exactly when the first one does not, or only one try is allowed. */
  lemma SleepsAreCappedIff(policy: RecoveryFailurePolicy)
    requires policy.Retry?
    ensures var cap := MAX_DELAY_MILLIS * NANOS_PER_MILLI;
            (forall k: nat :: k + 1 < TriesAllowed(policy) ==> DelayAt(policy.initialDelayNanos, k) <= cap)
            <==> policy.initialDelayNanos <= cap || TriesAllowed(policy) == 1
  {
    var initial, cap := policy.initialDelayNanos, MAX_DELAY_MILLIS * NANOS_PER_MILLI;
    forall k: nat ensures k == 0 || DelayAt(initial, k) <= cap {
      if k > 0 { NextIsCapped(DelayAt(initial, k - 1)); }
    }
    assert DelayAt(initial, 0) == initial;
  }

  /** A minute before the first retry, and half a minute before the next. */
  lemma FirstSleepCanExceedCap()
    ensures var minute := 60_000 * NANOS_PER_MILLI;
            && TriesAllowed(Retry(None, minute)) > 2
            && DelayAt(minute, 0) > MAX_DELAY_MILLIS * NANOS_PER_MILLI == DelayAt(minute, 1)
  {
    var millis := 60_000;
    assert millis * NANOS_PER_MILLI / NANOS_PER_MILLI == millis;
    assert millis % U64_RANGE == millis;
  }

  lemma NextIsCapped(delay: nat)
    ensures NextDelay(delay) <= MAX_DELAY_MILLIS * NANOS_PER_MILLI
  {
  }

  /** Each delay after the first is the initial whole milliseconds doubled k times, at most 30 seconds. */
  lemma {:induction false} BackoffIsCappedDoubling(initial: nat, k: nat)
    requires k > 0
    ensures DelayAt(initial, k)
         == Min((initial / NANOS_PER_MILLI) % U64_RANGE * Power2(k), MAX_DELAY_MILLIS) * NANOS_PER_MILLI
  {
    var millis := (initial / NANOS_PER_MILLI) % U64_RANGE;
    if k == 1 {
      assert Power2(1) == 2 * Power2(0);
    } else {
      BackoffIsCappedDoubling(initial, k - 1);
      var shorter := Min(millis * Power2(k - 1), MAX_DELAY_MILLIS);
      WholeMillis(shorter);
      assert NextDelay(shorter * NANOS_PER_MILLI) == Min(shorter * 2, MAX_DELAY_MILLIS) * NANOS_PER_MILLI;
      assert millis * Power2(k) == 2 * (millis * Power2(k - 1)) by { Doubling(millis, Power2(k - 1)); }
    }
  }

  lemma WholeMillis(millis: nat)
    requires millis <= MAX_DELAY_MILLIS
    ensures (millis * NANOS_PER_MILLI) / NANOS_PER_MILLI % U64_RANGE == millis
  {
  }

  lemma Doubling(a: nat, p: nat)
    ensures a * (2 * p) == 2 * (a * p)
  {
  }

  // ----- The storage object -----

  class InMemoryStorage {
    var journals: map<PersistenceId, seq<JournalEntry>>
    var snapshots: map<PersistenceId, seq<SnapshotEntry>>

    constructor ()
      ensures journals == map[] && snapshots == map[]
    {
      journals, snapshots := map[], map[];
    }

    function StoreOf(pid: PersistenceId): Store
      reads this
    {
      Store(if pid in journals then journals[pid] else [], if pid in snapshots then snapshots[pid] else [])
    }

    /** Nothing but the records of `pid` has changed. */
    twostate predicate OthersUnchanged(pid: PersistenceId)
      reads this
    {
      forall other :: other != pid ==> StoreOf(other) == old(StoreOf(other))
    }

    method WriteEvent(pid: PersistenceId, sequenceId: int, eventType: string, payload: Bytes, fault: Fault)
      returns (r: Result<(), PersistError>)
      modifies this
      ensures r == if fault.Some? then Err(fault.value) else Ok(())
      ensures StoreOf(pid) == if fault.Some? then old(StoreOf(pid)) else
                              WithEvent(old(StoreOf(pid)), JournalEntry(sequenceId, eventType, payload))
      ensures OthersUnchanged(pid)
    {
      if fault.Some? {
        return Err(fault.value);
      }
      var entries := if pid in journals then journals[pid] else [];
      entries := entries + [JournalEntry(sequenceId, eventType, payload)];
      journals := journals[pid := entries];
      return Ok(());
    }

    method WriteEventBatch(pid: PersistenceId, batch: seq<JournalEntry>, fault: Fault)
      returns (r: Result<(), PersistError>)
      modifies this
      ensures r == if fault.Some? then Err(fault.value) else Ok(())
      ensures StoreOf(pid) == if fault.Some? then old(StoreOf(pid)) else
                              old(StoreOf(pid)).(journal := old(StoreOf(pid)).journal + batch)
      ensures OthersUnchanged(pid)
    {
      if fault.Some? {
        return Err(fault.value);
      }
      var entries := if pid in journals then journals[pid] else [];
      for i := 0 to |batch|
        invariant entries == old(StoreOf(pid)).journal + batch[..i]
      {
        entries := entries + [batch[i]];
      }
      journals := journals[pid := entries];
      return Ok(());
    }

    method ReadEvents(pid: PersistenceId, from: int, fault: Fault) returns (r: Result<seq<JournalEntry>, PersistError>)
      ensures r == if fault.Some? then Err(fault.value) else Ok(EventsFrom(StoreOf(pid).journal, from))
    {
      if fault.Some? {
        return Err(fault.value);
      }
      return Ok(if pid in journals then EventsFrom(journals[pid], from) else []);
    }

    method DeleteEvents(pid: PersistenceId, to: int, fault: Fault) returns (r: Result<(), PersistError>)
      modifies this
      ensures r == if fault.Some? then Err(fault.value) else Ok(())
      ensures StoreOf(pid) == if fault.Some? then old(StoreOf(pid)) else
                              old(StoreOf(pid)).(journal := DeleteEventsTo(old(StoreOf(pid)).journal, to))
      ensures OthersUnchanged(pid)
    {
      if fault.Some? {
        return Err(fault.value);
      }
      if pid in journals {
        journals := journals[pid := EventsFrom(journals[pid], to + 1)];
      }
      return Ok(());
    }

    method SaveSnapshot(pid: PersistenceId, sequenceId: int, payload: Bytes, fault: Fault)
      returns (r: Result<(), PersistError>)
      modifies this
      ensures r == if fault.Some? then Err(fault.value) else Ok(())
      ensures StoreOf(pid) == if fault.Some? then old(StoreOf(pid)) else
                              WithSnapshot(old(StoreOf(pid)), SnapshotEntry(sequenceId, payload))
      ensures OthersUnchanged(pid)
    {
      if fault.Some? {
        return Err(fault.value);
      }
      var entries := if pid in snapshots then snapshots[pid] else [];
      snapshots := snapshots[pid := entries + [SnapshotEntry(sequenceId, payload)]];
      return Ok(());
    }

    method LoadLatestSnapshot(pid: PersistenceId, fault: Fault)
      returns (r: Result<Option<SnapshotEntry>, PersistError>)
      ensures r == if fault.Some? then Err(fault.value) else Ok(LatestSnapshot(StoreOf(pid).snapshots))
    {
      if fault.Some? {
        return Err(fault.value);
      }
      return Ok(if pid in snapshots then LatestSnapshot(snapshots[pid]) else None);
    }

    method DeleteSnapshotsBefore(pid: PersistenceId, sequenceId: int, fault: Fault)
      returns (r: Result<(), PersistError>)
      modifies this
      ensures r == if fault.Some? then Err(fault.value) else Ok(())
      ensures StoreOf(pid) == if fault.Some? then old(StoreOf(pid)) else
                              old(StoreOf(pid)).(snapshots := SnapshotsFrom(old(StoreOf(pid)).snapshots, sequenceId))
      ensures OthersUnchanged(pid)
    {
      if fault.Some? {
        return Err(fault.value);
      }
      if pid in snapshots {
        snapshots := snapshots[pid := SnapshotsFrom(snapshots[pid], sequenceId)];
      }
      return Ok(());
    }
  }

  // ----- The actor object -----

  class EventSourcedActor<S, E> {
    const persistenceId: PersistenceId
    const behavior: Behavior<S, E>
    var state: S
    var lastSequenceId: int

    constructor (persistenceId: PersistenceId, behavior: Behavior<S, E>)
      ensures this.persistenceId == persistenceId && this.behavior == behavior
      ensures Actor() == ActorState(behavior.initial, 0)
    {
      this.persistenceId, this.behavior := persistenceId, behavior;
      state, lastSequenceId := behavior.initial, 0;
    }

    function Actor(): ActorState<S>
      reads this
    {
      ActorState(state, lastSequenceId)
    }

    function WorldIn(storage: InMemoryStorage): World<S>
      reads this, storage
    {
      World(storage.StoreOf(persistenceId), Actor())
    }

    method Persist(event: E, storage: InMemoryStorage, fault: Fault) returns (r: Result<int, PersistError>)
      modifies this, storage
      ensures (r, WorldIn(storage)) == AfterPersist(behavior, old(WorldIn(storage)), event, fault)
      ensures storage.OthersUnchanged(persistenceId)
    {
      var nextSeq := lastSequenceId + 1;
      var payload := behavior.serializeEvent(event);
      if payload.Err? {
        return Err(payload.error);
      }
      var written := storage.WriteEvent(persistenceId, nextSeq, behavior.eventType, payload.value, fault);
      if written.Err? {
        return Err(written.error);
      }
      state := behavior.apply(state, event);
      lastSequenceId := nextSeq;
      return Ok(nextSeq);
    }

    method PersistBatch(events: seq<E>, storage: InMemoryStorage, fault: Fault) returns (r: Result<int, PersistError>)
      modifies this, storage
      ensures (r, WorldIn(storage)) == AfterPersistBatch(behavior, old(WorldIn(storage)), events, fault)
      ensures storage.OthersUnchanged(persistenceId)
    {
      hide Entries, Fold;
      if events == [] {
        return Ok(lastSequenceId);
      }
      var batch := SerializeAll(events);
      if batch.Err? {
        return Err(batch.error);
      }
      var written := storage.WriteEventBatch(persistenceId, batch.value, fault);
      if written.Err? {
        return Err(written.error);
      }
      ApplyAll(events);
      lastSequenceId := lastSequenceId + |events|;
      return Ok(lastSequenceId);
    }

    method SerializeAll(events: seq<E>) returns (r: Result<seq<JournalEntry>, PersistError>)
      ensures r == Entries(behavior, lastSequenceId, events)
    {
      var seqId := lastSequenceId;
      var batch := [];
      for i := 0 to |events|
        invariant seqId == lastSequenceId + i
        invariant Entries(behavior, lastSequenceId, events[..i]) == Ok(batch)
      {
        assert events[..i + 1][..i] == events[..i];
        seqId := seqId + 1;
        var payload := behavior.serializeEvent(events[i]);
        if payload.Err? {
          EntriesFail(behavior, lastSequenceId, events, i + 1);
          return Err(payload.error);
        }
        batch := batch + [JournalEntry(seqId, behavior.eventType, payload.value)];
      }
      assert events[..|events|] == events;
      return Ok(batch);
    }

    method ApplyAll(events: seq<E>)
      modifies this`state
      ensures state == Fold(behavior, old(state), events)
    {
      for i := 0 to |events|
        invariant state == Fold(behavior, old(state), events[..i])
      {
        assert events[..i + 1][..i] == events[..i];
        state := behavior.apply(state, events[i]);
      }
      assert events[..|events|] == events;
    }

    method Snapshot(storage: InMemoryStorage, fault: Fault) returns (r: Result<(), PersistError>)
      modifies storage
      ensures (r, WorldIn(storage)) == AfterSnapshot(behavior, old(WorldIn(storage)), fault)
      ensures storage.OthersUnchanged(persistenceId)
    {
      var payload := behavior.snapshotPayload(state);
      if payload.Err? {
        return Err(payload.error);
      }
      r := storage.SaveSnapshot(persistenceId, lastSequenceId, payload.value, fault);
    }

    method RecoverOnce(storage: InMemoryStorage, faults: RecoveryFaults) returns (r: Result<(), PersistError>)
      modifies this
      ensures (r, Actor()) == AfterRecovery(behavior, storage.StoreOf(persistenceId), old(Actor()), faults)
    {
      hide EventsFrom, DecodeAll, Fold;
      var snap := storage.LoadLatestSnapshot(persistenceId, faults.loadSnapshot);
      if snap.Err? {
        return Err(snap.error);
      }
      if snap.value.Some? {
        var restored := behavior.restoreSnapshot(snap.value.value.payload);
        if restored.Err? {
          return Err(restored.error);
        }
        state := restored.value;
        lastSequenceId := snap.value.value.sequenceId;
      }
      var entries := storage.ReadEvents(persistenceId, lastSequenceId + 1, faults.readEvents);
      if entries.Err? {
        return Err(entries.error);
      }
      var decoded := DeserializeAll(entries.value);
      if decoded.Err? {
        return Err(decoded.error);
      }
      Replay(entries.value, decoded.value);
      return Ok(());
    }

    method DeserializeAll(entries: seq<JournalEntry>) returns (r: Result<seq<E>, PersistError>)
      ensures r == DecodeAll(behavior, entries)
      ensures r.Ok? ==> |r.value| == |entries|
    {
      var events := [];
      for i := 0 to |entries|
        invariant DecodeAll(behavior, entries[..i]) == Ok(events) && |events| == i
      {
        assert entries[..i + 1][..i] == entries[..i];
        var event := behavior.deserializeEvent(entries[i].payload);
        if event.Err? {
          DecodeFails(behavior, entries, i + 1);
          return Err(event.error);
        }
        events := events + [event.value];
      }
      assert entries[..|entries|] == entries;
      return Ok(events);
    }

    method Replay(entries: seq<JournalEntry>, events: seq<E>)
      requires |entries| == |events|
      modifies this
      ensures state == Fold(behavior, old(state), events)
      ensures lastSequenceId == if entries == [] then old(lastSequenceId) else entries[|entries| - 1].sequenceId
    {
      for i := 0 to |events|
        invariant state == Fold(behavior, old(state), events[..i])
        invariant lastSequenceId == if i == 0 then old(lastSequenceId) else entries[i - 1].sequenceId
      {
        assert events[..i + 1][..i] == events[..i];
        state := behavior.apply(state, events[i]);
        lastSequenceId := entries[i].sequenceId;
      }
      assert events[..|events|] == events;
    }

    /**
      Recovery under a failure policy. `env(i)` gives the faults of the i-th attempt; `tries`
      and `sleeps` report the attempts made and the delays slept.
    */
    method Recover(storage: InMemoryStorage, policy: RecoveryFailurePolicy, env: nat -> RecoveryFaults)
      returns (r: Result<(), PersistError>, tries: nat, sleeps: seq<nat>)
      modifies this
      ensures tries == TriesMade(behavior, storage.StoreOf(persistenceId), old(Actor()), env, TriesAllowed(policy))
      ensures r == RecoveryResult(behavior, storage.StoreOf(persistenceId), old(Actor()), policy, env)
      ensures Actor() == AfterTries(behavior, storage.StoreOf(persistenceId), old(Actor()), env, tries)
      ensures |sleeps| == tries - 1
      ensures policy.Retry? ==> forall k :: 0 <= k < |sleeps| ==> sleeps[k] == DelayAt(policy.initialDelayNanos, k)
    {
      hide AfterRecovery, AfterTries, NextDelay, DelayAt, TriesMade, OutcomeOf;
      ghost var store, start, limit := storage.StoreOf(persistenceId), Actor(), TriesAllowed(policy);
      r := RecoverOnce(storage, env(0));
      tries, sleeps := 1, [];
      FirstTry(behavior, store, start, env);
      if r.Ok? {
        StopsAtFirstSuccess(behavior, store, start, env, limit, 0, 1);
        return Ok(()), tries, sleeps;
      }
      match policy
      case Stop =>
        StopsAtFirstSuccess(behavior, store, start, env, limit, 0, 1);
      case SkipAndStart =>
        StopsAtFirstSuccess(behavior, store, start, env, limit, 0, 1);
        r := Ok(());
      case Retry(maxAttempts, initialDelay) =>
        var attempts := if maxAttempts.Some? then maxAttempts.value else DEFAULT_ATTEMPTS;
        var delay := initialDelay;
        FirstDelay(initialDelay);
        var i := 1;
        while i < attempts
          invariant tries == i <= limit && |sleeps| == i - 1
          invariant delay == DelayAt(initialDelay, i - 1)
          invariant Actor() == AfterTries(behavior, store, start, env, i)
          invariant forall k :: 0 <= k < i ==> OutcomeOf(behavior, store, start, env, k).Err?
          invariant r == OutcomeOf(behavior, store, start, env, 0)
          invariant forall k :: 0 <= k < |sleeps| ==> sleeps[k] == DelayAt(initialDelay, k)
        {
          sleeps := sleeps + [delay];
          DelayGrows(initialDelay, i - 1);
          delay := NextDelay(delay);
          var again := RecoverOnce(storage, env(i));
          NextTry(behavior, store, start, env, i);
          i := i + 1;
          tries := i;
          if again.Ok? {
            StopsAtFirstSuccess(behavior, store, start, env, limit, 0, i);
            return Ok(()), tries, sleeps;
          }
        }
        StopsAtFirstSuccess(behavior, store, start, env, limit, 0, i);
    }
  }

  lemma FirstTry<S, E>(b: Behavior<S, E>, store: Store, actor: ActorState<S>, env: nat -> RecoveryFaults)
    ensures AfterRecovery(b, store, actor, env(0))
         == (OutcomeOf(b, store, actor, env, 0), AfterTries(b, store, actor, env, 1))
  {
    hide AfterRecovery;
    assert AfterTries(b, store, actor, env, 0) == actor;
  }

  lemma NextTry<S, E>(b: Behavior<S, E>, store: Store, actor: ActorState<S>, env: nat -> RecoveryFaults, k: nat)
    ensures AfterRecovery(b, store, AfterTries(b, store, actor, env, k), env(k))
         == (OutcomeOf(b, store, actor, env, k), AfterTries(b, store, actor, env, k + 1))
  {
    hide AfterRecovery;
  }

  lemma FirstDelay(initial: nat)
    ensures DelayAt(initial, 0) == initial
  {
  }

  lemma DelayGrows(initial: nat, k: nat)
    ensures DelayAt(initial, k + 1) == NextDelay(DelayAt(initial, k))
  {
    hide NextDelay;
  }

  lemma {:induction false} EntriesFail<S, E>(b: Behavior<S, E>, last: int, events: seq<E>, n: nat)
    requires n <= |events| && Entries(b, last, events[..n]).Err?
    ensures Entries(b, last, events) == Entries(b, last, events[..n])
    decreases |events|
  {
    if n < |events| {
      assert events[..|events| - 1][..n] == events[..n];
      EntriesFail(b, last, events[..|events| - 1], n);
    } else {
      assert events[..n] == events;
    }
  }

  lemma {:induction false} DecodeFails<S, E>(b: Behavior<S, E>, entries: seq<JournalEntry>, n: nat)
    requires n <= |entries| && DecodeAll(b, entries[..n]).Err?
    ensures DecodeAll(b, entries) == DecodeAll(b, entries[..n])
    decreases |entries|
  {
    if n < |entries| {
      assert entries[..|entries| - 1][..n] == entries[..n];
      DecodeFails(b, entries[..|entries| - 1], n);
    } else {
      assert entries[..n] == entries;
    }
  }
}
