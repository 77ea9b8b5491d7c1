/**
  What event-sourced persistence guarantees over whole runs: recovery yields the fold of
  every event ever persisted, whatever was snapshotted, compacted, refused by the storage
  or crashed in between.
*/
module PersistenceRuns {
  import opened Wrappers
  import opened Persistence
  import opened Sequences

  /** The codecs undo themselves: what was serialized decodes to what it was. */
  ghost predicate RoundTrips<S(!new), E(!new)>(b: Behavior<S, E>) {
    && (forall e: E :: b.serializeEvent(e).Ok? ==> b.deserializeEvent(b.serializeEvent(e).value) == Ok(e))
    && (forall s: S :: b.snapshotPayload(s).Ok? ==> b.restoreSnapshot(b.snapshotPayload(s).value) == Ok(s))
  }

  const NoFaults: RecoveryFaults := RecoveryFaults(None, None)

  // ----- Runs -----

  datatype Op<E> =
    | Persist(event: E, fault: Fault)
    | PersistBatch(events: seq<E>, fault: Fault)
    | TakeSnapshot(fault: Fault)
    | DeleteEvents(to: int, fault: Fault)
    | DeleteSnapshots(before: int, fault: Fault)
    | Crash
    | Recover(faults: RecoveryFaults)

  /** One persistent actor, its storage, and every event it has ever reported as persisted. */
  datatype System<S, E> = System(world: World<S>, running: bool, history: seq<E>)

  function Start<S, E>(b: Behavior<S, E>): System<S, E> {
    System(World(Store([], []), ActorState(b.initial, 0)), true, [])
  }

  function Step<S, E>(b: Behavior<S, E>, s: System<S, E>, op: Op<E>): System<S, E> {
    var w := s.world;
    match op
    case Persist(e, fault) =>
      if !s.running then s
      else
        var (r, w') := AfterPersist(b, w, e, fault);
        s.(world := w', history := if r.Ok? then s.history + [e] else s.history)
    case PersistBatch(es, fault) =>
      if !s.running then s
      else
        var (r, w') := AfterPersistBatch(b, w, es, fault);
        s.(world := w', history := if r.Ok? then s.history + es else s.history)
    case TakeSnapshot(fault) =>
      if !s.running then s else s.(world := AfterSnapshot(b, w, fault).1)
    case DeleteEvents(to, fault) =>
      if fault.Some? then s
      else s.(world := w.(store := w.store.(journal := DeleteEventsTo(w.store.journal, to))))
    case DeleteSnapshots(before, fault) =>
      if fault.Some? then s
      else s.(world := w.(store := w.store.(snapshots := SnapshotsFrom(w.store.snapshots, before))))
    case Crash =>
      s.(world := w.(actor := ActorState(b.initial, 0)), running := false)
    case Recover(faults) =>
      var (r, actor) := AfterRecovery(b, w.store, w.actor, faults);
      s.(world := w.(actor := actor), running := r.Ok?)
  }

  /** The sequence id that the latest snapshot covers. */
  function SnapshotPoint(store: Store): int {
    match LatestSnapshot(store.snapshots)
    case None => 0
    case Some(snap) => snap.sequenceId
  }

  /** Compaction stays behind the latest snapshot. */
  predicate Allowed<S, E>(s: System<S, E>, op: Op<E>) {
    match op
    case DeleteEvents(to, _) => to <= SnapshotPoint(s.world.store)
    case DeleteSnapshots(before, _) => before <= SnapshotPoint(s.world.store)
    case _ => true
  }

  function Run<S, E>(b: Behavior<S, E>, ops: seq<Op<E>>): System<S, E> {
    if ops == [] then Start(b) else Step(b, Run(b, ops[..|ops| - 1]), ops[|ops| - 1])
  }

  lemma RunOneMore<S, E>(b: Behavior<S, E>, ops: seq<Op<E>>, op: Op<E>)
    ensures Run(b, ops + [op]) == Step(b, Run(b, ops), op)
  {
    InitOfAppend(ops, op);
  }

  ghost predicate AllAllowed<S, E>(b: Behavior<S, E>, ops: seq<Op<E>>) {
    forall i :: 0 <= i < |ops| ==> Allowed(Run(b, ops[..i]), ops[i])
  }

  // ----- The invariant -----

  /** The journal holds, in consecutive order, the events of `history` after the first `base`. */
  ghost predicate JournalHolds<S, E>(b: Behavior<S, E>, journal: seq<JournalEntry>, history: seq<E>, base: nat) {
    && |journal| + base == |history|
    && forall i :: 0 <= i < |journal| ==>
                     && journal[i].sequenceId == base + 1 + i
                     && b.deserializeEvent(journal[i].payload) == Ok(history[base + i])
  }

  ghost predicate SnapshotHolds<S, E>(b: Behavior<S, E>, snap: SnapshotEntry, history: seq<E>) {
    && 0 <= snap.sequenceId <= |history|
    && b.restoreSnapshot(snap.payload) == Ok(Fold(b, b.initial, history[..snap.sequenceId]))
  }

  /** The actor's state is what some prefix of the history makes of it. */
  ghost predicate AtPrefix<S, E>(b: Behavior<S, E>, actor: ActorState<S>, history: seq<E>) {
    && 0 <= actor.lastSequenceId <= |history|
    && actor.state == Fold(b, b.initial, history[..actor.lastSequenceId])
  }

  ghost predicate StoreHolds<S, E>(b: Behavior<S, E>, store: Store, history: seq<E>, base: nat) {
    && JournalHolds(b, store.journal, history, base)
    && base <= SnapshotPoint(store)
    && (forall i :: 0 <= i < |store.snapshots| ==> SnapshotHolds(b, store.snapshots[i], history))
  }

  ghost predicate Inv<S, E>(b: Behavior<S, E>, s: System<S, E>, base: nat) {
    && StoreHolds(b, s.world.store, s.history, base)
    && AtPrefix(b, s.world.actor, s.history)
    && (s.running ==> s.world.actor.lastSequenceId == |s.history|)
  }

  // ----- Reading and compacting a consecutive journal -----

  /** Filtering a consecutive journal by sequence id keeps a suffix. */
  lemma {:induction false} FilterIsSuffix(journal: seq<JournalEntry>, first: int, from: int)
    requires forall i :: 0 <= i < |journal| ==> journal[i].sequenceId == first + i
    ensures EventsFrom(journal, from)
         == journal[if from <= first then 0 else if from - first >= |journal| then |journal| else from - first..]
  {
    if journal != [] {
      FilterIsSuffix(journal[1..], first + 1, from);
      HeadAndTail(journal);
    }
  }

  lemma SuffixHolds<S, E>(b: Behavior<S, E>, journal: seq<JournalEntry>, history: seq<E>, base: nat, k: nat)
    requires JournalHolds(b, journal, history, base) && k <= |journal|
    ensures JournalHolds(b, journal[k..], history, base + k)
  {
    assert forall i :: 0 <= i < |journal| - k ==> journal[k..][i] == journal[k + i];
  }

  lemma ReadsSuffix<S, E>(b: Behavior<S, E>, journal: seq<JournalEntry>, history: seq<E>, base: nat, k: nat)
    requires JournalHolds(b, journal, history, base) && k <= |journal|
    ensures EventsFrom(journal, base + k + 1) == journal[k..]
    ensures JournalHolds(b, journal[k..], history, base + k)
  {
    FilterIsSuffix(journal, base + 1, base + k + 1);
    SuffixHolds(b, journal, history, base, k);
    hide *;
    TakeAll(journal);
  }

  lemma {:induction false} LastSnapshotSurvives(snapshots: seq<SnapshotEntry>, from: int)
    requires snapshots != [] && snapshots[|snapshots| - 1].sequenceId >= from
    ensures LatestSnapshot(SnapshotsFrom(snapshots, from)) == LatestSnapshot(snapshots)
  {
    if |snapshots| > 1 { LastSnapshotSurvives(snapshots[1..], from); }
  }

  lemma {:induction false} SnapshotsSurviving(snapshots: seq<SnapshotEntry>, from: int)
    ensures forall snap :: snap in SnapshotsFrom(snapshots, from) ==> snap in snapshots
  {
    if snapshots != [] { SnapshotsSurviving(snapshots[1..], from); }
  }

  lemma {:induction false} FoldConcat<S, E>(b: Behavior<S, E>, s: S, xs: seq<E>, ys: seq<E>)
    ensures Fold(b, s, xs + ys) == Fold(b, Fold(b, s, xs), ys)
  {
    if ys == [] {
      assert xs + ys == xs;
    } else {
      FoldConcat(b, s, xs, ys[..|ys| - 1]);
      assert (xs + ys)[..|xs + ys| - 1] == xs + ys[..|ys| - 1];
    }
  }

  /** A longer history still contains every prefix of the shorter one. */
  lemma PrefixesSurvive<E>(history: seq<E>, more: seq<E>, n: nat)
    requires n <= |history|
    ensures (history + more)[..n] == history[..n]
  {
  }

  // ----- Recovery -----

  lemma {:induction false} DecodesToHistory<S, E>(b: Behavior<S, E>, entries: seq<JournalEntry>, events: seq<E>)
    requires |entries| == |events|
    requires forall i :: 0 <= i < |entries| ==> b.deserializeEvent(entries[i].payload) == Ok(events[i])
    ensures DecodeAll(b, entries) == Ok(events)
  {
    if entries == [] {
    } else {
      var n := |entries| - 1;
      DecodesToHistory(b, entries[..n], events[..n]);
      assert events == events[..n] + [events[n]];
    }
  }

  lemma SuffixDecodes<S, E>(b: Behavior<S, E>, entries: seq<JournalEntry>, history: seq<E>, k: nat)
    requires JournalHolds(b, entries, history, k)
    ensures DecodeAll(b, entries) == Ok(history[k..])
    ensures entries == [] ==> k == |history|
    ensures entries != [] ==> entries[|entries| - 1].sequenceId == |history|
  {
    DecodesToHistory(b, entries, history[k..]);
  }

  /** Replay brings any actor that stands at a prefix not older than the journal to the end of the history. */
  lemma ReplayCompletes<S, E>(b: Behavior<S, E>, store: Store, history: seq<E>, base: nat, actor: ActorState<S>)
    requires JournalHolds(b, store.journal, history, base) && AtPrefix(b, actor, history)
    requires base <= actor.lastSequenceId
    ensures AfterReplay(b, store, actor, None) == (Ok(()), ActorState(Fold(b, b.initial, history), |history|))
  {
    hide *;
    var last := actor.lastSequenceId;
    StandsInHistory(b, store.journal, history, base, actor);
    var entries := store.journal[last - base..];
    ReadsSuffix(b, store.journal, history, base, last - base);
    SuffixDecodes(b, entries, history, last);
    FoldSplit(b, actor, history);
    ReplayUnfolds(b, store, actor, entries, history[last..]);
  }

  lemma StandsInHistory<S, E>(b: Behavior<S, E>, journal: seq<JournalEntry>, history: seq<E>, base: nat,
                              actor: ActorState<S>)
    requires JournalHolds(b, journal, history, base) && AtPrefix(b, actor, history)
    ensures |journal| + base == |history| && 0 <= actor.lastSequenceId <= |history|
  {
  }

  lemma FoldSplit<S, E>(b: Behavior<S, E>, actor: ActorState<S>, history: seq<E>)
    requires AtPrefix(b, actor, history)
    ensures Fold(b, actor.state, history[actor.lastSequenceId..]) == Fold(b, b.initial, history)
  {
    var last := actor.lastSequenceId;
    FoldConcat(b, b.initial, history[..last], history[last..]);
    assert history[..last] + history[last..] == history;
  }

  lemma ReplayUnfolds<S, E>(b: Behavior<S, E>, store: Store, actor: ActorState<S>, entries: seq<JournalEntry>,
                            events: seq<E>)
    requires EventsFrom(store.journal, actor.lastSequenceId + 1) == entries && DecodeAll(b, entries) == Ok(events)
    ensures AfterReplay(b, store, actor, None) ==
            (Ok(()), ActorState(Fold(b, actor.state, events),
             if entries == [] then actor.lastSequenceId else entries[|entries| - 1].sequenceId))
  {
    hide EventsFrom, DecodeAll, Fold;
  }

  lemma RestoreReachesSnapshot<S, E>(b: Behavior<S, E>, store: Store, history: seq<E>, base: nat,
                                     actor: ActorState<S>, fault: Fault)
    requires StoreHolds(b, store, history, base) && AtPrefix(b, actor, history)
    ensures AtPrefix(b, AfterRestore(b, store, actor, fault).1, history)
    ensures AfterRestore(b, store, actor, fault).0.Ok? <==> fault.None?
    ensures fault.None? ==> base <= AfterRestore(b, store, actor, fault).1.lastSequenceId
  {
    if store.snapshots != [] {
      assert SnapshotHolds(b, store.snapshots[|store.snapshots| - 1], history);
    }
  }

  /**
    Recovery of any actor that stands at some prefix (a fresh one, one left behind by a
    failed attempt, or one already recovered) reaches the fold of the whole history; when
    the storage fails it, the actor still stands at a prefix, so that a retry can succeed.
  */
  lemma RecoveryReachesHistory<S, E>(b: Behavior<S, E>, store: Store, history: seq<E>, base: nat,
                                     actor: ActorState<S>, faults: RecoveryFaults)
    requires StoreHolds(b, store, history, base) && AtPrefix(b, actor, history)
    ensures var (r, actor') := AfterRecovery(b, store, actor, faults);
            && AtPrefix(b, actor', history)
            && (r.Ok? <==> faults.loadSnapshot.None? && faults.readEvents.None?)
            && (r.Ok? ==> actor' == ActorState(Fold(b, b.initial, history), |history|))
  {
    RestoreReachesSnapshot(b, store, history, base, actor, faults.loadSnapshot);
    if faults.loadSnapshot.None? && faults.readEvents.None? {
      ReplayCompletes(b, store, history, base, AfterRestore(b, store, actor, None).1);
      assert history[..|history|] == history;
    }
  }

  // ----- Every step keeps the invariant -----

  lemma {:induction false} EntriesHold<S(!new), E(!new)>(b: Behavior<S, E>, last: nat, events: seq<E>)
    requires RoundTrips(b) && Entries(b, last, events).Ok?
    ensures var entries := Entries(b, last, events).value;
            && |entries| == |events|
            && forall i :: 0 <= i < |entries| ==>
                             && entries[i].sequenceId == last + 1 + i
                             && b.deserializeEvent(entries[i].payload) == Ok(events[i])
  {
    if events != [] { EntriesHold(b, last, events[..|events| - 1]); }
  }

  /** Appending entries for further events keeps the store true to the longer history. */
  lemma StoreGrows<S, E>(b: Behavior<S, E>, store: Store, history: seq<E>, base: nat, entries: seq<JournalEntry>,
                         events: seq<E>)
    requires StoreHolds(b, store, history, base) && |entries| == |events|
    requires forall i :: 0 <= i < |entries| ==>
                           && entries[i].sequenceId == |history| + 1 + i
                           && b.deserializeEvent(entries[i].payload) == Ok(events[i])
    ensures StoreHolds(b, store.(journal := store.journal + entries), history + events, base)
  {
    forall i | 0 <= i < |store.snapshots|
      ensures SnapshotHolds(b, store.snapshots[i], history + events)
    {
      assert SnapshotHolds(b, store.snapshots[i], history);
      PrefixesSurvive(history, events, store.snapshots[i].sequenceId);
    }
  }

  lemma BatchKeepsInv<S(!new), E(!new)>(b: Behavior<S, E>, s: System<S, E>, base: nat, events: seq<E>, fault: Fault)
    requires RoundTrips(b) && Inv(b, s, base) && s.running
    ensures Inv(b, Step(b, s, PersistBatch(events, fault)), base)
  {
    assert s.history + [] == s.history;
    assert s.history[..|s.history|] == s.history;
    var entries := Entries(b, s.world.actor.lastSequenceId, events);
    if events != [] && entries.Ok? && fault.None? {
      EntriesHold(b, s.world.actor.lastSequenceId, events);
      StoreGrows(b, s.world.store, s.history, base, entries.value, events);
      FoldConcat(b, b.initial, s.history, events);
      assert (s.history + events)[..|s.history + events|] == s.history + events;
    }
  }

  lemma SnapshotKeepsInv<S(!new), E(!new)>(b: Behavior<S, E>, s: System<S, E>, base: nat, fault: Fault)
    requires RoundTrips(b) && Inv(b, s, base) && s.running
    ensures Inv(b, Step(b, s, TakeSnapshot(fault)), base)
  {
  }

  /** Deleting up to `to` leaves the journal holding what comes after it. */
  lemma DeletionKeepsSuffix<S, E>(b: Behavior<S, E>, journal: seq<JournalEntry>, history: seq<E>, base: nat, to: int)
    requires JournalHolds(b, journal, history, base) && to <= |history|
    ensures JournalHolds(b, DeleteEventsTo(journal, to), history, if to <= base then base else to)
  {
    hide EventsFrom;
    if to <= base {
      FilterIsSuffix(journal, base + 1, to + 1);
      TakeAll(journal);
    } else {
      ReadsSuffix(b, journal, history, base, to - base);
    }
  }

  lemma DeleteEventsKeepsInv<S, E>(b: Behavior<S, E>, s: System<S, E>, base: nat, to: int)
    requires Inv(b, s, base) && to <= SnapshotPoint(s.world.store)
    ensures Inv(b, Step(b, s, Op.DeleteEvents(to, None)), if to <= base then base else to)
  {
    SnapshotPointInHistory(b, s.world.store, s.history, base);
    DeletionKeepsSuffix(b, s.world.store.journal, s.history, base, to);
    hide EventsFrom, JournalHolds, SnapshotHolds, AtPrefix;
  }

  lemma SnapshotPointInHistory<S, E>(b: Behavior<S, E>, store: Store, history: seq<E>, base: nat)
    requires StoreHolds(b, store, history, base)
    ensures 0 <= SnapshotPoint(store) <= |history|
  {
    if store.snapshots != [] { assert SnapshotHolds(b, store.snapshots[|store.snapshots| - 1], history); }
  }

  lemma DeleteSnapshotsKeepsInv<S, E>(b: Behavior<S, E>, s: System<S, E>, base: nat, before: int)
    requires Inv(b, s, base) && before <= SnapshotPoint(s.world.store)
    ensures Inv(b, Step(b, s, DeleteSnapshots(before, None)), base)
  {
    var snapshots := s.world.store.snapshots;
    if snapshots != [] { LastSnapshotSurvives(snapshots, before); }
    SnapshotsSurviving(snapshots, before);
    var kept := SnapshotsFrom(snapshots, before);
    forall i | 0 <= i < |kept| ensures SnapshotHolds(b, kept[i], s.history) {
      assert kept[i] in snapshots;
    }
  }

  /** A single persist is a batch of one. */
  lemma PersistIsBatchOfOne<S, E>(b: Behavior<S, E>, w: World<S>, e: E, fault: Fault)
    ensures AfterPersist(b, w, e, fault) == AfterPersistBatch(b, w, [e], fault)
  {
    assert [e][..|[e]| - 1] == [];
    assert Fold(b, w.actor.state, [e]) == b.apply(Fold(b, w.actor.state, []), e);
    var next := w.actor.lastSequenceId + 1;
    assert Entries(b, next - 1, []) == Ok([]);
    if b.serializeEvent(e).Ok? {
      var entry := JournalEntry(next, b.eventType, b.serializeEvent(e).value);
      assert [] + [entry] == [entry];
      assert Entries(b, next - 1, [e]) == Ok([JournalEntry(next, b.eventType, b.serializeEvent(e).value)]);
    }
  }

  lemma StepKeepsInv<S(!new), E(!new)>(b: Behavior<S, E>, s: System<S, E>, base: nat, op: Op<E>) returns (base': nat)
    requires RoundTrips(b) && Inv(b, s, base) && Allowed(s, op)
    ensures Inv(b, Step(b, s, op), base')
  {
    base' := base;
    match op
    case Persist(e, fault) =>
      if s.running {
        PersistIsBatchOfOne(b, s.world, e, fault);
        BatchKeepsInv(b, s, base, [e], fault);
      }
    case PersistBatch(es, fault) =>
      if s.running { BatchKeepsInv(b, s, base, es, fault); }
    case TakeSnapshot(fault) =>
      if s.running { SnapshotKeepsInv(b, s, base, fault); }
    case DeleteEvents(to, fault) =>
      if fault.None? {
        DeleteEventsKeepsInv(b, s, base, to);
        base' := if to <= base then base else to;
      }
    case DeleteSnapshots(before, fault) =>
      if fault.None? { DeleteSnapshotsKeepsInv(b, s, base, before); }
    case Crash =>
      assert s.history[..0] == [];
    case Recover(faults) =>
      RecoveryReachesHistory(b, s.world.store, s.history, base, s.world.actor, faults);
  }

  lemma {:induction false} RunKeepsInv<S(!new), E(!new)>(b: Behavior<S, E>, ops: seq<Op<E>>) returns (base: nat)
    requires RoundTrips(b) && AllAllowed(b, ops)
    ensures Inv(b, Run(b, ops), base)
  {
    if ops == [] {
      base := 0;
    } else {
      var prior := ops[..|ops| - 1];
      forall i | 0 <= i < |prior| ensures Allowed(Run(b, prior[..i]), prior[i]) {
        assert prior[..i] == ops[..i];
      }
      var base0 := RunKeepsInv(b, prior);
      base := StepKeepsInv(b, Run(b, prior), base0, ops[|ops| - 1]);
    }
  }

  /**
    Recovery equals history. After any run of persists, batches, snapshots, compactions
    behind the latest snapshot, storage failures, crashes and recoveries: a running actor
    is the fold of every event ever persisted and its sequence id is their count; a fresh
    actor that recovers now reaches exactly that; and the journal is consecutive.
  */
  lemma RecoveryEqualsHistory<S(!new), E(!new)>(b: Behavior<S, E>, ops: seq<Op<E>>)
    requires RoundTrips(b) && AllAllowed(b, ops)
    ensures var s := Run(b, ops);
            var whole := ActorState(Fold(b, b.initial, s.history), |s.history|);
            && (s.running ==> s.world.actor == whole)
            && AfterRecovery(b, s.world.store, ActorState(b.initial, 0), NoFaults) == (Ok(()), whole)
            && AfterRecovery(b, s.world.store, s.world.actor, NoFaults) == (Ok(()), whole)
            && exists base: nat :: JournalHolds(b, s.world.store.journal, s.history, base)
  {
    var base := RunKeepsInv(b, ops);
    var s := Run(b, ops);
    assert s.history[..|s.history|] == s.history && s.history[..0] == [];
    RecoveryReachesHistory(b, s.world.store, s.history, base, ActorState(b.initial, 0), NoFaults);
    RecoveryReachesHistory(b, s.world.store, s.history, base, s.world.actor, NoFaults);
  }

  // ----- Batches -----

  /** Successive persists, none of which meets a fault. */
  function PersistEach<S, E>(b: Behavior<S, E>, w: World<S>, events: seq<E>): World<S> {
    if events == [] then w
    else AfterPersist(b, PersistEach(b, w, events[..|events| - 1]), events[|events| - 1], None).1
  }

  /**
    A batch that succeeds leaves the journal, state and sequence id that successive persists
    leave; one that fails changes nothing.
  */
  lemma {:induction false} BatchIsSuccessivePersists<S, E>(b: Behavior<S, E>, w: World<S>, events: seq<E>, fault: Fault)
    ensures var (r, w') := AfterPersistBatch(b, w, events, fault);
            && (r.Ok? ==> w' == PersistEach(b, w, events) && r.value == w'.actor.lastSequenceId)
            && (r.Err? ==> w' == w)
            && (fault.None? && (forall e :: e in events ==> b.serializeEvent(e).Ok?) ==> r.Ok?)
  {
    if events != [] {
      var n := |events| - 1;
      BatchIsSuccessivePersists(b, w, events[..n], None);
      if forall e :: e in events ==> b.serializeEvent(e).Ok? { EntriesSucceed(b, w.actor.lastSequenceId, events); }
      if Entries(b, w.actor.lastSequenceId, events).Ok? {
        BatchGrows(b, w, events);
      }
    }
  }

  lemma {:induction false} EntriesSucceed<S, E>(b: Behavior<S, E>, last: int, events: seq<E>)
    requires forall e :: e in events ==> b.serializeEvent(e).Ok?
    ensures Entries(b, last, events).Ok?
  {
    if events != [] { EntriesSucceed(b, last, events[..|events| - 1]); }
  }

  lemma EntriesGrow<S, E>(b: Behavior<S, E>, last: int, events: seq<E>)
    requires events != [] && Entries(b, last, events).Ok?
    ensures var n := |events| - 1;
            && Entries(b, last, events[..n]).Ok? && b.serializeEvent(events[n]).Ok?
            && Entries(b, last, events).value
               == Entries(b, last, events[..n]).value
                  + [JournalEntry(last + n + 1, b.eventType, b.serializeEvent(events[n]).value)]
  {
  }

  lemma FoldGrows<S, E>(b: Behavior<S, E>, s: S, events: seq<E>)
    requires events != []
    ensures Fold(b, s, events) == b.apply(Fold(b, s, events[..|events| - 1]), events[|events| - 1])
  {
  }

  lemma NoEntries<S, E>(b: Behavior<S, E>, last: int)
    ensures Entries(b, last, []) == Ok([])
  {
  }

  lemma NoFold<S, E>(b: Behavior<S, E>, s: S)
    ensures Fold(b, s, []) == s
  {
  }

  lemma BatchGrows<S, E>(b: Behavior<S, E>, w: World<S>, events: seq<E>)
    requires events != [] && Entries(b, w.actor.lastSequenceId, events).Ok?
    ensures var n := |events| - 1;
            var batch := AfterPersistBatch(b, w, events[..n], None);
            && batch.0.Ok?
            && AfterPersistBatch(b, w, events, None).1 == AfterPersist(b, batch.1, events[n], None).1
  {
    var n, last := |events| - 1, w.actor.lastSequenceId;
    EntriesGrow(b, last, events);
    var entries := Entries(b, last, events[..n]).value;
    hide Entries, Fold;
    FoldGrows(b, w.actor.state, events);
    if n == 0 {
      assert events[..n] == [];
      NoEntries(b, last);
      NoFold(b, w.actor.state);
      ConcatNothing(w.store.journal);
    }
    var payload := b.serializeEvent(events[n]).value;
    ConcatAssociates(w.store.journal, entries, [JournalEntry(last + n + 1, b.eventType, payload)]);
  }

  // ----- Failure -----

  /**
    All or nothing: a recovery that fails, for whatever reason, has applied no event. The
    actor is as it was, or exactly at the latest snapshot once that has been restored.
  */
  lemma FailedRecoveryAppliesNothing<S, E>(b: Behavior<S, E>, store: Store, actor: ActorState<S>,
                                           faults: RecoveryFaults)
    requires AfterRecovery(b, store, actor, faults).0.Err?
    ensures var actor' := AfterRecovery(b, store, actor, faults).1;
            var snap := LatestSnapshot(store.snapshots);
            if faults.loadSnapshot.None? && snap.Some? && b.restoreSnapshot(snap.value.payload).Ok?
            then actor' == ActorState(b.restoreSnapshot(snap.value.payload).value, snap.value.sequenceId)
            else actor' == actor
  {
    hide EventsFrom, DecodeAll, Fold;
  }

  /** One entry after the snapshot that does not decode is enough to fail the recovery. */
  lemma {:induction false} UndecodableEntryFails<S, E>(b: Behavior<S, E>, entries: seq<JournalEntry>)
    ensures DecodeAll(b, entries).Err? <==>
            exists i :: 0 <= i < |entries| && b.deserializeEvent(entries[i].payload).Err?
    ensures DecodeAll(b, entries).Ok? ==> |DecodeAll(b, entries).value| == |entries|
  {
    if entries != [] {
      var n := |entries| - 1;
      UndecodableEntryFails(b, entries[..n]);
      if DecodeAll(b, entries[..n]).Err? {
        var i :| 0 <= i < n && b.deserializeEvent(entries[..n][i].payload).Err?;
        assert b.deserializeEvent(entries[i].payload).Err?;
      }
    }
  }

  /** Under retries each attempt starts from a prefix of the history, and the first without a fault completes it. */
  lemma {:induction false} RetryReachesHistory<S, E>(b: Behavior<S, E>, store: Store, history: seq<E>, base: nat,
                                                     actor: ActorState<S>, env: nat -> RecoveryFaults, k: nat)
    requires StoreHolds(b, store, history, base) && AtPrefix(b, actor, history)
    ensures AtPrefix(b, AfterTries(b, store, actor, env, k), history)
    ensures OutcomeOf(b, store, actor, env, k).Ok? <==> env(k) == NoFaults
    ensures OutcomeOf(b, store, actor, env, k).Ok? ==>
              AfterTries(b, store, actor, env, k + 1) == ActorState(Fold(b, b.initial, history), |history|)
  {
    if k > 0 {
      RetryReachesHistory(b, store, history, base, actor, env, k - 1);
      RecoveryReachesHistory(b, store, history, base, AfterTries(b, store, actor, env, k - 1), env(k - 1));
    }
    RecoveryReachesHistory(b, store, history, base, AfterTries(b, store, actor, env, k), env(k));
  }

  /**
    A recovery that is not skipped succeeds exactly when one of the tries that its policy
    allows meets no fault, and then it completes the history.
  */
  lemma RetrySucceedsIff<S, E>(b: Behavior<S, E>, store: Store, history: seq<E>, base: nat, actor: ActorState<S>,
                               policy: RecoveryFailurePolicy, env: nat -> RecoveryFaults)
    requires StoreHolds(b, store, history, base) && AtPrefix(b, actor, history) && !policy.SkipAndStart?
    ensures RecoveryResult(b, store, actor, policy, env).Ok?
       <==> exists k: nat :: k < TriesAllowed(policy) && env(k) == NoFaults
    ensures RecoveryResult(b, store, actor, policy, env).Ok? ==>
              AfterTries(b, store, actor, env, TriesMade(b, store, actor, env, TriesAllowed(policy)))
              == ActorState(Fold(b, b.initial, history), |history|)
  {
    hide StoreHolds, AtPrefix, OutcomeOf, AfterTries, TriesMade, TriesAllowed, Fold;
    var limit := TriesAllowed(policy);
    var tries := TriesMade(b, store, actor, env, limit);
    AttemptsBeforeLastFail(b, store, actor, env, limit, 0);
    SucceedsIffNoFault(b, store, history, base, actor, env, tries - 1);
    if tries == limit {
      forall k: nat | k < limit - 1 ensures env(k) != NoFaults {
        SucceedsIffNoFault(b, store, history, base, actor, env, k);
      }
    }
  }

  lemma SucceedsIffNoFault<S, E>(b: Behavior<S, E>, store: Store, history: seq<E>, base: nat, actor: ActorState<S>,
                                 env: nat -> RecoveryFaults, k: nat)
    requires StoreHolds(b, store, history, base) && AtPrefix(b, actor, history)
    ensures OutcomeOf(b, store, actor, env, k).Ok? <==> env(k) == NoFaults
    ensures OutcomeOf(b, store, actor, env, k).Ok? ==>
              AfterTries(b, store, actor, env, k + 1) == ActorState(Fold(b, b.initial, history), |history|)
  {
    hide *;
    RetryReachesHistory(b, store, history, base, actor, env, k);
  }

  /** Without a limit three tries are made, so a storage that recovers for the fourth is not waited for. */
  lemma UnlimitedRetryGivesUp<S, E>(b: Behavior<S, E>, error: PersistError, initialDelayNanos: nat)
    ensures var env := (k: nat) => if k == 3 then NoFaults else RecoveryFaults(Some(error), None);
            var policy := Retry(None, initialDelayNanos);
            RecoveryResult(b, Store([], []), ActorState(b.initial, 0), policy, env) == Err(error)
  {
    var env := (k: nat) => if k == 3 then NoFaults else RecoveryFaults(Some(error), None);
    var store, actor, policy := Store([], []), ActorState(b.initial, 0), Retry(None, initialDelayNanos);
    assert StoreHolds<S, E>(b, store, [], 0) && AtPrefix<S, E>(b, actor, []);
    RetrySucceedsIff<S, E>(b, store, [], 0, actor, policy, env);
    FirstTry(b, store, actor, env);
  }

  /**
    Deleting events is safe exactly up to the latest snapshot: what a recovery can replay
    afterwards reaches back to the snapshot if and only if nothing beyond it was deleted;
    otherwise precisely the events between the two are missing.
  */
  lemma DeletionIsSafeIffBehindSnapshot<S, E>(b: Behavior<S, E>, s: System<S, E>, base: nat, to: nat)
    requires Inv(b, s, base) && to <= |s.history|
    ensures var point := SnapshotPoint(s.world.store);
            var journal := DeleteEventsTo(s.world.store.journal, to);
            var replayed := DecodeAll(b, EventsFrom(journal, point + 1));
            && 0 <= point <= |s.history|
            && replayed == Ok(s.history[if to <= point then point else to..])
            && (replayed == Ok(s.history[point..]) <==> to <= point)
  {
    var point := SnapshotPoint(s.world.store);
    SnapshotPointInHistory(b, s.world.store, s.history, base);
    DeletionKeepsSuffix(b, s.world.store.journal, s.history, base, to);
    hide EventsFrom, DecodeAll, JournalHolds, AtPrefix, DeleteEventsTo;
    ReplayedSuffix(b, DeleteEventsTo(s.world.store.journal, to), s.history, if to <= base then base else to, point);
    assert to > point ==> |s.history[to..]| < |s.history[point..]|;
  }

  lemma ReplayedSuffix<S, E>(b: Behavior<S, E>, journal: seq<JournalEntry>, history: seq<E>, base: nat, point: nat)
    requires JournalHolds(b, journal, history, base) && point <= |history|
    ensures DecodeAll(b, EventsFrom(journal, point + 1)) == Ok(history[if base <= point then point else base..])
  {
    DeletionKeepsSuffix(b, journal, history, base, point);
    hide EventsFrom, DecodeAll, JournalHolds;
    SuffixDecodes(b, EventsFrom(journal, point + 1), history, if point <= base then base else point);
  }

  // ----- Stores with unreadable records -----

  /** Numbered consecutively after `base`; an entry that decodes at all is the event of its number. */
  ghost predicate JournalTells<S, E>(b: Behavior<S, E>, journal: seq<JournalEntry>, history: seq<E>, base: nat) {
    && |journal| + base == |history|
    && forall i :: 0 <= i < |journal| ==>
                     && journal[i].sequenceId == base + 1 + i
                     && var decoded := b.deserializeEvent(journal[i].payload);
                     decoded.Ok? ==> decoded.value == history[base + i]
  }

  ghost predicate SnapshotTells<S, E>(b: Behavior<S, E>, snap: SnapshotEntry, history: seq<E>) {
    && 0 <= snap.sequenceId <= |history|
    && var restored := b.restoreSnapshot(snap.payload);
    restored.Ok? ==> restored.value == Fold(b, b.initial, history[..snap.sequenceId])
  }

  /** What is left of a store that held `history` when payloads have become unreadable. */
  ghost predicate StoreTells<S, E>(b: Behavior<S, E>, store: Store, history: seq<E>, base: nat) {
    && JournalTells(b, store.journal, history, base)
    && base <= SnapshotPoint(store)
    && (forall i :: 0 <= i < |store.snapshots| ==> SnapshotTells(b, store.snapshots[i], history))
  }

  /** What a recovery needs to read: the latest snapshot, if there is one, and the entries after it. */
  ghost predicate Readable<S, E>(b: Behavior<S, E>, store: Store) {
    && (store.snapshots != [] ==> b.restoreSnapshot(store.snapshots[|store.snapshots| - 1].payload).Ok?)
    && forall i :: 0 <= i < |store.journal| && store.journal[i].sequenceId > SnapshotPoint(store) ==>
                     b.deserializeEvent(store.journal[i].payload).Ok?
  }

  lemma HoldsTells<S, E>(b: Behavior<S, E>, store: Store, history: seq<E>, base: nat)
    requires StoreHolds(b, store, history, base)
    ensures StoreTells(b, store, history, base) && Readable(b, store)
  {
    forall i | 0 <= i < |store.snapshots|
      ensures SnapshotTells(b, store.snapshots[i], history) && b.restoreSnapshot(store.snapshots[i].payload).Ok?
    {
      assert SnapshotHolds(b, store.snapshots[i], history);
    }
  }

  lemma SnapshotPointTold<S, E>(b: Behavior<S, E>, store: Store, history: seq<E>, base: nat)
    requires StoreTells(b, store, history, base)
    ensures 0 <= base <= SnapshotPoint(store) <= |history|
  {
    if store.snapshots != [] { assert SnapshotTells(b, store.snapshots[|store.snapshots| - 1], history); }
  }

  // ----- Skipped recoveries -----

  /** The actor that a failed recovery of a new actor leaves behind. */
  function Skipped<S, E>(b: Behavior<S, E>, store: Store, faults: RecoveryFaults): ActorState<S> {
    AfterRecovery(b, store, ActorState(b.initial, 0), faults).1
  }

  /** The recovery loads a snapshot, and the snapshot decodes. */
  predicate RestoresSnapshot<S, E>(b: Behavior<S, E>, store: Store, faults: RecoveryFaults) {
    && faults.loadSnapshot.None? && store.snapshots != []
    && b.restoreSnapshot(store.snapshots[|store.snapshots| - 1].payload).Ok?
  }

  /**
    `SkipAndStart` starts with the default state, whatever the storage holds, exactly when no
    snapshot was restored, or one that is the default state at sequence id 0.
  */
  lemma SkippedIsDefaultIff<S, E>(b: Behavior<S, E>, store: Store, faults: RecoveryFaults)
    requires AfterRecovery(b, store, ActorState(b.initial, 0), faults).0.Err?
    ensures Skipped(b, store, faults) == ActorState(b.initial, 0) <==>
            RestoresSnapshot(b, store, faults) ==>
              var snap := store.snapshots[|store.snapshots| - 1];
              snap.sequenceId == 0 && b.restoreSnapshot(snap.payload).value == b.initial
  {
    FailedRecoveryAppliesNothing(b, store, ActorState(b.initial, 0), faults);
    hide AfterRecovery;
  }

  /** The sequence id that a skipped recovery stops at. */
  function SkipPoint<S, E>(b: Behavior<S, E>, store: Store, faults: RecoveryFaults): int {
    if RestoresSnapshot(b, store, faults) then SnapshotPoint(store) else 0
  }

  lemma SkippedStandsAt<S, E>(b: Behavior<S, E>, store: Store, history: seq<E>, base: nat, faults: RecoveryFaults)
    requires StoreTells(b, store, history, base)
    requires AfterRecovery(b, store, ActorState(b.initial, 0), faults).0.Err?
    ensures var p := SkipPoint(b, store, faults);
            0 <= p <= |history| && Skipped(b, store, faults) == ActorState(Fold(b, b.initial, history[..p]), p)
  {
    FailedRecoveryAppliesNothing(b, store, ActorState(b.initial, 0), faults);
    SnapshotPointTold(b, store, history, base);
    if store.snapshots != [] { assert SnapshotTells(b, store.snapshots[|store.snapshots| - 1], history); }
    assert history[..0] == [];
    hide AfterRecovery, JournalTells;
  }

  /** A snapshot was restored and nothing in the journal is younger, or nothing was ever stored. */
  predicate SafeToSkip<S, E>(b: Behavior<S, E>, store: Store, faults: RecoveryFaults) {
    if RestoresSnapshot(b, store, faults)
    then store.journal == [] || store.journal[|store.journal| - 1].sequenceId <= SnapshotPoint(store)
    else store.journal == [] && SnapshotPoint(store) == 0
  }

  /** The actor goes on where the history ends exactly when skipping is safe. */
  lemma SafeToSkipIsCaughtUp<S, E>(b: Behavior<S, E>, store: Store, history: seq<E>, base: nat, faults: RecoveryFaults)
    requires StoreTells(b, store, history, base)
    ensures SkipPoint(b, store, faults) == |history| <==> SafeToSkip(b, store, faults)
  {
    SnapshotPointTold(b, store, history, base);
    hide RestoresSnapshot, SnapshotPoint;
  }

  /**
    What a skipped recovery does to the journal: the events persisted next continue it
    consecutively exactly when skipping is safe.
  */
  lemma SkippedPersistsContinueIff<S(!new), E(!new)>(b: Behavior<S, E>, store: Store, history: seq<E>, base: nat,
                                                     faults: RecoveryFaults, events: seq<E>)
    requires RoundTrips(b) && StoreTells(b, store, history, base) && events != []
    requires AfterRecovery(b, store, ActorState(b.initial, 0), faults).0.Err?
    requires AfterPersistBatch(b, World(store, Skipped(b, store, faults)), events, None).0.Ok?
    ensures var journal := AfterPersistBatch(b, World(store, Skipped(b, store, faults)), events, None).1.store.journal;
            && (JournalTells(b, journal, history + events, base) <==> SafeToSkip(b, store, faults))
            && (JournalHolds(b, store.journal, history, base) ==>
                  (JournalHolds(b, journal, history + events, base) <==> SafeToSkip(b, store, faults)))
  {
    var p := SkipPoint(b, store, faults);
    SkippedStandsAt(b, store, history, base, faults);
    SafeToSkipIsCaughtUp(b, store, history, base, faults);
    StoreTellsJournal(b, store, history, base);
    hide Skipped, AfterRecovery, SafeToSkip, SkipPoint, Fold, StoreTells, JournalTells, JournalHolds;
    EntriesContinueIff(b, store.journal, history, base, p, events);
  }

  lemma StoreTellsJournal<S, E>(b: Behavior<S, E>, store: Store, history: seq<E>, base: nat)
    requires StoreTells(b, store, history, base)
    ensures JournalTells(b, store.journal, history, base)
  {
    hide JournalTells, SnapshotTells;
  }

  /** Entries numbered after `p` continue the journal exactly when `p` is where the history ends. */
  lemma EntriesContinueIff<S(!new), E(!new)>(b: Behavior<S, E>, journal: seq<JournalEntry>, history: seq<E>, base: nat,
                                             p: nat, events: seq<E>)
    requires RoundTrips(b) && JournalTells(b, journal, history, base) && events != [] && Entries(b, p, events).Ok?
    ensures JournalTells(b, journal + Entries(b, p, events).value, history + events, base) <==> p == |history|
    ensures JournalHolds(b, journal, history, base) ==>
              (JournalHolds(b, journal + Entries(b, p, events).value, history + events, base) <==> p == |history|)
  {
    EntriesHold(b, p, events);
    hide Entries;
    var entries := Entries(b, p, events).value;
    if p == |history| {
      JournalGoesOn(b, journal, history, base, entries, events);
    } else {
      assert (journal + entries)[|journal|] == entries[0];
      assert entries[0].sequenceId == p + 1;
    }
  }

  lemma JournalGoesOn<S, E>(b: Behavior<S, E>, journal: seq<JournalEntry>, history: seq<E>, base: nat,
                            entries: seq<JournalEntry>, events: seq<E>)
    requires JournalTells(b, journal, history, base) && |entries| == |events|
    requires forall i :: 0 <= i < |entries| ==>
                           && entries[i].sequenceId == |history| + 1 + i
                           && b.deserializeEvent(entries[i].payload) == Ok(events[i])
    ensures JournalTells(b, journal + entries, history + events, base)
    ensures JournalHolds(b, journal, history, base) ==> JournalHolds(b, journal + entries, history + events, base)
  {
    forall i | 0 <= i < |journal + entries|
      ensures (journal + entries)[i].sequenceId == base + 1 + i
      ensures JournalHolds(b, journal, history, base) ==> b.deserializeEvent((journal + entries)[i].payload).Ok?
      ensures var decoded := b.deserializeEvent((journal + entries)[i].payload);
              decoded.Ok? ==> decoded.value == (history + events)[base + i]
    {
      if i >= |journal| { assert (journal + entries)[i] == entries[i - |journal|]; }
    }
  }

  lemma {:induction false} EventsFromConcat(xs: seq<JournalEntry>, ys: seq<JournalEntry>, from: int)
    ensures EventsFrom(xs + ys, from) == EventsFrom(xs, from) + EventsFrom(ys, from)
  {
    if xs == [] {
      ConcatNothing(ys);
      ConcatNothing(EventsFrom(ys, from));
    } else {
      EventsFromConcat(xs[1..], ys, from);
      TailOfConcat(xs, ys);
      var head := if xs[0].sequenceId >= from then [xs[0]] else [];
      assert EventsFrom(xs, from) == head + EventsFrom(xs[1..], from);
      assert EventsFrom(xs + ys, from) == head + EventsFrom((xs + ys)[1..], from);
      hide EventsFrom;
      ConcatAssociates(head, EventsFrom(xs[1..], from), EventsFrom(ys, from));
    }
  }

  function AtMost(n: int, limit: nat): (r: nat)
    ensures r <= limit
  {
    if n <= 0 then 0 else if n <= limit then n else limit
  }

  /** What a recovery from snapshot `s` reads of `more`, numbered after `p`, behind a journal that is true. */
  lemma ReadsBehind<S, E>(b: Behavior<S, E>, journal: seq<JournalEntry>, history: seq<E>, base: nat, s: nat,
                          more: seq<JournalEntry>, events: seq<E>, p: nat)
    requires JournalHolds(b, journal, history, base) && base <= s <= |history| && |more| == |events| && p <= s
    requires forall i :: 0 <= i < |more| ==>
                           more[i].sequenceId == p + 1 + i && b.deserializeEvent(more[i].payload) == Ok(events[i])
    ensures var k := AtMost(s - p, |events|);
            var read := EventsFrom(journal + more, s + 1);
            && DecodeAll(b, read) == Ok(history[s..] + events[k..])
            && read == journal[s - base..] + more[k..]
  {
    hide *;
    RoomInJournal(b, journal, history, base, s);
    var k := AtMost(s - p, |events|);
    ReadsLater(b, more, events, p, s);
    ReadsSuffix(b, journal, history, base, s - base);
    EventsFromConcat(journal, more, s + 1);
    SuffixDecodesOn(b, journal[s - base..], history, s, more[k..], events[k..]);
  }

  lemma RoomInJournal<S, E>(b: Behavior<S, E>, journal: seq<JournalEntry>, history: seq<E>, base: nat, s: nat)
    requires JournalHolds(b, journal, history, base) && base <= s <= |history|
    ensures s - base <= |journal|
  {
  }

  /** What is read of entries numbered after `p` when reading starts after `s`. */
  lemma ReadsLater<S, E>(b: Behavior<S, E>, more: seq<JournalEntry>, events: seq<E>, p: nat, s: nat)
    requires |more| == |events| && p <= s
    requires forall i :: 0 <= i < |more| ==>
                           more[i].sequenceId == p + 1 + i && b.deserializeEvent(more[i].payload) == Ok(events[i])
    ensures var k := AtMost(s - p, |events|);
            && EventsFrom(more, s + 1) == more[k..]
            && |more[k..]| == |events[k..]|
            && forall i :: 0 <= i < |more[k..]| ==> b.deserializeEvent(more[k..][i].payload) == Ok(events[k..][i])
  {
    hide EventsFrom;
    FilterIsSuffix(more, p + 1, s + 1);
    DecodesFrom(b, more, events, AtMost(s - p, |events|));
  }

  lemma DecodesFrom<S, E>(b: Behavior<S, E>, entries: seq<JournalEntry>, events: seq<E>, k: nat)
    requires |entries| == |events| && k <= |events|
    requires forall i :: 0 <= i < |entries| ==> b.deserializeEvent(entries[i].payload) == Ok(events[i])
    ensures forall i :: 0 <= i < |entries[k..]| ==> b.deserializeEvent(entries[k..][i].payload) == Ok(events[k..][i])
  {
  }

  lemma SuffixDecodesOn<S, E>(b: Behavior<S, E>, journal: seq<JournalEntry>, history: seq<E>, s: nat,
                              more: seq<JournalEntry>, events: seq<E>)
    requires JournalHolds(b, journal, history, s) && |more| == |events|
    requires forall i :: 0 <= i < |more| ==> b.deserializeEvent(more[i].payload) == Ok(events[i])
    ensures DecodeAll(b, journal + more) == Ok(history[s..] + events)
  {
    hide DecodeAll;
    DecodesToHistory(b, journal + more, history[s..] + events);
  }

  lemma RestoreUnfolds<S, E>(b: Behavior<S, E>, store: Store, history: seq<E>, base: nat, journal: seq<JournalEntry>)
    requires StoreHolds(b, store, history, base)
    ensures var s := SnapshotPoint(store);
            && 0 <= s <= |history|
            && AfterRestore(b, store.(journal := journal), ActorState(b.initial, 0), None)
               == (Ok(()), ActorState(Fold(b, b.initial, history[..s]), s))
  {
    SnapshotPointInHistory(b, store, history, base);
    if store.snapshots != [] { assert SnapshotHolds(b, store.snapshots[|store.snapshots| - 1], history); }
    assert history[..0] == [];
    hide JournalHolds, StoreHolds;
  }

  /** A recovery that meets no fault, where `read` is what the journal holds after the snapshot. */
  lemma RecoveryUnfolds<S, E>(b: Behavior<S, E>, store: Store, history: seq<E>, base: nat, journal: seq<JournalEntry>,
                              events: seq<E>)
    requires StoreHolds(b, store, history, base)
    requires DecodeAll(b, EventsFrom(journal, SnapshotPoint(store) + 1)) == Ok(events)
    ensures var s := SnapshotPoint(store);
            var read := EventsFrom(journal, s + 1);
            && 0 <= s <= |history|
            && AfterRecovery(b, store.(journal := journal), ActorState(b.initial, 0), NoFaults)
               == (Ok(()), ActorState(Fold(b, b.initial, history[..s] + events),
                   if read == [] then s else read[|read| - 1].sequenceId))
  {
    var s, start := SnapshotPoint(store), ActorState(b.initial, 0);
    SnapshotPointInHistory(b, store, history, base);
    RestoreUnfolds(b, store, history, base, journal);
    FoldConcat(b, b.initial, history[..s], events);
    hide StoreHolds, EventsFrom, DecodeAll, AfterRestore, Fold;
    ReplayUnfolds(b, store.(journal := journal), ActorState(Fold(b, b.initial, history[..s]), s),
                  EventsFrom(journal, s + 1), events);
  }

  // ----- What becomes of them in a later recovery -----

  /** The part of the store that a recovery reads. */
  function ReadPart(store: Store): Store {
    Store(EventsFrom(store.journal, SnapshotPoint(store) + 1),
          if store.snapshots == [] then [] else [store.snapshots[|store.snapshots| - 1]])
  }

  /**
    A later recovery that meets no fault succeeds if and only if what it needs was readable
    before the skip. It then finds the whole history, followed by the events persisted after
    the skip except the first ones, as many as a snapshot that was not restored covers.
    Otherwise it stops where the skipped one would have without a fault, with none of them.
  */
  lemma SkippedPersistsAreLost<S(!new), E(!new)>(b: Behavior<S, E>, store: Store, history: seq<E>, base: nat,
                                                 faults: RecoveryFaults, events: seq<E>)
    requires RoundTrips(b) && StoreTells(b, store, history, base) && events != []
    requires AfterRecovery(b, store, ActorState(b.initial, 0), faults).0.Err?
    requires AfterPersistBatch(b, World(store, Skipped(b, store, faults)), events, None).0.Ok?
    ensures var store' := AfterPersistBatch(b, World(store, Skipped(b, store, faults)), events, None).1.store;
            var (r, actor) := AfterRecovery(b, store', ActorState(b.initial, 0), NoFaults);
            var lost := AtMost(SnapshotPoint(store) - SkipPoint(b, store, faults), |events|);
            && (r.Ok? <==> Readable(b, store))
            && (r.Ok? ==> actor.state == Fold(b, b.initial, history + events[lost..]))
            && (r.Ok? ==> (actor.lastSequenceId == |history| + |events| <==> SafeToSkip(b, store, faults)))
            && (r.Err? ==>
                  var p := SkipPoint(b, store, NoFaults);
                  actor == ActorState(Fold(b, b.initial, history[..p]), p))
  {
    var p, s := SkipPoint(b, store, faults), SnapshotPoint(store);
    SkippedStandsAt(b, store, history, base, faults);
    SafeToSkipIsCaughtUp(b, store, history, base, faults);
    SnapshotPointTold(b, store, history, base);
    EntriesHold(b, p, events);
    var entries := Entries(b, p, events).value;
    assert AfterPersistBatch(b, World(store, Skipped(b, store, faults)), events, None).1.store
        == store.(journal := store.journal + entries);
    SkipPointBehind(b, store, faults);
    hide *;
    if Readable(b, store) {
      ReadPartHolds(b, store, history, base);
      ReadPartIsRead(b, store, history, base, entries);
      LaterRecovery(b, ReadPart(store), history, s, s, p, entries, events);
      assert |entries| == |events|;
    } else {
      UnreadableStaysSo(b, store, history, base, entries);
    }
  }

  lemma SkipPointBehind<S, E>(b: Behavior<S, E>, store: Store, faults: RecoveryFaults)
    requires SnapshotPoint(store) >= 0
    ensures 0 <= SkipPoint(b, store, faults) <= SnapshotPoint(store)
  {
    hide RestoresSnapshot;
  }

  lemma LatestReadable<S, E>(b: Behavior<S, E>, store: Store, history: seq<E>, base: nat)
    requires StoreTells(b, store, history, base) && Readable(b, store)
    ensures store.snapshots != [] ==> SnapshotHolds(b, store.snapshots[|store.snapshots| - 1], history)
  {
    if store.snapshots != [] { assert SnapshotTells(b, store.snapshots[|store.snapshots| - 1], history); }
    hide JournalTells, Fold;
  }

  lemma ReadableFrom<S, E>(b: Behavior<S, E>, store: Store, history: seq<E>, base: nat)
    requires JournalTells(b, store.journal, history, base) && Readable(b, store) && base <= SnapshotPoint(store)
    ensures forall i :: SnapshotPoint(store) - base <= i < |store.journal| ==>
                          b.deserializeEvent(store.journal[i].payload).Ok?
  {
    hide SnapshotPoint;
  }

  lemma ToldSuffix<S, E>(b: Behavior<S, E>, journal: seq<JournalEntry>, history: seq<E>, base: nat, s: nat)
    requires JournalTells(b, journal, history, base) && base <= s <= |history|
    requires forall i :: s - base <= i < |journal| ==> b.deserializeEvent(journal[i].payload).Ok?
    ensures s - base <= |journal| && JournalHolds(b, journal[s - base..], history, s)
  {
    var k := s - base;
    assert forall i :: 0 <= i < |journal| - k ==> journal[k..][i] == journal[k + i];
  }

  lemma ReadsToldSuffix<S, E>(b: Behavior<S, E>, journal: seq<JournalEntry>, history: seq<E>, base: nat, s: nat)
    requires JournalTells(b, journal, history, base) && base <= s <= |history|
    ensures s - base <= |journal| && EventsFrom(journal, s + 1) == journal[s - base..]
  {
    hide EventsFrom;
    FilterIsSuffix(journal, base + 1, s + 1);
    hide JournalTells;
    TakeAll(journal);
  }

  lemma ReadEntriesHold<S, E>(b: Behavior<S, E>, store: Store, history: seq<E>, base: nat)
    requires StoreTells(b, store, history, base) && Readable(b, store) && base <= SnapshotPoint(store) <= |history|
    ensures var s := SnapshotPoint(store);
            JournalHolds(b, EventsFrom(store.journal, s + 1), history, s)
  {
    StoreTellsJournal(b, store, history, base);
    var s, journal := SnapshotPoint(store), store.journal;
    ReadableFrom(b, store, history, base);
    ToldSuffix(b, journal, history, base, s);
    ReadsToldSuffix(b, journal, history, base, s);
    hide *;
  }

  lemma ReadPartHolds<S, E>(b: Behavior<S, E>, store: Store, history: seq<E>, base: nat)
    requires StoreTells(b, store, history, base) && Readable(b, store)
    ensures SnapshotPoint(ReadPart(store)) == SnapshotPoint(store) >= 0
    ensures StoreHolds(b, ReadPart(store), history, SnapshotPoint(store))
  {
    var s := SnapshotPoint(store);
    SnapshotPointTold(b, store, history, base);
    LatestReadable(b, store, history, base);
    hide EventsFrom, JournalTells, JournalHolds, SnapshotTells, SnapshotHolds, Readable;
    ReadEntriesHold(b, store, history, base);
  }

  lemma {:induction false} EventsFromTwice(journal: seq<JournalEntry>, from: int)
    ensures EventsFrom(EventsFrom(journal, from), from) == EventsFrom(journal, from)
  {
    if journal != [] {
      EventsFromTwice(journal[1..], from);
      var rest := EventsFrom(journal[1..], from);
      assert ([journal[0]] + rest)[1..] == rest;
      ConcatNothing(rest);
    }
  }

  lemma {:induction false} EventsFromKeeps(journal: seq<JournalEntry>, from: int, i: nat)
    requires i < |journal| && journal[i].sequenceId >= from
    ensures journal[i] in EventsFrom(journal, from)
  {
    if i > 0 { EventsFromKeeps(journal[1..], from, i - 1); }
  }

  /** A recovery reads the latest snapshot and what follows it, and nothing else. */
  lemma ReadPartIsRead<S, E>(b: Behavior<S, E>, store: Store, history: seq<E>, base: nat, more: seq<JournalEntry>)
    requires StoreTells(b, store, history, base) && Readable(b, store)
    ensures AfterRecovery(b, store.(journal := store.journal + more), ActorState(b.initial, 0), NoFaults)
         == AfterRecovery(b, ReadPart(store).(journal := ReadPart(store).journal + more), ActorState(b.initial, 0),
                          NoFaults)
  {
    var from := SnapshotPoint(store) + 1;
    EventsFromConcat(store.journal, more, from);
    EventsFromConcat(EventsFrom(store.journal, from), more, from);
    EventsFromTwice(store.journal, from);
    hide EventsFrom, DecodeAll, Fold, StoreTells;
  }

  lemma UnreadableFails<S, E>(b: Behavior<S, E>, store: Store, more: seq<JournalEntry>)
    requires !Readable(b, store)
    ensures AfterRecovery(b, store.(journal := store.journal + more), ActorState(b.initial, 0), NoFaults).0.Err?
  {
    if store.snapshots == [] || b.restoreSnapshot(store.snapshots[|store.snapshots| - 1].payload).Ok? {
      var i :| 0 <= i < |store.journal| && store.journal[i].sequenceId > SnapshotPoint(store)
               && b.deserializeEvent(store.journal[i].payload).Err?;
      var journal, from := store.journal + more, SnapshotPoint(store) + 1;
      assert journal[i] == store.journal[i];
      EventsFromKeeps(journal, from, i);
      UndecodableEntryFails(b, EventsFrom(journal, from));
      hide EventsFrom, DecodeAll, Fold;
    }
  }

  lemma UnreadableStaysSo<S, E>(b: Behavior<S, E>, store: Store, history: seq<E>, base: nat, more: seq<JournalEntry>)
    requires StoreTells(b, store, history, base) && !Readable(b, store)
    ensures var (r, actor) :=
              AfterRecovery(b, store.(journal := store.journal + more), ActorState(b.initial, 0), NoFaults);
            var p := SkipPoint(b, store, NoFaults);
            && r.Err? && 0 <= p <= |history| && actor == ActorState(Fold(b, b.initial, history[..p]), p)
  {
    var start := ActorState(b.initial, 0);
    UnreadableFails(b, store, []);
    ConcatNothing(store.journal);
    UnreadableFails(b, store, more);
    SkippedStandsAt(b, store, history, base, NoFaults);
    hide AfterRecovery, StoreTells, Readable, SkipPoint;
    FailedRecoveryAppliesNothing(b, store, start, NoFaults);
    FailedRecoveryAppliesNothing(b, store.(journal := store.journal + more), start, NoFaults);
  }

  lemma LaterRecovery<S, E>(b: Behavior<S, E>, store: Store, history: seq<E>, base: nat, s: nat, p: nat,
                            entries: seq<JournalEntry>, events: seq<E>)
    requires StoreHolds(b, store, history, base) && p <= s == SnapshotPoint(store) && |entries| == |events|
    requires forall i :: 0 <= i < |entries| ==>
                           entries[i].sequenceId == p + 1 + i && b.deserializeEvent(entries[i].payload) == Ok(events[i])
    ensures var store' := store.(journal := store.journal + entries);
            var (r, actor) := AfterRecovery(b, store', ActorState(b.initial, 0), NoFaults);
            var k := AtMost(s - p, |events|);
            && r == Ok(())
            && actor == ActorState(Fold(b, b.initial, history + events[k..]),
                                   if k == |events| then |history| else p + |events|)
  {
    hide *;
    SnapshotPointInHistory(b, store, history, base);
    StoreHasJournal(b, store, history, base);
    var k := AtMost(s - p, |events|);
    ReadsBehind(b, store.journal, history, base, s, entries, events, p);
    RecoveryUnfolds(b, store, history, base, store.journal + entries, history[s..] + events[k..]);
    ConcatAssociates(history[..s], history[s..], events[k..]);
    SplitAt(history, s);
    LastRead(b, store.journal, history, base, s, entries, p, k);
  }

  lemma StoreHasJournal<S, E>(b: Behavior<S, E>, store: Store, history: seq<E>, base: nat)
    requires StoreHolds(b, store, history, base)
    ensures JournalHolds(b, store.journal, history, base) && base <= SnapshotPoint(store)
  {
    hide JournalHolds, SnapshotHolds;
  }

  /** The last sequence id that is read, when `more`, numbered after `p`, is read from place `k` on. */
  lemma LastRead<S, E>(b: Behavior<S, E>, journal: seq<JournalEntry>, history: seq<E>, base: nat, s: nat,
                       more: seq<JournalEntry>, p: nat, k: nat)
    requires JournalHolds(b, journal, history, base) && base <= s <= |history| && k <= |more|
    requires forall i :: 0 <= i < |more| ==> more[i].sequenceId == p + 1 + i
    ensures var read := journal[s - base..] + more[k..];
            (if read == [] then s else read[|read| - 1].sequenceId) == if k == |more| then |history| else p + |more|
  {
    var left, right := journal[s - base..], more[k..];
    if right == [] {
      ConcatNothing(left);
      assert left != [] ==> left[|left| - 1] == journal[|journal| - 1];
    } else {
      assert (left + right)[|left + right| - 1] == right[|right| - 1] == more[|more| - 1];
    }
  }
}
