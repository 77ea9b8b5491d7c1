/**
  The bank account of the event-sourcing example: a concrete event and snapshot codec that
  meets the round-trip hypothesis of the persistence theorems.

  `apply` uses the wrapping arithmetic of a release build.
*/
module BankAccount {
  import opened Numbers
  import opened Wrappers
  import opened Wire
  import opened Persistence
  import R = PersistenceRuns
  import Sequences

  datatype BankEvent = Deposited(amount: U64) | Withdrawn(amount: U64)

  // ----- Little-endian bytes -----

  function Range(k: nat): (r: nat)
    ensures r > 0
  {
    if k == 0 then 1 else 256 * Range(k - 1)
  }

  /** The `k` low bytes of `n`, least significant first. */
  function ToLeBytes(n: nat, k: nat): (bytes: Bytes)
    ensures |bytes| == k
  {
    if k == 0 then [] else [n % 256] + ToLeBytes(n / 256, k - 1)
  }

  function FromLeBytes(bytes: Bytes): (n: nat)
    ensures n < Range(|bytes|)
  {
    if bytes == [] then 0 else bytes[0] + 256 * FromLeBytes(bytes[1..])
  }

  lemma {:induction false} BytesRoundTrip(n: nat, k: nat)
    requires n < Range(k)
    ensures FromLeBytes(ToLeBytes(n, k)) == n
  {
    if k > 0 {
      BytesRoundTrip(n / 256, k - 1);
      assert ToLeBytes(n, k)[1..] == ToLeBytes(n / 256, k - 1);
    }
  }

  lemma {:induction false} NumberRoundTrip(bytes: Bytes)
    ensures ToLeBytes(FromLeBytes(bytes), |bytes|) == bytes
  {
    if bytes != [] {
      NumberRoundTrip(bytes[1..]);
      LowByte(bytes[0], FromLeBytes(bytes[1..]));
    }
  }

  lemma LowByte(low: Byte, rest: nat)
    ensures (low + 256 * rest) % 256 == low && (low + 256 * rest) / 256 == rest
  {
  }

  lemma EightBytes()
    ensures Range(8) == U64_RANGE
  {
    assert Range(4) == 0x1_0000_0000 by { assert Range(2) == 0x1_0000; }
    assert Range(6) == 0x1_0000_0000_0000;
  }

  /** Byte i holds the digit of `n` that counts powers of 256. */
  lemma {:induction false} LeByteAt(n: nat, k: nat, i: nat)
    requires i < k
    ensures ToLeBytes(n, k)[i] == (n / Range(i)) % 256
  {
    if i == 0 {
      assert n / 1 == n;
    } else {
      LeByteAt(n / 256, k - 1, i - 1);
      QuotientOfQuotient(n, Range(i - 1));
    }
  }

  lemma QuotientOfQuotient(n: nat, d: nat)
    requires d > 0
    ensures n / 256 / d == n / (256 * d)
  {
    var q, r := n / 256 / d, n / 256 % d;
    assert n / 256 == q * d + r by { Division(n / 256, d); }
    assert n == q * (256 * d) + (256 * r + n % 256);
    Quotient(n, 256 * d, q, 256 * r + n % 256);
  }

  function U64FromBytes(bytes: Bytes): U64
    requires |bytes| == 8
  {
    EightBytes();
    FromLeBytes(bytes)
  }

  // ----- The codecs -----

  const DEPOSIT_TAG: Bytes := [0x44, 0x3a]
  const WITHDRAW_TAG: Bytes := [0x57, 0x3a]

  function SerializeEvent(e: BankEvent): Result<Bytes, PersistError> {
    match e
    case Deposited(a) => Ok(DEPOSIT_TAG + ToLeBytes(a, 8))
    case Withdrawn(a) => Ok(WITHDRAW_TAG + ToLeBytes(a, 8))
  }

  function DeserializeEvent(payload: Bytes): Result<BankEvent, PersistError> {
    if |payload| < 10 then Err(SerializationFailed("too short"))
    else
      var amount := U64FromBytes(payload[2..10]);
      if payload[..2] == DEPOSIT_TAG then Ok(Deposited(amount))
      else if payload[..2] == WITHDRAW_TAG then Ok(Withdrawn(amount))
      else Err(SerializationFailed("unknown tag"))
  }

  function SnapshotPayload(balance: U64): Result<Bytes, PersistError> {
    Ok(ToLeBytes(balance, 8))
  }

  function RestoreSnapshot(payload: Bytes): Result<U64, PersistError> {
    if |payload| != 8 then Err(SerializationFailed("bad snapshot")) else Ok(U64FromBytes(payload))
  }

  function Apply(balance: U64, e: BankEvent): U64 {
    match e
    case Deposited(a) => (balance + a) % U64_RANGE
    case Withdrawn(a) => (balance + U64_RANGE - a) % U64_RANGE
  }

  function Account(): Behavior<U64, BankEvent> {
    Behavior(0,
             (s: U64, e: BankEvent) => Apply(s, e),
             "BankEvent",
             (e: BankEvent) => SerializeEvent(e),
             (p: Bytes) => DeserializeEvent(p),
             (s: U64) => SnapshotPayload(s),
             (p: Bytes) => RestoreSnapshot(p))
  }

  /** The bytes of an event: `D:` or `W:`, then the eight bytes of its amount, least significant first. */
  lemma EventBytes(e: BankEvent, i: nat)
    requires i < 8
    ensures var r := SerializeEvent(e);
            && r.Ok? && |r.value| == 10
            && r.value[0] == (if e.Deposited? then 'D' else 'W') as int && r.value[1] == ':' as int
            && r.value[2 + i] == (e.amount / Range(i)) % 256
  {
    LeByteAt(e.amount, 8, i);
    hide ToLeBytes, Range;
  }

  /** What is refused, and why: payloads under ten bytes or with another tag, and snapshots not of eight bytes. */
  lemma DecodingReports(payload: Bytes)
    ensures DeserializeEvent(payload).Ok? <==>
            |payload| >= 10 && (payload[0] == 'D' as int || payload[0] == 'W' as int) && payload[1] == ':' as int
    ensures DeserializeEvent(payload).Err? ==>
              DeserializeEvent(payload).error
              == SerializationFailed(if |payload| < 10 then "too short" else "unknown tag")
    ensures RestoreSnapshot(payload).Ok? <==> |payload| == 8
    ensures RestoreSnapshot(payload).Err? ==> RestoreSnapshot(payload).error == SerializationFailed("bad snapshot")
  {
    if |payload| >= 10 { assert payload[..2] == [payload[0], payload[1]]; }
  }

  /** Whatever is serialized decodes to what it was, events and snapshots alike. */
  lemma CodecsRoundTrip()
    ensures R.RoundTrips(Account())
  {
    forall e: BankEvent ensures DeserializeEvent(SerializeEvent(e).value) == Ok(e) {
      EightBytes();
      BytesRoundTrip(e.amount, 8);
      assert SerializeEvent(e).value[2..10] == ToLeBytes(e.amount, 8);
      assert SerializeEvent(e).value[..2] == if e.Deposited? then DEPOSIT_TAG else WITHDRAW_TAG;
    }
    forall s: U64 ensures RestoreSnapshot(SnapshotPayload(s).value) == Ok(s) {
      EightBytes();
      BytesRoundTrip(s, 8);
    }
  }

  lemma EncodedParts(e: BankEvent)
    ensures var encoded, bytes := SerializeEvent(e).value, ToLeBytes(e.amount, 8);
            var tag := if e.Deposited? then DEPOSIT_TAG else WITHDRAW_TAG;
            && SerializeEvent(e).Ok? && encoded == tag + bytes
            && |encoded| == 10 && encoded[..2] == tag && encoded[2..] == bytes
  {
    hide ToLeBytes;
  }

  lemma TenBytes(payload: Bytes)
    requires |payload| >= 10
    ensures payload[..10] == payload[..2] + payload[2..10] && payload[..10] <= payload
  {
  }

  lemma PrefixParts(encoded: Bytes, payload: Bytes)
    requires |encoded| == 10 && encoded <= payload
    ensures |payload| >= 10 && payload[..2] == encoded[..2] && payload[2..10] == encoded[2..]
  {
  }

  /** The decoder accepts exactly the encodings, with anything after the tenth byte ignored. */
  lemma DecodesExactlyEncodings(payload: Bytes, e: BankEvent)
    ensures DeserializeEvent(payload) == Ok(e) <==> SerializeEvent(e).value <= payload
  {
    var encoded, bytes := SerializeEvent(e).value, ToLeBytes(e.amount, 8);
    EightBytes();
    BytesRoundTrip(e.amount, 8);
    EncodedParts(e);
    hide ToLeBytes, FromLeBytes, SerializeEvent, Range;
    if DeserializeEvent(payload) == Ok(e) {
      NumberRoundTrip(payload[2..10]);
      TenBytes(payload);
      assert encoded == payload[..10];
    }
    if encoded <= payload {
      PrefixParts(encoded, payload);
      assert payload[2..10] == bytes;
    }
  }

  function Signed(e: BankEvent): int {
    match e
    case Deposited(a) => a
    case Withdrawn(a) => 0 - a
  }

  /** Deposits less withdrawals. */
  function Net(events: seq<BankEvent>): int {
    if events == [] then 0 else Net(events[..|events| - 1]) + Signed(events[|events| - 1])
  }

  lemma {:induction false} BalanceIsNet(events: seq<BankEvent>)
    ensures Fold(Account(), 0, events) == Net(events) % U64_RANGE
  {
    if events != [] {
      BalanceIsNet(events[..|events| - 1]);
      Wrap(Net(events[..|events| - 1]), events[|events| - 1]);
    }
  }

  lemma Wrap(net: int, e: BankEvent)
    ensures Apply(net % U64_RANGE, e) == (net + Signed(e)) % U64_RANGE
  {
  }

  /** After any allowed run, a fresh account recovers the deposits less the withdrawals ever persisted. */
  lemma AccountRecoversItsBalance(ops: seq<R.Op<BankEvent>>)
    requires R.AllAllowed(Account(), ops)
    ensures var s := R.Run(Account(), ops);
            var (r, account) := AfterRecovery(Account(), s.world.store, ActorState(0, 0), RecoveryFaults(None, None));
            r.Ok? && account.state == Net(s.history) % U64_RANGE && account.lastSequenceId == |s.history|
  {
    CodecsRoundTrip();
    R.RecoveryEqualsHistory(Account(), ops);
    BalanceIsNet(R.Run(Account(), ops).history);
  }

  // ----- Skipped recoveries -----

  const Unavailable: Fault := Some(StorageUnavailable("connection lost"))

  /** An account that has persisted a deposit of 1, saved a snapshot of it, compacted its journal and crashed. */
  const Compacted: seq<R.Op<BankEvent>> :=
    [R.Persist(Deposited(1), None)] + [R.TakeSnapshot(None)] + [R.Op.DeleteEvents(1, None)] + [R.Crash]

  lemma CompactedStore()
    ensures R.Run(Account(), Compacted).world.store == Store([], [SnapshotEntry(1, SnapshotPayload(1).value)])
  {
    var a := Account();
    var persist, snapshot, delete := R.Persist(Deposited(1), None), R.TakeSnapshot(None), R.Op.DeleteEvents(1, None);
    assert [] + [persist] == [persist];
    R.RunOneMore(a, [], persist);
    R.RunOneMore(a, [persist], snapshot);
    R.RunOneMore(a, [persist] + [snapshot], delete);
    R.RunOneMore(a, [persist] + [snapshot] + [delete], R.Crash);
    var entry := JournalEntry(1, "BankEvent", SerializeEvent(Deposited(1)).value);
    hide SerializeEvent, SnapshotPayload, EventsFrom;
    assert R.Run(a, [persist]).world == World(Store([entry], []), ActorState(1, 1));
    assert R.Run(a, [persist] + [snapshot]).world.store == Store([entry], [SnapshotEntry(1, SnapshotPayload(1).value)]);
    NothingFrom(entry);
  }

  lemma NothingFrom(entry: JournalEntry)
    requires entry.sequenceId == 1
    ensures EventsFrom([entry], 2) == []
  {
    assert [entry][1..] == [];
  }

  /**
    A skipped recovery that could not load this snapshot starts at zero. The deposit of 2
    that it then reports as persisted is gone after the next recovery.
  */
  lemma SkippedDepositIsLost()
    ensures var store := R.Run(Account(), Compacted).world.store;
            var faults := RecoveryFaults(Unavailable, None);
            var (skipped, account) := AfterRecovery(Account(), store, ActorState(0, 0), faults);
            var (persisted, w) := AfterPersist(Account(), World(store, account), Deposited(2), None);
            && skipped.Err? && account == ActorState(0, 0) && persisted == Ok(1)
            && AfterRecovery(Account(), w.store, ActorState(0, 0), R.NoFaults) == (Ok(()), ActorState(1, 1))
  {
    CompactedStore();
    CodecsRoundTrip();
    var snap := SnapshotEntry(1, SnapshotPayload(1).value);
    var entry := JournalEntry(1, "BankEvent", SerializeEvent(Deposited(2)).value);
    hide SerializeEvent, SnapshotPayload, RestoreSnapshot, DeserializeEvent;
    assert Account().restoreSnapshot(Account().snapshotPayload(1).value) == Ok(1);
    assert [] + [entry] == [entry];
    NothingFrom(entry);
    assert Fold(Account(), 1, []) == 1;
  }

  /** A skipped recovery that could load the snapshot and not read the journal does not start at zero. */
  lemma SkippedAccountIsNotDefault()
    ensures var store := R.Run(Account(), Compacted).world.store;
            AfterRecovery(Account(), store, ActorState(0, 0), RecoveryFaults(None, Unavailable))
            == (Err(Unavailable.value), ActorState(1, 1))
  {
    CompactedStore();
    CodecsRoundTrip();
    assert SnapshotPayload(1).Ok?;
    hide SnapshotPayload, RestoreSnapshot, R.Run;
    assert Account().restoreSnapshot(Account().snapshotPayload(1).value) == Ok(1);
  }

  /** One that could not read the journal persists its next event under an id that the journal has given out. */
  lemma SkippedDepositReusesId()
    ensures var store := R.Run(Account(), [R.Persist(Deposited(1), None)]).world.store;
            var faults := RecoveryFaults(None, Unavailable);
            var (skipped, account) := AfterRecovery(Account(), store, ActorState(0, 0), faults);
            && skipped.Err? && |store.journal| == 1
            && AfterPersist(Account(), World(store, account), Deposited(2), None).0 == Ok(store.journal[0].sequenceId)
  {
    FirstDepositStore();
    assert SerializeEvent(Deposited(2)).Ok?;
    hide R.Run, SerializeEvent, EventsFrom, DecodeAll;
  }

  lemma FirstDepositStore()
    ensures R.Run(Account(), [R.Persist(Deposited(1), None)]).world.store
         == Store([JournalEntry(1, "BankEvent", SerializeEvent(Deposited(1)).value)], [])
  {
    var persist := R.Persist(Deposited(1), None);
    R.RunOneMore(Account(), [], persist);
    Sequences.ConcatNothing([persist]);
    Sequences.ConcatNothing([JournalEntry(1, "BankEvent", SerializeEvent(Deposited(1)).value)]);
    hide SerializeEvent;
    assert R.Run(Account(), []) == R.Start(Account());
    hide R.Run;
  }
}
