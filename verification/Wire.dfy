/** Entities that several components share: identities, send modes, wire envelopes and clock readings. */
module Wire {
  type Byte = b: int | 0 <= b < 256

  /** A reading of the monotonic clock, in ticks. */
  type Instant = nat

  type NodeId = string

  datatype ActorId = ActorId(node: NodeId, local: nat)

  datatype SendMode = Tell | Ask | Expand | Reduce | Transform

  datatype WireEnvelope = WireEnvelope(
    node: NodeId,
    sendMode: SendMode,
    headers: map<string, seq<Byte>>,
    body: seq<Byte>)

  /** `Instant::duration_since`, which saturates at zero. */
  function DurationSince(now: Instant, earlier: Instant): nat {
    if earlier <= now then now - earlier else 0
  }
}
