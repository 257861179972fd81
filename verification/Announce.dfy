/**
 * The prepare, persist and commit calls for the announce-ratchet ring and the announce order, and
 * the gate that a ratcheted announce has to pass.
 */
module Announce {
  import opened Bytes

  const SIGNATURE_LENGTH: nat := 64
  const ORDER_BLOB_LENGTH: nat := 7
  const ORDER_DATA_LENGTH: nat := ORDER_BLOB_LENGTH + SIGNATURE_LENGTH
  const ORDER_LIMIT: nat := 0x100_0000_0000
  const MAX_APP_DATA: nat := 333

  const UNCHANGED: nat := 0
  const PERSIST_METADATA: nat := 1
  const ROTATED: nat := 2
  const FULL_RING_PROTECTED: nat := 3

  /** Retained private keys, newest first, and whatever else the ring's blob records. */
  datatype Ring = Ring(keys: seq<Bytes>, metadata: Bytes)

  const EMPTY_RING := Ring([], [])

  /** The ring crate's decision about a rotation that may be due. */
  datatype Plan = KeepRing | KeepFullRing | NewMetadata(metadata: Bytes) | Rotate(metadata: Bytes) | PlanFails

  datatype Built = Built(payload: Bytes) | BuiltTooSmall | BuildFails

  /** What a receiver reads from a valid announce. */
  datatype Heard = Heard(destination: Bytes, random: Bytes, ratchet: Option<Bytes>, app: Bytes)

  /** The operations of the crates that are not part of this model. */
  datatype Library = Library(
    sign: (Bytes, Bytes) -> Bytes,                     // private key, message
    digest: Bytes -> Bytes,
    publicKey: Bytes -> Bytes,
    plan: (Ring, Bytes, u64, u64) -> Plan,             // ring, entropy, wall seconds, uptime seconds
    retained: nat,                                     // how many keys a ring keeps
    ringFits: Ring -> bool,                            // the rings the crate can hold
    ringBlob: Ring -> Bytes,
    ringOf: Bytes -> Option<Ring>,
    acceptsRing: (Ring, Ring) -> bool,                 // live, candidate
    firstOrder: u64,                                   // the first order without a clock
    orderBlob: Option<u64> -> Bytes,
    orderOf: Bytes -> Option<Option<u64>>,
    acceptsOrder: (Option<u64>, Option<u64>) -> bool,  // live, candidate
    destination: Bytes -> Bytes,                       // private key to delivery destination
    build: (Bytes, Bytes, Option<Bytes>, Bytes, nat) -> Built,  // private key, random hash, ratchet, app data, capacity
    hear: (Bytes, bool) -> Option<Heard>)              // payload, context flag

  /** Orders are forty-bit numbers. */
  predicate OrderFits(order: Option<u64>) {
    order.Some? ==> order.value < ORDER_LIMIT
  }

  /** Rotation puts the new key in front and drops the oldest beyond the retention limit. */
  function Rotated(lib: Library, ring: Ring, key: Bytes, metadata: Bytes): Ring {
    var keys := [key] + ring.keys;
    Ring(if |keys| > lib.retained then keys[..lib.retained] else keys, metadata)
  }

  /** What a plan makes of a ring that the crate holds, the crate holds too. */
  ghost predicate PlanFits(lib: Library, ring: Ring, entropy: Bytes, plan: Plan) {
    match plan
    case NewMetadata(m) => lib.ringFits(Ring(ring.keys, m))
    case Rotate(m) => lib.ringFits(Rotated(lib, ring, entropy, m))
    case _ => true
  }

  /** With its context flag telling whether it has a ratchet, an announce reads back as what it was built from. */
  ghost predicate HeardAsBuilt(lib: Library) {
    forall k, r, p: Option<Bytes>, a, c :: lib.build(k, r, p, a, c).Built? ==>
      lib.hear(lib.build(k, r, p, a, c).payload, p.Some?) == Some(Heard(lib.destination(k), r, p, a))
  }

  /** Deterministic 64-octet signatures, collision-free digests, and blobs and announces that read back. */
  ghost predicate Laws(lib: Library) {
    && (forall k, m :: |lib.sign(k, m)| == SIGNATURE_LENGTH)
    && (forall a, b :: lib.digest(a) == lib.digest(b) ==> a == b)
    && lib.ringFits(EMPTY_RING)
    && (forall r, e, w, u :: lib.ringFits(r) ==> PlanFits(lib, r, e, lib.plan(r, e, w, u)))
    && (forall r :: lib.ringFits(r) ==> lib.ringOf(lib.ringBlob(r)) == Some(r))
    && (forall b :: lib.ringOf(b).Some? ==> lib.ringFits(lib.ringOf(b).value))
    && (forall o :: OrderFits(o) ==> lib.orderOf(lib.orderBlob(o)) == Some(o))
    && (forall o :: OrderFits(o) ==> |lib.orderBlob(o)| == ORDER_BLOB_LENGTH)
    && (forall b :: lib.orderOf(b).Some? ==> OrderFits(lib.orderOf(b).value))
    && lib.retained >= 2
    && lib.firstOrder < ORDER_LIMIT
    && HeardAsBuilt(lib)
  }

  /** The announce part of the backend context. */
  datatype Live = Live(identity: Option<Bytes>, ring: Ring, order: Option<u64>, pendingRing: Option<Bytes>, pendingOrder: Option<Bytes>)

  /** Ring and order are ones the crates can hold. */
  predicate LiveFits(lib: Library, s: Live) {
    lib.ringFits(s.ring) && OrderFits(s.order)
  }

  const FRESH := Live(None, EMPTY_RING, None, None, None)

  /** Everything a call hands back. */
  datatype Reply = Reply(status: Status, data: Bytes, action: nat, key: Bytes, value: u64)

  datatype Outcome = Outcome(live: Live, reply: Reply)

  function Refused(status: Status): Reply {
    Reply(status, [], 0, [], 0)
  }

  // ---- What the calls do ---------------------------------------------------------------------

  function Current(lib: Library, ring: Ring): Option<Bytes> {
    if ring.keys == [] then None else Some(lib.publicKey(ring.keys[0]))
  }

  function Signed(lib: Library, key: Bytes, blob: Bytes): Bytes {
    blob + lib.sign(key, blob)
  }

  function BlobOf(data: Bytes): Bytes
    requires |data| >= SIGNATURE_LENGTH
  {
    data[..|data| - SIGNATURE_LENGTH]
  }

  function SignatureOf(data: Bytes): Bytes
    requires |data| >= SIGNATURE_LENGTH
  {
    data[|data| - SIGNATURE_LENGTH..]
  }

  predicate SignedBy(lib: Library, key: Bytes, data: Bytes)
    requires |data| >= SIGNATURE_LENGTH
  {
    lib.sign(key, BlobOf(data)) == SignatureOf(data)
  }

  datatype Preparation =
    | Unchanged
    | PersistMetadata(blob: Bytes)
    | RotatedTo(blob: Bytes, publicKey: Bytes)
    | FullRingProtected
    | OutputTooSmall
    | PrepareFails

  /** The crate's rotation step into a buffer of `room` octets. */
  function PrepareRotation(lib: Library, ring: Ring, entropy: Bytes, wall: u64, uptime: u64, room: nat): Preparation {
    match lib.plan(ring, entropy, wall, uptime)
    case KeepRing => Unchanged
    case KeepFullRing => FullRingProtected
    case PlanFails => PrepareFails
    case NewMetadata(m) =>
      var blob := lib.ringBlob(Ring(ring.keys, m));
      if |blob| > room then OutputTooSmall else PersistMetadata(blob)
    case Rotate(m) =>
      var blob := lib.ringBlob(Rotated(lib, ring, entropy, m));
      if |blob| > room then OutputTooSmall else RotatedTo(blob, lib.publicKey(entropy))
  }

  function PrepareRingSpec(lib: Library, s: Live, entropy: Bytes, wall: u64, uptimeMs: u64, capacity: nat): Outcome {
    if s.identity.None? then Outcome(s, Refused(ErrNotReady))
    else
      var c := s.(pendingRing := None);
      if capacity < SIGNATURE_LENGTH then Outcome(c, Refused(ErrCapacity))
      else
        var prepared := PrepareRotation(lib, s.ring, entropy, wall, uptimeMs / 1000, capacity - SIGNATURE_LENGTH);
        match prepared
        case OutputTooSmall => Outcome(c, Refused(ErrCapacity))
        case PrepareFails => Outcome(c, Refused(ErrInternal))
        case RotatedTo(blob, key) => Offered(lib, c, ROTATED, blob, key)
        case PersistMetadata(blob) =>
          if s.ring.keys == [] then Outcome(c, Refused(ErrInternal))
          else Offered(lib, c, PERSIST_METADATA, blob, Current(lib, s.ring).value)
        case Unchanged => Kept(lib, c, UNCHANGED)
        case FullRingProtected => Kept(lib, c, FULL_RING_PROTECTED)
  }

  /** Nothing to persist: the reply names the key already live. */
  function Kept(lib: Library, c: Live, action: nat): Outcome {
    match Current(lib, c.ring)
    case None => Outcome(c, Refused(ErrInternal))
    case Some(key) => Outcome(c, Reply(StatusOk, [], action, key, 0))
  }

  /** A signed candidate leaves the context with its digest pending. */
  function Offered(lib: Library, c: Live, action: nat, blob: Bytes, key: Bytes): Outcome
    requires c.identity.Some?
  {
    Outcome(c.(pendingRing := Some(lib.digest(blob))), Reply(StatusOk, Signed(lib, c.identity.value, blob), action, key, 0))
  }

  function CommitRingSpec(lib: Library, s: Live, data: Bytes): Outcome {
    if |data| < SIGNATURE_LENGTH then Outcome(s, Refused(ErrInvalidArg))
    else if s.identity.None? then Outcome(s, Refused(ErrNotReady))
    else if !SignedBy(lib, s.identity.value, data) then Outcome(s, Refused(ErrCrypto))
    else if s.pendingRing != Some(lib.digest(BlobOf(data))) then Outcome(s, Refused(ErrInvalidArg))
    else
      match lib.ringOf(BlobOf(data))
      case None => Outcome(s, Refused(ErrInvalidArg))
      case Some(ring) =>
        if !lib.acceptsRing(s.ring, ring) then Outcome(s, Refused(ErrInvalidArg))
        else
          var c := s.(ring := ring, pendingRing := None);
          match Current(lib, ring)
          case None => Outcome(c, Refused(ErrInternal))
          case Some(key) => Outcome(c, Reply(StatusOk, [], 0, key, 0))
  }

  function SeedRingSpec(lib: Library, s: Live, data: Bytes): Outcome {
    if |data| < SIGNATURE_LENGTH then Outcome(s, Refused(ErrInvalidArg))
    else if s.identity.None? then Outcome(s, Refused(ErrNotReady))
    else if !SignedBy(lib, s.identity.value, data) then Outcome(s, Refused(ErrCrypto))
    else
      match lib.ringOf(BlobOf(data))
      case None => Outcome(s, Refused(ErrInvalidArg))
      case Some(ring) => Outcome(s.(ring := ring, pendingRing := None), Refused(StatusOk))
  }

  function ExportRingSpec(lib: Library, s: Live, capacity: nat): Reply {
    if s.identity.None? then Refused(ErrNotReady)
    else if capacity < SIGNATURE_LENGTH || |lib.ringBlob(s.ring)| > capacity - SIGNATURE_LENGTH then Refused(ErrCapacity)
    else Reply(StatusOk, Signed(lib, s.identity.value, lib.ringBlob(s.ring)), 0, [], 0)
  }

  datatype Successor = NextOrder(order: u64) | NotAdvanced | Exhausted

  /** Wall time verbatim when it advances, else nothing; without wall time the successor. Forty bits. */
  function PrepareNext(lib: Library, last: Option<u64>, wall: Option<u64>): Successor {
    match wall
    case Some(w) =>
      if w >= ORDER_LIMIT then Exhausted
      else if last.Some? && w <= last.value then NotAdvanced
      else NextOrder(w)
    case None =>
      if last.None? then NextOrder(lib.firstOrder)
      else if last.value + 1 >= ORDER_LIMIT then Exhausted
      else NextOrder(last.value + 1)
  }

  function LastValue(order: Option<u64>): u64 {
    match order
    case None => 0
    case Some(v) => v
  }

  function PrepareOrderSpec(lib: Library, s: Live, wall: u64, capacity: nat): Outcome {
    if capacity < ORDER_DATA_LENGTH then Outcome(s, Refused(ErrCapacity))
    else if s.identity.None? then Outcome(s, Refused(ErrNotReady))
    else
      var c := s.(pendingOrder := None);
      match PrepareNext(lib, s.order, if wall == 0 then None else Some(wall))
      case Exhausted => Outcome(c, Refused(ErrCapacity))
      case NotAdvanced => Outcome(c, Reply(StatusOk, [], 0, [], LastValue(s.order)))
      case NextOrder(v) =>
        var blob := lib.orderBlob(Some(v));
        Outcome(c.(pendingOrder := Some(lib.digest(blob))), Reply(StatusOk, Signed(lib, s.identity.value, blob), 1, [], v))
  }

  function CommitOrderSpec(lib: Library, s: Live, data: Bytes): Outcome {
    if |data| != ORDER_DATA_LENGTH then Outcome(s, Refused(ErrInvalidArg))
    else if s.identity.None? then Outcome(s, Refused(ErrNotReady))
    else if !SignedBy(lib, s.identity.value, data) then Outcome(s, Refused(ErrCrypto))
    else if s.pendingOrder != Some(lib.digest(BlobOf(data))) then Outcome(s, Refused(ErrInvalidArg))
    else
      match lib.orderOf(BlobOf(data))
      case None => Outcome(s, Refused(ErrInvalidArg))
      case Some(order) =>
        if order.None? || !lib.acceptsOrder(s.order, order) then Outcome(s, Refused(ErrInvalidArg))
        else Outcome(s.(order := order, pendingOrder := None), Reply(StatusOk, [], 0, [], order.value))
  }

  function SeedOrderSpec(lib: Library, s: Live, data: Bytes): Outcome {
    if |data| != ORDER_DATA_LENGTH then Outcome(s, Refused(ErrInvalidArg))
    else if s.identity.None? then Outcome(s, Refused(ErrNotReady))
    else if !SignedBy(lib, s.identity.value, data) then Outcome(s, Refused(ErrCrypto))
    else
      match lib.orderOf(BlobOf(data))
      case None => Outcome(s, Refused(ErrInvalidArg))
      case Some(order) => Outcome(s.(order := order, pendingOrder := None), Refused(StatusOk))
  }

  function ExportOrderSpec(lib: Library, s: Live, capacity: nat): Reply {
    if capacity < ORDER_DATA_LENGTH then Refused(ErrCapacity)
    else if s.identity.None? then Refused(ErrNotReady)
    else Reply(StatusOk, Signed(lib, s.identity.value, lib.orderBlob(s.order)), 0, [], 0)
  }

  /** Loading any identity, even the same one again, starts from nothing. */
  function LoadSpec(key: Bytes): Live {
    Live(Some(key), EMPTY_RING, None, None, None)
  }

  predicate Advertisable(lib: Library, s: Live, order: u64, ratchet: Bytes) {
    s.order == Some(order) && Current(lib, s.ring) == Some(ratchet)
  }

  function RandomHash(seed: Bytes, order: u64): Bytes {
    seed + ToBigEndian(order, 5)
  }

  function AnnounceSpec(lib: Library, s: Live, seed: Bytes, order: u64, ratchet: Option<Bytes>, app: Bytes, capacity: nat): Reply {
    if |app| > MAX_APP_DATA then Refused(ErrCapacity)
    else if s.identity.None? then Refused(ErrNotReady)
    else if ratchet.Some? && !Advertisable(lib, s, order, ratchet.value) then Refused(ErrNotReady)
    else
      match lib.build(s.identity.value, RandomHash(seed, order), ratchet, app, capacity)
      case Built(payload) => Reply(StatusOk, payload, 0, lib.destination(s.identity.value), 0)
      case BuiltTooSmall => Refused(ErrCapacity)
      case BuildFails => Refused(ErrInternal)
  }

  // ---- The context ---------------------------------------------------------------------------

  class Context {
    const lib: Library
    var identity: Option<Bytes>
    var ring: Ring
    var order: Option<u64>
    var pendingRing: Option<Bytes>
    var pendingOrder: Option<Bytes>

    ghost function State(): Live
      reads this
    {
      Live(identity, ring, order, pendingRing, pendingOrder)
    }

    constructor (lib: Library)
      ensures this.lib == lib && State() == FRESH
      ensures identity == None && ring == Ring([], []) && order == None && pendingRing == pendingOrder == None
    {
      this.lib := lib;
      identity, ring, order := None, EMPTY_RING, None;
      pendingRing, pendingOrder := None, None;
    }

    method LoadIdentity(key: Bytes) returns (status: Status)
      modifies this
      ensures State() == LoadSpec(key) && status == StatusOk
      ensures identity == Some(key) && ring == Ring([], []) && order == None && pendingRing == pendingOrder == None
    {
      ring := EMPTY_RING;
      order := None;
      pendingRing := None;
      pendingOrder := None;
      identity := Some(key);
      status := StatusOk;
    }

    /** Writes a signed candidate into the caller's buffer; the ring itself is not touched. */
    method RatchetPrepare(entropy: Bytes, wall: u64, uptimeMs: u64, out: array<byte>)
      returns (status: Status, length: nat, action: nat, current: Bytes)
      requires Laws(lib)
      modifies this, out
      ensures var o := PrepareRingSpec(lib, old(State()), entropy, wall, uptimeMs, out.Length);
              && State() == o.live && status == o.reply.status
              && (status == StatusOk ==> action == o.reply.action && current == o.reply.key)
              && (status == StatusOk ==> length == |o.reply.data| <= out.Length && out[..length] == o.reply.data)
    {
      length, action, current := 0, 0, [];
      if identity.None? {
        return ErrNotReady, length, action, current;
      }
      pendingRing := None;
      if out.Length < SIGNATURE_LENGTH {
        return ErrCapacity, length, action, current;
      }
      var prepared := PrepareRotation(lib, ring, entropy, wall, uptimeMs / 1000, out.Length - SIGNATURE_LENGTH);
      if prepared.OutputTooSmall? {
        return ErrCapacity, length, action, current;
      }
      if prepared.PrepareFails? {
        return ErrInternal, length, action, current;
      }
      var candidate := if prepared.RotatedTo? then Some(prepared.publicKey) else Current(lib, ring);
      if candidate.None? {
        return ErrInternal, length, action, current;
      }
      current := candidate.value;
      status := StatusOk;
      match prepared
      case Unchanged => action := UNCHANGED;
      case FullRingProtected => action := FULL_RING_PROTECTED;
      case PersistMetadata(blob) =>
        action := PERSIST_METADATA;
        length := Sign(blob, out);
        pendingRing := Some(lib.digest(blob));
      case RotatedTo(blob, _) =>
        action := ROTATED;
        length := Sign(blob, out);
        pendingRing := Some(lib.digest(blob));
    }

    /** Puts a blob and its signature at the front of the buffer. */
    method Sign(blob: Bytes, out: array<byte>) returns (length: nat)
      requires Laws(lib) && identity.Some? && |blob| + SIGNATURE_LENGTH <= out.Length
      modifies out
      ensures length == |Signed(lib, identity.value, blob)| <= out.Length
      ensures out[..length] == Signed(lib, identity.value, blob)
    {
      var signature := lib.sign(identity.value, blob);
      CopyInto(out, 0, blob);
      assert out[..|blob|] == blob;
      CopyInto(out, |blob|, signature);
      length := |blob| + |signature|;
    }

    method RatchetCommit(data: Bytes) returns (status: Status, current: Bytes)
      modifies this
      ensures var o := CommitRingSpec(lib, old(State()), data);
              State() == o.live && status == o.reply.status && current == o.reply.key
    {
      current := [];
      if |data| < SIGNATURE_LENGTH {
        return ErrInvalidArg, current;
      }
      if identity.None? {
        return ErrNotReady, current;
      }
      var blob := BlobOf(data);
      if lib.sign(identity.value, blob) != SignatureOf(data) {
        return ErrCrypto, current;
      }
      if pendingRing != Some(lib.digest(blob)) {
        return ErrInvalidArg, current;
      }
      var parsed := lib.ringOf(blob);
      if parsed.None? || !lib.acceptsRing(ring, parsed.value) {
        return ErrInvalidArg, current;
      }
      ring := parsed.value;
      pendingRing := None;
      var candidate := Current(lib, ring);
      if candidate.None? {
        return ErrInternal, current;
      }
      return StatusOk, candidate.value;
    }

    method RatchetSeed(data: Bytes) returns (status: Status)
      modifies this
      ensures var o := SeedRingSpec(lib, old(State()), data); State() == o.live && status == o.reply.status
    {
      if |data| < SIGNATURE_LENGTH {
        return ErrInvalidArg;
      }
      if identity.None? {
        return ErrNotReady;
      }
      var blob := BlobOf(data);
      if lib.sign(identity.value, blob) != SignatureOf(data) {
        return ErrCrypto;
      }
      var parsed := lib.ringOf(blob);
      if parsed.None? {
        return ErrInvalidArg;
      }
      ring := parsed.value;
      pendingRing := None;
      status := StatusOk;
    }

    method RatchetExport(out: array<byte>) returns (status: Status, length: nat)
      requires Laws(lib)
      modifies out
      ensures var r := ExportRingSpec(lib, State(), out.Length);
              && status == r.status
              && (status == StatusOk ==> length == |r.data| <= out.Length && out[..length] == r.data)
    {
      length := 0;
      if identity.None? {
        return ErrNotReady, length;
      }
      if out.Length < SIGNATURE_LENGTH {
        return ErrCapacity, length;
      }
      var blob := lib.ringBlob(ring);
      if |blob| > out.Length - SIGNATURE_LENGTH {
        return ErrCapacity, length;
      }
      length := Sign(blob, out);
      status := StatusOk;
    }

    method OrderPrepare(wall: u64, out: array<byte>) returns (status: Status, length: nat, value: u64, ready: nat)
      requires Laws(lib)
      modifies this, out
      ensures var o := PrepareOrderSpec(lib, old(State()), wall, out.Length);
              && State() == o.live && status == o.reply.status
              && (status == StatusOk ==> value == o.reply.value && ready == o.reply.action)
              && (status == StatusOk ==> length == |o.reply.data| <= out.Length && out[..length] == o.reply.data)
    {
      length, value, ready := 0, 0, 0;
      if out.Length < ORDER_DATA_LENGTH {
        return ErrCapacity, length, value, ready;
      }
      if identity.None? {
        return ErrNotReady, length, value, ready;
      }
      pendingOrder := None;
      match PrepareNext(lib, order, if wall == 0 then None else Some(wall))
      case Exhausted =>
        return ErrCapacity, length, value, ready;
      case NotAdvanced =>
        value := LastValue(order);
        status := StatusOk;
      case NextOrder(v) =>
        var blob := lib.orderBlob(Some(v));
        length := Sign(blob, out);
        pendingOrder := Some(lib.digest(blob));
        value := v;
        ready := 1;
        status := StatusOk;
    }

    method OrderCommit(data: Bytes) returns (status: Status, value: u64)
      modifies this
      ensures var o := CommitOrderSpec(lib, old(State()), data);
              State() == o.live && status == o.reply.status && value == o.reply.value
    {
      value := 0;
      if |data| != ORDER_DATA_LENGTH {
        return ErrInvalidArg, value;
      }
      if identity.None? {
        return ErrNotReady, value;
      }
      var blob := BlobOf(data);
      if lib.sign(identity.value, blob) != SignatureOf(data) {
        return ErrCrypto, value;
      }
      if pendingOrder != Some(lib.digest(blob)) {
        return ErrInvalidArg, value;
      }
      var candidate := lib.orderOf(blob);
      if candidate.None? || candidate.value.None? || !lib.acceptsOrder(order, candidate.value) {
        return ErrInvalidArg, value;
      }
      order := candidate.value;
      pendingOrder := None;
      return StatusOk, order.value;
    }

    method OrderSeed(data: Bytes) returns (status: Status)
      modifies this
      ensures var o := SeedOrderSpec(lib, old(State()), data); State() == o.live && status == o.reply.status
    {
      if |data| != ORDER_DATA_LENGTH {
        return ErrInvalidArg;
      }
      if identity.None? {
        return ErrNotReady;
      }
      var blob := BlobOf(data);
      if lib.sign(identity.value, blob) != SignatureOf(data) {
        return ErrCrypto;
      }
      var state := lib.orderOf(blob);
      if state.None? {
        return ErrInvalidArg;
      }
      order := state.value;
      pendingOrder := None;
      status := StatusOk;
    }

    method OrderExport(out: array<byte>) returns (status: Status, length: nat)
      requires Laws(lib) && OrderFits(order)
      modifies out
      ensures var r := ExportOrderSpec(lib, State(), out.Length);
              && status == r.status
              && (status == StatusOk ==> length == |r.data| <= out.Length && out[..length] == r.data)
    {
      length := 0;
      if out.Length < ORDER_DATA_LENGTH {
        return ErrCapacity, length;
      }
      if identity.None? {
        return ErrNotReady, length;
      }
      length := Sign(lib.orderBlob(order), out);
      status := StatusOk;
    }

    /** Builds an announce, with a ratchet only for the very order and key that were committed, and names its destination. */
    method MakeAnnounce(seed: Bytes, announceOrder: u64, ratchet: Option<Bytes>, app: Bytes, capacity: nat)
      returns (status: Status, payload: Bytes, destination: Bytes)
      ensures var r := AnnounceSpec(lib, State(), seed, announceOrder, ratchet, app, capacity);
              status == r.status && payload == r.data && destination == r.key
    {
      payload, destination := [], [];
      if |app| > MAX_APP_DATA {
        return ErrCapacity, payload, destination;
      }
      if identity.None? {
        return ErrNotReady, payload, destination;
      }
      if ratchet.Some? {
        if order != Some(announceOrder) || Current(lib, ring) != Some(ratchet.value) {
          return ErrNotReady, payload, destination;
        }
      }
      match lib.build(identity.value, RandomHash(seed, announceOrder), ratchet, app, capacity)
      case Built(made) => return StatusOk, made, lib.destination(identity.value);
      case BuiltTooSmall => return ErrCapacity, payload, destination;
      case BuildFails => return ErrInternal, payload, destination;
    }
  }
}
