/** Sequences of calls on one context: what is pending, what a commit takes and what refusals leave alone. */
module AnnounceTransactions {
  import opened Bytes
  import opened Announce

  datatype Call =
    | Load(key: Bytes)
    | PrepareRing(entropy: Bytes, wall: u64, uptimeMs: u64, capacity: nat)
    | CommitRing(data: Bytes)
    | SeedRing(data: Bytes)
    | PrepareOrder(wall: u64, capacity: nat)
    | CommitOrder(data: Bytes)
    | SeedOrder(data: Bytes)
    | ExportRing(capacity: nat)
    | ExportOrder(capacity: nat)
    | MakeAnnounce(seed: Bytes, order: u64, ratchet: Option<Bytes>, app: Bytes, capacity: nat)

  function Do(lib: Library, s: Live, c: Call): Outcome {
    match c
    case Load(key) => Outcome(LoadSpec(key), Refused(StatusOk))
    case PrepareRing(entropy, wall, uptimeMs, capacity) => PrepareRingSpec(lib, s, entropy, wall, uptimeMs, capacity)
    case CommitRing(data) => CommitRingSpec(lib, s, data)
    case SeedRing(data) => SeedRingSpec(lib, s, data)
    case PrepareOrder(wall, capacity) => PrepareOrderSpec(lib, s, wall, capacity)
    case CommitOrder(data) => CommitOrderSpec(lib, s, data)
    case SeedOrder(data) => SeedOrderSpec(lib, s, data)
    case ExportRing(capacity) => Outcome(s, ExportRingSpec(lib, s, capacity))
    case ExportOrder(capacity) => Outcome(s, ExportOrderSpec(lib, s, capacity))
    case MakeAnnounce(seed, order, ratchet, app, capacity) => Outcome(s, AnnounceSpec(lib, s, seed, order, ratchet, app, capacity))
  }

  /** Octets a prepare call returned, and what was live at that moment. */
  datatype Offer<T> = Offer(data: Bytes, was: T)

  /** The latest offer of each kind that no later call has withdrawn or used up. */
  datatype Trail = Trail(ring: Option<Offer<Ring>>, order: Option<Offer<Option<u64>>>)

  const NO_TRAIL := Trail(None, None)

  function Renewed<T>(was: Option<Offer<T>>, live: T, identity: Option<Bytes>, data: Bytes): Option<Offer<T>> {
    if identity.None? then was else if data == [] then None else Some(Offer(data, live))
  }

  function Follow(lib: Library, s: Live, t: Trail, c: Call): Trail {
    var r := Do(lib, s, c).reply;
    match c
    case Load(_) => NO_TRAIL
    case PrepareRing(_, _, _, _) => t.(ring := Renewed(t.ring, s.ring, s.identity, r.data))
    case PrepareOrder(_, capacity) =>
      t.(order := if capacity < ORDER_DATA_LENGTH then t.order else Renewed(t.order, s.order, s.identity, r.data))
    case CommitRing(_) => if r.status == StatusOk then t.(ring := None) else t
    case SeedRing(_) => if r.status == StatusOk then t.(ring := None) else t
    case CommitOrder(_) => if r.status == StatusOk then t.(order := None) else t
    case SeedOrder(_) => if r.status == StatusOk then t.(order := None) else t
    case _ => t
  }

  datatype History = History(live: Live, trail: Trail)

  function After(lib: Library, calls: seq<Call>): History {
    if calls == [] then History(FRESH, NO_TRAIL)
    else
      var h, c := After(lib, calls[..|calls| - 1]), calls[|calls| - 1];
      History(Do(lib, h.live, c).live, Follow(lib, h.live, h.trail, c))
  }

  // ---- The invariant -------------------------------------------------------------------------

  /** `data` is a signed ring of `key` that has a key to advertise. */
  predicate RingOffer(lib: Library, key: Bytes, data: Bytes) {
    && |data| >= SIGNATURE_LENGTH
    && data == Signed(lib, key, BlobOf(data))
    && lib.ringOf(BlobOf(data)).Some?
    && lib.ringOf(BlobOf(data)).value.keys != []
  }

  predicate OrderOffer(lib: Library, key: Bytes, data: Bytes) {
    && |data| == ORDER_DATA_LENGTH
    && data == Signed(lib, key, BlobOf(data))
    && lib.orderOf(BlobOf(data)).Some?
    && lib.orderOf(BlobOf(data)).value.Some?
  }

  /** A digest is pending exactly while an offer stands, and then nothing live has changed since. */
  predicate RingTracked(lib: Library, s: Live, t: Trail) {
    && (s.pendingRing.Some? <==> t.ring.Some?)
    && (t.ring.Some? ==>
          && s.identity.Some? && RingOffer(lib, s.identity.value, t.ring.value.data)
          && s.pendingRing == Some(lib.digest(BlobOf(t.ring.value.data)))
          && t.ring.value.was == s.ring)
  }

  predicate OrderTracked(lib: Library, s: Live, t: Trail) {
    && (s.pendingOrder.Some? <==> t.order.Some?)
    && (t.order.Some? ==>
          && s.identity.Some? && OrderOffer(lib, s.identity.value, t.order.value.data)
          && s.pendingOrder == Some(lib.digest(BlobOf(t.order.value.data)))
          && t.order.value.was == s.order)
  }

  lemma SignedParts(lib: Library, key: Bytes, blob: Bytes)
    requires Laws(lib)
    ensures var data := Signed(lib, key, blob);
            |data| == |blob| + SIGNATURE_LENGTH && BlobOf(data) == blob && SignatureOf(data) == lib.sign(key, blob)
  {
    assert |lib.sign(key, blob)| == SIGNATURE_LENGTH;
  }

  /** The signature check passes only on octets that are a blob and its own signature. */
  lemma SignedByMeans(lib: Library, key: Bytes, data: Bytes)
    requires Laws(lib) && |data| >= SIGNATURE_LENGTH
    ensures SignedBy(lib, key, data) <==> data == Signed(lib, key, BlobOf(data))
  {
    assert data == BlobOf(data) + SignatureOf(data);
    SignedParts(lib, key, BlobOf(data));
  }

  /** What a ring prepare offers is a signed candidate, with a key, kept in front of the live one. */
  lemma PrepareOffers(lib: Library, s: Live, entropy: Bytes, wall: u64, uptimeMs: u64, capacity: nat)
    requires Laws(lib) && lib.ringFits(s.ring)
    ensures var o := PrepareRingSpec(lib, s, entropy, wall, uptimeMs, capacity);
            && o.live.ring == s.ring && o.live.order == s.order && o.live.identity == s.identity
            && o.live.pendingOrder == s.pendingOrder
            && (o.reply.data != [] ==>
                  && s.identity.Some? && RingOffer(lib, s.identity.value, o.reply.data)
                  && o.reply.status == StatusOk
                  && o.live.pendingRing == Some(lib.digest(BlobOf(o.reply.data)))
                  && Current(lib, lib.ringOf(BlobOf(o.reply.data)).value) == Some(o.reply.key)
                  && Keeps(s.ring, lib.ringOf(BlobOf(o.reply.data)).value))
            && (o.reply.data == [] && s.identity.Some? ==> o.live.pendingRing == None)
            && (o.reply.data == [] && o.reply.status == StatusOk ==> Current(lib, s.ring) == Some(o.reply.key))
  {
    hide Laws, Signed, Current, RingOffer, Keeps;
    if s.identity.Some? && capacity >= SIGNATURE_LENGTH {
      match PrepareRotation(lib, s.ring, entropy, wall, uptimeMs / 1000, capacity - SIGNATURE_LENGTH)
      case RotatedTo(blob, key) =>
        var m := lib.plan(s.ring, entropy, wall, uptimeMs / 1000).metadata;
        PlannedFits(lib, s.ring, entropy, wall, uptimeMs / 1000);
        RotatedKeeps(lib, s.ring, entropy, m);
        CandidateIsOffer(lib, s.identity.value, Rotated(lib, s.ring, entropy, m));
      case PersistMetadata(blob) =>
        var m := lib.plan(s.ring, entropy, wall, uptimeMs / 1000).metadata;
        PlannedFits(lib, s.ring, entropy, wall, uptimeMs / 1000);
        if s.ring.keys != [] {
          CandidateIsOffer(lib, s.identity.value, Ring(s.ring.keys, m));
          MetadataKeeps(lib, s.ring, m);
        }
      case _ =>
    }
  }

  lemma PlannedFits(lib: Library, ring: Ring, entropy: Bytes, wall: u64, uptime: u64)
    requires Laws(lib) && lib.ringFits(ring)
    ensures PlanFits(lib, ring, entropy, lib.plan(ring, entropy, wall, uptime))
  {
  }

  /** The key now live is among the candidate's. */
  predicate Keeps(live: Ring, candidate: Ring) {
    live.keys != [] ==> live.keys[0] in candidate.keys
  }

  lemma RotatedKeeps(lib: Library, ring: Ring, key: Bytes, metadata: Bytes)
    requires Laws(lib)
    ensures var r := Rotated(lib, ring, key, metadata);
            r.keys != [] && Keeps(ring, r) && Current(lib, r) == Some(lib.publicKey(key))
  {
    var r := Rotated(lib, ring, key, metadata);
    assert ring.keys != [] ==> r.keys[1] == ring.keys[0];
  }

  lemma MetadataKeeps(lib: Library, ring: Ring, metadata: Bytes)
    ensures ring.keys != [] ==> Current(lib, ring).Some?
    ensures Keeps(ring, Ring(ring.keys, metadata)) && Current(lib, Ring(ring.keys, metadata)) == Current(lib, ring)
  {
  }

  lemma CandidateIsOffer(lib: Library, key: Bytes, ring: Ring)
    requires Laws(lib) && lib.ringFits(ring) && ring.keys != []
    ensures var data := Signed(lib, key, lib.ringBlob(ring));
            && RingOffer(lib, key, data) && BlobOf(data) == lib.ringBlob(ring)
            && lib.ringOf(BlobOf(data)) == Some(ring) && data != []
  {
    SignedParts(lib, key, lib.ringBlob(ring));
    assert lib.ringOf(lib.ringBlob(ring)) == Some(ring);
  }

  lemma OrderIsOffer(lib: Library, key: Bytes, value: u64)
    requires Laws(lib) && value < ORDER_LIMIT
    ensures var data := Signed(lib, key, lib.orderBlob(Some(value)));
            && OrderOffer(lib, key, data) && BlobOf(data) == lib.orderBlob(Some(value))
            && lib.orderOf(BlobOf(data)) == Some(Some(value)) && data != []
  {
    SignedParts(lib, key, lib.orderBlob(Some(value)));
    assert lib.orderOf(lib.orderBlob(Some(value))) == Some(Some(value));
    assert |lib.orderBlob(Some(value))| == ORDER_BLOB_LENGTH;
  }

  /** What an order prepare offers is a signed successor of the live order. */
  lemma PrepareOrderOffers(lib: Library, s: Live, wall: u64, capacity: nat)
    requires Laws(lib)
    ensures var o := PrepareOrderSpec(lib, s, wall, capacity);
            && o.live.ring == s.ring && o.live.order == s.order && o.live.identity == s.identity
            && o.live.pendingRing == s.pendingRing
            && (o.reply.data != [] ==>
                  && s.identity.Some? && OrderOffer(lib, s.identity.value, o.reply.data)
                  && o.reply.status == StatusOk
                  && o.live.pendingOrder == Some(lib.digest(BlobOf(o.reply.data)))
                  && lib.orderOf(BlobOf(o.reply.data)) == Some(Some(o.reply.value))
                  && (s.order.Some? ==> s.order.value < o.reply.value))
            && (o.reply.data == [] && s.identity.Some? && capacity >= ORDER_DATA_LENGTH ==> o.live.pendingOrder == None)
            && (capacity < ORDER_DATA_LENGTH || s.identity.None? ==> o.live == s && o.reply.data == [])
  {
    hide Laws, Signed, OrderOffer;
    if s.identity.Some? && capacity >= ORDER_DATA_LENGTH {
      match PrepareNext(lib, s.order, if wall == 0 then None else Some(wall))
      case NextOrder(v) =>
        NextFits(lib, s.order, if wall == 0 then None else Some(wall));
        OrderIsOffer(lib, s.identity.value, v);
      case _ =>
    }
  }

  lemma NextFits(lib: Library, last: Option<u64>, wall: Option<u64>)
    requires Laws(lib)
    ensures PrepareNext(lib, last, wall).NextOrder? ==> PrepareNext(lib, last, wall).order < ORDER_LIMIT
  {
  }

  /** No call leaves a ring or an order that the crates cannot hold. */
  lemma LiveStaysFit(lib: Library, s: Live, c: Call)
    requires Laws(lib) && LiveFits(lib, s)
    ensures LiveFits(lib, Do(lib, s, c).live)
  {
    hide PrepareRingSpec, PrepareOrderSpec, AnnounceSpec;
    match c
    case PrepareRing(entropy, wall, uptimeMs, capacity) => PrepareOffers(lib, s, entropy, wall, uptimeMs, capacity);
    case PrepareOrder(wall, capacity) => PrepareOrderOffers(lib, s, wall, capacity);
    case _ =>
  }

  lemma RingStep(lib: Library, s: Live, t: Trail, c: Call)
    requires Laws(lib) && LiveFits(lib, s) && RingTracked(lib, s, t)
    ensures RingTracked(lib, Do(lib, s, c).live, Follow(lib, s, t, c))
  {
    hide Laws, PrepareRingSpec, PrepareOrderSpec, RingOffer, AnnounceSpec;
    match c
    case PrepareRing(entropy, wall, uptimeMs, capacity) =>
      PrepareOffers(lib, s, entropy, wall, uptimeMs, capacity);
      NotReadyKeeps(lib, s, entropy, wall, uptimeMs, capacity);
    case PrepareOrder(wall, capacity) =>
      PrepareOrderOffers(lib, s, wall, capacity);
    case CommitRing(data) =>
      CommitNeedsOffer(lib, s, t, data);
    case _ =>
  }

  lemma NotReadyKeeps(lib: Library, s: Live, entropy: Bytes, wall: u64, uptimeMs: u64, capacity: nat)
    ensures s.identity.None? ==> PrepareRingSpec(lib, s, entropy, wall, uptimeMs, capacity) == Outcome(s, Refused(ErrNotReady))
  {
  }

  lemma OrderStep(lib: Library, s: Live, t: Trail, c: Call)
    requires Laws(lib) && LiveFits(lib, s) && OrderTracked(lib, s, t)
    ensures OrderTracked(lib, Do(lib, s, c).live, Follow(lib, s, t, c))
  {
    hide Laws, PrepareRingSpec, PrepareOrderSpec, OrderOffer, AnnounceSpec;
    match c
    case PrepareRing(entropy, wall, uptimeMs, capacity) =>
      PrepareOffers(lib, s, entropy, wall, uptimeMs, capacity);
    case PrepareOrder(wall, capacity) =>
      PrepareOrderOffers(lib, s, wall, capacity);
    case _ =>
  }

  /** The ring crate takes the candidate in `data`. */
  predicate RingTakes(lib: Library, s: Live, data: Bytes) {
    |data| >= SIGNATURE_LENGTH && lib.ringOf(BlobOf(data)).Some? && lib.acceptsRing(s.ring, lib.ringOf(BlobOf(data)).value)
  }

  predicate OrderTakes(lib: Library, s: Live, data: Bytes) {
    |data| >= SIGNATURE_LENGTH && lib.orderOf(BlobOf(data)).Some? && lib.acceptsOrder(s.order, lib.orderOf(BlobOf(data)).value)
  }

  /** While an offer stands, a ring commit succeeds on exactly its octets, if the ring takes them. */
  lemma CommitNeedsOffer(lib: Library, s: Live, t: Trail, data: Bytes)
    requires Laws(lib) && RingTracked(lib, s, t)
    ensures var o := CommitRingSpec(lib, s, data);
            && (o.reply.status == StatusOk <==>
                  && t.ring.Some? && data == t.ring.value.data && RingTakes(lib, s, data))
            && (o.reply.status == StatusOk ==> o.live == s.(ring := lib.ringOf(BlobOf(data)).value, pendingRing := None))
            && (o.reply.status != StatusOk ==> o.live == s)
  {
    hide Signed;
    if s.identity.Some? && |data| >= SIGNATURE_LENGTH {
      SignedByMeans(lib, s.identity.value, data);
      if t.ring.Some? {
        var offered := t.ring.value.data;
        SignedByMeans(lib, s.identity.value, offered);
        assert lib.digest(BlobOf(offered)) == lib.digest(BlobOf(data)) ==> BlobOf(offered) == BlobOf(data);
      }
    }
  }

  lemma CommitOrderNeedsOffer(lib: Library, s: Live, t: Trail, data: Bytes)
    requires Laws(lib) && OrderTracked(lib, s, t)
    ensures var o := CommitOrderSpec(lib, s, data);
            && (o.reply.status == StatusOk <==>
                  && t.order.Some? && data == t.order.value.data && OrderTakes(lib, s, data))
            && (o.reply.status == StatusOk ==> o.live == s.(order := lib.orderOf(BlobOf(data)).value, pendingOrder := None))
            && (o.reply.status != StatusOk ==> o.live == s)
  {
    hide Signed;
    if s.identity.Some? && |data| == ORDER_DATA_LENGTH {
      SignedByMeans(lib, s.identity.value, data);
      if t.order.Some? {
        var offered := t.order.value.data;
        SignedByMeans(lib, s.identity.value, offered);
        assert lib.digest(BlobOf(offered)) == lib.digest(BlobOf(data)) ==> BlobOf(offered) == BlobOf(data);
      }
    }
  }

  // ---- Every sequence of calls ---------------------------------------------------------------

  /** After any calls whatever: a live pending digest means live state unchanged since that prepare. */
  lemma {:induction false} PendingMeansUntouched(lib: Library, calls: seq<Call>)
    requires Laws(lib)
    ensures LiveFits(lib, After(lib, calls).live)
    ensures RingTracked(lib, After(lib, calls).live, After(lib, calls).trail)
    ensures OrderTracked(lib, After(lib, calls).live, After(lib, calls).trail)
  {
    hide Laws, Do, Follow, RingTracked, OrderTracked, LiveFits;
    if calls == [] {
      NothingTracked(lib);
    } else {
      var h, c := After(lib, calls[..|calls| - 1]), calls[|calls| - 1];
      PendingMeansUntouched(lib, calls[..|calls| - 1]);
      LiveStaysFit(lib, h.live, c);
      RingStep(lib, h.live, h.trail, c);
      OrderStep(lib, h.live, h.trail, c);
    }
  }

  lemma NothingTracked(lib: Library)
    requires Laws(lib)
    ensures LiveFits(lib, FRESH)
    ensures RingTracked(lib, FRESH, NO_TRAIL) && OrderTracked(lib, FRESH, NO_TRAIL)
  {
  }

  /** A ring commit succeeds exactly on the octets of the one standing offer, when the ring takes them. */
  lemma CommitTakesOnlyTheOffer(lib: Library, calls: seq<Call>, data: Bytes)
    requires Laws(lib)
    ensures var h := After(lib, calls);
            var o := CommitRingSpec(lib, h.live, data);
            o.reply.status == StatusOk <==>
              h.trail.ring.Some? && data == h.trail.ring.value.data && RingTakes(lib, h.live, data)
  {
    hide Laws, After, CommitRingSpec;
    PendingMeansUntouched(lib, calls);
    CommitNeedsOffer(lib, After(lib, calls).live, After(lib, calls).trail, data);
  }

  lemma CommitOrderTakesOnlyTheOffer(lib: Library, calls: seq<Call>, data: Bytes)
    requires Laws(lib)
    ensures var h := After(lib, calls);
            var o := CommitOrderSpec(lib, h.live, data);
            o.reply.status == StatusOk <==>
              h.trail.order.Some? && data == h.trail.order.value.data && OrderTakes(lib, h.live, data)
  {
    hide Laws, After, CommitOrderSpec;
    PendingMeansUntouched(lib, calls);
    CommitOrderNeedsOffer(lib, After(lib, calls).live, After(lib, calls).trail, data);
  }

  /** A refused call leaves ring, order and identity alone; so does every prepare, refused or not. */
  lemma RefusedChangesNothing(lib: Library, calls: seq<Call>, c: Call)
    requires Laws(lib)
    ensures var s := After(lib, calls).live;
            var o := Do(lib, s, c);
            (o.reply.status != StatusOk || c.PrepareRing? || c.PrepareOrder?) ==>
              o.live.ring == s.ring && o.live.order == s.order && o.live.identity == s.identity
  {
    hide Laws, After, CommitRingSpec, PrepareRingSpec, PrepareOrderSpec, AnnounceSpec;
    var s := After(lib, calls).live;
    PendingMeansUntouched(lib, calls);
    match c
    case CommitRing(data) =>
      CommitNeedsOffer(lib, s, After(lib, calls).trail, data);
    case PrepareRing(entropy, wall, uptimeMs, capacity) => PrepareOffers(lib, s, entropy, wall, uptimeMs, capacity);
    case PrepareOrder(wall, capacity) => PrepareOrderOffers(lib, s, wall, capacity);
    case _ =>
  }

  const PRIVATE_KEY_LENGTH: nat := 64

  /** No two private keys make the same signature on a blob. */
  ghost predicate SignaturesDiffer(lib: Library) {
    forall j, k, m :: |j| == |k| == PRIVATE_KEY_LENGTH && lib.sign(j, m) == lib.sign(k, m) ==> j == k
  }

  /** What one identity signed, no other identity's seed or commit accepts, at any point of any run. */
  lemma ForeignBlobIsRefused(lib: Library, calls: seq<Call>, owner: Bytes, blob: Bytes)
    requires Laws(lib) && SignaturesDiffer(lib)
    requires After(lib, calls).live.identity.Some? && After(lib, calls).live.identity.value != owner
    requires |After(lib, calls).live.identity.value| == |owner| == PRIVATE_KEY_LENGTH
    ensures var s := After(lib, calls).live;
            var data := Signed(lib, owner, blob);
            && SeedRingSpec(lib, s, data) == CommitRingSpec(lib, s, data) == Outcome(s, Refused(ErrCrypto))
            && (|blob| == ORDER_BLOB_LENGTH ==>
                  SeedOrderSpec(lib, s, data) == CommitOrderSpec(lib, s, data) == Outcome(s, Refused(ErrCrypto)))
  {
    hide After;
    SignedParts(lib, owner, blob);
  }

  /** Prepare the next order, then commit the octets offered. */
  function OrderTransaction(lib: Library, s: Live, wall: u64, capacity: nat): (Outcome, Outcome) {
    var prepared := PrepareOrderSpec(lib, s, wall, capacity);
    (prepared, CommitOrderSpec(lib, prepared.live, prepared.reply.data))
  }

  /** Prepare the ring; when that offers octets, commit them. */
  function RingTransaction(lib: Library, s: Live, entropy: Bytes, wall: u64, uptimeMs: u64, capacity: nat): (Outcome, Outcome) {
    var prepared := PrepareRingSpec(lib, s, entropy, wall, uptimeMs, capacity);
    (prepared, if prepared.reply.data == [] then prepared else CommitRingSpec(lib, prepared.live, prepared.reply.data))
  }

  /**
   * Both transactions carried through open the gate for exactly the values the prepares reported:
   * afterwards that order and that key are the only pair a ratcheted announce may claim.
   */
  lemma CommittedPairIsAdvertisable(lib: Library, s: Live, wall: u64, capacity: nat, entropy: Bytes, wall': u64, uptimeMs: u64, capacity': nat)
    requires Laws(lib) && LiveFits(lib, s)
    requires OrderTransaction(lib, s, wall, capacity).1.reply.status == StatusOk
    requires RingTransaction(lib, OrderTransaction(lib, s, wall, capacity).1.live, entropy, wall', uptimeMs, capacity').1.reply.status == StatusOk
    ensures var ordered := OrderTransaction(lib, s, wall, capacity);
            var rung := RingTransaction(lib, ordered.1.live, entropy, wall', uptimeMs, capacity');
            forall order, ratchet :: Advertisable(lib, rung.1.live, order, ratchet) <==>
              order == ordered.0.reply.value && ratchet == rung.0.reply.key
  {
    hide Laws, PrepareOrderSpec, PrepareRingSpec, CommitOrderSpec, CommitRingSpec, Current, Signed;
    var p := PrepareOrderSpec(lib, s, wall, capacity);
    PrepareOrderOffers(lib, s, wall, capacity);
    ShortOrder(lib, p.live);
    CommitOrderNeedsOffer(lib, p.live, Trail(None, Some(Offer(p.reply.data, p.live.order))), p.reply.data);
    var ordered := CommitOrderSpec(lib, p.live, p.reply.data).live;
    var q := PrepareRingSpec(lib, ordered, entropy, wall', uptimeMs, capacity');
    PrepareOffers(lib, ordered, entropy, wall', uptimeMs, capacity');
    if q.reply.data != [] {
      CommitNeedsOffer(lib, q.live, Trail(Some(Offer(q.reply.data, q.live.ring)), None), q.reply.data);
    }
  }

  lemma ShortOrder(lib: Library, s: Live)
    ensures CommitOrderSpec(lib, s, []).reply.status != StatusOk
  {
  }

  // ---- Export and the order on the wire ------------------------------------------------------

  /** What export wrote, seeding restores: after a reload of the same identity, ring and order are as they were. */
  lemma ExportedStateRestores(lib: Library, s: Live, capacity: nat)
    requires Laws(lib) && LiveFits(lib, s) && s.identity.Some?
    requires ExportRingSpec(lib, s, capacity).status == ExportOrderSpec(lib, s, capacity).status == StatusOk
    ensures var loaded := LoadSpec(s.identity.value);
            var rung := SeedRingSpec(lib, loaded, ExportRingSpec(lib, s, capacity).data);
            var restored := SeedOrderSpec(lib, rung.live, ExportOrderSpec(lib, s, capacity).data);
            && rung.reply.status == restored.reply.status == StatusOk
            && restored.live == s.(pendingRing := None, pendingOrder := None)
  {
    hide Signed;
    var key := s.identity.value;
    SignedParts(lib, key, lib.ringBlob(s.ring));
    SignedParts(lib, key, lib.orderBlob(s.order));
    assert lib.ringOf(lib.ringBlob(s.ring)) == Some(s.ring);
    assert lib.orderOf(lib.orderBlob(s.order)) == Some(s.order);
    assert |lib.orderBlob(s.order)| == ORDER_BLOB_LENGTH;
  }

  /** The announce's random hash carries every order of forty bits whole, behind its five random octets. */
  lemma OrderIsCarried(seed: Bytes, order: u64)
    requires |seed| == 5 && order < ORDER_LIMIT
    ensures var random := RandomHash(seed, order);
            |random| == 10 && random[..5] == seed && BigEndian(random[5..]) == order
  {
    WidthValues();
    assert Pow256(5) == 256 * Pow256(4);
    BigEndianInverse(order, 5);
    assert RandomHash(seed, order)[5..] == ToBigEndian(order, 5);
  }
}
