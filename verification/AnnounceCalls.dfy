/** What each call on the context does, told by the crates' operations and by the octets that pass in and out. */
module AnnounceCalls {
  import opened Bytes
  import opened Announce
  import opened AnnounceTransactions

  // ---- Announces -----------------------------------------------------------------------------

  /** The order in a random hash is its last five octets. */
  function OrderRead(random: Bytes): nat {
    if |random| < 5 then 0 else BigEndian(random[|random| - 5..])
  }

  /** The gate: a ratcheted announce may claim only the live order and the public half of the newest key. */
  predicate Claimable(lib: Library, s: Live, order: u64, ratchet: Option<Bytes>) {
    ratchet.Some? ==> s.order == Some(order) && s.ring.keys != [] && ratchet.value == lib.publicKey(s.ring.keys[0])
  }

  lemma RandomOctets(seed: Bytes, order: u64)
    ensures var random := RandomHash(seed, order);
            |random| == |seed| + 5 && random[..|seed|] == seed && OrderRead(random) == order % 0x100_0000_0000
  {
    WidthValues();
    assert Pow256(5) == 256 * Pow256(4);
    BigEndianResidue(order, 5);
    assert RandomHash(seed, order)[|seed|..] == ToBigEndian(order, 5);
  }

  /**
   * Whatever announce goes out, receivers read from it the identity's own destination, the caller's
   * random octets followed by the order in forty bits, exactly the ratchet claimed, and the caller's
   * application data; and what it claims passed the gate.
   */
  lemma AnnounceCarries(lib: Library, s: Live, seed: Bytes, order: u64, ratchet: Option<Bytes>, app: Bytes, capacity: nat)
    requires Laws(lib)
    ensures var r := Do(lib, s, MakeAnnounce(seed, order, ratchet, app, capacity)).reply;
            r.status == StatusOk ==>
              && s.identity.Some? && r.key == lib.destination(s.identity.value)
              && Claimable(lib, s, order, ratchet)
              && lib.hear(r.data, ratchet.Some?).Some?
              && var heard := lib.hear(r.data, ratchet.Some?).value;
              && heard.destination == r.key && heard.ratchet == ratchet && heard.app == app
              && |heard.random| == |seed| + 5 && heard.random[..|seed|] == seed
              && OrderRead(heard.random) == order % 0x100_0000_0000
  {
    RandomOctets(seed, order);
  }

  /** Which announces go out and which are refused, in the order the call looks at its arguments. */
  lemma AnnounceAnswers(lib: Library, s: Live, seed: Bytes, order: u64, ratchet: Option<Bytes>, app: Bytes, capacity: nat, tail: Bytes)
    requires |tail| == 5 && BigEndian(tail) == order % 0x100_0000_0000
    ensures var o := Do(lib, s, MakeAnnounce(seed, order, ratchet, app, capacity));
            && o.live == s
            && (|app| > 333 ==> o.reply.status == ErrCapacity)
            && (|app| <= 333 && (s.identity.None? || !Claimable(lib, s, order, ratchet)) ==> o.reply.status == ErrNotReady)
            && (|app| <= 333 && s.identity.Some? && Claimable(lib, s, order, ratchet) ==>
                  match lib.build(s.identity.value, seed + tail, ratchet, app, capacity)
                  case Built(payload) => o.reply.status == StatusOk && o.reply.data == payload
                  case BuiltTooSmall => o.reply.status == ErrCapacity
                  case BuildFails => o.reply.status == ErrInternal)
  {
    RandomOctets(seed, order);
    BigEndianInjective(tail, RandomHash(seed, order)[|seed|..]);
    assert RandomHash(seed, order) == seed + tail;
  }

  // ---- The ring ------------------------------------------------------------------------------

  /** Nothing to persist: the reply names the key already live, and there has to be one. */
  predicate KeepsRing(lib: Library, s: Live, o: Outcome, action: nat) {
    && o.live == s.(pendingRing := None) && o.reply.data == []
    && (s.ring.keys == [] ==> o.reply.status == ErrInternal)
    && (s.ring.keys != [] ==>
          o.reply.status == StatusOk && o.reply.action == action && o.reply.key == lib.publicKey(s.ring.keys[0]))
  }

  /** The candidate's octets and their signature are handed out, and their digest is pending. */
  predicate OffersRing(lib: Library, s: Live, o: Outcome, capacity: nat, candidate: Ring, action: nat)
    requires s.identity.Some?
  {
    var blob := lib.ringBlob(candidate);
    if |blob| + 64 > capacity then o.live == s.(pendingRing := None) && o.reply.status == ErrCapacity && o.reply.data == []
    else if candidate.keys == [] then o.live == s.(pendingRing := None) && o.reply.status == ErrInternal && o.reply.data == []
    else
      && o.live == s.(pendingRing := Some(lib.digest(blob)))
      && o.reply.status == StatusOk && o.reply.action == action
      && o.reply.data == blob + lib.sign(s.identity.value, blob)
      && o.reply.key == lib.publicKey(candidate.keys[0])
  }

  /** `ring` is `was` with `key` in front and no more than `retained` keys. */
  predicate InFront(ring: Ring, was: Ring, key: Bytes, retained: nat) {
    && |ring.keys| == (if |was.keys| < retained then |was.keys| + 1 else retained)
    && forall i :: 0 <= i < |ring.keys| ==> ring.keys[i] == if i == 0 then key else was.keys[i - 1]
  }

  /** The crate decides on whole seconds of uptime; each decision has its candidate, its action code and its key. */
  lemma PrepareRingMeans(lib: Library, s: Live, entropy: Bytes, wall: u64, uptimeMs: u64, capacity: nat, seconds: u64)
    requires Laws(lib) && 1000 * seconds <= uptimeMs < 1000 * seconds + 1000
    ensures var o := Do(lib, s, PrepareRing(entropy, wall, uptimeMs, capacity));
            if s.identity.None? then o.live == s && o.reply.status == ErrNotReady
            else if capacity < 64 then o.live == s.(pendingRing := None) && o.reply.status == ErrCapacity
            else
              match lib.plan(s.ring, entropy, wall, seconds)
              case KeepRing => KeepsRing(lib, s, o, 0)
              case NewMetadata(m) => OffersRing(lib, s, o, capacity, Ring(s.ring.keys, m), 1)
              case Rotate(m) => exists c: Ring :: InFront(c, s.ring, entropy, lib.retained) && c.metadata == m && OffersRing(lib, s, o, capacity, c, 2)
              case KeepFullRing => KeepsRing(lib, s, o, 3)
              case PlanFails => o.live == s.(pendingRing := None) && o.reply.status == ErrInternal
  {
    assert uptimeMs / 1000 == seconds;
    match lib.plan(s.ring, entropy, wall, seconds)
    case Rotate(m) =>
      var c := Rotated(lib, s.ring, entropy, m);
      assert InFront(c, s.ring, entropy, lib.retained) && c.metadata == m;
      if s.identity.Some? && capacity >= 64 {
        assert OffersRing(lib, s, Do(lib, s, PrepareRing(entropy, wall, uptimeMs, capacity)), capacity, c, 2);
      }
    case _ =>
  }

  /** The call leaves `s` and answers `status`. */
  predicate AnswersWith(s: Live, o: Outcome, status: Status) {
    o.live == s && o.reply.status == status
  }

  /** What a commit of a blob with a signature behind it does. */
  lemma CommitRingMeans(lib: Library, s: Live, blob: Bytes, signature: Bytes)
    requires |signature| == 64
    ensures var o := Do(lib, s, CommitRing(blob + signature));
            if s.identity.None? then AnswersWith(s, o, ErrNotReady)
            else if lib.sign(s.identity.value, blob) != signature then AnswersWith(s, o, ErrCrypto)
            else if s.pendingRing != Some(lib.digest(blob)) then AnswersWith(s, o, ErrInvalidArg)
            else if lib.ringOf(blob).None? || !lib.acceptsRing(s.ring, lib.ringOf(blob).value) then AnswersWith(s, o, ErrInvalidArg)
            else
              var ring := lib.ringOf(blob).value;
              && o.live == s.(ring := ring, pendingRing := None)
              && (ring.keys == [] ==> o.reply.status == ErrInternal)
              && (ring.keys != [] ==> o.reply.status == StatusOk && o.reply.key == lib.publicKey(ring.keys[0]))
  {
    SplitBehind(blob, signature);
  }

  lemma SeedRingMeans(lib: Library, s: Live, blob: Bytes, signature: Bytes)
    requires |signature| == 64
    ensures var o := Do(lib, s, SeedRing(blob + signature));
            if s.identity.None? then AnswersWith(s, o, ErrNotReady)
            else if lib.sign(s.identity.value, blob) != signature then AnswersWith(s, o, ErrCrypto)
            else if lib.ringOf(blob).None? then AnswersWith(s, o, ErrInvalidArg)
            else o.live == s.(ring := lib.ringOf(blob).value, pendingRing := None) && o.reply.status == StatusOk
  {
    SplitBehind(blob, signature);
  }

  lemma SplitBehind(blob: Bytes, signature: Bytes)
    requires |signature| == 64
    ensures BlobOf(blob + signature) == blob && SignatureOf(blob + signature) == signature
  {
  }

  // ---- The order -----------------------------------------------------------------------------

  /** `value` is signed, handed out and pending. */
  predicate OffersOrder(lib: Library, s: Live, o: Outcome, value: u64)
    requires s.identity.Some?
  {
    var blob := lib.orderBlob(Some(value));
    && o.live == s.(pendingOrder := Some(lib.digest(blob)))
    && o.reply.status == StatusOk && o.reply.action == 1 && o.reply.value == value
    && o.reply.data == blob + lib.sign(s.identity.value, blob)
  }

  /**
   * Wall time is taken as it is, when it is later than the live order; without a clock the order goes
   * up by one, from the crate's first. No order needs more than forty bits.
   */
  lemma PrepareOrderMeans(lib: Library, s: Live, wall: u64, capacity: nat)
    ensures var o := Do(lib, s, PrepareOrder(wall, capacity));
            if capacity < 71 then AnswersWith(s, o, ErrCapacity)
            else if s.identity.None? then AnswersWith(s, o, ErrNotReady)
            else
              var withdrawn := s.(pendingOrder := None);
              if wall >= 0x100_0000_0000 then AnswersWith(withdrawn, o, ErrCapacity)
              else if wall > 0 && s.order.Some? && wall <= s.order.value then
                AnswersWith(withdrawn, o, StatusOk) && o.reply.data == [] && o.reply.action == 0 && o.reply.value == s.order.value
              else if wall > 0 then OffersOrder(lib, s, o, wall)
              else if s.order.None? then OffersOrder(lib, s, o, lib.firstOrder)
              else if s.order.value < 0xFF_FFFF_FFFF then OffersOrder(lib, s, o, s.order.value + 1)
              else AnswersWith(withdrawn, o, ErrCapacity)
  {
  }

  lemma CommitOrderMeans(lib: Library, s: Live, blob: Bytes, signature: Bytes)
    requires |signature| == 64
    ensures var o := Do(lib, s, CommitOrder(blob + signature));
            if |blob| != 7 then AnswersWith(s, o, ErrInvalidArg)
            else if s.identity.None? then AnswersWith(s, o, ErrNotReady)
            else if lib.sign(s.identity.value, blob) != signature then AnswersWith(s, o, ErrCrypto)
            else if s.pendingOrder != Some(lib.digest(blob)) then AnswersWith(s, o, ErrInvalidArg)
            else if lib.orderOf(blob).None? || lib.orderOf(blob).value.None? || !lib.acceptsOrder(s.order, lib.orderOf(blob).value) then
              AnswersWith(s, o, ErrInvalidArg)
            else
              && o.live == s.(order := lib.orderOf(blob).value, pendingOrder := None)
              && o.reply.status == StatusOk && o.reply.value == lib.orderOf(blob).value.value
  {
    SplitBehind(blob, signature);
  }

  lemma SeedOrderMeans(lib: Library, s: Live, blob: Bytes, signature: Bytes)
    requires |signature| == 64
    ensures var o := Do(lib, s, SeedOrder(blob + signature));
            if |blob| != 7 then AnswersWith(s, o, ErrInvalidArg)
            else if s.identity.None? then AnswersWith(s, o, ErrNotReady)
            else if lib.sign(s.identity.value, blob) != signature then AnswersWith(s, o, ErrCrypto)
            else if lib.orderOf(blob).None? then AnswersWith(s, o, ErrInvalidArg)
            else o.live == s.(order := lib.orderOf(blob).value, pendingOrder := None) && o.reply.status == StatusOk
  {
    SplitBehind(blob, signature);
  }

  /** Octets too few to hold a signature are refused before anything else is looked at. */
  lemma ShortDataIsRefused(lib: Library, s: Live, data: Bytes)
    requires |data| < 64
    ensures AnswersWith(s, Do(lib, s, CommitRing(data)), ErrInvalidArg) && AnswersWith(s, Do(lib, s, SeedRing(data)), ErrInvalidArg)
    ensures AnswersWith(s, Do(lib, s, CommitOrder(data)), ErrInvalidArg) && AnswersWith(s, Do(lib, s, SeedOrder(data)), ErrInvalidArg)
  {
  }

  // ---- Export and load -----------------------------------------------------------------------

  /** Loading an identity leaves nothing that could be claimed or committed. */
  lemma LoadMeans(lib: Library, s: Live, key: Bytes, c: Call)
    ensures var o := Do(lib, s, Load(key));
            && o.reply.status == StatusOk && o.live == Live(Some(key), Ring([], []), None, None, None)
            && (c.CommitRing? || c.CommitOrder? || (c.MakeAnnounce? && c.ratchet.Some?) ==> Do(lib, o.live, c).reply.status != StatusOk)
  {
  }

  /** The whole live ring, or the whole live order, with the identity's signature behind it. */
  lemma ExportMeans(lib: Library, s: Live, capacity: nat)
    ensures var o := Do(lib, s, ExportRing(capacity));
            var blob := lib.ringBlob(s.ring);
            if s.identity.None? then AnswersWith(s, o, ErrNotReady)
            else if capacity < |blob| + 64 then AnswersWith(s, o, ErrCapacity)
            else AnswersWith(s, o, StatusOk) && o.reply.data == blob + lib.sign(s.identity.value, blob)
    ensures var o := Do(lib, s, ExportOrder(capacity));
            var blob := lib.orderBlob(s.order);
            if capacity < 71 then AnswersWith(s, o, ErrCapacity)
            else if s.identity.None? then AnswersWith(s, o, ErrNotReady)
            else AnswersWith(s, o, StatusOk) && o.reply.data == blob + lib.sign(s.identity.value, blob)
  {
  }
}
