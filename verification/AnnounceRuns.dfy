/**
 * Whole runs of a host that keeps the announce state durable: power may fail between any two steps,
 * a write may or may not reach the flash, and identities may be switched at any time.
 */
module AnnounceRuns {
  import opened Bytes
  import opened Announce
  import opened AnnounceTransactions
  import opened AnnounceCalls

  /** A ratcheted announce that went out: the identity behind it, and the order and key receivers read from it. */
  datatype Advert = Advert(identity: Bytes, order: nat, ratchet: Bytes)

  /** An announce that receivers read as ratcheted is an advert. */
  function AdvertsIn(identity: Bytes, heard: Option<Heard>): seq<Advert> {
    if heard.Some? && heard.value.ratchet.Some?
    then [Advert(identity, OrderRead(heard.value.random), heard.value.ratchet.value)]
    else []
  }

  /**
   * The backend context, the two files of each identity, the octets the host holds from the latest
   * prepare of each kind, whether it has restored each file since the identity was loaded, and a
   * record of what was advertised.
   */
  datatype Host = Host(
    live: Live,
    ringFiles: map<Bytes, Bytes>,
    orderFiles: map<Bytes, Bytes>,
    ringHeld: Option<Bytes>,
    orderHeld: Option<Bytes>,
    ringSeeded: bool,
    orderSeeded: bool,
    sent: seq<Advert>)

  const FACTORY := Host(FRESH, map[], map[], None, None, false, false, [])

  datatype Step =
    | Boot
    | Load(key: Bytes)
    | SeedRing
    | SeedOrder
    | PrepareRing(entropy: Bytes, wall: u64, uptimeMs: u64, capacity: nat)
    | WriteRing(landed: bool)
    | CommitRing
    | PrepareOrder(wall: u64, capacity: nat)
    | WriteOrder(landed: bool)
    | CommitOrder
    | QuarantineRing
    | QuarantineOrder
    | Send(seed: Bytes, order: u64, ratchet: Option<Bytes>, app: Bytes, capacity: nat)

  /**
   * The discipline the interface asks of the host: restore both files after every boot and identity
   * load before anything is prepared, write only what the latest prepare returned, and commit only
   * what was read back from the file. The host in the repository also moves a file aside when it
   * cannot read it back; here it may do so at any time.
   */
  predicate Permitted(h: Host, step: Step) {
    match step
    case Boot => true
    case Load(_) => true
    case SeedRing => h.live.identity.Some? && !h.ringSeeded
    case SeedOrder => h.live.identity.Some? && !h.orderSeeded
    case PrepareRing(_, _, _, _) => h.ringSeeded
    case PrepareOrder(_, _) => h.orderSeeded
    case WriteRing(_) => h.live.identity.Some? && h.ringHeld.Some?
    case WriteOrder(_) => h.live.identity.Some? && h.orderHeld.Some?
    case CommitRing => h.live.identity.Some? && h.live.identity.value in h.ringFiles
    case CommitOrder => h.live.identity.Some? && h.live.identity.value in h.orderFiles
    case QuarantineRing => h.live.identity.Some? && h.live.identity.value in h.ringFiles
    case QuarantineOrder => h.live.identity.Some? && h.live.identity.value in h.orderFiles
    case Send(_, _, _, _, _) => true
  }

  function Held(data: Bytes): Option<Bytes> {
    if data == [] then None else Some(data)
  }

  function Next(lib: Library, h: Host, step: Step): Host
    requires Permitted(h, step)
  {
    match step
    case Boot => h.(live := FRESH, ringHeld := None, orderHeld := None, ringSeeded := false, orderSeeded := false)
    case Load(key) => h.(live := LoadSpec(key), ringHeld := None, orderHeld := None, ringSeeded := false, orderSeeded := false)
    case SeedRing =>
      if h.live.identity.value !in h.ringFiles then h.(ringSeeded := true)
      else
        var o := SeedRingSpec(lib, h.live, h.ringFiles[h.live.identity.value]);
        h.(live := o.live, ringSeeded := o.reply.status == StatusOk)
    case SeedOrder =>
      if h.live.identity.value !in h.orderFiles then h.(orderSeeded := true)
      else
        var o := SeedOrderSpec(lib, h.live, h.orderFiles[h.live.identity.value]);
        h.(live := o.live, orderSeeded := o.reply.status == StatusOk)
    case PrepareRing(entropy, wall, uptimeMs, capacity) =>
      var o := PrepareRingSpec(lib, h.live, entropy, wall, uptimeMs, capacity);
      h.(live := o.live, ringHeld := Held(o.reply.data))
    case PrepareOrder(wall, capacity) =>
      var o := PrepareOrderSpec(lib, h.live, wall, capacity);
      h.(live := o.live, orderHeld := Held(o.reply.data))
    case WriteRing(landed) =>
      if landed then h.(ringFiles := h.ringFiles[h.live.identity.value := h.ringHeld.value]) else h
    case WriteOrder(landed) =>
      if landed then h.(orderFiles := h.orderFiles[h.live.identity.value := h.orderHeld.value]) else h
    case CommitRing => h.(live := CommitRingSpec(lib, h.live, h.ringFiles[h.live.identity.value]).live)
    case CommitOrder => h.(live := CommitOrderSpec(lib, h.live, h.orderFiles[h.live.identity.value]).live)
    case QuarantineRing => h.(ringFiles := h.ringFiles - {h.live.identity.value})
    case QuarantineOrder => h.(orderFiles := h.orderFiles - {h.live.identity.value})
    case Send(seed, order, ratchet, app, capacity) =>
      var r := AnnounceSpec(lib, h.live, seed, order, ratchet, app, capacity);
      if r.status == StatusOk
      then h.(sent := h.sent + AdvertsIn(h.live.identity.value, lib.hear(r.data, ratchet.Some?)))
      else h
  }

  predicate Lawful(lib: Library, steps: seq<Step>)
    decreases |steps|, 0
  {
    steps == [] ||
    (Lawful(lib, steps[..|steps| - 1]) && Permitted(Run(lib, steps[..|steps| - 1]), steps[|steps| - 1]))
  }

  function Run(lib: Library, steps: seq<Step>): Host
    requires Lawful(lib, steps)
    decreases |steps|, 1
  {
    if steps == [] then FACTORY else Next(lib, Run(lib, steps[..|steps| - 1]), steps[|steps| - 1])
  }

  // ---- The ring ------------------------------------------------------------------------------

  function StoredRing(lib: Library, data: Bytes): Ring
    requires |data| >= SIGNATURE_LENGTH && lib.ringOf(BlobOf(data)).Some?
  {
    lib.ringOf(BlobOf(data)).value
  }

  predicate RingFilesSound(lib: Library, files: map<Bytes, Bytes>) {
    forall k :: k in files ==> RingOffer(lib, k, files[k])
  }

  /** A live key is in the file, unless that was moved aside, and in whatever the host may write over it. */
  predicate RingSafe(lib: Library, h: Host) {
    && RingFilesSound(lib, h.ringFiles)
    && lib.ringFits(h.live.ring)
    && (h.ringSeeded ==> h.live.identity.Some?)
    && (!h.ringSeeded ==> h.live.ring.keys == [] && h.ringHeld == None && h.live.pendingRing == None)
    && (h.live.ring.keys != [] && h.live.identity.value in h.ringFiles ==>
          h.live.ring.keys[0] in StoredRing(lib, h.ringFiles[h.live.identity.value]).keys)
    && (h.ringHeld.Some? ==>
          && RingOffer(lib, h.live.identity.value, h.ringHeld.value)
          && Keeps(h.live.ring, StoredRing(lib, h.ringHeld.value))
          && (h.live.pendingRing.Some? ==> h.live.pendingRing == Some(lib.digest(BlobOf(h.ringHeld.value)))))
  }

  /** Committing what the file holds either changes nothing or makes the file's ring live. */
  lemma CommitFromFile(lib: Library, h: Host)
    requires Laws(lib) && RingSafe(lib, h) && h.live.identity.Some? && h.live.identity.value in h.ringFiles
    ensures var file := h.ringFiles[h.live.identity.value];
            var c := CommitRingSpec(lib, h.live, file).live;
            c == h.live || (
              && c == h.live.(ring := StoredRing(lib, file), pendingRing := None)
              && h.live.pendingRing.Some? && lib.ringFits(StoredRing(lib, file))
              && (h.ringHeld.Some? ==> h.ringHeld.value == file))
  {
    hide Signed, Keeps;
    var file := h.ringFiles[h.live.identity.value];
    SignedByMeans(lib, h.live.identity.value, file);
    if h.ringHeld.Some? && h.live.pendingRing == Some(lib.digest(BlobOf(file))) {
      assert BlobOf(h.ringHeld.value) == BlobOf(file);
    }
  }

  lemma SeedFromFile(lib: Library, s: Live, file: Bytes)
    requires Laws(lib) && s.identity.Some? && RingOffer(lib, s.identity.value, file)
    ensures SeedRingSpec(lib, s, file) == Outcome(s.(ring := StoredRing(lib, file), pendingRing := None), Refused(StatusOk))
    ensures lib.ringFits(StoredRing(lib, file))
  {
    hide Signed;
    SignedByMeans(lib, s.identity.value, file);
  }

  /** Only a seed, a commit or a load of the ring's kind touches the ring's part of the context. */
  lemma OrderCallsKeepRing(lib: Library, s: Live, wall: u64, capacity: nat, data: Bytes)
    ensures var a, b, c := PrepareOrderSpec(lib, s, wall, capacity).live, CommitOrderSpec(lib, s, data).live, SeedOrderSpec(lib, s, data).live;
            && a.identity == b.identity == c.identity == s.identity
            && a.ring == b.ring == c.ring == s.ring
            && a.pendingRing == b.pendingRing == c.pendingRing == s.pendingRing
  {
  }

  lemma RingCallsKeepOrder(lib: Library, s: Live, entropy: Bytes, wall: u64, uptimeMs: u64, capacity: nat, data: Bytes)
    ensures var a, b, c := PrepareRingSpec(lib, s, entropy, wall, uptimeMs, capacity).live, CommitRingSpec(lib, s, data).live, SeedRingSpec(lib, s, data).live;
            && a.identity == b.identity == c.identity == s.identity
            && a.order == b.order == c.order == s.order
            && a.pendingOrder == b.pendingOrder == c.pendingOrder == s.pendingOrder
  {
  }

  lemma RingStaysSafe(lib: Library, h: Host, step: Step)
    requires Laws(lib) && RingSafe(lib, h) && Permitted(h, step)
    ensures RingSafe(lib, Next(lib, h, step))
  {
    hide Laws, RingOffer, PrepareRingSpec, PrepareOrderSpec, CommitRingSpec, CommitOrderSpec, SeedRingSpec, SeedOrderSpec, AnnounceSpec;
    EmptyFits(lib);
    match step
    case SeedRing =>
      if h.live.identity.value in h.ringFiles {
        SeedFromFile(lib, h.live, h.ringFiles[h.live.identity.value]);
        OfferHasKeys(lib, h.live.identity.value, h.ringFiles[h.live.identity.value]);
      }
    case PrepareRing(entropy, wall, uptimeMs, capacity) =>
      PrepareOffers(lib, h.live, entropy, wall, uptimeMs, capacity);
    case CommitRing =>
      CommitFromFile(lib, h);
      OfferHasKeys(lib, h.live.identity.value, h.ringFiles[h.live.identity.value]);
    case SeedOrder =>
      if h.live.identity.value in h.orderFiles {
        OrderCallsKeepRing(lib, h.live, 0, 0, h.orderFiles[h.live.identity.value]);
      }
    case PrepareOrder(wall, capacity) => OrderCallsKeepRing(lib, h.live, wall, capacity, []);
    case CommitOrder => OrderCallsKeepRing(lib, h.live, 0, 0, h.orderFiles[h.live.identity.value]);
    case WriteRing(landed) =>
      OfferHasKeys(lib, h.live.identity.value, h.ringHeld.value);
    case _ =>
  }

  lemma EmptyFits(lib: Library)
    requires Laws(lib)
    ensures lib.ringFits(EMPTY_RING)
  {
  }

  lemma OfferHasKeys(lib: Library, key: Bytes, data: Bytes)
    requires RingOffer(lib, key, data)
    ensures |data| >= SIGNATURE_LENGTH && lib.ringOf(BlobOf(data)).Some? && StoredRing(lib, data).keys != []
  {
  }

  // ---- The order -----------------------------------------------------------------------------

  function StoredOrder(lib: Library, data: Bytes): u64
    requires |data| >= SIGNATURE_LENGTH && lib.orderOf(BlobOf(data)).Some? && lib.orderOf(BlobOf(data)).value.Some?
  {
    lib.orderOf(BlobOf(data)).value.value
  }

  predicate OrderFilesSound(lib: Library, files: map<Bytes, Bytes>) {
    forall k :: k in files ==> OrderOffer(lib, k, files[k])
  }

  /** The lowest order there is to advertise: the first without a clock, or the first second of wall time. */
  function LeastOrder(lib: Library): u64 {
    if lib.firstOrder < 1 then lib.firstOrder else 1
  }

  predicate OrderFilesHigh(lib: Library, files: map<Bytes, Bytes>)
    requires OrderFilesSound(lib, files)
  {
    forall k :: k in files ==> LeastOrder(lib) <= StoredOrder(lib, files[k])
  }

  /** The live order never runs ahead of the file, unless that was moved aside, nor of what may be written over it. */
  predicate OrderSafe(lib: Library, h: Host) {
    && OrderFilesSound(lib, h.orderFiles)
    && OrderFilesHigh(lib, h.orderFiles)
    && (h.orderSeeded ==> h.live.identity.Some?)
    && (!h.orderSeeded ==> h.live.order == None && h.orderHeld == None && h.live.pendingOrder == None)
    && (h.live.order.Some? ==> LeastOrder(lib) <= h.live.order.value < ORDER_LIMIT)
    && (h.live.order.Some? && h.live.identity.value in h.orderFiles ==>
          h.live.order.value <= StoredOrder(lib, h.orderFiles[h.live.identity.value]))
    && (h.orderHeld.Some? ==>
          && OrderOffer(lib, h.live.identity.value, h.orderHeld.value)
          && LeastOrder(lib) <= StoredOrder(lib, h.orderHeld.value)
          && (h.live.order.Some? ==> h.live.order.value <= StoredOrder(lib, h.orderHeld.value))
          && (h.live.pendingOrder.Some? ==> h.live.pendingOrder == Some(lib.digest(BlobOf(h.orderHeld.value)))))
  }

  /** No file, and no restored context, is behind anything its identity advertised above the lowest order. */
  predicate SentSafe(lib: Library, h: Host)
    requires OrderFilesSound(lib, h.orderFiles)
  {
    forall i :: 0 <= i < |h.sent| ==> Remembered(lib, h, h.sent[i])
  }

  predicate Remembered(lib: Library, h: Host, a: Advert)
    requires OrderFilesSound(lib, h.orderFiles)
  {
    && LeastOrder(lib) <= a.order
    && (a.identity in h.orderFiles ==> a.order <= StoredOrder(lib, h.orderFiles[a.identity]))
    && (h.orderSeeded && h.live.identity == Some(a.identity) ==>
          a.order == LeastOrder(lib) || (h.live.order.Some? && a.order <= h.live.order.value))
  }

  /** Each identity's advertised orders, in the order they went out. */
  predicate Ordered(sent: seq<Advert>) {
    forall i, j :: 0 <= i < j < |sent| && sent[i].identity == sent[j].identity ==> sent[i].order <= sent[j].order
  }

  /** Carrying on without the order file although more than the lowest order was advertised. */
  predicate Forgets(lib: Library, h: Host, step: Step) {
    && step.SeedOrder? && h.live.identity.Some? && h.live.identity.value !in h.orderFiles
    && exists i :: 0 <= i < |h.sent| && h.sent[i].identity == h.live.identity.value && h.sent[i].order > LeastOrder(lib)
  }

  lemma CommitOrderFromFile(lib: Library, h: Host)
    requires Laws(lib) && OrderSafe(lib, h) && h.live.identity.Some? && h.live.identity.value in h.orderFiles
    ensures var file := h.orderFiles[h.live.identity.value];
            var c := CommitOrderSpec(lib, h.live, file).live;
            c == h.live || (
              && c == h.live.(order := Some(StoredOrder(lib, file)), pendingOrder := None)
              && h.live.pendingOrder.Some? && StoredOrder(lib, file) < ORDER_LIMIT
              && (h.orderHeld.Some? ==> h.orderHeld.value == file))
  {
    hide Signed;
    var file := h.orderFiles[h.live.identity.value];
    SignedByMeans(lib, h.live.identity.value, file);
    if h.orderHeld.Some? && h.live.pendingOrder == Some(lib.digest(BlobOf(file))) {
      assert BlobOf(h.orderHeld.value) == BlobOf(file);
    }
  }

  lemma SeedOrderFromFile(lib: Library, s: Live, file: Bytes)
    requires Laws(lib) && s.identity.Some? && OrderOffer(lib, s.identity.value, file)
    ensures SeedOrderSpec(lib, s, file)
         == Outcome(s.(order := Some(StoredOrder(lib, file)), pendingOrder := None), Refused(StatusOk))
    ensures StoredOrder(lib, file) < ORDER_LIMIT
  {
    hide Signed;
    SignedByMeans(lib, s.identity.value, file);
  }

  lemma OfferHasOrder(lib: Library, key: Bytes, data: Bytes)
    requires OrderOffer(lib, key, data)
    ensures |data| >= SIGNATURE_LENGTH && lib.orderOf(BlobOf(data)).Some? && lib.orderOf(BlobOf(data)).value.Some?
  {
  }

  /** No offered order is below the lowest. */
  lemma NextIsHigh(lib: Library, s: Live, wall: u64, capacity: nat)
    requires s.order.Some? ==> LeastOrder(lib) <= s.order.value
    ensures var r := PrepareOrderSpec(lib, s, wall, capacity).reply;
            r.data != [] ==> LeastOrder(lib) <= r.value
  {
  }

  lemma OrderStaysSafe(lib: Library, h: Host, step: Step)
    requires Laws(lib) && OrderSafe(lib, h) && Permitted(h, step)
    ensures OrderSafe(lib, Next(lib, h, step))
  {
    hide Laws, OrderOffer, LeastOrder, PrepareRingSpec, PrepareOrderSpec, CommitRingSpec, CommitOrderSpec, SeedRingSpec, SeedOrderSpec, AnnounceSpec;
    match step
    case SeedOrder =>
      if h.live.identity.value in h.orderFiles {
        SeedOrderFromFile(lib, h.live, h.orderFiles[h.live.identity.value]);
      }
    case PrepareOrder(wall, capacity) =>
      PrepareOrderOffers(lib, h.live, wall, capacity);
      NextIsHigh(lib, h.live, wall, capacity);
    case CommitOrder =>
      CommitOrderFromFile(lib, h);
    case SeedRing =>
      if h.live.identity.value in h.ringFiles {
        RingCallsKeepOrder(lib, h.live, [], 0, 0, 0, h.ringFiles[h.live.identity.value]);
      }
    case PrepareRing(entropy, wall, uptimeMs, capacity) => RingCallsKeepOrder(lib, h.live, entropy, wall, uptimeMs, capacity, []);
    case CommitRing => RingCallsKeepOrder(lib, h.live, [], 0, 0, 0, h.ringFiles[h.live.identity.value]);
    case WriteOrder(landed) =>
      OfferHasOrder(lib, h.live.identity.value, h.orderHeld.value);
    case _ =>
  }

  /** One advert stays remembered. */
  lemma StaysRemembered(lib: Library, h: Host, step: Step, a: Advert)
    requires Laws(lib) && OrderSafe(lib, h) && Permitted(h, step) && Remembered(lib, h, a)
    requires step.SeedOrder? && h.live.identity == Some(a.identity) && a.identity !in h.orderFiles ==> a.order == LeastOrder(lib)
    requires OrderFilesSound(lib, Next(lib, h, step).orderFiles)
    ensures Remembered(lib, Next(lib, h, step), a)
  {
    hide Laws, OrderOffer, LeastOrder, PrepareRingSpec, PrepareOrderSpec, CommitRingSpec, CommitOrderSpec, SeedRingSpec, SeedOrderSpec, AnnounceSpec;
    match step
    case SeedOrder =>
      if h.live.identity.value in h.orderFiles {
        SeedOrderFromFile(lib, h.live, h.orderFiles[h.live.identity.value]);
      }
    case PrepareOrder(wall, capacity) => PrepareOrderOffers(lib, h.live, wall, capacity);
    case CommitOrder => CommitOrderFromFile(lib, h);
    case SeedRing =>
      if h.live.identity.value in h.ringFiles {
        RingCallsKeepOrder(lib, h.live, [], 0, 0, 0, h.ringFiles[h.live.identity.value]);
      }
    case PrepareRing(entropy, wall, uptimeMs, capacity) => RingCallsKeepOrder(lib, h.live, entropy, wall, uptimeMs, capacity, []);
    case CommitRing => RingCallsKeepOrder(lib, h.live, [], 0, 0, 0, h.ringFiles[h.live.identity.value]);
    case WriteOrder(landed) =>
      OfferHasOrder(lib, h.live.identity.value, h.orderHeld.value);
    case _ =>
  }

  lemma SentStaysSafe(lib: Library, h: Host, step: Step)
    requires Laws(lib) && OrderSafe(lib, h) && SentSafe(lib, h) && Permitted(h, step) && !Forgets(lib, h, step)
    requires OrderFilesSound(lib, Next(lib, h, step).orderFiles)
    ensures SentSafe(lib, Next(lib, h, step))
    ensures Ordered(h.sent) ==> Ordered(Next(lib, h, step).sent)
  {
    hide Laws, OrderSafe, Next, Remembered, LeastOrder, OrderFilesSound;
    SafeFiles(lib, h);
    var n := Next(lib, h, step);
    forall i | 0 <= i < |h.sent| ensures Remembered(lib, n, h.sent[i]) {
      NotForgotten(lib, h, step, i);
      StaysRemembered(lib, h, step, h.sent[i]);
    }
    SentGrows(lib, h, step);
  }

  lemma NotForgotten(lib: Library, h: Host, step: Step, i: nat)
    requires OrderFilesSound(lib, h.orderFiles) && i < |h.sent| && Remembered(lib, h, h.sent[i]) && !Forgets(lib, h, step)
    ensures step.SeedOrder? && h.live.identity == Some(h.sent[i].identity) && h.sent[i].identity !in h.orderFiles ==>
              h.sent[i].order == LeastOrder(lib)
  {
  }

  /** A step advertises nothing, or one advert of the live order that nothing before it exceeds. */
  lemma SentGrows(lib: Library, h: Host, step: Step)
    requires Laws(lib) && OrderSafe(lib, h) && SentSafe(lib, h) && Permitted(h, step)
    requires OrderFilesSound(lib, Next(lib, h, step).orderFiles)
    ensures var n := Next(lib, h, step);
            n.sent == h.sent || (
              && |n.sent| == |h.sent| + 1 && n.sent[..|h.sent|] == h.sent
              && Remembered(lib, n, n.sent[|h.sent|])
              && forall i :: 0 <= i < |h.sent| && h.sent[i].identity == n.sent[|h.sent|].identity ==> h.sent[i].order <= n.sent[|h.sent|].order)
  {
    hide Laws, OrderOffer, LeastOrder, AdvertsIn, PrepareRingSpec, PrepareOrderSpec, CommitRingSpec, CommitOrderSpec, SeedRingSpec, SeedOrderSpec, AnnounceSpec;
    if step.Send? {
      SendMeans(lib, h, step.seed, step.order, step.ratchet, step.app, step.capacity);
    }
  }

  lemma SafeFiles(lib: Library, h: Host)
    requires OrderSafe(lib, h)
    ensures OrderFilesSound(lib, h.orderFiles)
  {
  }

  /** What receivers read from a ratcheted announce that goes out is the live order and the live key. */
  lemma SendMeans(lib: Library, h: Host, seed: Bytes, order: u64, ratchet: Option<Bytes>, app: Bytes, capacity: nat)
    requires Laws(lib) && OrderFits(h.live.order)
    ensures var r := AnnounceSpec(lib, h.live, seed, order, ratchet, app, capacity);
            r.status == StatusOk ==>
              && h.live.identity.Some?
              && (ratchet.Some? ==> Claimable(lib, h.live, order, ratchet))
              && AdvertsIn(h.live.identity.value, lib.hear(r.data, ratchet.Some?))
              == if ratchet.Some? then [Advert(h.live.identity.value, order, ratchet.value)] else []
  {
    hide Laws, AnnounceSpec;
    AnnounceCarries(lib, h.live, seed, order, ratchet, app, capacity);
  }

  // ---- Whole runs ----------------------------------------------------------------------------

  lemma {:induction false} RunKeepsRingSafe(lib: Library, steps: seq<Step>)
    requires Laws(lib) && Lawful(lib, steps)
    ensures RingSafe(lib, Run(lib, steps))
    decreases |steps|
  {
    hide Laws, RingSafe, Next;
    if steps == [] {
      FactoryIsSafe(lib);
    } else {
      var before, step := steps[..|steps| - 1], steps[|steps| - 1];
      RunKeepsRingSafe(lib, before);
      RingStaysSafe(lib, Run(lib, before), step);
    }
  }

  lemma {:induction false} RunKeepsOrderSafe(lib: Library, steps: seq<Step>)
    requires Laws(lib) && Lawful(lib, steps)
    ensures OrderSafe(lib, Run(lib, steps))
    decreases |steps|
  {
    hide Laws, OrderSafe, Next;
    if steps == [] {
      FactoryIsSafe(lib);
    } else {
      var before, step := steps[..|steps| - 1], steps[|steps| - 1];
      RunKeepsOrderSafe(lib, before);
      OrderStaysSafe(lib, Run(lib, before), step);
    }
  }

  /** At no point of the run is an advertised order forgotten. */
  predicate NeverForgets(lib: Library, steps: seq<Step>)
    requires Lawful(lib, steps)
    decreases |steps|
  {
    steps == [] ||
    (NeverForgets(lib, steps[..|steps| - 1]) && !Forgets(lib, Run(lib, steps[..|steps| - 1]), steps[|steps| - 1]))
  }

  lemma {:induction false} RunKeepsSentSafe(lib: Library, steps: seq<Step>)
    requires Laws(lib) && Lawful(lib, steps) && NeverForgets(lib, steps)
    ensures var h := Run(lib, steps); OrderSafe(lib, h) && SentSafe(lib, h) && Ordered(h.sent)
    decreases |steps|
  {
    hide Laws, OrderSafe, SentSafe, Ordered, Forgets, Next;
    RunKeepsOrderSafe(lib, steps);
    SafeFiles(lib, Run(lib, steps));
    if steps == [] {
      FactoryIsSafe(lib);
    } else {
      var before, step := steps[..|steps| - 1], steps[|steps| - 1];
      RunKeepsSentSafe(lib, before);
      SentStaysSafe(lib, Run(lib, before), step);
    }
  }

  lemma FactoryIsSafe(lib: Library)
    requires Laws(lib)
    ensures RingSafe(lib, FACTORY) && OrderSafe(lib, FACTORY) && SentSafe(lib, FACTORY) && Ordered(FACTORY.sent)
  {
  }

  /** `h` has a durable private key behind `ratchet` for the loaded identity. */
  predicate KeyIsDurable(lib: Library, h: Host, ratchet: Bytes)
    requires h.live.identity.Some?
  {
    && h.live.identity.value in h.ringFiles
    && RingOffer(lib, h.live.identity.value, h.ringFiles[h.live.identity.value])
    && exists k :: k in StoredRing(lib, h.ringFiles[h.live.identity.value]).keys && lib.publicKey(k) == ratchet
  }

  predicate OrderIsDurable(lib: Library, h: Host, order: nat)
    requires h.live.identity.Some?
  {
    && h.live.identity.value in h.orderFiles
    && OrderOffer(lib, h.live.identity.value, h.orderFiles[h.live.identity.value])
    && order <= StoredOrder(lib, h.orderFiles[h.live.identity.value])
  }

  /** What the context answers to `call` after `steps`. */
  function Answer(lib: Library, steps: seq<Step>, call: Call): Reply
    requires Lawful(lib, steps)
  {
    Do(lib, Run(lib, steps).live, call).reply
  }

  /**
   * Whatever the host asks for, at the moment an announce goes out that receivers read as ratcheted,
   * the private key behind the key they read is in flash, exactly when the identity's ring file was
   * not moved aside; and so is the order they read, exactly when the order file was not.
   */
  lemma AdvertisedIsDurable(lib: Library, steps: seq<Step>, call: Call, heard: Heard)
    requires Laws(lib) && Lawful(lib, steps) && call.MakeAnnounce?
    requires Answer(lib, steps, call).status == StatusOk
    requires lib.hear(Answer(lib, steps, call).data, call.ratchet.Some?) == Some(heard) && heard.ratchet.Some?
    ensures var h := Run(lib, steps);
            && h.live.identity.Some?
            && (KeyIsDurable(lib, h, heard.ratchet.value) <==> h.live.identity.value in h.ringFiles)
            && (OrderIsDurable(lib, h, OrderRead(heard.random)) <==> h.live.identity.value in h.orderFiles)
  {
    hide Laws, Run, Do, RingOffer, OrderOffer;
    var h := Run(lib, steps);
    RunKeepsRingSafe(lib, steps);
    RunKeepsOrderSafe(lib, steps);
    AnnounceCarries(lib, h.live, call.seed, call.order, call.ratchet, call.app, call.capacity);
    if h.live.identity.value in h.ringFiles {
      OfferHasKeys(lib, h.live.identity.value, h.ringFiles[h.live.identity.value]);
      assert h.live.ring.keys[0] in StoredRing(lib, h.ringFiles[h.live.identity.value]).keys;
    }
  }

  predicate HasFiles(h: Host) {
    && (h.live.ring.keys != [] ==> h.live.identity.Some? && h.live.identity.value in h.ringFiles)
    && (h.live.order.Some? ==> h.live.identity.Some? && h.live.identity.value in h.orderFiles)
  }

  /** A host that never moves files aside always has both files of what is live. */
  lemma {:induction false} LiveHasFiles(lib: Library, steps: seq<Step>)
    requires Laws(lib) && Lawful(lib, steps)
    requires forall i :: 0 <= i < |steps| ==> !steps[i].QuarantineRing? && !steps[i].QuarantineOrder?
    ensures HasFiles(Run(lib, steps))
    decreases |steps|
  {
    hide Laws, RingSafe, OrderSafe, Next;
    if steps == [] {
    } else {
      var before, step := steps[..|steps| - 1], steps[|steps| - 1];
      RunKeepsRingSafe(lib, before);
      RunKeepsOrderSafe(lib, before);
      LiveHasFiles(lib, before);
      FilesStay(lib, Run(lib, before), step);
    }
  }

  lemma FilesStay(lib: Library, h: Host, step: Step)
    requires Laws(lib) && RingSafe(lib, h) && OrderSafe(lib, h) && Permitted(h, step) && HasFiles(h)
    requires !step.QuarantineRing? && !step.QuarantineOrder?
    ensures HasFiles(Next(lib, h, step))
  {
    hide Laws, RingOffer, OrderOffer, LeastOrder, PrepareRingSpec, PrepareOrderSpec, CommitRingSpec, CommitOrderSpec, SeedRingSpec, SeedOrderSpec, AnnounceSpec;
    match step
    case SeedRing =>
      if h.live.identity.value in h.ringFiles {
        RingCallsKeepOrder(lib, h.live, [], 0, 0, 0, h.ringFiles[h.live.identity.value]);
      }
    case PrepareRing(entropy, wall, uptimeMs, capacity) =>
      RingCallsKeepOrder(lib, h.live, entropy, wall, uptimeMs, capacity, []);
      PrepareOffers(lib, h.live, entropy, wall, uptimeMs, capacity);
    case CommitRing => RingCallsKeepOrder(lib, h.live, [], 0, 0, 0, h.ringFiles[h.live.identity.value]);
    case SeedOrder =>
      if h.live.identity.value in h.orderFiles {
        OrderCallsKeepRing(lib, h.live, 0, 0, h.orderFiles[h.live.identity.value]);
      }
    case PrepareOrder(wall, capacity) =>
      OrderCallsKeepRing(lib, h.live, wall, capacity, []);
      PrepareOrderOffers(lib, h.live, wall, capacity);
    case CommitOrder => OrderCallsKeepRing(lib, h.live, 0, 0, h.orderFiles[h.live.identity.value]);
    case _ =>
  }

  /** The orders an identity advertises never go down, across any number of crashes, unless an order is forgotten. */
  lemma OrdersNeverDecrease(lib: Library, steps: seq<Step>)
    requires Laws(lib) && Lawful(lib, steps) && NeverForgets(lib, steps)
    ensures Ordered(Run(lib, steps).sent)
  {
    hide Laws, Run, OrderSafe, SentSafe;
    RunKeepsSentSafe(lib, steps);
  }

  /** A host that never moves files aside never forgets. */
  lemma {:induction false} KeptFilesNeverForget(lib: Library, steps: seq<Step>)
    requires Laws(lib) && Lawful(lib, steps)
    requires forall i :: 0 <= i < |steps| ==> !steps[i].QuarantineRing? && !steps[i].QuarantineOrder?
    ensures NeverForgets(lib, steps)
    ensures forall i :: 0 <= i < |Run(lib, steps).sent| ==> Run(lib, steps).sent[i].identity in Run(lib, steps).orderFiles
    decreases |steps|
  {
    hide Laws, OrderSafe, HasFiles, Next;
    if steps != [] {
      var before, step := steps[..|steps| - 1], steps[|steps| - 1];
      KeptFilesNeverForget(lib, before);
      LiveHasFiles(lib, before);
      RunKeepsOrderSafe(lib, before);
      SentHasFiles(lib, Run(lib, before), step);
    }
  }

  lemma SentHasFiles(lib: Library, h: Host, step: Step)
    requires Laws(lib) && OrderSafe(lib, h) && Permitted(h, step) && !step.QuarantineOrder? && HasFiles(h)
    requires forall i :: 0 <= i < |h.sent| ==> h.sent[i].identity in h.orderFiles
    ensures var n := Next(lib, h, step); forall i :: 0 <= i < |n.sent| ==> n.sent[i].identity in n.orderFiles
  {
    hide Laws, OrderFilesSound, OrderFilesHigh, OrderOffer, LeastOrder, AdvertsIn, PrepareRingSpec, PrepareOrderSpec, CommitRingSpec, CommitOrderSpec, SeedRingSpec, SeedOrderSpec, AnnounceSpec;
    if step.Send? {
      SendMeans(lib, h, step.seed, step.order, step.ratchet, step.app, step.capacity);
    }
  }

  /** With such a host every announce read as ratcheted has key and order in flash first. */
  lemma KeptFilesAreDurable(lib: Library, steps: seq<Step>, call: Call, heard: Heard)
    requires Laws(lib) && Lawful(lib, steps) && call.MakeAnnounce?
    requires forall i :: 0 <= i < |steps| ==> !steps[i].QuarantineRing? && !steps[i].QuarantineOrder?
    requires Answer(lib, steps, call).status == StatusOk
    requires lib.hear(Answer(lib, steps, call).data, call.ratchet.Some?) == Some(heard) && heard.ratchet.Some?
    ensures var h := Run(lib, steps);
            && h.live.identity.Some?
            && KeyIsDurable(lib, h, heard.ratchet.value) && OrderIsDurable(lib, h, OrderRead(heard.random))
  {
    hide Laws, Run, Do, RingOffer, OrderOffer, KeyIsDurable, OrderIsDurable;
    AdvertisedIsDurable(lib, steps, call, heard);
    LiveHasFiles(lib, steps);
    AnnounceCarries(lib, Run(lib, steps).live, call.seed, call.order, call.ratchet, call.app, call.capacity);
  }

  /** Restoring what the flash holds never fails; without forgetting, it brings back every order ever advertised, or more. */
  lemma RestoringSucceeds(lib: Library, steps: seq<Step>)
    requires Laws(lib) && Lawful(lib, steps) && Run(lib, steps).live.identity.Some?
    ensures var h := Run(lib, steps);
            var key := h.live.identity.value;
            && (key in h.ringFiles ==> SeedRingSpec(lib, h.live, h.ringFiles[key]).reply.status == StatusOk)
            && (key in h.orderFiles ==>
                  var o := SeedOrderSpec(lib, h.live, h.orderFiles[key]);
                  && o.reply.status == StatusOk && o.live.order.Some?
                  && (NeverForgets(lib, steps) ==>
                        forall i :: 0 <= i < |h.sent| && h.sent[i].identity == key ==> h.sent[i].order <= o.live.order.value))
  {
    hide Laws, Run, RingOffer, OrderOffer, LeastOrder, SeedRingSpec, SeedOrderSpec, NeverForgets;
    var h := Run(lib, steps);
    var key := h.live.identity.value;
    RunKeepsRingSafe(lib, steps);
    RunKeepsOrderSafe(lib, steps);
    if NeverForgets(lib, steps) {
      RunKeepsSentSafe(lib, steps);
    }
    if key in h.ringFiles {
      SeedFromFile(lib, h.live, h.ringFiles[key]);
    }
    if key in h.orderFiles {
      SeedOrderFromFile(lib, h.live, h.orderFiles[key]);
    }
  }
}
