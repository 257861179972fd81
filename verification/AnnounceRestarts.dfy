/** Transactions carried through, restarts, and what moving a state file aside costs. */
module AnnounceRestarts {
  import opened Bytes
  import opened Announce
  import opened AnnounceTransactions
  import opened AnnounceRuns

  /** Crates that take every candidate, start an empty ring with a key and build every announce. */
  ghost predicate Cooperative(lib: Library) {
    && (forall a, b :: lib.acceptsRing(a, b))
    && (forall a, b :: lib.acceptsOrder(a, b))
    && (forall r: Ring, e, w, u :: r.keys == [] ==> lib.plan(r, e, w, u).Rotate?)
    && (forall k, r, p, a, c :: lib.build(k, r, p, a, c).Built?)
  }

  lemma Extend(lib: Library, steps: seq<Step>, step: Step)
    requires Lawful(lib, steps) && Permitted(Run(lib, steps), step)
    ensures Lawful(lib, steps + [step]) && Run(lib, steps + [step]) == Next(lib, Run(lib, steps), step)
  {
    hide Permitted, Next;
    var longer := steps + [step];
    assert longer[..|longer| - 1] == steps && longer[|longer| - 1] == step;
  }

  // ---- Transactions --------------------------------------------------------------------------

  function OrderSteps(wall: u64): seq<Step> {
    [Step.PrepareOrder(wall, ORDER_DATA_LENGTH), WriteOrder(true), Step.CommitOrder]
  }

  function OrderFile(lib: Library, key: Bytes, order: u64): Bytes {
    Signed(lib, key, lib.orderBlob(Some(order)))
  }

  /** One order transaction carried through: the file and the context move to the next order together. */
  lemma OrderRound(lib: Library, steps: seq<Step>, key: Bytes, wall: u64, value: u64)
    requires Laws(lib) && Cooperative(lib) && Lawful(lib, steps)
    requires Run(lib, steps).live.identity == Some(key) && Run(lib, steps).orderSeeded
    requires PrepareNext(lib, Run(lib, steps).live.order, if wall == 0 then None else Some(wall)) == NextOrder(value)
    ensures Lawful(lib, steps + OrderSteps(wall))
    ensures var h, n := Run(lib, steps), Run(lib, steps + OrderSteps(wall));
            && n.live == h.live.(order := Some(value), pendingOrder := None)
            && n == h.(live := n.live, orderHeld := n.orderHeld, orderFiles := h.orderFiles[key := OrderFile(lib, key, value)])
  {
    hide Lawful, Run, CommitOrderSpec, Signed, PrepareNext;
    var h := Run(lib, steps);
    NextFits(lib, h.live.order, if wall == 0 then None else Some(wall));
    Extend(lib, steps, Step.PrepareOrder(wall, ORDER_DATA_LENGTH));
    var prepared := steps + [Step.PrepareOrder(wall, ORDER_DATA_LENGTH)];
    OrderIsOffer(lib, key, value);
    Extend(lib, prepared, WriteOrder(true));
    var written := prepared + [WriteOrder(true)];
    Extend(lib, written, Step.CommitOrder);
    assert written + [Step.CommitOrder] == steps + OrderSteps(wall);
    var s := Run(lib, written).live;
    CommitOrderNeedsOffer(lib, s, Trail(None, Some(Offer(OrderFile(lib, key, value), s.order))), OrderFile(lib, key, value));
  }

  function FirstRing(lib: Library, ring: Ring, entropy: Bytes): Ring
    requires lib.plan(ring, entropy, 1, 0).Rotate?
  {
    Rotated(lib, ring, entropy, lib.plan(ring, entropy, 1, 0).metadata)
  }

  function RingFile(lib: Library, key: Bytes, ring: Ring): Bytes {
    Signed(lib, key, lib.ringBlob(ring))
  }

  function RingSteps(lib: Library, ring: Ring, entropy: Bytes): seq<Step>
    requires lib.plan(ring, entropy, 1, 0).Rotate?
  {
    [Step.PrepareRing(entropy, 1, 0, SIGNATURE_LENGTH + |lib.ringBlob(FirstRing(lib, ring, entropy))|), WriteRing(true), Step.CommitRing]
  }

  lemma FirstRingFits(lib: Library, ring: Ring, entropy: Bytes)
    requires Laws(lib) && lib.ringFits(ring) && lib.plan(ring, entropy, 1, 0).Rotate?
    ensures var r := FirstRing(lib, ring, entropy);
            lib.ringFits(r) && r.keys != [] && Current(lib, r) == Some(lib.publicKey(entropy))
  {
    PlannedFits(lib, ring, entropy, 1, 0);
    RotatedKeeps(lib, ring, entropy, lib.plan(ring, entropy, 1, 0).metadata);
  }

  /** The first rotation carried through. */
  lemma RingRound(lib: Library, steps: seq<Step>, key: Bytes, entropy: Bytes)
    requires Laws(lib) && Cooperative(lib) && Lawful(lib, steps)
    requires Run(lib, steps).live.identity == Some(key) && Run(lib, steps).ringSeeded
    requires Run(lib, steps).live.ring.keys == []
    ensures var ring := Run(lib, steps).live.ring;
            var longer := steps + RingSteps(lib, ring, entropy);
            && Lawful(lib, longer)
            && var h, n := Run(lib, steps), Run(lib, longer);
               var first := FirstRing(lib, ring, entropy);
            && n.live == h.live.(ring := first, pendingRing := None)
            && n == h.(live := n.live, ringHeld := n.ringHeld, ringFiles := h.ringFiles[key := RingFile(lib, key, first)])
  {
    hide Lawful, Run, CommitRingSpec, Signed;
    RunKeepsRingSafe(lib, steps);
    var h := Run(lib, steps);
    var ring := FirstRing(lib, h.live.ring, entropy);
    FirstRingFits(lib, h.live.ring, entropy);
    RingRoundFrom(lib, steps, key, entropy, ring, RingFile(lib, key, ring));
  }

  lemma RingRoundFrom(lib: Library, steps: seq<Step>, key: Bytes, entropy: Bytes, ring: Ring, file: Bytes)
    requires Laws(lib) && Cooperative(lib) && Lawful(lib, steps)
    requires Run(lib, steps).live.identity == Some(key) && Run(lib, steps).ringSeeded
    requires Run(lib, steps).live.ring.keys == []
    requires ring == FirstRing(lib, Run(lib, steps).live.ring, entropy) && lib.ringFits(ring) && ring.keys != []
    requires file == RingFile(lib, key, ring)
    ensures var longer := steps + RingSteps(lib, Run(lib, steps).live.ring, entropy);
            && Lawful(lib, longer)
            && var h, n := Run(lib, steps), Run(lib, longer);
            && n.live == h.live.(ring := ring, pendingRing := None)
            && n == h.(live := n.live, ringHeld := n.ringHeld, ringFiles := h.ringFiles[key := file])
  {
    hide Laws, Lawful, Run, CommitRingSpec, Signed, Rotated;
    var h := Run(lib, steps);
    var prepare := Step.PrepareRing(entropy, 1, 0, SIGNATURE_LENGTH + |lib.ringBlob(ring)|);
    Extend(lib, steps, prepare);
    var prepared := steps + [prepare];
    CandidateIsOffer(lib, key, ring);
    Extend(lib, prepared, WriteRing(true));
    var written := prepared + [WriteRing(true)];
    Extend(lib, written, Step.CommitRing);
    assert written + [Step.CommitRing] == steps + RingSteps(lib, h.live.ring, entropy);
    var s := Run(lib, written).live;
    CommitNeedsOffer(lib, s, Trail(Some(Offer(file, s.ring)), None), file);
  }

  function SendStep(order: u64, ratchet: Bytes): Step {
    Send([], order, Some(ratchet), [], 0)
  }

  /** The live order and key pass the gate. */
  lemma SendLive(lib: Library, steps: seq<Step>, key: Bytes, order: u64, ratchet: Bytes)
    requires Laws(lib) && Cooperative(lib) && Lawful(lib, steps)
    requires Run(lib, steps).live.identity == Some(key) && Advertisable(lib, Run(lib, steps).live, order, ratchet)
    ensures Lawful(lib, steps + [SendStep(order, ratchet)])
    ensures Run(lib, steps + [SendStep(order, ratchet)]) == Run(lib, steps).(sent := Run(lib, steps).sent + [Advert(key, order, ratchet)])
  {
    hide Lawful, Run, AdvertsIn, OrderSafe;
    Extend(lib, steps, SendStep(order, ratchet));
    LiveOrderFits(lib, steps);
    SendMeans(lib, Run(lib, steps), [], order, Some(ratchet), [], 0);
  }

  lemma LiveOrderFits(lib: Library, steps: seq<Step>)
    requires Laws(lib) && Lawful(lib, steps)
    ensures OrderFits(Run(lib, steps).live.order)
  {
    hide Run, Lawful;
    RunKeepsOrderSafe(lib, steps);
  }

  // ---- Restarts ------------------------------------------------------------------------------

  function RestartSteps(key: Bytes): seq<Step> {
    [Boot, Step.Load(key), Step.SeedRing, Step.SeedOrder]
  }

  /** Power fails and the identity is loaded again: ring and order are then what the files hold, or fresh. */
  lemma Restart(lib: Library, steps: seq<Step>, key: Bytes)
    requires Laws(lib) && Lawful(lib, steps)
    ensures Lawful(lib, steps + RestartSteps(key))
    ensures OrderFilesSound(lib, Run(lib, steps).orderFiles) && RingFilesSound(lib, Run(lib, steps).ringFiles)
    ensures var h, n := Run(lib, steps), Run(lib, steps + RestartSteps(key));
            && n.live == Live(Some(key),
                              if key in h.ringFiles then StoredRing(lib, h.ringFiles[key]) else EMPTY_RING,
                              if key in h.orderFiles then Some(StoredOrder(lib, h.orderFiles[key])) else None,
                              None, None)
            && n == Host(n.live, h.ringFiles, h.orderFiles, None, None, true, true, h.sent)
  {
    hide Lawful, Run, RingOffer, OrderOffer, SeedRingSpec, SeedOrderSpec, LeastOrder;
    RunKeepsRingSafe(lib, steps);
    RunKeepsOrderSafe(lib, steps);
    var h := Run(lib, steps);
    Extend(lib, steps, Boot);
    var booted := steps + [Boot];
    Extend(lib, booted, Step.Load(key));
    var loaded := booted + [Step.Load(key)];
    if key in h.ringFiles {
      SeedFromFile(lib, LoadSpec(key), h.ringFiles[key]);
    }
    Extend(lib, loaded, Step.SeedRing);
    var rung := loaded + [Step.SeedRing];
    if key in h.orderFiles {
      SeedOrderFromFile(lib, Run(lib, rung).live, h.orderFiles[key]);
    }
    Extend(lib, rung, Step.SeedOrder);
    assert rung + [Step.SeedOrder] == steps + RestartSteps(key);
  }

  lemma NothingRun(lib: Library)
    ensures Lawful(lib, []) && Run(lib, []) == FACTORY
  {
  }

  /** A fresh device whose identity has sent one ratcheted announce at this wall time. */
  lemma FirstAnnounce(lib: Library, key: Bytes, entropy: Bytes, wall: u64) returns (steps: seq<Step>)
    requires Laws(lib) && Cooperative(lib) && 0 < wall < ORDER_LIMIT
    ensures Lawful(lib, steps)
    ensures var h := Run(lib, steps);
            && h.live.identity == Some(key) && Advertisable(lib, h.live, wall, lib.publicKey(entropy))
            && key in h.ringFiles && key in h.orderFiles
            && StoredRingIs(lib, h.ringFiles[key], FirstRing(lib, EMPTY_RING, entropy))
            && h.sent == [Advert(key, wall, lib.publicKey(entropy))]
  {
    hide Lawful, Run, Signed;
    EmptyFits(lib);
    var ring := FirstRing(lib, EMPTY_RING, entropy);
    FirstRingFits(lib, EMPTY_RING, entropy);
    CandidateIsOffer(lib, key, ring);
    NothingRun(lib);
    Restart(lib, [], key);
    steps := [] + RestartSteps(key);
    OrderRound(lib, steps, key, wall, wall);
    steps := steps + OrderSteps(wall);
    RingRound(lib, steps, key, entropy);
    steps := steps + RingSteps(lib, EMPTY_RING, entropy);
    SendLive(lib, steps, key, wall, lib.publicKey(entropy));
    steps := steps + [SendStep(wall, lib.publicKey(entropy))];
  }

  predicate StoredRingIs(lib: Library, file: Bytes, ring: Ring) {
    |file| >= SIGNATURE_LENGTH && lib.ringOf(BlobOf(file)) == Some(ring)
  }

  // ---- Moving a file aside -------------------------------------------------------------------

  /** Moving the order file aside just before a restart lets a later announce go out with an earlier order. */
  lemma QuarantineForgetsOrder(lib: Library, key: Bytes, entropy: Bytes) returns (steps: seq<Step>)
    requires Laws(lib) && Cooperative(lib)
    ensures Lawful(lib, steps)
    ensures var ratchet := lib.publicKey(entropy);
            Run(lib, steps).sent == [Advert(key, 100, ratchet), Advert(key, 50, ratchet)]
  {
    hide Lawful, Run, Signed;
    EmptyFits(lib);
    FirstRingFits(lib, EMPTY_RING, entropy);
    steps := FirstAnnounce(lib, key, entropy, 100);
    Extend(lib, steps, QuarantineOrder);
    steps := steps + [QuarantineOrder];
    Restart(lib, steps, key);
    steps := steps + RestartSteps(key);
    OrderRound(lib, steps, key, 50, 50);
    steps := steps + OrderSteps(50);
    SendLive(lib, steps, key, 50, lib.publicKey(entropy));
    steps := steps + [SendStep(50, lib.publicKey(entropy))];
  }

  /** Moving the ring file aside leaves its key advertisable with nothing durable behind it. */
  lemma QuarantineLosesKey(lib: Library, key: Bytes, entropy: Bytes) returns (steps: seq<Step>)
    requires Laws(lib) && Cooperative(lib)
    ensures Lawful(lib, steps)
    ensures var h := Run(lib, steps);
            h.live.identity == Some(key) && Advertisable(lib, h.live, 100, lib.publicKey(entropy)) && key !in h.ringFiles
  {
    hide Lawful, Run;
    steps := FirstAnnounce(lib, key, entropy, 100);
    Extend(lib, steps, QuarantineRing);
    steps := steps + [QuarantineRing];
  }

  // ---- Exactly when orders can go down -------------------------------------------------------

  predicate NoOrderSeed(steps: seq<Step>) {
    forall i :: 0 <= i < |steps| ==> !steps[i].SeedOrder?
  }

  /** Only restoring an order can forget one. */
  lemma {:induction false} OnlySeedsForget(lib: Library, steps: seq<Step>, more: seq<Step>)
    requires Lawful(lib, steps + more) && NoOrderSeed(more)
    requires Lawful(lib, steps) && NeverForgets(lib, steps)
    ensures NeverForgets(lib, steps + more)
    decreases |more|
  {
    hide Permitted, Next;
    if more == [] {
      assert steps + more == steps;
    } else {
      assert (steps + more)[..|steps + more| - 1] == steps + more[..|more| - 1];
      OnlySeedsForget(lib, steps, more[..|more| - 1]);
    }
  }

  /** The wall time that makes a fresh context offer the lowest order. */
  function LeastWall(lib: Library): u64 {
    if lib.firstOrder < 1 then 0 else 1
  }

  lemma LeastIsNext(lib: Library)
    ensures PrepareNext(lib, None, if LeastWall(lib) == 0 then None else Some(LeastWall(lib))) == NextOrder(LeastOrder(lib))
  {
  }

  /** Bringing a live ring with a key about, without restoring an order. */
  lemma MakeRing(lib: Library, steps: seq<Step>, key: Bytes) returns (more: seq<Step>)
    requires Laws(lib) && Cooperative(lib) && Lawful(lib, steps)
    requires Run(lib, steps).live.identity == Some(key)
    ensures NoOrderSeed(more) && Lawful(lib, steps + more)
    ensures var h, n := Run(lib, steps), Run(lib, steps + more);
            && n.live.ring.keys != [] && n.live.identity == Some(key) && n.live.order == h.live.order
            && n.orderSeeded == h.orderSeeded && n.orderFiles == h.orderFiles && n.sent == h.sent
  {
    hide Lawful, Run, SeedRingSpec, Signed;
    var h := Run(lib, steps);
    assert steps + [] == steps;
    RunKeepsRingSafe(lib, steps);
    if h.live.ring.keys != [] {
      more := [];
    } else {
      more := SeedFirst(lib, steps, key);
      var seeded := steps + more;
      if Run(lib, seeded).live.ring.keys == [] {
        RingRound(lib, seeded, key, []);
        EmptyRotates(lib, seeded, key);
        var round := RingSteps(lib, Run(lib, seeded).live.ring, []);
        assert seeded + round == steps + (more + round);
        more := more + round;
      }
    }
  }

  lemma EmptyRotates(lib: Library, steps: seq<Step>, key: Bytes)
    requires Laws(lib) && Cooperative(lib) && Lawful(lib, steps) && Run(lib, steps).live.ring.keys == []
    ensures FirstRing(lib, Run(lib, steps).live.ring, []).keys != []
  {
    hide Lawful, Run;
    RunKeepsRingSafe(lib, steps);
    FirstRingFits(lib, Run(lib, steps).live.ring, []);
  }

  lemma SeedFirst(lib: Library, steps: seq<Step>, key: Bytes) returns (more: seq<Step>)
    requires Laws(lib) && Lawful(lib, steps) && Run(lib, steps).live.identity == Some(key)
    ensures NoOrderSeed(more) && Lawful(lib, steps + more)
    ensures var h, n := Run(lib, steps), Run(lib, steps + more);
            && n.ringSeeded && n.live.identity == Some(key) && n.live.order == h.live.order
            && n.orderSeeded == h.orderSeeded && n.orderFiles == h.orderFiles && n.sent == h.sent
  {
    hide Lawful, Run, SeedRingSpec, RingOffer;
    var h := Run(lib, steps);
    assert steps + [] == steps;
    RunKeepsRingSafe(lib, steps);
    if h.ringSeeded {
      more := [];
    } else {
      if key in h.ringFiles {
        SeedFromFile(lib, h.live, h.ringFiles[key]);
      }
      Extend(lib, steps, Step.SeedRing);
      more := [Step.SeedRing];
    }
  }

  /** After forgetting, the host can go on to advertise the lowest order, below one advertised before. */
  lemma ForgettingUnorders(lib: Library, steps: seq<Step>, step: Step) returns (more: seq<Step>)
    requires Laws(lib) && Cooperative(lib) && Lawful(lib, steps)
    requires Permitted(Run(lib, steps), step) && Forgets(lib, Run(lib, steps), step)
    ensures NoOrderSeed(more) && Lawful(lib, steps + [step] + more) && !Ordered(Run(lib, steps + [step] + more).sent)
  {
    hide Lawful, Run, LeastOrder, LeastWall, PrepareNext;
    var h := Run(lib, steps);
    var key := h.live.identity.value;
    RunKeepsOrderSafe(lib, steps);
    Extend(lib, steps, step);
    var forgot := steps + [step];
    var ring := MakeRing(lib, forgot, key);
    LeastIsNext(lib);
    OrderRound(lib, forgot + ring, key, LeastWall(lib), LeastOrder(lib));
    var ordered := forgot + ring + OrderSteps(LeastWall(lib));
    var n := Run(lib, ordered);
    var ratchet := lib.publicKey(n.live.ring.keys[0]);
    SendLive(lib, ordered, key, LeastOrder(lib), ratchet);
    more := ring + OrderSteps(LeastWall(lib)) + [SendStep(LeastOrder(lib), ratchet)];
    assert forgot + more == ordered + [SendStep(LeastOrder(lib), ratchet)];
    LowerAtEnd(lib, h, Run(lib, forgot + more).sent, Advert(key, LeastOrder(lib), ratchet));
  }

  lemma LowerAtEnd(lib: Library, h: Host, sent: seq<Advert>, last: Advert)
    requires sent == h.sent + [last] && h.live.identity == Some(last.identity)
    requires exists i :: 0 <= i < |h.sent| && h.sent[i].identity == last.identity && h.sent[i].order > last.order
    ensures !Ordered(sent)
  {
    var i :| 0 <= i < |h.sent| && h.sent[i].identity == last.identity && h.sent[i].order > last.order;
    assert sent[i] == h.sent[i] && sent[|h.sent|] == last;
  }

  /**
   * For a run in which nothing was forgotten so far, the next step forgets exactly when the host can
   * go on from it, restoring no order again, to advertise orders that go down.
   */
  lemma ForgettingExactly(lib: Library, steps: seq<Step>, step: Step)
    requires Laws(lib) && Cooperative(lib) && Lawful(lib, steps) && NeverForgets(lib, steps) && Permitted(Run(lib, steps), step)
    ensures Forgets(lib, Run(lib, steps), step) <==>
              exists more :: NoOrderSeed(more) && Lawful(lib, steps + [step] + more) && !Ordered(Run(lib, steps + [step] + more).sent)
  {
    hide Lawful, Run, Ordered, Forgets, Permitted;
    if Forgets(lib, Run(lib, steps), step) {
      var more := ForgettingUnorders(lib, steps, step);
    } else {
      forall more | NoOrderSeed(more) && Lawful(lib, steps + [step] + more) ensures Ordered(Run(lib, steps + [step] + more).sent) {
        StepRemembers(lib, steps, step);
        OnlySeedsForget(lib, steps + [step], more);
        OrdersNeverDecrease(lib, steps + [step] + more);
      }
    }
  }

  lemma StepRemembers(lib: Library, steps: seq<Step>, step: Step)
    requires Lawful(lib, steps) && NeverForgets(lib, steps) && Permitted(Run(lib, steps), step)
    requires !Forgets(lib, Run(lib, steps), step)
    ensures Lawful(lib, steps + [step]) && NeverForgets(lib, steps + [step])
  {
    hide Forgets, Permitted, Next;
    Extend(lib, steps, step);
    assert (steps + [step])[..|steps|] == steps;
  }
}
