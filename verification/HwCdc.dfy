/** The USB CDC transmit path: an interrupt step that keeps a partly written ring item, and ring replacement. */
module HwCdc {
  import opened Bytes

  const ITEM_MAX: nat := 64

  /** A ring buffer, told apart from every other one created, and what waits in it. */
  datatype Ring = Ring(id: nat, waiting: Bytes)

  /** An item received from a ring and not yet returned to it. */
  datatype Item = Item(data: Bytes, ring: nat)

  /** The driver's variables: the ring, the three words about the item in hand, and the interrupt mask. */
  datatype Driver = Driver(ring: Option<Ring>, pendingBuf: Option<Item>, pendingSize: nat, pendingOffset: nat, interrupt: bool)

  /** What has happened: octets a ring took, octets the hardware took, the lengths reported; per ring. */
  datatype Ledger = Ledger(accepted: Bytes, sent: Bytes, reported: nat)

  datatype World = World(driver: Driver, ledger: Ledger, closed: seq<Closed>, created: nat)

  /** A ring that was replaced: what it took, what went out, and what was dropped with it. */
  datatype Closed = Closed(accepted: Bytes, sent: Bytes, dropped: Bytes, reported: nat)

  const RESET := World(Driver(None, None, 0, 0, false), Ledger([], [], 0), [], 0)

  // ---- What the steps do ---------------------------------------------------------------------

  /** How many octets the ring hands over: at least one, at most 64, fewer at its wrap-around. */
  function Taken(chunk: nat, waiting: nat): (n: nat)
    requires waiting > 0
    ensures 1 <= n <= waiting && n <= ITEM_MAX
  {
    var most := if waiting < ITEM_MAX then waiting else ITEM_MAX;
    if chunk < 1 then 1 else if chunk > most then most else chunk
  }

  function Receive(d: Driver, chunk: nat): Driver
    requires d.ring.Some?
  {
    if d.pendingBuf.Some? then d
    else if d.ring.value.waiting == [] then d.(pendingOffset := 0)
    else
      var n := Taken(chunk, |d.ring.value.waiting|);
      d.(ring := Some(Ring(d.ring.value.id, d.ring.value.waiting[n..])),
         pendingBuf := Some(Item(d.ring.value.waiting[..n], d.ring.value.id)), pendingSize := n, pendingOffset := 0)
  }

  /** The hardware takes some of what it is offered, possibly nothing. */
  function Copied(d: Driver, room: nat): nat
    requires d.pendingOffset <= d.pendingSize
  {
    if room < d.pendingSize - d.pendingOffset then room else d.pendingSize - d.pendingOffset
  }

  function Suffix(d: Driver): Bytes {
    if d.pendingBuf.Some? && d.pendingOffset <= |d.pendingBuf.value.data| then d.pendingBuf.value.data[d.pendingOffset..] else []
  }

  function Waiting(d: Driver): Bytes {
    if d.ring.Some? then d.ring.value.waiting else []
  }

  predicate Valid(d: Driver) {
    match d.pendingBuf
    case None => d.pendingSize == 0 && d.pendingOffset == 0
    case Some(item) =>
      && |item.data| == d.pendingSize && d.pendingOffset < d.pendingSize
      && d.ring.Some? && item.ring == d.ring.value.id
  }

  datatype Sending = Sending(driver: Driver, out: Bytes)

  /** Offers the rest of the item in hand to the hardware; only a finished item is given back. */
  function Push(d: Driver, room: nat, connected: bool): Sending
    requires Valid(d) && d.pendingBuf.Some?
  {
    var n := Copied(d, room);
    var out := d.pendingBuf.value.data[d.pendingOffset..d.pendingOffset + n];
    var rest := if d.pendingOffset + n == d.pendingSize then d.(pendingBuf := None, pendingSize := 0, pendingOffset := 0)
                else d.(pendingOffset := d.pendingOffset + n);
    Sending(rest.(interrupt := connected), out)
  }

  /** One run of the transmit interrupt: the octets that reach the FIFO, and the driver afterwards. */
  function Interrupt(d: Driver, writable: bool, chunk: nat, room: nat, connected: bool): Sending
    requires Valid(d)
  {
    if d.ring.None? || !writable then Sending(d, [])
    else
      ReceiveConserves(d.(interrupt := false), chunk);
      var r := Receive(d.(interrupt := false), chunk);
      if r.pendingBuf.None? then Sending(r, []) else Push(r, room, connected)
  }

  datatype Operation =
    | Send(data: Bytes, fits: bool)
    | Isr(writable: bool, chunk: nat, room: nat, connected: bool)
    | SetTxBufferSize(size: nat, created: bool, locking: bool, locked: bool)

  /** Whether a call to replace the ring gets as far as replacing it. */
  predicate Replaces(op: Operation)
    requires op.SetTxBufferSize?
  {
    (op.size > 0 ==> op.created) && (op.locking ==> op.locked)
  }

  function Next(w: World, op: Operation): World
    requires Valid(w.driver)
  {
    match op
    case Send(data, fits) =>
      if w.driver.ring.None? || !fits then w
      else w.(driver := w.driver.(ring := Some(Ring(w.driver.ring.value.id, w.driver.ring.value.waiting + data))),
              ledger := w.ledger.(accepted := w.ledger.accepted + data))
    case Isr(writable, chunk, room, connected) =>
      var s := Interrupt(w.driver, writable, chunk, room, connected);
      w.(driver := s.driver, ledger := w.ledger.(sent := w.ledger.sent + s.out, reported := w.ledger.reported + |s.out|))
    case SetTxBufferSize(size, _, _, _) =>
      var created := w.created + (if size > 0 && op.created then 1 else 0);
      if !Replaces(op) then w.(created := created)
      else
        World(Driver(if size > 0 then Some(Ring(w.created, [])) else None, None, 0, 0, w.driver.interrupt),
              Ledger([], [], 0),
              w.closed + [Closed(w.ledger.accepted, w.ledger.sent, Suffix(w.driver) + Waiting(w.driver), w.ledger.reported)],
              created)
  }

  // ---- The driver ----------------------------------------------------------------------------

  class Cdc {
    var ring: Option<Ring>
    var pendingBuf: Option<Item>
    var pendingSize: nat
    var pendingOffset: nat
    var interrupt: bool
    var created: nat
    ghost var ledger: Ledger
    ghost var closed: seq<Closed>

    ghost function State(): Driver
      reads this
    {
      Driver(ring, pendingBuf, pendingSize, pendingOffset, interrupt)
    }

    ghost function Everything(): World
      reads this
    {
      World(State(), ledger, closed, created)
    }

    constructor ()
      ensures Everything() == RESET
      ensures ring == None && pendingBuf == None && !interrupt && ledger.accepted == ledger.sent == []
    {
      ring, pendingBuf, pendingSize, pendingOffset, interrupt, created := None, None, 0, 0, false, 0;
      ledger, closed := Ledger([], [], 0), [];
    }

    method Send(data: Bytes, fits: bool) returns (accepted: bool)
      requires Valid(State())
      modifies this
      ensures Everything() == Next(old(Everything()), Operation.Send(data, fits))
      ensures accepted <==> old(ring).Some? && fits
    {
      accepted := ring.Some? && fits;
      if accepted {
        ring := Some(Ring(ring.value.id, ring.value.waiting + data));
        ledger := ledger.(accepted := ledger.accepted + data);
      }
    }

    /** Asks the ring for an item when none is in hand. */
    method ReceiveItem(chunk: nat)
      requires Valid(State()) && ring.Some?
      modifies this`ring, this`pendingBuf, this`pendingSize, this`pendingOffset
      ensures State() == Receive(old(State()), chunk)
    {
      if pendingBuf.None? {
        if ring.value.waiting != [] {
          pendingSize := Taken(chunk, |ring.value.waiting|);
          pendingBuf := Some(Item(ring.value.waiting[..pendingSize], ring.value.id));
          ring := Some(Ring(ring.value.id, ring.value.waiting[pendingSize..]));
        }
        pendingOffset := 0;
      }
    }

    /** Copies to the FIFO what it takes. */
    method PushItem(room: nat, connected: bool) returns (out: Bytes)
      requires Valid(State()) && pendingBuf.Some?
      modifies this`pendingBuf, this`pendingSize, this`pendingOffset, this`interrupt
      ensures Push(old(State()), room, connected) == Sending(State(), out)
    {
      var left := pendingSize - pendingOffset;
      var copied := if room < left then room else left;
      out := pendingBuf.value.data[pendingOffset..pendingOffset + copied];
      pendingOffset := pendingOffset + copied;
      if pendingOffset == pendingSize {
        pendingBuf := None;
        pendingSize, pendingOffset := 0, 0;
      }
      interrupt := connected;
    }

    /** Returns what goes to the FIFO; its length is what the TX event reports, if it is not zero. */
    method Isr(writable: bool, chunk: nat, room: nat, connected: bool) returns (out: Bytes, event: Option<nat>)
      requires Valid(State())
      modifies this
      ensures Everything() == Next(old(Everything()), Operation.Isr(writable, chunk, room, connected))
      ensures out == Interrupt(old(State()), writable, chunk, room, connected).out
      ensures event == if out == [] then None else Some(|out|)
    {
      hide Receive, Push, Suffix, Waiting;
      out := [];
      if ring.Some? && writable {
        interrupt := false;
        ReceiveConserves(State(), chunk);
        ReceiveItem(chunk);
        if pendingBuf.Some? {
          out := PushItem(room, connected);
        }
      }
      ledger := ledger.(sent := ledger.sent + out, reported := ledger.reported + |out|);
      event := if |out| > 0 then Some(|out|) else None;
    }

    method SetTxBufferSize(size: nat, creates: bool, locking: bool, locked: bool) returns (result: nat)
      requires Valid(State())
      modifies this
      ensures Everything() == Next(old(Everything()), Operation.SetTxBufferSize(size, creates, locking, locked))
      ensures result == if Replaces(Operation.SetTxBufferSize(size, creates, locking, locked)) then size else 0
    {
      var replacement: Option<Ring> := None;
      if size > 0 {
        if !creates {
          return 0;
        }
        replacement := Some(Ring(created, []));
        created := created + 1;
      }
      if locking && !locked {
        return 0;
      }
      closed := closed + [Closed(ledger.accepted, ledger.sent, Suffix(State()) + Waiting(State()), ledger.reported)];
      ledger := Ledger([], [], 0);
      ring := replacement;
      pendingBuf := None;
      pendingSize, pendingOffset := 0, 0;
      return size;
    }
  }

  // ---- Conservation --------------------------------------------------------------------------

  /** Nothing lost, duplicated or reordered, and every octet out was reported. */
  predicate Conserved(w: World) {
    && Valid(w.driver)
    && w.ledger.sent + Suffix(w.driver) + Waiting(w.driver) == w.ledger.accepted
    && w.ledger.reported == |w.ledger.sent|
    && (w.driver.ring.Some? ==> w.driver.ring.value.id < w.created)
    && forall i :: 0 <= i < |w.closed| ==>
         w.closed[i].sent + w.closed[i].dropped == w.closed[i].accepted && w.closed[i].reported == |w.closed[i].sent|
  }

  lemma ReceiveConserves(d: Driver, chunk: nat)
    requires Valid(d) && d.ring.Some?
    ensures var r := Receive(d, chunk);
            && Valid(r) && Suffix(r) + Waiting(r) == Suffix(d) + Waiting(d)
            && (Suffix(d) + Waiting(d) != [] ==> r.pendingBuf.Some?)
            && r.ring.Some? && r.ring.value.id == d.ring.value.id
  {
    if d.pendingBuf.None? && d.ring.value.waiting != [] {
      var n := Taken(chunk, |d.ring.value.waiting|);
      assert d.ring.value.waiting == d.ring.value.waiting[..n] + d.ring.value.waiting[n..];
    }
  }

  lemma PushConserves(d: Driver, room: nat, connected: bool)
    requires Valid(d) && d.pendingBuf.Some?
    ensures var s := Push(d, room, connected);
            && Valid(s.driver) && s.driver.ring == d.ring
            && s.out + Suffix(s.driver) == Suffix(d)
            && (room > 0 ==> s.out != [])
  {
    var n := Copied(d, room);
    var data := d.pendingBuf.value.data;
    assert data[d.pendingOffset..] == data[d.pendingOffset..d.pendingOffset + n] + data[d.pendingOffset + n..];
  }

  /** The interrupt moves a prefix of what is left to the FIFO and keeps the rest, in order. */
  lemma InterruptConserves(d: Driver, writable: bool, chunk: nat, room: nat, connected: bool)
    requires Valid(d)
    ensures var s := Interrupt(d, writable, chunk, room, connected);
            && Valid(s.driver)
            && s.out + (Suffix(s.driver) + Waiting(s.driver)) == Suffix(d) + Waiting(d)
            && (d.ring.Some? <==> s.driver.ring.Some?) && (d.ring.Some? ==> s.driver.ring.value.id == d.ring.value.id)
            && (d.ring.Some? && writable && room > 0 && Suffix(d) + Waiting(d) != [] ==> s.out != [])
  {
    hide Receive, Push;
    if d.ring.Some? && writable {
      var r := Receive(d.(interrupt := false), chunk);
      ReceiveConserves(d.(interrupt := false), chunk);
      if r.pendingBuf.Some? {
        PushConserves(r, room, connected);
        var s := Push(r, room, connected);
        Associates(s.out, Suffix(s.driver), Waiting(s.driver));
      }
    }
  }

  lemma StepConserves(w: World, op: Operation)
    requires Conserved(w)
    ensures Conserved(Next(w, op))
  {
    hide Interrupt;
    match op
    case Send(data, fits) =>
      if w.driver.ring.Some? {
        Associates(w.ledger.sent + Suffix(w.driver), Waiting(w.driver), data);
      }
    case Isr(writable, chunk, room, connected) =>
      InterruptConserves(w.driver, writable, chunk, room, connected);
      var s := Interrupt(w.driver, writable, chunk, room, connected);
      Associates(w.ledger.sent, Suffix(w.driver), Waiting(w.driver));
      Associates(w.ledger.sent, s.out, Suffix(s.driver) + Waiting(s.driver));
      Associates(w.ledger.sent + s.out, Suffix(s.driver), Waiting(s.driver));
    case SetTxBufferSize(_, _, _, _) =>
      Associates(w.ledger.sent, Suffix(w.driver), Waiting(w.driver));
  }

  function Run(ops: seq<Operation>): (w: World)
    ensures Conserved(w)
  {
    if ops == [] then RESET
    else
      var before := Run(ops[..|ops| - 1]);
      StepConserves(before, ops[|ops| - 1]);
      Next(before, ops[|ops| - 1])
  }

  /** In every run: what the current ring took is what went out, then the unsent rest of the item, then the ring. */
  lemma StreamIsConserved(ops: seq<Operation>)
    ensures var w := Run(ops);
            && w.ledger.accepted == w.ledger.sent + Suffix(w.driver) + Waiting(w.driver)
            && w.ledger.reported == |w.ledger.sent|
            && (w.driver.pendingBuf.Some? ==> w.driver.ring.Some? && w.driver.pendingBuf.value.ring == w.driver.ring.value.id)
  {
    hide Next;
  }

  // ---- Everything that ever went out ---------------------------------------------------------

  /** The octets the hardware took, over all rings. */
  function Wire(ops: seq<Operation>): Bytes {
    if ops == [] then []
    else
      var before, op := ops[..|ops| - 1], ops[|ops| - 1];
      Wire(before) +
      (if op.Isr? then Interrupt(Run(before).driver, op.writable, op.chunk, op.room, op.connected).out else [])
  }

  function SentBy(closed: seq<Closed>): Bytes {
    if closed == [] then [] else SentBy(closed[..|closed| - 1]) + closed[|closed| - 1].sent
  }

  /** Ring by ring, the wire carries the start of what each ring took and nothing else. */
  lemma {:induction false} WireIsPrefixes(ops: seq<Operation>)
    ensures var w := Run(ops);
            && Wire(ops) == SentBy(w.closed) + w.ledger.sent
            && w.ledger.sent <= w.ledger.accepted
            && forall i :: 0 <= i < |w.closed| ==> w.closed[i].sent <= w.closed[i].accepted
  {
    hide Interrupt;
    if ops != [] {
      var before, op := ops[..|ops| - 1], ops[|ops| - 1];
      WireIsPrefixes(before);
      var b := Run(before);
      match op
      case Send(_, _) =>
      case Isr(_, _, _, _) =>
        Associates(SentBy(b.closed), b.ledger.sent, Interrupt(b.driver, op.writable, op.chunk, op.room, op.connected).out);
      case SetTxBufferSize(_, _, _, _) =>
        if Replaces(op) {
          assert Run(ops).closed[..|b.closed|] == b.closed;
        }
    }
  }

  // ---- Step by step --------------------------------------------------------------------------

  /** A send adds its octets behind all others when there is a ring with room for them, and is refused otherwise. */
  lemma SendMeans(w: World, data: Bytes, fits: bool)
    requires Valid(w.driver)
    ensures var n := Next(w, Operation.Send(data, fits));
            if w.driver.ring.Some? && fits then
              n.ledger == w.ledger.(accepted := w.ledger.accepted + data) && Waiting(n.driver) == Waiting(w.driver) + data
              && n.closed == w.closed && n.created == w.created
              && n.driver.pendingBuf == w.driver.pendingBuf && n.driver.pendingOffset == w.driver.pendingOffset
            else n == w
  {
  }

  lemma PushMeans(d: Driver, room: nat, connected: bool)
    requires Valid(d) && d.pendingBuf.Some?
    ensures var s := Push(d, room, connected);
            && s.out == Suffix(d)[..if room < |Suffix(d)| then room else |Suffix(d)|]
            && s.driver.ring == d.ring && |s.out| + |Suffix(s.driver)| == |Suffix(d)|
            && s.driver.pendingBuf == if |s.out| < |Suffix(d)| then d.pendingBuf else None
  {
  }

  lemma ReceiveMeans(d: Driver, chunk: nat)
    requires Valid(d) && d.ring.Some?
    ensures var r := Receive(d, chunk);
            if d.pendingBuf.Some? then r == d
            else
              && |Suffix(r)| <= 64 && Suffix(r) <= Waiting(d)
              && (r.pendingBuf.None? <==> Waiting(d) == [])
              && (chunk >= 64 ==> |Suffix(r)| == if |Waiting(d)| < 64 then |Waiting(d)| else 64)
  {
  }

  /**
   * An interrupt does nothing without a ring or room. With an item in hand it offers its rest and takes
   * no other; else it takes at most 64 octets from the ring. What the hardware has room for goes out.
   */
  lemma InterruptMeans(d: Driver, writable: bool, chunk: nat, room: nat, connected: bool)
    requires Valid(d)
    ensures var s := Interrupt(d, writable, chunk, room, connected);
            if d.ring.None? || !writable then s == Sending(d, [])
            else if d.pendingBuf.Some? then
              s.out == Suffix(d)[..if room < |Suffix(d)| then room else |Suffix(d)|] && Waiting(s.driver) == Waiting(d)
              && (s.driver.pendingBuf == if |s.out| < |Suffix(d)| then d.pendingBuf else None)
            else
              && s.out <= Waiting(d) && |s.out| <= room
              && (|s.out| < room ==> Suffix(s.driver) == [])
              && |s.out| + |Suffix(s.driver)| <= 64
              && (chunk >= 64 ==> |s.out| + |Suffix(s.driver)| == if |Waiting(d)| < 64 then |Waiting(d)| else 64)
  {
    hide Push, Receive;
    if d.ring.Some? && writable {
      var armed := d.(interrupt := false);
      assert Suffix(armed) == Suffix(d) && Waiting(armed) == Waiting(d);
      ReceiveConserves(armed, chunk);
      ReceiveMeans(armed, chunk);
      var r := Receive(armed, chunk);
      if r.pendingBuf.Some? {
        PushMeans(r, room, connected);
      }
    }
  }

  /** A replacement that cannot create its ring or get the lock changes no ring; any other starts one with nothing in it. */
  lemma ReplaceMeans(w: World, size: nat, created: bool, locking: bool, locked: bool)
    requires Valid(w.driver)
    ensures var n := Next(w, Operation.SetTxBufferSize(size, created, locking, locked));
            if (size > 0 && !created) || (locking && !locked) then
              n.driver == w.driver && n.ledger == w.ledger && n.closed == w.closed
            else
              && (n.driver.ring.Some? <==> size > 0) && Waiting(n.driver) == [] && n.driver.pendingBuf == None
              && (size > 0 ==> n.driver.ring.value.id == w.created && n.created == w.created + 1)
              && n.ledger == Ledger([], [], 0) && |n.closed| == |w.closed| + 1 && n.closed[..|w.closed|] == w.closed
              && n.closed[|w.closed|].accepted == w.ledger.accepted && n.closed[|w.closed|].sent == w.ledger.sent
  {
  }

  // ---- Progress ------------------------------------------------------------------------------

  predicate Pushes(op: Operation) {
    op.Isr? && op.writable && op.room > 0
  }

  function Left(d: Driver): nat {
    |Suffix(d)| + |Waiting(d)|
  }

  lemma PushShrinks(w: World, op: Operation)
    requires Conserved(w) && Pushes(op)
    ensures var n := Next(w, op);
            && Left(n.driver) <= Left(w.driver) && (Left(w.driver) > 0 ==> Left(n.driver) < Left(w.driver))
            && n.ledger.accepted == w.ledger.accepted
  {
    hide Interrupt;
    InterruptConserves(w.driver, op.writable, op.chunk, op.room, op.connected);
    var s := Interrupt(w.driver, op.writable, op.chunk, op.room, op.connected);
    assert |s.out| + (|Suffix(s.driver)| + |Waiting(s.driver)|) == |Suffix(w.driver) + Waiting(w.driver)|;
  }

  lemma RunSnoc(ops: seq<Operation>, op: Operation)
    ensures Run(ops + [op]) == Next(Run(ops), op)
  {
    hide Next;
    assert (ops + [op])[..|ops|] == ops;
  }

  lemma NothingLeft(w: World)
    requires Conserved(w) && Left(w.driver) == 0
    ensures w.ledger.sent == w.ledger.accepted
  {
  }

  /** As many interrupts that find room, however little, as there are octets left send them all. */
  lemma {:induction false} PushesDrain(ops: seq<Operation>, pushes: seq<Operation>)
    requires forall i :: 0 <= i < |pushes| ==> Pushes(pushes[i])
    ensures var w, n := Run(ops), Run(ops + pushes);
            && n.ledger.accepted == w.ledger.accepted
            && Left(n.driver) <= (if Left(w.driver) <= |pushes| then 0 else Left(w.driver) - |pushes|)
            && (Left(w.driver) <= |pushes| ==> n.ledger.sent == w.ledger.accepted)
    decreases |pushes|
  {
    hide Next, Run, Left, Conserved;
    if pushes == [] {
      assert ops + pushes == ops;
    } else {
      var front, last := pushes[..|pushes| - 1], pushes[|pushes| - 1];
      PushesDrain(ops, front);
      assert ops + pushes == ops + front + [last];
      RunSnoc(ops + front, last);
      PushShrinks(Run(ops + front), last);
    }
    if Left(Run(ops + pushes).driver) == 0 {
      NothingLeft(Run(ops + pushes));
    }
  }

  /** The interrupt leaves itself armed exactly when it found work and the host is connected. */
  lemma InterruptStaysArmed(d: Driver, chunk: nat, room: nat, connected: bool)
    requires Valid(d) && d.ring.Some?
    ensures var s := Interrupt(d, true, chunk, room, connected).driver;
            s.interrupt <==> connected && Suffix(d) + Waiting(d) != []
  {
    hide Receive;
    ReceiveConserves(d.(interrupt := false), chunk);
    ReceiveDisarms(d.(interrupt := false), chunk);
  }

  lemma ReceiveDisarms(d: Driver, chunk: nat)
    requires Valid(d) && d.ring.Some? && !d.interrupt
    ensures !Receive(d, chunk).interrupt
    ensures Suffix(d) + Waiting(d) == [] ==> Receive(d, chunk).pendingBuf.None?
  {
  }
}
