/** A small library that meets everything assumed of the announce crates, so that nothing proved from it is empty. */
module AnnounceExample {
  import opened Bytes
  import opened Announce
  import opened AnnounceTransactions
  import opened AnnounceRestarts

  // ---- Rings as octets -----------------------------------------------------------------------

  /** Each octet behind a one, and a zero at the end. */
  function Spelled(x: Bytes): Bytes {
    if x == [] then [0] else [1, x[0]] + Spelled(x[1..])
  }

  datatype Piece = NoPiece | Piece(octets: Bytes, rest: Bytes)

  function Read(b: Bytes): (p: Piece)
    ensures p.Piece? ==> |p.rest| < |b|
  {
    if b == [] then NoPiece
    else if b[0] == 0 then Piece([], b[1..])
    else if b[0] != 1 || |b| < 2 then NoPiece
    else
      match Read(b[2..])
      case NoPiece => NoPiece
      case Piece(octets, rest) => Piece([b[1]] + octets, rest)
  }

  lemma {:induction false} ReadsSpelled(x: Bytes, rest: Bytes)
    ensures Read(Spelled(x) + rest) == Piece(x, rest)
  {
    var b := Spelled(x) + rest;
    if x == [] {
      assert b[1..] == rest;
    } else {
      ReadsSpelled(x[1..], rest);
      assert b[2..] == Spelled(x[1..]) + rest;
      assert x == [x[0]] + x[1..];
    }
  }

  /** Keys, each behind a one; then a zero and the metadata. */
  function RingBlob(r: Ring): Bytes
    decreases |r.keys|
  {
    if r.keys == [] then [0] + Spelled(r.metadata)
    else [1] + (Spelled(r.keys[0]) + RingBlob(Ring(r.keys[1..], r.metadata)))
  }

  function RingOf(b: Bytes): Option<Ring>
    decreases |b|
  {
    if b == [] then None
    else
      match Read(b[1..])
      case NoPiece => None
      case Piece(octets, rest) =>
        if b[0] == 0 then (if rest == [] then Some(Ring([], octets)) else None)
        else
          match RingOf(rest)
          case None => None
          case Some(ring) => Some(Ring([octets] + ring.keys, ring.metadata))
  }

  lemma {:induction false} RingReadsBack(r: Ring)
    ensures RingOf(RingBlob(r)) == Some(r)
    decreases |r.keys|
  {
    hide Spelled, Read;
    var b := RingBlob(r);
    if r.keys == [] {
      ReadsSpelled(r.metadata, []);
      assert b[1..] == Spelled(r.metadata) + [];
    } else {
      var tail := Ring(r.keys[1..], r.metadata);
      RingReadsBack(tail);
      ReadsSpelled(r.keys[0], RingBlob(tail));
      assert b[1..] == Spelled(r.keys[0]) + RingBlob(tail);
      assert r.keys == [r.keys[0]] + r.keys[1..];
    }
  }

  // ---- Orders as octets ----------------------------------------------------------------------

  function OrderBlob(o: Option<u64>): Bytes {
    match o
    case None => [0] + ToBigEndian(0, 6)
    case Some(v) => [1] + ToBigEndian(v, 6)
  }

  function OrderOf(b: Bytes): Option<Option<u64>> {
    if |b| != ORDER_BLOB_LENGTH then None
    else if b[0] == 0 then Some(None)
    else if BigEndian(b[1..]) < ORDER_LIMIT then Some(Some(BigEndian(b[1..])))
    else None
  }

  lemma OrderReadsBack(o: Option<u64>)
    requires OrderFits(o)
    ensures OrderOf(OrderBlob(o)) == Some(o)
  {
    if o.Some? {
      WidthValues();
      assert Pow256(5) == 256 * Pow256(4);
      assert Pow256(6) == 256 * Pow256(5);
      BigEndianInverse(o.value, 6);
      assert OrderBlob(o)[1..] == ToBigEndian(o.value, 6);
    }
  }

  // ---- Announces as octets -------------------------------------------------------------------

  function Announcement(key: Bytes, random: Bytes, ratchet: Option<Bytes>, app: Bytes): Bytes {
    Spelled(key) + (Spelled(random) + (Spelled(app) + (if ratchet.Some? then Spelled(ratchet.value) else [])))
  }

  function Hear(payload: Bytes, flag: bool): Option<Heard> {
    match Read(payload)
    case NoPiece => None
    case Piece(key, r) =>
      match Read(r)
      case NoPiece => None
      case Piece(random, a) =>
        match Read(a)
        case NoPiece => None
        case Piece(app, last) =>
          if !flag then Some(Heard(key, random, None, app))
          else
            match Read(last)
            case NoPiece => None
            case Piece(ratchet, _) => Some(Heard(key, random, Some(ratchet), app))
  }

  lemma AnnouncementReadsBack(key: Bytes, random: Bytes, ratchet: Option<Bytes>, app: Bytes)
    ensures Hear(Announcement(key, random, ratchet, app), ratchet.Some?) == Some(Heard(key, random, ratchet, app))
  {
    hide Spelled, Read;
    var last := if ratchet.Some? then Spelled(ratchet.value) else [];
    ReadsSpelled(key, Spelled(random) + (Spelled(app) + last));
    ReadsSpelled(random, Spelled(app) + last);
    ReadsSpelled(app, last);
    if ratchet.Some? {
      ReadsSpelled(ratchet.value, []);
      assert last + [] == last;
    }
  }

  // ---- The library ---------------------------------------------------------------------------

  function Zeros(n: nat): (z: Bytes)
    ensures |z| == n
  {
    seq(n, _ => 0)
  }

  function Signature(key: Bytes): (s: Bytes)
    ensures |s| == SIGNATURE_LENGTH
  {
    if |key| == SIGNATURE_LENGTH then key else Zeros(SIGNATURE_LENGTH)
  }

  function Plan(r: Ring): Announce.Plan {
    if r.keys == [] then Rotate([]) else KeepRing
  }

  const EXAMPLE := Library(
    (key, message) => Signature(key),
    message => message,
    key => key,
    (ring, entropy, wall, uptime) => Plan(ring),
    2,
    ring => true,
    ring => RingBlob(ring),
    blob => RingOf(blob),
    (live, candidate) => true,
    1,
    order => OrderBlob(order),
    blob => OrderOf(blob),
    (live, candidate) => true,
    key => key,
    (key, random, ratchet, app, capacity) => Built(Announcement(key, random, ratchet, app)),
    (payload, flag) => Hear(payload, flag))

  /** All assumptions about the crates hold of it together. */
  lemma AssumptionsHold()
    ensures Laws(EXAMPLE) && Cooperative(EXAMPLE) && SignaturesDiffer(EXAMPLE)
  {
    hide RingBlob, RingOf, OrderBlob, OrderOf, Announcement, Hear;
    forall r ensures EXAMPLE.ringOf(EXAMPLE.ringBlob(r)) == Some(r) {
      RingReadsBack(r);
    }
    forall o | OrderFits(o)
      ensures EXAMPLE.orderOf(EXAMPLE.orderBlob(o)) == Some(o) && |EXAMPLE.orderBlob(o)| == ORDER_BLOB_LENGTH
    {
      OrderReadsBack(o);
      OrderIsShort(o);
    }
    forall b | EXAMPLE.orderOf(b).Some? ensures OrderFits(EXAMPLE.orderOf(b).value) {
      OrderOfFits(b);
    }
    ExampleIsHeard();
  }

  lemma ExampleIsHeard()
    ensures HeardAsBuilt(EXAMPLE)
  {
    hide Announcement, Hear;
    forall k, r, p: Option<Bytes>, a, c | EXAMPLE.build(k, r, p, a, c).Built?
      ensures EXAMPLE.hear(EXAMPLE.build(k, r, p, a, c).payload, p.Some?) == Some(Heard(EXAMPLE.destination(k), r, p, a))
    {
      AnnouncementReadsBack(k, r, p, a);
    }
  }

  lemma OrderIsShort(o: Option<u64>)
    ensures |OrderBlob(o)| == ORDER_BLOB_LENGTH
  {
  }

  lemma OrderOfFits(b: Bytes)
    ensures OrderOf(b).Some? ==> OrderFits(OrderOf(b).value)
  {
  }
}
