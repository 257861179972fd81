/** The RRC v1 envelope decoder: one map of known fields, read in place from a single packet. */
module Envelope {
  import opened Bytes
  import opened Cbor

  datatype Meta = Meta(kind: u64, timestamp: u64, id: Bytes, source: Bytes, destination: Bytes, hasDestination: nat)

  // bodyKind: 0 absent, 1 text, 2 any other item.
  datatype View = View(meta: Meta, room: Span, nickname: Span, body: Span, text: Span, bodyKind: nat)

  const ID_LENGTH: nat := 8
  const IDENTITY_LENGTH: nat := 16
  const ROOM_MAX: nat := 64
  const NICKNAME_MAX: nat := 32

  const LAST_KNOWN_KEY: nat := 8
  const REQUIRED_KEYS: set<u64> := {0, 1, 2, 3, 4}

  function Zeros(n: nat): (z: Bytes)
    ensures |z| == n
  {
    seq(n, _ => 0)
  }

  const EMPTY_VIEW: View :=
    View(Meta(0, 0, Zeros(ID_LENGTH), Zeros(IDENTITY_LENGTH), Zeros(IDENTITY_LENGTH), 0),
         NO_SPAN, NO_SPAN, NO_SPAN, NO_SPAN, 0)

  /** What one entry's value turns out to be. */
  datatype Value =
    | Version
    | Number(n: u64)
    | Octets(data: Bytes)
    | Text(span: Span)
    | TextBody(text: Span, whole: Span)
    | OtherBody(whole: Span)
    | Skipped

  function ValueAt(b: Bytes, pos: nat, key: u64): (r: Result<Read<Value>>)
    requires |b| <= MDU
    ensures r.Ok? ==> pos < r.value.next <= |b|
  {
    if key == 0 then
      var n :- UintAt(b, pos);
      if n.value != 1 then Err(Unsupported) else Ok(Read(Version, n.next))
    else if key == 1 || key == 3 then
      var n :- UintAt(b, pos);
      Ok(Read(Number(n.value), n.next))
    else if key == 2 || key == 4 || key == 8 then
      var d :- FixedAt(b, pos, if key == 2 then ID_LENGTH else IDENTITY_LENGTH);
      Ok(Read(Octets(d.value), d.next))
    else if key == 5 || key == 7 then
      var s :- OptionalTextAt(b, pos, if key == 5 then ROOM_MAX else NICKNAME_MAX);
      Ok(Read(Text(s.value), s.next))
    else if key == 6 && pos < |b| && b[pos] / 32 == 3 then
      var s :- SpanAt(b, pos, 3, MDU);
      Ok(Read(TextBody(s.value, Span(Low16(pos), Low16(s.next - pos))), s.next))
    else
      var end :- SkipAt(b, pos, 1);
      Ok(Read(if key == 6 then OtherBody(Span(Low16(pos), Low16(end - pos))) else Skipped, end))
  }

  /** The view after one entry. */
  function Store(v: View, key: u64, value: Value): View {
    match value
    case Version => v
    case Number(n) => if key == 1 then v.(meta := v.meta.(kind := n)) else v.(meta := v.meta.(timestamp := n))
    case Octets(d) =>
      if key == 2 then v.(meta := v.meta.(id := d))
      else if key == 4 then v.(meta := v.meta.(source := d))
      else v.(meta := v.meta.(destination := d, hasDestination := 1))
    case Text(s) => if key == 5 then v.(room := s) else v.(nickname := s)
    case TextBody(t, w) => v.(text := t, body := w, bodyKind := 1)
    case OtherBody(w) => v.(body := w, bodyKind := 2)
    case Skipped => v
  }

  datatype Progress = Progress(seen: set<u64>, view: View)

  /** The remaining `count` entries. */
  function EntriesAt(b: Bytes, pos: nat, count: nat, p: Progress): (r: Result<Read<Progress>>)
    requires pos <= |b| <= MDU
    ensures r.Ok? ==> pos <= r.value.next <= |b|
    decreases count
  {
    if count == 0 then Ok(Read(p, pos))
    else
      var key :- UintAt(b, pos);
      if key.value <= LAST_KNOWN_KEY && key.value in p.seen then Err(Invalid)
      else
        var value :- ValueAt(b, key.next, key.value);
        EntriesAt(b, value.next, count - 1, After(p, key.value, value.value))
  }

  /** Only known keys are remembered, so extension keys may repeat. */
  function After(p: Progress, key: u64, value: Value): Progress {
    Progress(if key <= LAST_KNOWN_KEY then p.seen + {key} else p.seen, Store(p.view, key, value))
  }

  const START := Progress({}, EMPTY_VIEW)

  function DecodeSpec(b: Bytes): Result<View> {
    if |b| > MDU then Err(Capacity)
    else
      var entries :- ContainerAt(b, 0, 5);
      var end :- EntriesAt(b, entries.next, entries.value, START);
      if !(REQUIRED_KEYS <= end.value.seen) || end.next != |b| then Err(Invalid) else Ok(end.value.view)
  }

  /** One value, read by the reader at its position. */
  method ReadValue(reader: Reader, key: u64) returns (r: Result<Value>)
    requires reader.Valid()
    modifies reader
    ensures reader.Follows(r, ValueAt(reader.bytes, old(reader.pos), key))
  {
    var start := reader.pos;
    match key {
      case 0 =>
        var n :- reader.Uint();
        if n != 1 {
          return Err(Unsupported);
        }
        return Ok(Version);
      case 1 =>
        var n :- reader.Uint();
        return Ok(Number(n));
      case 2 =>
        var d :- reader.Fixed(ID_LENGTH);
        return Ok(Octets(d));
      case 3 =>
        var n :- reader.Uint();
        return Ok(Number(n));
      case 4 =>
        var d :- reader.Fixed(IDENTITY_LENGTH);
        return Ok(Octets(d));
      case 5 =>
        var s :- reader.OptionalText(ROOM_MAX);
        return Ok(Text(s));
      case 6 =>
        if start < |reader.bytes| && reader.bytes[start] / 32 == 3 {
          var t :- reader.TakeSpan(3, MDU);
          return Ok(TextBody(t, Span(Low16(start), Low16(reader.pos - start))));
        }
        var _ :- reader.Skip(1);
        return Ok(OtherBody(Span(Low16(start), Low16(reader.pos - start))));
      case 7 =>
        var s :- reader.OptionalText(NICKNAME_MAX);
        return Ok(Text(s));
      case 8 =>
        var d :- reader.Fixed(IDENTITY_LENGTH);
        return Ok(Octets(d));
      case _ =>
        var _ :- reader.Skip(1);
        return Ok(Skipped);
    }
  }

  method ReadEntries(reader: Reader, count: nat) returns (r: Result<Progress>)
    requires reader.Valid()
    modifies reader
    ensures reader.Follows(r, EntriesAt(reader.bytes, old(reader.pos), count, START))
  {
    var progress := START;
    ghost var first := reader.pos;
    for n := 0 to count
      invariant reader.Valid()
      invariant EntriesAt(reader.bytes, first, count, START)
             == EntriesAt(reader.bytes, reader.pos, count - n, progress)
    {
      var key :- reader.Uint();
      if key <= LAST_KNOWN_KEY && key in progress.seen {
        return Err(Invalid);
      }
      var value :- ReadValue(reader, key);
      progress := After(progress, key, value);
    }
    return Ok(progress);
  }

  /** `heads` is the number of item heads read: at most one more than there are octets. */
  method Decode(bytes: Bytes) returns (r: Result<View>, ghost heads: nat)
    ensures r == DecodeSpec(bytes)
    ensures heads <= |bytes| + 1
  {
    if |bytes| > MDU {
      return Err(Capacity), 0;
    }
    var reader := new Reader(bytes, 0);
    r := DecodeFrom(reader);
    heads := reader.heads;
  }

  method DecodeFrom(reader: Reader) returns (r: Result<View>)
    requires reader.Valid() && reader.pos == 0
    modifies reader
    ensures r == DecodeSpec(reader.bytes)
    ensures reader.heads <= |reader.bytes| + 1
  {
    var count :- reader.Container(5);
    var progress :- ReadEntries(reader, count);
    if !(REQUIRED_KEYS <= progress.seen) || reader.pos != |reader.bytes| {
      return Err(Invalid);
    }
    return Ok(progress.view);
  }

  /** The entry point: a packet too long for the codec is a bad argument, and nothing is stored when decoding fails. */
  method DecodePacket(bytes: Bytes) returns (status: Status, out: Option<View>)
    ensures if |bytes| > 431 then status == ErrInvalidArg && out == None
            else
              match DecodeSpec(bytes)
              case Ok(view) => status == StatusOk && out == Some(view)
              case Err(e) => status == StatusOf(e) && out == None
  {
    hide DecodeSpec;
    if |bytes| > MDU {
      return ErrInvalidArg, None;
    }
    var decoded, _ := Decode(bytes);
    if decoded.Err? {
      return StatusOf(decoded.error), None;
    }
    return StatusOk, Some(decoded.value);
  }
}
