/** The RRC v1 envelope encoder: what it emits, and the code that counts and writes it. */
module Encoder {
  import opened Bytes
  import opened Cbor
  import opened Envelope
  import opened Writer
  import Utf8

  /** An entry of a map: an unsigned key and the complete encoding of its value. */
  datatype Part = Part(key: u64, value: Bytes)

  function PartBytes(p: Part): Bytes {
    HeadBytes(0, p.key) + p.value
  }

  function Flatten(parts: seq<Part>): Bytes {
    if parts == [] then [] else PartBytes(parts[0]) + Flatten(parts[1..])
  }

  /** A complete map. */
  function MapBytes(parts: seq<Part>): Bytes
    requires |parts| <= MAX_ENTRIES
  {
    HeadBytes(5, |parts|) + Flatten(parts)
  }

  const HELLO_KIND: u64 := 1

  // "Ratspeak Handheld"
  const CLIENT_NAME: Bytes :=
    [0x52, 0x61, 0x74, 0x73, 0x70, 0x65, 0x61, 0x6B, 0x20, 0x48, 0x61, 0x6E, 0x64, 0x68, 0x65, 0x6C, 0x64]

  // A bounded packet client without Resource envelopes.
  const CLIENT_CAPABILITIES: seq<Part> := [Part(0, [0xF4]), Part(1, [0xF5]), Part(2, [0xF5])]

  function HelloParts(version: Bytes): seq<Part>
    requires |version| <= MDU
  {
    [Part(0, StringBytes(3, CLIENT_NAME)), Part(1, StringBytes(3, version)), Part(2, MapBytes(CLIENT_CAPABILITIES))]
  }

  predicate MetaShaped(meta: Meta) {
    |meta.id| == ID_LENGTH && |meta.source| == |meta.destination| == IDENTITY_LENGTH
  }

  function RequiredParts(meta: Meta): seq<Part>
    requires MetaShaped(meta)
  {
    [Part(0, HeadBytes(0, 1)), Part(1, HeadBytes(0, meta.kind)), Part(2, StringBytes(2, meta.id)),
     Part(3, HeadBytes(0, meta.timestamp)), Part(4, StringBytes(2, meta.source))]
  }

  function TextParts(key: u64, text: Bytes): seq<Part>
    requires |text| <= MDU
  {
    if text == [] then [] else [Part(key, StringBytes(3, text))]
  }

  function BodyParts(body: Bytes, bodyKind: nat): seq<Part>
    requires |body| <= MDU
  {
    if bodyKind == 0 then []
    else if bodyKind == 1 then [Part(6, StringBytes(3, body))]
    else if bodyKind == 2 then [Part(6, body)]
    else [Part(6, MapBytes(HelloParts(body)))]
  }

  function DestinationParts(meta: Meta): seq<Part>
    requires MetaShaped(meta)
  {
    if meta.hasDestination == 0 then [] else [Part(8, StringBytes(2, meta.destination))]
  }

  function EnvelopeParts(meta: Meta, room: Bytes, nick: Bytes, body: Bytes, bodyKind: nat): seq<Part>
    requires MetaShaped(meta) && |room| <= MDU && |nick| <= MDU && |body| <= MDU
  {
    RequiredParts(meta) + TextParts(5, room) + BodyParts(body, bodyKind) + TextParts(7, nick) + DestinationParts(meta)
  }

  /** What the arguments must satisfy before anything is emitted. */
  function CheckArguments(meta: Meta, room: Bytes, nick: Bytes, body: Bytes, bodyKind: nat): Result<()> {
    if |room| > ROOM_MAX || |nick| > NICKNAME_MAX || meta.hasDestination > 1 || bodyKind > 3 then Err(Invalid)
    else if !Utf8.Valid(room) || !Utf8.Valid(nick) then Err(Invalid)
    else if (bodyKind == 1 || bodyKind == 3) && !Utf8.Valid(body) then Err(Invalid)
    else if bodyKind == 2 then
      var end :- SkipAt(body, 0, 1);
      if end != |body| then Err(Invalid) else Ok(())
    else Ok(())
  }

  function EncodeSpec(meta: Meta, room: Bytes, nick: Bytes, body: Bytes, bodyKind: nat): (r: Result<Bytes>)
    requires MetaShaped(meta) && |body| <= MDU
    ensures r.Ok? ==> |r.value| <= MDU
  {
    var _ :- CheckArguments(meta, room, nick, body, bodyKind);
    if bodyKind == 3 && meta.kind != HELLO_KIND then Err(Invalid)
    else
      var packet := MapBytes(EnvelopeParts(meta, room, nick, body, bodyKind));
      if |packet| > MDU then Err(Capacity) else Ok(packet)
  }

  lemma {:induction false} FlattenConcat(x: seq<Part>, y: seq<Part>)
    ensures Flatten(x + y) == Flatten(x) + Flatten(y)
  {
    if x == [] {
      assert x + y == y;
    } else {
      hide PartBytes;
      FlattenConcat(x[1..], y);
      assert (x + y)[1..] == x[1..] + y;
      Associates(PartBytes(x[0]), Flatten(x[1..]), Flatten(y));
    }
  }

  lemma FlattenOne(p: Part)
    ensures Flatten([p]) == PartBytes(p)
  {
    assert [p][1..] == [];
    assert Flatten([p]) == PartBytes(p) + Flatten([]);
  }

  /** How many entries the packet's map announces. */
  function EntryCount(meta: Meta, room: Bytes, nick: Bytes, bodyKind: nat): nat {
    5 + (if room != [] then 1 else 0) + (if nick != [] then 1 else 0) + (if bodyKind != 0 then 1 else 0)
      + (if meta.hasDestination != 0 then 1 else 0)
  }

  lemma EnvelopeBytes(meta: Meta, room: Bytes, nick: Bytes, body: Bytes, bodyKind: nat)
    requires MetaShaped(meta) && |room| <= MDU && |nick| <= MDU && |body| <= MDU
    ensures MapBytes(EnvelopeParts(meta, room, nick, body, bodyKind))
         == HeadBytes(5, EntryCount(meta, room, nick, bodyKind))
            + Flatten(RequiredParts(meta)) + Flatten(TextParts(5, room)) + Flatten(BodyParts(body, bodyKind))
            + Flatten(TextParts(7, nick)) + Flatten(DestinationParts(meta))
  {
    hide Flatten, HeadBytes, RequiredParts, TextParts, BodyParts, DestinationParts, EntryCount;
    EnvelopeCount(meta, room, nick, body, bodyKind);
    FlattenSum(RequiredParts(meta), TextParts(5, room), BodyParts(body, bodyKind), TextParts(7, nick), DestinationParts(meta));
  }

  lemma EnvelopeCount(meta: Meta, room: Bytes, nick: Bytes, body: Bytes, bodyKind: nat)
    requires MetaShaped(meta) && |room| <= MDU && |nick| <= MDU && |body| <= MDU
    ensures |EnvelopeParts(meta, room, nick, body, bodyKind)| == EntryCount(meta, room, nick, bodyKind)
  {
    assert |RequiredParts(meta)| == 5;
    assert |TextParts(5, room)| == if room != [] then 1 else 0;
    assert |TextParts(7, nick)| == if nick != [] then 1 else 0;
    assert |BodyParts(body, bodyKind)| == if bodyKind != 0 then 1 else 0;
    assert |DestinationParts(meta)| == if meta.hasDestination != 0 then 1 else 0;
  }

  lemma FlattenSum(r: seq<Part>, a: seq<Part>, b: seq<Part>, c: seq<Part>, d: seq<Part>)
    ensures Flatten(r + a + b + c + d) == Flatten(r) + Flatten(a) + Flatten(b) + Flatten(c) + Flatten(d)
  {
    hide Flatten;
    FlattenConcat(r, a);
    FlattenConcat(r + a, b);
    FlattenConcat(r + a + b, c);
    FlattenConcat(r + a + b + c, d);
  }

  // ---- The code ------------------------------------------------------------------------------

  method WriteUint(w: Writer, key: u64, value: u64) returns (r: Result<()>)
    requires w.Valid()
    modifies w, if w.out == null then {} else {w.out}
    ensures w.Emitted(old(w.text), PartBytes(Part(key, HeadBytes(0, value))), r)
  {
    hide HeadBytes;
    Associates(w.text, HeadBytes(0, key), HeadBytes(0, value));
    var _ :- w.Uint(key);
    r := w.Uint(value);
  }

  method WriteString(w: Writer, key: u64, major: nat, value: Bytes) returns (r: Result<()>)
    requires w.Valid() && major < 8 && |value| <= MDU
    modifies w, if w.out == null then {} else {w.out}
    ensures w.Emitted(old(w.text), PartBytes(Part(key, StringBytes(major, value))), r)
  {
    hide HeadBytes, StringBytes;
    Associates(w.text, HeadBytes(0, key), StringBytes(major, value));
    var _ :- w.Uint(key);
    r := w.String(major, value);
  }

  method WriteFlag(w: Writer, key: u64, flag: byte) returns (r: Result<()>)
    requires w.Valid()
    modifies w, if w.out == null then {} else {w.out}
    ensures w.Emitted(old(w.text), PartBytes(Part(key, [flag])), r)
  {
    hide HeadBytes;
    Associates(w.text, HeadBytes(0, key), [flag]);
    var _ :- w.Uint(key);
    r := w.Raw([flag]);
  }

  lemma FlattenThree(a: Part, b: Part, c: Part)
    ensures Flatten([a, b, c]) == PartBytes(a) + PartBytes(b) + PartBytes(c)
  {
    FlattenOne(a);
    FlattenOne(b);
    FlattenOne(c);
    FlattenConcat([a], [b]);
    FlattenConcat([a, b], [c]);
    assert [a] + [b] == [a, b] && [a, b] + [c] == [a, b, c];
  }

  lemma FlattenFive(a: Part, b: Part, c: Part, d: Part, e: Part)
    ensures Flatten([a, b, c, d, e]) == PartBytes(a) + PartBytes(b) + PartBytes(c) + PartBytes(d) + PartBytes(e)
  {
    FlattenThree(a, b, c);
    FlattenOne(d);
    FlattenOne(e);
    FlattenConcat([a, b, c], [d]);
    FlattenConcat([a, b, c, d], [e]);
    assert [a, b, c] + [d] == [a, b, c, d] && [a, b, c, d] + [e] == [a, b, c, d, e];
  }

  method WriteRequired(w: Writer, meta: Meta) returns (r: Result<()>)
    requires w.Valid() && MetaShaped(meta)
    modifies w, if w.out == null then {} else {w.out}
    ensures w.Emitted(old(w.text), Flatten(RequiredParts(meta)), r)
  {
    hide PartBytes, Flatten, HeadBytes, StringBytes;
    ghost var p := RequiredParts(meta);
    FlattenFive(p[0], p[1], p[2], p[3], p[4]);
    var _ :- WriteUint(w, 0, 1);
    var _ :- WriteUint(w, 1, meta.kind);
    var _ :- WriteString(w, 2, 2, meta.id);
    var _ :- WriteUint(w, 3, meta.timestamp);
    r := WriteString(w, 4, 2, meta.source);
    ghost var all := PartBytes(p[0]) + PartBytes(p[1]) + PartBytes(p[2]) + PartBytes(p[3]) + PartBytes(p[4]);
    assert r.Ok? ==> w.text == old(w.text) + all;
  }

  method WriteText(w: Writer, key: u64, text: Bytes) returns (r: Result<()>)
    requires w.Valid() && |text| <= MDU
    modifies w, if w.out == null then {} else {w.out}
    ensures w.Emitted(old(w.text), Flatten(TextParts(key, text)), r)
  {
    hide PartBytes, StringBytes;
    r := Ok(());
    if text != [] {
      FlattenOne(Part(key, StringBytes(3, text)));
      r := WriteString(w, key, 3, text);
    }
  }

  method WriteCapabilities(w: Writer) returns (r: Result<()>)
    requires w.Valid()
    modifies w, if w.out == null then {} else {w.out}
    ensures w.Emitted(old(w.text), MapBytes(CLIENT_CAPABILITIES), r)
  {
    hide PartBytes, Flatten, HeadBytes;
    ghost var p := CLIENT_CAPABILITIES;
    FlattenThree(p[0], p[1], p[2]);
    var _ :- w.Head(5, 3);
    var _ :- WriteFlag(w, 0, 0xF4);
    var _ :- WriteFlag(w, 1, 0xF5);
    r := WriteFlag(w, 2, 0xF5);
    assert r.Ok? ==> w.text == old(w.text) + (HeadBytes(5, 3) + (PartBytes(p[0]) + PartBytes(p[1]) + PartBytes(p[2])));
  }

  method WriteHello(w: Writer, version: Bytes) returns (r: Result<()>)
    requires w.Valid() && |version| <= MDU
    modifies w, if w.out == null then {} else {w.out}
    ensures w.Emitted(old(w.text), MapBytes(HelloParts(version)), r)
  {
    hide Flatten, HeadBytes, StringBytes;
    ghost var p := HelloParts(version);
    ghost var inner := MapBytes(CLIENT_CAPABILITIES);
    FlattenThree(p[0], p[1], p[2]);
    var _ :- w.Head(5, 3);
    var _ :- WriteString(w, 0, 3, CLIENT_NAME);
    var _ :- WriteString(w, 1, 3, version);
    var _ :- w.Uint(2);
    r := WriteCapabilities(w);
    assert r.Ok? ==> w.text == old(w.text) + (HeadBytes(5, 3) + (PartBytes(p[0]) + PartBytes(p[1]) + (HeadBytes(0, 2) + inner)));
  }

  method WriteBodyValue(w: Writer, body: Bytes, bodyKind: nat) returns (r: Result<()>)
    requires w.Valid() && |body| <= MDU && 1 <= bodyKind <= 3
    modifies w, if w.out == null then {} else {w.out}
    ensures w.Emitted(old(w.text), BodyParts(body, bodyKind)[0].value, r)
  {
    hide StringBytes, MapBytes;
    if bodyKind == 1 {
      r := w.String(3, body);
    } else if bodyKind == 2 {
      r := w.Raw(body);
    } else {
      r := WriteHello(w, body);
    }
  }

  lemma BodyFlat(body: Bytes, bodyKind: nat)
    requires |body| <= MDU && 1 <= bodyKind <= 3
    ensures HeadBytes(0, 6) == [6]
    ensures |BodyParts(body, bodyKind)| == 1
    ensures Flatten(BodyParts(body, bodyKind)) == [6] + BodyParts(body, bodyKind)[0].value
  {
    var part := BodyParts(body, bodyKind)[0];
    FlattenOne(part);
    assert BodyParts(body, bodyKind) == [part];
  }

  method WriteBody(w: Writer, kind: u64, body: Bytes, bodyKind: nat) returns (r: Result<()>)
    requires w.Valid() && |body| <= MDU && bodyKind <= 3
    modifies w, if w.out == null then {} else {w.out}
    ensures w.Valid()
    ensures !(bodyKind == 3 && kind != HELLO_KIND) ==> w.Emitted(old(w.text), Flatten(BodyParts(body, bodyKind)), r)
    ensures bodyKind == 3 && kind != HELLO_KIND && |old(w.text)| < w.Limit() ==> r == Err(Invalid)
  {
    if bodyKind == 0 {
      return Ok(());
    }
    ghost var value := BodyParts(body, bodyKind)[0].value;
    BodyFlat(body, bodyKind);
    Associates(w.text, [6], value);
    hide HeadBytes, BodyParts, Flatten;
    var _ :- w.Uint(6);
    if bodyKind == 3 && kind != HELLO_KIND {
      return Err(Invalid);
    }
    r := WriteBodyValue(w, body, bodyKind);
  }

  /** Emits the packet `EncodeSpec` describes, as far as the writer's limit allows. */
  method EncodeTo(w: Writer, meta: Meta, room: Bytes, nick: Bytes, body: Bytes, bodyKind: nat) returns (r: Result<()>)
    requires w.Valid() && w.text == [] && MetaShaped(meta) && |body| <= MDU
    modifies w, if w.out == null then {} else {w.out}
    ensures w.Valid()
    ensures match EncodeSpec(meta, room, nick, body, bodyKind)
            case Ok(packet) => w.Emitted([], packet, r)
            case Err(e) => w.Limit() == MDU ==> r == Err(e)
  {
    ghost var spec := EncodeSpec(meta, room, nick, body, bodyKind);
    var _ :- CheckAll(meta, room, nick, body, bodyKind);
    var count: u64 := 5 + (if room != [] then 1 else 0) + (if nick != [] then 1 else 0)
                        + (if bodyKind != 0 then 1 else 0) + meta.hasDestination;
    assert count == EntryCount(meta, room, nick, bodyKind);
    EnvelopeBytes(meta, room, nick, body, bodyKind);
    RequiredIsShort(meta, room);
    r := EmitAll(w, count, meta, room, nick, body, bodyKind);
  }

  method EmitAll(w: Writer, count: u64, meta: Meta, room: Bytes, nick: Bytes, body: Bytes, bodyKind: nat) returns (r: Result<()>)
    requires w.Valid() && w.text == [] && MetaShaped(meta) && |body| <= MDU && bodyKind <= 3
    requires |room| <= MDU && |nick| <= MDU
    requires 9 + |Flatten(RequiredParts(meta))| + |Flatten(TextParts(5, room))| < MDU
    modifies w, if w.out == null then {} else {w.out}
    ensures w.Valid()
    ensures var packet := HeadBytes(5, count) + Flatten(RequiredParts(meta)) + Flatten(TextParts(5, room))
                          + Flatten(BodyParts(body, bodyKind)) + Flatten(TextParts(7, nick)) + Flatten(DestinationParts(meta));
            if bodyKind == 3 && meta.kind != HELLO_KIND then w.Limit() == MDU ==> r == Err(Invalid)
            else w.Emitted([], packet, r)
  {
    hide Flatten, HeadBytes, RequiredParts, TextParts, BodyParts, DestinationParts;
    var _ :- w.Head(5, count);
    var _ :- WriteRequired(w, meta);
    var _ :- WriteText(w, 5, room);
    var _ :- WriteBody(w, meta.kind, body, bodyKind);
    var _ :- WriteText(w, 7, nick);
    r := WriteDestination(w, meta);
  }

  method CheckAll(meta: Meta, room: Bytes, nick: Bytes, body: Bytes, bodyKind: nat) returns (r: Result<()>)
    requires |body| <= MDU
    ensures r == CheckArguments(meta, room, nick, body, bodyKind)
  {
    hide SkipAt, Utf8.Valid;
    if |room| > ROOM_MAX || |nick| > NICKNAME_MAX || meta.hasDestination > 1 || bodyKind > 3 {
      return Err(Invalid);
    }
    if !Utf8.Valid(room) || !Utf8.Valid(nick) {
      return Err(Invalid);
    }
    if bodyKind == 1 || bodyKind == 3 {
      if !Utf8.Valid(body) {
        return Err(Invalid);
      }
    }
    if bodyKind == 2 {
      var reader := new Reader(body, 0);
      var _ :- reader.Skip(1);
      if reader.pos != |body| {
        return Err(Invalid);
      }
    }
    return Ok(());
  }

  method WriteDestination(w: Writer, meta: Meta) returns (r: Result<()>)
    requires w.Valid() && MetaShaped(meta)
    modifies w, if w.out == null then {} else {w.out}
    ensures w.Emitted(old(w.text), Flatten(DestinationParts(meta)), r)
  {
    hide PartBytes, StringBytes;
    r := Ok(());
    if meta.hasDestination != 0 {
      FlattenOne(Part(8, StringBytes(2, meta.destination)));
      r := WriteString(w, 8, 2, meta.destination);
    }
  }

  /** What is emitted before the body never comes near the packet limit. */
  lemma RequiredIsShort(meta: Meta, room: Bytes)
    requires MetaShaped(meta) && |room| <= ROOM_MAX
    ensures 9 + |Flatten(RequiredParts(meta))| + |Flatten(TextParts(5, room))| < MDU
  {
    var p := RequiredParts(meta);
    FlattenFive(p[0], p[1], p[2], p[3], p[4]);
    FlattenOne(Part(5, StringBytes(3, room)));
  }

  /**
   * The two-pass entry point. The first pass counts; only when the whole packet fits does the second
   * pass touch the buffer, and then exactly its first octets. A null buffer asks for the count alone.
   */
  method Encode(meta: Meta, room: Bytes, nick: Bytes, body: Bytes, bodyKind: nat, out: array?<byte>)
    returns (status: Status, length: Length)
    requires MetaShaped(meta)
    modifies if out == null then {} else {out}
    ensures
      if |body| > MDU then status == ErrInvalidArg && length == Unset && (out != null ==> out[..] == old(out[..]))
      else
        match EncodeSpec(meta, room, nick, body, bodyKind)
        case Err(e) => status == StatusOf(e) && length == Unset && (out != null ==> out[..] == old(out[..]))
        case Ok(packet) =>
          && length == Length(|packet|)
          && (out == null ==> status == StatusOk)
          && (out != null && out.Length < |packet| ==> status == ErrCapacity && out[..] == old(out[..]))
          && (out != null && |packet| <= out.Length ==>
                status == StatusOk && out[..] == packet + old(out[..])[|packet|..])
  {
    hide EncodeSpec, CheckArguments;
    if |room| > ROOM_MAX || |nick| > NICKNAME_MAX || |body| > MDU {
      LongArguments(meta, room, nick, body, bodyKind);
      return ErrInvalidArg, Unset;
    }
    var count := new Writer(null);
    var counted := EncodeTo(count, meta, room, nick, body, bodyKind);
    if counted.Err? {
      return StatusOf(counted.error), Unset;
    }
    length := Length(count.pos);
    if out == null {
      return StatusOk, length;
    }
    if out.Length < count.pos {
      return ErrCapacity, length;
    }
    status := WritePass(meta, room, nick, body, bodyKind, out);
  }

  /** The second pass, into a buffer known to be large enough. */
  method WritePass(meta: Meta, room: Bytes, nick: Bytes, body: Bytes, bodyKind: nat, out: array<byte>)
    returns (status: Status)
    requires MetaShaped(meta) && |body| <= MDU
    requires EncodeSpec(meta, room, nick, body, bodyKind).Ok?
    requires |EncodeSpec(meta, room, nick, body, bodyKind).value| <= out.Length
    modifies out
    ensures var packet := EncodeSpec(meta, room, nick, body, bodyKind).value;
            status == StatusOk && out[..] == packet + old(out[..])[|packet|..]
  {
    hide EncodeSpec;
    ghost var packet := EncodeSpec(meta, room, nick, body, bodyKind).value;
    var writer := new Writer(out);
    assert writer.Limit() >= |packet|;
    var written := EncodeTo(writer, meta, room, nick, body, bodyKind);
    assert writer.text == packet;
    // The error arm of `rs_handheld_rrc_encode`'s second pass cannot be taken.
    assert written.Ok?;
    status := StatusOk;
  }

  lemma LongArguments(meta: Meta, room: Bytes, nick: Bytes, body: Bytes, bodyKind: nat)
    requires MetaShaped(meta) && (|room| > ROOM_MAX || |nick| > NICKNAME_MAX || |body| > MDU)
    ensures |body| <= MDU ==> EncodeSpec(meta, room, nick, body, bodyKind) == Err(Invalid)
  {
  }
}
