/** The packets the encoder emits, octet by octet, and the arguments it refuses, with every constant written out. */
module WireLayout {
  import opened Bytes
  import opened Cbor
  import opened CborGrammar
  import opened Encoder
  import opened Envelope
  import opened EnvelopeContents
  import opened RoundTrip
  import opened Writer
  import Utf8

  // ---- Heads ---------------------------------------------------------------------------------

  /** The head of major type `major` in as few octets as the argument allows. */
  function Head(major: nat, n: u64): Bytes
    requires major < 8
  {
    if n < 24 then [32 * major + n]
    else if n < 0x100 then [32 * major + 24, n]
    else if n < 0x1_0000 then [32 * major + 25, n / 0x100, n % 0x100]
    else if n < 0x1_0000_0000 then [32 * major + 26, n / 0x100_0000, n / 0x1_0000 % 0x100, n / 0x100 % 0x100, n % 0x100]
    else
      [32 * major + 27, n / 0x100_0000_0000_0000, n / 0x1_0000_0000_0000 % 0x100, n / 0x100_0000_0000 % 0x100,
       n / 0x1_0000_0000 % 0x100, n / 0x100_0000 % 0x100, n / 0x1_0000 % 0x100, n / 0x100 % 0x100, n % 0x100]
  }

  lemma TwoDigits(v: nat)
    ensures ToBigEndian(v, 2) == [v / 0x100 % 0x100, v % 0x100]
  {
    assert ToBigEndian(v / 256, 1) == ToBigEndian(v / 256 / 256, 0) + [v / 256 % 256];
  }

  lemma FourDigits(v: nat)
    ensures ToBigEndian(v, 4) == [v / 0x100_0000 % 0x100, v / 0x1_0000 % 0x100, v / 0x100 % 0x100, v % 0x100]
  {
    TwoDigits(v / 256 / 256);
    assert v / 256 / 256 == v / 0x1_0000 && v / 0x1_0000 / 0x100 == v / 0x100_0000;
    assert ToBigEndian(v / 256, 3) == ToBigEndian(v / 256 / 256, 2) + [v / 256 % 256];
  }

  lemma EightDigits(v: nat)
    ensures ToBigEndian(v, 8)
         == [v / 0x100_0000_0000_0000 % 0x100, v / 0x1_0000_0000_0000 % 0x100, v / 0x100_0000_0000 % 0x100,
             v / 0x1_0000_0000 % 0x100, v / 0x100_0000 % 0x100, v / 0x1_0000 % 0x100, v / 0x100 % 0x100, v % 0x100]
  {
    var w := v / 0x1_0000_0000;
    FourDigits(w);
    FourDigits(v);
    assert w / 0x100_0000 == v / 0x100_0000_0000_0000 && w / 0x1_0000 == v / 0x1_0000_0000_0000 && w / 0x100 == v / 0x100_0000_0000;
    HighHalf(v);
  }

  lemma HighHalf(v: nat)
    ensures ToBigEndian(v, 8) == ToBigEndian(v / 0x1_0000_0000, 4) + ToBigEndian(v, 4)
  {
    var a, b, c, d := v / 256, v / 256 / 256, v / 256 / 256 / 256, v / 256 / 256 / 256 / 256;
    assert d == v / 0x1_0000_0000;
    assert ToBigEndian(c, 5) == ToBigEndian(d, 4) + [c % 256];
    assert ToBigEndian(b, 6) == ToBigEndian(c, 5) + [b % 256];
    assert ToBigEndian(a, 7) == ToBigEndian(b, 6) + [a % 256];
    assert ToBigEndian(c, 1) == ToBigEndian(d, 0) + [c % 256];
    assert ToBigEndian(b, 2) == ToBigEndian(c, 1) + [b % 256];
    assert ToBigEndian(a, 3) == ToBigEndian(b, 2) + [a % 256];
  }

  /** The writer's heads are these. */
  lemma HeadOctets(major: nat, n: u64)
    requires major < 8
    ensures HeadBytes(major, n) == Head(major, n)
  {
    hide ToBigEndian;
    if n < 24 {
    } else if n < 0x100 {
      BigEndianSingle(n);
    } else if n < 0x1_0000 {
      TwoDigits(n);
    } else if n < 0x1_0000_0000 {
      FourDigits(n);
    } else {
      EightDigits(n);
    }
  }

  lemma BigEndianSingle(n: nat)
    requires n < 256
    ensures ToBigEndian(n, 1) == [n]
  {
    assert ToBigEndian(n / 256, 0) == [];
  }

  // ---- Packets -------------------------------------------------------------------------------

  function Text(s: Bytes): Bytes
    requires |s| <= 431
  {
    Head(3, |s|) + s
  }

  /** What a client says of itself: "Ratspeak Handheld", its version, and no Resource envelopes among its capabilities. */
  function Hello(version: Bytes): Bytes
    requires |version| <= 431
  {
    [0xA3, 0x00, 0x71, 0x52, 0x61, 0x74, 0x73, 0x70, 0x65, 0x61, 0x6B, 0x20, 0x48, 0x61, 0x6E, 0x64, 0x68, 0x65, 0x6C, 0x64, 0x01]
    + Text(version) + [0x02, 0xA3, 0x00, 0xF4, 0x01, 0xF5, 0x02, 0xF5]
  }

  function BodyValue(body: Bytes, bodyKind: nat): Bytes
    requires |body| <= 431
  {
    if bodyKind == 1 then Text(body) else if bodyKind == 2 then body else Hello(body)
  }

  function Required(meta: Meta): Bytes {
    [0x00, 0x01] + [0x01] + Head(0, meta.kind) + [0x02, 0x48] + meta.id + [0x03] + Head(0, meta.timestamp) + [0x04, 0x50] + meta.source
  }

  /** The map head counts what follows: five required entries, and each optional one that is present. */
  function Packet(meta: Meta, room: Bytes, nick: Bytes, body: Bytes, bodyKind: nat): Bytes
    requires |room| <= 431 && |nick| <= 431 && |body| <= 431
  {
    [0xA5 + (if room == [] then 0 else 1) + (if bodyKind == 0 then 0 else 1) + (if nick == [] then 0 else 1)
          + (if meta.hasDestination == 0 then 0 else 1)]
    + Required(meta)
    + (if room == [] then [] else [0x05] + Text(room))
    + (if bodyKind == 0 then [] else [0x06] + BodyValue(body, bodyKind))
    + (if nick == [] then [] else [0x07] + Text(nick))
    + (if meta.hasDestination == 0 then [] else [0x08, 0x50] + meta.destination)
  }

  lemma TextOctets(s: Bytes)
    requires |s| <= 431
    ensures StringBytes(3, s) == Text(s)
  {
    HeadOctets(3, |s|);
  }

  lemma CapabilityOctets()
    ensures MapBytes(CLIENT_CAPABILITIES) == [0xA3, 0x00, 0xF4, 0x01, 0xF5, 0x02, 0xF5]
  {
    var p := CLIENT_CAPABILITIES;
    FlattenThree(p[0], p[1], p[2]);
  }

  lemma ShortString(key: u64, major: nat, s: Bytes)
    requires key < 24 && major < 8 && |s| < 24
    ensures PartBytes(Part(key, StringBytes(major, s))) == [key, 32 * major + |s|] + s
  {
    assert StringBytes(major, s) == [32 * major + |s|] + s;
  }

  lemma NameOctets()
    ensures PartBytes(Part(0, StringBytes(3, CLIENT_NAME)))
         == [0x00, 0x71, 0x52, 0x61, 0x74, 0x73, 0x70, 0x65, 0x61, 0x6B, 0x20, 0x48, 0x61, 0x6E, 0x64, 0x68, 0x65, 0x6C, 0x64]
  {
    hide PartBytes, StringBytes;
    ShortString(0, 3, CLIENT_NAME);
  }

  lemma PartOctets(key: u64, value: Bytes)
    requires key < 24
    ensures PartBytes(Part(key, value)) == [key] + value
  {
  }

  lemma MapOfThree(a: Part, b: Part, c: Part)
    ensures MapBytes([a, b, c]) == [0xA3] + (PartBytes(a) + PartBytes(b) + PartBytes(c))
  {
    assert HeadBytes(5, 3) == [0xA3];
    hide PartBytes, Flatten, HeadBytes;
    FlattenThree(a, b, c);
  }

  lemma HelloOctets(version: Bytes)
    requires |version| <= 431
    ensures MapBytes(HelloParts(version)) == Hello(version)
  {
    hide StringBytes, Text, PartBytes, MapBytes;
    var p := HelloParts(version);
    MapOfThree(p[0], p[1], p[2]);
    NameOctets();
    TextOctets(version);
    PartOctets(1, Text(version));
    CapabilityOctets();
    PartOctets(2, MapBytes(CLIENT_CAPABILITIES));
  }

  lemma OptionalOctets(key: u64, text: Bytes)
    requires key < 24 && |text| <= 431
    ensures Flatten(TextParts(key, text)) == if text == [] then [] else [key] + Text(text)
  {
    hide StringBytes, Text, PartBytes;
    if text != [] {
      FlattenOne(Part(key, StringBytes(3, text)));
      TextOctets(text);
      PartOctets(key, Text(text));
    }
  }

  lemma BodyOctets(body: Bytes, bodyKind: nat)
    requires |body| <= 431 && bodyKind <= 3
    ensures Flatten(BodyParts(body, bodyKind)) == if bodyKind == 0 then [] else [0x06] + BodyValue(body, bodyKind)
  {
    hide StringBytes, Text, PartBytes, MapBytes, HelloParts, Hello;
    if bodyKind != 0 {
      BodyFlat(body, bodyKind);
      if bodyKind == 1 {
        TextOctets(body);
      } else if bodyKind == 3 {
        HelloOctets(body);
      }
    }
  }

  lemma DestinationOctets(meta: Meta)
    requires MetaShaped(meta)
    ensures Flatten(DestinationParts(meta)) == if meta.hasDestination == 0 then [] else [0x08, 0x50] + meta.destination
  {
    if meta.hasDestination != 0 {
      ShortString(8, 2, meta.destination);
      FlattenOne(Part(8, StringBytes(2, meta.destination)));
    }
  }

  lemma RequiredOctets(meta: Meta)
    requires MetaShaped(meta)
    ensures Flatten(RequiredParts(meta)) == Required(meta)
  {
    hide Head, StringBytes, PartBytes;
    var p := RequiredParts(meta);
    FlattenFive(p[0], p[1], p[2], p[3], p[4]);
    PartOctets(0, [0x01]);
    HeadOctets(0, meta.kind);
    PartOctets(1, Head(0, meta.kind));
    ShortString(2, 2, meta.id);
    HeadOctets(0, meta.timestamp);
    PartOctets(3, Head(0, meta.timestamp));
    ShortString(4, 2, meta.source);
  }

  lemma MapHeadOctet(count: nat)
    requires count < 24
    ensures HeadBytes(5, count) == [0xA0 + count]
  {
  }

  /** The packet of these arguments, octet by octet. */
  lemma PacketOctets(meta: Meta, room: Bytes, nick: Bytes, body: Bytes, bodyKind: nat)
    requires MetaShaped(meta) && |room| <= 431 && |nick| <= 431 && |body| <= 431 && bodyKind <= 3
    ensures MapBytes(EnvelopeParts(meta, room, nick, body, bodyKind)) == Packet(meta, room, nick, body, bodyKind)
  {
    hide Flatten, Head, Text, BodyValue, HeadBytes, Required, RequiredParts, TextParts, BodyParts, DestinationParts, EnvelopeParts, MapBytes;
    MapHeadOctet(EntryCount(meta, room, nick, bodyKind));
    EnvelopeBytes(meta, room, nick, body, bodyKind);
    RequiredOctets(meta);
    OptionalOctets(5, room);
    BodyOctets(body, bodyKind);
    OptionalOctets(7, nick);
    DestinationOctets(meta);
  }

  // ---- Answers -------------------------------------------------------------------------------

  /**
   * What is encoded, and what refused: lengths, flags and UTF-8 first, then a supplied body that is not
   * one complete item, a HELLO body in a packet of another kind, and last a packet over 431 octets.
   */
  lemma EncodeAnswers(meta: Meta, room: Bytes, nick: Bytes, body: Bytes, bodyKind: nat)
    requires |meta.id| == 8 && |meta.source| == |meta.destination| == 16 && |body| <= 431
    ensures var r := EncodeSpec(meta, room, nick, body, bodyKind);
            if |room| > 64 || |nick| > 32 || meta.hasDestination > 1 || bodyKind > 3 then r == Err(Invalid)
            else if !Utf8.Valid(room) || !Utf8.Valid(nick) then r == Err(Invalid)
            else if (bodyKind == 1 || bodyKind == 3) && !Utf8.Valid(body) then r == Err(Invalid)
            else if bodyKind == 2 && !ItemForm(body, 4) then
              r == Err(if SkipAt(body, 0, 1).Ok? then Invalid else SkipAt(body, 0, 1).error)
            else if bodyKind == 3 && meta.kind != 1 then r == Err(Invalid)
            else if |Packet(meta, room, nick, body, bodyKind)| > 431 then r == Err(Capacity)
            else r == Ok(Packet(meta, room, nick, body, bodyKind))
  {
    hide SkipAt, ItemForm, Utf8.Valid, Packet, EnvelopeParts, MapBytes;
    SkipMeans(body, 0, 1, |body|);
    assert body[0..|body|] == body;
    if |room| <= 431 && |nick| <= 431 && bodyKind <= 3 {
      PacketOctets(meta, room, nick, body, bodyKind);
    }
  }

  /** For every version, the body a receiver decodes from a HELLO packet is these octets. */
  lemma HelloIsReceived(meta: Meta, room: Bytes, nick: Bytes, version: Bytes)
    requires |meta.id| == 8 && |meta.source| == |meta.destination| == 16 && |version| <= 431
    requires EncodeSpec(meta, room, nick, version, 3).Ok?
    ensures var packet := EncodeSpec(meta, room, nick, version, 3).value;
            && DecodeSpec(packet).Ok? && DecodeSpec(packet).value.meta.kind == 1
            && Within(packet, DecodeSpec(packet).value.body)
            && Slice(packet, DecodeSpec(packet).value.body)
            == [0xA3, 0x00, 0x71, 0x52, 0x61, 0x74, 0x73, 0x70, 0x65, 0x61, 0x6B, 0x20, 0x48, 0x61, 0x6E, 0x64, 0x68, 0x65, 0x6C, 0x64]
               + [0x01] + Head(3, |version|) + version + [0x02, 0xA3, 0x00, 0xF4, 0x01, 0xF5, 0x02, 0xF5]
  {
    hide DecodeSpec, CheckArguments, MapBytes, EnvelopeParts, Head, Sent, ViewWithin, HelloParts;
    BodySpanIsBodyItem(meta, room, nick, version, 3);
    HelloOctets(version);
    HelloKind(meta, room, nick, version);
  }

  lemma HelloKind(meta: Meta, room: Bytes, nick: Bytes, version: Bytes)
    requires MetaShaped(meta) && |version| <= 431 && EncodeSpec(meta, room, nick, version, 3).Ok?
    ensures var packet := EncodeSpec(meta, room, nick, version, 3).value;
            DecodeSpec(packet).Ok? && DecodeSpec(packet).value.meta.kind == 1
  {
    hide DecodeSpec, CheckArguments, MapBytes, EnvelopeParts, SentBody;
    DecodeInvertsEncode(meta, room, nick, version, 3);
  }
}
