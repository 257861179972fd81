/** Decoding what the encoder emits gives back exactly what was encoded. */
module RoundTrip {
  import opened Bytes
  import opened Cbor
  import opened CborFacts
  import opened Encoder
  import opened Envelope
  import opened EnvelopeContents
  import opened EnvelopeOctets
  import opened Writer
  import Utf8

  /** The reader's head inverts the writer's, for every major type and every 64-bit argument. */
  lemma HeadReads(b: Bytes, pos: nat, major: nat, value: u64)
    requires major < 8 && At(b, pos, HeadBytes(major, value))
    ensures HeadAt(b, pos) == Ok(Read(ItemHead(major, value), pos + |HeadBytes(major, value)|))
  {
    var h := HeadBytes(major, value);
    EmbeddedSlice(h, b, pos, 0, 1);
    assert b[pos] == h[0];
    if value > 23 {
      EmbeddedSlice(h, b, pos, 1, |h|);
      ArgumentReads(major, value);
      hide HeadBytes, At;
    }
  }

  lemma ArgumentReads(major: nat, value: u64)
    requires major < 8 && value > 23
    ensures var h := HeadBytes(major, value);
            && 24 <= h[0] % 32 <= 27 && h[0] / 32 == major
            && |h| == 1 + ArgumentWidth(h[0] % 32)
            && BigEndian(h[1..]) == value
  {
    hide ToBigEndian, BigEndian;
    WidthValues();
    var h := HeadBytes(major, value);
    var width := |h| - 1;
    BigEndianInverse(value, width);
    assert h[1..] == ToBigEndian(value, width);
  }

  lemma StringReads(b: Bytes, pos: nat, major: nat, value: Bytes, max: nat)
    requires (major == 2 || major == 3) && |value| <= max && |value| <= MDU && |b| <= MDU
    requires At(b, pos, StringBytes(major, value)) && (major == 3 ==> Utf8.Valid(value))
    ensures var s := SpanAt(b, pos, major, max);
            && s.Ok? && s.value.next == pos + |StringBytes(major, value)|
            && Within(b, s.value.value) && Slice(b, s.value.value) == value
  {
    hide HeadAt, HeadBytes;
    AtConcat(b, pos, HeadBytes(major, |value|), value);
    HeadReads(b, pos, major, |value|);
  }

  // ---- Parts and the fields they carry -------------------------------------------------------

  /** `item` is one complete item at nesting level `depth`. */
  predicate Complete(item: Bytes, depth: nat) {
    SkipAt(item, 0, depth) == Ok(|item|)
  }

  /** The octets of a string item after its head. */
  function Payload(item: Bytes): Bytes {
    if HeadAt(item, 0).Ok? then item[HeadAt(item, 0).value.next..] else []
  }

  predicate CarriesText(value: Bytes, c: Content, max: nat) {
    c.Chars? && |c.chars| <= max <= MDU && Utf8.Valid(c.chars) && value == StringBytes(3, c.chars)
  }

  /** A text, or null for an absent one; the encoder never writes null, but other clients may. */
  predicate CarriesOptional(value: Bytes, c: Content, max: nat) {
    CarriesText(value, c, max) || (value == [0xF6] && c == Chars([]))
  }

  predicate CarriesOctets(value: Bytes, c: Content, width: nat) {
    c.Data? && |c.data| == width <= MDU && value == StringBytes(2, c.data)
  }

  predicate CarriesBody(value: Bytes, c: Content) {
    Complete(value, 1) && c == if value[0] / 32 == 3 then Chars(Payload(value)) else Other(value)
  }

  /** The encoded value of `p` stands for `c` under `p`'s key. */
  predicate Carries(p: Part, c: Content) {
    match p.key
    case 0 => p.value == HeadBytes(0, 1) && c == One
    case 1 => c.Amount? && p.value == HeadBytes(0, c.n)
    case 2 => CarriesOctets(p.value, c, ID_LENGTH)
    case 3 => c.Amount? && p.value == HeadBytes(0, c.n)
    case 4 => CarriesOctets(p.value, c, IDENTITY_LENGTH)
    case 5 => CarriesOptional(p.value, c, ROOM_MAX)
    case 6 => CarriesBody(p.value, c)
    case 7 => CarriesOptional(p.value, c, NICKNAME_MAX)
    case 8 => CarriesOctets(p.value, c, IDENTITY_LENGTH)
    case _ => false
  }

  lemma NumberReads(b: Bytes, pos: nat, n: u64)
    requires At(b, pos, HeadBytes(0, n))
    ensures UintAt(b, pos) == Ok(Read(n, pos + |HeadBytes(0, n)|))
  {
    hide HeadAt, HeadBytes;
    HeadReads(b, pos, 0, n);
  }

  lemma OctetsRead(b: Bytes, pos: nat, key: u64, value: Bytes, c: Content, width: nat)
    requires |b| <= MDU && At(b, pos, value) && CarriesOctets(value, c, width)
    requires (key == 2 && width == ID_LENGTH) || ((key == 4 || key == 8) && width == IDENTITY_LENGTH)
    ensures ReadsAs(b, pos, key, c, pos + |value|)
  {
    hide HeadAt, HeadBytes, SpanAt, At, StringBytes;
    StringReads(b, pos, 2, c.data, width);
  }

  lemma FirstOctet(major: nat, n: u64)
    requires major < 8
    ensures HeadBytes(major, n)[0] / 32 == major
  {
  }

  lemma TextReads(b: Bytes, pos: nat, key: u64, value: Bytes, c: Content, max: nat)
    requires |b| <= MDU && At(b, pos, value) && CarriesText(value, c, max)
    requires (key == 5 && max == ROOM_MAX) || (key == 7 && max == NICKNAME_MAX)
    ensures ReadsAs(b, pos, key, c, pos + |value|)
  {
    FirstOctet(3, |c.chars|);
    assert b[pos] == value[0] == HeadBytes(3, |c.chars|)[0];
    hide HeadAt, HeadBytes, SpanAt, At, StringBytes;
    StringReads(b, pos, 3, c.chars, max);
  }

  lemma OptionalReads(b: Bytes, pos: nat, key: u64, value: Bytes, c: Content, max: nat)
    requires |b| <= MDU && At(b, pos, value) && CarriesOptional(value, c, max)
    requires (key == 5 && max == ROOM_MAX) || (key == 7 && max == NICKNAME_MAX)
    ensures ReadsAs(b, pos, key, c, pos + |value|)
  {
    hide CarriesText, ReadsAs;
    if CarriesText(value, c, max) {
      TextReads(b, pos, key, value, c, max);
    } else {
      ValueMeans(b, pos, key, c, pos + 1);
    }
  }

  lemma TextItemHead(item: Bytes)
    requires Complete(item, 1) && item[0] / 32 == 3
    ensures var h := HeadAt(item, 0);
            && h.Ok? && h.value.value.major == 3 && h.value.next + h.value.value.argument == |item|
            && Payload(item) == item[h.value.next..|item|] && Utf8.Valid(Payload(item))
  {
    hide HeadAt, Utf8.Valid;
    HeadMajor(item, 0);
    var h := HeadAt(item, 0).value;
    assert h.next + h.value.argument == |item|;
    assert item[h.next..|item|] == item[h.next..];
  }

  lemma TextItem(item: Bytes, b: Bytes, pos: nat)
    requires |b| <= MDU && At(b, pos, item) && Complete(item, 1) && item[0] / 32 == 3
    ensures var s := SpanAt(b, pos, 3, MDU);
            && s.Ok? && s.value.next == pos + |item|
            && Within(b, s.value.value) && Slice(b, s.value.value) == Payload(item)
  {
    hide HeadAt, At, Complete, Payload, Utf8.Valid;
    TextItemHead(item);
    HeadRelocates(item, 0, b, pos);
    EmbeddedSlice(item, b, pos, HeadAt(item, 0).value.next, |item|);
  }

  lemma HeadMajor(b: Bytes, pos: nat)
    requires HeadAt(b, pos).Ok?
    ensures HeadAt(b, pos).value.value.major == b[pos] / 32
  {
  }

  lemma FirstOctetAt(b: Bytes, pos: nat, item: Bytes)
    requires At(b, pos, item) && item != []
    ensures pos < |b| && b[pos] == item[0]
  {
    assert b[pos..pos + |item|][0] == b[pos];
  }

  lemma BodyReads(b: Bytes, pos: nat, value: Bytes, c: Content)
    requires |b| <= MDU && At(b, pos, value) && CarriesBody(value, c)
    ensures ReadsAs(b, pos, 6, c, pos + |value|)
  {
    hide HeadAt, SpanAt, SkipAt, Payload, Utf8.Valid, At;
    AtIsSlice(b, pos, value);
    FirstOctetAt(b, pos, value);
    if value[0] / 32 == 3 {
      TextItem(value, b, pos);
    } else {
      SkipRelocates(value, 0, 1, b, pos);
    }
  }

  /** A part, wherever it stands in a packet, is read back as the field it carries. */
  lemma PartReads(b: Bytes, pos: nat, p: Part, c: Content)
    requires |b| <= MDU && At(b, pos, PartBytes(p)) && Carries(p, c)
    ensures FieldAt(b, pos) == Ok(Read(Field(p.key, c), pos + |PartBytes(p)|))
  {
    hide HeadBytes, HeadAt, SpanAt, SkipAt, At, UintAt, CarriesBody, CarriesOptional, CarriesOctets;
    AtConcat(b, pos, HeadBytes(0, p.key), p.value);
    NumberReads(b, pos, p.key);
    var at := pos + |HeadBytes(0, p.key)|;
    match p.key {
      case 0 => NumberReads(b, at, 1);
      case 1 => NumberReads(b, at, c.n);
      case 2 => OctetsRead(b, at, p.key, p.value, c, ID_LENGTH);
      case 3 => NumberReads(b, at, c.n);
      case 4 => OctetsRead(b, at, p.key, p.value, c, IDENTITY_LENGTH);
      case 5 => OptionalReads(b, at, p.key, p.value, c, ROOM_MAX);
      case 6 => BodyReads(b, at, p.value, c);
      case 7 => OptionalReads(b, at, p.key, p.value, c, NICKNAME_MAX);
      case 8 => OctetsRead(b, at, p.key, p.value, c, IDENTITY_LENGTH);
    }
  }

  ghost predicate AllCarry(parts: seq<Part>, fs: seq<Field>) {
    && |parts| == |fs|
    && forall i :: 0 <= i < |parts| ==> fs[i].key == parts[i].key && Carries(parts[i], fs[i].content)
  }

  lemma FlattenCons(b: Bytes, pos: nat, parts: seq<Part>)
    requires parts != [] && At(b, pos, Flatten(parts))
    ensures At(b, pos, PartBytes(parts[0])) && At(b, pos + |PartBytes(parts[0])|, Flatten(parts[1..]))
    ensures pos + |PartBytes(parts[0])| <= |b|
    ensures |Flatten(parts)| == |PartBytes(parts[0])| + |Flatten(parts[1..])|
  {
    AtConcat(b, pos, PartBytes(parts[0]), Flatten(parts[1..]));
  }

  lemma AllCarryTail(parts: seq<Part>, fs: seq<Field>)
    requires AllCarry(parts, fs) && parts != []
    ensures AllCarry(parts[1..], fs[1..]) && fs[0].key == parts[0].key && Carries(parts[0], fs[0].content)
  {
    hide Carries;
  }

  lemma FieldsCons(b: Bytes, pos: nat, count: nat, first: Read<Field>, rest: Read<seq<Field>>)
    requires pos <= |b| <= MDU && count > 0 && FieldAt(b, pos) == Ok(first) && first.next <= |b|
    requires FieldsAt(b, first.next, count - 1) == Ok(rest)
    ensures FieldsAt(b, pos, count) == Ok(Read([first.value] + rest.value, rest.next))
  {
    hide FieldAt;
  }

  lemma {:induction false} PartsRead(b: Bytes, pos: nat, parts: seq<Part>, fs: seq<Field>)
    requires |b| <= MDU && At(b, pos, Flatten(parts)) && AllCarry(parts, fs)
    ensures pos <= |b| && FieldsAt(b, pos, |parts|) == Ok(Read(fs, pos + |Flatten(parts)|))
    decreases |parts|
  {
    hide *;
    AllCarrySize(parts, fs);
    AtFits(b, pos, Flatten(parts));
    if parts == [] {
      NothingReads(b, pos);
      return;
    }
    FlattenCons(b, pos, parts);
    AllCarryTail(parts, fs);
    PartReads(b, pos, parts[0], fs[0].content);
    var next := pos + |PartBytes(parts[0])|;
    PartsRead(b, next, parts[1..], fs[1..]);
    assert fs == [fs[0]] + fs[1..];
    FieldsCons(b, pos, |parts|, Read(fs[0], next), Read(fs[1..], next + |Flatten(parts[1..])|));
  }

  lemma NothingReads(b: Bytes, pos: nat)
    requires pos <= |b| <= MDU
    ensures FieldsAt(b, pos, 0) == Ok(Read([], pos)) && Flatten([]) == []
  {
  }

  lemma AllCarrySize(parts: seq<Part>, fs: seq<Field>)
    requires AllCarry(parts, fs)
    ensures |parts| == |fs|
  {
  }

  /** A whole map of parts is a packet holding exactly the fields they carry. */
  lemma PacketReads(parts: seq<Part>, fs: seq<Field>)
    requires |parts| <= MAX_ENTRIES && |MapBytes(parts)| <= MDU && AllCarry(parts, fs)
    ensures Fields(MapBytes(parts)) == Ok(fs)
  {
    hide HeadBytes, HeadAt, Flatten, FieldsAt, AllCarry;
    var b := MapBytes(parts);
    assert At(b, 0, HeadBytes(5, |parts|) + Flatten(parts));
    AtConcat(b, 0, HeadBytes(5, |parts|), Flatten(parts));
    HeadReads(b, 0, 5, |parts|);
    PartsRead(b, |HeadBytes(5, |parts|)|, parts, fs);
  }

  // ---- The HELLO body is one complete item ---------------------------------------------------

  ghost predicate AllComplete(parts: seq<Part>, depth: nat) {
    forall i :: 0 <= i < |parts| ==> Complete(parts[i].value, depth)
  }

  lemma AllCompleteTail(parts: seq<Part>, depth: nat)
    requires AllComplete(parts, depth) && parts != []
    ensures AllComplete(parts[1..], depth) && Complete(parts[0].value, depth)
  {
    hide Complete;
  }

  lemma PartSkips(b: Bytes, pos: nat, depth: nat, p: Part)
    requires depth <= MAX_DEPTH && At(b, pos, PartBytes(p)) && Complete(p.value, depth)
    ensures var at := pos + |HeadBytes(0, p.key)|;
            SkipAt(b, pos, depth) == Ok(at) && SkipAt(b, at, depth) == Ok(pos + |PartBytes(p)|)
  {
    hide HeadBytes, SkipAt, At, UintAt;
    var key := HeadBytes(0, p.key);
    AtConcat(b, pos, key, p.value);
    NumberReads(b, pos, p.key);
    UintSkips(b, pos, depth);
    SkipRelocates(p.value, 0, depth, b, pos + |key|);
  }

  lemma {:induction false} ItemsSkip(b: Bytes, pos: nat, depth: nat, parts: seq<Part>)
    requires depth <= MAX_DEPTH && At(b, pos, Flatten(parts)) && AllComplete(parts, depth)
    ensures pos <= |b| && SkipItems(b, pos, depth, 2 * |parts|) == Ok(pos + |Flatten(parts)|)
    decreases |parts|
  {
    hide *;
    AtFits(b, pos, Flatten(parts));
    if parts == [] {
      NothingSkips(b, pos, depth);
      return;
    }
    FlattenCons(b, pos, parts);
    AllCompleteTail(parts, depth);
    PartSkips(b, pos, depth, parts[0]);
    ItemsSkip(b, pos + |PartBytes(parts[0])|, depth, parts[1..]);
    SkipTwo(b, pos, depth, 2 * |parts|);
  }

  lemma NothingSkips(b: Bytes, pos: nat, depth: nat)
    requires pos <= |b|
    ensures SkipItems(b, pos, depth, 0) == Ok(pos) && Flatten([]) == []
  {
  }

  lemma AtFits(b: Bytes, pos: nat, chunk: Bytes)
    requires At(b, pos, chunk)
    ensures pos + |chunk| <= |b|
  {
  }

  lemma SkipTwo(b: Bytes, pos: nat, depth: nat, count: nat)
    requires pos <= |b| && count >= 2 && SkipAt(b, pos, depth).Ok?
    requires SkipAt(b, SkipAt(b, pos, depth).value, depth).Ok?
    ensures SkipItems(b, pos, depth, count)
         == SkipItems(b, SkipAt(b, SkipAt(b, pos, depth).value, depth).value, depth, count - 2)
  {
    hide SkipAt;
  }

  lemma MapIsComplete(parts: seq<Part>, depth: nat)
    requires depth < MAX_DEPTH && |parts| <= MAX_ENTRIES && AllComplete(parts, depth + 1)
    ensures Complete(MapBytes(parts), depth)
  {
    hide HeadBytes, HeadAt, Flatten, SkipItems, AllComplete;
    var b := MapBytes(parts);
    assert At(b, 0, HeadBytes(5, |parts|) + Flatten(parts));
    AtConcat(b, 0, HeadBytes(5, |parts|), Flatten(parts));
    HeadReads(b, 0, 5, |parts|);
    ItemsSkip(b, |HeadBytes(5, |parts|)|, depth + 1, parts);
  }

  lemma StringIsComplete(major: nat, value: Bytes, depth: nat)
    requires (major == 2 || major == 3) && depth <= MAX_DEPTH && |value| <= MDU && (major == 3 ==> Utf8.Valid(value))
    ensures Complete(StringBytes(major, value), depth)
    ensures Payload(StringBytes(major, value)) == value
  {
    hide HeadBytes, HeadAt;
    var b := StringBytes(major, value);
    assert At(b, 0, HeadBytes(major, |value|) + value);
    AtConcat(b, 0, HeadBytes(major, |value|), value);
    HeadReads(b, 0, major, |value|);
  }

  lemma CapabilitiesAreComplete()
    ensures Complete(MapBytes(CLIENT_CAPABILITIES), 2)
  {
    var flags := CLIENT_CAPABILITIES;
    forall i | 0 <= i < |flags| ensures Complete(flags[i].value, 3) {
      SimpleSkips(flags[i].value, 0, 3);
    }
    hide Complete, MapBytes;
    MapIsComplete(flags, 2);
  }

  lemma ClientNameIsText()
    ensures Utf8.Valid(CLIENT_NAME)
  {
    hide Utf8.Valid;
    Utf8.AsciiIsValid(CLIENT_NAME);
  }

  lemma HelloIsComplete(version: Bytes)
    requires |version| <= MDU && Utf8.Valid(version)
    ensures Complete(MapBytes(HelloParts(version)), 1) && MapBytes(HelloParts(version))[0] == 0xA3
  {
    hide Complete, MapBytes, StringBytes, Utf8.Valid;
    assert HeadBytes(5, 3) == [0xA3];
    CapabilitiesAreComplete();
    ClientNameIsText();
    StringIsComplete(3, CLIENT_NAME, 2);
    StringIsComplete(3, version, 2);
    var parts := HelloParts(version);
    assert |parts| == 3;
    assert AllComplete(parts, 2);
    hide AllComplete, HelloParts;
    MapIsComplete(parts, 1);
    MapHead(parts);
  }

  lemma MapHead(parts: seq<Part>)
    requires |parts| <= MAX_ENTRIES
    ensures MapBytes(parts)[0] == HeadBytes(5, |parts|)[0]
  {
  }

  // ---- The round trip ------------------------------------------------------------------------

  /** The body as the receiver will see it: text sent as a raw item arrives as text. */
  function SentBody(body: Bytes, bodyKind: nat): BodyContent
    requires |body| <= MDU
  {
    if bodyKind == 0 then NoBody
    else if bodyKind == 1 then TextContent(body)
    else if bodyKind == 2 then
      if body != [] && body[0] / 32 == 3 then TextContent(Payload(body)) else ItemContent(body)
    else ItemContent(MapBytes(HelloParts(body)))
  }

  function BodyFields(body: Bytes, bodyKind: nat): seq<Field>
    requires |body| <= MDU
  {
    match SentBody(body, bodyKind)
    case NoBody => []
    case TextContent(t) => [Field(6, Chars(t))]
    case ItemContent(i) => [Field(6, Other(i))]
  }

  function TextFields(key: u64, text: Bytes): seq<Field> {
    if text == [] then [] else [Field(key, Chars(text))]
  }

  function RequiredFields(meta: Meta): seq<Field> {
    [Field(0, One), Field(1, Amount(meta.kind)), Field(2, Data(meta.id)), Field(3, Amount(meta.timestamp)),
     Field(4, Data(meta.source))]
  }

  function DestinationFields(meta: Meta): seq<Field> {
    if meta.hasDestination == 0 then [] else [Field(8, Data(meta.destination))]
  }

  function SentFields(meta: Meta, room: Bytes, nick: Bytes, body: Bytes, bodyKind: nat): seq<Field>
    requires |body| <= MDU
  {
    RequiredFields(meta) + TextFields(5, room) + BodyFields(body, bodyKind) + TextFields(7, nick) + DestinationFields(meta)
  }

  lemma AllCarryConcat(p: seq<Part>, f: seq<Field>, q: seq<Part>, g: seq<Field>)
    requires AllCarry(p, f) && AllCarry(q, g)
    ensures AllCarry(p + q, f + g)
  {
    hide Carries;
    forall i | 0 <= i < |p + q|
      ensures (f + g)[i].key == (p + q)[i].key && Carries((p + q)[i], (f + g)[i].content)
    {
      if i < |p| {
        assert (p + q)[i] == p[i] && (f + g)[i] == f[i];
      } else {
        assert (p + q)[i] == q[i - |p|] && (f + g)[i] == g[i - |p|];
      }
    }
  }

  lemma OneCarries(p: Part, c: Content)
    requires Carries(p, c)
    ensures AllCarry([p], [Field(p.key, c)])
  {
    hide Carries;
  }

  lemma BodyCarries(body: Bytes, bodyKind: nat)
    requires |body| <= MDU && bodyKind <= 3
    requires (bodyKind == 1 || bodyKind == 3) ==> Utf8.Valid(body)
    requires bodyKind == 2 ==> Complete(body, 1)
    ensures AllCarry(BodyParts(body, bodyKind), BodyFields(body, bodyKind))
  {
    hide Complete, HeadBytes, Payload, MapBytes, StringBytes, Utf8.Valid, AllCarry;
    if bodyKind == 0 {
      NothingCarries();
    } else if bodyKind == 1 {
      StringIsComplete(3, body, 1);
      StringHead(3, body);
      OneCarries(Part(6, StringBytes(3, body)), Chars(body));
    } else if bodyKind == 2 {
      CompleteIsNotEmpty(body, 1);
      OneCarries(Part(6, body), if body[0] / 32 == 3 then Chars(Payload(body)) else Other(body));
    } else {
      HelloIsComplete(body);
      var hello := MapBytes(HelloParts(body));
      OneCarries(Part(6, hello), Other(hello));
    }
  }

  lemma NothingCarries()
    ensures AllCarry([], [])
  {
  }

  lemma StringHead(major: nat, value: Bytes)
    requires major < 8 && |value| <= MDU
    ensures StringBytes(major, value) != [] && StringBytes(major, value)[0] / 32 == major
  {
    FirstOctet(major, |value|);
    assert StringBytes(major, value)[0] == HeadBytes(major, |value|)[0];
  }

  lemma CompleteIsNotEmpty(item: Bytes, depth: nat)
    requires Complete(item, depth)
    ensures item != []
  {
  }

  lemma RestCarries(meta: Meta, room: Bytes, nick: Bytes)
    requires MetaShaped(meta) && |room| <= ROOM_MAX && |nick| <= NICKNAME_MAX && Utf8.Valid(room) && Utf8.Valid(nick)
    ensures AllCarry(RequiredParts(meta), RequiredFields(meta))
    ensures AllCarry(TextParts(5, room), TextFields(5, room))
    ensures AllCarry(TextParts(7, nick), TextFields(7, nick))
    ensures AllCarry(DestinationParts(meta), DestinationFields(meta))
  {
    hide HeadBytes, StringBytes, Utf8.Valid;
  }

  lemma EnvelopeCarries(meta: Meta, room: Bytes, nick: Bytes, body: Bytes, bodyKind: nat)
    requires MetaShaped(meta) && |body| <= MDU && CheckArguments(meta, room, nick, body, bodyKind).Ok?
    ensures AllCarry(EnvelopeParts(meta, room, nick, body, bodyKind), SentFields(meta, room, nick, body, bodyKind))
  {
    RestCarries(meta, room, nick);
    BodyCarries(body, bodyKind);
    hide AllCarry, RequiredParts, RequiredFields, TextParts, TextFields, BodyParts, BodyFields, DestinationParts, DestinationFields;
    var p, f := RequiredParts(meta), RequiredFields(meta);
    AllCarryConcat(p, f, TextParts(5, room), TextFields(5, room));
    p, f := p + TextParts(5, room), f + TextFields(5, room);
    AllCarryConcat(p, f, BodyParts(body, bodyKind), BodyFields(body, bodyKind));
    p, f := p + BodyParts(body, bodyKind), f + BodyFields(body, bodyKind);
    AllCarryConcat(p, f, TextParts(7, nick), TextFields(7, nick));
    p, f := p + TextParts(7, nick), f + TextFields(7, nick);
    AllCarryConcat(p, f, DestinationParts(meta), DestinationFields(meta));
  }

  /** Adding one field under a key larger than any before it repeats nothing. */
  ghost predicate Ascending(fs: seq<Field>) {
    forall i, j :: 0 <= i < j < |fs| ==> fs[i].key < fs[j].key
  }

  lemma SentFieldsAscend(meta: Meta, room: Bytes, nick: Bytes, body: Bytes, bodyKind: nat)
    requires |body| <= MDU
    ensures Ascending(SentFields(meta, room, nick, body, bodyKind))
    ensures forall i :: 0 <= i < |SentFields(meta, room, nick, body, bodyKind)| ==> Known(SentFields(meta, room, nick, body, bodyKind)[i])
    ensures HasRequired(SentFields(meta, room, nick, body, bodyKind))
  {
    hide SentBody;
    var fs := SentFields(meta, room, nick, body, bodyKind);
    assert fs[0].key == 0 && fs[1].key == 1 && fs[2].key == 2 && fs[3].key == 3 && fs[4].key == 4;
  }

  lemma AscendingKeepsAll(fs: seq<Field>)
    requires Ascending(fs) && forall i :: 0 <= i < |fs| ==> Known(fs[i])
    ensures !Repeats(fs)
    ensures forall f: Field :: f in fs ==> f.key in ByKey(fs) && ByKey(fs)[f.key] == f.content
    ensures forall k: u64 :: k in ByKey(fs) <==> Names(fs, k)
  {
    ByKeyNames(fs);
    forall f: Field | f in fs ensures f.key in ByKey(fs) && ByKey(fs)[f.key] == f.content {
      ByKeyHolds(fs, f);
    }
    forall k: u64 ensures k in ByKey(fs) <==> Names(fs, k) {
      if Names(fs, k) {
        var i :| 0 <= i < |fs| && fs[i].key == k;
        assert Known(fs[i]);
      }
    }
  }

  /** What a receiver is told: the destination is zero when none was sent. */
  function Sent(meta: Meta, room: Bytes, nick: Bytes, body: Bytes, bodyKind: nat): Contents
    requires |body| <= MDU
  {
    Contents(if meta.hasDestination == 0 then meta.(destination := Zeros(IDENTITY_LENGTH)) else meta,
             room, nick, SentBody(body, bodyKind))
  }

  /** Absent optional fields are named nowhere. */
  lemma SentNames(meta: Meta, room: Bytes, nick: Bytes, body: Bytes, bodyKind: nat)
    requires |body| <= MDU
    ensures var fs := SentFields(meta, room, nick, body, bodyKind);
            && (Names(fs, 5) <==> room != [])
            && (Names(fs, 6) <==> SentBody(body, bodyKind) != NoBody)
            && (Names(fs, 7) <==> nick != [])
            && (Names(fs, 8) <==> meta.hasDestination != 0)
  {
    hide SentBody;
    var fs := SentFields(meta, room, nick, body, bodyKind);
    var a, b, c := TextFields(5, room), BodyFields(body, bodyKind), TextFields(7, nick);
    if room != [] { assert fs[5].key == 5; }
    if b != [] { assert fs[5 + |a|].key == 6; }
    if nick != [] { assert fs[5 + |a| + |b|].key == 7; }
    if meta.hasDestination != 0 { assert fs[5 + |a| + |b| + |c|].key == 8; }
  }

  lemma SentMembers(meta: Meta, room: Bytes, nick: Bytes, body: Bytes, bodyKind: nat)
    requires |body| <= MDU
    ensures var fs := SentFields(meta, room, nick, body, bodyKind);
            && Field(1, Amount(meta.kind)) in fs && Field(3, Amount(meta.timestamp)) in fs
            && Field(2, Data(meta.id)) in fs && Field(4, Data(meta.source)) in fs
            && (room != [] ==> Field(5, Chars(room)) in fs)
            && (nick != [] ==> Field(7, Chars(nick)) in fs)
            && (meta.hasDestination != 0 ==> Field(8, Data(meta.destination)) in fs)
            && (SentBody(body, bodyKind).TextContent? ==> Field(6, Chars(SentBody(body, bodyKind).chars)) in fs)
            && (SentBody(body, bodyKind).ItemContent? ==> Field(6, Other(SentBody(body, bodyKind).item)) in fs)
  {
    hide SentBody;
    var r := RequiredFields(meta);
    assert r[1] in r && r[2] in r && r[3] in r && r[4] in r;
  }

  lemma SentMeaning(meta: Meta, room: Bytes, nick: Bytes, body: Bytes, bodyKind: nat)
    requires MetaShaped(meta) && |body| <= MDU && meta.hasDestination <= 1
    ensures Meaning(ByKey(SentFields(meta, room, nick, body, bodyKind))) == Sent(meta, room, nick, body, bodyKind)
  {
    hide SentFields, SentBody, ByKey, Names;
    var fs := SentFields(meta, room, nick, body, bodyKind);
    SentFieldsAscend(meta, room, nick, body, bodyKind);
    AscendingKeepsAll(fs);
    SentNames(meta, room, nick, body, bodyKind);
    SentMembers(meta, room, nick, body, bodyKind);
  }

  /**
   * Whatever the encoder accepts, the decoder accepts, and its spans slice back to exactly what was
   * encoded: room and nickname (empty when absent), the meta data, and the body.
   */
  lemma DecodeInvertsEncode(meta: Meta, room: Bytes, nick: Bytes, body: Bytes, bodyKind: nat)
    requires MetaShaped(meta) && |body| <= MDU && EncodeSpec(meta, room, nick, body, bodyKind).Ok?
    ensures var packet := EncodeSpec(meta, room, nick, body, bodyKind).value;
            && DecodeSpec(packet).Ok?
            && ViewWithin(packet, DecodeSpec(packet).value)
            && ContentsOf(packet, DecodeSpec(packet).value) == Sent(meta, room, nick, body, bodyKind)
  {
    ChecksBoundDestination(meta, room, nick, body, bodyKind);
    hide DecodeSpec, CheckArguments, MapBytes, EnvelopeParts, SentFields, Meaning, ByKey, AllCarry, HasRequired, ContentsOf, Sent;
    var packet := EncodeSpec(meta, room, nick, body, bodyKind).value;
    var parts := EnvelopeParts(meta, room, nick, body, bodyKind);
    var fs := SentFields(meta, room, nick, body, bodyKind);
    EnvelopeCarries(meta, room, nick, body, bodyKind);
    EnvelopeCountBound(meta, room, nick, body, bodyKind);
    PacketReads(parts, fs);
    SentFieldsAscend(meta, room, nick, body, bodyKind);
    AscendingKeepsAll(fs);
    SentMeaning(meta, room, nick, body, bodyKind);
    DecodeMeans(packet);
  }

  lemma ChecksBoundDestination(meta: Meta, room: Bytes, nick: Bytes, body: Bytes, bodyKind: nat)
    requires |body| <= MDU && CheckArguments(meta, room, nick, body, bodyKind).Ok?
    ensures meta.hasDestination <= 1 && |room| <= ROOM_MAX && |nick| <= NICKNAME_MAX
  {
  }

  lemma EnvelopeCountBound(meta: Meta, room: Bytes, nick: Bytes, body: Bytes, bodyKind: nat)
    requires MetaShaped(meta) && |body| <= MDU && |room| <= MDU && |nick| <= MDU
    ensures |EnvelopeParts(meta, room, nick, body, bodyKind)| <= 9
  {
    EnvelopeCount(meta, room, nick, body, bodyKind);
  }

  // ---- The body span is the body item itself -------------------------------------------------

  /** Once a body was seen, later entries leave its span alone. */
  lemma {:induction false} BodyIsKept(b: Bytes, pos: nat, count: nat, p: Progress)
    requires pos <= |b| <= MDU && 6 in p.seen && EntriesAt(b, pos, count, p).Ok?
    ensures EntriesAt(b, pos, count, p).value.value.view.body == p.view.body
    decreases count
  {
    hide UintAt, SpanAt, FixedAt, OptionalTextAt, SkipAt;
    if count > 0 {
      var key := UintAt(b, pos).value;
      var value := ValueAt(b, key.next, key.value).value;
      BodyIsKept(b, value.next, count - 1, After(p, key.value, value.value));
    }
  }

  lemma {:induction false} EntriesJoin(b: Bytes, pos: nat, first: nat, second: nat, p: Progress)
    requires pos <= |b| <= MDU && EntriesAt(b, pos, first + second, p).Ok?
    ensures EntriesAt(b, pos, first, p).Ok?
    ensures var mid := EntriesAt(b, pos, first, p).value;
            EntriesAt(b, pos, first + second, p) == EntriesAt(b, mid.next, second, mid.value)
    decreases first
  {
    hide UintAt, ValueAt;
    if first > 0 {
      var key := UintAt(b, pos).value;
      var value := ValueAt(b, key.next, key.value).value;
      EntriesJoin(b, value.next, first - 1, second, After(p, key.value, value.value));
    }
  }

  lemma BodyWhole(b: Bytes, pos: nat, v: View)
    requires pos <= |b| <= MDU && ValueAt(b, pos, 6).Ok?
    ensures var read := ValueAt(b, pos, 6).value;
            Store(v, 6, read.value).body == Span(pos, read.next - pos)
  {
    hide SpanAt, SkipAt;
  }

  lemma EntriesStep(b: Bytes, pos: nat, count: nat, p: Progress)
    requires pos <= |b| <= MDU && count > 0 && EntriesAt(b, pos, count, p).Ok?
    ensures UintAt(b, pos).Ok?
    ensures var key := UintAt(b, pos).value;
            && ValueAt(b, key.next, key.value).Ok?
            && var value := ValueAt(b, key.next, key.value).value;
               EntriesAt(b, pos, count, p) == EntriesAt(b, value.next, count - 1, After(p, key.value, value.value))
  {
    hide UintAt, ValueAt, After;
  }

  /** The entry under key 6 leaves its whole value as the body span. */
  lemma BodyEntry(b: Bytes, pos: nat, count: nat, p: Progress, value: Bytes)
    requires pos <= |b| <= MDU && count > 0 && EntriesAt(b, pos, count, p).Ok?
    requires At(b, pos, PartBytes(Part(6, value))) && Complete(value, 1)
    ensures EntriesAt(b, pos, count, p).value.value.view.body == Span(pos + 1, |value|)
    ensures At(b, pos + 1, value)
  {
    hide UintAt, ValueAt, At, Store, EntriesAt, SkipAt, Payload, ContentOf;
    assert HeadBytes(0, 6) == [6];
    AtConcat(b, pos, [6], value);
    AtFits(b, pos + 1, value);
    CompleteIsNotEmpty(value, 1);
    NumberReads(b, pos, 6);
    BodyReads(b, pos + 1, value, if value[0] / 32 == 3 then Chars(Payload(value)) else Other(value));
    EntriesStep(b, pos, count, p);
    BodyWhole(b, pos + 1, p.view);
    var read := ValueAt(b, pos + 1, 6).value;
    BodyIsKept(b, read.next, count - 1, After(p, 6, read.value));
  }

  lemma PartsEnd(b: Bytes, pos: nat, parts: seq<Part>, fs: seq<Field>, p: Progress)
    requires |b| <= MDU && At(b, pos, Flatten(parts)) && pos <= |b| && EntriesAt(b, pos, |parts|, p).Ok?
    requires AllCarry(parts, fs)
    ensures EntriesAt(b, pos, |parts|, p).value.next == pos + |Flatten(parts)|
  {
    hide At, AllCarry, FieldAt, UintAt, ValueAt;
    PartsRead(b, pos, parts, fs);
    EntriesFollowFields(b, pos, |parts|, p);
  }

  lemma {:induction false} EntriesFollowFields(b: Bytes, pos: nat, count: nat, p: Progress)
    requires pos <= |b| <= MDU && EntriesAt(b, pos, count, p).Ok?
    ensures FieldsAt(b, pos, count).Ok? && FieldsAt(b, pos, count).value.next == EntriesAt(b, pos, count, p).value.next
    decreases count
  {
    hide UintAt, ValueAt, ContentOf;
    if count > 0 {
      EntriesUnfold(b, pos, count, p);
      EntriesFollowFields(b, FieldAt(b, pos).value.next, count - 1, Advance(b, pos, p));
    }
  }

  /**
   * The body span of a decoded packet slices back to the body item octet for octet: the text with its
   * head, the supplied item, or the HELLO map.
   */
  lemma BodySpanIsBodyItem(meta: Meta, room: Bytes, nick: Bytes, body: Bytes, bodyKind: nat)
    requires MetaShaped(meta) && |body| <= MDU && EncodeSpec(meta, room, nick, body, bodyKind).Ok? && bodyKind != 0
    ensures var packet := EncodeSpec(meta, room, nick, body, bodyKind).value;
            && DecodeSpec(packet).Ok? && Within(packet, DecodeSpec(packet).value.body)
            && Slice(packet, DecodeSpec(packet).value.body) == BodyParts(body, bodyKind)[0].value
  {
    hide CheckArguments, MapBytes, Flatten, HeadBytes, At, EntriesAt, ContainerAt, Complete, RequiredParts, RequiredFields, TextParts, TextFields, BodyParts, DestinationParts, AllCarry;
    ChecksBoundDestination(meta, room, nick, body, bodyKind);
    DecodeInvertsEncode(meta, room, nick, body, bodyKind);
    var packet := EncodeSpec(meta, room, nick, body, bodyKind).value;
    var value := BodyItemIsComplete(meta, room, nick, body, bodyKind);
    var front := RequiredParts(meta) + TextParts(5, room);
    var back := TextParts(7, nick) + DestinationParts(meta);
    var parts := EnvelopeParts(meta, room, nick, body, bodyKind);
    assert parts == front + ([Part(6, value)] + back);
    EnvelopeCountBound(meta, room, nick, body, bodyKind);
    PacketLayout(packet, parts, front, Part(6, value), back);
    FrontCarries(meta, room, nick);
    var first := |HeadBytes(5, |parts|)|;
    var count := |parts|;
    assert count == |front| + (1 + |back|);
    EntriesJoin(packet, first, |front|, 1 + |back|, START);
    PartsEnd(packet, first, front, RequiredFields(meta) + TextFields(5, room), START);
    var mid := EntriesAt(packet, first, |front|, START).value;
    BodyEntry(packet, mid.next, 1 + |back|, mid.value, value);
    AtIsSlice(packet, mid.next + 1, value);
  }

  lemma AtIsSlice(b: Bytes, pos: nat, chunk: Bytes)
    requires At(b, pos, chunk)
    ensures pos + |chunk| <= |b| && b[pos..pos + |chunk|] == chunk
  {
  }

  lemma FrontCarries(meta: Meta, room: Bytes, nick: Bytes)
    requires MetaShaped(meta) && |room| <= ROOM_MAX && |nick| <= NICKNAME_MAX && Utf8.Valid(room) && Utf8.Valid(nick)
    ensures AllCarry(RequiredParts(meta) + TextParts(5, room), RequiredFields(meta) + TextFields(5, room))
  {
    hide AllCarry, RequiredParts, RequiredFields, TextParts, TextFields, Utf8.Valid;
    RestCarries(meta, room, nick);
    AllCarryConcat(RequiredParts(meta), RequiredFields(meta), TextParts(5, room), TextFields(5, room));
  }

  lemma BodyItemIsComplete(meta: Meta, room: Bytes, nick: Bytes, body: Bytes, bodyKind: nat) returns (value: Bytes)
    requires MetaShaped(meta) && |body| <= MDU && CheckArguments(meta, room, nick, body, bodyKind).Ok? && bodyKind != 0
    ensures BodyParts(body, bodyKind) == [Part(6, value)] && Complete(value, 1)
    ensures Utf8.Valid(room) && Utf8.Valid(nick)
  {
    hide StringBytes, MapBytes, Utf8.Valid;
    value := BodyParts(body, bodyKind)[0].value;
    if bodyKind == 1 {
      StringIsComplete(3, body, 1);
    } else if bodyKind == 3 {
      HelloIsComplete(body);
    }
  }

  /** Where a part stands in a packet. */
  lemma PacketLayout(packet: Bytes, parts: seq<Part>, front: seq<Part>, p: Part, back: seq<Part>)
    requires |parts| <= MAX_ENTRIES && packet == MapBytes(parts) && |packet| <= MDU && parts == front + ([p] + back)
    ensures var first := |HeadBytes(5, |parts|)|;
            && ContainerAt(packet, 0, 5) == Ok(Read(|parts|, first))
            && first <= |packet|
            && At(packet, first, Flatten(front))
            && At(packet, first + |Flatten(front)|, PartBytes(p))
  {
    hide HeadBytes, HeadAt, Flatten, PartBytes;
    assert At(packet, 0, HeadBytes(5, |parts|) + Flatten(parts));
    AtConcat(packet, 0, HeadBytes(5, |parts|), Flatten(parts));
    HeadReads(packet, 0, 5, |parts|);
    FlattenConcat(front, [p] + back);
    FlattenConcat([p], back);
    FlattenOne(p);
    var first := |HeadBytes(5, |parts|)|;
    AtConcat(packet, first, Flatten(front), Flatten([p] + back));
    AtConcat(packet, first + |Flatten(front)|, PartBytes(p), Flatten(back));
  }
}
