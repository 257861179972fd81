/**
 * The deterministic form of section 4.2.1 of RFC 8949 (shortest heads and floats, definite lengths,
 * map keys in bytewise order of their encodings), and when the encoder's packets are in it. Whether
 * a small integer may stand as a bignum is left to each protocol by section 4.2.2 and not restricted.
 */
module Deterministic {
  import opened Bytes
  import opened Cbor
  import opened CborFacts
  import opened Encoder
  import opened Envelope
  import opened RoundTrip
  import opened Writer
  import Floats
  import Utf8

  /** Strict bytewise lexicographic order. */
  predicate Precedes(x: Bytes, y: Bytes) {
    y != [] && (x == [] || x[0] < y[0] || (x[0] == y[0] && Precedes(x[1..], y[1..])))
  }

  /** Of major type 7: one octet, a simple value of at least 32, or the shortest float of its value. */
  ghost predicate PreferredSimple(info: nat, argument: nat) {
    && (info == 24 ==> argument >= 32)
    && (info == 26 ==> Floats.ShortestFloat(Floats.SINGLE, argument))
    && (info == 27 ==> Floats.ShortestFloat(Floats.DOUBLE, argument))
  }

  ghost function ShortestHeadAt(b: Bytes, pos: nat): (r: Result<Read<ItemHead>>)
    ensures r.Ok? ==> r == HeadAt(b, pos)
  {
    var h :- HeadAt(b, pos);
    if h.value.major == 7 then
      if PreferredSimple(b[pos] % 32, h.value.argument) then Ok(h) else Err(Invalid)
    else if b[pos..h.next] == HeadBytes(h.value.major, h.value.argument) then Ok(h)
    else Err(Invalid)
  }

  /** The end of the item at `pos`, if it is in deterministic form. */
  ghost function CanonicalAt(b: Bytes, pos: nat, depth: nat): (r: Result<nat>)
    ensures r.Ok? ==> pos < r.value <= |b|
    decreases Levels(depth), 0
  {
    if depth > MAX_DEPTH then Err(Unsupported)
    else
      var h :- ShortestHeadAt(b, pos);
      var major, n := h.value.major, h.value.argument;
      if major == 2 || major == 3 then
        if h.next + n > |b| || (major == 3 && !Utf8.Valid(b[h.next..h.next + n])) then Err(Invalid)
        else Ok(h.next + n)
      else if (major == 4 || major == 5) && n > MAX_ENTRIES then Err(Unsupported)
      else if major == 4 then CanonicalItems(b, h.next, depth + 1, n)
      else if major == 5 then CanonicalPairs(b, h.next, depth + 1, n, [])
      else if major == 6 then CanonicalAt(b, h.next, depth + 1)
      else Ok(h.next)
  }

  ghost function CanonicalItems(b: Bytes, pos: nat, depth: nat, count: nat): (r: Result<nat>)
    requires pos <= |b|
    ensures r.Ok? ==> pos <= r.value <= |b|
    decreases Levels(depth), 1, count
  {
    if count == 0 then Ok(pos)
    else
      var next :- CanonicalAt(b, pos, depth);
      CanonicalItems(b, next, depth, count - 1)
  }

  /** Key and value pairs, each key after `last`. */
  ghost function CanonicalPairs(b: Bytes, pos: nat, depth: nat, count: nat, last: Bytes): (r: Result<nat>)
    requires pos <= |b|
    ensures r.Ok? ==> pos <= r.value <= |b|
    decreases Levels(depth), 1, count
  {
    if count == 0 then Ok(pos)
    else
      var value :- CanonicalAt(b, pos, depth);
      var next :- CanonicalAt(b, value, depth);
      if !Precedes(last, b[pos..value]) then Err(Invalid)
      else CanonicalPairs(b, next, depth, count - 1, b[pos..value])
  }

  /** `item` is one complete item in deterministic form. */
  ghost predicate Canonical(item: Bytes, depth: nat) {
    CanonicalAt(item, 0, depth) == Ok(|item|)
  }

  // ---- A copy of a complete item is in deterministic form exactly when the item is -----------

  lemma ShortestHeadRelocates(b: Bytes, pos: nat, c: Bytes, k: nat)
    requires At(c, k, b) && HeadAt(b, pos).Ok?
    ensures ShortestHeadAt(c, k + pos).Ok? <==> ShortestHeadAt(b, pos).Ok?
  {
    hide HeadAt, HeadBytes, At, PreferredSimple;
    HeadRelocates(b, pos, c, k);
    EmbeddedSlice(b, c, k, pos, HeadAt(b, pos).value.next);
    assert b[pos..HeadAt(b, pos).value.next][0] == b[pos];
    assert c[k + pos..k + HeadAt(b, pos).value.next][0] == c[k + pos];
  }

  lemma {:induction false} CanonicalRelocates(b: Bytes, pos: nat, depth: nat, c: Bytes, k: nat)
    requires At(c, k, b) && SkipAt(b, pos, depth).Ok?
    ensures CanonicalAt(c, k + pos, depth).Ok? <==> CanonicalAt(b, pos, depth).Ok?
    ensures CanonicalAt(b, pos, depth).Ok? ==>
              && CanonicalAt(b, pos, depth) == SkipAt(b, pos, depth)
              && CanonicalAt(c, k + pos, depth) == Ok(k + SkipAt(b, pos, depth).value)
    decreases Levels(depth), 0
  {
    hide HeadAt, At, HeadBytes, ShortestHeadAt, SkipItems, CanonicalItems, CanonicalPairs, Utf8.Valid;
    HeadRelocates(b, pos, c, k);
    ShortestHeadRelocates(b, pos, c, k);
    var h := HeadAt(b, pos).value;
    if h.value.major == 4 {
      CanonicalItemsRelocate(b, h.next, depth + 1, h.value.argument, c, k);
    } else if h.value.major == 5 {
      CanonicalPairsRelocate(b, h.next, depth + 1, h.value.argument, [], c, k);
    } else if h.value.major == 6 {
      CanonicalRelocates(b, h.next, depth + 1, c, k);
    } else if h.value.major == 2 || h.value.major == 3 {
      EmbeddedSlice(b, c, k, h.next, h.next + h.value.argument);
    }
  }

  lemma {:induction false} CanonicalItemsRelocate(b: Bytes, pos: nat, depth: nat, count: nat, c: Bytes, k: nat)
    requires pos <= |b| && At(c, k, b) && SkipItems(b, pos, depth, count).Ok?
    ensures k + pos <= |c|
    ensures CanonicalItems(c, k + pos, depth, count).Ok? <==> CanonicalItems(b, pos, depth, count).Ok?
    ensures CanonicalItems(b, pos, depth, count).Ok? ==>
              && CanonicalItems(b, pos, depth, count) == SkipItems(b, pos, depth, count)
              && CanonicalItems(c, k + pos, depth, count) == Ok(k + SkipItems(b, pos, depth, count).value)
    decreases Levels(depth), 1, count
  {
    hide SkipAt, CanonicalAt, At;
    EmbeddedSlice(b, c, k, 0, pos);
    if count > 0 {
      CanonicalRelocates(b, pos, depth, c, k);
      CanonicalItemsRelocate(b, SkipAt(b, pos, depth).value, depth, count - 1, c, k);
    }
  }

  lemma {:induction false} CanonicalPairsRelocate(b: Bytes, pos: nat, depth: nat, count: nat, last: Bytes, c: Bytes, k: nat)
    requires pos <= |b| && At(c, k, b) && SkipItems(b, pos, depth, 2 * count).Ok?
    ensures k + pos <= |c|
    ensures CanonicalPairs(c, k + pos, depth, count, last).Ok? <==> CanonicalPairs(b, pos, depth, count, last).Ok?
    ensures CanonicalPairs(b, pos, depth, count, last).Ok? ==>
              && CanonicalPairs(b, pos, depth, count, last) == SkipItems(b, pos, depth, 2 * count)
              && CanonicalPairs(c, k + pos, depth, count, last) == Ok(k + SkipItems(b, pos, depth, 2 * count).value)
    decreases Levels(depth), 1, count
  {
    hide SkipAt, CanonicalAt, At, Precedes;
    EmbeddedSlice(b, c, k, 0, pos);
    if count > 0 {
      var value := SkipAt(b, pos, depth).value;
      assert SkipItems(b, pos, depth, 2 * count) == SkipItems(b, value, depth, 2 * count - 1);
      var next := SkipAt(b, value, depth).value;
      assert SkipItems(b, value, depth, 2 * count - 1) == SkipItems(b, next, depth, 2 * (count - 1));
      CanonicalRelocates(b, pos, depth, c, k);
      CanonicalRelocates(b, value, depth, c, k);
      EmbeddedSlice(b, c, k, pos, value);
      CanonicalPairsRelocate(b, next, depth, count - 1, b[pos..value], c, k);
    }
  }

  // ---- Floats --------------------------------------------------------------------------------

  lemma FourOctets(a: byte, b: byte, c: byte, d: byte)
    ensures BigEndian([a, b, c, d]) == ((a * 256 + b) * 256 + c) * 256 + d
  {
    assert BigEndian([]) == 0;
    BigEndianSnoc([], a);
    BigEndianSnoc([a], b);
    BigEndianSnoc([a, b], c);
    BigEndianSnoc([a, b, c], d);
    assert [] + [a] == [a] && [a] + [b] == [a, b] && [a, b] + [c] == [a, b, c] && [a, b, c] + [d] == [a, b, c, d];
  }

  lemma HeadOfFloat(width: nat, octets: Bytes)
    requires (width == 25 && |octets| == 2) || (width == 26 && |octets| == 4) || (width == 27 && |octets| == 8)
    ensures HeadAt([0xE0 + width] + octets, 0) == Ok(Read(ItemHead(7, BigEndian(octets)), 1 + |octets|))
  {
    hide BigEndian;
    var item: Bytes := [0xE0 + width] + octets;
    assert item[1..1 + |octets|] == octets;
    WidthValues();
  }

  lemma SimpleHead(item: Bytes, argument: u64)
    requires item != [] && HeadAt(item, 0) == Ok(Read(ItemHead(7, argument), |item|))
    ensures ShortestHeadAt(item, 0).Ok? <==> PreferredSimple(item[0] % 32, argument)
  {
    hide HeadAt, PreferredSimple, HeadBytes;
  }

  lemma SimpleEnds(item: Bytes, argument: u64, depth: nat)
    requires depth <= MAX_DEPTH && HeadAt(item, 0) == Ok(Read(ItemHead(7, argument), |item|))
    ensures Canonical(item, depth) <==> ShortestHeadAt(item, 0).Ok?
  {
    hide HeadAt, ShortestHeadAt, CanonicalItems, CanonicalPairs, Utf8.Valid;
  }

  /** A float is deterministic exactly when it is the shortest of its value. */
  lemma FloatIsCanonical(width: nat, octets: Bytes, depth: nat)
    requires (width == 25 && |octets| == 2) || (width == 26 && |octets| == 4) || (width == 27 && |octets| == 8)
    requires depth <= MAX_DEPTH
    ensures Canonical([0xE0 + width] + octets, depth) <==> PreferredSimple(width, BigEndian(octets))
  {
    hide *;
    HeadOfFloat(width, octets);
    var item: Bytes := [0xE0 + width] + octets;
    assert item[0] % 32 == width;
    WidthValues();
    SimpleHead(item, BigEndian(octets));
    SimpleEnds(item, BigEndian(octets), depth);
  }

  /** 0.0 as a half and 100000.0 as a single are in deterministic form; 1.0 as a double is not. */
  lemma FloatExamples(depth: nat)
    requires depth <= MAX_DEPTH
    ensures Canonical([0xF9, 0, 0], depth)
    ensures Canonical([0xFA, 0x47, 0xC3, 0x50, 0], depth)
    ensures !Canonical([0xFB, 0x3F, 0xF0, 0, 0, 0, 0, 0, 0], depth)
  {
    hide Canonical, BigEndian, Floats.ShortestFloat;
    FloatIsCanonical(25, [0, 0], depth);
    assert [0xF9] + [0, 0] == [0xF9, 0, 0];
    FloatIsCanonical(26, [0x47, 0xC3, 0x50, 0], depth);
    FourOctets(0x47, 0xC3, 0x50, 0);
    Floats.HundredThousandIsSingle();
    assert [0xFA] + [0x47, 0xC3, 0x50, 0] == [0xFA, 0x47, 0xC3, 0x50, 0];
    FloatIsCanonical(27, [0x3F, 0xF0, 0, 0, 0, 0, 0, 0], depth);
    OneAsDouble();
    Floats.OneIsHalf();
    assert [0xFB] + [0x3F, 0xF0, 0, 0, 0, 0, 0, 0] == [0xFB, 0x3F, 0xF0, 0, 0, 0, 0, 0, 0];
  }

  lemma OneAsDouble()
    ensures BigEndian([0x3F, 0xF0, 0, 0, 0, 0, 0, 0]) == 0x3FF0_0000_0000_0000
  {
    hide BigEndian;
    FourOctets(0x3F, 0xF0, 0, 0);
    BigEndianSnoc([0x3F, 0xF0, 0, 0], 0);
    BigEndianSnoc([0x3F, 0xF0, 0, 0, 0], 0);
    BigEndianSnoc([0x3F, 0xF0, 0, 0, 0, 0], 0);
    BigEndianSnoc([0x3F, 0xF0, 0, 0, 0, 0, 0], 0);
    assert [0x3F, 0xF0, 0, 0] + [0] == [0x3F, 0xF0, 0, 0, 0];
    assert [0x3F, 0xF0, 0, 0, 0] + [0] == [0x3F, 0xF0, 0, 0, 0, 0];
    assert [0x3F, 0xF0, 0, 0, 0, 0] + [0] == [0x3F, 0xF0, 0, 0, 0, 0, 0];
    assert [0x3F, 0xF0, 0, 0, 0, 0, 0] + [0] == [0x3F, 0xF0, 0, 0, 0, 0, 0, 0];
  }

  // ---- Maps of parts -------------------------------------------------------------------------

  lemma CanonicalHead(b: Bytes, pos: nat, major: nat, n: u64)
    requires major < 7 && At(b, pos, HeadBytes(major, n))
    ensures ShortestHeadAt(b, pos) == Ok(Read(ItemHead(major, n), pos + |HeadBytes(major, n)|))
  {
    hide HeadAt, HeadBytes;
    HeadReads(b, pos, major, n);
  }

  lemma SmallKey(b: Bytes, pos: nat, depth: nat, key: u64)
    requires depth <= MAX_DEPTH && key < 24 && pos < |b| && At(b, pos, HeadBytes(0, key))
    ensures CanonicalAt(b, pos, depth) == Ok(pos + 1) && b[pos..pos + 1] == [key]
  {
    assert HeadBytes(0, key) == [key];
    CanonicalHead(b, pos, 0, key);
  }

  /** Keys of one octet, in increasing order, the first above `last`. */
  ghost predicate SmallAscending(parts: seq<Part>, last: Bytes) {
    && (forall i :: 0 <= i < |parts| ==> parts[i].key < 24)
    && (forall i, j :: 0 <= i < j < |parts| ==> parts[i].key < parts[j].key)
    && (last == [] || (|last| == 1 && (parts != [] ==> last[0] < parts[0].key)))
  }

  ghost predicate AllCanonical(parts: seq<Part>, depth: nat) {
    forall i :: 0 <= i < |parts| ==> Canonical(parts[i].value, depth)
  }

  lemma AllCanonicalCons(parts: seq<Part>, depth: nat)
    requires parts != []
    ensures AllCanonical(parts, depth) <==> Canonical(parts[0].value, depth) && AllCanonical(parts[1..], depth)
  {
    hide Canonical;
    if Canonical(parts[0].value, depth) && AllCanonical(parts[1..], depth) {
      forall i | 0 <= i < |parts| ensures Canonical(parts[i].value, depth) {
        if i > 0 {
          assert parts[i] == parts[1..][i - 1];
        }
      }
    }
  }

  lemma SmallAscendingCons(parts: seq<Part>, last: Bytes)
    requires parts != [] && SmallAscending(parts, last)
    ensures parts[0].key < 24 && Precedes(last, [parts[0].key]) && SmallAscending(parts[1..], [parts[0].key])
  {
  }

  lemma PairIsCanonical(b: Bytes, pos: nat, depth: nat, p: Part)
    requires depth <= MAX_DEPTH && p.key < 24 && At(b, pos, PartBytes(p)) && Complete(p.value, depth)
    ensures pos < |b| && b[pos..pos + 1] == [p.key] && CanonicalAt(b, pos, depth) == Ok(pos + 1)
    ensures CanonicalAt(b, pos + 1, depth).Ok? <==> Canonical(p.value, depth)
    ensures Canonical(p.value, depth) ==> CanonicalAt(b, pos + 1, depth) == Ok(pos + |PartBytes(p)|)
  {
    hide CanonicalAt, At, SkipAt;
    assert HeadBytes(0, p.key) == [p.key];
    AtConcat(b, pos, HeadBytes(0, p.key), p.value);
    AtFits(b, pos, HeadBytes(0, p.key));
    SmallKey(b, pos, depth, p.key);
    CanonicalRelocates(p.value, 0, depth, b, pos + 1);
  }

  lemma PairsCons(b: Bytes, pos: nat, depth: nat, count: nat, last: Bytes, key: u64, end: nat)
    requires pos < |b| && count > 0 && key < 24 && b[pos..pos + 1] == [key] && CanonicalAt(b, pos, depth) == Ok(pos + 1)
    requires Precedes(last, [key])
    ensures CanonicalAt(b, pos + 1, depth).Err? ==> CanonicalPairs(b, pos, depth, count, last).Err?
    ensures CanonicalAt(b, pos + 1, depth) == Ok(end) ==>
              end <= |b| && CanonicalPairs(b, pos, depth, count, last) == CanonicalPairs(b, end, depth, count - 1, [key])
  {
    hide CanonicalAt, Precedes;
  }

  lemma NoPairs(b: Bytes, pos: nat, depth: nat, last: Bytes)
    requires pos <= |b|
    ensures CanonicalPairs(b, pos, depth, 0, last) == Ok(pos) && Flatten([]) == [] && AllCanonical([], depth)
  {
  }

  lemma {:induction false} PairsAreCanonical(b: Bytes, pos: nat, depth: nat, parts: seq<Part>, last: Bytes)
    requires depth <= MAX_DEPTH && At(b, pos, Flatten(parts)) && AllComplete(parts, depth) && SmallAscending(parts, last)
    ensures pos <= |b|
    ensures CanonicalPairs(b, pos, depth, |parts|, last).Ok? <==> AllCanonical(parts, depth)
    ensures AllCanonical(parts, depth) ==>
              CanonicalPairs(b, pos, depth, |parts|, last) == Ok(pos + |Flatten(parts)|)
    decreases |parts|
  {
    hide *;
    AtFits(b, pos, Flatten(parts));
    if parts == [] {
      NoPairs(b, pos, depth, last);
      return;
    }
    var p := parts[0];
    FlattenCons(b, pos, parts);
    AllCompleteTail(parts, depth);
    AllCanonicalCons(parts, depth);
    SmallAscendingCons(parts, last);
    PairIsCanonical(b, pos, depth, p);
    PairsCons(b, pos, depth, |parts|, last, p.key, pos + |PartBytes(p)|);
    PairsAreCanonical(b, pos + |PartBytes(p)|, depth, parts[1..], [p.key]);
  }

  /** A map with small ascending keys is deterministic exactly when all its values are. */
  lemma MapIsCanonical(parts: seq<Part>, depth: nat)
    requires depth < MAX_DEPTH && |parts| <= MAX_ENTRIES && AllComplete(parts, depth + 1) && SmallAscending(parts, [])
    ensures Canonical(MapBytes(parts), depth) <==> AllCanonical(parts, depth + 1)
  {
    hide HeadBytes, HeadAt, Flatten, CanonicalPairs, AllComplete, SmallAscending, AllCanonical, ShortestHeadAt;
    var b := MapBytes(parts);
    assert At(b, 0, HeadBytes(5, |parts|) + Flatten(parts));
    AtConcat(b, 0, HeadBytes(5, |parts|), Flatten(parts));
    CanonicalHead(b, 0, 5, |parts|);
    PairsAreCanonical(b, |HeadBytes(5, |parts|)|, depth + 1, parts, []);
  }

  lemma NumberIsCanonical(n: u64, depth: nat)
    requires depth <= MAX_DEPTH
    ensures Canonical(HeadBytes(0, n), depth) && Complete(HeadBytes(0, n), depth)
  {
    hide HeadBytes, HeadAt;
    CanonicalHead(HeadBytes(0, n), 0, 0, n);
  }

  lemma StringIsCanonical(major: nat, value: Bytes, depth: nat)
    requires (major == 2 || major == 3) && depth <= MAX_DEPTH && |value| <= MDU && (major == 3 ==> Utf8.Valid(value))
    ensures Canonical(StringBytes(major, value), depth)
  {
    hide HeadBytes, HeadAt, ShortestHeadAt;
    var b := StringBytes(major, value);
    assert At(b, 0, HeadBytes(major, |value|) + value);
    AtConcat(b, 0, HeadBytes(major, |value|), value);
    CanonicalHead(b, 0, major, |value|);
  }

  lemma FlagIsCanonical(flag: byte, depth: nat)
    requires depth <= MAX_DEPTH && (flag == 0xF4 || flag == 0xF5)
    ensures Canonical([flag], depth) && Complete([flag], depth)
  {
    assert HeadBytes(7, flag - 0xE0) == [flag];
  }

  lemma CapabilitiesAreCanonical()
    ensures Canonical(MapBytes(CLIENT_CAPABILITIES), 2)
  {
    hide Canonical, Complete, MapBytes;
    var flags := CLIENT_CAPABILITIES;
    FlagIsCanonical(0xF4, 3);
    FlagIsCanonical(0xF5, 3);
    MapIsCanonical(flags, 2);
  }

  lemma HelloIsCanonical(version: Bytes)
    requires |version| <= MDU && Utf8.Valid(version)
    ensures Canonical(MapBytes(HelloParts(version)), 1)
  {
    hide Canonical, Complete, MapBytes, StringBytes, HeadBytes, Utf8.Valid;
    CapabilitiesAreComplete();
    CapabilitiesAreCanonical();
    ClientNameIsText();
    StringIsComplete(3, CLIENT_NAME, 2);
    StringIsCanonical(3, CLIENT_NAME, 2);
    StringIsComplete(3, version, 2);
    StringIsCanonical(3, version, 2);
    var parts := HelloParts(version);
    assert |parts| == 3;
    MapIsCanonical(parts, 1);
  }

  // ---- The encoder's packets -----------------------------------------------------------------

  /** A list of parts that are complete, in key order, and deterministic exactly when `ok`. */
  ghost predicate Tidy(parts: seq<Part>, ok: bool) {
    && AllComplete(parts, 1)
    && (AllCanonical(parts, 1) <==> ok)
  }

  lemma TidyConcat(x: seq<Part>, y: seq<Part>, okX: bool, okY: bool)
    requires Tidy(x, okX) && Tidy(y, okY)
    ensures Tidy(x + y, okX && okY)
  {
    hide Complete, Canonical;
    var all := x + y;
    assert forall i :: 0 <= i < |x| ==> all[i] == x[i];
    assert forall i :: 0 <= i < |y| ==> all[|x| + i] == y[i];
    assert forall i :: |x| <= i < |all| ==> all[i] == y[i - |x|];
  }

  lemma TidyOne(p: Part, ok: bool)
    requires Complete(p.value, 1) && (Canonical(p.value, 1) <==> ok)
    ensures Tidy([p], ok)
  {
    hide Complete, Canonical;
    assert [p][0] == p;
  }

  lemma TidyNone()
    ensures Tidy([], true)
  {
  }

  lemma TextIsTidy(key: u64, text: Bytes)
    requires |text| <= MDU && Utf8.Valid(text)
    ensures Tidy(TextParts(key, text), true)
  {
    hide Complete, Canonical, StringBytes, Tidy, Utf8.Valid;
    TidyNone();
    StringIsComplete(3, text, 1);
    StringIsCanonical(3, text, 1);
    TidyOne(Part(key, StringBytes(3, text)), true);
  }

  lemma DestinationIsTidy(meta: Meta)
    requires MetaShaped(meta)
    ensures Tidy(DestinationParts(meta), true)
  {
    hide Complete, Canonical, StringBytes, Tidy;
    TidyNone();
    StringIsComplete(2, meta.destination, 1);
    StringIsCanonical(2, meta.destination, 1);
    TidyOne(Part(8, StringBytes(2, meta.destination)), true);
  }

  lemma RequiredIsTidy(meta: Meta)
    requires MetaShaped(meta)
    ensures Tidy(RequiredParts(meta), true)
  {
    hide Complete, Canonical, StringBytes, HeadBytes;
    NumberIsCanonical(1, 1);
    NumberIsCanonical(meta.kind, 1);
    NumberIsCanonical(meta.timestamp, 1);
    StringIsComplete(2, meta.id, 1);
    StringIsCanonical(2, meta.id, 1);
    StringIsComplete(2, meta.source, 1);
    StringIsCanonical(2, meta.source, 1);
  }

  lemma BodyIsTidy(body: Bytes, bodyKind: nat)
    requires |body| <= MDU && bodyKind <= 3
    requires (bodyKind == 1 || bodyKind == 3) ==> Utf8.Valid(body)
    requires bodyKind == 2 ==> Complete(body, 1)
    ensures Tidy(BodyParts(body, bodyKind), bodyKind == 2 ==> Canonical(body, 1))
  {
    hide Complete, Canonical, StringBytes, MapBytes, Tidy, Utf8.Valid;
    if bodyKind == 0 {
      TidyNone();
    } else if bodyKind == 1 {
      StringIsComplete(3, body, 1);
      StringIsCanonical(3, body, 1);
      TidyOne(Part(6, StringBytes(3, body)), true);
    } else if bodyKind == 2 {
      TidyOne(Part(6, body), Canonical(body, 1));
    } else {
      HelloIsComplete(body);
      HelloIsCanonical(body);
      TidyOne(Part(6, MapBytes(HelloParts(body))), true);
    }
  }

  lemma EnvelopeIsTidy(meta: Meta, room: Bytes, nick: Bytes, body: Bytes, bodyKind: nat)
    requires MetaShaped(meta) && |body| <= MDU && CheckArguments(meta, room, nick, body, bodyKind).Ok?
    ensures Tidy(EnvelopeParts(meta, room, nick, body, bodyKind), bodyKind == 2 ==> Canonical(body, 1))
  {
    hide Tidy, RequiredParts, TextParts, BodyParts, DestinationParts, Canonical, SkipAt, Utf8.Valid;
    var ok := bodyKind == 2 ==> Canonical(body, 1);
    RequiredIsTidy(meta);
    TextIsTidy(5, room);
    BodyIsTidy(body, bodyKind);
    TextIsTidy(7, nick);
    DestinationIsTidy(meta);
    var p := RequiredParts(meta) + TextParts(5, room);
    TidyConcat(RequiredParts(meta), TextParts(5, room), true, true);
    TidyConcat(p, BodyParts(body, bodyKind), true, ok);
    TidyConcat(p + BodyParts(body, bodyKind), TextParts(7, nick), ok, true);
    TidyConcat(p + BodyParts(body, bodyKind) + TextParts(7, nick), DestinationParts(meta), ok, true);
  }

  /** Keys increase, from `low` on and below `high`. */
  ghost predicate Keyed(parts: seq<Part>, low: nat, high: nat) {
    && (forall i :: 0 <= i < |parts| ==> low <= parts[i].key < high)
    && (forall i, j :: 0 <= i < j < |parts| ==> parts[i].key < parts[j].key)
  }

  lemma KeyedConcat(x: seq<Part>, y: seq<Part>, low: nat, middle: nat, high: nat)
    requires Keyed(x, low, middle) && Keyed(y, middle, high) && low <= middle <= high
    ensures Keyed(x + y, low, high)
  {
    var all := x + y;
    forall i, j | 0 <= i < j < |all| ensures all[i].key < all[j].key {
      assert all[i] == if i < |x| then x[i] else y[i - |x|];
      assert all[j] == if j < |x| then x[j] else y[j - |x|];
    }
  }

  lemma KeyedAscends(parts: seq<Part>)
    requires Keyed(parts, 0, 24)
    ensures SmallAscending(parts, [])
  {
  }

  lemma PartsAreKeyed(meta: Meta, room: Bytes, nick: Bytes)
    requires MetaShaped(meta) && |room| <= MDU && |nick| <= MDU
    ensures Keyed(RequiredParts(meta), 0, 5) && Keyed(TextParts(5, room), 5, 6)
    ensures Keyed(TextParts(7, nick), 7, 8) && Keyed(DestinationParts(meta), 8, 24)
  {
    hide StringBytes, HeadBytes, MapBytes;
  }

  lemma BodyIsKeyed(body: Bytes, bodyKind: nat)
    requires |body| <= MDU
    ensures Keyed(BodyParts(body, bodyKind), 6, 7)
  {
    hide StringBytes, HeadBytes, MapBytes;
  }

  lemma EnvelopeAscends(meta: Meta, room: Bytes, nick: Bytes, body: Bytes, bodyKind: nat)
    requires MetaShaped(meta) && |room| <= MDU && |nick| <= MDU && |body| <= MDU
    ensures SmallAscending(EnvelopeParts(meta, room, nick, body, bodyKind), [])
  {
    hide RequiredParts, TextParts, BodyParts, DestinationParts, Keyed, SmallAscending;
    PartsAreKeyed(meta, room, nick);
    BodyIsKeyed(body, bodyKind);
    var r, t, b, n, d := RequiredParts(meta), TextParts(5, room), BodyParts(body, bodyKind), TextParts(7, nick), DestinationParts(meta);
    KeyedConcat(r, t, 0, 5, 6);
    KeyedConcat(r + t, b, 0, 6, 7);
    KeyedConcat(r + t + b, n, 0, 7, 8);
    KeyedConcat(r + t + b + n, d, 0, 8, 24);
    KeyedAscends(r + t + b + n + d);
  }

  /**
   * Every packet the encoder makes is in deterministic form, unless its body is an item the caller
   * supplied: then the packet is in that form exactly when the supplied item is.
   */
  lemma PacketIsDeterministic(meta: Meta, room: Bytes, nick: Bytes, body: Bytes, bodyKind: nat)
    requires MetaShaped(meta) && |body| <= MDU && EncodeSpec(meta, room, nick, body, bodyKind).Ok?
    ensures Canonical(EncodeSpec(meta, room, nick, body, bodyKind).value, 0)
        <==> (bodyKind == 2 ==> Canonical(body, 1))
  {
    hide CheckArguments, Canonical, MapBytes, EnvelopeParts, SmallAscending, AllComplete, AllCanonical;
    ChecksBoundDestination(meta, room, nick, body, bodyKind);
    EnvelopeCountBound(meta, room, nick, body, bodyKind);
    EnvelopeIsTidy(meta, room, nick, body, bodyKind);
    EnvelopeAscends(meta, room, nick, body, bodyKind);
    MapIsCanonical(EnvelopeParts(meta, room, nick, body, bodyKind), 0);
  }
}
