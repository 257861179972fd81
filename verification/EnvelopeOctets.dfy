/**
 * The octets of an envelope: what stands under each key for each content, which packets are accepted and
 * what they say, all in terms of the grammar of data items and with every number written out.
 */
module EnvelopeOctets {
  import opened Bytes
  import opened Cbor
  import opened CborFacts
  import opened CborGrammar
  import opened Envelope
  import opened EnvelopeContents
  import Utf8

  /** The value `o` under `key` stands for `c`. */
  ghost predicate Stands(o: Bytes, key: u64, c: Content) {
    match key
    case 0 => c == One && UintForm(o, 1)
    case 1 => c.Amount? && UintForm(o, c.n)
    case 2 => c.Data? && |c.data| == 8 && StringForm(o, 2, c.data)
    case 3 => c.Amount? && UintForm(o, c.n)
    case 4 => c.Data? && |c.data| == 16 && StringForm(o, 2, c.data)
    case 5 => TextOrNull(o, c, 64)
    case 6 => (c.Chars? && StringForm(o, 3, c.chars)) || (c == Other(o) && ItemForm(o, 4) && o[0] / 32 != 3)
    case 7 => TextOrNull(o, c, 32)
    case 8 => c.Data? && |c.data| == 16 && StringForm(o, 2, c.data)
    case _ => c == Extension && ItemForm(o, 4)
  }

  /** Null, which is the one octet 0xF6, stands for an absent text. */
  ghost predicate TextOrNull(o: Bytes, c: Content, max: nat) {
    c.Chars? && ((o == [0xF6] && c.chars == []) || (|c.chars| <= max && StringForm(o, 3, c.chars)))
  }

  /** The decoder reads `c` from the value at `pos`, up to `end`. */
  predicate ReadsAs(b: Bytes, pos: nat, key: u64, c: Content, end: nat)
    requires |b| <= MDU
  {
    && ValueAt(b, pos, key).Ok?
    && ValueAt(b, pos, key).value.next == end
    && ValueWithin(b, ValueAt(b, pos, key).value.value)
    && ContentOf(b, ValueAt(b, pos, key).value.value) == c
  }

  // ---- Values --------------------------------------------------------------------------------

  predicate StringRead(b: Bytes, pos: nat, wanted: nat, max: nat, content: Bytes, next: nat) {
    && SpanAt(b, pos, wanted, max).Ok? && SpanAt(b, pos, wanted, max).value.next == next
    && Within(b, SpanAt(b, pos, wanted, max).value.value) && Slice(b, SpanAt(b, pos, wanted, max).value.value) == content
  }

  lemma StringMeans(b: Bytes, pos: nat, wanted: nat, max: nat, content: Bytes, next: nat)
    requires |b| <= 431 && (wanted == 2 || wanted == 3)
    ensures StringRead(b, pos, wanted, max, content, next) <==>
              pos <= next <= |b| && |content| <= max && StringForm(b[pos..next], wanted, content)
  {
    hide HeadForm, SpanAt, Utf8.Valid;
    if StringRead(b, pos, wanted, max, content, next) {
      var s := SpanAt(b, pos, wanted, max).value.value;
      SpanMeans(b, pos, wanted, max, s, next);
      assert b[pos..next][..s.offset - pos] == b[pos..s.offset];
      assert b[pos..next][s.offset - pos..] == content;
    }
    if pos <= next <= |b| && |content| <= max && StringForm(b[pos..next], wanted, content) {
      var k: nat :| k <= next - pos && HeadForm(b[pos..next][..k], wanted, |content|) && b[pos..next][k..] == content;
      assert b[pos..next][..k] == b[pos..pos + k];
      assert b[pos..next][k..] == b[pos + k..next];
      if k == 0 {
        NoHead(b[pos..pos], wanted, |content|);
      }
      SpanMeans(b, pos, wanted, max, Span(pos + k, |content|), next);
    }
  }

  lemma NumberMeans(b: Bytes, pos: nat, key: u64, c: Content, next: nat)
    requires |b| <= 431 && key in {0, 1, 3}
    ensures ReadsAs(b, pos, key, c, next) <==> pos <= next <= |b| && Stands(b[pos..next], key, c)
  {
    hide UintAt, HeadForm;
    if UintAt(b, pos).Ok? {
      UintMeans(b, pos, UintAt(b, pos).value.value, UintAt(b, pos).value.next);
    }
    if key == 0 {
      UintMeans(b, pos, 1, next);
    } else if c.Amount? {
      UintMeans(b, pos, c.n, next);
    }
    if pos <= |b| {
      NoHead(b[pos..pos], 0, if c.Amount? then c.n else 1);
    }
  }

  lemma OctetsMean(b: Bytes, pos: nat, key: u64, c: Content, next: nat)
    requires |b| <= 431 && key in {2, 4, 8}
    ensures ReadsAs(b, pos, key, c, next) <==> pos <= next <= |b| && Stands(b[pos..next], key, c)
  {
    hide SpanAt, StringForm;
    var width := if key == 2 then 8 else 16;
    if SpanAt(b, pos, 2, width).Ok? {
      SpanIsExact(b, pos, 2, width);
    }
    if c.Data? {
      StringMeans(b, pos, 2, width, c.data, next);
    }
  }

  lemma TextMeans(b: Bytes, pos: nat, key: u64, c: Content, next: nat)
    requires |b| <= 431 && key in {5, 7}
    ensures ReadsAs(b, pos, key, c, next) <==> pos <= next <= |b| && Stands(b[pos..next], key, c)
  {
    hide SpanAt, StringForm;
    var max := if key == 5 then 64 else 32;
    if SpanAt(b, pos, 3, max).Ok? {
      SpanIsExact(b, pos, 3, max);
    }
    if c.Chars? {
      StringMeans(b, pos, 3, max, c.chars, next);
      if pos <= next <= |b| && StringForm(b[pos..next], 3, c.chars) {
        TextStarts(b[pos..next], c.chars);
      }
      if pos < |b| && b[pos] == 0xF6 {
        assert b[pos..pos + 1] == [0xF6];
        if pos <= next <= |b| && b[pos..next] == [0xF6] {
          assert next == pos + 1;
        }
      } else if pos < next <= |b| {
        assert b[pos..next][0] == b[pos];
      }
      assert Slice(b, NO_SPAN) == [];
    }
  }

  lemma TextStarts(o: Bytes, content: Bytes)
    requires StringForm(o, 3, content)
    ensures o != [] && 0x60 <= o[0] <= 0x7B && |content| <= |o|
  {
    hide BigEndian, Utf8.Valid;
    var k: nat :| k <= |o| && HeadForm(o[..k], 3, |content|) && o[k..] == content;
    assert o[..k][0] == o[0];
  }

  lemma TextBodyMeans(b: Bytes, pos: nat, c: Content, next: nat)
    requires pos < |b| <= 431 && b[pos] / 32 == 3
    ensures ReadsAs(b, pos, 6, c, next) <==> pos <= next <= |b| && Stands(b[pos..next], 6, c)
  {
    hide SpanAt, SkipAt, StringForm, ItemForm;
    if SpanAt(b, pos, 3, 431).Ok? {
      SpanIsExact(b, pos, 3, 431);
    }
    if c.Chars? {
      StringMeans(b, pos, 3, 431, c.chars, next);
      if pos <= next <= |b| && StringForm(b[pos..next], 3, c.chars) {
        TextStarts(b[pos..next], c.chars);
      }
    }
    if pos < next <= |b| {
      assert b[pos..next][0] == b[pos];
    } else if pos == next {
      NothingForm(b[pos..next], c);
    }
  }

  lemma ItemBodyAt(b: Bytes, pos: nat)
    requires pos < |b| <= 431 && b[pos] / 32 != 3
    ensures ValueAt(b, pos, 6) == match SkipAt(b, pos, 1)
                                  case Ok(end) => Ok(Read(OtherBody(Span(pos, end - pos)), end))
                                  case Err(e) => Err(e)
  {
    hide HeadAt, SpanAt, UintAt, FixedAt, OptionalTextAt, SkipAt;
  }

  lemma ItemBodyReads(b: Bytes, pos: nat, c: Content, next: nat)
    requires pos < |b| <= 431 && b[pos] / 32 != 3
    ensures ReadsAs(b, pos, 6, c, next) <==> SkipAt(b, pos, 1) == Ok(next) && c == Other(b[pos..next])
  {
    hide ValueAt, SkipAt;
    ItemBodyAt(b, pos);
  }

  lemma ItemStands(o: Bytes, c: Content)
    requires o == [] || o[0] / 32 != 3
    ensures Stands(o, 6, c) <==> c == Other(o) && ItemForm(o, 4)
  {
    hide StringForm, ItemForm;
    if c.Chars? && StringForm(o, 3, c.chars) {
      TextStarts(o, c.chars);
    }
    if o == [] {
      NothingForm(o, c);
    }
  }

  lemma ItemBodyMeans(b: Bytes, pos: nat, c: Content, next: nat)
    requires pos < |b| <= 431 && b[pos] / 32 != 3
    ensures ReadsAs(b, pos, 6, c, next) <==> pos <= next <= |b| && Stands(b[pos..next], 6, c)
  {
    hide ReadsAs, Stands, SkipAt, ItemForm;
    ItemBodyReads(b, pos, c, next);
    SkipMeans(b, pos, 1, next);
    if pos <= next <= |b| {
      assert pos < next ==> b[pos..next][0] == b[pos];
      ItemStands(b[pos..next], c);
    }
  }

  lemma BodyMeans(b: Bytes, pos: nat, c: Content, next: nat)
    requires |b| <= 431
    ensures ReadsAs(b, pos, 6, c, next) <==> pos <= next <= |b| && Stands(b[pos..next], 6, c)
  {
    hide ReadsAs, Stands;
    if pos >= |b| {
      NothingThere(b, pos, c, next);
    } else if b[pos] / 32 == 3 {
      TextBodyMeans(b, pos, c, next);
    } else {
      ItemBodyMeans(b, pos, c, next);
    }
  }

  lemma NothingForm(o: Bytes, c: Content)
    requires o == []
    ensures !ItemForm(o, 4) && (c.Chars? ==> !StringForm(o, 3, c.chars))
  {
  }

  lemma NothingThere(b: Bytes, pos: nat, c: Content, next: nat)
    requires |b| <= 431 && pos >= |b|
    ensures !ReadsAs(b, pos, 6, c, next) && !(pos <= next <= |b| && Stands(b[pos..next], 6, c))
  {
    hide ItemForm, StringForm;
    if pos <= next <= |b| {
      NothingForm(b[pos..next], c);
    }
  }

  lemma ExtensionMeans(b: Bytes, pos: nat, key: u64, c: Content, next: nat)
    requires |b| <= 431 && key >= 9
    ensures ReadsAs(b, pos, key, c, next) <==> pos <= next <= |b| && Stands(b[pos..next], key, c)
  {
    hide SkipAt, ItemForm;
    SkipMeans(b, pos, 1, next);
  }

  /** Under each key exactly the octets that stand for a content are read, and are read as it. */
  lemma ValueMeans(b: Bytes, pos: nat, key: u64, c: Content, next: nat)
    requires |b| <= 431
    ensures ReadsAs(b, pos, key, c, next) <==> pos <= next <= |b| && Stands(b[pos..next], key, c)
  {
    hide ReadsAs, Stands;
    if key in {0, 1, 3} {
      NumberMeans(b, pos, key, c, next);
    } else if key in {2, 4, 8} {
      OctetsMean(b, pos, key, c, next);
    } else if key in {5, 7} {
      TextMeans(b, pos, key, c, next);
    } else if key == 6 {
      BodyMeans(b, pos, c, next);
    } else {
      ExtensionMeans(b, pos, key, c, next);
    }
  }

  // ---- Packets -------------------------------------------------------------------------------

  /** A key and its value, one behind the other. */
  ghost predicate FieldForm(o: Bytes, f: Field) {
    exists k: nat :: k <= |o| && UintForm(o[..k], f.key) && Stands(o[k..], f.key, f.content)
  }

  ghost predicate EntriesForm(o: Bytes, fs: seq<Field>)
    decreases |fs|
  {
    if fs == [] then o == []
    else exists k: nat :: k <= |o| && FieldForm(o[..k], fs[0]) && EntriesForm(o[k..], fs[1..])
  }

  /** A map of at most 64 entries, and nothing else, in at most 431 octets. */
  ghost predicate PacketForm(b: Bytes, fs: seq<Field>) {
    |b| <= 431 && |fs| <= 64 && exists k: nat :: k <= |b| && HeadForm(b[..k], 5, |fs|) && EntriesForm(b[k..], fs)
  }

  lemma FieldMeans(b: Bytes, pos: nat, f: Field, next: nat)
    requires |b| <= 431
    ensures FieldAt(b, pos) == Ok(Read(f, next)) <==> pos <= next <= |b| && FieldForm(b[pos..next], f)
  {
    hide UintAt, ValueAt, Stands, UintForm;
    if FieldAt(b, pos) == Ok(Read(f, next)) {
      var k := UintAt(b, pos).value.next;
      UintMeans(b, pos, f.key, k);
      ValueIsWithin(b, k, f.key);
      ValueMeans(b, k, f.key, f.content, next);
      var o := b[pos..next];
      Halves(b, pos, k, next);
    }
    if pos <= next <= |b| && FieldForm(b[pos..next], f) {
      var o := b[pos..next];
      var k: nat :| k <= |o| && UintForm(o[..k], f.key) && Stands(o[k..], f.key, f.content);
      Halves(b, pos, pos + k, next);
      KeyHasOctets(o[..k], f.key);
      UintMeans(b, pos, f.key, pos + k);
      ValueMeans(b, pos + k, f.key, f.content, next);
    }
  }

  lemma KeyHasOctets(o: Bytes, n: nat)
    requires UintForm(o, n)
    ensures o != []
  {
  }

  lemma EntriesFormCons(b: Bytes, pos: nat, mid: nat, next: nat, fs: seq<Field>)
    requires pos <= mid <= next <= |b| && fs != [] && FieldForm(b[pos..mid], fs[0]) && EntriesForm(b[mid..next], fs[1..])
    ensures EntriesForm(b[pos..next], fs)
  {
    hide FieldForm;
    Halves(b, pos, mid, next);
    assert mid - pos <= |b[pos..next]|;
  }

  lemma EntriesFormFirst(b: Bytes, pos: nat, next: nat, fs: seq<Field>) returns (mid: nat)
    requires pos <= next <= |b| && fs != [] && EntriesForm(b[pos..next], fs)
    ensures pos <= mid <= next && FieldForm(b[pos..mid], fs[0]) && EntriesForm(b[mid..next], fs[1..])
  {
    hide FieldForm;
    var o := b[pos..next];
    var k: nat :| k <= |o| && FieldForm(o[..k], fs[0]) && EntriesForm(o[k..], fs[1..]);
    mid := pos + k;
    Halves(b, pos, mid, next);
  }

  lemma NoEntries(b: Bytes, pos: nat, fs: seq<Field>, next: nat)
    requires pos <= |b| <= 431
    ensures FieldsAt(b, pos, 0) == Ok(Read(fs, next)) <==> |fs| == 0 && pos <= next <= |b| && EntriesForm(b[pos..next], fs)
  {
  }

  lemma FieldsAtFirst(b: Bytes, pos: nat, count: nat, fs: seq<Field>, next: nat)
    requires pos <= |b| <= MDU && count > 0 && |fs| == count
    ensures FieldsAt(b, pos, count) == Ok(Read(fs, next)) <==>
              && FieldAt(b, pos).Ok? && FieldAt(b, pos).value.value == fs[0]
              && FieldsAt(b, FieldAt(b, pos).value.next, count - 1) == Ok(Read(fs[1..], next))
  {
    hide FieldAt;
    assert fs == [fs[0]] + fs[1..];
  }

  lemma {:induction false} FieldsAtCount(b: Bytes, pos: nat, count: nat)
    requires pos <= |b| <= MDU && FieldsAt(b, pos, count).Ok?
    ensures |FieldsAt(b, pos, count).value.value| == count
    decreases count
  {
    hide FieldAt;
    if count > 0 {
      FieldsAtCount(b, FieldAt(b, pos).value.next, count - 1);
    }
  }

  lemma {:induction false} EntriesFormMeans(b: Bytes, pos: nat, count: nat, fs: seq<Field>, next: nat)
    requires pos <= |b| <= 431
    ensures FieldsAt(b, pos, count) == Ok(Read(fs, next)) <==>
              |fs| == count && pos <= next <= |b| && EntriesForm(b[pos..next], fs)
    decreases count
  {
    hide FieldAt, FieldsAt, FieldForm, EntriesForm;
    if count == 0 {
      NoEntries(b, pos, fs, next);
    } else if FieldsAt(b, pos, count) == Ok(Read(fs, next)) {
      FieldsAtCount(b, pos, count);
      FieldsAtFirst(b, pos, count, fs, next);
      var mid := FieldAt(b, pos).value.next;
      FieldMeans(b, pos, fs[0], mid);
      EntriesFormMeans(b, mid, count - 1, fs[1..], next);
      EntriesFormCons(b, pos, mid, next, fs);
    } else if |fs| == count && pos <= next <= |b| && EntriesForm(b[pos..next], fs) {
      var mid := EntriesFormFirst(b, pos, next, fs);
      FieldMeans(b, pos, fs[0], mid);
      EntriesFormMeans(b, mid, count - 1, fs[1..], next);
      FieldsAtFirst(b, pos, count, fs, next);
    }
  }

  /** A packet has these fields exactly when its octets are this map. */
  lemma FieldsMean(b: Bytes, fs: seq<Field>)
    ensures Fields(b) == Ok(fs) <==> PacketForm(b, fs)
  {
    hide ContainerAt, FieldsAt, HeadForm, EntriesForm;
    if Fields(b) == Ok(fs) {
      var head := ContainerAt(b, 0, 5).value;
      ContainerMeans(b, 0, 5, head.value, head.next);
      EntriesFormMeans(b, head.next, head.value, fs, |b|);
      assert b[0..head.next] == b[..head.next] && b[head.next..|b|] == b[head.next..];
    }
    if PacketForm(b, fs) {
      var k: nat :| k <= |b| && HeadForm(b[..k], 5, |fs|) && EntriesForm(b[k..], fs);
      assert b[0..k] == b[..k] && b[k..|b|] == b[k..];
      if k == 0 {
        NoHead(b[..0], 5, |fs|);
      }
      ContainerMeans(b, 0, 5, |fs|, k);
      EntriesFormMeans(b, k, |fs|, fs, |b|);
    }
  }

  /** A key from 0 to 8 stands twice. */
  ghost predicate KnownTwice(fs: seq<Field>) {
    exists i, j :: 0 <= i < j < |fs| && fs[i].key <= 8 && fs[i].key == fs[j].key
  }

  ghost predicate HasKey(fs: seq<Field>, key: nat) {
    exists i :: 0 <= i < |fs| && fs[i].key == key
  }

  ghost predicate HasZeroToFour(fs: seq<Field>) {
    HasKey(fs, 0) && HasKey(fs, 1) && HasKey(fs, 2) && HasKey(fs, 3) && HasKey(fs, 4)
  }

  lemma SamePredicates(fs: seq<Field>)
    ensures KnownTwice(fs) <==> Repeats(fs)
    ensures HasZeroToFour(fs) <==> HasRequired(fs)
  {
    if KnownTwice(fs) {
      var i, j :| 0 <= i < j < |fs| && fs[i].key <= 8 && fs[i].key == fs[j].key;
      assert Known(fs[i]);
    }
    if Repeats(fs) {
      var i, j :| 0 <= i < j < |fs| && Known(fs[i]) && fs[i].key == fs[j].key;
      assert fs[i].key <= 8;
    }
    forall k: u64 ensures HasKey(fs, k) <==> Names(fs, k) {
    }
  }

  /** A packet is accepted exactly when it is one map with the keys 0 to 4 in which no key up to 8 stands twice. */
  lemma DecodeAccepts(b: Bytes)
    ensures DecodeSpec(b).Ok? <==> exists fs :: PacketForm(b, fs) && !KnownTwice(fs) && HasZeroToFour(fs)
    ensures |b| > 431 ==> DecodeSpec(b) == Err(Capacity)
  {
    hide ContainerAt, EntriesAt, Fields, PacketForm, KnownTwice, HasZeroToFour, Repeats, HasRequired;
    DecodeMeans(b);
    if DecodeSpec(b).Ok? {
      FieldsMean(b, Fields(b).value);
      SamePredicates(Fields(b).value);
    }
    if fs :| PacketForm(b, fs) && !KnownTwice(fs) && HasZeroToFour(fs) {
      FieldsMean(b, fs);
      SamePredicates(fs);
    }
  }

  /** One field's part in what a packet says. */
  predicate Says(c: Contents, f: Field) {
    match f.key
    case 1 => f.content.Amount? && c.meta.kind == f.content.n
    case 2 => f.content.Data? && c.meta.id == f.content.data
    case 3 => f.content.Amount? && c.meta.timestamp == f.content.n
    case 4 => f.content.Data? && c.meta.source == f.content.data
    case 5 => f.content.Chars? && c.room == f.content.chars
    case 6 => if f.content.Chars? then c.body == TextContent(f.content.chars) else f.content.Other? && c.body == ItemContent(f.content.item)
    case 7 => f.content.Chars? && c.nickname == f.content.chars
    case 8 => f.content.Data? && c.meta.destination == f.content.data && c.meta.hasDestination == 1
    case _ => true
  }

  /** The view of an accepted packet says what each of its fields says, and of absent ones that there is nothing. */
  lemma DecodeSays(b: Bytes, fs: seq<Field>)
    requires PacketForm(b, fs) && DecodeSpec(b).Ok?
    ensures ViewWithin(b, DecodeSpec(b).value)
    ensures var c := ContentsOf(b, DecodeSpec(b).value);
            && (forall i :: 0 <= i < |fs| ==> Says(c, fs[i]))
            && (!HasKey(fs, 5) ==> c.room == []) && (!HasKey(fs, 7) ==> c.nickname == [])
            && (!HasKey(fs, 6) ==> c.body == NoBody)
            && (!HasKey(fs, 8) ==> c.meta.hasDestination == 0 && c.meta.destination == seq(16, _ => 0))
  {
    hide DecodeSpec, ViewWithin, ContentsOf, Fields, PacketForm, Repeats, HasRequired, ByKey, Meaning;
    DecodeMeans(b);
    FieldsMean(b, fs);
    forall i | 0 <= i < |fs| ensures Says(Meaning(ByKey(fs)), fs[i]) {
      FieldSays(b, fs, i);
    }
    AbsentSays(fs);
  }

  lemma AbsentSays(fs: seq<Field>)
    ensures var c := Meaning(ByKey(fs));
            && (!HasKey(fs, 5) ==> c.room == []) && (!HasKey(fs, 7) ==> c.nickname == [])
            && (!HasKey(fs, 6) ==> c.body == NoBody)
            && (!HasKey(fs, 8) ==> c.meta.hasDestination == 0 && c.meta.destination == seq(16, _ => 0))
  {
    ByKeyNames(fs);
    hide ByKey;
    forall k: u64 | k <= 8 ensures k in ByKey(fs) <==> HasKey(fs, k) {
      assert Names(fs, k) <==> HasKey(fs, k);
    }
  }

  lemma FieldSays(b: Bytes, fs: seq<Field>, i: nat)
    requires Fields(b) == Ok(fs) && !Repeats(fs) && i < |fs|
    ensures Says(Meaning(ByKey(fs)), fs[i])
  {
    hide Fields, ByKey, Repeats, Stands;
    if Known(fs[i]) {
      ByKeyHolds(fs, fs[i]);
      FieldsMean(b, fs);
      var o := EveryFieldStands(b, fs, i);
      StandsHasType(o, fs[i].key, fs[i].content);
    }
  }

  lemma StandsHasType(o: Bytes, key: u64, c: Content)
    requires Stands(o, key, c)
    ensures (key == 1 || key == 3 ==> c.Amount?) && (key == 2 || key == 4 || key == 8 ==> c.Data?)
    ensures (key == 5 || key == 7 ==> c.Chars?) && (key == 6 ==> c.Chars? || c.Other?)
  {
  }

  lemma EveryFieldStands(b: Bytes, fs: seq<Field>, i: nat) returns (o: Bytes)
    requires PacketForm(b, fs) && i < |fs|
    ensures Stands(o, fs[i].key, fs[i].content)
  {
    var k: nat :| k <= |b| && HeadForm(b[..k], 5, |fs|) && EntriesForm(b[k..], fs);
    o := EveryEntryStands(b[k..], fs, i);
  }

  lemma {:induction false} EveryEntryStands(o: Bytes, fs: seq<Field>, i: nat) returns (value: Bytes)
    requires EntriesForm(o, fs) && i < |fs|
    ensures Stands(value, fs[i].key, fs[i].content)
    decreases i
  {
    hide Stands, UintForm;
    var k: nat :| k <= |o| && FieldForm(o[..k], fs[0]) && EntriesForm(o[k..], fs[1..]);
    if i == 0 {
      var j: nat :| j <= k && UintForm(o[..k][..j], fs[0].key) && Stands(o[..k][j..], fs[0].key, fs[0].content);
      value := o[..k][j..];
    } else {
      value := EveryEntryStands(o[k..], fs[1..], i - 1);
    }
  }

  // ---- Refusals ------------------------------------------------------------------------------

  /** Where the octets are there, only repeated or missing keys are left to refuse, and those are invalid. */
  lemma DecodeRefuses(b: Bytes, fs: seq<Field>)
    requires PacketForm(b, fs) && (KnownTwice(fs) || !HasZeroToFour(fs))
    ensures DecodeSpec(b) == Err(Invalid)
  {
    hide PacketForm, KnownTwice, HasZeroToFour, Repeats, HasRequired, ContainerAt, FieldsAt, EntriesAt;
    FieldsMean(b, fs);
    SamePredicates(fs);
    DecodeMeans(b);
    var head := ContainerAt(b, 0, 5).value;
    OnlyRepeatsRefuse(b, head.next, head.value, START);
  }

  lemma {:induction false} OnlyRepeatsRefuse(b: Bytes, pos: nat, count: nat, p: Progress)
    requires pos <= |b| <= MDU && FieldsAt(b, pos, count).Ok?
    ensures EntriesAt(b, pos, count, p).Err? ==> EntriesAt(b, pos, count, p).error == Invalid
    decreases count
  {
    hide UintAt, ValueAt, ContentOf, After;
    if count > 0 {
      var key := UintAt(b, pos).value;
      var value := ValueAt(b, key.next, key.value).value;
      OnlyRepeatsRefuse(b, value.next, count - 1, After(p, key.value, value.value));
    }
  }

  /** The first entry that cannot be taken decides: its key, a key that was there before, or its value. */
  lemma {:induction false} FirstEntryDecides(b: Bytes, pos: nat, before: nat, count: nat, p: Progress)
    requires pos <= |b| <= MDU && before < count && EntriesAt(b, pos, before, p).Ok?
    ensures var here := EntriesAt(b, pos, before, p).value;
            && (UintAt(b, here.next).Err? ==> EntriesAt(b, pos, count, p) == Err(UintAt(b, here.next).error))
            && (UintAt(b, here.next).Ok? ==>
                  var key := UintAt(b, here.next).value;
                  && (key.value <= 8 && key.value in here.value.seen ==> EntriesAt(b, pos, count, p) == Err(Invalid))
                  && (!(key.value <= 8 && key.value in here.value.seen) && ValueAt(b, key.next, key.value).Err? ==>
                        EntriesAt(b, pos, count, p) == Err(ValueAt(b, key.next, key.value).error)))
    decreases before
  {
    hide UintAt, ValueAt, After;
    if before > 0 {
      var key := UintAt(b, pos).value;
      var value := ValueAt(b, key.next, key.value).value;
      FirstEntryDecides(b, value.next, before - 1, count - 1, After(p, key.value, value.value));
    }
  }

  /** Another version is unsupported; otherwise a value is refused with its head's error, or as invalid, or as skipping it is. */
  lemma ValueRefuses(b: Bytes, pos: nat, key: u64)
    requires |b| <= 431 && ValueAt(b, pos, key).Err?
    ensures var error := ValueAt(b, pos, key).error;
            if key == 0 && UintAt(b, pos).Ok? then UintAt(b, pos).value.value != 1 && error == Unsupported
            else if key <= 8 && (key == 6 ==> pos < |b| && b[pos] / 32 == 3) then
              error == if HeadAt(b, pos).Err? then HeadAt(b, pos).error else Invalid
            else SkipAt(b, pos, 1) == Err(error)
  {
    hide HeadAt, SkipAt, Utf8.Valid;
  }
}
