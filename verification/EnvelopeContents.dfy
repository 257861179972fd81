/**
 * What a packet says, apart from where its bytes lie: the fields of its top-level map. Decoding is
 * shown to accept exactly the maps that name each required key and repeat no known one, and to
 * return exactly what the map says, so entry order, head widths and extension entries cannot matter.
 */
module EnvelopeContents {
  import opened Bytes
  import opened Cbor
  import opened CborFacts
  import opened Envelope

  /** A value with every span replaced by the bytes it names. */
  datatype Content =
    | One
    | Amount(n: u64)
    | Data(data: Bytes)
    | Chars(chars: Bytes)
    | Other(item: Bytes)
    | Extension

  datatype Field = Field(key: u64, content: Content)

  predicate Known(f: Field) {
    f.key <= LAST_KNOWN_KEY
  }

  // ---- The fields of a packet, read without regard to what decoding does with them ----------

  predicate ValueWithin(b: Bytes, value: Value) {
    match value
    case Text(s) => Within(b, s)
    case TextBody(t, w) => Within(b, t) && Within(b, w)
    case OtherBody(w) => Within(b, w)
    case _ => true
  }

  function ContentOf(b: Bytes, value: Value): Content
    requires ValueWithin(b, value)
  {
    match value
    case Version => One
    case Number(n) => Amount(n)
    case Octets(d) => Data(d)
    case Text(s) => Chars(Slice(b, s))
    case TextBody(t, _) => Chars(Slice(b, t))
    case OtherBody(w) => Other(Slice(b, w))
    case Skipped => Extension
  }

  function FieldAt(b: Bytes, pos: nat): (r: Result<Read<Field>>)
    requires |b| <= MDU
    ensures r.Ok? ==> pos < r.value.next <= |b|
  {
    var key :- UintAt(b, pos);
    var value :- ValueAt(b, key.next, key.value);
    ValueIsWithin(b, key.next, key.value);
    Ok(Read(Field(key.value, ContentOf(b, value.value)), value.next))
  }

  function FieldsAt(b: Bytes, pos: nat, count: nat): (r: Result<Read<seq<Field>>>)
    requires pos <= |b| <= MDU
    ensures r.Ok? ==> pos <= r.value.next <= |b|
    decreases count
  {
    if count == 0 then Ok(Read([], pos))
    else
      var first :- FieldAt(b, pos);
      var rest :- FieldsAt(b, first.next, count - 1);
      Ok(Read([first.value] + rest.value, rest.next))
  }

  /** The fields of a packet that is exactly one map of at most 64 entries. */
  function Fields(b: Bytes): Result<seq<Field>> {
    if |b| > MDU then Err(Capacity)
    else
      var entries :- ContainerAt(b, 0, 5);
      var fields :- FieldsAt(b, entries.next, entries.value);
      if fields.next != |b| then Err(Invalid) else Ok(fields.value)
  }

  lemma ValueIsWithin(b: Bytes, pos: nat, key: u64)
    requires |b| <= MDU && ValueAt(b, pos, key).Ok?
    ensures ValueWithin(b, ValueAt(b, pos, key).value.value)
  {
    hide HeadAt, SpanAt, SkipAt;
    if key == 5 || key == 7 {
      var max := if key == 5 then ROOM_MAX else NICKNAME_MAX;
      if b[pos] != 0xF6 {
        SpanIsExact(b, pos, 3, max);
      }
    } else if key == 6 && b[pos] / 32 == 3 {
      SpanIsExact(b, pos, 3, MDU);
    }
  }

  // ---- What the fields mean ------------------------------------------------------------------

  datatype BodyContent = NoBody | TextContent(chars: Bytes) | ItemContent(item: Bytes)

  datatype Contents = Contents(meta: Meta, room: Bytes, nickname: Bytes, body: BodyContent)

  ghost predicate Repeats(fs: seq<Field>) {
    exists i, j :: 0 <= i < j < |fs| && Known(fs[i]) && fs[i].key == fs[j].key
  }

  ghost predicate Names(fs: seq<Field>, key: u64) {
    exists i :: 0 <= i < |fs| && fs[i].key == key
  }

  /** The known fields as a map from key to content. */
  function ByKey(fs: seq<Field>): (m: map<u64, Content>)
  {
    if fs == [] then map[]
    else
      var f := fs[|fs| - 1];
      if Known(f) then ByKey(fs[..|fs| - 1])[f.key := f.content] else ByKey(fs[..|fs| - 1])
  }

  function AmountIn(m: map<u64, Content>, key: u64): u64 {
    if key in m && m[key].Amount? then m[key].n else 0
  }

  function DataIn(m: map<u64, Content>, key: u64, width: nat): Bytes {
    if key in m && m[key].Data? then m[key].data else Zeros(width)
  }

  function CharsIn(m: map<u64, Content>, key: u64): Bytes {
    if key in m && m[key].Chars? then m[key].chars else []
  }

  function Meaning(m: map<u64, Content>): Contents {
    Contents(
      Meta(AmountIn(m, 1), AmountIn(m, 3), DataIn(m, 2, ID_LENGTH), DataIn(m, 4, IDENTITY_LENGTH),
           DataIn(m, 8, IDENTITY_LENGTH), if 8 in m then 1 else 0),
      CharsIn(m, 5), CharsIn(m, 7),
      if 6 !in m then NoBody
      else if m[6].Chars? then TextContent(m[6].chars)
      else if m[6].Other? then ItemContent(m[6].item)
      else NoBody)
  }

  predicate ViewWithin(b: Bytes, v: View) {
    Within(b, v.room) && Within(b, v.nickname) && Within(b, v.body) && Within(b, v.text)
  }

  /** What a view over `b` tells its caller. */
  function ContentsOf(b: Bytes, v: View): Contents
    requires ViewWithin(b, v)
  {
    Contents(v.meta, Slice(b, v.room), Slice(b, v.nickname),
             if v.bodyKind == 0 then NoBody
             else if v.bodyKind == 1 then TextContent(Slice(b, v.text))
             else ItemContent(Slice(b, v.body)))
  }

  // ---- Decoding computes that meaning --------------------------------------------------------

  predicate Fits(key: u64, value: Value) {
    match value
    case Version => key == 0
    case Number(_) => key == 1 || key == 3
    case Octets(_) => key == 2 || key == 4 || key == 8
    case Text(_) => key == 5 || key == 7
    case TextBody(_, _) => key == 6
    case OtherBody(_) => key == 6
    case Skipped => key > LAST_KNOWN_KEY
  }

  lemma ValueFits(b: Bytes, pos: nat, key: u64)
    requires |b| <= MDU && ValueAt(b, pos, key).Ok?
    ensures Fits(key, ValueAt(b, pos, key).value.value)
  {
  }

  lemma StoreMeans(b: Bytes, key: u64, value: Value, v: View, m: map<u64, Content>)
    requires Fits(key, value) && ValueWithin(b, value)
    requires ViewWithin(b, v) && ContentsOf(b, v) == Meaning(m)
    ensures ViewWithin(b, Store(v, key, value))
    ensures ContentsOf(b, Store(v, key, value))
         == Meaning(if key <= LAST_KNOWN_KEY then m[key := ContentOf(b, value)] else m)
  {
  }

  /** Keys seen so far, and the fields that carried them. */
  ghost predicate Tracks(b: Bytes, p: Progress, fs: seq<Field>) {
    && ViewWithin(b, p.view)
    && p.seen == ByKey(fs).Keys
    && ContentsOf(b, p.view) == Meaning(ByKey(fs))
  }

  lemma {:induction false} ByKeyNames(fs: seq<Field>)
    ensures forall k: u64 :: k in ByKey(fs) <==> k <= LAST_KNOWN_KEY && Names(fs, k)
  {
    if fs != [] {
      var front, last := fs[..|fs| - 1], fs[|fs| - 1];
      ByKeyNames(front);
      forall k: u64 ensures Names(fs, k) <==> Names(front, k) || last.key == k {
        if Names(fs, k) && last.key != k {
          var i :| 0 <= i < |fs| && fs[i].key == k;
          assert front[i].key == k;
        }
        if Names(front, k) {
          var i :| 0 <= i < |front| && front[i].key == k;
          assert fs[i].key == k;
        }
        if last.key == k {
          assert fs[|fs| - 1].key == k;
        }
      }
    }
  }

  lemma MemberNames(fs: seq<Field>, f: Field)
    ensures f in fs ==> Names(fs, f.key)
  {
  }

  lemma RepeatsSplit(fs: seq<Field>, f: Field)
    ensures Repeats(fs + [f]) <==> Repeats(fs) || (Known(f) && Names(fs, f.key))
  {
    var all := fs + [f];
    if Repeats(all) {
      var i, j :| 0 <= i < j < |all| && Known(all[i]) && all[i].key == all[j].key;
      if j < |fs| {
        assert fs[i].key == fs[j].key;
      } else {
        assert fs[i].key == f.key;
      }
    }
    if Repeats(fs) {
      var i, j :| 0 <= i < j < |fs| && Known(fs[i]) && fs[i].key == fs[j].key;
      assert all[i].key == all[j].key;
    }
    if Known(f) && Names(fs, f.key) {
      var i :| 0 <= i < |fs| && fs[i].key == f.key;
      assert all[i].key == all[|fs|].key;
    }
  }

  lemma RepeatsGrows(fs: seq<Field>, more: seq<Field>)
    requires Repeats(fs)
    ensures Repeats(fs + more)
  {
    var i, j :| 0 <= i < j < |fs| && Known(fs[i]) && fs[i].key == fs[j].key;
    var all := fs + more;
    assert all[i] == fs[i] && all[j] == fs[j];
  }

  /** One turn of the loop: refused exactly when the new field repeats a known key. */
  lemma EntryMeans(b: Bytes, pos: nat, p: Progress, before: seq<Field>)
    requires pos <= |b| <= MDU && Tracks(b, p, before) && !Repeats(before) && FieldAt(b, pos).Ok?
    ensures var now := before + [FieldAt(b, pos).value.value];
            && (Repeats(now) <==> Refuses(b, pos, p))
            && Tracks(b, Advance(b, pos, p), now)
  {
    var key := UintAt(b, pos).value;
    var value := ValueAt(b, key.next, key.value).value.value;
    var field := FieldAt(b, pos).value.value;
    ValueFits(b, key.next, key.value);
    ValueIsWithin(b, key.next, key.value);
    StoreMeans(b, key.value, value, p.view, ByKey(before));
    ByKeyNames(before);
    RepeatsSplit(before, field);
    assert (before + [field])[..|before|] == before;
  }

  ghost predicate Refuses(b: Bytes, pos: nat, p: Progress)
    requires |b| <= MDU && FieldAt(b, pos).Ok?
  {
    var key := FieldAt(b, pos).value.value.key;
    key <= LAST_KNOWN_KEY && key in p.seen
  }

  ghost function Advance(b: Bytes, pos: nat, p: Progress): Progress
    requires |b| <= MDU && FieldAt(b, pos).Ok?
  {
    var key := UintAt(b, pos).value;
    After(p, key.value, ValueAt(b, key.next, key.value).value.value)
  }

  lemma EntriesUnfold(b: Bytes, pos: nat, count: nat, p: Progress)
    requires pos <= |b| <= MDU && count > 0
    ensures EntriesAt(b, pos, count, p).Ok? <==>
              && FieldAt(b, pos).Ok? && !Refuses(b, pos, p)
              && EntriesAt(b, FieldAt(b, pos).value.next, count - 1, Advance(b, pos, p)).Ok?
    ensures EntriesAt(b, pos, count, p).Ok? ==>
              EntriesAt(b, pos, count, p)
              == EntriesAt(b, FieldAt(b, pos).value.next, count - 1, Advance(b, pos, p))
  {
  }

  /**
   * From any point of the loop on: the rest is accepted exactly when it parses and repeats no
   * known key, and the view then means what all the fields read say.
   */
  lemma {:induction false} EntriesMean(b: Bytes, pos: nat, count: nat, p: Progress, before: seq<Field>)
    requires pos <= |b| <= MDU && Tracks(b, p, before) && !Repeats(before)
    ensures var fields := FieldsAt(b, pos, count);
            var end := EntriesAt(b, pos, count, p);
            && (end.Ok? <==> fields.Ok? && !Repeats(before + fields.value.value))
            && (end.Ok? ==> end.value.next == fields.value.next
                            && Tracks(b, end.value.value, before + fields.value.value))
    decreases count
  {
    hide Tracks, FieldAt, Advance, Refuses, Repeats;
    if count == 0 {
      assert before + [] == before;
    } else {
      EntriesUnfold(b, pos, count, p);
      if FieldAt(b, pos).Ok? {
        EntryMeans(b, pos, p, before);
        var first := FieldAt(b, pos).value;
        var now := before + [first.value];
        var rest := FieldsAt(b, first.next, count - 1);
        if rest.Ok? {
          assert now + rest.value.value == before + FieldsAt(b, pos, count).value.value;
        }
        if !Refuses(b, pos, p) {
          EntriesMean(b, first.next, count - 1, Advance(b, pos, p), now);
        } else if rest.Ok? {
          RepeatsGrows(now, rest.value.value);
        }
      }
    }
  }

  /** Version, kind, ID, timestamp and source all stand in the map. */
  ghost predicate HasRequired(fs: seq<Field>) {
    Names(fs, 0) && Names(fs, 1) && Names(fs, 2) && Names(fs, 3) && Names(fs, 4)
  }

  lemma RequiredSeen(fs: seq<Field>)
    ensures REQUIRED_KEYS <= ByKey(fs).Keys <==> HasRequired(fs)
  {
    ByKeyNames(fs);
  }

  lemma StartTracks(b: Bytes)
    ensures Tracks(b, START, []) && !Repeats([])
  {
  }

  lemma TracksGives(b: Bytes, p: Progress, fs: seq<Field>)
    requires Tracks(b, p, fs)
    ensures ViewWithin(b, p.view) && p.seen == ByKey(fs).Keys && ContentsOf(b, p.view) == Meaning(ByKey(fs))
  {
  }

  /**
   * Decoding accepts a packet exactly when it is one map of at most 64 well-formed entries that names
   * keys 0 to 4 and repeats no known key; the view it returns then says what those fields say.
   */
  lemma DecodeMeans(b: Bytes)
    ensures DecodeSpec(b).Ok? <==>
              Fields(b).Ok? && !Repeats(Fields(b).value) && HasRequired(Fields(b).value)
    ensures DecodeSpec(b).Ok? ==>
              && ViewWithin(b, DecodeSpec(b).value)
              && ContentsOf(b, DecodeSpec(b).value) == Meaning(ByKey(Fields(b).value))
  {
    StartTracks(b);
    hide Tracks, ContainerAt, FieldsAt, EntriesAt, Repeats, HasRequired, Meaning, ContentsOf, ByKey;
    if |b| <= MDU && ContainerAt(b, 0, 5).Ok? {
      var head := ContainerAt(b, 0, 5).value;
      EntriesMean(b, head.next, head.value, START, []);
      var fields := FieldsAt(b, head.next, head.value);
      if fields.Ok? {
        assert [] + fields.value.value == fields.value.value;
        RequiredSeen(fields.value.value);
      }
      var end := EntriesAt(b, head.next, head.value, START);
      if end.Ok? {
        TracksGives(b, end.value.value, fields.value.value);
      }
    }
  }

  // ---- Order and extension independence ------------------------------------------------------

  /** The known fields of a packet, in the order they stand. */
  function KnownFields(fs: seq<Field>): seq<Field> {
    if fs == [] then []
    else (if Known(fs[0]) then [fs[0]] else []) + KnownFields(fs[1..])
  }

  lemma {:induction false} KnownFieldsHold(fs: seq<Field>, f: Field)
    requires Known(f)
    ensures f in KnownFields(fs) <==> f in fs
    ensures multiset(KnownFields(fs))[f] == multiset(fs)[f]
  {
    if fs != [] {
      KnownFieldsHold(fs[1..], f);
      assert fs == [fs[0]] + fs[1..];
      assert multiset(fs) == multiset([fs[0]]) + multiset(fs[1..]);
      assert multiset(KnownFields(fs)) == multiset(if Known(fs[0]) then [fs[0]] else []) + multiset(KnownFields(fs[1..]));
    }
  }

  /** Without repeats, the map by key holds exactly the known fields. */
  lemma {:induction false} ByKeyHolds(fs: seq<Field>, f: Field)
    requires !Repeats(fs) && Known(f)
    ensures f in fs <==> f.key in ByKey(fs) && ByKey(fs)[f.key] == f.content
  {
    if fs != [] {
      var front, last := fs[..|fs| - 1], fs[|fs| - 1];
      assert fs == front + [last];
      RepeatsSplit(front, last);
      ByKeyHolds(front, f);
      ByKeyNames(front);
      MemberNames(front, f);
    }
  }

  /** A field that stands twice repeats its key. */
  lemma {:induction false} TwiceRepeats(fs: seq<Field>, f: Field)
    requires Known(f) && multiset(fs)[f] >= 2
    ensures Repeats(fs)
  {
    var front, last := fs[..|fs| - 1], fs[|fs| - 1];
    assert fs == front + [last];
    RepeatsSplit(front, last);
    if last == f {
      assert f in multiset(front);
      MemberNames(front, f);
    } else {
      TwiceRepeats(front, f);
    }
  }

  lemma StandsTwice(fs: seq<Field>, i: nat, j: nat)
    requires i < j < |fs| && fs[i] == fs[j]
    ensures multiset(fs)[fs[i]] >= 2
  {
    assert fs == fs[..j] + fs[j..];
    assert fs[..j][i] == fs[i] && fs[j..][0] == fs[i];
    assert multiset(fs) == multiset(fs[..j]) + multiset(fs[j..]);
  }

  /** The same known fields in another order, with other extensions, repeat a key or not alike. */
  lemma RepeatsAlike(fs: seq<Field>, gs: seq<Field>)
    requires multiset(KnownFields(fs)) == multiset(KnownFields(gs)) && Repeats(gs)
    ensures Repeats(fs)
  {
    var i, j :| 0 <= i < j < |gs| && Known(gs[i]) && gs[i].key == gs[j].key;
    KnownFieldsHold(fs, gs[i]);
    KnownFieldsHold(gs, gs[i]);
    KnownFieldsHold(fs, gs[j]);
    KnownFieldsHold(gs, gs[j]);
    if gs[i] == gs[j] {
      StandsTwice(gs, i, j);
      TwiceRepeats(fs, gs[i]);
    } else {
      var x :| 0 <= x < |fs| && fs[x] == gs[i];
      var y :| 0 <= y < |fs| && fs[y] == gs[j];
      assert fs[if x < y then x else y].key == fs[if x < y then y else x].key;
    }
  }

  lemma NamesAlike(fs: seq<Field>, gs: seq<Field>, key: u64)
    requires multiset(KnownFields(fs)) == multiset(KnownFields(gs)) && key <= LAST_KNOWN_KEY && Names(fs, key)
    ensures Names(gs, key)
  {
    var i :| 0 <= i < |fs| && fs[i].key == key;
    KnownFieldsHold(fs, fs[i]);
    KnownFieldsHold(gs, fs[i]);
    var j :| 0 <= j < |gs| && gs[j] == fs[i];
  }

  lemma RequiredAlike(fs: seq<Field>, gs: seq<Field>)
    requires multiset(KnownFields(fs)) == multiset(KnownFields(gs))
    ensures HasRequired(fs) <==> HasRequired(gs)
  {
    forall k: u64 | k <= LAST_KNOWN_KEY ensures Names(fs, k) <==> Names(gs, k) {
      if Names(fs, k) { NamesAlike(fs, gs, k); }
      if Names(gs, k) { NamesAlike(gs, fs, k); }
    }
  }

  lemma ByKeyAlike(fs: seq<Field>, gs: seq<Field>)
    requires multiset(KnownFields(fs)) == multiset(KnownFields(gs)) && !Repeats(fs) && !Repeats(gs)
    ensures ByKey(fs) == ByKey(gs)
  {
    ByKeyNames(fs);
    ByKeyNames(gs);
    forall k: u64 ensures k in ByKey(fs) <==> k in ByKey(gs) {
      if k <= LAST_KNOWN_KEY {
        if Names(fs, k) { NamesAlike(fs, gs, k); }
        if Names(gs, k) { NamesAlike(gs, fs, k); }
      }
    }
    forall k: u64 | k in ByKey(fs) ensures ByKey(fs)[k] == ByKey(gs)[k] {
      var f := Field(k, ByKey(fs)[k]);
      ByKeyHolds(fs, f);
      KnownFieldsHold(fs, f);
      KnownFieldsHold(gs, f);
      ByKeyHolds(gs, f);
    }
  }

  /**
   * Two packets whose maps hold the same known fields, in any order, with heads of any width and
   * any further entries under other keys, are accepted alike and decode to the same contents.
   */
  lemma OrderAndExtensionsDoNotMatter(p: Bytes, q: Bytes)
    requires Fields(p).Ok? && Fields(q).Ok?
    requires multiset(KnownFields(Fields(p).value)) == multiset(KnownFields(Fields(q).value))
    ensures DecodeSpec(p).Ok? <==> DecodeSpec(q).Ok?
    ensures DecodeSpec(p).Ok? ==>
              && ViewWithin(p, DecodeSpec(p).value) && ViewWithin(q, DecodeSpec(q).value)
              && ContentsOf(p, DecodeSpec(p).value) == ContentsOf(q, DecodeSpec(q).value)
  {
    var fs, gs := Fields(p).value, Fields(q).value;
    DecodeMeans(p);
    DecodeMeans(q);
    if Repeats(fs) { RepeatsAlike(gs, fs); }
    if Repeats(gs) { RepeatsAlike(fs, gs); }
    RequiredAlike(fs, gs);
    if !Repeats(fs) {
      ByKeyAlike(fs, gs);
    }
  }
}
