/**
 * The octets of the replies: which WELCOME bodies, rosters and announce names are accepted and what is read
 * from the last two, in terms of the grammar of data items and with every number written out.
 */
module ReplyOctets {
  import opened Bytes
  import opened Cbor
  import opened CborFacts
  import opened CborGrammar
  import opened Envelope
  import opened EnvelopeContents
  import opened EnvelopeOctets
  import opened EnvelopeSpans
  import opened Replies

  // ---- Maps of integer keys ------------------------------------------------------------------

  /** An integer key and the octets of its value. */
  datatype Entry = Entry(key: u64, value: Bytes)

  predicate EntryCut(o: Bytes, k: nat, m: nat, e: Entry) {
    k <= m <= |o| && UintForm(o[..k], e.key) && o[k..m] == e.value
  }

  /** Keys and values one behind the other. */
  ghost predicate Pairs(o: Bytes, es: seq<Entry>)
    decreases |es|
  {
    if es == [] then o == []
    else exists k: nat, m: nat :: EntryCut(o, k, m, es[0]) && Pairs(o[m..], es[1..])
  }

  /** A map of at most 64 entries. */
  ghost predicate MapOf(o: Bytes, es: seq<Entry>) {
    |es| <= 64 && exists k: nat :: k <= |o| && HeadForm(o[..k], 5, |es|) && Pairs(o[k..], es)
  }

  /** No key up to `last` stands twice, nor one that was `seen` before. */
  ghost predicate Fresh(es: seq<Entry>, seen: set<u64>, last: nat) {
    forall i :: 0 <= i < |es| && es[i].key <= last ==> es[i].key !in seen && forall j :: 0 <= j < i ==> es[j].key != es[i].key
  }

  lemma FreshCons(es: seq<Entry>, seen: set<u64>, last: nat)
    requires es != []
    ensures Fresh(es, seen, last) <==>
              !(es[0].key <= last && es[0].key in seen) && Fresh(es[1..], Seen(seen, es[0].key, last), last)
  {
    var rest := es[1..];
    assert forall i :: 1 <= i < |es| ==> es[i] == rest[i - 1];
    if Fresh(es, seen, last) {
      forall i | 0 <= i < |rest| && rest[i].key <= last
        ensures rest[i].key !in Seen(seen, es[0].key, last) && forall j :: 0 <= j < i ==> rest[j].key != rest[i].key
      {
        assert es[i + 1] == rest[i] && es[0].key != es[i + 1].key;
        forall j | 0 <= j < i ensures rest[j].key != rest[i].key {
          assert es[j + 1] == rest[j];
        }
      }
    }
  }

  lemma PairsCons(b: Bytes, pos: nat, k: nat, m: nat, next: nat, e: Entry, rest: seq<Entry>)
    requires pos <= k <= m <= next <= |b| && UintForm(b[pos..k], e.key) && b[k..m] == e.value && Pairs(b[m..next], rest)
    ensures Pairs(b[pos..next], [e] + rest)
  {
    var o, es := b[pos..next], [e] + rest;
    assert o[..k - pos] == b[pos..k];
    EmbeddedSlice(o, b, pos, k - pos, m - pos);
    assert o[m - pos..] == b[m..next];
    assert es[1..] == rest;
    assert EntryCut(o, k - pos, m - pos, es[0]);
  }

  lemma PairsFirst(b: Bytes, pos: nat, next: nat, es: seq<Entry>) returns (k: nat, m: nat)
    requires pos <= next <= |b| && es != [] && Pairs(b[pos..next], es)
    ensures pos < k <= m <= next && UintAt(b, pos) == Ok(Read(es[0].key, k)) && b[k..m] == es[0].value
    ensures Pairs(b[m..next], es[1..])
  {
    hide UintAt, UintForm;
    var o := b[pos..next];
    var i: nat, j: nat :| EntryCut(o, i, j, es[0]) && Pairs(o[j..], es[1..]);
    k, m := pos + i, pos + j;
    KeyHasOctets(o[..i], es[0].key);
    Halves(b, pos, k, next);
    Halves(b, pos, m, next);
    EmbeddedSlice(o, b, pos, i, j);
    UintMeans(b, pos, es[0].key, k);
  }

  lemma KeyForm(b: Bytes, pos: nat)
    requires UintAt(b, pos).Ok?
    ensures UintForm(b[pos..UintAt(b, pos).value.next], UintAt(b, pos).value.value)
  {
    hide UintAt, UintForm;
    UintMeans(b, pos, UintAt(b, pos).value.value, UintAt(b, pos).value.next);
  }

  // ---- WELCOME -------------------------------------------------------------------------------

  /** A text of at most 64 octets, or null. */
  ghost predicate LabelForm(o: Bytes) {
    o == [0xF6] || exists text :: |text| <= 64 && StringForm(o, 3, text)
  }

  ghost predicate NumberForm(o: Bytes) {
    exists n: u64 :: UintForm(o, n)
  }

  /** Capabilities 0 to 3 are false or true, limits 0 to 4 are integers, and any other field is any item. */
  ghost predicate FieldOk(key: u64, f: Entry) {
    if key == 2 && f.key < 4 then f.value == [0xF4] || f.value == [0xF5]
    else if key == 3 && f.key < 5 then NumberForm(f.value)
    else ItemForm(f.value, 3)
  }

  /** Name and version are labels, capabilities and limits are maps whose fields stand once, and any other value is any item. */
  ghost predicate ValueOk(e: Entry) {
    if e.key <= 1 then LabelForm(e.value)
    else if e.key <= 3 then exists fs :: MapOf(e.value, fs) && (forall i :: 0 <= i < |fs| ==> FieldOk(e.key, fs[i])) && Fresh(fs, {}, 4)
    else ItemForm(e.value, 4)
  }

  /** The body of a WELCOME that is accepted. */
  ghost predicate WelcomeForm(o: Bytes) {
    exists es :: MapOf(o, es) && (forall i :: 0 <= i < |es| ==> ValueOk(es[i])) && Fresh(es, {}, 3)
  }

  /** The two kinds of maps in it. */
  datatype Place = InBody | InMap(key: u64)

  ghost predicate AllOk(p: Place, es: seq<Entry>) {
    forall i :: 0 <= i < |es| ==> OkIn(p, es[i])
  }

  ghost predicate OkIn(p: Place, e: Entry) {
    match p
    case InBody => ValueOk(e)
    case InMap(key) => FieldOk(key, e)
  }

  function Last(p: Place): nat {
    if p.InBody? then 3 else 4
  }

  ghost predicate Fill(es: seq<Entry>, o: Bytes, p: Place, seen: set<u64>) {
    Pairs(o, es) && AllOk(p, es) && Fresh(es, seen, Last(p))
  }

  /** `o` is `count` entries that may stand there. */
  ghost predicate Filled(o: Bytes, p: Place, count: nat, seen: set<u64>) {
    exists es :: |es| == count && Fill(es, o, p, seen)
  }

  lemma NothingFilled(o: Bytes, p: Place, seen: set<u64>)
    ensures Filled(o, p, 0, seen) <==> o == []
  {
    var none: seq<Entry> := [];
    if o == [] {
      assert Fill(none, o, p, seen);
    }
  }

  /** The entry at `pos` in front of the rest. */
  lemma FilledCons(b: Bytes, pos: nat, mid: nat, next: nat, p: Place, count: nat, seen: set<u64>)
    requires UintAt(b, pos).Ok? && UintAt(b, pos).value.next <= mid <= next <= |b| && count > 0
    requires var k := UintAt(b, pos).value;
             && OkIn(p, Entry(k.value, b[k.next..mid])) && !(k.value <= Last(p) && k.value in seen)
             && Filled(b[mid..next], p, count - 1, Seen(seen, k.value, Last(p)))
    ensures Filled(b[pos..next], p, count, seen)
  {
    hide UintAt, OkIn, Fresh, Pairs, Last;
    var k := UintAt(b, pos).value;
    var rest: seq<Entry> :| |rest| == count - 1 && Fill(rest, b[mid..next], p, Seen(seen, k.value, Last(p)));
    var first := Entry(k.value, b[k.next..mid]);
    KeyForm(b, pos);
    PairsCons(b, pos, k.next, mid, next, first, rest);
    var es := [first] + rest;
    assert es[1..] == rest;
    FreshCons(es, seen, Last(p));
    assert Fill(es, b[pos..next], p, seen);
  }

  lemma FilledFirst(b: Bytes, pos: nat, next: nat, p: Place, count: nat, seen: set<u64>) returns (mid: nat)
    requires pos <= next <= |b| && count > 0 && Filled(b[pos..next], p, count, seen)
    ensures UintAt(b, pos).Ok? && UintAt(b, pos).value.next <= mid <= next
    ensures var k := UintAt(b, pos).value;
            && OkIn(p, Entry(k.value, b[k.next..mid])) && !(k.value <= Last(p) && k.value in seen)
            && Filled(b[mid..next], p, count - 1, Seen(seen, k.value, Last(p)))
  {
    hide UintAt, OkIn, Fresh, Pairs, Last;
    var es: seq<Entry> :| |es| == count && Fill(es, b[pos..next], p, seen);
    var k;
    k, mid := PairsFirst(b, pos, next, es);
    FreshCons(es, seen, Last(p));
    assert es[0] == Entry(es[0].key, b[k..mid]);
    assert Fill(es[1..], b[mid..next], p, Seen(seen, es[0].key, Last(p)));
  }

  // ---- Every read accepts exactly those ------------------------------------------------------

  lemma NumberAccepts(b: Bytes, pos: nat, next: nat)
    ensures (UintAt(b, pos).Ok? && UintAt(b, pos).value.next == next) <==> pos <= next <= |b| && NumberForm(b[pos..next])
  {
    hide UintAt, UintForm;
    if UintAt(b, pos).Ok? && UintAt(b, pos).value.next == next {
      KeyForm(b, pos);
    }
    if pos <= next <= |b| && NumberForm(b[pos..next]) {
      var n: u64 :| UintForm(b[pos..next], n);
      KeyHasOctets(b[pos..next], n);
      UintMeans(b, pos, n, next);
    }
  }

  lemma FieldAccepts(b: Bytes, pos: nat, key: u64, field: u64, w: Welcome, next: nat)
    requires |w.limits| == 5 && (key == 2 || key == 3)
    ensures (WelcomeFieldAt(b, pos, key, field, w).Ok? && WelcomeFieldAt(b, pos, key, field, w).value.next == next) <==>
              pos <= next <= |b| && OkIn(InMap(key), Entry(field, b[pos..next]))
  {
    hide UintAt, SkipAt, UintForm, ItemForm;
    if key == 2 && field < 4 {
      if pos < next <= |b| {
        assert b[pos..next][0] == b[pos];
      }
      if pos < |b| {
        assert b[pos..pos + 1] == [b[pos]];
      }
    } else if key == 3 && field < 5 {
      NumberAccepts(b, pos, next);
    } else {
      SkipMeans(b, pos, 2, next);
    }
  }

  lemma {:induction false} FieldsAccept(b: Bytes, pos: nat, key: u64, count: nat, fields: set<u64>, w: Welcome, next: nat)
    requires pos <= |b| && |w.limits| == 5 && (key == 2 || key == 3)
    ensures (WelcomeFieldsAt(b, pos, key, count, fields, w).Ok? && WelcomeFieldsAt(b, pos, key, count, fields, w).value.next == next)
        <==> pos <= next <= |b| && Filled(b[pos..next], InMap(key), count, fields)
    decreases count
  {
    hide UintAt, WelcomeFieldAt, OkIn, Filled, Seen;
    if count == 0 {
      if pos <= next <= |b| {
        NothingFilled(b[pos..next], InMap(key), fields);
      }
    } else {
      if WelcomeFieldsAt(b, pos, key, count, fields, w).Ok? && WelcomeFieldsAt(b, pos, key, count, fields, w).value.next == next {
        var field := UintAt(b, pos).value;
        var now := WelcomeFieldAt(b, field.next, key, field.value, w).value;
        FieldAccepts(b, field.next, key, field.value, w, now.next);
        FieldsAccept(b, now.next, key, count - 1, Seen(fields, field.value, 4), now.value, next);
        FilledCons(b, pos, now.next, next, InMap(key), count, fields);
      }
      if pos <= next <= |b| && Filled(b[pos..next], InMap(key), count, fields) {
        var mid := FilledFirst(b, pos, next, InMap(key), count, fields);
        var field := UintAt(b, pos).value;
        FieldAccepts(b, field.next, key, field.value, w, mid);
        var now := WelcomeFieldAt(b, field.next, key, field.value, w).value;
        FieldsAccept(b, mid, key, count - 1, Seen(fields, field.value, 4), now.value, next);
      }
    }
  }

  /** A whole map whose entries may stand there. */
  ghost predicate MapFilled(o: Bytes, p: Place) {
    exists es :: MapOf(o, es) && AllOk(p, es) && Fresh(es, {}, Last(p))
  }

  lemma MapAccepts(b: Bytes, pos: nat, p: Place, next: nat)
    requires pos <= next <= |b|
    ensures MapFilled(b[pos..next], p) <==>
              && ContainerAt(b, pos, 5).Ok? && ContainerAt(b, pos, 5).value.next <= next
              && Filled(b[ContainerAt(b, pos, 5).value.next..next], p, ContainerAt(b, pos, 5).value.value, {})
  {
    hide ContainerAt, AllOk, Fresh, Pairs, HeadForm, Last;
    var o := b[pos..next];
    if ContainerAt(b, pos, 5).Ok? && ContainerAt(b, pos, 5).value.next <= next {
      var c := ContainerAt(b, pos, 5).value;
      ContainerMeans(b, pos, 5, c.value, c.next);
      Halves(b, pos, c.next, next);
      if Filled(b[c.next..next], p, c.value, {}) {
        var es: seq<Entry> :| |es| == c.value && Fill(es, b[c.next..next], p, {});
        assert MapOf(o, es);
      }
    }
    if MapFilled(o, p) {
      var es: seq<Entry> :| MapOf(o, es) && AllOk(p, es) && Fresh(es, {}, Last(p));
      var k: nat :| k <= |o| && HeadForm(o[..k], 5, |es|) && Pairs(o[k..], es);
      Halves(b, pos, pos + k, next);
      if k == 0 {
        NoHead(o[..0], 5, |es|);
      }
      ContainerMeans(b, pos, 5, |es|, pos + k);
      assert Fill(es, b[pos + k..next], p, {});
    }
  }

  lemma LabelAccepts(b: Bytes, pos: nat, next: nat)
    requires |b| <= 431
    ensures (OptionalTextAt(b, pos, 64).Ok? && OptionalTextAt(b, pos, 64).value.next == next) <==>
              pos <= next <= |b| && LabelForm(b[pos..next])
  {
    hide OptionalTextAt, StringForm;
    if OptionalTextAt(b, pos, 64).Ok? && OptionalTextAt(b, pos, 64).value.next == next {
      ValueIsWithin(b, pos, 5);
      ValueMeans(b, pos, 5, ContentOf(b, ValueAt(b, pos, 5).value.value), next);
    }
    if pos <= next <= |b| && LabelForm(b[pos..next]) {
      if b[pos..next] == [0xF6] {
        ValueMeans(b, pos, 5, Chars([]), next);
      } else {
        var text :| |text| <= 64 && StringForm(b[pos..next], 3, text);
        ValueMeans(b, pos, 5, Chars(text), next);
      }
    }
  }

  lemma ValueAccepts(b: Bytes, pos: nat, key: u64, w: Welcome, next: nat)
    requires |b| <= 431 && |w.limits| == 5
    ensures (WelcomeValueAt(b, pos, key, w).Ok? && WelcomeValueAt(b, pos, key, w).value.next == next) <==>
              pos <= next <= |b| && OkIn(InBody, Entry(key, b[pos..next]))
  {
    hide ContainerAt, OptionalTextAt, SkipAt, WelcomeFieldsAt, LabelForm, ItemForm, FieldOk, Fresh, MapOf, Filled;
    if key <= 1 {
      LabelAccepts(b, pos, next);
    } else if key <= 3 {
      if ContainerAt(b, pos, 5).Ok? {
        var c := ContainerAt(b, pos, 5).value;
        FieldsAccept(b, c.next, key, c.value, {}, w, next);
      }
      if pos <= next <= |b| {
        MapAccepts(b, pos, InMap(key), next);
        MapOk(key, b[pos..next]);
      }
    } else {
      SkipMeans(b, pos, 1, next);
    }
  }

  lemma MapOk(key: u64, o: Bytes)
    requires key == 2 || key == 3
    ensures MapFilled(o, InMap(key)) <==> OkIn(InBody, Entry(key, o))
  {
    hide FieldOk, Fresh, MapOf;
    var e := Entry(key, o);
    if MapFilled(o, InMap(key)) {
      var fs: seq<Entry> :| MapOf(o, fs) && AllOk(InMap(key), fs) && Fresh(fs, {}, 4);
      assert MapOf(e.value, fs) && (forall i :: 0 <= i < |fs| ==> FieldOk(e.key, fs[i])) && Fresh(fs, {}, 4);
    }
    if ValueOk(e) {
      var fs: seq<Entry> :| MapOf(o, fs) && (forall i :: 0 <= i < |fs| ==> FieldOk(key, fs[i])) && Fresh(fs, {}, 4);
      assert AllOk(InMap(key), fs);
    }
  }

  lemma {:induction false} EntriesAccept(b: Bytes, pos: nat, count: nat, seen: set<u64>, w: Welcome, next: nat)
    requires pos <= |b| <= 431 && |w.limits| == 5
    ensures (WelcomeEntriesAt(b, pos, count, seen, w).Ok? && WelcomeEntriesAt(b, pos, count, seen, w).value.next == next)
        <==> pos <= next <= |b| && Filled(b[pos..next], InBody, count, seen)
    decreases count
  {
    hide UintAt, WelcomeValueAt, OkIn, Filled, Seen;
    if count == 0 {
      if pos <= next <= |b| {
        NothingFilled(b[pos..next], InBody, seen);
      }
    } else {
      if WelcomeEntriesAt(b, pos, count, seen, w).Ok? && WelcomeEntriesAt(b, pos, count, seen, w).value.next == next {
        var key := UintAt(b, pos).value;
        var now := WelcomeValueAt(b, key.next, key.value, w).value;
        ValueAccepts(b, key.next, key.value, w, now.next);
        EntriesAccept(b, now.next, count - 1, Seen(seen, key.value, 3), now.value, next);
        FilledCons(b, pos, now.next, next, InBody, count, seen);
      }
      if pos <= next <= |b| && Filled(b[pos..next], InBody, count, seen) {
        var mid := FilledFirst(b, pos, next, InBody, count, seen);
        var key := UintAt(b, pos).value;
        ValueAccepts(b, key.next, key.value, w, mid);
        var now := WelcomeValueAt(b, key.next, key.value, w).value;
        EntriesAccept(b, mid, count - 1, Seen(seen, key.value, 3), now.value, next);
      }
    }
  }

  /** A WELCOME is accepted exactly when its packet is, its kind is 2, and its body is such a map. */
  lemma WelcomeAccepts(b: Bytes)
    ensures WelcomeSpec(b).Ok? <==>
              && DecodeSpec(b).Ok? && DecodeSpec(b).value.meta.kind == 2
              && Within(b, DecodeSpec(b).value.body) && WelcomeForm(Slice(b, DecodeSpec(b).value.body))
  {
    hide DecodeSpec, ContainerAt, WelcomeEntriesAt, SkipAt, MapFilled, Filled, WelcomeForm;
    if DecodeSpec(b).Ok? {
      DecodeIsSound(b);
      var body := DecodeSpec(b).value.body;
      BodyOk(Slice(b, body));
      var end := body.offset + body.length;
      MapAccepts(b, body.offset, InBody, end);
      if body.length == 0 {
        assert Slice(b, body) == [];
      }
      if WelcomeAt(b).Ok? {
        WelcomeStaysInBody(b);
      }
      if ContainerAt(b, body.offset, 5).Ok? {
        var c := ContainerAt(b, body.offset, 5).value;
        EntriesAccept(b, c.next, c.value, {}, NO_WELCOME, end);
      }
    }
  }

  lemma BodyOk(o: Bytes)
    ensures MapFilled(o, InBody) <==> WelcomeForm(o)
    ensures WelcomeForm(o) ==> o != []
  {
    hide ValueOk, Fresh, Pairs;
    if MapFilled(o, InBody) {
      var es: seq<Entry> :| MapOf(o, es) && AllOk(InBody, es) && Fresh(es, {}, 3);
      assert forall i :: 0 <= i < |es| ==> ValueOk(es[i]);
    }
    if WelcomeForm(o) {
      var es: seq<Entry> :| MapOf(o, es) && (forall i :: 0 <= i < |es| ==> ValueOk(es[i])) && Fresh(es, {}, 3);
      assert AllOk(InBody, es);
      var k: nat :| k <= |o| && HeadForm(o[..k], 5, |es|) && Pairs(o[k..], es);
      if o == [] {
        NoHead(o[..k], 5, |es|);
      }
    }
  }

  /** A packet that is not accepted is refused with its own error; another kind or no body is invalid. */
  lemma WelcomeRefuses(b: Bytes)
    ensures DecodeSpec(b).Err? ==> WelcomeSpec(b) == Err(DecodeSpec(b).error)
    ensures DecodeSpec(b).Ok? && (DecodeSpec(b).value.meta.kind != 2 || DecodeSpec(b).value.body.length == 0) ==>
              WelcomeSpec(b) == Err(Invalid)
  {
    hide DecodeSpec, ContainerAt, WelcomeEntriesAt;
  }

  // ---- Rosters -------------------------------------------------------------------------------

  /** Byte strings of sixteen octets, one behind the other. */
  ghost predicate MembersForm(o: Bytes, members: seq<Bytes>)
    decreases |members|
  {
    if members == [] then o == []
    else exists k: nat :: k <= |o| && |members[0]| == 16 && StringForm(o[..k], 2, members[0]) && MembersForm(o[k..], members[1..])
  }

  /** No body and null have no members; an array of at most 64 names them in order. */
  ghost predicate RosterForm(o: Bytes, members: seq<Bytes>) {
    || ((o == [] || o == [0xF6]) && members == [])
    || (|members| <= 64 && exists k: nat :: k <= |o| && HeadForm(o[..k], 4, |members|) && MembersForm(o[k..], members))
  }

  lemma FixedMeans(b: Bytes, pos: nat, n: nat, data: Bytes, next: nat)
    requires |b| <= 431
    ensures FixedAt(b, pos, n) == Ok(Read(data, next)) <==> pos <= next <= |b| && |data| == n && StringForm(b[pos..next], 2, data)
  {
    hide SpanAt, StringForm;
    StringMeans(b, pos, 2, n, data, next);
    if SpanAt(b, pos, 2, n).Ok? {
      SpanIsExact(b, pos, 2, n);
    }
  }

  lemma {:induction false} MembersMean(b: Bytes, pos: nat, count: nat, members: seq<Bytes>, next: nat)
    requires pos <= |b| <= 431
    ensures MembersAt(b, pos, count) == Ok(Read(members, next)) <==>
              |members| == count && pos <= next <= |b| && MembersForm(b[pos..next], members)
    decreases count
  {
    hide FixedAt, StringForm;
    if MembersAt(b, pos, count) == Ok(Read(members, next)) && count > 0 {
      var first := FixedAt(b, pos, 16).value;
      FixedMeans(b, pos, 16, first.value, first.next);
      assert members[1..] == MembersAt(b, first.next, count - 1).value.value;
      MembersMean(b, first.next, count - 1, members[1..], next);
      var o := b[pos..next];
      Halves(b, pos, first.next, next);
    }
    if |members| == count && pos <= next <= |b| && MembersForm(b[pos..next], members) && count > 0 {
      var o := b[pos..next];
      var k: nat :| k <= |o| && |members[0]| == 16 && StringForm(o[..k], 2, members[0]) && MembersForm(o[k..], members[1..]);
      Halves(b, pos, pos + k, next);
      FixedMeans(b, pos, 16, members[0], pos + k);
      MembersMean(b, pos + k, count - 1, members[1..], next);
      assert members == [members[0]] + members[1..];
    }
  }

  /** The array behind a head. */
  lemma ArrayMeans(b: Bytes, pos: nat, members: seq<Bytes>, next: nat)
    requires pos < next <= |b| <= 431 && b[pos..next] != [0xF6]
    ensures RosterForm(b[pos..next], members) <==>
              && ContainerAt(b, pos, 4).Ok? && ContainerAt(b, pos, 4).value.next <= next
              && MembersAt(b, ContainerAt(b, pos, 4).value.next, ContainerAt(b, pos, 4).value.value) == Ok(Read(members, next))
  {
    hide ContainerAt, MembersAt, MembersForm, HeadForm;
    var o := b[pos..next];
    if ContainerAt(b, pos, 4).Ok? && ContainerAt(b, pos, 4).value.next <= next {
      var c := ContainerAt(b, pos, 4).value;
      ContainerMeans(b, pos, 4, c.value, c.next);
      MembersMean(b, c.next, c.value, members, next);
      Halves(b, pos, c.next, next);
    }
    if RosterForm(o, members) {
      var k: nat :| k <= |o| && HeadForm(o[..k], 4, |members|) && MembersForm(o[k..], members);
      Halves(b, pos, pos + k, next);
      if k == 0 {
        NoHead(o[..0], 4, |members|);
      }
      ContainerMeans(b, pos, 4, |members|, pos + k);
      MembersMean(b, pos + k, |members|, members, next);
    }
  }

  lemma EmptyRoster(o: Bytes, members: seq<Bytes>)
    requires o == [] || o == [0xF6]
    ensures RosterForm(o, members) <==> members == []
  {
    hide MembersForm;
  }

  /** A roster is read exactly from a packet of kind 11 or 13 whose body says it, member by member. */
  lemma RosterMeans(b: Bytes, members: seq<Bytes>)
    ensures (RosterAt(b).Ok? && RosterAt(b).value.value == members) <==>
              && DecodeSpec(b).Ok? && (DecodeSpec(b).value.meta.kind == 11 || DecodeSpec(b).value.meta.kind == 13)
              && Within(b, DecodeSpec(b).value.body) && RosterForm(Slice(b, DecodeSpec(b).value.body), members)
  {
    hide DecodeSpec, ContainerAt, MembersAt, SkipAt, RosterForm;
    if DecodeSpec(b).Ok? {
      DecodeIsSound(b);
      var body := DecodeSpec(b).value.body;
      var end := body.offset + body.length;
      var o := Slice(b, body);
      if body.length == 0 {
        EmptyRoster(o, members);
      } else if body.length == 1 && b[body.offset] == 0xF6 {
        assert o == [0xF6];
        EmptyRoster(o, members);
      } else {
        assert o[0] == b[body.offset];
        ArrayMeans(b, body.offset, members, end);
        if RosterAt(b).Ok? {
          RosterStaysInBody(b);
        }
      }
    }
  }

  lemma RosterRefuses(b: Bytes)
    ensures DecodeSpec(b).Err? ==> RosterAt(b) == Err(DecodeSpec(b).error)
    ensures DecodeSpec(b).Ok? && DecodeSpec(b).value.meta.kind != 11 && DecodeSpec(b).value.meta.kind != 13 ==> RosterAt(b) == Err(Invalid)
  {
    hide DecodeSpec, ContainerAt, MembersAt;
  }

  // ---- Announce names ------------------------------------------------------------------------

  /** A text key and the octets of its value. */
  datatype Named = Named(key: Bytes, value: Bytes)

  /** Keys are texts of at most 64 octets; the value of "hub" is one too, and any other value is any item. */
  ghost predicate NamedForm(o: Bytes, e: Named) {
    exists k: nat :: k <= |o| && |e.key| <= 64 && StringForm(o[..k], 3, e.key) && o[k..] == e.value
                     && (if IsHub(e.key) then LabelText(e.value) else ItemForm(e.value, 4))
  }

  predicate IsHub(key: Bytes) {
    |key| == 3 && key[0] == 'h' as int && key[1] == 'u' as int && key[2] == 'b' as int
  }

  ghost predicate LabelText(o: Bytes) {
    exists text :: |text| <= 64 && StringForm(o, 3, text)
  }

  ghost predicate NamedEntries(o: Bytes, es: seq<Named>)
    decreases |es|
  {
    if es == [] then o == []
    else exists m: nat :: m <= |o| && NamedForm(o[..m], es[0]) && NamedEntries(o[m..], es[1..])
  }

  /** Announce data: one map of at most 64 entries in at most 431 octets. */
  ghost predicate AnnounceForm(b: Bytes, es: seq<Named>) {
    |b| <= 431 && |es| <= 64 && exists k: nat :: k <= |b| && HeadForm(b[..k], 5, |es|) && NamedEntries(b[k..], es)
  }

  /** No second "hub", and none at all behind one that was `seen`. */
  ghost predicate OneHub(es: seq<Named>, seen: bool) {
    && (seen ==> forall i :: 0 <= i < |es| ==> !IsHub(es[i].key))
    && forall i, j :: 0 <= i < j < |es| ==> !(IsHub(es[i].key) && IsHub(es[j].key))
  }

  lemma OneHubCons(es: seq<Named>, seen: bool)
    requires es != []
    ensures OneHub(es, seen) <==> !(seen && IsHub(es[0].key)) && OneHub(es[1..], seen || IsHub(es[0].key))
  {
    hide IsHub;
    var rest := es[1..];
    assert forall i :: 1 <= i < |es| ==> es[i] == rest[i - 1];
    assert forall i :: 0 <= i < |rest| ==> rest[i] == es[i + 1];
  }

  /** The key and the value at `pos` as the reader takes them. */
  predicate EntryRead(b: Bytes, pos: nat, key: Bytes, k: nat, m: nat) {
    && StringRead(b, pos, 3, 64, key, k)
    && if IsHub(key) then SpanAt(b, k, 3, 64).Ok? && SpanAt(b, k, 3, 64).value.next == m else SkipAt(b, k, 1) == Ok(m)
  }

  lemma LabelTextMeans(b: Bytes, pos: nat, next: nat)
    requires |b| <= 431
    ensures (SpanAt(b, pos, 3, 64).Ok? && SpanAt(b, pos, 3, 64).value.next == next) <==>
              pos <= next <= |b| && LabelText(b[pos..next])
    ensures SpanAt(b, pos, 3, 64).Ok? && SpanAt(b, pos, 3, 64).value.next == next ==>
              Within(b, SpanAt(b, pos, 3, 64).value.value) && StringForm(b[pos..next], 3, Slice(b, SpanAt(b, pos, 3, 64).value.value))
  {
    hide SpanAt, StringForm;
    if SpanAt(b, pos, 3, 64).Ok? && SpanAt(b, pos, 3, 64).value.next == next {
      SpanIsExact(b, pos, 3, 64);
      StringMeans(b, pos, 3, 64, Slice(b, SpanAt(b, pos, 3, 64).value.value), next);
    }
    if pos <= next <= |b| && LabelText(b[pos..next]) {
      var text :| |text| <= 64 && StringForm(b[pos..next], 3, text);
      StringMeans(b, pos, 3, 64, text, next);
    }
  }

  lemma ValueRead(b: Bytes, k: nat, m: nat, key: Bytes)
    requires |b| <= 431
    ensures (if IsHub(key) then SpanAt(b, k, 3, 64).Ok? && SpanAt(b, k, 3, 64).value.next == m else SkipAt(b, k, 1) == Ok(m)) <==>
              k <= m <= |b| && if IsHub(key) then LabelText(b[k..m]) else ItemForm(b[k..m], 4)
  {
    hide SpanAt, SkipAt, StringForm, ItemForm, IsHub;
    LabelTextMeans(b, k, m);
    SkipMeans(b, k, 1, m);
  }

  lemma NamedReads(b: Bytes, pos: nat, m: nat, e: Named) returns (k: nat)
    requires |b| <= 431 && pos <= m <= |b| && NamedForm(b[pos..m], e)
    ensures pos <= k <= m && EntryRead(b, pos, e.key, k, m) && e.value == b[k..m]
  {
    hide StringRead, StringForm, SpanAt, SkipAt, ItemForm, LabelText, IsHub;
    var o := b[pos..m];
    var i: nat :| i <= |o| && |e.key| <= 64 && StringForm(o[..i], 3, e.key) && o[i..] == e.value
                  && (if IsHub(e.key) then LabelText(e.value) else ItemForm(e.value, 4));
    k := pos + i;
    Halves(b, pos, k, m);
    StringMeans(b, pos, 3, 64, e.key, k);
    ValueRead(b, k, m, e.key);
  }

  lemma ReadIsNamed(b: Bytes, pos: nat, key: Bytes, k: nat, m: nat)
    requires |b| <= 431 && EntryRead(b, pos, key, k, m)
    ensures pos <= k <= m <= |b| && NamedForm(b[pos..m], Named(key, b[k..m]))
  {
    hide StringRead, StringForm, SpanAt, SkipAt, ItemForm, LabelText, IsHub;
    StringMeans(b, pos, 3, 64, key, k);
    ValueRead(b, k, m, key);
    var o := b[pos..m];
    Halves(b, pos, k, m);
  }

  lemma HubMeans(key: Bytes)
    ensures IsHub(key) <==> key == HUB
  {
  }

  /** What the loop does with the entry it reads. */
  lemma NameStep(b: Bytes, pos: nat, count: nat, seen: bool, name: Span, key: Bytes, k: nat, m: nat)
    requires pos <= m <= |b| <= 431 && count > 0 && EntryRead(b, pos, key, k, m)
    ensures NameEntriesAt(b, pos, count, seen, name)
         == if IsHub(key) then if seen then Err(Invalid) else NameEntriesAt(b, m, count - 1, true, SpanAt(b, k, 3, 64).value.value)
            else NameEntriesAt(b, m, count - 1, seen, name)
  {
    hide SpanAt, SkipAt, IsHub;
    HubMeans(key);
  }

  /** What comes of the entries `es` up to `next`, after `name` was found or not. */
  ghost predicate NameResult(b: Bytes, es: seq<Named>, seen: bool, name: Span, next: nat, r: Result<Read<Span>>) {
    if !OneHub(es, seen) then r == Err(Invalid)
    else
      && r.Ok? && r.value.next == next
      && (forall i :: 0 <= i < |es| && IsHub(es[i].key) ==> Within(b, r.value.value) && StringForm(es[i].value, 3, Slice(b, r.value.value)))
      && ((forall i :: 0 <= i < |es| ==> !IsHub(es[i].key)) ==> r.value.value == name)
  }

  /** The first entry is a "hub". */
  lemma HubResult(b: Bytes, es: seq<Named>, text: Span, name: Span, next: nat, r: Result<Read<Span>>)
    requires es != [] && IsHub(es[0].key) && NameResult(b, es[1..], true, text, next, r)
    requires Within(b, text) && StringForm(es[0].value, 3, Slice(b, text))
    ensures NameResult(b, es, false, name, next, r)
  {
    hide IsHub, StringForm, OneHub;
    OneHubCons(es, false);
    OnlyHub(es[1..]);
    assert forall j :: 1 <= j < |es| ==> es[j] == es[1..][j - 1];
  }

  /** The first entry is another. */
  lemma OtherResult(b: Bytes, es: seq<Named>, seen: bool, name: Span, next: nat, r: Result<Read<Span>>)
    requires es != [] && !IsHub(es[0].key) && NameResult(b, es[1..], seen, name, next, r)
    ensures NameResult(b, es, seen, name, next, r)
  {
    hide IsHub, StringForm, OneHub;
    OneHubCons(es, seen);
    assert forall j :: 1 <= j < |es| ==> es[j] == es[1..][j - 1];
    assert forall j :: 0 <= j < |es| - 1 ==> es[1..][j] == es[j + 1];
  }

  lemma SecondHub(b: Bytes, es: seq<Named>, name: Span, next: nat)
    requires es != [] && IsHub(es[0].key)
    ensures NameResult(b, es, true, name, next, Err(Invalid))
  {
    hide IsHub, StringForm;
    OneHubCons(es, true);
  }

  lemma NothingResult(b: Bytes, seen: bool, name: Span, next: nat)
    ensures NameResult(b, [], seen, name, next, Ok(Read(name, next)))
  {
  }

  lemma EntriesCut(b: Bytes, pos: nat, next: nat, es: seq<Named>) returns (m: nat)
    requires pos <= next <= |b| && es != [] && NamedEntries(b[pos..next], es)
    ensures pos <= m <= next && NamedForm(b[pos..m], es[0]) && NamedEntries(b[m..next], es[1..])
  {
    hide NamedForm;
    var o := b[pos..next];
    var i: nat :| i <= |o| && NamedForm(o[..i], es[0]) && NamedEntries(o[i..], es[1..]);
    m := pos + i;
    Halves(b, pos, m, next);
  }

  /** Where entries stand, the loop takes them unless there is a second hub, and keeps the text under the one. */
  lemma {:induction false} NamesRead(b: Bytes, pos: nat, es: seq<Named>, seen: bool, name: Span, next: nat)
    requires pos <= next <= |b| <= 431 && NamedEntries(b[pos..next], es)
    ensures NameResult(b, es, seen, name, next, NameEntriesAt(b, pos, |es|, seen, name))
    decreases |es|
  {
    hide SpanAt, SkipAt, EntryRead, NamedForm, NameResult, StringForm, IsHub;
    if es == [] {
      NothingResult(b, seen, name, next);
    } else {
      hide NameEntriesAt;
      var m := EntriesCut(b, pos, next, es);
      var k := NamedReads(b, pos, m, es[0]);
      NameStep(b, pos, |es|, seen, name, es[0].key, k, m);
      if !IsHub(es[0].key) {
        NamesRead(b, m, es[1..], seen, name, next);
        OtherResult(b, es, seen, name, next, NameEntriesAt(b, m, |es| - 1, seen, name));
      } else if seen {
        SecondHub(b, es, name, next);
      } else {
        LabelReads(b, pos, es[0].key, k, m);
        var text := SpanAt(b, k, 3, 64).value.value;
        NamesRead(b, m, es[1..], true, text, next);
        HubResult(b, es, text, name, next, NameEntriesAt(b, m, |es| - 1, true, text));
      }
    }
  }

  lemma OnlyHub(es: seq<Named>)
    ensures OneHub(es, true) ==> forall i :: 0 <= i < |es| ==> !IsHub(es[i].key)
  {
  }

  lemma LabelReads(b: Bytes, pos: nat, key: Bytes, k: nat, m: nat)
    requires |b| <= 431 && EntryRead(b, pos, key, k, m) && IsHub(key) && k <= m <= |b|
    ensures SpanAt(b, k, 3, 64).Ok? && Within(b, SpanAt(b, k, 3, 64).value.value)
    ensures StringForm(b[k..m], 3, Slice(b, SpanAt(b, k, 3, 64).value.value))
  {
    hide SpanAt, SkipAt, StringForm, StringRead;
    LabelTextMeans(b, k, m);
  }

  lemma {:induction false} ReadNamesStand(b: Bytes, pos: nat, count: nat, seen: bool, name: Span) returns (es: seq<Named>)
    requires pos <= |b| <= 431 && NameEntriesAt(b, pos, count, seen, name).Ok?
    ensures |es| == count && NamedEntries(b[pos..NameEntriesAt(b, pos, count, seen, name).value.next], es)
    decreases count
  {
    hide SpanAt, SkipAt, NamedForm;
    es := [];
    if count > 0 {
      var key, k, m := EntryIsRead(b, pos, count, seen, name);
      hide EntryRead;
      ReadIsNamed(b, pos, key, k, m);
      NameStep(b, pos, count, seen, name, key, k, m);
      var next := NameEntriesAt(b, pos, count, seen, name).value.next;
      var rest := ReadNamesStand(b, m, count - 1, if IsHub(key) then true else seen, if IsHub(key) then SpanAt(b, k, 3, 64).value.value else name);
      es := [Named(key, b[k..m])] + rest;
      var o := b[pos..next];
      Halves(b, pos, m, next);
      assert es[1..] == rest;
    }
  }

  lemma EntryIsRead(b: Bytes, pos: nat, count: nat, seen: bool, name: Span) returns (key: Bytes, k: nat, m: nat)
    requires pos <= |b| <= 431 && count > 0 && NameEntriesAt(b, pos, count, seen, name).Ok?
    ensures EntryRead(b, pos, key, k, m) && m <= NameEntriesAt(b, pos, count, seen, name).value.next
  {
    hide SpanAt, SkipAt;
    SpanIsExact(b, pos, 3, 64);
    key, k := Slice(b, SpanAt(b, pos, 3, 64).value.value), SpanAt(b, pos, 3, 64).value.next;
    HubMeans(key);
    m := if IsHub(key) then SpanAt(b, k, 3, 64).value.next else SkipAt(b, k, 1).value;
  }

  /** Announce data is accepted exactly when it is such a map with at most one "hub". */
  lemma NameAccepts(b: Bytes)
    ensures AnnounceNameSpec(b).Ok? <==> exists es :: AnnounceForm(b, es) && OneHub(es, false)
    ensures |b| > 431 ==> AnnounceNameSpec(b) == Err(Invalid)
  {
    hide ContainerAt, NameEntriesAt, NamedEntries, HeadForm, OneHub;
    if AnnounceNameSpec(b).Ok? {
      var c := ContainerAt(b, 0, 5).value;
      ContainerMeans(b, 0, 5, c.value, c.next);
      var es := ReadNamesStand(b, c.next, c.value, false, NO_SPAN);
      assert b[0..c.next] == b[..c.next] && b[c.next..|b|] == b[c.next..];
      assert AnnounceForm(b, es);
      NamesRead(b, c.next, es, false, NO_SPAN, |b|);
    }
    if es :| AnnounceForm(b, es) && OneHub(es, false) {
      NameSays(b, es);
    }
  }

  /** The name is the text under "hub", empty when there is none; a second one is invalid. */
  lemma NameSays(b: Bytes, es: seq<Named>)
    requires AnnounceForm(b, es)
    ensures var r := AnnounceNameSpec(b);
            && (!OneHub(es, false) ==> r == Err(Invalid))
            && (OneHub(es, false) ==>
                  && r.Ok? && Within(b, r.value)
                  && (forall i :: 0 <= i < |es| && IsHub(es[i].key) ==> StringForm(es[i].value, 3, Slice(b, r.value)))
                  && ((forall i :: 0 <= i < |es| ==> !IsHub(es[i].key)) ==> r.value == NO_SPAN && Slice(b, r.value) == []))
  {
    hide ContainerAt, NameEntriesAt, NamedEntries, HeadForm, OneHub, StringForm, IsHub;
    var k: nat :| k <= |b| && HeadForm(b[..k], 5, |es|) && NamedEntries(b[k..], es);
    assert b[0..k] == b[..k] && b[k..|b|] == b[k..];
    if k == 0 {
      NoHead(b[..0], 5, |es|);
    }
    ContainerMeans(b, 0, 5, |es|, k);
    NamesRead(b, k, es, false, NO_SPAN, |b|);
  }
}
