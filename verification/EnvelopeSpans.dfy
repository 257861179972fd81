/**
 * Where a decoded view points: every span lies inside the packet and fits sixteen bits, every text
 * span is UTF-8 within its limit, and an accepted packet is exactly one CBOR item.
 */
module EnvelopeSpans {
  import opened Bytes
  import opened Cbor
  import opened CborFacts
  import opened Envelope
  import Utf8

  predicate TextWithin(b: Bytes, s: Span, max: nat) {
    Within(b, s) && s.length <= max && Utf8.Valid(Slice(b, s))
  }

  /** `s` is exactly one complete item, as `decode` records a body. */
  predicate OneItem(b: Bytes, s: Span) {
    Within(b, s) && s.length > 0 && SkipAt(b, s.offset, 1) == Ok(s.offset + s.length)
  }

  predicate BodyFits(b: Bytes, body: Span, text: Span, kind: nat) {
    match kind
    case 0 => body == NO_SPAN && text == NO_SPAN
    case 1 => OneItem(b, body) && body.offset < text.offset && text.offset + text.length == body.offset + body.length
    case 2 => OneItem(b, body) && text == NO_SPAN && b[body.offset] / 32 != 3
    case _ => false
  }

  predicate Sound(b: Bytes, v: View) {
    && TextWithin(b, v.room, ROOM_MAX)
    && TextWithin(b, v.nickname, NICKNAME_MAX)
    && TextWithin(b, v.text, MDU)
    && BodyFits(b, v.body, v.text, v.bodyKind)
    && |v.meta.id| == ID_LENGTH && |v.meta.source| == |v.meta.destination| == IDENTITY_LENGTH
  }

  /** Every value is skipped to exactly where its own read stops. */
  lemma ValueSkips(b: Bytes, pos: nat, key: u64)
    requires |b| <= MDU && ValueAt(b, pos, key).Ok?
    ensures SkipAt(b, pos, 1) == Ok(ValueAt(b, pos, key).value.next)
  {
    hide HeadAt;
    if key == 0 || key == 1 || key == 3 {
      UintSkips(b, pos, 1);
    } else if key == 2 || key == 4 || key == 8 {
      SpanSkips(b, pos, 2, if key == 2 then ID_LENGTH else IDENTITY_LENGTH, 1);
    } else if key == 5 || key == 7 {
      OptionalTextSkips(b, pos, if key == 5 then ROOM_MAX else NICKNAME_MAX, 1);
    } else if key == 6 && b[pos] / 32 == 3 {
      SpanSkips(b, pos, 3, MDU, 1);
    }
  }

  lemma OptionalTextIsExact(b: Bytes, pos: nat, max: nat)
    requires |b| <= MDU && OptionalTextAt(b, pos, max).Ok?
    ensures TextWithin(b, OptionalTextAt(b, pos, max).value.value, max)
  {
    hide HeadAt, SpanAt;
    if b[pos] != 0xF6 {
      TextIsWithin(b, pos, max);
    }
  }

  lemma TextIsWithin(b: Bytes, pos: nat, max: nat)
    requires |b| <= MDU && SpanAt(b, pos, 3, max).Ok?
    ensures TextWithin(b, SpanAt(b, pos, 3, max).value.value, max)
  {
    hide HeadAt, SpanAt;
    SpanIsExact(b, pos, 3, max);
  }

  lemma BodyIsExact(b: Bytes, pos: nat, v: View)
    requires |b| <= MDU && ValueAt(b, pos, 6).Ok? && Sound(b, v) && v.bodyKind == 0
    ensures Sound(b, Store(v, 6, ValueAt(b, pos, 6).value.value))
  {
    hide HeadAt, SpanAt, SkipAt, TextWithin, Utf8.Valid;
    ValueSkips(b, pos, 6);
    if b[pos] / 32 == 3 {
      SpanIsExact(b, pos, 3, MDU);
      TextIsWithin(b, pos, MDU);
    }
  }

  lemma StoreIsSound(b: Bytes, pos: nat, key: u64, v: View)
    requires |b| <= MDU && ValueAt(b, pos, key).Ok? && Sound(b, v) && (key == 6 ==> v.bodyKind == 0)
    ensures Sound(b, Store(v, key, ValueAt(b, pos, key).value.value))
  {
    hide HeadAt, UintAt, SpanAt, OptionalTextAt, SkipAt, BodyFits, TextWithin;
    if key == 6 {
      BodyIsExact(b, pos, v);
    } else if key == 5 {
      OptionalTextIsExact(b, pos, ROOM_MAX);
    } else if key == 7 {
      OptionalTextIsExact(b, pos, NICKNAME_MAX);
    }
  }

  lemma {:induction false} EntriesAreSound(b: Bytes, pos: nat, count: nat, p: Progress)
    requires pos <= |b| <= MDU && Sound(b, p.view) && (6 !in p.seen ==> p.view.bodyKind == 0)
    requires EntriesAt(b, pos, count, p).Ok?
    ensures Sound(b, EntriesAt(b, pos, count, p).value.value.view)
    ensures SkipItems(b, pos, 1, 2 * count) == Ok(EntriesAt(b, pos, count, p).value.next)
    decreases count
  {
    hide Sound, ValueAt, UintAt;
    if count > 0 {
      var key := UintAt(b, pos).value;
      var value := ValueAt(b, key.next, key.value).value;
      StoreIsSound(b, key.next, key.value, p.view);
      StoreKeepsBody(p, key.value, b, key.next);
      EntriesAreSound(b, value.next, count - 1, After(p, key.value, value.value));
      UintSkips(b, pos, 1);
      ValueSkips(b, key.next, key.value);
    }
  }

  lemma StoreKeepsBody(p: Progress, key: u64, b: Bytes, pos: nat)
    requires |b| <= MDU && ValueAt(b, pos, key).Ok?
    ensures var after := After(p, key, ValueAt(b, pos, key).value.value);
            && (key != 6 ==> after.view.bodyKind == p.view.bodyKind)
            && (key == 6 ==> 6 in after.seen)
            && (6 in p.seen ==> 6 in after.seen)
            && (key != 6 && 6 !in p.seen ==> 6 !in after.seen)
  {
  }

  lemma EmptyIsSound(b: Bytes)
    ensures Sound(b, EMPTY_VIEW)
  {
    assert Slice(b, NO_SPAN) == [];
  }

  /** The view of an accepted packet points only at what it claims, and the packet is one item. */
  lemma DecodeIsSound(b: Bytes)
    requires DecodeSpec(b).Ok?
    ensures |b| <= MDU && Sound(b, DecodeSpec(b).value)
    ensures SkipAt(b, 0, 0) == Ok(|b|)
  {
    hide Sound, EntriesAt, SkipItems;
    EmptyIsSound(b);
    var head := ContainerAt(b, 0, 5).value;
    EntriesAreSound(b, head.next, head.value, START);
    ContainerSkips(b, 0, 5, 0);
  }
}
