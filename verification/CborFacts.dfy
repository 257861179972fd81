/**
 * Agreement of the typed reads with `SkipAt`: every typed read stops exactly where skipping the
 * same item stops, at any nesting level, and a complete item reads the same wherever it is copied.
 */
module CborFacts {
  import opened Bytes
  import opened Cbor
  import Utf8

  /** An item that can be skipped at one level ends at the same place at every shallower level. */
  lemma {:induction false} SkipShallower(b: Bytes, pos: nat, depth: nat, shallower: nat)
    requires shallower <= depth && SkipAt(b, pos, depth).Ok?
    ensures SkipAt(b, pos, shallower) == SkipAt(b, pos, depth)
    decreases Levels(depth), 0
  {
    var h := HeadAt(b, pos).value;
    if h.value.major == 4 || h.value.major == 5 {
      SkipItemsShallower(b, h.next, depth + 1, shallower + 1, Items(h.value));
    } else if h.value.major == 6 {
      SkipShallower(b, h.next, depth + 1, shallower + 1);
    }
  }

  lemma {:induction false} SkipItemsShallower(b: Bytes, pos: nat, depth: nat, shallower: nat, count: nat)
    requires pos <= |b| && shallower <= depth && SkipItems(b, pos, depth, count).Ok?
    ensures SkipItems(b, pos, shallower, count) == SkipItems(b, pos, depth, count)
    decreases Levels(depth), 1, count
  {
    if count > 0 {
      SkipShallower(b, pos, depth, shallower);
      SkipItemsShallower(b, SkipAt(b, pos, depth).value, depth, shallower, count - 1);
    }
  }

  lemma UintSkips(b: Bytes, pos: nat, depth: nat)
    requires depth <= MAX_DEPTH && UintAt(b, pos).Ok?
    ensures SkipAt(b, pos, depth) == Ok(UintAt(b, pos).value.next)
  {
  }

  lemma SpanSkips(b: Bytes, pos: nat, wanted: nat, max: nat, depth: nat)
    requires depth <= MAX_DEPTH && (wanted == 2 || wanted == 3) && SpanAt(b, pos, wanted, max).Ok?
    ensures SkipAt(b, pos, depth) == Ok(SpanAt(b, pos, wanted, max).value.next)
  {
  }

  lemma OptionalTextSkips(b: Bytes, pos: nat, max: nat, depth: nat)
    requires depth <= MAX_DEPTH && OptionalTextAt(b, pos, max).Ok?
    ensures SkipAt(b, pos, depth) == Ok(OptionalTextAt(b, pos, max).value.next)
  {
  }

  /** false, true and null are one octet each. */
  lemma SimpleSkips(b: Bytes, pos: nat, depth: nat)
    requires depth <= MAX_DEPTH && pos < |b| && b[pos] in {0xF4, 0xF5, 0xF6}
    ensures SkipAt(b, pos, depth) == Ok(pos + 1)
  {
  }

  lemma ContainerSkips(b: Bytes, pos: nat, wanted: nat, depth: nat)
    requires depth <= MAX_DEPTH && (wanted == 4 || wanted == 5) && ContainerAt(b, pos, wanted).Ok?
    ensures var c := ContainerAt(b, pos, wanted).value;
            SkipAt(b, pos, depth) == SkipItems(b, c.next, depth + 1, if wanted == 5 then 2 * c.value else c.value)
  {
  }

  /** What a span read returned, when the packet is small enough for sixteen-bit offsets. */
  lemma SpanIsExact(b: Bytes, pos: nat, wanted: nat, max: nat)
    requires |b| <= MDU && SpanAt(b, pos, wanted, max).Ok?
    ensures var s := SpanAt(b, pos, wanted, max).value;
            && pos < s.value.offset && s.value.offset + s.value.length == s.next <= |b|
            && s.value.length <= max
            && (wanted == 3 ==> Utf8.Valid(Slice(b, s.value)))
  {
    hide HeadAt;
  }

  lemma EmbeddedSlice(b: Bytes, c: Bytes, k: nat, lo: nat, hi: nat)
    requires At(c, k, b) && lo <= hi <= |b|
    ensures k + hi <= |c| && c[k + lo..k + hi] == b[lo..hi]
  {
    var copy := c[k..k + |b|];
    assert copy[lo..hi] == b[lo..hi];
    assert forall i :: lo <= i < hi ==> copy[i] == c[k + i];
    assert c[k + lo..k + hi] == copy[lo..hi];
  }

  lemma HeadRelocates(b: Bytes, pos: nat, c: Bytes, k: nat)
    requires At(c, k, b) && HeadAt(b, pos).Ok?
    ensures var h := HeadAt(b, pos).value; HeadAt(c, k + pos) == Ok(Read(h.value, k + h.next))
  {
    EmbeddedSlice(b, c, k, pos, pos + 1);
    assert c[k + pos] == b[pos];
    EmbeddedSlice(b, c, k, pos + 1, HeadAt(b, pos).value.next);
  }

  /** An item inside `b` is skipped with the same length when all of `b` is copied to `k` inside `c`. */
  lemma {:induction false} SkipRelocates(b: Bytes, pos: nat, depth: nat, c: Bytes, k: nat)
    requires At(c, k, b) && SkipAt(b, pos, depth).Ok?
    ensures SkipAt(c, k + pos, depth) == Ok(k + SkipAt(b, pos, depth).value)
    decreases Levels(depth), 0
  {
    hide HeadAt, At;
    var h := HeadAt(b, pos).value;
    HeadRelocates(b, pos, c, k);
    if h.value.major == 4 || h.value.major == 5 {
      SkipItemsRelocate(b, h.next, depth + 1, Items(h.value), c, k);
    } else if h.value.major == 6 {
      SkipRelocates(b, h.next, depth + 1, c, k);
    } else if h.value.major == 2 || h.value.major == 3 {
      EmbeddedSlice(b, c, k, h.next, h.next + h.value.argument);
    }
  }

  lemma {:induction false} SkipItemsRelocate(b: Bytes, pos: nat, depth: nat, count: nat, c: Bytes, k: nat)
    requires pos <= |b| && At(c, k, b) && SkipItems(b, pos, depth, count).Ok?
    ensures SkipItems(c, k + pos, depth, count) == Ok(k + SkipItems(b, pos, depth, count).value)
    decreases Levels(depth), 1, count
  {
    hide SkipAt, At;
    EmbeddedSlice(b, c, k, 0, pos);
    if count > 0 {
      SkipRelocates(b, pos, depth, c, k);
      SkipItemsRelocate(b, SkipAt(b, pos, depth).value, depth, count - 1, c, k);
    }
  }

  /** Skipping two runs of items one after the other is skipping the joined run. */
  lemma {:induction false} SkipItemsJoin(b: Bytes, pos: nat, depth: nat, first: nat, second: nat)
    requires pos <= |b| && SkipItems(b, pos, depth, first).Ok?
    ensures SkipItems(b, pos, depth, first + second)
         == SkipItems(b, SkipItems(b, pos, depth, first).value, depth, second)
    decreases first
  {
    if first > 0 {
      SkipItemsJoin(b, SkipAt(b, pos, depth).value, depth, first - 1, second);
    }
  }
}
