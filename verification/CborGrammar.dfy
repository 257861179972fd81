/**
 * The octets of a data item, told as RFC 8949, section 3 tells them, and the reader against that: what
 * every read accepts, what it reads, and with which error it refuses. The limits are written out.
 */
module CborGrammar {
  import opened Bytes
  import opened Cbor
  import Utf8

  /** A stretch of octets cut in two. */
  lemma Halves(b: Bytes, pos: nat, mid: nat, next: nat)
    requires pos <= mid <= next <= |b|
    ensures b[pos..next][..mid - pos] == b[pos..mid] && b[pos..next][mid - pos..] == b[mid..next]
  {
  }

  // ---- Heads ---------------------------------------------------------------------------------

  /** `h` is a head of major type `major` with argument `n`: in the initial octet, or in 1, 2, 4 or 8 octets behind it. */
  predicate HeadForm(h: Bytes, major: nat, n: nat) {
    || (|h| == 1 && h[0] == 32 * major + n && n <= 23)
    || (|h| == 2 && h[0] == 32 * major + 24 && n == h[1])
    || (|h| == 3 && h[0] == 32 * major + 25 && n == BigEndian(h[1..]))
    || (|h| == 5 && h[0] == 32 * major + 26 && n == BigEndian(h[1..]))
    || (|h| == 9 && h[0] == 32 * major + 27 && n == BigEndian(h[1..]))
  }

  lemma OneOctet(s: Bytes)
    requires |s| == 1
    ensures BigEndian(s) == s[0]
  {
    assert s[..0] == [];
  }

  /** A head is read exactly where one stands, as exactly what it says. */
  lemma HeadMeans(b: Bytes, pos: nat, major: nat, n: u64, next: nat)
    ensures HeadAt(b, pos) == Ok(Read(ItemHead(major, n), next)) <==> pos < next <= |b| && HeadForm(b[pos..next], major, n)
  {
    if pos < |b| {
      var info: nat := b[pos] % 32;
      var end := if info < 24 then pos + 1 else if info < 28 then pos + 1 + ArgumentWidth(info) else pos;
      if pos < next <= |b| {
        assert b[pos..next][0] == b[pos];
        assert b[pos..next][1..] == b[pos + 1..next];
        if |b[pos..next]| == 2 {
          OneOctet(b[pos + 1..next]);
        }
      }
      hide BigEndian;
      assert 24 <= info < 28 && end <= |b| ==> |b[pos + 1..end]| in {1, 2, 4, 8};
    }
  }

  /** No head: nothing left or too few octets behind the first are malformed, the indefinite and reserved forms unsupported. */
  lemma HeadRefuses(b: Bytes, pos: nat)
    ensures HeadAt(b, pos).Err? <==> forall major: nat, n: u64, next: nat :: pos < next <= |b| ==> !HeadForm(b[pos..next], major, n)
    ensures HeadAt(b, pos).Err? ==> HeadAt(b, pos).error == if pos < |b| && b[pos] % 32 >= 28 then Unsupported else Invalid
  {
    hide HeadForm, BigEndian;
    if HeadAt(b, pos).Ok? {
      var h := HeadAt(b, pos).value;
      HeadMeans(b, pos, h.value.major, h.value.argument, h.next);
    } else {
      forall major: nat, n: u64, next: nat | pos < next <= |b| ensures !HeadForm(b[pos..next], major, n) {
        HeadMeans(b, pos, major, n, next);
      }
    }
  }

  // ---- Items ---------------------------------------------------------------------------------

  /** What follows the head of an item that may nest `levels` deep, itself included. */
  ghost predicate RestForm(rest: Bytes, major: nat, n: nat, levels: nat)
    requires levels > 0
    decreases levels, 0, |rest|
  {
    match major
    case 0 => rest == []
    case 1 => rest == []
    case 2 => |rest| == n
    case 3 => |rest| == n && Utf8.Valid(rest)
    case 4 => n <= 64 && ItemsForm(rest, n, levels - 1)
    case 5 => n <= 64 && ItemsForm(rest, 2 * n, levels - 1)
    case 6 => ItemForm(rest, levels - 1)
    case 7 => rest == []
    case _ => false
  }

  /** `o` is one complete data item with at most 64 entries in each container. */
  ghost predicate ItemForm(o: Bytes, levels: nat)
    decreases levels, 1
  {
    levels > 0 && exists k: nat, major: nat, n: u64 :: k <= |o| && ItemCut(o, k, major, n) && RestForm(o[k..], major, n, levels)
  }

  predicate ItemCut(o: Bytes, k: nat, major: nat, n: u64) {
    k <= |o| && HeadForm(o[..k], major, n)
  }

  /** `o` is `count` items one behind the other. */
  ghost predicate ItemsForm(o: Bytes, count: nat, levels: nat)
    decreases levels, 2, count
  {
    if count == 0 then o == []
    else exists k: nat :: k <= |o| && ItemForm(o[..k], levels) && ItemsForm(o[k..], count - 1, levels)
  }

  /** The head that stands at `pos` is the only one. */
  lemma CutIsHead(b: Bytes, pos: nat, end: nat, k: nat, major: nat, n: u64)
    requires pos <= end <= |b|
    ensures ItemCut(b[pos..end], k, major, n) <==> HeadAt(b, pos) == Ok(Read(ItemHead(major, n), pos + k)) && pos + k <= end
  {
    hide HeadAt, HeadForm;
    HeadMeans(b, pos, major, n, pos + k);
    if k <= end - pos {
      assert b[pos..end][..k] == b[pos..pos + k];
    }
    if k == 0 {
      NoHead(b[pos..end][..0], major, n);
    }
  }

  lemma NoHead(h: Bytes, major: nat, n: nat)
    ensures h == [] ==> !HeadForm(h, major, n)
  {
  }

  /** With the head read, an item is what its rest says. */
  lemma ItemByHead(b: Bytes, pos: nat, end: nat, levels: nat)
    requires levels > 0 && pos <= end <= |b|
    ensures ItemForm(b[pos..end], levels) <==>
              && HeadAt(b, pos).Ok? && HeadAt(b, pos).value.next <= end
              && var h := HeadAt(b, pos).value;
                 RestForm(b[h.next..end], h.value.major, h.value.argument, levels)
  {
    hide HeadAt, RestForm, ItemCut;
    var o := b[pos..end];
    if HeadAt(b, pos).Ok? && HeadAt(b, pos).value.next <= end {
      var h := HeadAt(b, pos).value;
      CutIsHead(b, pos, end, h.next - pos, h.value.major, h.value.argument);
      assert o[h.next - pos..] == b[h.next..end];
    }
    if ItemForm(o, levels) {
      var k: nat, major: nat, n: u64 :| k <= |o| && ItemCut(o, k, major, n) && RestForm(o[k..], major, n, levels);
      CutIsHead(b, pos, end, k, major, n);
      assert o[k..] == b[pos + k..end];
    }
  }

  /** An item is skipped exactly where one stands that nests at most to level four. */
  lemma {:induction false} SkipMeans(b: Bytes, pos: nat, depth: nat, end: nat)
    requires depth <= 5
    ensures SkipAt(b, pos, depth) == Ok(end) <==> pos <= end <= |b| && ItemForm(b[pos..end], 5 - depth)
    decreases 5 - depth, 1
  {
    hide HeadAt, RestForm;
    if depth <= 4 && pos <= end <= |b| {
      ItemByHead(b, pos, end, 5 - depth);
      if HeadAt(b, pos).Ok? && HeadAt(b, pos).value.next <= end {
        RestMeans(b, pos, depth, end);
      } else {
        EndsBehindHead(b, pos, depth);
      }
    }
  }

  lemma EndsBehindHead(b: Bytes, pos: nat, depth: nat)
    requires depth <= 4
    ensures SkipAt(b, pos, depth).Ok? ==> HeadAt(b, pos).Ok? && HeadAt(b, pos).value.next <= SkipAt(b, pos, depth).value
  {
    hide HeadAt;
  }

  lemma {:induction false} RestMeans(b: Bytes, pos: nat, depth: nat, end: nat)
    requires depth <= 4 && HeadAt(b, pos).Ok? && HeadAt(b, pos).value.next <= end <= |b|
    ensures var h := HeadAt(b, pos).value;
            SkipAt(b, pos, depth) == Ok(end) <==> RestForm(b[h.next..end], h.value.major, h.value.argument, 5 - depth)
    decreases 5 - depth, 0
  {
    hide HeadAt, ItemForm, ItemsForm, SkipItems;
    var h := HeadAt(b, pos).value;
    if h.value.major == 4 || h.value.major == 5 {
      SkipItemsMean(b, h.next, depth + 1, Items(h.value), end);
    } else if h.value.major == 6 {
      SkipMeans(b, h.next, depth + 1, end);
    }
  }

  lemma {:induction false} SkipItemsMean(b: Bytes, pos: nat, depth: nat, count: nat, end: nat)
    requires pos <= |b| && depth <= 5
    ensures SkipItems(b, pos, depth, count) == Ok(end) <==> pos <= end <= |b| && ItemsForm(b[pos..end], count, 5 - depth)
    decreases 5 - depth, 2, count
  {
    hide SkipAt, ItemForm;
    if count > 0 && pos <= end <= |b| {
      var o := b[pos..end];
      if SkipItems(b, pos, depth, count) == Ok(end) {
        var next := SkipAt(b, pos, depth).value;
        SkipMeans(b, pos, depth, next);
        SkipItemsMean(b, next, depth, count - 1, end);
        var k := next - pos;
        Halves(b, pos, next, end);
      }
      if ItemsForm(o, count, 5 - depth) {
        var k: nat :| k <= |o| && ItemForm(o[..k], 5 - depth) && ItemsForm(o[k..], count - 1, 5 - depth);
        Halves(b, pos, pos + k, end);
        SkipMeans(b, pos, depth, pos + k);
        SkipItemsMean(b, pos + k, depth, count - 1, end);
      }
    }
  }

  /** Why an item is not skipped, looking at the item alone: its nesting, its head, its size, or what it holds. */
  lemma SkipRefuses(b: Bytes, pos: nat, depth: nat)
    ensures depth > 4 ==> SkipAt(b, pos, depth) == Err(Unsupported)
    ensures depth <= 4 && HeadAt(b, pos).Err? ==> SkipAt(b, pos, depth) == Err(HeadAt(b, pos).error)
    ensures depth <= 4 && HeadAt(b, pos).Ok? ==>
              var h := HeadAt(b, pos).value;
              match h.value.major
              case 2 => h.next + h.value.argument > |b| ==> SkipAt(b, pos, depth) == Err(Invalid)
              case 3 => h.next + h.value.argument > |b| || !Utf8.Valid(b[h.next..h.next + h.value.argument]) ==>
                          SkipAt(b, pos, depth) == Err(Invalid)
              case 4 => h.value.argument > 64 ==> SkipAt(b, pos, depth) == Err(Unsupported)
              case 5 => h.value.argument > 64 ==> SkipAt(b, pos, depth) == Err(Unsupported)
              case _ => true
  {
    hide HeadAt, SkipItems, Utf8.Valid;
  }

  /** Of a run of items, the first that is not skipped decides. */
  lemma {:induction false} FirstRefusalDecides(b: Bytes, pos: nat, depth: nat, before: nat, count: nat)
    requires pos <= |b| && before < count && SkipItems(b, pos, depth, before).Ok?
    requires SkipAt(b, SkipItems(b, pos, depth, before).value, depth).Err?
    ensures SkipItems(b, pos, depth, count) == Err(SkipAt(b, SkipItems(b, pos, depth, before).value, depth).error)
    decreases before
  {
    hide SkipAt;
    if before > 0 {
      FirstRefusalDecides(b, SkipAt(b, pos, depth).value, depth, before - 1, count - 1);
    }
  }

  // ---- Typed reads ---------------------------------------------------------------------------

  predicate UintForm(o: Bytes, n: nat) {
    HeadForm(o, 0, n)
  }

  /** A byte string (major type 2) or a text string (3) with this content. */
  ghost predicate StringForm(o: Bytes, major: nat, content: Bytes) {
    && (major == 3 ==> Utf8.Valid(content))
    && exists k: nat :: k <= |o| && HeadForm(o[..k], major, |content|) && o[k..] == content
  }

  lemma UintMeans(b: Bytes, pos: nat, n: u64, next: nat)
    ensures UintAt(b, pos) == Ok(Read(n, next)) <==> pos < next <= |b| && UintForm(b[pos..next], n)
  {
    hide HeadAt, HeadForm;
    HeadMeans(b, pos, 0, n, next);
  }

  lemma ContainerMeans(b: Bytes, pos: nat, wanted: nat, n: nat, next: nat)
    requires n <= 0xFFFF_FFFF
    ensures ContainerAt(b, pos, wanted) == Ok(Read(n, next)) <==> n <= 64 && pos < next <= |b| && HeadForm(b[pos..next], wanted, n)
  {
    hide HeadAt, HeadForm;
    HeadMeans(b, pos, wanted, n, next);
  }

  /** A string is read exactly where one stands, and the span is where its content lies. */
  lemma SpanMeans(b: Bytes, pos: nat, wanted: nat, max: nat, s: Span, next: nat)
    requires |b| <= 431 && (wanted == 2 || wanted == 3)
    ensures SpanAt(b, pos, wanted, max) == Ok(Read(s, next)) <==>
              && pos < next <= |b| && s.length <= max && s.offset + s.length == next && pos <= s.offset
              && HeadForm(b[pos..s.offset], wanted, s.length) && (wanted == 3 ==> Utf8.Valid(b[s.offset..next]))
  {
    hide HeadAt, HeadForm, Utf8.Valid;
    if HeadAt(b, pos).Ok? {
      var h := HeadAt(b, pos).value;
      HeadMeans(b, pos, h.value.major, h.value.argument, h.next);
    }
    if pos <= s.offset <= |b| && s.length <= 431 {
      HeadMeans(b, pos, wanted, s.length, s.offset);
      if s.offset == pos {
        NoHead(b[pos..pos], wanted, s.length);
      }
    }
  }

  /** The error of a typed read: the head's own, or `Invalid` for every other type, size or content. */
  lemma TypedReadsRefuse(b: Bytes, pos: nat, wanted: nat, max: nat)
    requires |b| <= 431
    ensures HeadAt(b, pos).Err? ==>
              && UintAt(b, pos) == Err(HeadAt(b, pos).error) && ContainerAt(b, pos, wanted) == Err(HeadAt(b, pos).error)
              && SpanAt(b, pos, wanted, max) == Err(HeadAt(b, pos).error) && FixedAt(b, pos, max) == Err(HeadAt(b, pos).error)
    ensures HeadAt(b, pos).Ok? ==>
              && (UintAt(b, pos).Err? ==> UintAt(b, pos).error == Invalid)
              && (ContainerAt(b, pos, wanted).Err? ==> ContainerAt(b, pos, wanted).error == Invalid)
              && (SpanAt(b, pos, wanted, max).Err? ==> SpanAt(b, pos, wanted, max).error == Invalid)
              && (FixedAt(b, pos, max).Err? ==> FixedAt(b, pos, max).error == Invalid)
  {
    hide HeadAt, Utf8.Valid;
  }
}
