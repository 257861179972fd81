/** The bounded CBOR reader: what each read means at a position, and the reader that performs it. */
module Cbor {
  import opened Bytes
  import Utf8

  const MAX_DEPTH: nat := 4
  const MAX_ENTRIES: nat := 64

  /** A value read, and where the read stopped. */
  datatype Read<+T> = Read(value: T, next: nat)

  datatype ItemHead = ItemHead(major: nat, argument: u64)

  /** Offset and length inside the packet, as the caller receives them. */
  datatype Span = Span(offset: nat, length: nat)

  const NO_SPAN := Span(0, 0)

  /** The bytes a span names. */
  function Slice(b: Bytes, s: Span): Bytes
    requires s.offset + s.length <= |b|
  {
    b[s.offset..s.offset + s.length]
  }

  predicate Within(b: Bytes, s: Span) {
    s.offset + s.length <= |b|
  }

  /** Number of argument octets that follow additional information 24 to 27. */
  function ArgumentWidth(info: nat): nat
    requires 24 <= info <= 27
  {
    if info == 24 then 1 else if info == 25 then 2 else if info == 26 then 4 else 8
  }

  function HeadAt(b: Bytes, pos: nat): (r: Result<Read<ItemHead>>)
    ensures r.Ok? ==> pos < r.value.next <= |b| && r.value.value.major < 8
  {
    if pos >= |b| then Err(Invalid)
    else
      var major: nat, info: nat := b[pos] / 32, b[pos] % 32;
      if info <= 23 then Ok(Read(ItemHead(major, info), pos + 1))
      else if info <= 27 then
        var end := pos + 1 + ArgumentWidth(info);
        if end > |b| then Err(Invalid)
        else
          WidthValues();
          Ok(Read(ItemHead(major, BigEndian(b[pos + 1..end])), end))
      else Err(Unsupported)
  }

  function UintAt(b: Bytes, pos: nat): (r: Result<Read<u64>>)
    ensures r.Ok? ==> pos < r.value.next <= |b|
  {
    var h :- HeadAt(b, pos);
    if h.value.major != 0 then Err(Invalid) else Ok(Read(h.value.argument, h.next))
  }

  function ContainerAt(b: Bytes, pos: nat, wanted: nat): (r: Result<Read<nat>>)
    ensures r.Ok? ==> pos < r.value.next <= |b| && r.value.value <= MAX_ENTRIES
  {
    var h :- HeadAt(b, pos);
    if h.value.major != wanted || h.value.argument > MAX_ENTRIES then Err(Invalid)
    else Ok(Read(h.value.argument, h.next))
  }

  function SpanAt(b: Bytes, pos: nat, wanted: nat, max: nat): (r: Result<Read<Span>>)
    ensures r.Ok? ==> pos < r.value.next <= |b|
  {
    var h :- HeadAt(b, pos);
    var end := h.next + h.value.argument;
    if h.value.major != wanted || h.value.argument > max || end > |b| then Err(Invalid)
    else if wanted == 3 && !Utf8.Valid(b[h.next..end]) then Err(Invalid)
    else Ok(Read(Span(Low16(h.next), Low16(h.value.argument)), end))
  }

  /** A byte string of exactly `n` octets. */
  function FixedAt(b: Bytes, pos: nat, n: nat): (r: Result<Read<Bytes>>)
    requires |b| <= MDU
    ensures r.Ok? ==> pos < r.value.next <= |b| && |r.value.value| == n
  {
    var s :- SpanAt(b, pos, 2, n);
    if s.value.length != n then Err(Invalid) else Ok(Read(Slice(b, s.value), s.next))
  }

  /** A text string, or null for an absent one. */
  function OptionalTextAt(b: Bytes, pos: nat, max: nat): (r: Result<Read<Span>>)
    ensures r.Ok? ==> pos < r.value.next <= |b|
  {
    if pos < |b| && b[pos] == 0xF6 then Ok(Read(NO_SPAN, pos + 1)) else SpanAt(b, pos, 3, max)
  }

  function Levels(depth: nat): nat {
    if depth > MAX_DEPTH then 0 else MAX_DEPTH + 1 - depth
  }

  /** How many items a container head announces. */
  function Items(h: ItemHead): nat {
    if h.major == 5 then h.argument * 2 else h.argument
  }

  /** The end of the complete item at `pos`, read at nesting level `depth`. */
  function SkipAt(b: Bytes, pos: nat, depth: nat): (r: Result<nat>)
    ensures r.Ok? ==> pos < r.value <= |b|
    decreases Levels(depth), 0
  {
    if depth > MAX_DEPTH then Err(Unsupported)
    else
      var h :- HeadAt(b, pos);
      var major, n := h.value.major, h.value.argument;
      if major == 2 || major == 3 then
        if h.next + n > |b| || (major == 3 && !Utf8.Valid(b[h.next..h.next + n])) then Err(Invalid)
        else Ok(h.next + n)
      else if major == 4 || major == 5 then
        if n > MAX_ENTRIES then Err(Unsupported) else SkipItems(b, h.next, depth + 1, Items(h.value))
      else if major == 6 then SkipAt(b, h.next, depth + 1)
      else Ok(h.next)
  }

  /** The end of `count` consecutive items. */
  function SkipItems(b: Bytes, pos: nat, depth: nat, count: nat): (r: Result<nat>)
    requires pos <= |b|
    ensures r.Ok? ==> pos <= r.value <= |b|
    decreases Levels(depth), 1, count
  {
    if count == 0 then Ok(pos)
    else
      var next :- SkipAt(b, pos, depth);
      SkipItems(b, next, depth, count - 1)
  }

  /** A read of which only the end matters. */
  function Ending(end: Result<nat>): Result<Read<()>> {
    match end
    case Ok(next) => Ok(Read((), next))
    case Err(e) => Err(e)
  }

  /**
   * A packet and a position in it. `heads` counts the heads read so far. A failed
   * read is always passed on and its reader dropped, so only a successful read says where it stops.
   */
  class Reader {
    const bytes: Bytes
    var pos: nat
    ghost var heads: nat

    ghost predicate Valid()
      reads this
    {
      pos <= |bytes| <= MDU && heads <= pos
    }

    /** What a read owes its caller: the value and end `spec` gives, and no head beyond one per octet but the last. */
    ghost predicate Follows<T>(r: Result<T>, spec: Result<Read<T>>)
      reads this
    {
      && pos <= |bytes|
      && match spec
         case Ok(read) => r == Ok(read.value) && pos == read.next && heads <= pos
         case Err(e) => r == Err(e) && heads <= |bytes| + 1
    }

    constructor (bytes: Bytes, pos: nat)
      requires pos <= |bytes| <= MDU
      ensures this.bytes == bytes && this.pos == pos && heads == 0 && Valid()
    {
      this.bytes := bytes;
      this.pos := pos;
      heads := 0;
    }

    method Take(n: nat) returns (r: Result<Bytes>)
      requires pos <= |bytes|
      modifies this
      ensures heads == old(heads)
      ensures r == if old(pos) + n > |bytes| then Err(Invalid) else Ok(bytes[old(pos)..old(pos) + n])
      ensures pos == if r.Ok? then old(pos) + n else old(pos)
    {
      var end := pos + n;
      if end > |bytes| {
        return Err(Invalid);
      }
      r := Ok(bytes[pos..end]);
      pos := end;
    }

    method Head() returns (r: Result<ItemHead>)
      requires Valid()
      modifies this
      ensures Follows(r, HeadAt(bytes, old(pos)))
    {
      ghost var start := pos;
      heads := heads + 1;
      var first :- Take(1);
      var byte := first[0];
      var info: nat := byte % 32;
      var n: u64 := 0;
      if info <= 23 {
        n := info;
      } else if info <= 27 {
        var data :- Take(ArgumentWidth(info));
        WidthValues();
        var value: nat := 0;
        for i := 0 to |data|
          invariant value == BigEndian(data[..i])
        {
          assert data[..i + 1][..i] == data[..i];
          value := value * 256 + data[i];
        }
        assert data[..|data|] == data;
        n := value;
      } else {
        return Err(Unsupported);
      }
      assert bytes[start] == byte;
      return Ok(ItemHead(byte / 32, n));
    }

    method Uint() returns (r: Result<u64>)
      requires Valid()
      modifies this
      ensures Follows(r, UintAt(bytes, old(pos)))
    {
      var h :- Head();
      if h.major != 0 {
        return Err(Invalid);
      }
      return Ok(h.argument);
    }

    method Container(wanted: nat) returns (r: Result<nat>)
      requires Valid()
      modifies this
      ensures Follows(r, ContainerAt(bytes, old(pos), wanted))
    {
      var h :- Head();
      if h.major != wanted || h.argument > MAX_ENTRIES {
        return Err(Invalid);
      }
      return Ok(h.argument);
    }

    method TakeSpan(wanted: nat, max: nat) returns (r: Result<Span>)
      requires Valid()
      modifies this
      ensures Follows(r, SpanAt(bytes, old(pos), wanted, max))
    {
      var h :- Head();
      if h.major != wanted || h.argument > max {
        return Err(Invalid);
      }
      var span := Span(Low16(pos), Low16(h.argument));
      var data :- Take(h.argument);
      if h.major == 3 && !Utf8.Valid(data) {
        return Err(Invalid);
      }
      return Ok(span);
    }

    method Fixed(n: nat) returns (r: Result<Bytes>)
      requires Valid()
      modifies this
      ensures Follows(r, FixedAt(bytes, old(pos), n))
    {
      var span :- TakeSpan(2, n);
      if span.length != n {
        return Err(Invalid);
      }
      return Ok(bytes[span.offset..span.offset + n]);
    }

    method OptionalText(max: nat) returns (r: Result<Span>)
      requires Valid()
      modifies this
      ensures Follows(r, OptionalTextAt(bytes, old(pos), max))
    {
      if pos < |bytes| && bytes[pos] == 0xF6 {
        pos := pos + 1;
        return Ok(NO_SPAN);
      }
      r := TakeSpan(3, max);
    }

    method Skip(depth: nat) returns (r: Result<()>)
      requires Valid()
      modifies this
      ensures Follows(r, Ending(SkipAt(bytes, old(pos), depth)))
      decreases Levels(depth), 0
    {
      if depth > MAX_DEPTH {
        return Err(Unsupported);
      }
      var h :- Head();
      if h.major == 2 || h.major == 3 {
        var data :- Take(h.argument);
        if h.major == 3 && !Utf8.Valid(data) {
          return Err(Invalid);
        }
      } else if h.major == 4 || h.major == 5 {
        if h.argument > MAX_ENTRIES {
          return Err(Unsupported);
        }
        var _ :- SkipSome(depth + 1, h.argument * if h.major == 5 then 2 else 1);
      } else if h.major == 6 {
        var _ :- Skip(depth + 1);
      }
      return Ok(());
    }

    method SkipSome(depth: nat, count: nat) returns (r: Result<()>)
      requires Valid()
      modifies this
      ensures Follows(r, Ending(SkipItems(bytes, old(pos), depth, count)))
      decreases Levels(depth), 1
    {
      ghost var first := pos;
      for i := 0 to count
        invariant Valid()
        invariant SkipItems(bytes, first, depth, count) == SkipItems(bytes, pos, depth, count - i)
      {
        var _ :- Skip(depth);
      }
      return Ok(());
    }
  }
}
