/**
 * The readers that go back into a packet `decode` has accepted (WELCOME fields, the JOINED/PARTED
 * roster) and the announce-name reader. They use other typed reads than `decode` did, over the whole
 * packet; they are shown to stop exactly at the end of the body span and to point only inside it.
 */
module Replies {
  import opened Bytes
  import opened Cbor
  import opened CborFacts
  import opened Envelope
  import opened EnvelopeSpans

  const WELCOME_KIND: u64 := 2
  const JOINED_KIND: u64 := 11
  const PARTED_KIND: u64 := 13
  const LABEL_MAX: nat := 64
  const LIMIT_COUNT: nat := 5
  const CAPABILITY_COUNT: nat := 4
  const U32_MAX: nat := 0xFFFF_FFFF

  datatype Welcome = Welcome(name: Span, version: Span, limits: seq<nat>, limitsPresent: set<nat>, capabilities: set<nat>)

  const NO_WELCOME := Welcome(NO_SPAN, NO_SPAN, [0, 0, 0, 0, 0], {}, {})

  /** One field of the capabilities map (key 2) or of the limits map (key 3). */
  function WelcomeFieldAt(b: Bytes, pos: nat, key: u64, field: u64, w: Welcome): (r: Result<Read<Welcome>>)
    requires |w.limits| == LIMIT_COUNT
    ensures r.Ok? ==> pos < r.value.next <= |b| && |r.value.value.limits| == LIMIT_COUNT
  {
    if key == 2 && field < CAPABILITY_COUNT then
      if pos >= |b| then Err(Invalid)
      else if b[pos] == 0xF5 then Ok(Read(w.(capabilities := w.capabilities + {field}), pos + 1))
      else if b[pos] != 0xF4 then Err(Invalid)
      else Ok(Read(w, pos + 1))
    else if key == 3 && field < LIMIT_COUNT then
      var n :- UintAt(b, pos);
      Ok(Read(w.(limits := w.limits[field := if n.value < U32_MAX then n.value else U32_MAX],
                 limitsPresent := w.limitsPresent + {field}), n.next))
    else
      var end :- SkipAt(b, pos, 2);
      Ok(Read(w, end))
  }

  function WelcomeFieldsAt(b: Bytes, pos: nat, key: u64, count: nat, fields: set<u64>, w: Welcome): (r: Result<Read<Welcome>>)
    requires pos <= |b| && |w.limits| == LIMIT_COUNT
    ensures r.Ok? ==> pos <= r.value.next <= |b| && |r.value.value.limits| == LIMIT_COUNT
    decreases count
  {
    if count == 0 then Ok(Read(w, pos))
    else
      var field :- UintAt(b, pos);
      if field.value <= 4 && field.value in fields then Err(Invalid)
      else
        var now :- WelcomeFieldAt(b, field.next, key, field.value, w);
        WelcomeFieldsAt(b, now.next, key, count - 1, Seen(fields, field.value, 4), now.value)
  }

  function Seen(keys: set<u64>, key: u64, last: nat): set<u64> {
    if key <= last then keys + {key} else keys
  }

  function WelcomeValueAt(b: Bytes, pos: nat, key: u64, w: Welcome): (r: Result<Read<Welcome>>)
    requires |w.limits| == LIMIT_COUNT
    ensures r.Ok? ==> pos < r.value.next <= |b| && |r.value.value.limits| == LIMIT_COUNT
  {
    if key == 0 then
      var s :- OptionalTextAt(b, pos, LABEL_MAX);
      Ok(Read(w.(name := s.value), s.next))
    else if key == 1 then
      var s :- OptionalTextAt(b, pos, LABEL_MAX);
      Ok(Read(w.(version := s.value), s.next))
    else if key == 2 || key == 3 then
      var c :- ContainerAt(b, pos, 5);
      WelcomeFieldsAt(b, c.next, key, c.value, {}, w)
    else
      var end :- SkipAt(b, pos, 1);
      Ok(Read(w, end))
  }

  function WelcomeEntriesAt(b: Bytes, pos: nat, count: nat, seen: set<u64>, w: Welcome): (r: Result<Read<Welcome>>)
    requires pos <= |b| && |w.limits| == LIMIT_COUNT
    ensures r.Ok? ==> pos <= r.value.next <= |b|
    decreases count
  {
    if count == 0 then Ok(Read(w, pos))
    else
      var key :- UintAt(b, pos);
      if key.value <= 3 && key.value in seen then Err(Invalid)
      else
        var now :- WelcomeValueAt(b, key.next, key.value, w);
        WelcomeEntriesAt(b, now.next, count - 1, Seen(seen, key.value, 3), now.value)
  }

  /** The whole read, with the place where it stops. */
  function WelcomeAt(b: Bytes): Result<Read<Welcome>> {
    var view :- DecodeSpec(b);
    if view.meta.kind != WELCOME_KIND || view.body.length == 0 then Err(Invalid)
    else
      var count :- ContainerAt(b, view.body.offset, 5);
      WelcomeEntriesAt(b, count.next, count.value, {}, NO_WELCOME)
  }

  function WelcomeSpec(b: Bytes): Result<Welcome> {
    var w :- WelcomeAt(b);
    Ok(w.value)
  }

  method ReadWelcomeFields(reader: Reader, key: u64, count: nat, before: Welcome) returns (r: Result<Welcome>)
    requires reader.Valid() && (key == 2 || key == 3) && |before.limits| == LIMIT_COUNT
    modifies reader
    ensures reader.Follows(r, WelcomeFieldsAt(reader.bytes, old(reader.pos), key, count, {}, before))
  {
    hide UintAt, WelcomeFieldAt;
    var w := before;
    var fields: set<u64> := {};
    ghost var first := reader.pos;
    for n := 0 to count
      invariant reader.Valid() && |w.limits| == LIMIT_COUNT
      invariant WelcomeFieldsAt(reader.bytes, first, key, count, {}, before)
             == WelcomeFieldsAt(reader.bytes, reader.pos, key, count - n, fields, w)
    {
      var field :- reader.Uint();
      if field <= 4 {
        if field in fields {
          return Err(Invalid);
        }
        fields := fields + {field};
      }
      w :- ReadWelcomeField(reader, key, field, w);
    }
    return Ok(w);
  }

  method ReadWelcomeField(reader: Reader, key: u64, field: u64, before: Welcome) returns (r: Result<Welcome>)
    requires reader.Valid() && |before.limits| == LIMIT_COUNT
    modifies reader
    ensures reader.Follows(r, WelcomeFieldAt(reader.bytes, old(reader.pos), key, field, before))
  {
    var w := before;
    if key == 2 && field < CAPABILITY_COUNT {
      var value :- reader.Take(1);
      if value[0] == 0xF5 {
        w := w.(capabilities := w.capabilities + {field});
      } else if value[0] != 0xF4 {
        return Err(Invalid);
      }
    } else if key == 3 && field < LIMIT_COUNT {
      var limit :- reader.Uint();
      w := w.(limits := w.limits[field := if limit < U32_MAX then limit else U32_MAX],
              limitsPresent := w.limitsPresent + {field});
    } else {
      var _ :- reader.Skip(2);
    }
    return Ok(w);
  }

  method ReadWelcomeValue(reader: Reader, key: u64, before: Welcome) returns (r: Result<Welcome>)
    requires reader.Valid() && |before.limits| == LIMIT_COUNT
    modifies reader
    ensures reader.Follows(r, WelcomeValueAt(reader.bytes, old(reader.pos), key, before))
  {
    match key {
      case 0 =>
        var s :- reader.OptionalText(LABEL_MAX);
        return Ok(before.(name := s));
      case 1 =>
        var s :- reader.OptionalText(LABEL_MAX);
        return Ok(before.(version := s));
      case _ =>
        if key == 2 || key == 3 {
          var count :- reader.Container(5);
          r := ReadWelcomeFields(reader, key, count, before);
        } else {
          var _ :- reader.Skip(1);
          return Ok(before);
        }
    }
  }

  method ReadWelcomeEntries(reader: Reader, count: nat) returns (r: Result<Welcome>)
    requires reader.Valid()
    modifies reader
    ensures reader.Follows(r, WelcomeEntriesAt(reader.bytes, old(reader.pos), count, {}, NO_WELCOME))
  {
    hide UintAt, WelcomeValueAt;
    var w := NO_WELCOME;
    var seen: set<u64> := {};
    ghost var first := reader.pos;
    for n := 0 to count
      invariant reader.Valid() && |w.limits| == LIMIT_COUNT
      invariant WelcomeEntriesAt(reader.bytes, first, count, {}, NO_WELCOME)
             == WelcomeEntriesAt(reader.bytes, reader.pos, count - n, seen, w)
    {
      var key :- reader.Uint();
      if key <= 3 {
        if key in seen {
          return Err(Invalid);
        }
        seen := seen + {key};
      }
      w :- ReadWelcomeValue(reader, key, w);
    }
    return Ok(w);
  }

  method ReadWelcome(bytes: Bytes) returns (r: Result<Welcome>)
    ensures r == WelcomeSpec(bytes)
  {
    hide DecodeSpec, ContainerAt, WelcomeEntriesAt, SkipAt;
    var decoded, _ := Decode(bytes);
    var view :- decoded;
    if view.meta.kind != WELCOME_KIND || view.body.length == 0 {
      return Err(Invalid);
    }
    DecodeIsSound(bytes);
    var reader := new Reader(bytes, view.body.offset);
    var count :- reader.Container(5);
    r := ReadWelcomeEntries(reader, count);
  }

  /** The entry point of the WELCOME reader. */
  method WelcomePacket(bytes: Bytes) returns (status: Status, out: Option<Welcome>)
    ensures if |bytes| > 431 then status == ErrInvalidArg && out == None
            else
              match WelcomeSpec(bytes)
              case Ok(w) => status == StatusOk && out == Some(w)
              case Err(e) => status == StatusOf(e) && out == None
  {
    hide WelcomeSpec;
    if |bytes| > MDU {
      return ErrInvalidArg, None;
    }
    var read := ReadWelcome(bytes);
    if read.Err? {
      return StatusOf(read.error), None;
    }
    return StatusOk, Some(read.value);
  }

  // ---- Agreement with the body span ----------------------------------------------------------

  /** Nothing, or UTF-8 text that lies between `lo` and `hi`. */
  predicate Inside(b: Bytes, s: Span, lo: nat, hi: nat) {
    s == NO_SPAN || (lo <= s.offset && s.offset + s.length <= hi && TextWithin(b, s, LABEL_MAX))
  }

  lemma {:induction false} WelcomeFieldsEnd(b: Bytes, pos: nat, key: u64, count: nat, fields: set<u64>, w: Welcome)
    requires pos <= |b| && |w.limits| == LIMIT_COUNT
    requires SkipItems(b, pos, 3, 2 * count).Ok? && WelcomeFieldsAt(b, pos, key, count, fields, w).Ok?
    ensures var end := WelcomeFieldsAt(b, pos, key, count, fields, w).value;
            && SkipItems(b, pos, 3, 2 * count) == Ok(end.next)
            && end.value.name == w.name && end.value.version == w.version
    decreases count
  {
    hide SkipAt, UintAt;
    if count > 0 {
      UintSkips(b, pos, 3);
      var field := UintAt(b, pos).value;
      if key == 3 && field.value < LIMIT_COUNT {
        UintSkips(b, field.next, 3);
      } else if key == 2 && field.value < CAPABILITY_COUNT {
        SimpleSkips(b, field.next, 3);
      } else {
        SkipShallower(b, field.next, 3, 2);
      }
      var now := WelcomeFieldAt(b, field.next, key, field.value, w).value;
      WelcomeFieldsEnd(b, now.next, key, count - 1, Seen(fields, field.value, 4), now.value);
    }
  }

  lemma WelcomeValueEnds(b: Bytes, pos: nat, key: u64, w: Welcome)
    requires |b| <= MDU && |w.limits| == LIMIT_COUNT
    requires SkipAt(b, pos, 2).Ok? && WelcomeValueAt(b, pos, key, w).Ok?
    ensures var end := WelcomeValueAt(b, pos, key, w).value;
            && SkipAt(b, pos, 2) == Ok(end.next)
            && (end.value.name == w.name || Inside(b, end.value.name, pos, end.next))
            && (end.value.version == w.version || Inside(b, end.value.version, pos, end.next))
  {
    hide SkipAt, SkipItems, HeadAt, SpanAt, TextWithin;
    if key <= 1 {
      OptionalTextSkips(b, pos, LABEL_MAX, 2);
      OptionalTextIsExact(b, pos, LABEL_MAX);
      if b[pos] != 0xF6 {
        SpanIsExact(b, pos, 3, LABEL_MAX);
      }
    } else if key == 2 || key == 3 {
      ContainerSkips(b, pos, 5, 2);
      var c := ContainerAt(b, pos, 5).value;
      WelcomeFieldsEnd(b, c.next, key, c.value, {}, w);
    } else {
      SkipShallower(b, pos, 2, 1);
    }
  }

  lemma {:induction false} WelcomeEntriesEnd(b: Bytes, pos: nat, count: nat, seen: set<u64>, w: Welcome, lo: nat)
    requires lo <= pos <= |b| <= MDU && |w.limits| == LIMIT_COUNT
    requires SkipItems(b, pos, 2, 2 * count).Ok? && WelcomeEntriesAt(b, pos, count, seen, w).Ok?
    requires Inside(b, w.name, lo, pos) && Inside(b, w.version, lo, pos)
    ensures var end := WelcomeEntriesAt(b, pos, count, seen, w).value;
            && SkipItems(b, pos, 2, 2 * count) == Ok(end.next)
            && Inside(b, end.value.name, lo, end.next) && Inside(b, end.value.version, lo, end.next)
    decreases count
  {
    hide SkipAt, UintAt, WelcomeValueAt, TextWithin;
    if count > 0 {
      UintSkips(b, pos, 2);
      var key := UintAt(b, pos).value;
      WelcomeValueEnds(b, key.next, key.value, w);
      var now := WelcomeValueAt(b, key.next, key.value, w).value;
      WelcomeEntriesEnd(b, now.next, count - 1, Seen(seen, key.value, 3), now.value, lo);
    }
  }

  /** The WELCOME reader stops exactly at the end of the body and returns only text inside it. */
  lemma WelcomeStaysInBody(b: Bytes)
    requires WelcomeAt(b).Ok?
    ensures var body := DecodeSpec(b).value.body;
            var w := WelcomeAt(b).value;
            && w.next == body.offset + body.length
            && Inside(b, w.value.name, body.offset, w.next)
            && Inside(b, w.value.version, body.offset, w.next)
  {
    hide DecodeSpec, SkipAt, ContainerAt, SkipItems, WelcomeEntriesAt;
    DecodeIsSound(b);
    var body := DecodeSpec(b).value.body;
    ContainerSkips(b, body.offset, 5, 1);
    var count := ContainerAt(b, body.offset, 5).value;
    WelcomeEntriesEnd(b, count.next, count.value, {}, NO_WELCOME, body.offset);
  }

  // ---- The roster ----------------------------------------------------------------------------

  function MembersAt(b: Bytes, pos: nat, count: nat): (r: Result<Read<seq<Bytes>>>)
    requires pos <= |b| <= MDU
    ensures r.Ok? ==> pos <= r.value.next <= |b| && |r.value.value| == count
    ensures r.Ok? ==> forall m :: m in r.value.value ==> |m| == IDENTITY_LENGTH
    decreases count
  {
    if count == 0 then Ok(Read([], pos))
    else
      var first :- FixedAt(b, pos, IDENTITY_LENGTH);
      var rest :- MembersAt(b, first.next, count - 1);
      Ok(Read([first.value] + rest.value, rest.next))
  }

  /** All members of a JOINED or PARTED roster, and where its reader stops. */
  function RosterAt(b: Bytes): (r: Result<Read<seq<Bytes>>>) {
    var view :- DecodeSpec(b);
    if view.meta.kind != JOINED_KIND && view.meta.kind != PARTED_KIND then Err(Invalid)
    else if view.body.length == 0
         || (view.body.length == 1 && view.body.offset < |b| && b[view.body.offset] == 0xF6) then
      Ok(Read([], view.body.offset + view.body.length))
    else
      var count :- ContainerAt(b, view.body.offset, 4);
      MembersAt(b, count.next, count.value)
  }

  /** How many members there are, and the one asked for (zeros when there is none at `index`). */
  method ReadMember(bytes: Bytes, index: nat) returns (r: Result<(nat, Bytes)>)
    ensures match RosterAt(bytes)
            case Ok(roster) =>
              r == Ok((|roster.value|, if index < |roster.value| then roster.value[index] else Zeros(IDENTITY_LENGTH)))
            case Err(e) => r == Err(e)
  {
    hide DecodeSpec, ContainerAt, SkipAt;
    var decoded, _ := Decode(bytes);
    var view :- decoded;
    if view.meta.kind != JOINED_KIND && view.meta.kind != PARTED_KIND {
      return Err(Invalid);
    }
    DecodeIsSound(bytes);
    var reader := new Reader(bytes, view.body.offset);
    if view.body.length == 0 || (view.body.length == 1 && bytes[reader.pos] == 0xF6) {
      return Ok((0, Zeros(IDENTITY_LENGTH)));
    }
    var count :- reader.Container(4);
    var member :- ReadMembers(reader, count, index);
    return Ok((count, member));
  }

  /** The entry point: the count is reported even when there is no member at `index`. */
  method Member(bytes: Bytes, index: nat, wanted: bool) returns (status: Status, count: Length, member: Option<Bytes>)
    ensures if |bytes| > MDU then status == ErrInvalidArg && count == Unset && member == None
            else
              match RosterAt(bytes)
              case Err(e) => status == StatusOf(e) && count == Unset && member == None
              case Ok(roster) =>
                && count == Length(|roster.value|)
                && status == (if wanted && index >= |roster.value| then ErrCapacity else StatusOk)
                && member == (if wanted && index < |roster.value| then Some(roster.value[index]) else None)
  {
    hide RosterAt;
    if |bytes| > MDU {
      return ErrInvalidArg, Unset, None;
    }
    var parsed := ReadMember(bytes, index);
    if parsed.Err? {
      return StatusOf(parsed.error), Unset, None;
    }
    count := Length(parsed.value.0);
    if !wanted {
      return StatusOk, count, None;
    }
    if index >= parsed.value.0 {
      return ErrCapacity, count, None;
    }
    return StatusOk, count, Some(parsed.value.1);
  }

  method ReadMembers(reader: Reader, count: nat, index: nat) returns (r: Result<Bytes>)
    requires reader.Valid()
    modifies reader
    ensures match MembersAt(reader.bytes, old(reader.pos), count)
            case Ok(members) => r == Ok(if index < count then members.value[index] else Zeros(IDENTITY_LENGTH))
            case Err(e) => r == Err(e)
  {
    hide FixedAt;
    var member := Zeros(IDENTITY_LENGTH);
    ghost var first := reader.pos;
    ghost var before: seq<Bytes> := [];
    assert forall rest: seq<Bytes> :: before + rest == rest;
    for n := 0 to count
      invariant reader.Valid() && |before| == n
      invariant MembersAt(reader.bytes, first, count) == Joined(before, MembersAt(reader.bytes, reader.pos, count - n))
      invariant member == if index < n then before[index] else Zeros(IDENTITY_LENGTH)
    {
      var value :- reader.Fixed(IDENTITY_LENGTH);
      if n == index {
        member := value;
      }
      JoinedStep(before, value, MembersAt(reader.bytes, reader.pos, count - n - 1));
      before := before + [value];
    }
    assert before + [] == before;
    return Ok(member);
  }

  ghost function Joined(before: seq<Bytes>, rest: Result<Read<seq<Bytes>>>): Result<Read<seq<Bytes>>> {
    match rest
    case Ok(read) => Ok(Read(before + read.value, read.next))
    case Err(e) => Err(e)
  }

  lemma JoinedStep(before: seq<Bytes>, value: Bytes, rest: Result<Read<seq<Bytes>>>)
    ensures Joined(before + [value], rest) == Joined(before, Joined([value], rest))
  {
    if rest.Ok? {
      assert before + [value] + rest.value.value == before + ([value] + rest.value.value);
    }
  }

  /** Each member is sixteen octets of the packet, between `lo` and `hi`. */
  ghost predicate MembersInside(b: Bytes, members: seq<Bytes>, lo: nat, hi: nat) {
    forall m :: m in members ==> exists at :: lo <= at && at + IDENTITY_LENGTH <= hi && At(b, at, m)
  }

  lemma {:induction false} MembersEnd(b: Bytes, pos: nat, count: nat)
    requires pos <= |b| <= MDU
    ensures MembersAt(b, pos, count).Ok? ==>
              var end := MembersAt(b, pos, count).value;
              SkipItems(b, pos, 2, count) == Ok(end.next) && MembersInside(b, end.value, pos, end.next)
    decreases count
  {
    hide SkipAt, SpanAt;
    if count > 0 && MembersAt(b, pos, count).Ok? {
      SpanSkips(b, pos, 2, IDENTITY_LENGTH, 2);
      SpanIsExact(b, pos, 2, IDENTITY_LENGTH);
      var first := FixedAt(b, pos, IDENTITY_LENGTH).value;
      var span := SpanAt(b, pos, 2, IDENTITY_LENGTH).value.value;
      assert At(b, span.offset, first.value);
      MembersEnd(b, first.next, count - 1);
    }
  }

  /** The roster reader stops exactly at the end of the body, and every member is read inside it. */
  lemma RosterStaysInBody(b: Bytes)
    requires RosterAt(b).Ok?
    ensures var body := DecodeSpec(b).value.body;
            && RosterAt(b).value.next == body.offset + body.length
            && MembersInside(b, RosterAt(b).value.value, body.offset, body.offset + body.length)
  {
    hide DecodeSpec, SkipAt, ContainerAt, SkipItems, MembersAt;
    DecodeIsSound(b);
    var body := DecodeSpec(b).value.body;
    if body.length > 0 && !(body.length == 1 && b[body.offset] == 0xF6) {
      ContainerSkips(b, body.offset, 4, 1);
      var count := ContainerAt(b, body.offset, 4).value;
      MembersEnd(b, count.next, count.value);
    }
  }

  // ---- The announce name ---------------------------------------------------------------------

  const HUB: Bytes := [0x68, 0x75, 0x62]

  function NameEntriesAt(b: Bytes, pos: nat, count: nat, seen: bool, name: Span): (r: Result<Read<Span>>)
    requires pos <= |b| <= MDU
    ensures r.Ok? ==> pos <= r.value.next <= |b|
    decreases count
  {
    if count == 0 then Ok(Read(name, pos))
    else
      var key :- SpanAt(b, pos, 3, LABEL_MAX);
      if Slice(b, key.value) == HUB then
        if seen then Err(Invalid)
        else
          var s :- SpanAt(b, key.next, 3, LABEL_MAX);
          NameEntriesAt(b, s.next, count - 1, true, s.value)
      else
        var end :- SkipAt(b, key.next, 1);
        NameEntriesAt(b, end, count - 1, seen, name)
  }

  /** Announce data longer than a packet is refused before it is read. */
  function AnnounceNameSpec(b: Bytes): Result<Span> {
    if |b| > MDU then Err(Invalid)
    else
      var count :- ContainerAt(b, 0, 5);
      var name :- NameEntriesAt(b, count.next, count.value, false, NO_SPAN);
      if name.next != |b| then Err(Invalid) else Ok(name.value)
  }

  method ReadAnnounceName(bytes: Bytes) returns (r: Result<Span>)
    ensures r == AnnounceNameSpec(bytes)
  {
    hide HeadAt, SpanAt, SkipAt;
    if |bytes| > MDU {
      return Err(Invalid);
    }
    var reader := new Reader(bytes, 0);
    var count :- reader.Container(5);
    var name := NO_SPAN;
    var seen := false;
    ghost var first := reader.pos;
    for n := 0 to count
      invariant reader.Valid() && reader.bytes == bytes
      invariant NameEntriesAt(bytes, first, count, false, NO_SPAN)
             == NameEntriesAt(bytes, reader.pos, count - n, seen, name)
    {
      SpanFits(bytes, reader.pos);
      var key :- reader.TakeSpan(3, LABEL_MAX);
      if bytes[key.offset..key.offset + key.length] == HUB {
        if seen {
          return Err(Invalid);
        }
        seen := true;
        name :- reader.TakeSpan(3, LABEL_MAX);
      } else {
        var _ :- reader.Skip(1);
      }
    }
    if reader.pos != |bytes| {
      return Err(Invalid);
    }
    return Ok(name);
  }

  lemma SpanFits(b: Bytes, pos: nat)
    requires |b| <= MDU
    ensures SpanAt(b, pos, 3, LABEL_MAX).Ok? ==> Within(b, SpanAt(b, pos, 3, LABEL_MAX).value.value)
  {
    if SpanAt(b, pos, 3, LABEL_MAX).Ok? {
      SpanIsExact(b, pos, 3, LABEL_MAX);
    }
  }

  lemma LabelIsSound(b: Bytes, pos: nat)
    requires |b| <= MDU && SpanAt(b, pos, 3, LABEL_MAX).Ok?
    ensures SkipAt(b, pos, 1) == Ok(SpanAt(b, pos, 3, LABEL_MAX).value.next)
    ensures Within(b, SpanAt(b, pos, 3, LABEL_MAX).value.value)
    ensures TextWithin(b, SpanAt(b, pos, 3, LABEL_MAX).value.value, LABEL_MAX)
  {
    hide HeadAt, SpanAt, SkipAt;
    SpanSkips(b, pos, 3, LABEL_MAX, 1);
    SpanIsExact(b, pos, 3, LABEL_MAX);
  }

  lemma {:induction false} NameEntriesEnd(b: Bytes, pos: nat, count: nat, seen: bool, name: Span)
    requires pos <= |b| <= MDU && TextWithin(b, name, LABEL_MAX)
    ensures NameEntriesAt(b, pos, count, seen, name).Ok? ==>
              var end := NameEntriesAt(b, pos, count, seen, name).value;
              && SkipItems(b, pos, 1, 2 * count) == Ok(end.next)
              && TextWithin(b, end.value, LABEL_MAX)
              && (seen ==> end.value == name)
    decreases count
  {
    hide SkipAt, SpanAt, TextWithin;
    if count > 0 && NameEntriesAt(b, pos, count, seen, name).Ok? {
      LabelIsSound(b, pos);
      var key := SpanAt(b, pos, 3, LABEL_MAX).value;
      if Slice(b, key.value) == HUB {
        LabelIsSound(b, key.next);
        var s := SpanAt(b, key.next, 3, LABEL_MAX).value;
        NameEntriesEnd(b, s.next, count - 1, true, s.value);
      } else {
        NameEntriesEnd(b, SkipAt(b, key.next, 1).value, count - 1, seen, name);
      }
    }
  }

  /** Accepted announce data is exactly one item, and its name is UTF-8 text of at most 64 octets in it. */
  lemma AnnounceNameIsSound(b: Bytes)
    requires AnnounceNameSpec(b).Ok?
    ensures SkipAt(b, 0, 0) == Ok(|b|) && TextWithin(b, AnnounceNameSpec(b).value, LABEL_MAX)
  {
    hide SkipAt, ContainerAt, SkipItems, NameEntriesAt;
    ContainerSkips(b, 0, 5, 0);
    var count := ContainerAt(b, 0, 5).value;
    assert Slice(b, NO_SPAN) == [];
    NameEntriesEnd(b, count.next, count.value, false, NO_SPAN);
  }
}
