/** Nickname trimming and room normalization. */
module Normalize {
  import opened Bytes
  import opened Utf8
  import opened Casing
  import Envelope

  const ROOM_BUFFER: nat := 64
  const NICKNAME_BYTES: nat := 32

  // Line feed, carriage return and NUL.
  const REFUSED_IN_NICKNAME: set<Scalar> := {0x0A, 0x0D, 0x00}

  function TrimStart(u: Unicode, text: seq<Scalar>): (r: seq<Scalar>)
  {
    if text != [] && u.white(text[0]) then TrimStart(u, text[1..]) else text
  }

  function TrimEnd(u: Unicode, text: seq<Scalar>): (r: seq<Scalar>)
  {
    if text != [] && u.white(text[|text| - 1]) then TrimEnd(u, text[..|text| - 1]) else text
  }

  function Trim(u: Unicode, text: seq<Scalar>): seq<Scalar> {
    TrimEnd(u, TrimStart(u, text))
  }

  /** The octets a nickname or a room name becomes. */
  function NormalizeSpec(u: Unicode, data: Bytes, nickname: nat): (r: Result<Bytes>)
  {
    if |data| > MDU || nickname > 1 then Err(Invalid)
    else
      match Decode(data)
      case Malformed => Err(Invalid)
      case Text(chars) =>
        var text := Trim(u, chars);
        if text == [] || (nickname != 0 && exists c :: c in text && c in REFUSED_IN_NICKNAME) then Err(Invalid)
        else
          var s := Encode(if nickname != 0 then text else LowerChars(u, text));
          if |s| > (if nickname != 0 then NICKNAME_BYTES else ROOM_BUFFER) then Err(Capacity) else Ok(s)
  }

  /** A room name that normalization leaves alone. */
  predicate Canonical(u: Unicode, room: Bytes) {
    NormalizeSpec(u, room, 0) == Ok(room)
  }

  // ---- The code ------------------------------------------------------------------------------

  lemma {:induction false} EncodeConcat(x: seq<Scalar>, y: seq<Scalar>)
    ensures Encode(x + y) == Encode(x) + Encode(y)
  {
    if x == [] {
      assert x + y == y;
    } else {
      hide EncodeChar;
      EncodeConcat(x[1..], y);
      assert (x + y)[1..] == x[1..] + y;
      Associates(EncodeChar(x[0]), Encode(x[1..]), Encode(y));
    }
  }

  lemma EncodeSnoc(chars: seq<Scalar>, i: nat)
    requires i < |chars|
    ensures Encode(chars[..i + 1]) == Encode(chars[..i]) + EncodeChar(chars[i])
    ensures |Encode(chars[..i + 1])| <= |Encode(chars)|
  {
    hide EncodeChar;
    assert chars[..i + 1] == chars[..i] + [chars[i]];
    EncodeConcat(chars[..i], [chars[i]]);
    assert [chars[i]][1..] == [];
    assert chars == chars[..i + 1] + chars[i + 1..];
    EncodeConcat(chars[..i + 1], chars[i + 1..]);
  }

  /** Streams characters into the fixed buffer until one does not fit. */
  method EmitAll(chars: seq<Scalar>, normalized: array<byte>) returns (fits: bool, used: nat)
    modifies normalized
    ensures fits <==> |Encode(chars)| <= normalized.Length
    ensures fits ==> used == |Encode(chars)| && normalized[..used] == Encode(chars)
  {
    hide Encode, EncodeChar;
    used := 0;
    NothingEncodes();
    assert chars[..0] == [];
    for i := 0 to |chars|
      invariant used <= normalized.Length && normalized[..used] == Encode(chars[..i])
    {
      EncodeSnoc(chars, i);
      var encoded := EncodeChar(chars[i]);
      if used + |encoded| > normalized.Length {
        return false, used;
      }
      CopyInto(normalized, used, encoded);
      used := used + |encoded|;
    }
    assert chars[..|chars|] == chars;
    fits := true;
  }

  lemma NothingEncodes()
    ensures Encode([]) == []
  {
  }

  method Normalize(u: Unicode, data: Bytes, nickname: nat, out: array<byte>)
    returns (status: Status, length: Length)
    modifies out
    ensures
      match NormalizeSpec(u, data, nickname)
      case Err(e) => status == StatusOf(e) && length == Unset && out[..] == old(out[..])
      case Ok(s) =>
        && length == Length(|s|)
        && (out.Length < |s| ==> status == ErrCapacity && out[..] == old(out[..]))
        && (|s| <= out.Length ==> status == StatusOk && out[..] == s + old(out[..])[|s|..])
  {
    hide Encode, Decode, Trim, LowerChars;
    if |data| > MDU || nickname > 1 {
      return ErrInvalidArg, Unset;
    }
    var decoded := Decode(data);
    if decoded.Malformed? {
      return ErrInvalidArg, Unset;
    }
    var text := Trim(u, decoded.chars);
    if text == [] || (nickname != 0 && exists c :: c in text && c in REFUSED_IN_NICKNAME) {
      return ErrInvalidArg, Unset;
    }
    var normalized := new byte[ROOM_BUFFER];
    var used := 0;
    if nickname != 0 {
      var octets := Encode(text);
      if |octets| > NICKNAME_BYTES {
        return ErrCapacity, Unset;
      }
      used := |octets|;
      CopyInto(normalized, 0, octets);
    } else {
      var fits;
      fits, used := EmitAll(LowerChars(u, text), normalized);
      if !fits {
        return ErrCapacity, Unset;
      }
    }
    length := Length(used);
    if out.Length < used {
      return ErrCapacity, length;
    }
    CopyInto(out, 0, normalized[..used]);
    status := StatusOk;
  }

  method IsCanonical(u: Unicode, room: Bytes) returns (canonical: bool)
    ensures canonical == Canonical(u, room)
  {
    hide Encode, Decode, Trim, LowerChars;
    var normalized := new byte[ROOM_BUFFER];
    var status, length := Normalize(u, room, 0, normalized);
    canonical := status == StatusOk && normalized[..length.value] == room;
  }

  // ---- Trimming ------------------------------------------------------------------------------

  ghost predicate Blank(u: Unicode, text: seq<Scalar>) {
    forall i :: 0 <= i < |text| ==> u.white(text[i])
  }

  /** Neither end is white space. */
  predicate Bare(u: Unicode, text: seq<Scalar>) {
    text != [] ==> !u.white(text[0]) && !u.white(text[|text| - 1])
  }

  /** `inner` is `text` without the white space around it. */
  ghost predicate Surrounds(u: Unicode, text: seq<Scalar>, before: seq<Scalar>, inner: seq<Scalar>, after: seq<Scalar>) {
    text == before + inner + after && Blank(u, before) && Blank(u, after) && Bare(u, inner)
  }

  lemma {:induction false} TrimStartSplits(u: Unicode, text: seq<Scalar>) returns (before: seq<Scalar>)
    ensures text == before + TrimStart(u, text) && Blank(u, before)
    ensures TrimStart(u, text) != [] ==> !u.white(TrimStart(u, text)[0])
  {
    before := [];
    if text != [] && u.white(text[0]) {
      var rest := TrimStartSplits(u, text[1..]);
      before := [text[0]] + rest;
      assert text == [text[0]] + text[1..];
    }
  }

  lemma {:induction false} TrimEndSplits(u: Unicode, text: seq<Scalar>) returns (after: seq<Scalar>)
    ensures text == TrimEnd(u, text) + after && Blank(u, after)
    ensures TrimEnd(u, text) != [] ==> !u.white(TrimEnd(u, text)[|TrimEnd(u, text)| - 1])
  {
    after := [];
    if text != [] && u.white(text[|text| - 1]) {
      var n := |text| - 1;
      var rest := TrimEndSplits(u, text[..n]);
      after := rest + [text[n]];
      assert text == text[..n] + [text[n]];
    }
  }

  lemma {:induction false} TrimStartDrops(u: Unicode, before: seq<Scalar>, rest: seq<Scalar>)
    requires Blank(u, before)
    ensures TrimStart(u, before + rest) == TrimStart(u, rest)
  {
    if before == [] {
      assert before + rest == rest;
    } else {
      assert (before + rest)[1..] == before[1..] + rest;
      TrimStartDrops(u, before[1..], rest);
    }
  }

  lemma {:induction false} TrimEndDrops(u: Unicode, rest: seq<Scalar>, after: seq<Scalar>)
    requires Blank(u, after)
    ensures TrimEnd(u, rest + after) == TrimEnd(u, rest)
  {
    if after == [] {
      assert rest + after == rest;
    } else {
      var n := |after| - 1;
      assert (rest + after)[..|rest| + n] == rest + after[..n];
      TrimEndDrops(u, rest, after[..n]);
    }
  }

  /** Trimming finds the one stretch that has only white space around it and none at its ends. */
  lemma TrimMeans(u: Unicode, text: seq<Scalar>, inner: seq<Scalar>)
    ensures Trim(u, text) == inner <==> exists before, after :: Surrounds(u, text, before, inner, after)
  {
    hide TrimStart, TrimEnd;
    if before, after :| Surrounds(u, text, before, inner, after) {
      TrimFinds(u, text, before, inner, after);
    }
    if Trim(u, text) == inner {
      var before := TrimStartSplits(u, text);
      var after := TrimEndSplits(u, TrimStart(u, text));
      var middle := TrimStart(u, text);
      assert inner != [] ==> middle != [] && middle[0] == inner[0];
      assert text == before + inner + after;
      assert Surrounds(u, text, before, inner, after);
    }
  }

  lemma TrimFinds(u: Unicode, text: seq<Scalar>, before: seq<Scalar>, inner: seq<Scalar>, after: seq<Scalar>)
    requires Surrounds(u, text, before, inner, after)
    ensures Trim(u, text) == inner
  {
    assert before + inner + after == before + (inner + after);
    TrimStartDrops(u, before, inner + after);
    if inner == [] {
      TrimStartDrops(u, after, []);
      assert inner + after == after == after + [];
    } else {
      assert TrimStart(u, inner + after) == inner + after;
      TrimEndDrops(u, inner, after);
    }
  }

  /** A trimmed text is kept. */
  lemma TrimKeepsBare(u: Unicode, text: seq<Scalar>)
    ensures Trim(u, text) == text <==> Bare(u, text)
  {
    hide Trim;
    TrimMeans(u, text, text);
    if Bare(u, text) {
      assert text == [] + text + [];
      assert Surrounds(u, text, [], text, []);
    }
    if before, after :| Surrounds(u, text, before, text, after) {
    }
  }

  lemma TrimIsBare(u: Unicode, text: seq<Scalar>)
    ensures Bare(u, Trim(u, text))
  {
    hide Trim;
    TrimMeans(u, text, Trim(u, text));
  }

  // ---- What normalization answers ------------------------------------------------------------

  predicate BreaksLine(c: Scalar) {
    c == '\n' as int || c == '\r' as int || c == '\0' as int
  }

  /** For a text with white space around it: what becomes of the stretch between, and what is refused. */
  lemma NormalizeMeans(u: Unicode, before: seq<Scalar>, inner: seq<Scalar>, after: seq<Scalar>, nickname: nat)
    requires Surrounds(u, before + inner + after, before, inner, after)
    ensures var data := Encode(before + inner + after);
            var r := NormalizeSpec(u, data, nickname);
            if |data| > 431 || nickname > 1 || inner == [] then r == Err(Invalid)
            else if nickname == 1 then
              if exists i :: 0 <= i < |inner| && BreaksLine(inner[i]) then r == Err(Invalid)
              else if |Encode(inner)| > 32 then r == Err(Capacity)
              else r == Ok(Encode(inner))
            else if |Encode(LowerChars(u, inner))| > 64 then r == Err(Capacity)
            else r == Ok(Encode(LowerChars(u, inner)))
  {
    hide Encode, Trim, LowerChars, Decode;
    DecodeEncode(before + inner + after);
    TrimMeans(u, before + inner + after, inner);
    if i :| 0 <= i < |inner| && BreaksLine(inner[i]) {
      assert inner[i] in inner && inner[i] in REFUSED_IN_NICKNAME;
    }
  }

  lemma MalformedIsRefused(u: Unicode, data: Bytes, nickname: nat)
    requires !Valid(data)
    ensures NormalizeSpec(u, data, nickname) == Err(Invalid)
  {
    hide Decode;
  }

  // ---- Normalization is a projection ---------------------------------------------------------

  /** What the per-character lowercase mapping is relied on for. */
  ghost predicate LowerLaws(u: Unicode) {
    && (forall c: Scalar :: u.lower(c) != [])
    && (forall c: Scalar, d: Scalar :: d in u.lower(c) ==> Settled(u, d) && (u.white(d) ==> u.white(c)))
    && !u.white(FINAL_SIGMA) && !u.white(SMALL_SIGMA)
  }

  /** Lowercasing has nothing left to do to `c`. */
  predicate Settled(u: Unicode, c: Scalar) {
    u.lower(c) == [c] && c != CAPITAL_SIGMA
  }

  ghost predicate AllSettled(u: Unicode, text: seq<Scalar>) {
    forall c :: c in text ==> Settled(u, c)
  }

  lemma {:induction false} LoweredIsSettled(u: Unicode, text: seq<Scalar>, i: nat)
    requires LowerLaws(u) && i <= |text|
    ensures AllSettled(u, LowerFrom(u, text, i))
    decreases |text| - i
  {
    hide TakesFinalSigma, Mapped, Settled;
    if i < |text| {
      LoweredIsSettled(u, text, i + 1);
      assert AllSettled(u, u.lower(Mapped(u, text, i)));
    }
  }

  lemma {:induction false} SettledIsKept(u: Unicode, text: seq<Scalar>, i: nat)
    requires AllSettled(u, text) && i <= |text|
    ensures LowerFrom(u, text, i) == text[i..]
    decreases |text| - i
  {
    hide TakesFinalSigma;
    if i < |text| {
      SettledIsKept(u, text, i + 1);
      assert text[i] in text;
      assert text[i..] == [text[i]] + text[i + 1..];
    }
  }

  lemma MappedIsDark(u: Unicode, text: seq<Scalar>, i: nat)
    requires LowerLaws(u) && i < |text| && !u.white(text[i])
    ensures forall d :: d in u.lower(Mapped(u, text, i)) ==> !u.white(d)
    ensures u.lower(Mapped(u, text, i)) != []
  {
    hide TakesFinalSigma, Settled;
  }

  lemma {:induction false} LoweredEnd(u: Unicode, text: seq<Scalar>, i: nat)
    requires LowerLaws(u) && i < |text| && !u.white(text[|text| - 1])
    ensures var r := LowerFrom(u, text, i); r != [] && !u.white(r[|r| - 1])
    decreases |text| - i
  {
    hide LowerLaws, Mapped;
    var first := u.lower(Mapped(u, text, i));
    if i + 1 < |text| {
      LoweredEnd(u, text, i + 1);
    } else {
      MappedIsDark(u, text, i);
      assert LowerFrom(u, text, i + 1) == [];
      assert LowerFrom(u, text, i) == first;
      assert first[|first| - 1] in first;
    }
  }

  lemma LoweredIsBare(u: Unicode, text: seq<Scalar>)
    requires LowerLaws(u) && text != [] && Bare(u, text)
    ensures LowerChars(u, text) != [] && Bare(u, LowerChars(u, text))
  {
    hide LowerLaws, Mapped;
    LoweredEnd(u, text, 0);
    MappedIsDark(u, text, 0);
    var first := u.lower(Mapped(u, text, 0));
    assert first[0] in first;
  }

  /**
   * The canonical rooms: well-formed, one to sixty-four octets, no white space at either end, and
   * made of characters lowercasing keeps. The context of a sigma no longer matters.
   */
  ghost predicate CanonicalForm(u: Unicode, room: Bytes) {
    && 1 <= |room| <= ROOM_BUFFER
    && Valid(room)
    && Bare(u, Decode(room).chars)
    && AllSettled(u, Decode(room).chars)
  }

  lemma CanonicalMeans(u: Unicode, room: Bytes)
    requires LowerLaws(u)
    ensures Canonical(u, room) <==> CanonicalForm(u, room)
  {
    hide Trim, LowerFrom, Encode, LowerLaws, Decode;
    NothingDecodes();
    if Valid(room) {
      var chars := Decode(room).chars;
      EncodeDecode(room);
      if CanonicalForm(u, room) {
        TrimKeepsBare(u, chars);
        SettledIsKept(u, chars, 0);
        assert chars[0..] == chars;
        FewOctets(u, room, chars);
      }
      if Canonical(u, room) {
        var text := Trim(u, chars);
        NormalizedText(u, room);
        DecodeEncode(LowerChars(u, text));
        assert LowerChars(u, text) == chars;
        TrimIsBare(u, chars);
        LoweredIsBare(u, text);
        LoweredIsSettled(u, text, 0);
      }
    }
  }

  lemma NothingDecodes()
    ensures Decode([]) == Text([])
    ensures Encode([]) == []
  {
  }

  lemma FewOctets(u: Unicode, room: Bytes, chars: seq<Scalar>)
    requires 1 <= |room| <= ROOM_BUFFER && Decode(room) == Text(chars) && Encode(chars) == room
    requires Trim(u, chars) == chars && LowerChars(u, chars) == chars
    ensures Canonical(u, room)
  {
    hide Trim, LowerFrom, Encode, Decode;
    NothingDecodes();
  }

  lemma NormalizedText(u: Unicode, data: Bytes)
    requires NormalizeSpec(u, data, 0).Ok?
    ensures Decode(data).Text? && Trim(u, Decode(data).chars) != []
    ensures NormalizeSpec(u, data, 0).value == Encode(LowerChars(u, Trim(u, Decode(data).chars)))
    ensures |NormalizeSpec(u, data, 0).value| <= ROOM_BUFFER
  {
    hide Trim, LowerFrom, Encode, Decode;
  }

  /** Whatever normalization yields is canonical: normalizing twice is normalizing once. */
  lemma RoomIsProjection(u: Unicode, data: Bytes)
    requires LowerLaws(u) && NormalizeSpec(u, data, 0).Ok?
    ensures Canonical(u, NormalizeSpec(u, data, 0).value)
  {
    hide Trim, LowerFrom, Encode, Decode, LowerLaws, Canonical, NormalizeSpec;
    NormalizedText(u, data);
    var room := NormalizeSpec(u, data, 0).value;
    var text := Trim(u, Decode(data).chars);
    TrimIsBare(u, Decode(data).chars);
    LoweredIsBare(u, text);
    LoweredIsSettled(u, text, 0);
    DecodeEncode(LowerChars(u, text));
    NothingDecodes();
    CanonicalMeans(u, room);
  }

  /** The canonical rooms are exactly the results of normalization. */
  lemma CanonicalIsImage(u: Unicode, room: Bytes)
    requires LowerLaws(u)
    ensures Canonical(u, room) <==> exists data :: NormalizeSpec(u, data, 0) == Ok(room)
  {
    hide NormalizeSpec, LowerLaws;
    if data :| NormalizeSpec(u, data, 0) == Ok(room) {
      RoomIsProjection(u, data);
    }
  }

  /** Every canonical room is a nonempty room the envelope encoder and decoder both accept. */
  lemma CanonicalFitsEnvelope(u: Unicode, room: Bytes)
    requires LowerLaws(u) && Canonical(u, room)
    ensures room != [] && |room| <= Envelope.ROOM_MAX && Valid(room)
  {
    hide Canonical, LowerLaws, Valid, Bare, AllSettled;
    CanonicalMeans(u, room);
  }

  // ---- Nicknames -----------------------------------------------------------------------------

  ghost predicate NicknameForm(u: Unicode, nick: Bytes) {
    && 1 <= |nick| <= NICKNAME_BYTES
    && Valid(nick)
    && Bare(u, Decode(nick).chars)
    && forall c :: c in Decode(nick).chars ==> c !in REFUSED_IN_NICKNAME
  }

  /** A nickname is kept exactly when it is short, trimmed and free of line breaks and NUL. */
  lemma NicknameKept(u: Unicode, nick: Bytes)
    ensures NormalizeSpec(u, nick, 1) == Ok(nick) <==> NicknameForm(u, nick)
  {
    hide Trim, Encode, Decode, LowerChars;
    NothingDecodes();
    if Valid(nick) {
      var chars := Decode(nick).chars;
      EncodeDecode(nick);
      TrimKeepsBare(u, chars);
      DecodeEncode(Trim(u, chars));
    }
  }

  lemma NicknameText(u: Unicode, data: Bytes)
    requires NormalizeSpec(u, data, 1).Ok?
    ensures Decode(data).Text?
    ensures var text := Trim(u, Decode(data).chars);
            && text != [] && (forall c :: c in text ==> c !in REFUSED_IN_NICKNAME)
            && NormalizeSpec(u, data, 1).value == Encode(text) && |Encode(text)| <= NICKNAME_BYTES
  {
    hide Trim, Encode, Decode, LowerChars;
  }

  /** A normalized nickname is a stretch of the input's own octets, and normalizing it again changes nothing. */
  lemma NicknameIsProjection(u: Unicode, data: Bytes)
    requires NormalizeSpec(u, data, 1).Ok?
    ensures var nick := NormalizeSpec(u, data, 1).value;
            NormalizeSpec(u, nick, 1) == Ok(nick) && exists pos: nat :: At(data, pos, nick)
  {
    hide NormalizeSpec, Trim, Encode, Decode;
    NicknameText(u, data);
    var nick := NormalizeSpec(u, data, 1).value;
    var text := Trim(u, Decode(data).chars);
    DecodeEncode(text);
    NothingDecodes();
    TrimIsBare(u, Decode(data).chars);
    NicknameKept(u, nick);
    TrimMeans(u, Decode(data).chars, text);
    var before, after :| Surrounds(u, Decode(data).chars, before, text, after);
    TextStretch(data, before, text, after);
  }

  lemma TextStretch(data: Bytes, before: seq<Scalar>, text: seq<Scalar>, after: seq<Scalar>)
    requires Decode(data) == Text(before + text + after)
    ensures At(data, |Encode(before)|, Encode(text))
  {
    hide Encode, Decode;
    EncodeDecode(data);
    EncodeConcat(before + text, after);
    EncodeConcat(before, text);
    assert At(Encode(before) + Encode(text) + Encode(after), |Encode(before)|, Encode(text));
  }
}
