/** Case-insensitive whole-word mentions of a nickname or of a full identity. */
module Mentions {
  import opened Bytes
  import opened Utf8
  import opened Casing

  const AT_SIGN: Scalar := 0x40

  /** A character that keeps a mention from ending, or from starting, next to it. */
  predicate Continuation(u: Unicode, c: Scalar) {
    u.alphanumeric(c) || c in {0x5F, 0x2D}
  }

  /** `wanted` lies in `lowered` behind an at sign at `i`, and neither side continues a word. */
  predicate MentionAt(u: Unicode, lowered: seq<Scalar>, wanted: seq<Scalar>, i: nat) {
    var end := i + 1 + |wanted|;
    && end <= |lowered|
    && lowered[i] == AT_SIGN
    && (i > 0 ==> !Continuation(u, lowered[i - 1]))
    && lowered[i + 1..end] == wanted
    && (end < |lowered| ==> !Continuation(u, lowered[end]))
  }

  ghost predicate Mentioned(u: Unicode, text: seq<Scalar>, target: seq<Scalar>) {
    target != [] && exists i: nat :: MentionAt(u, LowerChars(u, text), LowerChars(u, target), i)
  }

  // ---- The code ------------------------------------------------------------------------------

  /** Compares the characters after an at sign one by one, then looks one past them. */
  method Follows(u: Unicode, lowered: seq<Scalar>, start: nat, wanted: seq<Scalar>) returns (matched: bool)
    requires start <= |lowered|
    ensures matched <==>
      && start + |wanted| <= |lowered| && lowered[start..start + |wanted|] == wanted
      && (start + |wanted| < |lowered| ==> !Continuation(u, lowered[start + |wanted|]))
  {
    var next := start;
    for k := 0 to |wanted|
      invariant next == start + k <= |lowered| && lowered[start..next] == wanted[..k]
    {
      if next == |lowered| || lowered[next] != wanted[k] {
        if start + |wanted| <= |lowered| {
          assert lowered[start..start + |wanted|][k] == lowered[next];
        }
        return false;
      }
      assert lowered[start..next + 1] == lowered[start..next] + [lowered[next]];
      assert wanted[..k + 1] == wanted[..k] + [wanted[k]];
      next := next + 1;
    }
    matched := next == |lowered| || !Continuation(u, lowered[next]);
  }

  method ContainsExactMention(u: Unicode, text: seq<Scalar>, target: seq<Scalar>) returns (found: bool)
    ensures found <==> Mentioned(u, text, target)
  {
    hide LowerChars, Continuation;
    if target == [] {
      return false;
    }
    var lowered, wanted := LowerChars(u, text), LowerChars(u, target);
    var i := 0;
    while i < |lowered|
      invariant 0 <= i <= |lowered|
      invariant forall j: nat :: j < i ==> !MentionAt(u, lowered, wanted, j)
    {
      if lowered[i] == AT_SIGN && (i == 0 || !Continuation(u, lowered[i - 1])) {
        var matched := Follows(u, lowered, i + 1, wanted);
        if matched {
          assert MentionAt(u, lowered, wanted, i);
          return true;
        }
      }
      i := i + 1;
    }
    found := false;
  }

  function HexDigit(d: nat): Scalar
    requires d < 16
  {
    if d < 10 then 0x30 + d else 0x61 + (d - 10)
  }

  /** Lower-case hexadecimal, high digit first. */
  function Hex(octets: Bytes): (s: seq<Scalar>)
    ensures |s| == 2 * |octets|
  {
    if octets == [] then [] else [HexDigit(octets[0] / 16), HexDigit(octets[0] % 16)] + Hex(octets[1..])
  }

  /** The value of a digit in lower-case hexadecimal, if it is one. */
  function DigitValue(c: Scalar): (v: int) {
    if '0' as int <= c <= '9' as int then c - '0' as int
    else if 'a' as int <= c <= 'f' as int then c - 'a' as int + 10
    else -1
  }

  /** Two digits, that of the sixteens first. */
  predicate SpellsOctet(high: Scalar, low: Scalar, octet: byte) {
    DigitValue(high) >= 0 && DigitValue(low) >= 0 && DigitValue(high) * 16 + DigitValue(low) == octet
  }

  /** `hex` spells the octets, two digits each. */
  ghost predicate Spells(hex: seq<Scalar>, octets: Bytes) {
    && |hex| == 2 * |octets|
    && forall k :: 0 <= k < |octets| ==> SpellsOctet(hex[2 * k], hex[2 * k + 1], octets[k])
  }

  lemma OctetSpelling(high: Scalar, low: Scalar, octet: byte)
    ensures SpellsOctet(high, low, octet) <==> high == HexDigit(octet / 16) && low == HexDigit(octet % 16)
  {
    assert DigitValue(HexDigit(octet / 16)) == octet / 16 && DigitValue(HexDigit(octet % 16)) == octet % 16;
  }

  lemma {:induction false} HexAt(octets: Bytes, k: nat)
    requires k < |octets|
    ensures Hex(octets)[2 * k] == HexDigit(octets[k] / 16) && Hex(octets)[2 * k + 1] == HexDigit(octets[k] % 16)
  {
    hide HexDigit;
    if k > 0 {
      HexAt(octets[1..], k - 1);
      var rest := Hex(octets[1..]);
      assert Hex(octets)[2..] == rest;
      assert Hex(octets)[2 * k] == rest[2 * (k - 1)] && Hex(octets)[2 * k + 1] == rest[2 * (k - 1) + 1];
    }
  }

  /** There is exactly one such spelling. */
  lemma HexSpells(octets: Bytes, hex: seq<Scalar>)
    ensures Spells(hex, octets) <==> hex == Hex(octets)
  {
    hide Hex, HexDigit, SpellsOctet;
    var own := Hex(octets);
    forall k | 0 <= k < |octets| ensures SpellsOctet(own[2 * k], own[2 * k + 1], octets[k]) {
      HexAt(octets, k);
      OctetSpelling(own[2 * k], own[2 * k + 1], octets[k]);
    }
    if Spells(hex, octets) {
      forall j | 0 <= j < |hex| ensures hex[j] == own[j] {
        var k := j / 2;
        HexAt(octets, k);
        OctetSpelling(hex[2 * k], hex[2 * k + 1], octets[k]);
      }
    }
  }

  /** What is stored through the flag pointer, if anything. */
  datatype Flag = Untouched | Flag(raised: bool)

  method HexOf(identity: Bytes) returns (hex: seq<Scalar>)
    ensures hex == Hex(identity) && Spells(hex, identity)
  {
    hide HexDigit, Spells;
    hex := [];
    for n := 0 to |identity|
      invariant hex + Hex(identity[n..]) == Hex(identity)
    {
      var octet := identity[n];
      assert identity[n..][1..] == identity[n + 1..];
      hex := hex + [HexDigit(octet / 16), HexDigit(octet % 16)];
    }
    HexSpells(identity, hex);
  }

  method Mentions(u: Unicode, data: Bytes, nickname: Bytes, identity: Bytes) returns (status: Status, out: Flag)
    requires |identity| == 16
    ensures status == StatusOk <==> |data| <= 431 && |nickname| <= 32 && Valid(data) && Valid(nickname)
    ensures status == StatusOk ==>
      out == Flag(|| Mentioned(u, Decode(data).chars, Decode(nickname).chars)
                  || exists hex :: Spells(hex, identity) && Mentioned(u, Decode(data).chars, hex))
    ensures status != StatusOk ==> status == ErrInvalidArg && out == Untouched
  {
    hide Mentioned, Decode, Hex, Spells;
    if |data| > MDU || |nickname| > 32 || !Valid(data) || !Valid(nickname) {
      return ErrInvalidArg, Untouched;
    }
    var text := Decode(data).chars;
    var hex := HexOf(identity);
    var byName := ContainsExactMention(u, text, Decode(nickname).chars);
    var byIdentity := ContainsExactMention(u, text, hex);
    HexSpells(identity, hex);
    forall h | Spells(h, identity) ensures h == hex {
      HexSpells(identity, h);
    }
    return StatusOk, Flag(byName || byIdentity);
  }

  // ---- What a mention is ---------------------------------------------------------------------

  /** A letter or digit, an underscore or a hyphen. */
  predicate WordCharacter(u: Unicode, c: Scalar) {
    u.alphanumeric(c) || c == '_' as int || c == '-' as int
  }

  /** In the lowered text the lowered name stands behind an '@', and no word character touches the two on either side. */
  ghost predicate StandsBetween(u: Unicode, text: seq<Scalar>, target: seq<Scalar>, before: seq<Scalar>, after: seq<Scalar>) {
    && LowerChars(u, text) == before + ['@' as int] + LowerChars(u, target) + after
    && (before != [] ==> !WordCharacter(u, before[|before| - 1]))
    && (after != [] ==> !WordCharacter(u, after[0]))
  }

  lemma CutAtMention(u: Unicode, lowered: seq<Scalar>, wanted: seq<Scalar>, i: nat) returns (before: seq<Scalar>, after: seq<Scalar>)
    requires MentionAt(u, lowered, wanted, i)
    ensures lowered == before + ['@' as int] + wanted + after && |before| == i
  {
    hide Continuation;
    before, after := lowered[..i], lowered[i + 1 + |wanted|..];
    assert lowered == lowered[..i] + [lowered[i]] + lowered[i + 1..i + 1 + |wanted|] + after;
  }

  lemma MentionedMeans(u: Unicode, text: seq<Scalar>, target: seq<Scalar>)
    ensures Mentioned(u, text, target) <==> target != [] && exists before, after :: StandsBetween(u, text, target, before, after)
  {
    hide LowerChars, MentionAt;
    var lowered, wanted := LowerChars(u, text), LowerChars(u, target);
    if target != [] {
      if i: nat :| MentionAt(u, lowered, wanted, i) {
        var before, after := CutAtMention(u, lowered, wanted, i);
        Laid(u, before, wanted, after, wanted);
        assert StandsBetween(u, text, target, before, after);
      }
      if before, after :| StandsBetween(u, text, target, before, after) {
        Laid(u, before, wanted, after, wanted);
        assert MentionAt(u, lowered, wanted, |before|);
      }
    }
  }

  // ---- When a name written out is found ------------------------------------------------------

  /** The lowered characters that come from indices `i` up to `j`. */
  function Lowered(u: Unicode, text: seq<Scalar>, i: nat, j: nat): seq<Scalar>
    requires i <= j <= |text|
    decreases j - i
  {
    if i == j then [] else u.lower(Mapped(u, text, i)) + Lowered(u, text, i + 1, j)
  }

  lemma {:induction false} LoweredSplits(u: Unicode, text: seq<Scalar>, i: nat, j: nat)
    requires i <= j <= |text|
    ensures LowerFrom(u, text, i) == Lowered(u, text, i, j) + LowerFrom(u, text, j)
    decreases j - i
  {
    hide Mapped;
    if i < j {
      LoweredSplits(u, text, i + 1, j);
    }
  }

  predicate AllIgnored(u: Unicode, chars: seq<Scalar>) {
    chars == [] || (CaseIgnorable(u, chars[0]) && AllIgnored(u, chars[1..]))
  }

  /** The test reads past its first part only when that part is ignorable throughout. */
  lemma {:induction false} ContextConcat(u: Unicode, x: seq<Scalar>, y: seq<Scalar>)
    ensures ContextIsCased(u, x + y) <==> if AllIgnored(u, x) then ContextIsCased(u, y) else ContextIsCased(u, x)
    ensures AllIgnored(u, x) ==> !ContextIsCased(u, x)
  {
    hide CaseIgnorable, Cased;
    if x == [] {
      assert x + y == y;
    } else {
      assert (x + y)[1..] == x[1..] + y;
      ContextConcat(u, x[1..], y);
    }
  }

  lemma AtSignStops(u: Unicode, chars: seq<Scalar>)
    ensures !ContextIsCased(u, [AT_SIGN] + chars)
  {
  }

  /** Nothing before the at sign has a say in a sigma after it. */
  lemma BehindAtSign(u: Unicode, before: seq<Scalar>, front: seq<Scalar>)
    ensures ContextIsCased(u, Reversed(before + [AT_SIGN] + front)) <==> ContextIsCased(u, Reversed(front))
  {
    hide ContextIsCased;
    var tail := [AT_SIGN] + Reversed(before);
    assert Reversed(before + [AT_SIGN] + front) == Reversed(front) + tail;
    ContextConcat(u, Reversed(front), tail);
    AtSignStops(u, Reversed(before));
  }

  /** A capital sigma that is final in `target` on its own but not with `after` behind it. */
  predicate Unsettled(u: Unicode, target: seq<Scalar>, after: seq<Scalar>, k: nat)
    requires k < |target|
  {
    && target[k] == CAPITAL_SIGMA
    && ContextIsCased(u, Reversed(target[..k]))
    && AllIgnored(u, target[k + 1..])
    && ContextIsCased(u, after)
  }

  lemma EmbeddedSigma(u: Unicode, before: seq<Scalar>, target: seq<Scalar>, after: seq<Scalar>, k: nat)
    requires k < |target|
    ensures var text := before + [AT_SIGN] + target + after;
            var i := |before| + 1 + k;
            && (Unsettled(u, target, after, k) ==> Mapped(u, text, i) == SMALL_SIGMA && Mapped(u, target, k) == FINAL_SIGMA)
            && (!Unsettled(u, target, after, k) ==> Mapped(u, text, i) == Mapped(u, target, k))
  {
    hide ContextIsCased, AllIgnored;
    var text := before + [AT_SIGN] + target + after;
    var i := |before| + 1 + k;
    assert text[i] == target[k];
    assert text[..i] == before + [AT_SIGN] + target[..k];
    assert text[i + 1..] == target[k + 1..] + after;
    BehindAtSign(u, before, target[..k]);
    ContextConcat(u, target[k + 1..], after);
  }

  /** Both small sigmas are left alone by the per-character mapping. */
  predicate SigmasStay(u: Unicode) {
    u.lower(FINAL_SIGMA) == [FINAL_SIGMA] && u.lower(SMALL_SIGMA) == [SMALL_SIGMA]
  }

  ghost predicate SettledFrom(u: Unicode, target: seq<Scalar>, after: seq<Scalar>, k: nat) {
    forall j :: k <= j < |target| ==> !Unsettled(u, target, after, j)
  }

  /** Written out in a text, a name lowers to itself lowered unless one of its sigmas is unsettled. */
  lemma {:induction false} EmbeddedLowers(u: Unicode, before: seq<Scalar>, target: seq<Scalar>, after: seq<Scalar>, k: nat)
    requires SigmasStay(u) && k <= |target|
    ensures var text := before + [AT_SIGN] + target + after;
            var start := |before| + 1;
            && |Lowered(u, text, start + k, start + |target|)| == |Lowered(u, target, k, |target|)|
            && (Lowered(u, text, start + k, start + |target|) == Lowered(u, target, k, |target|)
                <==> SettledFrom(u, target, after, k))
    decreases |target| - k
  {
    hide Mapped, Unsettled;
    if k < |target| {
      var text := before + [AT_SIGN] + target + after;
      var start := |before| + 1;
      EmbeddedLowers(u, before, target, after, k + 1);
      EmbeddedSigma(u, before, target, after, k);
      SamePieces(u.lower(Mapped(u, text, start + k)), Lowered(u, text, start + k + 1, start + |target|),
                 u.lower(Mapped(u, target, k)), Lowered(u, target, k + 1, |target|));
      assert SettledFrom(u, target, after, k) <==> !Unsettled(u, target, after, k) && SettledFrom(u, target, after, k + 1);
    }
  }

  lemma SamePieces(a: seq<Scalar>, x: seq<Scalar>, b: seq<Scalar>, y: seq<Scalar>)
    requires |a| == |b|
    ensures a + x == b + y <==> a == b && x == y
  {
    if a + x == b + y {
      assert (a + x)[..|a|] == a && (b + y)[..|b|] == b;
      assert (a + x)[|a|..] == x && (b + y)[|b|..] == y;
    }
  }

  /**
   * A name written out after an at sign is a mention there exactly when no word character touches it
   * and no sigma of it, final on its own, loses that form to a cased letter further on.
   */
  lemma LiteralMention(u: Unicode, before: seq<Scalar>, target: seq<Scalar>, after: seq<Scalar>)
    requires SigmasStay(u) && u.lower(AT_SIGN) == [AT_SIGN]
    ensures var text := before + [AT_SIGN] + target + after;
            var left := Lowered(u, text, 0, |before|);
            var right := LowerFrom(u, text, |before| + 1 + |target|);
            MentionAt(u, LowerChars(u, text), LowerChars(u, target), |left|) <==>
              && (left != [] ==> !Continuation(u, left[|left| - 1]))
              && (right != [] ==> !Continuation(u, right[0]))
              && SettledFrom(u, target, after, 0)
  {
    hide Mapped, Unsettled, SettledFrom, Continuation, LowerFrom, Lowered;
    var text := before + [AT_SIGN] + target + after;
    var n := |before|;
    var left, middle, right := Lowered(u, text, 0, n), Lowered(u, text, n + 1, n + 1 + |target|), LowerFrom(u, text, n + 1 + |target|);
    LoweredSplits(u, text, 0, n);
    AtSignLowers(u, text, n);
    LoweredSplits(u, text, n + 1, n + 1 + |target|);
    assert LowerChars(u, text) == left + [AT_SIGN] + middle + right;
    LoweredSplits(u, target, 0, |target|);
    NothingLowers(u, target);
    EmbeddedLowers(u, before, target, after, 0);
    Laid(u, left, middle, right, LowerChars(u, target));
  }

  lemma AtSignLowers(u: Unicode, text: seq<Scalar>, n: nat)
    requires n < |text| && text[n] == AT_SIGN && u.lower(AT_SIGN) == [AT_SIGN]
    ensures LowerFrom(u, text, n) == [AT_SIGN] + LowerFrom(u, text, n + 1)
  {
  }

  lemma NothingLowers(u: Unicode, text: seq<Scalar>)
    ensures LowerFrom(u, text, |text|) == []
  {
  }

  lemma Laid(u: Unicode, left: seq<Scalar>, middle: seq<Scalar>, right: seq<Scalar>, wanted: seq<Scalar>)
    requires |middle| == |wanted|
    ensures MentionAt(u, left + [AT_SIGN] + middle + right, wanted, |left|)
        <==> && (left != [] ==> !Continuation(u, left[|left| - 1]))
             && (right != [] ==> !Continuation(u, right[0]))
             && middle == wanted
  {
    hide Continuation;
    var all := left + [AT_SIGN] + middle + right;
    assert all[|left| + 1..|left| + 1 + |middle|] == middle;
  }

  /** A message that is nothing but the mention is always found. */
  lemma AloneIsMentioned(u: Unicode, target: seq<Scalar>)
    requires SigmasStay(u) && u.lower(AT_SIGN) == [AT_SIGN] && target != []
    ensures Mentioned(u, [AT_SIGN] + target, target)
  {
    hide Mapped, MentionAt, LowerFrom, Lowered;
    LiteralMention(u, [], target, []);
    var text := [] + [AT_SIGN] + target + [];
    assert text == [AT_SIGN] + target;
    NothingLowers(u, text);
    NothingLoweredAt(u, text, 0);
    assert SettledFrom(u, target, [], 0);
    assert MentionAt(u, LowerChars(u, text), LowerChars(u, target), 0);
  }

  lemma NothingLoweredAt(u: Unicode, text: seq<Scalar>, i: nat)
    requires i <= |text|
    ensures Lowered(u, text, i, i) == []
  {
  }

  /** A name ending in a sigma is missed when a dot and a letter come right after it. */
  lemma SigmaBeforeDotIsMissed(u: Unicode, letter: Scalar)
    requires SigmasStay(u) && u.lower(AT_SIGN) == [AT_SIGN] && u.lower(0x2E) == [0x2E] && u.lower(letter) == [letter]
    requires 0x61 <= letter <= 0x7A
    ensures var target := [letter, CAPITAL_SIGMA];
            !Mentioned(u, [AT_SIGN] + target + [0x2E, letter], target)
  {
    hide LowerFrom, ContextIsCased, Continuation;
    var target := [letter, CAPITAL_SIGMA];
    var text := [AT_SIGN] + target + [0x2E, letter];
    DottedLowers(u, letter);
    NameLowers(u, letter);
    var lowered, wanted := LowerChars(u, text), LowerChars(u, target);
    forall i: nat ensures !MentionAt(u, lowered, wanted, i) {
      if i == 0 {
        assert lowered[1..3][1] == SMALL_SIGMA && wanted[1] == FINAL_SIGMA;
      }
    }
  }

  /** Five characters, none of which changes length; the sigma takes its medial form. */
  lemma DottedLowers(u: Unicode, letter: Scalar)
    requires SigmasStay(u) && u.lower(AT_SIGN) == [AT_SIGN] && u.lower(0x2E) == [0x2E] && u.lower(letter) == [letter]
    requires 0x61 <= letter <= 0x7A
    ensures LowerChars(u, [AT_SIGN] + [letter, CAPITAL_SIGMA] + [0x2E, letter]) == [AT_SIGN, letter, SMALL_SIGMA, 0x2E, letter]
  {
    hide TakesFinalSigma, ContextIsCased;
    var target, after: seq<Scalar> := [letter, CAPITAL_SIGMA], [0x2E, letter];
    var text := [AT_SIGN] + target + after;
    DotThenLetter(u, letter);
    assert target[..1] == [letter] && target[2..] == [];
    assert Reversed([letter]) == [letter];
    assert Unsettled(u, target, after, 1);
    EmbeddedSigma(u, [], target, after, 1);
    assert [] + [AT_SIGN] + target + after == text;
    assert Mapped(u, text, 2) == SMALL_SIGMA;
    FiveLower(u, text);
  }

  lemma FiveLower(u: Unicode, text: seq<Scalar>)
    requires |text| == 5
    ensures LowerChars(u, text) == u.lower(Mapped(u, text, 0)) + (u.lower(Mapped(u, text, 1)) + (u.lower(Mapped(u, text, 2))
                                   + (u.lower(Mapped(u, text, 3)) + u.lower(Mapped(u, text, 4)))))
  {
    hide Mapped;
    assert LowerFrom(u, text, 5) == [];
    assert LowerFrom(u, text, 4) == u.lower(Mapped(u, text, 4));
    assert LowerFrom(u, text, 3) == u.lower(Mapped(u, text, 3)) + LowerFrom(u, text, 4);
    assert LowerFrom(u, text, 2) == u.lower(Mapped(u, text, 2)) + LowerFrom(u, text, 3);
    assert LowerFrom(u, text, 1) == u.lower(Mapped(u, text, 1)) + LowerFrom(u, text, 2);
    assert LowerFrom(u, text, 0) == u.lower(Mapped(u, text, 0)) + LowerFrom(u, text, 1);
  }

  /** On its own the name ends in the final form. */
  lemma NameLowers(u: Unicode, letter: Scalar)
    requires SigmasStay(u) && u.lower(letter) == [letter] && 0x61 <= letter <= 0x7A
    ensures LowerChars(u, [letter, CAPITAL_SIGMA]) == [letter, FINAL_SIGMA]
  {
    hide ContextIsCased;
    var target: seq<Scalar> := [letter, CAPITAL_SIGMA];
    DotThenLetter(u, letter);
    assert target[..1] == [letter] && target[2..] == [];
    assert Reversed([letter]) == [letter];
    NoContext(u);
    assert TakesFinalSigma(u, target, 1);
    assert LowerFrom(u, target, 2) == [];
    assert LowerFrom(u, target, 1) == [FINAL_SIGMA];
  }

  lemma NoContext(u: Unicode)
    ensures !ContextIsCased(u, [])
  {
  }

  lemma DotThenLetter(u: Unicode, letter: Scalar)
    requires 0x61 <= letter <= 0x7A
    ensures ContextIsCased(u, [0x2E, letter]) && ContextIsCased(u, [letter])
  {
    assert [0x2E, letter][1..] == [letter];
  }
}
