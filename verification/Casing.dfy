/**
 * Streamed contextual lowercasing: which small sigma a capital sigma becomes, compared with the
 * Final_Sigma condition of section 3.13 of the Unicode Standard.
 */
module Casing {
  import opened Utf8
  import UnicodeIndex

  /** Character properties and mappings of the language's library and of the two compressed tables. */
  datatype Unicode = Unicode(
    lower: Scalar -> seq<Scalar>,
    casedTable: Scalar -> bool,
    ignorableTable: Scalar -> bool,
    white: Scalar -> bool,
    alphanumeric: Scalar -> bool)

  const CAPITAL_SIGMA: Scalar := 0x3A3
  const FINAL_SIGMA: Scalar := 0x3C2
  const SMALL_SIGMA: Scalar := 0x3C3

  predicate Ascii(c: Scalar) {
    c < 0x80
  }

  /** Apostrophe, full stop, colon, circumflex and grave accent among ASCII; the table beyond. */
  predicate CaseIgnorable(u: Unicode, c: Scalar) {
    if Ascii(c) then c in {0x27, 0x2E, 0x3A, 0x5E, 0x60} else u.ignorableTable(c)
  }

  predicate Cased(u: Unicode, c: Scalar) {
    if Ascii(c) then 0x41 <= c <= 0x5A || 0x61 <= c <= 0x7A else u.casedTable(c)
  }

  /** Whether the first character that is not case-ignorable exists and is cased. */
  predicate ContextIsCased(u: Unicode, chars: seq<Scalar>) {
    chars != [] && if CaseIgnorable(u, chars[0]) then ContextIsCased(u, chars[1..]) else Cased(u, chars[0])
  }

  function Reversed(chars: seq<Scalar>): (r: seq<Scalar>)
    ensures |r| == |chars|
    ensures forall i :: 0 <= i < |chars| ==> r[i] == chars[|chars| - 1 - i]
  {
    if chars == [] then [] else Reversed(chars[1..]) + [chars[0]]
  }

  /** The test `lower_chars` makes for a capital sigma at `i`. */
  predicate TakesFinalSigma(u: Unicode, text: seq<Scalar>, i: nat)
    requires i < |text|
  {
    ContextIsCased(u, Reversed(text[..i])) && !ContextIsCased(u, text[i + 1..])
  }

  function Mapped(u: Unicode, text: seq<Scalar>, i: nat): Scalar
    requires i < |text|
  {
    if text[i] == CAPITAL_SIGMA then
      if TakesFinalSigma(u, text, i) then FINAL_SIGMA else SMALL_SIGMA
    else text[i]
  }

  /** The lowered characters from index `i` on. */
  function LowerFrom(u: Unicode, text: seq<Scalar>, i: nat): seq<Scalar>
    requires i <= |text|
    decreases |text| - i
  {
    if i == |text| then [] else u.lower(Mapped(u, text, i)) + LowerFrom(u, text, i + 1)
  }

  function LowerChars(u: Unicode, text: seq<Scalar>): seq<Scalar> {
    LowerFrom(u, text, 0)
  }

  // ---- The Unicode Standard's condition ------------------------------------------------------

  ghost predicate AllIgnorable(u: Unicode, text: seq<Scalar>, lo: nat, hi: nat)
    requires hi <= |text|
  {
    forall k :: lo <= k < hi ==> CaseIgnorable(u, text[k])
  }

  /** A cased character before `i`, with only case-ignorable characters between. */
  ghost predicate CasedBefore(u: Unicode, text: seq<Scalar>, i: nat)
    requires i <= |text|
  {
    exists j :: 0 <= j < i && Cased(u, text[j]) && AllIgnorable(u, text, j + 1, i)
  }

  /** A cased character at or after `i`, with only case-ignorable characters between. */
  ghost predicate CasedAfter(u: Unicode, text: seq<Scalar>, i: nat)
    requires i <= |text|
  {
    exists j :: i <= j < |text| && Cased(u, text[j]) && AllIgnorable(u, text, i, j)
  }

  ghost predicate FinalSigma(u: Unicode, text: seq<Scalar>, i: nat)
    requires i < |text|
  {
    CasedBefore(u, text, i) && !CasedAfter(u, text, i + 1)
  }

  /** The standard lets a character be cased and case-ignorable at once. */
  predicate Ambiguous(u: Unicode, c: Scalar) {
    Cased(u, c) && CaseIgnorable(u, c)
  }

  /** A doubly classified character in the run of ignorables that ends just before `i`. */
  ghost predicate AmbiguousBefore(u: Unicode, text: seq<Scalar>, i: nat)
    requires i <= |text|
  {
    exists j :: 0 <= j < i && Cased(u, text[j]) && AllIgnorable(u, text, j, i)
  }

  /** A doubly classified character in the run of ignorables that starts at `i`. */
  ghost predicate AmbiguousAfter(u: Unicode, text: seq<Scalar>, i: nat)
    requires i <= |text|
  {
    exists j :: i <= j < |text| && Cased(u, text[j]) && AllIgnorable(u, text, i, j + 1)
  }

  /** A cased character that is not itself ignorable, after ignorable ones only. */
  ghost predicate FirstIsCased(u: Unicode, chars: seq<Scalar>, j: nat) {
    j < |chars| && Cased(u, chars[j]) && !CaseIgnorable(u, chars[j]) && AllIgnorable(u, chars, 0, j)
  }

  lemma FirstIsCasedCons(u: Unicode, chars: seq<Scalar>, j: nat)
    requires chars != [] && CaseIgnorable(u, chars[0])
    ensures FirstIsCased(u, chars, j + 1) <==> FirstIsCased(u, chars[1..], j)
    ensures !FirstIsCased(u, chars, 0)
  {
    hide Cased, CaseIgnorable;
    var rest := chars[1..];
    if FirstIsCased(u, rest, j) {
      assert forall k :: 1 <= k < j + 1 ==> chars[k] == rest[k - 1];
    }
    if FirstIsCased(u, chars, j + 1) {
      assert forall k :: 0 <= k < j ==> rest[k] == chars[k + 1];
    }
  }

  /** What the streamed test finds. */
  lemma {:induction false} ContextMeans(u: Unicode, chars: seq<Scalar>)
    ensures ContextIsCased(u, chars) <==> exists j: nat :: FirstIsCased(u, chars, j)
  {
    hide Cased, CaseIgnorable;
    if chars == [] {
    } else if CaseIgnorable(u, chars[0]) {
      hide FirstIsCased;
      ContextMeans(u, chars[1..]);
      if j: nat :| FirstIsCased(u, chars[1..], j) {
        FirstIsCasedCons(u, chars, j);
      }
      if j: nat :| FirstIsCased(u, chars, j) {
        FirstIsCasedCons(u, chars, if j > 0 then j - 1 else 0);
      }
    } else {
      assert FirstIsCased(u, chars, 0) <==> Cased(u, chars[0]);
    }
  }

  lemma ReversedFirst(u: Unicode, text: seq<Scalar>, i: nat, j: nat)
    requires j < i <= |text|
    ensures FirstIsCased(u, Reversed(text[..i]), i - 1 - j)
        <==> Cased(u, text[j]) && !CaseIgnorable(u, text[j]) && AllIgnorable(u, text, j + 1, i)
  {
    hide Cased, CaseIgnorable;
    var back := Reversed(text[..i]);
    assert forall k :: 0 <= k < i ==> back[k] == text[i - 1 - k];
    assert forall k :: 0 <= k < i ==> text[k] == back[i - 1 - k];
  }

  lemma BeforeMeans(u: Unicode, text: seq<Scalar>, i: nat)
    requires i <= |text|
    ensures CasedBefore(u, text, i) <==> ContextIsCased(u, Reversed(text[..i])) || AmbiguousBefore(u, text, i)
  {
    hide Cased, CaseIgnorable, ContextIsCased, FirstIsCased, Reversed;
    ContextMeans(u, Reversed(text[..i]));
    if j: nat :| FirstIsCased(u, Reversed(text[..i]), j) {
      FirstIsBounded(u, Reversed(text[..i]), j);
      ReversedFirst(u, text, i, i - 1 - j);
    }
    if j :| 0 <= j < i && Cased(u, text[j]) && AllIgnorable(u, text, j + 1, i) {
      ReversedFirst(u, text, i, j);
      assert AllIgnorable(u, text, j, i) <==> CaseIgnorable(u, text[j]);
    }
    if j :| 0 <= j < i && Cased(u, text[j]) && AllIgnorable(u, text, j, i) {
      assert AllIgnorable(u, text, j + 1, i);
    }
  }

  lemma FirstIsBounded(u: Unicode, chars: seq<Scalar>, j: nat)
    requires FirstIsCased(u, chars, j)
    ensures j < |chars|
  {
  }

  lemma SuffixFirst(u: Unicode, text: seq<Scalar>, i: nat, j: nat)
    requires i <= j < |text|
    ensures FirstIsCased(u, text[i..], j - i)
        <==> Cased(u, text[j]) && !CaseIgnorable(u, text[j]) && AllIgnorable(u, text, i, j)
  {
    hide Cased, CaseIgnorable;
    var rest := text[i..];
    assert forall k :: i <= k < |text| ==> text[k] == rest[k - i];
    assert forall k :: 0 <= k < |rest| ==> rest[k] == text[i + k];
  }

  lemma AfterMeans(u: Unicode, text: seq<Scalar>, i: nat)
    requires i <= |text|
    ensures CasedAfter(u, text, i) <==> ContextIsCased(u, text[i..]) || AmbiguousAfter(u, text, i)
  {
    hide Cased, CaseIgnorable, ContextIsCased, FirstIsCased;
    ContextMeans(u, text[i..]);
    if j: nat :| FirstIsCased(u, text[i..], j) {
      FirstIsBounded(u, text[i..], j);
      SuffixFirst(u, text, i, i + j);
    }
    if j :| i <= j < |text| && Cased(u, text[j]) && AllIgnorable(u, text, i, j) {
      SuffixFirst(u, text, i, j);
      assert AllIgnorable(u, text, i, j + 1) <==> CaseIgnorable(u, text[j]);
    }
    if j :| i <= j < |text| && Cased(u, text[j]) && AllIgnorable(u, text, i, j + 1) {
      assert AllIgnorable(u, text, i, j);
    }
  }

  /**
   * The sigma chosen at `i` is the standard's exactly when a cased letter follows, or else the
   * doubly classified characters around it do not matter: with one in the run after it, only if no
   * cased letter precedes; with one only in the run before it, only if a cased letter precedes.
   */
  lemma SigmaAgreement(u: Unicode, text: seq<Scalar>, i: nat)
    requires i < |text|
    ensures var before := ContextIsCased(u, Reversed(text[..i]));
            var after := ContextIsCased(u, text[i + 1..]);
            (TakesFinalSigma(u, text, i) <==> FinalSigma(u, text, i)) <==>
              (after
               || if AmbiguousAfter(u, text, i + 1) then !before else before || !AmbiguousBefore(u, text, i))
  {
    hide ContextIsCased, CasedBefore, CasedAfter, AmbiguousBefore, AmbiguousAfter;
    BeforeMeans(u, text, i);
    AfterMeans(u, text, i + 1);
  }

  /** The choice is the standard's for every text exactly when no character is cased and ignorable at once. */
  lemma SigmaAgreesEverywhere(u: Unicode)
    ensures (forall text: seq<Scalar>, i: nat | i < |text| && text[i] == CAPITAL_SIGMA ::
               TakesFinalSigma(u, text, i) <==> FinalSigma(u, text, i))
        <==> (forall c: Scalar :: !Ambiguous(u, c))
  {
    if c: Scalar :| Ambiguous(u, c) {
      SigmaAfterAmbiguous(u, c);
    } else {
      forall text: seq<Scalar>, i: nat | i < |text| && text[i] == CAPITAL_SIGMA
        ensures TakesFinalSigma(u, text, i) <==> FinalSigma(u, text, i)
      {
        SigmaAgreement(u, text, i);
        NoneAmbiguous(u, text, i);
      }
    }
  }

  lemma NoneAmbiguous(u: Unicode, text: seq<Scalar>, i: nat)
    requires i < |text| && forall c: Scalar :: !Ambiguous(u, c)
    ensures !AmbiguousBefore(u, text, i) && !AmbiguousAfter(u, text, i + 1)
  {
    hide Cased, CaseIgnorable;
    forall j | 0 <= j < |text| ensures !(Cased(u, text[j]) && CaseIgnorable(u, text[j])) {
      assert !Ambiguous(u, text[j]);
    }
  }

  /** A concrete disagreement: right after such a character the standard wants the final form. */
  lemma SigmaAfterAmbiguous(u: Unicode, c: Scalar)
    requires Ambiguous(u, c)
    ensures FinalSigma(u, [c, CAPITAL_SIGMA], 1) && !TakesFinalSigma(u, [c, CAPITAL_SIGMA], 1)
  {
    hide Cased, CaseIgnorable;
    var text := [c, CAPITAL_SIGMA];
    assert Cased(u, text[0]);
    assert text[..1] == [c];
    var back := Reversed(text[..1]);
    assert back == [c] && back[1..] == [];
    assert !ContextIsCased(u, back[1..]);
  }

  // ---- What lowering computes ----------------------------------------------------------------

  /** The ASCII characters that are ignored, and the ASCII letters; tables decide beyond ASCII. */
  lemma ClassesMean(u: Unicode, c: Scalar)
    ensures CaseIgnorable(u, c) <==> if c < 128 then c as char in "'.:^`" else u.ignorableTable(c)
    ensures Cased(u, c) <==> if c < 128 then 'a' <= c as char <= 'z' || 'A' <= c as char <= 'Z' else u.casedTable(c)
  {
    assert c < 128 ==> (c as char in "'.:^`" <==> c as char in {'\'', '.', ':', '^', '`'});
  }

  function Joined(pieces: seq<seq<Scalar>>): seq<Scalar> {
    if pieces == [] then [] else pieces[0] + Joined(pieces[1..])
  }

  /** A cased letter before `i`, reached over ignorable characters that are passed by even when they are cased. */
  ghost predicate LetterBefore(u: Unicode, text: seq<Scalar>, i: nat)
    requires i <= |text|
  {
    exists j :: 0 <= j < i && Cased(u, text[j]) && !CaseIgnorable(u, text[j]) && AllIgnorable(u, text, j + 1, i)
  }

  ghost predicate LetterAfter(u: Unicode, text: seq<Scalar>, i: nat)
    requires i <= |text|
  {
    exists j :: i <= j < |text| && Cased(u, text[j]) && !CaseIgnorable(u, text[j]) && AllIgnorable(u, text, i, j)
  }

  /** What the character at `i` is lowered as: U+03A3 as U+03C2 behind a letter with none following, else as U+03C3. */
  ghost function LoweredAs(u: Unicode, text: seq<Scalar>, i: nat): Scalar
    requires i < |text|
  {
    if text[i] != 0x3A3 then text[i]
    else if LetterBefore(u, text, i) && !LetterAfter(u, text, i + 1) then 0x3C2
    else 0x3C3
  }

  lemma MappedMeans(u: Unicode, text: seq<Scalar>, i: nat)
    requires i < |text|
    ensures Mapped(u, text, i) == LoweredAs(u, text, i)
  {
    hide Cased, CaseIgnorable, ContextIsCased, FirstIsCased, Reversed;
    var back, rest := Reversed(text[..i]), text[i + 1..];
    ContextMeans(u, back);
    ContextMeans(u, rest);
    if j: nat :| FirstIsCased(u, back, j) {
      FirstIsBounded(u, back, j);
      ReversedFirst(u, text, i, i - 1 - j);
    }
    if j :| 0 <= j < i && Cased(u, text[j]) && !CaseIgnorable(u, text[j]) && AllIgnorable(u, text, j + 1, i) {
      ReversedFirst(u, text, i, j);
    }
    if j: nat :| FirstIsCased(u, rest, j) {
      FirstIsBounded(u, rest, j);
      SuffixFirst(u, text, i + 1, i + 1 + j);
    }
    if j :| i + 1 <= j < |text| && Cased(u, text[j]) && !CaseIgnorable(u, text[j]) && AllIgnorable(u, text, i + 1, j) {
      SuffixFirst(u, text, i + 1, j);
    }
  }

  lemma {:induction false} LowerFromMeans(u: Unicode, text: seq<Scalar>, i: nat, pieces: seq<seq<Scalar>>)
    requires i <= |text| && |pieces| == |text| - i
    requires forall k :: 0 <= k < |pieces| ==> pieces[k] == u.lower(LoweredAs(u, text, i + k))
    ensures LowerFrom(u, text, i) == Joined(pieces)
    decreases |text| - i
  {
    hide Mapped, LoweredAs;
    if i < |text| {
      MappedMeans(u, text, i);
      assert pieces[0] == u.lower(LoweredAs(u, text, i + 0));
      LowerFromMeans(u, text, i + 1, pieces[1..]);
    }
  }

  /** Every character contributes its own mapping, in order, with the sigmas chosen by what stands around them. */
  lemma LowerMeans(u: Unicode, text: seq<Scalar>, pieces: seq<seq<Scalar>>)
    requires |pieces| == |text| && forall k :: 0 <= k < |text| ==> pieces[k] == u.lower(LoweredAs(u, text, k))
    ensures LowerChars(u, text) == Joined(pieces)
  {
    hide LowerFrom, LoweredAs;
    LowerFromMeans(u, text, 0, pieces);
  }

  // ---- Both tables do hold such a character --------------------------------------------------

  const MODIFIER_LETTER: nat := 0x2B0

  /** Any well-formed table whose second chunk starts at U+02B0 with an odd, nonempty run has it inside. */
  lemma IgnorableHasModifierLetter(t: UnicodeIndex.Table)
    requires UnicodeIndex.WellFormed(t) && |t.runs| >= 2
    requires UnicodeIndex.Base(t, 1) == MODIFIER_LETTER && UnicodeIndex.Start(t, 1) == 11
    requires UnicodeIndex.Stored(t, 1) != [] && UnicodeIndex.Stored(t, 1)[0] > 0
    ensures UnicodeIndex.Member(t, MODIFIER_LETTER)
  {
    var stored := UnicodeIndex.Stored(t, 1);
    assert stored[..1][..0] == [];
    assert stored[..1] == [stored[0]];
    assert UnicodeIndex.Sum(stored[..1]) == stored[0];
    UnicodeIndex.StoredRun(t, 1, 0, 0);
    UnicodeIndex.FoundRun(t, 1, 0, 0);
  }

  // The first eighteen run lengths of the table of cased characters.
  const CASED_START: seq<nat> := [170, 1, 10, 1, 4, 1, 5, 23, 1, 31, 1, 195, 1, 4, 4, 208, 2, 35]

  const RUNNING: seq<nat> := [0, 170, 171, 181, 182, 186, 187, 192, 215, 216, 247, 248, 443, 444, 448, 452, 660, 662, 697]

  /** Any well-formed table that starts as the table of cased characters does has U+02B0 inside too. */
  lemma CasedHasModifierLetter(t: UnicodeIndex.Table)
    requires UnicodeIndex.WellFormed(t) && |UnicodeIndex.Stored(t, 0)| >= 18
    requires UnicodeIndex.Stored(t, 0)[..18] == CASED_START
    ensures UnicodeIndex.Member(t, MODIFIER_LETTER)
  {
    var stored := UnicodeIndex.Stored(t, 0);
    CasedStartSum(17);
    CasedStartSum(18);
    assert stored[..17] == CASED_START[..17];
    assert CASED_START[..18] == CASED_START;
    UnicodeIndex.StoredRun(t, 0, MODIFIER_LETTER, 17);
    UnicodeIndex.FoundRun(t, 0, MODIFIER_LETTER, 17);
  }

  lemma {:induction false} CasedStartSum(n: nat)
    requires n <= |CASED_START|
    ensures UnicodeIndex.Sum(CASED_START[..n]) == RUNNING[n]
  {
    if n > 0 {
      CasedStartSum(n - 1);
      assert CASED_START[..n][..n - 1] == CASED_START[..n - 1];
    }
  }
}
