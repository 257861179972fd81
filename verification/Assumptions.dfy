/**
 * Concrete parameters that meet what is assumed of code outside the repository, so that no result
 * proved under an assumption is empty. The announce crates have theirs in `AnnounceExample`.
 */
module Assumptions {
  import opened Bytes
  import opened Utf8
  import opened Casing
  import Mentions
  import Normalize
  import NoticeBundle
  import SealedKey
  import UnicodeIndex

  // ---- Character properties ------------------------------------------------------------------

  function Lower(c: Scalar): seq<Scalar> {
    if 0x41 <= c <= 0x5A then [c + 0x20] else if c == CAPITAL_SIGMA then [SMALL_SIGMA] else [c]
  }

  predicate Letter(c: Scalar) {
    0x41 <= c <= 0x5A || 0x61 <= c <= 0x7A || c in {CAPITAL_SIGMA, SMALL_SIGMA, FINAL_SIGMA}
  }

  const UNICODE := Unicode(
    (c: Scalar) => Lower(c),
    (c: Scalar) => Letter(c),
    (c: Scalar) => c == 0xAD,
    (c: Scalar) => c == 0x20,
    (c: Scalar) => Letter(c) || 0x30 <= c <= 0x39)

  lemma CharactersExist()
    ensures Normalize.LowerLaws(UNICODE) && Mentions.SigmasStay(UNICODE)
    ensures UNICODE.lower(Mentions.AT_SIGN) == [Mentions.AT_SIGN] && UNICODE.lower(0x2E) == [0x2E]
    ensures !Ambiguous(UNICODE, MODIFIER_LETTER)
  {
  }

  /** A room is normalized under these properties: the hypotheses of the projection results can be met. */
  lemma RoomExists()
    ensures Normalize.NormalizeSpec(UNICODE, [0x20, 0x41], 0) == Ok([0x61]) && Normalize.Canonical(UNICODE, [0x61])
  {
    hide Normalize.Canonical, Normalize.Trim, LowerFrom, Encode, Decode;
    OctetsRead();
    LetterLowers();
    CharactersExist();
    Normalize.RoomIsProjection(UNICODE, [0x20, 0x41]);
  }

  lemma OctetsRead()
    ensures Decode([0x20, 0x41]) == Text([0x20, 0x41]) && Encode([0x61]) == [0x61]
  {
    assert [0x20, 0x41][1..] == [0x41] && [0x41][1..] == [] && [0x61][1..] == [];
    assert Decode([0x41]) == Text([0x41]);
  }

  lemma LetterLowers()
    ensures Normalize.Trim(UNICODE, [0x20, 0x41]) == [0x41] && LowerChars(UNICODE, [0x41]) == [0x61]
  {
    var text: seq<Scalar> := [0x20, 0x41];
    assert text[1..] == [0x41];
    assert Normalize.TrimStart(UNICODE, text) == [0x41];
    assert LowerFrom(UNICODE, [0x41], 1) == [];
  }

  // ---- Compressed tables ---------------------------------------------------------------------

  /** Two chunks; the second starts at U+02B0 with a run inside the property. */
  const TWO_CHUNKS := UnicodeIndex.Table(
    [UnicodeIndex.NewHeader(0, MODIFIER_LETTER), UnicodeIndex.NewHeader(11, 0x11_0000)],
    [0, 0, 0, 0, 0, 0, 0, 0, 0, 0, 0, 1, 0])

  lemma TwoChunksExist()
    ensures UnicodeIndex.WellFormed(TWO_CHUNKS)
    ensures UnicodeIndex.Base(TWO_CHUNKS, 1) == MODIFIER_LETTER && UnicodeIndex.Start(TWO_CHUNKS, 1) == 11
    ensures UnicodeIndex.Stored(TWO_CHUNKS, 1) == [1]
  {
    var t := TWO_CHUNKS;
    assert UnicodeIndex.Start(t, 0) == 0 && UnicodeIndex.Start(t, 1) == 11 && UnicodeIndex.Start(t, 2) == 13;
    assert UnicodeIndex.Base(t, 1) == MODIFIER_LETTER && UnicodeIndex.Base(t, 2) == 0x11_0000;
    assert UnicodeIndex.Ordered(t);
    assert UnicodeIndex.Stored(t, 1) == [1];
    assert [1][..0] == [];
    assert UnicodeIndex.Sum([1]) == 1;
    NoSum(UnicodeIndex.Stored(t, 0));
  }

  lemma {:induction false} NoSum(s: seq<nat>)
    requires forall i :: 0 <= i < |s| ==> s[i] == 0
    ensures UnicodeIndex.Sum(s) == 0
  {
    if s != [] {
      NoSum(s[..|s| - 1]);
    }
  }

  /** One chunk that starts as the table of cased characters does. */
  const ONE_CHUNK := UnicodeIndex.Table(
    [UnicodeIndex.NewHeader(0, 0x11_0000)],
    [170, 1, 10, 1, 4, 1, 5, 23, 1, 31, 1, 195, 1, 4, 4, 208, 2, 35, 0])

  lemma OneChunkExists()
    ensures UnicodeIndex.WellFormed(ONE_CHUNK)
    ensures |UnicodeIndex.Stored(ONE_CHUNK, 0)| >= 18 && UnicodeIndex.Stored(ONE_CHUNK, 0)[..18] == CASED_START
  {
    var t := ONE_CHUNK;
    assert UnicodeIndex.Start(t, 0) == 0 && UnicodeIndex.Start(t, 1) == 19 && UnicodeIndex.Base(t, 1) == 0x11_0000;
    assert UnicodeIndex.Ordered(t);
    assert UnicodeIndex.Stored(t, 0) == CASED_START;
    CasedStartSum(18);
    assert CASED_START[..18] == CASED_START;
  }

  // ---- Encryption and digests ----------------------------------------------------------------

  function Seal(plain: Bytes, capacity: nat): SealedKey.Sealing {
    if |plain| <= capacity && |plain| <= SealedKey.MAX_FRAME then SealedKey.Sealed(plain) else SealedKey.OutputTooSmall
  }

  function Open(sealed: Bytes): SealedKey.Opening {
    if |sealed| <= SealedKey.MAX_FRAME then SealedKey.Opened(sealed) else SealedKey.NotOpened
  }

  const ECIES := SealedKey.Ecies(
    (plain: Bytes, key: Bytes, hash: Bytes, ephemeral: Bytes, vector: Bytes, capacity: nat) => Seal(plain, capacity),
    (sealed: Bytes, key: Bytes, hash: Bytes) => Open(sealed))

  lemma EciesExists(id: SealedKey.Identity)
    requires SealedKey.Shaped(id)
    ensures SealedKey.EciesFits(ECIES) && SealedKey.EciesOpens(ECIES, id)
  {
  }

  /** Sealing can succeed under it. */
  lemma SealingExists(id: SealedKey.Identity, hub: Bytes, key: Bytes, entropy: Bytes)
    requires SealedKey.Shaped(id) && |hub| == 16 && |entropy| == 48 && SealedKey.KeyForm(key)
    ensures SealedKey.SealSpec(UNICODE, ECIES, SealedKey.Loaded(id), hub, [0x61], key, entropy, SealedKey.MAX_SEALED)
         == (StatusOk, SealedKey.Frame(id.hash, hub, [0x61], key))
  {
    hide Normalize.Canonical, Valid, SealedKey.Frame;
    RoomExists();
    SealedKey.FrameLayout(id.hash, hub, [0x61], key);
  }

  const STYLE := NoticeBundle.Style(data => data, [], path => path, name => name, (name, path) => name + path)

  lemma DigestExists()
    ensures NoticeBundle.DigestIsInjective(STYLE)
  {
  }
}
