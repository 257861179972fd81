/**
 * The compressed two-level index behind the Unicode property tables. A table alternates runs of
 * characters outside and inside the property; `SkipSearch` finds the run a character falls into
 * without ever expanding the table, and is shown to agree with the expanded list.
 */
module UnicodeIndex {
  import opened Bytes

  type u32 = v: int | 0 <= v < 0x1_0000_0000

  const CHAR_MAX: nat := 0x10_FFFF

  /** Start index in the upper eleven bits, prefix sum in the lower twenty-one. */
  datatype Header = Header(bits: u32) {

    function StartIndex(): nat {
      bits / 0x20_0000
    }

    function PrefixSum(): nat {
      bits % 0x20_0000
    }

    /** `skip_search` compares headers after a shift that drops the start index. */
    function SortKey(): nat {
      bits * 0x800 % 0x1_0000_0000
    }
  }

  function NewHeader(startIndex: nat, prefixSum: nat): (h: Header)
    requires startIndex < 0x800 && prefixSum < 0x20_0000
    ensures h.StartIndex() == startIndex && h.PrefixSum() == prefixSum
  {
    Header(startIndex * 0x20_0000 + prefixSum)
  }

  lemma SortKeyIsPrefix(h: Header)
    ensures h.SortKey() == h.PrefixSum() * 0x800
  {
    assert h.bits == h.StartIndex() * 0x20_0000 + h.PrefixSum();
    assert h.bits * 0x800 == h.StartIndex() * 0x1_0000_0000 + h.PrefixSum() * 0x800;
  }

  datatype Table = Table(runs: seq<Header>, offsets: seq<byte>)

  function Sum(s: seq<nat>): nat {
    if s == [] then 0 else Sum(s[..|s| - 1]) + s[|s| - 1]
  }

  /** Where chunk `i` begins among the offsets; after the last chunk, where they end. */
  function Start(t: Table, i: nat): nat
    requires i <= |t.runs|
  {
    if i < |t.runs| then t.runs[i].StartIndex() else |t.offsets|
  }

  /** The first character of chunk `i`. */
  function Base(t: Table, i: nat): nat
    requires i <= |t.runs|
  {
    if i == 0 then 0 else t.runs[i - 1].PrefixSum()
  }

  ghost predicate Ordered(t: Table) {
    && t.runs != []
    && Start(t, 0) == 0
    && (forall i, j :: 0 <= i < j <= |t.runs| ==> Start(t, i) < Start(t, j))
    && (forall i, j :: 0 <= i < j <= |t.runs| ==> Base(t, i) < Base(t, j))
    && Base(t, |t.runs|) > CHAR_MAX
  }

  lemma StartsBounded(t: Table, i: nat, j: nat)
    requires Ordered(t) && i <= j <= |t.runs|
    ensures Start(t, i) <= Start(t, j) <= |t.offsets| && Base(t, i) <= Base(t, j)
  {
    assert Start(t, |t.runs|) == |t.offsets|;
  }

  /** The stored run lengths of chunk `i`: all but the last, which the chunk's width implies. */
  function Stored(t: Table, i: nat): seq<nat>
    requires Ordered(t) && i < |t.runs|
  {
    StartsBounded(t, i, i + 1);
    t.offsets[Start(t, i)..Start(t, i + 1) - 1]
  }

  /** A table a generator may emit: the stored lengths of a chunk never exceed its width. */
  ghost predicate WellFormed(t: Table) {
    && Ordered(t)
    && forall i :: 0 <= i < |t.runs| ==> Base(t, i) + Sum(Stored(t, i)) <= Base(t, i + 1)
  }

  // ---- The expanded table --------------------------------------------------------------------

  /** All run lengths of chunk `i`. */
  ghost function Chunk(t: Table, i: nat): seq<nat>
    requires WellFormed(t) && i < |t.runs|
  {
    Stored(t, i) + [Base(t, i + 1) - Base(t, i) - Sum(Stored(t, i))]
  }

  /** All run lengths of the first `n` chunks, one after the other. */
  ghost function Expanded(t: Table, n: nat): seq<nat>
    requires WellFormed(t) && n <= |t.runs|
  {
    if n == 0 then [] else Expanded(t, n - 1) + Chunk(t, n - 1)
  }

  /** `c` falls into run `k`: the runs before it end at or below `c`, and it ends above. */
  ghost predicate FallsInto(runs: seq<nat>, c: nat, k: nat) {
    k < |runs| && Sum(runs[..k]) <= c < Sum(runs[..k + 1])
  }

  /** Runs alternate: even-numbered ones lie outside the property, odd-numbered ones inside. */
  ghost predicate Member(t: Table, c: nat)
    requires WellFormed(t)
  {
    exists k :: FallsInto(Expanded(t, |t.runs|), c, k) && k % 2 == 1
  }

  lemma {:induction false} SumConcat(x: seq<nat>, y: seq<nat>)
    ensures Sum(x + y) == Sum(x) + Sum(y)
  {
    if y == [] {
      assert x + y == x;
    } else {
      SumConcat(x, y[..|y| - 1]);
      assert (x + y)[..|x + y| - 1] == x + y[..|y| - 1];
    }
  }

  lemma SumGrows(runs: seq<nat>, i: nat, j: nat)
    requires i <= j <= |runs|
    ensures Sum(runs[..i]) <= Sum(runs[..j])
  {
    assert runs[..j] == runs[..i] + runs[i..j];
    SumConcat(runs[..i], runs[i..j]);
  }

  /** A character falls into at most one run. */
  lemma RunIsUnique(runs: seq<nat>, c: nat, j: nat, k: nat)
    requires FallsInto(runs, c, j) && FallsInto(runs, c, k)
    ensures j == k
  {
    if j < k {
      SumGrows(runs, j + 1, k);
    } else if k < j {
      SumGrows(runs, k + 1, j);
    }
  }

  lemma ChunkShape(t: Table, i: nat)
    requires WellFormed(t) && i < |t.runs|
    ensures |Chunk(t, i)| == Start(t, i + 1) - Start(t, i) && Sum(Chunk(t, i)) == Base(t, i + 1) - Base(t, i)
  {
    StartsBounded(t, i, i + 1);
    var stored := Stored(t, i);
    assert Chunk(t, i)[..|stored|] == stored;
  }

  lemma {:induction false} ExpandedShape(t: Table, n: nat)
    requires WellFormed(t) && n <= |t.runs|
    ensures |Expanded(t, n)| == Start(t, n) && Sum(Expanded(t, n)) == Base(t, n)
  {
    hide *;
    if n == 0 {
      NothingExpanded(t);
    } else {
      ExpandedShape(t, n - 1);
      ChunkShape(t, n - 1);
      ExpandedUnfold(t, n - 1);
      SumConcat(Expanded(t, n - 1), Chunk(t, n - 1));
    }
  }

  lemma NothingExpanded(t: Table)
    requires WellFormed(t)
    ensures Expanded(t, 0) == [] && Start(t, 0) == 0 && Base(t, 0) == 0 && Sum([]) == 0
  {
  }

  lemma {:induction false} ExpandedPrefix(t: Table, n: nat, m: nat)
    requires WellFormed(t) && n <= m <= |t.runs|
    ensures Start(t, n) <= |Expanded(t, m)| && Expanded(t, m)[..Start(t, n)] == Expanded(t, n)
    decreases m
  {
    hide WellFormed, Ordered, Chunk, Start, Expanded;
    ExpandedShape(t, n);
    if n < m {
      ExpandedPrefix(t, n, m - 1);
      ExpandedUnfold(t, m - 1);
      var front := Expanded(t, m - 1);
      assert (front + Chunk(t, m - 1))[..Start(t, n)] == front[..Start(t, n)];
    }
  }

  /** A place inside chunk `i` is a place in the whole table. */
  lemma ChunkLocates(t: Table, i: nat, c: nat, k: nat)
    requires WellFormed(t) && i < |t.runs| && Base(t, i) <= c && FallsInto(Chunk(t, i), c - Base(t, i), k)
    ensures FallsInto(Expanded(t, |t.runs|), c, Start(t, i) + k)
  {
    hide WellFormed, Ordered, Chunk, FallsInto;
    var all, upTo, chunk := Expanded(t, |t.runs|), Expanded(t, i + 1), Chunk(t, i);
    ChunkFacts(t, i, c, k);
    ExpandedShape(t, i);
    ExpandedPrefix(t, i + 1, |t.runs|);
    ExpandedUnfold(t, i);
    var front := Expanded(t, i);
    SumConcat(front, chunk[..k]);
    SumConcat(front, chunk[..k + 1]);
    assert all[..Start(t, i) + k] == front + chunk[..k];
    assert all[..Start(t, i) + k + 1] == front + chunk[..k + 1];
    FallsIntoIf(all, c, Start(t, i) + k);
  }

  lemma ExpandedUnfold(t: Table, i: nat)
    requires WellFormed(t) && i < |t.runs|
    ensures Expanded(t, i + 1) == Expanded(t, i) + Chunk(t, i)
  {
  }

  lemma ChunkFacts(t: Table, i: nat, c: nat, k: nat)
    requires WellFormed(t) && i < |t.runs| && Base(t, i) <= c && FallsInto(Chunk(t, i), c - Base(t, i), k)
    ensures var chunk := Chunk(t, i);
            k < |chunk| && Base(t, i) + Sum(chunk[..k]) <= c < Base(t, i) + Sum(chunk[..k + 1])
    ensures Start(t, i + 1) == Start(t, i) + |Chunk(t, i)|
  {
    StartsBounded(t, i, i + 1);
  }

  lemma FallsIntoIf(runs: seq<nat>, c: nat, k: nat)
    requires k < |runs| && Sum(runs[..k]) <= c < Sum(runs[..k + 1])
    ensures FallsInto(runs, c, k)
  {
  }

  // ---- The search ----------------------------------------------------------------------------

  /** The library search over headers in increasing key order: an equal key, or where it would go. */
  method SearchByKey(runs: seq<Header>, key: nat) returns (found: bool, index: nat)
    requires forall i, j :: 0 <= i < j < |runs| ==> runs[i].SortKey() < runs[j].SortKey()
    ensures index <= |runs|
    ensures forall i :: 0 <= i < index ==> runs[i].SortKey() < key
    ensures if found then index < |runs| && runs[index].SortKey() == key
            else forall i :: index <= i < |runs| ==> runs[i].SortKey() > key
  {
    var lo, hi := 0, |runs|;
    while lo < hi
      invariant 0 <= lo <= hi <= |runs|
      invariant forall i :: 0 <= i < lo ==> runs[i].SortKey() < key
      invariant forall i :: hi <= i < |runs| ==> runs[i].SortKey() > key
    {
      var mid := (lo + hi) / 2;
      if runs[mid].SortKey() == key {
        return true, mid;
      } else if runs[mid].SortKey() < key {
        lo := mid + 1;
      } else {
        hi := mid;
      }
    }
    return false, lo;
  }

  /** The chunk a character belongs to. */
  method FindChunk(t: Table, needle: u32) returns (chunk: nat)
    requires WellFormed(t) && needle <= CHAR_MAX
    ensures chunk < |t.runs| && Base(t, chunk) <= needle < Base(t, chunk + 1)
  {
    hide WellFormed, Ordered, Start;
    KeysAscend(t);
    // A character is below 2^21, so shifting it left by eleven loses nothing.
    var found, index := SearchByKey(t.runs, needle * 0x800 % 0x1_0000_0000);
    chunk := if found then index + 1 else index;
    KeyFinds(t, needle, found, index);
  }

  lemma KeysAscend(t: Table)
    requires WellFormed(t)
    ensures t.runs != []
    ensures forall i :: 0 <= i < |t.runs| ==> t.runs[i].SortKey() == Base(t, i + 1) * 0x800
    ensures forall i, j :: 0 <= i < j < |t.runs| ==> t.runs[i].SortKey() < t.runs[j].SortKey()
  {
    forall i | 0 <= i < |t.runs| ensures t.runs[i].SortKey() == Base(t, i + 1) * 0x800 {
      SortKeyIsPrefix(t.runs[i]);
    }
    forall i, j | 0 <= i < j < |t.runs| ensures t.runs[i].SortKey() < t.runs[j].SortKey() {
      assert Base(t, i + 1) < Base(t, j + 1);
    }
  }

  /** The neighbours of the place found bound the character. */
  lemma KeyFinds(t: Table, needle: u32, found: bool, index: nat)
    requires WellFormed(t) && needle <= CHAR_MAX && index <= |t.runs|
    requires forall i :: 0 <= i < index ==> t.runs[i].SortKey() < needle * 0x800
    requires if found then index < |t.runs| && t.runs[index].SortKey() == needle * 0x800
             else forall i :: index <= i < |t.runs| ==> t.runs[i].SortKey() > needle * 0x800
    ensures var chunk := if found then index + 1 else index;
            chunk < |t.runs| && Base(t, chunk) <= needle < Base(t, chunk + 1)
  {
    hide WellFormed, Ordered, Start, Base;
    KeysAscend(t);
    KeyFacts(t);
    var n := |t.runs|;
    assert t.runs[n - 1].SortKey() == Base(t, n) * 0x800;
    if index > 0 {
      assert t.runs[index - 1].SortKey() == Base(t, index) * 0x800;
    }
    if index < n {
      assert t.runs[index].SortKey() == Base(t, index + 1) * 0x800;
    }
  }

  lemma KeyFacts(t: Table)
    requires WellFormed(t)
    ensures Base(t, 0) == 0 && Base(t, |t.runs|) > CHAR_MAX
    ensures forall i :: 0 <= i < |t.runs| ==> Base(t, i) < Base(t, i + 1)
  {
  }

  /**
   * Whether `needle` has the property. None of the assertions in `skip_search` can fail and none
   * of its subtractions can go below zero.
   */
  method SkipSearch(t: Table, needle: u32) returns (inside: bool)
    requires WellFormed(t) && needle <= CHAR_MAX
    ensures inside <==> Member(t, needle)
  {
    var last := FindChunk(t, needle);
    assert last < |t.runs|;
    StartsBounded(t, last, last + 1);
    var offsetIndex := t.runs[last].StartIndex();
    var length := (if last + 1 < |t.runs| then t.runs[last + 1].StartIndex() else |t.offsets|) - offsetIndex;
    assert length == Start(t, last + 1) - Start(t, last) >= 1;
    var previous := if last > 0 then t.runs[last - 1].PrefixSum() else 0;
    var total: u32 := needle - previous;
    inside := Walk(t, last, length, total);
  }

  /** The walk along the stored run lengths of one chunk. */
  method Walk(t: Table, chunk: nat, length: nat, total: u32) returns (inside: bool)
    requires WellFormed(t) && chunk < |t.runs|
    requires length == Start(t, chunk + 1) - Start(t, chunk) && length >= 1
    requires Base(t, chunk) + total < Base(t, chunk + 1) <= 0x20_0000
    ensures inside <==> Member(t, Base(t, chunk) + total)
  {
    hide Ordered, Chunk, Member, FallsInto;
    StartsBounded(t, chunk, chunk + 1);
    ghost var stored := Stored(t, chunk);
    var offsetIndex := Start(t, chunk);
    var prefixSum: u32 := 0;
    for n := 0 to length - 1
      invariant offsetIndex == Start(t, chunk) + n
      invariant prefixSum == Sum(stored[..n]) <= total
    {
      assert offsetIndex < |t.offsets|;
      var offset := t.offsets[offsetIndex];
      assert stored[..n + 1][..n] == stored[..n];
      StoredSumBounded(t, chunk, n + 1);
      prefixSum := prefixSum + offset;
      if prefixSum > total {
        StoredRun(t, chunk, total, n);
        FoundRun(t, chunk, total, n);
        return offsetIndex % 2 == 1;
      }
      offsetIndex := offsetIndex + 1;
    }
    assert stored[..length - 1] == stored;
    LastRun(t, chunk, total);
    FoundRun(t, chunk, total, length - 1);
    return offsetIndex % 2 == 1;
  }

  lemma StoredSumBounded(t: Table, i: nat, n: nat)
    requires WellFormed(t) && i < |t.runs| && n <= |Stored(t, i)|
    ensures Sum(Stored(t, i)[..n]) <= Sum(Stored(t, i)) <= Base(t, i + 1)
  {
    SumGrows(Stored(t, i), n, |Stored(t, i)|);
    assert Stored(t, i)[..|Stored(t, i)|] == Stored(t, i);
  }

  lemma StoredRun(t: Table, i: nat, total: nat, n: nat)
    requires WellFormed(t) && i < |t.runs| && n < |Stored(t, i)|
    requires Sum(Stored(t, i)[..n]) <= total < Sum(Stored(t, i)[..n + 1])
    ensures FallsInto(Chunk(t, i), total, n)
  {
    hide Ordered, Sum;
    var stored, runs := Stored(t, i), Chunk(t, i);
    assert runs[..n] == stored[..n] && runs[..n + 1] == stored[..n + 1];
  }

  /** Past all stored lengths, a character of the chunk lies in its last run. */
  lemma LastRun(t: Table, i: nat, total: nat)
    requires WellFormed(t) && i < |t.runs|
    requires Sum(Stored(t, i)) <= total && Base(t, i) + total < Base(t, i + 1)
    ensures FallsInto(Chunk(t, i), total, |Stored(t, i)|)
  {
    var stored, runs := Stored(t, i), Chunk(t, i);
    assert runs[..|stored|] == stored;
    assert runs[..|stored| + 1] == runs;
  }

  lemma FoundRun(t: Table, i: nat, total: nat, k: nat)
    requires WellFormed(t) && i < |t.runs| && FallsInto(Chunk(t, i), total, k)
    ensures Member(t, Base(t, i) + total) <==> (Start(t, i) + k) % 2 == 1
  {
    hide WellFormed, Ordered, Chunk, FallsInto, Expanded;
    var c := Base(t, i) + total;
    ChunkLocates(t, i, c, k);
    if Member(t, c) {
      var j :| FallsInto(Expanded(t, |t.runs|), c, j) && j % 2 == 1;
      RunIsUnique(Expanded(t, |t.runs|), c, j, Start(t, i) + k);
    }
  }

  /** A lookup first refuses everything below the table's first character of interest. */
  method Lookup(t: Table, needle: u32, floor: nat) returns (inside: bool)
    requires WellFormed(t) && needle <= CHAR_MAX
    requires forall c :: 0 <= c < floor && c <= CHAR_MAX ==> !Member(t, c)
    ensures inside <==> Member(t, needle)
  {
    if needle < floor {
      return false;
    }
    inside := SkipSearch(t, needle);
  }
}
