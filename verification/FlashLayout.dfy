/** Flash geometry: partition overlap checks, the sweep over a factory image, and the Launcher image. */
module FlashLayout {
  import opened Bytes

  /** A half-open stretch of flash. */
  datatype Stretch = Stretch(start: nat, finish: nat)

  const ERASED: byte := 0xFF

  predicate Disjoint(a: Stretch, b: Stretch) {
    a.finish <= b.start || b.finish <= a.start
  }

  ghost predicate PairwiseDisjoint(s: seq<Stretch>) {
    AllPairs(s, Disjoint)
  }

  // ---- Sorting does not matter ---------------------------------------------------------------

  /** Every two entries, in the order they stand in, are related. */
  ghost predicate AllPairs<T(!new)>(s: seq<T>, related: (T, T) -> bool) {
    forall i, j :: 0 <= i < j < |s| ==> related(s[i], s[j])
  }

  ghost predicate Symmetric<T(!new)>(related: (T, T) -> bool) {
    forall a, b :: related(a, b) ==> related(b, a)
  }

  /** A list with one entry taken out. */
  function Without<T>(s: seq<T>, k: nat): (r: seq<T>)
    requires k < |s|
    ensures |r| == |s| - 1
    ensures forall i :: 0 <= i < |r| ==> r[i] == s[if i < k then i else i + 1]
  {
    s[..k] + s[k + 1..]
  }

  lemma WithoutCounts<T>(s: seq<T>, k: nat)
    requires k < |s|
    ensures multiset(Without(s, k)) == multiset(s) - multiset{s[k]}
  {
    assert s == s[..k] + [s[k]] + s[k + 1..];
  }

  lemma PairsJoin<T(!new)>(s: seq<T>, k: nat, related: (T, T) -> bool)
    requires k < |s| && Symmetric(related)
    requires AllPairs(Without(s, k), related) && forall x :: x in Without(s, k) ==> related(x, s[k])
    ensures AllPairs(s, related)
  {
    hide Without;
    var rest := Without(s, k);
    forall i, j | 0 <= i < j < |s| ensures related(s[i], s[j]) {
      if i == k {
        assert rest[j - 1] == s[j];
        assert related(rest[j - 1], s[k]);
      } else if j == k {
        assert rest[i] == s[i];
      } else {
        var a, b := if i < k then i else i - 1, if j < k then j else j - 1;
        assert rest[a] == s[i] && rest[b] == s[j];
      }
    }
  }

  lemma PairsPart<T(!new)>(s: seq<T>, k: nat, related: (T, T) -> bool)
    requires k < |s| && Symmetric(related) && AllPairs(s, related)
    ensures AllPairs(Without(s, k), related) && forall x :: x in Without(s, k) ==> related(x, s[k])
  {
    hide Without;
    var rest := Without(s, k);
    forall x | x in rest ensures related(x, s[k]) {
      var i :| 0 <= i < |rest| && rest[i] == x;
      if i < k {
        assert x == s[i];
      } else {
        assert x == s[i + 1] && related(s[k], s[i + 1]);
      }
    }
  }

  lemma {:induction false} PairsPermute<T(!new)>(a: seq<T>, b: seq<T>, related: (T, T) -> bool)
    requires multiset(a) == multiset(b) && Symmetric(related)
    ensures AllPairs(a, related) ==> AllPairs(b, related)
    decreases |a|
  {
    hide AllPairs, Without;
    if a == [] {
      assert |multiset(b)| == 0;
    } else if AllPairs(a, related) {
      var n := |a| - 1;
      assert a[n] in multiset(b);
      var k :| 0 <= k < |b| && b[k] == a[n];
      PairsPart(a, n, related);
      WithoutCounts(a, n);
      WithoutCounts(b, k);
      PairsPermute(Without(a, n), Without(b, k), related);
      SameMembers(Without(a, n), Without(b, k));
      PairsJoin(b, k, related);
    }
  }

  lemma SameMembers<T>(a: seq<T>, b: seq<T>)
    requires multiset(a) == multiset(b)
    ensures forall x :: x in a <==> x in b
  {
    assert forall x :: x in a <==> x in multiset(a);
    assert forall x :: x in b <==> x in multiset(b);
  }

  /** The order of `sorted` on pairs. */
  predicate Before(a: Stretch, b: Stretch) {
    a.start < b.start || (a.start == b.start && a.finish <= b.finish)
  }

  ghost predicate Sorted(s: seq<Stretch>) {
    && (forall i :: 0 <= i < |s| ==> s[i].start <= s[i].finish)
    && (forall i, j :: 0 <= i < j < |s| ==> Before(s[i], s[j]))
  }

  predicate AdjacentApart(s: seq<Stretch>) {
    forall i :: 0 < i < |s| ==> s[i - 1].finish <= s[i].start
  }

  lemma {:induction false} AdjacentReaches(s: seq<Stretch>, i: nat, j: nat)
    requires Sorted(s) && AdjacentApart(s) && i < j < |s|
    ensures s[i].finish <= s[j].start
    decreases j
  {
    if i + 1 < j {
      AdjacentReaches(s, i, j - 1);
    }
  }

  /** In sorted order, comparing neighbours decides whether any two overlap. */
  lemma AdjacentMeansPairwise(s: seq<Stretch>)
    requires Sorted(s)
    ensures AdjacentApart(s) <==> PairwiseDisjoint(s)
  {
    if AdjacentApart(s) {
      forall i, j | 0 <= i < j < |s| ensures Disjoint(s[i], s[j]) {
        AdjacentReaches(s, i, j);
      }
    }
    if PairwiseDisjoint(s) {
      forall i | 0 < i < |s| ensures s[i - 1].finish <= s[i].start {
        assert Disjoint(s[i - 1], s[i]) && Before(s[i - 1], s[i]);
      }
    }
  }

  // ---- Partition tables ----------------------------------------------------------------------

  datatype Kind = App | Data

  datatype Partition = Partition(kind: Kind, offset: int, size: int)

  const FIRST_PARTITION: nat := 0x9000
  const APP_ALIGNMENT: nat := 0x1_0000
  const SECTOR: nat := 0x1000

  /** What a single row has to satisfy. */
  predicate RowFits(p: Partition, capacity: nat) {
    && p.offset >= 0x9000 && p.size > 0 && p.offset + p.size <= capacity
    && p.offset % (if p.kind.App? then 0x1_0000 else 0x1000) == 0 && p.size % 0x1000 == 0
  }

  predicate RowsFit(ps: seq<Partition>, capacity: nat) {
    forall i :: 0 <= i < |ps| ==> RowFits(ps[i], capacity)
  }

  ghost predicate SortedByOffset(ps: seq<Partition>) {
    forall i, j :: 0 <= i < j < |ps| ==> ps[i].offset <= ps[j].offset
  }

  predicate ApartFrom(a: Partition, b: Partition) {
    a.offset + a.size <= b.offset || b.offset + b.size <= a.offset
  }

  ghost predicate NoneOverlap(ps: seq<Partition>) {
    AllPairs(ps, ApartFrom)
  }

  /** The two loops of the reader over the rows of a table, in file order and then by offset. */
  method CheckPartitions(rows: seq<Partition>, ordered: seq<Partition>, capacity: nat) returns (accepted: bool)
    requires SortedByOffset(ordered) && multiset(ordered) == multiset(rows)
    ensures accepted <==> rows != [] && RowsFit(rows, capacity) && NoneOverlap(rows)
  {
    PairsPermute(rows, ordered, ApartFrom);
    PairsPermute(ordered, rows, ApartFrom);
    for i := 0 to |rows|
      invariant RowsFit(rows[..i], capacity)
    {
      if rows[i].offset < FIRST_PARTITION || rows[i].size <= 0 || rows[i].offset + rows[i].size > capacity {
        return false;
      }
      if rows[i].offset % (if rows[i].kind.App? then APP_ALIGNMENT else SECTOR) != 0 || rows[i].size % SECTOR != 0 {
        return false;
      }
    }
    assert rows[..|rows|] == rows;
    SameRows(rows, ordered, capacity);
    if |ordered| == 0 {
      return false;
    }
    for i := 1 to |ordered|
      invariant NoneOverlap(ordered[..i])
    {
      if ordered[i - 1].offset + ordered[i - 1].size > ordered[i].offset {
        assert RowFits(ordered[i], capacity) && ordered[i - 1].offset <= ordered[i].offset;
        assert !ApartFrom(ordered[i - 1], ordered[i]);
        return false;
      }
      NextIsApart(ordered, i, capacity);
    }
    assert ordered[..|ordered|] == ordered;
    accepted := true;
  }

  lemma SameRows(rows: seq<Partition>, ordered: seq<Partition>, capacity: nat)
    requires multiset(ordered) == multiset(rows) && RowsFit(rows, capacity)
    ensures RowsFit(ordered, capacity) && |ordered| == |rows|
  {
    assert |multiset(ordered)| == |multiset(rows)|;
    forall i | 0 <= i < |ordered| ensures RowFits(ordered[i], capacity) {
      assert ordered[i] in multiset(rows);
      var j :| 0 <= j < |rows| && rows[j] == ordered[i];
    }
  }

  lemma NextIsApart(ordered: seq<Partition>, i: nat, capacity: nat)
    requires SortedByOffset(ordered) && RowsFit(ordered, capacity) && 1 <= i < |ordered|
    requires NoneOverlap(ordered[..i]) && ordered[i - 1].offset + ordered[i - 1].size <= ordered[i].offset
    ensures NoneOverlap(ordered[..i + 1])
  {
    var front := ordered[..i];
    forall j | 0 <= j < i ensures ordered[j].offset + ordered[j].size <= ordered[i].offset {
      if j < i - 1 {
        assert front[j] == ordered[j] && front[i - 1] == ordered[i - 1];
        assert ApartFrom(front[j], front[i - 1]);
        assert RowFits(ordered[i - 1], capacity);
      }
    }
    forall j, k | 0 <= j < k < i + 1
      ensures ApartFrom(ordered[j], ordered[k])
    {
      if k < i {
        assert front[j] == ordered[j] && front[k] == ordered[k];
      }
    }
  }

  // ---- The factory image ---------------------------------------------------------------------

  function Low(a: nat, b: nat): nat {
    if a < b then a else b
  }

  /** A slice the way Python cuts it: bounds past the end stop at the end. */
  function Cut(data: Bytes, start: nat, finish: nat): Bytes {
    if Low(start, |data|) <= Low(finish, |data|) then data[Low(start, |data|)..Low(finish, |data|)] else []
  }

  predicate AllErased(data: Bytes) {
    forall i :: 0 <= i < |data| ==> data[i] == ERASED
  }

  /** How many components hold position `p`. */
  function Holders(s: seq<Stretch>, p: nat): nat {
    if s == [] then 0
    else Holders(s[..|s| - 1], p) + (if s[|s| - 1].start <= p < s[|s| - 1].finish then 1 else 0)
  }

  /** Every octet is in exactly one component, or erased and in none. */
  ghost predicate EachOnce(data: Bytes, s: seq<Stretch>) {
    forall p :: 0 <= p < |data| ==> Holders(s, p) == 1 || (Holders(s, p) == 0 && data[p] == 0xFF)
  }

  /** The components are apart, account for every octet and end where the image does. */
  ghost predicate Accounted(data: Bytes, s: seq<Stretch>) {
    && PairwiseDisjoint(s)
    && EachOnce(data, s)
    && (forall x :: x in s ==> x.finish <= |data|)
    && (data != [] ==> exists x :: x in s && x.finish == |data|)
  }

  lemma {:induction false} HoldersWithout(s: seq<Stretch>, k: nat, p: nat)
    requires k < |s|
    ensures Holders(s, p) == Holders(Without(s, k), p) + (if s[k].start <= p < s[k].finish then 1 else 0)
  {
    var n := |s| - 1;
    if k < n {
      HoldersWithout(s[..n], k, p);
      assert Without(s, k)[..n - 1] == Without(s[..n], k);
    } else {
      assert Without(s, k) == s[..n];
    }
  }

  lemma {:induction false} HoldersPermute(a: seq<Stretch>, b: seq<Stretch>, p: nat)
    requires multiset(a) == multiset(b)
    ensures Holders(a, p) == Holders(b, p)
    decreases |a|
  {
    hide Holders, Without;
    if a == [] {
      assert |multiset(b)| == 0;
    } else {
      var n := |a| - 1;
      assert a[n] in multiset(b);
      var k :| 0 <= k < |b| && b[k] == a[n];
      HoldersWithout(a, n, p);
      HoldersWithout(b, k, p);
      WithoutCounts(a, n);
      WithoutCounts(b, k);
      HoldersPermute(Without(a, n), Without(b, k), p);
    }
  }

  /** Accounting does not depend on the order the components are listed in. */
  lemma AccountedPermutes(data: Bytes, a: seq<Stretch>, b: seq<Stretch>)
    requires multiset(a) == multiset(b)
    ensures Accounted(data, a) <==> Accounted(data, b)
  {
    hide Holders;
    PairsPermute(a, b, Disjoint);
    PairsPermute(b, a, Disjoint);
    SameMembers(a, b);
    forall p | 0 <= p < |data| ensures Holders(a, p) == Holders(b, p) {
      HoldersPermute(a, b, p);
    }
  }

  /** `ordered` is what sorting the collected components gives. */
  method Sweep(data: Bytes, occupied: seq<Stretch>, ordered: seq<Stretch>) returns (accepted: bool)
    requires Sorted(ordered) && multiset(ordered) == multiset(occupied)
    ensures accepted <==> Accounted(data, occupied)
  {
    hide Accounted, Cut;
    AccountedPermutes(data, occupied, ordered);
    SweptMeans(data, ordered);
    var end := 0;
    for i := 0 to |ordered|
      invariant end == EndBefore(ordered, i) && Swept(data, ordered, i)
    {
      var start, finish := ordered[i].start, ordered[i].finish;
      if start < end || !Blank(Cut(data, end, start)) {
        assert !GapIsErased(data, ordered, i);
        assert !Swept(data, ordered, |ordered|);
        return false;
      }
      end := finish;
    }
    accepted := end == |data|;
  }

  /** Stripping the erased value from both ends leaves nothing. */
  predicate Blank(data: Bytes)
    ensures Blank(data) <==> AllErased(data)
  {
    if data == [] then true else data[|data| - 1] == ERASED && Blank(data[..|data| - 1])
  }

  /** Where the components before the `i`-th end. */
  function EndBefore(s: seq<Stretch>, i: nat): nat
    requires i <= |s|
  {
    if i == 0 then 0 else s[i - 1].finish
  }

  /** What the loop knows of the first `n` components. */
  ghost predicate Swept(data: Bytes, s: seq<Stretch>, n: nat)
    requires n <= |s|
  {
    forall i :: 0 <= i < n ==> GapIsErased(data, s, i)
  }

  /** The `i`-th component starts after the one before it, with nothing but erased flash between. */
  predicate GapIsErased(data: Bytes, s: seq<Stretch>, i: nat)
    requires i < |s|
  {
    EndBefore(s, i) <= s[i].start && AllErased(Cut(data, EndBefore(s, i), s[i].start))
  }

  /** Nothing before the first component that starts at or after `p` holds it. */
  lemma {:induction false} HoldersCount(s: seq<Stretch>, p: nat)
    requires Sorted(s) && AdjacentApart(s)
    ensures Holders(s, p) <= 1
    ensures Holders(s, p) == 0 <==> forall i :: 0 <= i < |s| ==> !(s[i].start <= p < s[i].finish)
    ensures s != [] && p >= s[|s| - 1].finish ==> Holders(s, p) == 0
  {
    if s != [] {
      var front := s[..|s| - 1];
      HoldersCount(front, p);
      assert forall i :: 0 <= i < |front| ==> front[i] == s[i];
      if front != [] && p >= s[|s| - 1].start {
        assert front[|front| - 1].finish <= s[|s| - 1].start;
      }
      if p >= s[|s| - 1].finish && front != [] {
        assert front[|front| - 1].finish <= p;
      }
    }
  }

  /** The gap that position `p` is in, if no component holds it and one ends at or after it. */
  lemma {:induction false} GapOf(s: seq<Stretch>, p: nat) returns (i: nat)
    requires Sorted(s) && AdjacentApart(s) && s != [] && p < s[|s| - 1].finish && Holders(s, p) == 0
    ensures i < |s| && EndBefore(s, i) <= p < s[i].start
  {
    HoldersCount(s, p);
    var n := |s| - 1;
    if n == 0 || s[n - 1].finish <= p {
      i := n;
    } else {
      var front := s[..n];
      HoldersCount(front, p);
      assert forall j :: 0 <= j < n ==> front[j] == s[j];
      i := GapOf(front, p);
    }
  }

  lemma CutAt(data: Bytes, start: nat, finish: nat, p: nat)
    requires start <= p < finish && p < |data|
    ensures p - start < |Cut(data, start, finish)| && Cut(data, start, finish)[p - start] == data[p]
  {
  }

  lemma CutFrom(data: Bytes, start: nat, finish: nat, k: nat)
    requires k < |Cut(data, start, finish)|
    ensures start + k < |data| && start + k < finish && Cut(data, start, finish)[k] == data[start + k]
  {
  }

  lemma SweptIsApart(data: Bytes, s: seq<Stretch>)
    requires Swept(data, s, |s|)
    ensures AdjacentApart(s)
  {
    hide AllErased;
    forall i | 0 < i < |s| ensures s[i - 1].finish <= s[i].start {
      assert GapIsErased(data, s, i);
    }
  }

  /** What the whole sweep establishes, with the test for trailing data. */
  lemma SweptMeans(data: Bytes, s: seq<Stretch>)
    requires Sorted(s)
    ensures Accounted(data, s) <==> Swept(data, s, |s|) && EndBefore(s, |s|) == |data|
  {
    hide Cut, Holders, Swept;
    AdjacentMeansPairwise(s);
    if AdjacentApart(s) {
      LastIsFurthest(s);
    }
    if Swept(data, s, |s|) && EndBefore(s, |s|) == |data| {
      SweptIsApart(data, s);
      forall p | 0 <= p < |data| ensures Holders(s, p) == 1 || (Holders(s, p) == 0 && data[p] == ERASED) {
        HoldersCount(s, p);
        if Holders(s, p) == 0 {
          var i := GapOf(s, p);
          SweptGap(data, s, i, p);
        }
      }
    }
    if Accounted(data, s) {
      AccountedIsSwept(data, s);
    }
  }

  lemma LastIsFurthest(s: seq<Stretch>)
    requires Sorted(s) && AdjacentApart(s)
    ensures forall x :: x in s ==> x.finish <= EndBefore(s, |s|)
    ensures s != [] ==> s[|s| - 1] in s
  {
    forall x | x in s ensures x.finish <= EndBefore(s, |s|) {
      var i :| 0 <= i < |s| && s[i] == x;
      if i < |s| - 1 {
        AdjacentReaches(s, i, |s| - 1);
      }
    }
  }

  lemma SweptGap(data: Bytes, s: seq<Stretch>, i: nat, p: nat)
    requires Swept(data, s, |s|) && i < |s| && EndBefore(s, i) <= p < s[i].start && p < |data|
    ensures data[p] == ERASED
  {
    hide Cut;
    assert GapIsErased(data, s, i);
    CutAt(data, EndBefore(s, i), s[i].start, p);
  }

  lemma AccountedIsSwept(data: Bytes, s: seq<Stretch>)
    requires Sorted(s) && AdjacentApart(s)
    requires forall p :: 0 <= p < |data| ==> Holders(s, p) == 1 || (Holders(s, p) == 0 && data[p] == ERASED)
    ensures Swept(data, s, |s|)
  {
    hide AllErased, Cut, Holders;
    forall i | 0 <= i < |s| ensures GapIsErased(data, s, i) {
      AccountedGap(data, s, i);
    }
  }

  lemma AccountedGap(data: Bytes, s: seq<Stretch>, i: nat)
    requires Sorted(s) && AdjacentApart(s) && i < |s|
    requires forall p :: 0 <= p < |data| ==> Holders(s, p) == 1 || (Holders(s, p) == 0 && data[p] == ERASED)
    ensures AllErased(Cut(data, EndBefore(s, i), s[i].start))
  {
    hide Cut, Holders;
    var start := EndBefore(s, i);
    var gap := Cut(data, start, s[i].start);
    forall k | 0 <= k < |gap| ensures gap[k] == ERASED {
      CutFrom(data, start, s[i].start, k);
      HoldersCount(s, start + k);
      NotInside(s, i, start + k);
    }
  }

  /** No component holds a position between two neighbours. */
  lemma NotInside(s: seq<Stretch>, i: nat, p: nat)
    requires Sorted(s) && AdjacentApart(s) && i < |s|
    requires EndBefore(s, i) <= p < s[i].start
    ensures forall j :: 0 <= j < |s| ==> !(s[j].start <= p < s[j].finish)
  {
    forall j | 0 <= j < |s| ensures !(s[j].start <= p < s[j].finish) {
      if j + 1 < i {
        AdjacentReaches(s, j, i - 1);
      } else if i < j {
        AdjacentReaches(s, i, j);
      }
    }
  }

  // ---- The Launcher layout -------------------------------------------------------------------

  const STORAGE_SIZE: nat := 0x7_0000
  const STORAGE_PROBE: nat := 0x1000
  const BOOT_END: nat := 0x8000
  const TABLE_END: nat := 0x8C00
  const META_START: nat := 0xE000
  const APP_START: nat := 0x1_0000

  /** Adding 0xFFFF and clearing the low sixteen bits. */
  function RoundedUp(size: nat): (r: nat)
    ensures size <= r < size + 0x1_0000 && r % 0x1_0000 == 0
  {
    (size + 0xFFFF) / 0x1_0000 * 0x1_0000
  }

  function LauncherPartitions(appSize: nat): (ps: seq<Partition>)
    ensures |ps| == 4
  {
    var app := RoundedUp(appSize);
    [Partition(Data, 0x9000, 0x5000), Partition(Data, 0xE000, 0x2000),
     Partition(App, APP_START, app), Partition(Data, APP_START + app, STORAGE_SIZE)]
  }

  /** The application part is the application in whole blocks of 64 KiB; the other rows are fixed or follow it. */
  lemma LauncherRows(appSize: nat)
    ensures var app := LauncherPartitions(appSize)[2].size;
            && app % 0x1_0000 == 0 && appSize <= app < appSize + 0x1_0000
            && LauncherPartitions(appSize) == [Partition(Data, 0x9000, 0x5000), Partition(Data, 0xE000, 0x2000),
                                               Partition(App, 0x1_0000, app), Partition(Data, 0x1_0000 + app, 0x7_0000)]
  {
    hide RoundedUp;
  }

  lemma LauncherApart(appSize: nat)
    ensures SortedByOffset(LauncherPartitions(appSize)) && NoneOverlap(LauncherPartitions(appSize))
  {
    hide RoundedUp;
    LauncherRows(appSize);
  }

  lemma FourRowsFit(a: Partition, b: Partition, c: Partition, d: Partition, capacity: nat)
    ensures RowsFit([a, b, c, d], capacity) <==> RowFits(a, capacity) && RowFits(b, capacity) && RowFits(c, capacity) && RowFits(d, capacity)
  {
    hide RowFits;
    var ps := [a, b, c, d];
    assert ps[0] == a && ps[1] == b && ps[2] == c && ps[3] == d;
  }

  /** The Launcher table follows the rules of an explicit one exactly when there is an application and room for it. */
  lemma LauncherFollowsRules(appSize: nat, capacity: nat)
    ensures SortedByOffset(LauncherPartitions(appSize)) && NoneOverlap(LauncherPartitions(appSize))
    ensures RowsFit(LauncherPartitions(appSize), capacity)
        <==> appSize > 0 && 0x8_0000 + LauncherPartitions(appSize)[2].size <= capacity
  {
    hide RowsFit, SortedByOffset, NoneOverlap, LauncherPartitions;
    LauncherApart(appSize);
    LauncherRows(appSize);
    var ps := LauncherPartitions(appSize);
    FourRowsFit(ps[0], ps[1], ps[2], ps[3], capacity);
    assert ps == [ps[0], ps[1], ps[2], ps[3]];
  }

  function LauncherLength(appSize: nat): nat {
    APP_START + RoundedUp(appSize) + STORAGE_PROBE
  }

  function LauncherComponents(appSize: nat): seq<Stretch> {
    [Stretch(0, BOOT_END), Stretch(BOOT_END, TABLE_END), Stretch(META_START, APP_START), Stretch(APP_START, APP_START + appSize)]
  }

  /** Fills an erased image and lays the parts of the standalone image, and the new table, over it. */
  method LauncherImage(standalone: Bytes, offset: nat, size: nat, table: Bytes) returns (image: array<byte>)
    requires offset >= APP_START && offset + size <= |standalone| && |table| == TABLE_END - BOOT_END
    ensures fresh(image) && image.Length == LauncherLength(size)
    ensures image[..] == LauncherBytes(standalone, offset, size, table)
  {
    var length := LauncherLength(size);
    image := new byte[length](_ => ERASED);
    ghost var blank := Erased(length);
    assert image[..] == blank;
    CopyInto(image, 0, standalone[..BOOT_END]);
    assert image[BOOT_END..] == blank[BOOT_END..];
    CopyInto(image, BOOT_END, table);
    assert image[..TABLE_END] == standalone[..BOOT_END] + table;
    assert image[TABLE_END..] == blank[TABLE_END..];
    CopyInto(image, META_START, standalone[META_START..APP_START]);
    assert image[TABLE_END..META_START] == blank[TABLE_END..META_START];
    assert image[APP_START..] == blank[APP_START..];
    ghost var front := image[..APP_START];
    assert front == standalone[..BOOT_END] + table + blank[TABLE_END..META_START] + standalone[META_START..APP_START];
    CopyInto(image, APP_START, standalone[offset..offset + size]);
    assert image[..APP_START] == front;
    assert image[APP_START + size..] == blank[APP_START + size..];
    ErasedParts(length, TABLE_END, META_START);
    ErasedParts(length, APP_START + size, length);
    assert blank[APP_START + size..length] == blank[APP_START + size..];
    assert image[..] == image[..APP_START] + image[APP_START..APP_START + size] + image[APP_START + size..];
  }

  lemma ErasedParts(n: nat, from: nat, to: nat)
    requires from <= to <= n
    ensures Erased(n)[from..to] == Erased(to - from)
  {
  }

  function Erased(n: nat): (e: Bytes)
    ensures |e| == n && AllErased(e)
  {
    seq(n, _ => ERASED)
  }

  function LauncherBytes(standalone: Bytes, offset: nat, size: nat, table: Bytes): (image: Bytes)
    requires offset >= APP_START && offset + size <= |standalone| && |table| == TABLE_END - BOOT_END
    ensures |image| == LauncherLength(size)
  {
    standalone[..BOOT_END] + table + Erased(META_START - TABLE_END) + standalone[META_START..APP_START]
      + standalone[offset..offset + size] + Erased(LauncherLength(size) - APP_START - size)
  }

  /** Bootloader, boot metadata and application are carried over unchanged; everything else but the table is erased. */
  lemma LauncherCarries(standalone: Bytes, offset: nat, size: nat, table: Bytes)
    requires offset >= 0x1_0000 && offset + size <= |standalone| && |table| == 0xC00
    ensures var image := LauncherBytes(standalone, offset, size, table);
            && 0x1_1000 + size <= |image| < 0x2_1000 + size && |image| % 0x1_0000 == 0x1000
            && image[..0x8000] == standalone[..0x8000]
            && image[0x8000..0x8C00] == table
            && image[0xE000..0x1_0000] == standalone[0xE000..0x1_0000]
            && image[0x1_0000..0x1_0000 + size] == standalone[offset..offset + size]
            && (forall p :: 0x8C00 <= p < 0xE000 ==> image[p] == 0xFF)
            && (forall p :: 0x1_0000 + size <= p < |image| ==> image[p] == 0xFF)
  {
    hide Erased, RoundedUp;
  }

  /** The components listed for it do not overlap, and what none of them holds is erased. */
  lemma LauncherIsAccounted(standalone: Bytes, offset: nat, size: nat, table: Bytes)
    requires offset >= 0x1_0000 && offset + size <= |standalone| && |table| == 0xC00
    ensures var image := LauncherBytes(standalone, offset, size, table);
            && PairwiseDisjoint(LauncherComponents(size))
            && forall p :: 0 <= p < |image| && Holders(LauncherComponents(size), p) == 0 ==> image[p] == 0xFF
  {
    hide LauncherBytes, Holders, LauncherComponents;
    LauncherCarries(standalone, offset, size, table);
    var image := LauncherBytes(standalone, offset, size, table);
    LauncherHolders(size, 0);
    forall p | 0 <= p < |image| && Holders(LauncherComponents(size), p) == 0 ensures image[p] == 0xFF {
      LauncherHolders(size, p);
    }
  }

  lemma LauncherHolders(size: nat, p: nat)
    ensures Holders(LauncherComponents(size), p) == 0 <==> TABLE_END <= p < META_START || p >= APP_START + size
    ensures PairwiseDisjoint(LauncherComponents(size))
  {
    var s := LauncherComponents(size);
    assert Sorted(s) && AdjacentApart(s);
    HoldersCount(s, p);
    AdjacentMeansPairwise(s);
    assert s[0] == Stretch(0, BOOT_END) && s[1] == Stretch(BOOT_END, TABLE_END);
    assert s[2] == Stretch(META_START, APP_START) && s[3] == Stretch(APP_START, APP_START + size);
  }
}
