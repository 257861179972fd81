/** The third-party notice bundle: every license text stored once, every notice pointing into it. */
module NoticeBundle {
  import opened Bytes

  datatype Notice = Notice(path: Bytes, data: Bytes)

  /** A component's heading lines, the name its texts are referred to by, and its notices. */
  datatype Component = Component(heading: Bytes, name: Bytes, notices: seq<Notice>)

  /** What the manifest records of a notice. */
  datatype Placed = Placed(offset: nat, length: nat, sha: Bytes)

  datatype First = First(offset: nat, original: Bytes)

  /** The digest and the fixed wording around the texts. */
  datatype Style = Style(digest: Bytes -> Bytes, preamble: Bytes, noticeHeading: Bytes -> Bytes, same: Bytes -> Bytes, joined: (Bytes, Bytes) -> Bytes)

  ghost predicate DigestIsInjective(t: Style) {
    forall a, b :: t.digest(a) == t.digest(b) ==> a == b
  }

  const LINE_END: Bytes := [10]

  /** The bundle so far, where each digest was first seen, and the notices placed so far. */
  datatype Book = Book(bundle: Bytes, seen: map<Bytes, First>, placed: seq<Placed>)

  // ---- What is written -----------------------------------------------------------------------

  function PutNotice(t: Style, b: Book, name: Bytes, n: Notice): Book {
    var bundle := b.bundle + t.noticeHeading(n.path);
    var sha := t.digest(n.data);
    if sha in b.seen then
      Book(bundle + t.same(b.seen[sha].original), b.seen, b.placed + [Placed(b.seen[sha].offset, |n.data|, sha)])
    else
      Book(bundle + n.data + LINE_END, b.seen[sha := First(|bundle|, t.joined(name, n.path))],
           b.placed + [Placed(|bundle|, |n.data|, sha)])
  }

  function PutNotices(t: Style, b: Book, name: Bytes, ns: seq<Notice>): Book {
    if ns == [] then b else PutNotice(t, PutNotices(t, b, name, ns[..|ns| - 1]), name, ns[|ns| - 1])
  }

  function PutComponents(t: Style, cs: seq<Component>): Book {
    if cs == [] then Book(t.preamble, map[], [])
    else
      var b, c := PutComponents(t, cs[..|cs| - 1]), cs[|cs| - 1];
      PutNotices(t, b.(bundle := b.bundle + c.heading), c.name, c.notices)
  }

  /** All texts, in the order their notices are written. */
  function Texts(cs: seq<Component>): seq<Bytes> {
    if cs == [] then [] else Texts(cs[..|cs| - 1]) + DataOf(cs[|cs| - 1].notices)
  }

  function DataOf(ns: seq<Notice>): (d: seq<Bytes>)
    ensures |d| == |ns|
  {
    if ns == [] then [] else DataOf(ns[..|ns| - 1]) + [ns[|ns| - 1].data]
  }

  method WriteBundle(t: Style, components: seq<Component>) returns (bundle: Bytes, placed: seq<Placed>)
    ensures bundle == PutComponents(t, components).bundle
    ensures placed == PutComponents(t, components).placed
  {
    bundle, placed := t.preamble, [];
    var seen: map<Bytes, First> := map[];
    assert components[..0] == [];
    for i := 0 to |components|
      invariant Book(bundle, seen, placed) == PutComponents(t, components[..i])
    {
      var c := components[i];
      assert components[..i + 1][..i] == components[..i];
      bundle := bundle + c.heading;
      ghost var b := Book(bundle, seen, placed);
      assert c.notices[..0] == [];
      for j := 0 to |c.notices|
        invariant Book(bundle, seen, placed) == PutNotices(t, b, c.name, c.notices[..j])
      {
        var notice := c.notices[j];
        assert c.notices[..j + 1][..j] == c.notices[..j];
        bundle := bundle + t.noticeHeading(notice.path);
        var sha := t.digest(notice.data);
        if sha in seen {
          placed := placed + [Placed(seen[sha].offset, |notice.data|, sha)];
          bundle := bundle + t.same(seen[sha].original);
        } else {
          placed := placed + [Placed(|bundle|, |notice.data|, sha)];
          seen := seen[sha := First(|bundle|, t.joined(c.name, notice.path))];
          bundle := bundle + notice.data;
          bundle := bundle + LINE_END;
        }
      }
      assert c.notices[..|c.notices|] == c.notices;
    }
    assert components[..|components|] == components;
  }

  // ---- Every notice points at its text -------------------------------------------------------

  /** The stretch of the bundle where a text is stored. */
  predicate StoredAt(bundle: Bytes, first: First, data: Bytes) {
    first.offset + |data| <= |bundle| && bundle[first.offset..first.offset + |data|] == data
  }

  ghost predicate SeenSound(t: Style, b: Book) {
    forall data {:trigger t.digest(data)} :: t.digest(data) in b.seen ==> StoredAt(b.bundle, b.seen[t.digest(data)], data)
  }

  predicate PointsAt(t: Style, bundle: Bytes, p: Placed, data: Bytes) {
    p.length == |data| && p.sha == t.digest(data) && StoredAt(bundle, First(p.offset, []), data)
  }

  ghost predicate AllPoint(t: Style, b: Book, texts: seq<Bytes>) {
    && |b.placed| == |texts|
    && forall i :: 0 <= i < |texts| ==>
         && PointsAt(t, b.bundle, b.placed[i], texts[i])
         && b.placed[i].sha in b.seen && b.seen[b.placed[i].sha].offset == b.placed[i].offset
  }

  /** Texts stored at different places do not overlap. */
  ghost predicate Apart(t: Style, b: Book) {
    forall x, y {:trigger t.digest(x), t.digest(y)} :: t.digest(x) in b.seen && t.digest(y) in b.seen && x != y ==>
      b.seen[t.digest(x)].offset + |x| <= b.seen[t.digest(y)].offset || b.seen[t.digest(y)].offset + |y| <= b.seen[t.digest(x)].offset
  }

  lemma StoredGrows(bundle: Bytes, more: Bytes, first: First, data: Bytes)
    requires StoredAt(bundle, first, data)
    ensures StoredAt(bundle + more, first, data)
  {
    assert (bundle + more)[first.offset..first.offset + |data|] == bundle[first.offset..first.offset + |data|];
  }

  lemma MoreKeeps(t: Style, b: Book, more: Bytes, texts: seq<Bytes>)
    requires SeenSound(t, b) && AllPoint(t, b, texts)
    ensures SeenSound(t, b.(bundle := b.bundle + more)) && AllPoint(t, b.(bundle := b.bundle + more), texts)
  {
    hide StoredAt;
    forall data | t.digest(data) in b.seen
      ensures StoredAt(b.bundle + more, b.seen[t.digest(data)], data)
    {
      StoredGrows(b.bundle, more, b.seen[t.digest(data)], data);
    }
    forall i | 0 <= i < |texts| ensures PointsAt(t, b.bundle + more, b.placed[i], texts[i]) {
      StoredGrows(b.bundle, more, First(b.placed[i].offset, []), texts[i]);
    }
  }

  /** A text not seen before, appended with its entry. */
  lemma NewText(t: Style, b: Book, data: Bytes, original: Bytes, texts: seq<Bytes>)
    requires DigestIsInjective(t) && SeenSound(t, b) && AllPoint(t, b, texts) && t.digest(data) !in b.seen
    ensures var sha := t.digest(data);
            var n := Book(b.bundle + data, b.seen[sha := First(|b.bundle|, original)], b.placed + [Placed(|b.bundle|, |data|, sha)]);
            SeenSound(t, n) && AllPoint(t, n, texts + [data]) && (Apart(t, b) ==> Apart(t, n))
  {
    MoreKeeps(t, b, data, texts);
    assert StoredAt(b.bundle + data, First(|b.bundle|, original), data);
    assert StoredAt(b.bundle + data, First(|b.bundle|, []), data);
    hide StoredAt;
    var sha := t.digest(data);
    var n := Book(b.bundle + data, b.seen[sha := First(|b.bundle|, original)], b.placed + [Placed(|b.bundle|, |data|, sha)]);
    forall x | t.digest(x) in n.seen ensures StoredAt(n.bundle, n.seen[t.digest(x)], x) {
      if t.digest(x) == sha {
        assert x == data;
      }
    }
    if Apart(t, b) {
      NewIsApart(t, b, data, original);
    }
  }

  lemma NewIsApart(t: Style, b: Book, data: Bytes, original: Bytes)
    requires DigestIsInjective(t) && SeenSound(t, b) && Apart(t, b) && t.digest(data) !in b.seen
    ensures Apart(t, Book(b.bundle + data, b.seen[t.digest(data) := First(|b.bundle|, original)], b.placed))
  {
  }

  /** A text seen before: only the entry is added, at the place of the first. */
  lemma OldText(t: Style, b: Book, data: Bytes, texts: seq<Bytes>)
    requires SeenSound(t, b) && AllPoint(t, b, texts) && t.digest(data) in b.seen
    ensures var sha := t.digest(data);
            AllPoint(t, b.(placed := b.placed + [Placed(b.seen[sha].offset, |data|, sha)]), texts + [data])
  {
  }

  ghost predicate Sound(t: Style, b: Book, texts: seq<Bytes>) {
    SeenSound(t, b) && AllPoint(t, b, texts) && Apart(t, b)
  }

  lemma NoticeKeeps(t: Style, b: Book, name: Bytes, n: Notice, texts: seq<Bytes>)
    requires DigestIsInjective(t) && Sound(t, b, texts)
    ensures Sound(t, PutNotice(t, b, name, n), texts + [n.data])
  {
    hide SeenSound, AllPoint, Apart, DigestIsInjective;
    var headed := b.(bundle := b.bundle + t.noticeHeading(n.path));
    MoreKeeps(t, b, t.noticeHeading(n.path), texts);
    ApartIgnores(t, b, headed);
    var sha := t.digest(n.data);
    if sha in b.seen {
      OldText(t, headed, n.data, texts);
      var listed := headed.(placed := headed.placed + [Placed(b.seen[sha].offset, |n.data|, sha)]);
      SeenIgnores(t, headed, listed);
      MoreKeeps(t, listed, t.same(b.seen[sha].original), texts + [n.data]);
      ApartIgnores(t, b, PutNotice(t, b, name, n));
    } else {
      var original := t.joined(name, n.path);
      NewText(t, headed, n.data, original, texts);
      var stored := Book(headed.bundle + n.data, headed.seen[sha := First(|headed.bundle|, original)],
                         headed.placed + [Placed(|headed.bundle|, |n.data|, sha)]);
      MoreKeeps(t, stored, LINE_END, texts + [n.data]);
      ApartIgnores(t, stored, PutNotice(t, b, name, n));
    }
  }

  lemma ApartIgnores(t: Style, b: Book, n: Book)
    requires Apart(t, b) && n.seen == b.seen
    ensures Apart(t, n)
  {
  }

  lemma SeenIgnores(t: Style, b: Book, n: Book)
    requires SeenSound(t, b) && n.seen == b.seen && n.bundle == b.bundle
    ensures SeenSound(t, n)
  {
  }

  lemma {:induction false} NoticesKeep(t: Style, b: Book, name: Bytes, ns: seq<Notice>, texts: seq<Bytes>)
    requires DigestIsInjective(t) && Sound(t, b, texts)
    ensures Sound(t, PutNotices(t, b, name, ns), texts + DataOf(ns))
  {
    hide Sound, PutNotice, DigestIsInjective;
    if ns == [] {
      assert texts + DataOf(ns) == texts;
    } else {
      var front := ns[..|ns| - 1];
      NoticesKeep(t, b, name, front, texts);
      NoticeKeeps(t, PutNotices(t, b, name, front), name, ns[|ns| - 1], texts + DataOf(front));
      assert texts + DataOf(ns) == texts + DataOf(front) + [ns[|ns| - 1].data];
    }
  }

  lemma {:induction false} BundleIsSound(t: Style, cs: seq<Component>)
    requires DigestIsInjective(t)
    ensures Sound(t, PutComponents(t, cs), Texts(cs))
  {
    hide Sound, PutNotices, DigestIsInjective, DataOf;
    if cs == [] {
      NothingIsSound(t);
    } else {
      var front, c := cs[..|cs| - 1], cs[|cs| - 1];
      BundleIsSound(t, front);
      var b := PutComponents(t, front);
      HeadingKeeps(t, b, c.heading, Texts(front));
      NoticesKeep(t, b.(bundle := b.bundle + c.heading), c.name, c.notices, Texts(front));
    }
  }

  lemma HeadingKeeps(t: Style, b: Book, heading: Bytes, texts: seq<Bytes>)
    requires Sound(t, b, texts)
    ensures Sound(t, b.(bundle := b.bundle + heading), texts)
  {
    hide SeenSound, AllPoint, Apart;
    MoreKeeps(t, b, heading, texts);
    ApartIgnores(t, b, b.(bundle := b.bundle + heading));
  }

  lemma NothingIsSound(t: Style)
    ensures Sound(t, Book(t.preamble, map[], []), [])
  {
  }

  // ---- The text of the bundle ----------------------------------------------------------------

  /** A notice and the name of its component. */
  datatype Listed = Listed(name: Bytes, notice: Notice)

  function ListOf(name: Bytes, ns: seq<Notice>): (l: seq<Listed>)
    ensures |l| == |ns| && forall i :: 0 <= i < |ns| ==> l[i] == Listed(name, ns[i])
  {
    seq(|ns|, i requires 0 <= i < |ns| => Listed(name, ns[i]))
  }

  /** All notices, in the order they are written. */
  function Listing(cs: seq<Component>): seq<Listed> {
    if cs == [] then [] else Listing(cs[..|cs| - 1]) + ListOf(cs[|cs| - 1].name, cs[|cs| - 1].notices)
  }

  /** The `j`-th notice is the first with this text. */
  predicate FirstWith(all: seq<Listed>, data: Bytes, j: nat) {
    j < |all| && all[j].notice.data == data && forall i :: 0 <= i < j ==> all[i].notice.data != data
  }

  /** The text has not been written yet, or every place seen for it is under the name of its first notice. */
  ghost predicate Known(t: Style, b: Book, all: seq<Listed>) {
    && (forall x {:trigger t.digest(x)} :: t.digest(x) in b.seen ==> exists j: nat :: FirstWith(all, x, j))
    && (forall x, j: nat :: FirstWith(all, x, j) ==>
          t.digest(x) in b.seen && b.seen[t.digest(x)].original == t.joined(all[j].name, all[j].notice.path))
  }

  lemma FirstGrows(all: seq<Listed>, l: Listed, data: Bytes, j: nat)
    ensures FirstWith(all, data, j) ==> FirstWith(all + [l], data, j)
    ensures FirstWith(all + [l], data, j) && j < |all| ==> FirstWith(all, data, j)
  {
    assert forall i :: 0 <= i < |all| ==> (all + [l])[i] == all[i];
  }

  lemma {:induction false} StandsFirst(all: seq<Listed>, data: Bytes, k: nat) returns (j: nat)
    requires k < |all| && all[k].notice.data == data
    ensures FirstWith(all, data, j)
  {
    if i: nat :| i < k && all[i].notice.data == data {
      j := StandsFirst(all, data, i);
    } else {
      j := k;
    }
  }

  lemma NoticeIsKnown(t: Style, b: Book, name: Bytes, n: Notice, all: seq<Listed>)
    requires DigestIsInjective(t) && Known(t, b, all)
    ensures Known(t, PutNotice(t, b, name, n), all + [Listed(name, n)])
  {
    hide FirstWith;
    FirstInside(all + [Listed(name, n)]);
    var m, more := PutNotice(t, b, name, n), all + [Listed(name, n)];
    forall x | t.digest(x) in m.seen ensures exists j: nat :: FirstWith(more, x, j) {
      if t.digest(x) in b.seen {
        var j: nat :| FirstWith(all, x, j);
        FirstGrows(all, Listed(name, n), x, j);
      } else {
        assert x == n.data;
        var j := StandsFirst(more, x, |all|);
      }
    }
    forall x, j: nat | j < |more| && FirstWith(more, x, j)
      ensures t.digest(x) in m.seen && m.seen[t.digest(x)].original == t.joined(more[j].name, more[j].notice.path)
    {
      FirstStands(more, x, j);
      FirstGrows(all, Listed(name, n), x, j);
      if j == |all| {
        NotBefore(t, b, all, x, Listed(name, n));
      }
    }
  }

  lemma FirstInside(all: seq<Listed>)
    ensures forall x, j: nat :: FirstWith(all, x, j) ==> j < |all|
  {
  }

  lemma FirstStands(all: seq<Listed>, data: Bytes, j: nat)
    requires FirstWith(all, data, j)
    ensures j < |all| && all[j].notice.data == data
  {
  }

  lemma NotBefore(t: Style, b: Book, all: seq<Listed>, data: Bytes, l: Listed)
    requires Known(t, b, all) && FirstWith(all + [l], data, |all|)
    ensures t.digest(data) !in b.seen
  {
    if t.digest(data) in b.seen {
      var j: nat :| FirstWith(all, data, j);
      FirstGrows(all, l, data, j);
    }
  }

  lemma {:induction false} NoticesAreKnown(t: Style, b: Book, name: Bytes, ns: seq<Notice>, all: seq<Listed>)
    requires DigestIsInjective(t) && Known(t, b, all)
    ensures Known(t, PutNotices(t, b, name, ns), all + ListOf(name, ns))
  {
    hide Known, PutNotice, DigestIsInjective;
    if ns == [] {
      assert all + ListOf(name, ns) == all;
    } else {
      var front, last := ns[..|ns| - 1], ns[|ns| - 1];
      NoticesAreKnown(t, b, name, front, all);
      NoticeIsKnown(t, PutNotices(t, b, name, front), name, last, all + ListOf(name, front));
      assert all + ListOf(name, ns) == all + ListOf(name, front) + [Listed(name, last)];
    }
  }

  lemma {:induction false} BundleIsKnown(t: Style, cs: seq<Component>)
    requires DigestIsInjective(t)
    ensures Known(t, PutComponents(t, cs), Listing(cs))
  {
    hide Known, PutNotices, DigestIsInjective;
    if cs == [] {
      NothingIsKnown(t);
    } else {
      var front, c := cs[..|cs| - 1], cs[|cs| - 1];
      BundleIsKnown(t, front);
      var b := PutComponents(t, front);
      SeenOnly(t, b, b.(bundle := b.bundle + c.heading), Listing(front));
      NoticesAreKnown(t, b.(bundle := b.bundle + c.heading), c.name, c.notices, Listing(front));
    }
  }

  lemma SeenOnly(t: Style, b: Book, m: Book, all: seq<Listed>)
    requires Known(t, b, all) && m.seen == b.seen
    ensures Known(t, m, all)
  {
  }

  lemma NothingIsKnown(t: Style)
    ensures Known(t, Book(t.preamble, map[], []), [])
  {
  }

  lemma LastComponent(t: Style, cs: seq<Component>, c: Component)
    ensures PutComponents(t, cs + [c])
         == PutNotices(t, PutComponents(t, cs).(bundle := PutComponents(t, cs).bundle + c.heading), c.name, c.notices)
  {
    hide PutNotices;
    assert (cs + [c])[..|cs|] == cs;
  }

  lemma LastNotice(t: Style, b: Book, name: Bytes, ns: seq<Notice>, n: Notice)
    ensures PutNotices(t, b, name, ns + [n]) == PutNotice(t, PutNotices(t, b, name, ns), name, n)
  {
    hide PutNotice;
    assert (ns + [n])[..|ns|] == ns;
  }

  /** The bundle starts with the preamble, and each component with its heading. */
  lemma HeadingsMean(t: Style, cs: seq<Component>, heading: Bytes, name: Bytes)
    ensures PutComponents(t, []).bundle == t.preamble
    ensures PutComponents(t, cs + [Component(heading, name, [])]).bundle == PutComponents(t, cs).bundle + heading
  {
    LastComponent(t, cs, Component(heading, name, []));
  }

  /**
   * A further notice of the last component adds its heading and then its text and a line end; or, when an
   * earlier notice had the same text, a reference to the first that had it.
   */
  lemma NoticeMeans(t: Style, cs: seq<Component>, c: Component, n: Notice)
    requires DigestIsInjective(t)
    ensures var before := PutComponents(t, cs + [c]).bundle;
            var after := PutComponents(t, cs + [c.(notices := c.notices + [n])]).bundle;
            var all := Listing(cs) + ListOf(c.name, c.notices);
            && (forall j: nat :: FirstWith(all, n.data, j) ==>
                  after == before + t.noticeHeading(n.path) + t.same(t.joined(all[j].name, all[j].notice.path)))
            && ((forall j: nat :: !FirstWith(all, n.data, j)) ==> after == before + t.noticeHeading(n.path) + n.data + [10])
  {
    hide PutComponents, PutNotices, FirstWith, DigestIsInjective;
    LastComponent(t, cs, c);
    LastComponent(t, cs, c.(notices := c.notices + [n]));
    var b := PutComponents(t, cs);
    var headed := b.(bundle := b.bundle + c.heading);
    LastNotice(t, headed, c.name, c.notices, n);
    BundleIsKnown(t, cs);
    SeenOnly(t, b, headed, Listing(cs));
    NoticesAreKnown(t, headed, c.name, c.notices, Listing(cs));
  }

  // ---- The main results ----------------------------------------------------------------------

  /** The octets a manifest entry points at. */
  function Cut(bundle: Bytes, p: Placed): (c: Bytes)
    ensures p.offset + p.length <= |bundle| ==> |c| == p.length
  {
    if p.offset + p.length <= |bundle| then bundle[p.offset..p.offset + p.length] else []
  }

  /** Every entry slices out exactly its text, and carries its digest. */
  lemma SlicesAreTexts(t: Style, cs: seq<Component>, i: nat)
    requires DigestIsInjective(t)
    ensures |PutComponents(t, cs).placed| == |Texts(cs)|
    ensures i < |Texts(cs)| ==>
      var b := PutComponents(t, cs);
      Cut(b.bundle, b.placed[i]) == Texts(cs)[i] && b.placed[i].sha == t.digest(Texts(cs)[i])
  {
    hide PutComponents, Texts;
    BundleIsSound(t, cs);
  }

  /** Equal texts are stored once; different texts never overlap. */
  lemma TextsAreStoredOnce(t: Style, cs: seq<Component>, i: nat, j: nat)
    requires DigestIsInjective(t)
    requires i < |Texts(cs)| && j < |Texts(cs)|
    ensures |PutComponents(t, cs).placed| == |Texts(cs)|
    ensures var p, q := PutComponents(t, cs).placed[i], PutComponents(t, cs).placed[j];
            if Texts(cs)[i] == Texts(cs)[j] then p == q
            else p.offset + p.length <= q.offset || q.offset + q.length <= p.offset
  {
    hide PutComponents, Texts, SeenSound;
    BundleIsSound(t, cs);
  }

  /** The per-notice test of the checker. */
  predicate Passes(t: Style, bundle: Bytes, p: Placed) {
    p.length > 0 && p.offset + p.length <= |bundle| && t.digest(Cut(bundle, p)) == p.sha
  }

  /** A bundle just written passes the checker exactly when no notice is empty. */
  lemma WrittenPassesCheck(t: Style, cs: seq<Component>)
    requires DigestIsInjective(t)
    ensures var b := PutComponents(t, cs);
            (forall p :: p in b.placed ==> Passes(t, b.bundle, p)) <==> (forall d :: d in Texts(cs) ==> d != [])
  {
    hide PutComponents, Texts, SeenSound, Apart;
    BundleIsSound(t, cs);
    var b := PutComponents(t, cs);
    forall i | 0 <= i < |b.placed| ensures Passes(t, b.bundle, b.placed[i]) <==> Texts(cs)[i] != [] {
      assert Cut(b.bundle, b.placed[i]) == Texts(cs)[i];
    }
    if forall d :: d in Texts(cs) ==> d != [] {
      forall p | p in b.placed ensures Passes(t, b.bundle, p) {
        var i :| 0 <= i < |b.placed| && b.placed[i] == p;
        assert Texts(cs)[i] in Texts(cs);
      }
    }
    if forall p :: p in b.placed ==> Passes(t, b.bundle, p) {
      forall d | d in Texts(cs) ensures d != [] {
        var i :| 0 <= i < |Texts(cs)| && Texts(cs)[i] == d;
        assert b.placed[i] in b.placed;
      }
    }
  }

  // ---- Rebuilding ----------------------------------------------------------------------------

  /** The notices with their texts cut back out of the bundle, entry by entry from `k`. */
  function Recut(bundle: Bytes, placed: seq<Placed>, k: nat, ns: seq<Notice>): (r: seq<Notice>)
    requires k + |ns| <= |placed|
    ensures |r| == |ns|
  {
    if ns == [] then []
    else
      var n := |ns| - 1;
      Recut(bundle, placed, k, ns[..n]) + [Notice(ns[n].path, Cut(bundle, placed[k + n]))]
  }

  function Rebuilt(bundle: Bytes, placed: seq<Placed>, cs: seq<Component>): seq<Component>
    requires |placed| >= |Texts(cs)|
  {
    if cs == [] then []
    else
      var front, c := cs[..|cs| - 1], cs[|cs| - 1];
      Rebuilt(bundle, placed, front) + [c.(notices := Recut(bundle, placed, |Texts(front)|, c.notices))]
  }

  ghost predicate CutsBack(bundle: Bytes, placed: seq<Placed>, texts: seq<Bytes>) {
    |placed| >= |texts| && forall i :: 0 <= i < |texts| ==> Cut(bundle, placed[i]) == texts[i]
  }

  lemma {:induction false} DataAt(ns: seq<Notice>, i: nat)
    requires i < |ns|
    ensures DataOf(ns)[i] == ns[i].data
  {
    if i < |ns| - 1 {
      DataAt(ns[..|ns| - 1], i);
    }
  }

  ghost predicate CutsTo(bundle: Bytes, placed: seq<Placed>, k: nat, ns: seq<Notice>)
    requires k + |ns| <= |placed|
  {
    forall i :: 0 <= i < |ns| ==> Cut(bundle, placed[k + i]) == ns[i].data
  }

  lemma {:induction false} RecutIsSame(bundle: Bytes, placed: seq<Placed>, k: nat, ns: seq<Notice>)
    requires k + |ns| <= |placed| && CutsTo(bundle, placed, k, ns)
    ensures Recut(bundle, placed, k, ns) == ns
  {
    hide Cut;
    if ns != [] {
      var n := |ns| - 1;
      RecutIsSame(bundle, placed, k, ns[..n]);
      assert Cut(bundle, placed[k + n]) == ns[n].data;
      assert ns == ns[..n] + [ns[n]];
    }
  }

  lemma {:induction false} RebuiltIsSame(bundle: Bytes, placed: seq<Placed>, cs: seq<Component>)
    requires CutsBack(bundle, placed, Texts(cs))
    ensures Rebuilt(bundle, placed, cs) == cs
  {
    hide Cut, DataOf, Recut;
    if cs != [] {
      var front, c := cs[..|cs| - 1], cs[|cs| - 1];
      assert forall i :: 0 <= i < |Texts(front)| ==> Texts(front)[i] == Texts(cs)[i];
      RebuiltIsSame(bundle, placed, front);
      var k := |Texts(front)|;
      forall i | 0 <= i < |c.notices| ensures Cut(bundle, placed[k + i]) == c.notices[i].data {
        DataAt(c.notices, i);
        assert Texts(cs)[k + i] == DataOf(c.notices)[i];
      }
      RecutIsSame(bundle, placed, k, c.notices);
      assert cs == front + [c];
    }
  }

  /** Cutting the texts out of a bundle and writing it again gives the same bundle and the same entries. */
  lemma RefreshIsFixedPoint(t: Style, cs: seq<Component>)
    requires DigestIsInjective(t)
    ensures var b := PutComponents(t, cs);
            |b.placed| == |Texts(cs)| && PutComponents(t, Rebuilt(b.bundle, b.placed, cs)) == b
  {
    hide PutComponents, Texts;
    var b := PutComponents(t, cs);
    SlicesAreTexts(t, cs, 0);
    forall i | 0 <= i < |Texts(cs)| ensures Cut(b.bundle, b.placed[i]) == Texts(cs)[i] {
      SlicesAreTexts(t, cs, i);
    }
    RebuiltIsSame(b.bundle, b.placed, cs);
  }
}
