/** The control tool's line framer: lines out of a byte stream that arrives in arbitrary reads. */
module LineFramer {
  import opened Bytes

  const MAX_LINE: nat := 4096
  const NEWLINE: byte := 10
  const RETURN: byte := 13

  // ---- Splitting a whole stream --------------------------------------------------------------

  /** The octets between newlines, for every newline there is. */
  function Segments(stream: Bytes): seq<Bytes> {
    if stream == [] then []
    else
      var front := stream[..|stream| - 1];
      if stream[|stream| - 1] == NEWLINE then Segments(front) + [Tail(front)] else Segments(front)
  }

  /** The octets after the last newline. */
  function Tail(stream: Bytes): (t: Bytes)
  {
    if stream == [] || stream[|stream| - 1] == NEWLINE then []
    else Tail(stream[..|stream| - 1]) + [stream[|stream| - 1]]
  }

  function StripReturns(line: Bytes): (s: Bytes)
  {
    if line != [] && line[|line| - 1] == RETURN then StripReturns(line[..|line| - 1]) else line
  }

  /** What a segment yields: nothing when it is too long, else the line without trailing returns. */
  function LineOf(segment: Bytes): seq<Bytes> {
    if |segment| > MAX_LINE then [] else [StripReturns(segment)]
  }

  function LinesOf(segments: seq<Bytes>): seq<Bytes> {
    if segments == [] then [] else LinesOf(segments[..|segments| - 1]) + LineOf(segments[|segments| - 1])
  }

  function Joined(segments: seq<Bytes>): Bytes {
    if segments == [] then [] else Joined(segments[..|segments| - 1]) + segments[|segments| - 1] + [10]
  }

  predicate Unbroken(line: Bytes) {
    10 !in line
  }

  lemma JoinedSnoc(segments: seq<Bytes>, last: Bytes)
    ensures Joined(segments + [last]) == Joined(segments) + last + [NEWLINE]
  {
    assert (segments + [last])[..|segments|] == segments;
  }

  predicate AllUnbroken(segments: seq<Bytes>) {
    forall i :: 0 <= i < |segments| ==> Unbroken(segments[i])
  }

  /** The segments and the tail are the stream cut at its newlines, and only there. */
  lemma {:induction false} SplitIsExact(stream: Bytes)
    ensures Joined(Segments(stream)) + Tail(stream) == stream
    ensures Unbroken(Tail(stream)) && AllUnbroken(Segments(stream))
  {
    hide Joined;
    if stream == [] {
      NothingJoins();
    } else {
      var front, last := stream[..|stream| - 1], stream[|stream| - 1];
      SplitIsExact(front);
      assert stream == front + [last];
      if last == NEWLINE {
        JoinedSnoc(Segments(front), Tail(front));
        assert Joined(Segments(stream)) + [] == Joined(Segments(front)) + Tail(front) + [NEWLINE];
      } else {
        Associates(Joined(Segments(front)), Tail(front), [last]);
      }
    }
  }

  lemma NothingJoins()
    ensures Joined([]) == []
  {
  }

  /** No other cut into unbroken pieces gives the same stream. */
  lemma {:induction false} SplitIsUnique(segments: seq<Bytes>, tail: Bytes)
    requires Unbroken(tail) && AllUnbroken(segments)
    ensures Segments(Joined(segments) + tail) == segments && Tail(Joined(segments) + tail) == tail
    decreases |segments|, |tail|
  {
    var stream := Joined(segments) + tail;
    if tail != [] {
      SplitIsUnique(segments, tail[..|tail| - 1]);
      assert stream[..|stream| - 1] == Joined(segments) + tail[..|tail| - 1];
      assert stream[|stream| - 1] in tail;
    } else if segments != [] {
      var n := |segments| - 1;
      SplitIsUnique(segments[..n], segments[n]);
      assert stream[..|stream| - 1] == Joined(segments[..n]) + segments[n];
    }
  }

  lemma {:induction false} StripMeans(line: Bytes)
    ensures var s := StripReturns(line);
            && s <= line && (s == [] || s[|s| - 1] != 13)
            && forall i :: |s| <= i < |line| ==> line[i] == 13
  {
    if line != [] && line[|line| - 1] == RETURN {
      StripMeans(line[..|line| - 1]);
    }
  }

  /** Each further piece of the stream gives one line, itself without the returns at its end, unless it is over 4096 octets. */
  lemma LineMeans(segments: seq<Bytes>, segment: Bytes, line: Bytes)
    requires line <= segment && (line == [] || line[|line| - 1] != 13)
    requires forall i :: |line| <= i < |segment| ==> segment[i] == 13
    ensures LinesOf([]) == []
    ensures LinesOf(segments + [segment]) == LinesOf(segments) + (if |segment| > 4096 then [] else [line])
  {
    hide StripReturns;
    var s := StripReturns(segment);
    StripMeans(segment);
    assert line != [] ==> line[|line| - 1] == segment[|line| - 1];
    assert s != [] ==> s[|s| - 1] == segment[|s| - 1];
    assert s == segment[..|s|] && line == segment[..|line|];
    assert (segments + [segment])[..|segments|] == segments;
  }

  // ---- The framer ----------------------------------------------------------------------------

  class Framer {
    var pending: Bytes
    var discarding: bool
    // Every octet the framer has looked at.
    ghost var stream: Bytes

    ghost predicate Valid()
      reads this
    {
      && |pending| <= MAX_LINE
      && discarding == (|Tail(stream)| > MAX_LINE)
      && pending == (if discarding then [] else Tail(stream))
    }

    constructor ()
      ensures Valid() && stream == []
    {
      pending, discarding, stream := [], false, [];
    }

    /** One octet; a newline may complete a line. */
    method Take(next: byte) returns (line: Option<Bytes>)
      requires Valid()
      modifies this
      ensures Valid() && stream == old(stream) + [next]
      ensures LinesOf(Segments(stream)) == LinesOf(Segments(old(stream))) + (if line.Some? then [line.value] else [])
    {
      line := None;
      ghost var before := stream;
      stream := stream + [next];
      assert stream[..|stream| - 1] == before;
      if next == NEWLINE {
        ghost var segments := Segments(stream);
        assert segments[..|segments| - 1] == Segments(before);
        line := if discarding then None else Some(StripReturns(pending));
        pending := [];
        discarding := false;
      } else if !discarding {
        if |pending| == MAX_LINE {
          pending := [];
          discarding := true;
        } else {
          pending := pending + [next];
        }
      }
    }

    /**
     * One read. The caller takes lines as they come and may walk away after one of them; what
     * follows that line in the same read is then never looked at.
     */
    method Lines(data: Bytes, enough: Bytes -> bool) returns (lines: seq<Bytes>, used: nat)
      requires Valid()
      modifies this
      ensures Valid() && used <= |data| && stream == old(stream) + data[..used]
      ensures LinesOf(Segments(stream)) == LinesOf(Segments(old(stream))) + lines
      ensures forall i :: 0 <= i < |lines| - 1 ==> !enough(lines[i])
      ensures used < |data| ==> lines != [] && enough(lines[|lines| - 1])
    {
      hide Valid, Segments, LinesOf;
      lines, used := [], 0;
      assert data[..0] == [];
      while used < |data|
        invariant Valid() && used <= |data| && stream == old(stream) + data[..used]
        invariant LinesOf(Segments(stream)) == LinesOf(Segments(old(stream))) + lines
        invariant forall i :: 0 <= i < |lines| ==> !enough(lines[i])
      {
        assert data[..used + 1] == data[..used] + [data[used]];
        var line := Take(data[used]);
        used := used + 1;
        if line.Some? {
          lines := lines + [line.value];
          if enough(line.value) {
            return;
          }
        }
      }
    }

    /** A whole list of reads, each consumed to its end. */
    method AllLines(chunks: seq<Bytes>) returns (lines: seq<Bytes>)
      requires Valid() && stream == []
      modifies this
      ensures Valid() && stream == Concat(chunks)
      ensures lines == LinesOf(Segments(Concat(chunks)))
      ensures |pending| <= MAX_LINE
    {
      lines := [];
      assert chunks[..0] == [];
      for i := 0 to |chunks|
        invariant Valid() && stream == Concat(chunks[..i]) && lines == LinesOf(Segments(stream))
      {
        var some, used := Lines(chunks[i], _ => false);
        assert chunks[i][..used] == chunks[i];
        assert chunks[..i + 1][..i] == chunks[..i];
        lines := lines + some;
      }
      assert chunks[..|chunks|] == chunks;
    }
  }

  function Concat(chunks: seq<Bytes>): Bytes {
    if chunks == [] then [] else Concat(chunks[..|chunks| - 1]) + chunks[|chunks| - 1]
  }

  // ---- Request numbers -----------------------------------------------------------------------

  const LAST_ID: nat := 2147483647

  function NextId(id: nat): nat {
    id % LAST_ID + 1
  }

  function IdAfter(id: nat, requests: nat): nat
    decreases requests
  {
    if requests == 0 then id else NextId(IdAfter(id, requests - 1))
  }

  /** Request numbers run through all of 1 to 2147483647 before one comes back. */
  lemma {:induction false} IdsCycle(id: nat, requests: nat)
    requires 1 <= id <= LAST_ID
    ensures IdAfter(id, requests) == (id - 1 + requests) % 2147483647 + 1
    decreases requests
  {
    if requests > 0 {
      IdsCycle(id, requests - 1);
      Wraps(id - 1 + requests - 1);
    } else {
      assert (id - 1) % LAST_ID == id - 1;
    }
  }

  lemma Wraps(n: nat)
    ensures (n % LAST_ID + 1) % LAST_ID == (n + 1) % LAST_ID
  {
  }

  lemma IdsReturn(id: nat, first: nat, second: nat)
    requires 1 <= id <= 2147483647 && first <= second < first + 2147483647
    ensures IdAfter(id, first) == IdAfter(id, second) <==> first == second
  {
    hide IdAfter;
    IdsCycle(id, first);
    IdsCycle(id, second);
    Residue(id - 1 + first, second - first);
  }

  lemma Residue(n: nat, k: nat)
    requires k < LAST_ID
    ensures n % LAST_ID == (n + k) % LAST_ID <==> k == 0
  {
    var q, p := n / LAST_ID, (n + k) / LAST_ID;
    assert n == q * LAST_ID + n % LAST_ID;
    assert n + k == p * LAST_ID + (n + k) % LAST_ID;
    if n % LAST_ID == (n + k) % LAST_ID {
      assert k == (p - q) * LAST_ID;
    }
  }
}
