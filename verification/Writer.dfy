/** The envelope writer: one piece of code that counts octets or writes them into a caller's buffer. */
module Writer {
  import opened Bytes

  /** The shortest head for an argument. */
  function HeadBytes(major: nat, value: u64): (h: Bytes)
    requires major < 8
    ensures 1 <= |h| <= 9
  {
    if value <= 23 then [major * 32 + value]
    else if value <= 0xFF then [major * 32 + 24] + ToBigEndian(value, 1)
    else if value <= 0xFFFF then [major * 32 + 25] + ToBigEndian(value, 2)
    else if value <= 0xFFFF_FFFF then [major * 32 + 26] + ToBigEndian(value, 4)
    else [major * 32 + 27] + ToBigEndian(value, 8)
  }

  function StringBytes(major: nat, value: Bytes): Bytes
    requires major < 8 && |value| <= MDU
  {
    HeadBytes(major, |value|) + value
  }

  lemma {:induction false} BigEndianTail(v: nat, wide: nat, narrow: nat)
    requires narrow <= wide
    ensures ToBigEndian(v, wide)[wide - narrow..] == ToBigEndian(v, narrow)
  {
    if narrow > 0 {
      BigEndianTail(v / 256, wide - 1, narrow - 1);
      var s := ToBigEndian(v / 256, wide - 1);
      assert (s + [v % 256])[wide - narrow..] == s[wide - narrow..] + [v % 256];
    }
  }

  lemma HeadBytesSplit(major: nat, value: u64, tag: nat, start: nat)
    requires major < 8
    requires (tag, start) == (if value <= 23 then (value, 8) else if value <= 0xFF then (24, 7)
                              else if value <= 0xFFFF then (25, 6) else if value <= 0xFFFF_FFFF then (26, 4) else (27, 0))
    ensures HeadBytes(major, value) == [major * 32 + tag] + ToBigEndian(value, 8)[start..]
  {
    hide ToBigEndian;
    BigEndianTail(value, 8, 8 - start);
  }

  /**
   * Counts when `out` is null. `text` is everything emitted so far and `before` what the buffer held
   * at the start: the buffer is always the text followed by its old contents.
   */
  class Writer {
    const out: array?<byte>
    var pos: nat
    ghost var text: Bytes
    ghost const before: Bytes

    ghost predicate Valid()
      reads this, if out == null then {} else {out}
    {
      && pos == |text| <= MDU
      && (out != null ==> pos <= out.Length == |before| && out[..] == text + before[pos..])
    }

    /** The most this writer can hold. */
    ghost function Limit(): nat {
      if out == null || out.Length > MDU then MDU else out.Length
    }

    /** After `was`, `chunk` was emitted if it fits; otherwise the call failed with the capacity error. */
    ghost predicate Emitted(was: Bytes, chunk: Bytes, r: Result<()>)
      reads this, if out == null then {} else {out}
    {
      && Valid()
      && |was| <= pos
      && r == (if |was| + |chunk| <= Limit() then Ok(()) else Err(Capacity))
      && (r.Ok? ==> text == was + chunk)
    }

    constructor (out: array?<byte>)
      ensures this.out == out && pos == 0 && text == [] && Valid()
      ensures out != null ==> before == out[..]
    {
      this.out := out;
      pos := 0;
      text := [];
      before := if out == null then [] else out[..];
    }

    method Raw(value: Bytes) returns (r: Result<()>)
      requires Valid()
      modifies this, if out == null then {} else {out}
      ensures Emitted(old(text), value, r)
      ensures r.Err? ==> text == old(text)
    {
      var end := pos + |value|;
      if end > MDU {
        return Err(Capacity);
      }
      if out != null {
        if end > out.Length {
          return Err(Capacity);
        }
        forall i | pos <= i < end {
          out[i] := value[i - pos];
        }
        assert out[..] == text + value + before[end..] by {
          assert forall i :: 0 <= i < pos ==> out[i] == old(out[..])[i];
          assert forall i :: end <= i < out.Length ==> out[i] == old(out[..])[i];
        }
      }
      text := text + value;
      pos := end;
      return Ok(());
    }

    method Head(major: nat, value: u64) returns (r: Result<()>)
      requires Valid() && major < 8
      modifies this, if out == null then {} else {out}
      ensures Emitted(old(text), HeadBytes(major, value), r)
    {
      var bytes := ToBigEndian(value, 8);
      var tag: nat, start: nat := 27, 0;
      if value <= 23 {
        tag, start := value, 8;
      } else if value <= 0xFF {
        tag, start := 24, 7;
      } else if value <= 0xFFFF {
        tag, start := 25, 6;
      } else if value <= 0xFFFF_FFFF {
        tag, start := 26, 4;
      }
      HeadBytesSplit(major, value, tag, start);
      hide HeadBytes, ToBigEndian;
      Associates(text, [major * 32 + tag], bytes[start..]);
      var _ :- Raw([major * 32 + tag]);
      r := Raw(bytes[start..]);
    }

    method String(major: nat, value: Bytes) returns (r: Result<()>)
      requires Valid() && major < 8 && |value| <= MDU
      modifies this, if out == null then {} else {out}
      ensures Emitted(old(text), StringBytes(major, value), r)
    {
      hide HeadBytes;
      Associates(text, HeadBytes(major, |value|), value);
      var _ :- Head(major, |value|);
      r := Raw(value);
    }

    method Uint(value: u64) returns (r: Result<()>)
      requires Valid()
      modifies this, if out == null then {} else {out}
      ensures Emitted(old(text), HeadBytes(0, value), r)
    {
      r := Head(0, value);
    }
  }
}
