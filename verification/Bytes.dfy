/** Octets, fixed-width integers and the outcome type every RRC reader and writer returns. */
module Bytes {

  type byte = b: int | 0 <= b < 0x100

  type u64 = v: int | 0 <= v < 0x1_0000_0000_0000_0000

  type Bytes = seq<byte>

  // Largest packet a Link carries; no reader or writer ever works on more.
  const MDU: nat := 431

  datatype Error = Invalid | Capacity | Unsupported

  /** The codec's own result type; usable with `:-`. */
  datatype Result<+T> = Ok(value: T) | Err(error: Error) {

    predicate IsFailure() {
      Err?
    }

    function PropagateFailure<U>(): Result<U>
      requires Err?
    {
      Err(error)
    }

    function Extract(): T
      requires Ok?
    {
      value
    }
  }

  datatype Option<+T> = None | Some(value: T)

  /** What an entry point of the C interface returns. */
  datatype Status = StatusOk | ErrInvalidArg | ErrCapacity | ErrUnsupported | ErrNotReady | ErrCrypto | ErrInternal

  function StatusOf(e: Error): (s: Status)
    ensures s == ErrInvalidArg <==> e == Invalid
    ensures s == ErrCapacity <==> e == Capacity
    ensures s == ErrUnsupported <==> e == Unsupported
  {
    match e
    case Invalid => ErrInvalidArg
    case Capacity => ErrCapacity
    case Unsupported => ErrUnsupported
  }

  /** A length reported through an output pointer, if it was written at all. */
  datatype Length = Unset | Length(value: nat)

  /** Copies `chunk` into `a` at `pos`. */
  method CopyInto(a: array<byte>, pos: nat, chunk: Bytes)
    requires pos + |chunk| <= a.Length
    modifies a
    ensures a[..] == old(a[..pos]) + chunk + old(a[pos + |chunk|..])
  {
    forall i | 0 <= i < |chunk| {
      a[pos + i] := chunk[i];
    }
  }

  /** A cast to u16 keeps the low sixteen bits. */
  function Low16(n: nat): (r: nat)
  {
    n % 0x1_0000
  }

  /** `chunk` lies in `b` at `pos`. */
  ghost predicate At(b: Bytes, pos: nat, chunk: Bytes) {
    pos + |chunk| <= |b| && b[pos..pos + |chunk|] == chunk
  }

  lemma AtConcat(b: Bytes, pos: nat, x: Bytes, y: Bytes)
    ensures At(b, pos, x + y) <==> At(b, pos, x) && At(b, pos + |x|, y)
  {
    if pos + |x| + |y| <= |b| {
      var whole := b[pos..pos + |x + y|];
      assert whole[..|x|] == b[pos..pos + |x|];
      assert whole[|x|..] == b[pos + |x|..pos + |x| + |y|];
      assert whole == whole[..|x|] + whole[|x|..];
      if whole == x + y {
        assert whole[..|x|] == x && whole[|x|..] == y;
      }
    }
  }

  lemma Associates(x: Bytes, y: Bytes, z: Bytes)
    ensures x + y + z == x + (y + z)
  {
  }

  function Pow256(n: nat): (p: nat)
    ensures p > 0
  {
    if n == 0 then 1 else 256 * Pow256(n - 1)
  }

  /** The big-endian value of a string of octets. */
  function BigEndian(s: Bytes): (v: nat)
    ensures v < Pow256(|s|)
  {
    if s == [] then 0 else BigEndian(s[..|s| - 1]) * 256 + s[|s| - 1]
  }

  /** The `n` low octets of `v`, most significant first. */
  function ToBigEndian(v: nat, n: nat): (s: Bytes)
    ensures |s| == n
  {
    if n == 0 then [] else ToBigEndian(v / 256, n - 1) + [v % 256]
  }

  lemma Quotient(v: nat, p: nat)
    requires v < 256 * p
    ensures v / 256 < p && v / 256 * 256 + v % 256 == v
  {
  }

  lemma {:induction false} BigEndianInverse(v: nat, n: nat)
    requires v < Pow256(n)
    ensures BigEndian(ToBigEndian(v, n)) == v
    decreases n
  {
    if n > 0 {
      var high, low := ToBigEndian(v / 256, n - 1), v % 256;
      Quotient(v, Pow256(n - 1));
      BigEndianInverse(v / 256, n - 1);
      BigEndianSnoc(high, low);
    }
  }

  lemma BigEndianSnoc(s: Bytes, last: byte)
    ensures BigEndian(s + [last]) == BigEndian(s) * 256 + last
  {
    assert (s + [last])[..|s|] == s;
  }

  /** Only the low octets of a larger number are kept. */
  lemma {:induction false} BigEndianResidue(v: nat, n: nat)
    ensures BigEndian(ToBigEndian(v, n)) == v % Pow256(n)
    decreases n
  {
    if n > 0 {
      BigEndianResidue(v / 256, n - 1);
      BigEndianSnoc(ToBigEndian(v / 256, n - 1), v % 256);
      LongRemainder(v, Pow256(n - 1));
    }
  }

  lemma LongRemainder(v: nat, p: nat)
    requires p > 0
    ensures v % (256 * p) == v / 256 % p * 256 + v % 256
  {
    var w := v / 256;
    var q, r := w / p, w % p;
    assert w == q * p + r;
    assert v == w * 256 + v % 256;
    assert v == q * (256 * p) + (r * 256 + v % 256);
    RemainderIs(v, 256 * p, q, r * 256 + v % 256);
  }

  lemma RemainderIs(v: nat, p: nat, q: nat, r: nat)
    requires 0 <= r < p && v == q * p + r
    ensures v % p == r
  {
    if v / p > q {
      AtLeastOne(v / p - q, p);
    } else if v / p < q {
      AtLeastOne(q - v / p, p);
    }
  }

  lemma AtLeastOne(k: nat, p: nat)
    requires k >= 1
    ensures k * p >= p
  {
    assert (k - 1) * p >= 0;
  }

  /** Equally many octets with the same value are the same octets. */
  lemma {:induction false} BigEndianInjective(a: Bytes, b: Bytes)
    requires |a| == |b| && BigEndian(a) == BigEndian(b)
    ensures a == b
    decreases |a|
  {
    if a != [] {
      var n := |a| - 1;
      BigEndianInjective(a[..n], b[..n]);
      assert a == a[..n] + [a[n]] && b == b[..n] + [b[n]];
    }
  }

  lemma WidthValues()
    ensures Pow256(1) == 0x100
    ensures Pow256(2) == 0x1_0000
    ensures Pow256(4) == 0x1_0000_0000
    ensures Pow256(8) == 0x1_0000_0000_0000_0000
  {
    assert Pow256(0) == 1;
    assert Pow256(1) == 256 * Pow256(0);
    assert Pow256(3) == 256 * Pow256(2);
    assert Pow256(4) == 0x1_0000_0000;
    assert Pow256(5) == 256 * Pow256(4);
    assert Pow256(6) == 256 * Pow256(5);
    assert Pow256(7) == 256 * Pow256(6);
  }
}
