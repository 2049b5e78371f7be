/** Byte strings, and unsigned integers stored in them in either byte order. */
module Bytes {

  const U32_LIMIT: nat := 0x1_0000_0000

  type byte = x: int | 0 <= x < 256

  type u32 = x: int | 0 <= x < 0x1_0000_0000

  datatype Option<+T> = None | Some(value: T)

  lemma Associate<T>(x: seq<T>, y: seq<T>, z: seq<T>)
    ensures (x + y) + z == x + (y + z)
  {
  }

  lemma SplitLast<T>(a: seq<T>, b: seq<T>)
    requires b != []
    ensures a + b == (a + b[..|b| - 1]) + [b[|b| - 1]]
  {
  }

  lemma SplitFirst<T>(a: seq<T>, b: seq<T>)
    requires a != []
    ensures (a + b)[0] == a[0] && (a + b)[1..] == a[1..] + b
  {
  }

  /** The concatenation of a list of byte strings. */
  function Flat(parts: seq<seq<byte>>): seq<byte> {
    if parts == [] then [] else parts[0] + Flat(parts[1..])
  }

  lemma {:induction false} FlatConcat(a: seq<seq<byte>>, b: seq<seq<byte>>)
    ensures Flat(a + b) == Flat(a) + Flat(b)
  {
    if a == [] {
      assert a + b == b;
    } else {
      FlatConcat(a[1..], b);
      SplitFirst(a, b);
      Associate(a[0], Flat(a[1..]), Flat(b));
    }
  }

  lemma {:induction false} FlatOne(f: seq<byte>)
    ensures Flat([f]) == f
  {
    assert [f][1..] == [];
  }

  lemma {:induction false} FlatSnoc(a: seq<seq<byte>>, f: seq<byte>)
    ensures Flat(a + [f]) == Flat(a) + f
  {
    FlatConcat(a, [f]);
    FlatOne(f);
  }

  /** How many of the elements have the property. */
  function CountIf<T>(xs: seq<T>, p: T -> bool): nat {
    if xs == [] then 0 else CountIf(xs[..|xs| - 1], p) + if p(xs[|xs| - 1]) then 1 else 0
  }

  lemma {:induction false} CountIfConcat<T>(a: seq<T>, b: seq<T>, p: T -> bool)
    ensures CountIf(a + b, p) == CountIf(a, p) + CountIf(b, p)
  {
    if b == [] {
      assert a + b == a;
    } else {
      assert (a + b)[..|a + b| - 1] == a + b[..|b| - 1];
      CountIfConcat(a, b[..|b| - 1], p);
    }
  }

  function Pow256(k: nat): (r: nat)
    ensures r > 0
  {
    if k == 0 then 1 else 256 * Pow256(k - 1)
  }

  // ---------------------------------------------------------------------
  // Unsigned integers of up to eight bytes
  // ---------------------------------------------------------------------

  function UintLittle(b: seq<byte>): nat {
    if b == [] then 0 else b[0] + 256 * UintLittle(b[1..])
  }

  function UintBig(b: seq<byte>): nat {
    if b == [] then 0 else 256 * UintBig(b[..|b| - 1]) + b[|b| - 1]
  }

  function Uint(b: seq<byte>, little: bool): nat {
    if little then UintLittle(b) else UintBig(b)
  }

  lemma {:induction false} TwoByteUint(a: byte, b: byte)
    ensures UintBig([a, b]) == 256 * a + b && UintLittle([b, a]) == 256 * a + b
  {
    var ab: seq<byte>, ba: seq<byte> := [a, b], [b, a];
    assert ab[..1] == [a] && ba[1..] == [a] && UintBig([a]) == a && UintLittle([a]) == a;
  }

  lemma {:induction false} ThreeByteUint(a: byte, b: byte, c: byte)
    ensures UintLittle([a, b, c]) == a + 0x100 * b + 0x1_0000 * c
    ensures UintBig([a, b, c]) == 0x1_0000 * a + 0x100 * b + c
  {
    var abc: seq<byte>, ab: seq<byte>, bc: seq<byte> := [a, b, c], [a, b], [b, c];
    assert abc[1..] == bc && bc[1..] == [c] && abc[..2] == ab && ab[..1] == [a];
    assert UintLittle([c]) == c && UintBig([a]) == a;
    assert UintLittle(bc) == b + 256 * c && UintBig(ab) == 256 * a + b;
  }

  lemma {:induction false} FourByteUint(a: byte, b: byte, c: byte, d: byte)
    ensures UintBig([a, b, c, d]) == 0x100_0000 * a + 0x1_0000 * b + 0x100 * c + d
    ensures UintLittle([d, c, b, a]) == 0x100_0000 * a + 0x1_0000 * b + 0x100 * c + d
  {
    var abcd: seq<byte>, abc: seq<byte>, ab: seq<byte> := [a, b, c, d], [a, b, c], [a, b];
    assert abcd[..3] == abc && abc[..2] == ab && ab[..1] == [a] && UintBig([a]) == a;
    var dcba: seq<byte>, cba: seq<byte>, ba: seq<byte> := [d, c, b, a], [c, b, a], [b, a];
    assert dcba[1..] == cba && cba[1..] == ba && ba[1..] == [a] && UintLittle([a]) == a;
    assert UintBig(ab) == 256 * a + b && UintLittle(ba) == b + 256 * a;
  }

  lemma {:induction false} UintBound(b: seq<byte>, little: bool)
    ensures Uint(b, little) < Pow256(|b|)
  {
    if b != [] {
      UintBound(if little then b[1..] else b[..|b| - 1], little);
    }
  }

  /** The accumulator loops of `read_uint`. The shifted accumulator stays inside 64 bits. */
  method ReadUint(bytes: seq<byte>, little: bool) returns (v: nat)
    requires |bytes| <= 8
    ensures v == Uint(bytes, little)
    ensures v < Pow256(|bytes|)
  {
    v := 0;
    if little {
      var i := |bytes|;
      while i > 0
        invariant 0 <= i <= |bytes|
        invariant v == UintLittle(bytes[i..])
      {
        i := i - 1;
        assert bytes[i..][1..] == bytes[i + 1..];
        v := 256 * v + bytes[i];
      }
      assert bytes[0..] == bytes;
    } else {
      for i := 0 to |bytes|
        invariant v == UintBig(bytes[..i])
      {
        assert bytes[..i + 1][..i] == bytes[..i];
        v := 256 * v + bytes[i];
      }
      assert bytes[..|bytes|] == bytes;
    }
    UintBound(bytes, little);
  }

  function PutLittle(v: nat, k: nat): (b: seq<byte>)
    ensures |b| == k
  {
    if k == 0 then [] else [v % 256] + PutLittle(v / 256, k - 1)
  }

  function PutBig(v: nat, k: nat): (b: seq<byte>)
    ensures |b| == k
  {
    if k == 0 then [] else PutBig(v / 256, k - 1) + [v % 256]
  }

  /** `to_le_bytes` / `to_be_bytes` of a `k`-byte integer. */
  function Put(v: nat, k: nat, little: bool): (b: seq<byte>)
    ensures |b| == k
  {
    if little then PutLittle(v, k) else PutBig(v, k)
  }

  /** Reading back what was written gives the value, if it fits `k` bytes. */
  lemma {:induction false} PutThenRead(v: nat, k: nat, little: bool)
    requires v < Pow256(k)
    ensures Uint(Put(v, k, little), little) == v
  {
    if k > 0 {
      PutThenRead(v / 256, k - 1, little);
      var b := Put(v, k, little);
      if little {
        assert b[1..] == PutLittle(v / 256, k - 1);
      } else {
        assert b[..k - 1] == PutBig(v / 256, k - 1);
      }
    }
  }

  lemma DivTwice(v: nat, p: nat)
    requires p > 0
    ensures v / 256 / p == v / (256 * p)
  {
    var t, r := v / 256 / p, v / 256 % p;
    assert v / 256 == p * t + r;
    assert v == (256 * p) * t + (256 * r + v % 256);
    QuotientOf(v, 256 * p, t, 256 * r + v % 256);
  }

  lemma QuotientOf(v: nat, d: nat, q: nat, r: nat)
    requires r < d && v == d * q + r
    ensures v / d == q
  {
    var other := v / d;
    assert v == d * other + v % d;
    MultiplesApart(d, q, other, r);
    MultiplesApart(d, other, q, v % d);
  }

  lemma MultiplesApart(d: nat, a: nat, b: nat, r: nat)
    requires r < d
    ensures a < b ==> d * a + r < d * b
  {
    if a < b {
      assert d * (a + 1) <= d * b;
    }
  }

  /** Byte `i` of a number, from its low end, stands at place `i` or mirrored. */
  lemma {:induction false} PutDigit(v: nat, k: nat, i: nat)
    requires i < k
    ensures PutLittle(v, k)[i] == v / Pow256(i) % 256
    ensures PutBig(v, k)[k - 1 - i] == v / Pow256(i) % 256
  {
    if i > 0 {
      PutDigit(v / 256, k - 1, i - 1);
      DivTwice(v, Pow256(i - 1));
    }
  }

  lemma LastDigit(rest: nat, b: byte)
    ensures (256 * rest + b) % 256 == b && (256 * rest + b) / 256 == rest
  {
  }

  /** Writing back what was read gives the same bytes. */
  lemma {:induction false} ReadThenPut(b: seq<byte>, little: bool)
    ensures Put(Uint(b, little), |b|, little) == b
  {
    if b != [] && little {
      ReadThenPut(b[1..], little);
      LastDigit(UintLittle(b[1..]), b[0]);
      assert b == [b[0]] + b[1..];
    } else if b != [] {
      var n := |b| - 1;
      ReadThenPut(b[..n], little);
      LastDigit(UintBig(b[..n]), b[n]);
      assert b == b[..n] + [b[n]];
    }
  }
}
