/** Bytes, words and their big-endian encoding. */
module Bytes {
  import opened Powers

  type Byte = x: int | 0 <= x < 256

  /** The value of a big-endian byte string. */
  function Value(bytes: seq<Byte>): nat {
    if bytes == [] then 0 else Value(bytes[..|bytes| - 1]) * 256 + bytes[|bytes| - 1]
  }

  /** The low `n` bytes of a value, most significant first. */
  function Encode(value: nat, n: nat): (bytes: seq<Byte>)
    ensures |bytes| == n
    decreases value, n
  {
    if n == 0 then [] else Encode(value / 256, n - 1) + [value % 256]
  }

  function Zeros(n: nat): (z: seq<Byte>)
    ensures |z| == n
  {
    seq(n, i => 0)
  }

  lemma {:induction false} ValueConcat(a: seq<Byte>, b: seq<Byte>)
    ensures Value(a + b) == Value(a) * Pow2(8 * |b|) + Value(b)
    decreases |b|
  {
    if b == [] {
      assert a + b == a;
    } else {
      var b' := b[..|b| - 1];
      assert (a + b)[..|a + b| - 1] == a + b';
      ValueConcat(a, b');
      Pow2Byte(|b| - 1);
      AppendByte(Value(a), Pow2(8 * |b'|), Value(b'), b[|b| - 1]);
    }
  }

  lemma AppendByte(a: int, p: int, b: int, last: int)
    ensures (a * p + b) * 256 + last == a * (256 * p) + (b * 256 + last)
  {
  }

  lemma Pow2Byte(n: nat)
    ensures Pow2(8 * (n + 1)) == 256 * Pow2(8 * n)
  {
    Pow2Add(8, 8 * n);
    assert Pow2(8) == 256;
  }

  lemma {:induction false} ValueBound(bytes: seq<Byte>)
    ensures Value(bytes) < Pow2(8 * |bytes|)
  {
    if bytes != [] {
      ValueBound(bytes[..|bytes| - 1]);
      Pow2Byte(|bytes| - 1);
    }
  }

  /** Encoding undoes reading. */
  lemma {:induction false} EncodeValue(bytes: seq<Byte>)
    ensures Encode(Value(bytes), |bytes|) == bytes
  {
    if bytes != [] {
      EncodeValue(bytes[..|bytes| - 1]);
      assert Value(bytes) / 256 == Value(bytes[..|bytes| - 1]);
      assert bytes == bytes[..|bytes| - 1] + [bytes[|bytes| - 1]];
    }
  }

  /** Byte strings of one length are told apart by their values. */
  lemma ValueInjective(a: seq<Byte>, b: seq<Byte>)
    requires |a| == |b| && Value(a) == Value(b)
    ensures a == b
  {
    EncodeValue(a);
    EncodeValue(b);
  }

  lemma {:induction false} ValueZeros(n: nat)
    ensures Value(Zeros(n)) == 0
  {
    if n > 0 {
      ValueZeros(n - 1);
      assert Zeros(n)[..n - 1] == Zeros(n - 1);
    }
  }

  /** Shifting out all but the leading bytes. */
  lemma LeadingBytes(a: seq<Byte>, b: seq<Byte>)
    ensures Value(a + b) / Pow2(8 * |b|) == Value(a)
  {
    ValueConcat(a, b);
    ValueBound(b);
    DivUnique(Value(a + b), Pow2(8 * |b|), Value(a), Value(b));
  }

  /** Shifting bytes to the front of a longer string. */
  lemma TrailingZeros(a: seq<Byte>, n: nat, value: nat)
    requires value == Value(a) * Pow2(8 * n)
    ensures Encode(value, |a| + n) == a + Zeros(n)
  {
    PaddedValue(a, n);
    EncodeValue(a + Zeros(n));
  }

  lemma PaddedValue(a: seq<Byte>, n: nat)
    ensures Value(a + Zeros(n)) == Value(a) * Pow2(8 * n)
  {
    ValueConcat(a, Zeros(n));
    ValueZeros(n);
  }
}
