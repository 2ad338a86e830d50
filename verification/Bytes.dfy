/**
 Bytes and the fixed-width integer encodings of the patch formats: the little-endian
 two's complement of utils.c and the sign-and-magnitude `off_t` of bsdiff.
 */
module Bytes {
  /** An unsigned char. */
  type byte = x: int | 0 <= x < 256

  /** The largest file size or offset that `off_t` can hold. */
  const OFF_MAX := 0x7FFF_FFFF_FFFF_FFFF

  lemma SubSlice<T>(s: seq<T>, off: nat, n: nat, a: nat, b: nat)
    requires a <= b <= n && off + n <= |s|
    ensures s[off..off+n][a..b] == s[off+a..off+b]
  {
    var l, r := s[off..off+n][a..b], s[off+a..off+b];
    assert |l| == |r| && forall i :: 0 <= i < |l| ==> l[i] == r[i];
  }

  /** unsigned char arithmetic. */
  function Plus(a: int, b: int): (r: byte) {
    (a + b) % 256
  }

  function Minus(a: int, b: int): (r: byte) {
    (a - b) % 256
  }

  lemma PlusMinus(a: byte, b: byte)
    ensures Plus(Minus(a, b), b) == a
  {
  }

  /** 256 to the power `n`. */
  function Span(n: nat): (r: int)
    ensures r > 0
  {
    if n == 0 then 1 else 256 * Span(n - 1)
  }

  /** The `n` low bytes of `v`, least significant first. */
  function Little(v: nat, n: nat): (r: seq<byte>)
    ensures |r| == n
  {
    if n == 0 then [] else [v % 256] + Little(v / 256, n - 1)
  }

  function Value(b: seq<byte>): (r: int)
    ensures r >= 0
  {
    if b == [] then 0 else b[0] + 256 * Value(b[1..])
  }

  lemma {:induction false} ValueLittle(v: nat, n: nat)
    requires v < Span(n)
    ensures Value(Little(v, n)) == v
  {
    if n > 0 {
      ValueLittle(v / 256, n - 1);
      assert Little(v, n)[1..] == Little(v / 256, n - 1);
    }
  }

  lemma {:induction false} ValueBound(b: seq<byte>)
    ensures Value(b) < Span(|b|)
  {
    if b != [] {
      ValueBound(b[1..]);
    }
  }

  // ----- utils.c: Write4, Write8, Read4, Read8 -----

  /** `x` fits in `n` bytes of two's complement. */
  predicate Fits(x: int, n: nat) {
    -Span(n) <= 2 * x < Span(n)
  }

  /** The bytes `fputc` receives for an integer: its `n` low bytes in two's complement. */
  function Write(x: int, n: nat): (r: seq<byte>)
    ensures |r| == n
  {
    Little(if -Span(n) <= x < 0 then x + Span(n) else if 0 <= x < Span(n) then x else x % Span(n), n)
  }

  /** An `n`-byte signed integer. */
  function Read(b: seq<byte>): (r: int)
  {
    var v := Value(b);
    if 2 * v >= Span(|b|) then v - Span(|b|) else v
  }

  /** Every integer that fits in `n` bytes, negative ones included, is read back as written. */
  lemma ReadWrite(x: int, n: nat)
    requires Fits(x, n)
    ensures Read(Write(x, n)) == x
  {
    ValueLittle(if x < 0 then x + Span(n) else x, n);
  }

  lemma {:induction false} LittleValue(b: seq<byte>)
    ensures Little(Value(b), |b|) == b
  {
    if b != [] {
      LittleValue(b[1..]);
      assert Value(b) % 256 == b[0] && Value(b) / 256 == Value(b[1..]);
    }
  }

  /** The bytes of a field are determined by the integer that is read from it. */
  lemma WriteRead(b: seq<byte>)
    ensures Write(Read(b), |b|) == b
  {
    ValueBound(b);
    LittleValue(b);
  }

  lemma SpanFacts()
    ensures Span(2) == 0x1_0000 && Span(4) == 0x1_0000_0000 && Span(8) == 0x1_0000_0000_0000_0000
  {
    assert Span(2) == 256 * 256;
    assert Span(4) == 256 * (256 * Span(2));
    assert Span(6) == 256 * (256 * Span(4));
  }

  // ----- bsdiff.c: offtout, bspatch.c: offtin -----

  /** Magnitude in seven and a bit bytes, sign in the top bit. */
  function Offtout(x: int): (r: seq<byte>)
    ensures |r| == 8
  {
    var b := Little(if x < 0 then -x else x, 8);
    if x < 0 && b[7] < 128 then b[7 := b[7] + 128] else b
  }

  function Offtin(b: seq<byte>): (r: int)
    requires |b| == 8
  {
    var y := Value(b[7 := b[7] % 128]);
    if b[7] >= 128 then -y else y
  }

  lemma {:induction false} LittleTop(v: nat, n: nat)
    requires 0 < n && 2 * v < Span(n)
    ensures Little(v, n)[n-1] < 128
  {
    if n > 1 {
      LittleTop(v / 256, n - 1);
    } else {
      assert Span(1) == 256 * Span(0);
    }
  }

  /** offtin inverts offtout on every magnitude below 2^63. */
  lemma OfftinOfftout(x: int)
    requires -0x8000_0000_0000_0000 < x < 0x8000_0000_0000_0000
    ensures Offtin(Offtout(x)) == x
  {
    SpanFacts();
    var y := if x < 0 then -x else x;
    LittleTop(y, 8);
    ValueLittle(y, 8);
    var b := Offtout(x);
    assert b[7 := b[7] % 128] == Little(y, 8);
  }
}
