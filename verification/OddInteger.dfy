/**
 Reading integers that have no native C++ type (24, 40, 48 and 56 bits, and bit fields) from their bytes
 on the wire: little endian, two's complement (section 9.1.4 of CiA DS 301 V4.02).
 */
module OddIntegers {
  import opened Division
  import opened Options

  type Byte = x: int | 0 <= x < 256

  // ---- unsigned 64-bit operations on values ----------------------------------------------------

  function Pow2(n: nat): (r: nat)
    ensures r > 0
  {
    if n == 0 then 1 else 2 * Pow2(n - 1)
  }

  function Or(a: nat, b: nat): nat
    decreases a + b
  {
    if a == 0 && b == 0 then 0 else 2 * Or(a / 2, b / 2) + if a % 2 == 1 || b % 2 == 1 then 1 else 0
  }

  function Xor(a: nat, b: nat): nat
    decreases a + b
  {
    if a == 0 && b == 0 then 0 else 2 * Xor(a / 2, b / 2) + if a % 2 != b % 2 then 1 else 0
  }

  function And(a: nat, b: nat): nat
    decreases a + b
  {
    if a == 0 && b == 0 then 0 else 2 * And(a / 2, b / 2) + if a % 2 == 1 && b % 2 == 1 then 1 else 0
  }

  const TWO_TO_63: int := 0x8000_0000_0000_0000
  const TWO_TO_64: int := 0x1_0000_0000_0000_0000

  // a << n
  function Shifted(a: nat, n: nat): nat { a * Pow2(n) % TWO_TO_64 }

  function Minus(a: nat, b: nat): nat { (a - b) % TWO_TO_64 }

  function ToInt64(a: nat): int { if a < TWO_TO_63 then a else a - TWO_TO_64 }

  lemma {:induction false} OrWithZero(b: nat)
    ensures Or(0, b) == b
  {
    if b > 0 { OrWithZero(b / 2); }
  }

  // OR-ing in bits above all set ones adds them.
  lemma {:induction false} OrAbove(a: nat, b: nat, n: nat)
    requires a < Pow2(n)
    ensures Or(a, b * Pow2(n)) == a + b * Pow2(n)
  {
    if n == 0 {
      OrWithZero(b);
    } else {
      var c := b * Pow2(n - 1);
      assert b * Pow2(n) == 2 * c;
      OrAbove(a / 2, b, n - 1);
    }
  }

  lemma {:induction false} XorWithZero(b: nat)
    ensures Xor(b, 0) == b
  {
    if b > 0 { XorWithZero(b / 2); }
  }

  // XOR with the top bit flips it.
  lemma {:induction false} XorTop(v: nat, n: nat)
    requires v < 2 * Pow2(n)
    ensures Xor(v, Pow2(n)) == if v < Pow2(n) then v + Pow2(n) else v - Pow2(n)
  {
    if n == 0 {
      XorWithZero(0);
    } else {
      XorTop(v / 2, n - 1);
      XorEven(v, Pow2(n - 1));
    }
  }

  lemma XorEven(v: nat, p: nat)
    requires p > 0
    ensures Xor(v, 2 * p) == 2 * Xor(v / 2, p) + v % 2
  {
    assert 2 * p / 2 == p && 2 * p % 2 == 0;
  }

  lemma {:induction false} MaskIsRemainder(a: nat, n: nat)
    ensures And(a, Pow2(n) - 1) == a % Pow2(n)
  {
    if n == 0 {
      AndWithZero(a);
    } else {
      var p := Pow2(n - 1);
      MaskIsRemainder(a / 2, n - 1);
      HalfRemainder(a, p);
    }
  }

  lemma {:induction false} AndWithZero(a: nat)
    ensures And(a, 0) == 0
  {
    if a > 0 { AndWithZero(a / 2); }
  }

  lemma HalfRemainder(a: nat, p: nat)
    requires p > 0
    ensures a % (2 * p) == 2 * (a / 2 % p) + a % 2
  {
    var q, r := a / 2 / p, a / 2 % p;
    assert a == (2 * p) * q + (2 * r + a % 2);
    DivisionIs(a, 2 * p, q, 2 * r + a % 2);
  }

  // ---- what the bytes mean -----------------------------------------------------------------------

  function LittleEndian(bytes: seq<Byte>): (v: nat)
    ensures v < Pow2(8 * |bytes|)
  {
    if bytes == [] then 0
    else
      var n := |bytes| - 1;
      Pow2Plus8(8 * n);
      BelowNext(LittleEndian(bytes[..n]), bytes[n], Pow2(8 * n));
      LittleEndian(bytes[..n]) + bytes[n] * Pow2(8 * n)
  }

  lemma BelowNext(v: nat, b: Byte, p: nat)
    requires v < p
    ensures 0 <= v + b * p < 256 * p
  {
    assert b * p <= 255 * p;
  }

  lemma Pow2Plus8(n: nat)
    ensures Pow2(n + 8) == 256 * Pow2(n)
  {
    assert Pow2(n + 8) == 4 * Pow2(n + 6) == 16 * Pow2(n + 4) == 64 * Pow2(n + 2) == 256 * Pow2(n);
  }

  // The first byte on the wire is the least significant: read from the front, each further byte weighs
  // 256 times more.
  lemma {:induction false} LeastSignificantFirst(bytes: seq<Byte>)
    requires bytes != []
    ensures LittleEndian(bytes) == bytes[0] + 256 * LittleEndian(bytes[1..])
  {
    var n := |bytes| - 1;
    if n > 0 {
      LeastSignificantFirst(bytes[..n]);
      assert bytes[..n][1..] == bytes[1..][..n - 1];
      Pow2Plus8(8 * (n - 1));
      Regroup256(bytes[n], Pow2(8 * (n - 1)));
    } else {
      assert bytes[..0] == [] && bytes[1..] == [];
    }
  }

  lemma Regroup256(b: int, p: int)
    ensures b * (256 * p) == 256 * (b * p)
  {
  }

  // The number an n-bit two's complement pattern stands for.
  function TwosComplement(v: nat, n: nat): int
    requires n > 0
  {
    if v < Pow2(n - 1) then v else v - Pow2(n)
  }

  function Meaning(bytes: seq<Byte>, signed: bool): int
    requires |bytes| > 0
  {
    if signed then TwosComplement(LittleEndian(bytes), 8 * |bytes|) else LittleEndian(bytes)
  }

  predicate InRange(x: int, bytes: nat, signed: bool)
    requires bytes > 0
  {
    if signed then -x <= Pow2(8 * bytes - 1) && x < Pow2(8 * bytes - 1) else 0 <= x < Pow2(8 * bytes)
  }

  // What a device puts on the wire for x.
  function Encode(x: int, n: nat): (bytes: seq<Byte>)
    ensures |bytes| == n
  {
    if n == 0 then [] else Encode(x, n - 1) + [(x / Pow2(8 * (n - 1))) % 256]
  }

  // ---- the decoder -------------------------------------------------------------------------------

  // `answer`: the bytes read_sdo_untyped delivered, None if it failed (printed as "error").
  method ReadOddInt(answer: Option<seq<Byte>>, bytes: nat, signed: bool) returns (r: Option<int>)
    requires 1 <= bytes <= 8 && (answer.Some? ==> |answer.value| == bytes)
    ensures r == if answer.Some? then Some(Meaning(answer.value, signed)) else None
  {
    if answer.None? {
      return None;
    }
    var buf := answer.value;
    var v: nat := 0;
    for i := 0 to bytes
      invariant v == LittleEndian(buf[..i])
    {
      OrAbove(v, buf[i], 8 * i);
      assert buf[..i + 1][..i] == buf[..i];
      ShiftedByte(buf[i], 8 * i);
      v := Or(v, Shifted(buf[i], 8 * i));
    }
    assert buf[..bytes] == buf;
    if signed {
      var signBit := Pow2(8 * bytes - 1);
      SignExtension(v, 8 * bytes);
      return Some(ToInt64(Minus(Xor(v, signBit), signBit)));
    }
    return Some(v);
  }

  lemma ShiftedByte(b: Byte, n: nat)
    requires n <= 56
    ensures Shifted(b, n) == b * Pow2(n)
  {
    BelowNext(0, b, Pow2(n));
    Pow2Plus8(n);
    Pow2Monotone(n + 8, 64);
    Pow2Of64();
  }

  lemma SignExtension(v: nat, n: nat)
    requires 1 <= n <= 64 && v < Pow2(n)
    ensures ToInt64(Minus(Xor(v, Pow2(n - 1)), Pow2(n - 1))) == TwosComplement(v, n)
  {
    XorTop(v, n - 1);
    Pow2Monotone(n, 64);
    Pow2Of64();
  }

  lemma {:induction false} Pow2Monotone(m: nat, n: nat)
    requires m <= n
    ensures Pow2(m) <= Pow2(n)
  {
    if m < n { Pow2Monotone(m, n - 1); }
  }

  lemma Pow2Of64()
    ensures Pow2(64) == TWO_TO_64
  {
    Pow2Plus8(0); Pow2Plus8(8); Pow2Plus8(16); Pow2Plus8(24);
    Pow2Plus8(32); Pow2Plus8(40); Pow2Plus8(48); Pow2Plus8(56);
  }

  // `answer`: the byte read; a bit field of 1 to 8 bits is its low bits.
  method ReadBits(answer: Option<Byte>, bits: nat) returns (r: Option<nat>)
    requires 1 <= bits <= 8
    ensures r == if answer.Some? then Some(answer.value % Pow2(bits)) else None
  {
    if answer.None? {
      return None;
    }
    MaskIsRemainder(answer.value, bits);
    return Some(And(answer.value, Pow2(bits) - 1));
  }

  // ---- round trips -------------------------------------------------------------------------------

  // The bytes of x stand for x modulo 2^(8n).
  lemma {:induction false} EncodedValue(x: int, n: nat)
    ensures LittleEndian(Encode(x, n)) == x % Pow2(8 * n)
  {
    if n > 0 {
      EncodedValue(x, n - 1);
      var p := Pow2(8 * (n - 1));
      Pow2Plus8(8 * (n - 1));
      assert Encode(x, n)[..n - 1] == Encode(x, n - 1);
      SplitDigit(x, p);
    }
  }

  lemma SplitDigit(x: int, p: nat)
    requires p > 0
    ensures x % (256 * p) == x % p + (x / p % 256) * p
  {
    var q, d := x / p / 256, x / p % 256;
    BelowNext(x % p, d, p);
    Regroup(p, q, d);
    DivisionIs(x, 256 * p, q, x % p + d * p);
  }

  lemma Regroup(p: int, q: int, d: int)
    ensures p * (256 * q + d) == (256 * p) * q + d * p
  {
  }

  // Decoding inverts encoding for every number in range.
  lemma DecodeEncode(x: int, n: nat, signed: bool)
    requires n > 0 && InRange(x, n, signed)
    ensures Meaning(Encode(x, n), signed) == x
  {
    EncodedValue(x, n);
    var m := Pow2(8 * n);
    if x < 0 { DivisionIs(x, m, -1, x + m); } else { DivisionIs(x, m, 0, x); }
  }

  // Every byte string is the encoding of what it is decoded to, which is in range.
  lemma {:induction false} EncodeDecode(bytes: seq<Byte>, signed: bool)
    requires |bytes| > 0
    ensures InRange(Meaning(bytes, signed), |bytes|, signed)
    ensures Encode(Meaning(bytes, signed), |bytes|) == bytes
  {
    var n := |bytes|;
    var x := Meaning(bytes, signed);
    EncodedValue(x, n);
    var m := Pow2(8 * n);
    if x < 0 { DivisionIs(x, m, -1, x + m); } else { DivisionIs(x, m, 0, x); }
    BytesDetermined(Encode(x, n), bytes);
  }

  lemma {:induction false} BytesDetermined(a: seq<Byte>, b: seq<Byte>)
    requires |a| == |b| && LittleEndian(a) == LittleEndian(b)
    ensures a == b
  {
    if a != [] {
      var n := |a| - 1;
      var p, u, v := Pow2(8 * n), LittleEndian(a[..n]), LittleEndian(b[..n]);
      LastDigit(u, a[n], p);
      LastDigit(v, b[n], p);
      assert u == v && a[n] == b[n];
      BytesDetermined(a[..n], b[..n]);
      assert a == a[..n] + [a[n]] && b == b[..n] + [b[n]];
    }
  }

  lemma LastDigit(v: nat, b: Byte, p: nat)
    requires v < p
    ensures (v + b * p) % p == v && (v + b * p) / p == b
  {
    DivisionIs(v + b * p, p, b, v);
  }
}
