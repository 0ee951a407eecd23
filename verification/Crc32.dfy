/**
 The CRC-32 of section 8 of RFC 1952, computed bit by bit over a payload.

 The bitwise loop is specified by `Crc`. It is shown equal to the table-driven
 update of the RFC, to be resumable at any point of the payload, and to change
 whenever two payloads differ only inside a window of 32 consecutive bits.
 */
module Crc32 {
  import opened Bytes
  import opened Folds
  import opened ShiftRegister

  const POLY: bv32 := 0xEDB88320

  const ALL_ONES: bv32 := 0xFFFFFFFF

  const BYTE_BITS: nat := 8

  const WORD_BITS: nat := 32

  function Shift(c: bv32): bv32 {
    if c & 1 == 1 then (c >> 1) ^ POLY else c >> 1
  }

  function Xor(a: bv32, b: bv32): bv32 {
    a ^ b
  }

  function Widen(b: byte): bv32 {
    b as bv32
  }

  /** One payload byte. */
  function Absorb(c: bv32, b: byte): bv32 {
    Iterate(Shift, Xor(c, Widen(b)), BYTE_BITS)
  }

  function Run(c: bv32, data: seq<byte>): bv32 {
    Fold(Absorb, c, data)
  }

  function Crc(data: seq<byte>): bv32 {
    Xor(Run(ALL_ONES, data), ALL_ONES)
  }

  /** The two nested loops of the implementation. */
  method ComputeCrc32(data: seq<byte>) returns (crc: bv32)
    ensures crc == Crc(data)
  {
    crc := ALL_ONES;
    for k := 0 to |data|
      invariant Run(crc, data[k..]) == Run(ALL_ONES, data)
    {
      ghost var before := crc;
      crc := crc ^ (data[k] as bv32);
      for i := 0 to 8
        invariant Iterate(Shift, crc, BYTE_BITS - i) == Absorb(before, data[k])
      {
        if crc & 1 == 1 {
          crc := (crc >> 1) ^ POLY;
        } else {
          crc := crc >> 1;
        }
      }
      assert data[k..][1..] == data[k + 1..];
    }
    crc := crc ^ ALL_ONES;
  }

  // ----- The register as a linear, injective shift -----

  function Odd(c: bv32): bool {
    c & 1 == 1
  }

  function Half(c: bv32): bv32 {
    c >> 1
  }

  function Bit(b: bool): bv32 {
    if b then 1 else 0
  }

  function ShiftIn(c: bv32, b: bool): bv32 {
    Shift(Xor(c, Bit(b)))
  }

  function Cons(b: bool, c: bv32): bv32 {
    Bit(b) | (c << 1)
  }

  lemma XorCancel(a: bv32, b: bv32, x: bv32)
    requires Xor(a, x) == Xor(b, x)
    ensures a == b
  {
    assert (a ^ x) ^ x == a;
    assert (b ^ x) ^ x == b;
  }

  lemma ShiftInjective(a: bv32, b: bv32)
    requires Shift(a) == Shift(b)
    ensures a == b
  {
  }

  lemma ShiftLinearOddOdd(a: bv32, b: bv32)
    requires a & 1 == 1 && b & 1 == 1
    ensures Shift(a ^ b) == Shift(a) ^ Shift(b)
  {
    assert (a ^ b) >> 1 == (a >> 1) ^ (b >> 1);
  }

  lemma ShiftLinearOddEven(a: bv32, b: bv32)
    requires a & 1 == 1 && b & 1 == 0
    ensures Shift(a ^ b) == Shift(a) ^ Shift(b)
  {
    assert (a ^ b) >> 1 == (a >> 1) ^ (b >> 1);
  }

  lemma ShiftLinearEvenEven(a: bv32, b: bv32)
    requires a & 1 == 0 && b & 1 == 0
    ensures Shift(a ^ b) == Shift(a) ^ Shift(b)
  {
    assert (a ^ b) >> 1 == (a >> 1) ^ (b >> 1);
  }

  lemma ShiftLinear(a: bv32, b: bv32)
    ensures Shift(Xor(a, b)) == Xor(Shift(a), Shift(b))
  {
    if a & 1 == 1 && b & 1 == 1 {
      ShiftLinearOddOdd(a, b);
    } else if a & 1 == 1 {
      ShiftLinearOddEven(a, b);
    } else if b & 1 == 1 {
      ShiftLinearOddEven(b, a);
      assert a ^ b == b ^ a && Shift(a) ^ Shift(b) == Shift(b) ^ Shift(a);
    } else {
      ShiftLinearEvenEven(a, b);
    }
  }

  lemma XorComm(a: bv32, b: bv32)
    ensures Xor(a, b) == Xor(b, a)
  {
  }

  lemma XorPoly(a: bv32, b: bv32)
    ensures Xor(a, Xor(b, POLY)) == Xor(Xor(a, POLY), b)
  {
  }

  lemma ShiftMixed(c: bv32, w: bv32)
    ensures Shift(Xor(c, w)) == Xor(ShiftIn(c, Odd(w)), Half(w))
  {
    ShiftLinear(c, w);
    if Odd(w) {
      ShiftLinear(c, 1);
      assert Shift(1) == POLY;
      XorPoly(Shift(c), Half(w));
    } else {
      assert Xor(c, 0) == c;
    }
  }

  lemma ShiftNInjective(a: bv32, b: bv32, n: nat)
    requires Iterate(Shift, a, n) == Iterate(Shift, b, n)
    ensures a == b
  {
    forall x, y | Shift(x) == Shift(y)
      ensures x == y
    {
      ShiftInjective(x, y);
    }
    IterateInjective(Shift, a, b, n);
  }

  lemma ShiftNLinear(a: bv32, b: bv32, n: nat)
    ensures Iterate(Shift, Xor(a, b), n) == Xor(Iterate(Shift, a, n), Iterate(Shift, b, n))
  {
    forall x, y
      ensures Shift(Xor(x, y)) == Xor(Shift(x), Shift(y))
    {
      ShiftLinear(x, y);
    }
    IterateLinear(Shift, Xor, a, b, n);
  }

  /** Bits absorbed one at a time act as one word mixed in before the shifts. */
  lemma BitRunIsShiftN(c: bv32, w: bv32, n: nat)
    requires Iterate(Half, w, n) == 0
    ensures Fold(ShiftIn, c, LowBits(Odd, Half, w, n)) == Iterate(Shift, Xor(c, w), n)
  {
    forall s, x
      ensures Shift(Xor(s, x)) == Xor(ShiftIn(s, Odd(x)), Half(x))
    {
      ShiftMixed(s, x);
    }
    forall s
      ensures Xor(s, 0) == s
    {
      assert s ^ 0 == s;
    }
    SerialIsParallel(Shift, ShiftIn, Xor, Odd, Half, 0, c, w, n);
  }

  // ----- Resuming and the table-driven form -----

  /** Processing a concatenation continues from the intermediate state. */
  lemma RunConcat(c: bv32, a: seq<byte>, b: seq<byte>)
    ensures Run(c, a + b) == Run(Run(c, a), b)
  {
    FoldConcat(Absorb, c, a, b);
  }

  /** Entry n of the table of section 8 of RFC 1952. */
  function TableEntry(n: bv32): bv32 {
    Iterate(Shift, n, BYTE_BITS)
  }

  /** The update of section 8 of RFC 1952: c = table[(c ^ buf[n]) & 0xff] ^ (c >> 8). */
  function TableStep(c: bv32, b: byte): bv32 {
    Xor(TableEntry(Xor(c, Widen(b)) & 0xFF), c >> 8)
  }

  /** The three upper bytes pass through eight shifts unchanged. */
  lemma UpperBytes(hi: bv32)
    requires hi & 0xFF == 0
    ensures Iterate(Shift, hi, BYTE_BITS) == hi >> 8
  {
    forall x | !Odd(x)
      ensures Shift(x) == Half(x)
    {
    }
    assert LowBits(Odd, Half, hi, 8) == seq(8, _ => false);
    ShiftZeros(Shift, Odd, Half, hi, BYTE_BITS);
    HalfByte(hi);
  }

  lemma SplitLowByte(x: bv32)
    ensures x == Xor(x & 0xFF, x & 0xFFFFFF00)
    ensures x & 0xFFFFFF00 & 0xFF == 0
  {
  }

  lemma UpperBytesOf(c: bv32, b: byte)
    ensures (Xor(c, Widen(b)) & 0xFFFFFF00) >> 8 == c >> 8
  {
  }

  lemma TableStepIsAbsorb(c: bv32, b: byte)
    ensures Absorb(c, b) == TableStep(c, b)
  {
    var x := Xor(c, Widen(b));
    var (lo, hi) := (x & 0xFF, x & 0xFFFFFF00);
    SplitLowByte(x);
    UpperBytesOf(c, b);
    ShiftNLinear(lo, hi, BYTE_BITS);
    UpperBytes(hi);
  }

  /** The bitwise loop is the RFC's table-driven one, from every state. */
  lemma {:induction false} BitwiseIsTableDriven(c: bv32, data: seq<byte>)
    ensures Run(c, data) == Fold(TableStep, c, data)
    decreases data
  {
    if data != [] {
      TableStepIsAbsorb(c, data[0]);
      BitwiseIsTableDriven(Absorb(c, data[0]), data[1..]);
    }
  }

  /** Eight shifts through given values. */
  lemma ShiftsThrough(xs: seq<bv32>)
    requires |xs| == 9
    requires Shift(xs[0]) == xs[1] && Shift(xs[1]) == xs[2] && Shift(xs[2]) == xs[3] && Shift(xs[3]) == xs[4]
    requires Shift(xs[4]) == xs[5] && Shift(xs[5]) == xs[6] && Shift(xs[6]) == xs[7] && Shift(xs[7]) == xs[8]
    ensures Iterate(Shift, xs[0], BYTE_BITS) == xs[8]
  {
    forall k | 0 <= k < 8
      ensures Shift(xs[k]) == xs[k + 1]
    {
      assert k == 0 || k == 1 || k == 2 || k == 3 || k == 4 || k == 5 || k == 6 || k == 7;
    }
    IterateAlong(Shift, xs, 0, BYTE_BITS);
  }

  /** The entries of the table for the lowest and the highest bit of a byte. */
  lemma TableValues()
    ensures TableEntry(0x01) == 0x77073096 && TableEntry(0x80) == 0xEDB88320
  {
    ShiftsThrough([0x00000001, 0xEDB88320, 0x76DC4190, 0x3B6E20C8, 0x1DB71064,
                   0x0EDB8832, 0x076DC419, 0xEE0E612C, 0x77073096]);
    ShiftsThrough([0x00000080, 0x00000040, 0x00000020, 0x00000010, 0x00000008,
                   0x00000004, 0x00000002, 0x00000001, 0xEDB88320]);
  }

  lemma RunFirst(c: bv32, b: byte, rest: seq<byte>)
    ensures Run(c, [b] + rest) == Run(Absorb(c, b), rest)
  {
    assert ([b] + rest)[1..] == rest;
  }

  /** One byte taken from a state to the next. */
  predicate Takes(c: bv32, b: byte, next: bv32) {
    Absorb(c, b) == next
  }

  lemma AbsorbsThree(c: bv32, x: byte, y: byte, z: byte, c1: bv32, c2: bv32, c3: bv32)
    requires Takes(c, x, c1) && Takes(c1, y, c2) && Takes(c2, z, c3)
    ensures Run(c, [x, y, z]) == c3
  {
    assert [x, y, z] == [x] + [y, z] && [y, z] == [y] + [z] && [z] == [z] + [];
    RunFirst(c, x, [y, z]);
    RunFirst(c1, y, [z]);
    RunFirst(c2, z, []);
  }

  lemma Digit1()
    ensures Takes(0xFFFFFFFF, 0x31, 0x7C231048)
  {
    assert Xor(0xFFFFFFFF, Widen(0x31)) == 0xFFFFFFCE;
    ShiftsThrough([0xFFFFFFCE, 0x7FFFFFE7, 0xD2477CD3, 0x849B3D49, 0xAFF51D84,
                   0x57FA8EC2, 0x2BFD4761, 0xF8462090, 0x7C231048]);
  }

  lemma Digit2()
    ensures Takes(0x7C231048, 0x32, 0xB0ACBB32)
  {
    assert Xor(0x7C231048, Widen(0x32)) == 0x7C23107A;
    ShiftsThrough([0x7C23107A, 0x3E11883D, 0xF2B0473E, 0x7958239F, 0xD11492EF,
                   0x8532CA57, 0xAF21E60B, 0xBA287025, 0xB0ACBB32]);
  }

  lemma Digit3()
    ensures Takes(0xB0ACBB32, 0x33, 0x77B79C2D)
  {
    assert Xor(0xB0ACBB32, Widen(0x33)) == 0xB0ACBB01;
    ShiftsThrough([0xB0ACBB01, 0xB5EEDEA0, 0x5AF76F50, 0x2D7BB7A8, 0x16BDDBD4,
                   0x0B5EEDEA, 0x05AF76F5, 0xEF6F385A, 0x77B79C2D]);
  }

  lemma Digit4()
    ensures Takes(0x77B79C2D, 0x34, 0x641C1F5C)
  {
    assert Xor(0x77B79C2D, Widen(0x34)) == 0x77B79C19;
    ShiftsThrough([0x77B79C19, 0xD6634D2C, 0x6B31A696, 0x3598D34B, 0xF774EA85,
                   0x9602F662, 0x4B017B31, 0xC8383EB8, 0x641C1F5C]);
  }

  lemma Digit5()
    ensures Takes(0x641C1F5C, 0x35, 0x340AC5E3)
  {
    assert Xor(0x641C1F5C, Widen(0x35)) == 0x641C1F69;
    ShiftsThrough([0x641C1F69, 0xDFB68C94, 0x6FDB464A, 0x37EDA325, 0xF64E52B2,
                   0x7B272959, 0xD02B178C, 0x68158BC6, 0x340AC5E3]);
  }

  lemma Digit6()
    ensures Takes(0x340AC5E3, 0x36, 0xF68D2C9E)
  {
    assert Xor(0x340AC5E3, Widen(0x36)) == 0x340AC5D5;
    ShiftsThrough([0x340AC5D5, 0xF7BDE1CA, 0x7BDEF0E5, 0xD057FB52, 0x682BFDA9,
                   0xD9AD7DF4, 0x6CD6BEFA, 0x366B5F7D, 0xF68D2C9E]);
  }

  lemma Digit7()
    ensures Takes(0xF68D2C9E, 0x37, 0xAFFC9660)
  {
    assert Xor(0xF68D2C9E, Widen(0x37)) == 0xF68D2CA9;
    ShiftsThrough([0xF68D2CA9, 0x96FE1574, 0x4B7F0ABA, 0x25BF855D, 0xFF67418E,
                   0x7FB3A0C7, 0xD2615343, 0x84882A81, 0xAFFC9660]);
  }

  lemma Digit8()
    ensures Takes(0xAFFC9660, 0x38, 0x651F2550)
  {
    assert Xor(0xAFFC9660, Widen(0x38)) == 0xAFFC9658;
    ShiftsThrough([0xAFFC9658, 0x57FE4B2C, 0x2BFF2596, 0x15FF92CB, 0xE7474A45,
                   0x9E1B2602, 0x4F0D9301, 0xCA3E4AA0, 0x651F2550]);
  }

  lemma Digit9()
    ensures Takes(0x651F2550, 0x39, 0x340BC6D9)
  {
    assert Xor(0x651F2550, Widen(0x39)) == 0x651F2569;
    ShiftsThrough([0x651F2569, 0xDF371194, 0x6F9B88CA, 0x37CDC465, 0xF65E6112,
                   0x7B2F3089, 0xD02F1B64, 0x68178DB2, 0x340BC6D9]);
  }

  /** The check value of this CRC: the text of the digits 1 to 9. */
  lemma CheckValue()
    ensures Crc([0x31, 0x32, 0x33, 0x34, 0x35, 0x36, 0x37, 0x38, 0x39]) == 0xCBF43926
  {
    Digit1();
    Digit2();
    Digit3();
    Digit4();
    Digit5();
    Digit6();
    Digit7();
    Digit8();
    Digit9();
    var a: seq<byte>, b: seq<byte>, c: seq<byte> := [0x31, 0x32, 0x33], [0x34, 0x35, 0x36], [0x37, 0x38, 0x39];
    AbsorbsThree(0xFFFFFFFF, 0x31, 0x32, 0x33, 0x7C231048, 0xB0ACBB32, 0x77B79C2D);
    AbsorbsThree(0x77B79C2D, 0x34, 0x35, 0x36, 0x641C1F5C, 0x340AC5E3, 0xF68D2C9E);
    AbsorbsThree(0xF68D2C9E, 0x37, 0x38, 0x39, 0xAFFC9660, 0x651F2550, 0x340BC6D9);
    RunConcat(ALL_ONES, a, b);
    RunConcat(ALL_ONES, a + b, c);
    assert a + b + c == [0x31, 0x32, 0x33, 0x34, 0x35, 0x36, 0x37, 0x38, 0x39];
  }

  // ----- Error detection -----

  function ByteBits(b: byte): (s: seq<bool>)
    ensures |s| == 8
  {
    LowBits(Odd, Half, Widen(b), BYTE_BITS)
  }

  /** The bits of a payload in the order the CRC absorbs them. */
  function Bits(data: seq<byte>): seq<bool> {
    FlatMap(ByteBits, data)
  }

  lemma ByteFits(b: byte)
    ensures Iterate(Half, Widen(b), BYTE_BITS) == 0
  {
    HalfByte(Widen(b));
  }

  lemma RunIsBitRun(c: bv32, data: seq<byte>)
    ensures Run(c, data) == Fold(ShiftIn, c, Bits(data))
  {
    forall t, b
      ensures Absorb(t, b) == Fold(ShiftIn, t, ByteBits(b))
    {
      ByteFits(b);
      BitRunIsShiftN(t, Widen(b), BYTE_BITS);
    }
    FoldFlatMap(Absorb, ShiftIn, ByteBits, c, data);
  }

  lemma ShiftInInjective()
    ensures StepInjective(ShiftIn)
  {
    forall a, b, x | ShiftIn(a, x) == ShiftIn(b, x)
      ensures a == b
    {
      ShiftInjective(Xor(a, Bit(x)), Xor(b, Bit(x)));
      XorCancel(a, b, Bit(x));
    }
  }

  lemma HalfByte(x: bv32)
    ensures Iterate(Half, x, BYTE_BITS) == x >> 8
  {
    assert Iterate(Half, x, 8) == x >> 8;
  }

  lemma HalfMonotone(x: bv32, y: bv32, k: nat)
    requires x <= y
    ensures Iterate(Half, x, k) <= Iterate(Half, y, k)
  {
    IterateMonotone(Half, (a: bv32, b: bv32) => a <= b, x, y, k);
  }

  lemma {:induction false} HalfZero(k: nat)
    ensures Iterate(Half, 0, k) == 0
  {
    if k > 0 {
      HalfZero(k - 1);
    }
  }

  lemma TopBitTravels()
    ensures Iterate(Half, 0x80000000, WORD_BITS - 1) == 1
  {
    IterateAdd(Half, 0x80000000, BYTE_BITS, 23);
    HalfByte(0x80000000);
    IterateAdd(Half, 0x800000, BYTE_BITS, 15);
    HalfByte(0x800000);
    IterateAdd(Half, 0x8000, BYTE_BITS, 7);
    HalfByte(0x8000);
    assert Iterate(Half, 0x80, 7) == 1;
  }

  /** A word that halves to zero in fewer than 32 steps is below 2^31. */
  lemma TopBitClear(x: bv32, k: nat)
    requires k < WORD_BITS
    requires Iterate(Half, x, k) == 0
    ensures x < 0x80000000
  {
    if 0x80000000 <= x {
      HalfMonotone(0x80000000, x, WORD_BITS - 1);
      TopBitTravels();
      IterateAdd(Half, x, k, WORD_BITS - 1 - k);
      HalfZero(WORD_BITS - 1 - k);
    }
  }

  lemma ConsOne(x: bv32)
    requires x < 0x80000000
    ensures (1 | (x << 1)) >> 1 == x && (1 | (x << 1)) & 1 == 1
  {
  }

  lemma ConsZero(x: bv32)
    requires x < 0x80000000
    ensures (0 | (x << 1)) >> 1 == x && (0 | (x << 1)) & 1 == 0
  {
  }

  lemma ConsUndone(b: bool, x: bv32)
    requires x < 0x80000000
    ensures Half(Cons(b, x)) == x && Odd(Cons(b, x)) == b
  {
    if b {
      ConsOne(x);
    } else {
      ConsZero(x);
    }
  }

  lemma PackedBits(bits: seq<bool>)
    requires |bits| <= WORD_BITS
    ensures Iterate(Half, Pack(Cons, 0, bits), |bits|) == 0
    ensures LowBits(Odd, Half, Pack(Cons, 0, bits), |bits|) == bits
  {
    forall b, x, k: nat | k < WORD_BITS && Iterate(Half, x, k) == 0
      ensures Half(Cons(b, x)) == x && Odd(Cons(b, x)) == b
    {
      TopBitClear(x, k);
      ConsUndone(b, x);
    }
    LowBitsOfPack(Cons, Odd, Half, 0, WORD_BITS, bits);
  }

  /** Two different blocks of at most 32 bits never lead to the same state. */
  lemma WindowInjective(c: bv32, u: seq<bool>, v: seq<bool>)
    requires |u| == |v| <= WORD_BITS
    requires Fold(ShiftIn, c, u) == Fold(ShiftIn, c, v)
    ensures u == v
  {
    var (p, q) := (Pack(Cons, 0, u), Pack(Cons, 0, v));
    PackedBits(u);
    PackedBits(v);
    BitRunIsShiftN(c, p, |u|);
    BitRunIsShiftN(c, q, |v|);
    ShiftNInjective(Xor(c, p), Xor(c, q), |u|);
    XorComm(c, p);
    XorComm(c, q);
    XorCancel(p, q, c);
  }

  lemma ByteBitsInjective(a: byte, b: byte)
    requires ByteBits(a) == ByteBits(b)
    ensures a == b
  {
    ByteFits(a);
    ByteFits(b);
    BitRunIsShiftN(0, Widen(a), BYTE_BITS);
    BitRunIsShiftN(0, Widen(b), BYTE_BITS);
    ShiftNInjective(Xor(0, Widen(a)), Xor(0, Widen(b)), BYTE_BITS);
    XorComm(0, Widen(a));
    XorComm(0, Widen(b));
    XorCancel(Widen(a), Widen(b), 0);
  }

  lemma {:induction false} BitsLength(data: seq<byte>)
    ensures |Bits(data)| == 8 * |data|
  {
    if data != [] {
      BitsLength(data[1..]);
    }
  }

  lemma {:induction false} BitsInjective(a: seq<byte>, b: seq<byte>)
    requires |a| == |b|
    requires Bits(a) == Bits(b)
    ensures a == b
  {
    if a != [] {
      assert Bits(a)[..8] == ByteBits(a[0]) && Bits(b)[..8] == ByteBits(b[0]);
      assert Bits(a)[8..] == Bits(a[1..]) && Bits(b)[8..] == Bits(b[1..]);
      ByteBitsInjective(a[0], b[0]);
      BitsInjective(a[1..], b[1..]);
    }
  }

  /** Every burst of at most 32 consecutive bits changes the CRC. */
  lemma BurstChangesCrc(a: seq<byte>, b: seq<byte>, pre: seq<bool>, u: seq<bool>, v: seq<bool>, post: seq<bool>)
    requires a != b
    requires |u| == |v| <= WORD_BITS
    requires Bits(a) == pre + u + post
    requires Bits(b) == pre + v + post
    ensures Crc(a) != Crc(b)
  {
    if Crc(a) == Crc(b) {
      XorCancel(Run(ALL_ONES, a), Run(ALL_ONES, b), ALL_ONES);
      RunIsBitRun(ALL_ONES, a);
      RunIsBitRun(ALL_ONES, b);
      ShiftInInjective();
      FoldMiddle(ShiftIn, ALL_ONES, pre, u, v, post);
      WindowInjective(Fold(ShiftIn, ALL_ONES, pre), u, v);
      BitsLength(a);
      BitsLength(b);
      BitsInjective(a, b);
    }
  }

  /** Damage confined to four consecutive bytes always changes the CRC. */
  lemma ByteBurstChangesCrc(pre: seq<byte>, u: seq<byte>, v: seq<byte>, post: seq<byte>)
    requires |u| == |v| <= 4
    requires u != v
    ensures Crc(pre + u + post) != Crc(pre + v + post)
  {
    var (a, b) := (pre + u + post, pre + v + post);
    assert a != b by {
      assert a[|pre|..|pre| + |u|] == u && b[|pre|..|pre| + |u|] == v;
    }
    FlatMapConcat(ByteBits, pre + u, post);
    FlatMapConcat(ByteBits, pre + v, post);
    FlatMapConcat(ByteBits, pre, u);
    FlatMapConcat(ByteBits, pre, v);
    BitsLength(u);
    BitsLength(v);
    BurstChangesCrc(a, b, Bits(pre), Bits(u), Bits(v), Bits(post));
  }
}
