/** The frame check of the Pelican serial link: `crc_update` and `crc16` of uart.c.

    The firmware folds one byte at a time with shifts of that byte. The module shows that
    the result is the bit-serial division by the reflected polynomial 0x8408 (the generator
    of the 16-bit FCS in Appendix C.2 of RFC 1662) and derives from the algebra of a single
    byte which transmission errors are caught, for messages of every length. */
module Crc16 {

  /** The 16-bit register, and its addition: bitwise exclusive or. The wrapper keeps the
      bits out of sight of the proofs that only need the algebra. */
  datatype Reg = Reg(v: bv16)

  type Bytes = seq<bv8>

  const ZERO: Reg := Reg(0)
  const START: Reg := Reg(0x00ff)
  const POLY: bv16 := 0x8408

  function Add(a: Reg, b: Reg): Reg { Reg(a.v ^ b.v) }

  function Wide(b: bv8): Reg { Reg(b as bv16) }

  /** `data ^= crc & 0xff` */
  function Absorb(crc: bv16, data: bv8): bv16 { (data as bv16) ^ (crc & 0xff) }

  /** `data ^= data << 4`, cut to a byte as the C assignment does. */
  function Smear(d: bv16): bv16 { d ^ ((d << 4) & 0xff) }

  /** The returned expression. */
  function Pack(crc: bv16, d: bv16): bv16 {
    ((d << 8) | ((crc >> 8) & 0xff)) ^ (d >> 4) ^ (d << 3)
  }

  /** One byte of the shift form. */
  function CrcUpdate(crc: Reg, data: bv8): Reg {
    Reg(Pack(crc.v, Smear(Absorb(crc.v, data))))
  }

  function Fold(crc: Reg, data: Bytes): Reg
    decreases data
  {
    if data == [] then crc else Fold(CrcUpdate(crc, data[0]), data[1..])
  }

  // ------------------------------------------------------------ bit-serial reference

  /** One step of the reflected shift register: divide by x modulo the polynomial. */
  function BitStep(crc: Reg): Reg {
    Reg(ShiftOut(crc.v))
  }

  function ShiftOut(c: bv16): bv16 {
    if c & 1 == 1 then (c >> 1) ^ POLY else c >> 1
  }

  function BitSteps(crc: Reg, n: nat): Reg
    decreases n
  {
    if n == 0 then crc else BitSteps(BitStep(crc), n - 1)
  }

  /** The textbook register: XOR a byte into the low end, then clock it eight times. */
  function BitSerial(crc: Reg, data: Bytes): Reg
    decreases data
  {
    if data == [] then crc else BitSerial(BitSteps(Add(crc, Wide(data[0])), 8), data[1..])
  }

  /** The C function: a loop advancing a byte pointer. */
  method Crc16(data: array<bv8>, cnt: nat) returns (crc: Reg)
    requires cnt <= data.Length
    ensures crc == BitSerial(START, data[..cnt]) == Fold(START, data[..cnt])
  {
    hide CrcUpdate;
    crc := START;
    var i := 0;
    while i < cnt
      invariant 0 <= i <= cnt
      invariant Fold(crc, data[i..cnt]) == Fold(START, data[..cnt])
    {
      assert data[i..cnt][1..] == data[i + 1..cnt];
      crc := CrcUpdate(crc, data[i]);
      i := i + 1;
    }
    ShiftFormIsBitSerial(START, data[..cnt]);
  }

  // ------------------------------------------------------------ bit-level facts

  lemma XorBits(a: bv16, b: bv16)
    ensures (a ^ b) >> 1 == (a >> 1) ^ (b >> 1)
    ensures (a ^ b) & 1 == (a & 1) ^ (b & 1)
    ensures a & 1 == 0 || a & 1 == 1
    ensures b & 1 == 0 || b & 1 == 1
  {}

  lemma XorMoves(a: bv16, b: bv16, p: bv16)
    ensures (a ^ b) ^ p == (a ^ p) ^ b == a ^ (b ^ p)
    ensures (a ^ p) ^ (b ^ p) == a ^ b
  {}

  lemma ShiftOutLinear(a: bv16, b: bv16)
    ensures ShiftOut(a ^ b) == ShiftOut(a) ^ ShiftOut(b)
  {
    XorBits(a, b);
    XorMoves(a >> 1, b >> 1, POLY);
  }

  lemma ShiftOutAdds(a: bv16, b: bv16)
    ensures Reg(ShiftOut(a ^ b)) == Add(Reg(ShiftOut(a)), Reg(ShiftOut(b)))
  {
    hide ShiftOut;
    ShiftOutLinear(a, b);
  }

  lemma BitStepLinear(a: Reg, b: Reg)
    ensures BitStep(Add(a, b)) == Add(BitStep(a), BitStep(b))
  {
    hide ShiftOut;
    ShiftOutAdds(a.v, b.v);
  }

  lemma {:induction false} BitStepsLinear(a: Reg, b: Reg, n: nat)
    ensures BitSteps(Add(a, b), n) == Add(BitSteps(a, n), BitSteps(b, n))
    decreases n
  {
    hide BitStep, Add;
    if n > 0 {
      BitStepLinear(a, b);
      BitStepsLinear(BitStep(a), BitStep(b), n - 1);
    }
  }

  lemma EightSteps(c: Reg)
    ensures BitSteps(c, 8) == BitStep(BitStep(BitStep(BitStep(BitStep(BitStep(BitStep(BitStep(c))))))))
  {
    hide BitStep;
  }

  /** What the low byte of the register contributes after eight steps. */
  function Spread(d: bv16): bv16 { Tail(Smear(d)) }

  function Tail(e: bv16): bv16 { (e << 8) ^ (e >> 4) ^ (e << 3) }

  function Low(c: Reg): Reg { Reg(c.v & 0xff) }

  function High(c: Reg): Reg { Reg(c.v & 0xff00) }

  lemma LowByteSteps(c: Reg)
    ensures BitStep(BitStep(BitStep(BitStep(BitStep(BitStep(BitStep(BitStep(Low(c))))))))) == Reg(Spread(c.v & 0xff))
  {}

  lemma HighByteSteps(c: Reg)
    ensures BitStep(BitStep(BitStep(BitStep(BitStep(BitStep(BitStep(BitStep(High(c))))))))) == Reg(c.v >> 8)
  {}

  lemma Halves(c: Reg)
    ensures c == Add(High(c), Low(c))
  {}

  lemma AbsorbIsLow(v: bv16, b: bv8)
    ensures Absorb(v, b) == (v ^ (b as bv16)) & 0xff
  {}

  lemma PackSplits(v: bv16, b: bv8, e: bv16)
    ensures Reg(Pack(v, e)) == Add(Reg((v ^ (b as bv16)) >> 8), Reg(Tail(e)))
  {
    PackBits(v, b, e);
  }

  lemma PackBits(v: bv16, b: bv8, e: bv16)
    ensures Pack(v, e) == ((v ^ (b as bv16)) >> 8) ^ Tail(e)
  {}

  /** Only the XOR of register and byte matters to the shift form. */
  lemma UpdateSplits(crc: Reg, b: bv8)
    ensures var c := Add(crc, Wide(b)); CrcUpdate(crc, b) == Add(Reg(c.v >> 8), Reg(Spread(c.v & 0xff)))
  {
    hide Absorb, Smear, Pack, Tail;
    AbsorbIsLow(crc.v, b);
    PackSplits(crc.v, b, Smear(Absorb(crc.v, b)));
  }

  /** The shift form of one byte equals eight bit steps. */
  lemma ByteIsEightSteps(crc: Reg, b: bv8)
    ensures CrcUpdate(crc, b) == BitSteps(Add(crc, Wide(b)), 8)
  {
    hide *;
    var c := Add(crc, Wide(b));
    Halves(c);
    BitStepsLinear(High(c), Low(c), 8);
    EightSteps(High(c));
    EightSteps(Low(c));
    HighByteSteps(c);
    LowByteSteps(c);
    UpdateSplits(crc, b);
  }

  /** The shift form computes the bit-serial checksum, for every byte string. */
  lemma {:induction false} ShiftFormIsBitSerial(crc: Reg, data: Bytes)
    ensures Fold(crc, data) == BitSerial(crc, data)
    decreases data
  {
    hide CrcUpdate, Add, BitSteps, Wide;
    if data != [] {
      ByteIsEightSteps(crc, data[0]);
      ShiftFormIsBitSerial(CrcUpdate(crc, data[0]), data[1..]);
    }
  }

  // ------------------------------------------------------------ algebra of one byte

  lemma AddCommutes(a: Reg, b: Reg, p: Reg, q: Reg)
    ensures Add(Add(a, b), Add(p, q)) == Add(Add(a, p), Add(b, q))
  {}

  lemma AddZero(a: Reg, b: Reg)
    ensures Add(a, a) == ZERO
    ensures Add(a, b) == ZERO <==> a == b
  {}

  lemma AddCancels(a: Reg, b: Reg, w: Reg)
    requires Add(a, w) == Add(b, w)
    ensures a == b
  {}

  lemma WideAdds(x: bv8, y: bv8)
    ensures Wide(x ^ y) == Add(Wide(x), Wide(y))
  {}

  lemma UpdateLinear(a: Reg, b: Reg, x: bv8, y: bv8)
    ensures CrcUpdate(Add(a, b), x ^ y) == Add(CrcUpdate(a, x), CrcUpdate(b, y))
  {
    hide *;
    ByteIsEightSteps(a, x);
    ByteIsEightSteps(b, y);
    ByteIsEightSteps(Add(a, b), x ^ y);
    WideAdds(x, y);
    AddCommutes(a, b, Wide(x), Wide(y));
    BitStepsLinear(Add(a, Wide(x)), Add(b, Wide(y)), 8);
  }

  lemma SplitInjective(a: Reg, b: Reg)
    requires Add(Reg(a.v >> 8), Reg(Spread(a.v & 0xff))) == Add(Reg(b.v >> 8), Reg(Spread(b.v & 0xff)))
    ensures a == b
  {}

  /** No two registers merge on the same byte: a difference never fades away. */
  lemma UpdateInjective(a: Reg, b: Reg, x: bv8)
    requires CrcUpdate(a, x) == CrcUpdate(b, x)
    ensures a == b
  {
    hide *;
    UpdateSplits(a, x);
    UpdateSplits(b, x);
    SplitInjective(Add(a, Wide(x)), Add(b, Wide(x)));
    AddCancels(a, b, Wide(x));
  }

  // ------------------------------------------------------------ messages

  /** The bits in which two bytes differ. */
  function Diff(x: bv8, y: bv8): bv8 { x ^ y }

  function Xor(m: Bytes, n: Bytes): (e: Bytes)
    requires |m| == |n|
    ensures |e| == |m| && forall i :: 0 <= i < |m| ==> e[i] == Diff(m[i], n[i])
  {
    seq(|m|, i requires 0 <= i < |m| => Diff(m[i], n[i]))
  }

  lemma {:induction false} FoldAppend(crc: Reg, m: Bytes, n: Bytes)
    ensures Fold(crc, m + n) == Fold(Fold(crc, m), n)
    decreases m
  {
    hide CrcUpdate;
    if m == [] {
      assert m + n == n;
    } else {
      assert (m + n)[1..] == m[1..] + n;
      FoldAppend(CrcUpdate(crc, m[0]), m[1..], n);
    }
  }

  /** The checksum of a difference is the difference of the checksums. */
  lemma {:induction false} FoldLinear(a: Reg, b: Reg, m: Bytes, n: Bytes)
    requires |m| == |n|
    ensures Fold(Add(a, b), Xor(m, n)) == Add(Fold(a, m), Fold(b, n))
    decreases m
  {
    hide CrcUpdate, Add;
    if m != [] {
      UpdateLinear(a, b, m[0], n[0]);
      assert Xor(m, n)[1..] == Xor(m[1..], n[1..]);
      FoldLinear(CrcUpdate(a, m[0]), CrcUpdate(b, n[0]), m[1..], n[1..]);
    }
  }

  lemma {:induction false} FoldInjective(a: Reg, b: Reg, m: Bytes)
    requires Fold(a, m) == Fold(b, m)
    ensures a == b
    decreases m
  {
    hide CrcUpdate;
    if m != [] {
      FoldInjective(CrcUpdate(a, m[0]), CrcUpdate(b, m[0]), m[1..]);
      UpdateInjective(a, b, m[0]);
    }
  }

  lemma UpdateOfZero()
    ensures CrcUpdate(ZERO, 0) == ZERO
  {}

  lemma {:induction false} FoldOfZeros(m: Bytes)
    requires forall i :: 0 <= i < |m| ==> m[i] == 0
    ensures Fold(ZERO, m) == ZERO
    decreases m
  {
    hide CrcUpdate;
    UpdateOfZero();
    if m != [] {
      FoldOfZeros(m[1..]);
    }
  }

  /** Two equal-length messages collide exactly when their difference folds to zero. */
  lemma {:induction false} CollideIffDifferenceVanishes(m: Bytes, n: Bytes)
    requires |m| == |n|
    ensures Fold(START, m) == Fold(START, n) <==> Fold(ZERO, Xor(m, n)) == ZERO
  {
    hide CrcUpdate, Add;
    FoldLinear(START, START, m, n);
    AddZero(START, START);
    AddZero(Fold(START, m), Fold(START, n));
  }

  lemma ZerosAround(before: Bytes, middle: Bytes, after: Bytes)
    requires forall i :: 0 <= i < |before| ==> before[i] == 0
    requires forall i :: 0 <= i < |after| ==> after[i] == 0
    ensures Fold(ZERO, before + middle + after) == ZERO <==> Fold(ZERO, middle) == ZERO
  {
    hide *;
    FoldOfZeros(before);
    FoldAppend(ZERO, before, middle);
    FoldAppend(ZERO, before + middle, after);
    FoldOfZeros(after);
    if Fold(ZERO, before + middle + after) == ZERO {
      FoldInjective(Fold(ZERO, middle), ZERO, after);
    }
  }

  /** A difference that is zero outside bytes k, k+1, k+2 vanishes exactly when those three
      bytes alone do, wherever they stand and whatever the length. */
  lemma {:induction false} Localise(e: Bytes, k: nat)
    requires k + 3 <= |e|
    requires forall i :: 0 <= i < |e| && !(k <= i < k + 3) ==> e[i] == 0
    ensures Fold(ZERO, e) == ZERO <==> Fold(ZERO, [e[k], e[k + 1], e[k + 2]]) == ZERO
  {
    hide *;
    var middle := [e[k], e[k + 1], e[k + 2]];
    assert e == e[..k] + middle + e[k + 3..];
    ZerosAround(e[..k], middle, e[k + 3..]);
  }

  // ------------------------------------------------------------ error detection

  function Byte0(d: bv32): bv8 { (d & 0xff) as bv8 }
  function Byte1(d: bv32): bv8 { ((d >> 8) & 0xff) as bv8 }
  function Byte2(d: bv32): bv8 { ((d >> 16) & 0xff) as bv8 }

  /** A burst: at most 16 consecutive bits in error, starting at bit `s` of a byte. Bits
      travel low end first, so the burst is a shifted 16-bit pattern. */
  function Burst(w: bv16, s: nat): bv32
    requires s <= 8
  {
    (w as bv32) << s
  }

  /** Byte `i` of the burst, counted from the byte it starts in. */
  function BurstByte(w: bv16, s: nat, i: int): bv8
    requires s <= 8
  {
    if i == 0 then Byte0(Burst(w, s))
    else if i == 1 then Byte1(Burst(w, s))
    else if i == 2 then Byte2(Burst(w, s))
    else 0
  }

  function FoldThree(d: bv32): Reg {
    CrcUpdate(CrcUpdate(CrcUpdate(ZERO, Byte0(d)), Byte1(d)), Byte2(d))
  }

  lemma BurstShows(w: bv16, s: nat)
    requires s <= 8 && w != 0
    ensures FoldThree(Burst(w, s)) != ZERO
  {}

  lemma FoldOfThree(x: bv8, y: bv8, z: bv8)
    ensures Fold(ZERO, [x, y, z]) == CrcUpdate(CrcUpdate(CrcUpdate(ZERO, x), y), z)
  {
    hide CrcUpdate;
    assert [x, y, z][1..] == [y, z];
    assert [y, z][1..] == [z];
    assert Fold(CrcUpdate(CrcUpdate(ZERO, x), y), [z]) == CrcUpdate(CrcUpdate(CrcUpdate(ZERO, x), y), z);
  }

  /** Every error burst of at most 16 bits is detected, in a message of any length. */
  lemma {:induction false} BurstDetected(m: Bytes, n: Bytes, k: nat, w: bv16, s: nat)
    requires |m| == |n| && k < |m| && s <= 8 && w != 0
    requires forall i :: 0 <= i < |m| ==> Diff(m[i], n[i]) == BurstByte(w, s, i - k)
    requires k + 1 >= |m| ==> BurstByte(w, s, 1) == 0
    requires k + 2 >= |m| ==> BurstByte(w, s, 2) == 0
    ensures Fold(START, m) != Fold(START, n)
  {
    hide CrcUpdate, Byte0, Byte1, Byte2, Burst, Diff;
    var pad: Bytes := [0, 0];
    var e := Xor(m, n) + pad;
    Localise(e, k);
    FoldOfThree(e[k], e[k + 1], e[k + 2]);
    BurstShows(w, s);
    FoldAppend(ZERO, Xor(m, n), pad);
    FoldOfZeros(pad);
    CollideIffDifferenceVanishes(m, n);
  }

  function Pair(x: bv8, y: bv8): bv16 { (x as bv16) | ((y as bv16) << 8) }

  lemma PairIsBurst(x: bv8, y: bv8)
    ensures Byte0(Burst(Pair(x, y), 0)) == x
    ensures Byte1(Burst(Pair(x, y), 0)) == y
    ensures Byte2(Burst(Pair(x, y), 0)) == 0
    ensures Pair(x, y) == 0 ==> x == 0 && y == 0
  {}

  lemma ByteXorZero(x: bv8, y: bv8)
    ensures Diff(x, y) == 0 <==> x == y
  {}

  lemma PairBytes(x: bv8, y: bv8, i: int)
    ensures BurstByte(Pair(x, y), 0, i) == if i == 0 then x else if i == 1 then y else 0
  {
    hide Byte0, Byte1, Byte2, Burst, Pair;
    PairIsBurst(x, y);
  }

  /** The difference at distance i from the first of two corrupted bytes. */
  lemma PairDifference(x: bv8, y: bv8, x0: bv8, y0: bv8, x1: bv8, y1: bv8, i: int)
    requires i == 0 ==> x == x0 && y == y0
    requires i == 1 ==> x == x1 && y == y1
    requires i != 0 && i != 1 ==> x == y
    ensures Diff(x, y) == BurstByte(Pair(Diff(x0, y0), Diff(x1, y1)), 0, i)
  {
    hide BurstByte, Pair, Diff;
    ByteXorZero(x, y);
    PairBytes(Diff(x0, y0), Diff(x1, y1), i);
  }

  lemma PairNonZero(x0: bv8, y0: bv8, x1: bv8, y1: bv8)
    requires x0 != y0 || x1 != y1
    ensures Pair(Diff(x0, y0), Diff(x1, y1)) != 0
  {
    ByteXorZero(x0, y0);
    ByteXorZero(x1, y1);
    PairIsBurst(Diff(x0, y0), Diff(x1, y1));
  }

  /** Any corruption confined to two adjacent bytes is detected. */
  lemma {:induction false} AdjacentBytesDetected(m: Bytes, n: Bytes, k: nat)
    requires |m| == |n| && k + 2 <= |m|
    requires m[k] != n[k] || m[k + 1] != n[k + 1]
    requires forall i :: 0 <= i < |m| && i != k && i != k + 1 ==> m[i] == n[i]
    ensures Fold(START, m) != Fold(START, n)
  {
    hide Pair, BurstByte, Diff;
    var w := Pair(Diff(m[k], n[k]), Diff(m[k + 1], n[k + 1]));
    forall i | 0 <= i < |m|
      ensures Diff(m[i], n[i]) == BurstByte(w, 0, i - k)
    {
      PairDifference(m[i], n[i], m[k], n[k], m[k + 1], n[k + 1], i - k);
    }
    PairNonZero(m[k], n[k], m[k + 1], n[k + 1]);
    PairBytes(Diff(m[k], n[k]), Diff(m[k + 1], n[k + 1]), 2);
    BurstDetected(m, n, k, w, 0);
  }

  lemma GeneratorVanishes()
    ensures CrcUpdate(CrcUpdate(CrcUpdate(ZERO, 0x11), 0x08), 0x01) == ZERO
  {}

  /** Sixteen bits is the exact limit: the 17-bit burst 0x10811, the generator itself, goes
      unnoticed wherever it strikes. */
  lemma {:induction false} GeneratorUndetected(m: Bytes, n: Bytes, k: nat)
    requires |m| == |n| && k + 3 <= |m|
    requires Diff(m[k], n[k]) == 0x11 && Diff(m[k + 1], n[k + 1]) == 0x08 && Diff(m[k + 2], n[k + 2]) == 0x01
    requires forall i :: 0 <= i < |m| && !(k <= i < k + 3) ==> Diff(m[i], n[i]) == 0
    ensures Fold(START, m) == Fold(START, n)
  {
    hide CrcUpdate;
    Localise(Xor(m, n), k);
    FoldOfThree(0x11, 0x08, 0x01);
    GeneratorVanishes();
    CollideIffDifferenceVanishes(m, n);
  }

  function LowByte(crc: Reg): bv8 { (crc.v & 0xff) as bv8 }

  function HighByte(crc: Reg): bv8 { (crc.v >> 8) as bv8 }

  lemma OwnChecksumVanishes(crc: Reg)
    ensures CrcUpdate(CrcUpdate(crc, LowByte(crc)), HighByte(crc)) == ZERO
  {}

  lemma TwoBytesInjective(crc: Reg, x: bv8, y: bv8, u: bv8, v: bv8)
    requires CrcUpdate(CrcUpdate(crc, x), y) == CrcUpdate(CrcUpdate(crc, u), v)
    ensures x == u && y == v
  {
    hide *;
    AddZero(crc, crc);
    AddZero(CrcUpdate(CrcUpdate(crc, x), y), CrcUpdate(CrcUpdate(crc, u), v));
    UpdateLinear(crc, crc, x, u);
    UpdateLinear(CrcUpdate(crc, x), CrcUpdate(crc, u), y, v);
    TwoBytesShow(x ^ u, y ^ v);
    ByteXorZero(x, u);
    ByteXorZero(y, v);
  }

  lemma TwoBytesShow(x: bv8, y: bv8)
    requires CrcUpdate(CrcUpdate(ZERO, x), y) == ZERO
    ensures x == 0 && y == 0
  {}

  lemma ResidueOfTwo(crc: Reg, x: bv8, y: bv8)
    ensures CrcUpdate(CrcUpdate(crc, x), y) == ZERO
      <==> x == LowByte(crc) && y == HighByte(crc)
  {
    hide *;
    OwnChecksumVanishes(crc);
    if CrcUpdate(CrcUpdate(crc, x), y) == ZERO {
      TwoBytesInjective(crc, x, y, LowByte(crc), HighByte(crc));
    }
  }

  lemma FoldOfTwo(crc: Reg, x: bv8, y: bv8)
    ensures Fold(crc, [x, y]) == CrcUpdate(CrcUpdate(crc, x), y)
  {
    hide CrcUpdate;
    assert [x, y][1..] == [y];
    assert Fold(CrcUpdate(crc, x), [y]) == CrcUpdate(CrcUpdate(crc, x), y);
  }

  /** UART_SendPacket appends the checksum low byte first: folding on through two appended
      bytes ends in zero exactly when they are the checksum. */
  lemma {:induction false} ResidueIffChecksum(m: Bytes, x: bv8, y: bv8)
    ensures var crc := Fold(START, m);
      Fold(START, m + [x, y]) == ZERO <==> x == LowByte(crc) && y == HighByte(crc)
  {
    hide *;
    FoldAppend(START, m, [x, y]);
    FoldOfTwo(Fold(START, m), x, y);
    ResidueOfTwo(Fold(START, m), x, y);
  }
}
