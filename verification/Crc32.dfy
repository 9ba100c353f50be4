// Bit-level facts, in modules of their own so that no proof sees more of them than it needs.

module Xors {
  // Named so that proofs can hide the bit-level definitions.
  function Xor(a: bv32, b: bv32): bv32 {
    a ^ b
  }

  lemma XorCancel(x: bv32, a: bv32)
    ensures Xor(Xor(x, a), a) == x
  {}

  lemma XorCommutes(a: bv32, b: bv32)
    ensures Xor(a, b) == Xor(b, a)
  {}

  lemma XorAssociative(x: bv32, a: bv32, b: bv32)
    ensures Xor(Xor(x, a), b) == Xor(x, Xor(a, b))
  {}

  lemma XorSwap(x: bv32, a: bv32, b: bv32)
    ensures Xor(Xor(x, a), b) == Xor(Xor(x, b), a)
  {
    hide Xor;
    XorAssociative(x, a, b);
    XorCommutes(a, b);
    XorAssociative(x, b, a);
  }

  lemma XorOut(s: bv32, t: bv32, a: bv32, b: bv32)
    ensures Xor(s, t) == Xor(Xor(Xor(Xor(s, a), Xor(t, b)), a), b)
  {
    hide Xor;
    XorAssociative(Xor(s, a), t, b);
    XorSwap(Xor(Xor(s, a), t), b, a);
    XorSwap(s, a, t);
    XorCancel(Xor(s, t), a);
    XorCancel(Xor(s, t), b);
  }

  lemma XorSelf(s: bv32)
    ensures Xor(s, s) == 0
  {}

  lemma XorZero(s: bv32)
    ensures Xor(0, s) == s
  {}

  lemma XorSame(s: bv32, t: bv32)
    ensures Xor(s, t) == 0 <==> s == t
  {
    hide Xor;
    XorSelf(s);
    if Xor(s, t) == 0 {
      XorCancel(s, t);
      XorZero(t);
    }
  }
}

module Octets {
  type octet = x: int | 0 <= x < 0x100

  function Word(b: octet): bv32 {
    (b as bv8) as bv32
  }

  lemma Successor(x: bv8)
    requires x < 255
    ensures (x + 1) as int == x as int + 1
  {}

  lemma {:induction false} Represent(b: octet) returns (x: bv8)
    ensures x as int == b
  {
    if b == 0 {
      x := 0;
    } else {
      var y := Represent(b - 1);
      Successor(y);
      x := y + 1;
    }
  }

  lemma ConvertsBack(b: octet, x: bv8)
    requires x as int == b
    ensures b as bv8 == x
  {}

  lemma ByteRoundTrip(b: octet)
    ensures (b as bv8) as int == b
  {
    var x := Represent(b);
    ConvertsBack(b, x);
  }

  lemma WordInjective(a: octet, b: octet)
    requires Word(a) == Word(b)
    ensures a == b
  {
    ByteRoundTrip(a);
    ByteRoundTrip(b);
    assert a as bv8 == b as bv8;
  }
}

module Registers {
  import opened Xors
  import opened Octets

  function Left8(a: bv32): bv32 {
    a << 8
  }

  predicate Below(e: bv32, bound: bv32) {
    e < bound
  }

  lemma WordSmall(b: octet)
    ensures Below(Word(b), 0x100)
  {}

  // Little-endian packing of a 32-bit register.

  function Right8(v: bv32): bv32 {
    v >> 8
  }

  function Low(v: bv32): bv32 {
    v & 0xFF
  }

  function Pack(w0: bv32, w1: bv32, w2: bv32, w3: bv32): bv32 {
    w0 | (w1 << 8) | (w2 << 16) | (w3 << 24)
  }

  function LowOctet(v: bv32): octet {
    (Low(v) as bv8) as int
  }

  function WriteLe32(v: bv32): (b: seq<octet>)
    ensures |b| == 4
  {
    [LowOctet(v), LowOctet(Right8(v)), LowOctet(Right8(Right8(v))), LowOctet(Right8(Right8(Right8(v))))]
  }

  function ReadLe32(b: seq<octet>): bv32
    requires |b| == 4
  {
    Pack(Word(b[0]), Word(b[1]), Word(b[2]), Word(b[3]))
  }

  lemma WordOfOctet(x: bv8)
    ensures Word(x as int) == x as bv32
  {
    ConvertsBack(x as int, x);
  }

  lemma LowNarrow(v: bv32)
    ensures (Low(v) as bv8) as bv32 == Low(v)
  {}

  lemma LowOctetWord(v: bv32)
    ensures Word(LowOctet(v)) == Low(v)
  {
    hide Word;
    WordOfOctet(Low(v) as bv8);
    LowNarrow(v);
  }

  lemma PackUnpacked(v: bv32)
    ensures Pack(Low(v), Low(Right8(v)), Low(Right8(Right8(v))), Low(Right8(Right8(Right8(v))))) == v
  {}

  lemma UnpackPacked(w0: bv32, w1: bv32, w2: bv32, w3: bv32)
    requires Below(w0, 0x100) && Below(w1, 0x100) && Below(w2, 0x100) && Below(w3, 0x100)
    ensures var v := Pack(w0, w1, w2, w3);
            Low(v) == w0 && Low(Right8(v)) == w1 && Low(Right8(Right8(v))) == w2
            && Low(Right8(Right8(Right8(v)))) == w3
  {}

  lemma Le32RoundTrip(v: bv32)
    ensures ReadLe32(WriteLe32(v)) == v
  {
    hide Word, LowOctet, Right8, Low, Pack;
    LowOctetWord(v);
    LowOctetWord(Right8(v));
    LowOctetWord(Right8(Right8(v)));
    LowOctetWord(Right8(Right8(Right8(v))));
    PackUnpacked(v);
  }

  lemma Le32Canonical(b: seq<octet>)
    requires |b| == 4
    ensures WriteLe32(ReadLe32(b)) == b
  {
    hide Word, LowOctet, Right8, Low, Pack, Below;
    var v := ReadLe32(b);
    WordSmall(b[0]); WordSmall(b[1]); WordSmall(b[2]); WordSmall(b[3]);
    UnpackPacked(Word(b[0]), Word(b[1]), Word(b[2]), Word(b[3]));
    LowOctetIs(v, b[0]);
    LowOctetIs(Right8(v), b[1]);
    LowOctetIs(Right8(Right8(v)), b[2]);
    LowOctetIs(Right8(Right8(Right8(v))), b[3]);
  }

  lemma LowOctetIs(v: bv32, b: octet)
    requires Low(v) == Word(b)
    ensures LowOctet(v) == b
  {
    hide Word, LowOctet, Low;
    LowOctetWord(v);
    WordInjective(LowOctet(v), b);
  }

  lemma Widen(d: bv32, w: bv32, v: bv32)
    requires Below(w, 0x100) && Below(v, 0x100)
    ensures Below(d, 0x1) ==> Below(Xor(Xor(Left8(d), w), v), 0x100)
    ensures Below(d, 0x100) ==> Below(Xor(Xor(Left8(d), w), v), 0x1_0000)
    ensures Below(d, 0x1_0000) ==> Below(Xor(Xor(Left8(d), w), v), 0x100_0000)
  {}

  lemma FourWords(w: seq<bv32>, v: seq<bv32>, d: seq<bv32>)
    requires |w| == |v| == |d| == 4
    requires forall i :: 0 <= i < 4 ==> Below(w[i], 0x100) && Below(v[i], 0x100)
    requires d[3] == Xor(Xor(Left8(0), w[3]), v[3])
    requires d[2] == Xor(Xor(Left8(d[3]), w[2]), v[2])
    requires d[1] == Xor(Xor(Left8(d[2]), w[1]), v[1])
    requires d[0] == Xor(Xor(Left8(d[1]), w[0]), v[0])
    requires d[0] == 0
    ensures w == v
  {
    var w0, w1, w2, w3, v0, v1, v2, v3 := w[0], w[1], w[2], w[3], v[0], v[1], v[2], v[3];
    assert w0 == v0 && w1 == v1 && w2 == v2 && w3 == v3;
  }

  lemma SameByte(w: bv32)
    ensures Xor(Xor(Left8(0), w), w) == 0
  {}

  lemma BelowBounds()
    ensures Below(0, 0x1) && Below(0, 0x0100_0000)
  {}

  lemma BelowWider(d: bv32)
    ensures Below(d, 0x100) ==> Below(d, 0x1_0000)
    ensures Below(d, 0x1_0000) ==> Below(d, 0x0100_0000)
  {}
}

/** The reflected CRC-32 of IEEE 802.3, and why it catches every short burst. */
module Crc32 {
  import opened Words
  import opened Xors
  import opened Octets
  import opened Registers

  const POLYNOMIAL: bv32 := 0xEDB8_8320
  const INITIAL: bv32 := 0xFFFF_FFFF

  function Shift(crc: bv32): bv32 {
    if crc & 1 != 0 then (crc >> 1) ^ POLYNOMIAL else crc >> 1
  }

  function Shifts(crc: bv32, n: nat): bv32 {
    if n == 0 then crc else Shift(Shifts(crc, n - 1))
  }

  function Update(crc: bv32, value: byte): bv32 {
    EightShifts(Xor(crc, Word(value)))
  }

  function EightShifts(crc: bv32): bv32 {
    Shifts(crc, 8)
  }

  function Fold(crc: bv32, data: Bytes): bv32 {
    if |data| == 0 then crc else Update(Fold(crc, data[..|data| - 1]), data[|data| - 1])
  }

  function Checksum(data: Bytes): bv32 {
    !Fold(INITIAL, data)
  }

  // ---- the loops of the source ----

  method UpdateByte(crc0: bv32, value: byte) returns (crc: bv32)
    ensures crc == Update(crc0, value)
  {
    crc := crc0 ^ Word(value);
    for bit := 0 to 8
      invariant crc == Shifts(crc0 ^ Word(value), bit)
    {
      if crc & 1 != 0 {
        crc := (crc >> 1) ^ POLYNOMIAL;
      } else {
        crc := crc >> 1;
      }
    }
  }

  method UpdateBytes(crc0: bv32, data: Bytes) returns (crc: bv32)
    ensures crc == Fold(crc0, data)
  {
    crc := crc0;
    for i := 0 to |data|
      invariant crc == Fold(crc0, data[..i])
    {
      crc := UpdateByte(crc, data[i]);
      assert data[..i + 1][..i] == data[..i];
    }
    assert data[..|data|] == data;
  }

  method ComputeCrc32(data: Bytes) returns (crc: bv32)
    ensures crc == Checksum(data)
  {
    crc := UpdateBytes(INITIAL, data);
    crc := !crc;
  }

  // ---- folding in pieces ----

  lemma {:induction false} FoldConcat(crc: bv32, a: Bytes, b: Bytes)
    ensures Fold(crc, a + b) == Fold(Fold(crc, a), b)
  {
    hide Update;
    if |b| == 0 {
      assert a + b == a;
    } else {
      var n := |a + b| - 1;
      assert (a + b)[..n] == a + b[..|b| - 1];
      FoldConcat(crc, a, b[..|b| - 1]);
    }
  }

  lemma FoldAppend(crc: bv32, a: Bytes, b: byte)
    ensures Fold(crc, a + [b]) == Update(Fold(crc, a), b)
  {
    hide Update;
    assert (a + [b])[..|a|] == a;
  }

  // ---- which CRC this is ----

  lemma ShiftPair(x: bv32, u: bv32)
    requires Even(Xor(x, u))
    ensures Xor(Shift(x), Shift(u)) == Half(Xor(x, u))
  {}

  predicate Even(x: bv32) {
    x & 1 == 0
  }

  function Half(x: bv32): bv32 {
    x >> 1
  }

  lemma DoubledHalves(y: bv32)
    ensures Even(y << 1)
    ensures y < 0x8000_0000 ==> Half(y << 1) == y
  {}

  /** What lies one place further left comes down unchanged in a step. */
  lemma ShiftPasses(x: bv32, y: bv32)
    requires y < 0x8000_0000
    ensures Shift(Xor(x, y << 1)) == Xor(Shift(x), y)
  {
    hide Shift, Xor, Even, Half;
    var u := Xor(x, y << 1);
    XorCommutes(x, u);
    XorCommutes(x, y << 1);
    XorCancel(y << 1, x);
    DoubledHalves(y);
    ShiftPair(x, u);
    XorCommutes(Shift(x), Shift(u));
    XorCancel(Shift(u), Shift(x));
    XorCommutes(y, Shift(x));
  }

  lemma {:induction false} ShiftsPass(x: bv32, y: bv32, n: nat)
    requires Fits(y, n)
    ensures Shifts(Xor(x, Doubled(y, n)), n) == Xor(Shifts(x, n), y)
    decreases n
  {
    hide Shift, Xor;
    if n > 0 {
      ShiftsPass(x, y << 1, n - 1);
      ShiftPasses(Shifts(x, n - 1), y);
    }
  }

  lemma EightShiftsPass(x: bv32, y: bv32)
    requires Below(y, 0x0100_0000)
    ensures EightShifts(Xor(x, Left8(y))) == Xor(EightShifts(x), y)
  {
    hide Shift, Shifts, Doubled, Fits, Xor;
    DoubledIsShift(y);
    ShiftsPass(x, y, 8);
  }

  /** Reading the low octet of a complement fills the low octet of the register with ones. */
  lemma ComplementFills(k: bv32, q: bv32)
    ensures Xor(Xor(k, q), Low(!q)) == Xor(Xor(k, 0xFF), Left8(Right8(q)))
    ensures Below(Right8(q), 0x0100_0000)
  {}

  /** The part of the register that does not depend on the message, after another octet. */
  function NextResidue(k: bv32): bv32 {
    EightShifts(Xor(k, 0xFF))
  }

  lemma ComplementStep(k: bv32, q: bv32, b: byte)
    requires Word(b) == Low(!q)
    ensures Update(Xor(k, q), b) == Xor(NextResidue(k), Right8(q))
  {
    hide EightShifts, Xor, Low, Left8, Right8, Word, Below;
    ComplementFills(k, q);
    EightShiftsPass(Xor(k, 0xFF), Right8(q));
  }

  lemma ComplementOctets(r: bv32)
    ensures var b := WriteLe32(!r);
            && Word(b[0]) == Low(!r) && Word(b[1]) == Low(!Right8(r)) && Word(b[2]) == Low(!Right8(Right8(r)))
            && Word(b[3]) == Low(!Right8(Right8(Right8(r))))
  {
    LowOctetWord(!r);
    LowOctetWord(Right8(!r));
    LowOctetWord(Right8(Right8(!r)));
    LowOctetWord(Right8(Right8(Right8(!r))));
    RightOfComplement(r);
    hide Word, LowOctet, Low, Right8;
  }

  lemma RightOfComplement(r: bv32)
    ensures Low(Right8(!r)) == Low(!Right8(r))
    ensures Low(Right8(Right8(!r))) == Low(!Right8(Right8(r)))
    ensures Low(Right8(Right8(Right8(!r)))) == Low(!Right8(Right8(Right8(r))))
    ensures Right8(Right8(Right8(Right8(r)))) == 0
  {}

  lemma XorZeroRight(x: bv32)
    ensures Xor(x, 0) == x && Xor(0, x) == x
  {}

  lemma EightIs(crc: bv32)
    ensures EightShifts(crc) == Shift(Shift(Shift(Shift(Shift(Shift(Shift(Shift(crc))))))))
  {
    hide Shift;
    assert Shifts(crc, 1) == Shift(crc);
    assert Shifts(crc, 3) == Shift(Shift(Shifts(crc, 1)));
    assert Shifts(crc, 5) == Shift(Shift(Shifts(crc, 3)));
    assert Shifts(crc, 7) == Shift(Shift(Shifts(crc, 5)));
  }

  lemma ResidueIs()
    ensures NextResidue(NextResidue(NextResidue(NextResidue(0)))) == 0xDEBB_20E3
  {
    EightIs(0xFF);
    assert NextResidue(0) == 0x2D02_EF8D;
    EightIs(0x2D02_EF72);
    assert NextResidue(0x2D02_EF8D) == 0xBE26_12FF;
    EightIs(0xBE26_1200);
    assert NextResidue(0xBE26_12FF) == 0x00BE_2612;
    EightIs(0x00BE_26ED);
  }

  /** The checksum is that of IEEE 802.3: followed by its own checksum, low octet first, every message
      whatever its length leaves the residue that standard fixes. */
  lemma ResidueOfSealed(data: Bytes)
    ensures Checksum(data + WriteLe32(Checksum(data))) == 0x2144_DF1C
  {
    var r := Fold(INITIAL, data);
    var b := WriteLe32(!r);
    ComplementOctets(r);
    RightOfComplement(r);
    XorZeroRight(r);
    hide Update, Fold, NextResidue, Xor, Right8, Low, Word, LowOctet;
    var k1, q1 := NextResidue(0), Right8(r);
    var k2, q2 := NextResidue(k1), Right8(q1);
    var k3, q3 := NextResidue(k2), Right8(q2);
    ComplementStep(0, r, b[0]);
    ComplementStep(k1, q1, b[1]);
    ComplementStep(k2, q2, b[2]);
    ComplementStep(k3, q3, b[3]);
    XorZeroRight(NextResidue(k3));
    FoldFour(r, b);
    FoldConcat(INITIAL, data, b);
    ResidueIs();
  }

  /** An octet takes the register from one value to another. */
  predicate NextRegister(before: bv32, b: byte, after: bv32) {
    Shift(Shift(Shift(Shift(Shift(Shift(Shift(Shift(Xor(before, Word(b)))))))))) == after
  }

  lemma RegisterStep(before: bv32, b: byte, after: bv32)
    requires NextRegister(before, b, after)
    ensures Update(before, b) == after
  {
    EightIs(Xor(before, Word(b)));
    hide Shift, Xor, Word, Shifts, EightShifts;
  }

  lemma FirstFour()
    ensures Update4(0xFFFF_FFFF, [0x31, 0x32, 0x33, 0x34]) == 0x641C_1F5C
  {
    RegisterStep(0xFFFF_FFFF, 0x31, 0x7C23_1048);
    RegisterStep(0x7C23_1048, 0x32, 0xB0AC_BB32);
    RegisterStep(0xB0AC_BB32, 0x33, 0x77B7_9C2D);
    RegisterStep(0x77B7_9C2D, 0x34, 0x641C_1F5C);
    hide Update, NextRegister;
  }

  lemma NextFour()
    ensures Update4(0x641C_1F5C, [0x35, 0x36, 0x37, 0x38]) == 0x651F_2550
  {
    RegisterStep(0x641C_1F5C, 0x35, 0x340A_C5E3);
    RegisterStep(0x340A_C5E3, 0x36, 0xF68D_2C9E);
    RegisterStep(0xF68D_2C9E, 0x37, 0xAFFC_9660);
    RegisterStep(0xAFFC_9660, 0x38, 0x651F_2550);
    hide Update, NextRegister;
  }

  /** The check value, of the nine octets "123456789", which fixes the initial register too. */
  lemma CheckValue(m: Bytes, n: Bytes)
    requires m == [0x31, 0x32, 0x33, 0x34] && n == [0x35, 0x36, 0x37, 0x38]
    ensures Checksum(m + n + [0x39]) == 0xCBF4_3926
  {
    RegisterStep(0x651F_2550, 0x39, 0x340B_C6D9);
    hide Update, NextRegister, Update4, Fold;
    FirstFour();
    NextFour();
    FoldFour(INITIAL, m);
    FoldFour(0x641C_1F5C, n);
    FoldConcat(INITIAL, m, n);
    FoldAppend(INITIAL, m + n, 0x39);
  }

  // ---- injectivity ----

  /** The top bit after a step is the bottom bit before it, so a difference with a clear top bit
      came from the same difference one place further left. */
  lemma ShiftDifference(x: bv32, y: bv32)
    requires Shift(x) ^ Shift(y) < 0x8000_0000
    ensures x ^ y == (Shift(x) ^ Shift(y)) << 1
  {}

  function Doubled(e: bv32, n: nat): bv32
    decreases n
  {
    if n == 0 then e else Doubled(e << 1, n - 1)
  }

  predicate Fits(e: bv32, n: nat)
    decreases n
  {
    n == 0 || (e < 0x8000_0000 && Fits(e << 1, n - 1))
  }

  lemma {:induction false} ShiftsDifference(x: bv32, y: bv32, n: nat, e: bv32)
    requires Shifts(x, n) ^ Shifts(y, n) == e && Fits(e, n)
    ensures x ^ y == Doubled(e, n)
  {
    hide Shift;
    if n > 0 {
      ShiftDifference(Shifts(x, n - 1), Shifts(y, n - 1));
      ShiftsDifference(x, y, n - 1, e << 1);
    }
  }

  lemma DoubledIsShift(e: bv32)
    requires e < 0x0100_0000
    ensures Fits(e, 8) && Doubled(e, 8) == e << 8
  {
    assert Fits(e, 8) && Doubled(e, 8) == ((((((((e << 1) << 1) << 1) << 1) << 1) << 1) << 1) << 1);
  }

  lemma EightShiftsDifference(x: bv32, y: bv32, e: bv32)
    requires Xor(EightShifts(x), EightShifts(y)) == e && Below(e, 0x0100_0000)
    ensures Xor(x, y) == Left8(e)
  {
    hide Shift, Shifts, Doubled, Fits;
    DoubledIsShift(e);
    ShiftsDifference(x, y, 8, e);
  }

  /** A difference confined to the low 24 bits after one byte was eight places further left
      before it, once the byte itself is taken out. */
  lemma UpdateDifference(s: bv32, t: bv32, a: byte, b: byte, e: bv32)
    requires Xor(Update(s, a), Update(t, b)) == e && Below(e, 0x0100_0000)
    ensures Xor(s, t) == Xor(Xor(Left8(e), Word(a)), Word(b))
  {
    hide Shift, Shifts, EightShifts, Word, Xor, Left8, Below;
    EightShiftsDifference(Xor(s, Word(a)), Xor(t, Word(b)), e);
    XorOut(s, t, Word(a), Word(b));
  }

  /** One step back through a byte, keeping track of how far left the difference has spread. */
  lemma BackOne(s: bv32, t: bv32, a: byte, b: byte, e: bv32) returns (d: bv32)
    requires Xor(Update(s, a), Update(t, b)) == e && Below(e, 0x0100_0000)
    ensures d == Xor(s, t) == Xor(Xor(Left8(e), Word(a)), Word(b))
    ensures Below(Word(a), 0x100) && Below(Word(b), 0x100)
    ensures Below(e, 0x1) ==> Below(d, 0x100)
    ensures Below(e, 0x100) ==> Below(d, 0x1_0000)
    ensures Below(e, 0x1_0000) ==> Below(d, 0x100_0000)
  {
    hide Update, Shift, Shifts, EightShifts, Word, Xor, Left8, Below;
    UpdateDifference(s, t, a, b, e);
    WordSmall(a);
    WordSmall(b);
    Widen(e, Word(a), Word(b));
    d := Xor(s, t);
  }

  function Update4(s: bv32, b: Bytes): bv32
    requires |b| == 4
  {
    Update(Update(Update(Update(s, b[0]), b[1]), b[2]), b[3])
  }

  /** From one register value, no two different runs of four bytes lead to the same register. */
  lemma Update4Injective(s: bv32, a: Bytes, b: Bytes)
    requires |a| == |b| == 4
    requires Update4(s, a) == Update4(s, b)
    ensures a == b
  {
    hide Update, Shift, Shifts, EightShifts, Word, Xor, Left8, Below;
    var s1, t1 := Update(s, a[0]), Update(s, b[0]);
    var s2, t2 := Update(s1, a[1]), Update(t1, b[1]);
    var s3, t3 := Update(s2, a[2]), Update(t2, b[2]);
    XorSame(Update(s3, a[3]), Update(t3, b[3]));
    BelowBounds();
    var d3 := BackOne(s3, t3, a[3], b[3], 0);
    BelowWider(d3);
    var d2 := BackOne(s2, t2, a[2], b[2], d3);
    BelowWider(d2);
    var d1 := BackOne(s1, t1, a[1], b[1], d2);
    var d0 := BackOne(s, s, a[0], b[0], d1);
    XorSame(s, s);
    var w := [Word(a[0]), Word(a[1]), Word(a[2]), Word(a[3])];
    var v := [Word(b[0]), Word(b[1]), Word(b[2]), Word(b[3])];
    FourWords(w, v, [d0, d1, d2, d3]);
    forall i | 0 <= i < 4 ensures a[i] == b[i] {
      assert w[i] == v[i];
      WordInjective(a[i], b[i]);
    }
  }

  /** Two registers that agree after the same bytes were equal before them. */
  lemma UpdateInjective(s: bv32, t: bv32, b: byte)
    requires Update(s, b) == Update(t, b)
    ensures s == t
  {
    hide Update, Shift, Shifts, EightShifts, Word, Xor, Left8, Below;
    XorSame(Update(s, b), Update(t, b));
    BelowBounds();
    var d := BackOne(s, t, b, b, 0);
    SameByte(Word(b));
    XorSame(s, t);
  }

  lemma {:induction false} FoldInjective(s: bv32, t: bv32, data: Bytes)
    requires Fold(s, data) == Fold(t, data)
    ensures s == t
  {
    hide Update;
    if |data| > 0 {
      var n := |data| - 1;
      UpdateInjective(Fold(s, data[..n]), Fold(t, data[..n]), data[n]);
      FoldInjective(s, t, data[..n]);
    }
  }

  lemma FoldFour(s: bv32, b: Bytes)
    requires |b| == 4
    ensures Fold(s, b) == Update4(s, b)
  {
    hide Update;
    assert b[..3][..2] == b[..2];
    assert b[..3][..2][..1] == b[..1];
    assert Fold(s, b[..1]) == Update(Fold(s, b[..1][..0]), b[0]);
    assert Fold(s, b[..2]) == Update(Fold(s, b[..1]), b[1]) by {
      assert b[..2][..1] == b[..1];
    }
    assert Fold(s, b[..3]) == Update(Fold(s, b[..2]), b[2]);
  }

  lemma {:induction false} FoldShortInjective(s: bv32, a: Bytes, b: Bytes)
    requires |a| == |b| <= 4
    requires Fold(s, a) == Fold(s, b)
    ensures a == b
  {
    hide Update, Fold, Update4;
    var pad := Zeros(4 - |a|);
    FoldConcat(s, a, pad);
    FoldConcat(s, b, pad);
    FoldFour(s, a + pad);
    FoldFour(s, b + pad);
    Update4Injective(s, a + pad, b + pad);
    assert a == (a + pad)[..|a|] == (b + pad)[..|b|] == b;
  }

  lemma ChecksumSeparates(x: Bytes, y: Bytes)
    requires Checksum(x) == Checksum(y)
    ensures Fold(INITIAL, x) == Fold(INITIAL, y)
  {
    hide Fold;
  }

  /** Two messages of one length that differ, and differ only inside at most four consecutive
      bytes, never have the same checksum, however long the messages are. */
  lemma BurstDetected(before: Bytes, a: Bytes, b: Bytes, after: Bytes)
    requires |a| == |b| <= 4 && a != b
    ensures Checksum(before + a + after) != Checksum(before + b + after)
  {
    hide Update, Fold, Checksum;
    if Checksum(before + a + after) == Checksum(before + b + after) {
      ChecksumSeparates(before + a + after, before + b + after);
      FoldConcat(INITIAL, before + a, after);
      FoldConcat(INITIAL, before + b, after);
      FoldInjective(Fold(INITIAL, before + a), Fold(INITIAL, before + b), after);
      FoldConcat(INITIAL, before, a);
      FoldConcat(INITIAL, before, b);
      FoldShortInjective(Fold(INITIAL, before), a, b);
    }
  }
}
