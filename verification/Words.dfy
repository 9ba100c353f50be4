/** Machine words: bytes, fixed-width integers with explicit wrap-around, and bit sets. */
module Words {
  datatype Option<+T> = None | Some(value: T)

  datatype Result<+T, +E> = Success(value: T) | Failure(error: E)

  type byte = x: int | 0 <= x < 0x100
  type uint16 = x: int | 0 <= x < 0x1_0000
  type uint32 = x: int | 0 <= x < 0x1_0000_0000
  type Bytes = seq<byte>

  /** A 16-bit word seen as the set of positions of its one bits. `&` is `*`, `|` is `+` and
      `& ~` is `-`; WordBits and BitsWord below tie the view to the number on the wire. */
  type Bitmap = s: set<nat> | forall k :: k in s ==> k < 16 witness {}

  function Zeros(n: nat): (z: Bytes)
    ensures |z| == n
  {
    seq(n, _ => 0)
  }

  // Little-endian packing of a 16-bit value.

  function WriteLe16(v: uint16): Bytes {
    [v % 0x100, v / 0x100]
  }

  function ReadLe16(lo: byte, hi: byte): uint16 {
    lo + 0x100 * hi
  }

  lemma Le16RoundTrip(v: uint16)
    ensures ReadLe16(WriteLe16(v)[0], WriteLe16(v)[1]) == v
  {}

  lemma Le16Canonical(lo: byte, hi: byte)
    ensures WriteLe16(ReadLe16(lo, hi)) == [lo, hi]
  {}

  // Two nibbles in a byte.

  function Nibbles(high: nat, low: nat): byte
    requires high < 16 && low < 16
  {
    high * 16 + low
  }

  lemma NibblesRoundTrip(high: nat, low: nat)
    requires high < 16 && low < 16
    ensures Nibbles(high, low) / 16 == high && Nibbles(high, low) % 16 == low
  {}

  lemma NibblesCanonical(b: byte)
    ensures b / 16 < 16 && b % 16 < 16 && Nibbles(b / 16, b % 16) == b
  {}

  /** The number whose one bits at or above position k are those of `bits`, shifted down by k. */
  function BitsFrom(bits: Bitmap, k: nat): (w: nat)
    requires k <= 16
    decreases 16 - k
  {
    if k == 16 then 0 else (if k in bits then 1 else 0) + 2 * BitsFrom(bits, k + 1)
  }

  function Pow2(n: nat): nat {
    if n == 0 then 1 else 2 * Pow2(n - 1)
  }

  lemma {:induction false} BitsFromBound(bits: Bitmap, k: nat)
    requires k <= 16
    ensures BitsFrom(bits, k) < Pow2(16 - k)
    decreases 16 - k
  {
    if k < 16 {
      BitsFromBound(bits, k + 1);
    }
  }

  function BitsWord(bits: Bitmap): uint16 {
    BitsFromBound(bits, 0);
    assert Pow2(16) == 0x1_0000 by {
      assert Pow2(4) == 16;
      assert Pow2(8) == 0x100;
      assert Pow2(12) == 0x1000;
    }
    BitsFrom(bits, 0)
  }

  /** Positions of the one bits of w, the lowest bit of w standing for position k. */
  function WordBitsFrom(w: nat, k: nat): (bits: Bitmap)
    requires k <= 16
    ensures forall j :: j in bits ==> k <= j
    decreases 16 - k
  {
    if k == 16 then {} else (if w % 2 == 1 then {k} else {}) + WordBitsFrom(w / 2, k + 1)
  }

  function WordBits(w: uint16): Bitmap {
    WordBitsFrom(w, 0)
  }

  lemma {:induction false} BitsFromRoundTrip(bits: Bitmap, k: nat)
    requires k <= 16
    ensures WordBitsFrom(BitsFrom(bits, k), k) == (set j | j in bits && k <= j)
    decreases 16 - k
  {
    if k < 16 {
      BitsFromRoundTrip(bits, k + 1);
      assert BitsFrom(bits, k) / 2 == BitsFrom(bits, k + 1);
    }
  }

  /** Writing a bit set as a number and reading it back is the identity. */
  lemma BitmapRoundTrip(bits: Bitmap)
    ensures WordBits(BitsWord(bits)) == bits
  {
    BitsFromRoundTrip(bits, 0);
    assert (set j | j in bits && 0 <= j) == bits;
  }

  lemma {:induction false} WordFromRoundTrip(w: nat, k: nat)
    requires k <= 16 && w < Pow2(16 - k)
    ensures BitsFrom(WordBitsFrom(w, k), k) == w
    decreases 16 - k
  {
    if k < 16 {
      WordFromRoundTrip(w / 2, k + 1);
      BitsFromIgnoresLow(WordBitsFrom(w, k), WordBitsFrom(w / 2, k + 1), k + 1);
    }
  }

  lemma {:induction false} BitsFromIgnoresLow(a: Bitmap, b: Bitmap, k: nat)
    requires k <= 16
    requires forall j :: k <= j < 16 ==> (j in a <==> j in b)
    ensures BitsFrom(a, k) == BitsFrom(b, k)
    decreases 16 - k
  {
    if k < 16 {
      BitsFromIgnoresLow(a, b, k + 1);
    }
  }

  /** Every 16-bit number is the number of its bit set. */
  lemma WordRoundTrip(w: uint16)
    ensures BitsWord(WordBits(w)) == w
  {
    assert Pow2(16) == 0x1_0000 by {
      assert Pow2(4) == 16;
      assert Pow2(8) == 0x100;
      assert Pow2(12) == 0x1000;
    }
    WordFromRoundTrip(w, 0);
  }

  // Unsigned 32-bit time.

  function Wrap32(t: int): uint32 {
    t % 0x1_0000_0000
  }

  /** `static_cast<int32_t>(now - deadline) >= 0`: the deadline is at most 2^31 - 1 behind now. */
  predicate Reached(now: uint32, deadline: uint32) {
    Wrap32(now - deadline) < 0x8000_0000
  }

  function Min(a: int, b: int): int {
    if a < b then a else b
  }
}
