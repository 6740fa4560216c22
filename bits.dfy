/**
 * 32-bit register words and the bit-field arithmetic the driver does on them
 * with C shifts and masks. A word is its 32 bits, bit 0 first, so that the
 * field `(val >> bit) & ((1 << width) - 1)` is the slice `[bit, bit + width)`
 * read as a binary number, and the update
 * `val = (val & ~(mask << bit)) | (arg << bit)` is a splice of that slice.
 */
module Bits {

  /** A u32 register value: bit `i` of the value is element `i`. */
  type Word = w: seq<bool> | |w| == 32 witness seq(32, i => false)

  /** A u16 configuration argument. */
  type U16 = x: nat | x < 0x1_0000

  function Pow2(n: nat): (r: nat)
    ensures r >= 1
  {
    if n == 0 then 1 else 2 * Pow2(n - 1)
  }

  lemma {:induction false} Pow2Monotone(m: nat, n: nat)
    requires m <= n
    ensures Pow2(m) <= Pow2(n)
  {
    if m < n {
      Pow2Monotone(m, n - 1);
    }
  }

  /** A u16 holds exactly the values below `2^16`. */
  lemma Pow2Sixteen()
    ensures Pow2(16) == 0x1_0000
  {
    assert Pow2(4) == 16;
    assert Pow2(8) == 256;
    assert Pow2(12) == 4096;
  }

  /** The number a little-endian bit sequence denotes. */
  function ToNat(bits: seq<bool>): (r: nat)
    ensures r < Pow2(|bits|)
  {
    if bits == [] then 0 else (if bits[0] then 1 else 0) + 2 * ToNat(bits[1..])
  }

  /** The low `width` bits of `x`, bit 0 first. */
  function FromNat(x: nat, width: nat): (r: seq<bool>)
    ensures |r| == width
  {
    if width == 0 then [] else [x % 2 == 1] + FromNat(x / 2, width - 1)
  }

  /** A number below `2^width` survives conversion to `width` bits and back. */
  lemma {:induction false} ToNatFromNat(x: nat, width: nat)
    requires x < Pow2(width)
    ensures ToNat(FromNat(x, width)) == x
  {
    if width > 0 {
      ToNatFromNat(x / 2, width - 1);
    }
  }

  /** `BIT(j) & v != 0`: bit `j` of `v` is set. */
  predicate BitSet(v: Word, j: nat)
    requires j < 32
  {
    v[j]
  }

  /** `(v >> bit) & ((1 << width) - 1)`: the `width`-bit field at `bit`. */
  function Field(v: Word, bit: nat, width: nat): (r: nat)
    requires bit + width <= 32
    ensures r < Pow2(width)
  {
    ToNat(v[bit..bit + width])
  }

  /** A one-bit field reads 1 exactly when its bit is set. */
  lemma FieldOne(v: Word, bit: nat)
    requires bit < 32
    ensures Field(v, bit, 1) == if v[bit] then 1 else 0
  {
    assert v[bit..bit + 1][1..] == [];
  }

  /** A two-bit field reads its low bit plus twice its high bit. */
  lemma FieldTwo(v: Word, bit: nat)
    requires bit + 2 <= 32
    ensures Field(v, bit, 2) == (if v[bit] then 1 else 0) + 2 * (if v[bit + 1] then 1 else 0)
  {
    var s := v[bit..bit + 2];
    assert s[0] == v[bit] && s[1..] == [v[bit + 1]];
    assert [v[bit + 1]][1..] == [];
    assert ToNat([v[bit + 1]]) == if v[bit + 1] then 1 else 0;
  }

  /** A field depends only on the bits inside it. */
  lemma FieldSameBits(v: Word, w: Word, bit: nat, width: nat)
    requires bit + width <= 32
    requires forall j :: bit <= j < bit + width ==> v[j] == w[j]
    ensures Field(v, bit, width) == Field(w, bit, width)
  {
    assert v[bit..bit + width] == w[bit..bit + width];
  }

  /**
   * `(v & ~(mask << bit)) | (x << bit)`: the field at `bit` replaced by `x`.
   * The field then reads `x`, and every bit outside it is that of `v`.
   */
  function SetField(v: Word, bit: nat, width: nat, x: nat): (r: Word)
    requires bit + width <= 32 && x < Pow2(width)
    ensures Field(r, bit, width) == x
    ensures forall j :: 0 <= j < 32 && !(bit <= j < bit + width) ==> r[j] == v[j]
  {
    var r := v[..bit] + FromNat(x, width) + v[bit + width..];
    assert r[bit..bit + width] == FromNat(x, width);
    ToNatFromNat(x, width);
    r
  }

  /** `v | BIT(j)`. */
  function SetBit(v: Word, j: nat): (r: Word)
    requires j < 32
    ensures r[j] && forall i :: 0 <= i < 32 && i != j ==> r[i] == v[i]
  {
    v[j := true]
  }

  /** `v & ~BIT(j)`. */
  function ClearBit(v: Word, j: nat): (r: Word)
    requires j < 32
    ensures !r[j] && forall i :: 0 <= i < 32 && i != j ==> r[i] == v[i]
  {
    v[j := false]
  }

  /** `v & ~m`: the bits of `m` cleared, the others kept. */
  function ClearMask(v: Word, m: Word): (r: Word)
    ensures forall i :: 0 <= i < 32 ==> r[i] == (v[i] && !m[i])
  {
    seq(32, i requires 0 <= i < 32 => v[i] && !m[i])
  }

  /** Clearing `m` and then `n` clears `m | n`. */
  lemma ClearMaskTwice(v: Word, m: Word, n: Word)
    ensures ClearMask(ClearMask(v, m), n) == ClearMask(v, Or(m, n))
  {
    assert forall i :: 0 <= i < 32 ==> ClearMask(ClearMask(v, m), n)[i] == ClearMask(v, Or(m, n))[i];
  }

  /** `m | n`. */
  function Or(m: Word, n: Word): (r: Word)
    ensures forall i :: 0 <= i < 32 ==> r[i] == (m[i] || n[i])
  {
    seq(32, i requires 0 <= i < 32 => m[i] || n[i])
  }

  /** The all-zero word. */
  function Zero(): (r: Word)
    ensures forall i :: 0 <= i < 32 ==> !r[i]
  {
    seq(32, i => false)
  }

  /** `m > 0` for a u32 mask: some bit is set. */
  predicate NonZero(m: Word)
  {
    exists i :: 0 <= i < 32 && m[i]
  }
}
