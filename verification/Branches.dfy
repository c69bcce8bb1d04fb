/**
 * The branch-and-link instructions that relative calls are patched into, for arm64 and Thumb-2, with
 * the displacement a processor reads in them. Fields of a word do not overlap, so they are added.
 */
module Branches {
  import opened Arith
  import opened Words

  // ---------------------------------------------------------------- arm64

  /** BL with a word displacement of 26 bits. */
  function Arm64Call(displacement: uint32): (w: uint32) {
    0x9400_0000 + displacement % 0x1000_0000 / 4
  }

  /** How far from the instruction it branches. */
  function Arm64Branch(w: uint32): int {
    var imm26 := w % 0x400_0000;
    4 * (if imm26 < 0x200_0000 then imm26 else imm26 - 0x400_0000)
  }

  lemma Arm64RoundTrip(displacement: uint32)
    requires displacement % 4 == 0 && -0x800_0000 <= Signed32(displacement) <= 0x800_0000 - 4
    ensures Arm64Branch(Arm64Call(displacement)) == Signed32(displacement)
  {
    var q := displacement / 4;
    assert displacement == 4 * q;
    if displacement < 0x8000_0000 {
      assert displacement % 0x1000_0000 == displacement;
    } else {
      assert displacement % 0x1000_0000 == displacement - 0xf000_0000;
    }
  }

  // ---------------------------------------------------------------- Thumb-2

  /** Exclusive or of two bits, inverted. */
  function Xnor(i: nat, s: nat): (j: nat)
    ensures j < 2
  {
    (i + s + 1) % 2
  }

  /** The bits of the 25-bit displacement of BL, without the lowest one, which is 0. */
  datatype Fields = Fields(s: nat, i1: nat, i2: nat, imm10: nat, imm11: nat) {
    predicate Valid() {
      s < 2 && i1 < 2 && i2 < 2 && imm10 < 0x400 && imm11 < 0x800
    }

    function Value(): int {
      0x80_0000 * i1 + 0x40_0000 * i2 + 0x1000 * imm10 + 2 * imm11 - 0x100_0000 * s
    }

    /** The instruction, high halfword first; bits 13 and 11 are `i1` and `i2` xor the inverted sign bit. */
    function Instruction(): (w: uint32)
      requires Valid()
    {
      0xf000_d000 + 0x400_0000 * s + 0x1_0000 * imm10 + 0x2000 * Xnor(i1, s) + 0x800 * Xnor(i2, s) + imm11
    }
  }

  function FieldsOf(displacement: uint32): (f: Fields)
    ensures f.Valid()
  {
    Fields(displacement / 0x8000_0000, displacement / 0x80_0000 % 2, displacement / 0x40_0000 % 2,
           displacement / 0x1000 % 0x400, displacement / 2 % 0x800)
  }

  function ReadFields(insn: uint32): (f: Fields)
    ensures f.Valid()
  {
    var s, j1, j2 := insn / 0x400_0000 % 2, insn / 0x2000 % 2, insn / 0x800 % 2;
    Fields(s, Xnor(j1, s), Xnor(j2, s), insn / 0x1_0000 % 0x400, insn % 0x800)
  }

  /** Halfwords are stored high one first, each of them little-endian. */
  function SwapHalves(w: uint32): (r: uint32) {
    w / 0x1_0000 + w % 0x1_0000 * 0x1_0000
  }

  /** The word that is stored; the program counter is four bytes ahead of the instruction. */
  function Thumb2Call(displacement: uint32): uint32 {
    SwapHalves(FieldsOf(U32(displacement - 4)).Instruction())
  }

  function Thumb2Branch(w: uint32): int {
    ReadFields(SwapHalves(w)).Value() + 4
  }

  lemma SwapTwice(w: uint32)
    ensures SwapHalves(SwapHalves(w)) == w
  {
    var q, r := w / 0x1_0000, w % 0x1_0000;
    assert w == 0x1_0000 * q + r;
    DivModUnique(q + r * 0x1_0000, 0x1_0000, r, q);
  }

  /** The fields of an instruction word can be told apart. */
  lemma WordFields(s: nat, j1: nat, j2: nat, imm10: nat, imm11: nat)
    requires s < 2 && j1 < 2 && j2 < 2 && imm10 < 0x400 && imm11 < 0x800
    ensures var w := 0xf000_d000 + 0x400_0000 * s + 0x1_0000 * imm10 + 0x2000 * j1 + 0x800 * j2 + imm11;
            w / 0x400_0000 == 0x3c + s && w / 0x1_0000 % 0x400 == imm10 && w % 0x800 == imm11 &&
            w / 0x2000 % 2 == j1 && w / 0x800 % 2 == j2
  {
    var high := 0xf000 + 0x400 * s + imm10;
    var low := 0xd000 + 0x2000 * j1 + 0x800 * j2 + imm11;
    var w := high * 0x1_0000 + low;
    DivModUnique(w, 0x1_0000, high, low);
    DivModUnique(high, 0x400, 0x3c + s, imm10);
    DivModUnique(w, 0x400_0000, 0x3c + s, imm10 * 0x1_0000 + low);
    DivModUnique(w, 0x2000, high * 8 + 6 + j1, 0x1000 + 0x800 * j2 + imm11);
    DivModUnique(high * 8 + 6 + j1, 2, high * 4 + 3, j1);
    DivModUnique(w, 0x800, high * 32 + 26 + 4 * j1 + j2, imm11);
    DivModUnique(high * 32 + 26 + 4 * j1 + j2, 2, high * 16 + 13 + 2 * j1, j2);
  }

  lemma ReadBack(f: Fields)
    requires f.Valid()
    ensures ReadFields(f.Instruction()) == f
  {
    hide Xnor;
    WordFields(f.s, Xnor(f.i1, f.s), Xnor(f.i2, f.s), f.imm10, f.imm11);
    DivModUnique(0x3c + f.s, 2, 0x1e, f.s);
    XnorTwice(f.i1, f.s);
    XnorTwice(f.i2, f.s);
  }

  lemma XnorTwice(i: nat, s: nat)
    requires i < 2 && s < 2
    ensures Xnor(Xnor(i, s), s) == i
  {
  }

  /** A number is the sum of its fields. */
  lemma FieldsSum(d: nat)
    requires d % 2 == 0
    ensures d == 0x100_0000 * (d / 0x100_0000) + 0x80_0000 * (d / 0x80_0000 % 2) + 0x40_0000 * (d / 0x40_0000 % 2) +
                 0x1000 * (d / 0x1000 % 0x400) + 2 * (d / 2 % 0x800)
  {
    var t, a := d / 0x1000, d % 0x1000;
    var u, b := t / 0x400, t % 0x400;
    var v, c := u / 2, u % 2;
    var w, e := v / 2, v % 2;
    assert d == 0x1000 * t + a && t == 0x400 * u + b && u == 2 * v + c && v == 2 * w + e;
    DivModUnique(d / 2, 0x800, t, a / 2);
    DivModUnique(d, 0x40_0000, u, b * 0x1000 + a);
    DivModUnique(d, 0x80_0000, v, c * 0x40_0000 + b * 0x1000 + a);
    DivModUnique(d, 0x100_0000, w, e * 0x80_0000 + c * 0x40_0000 + b * 0x1000 + a);
  }

  lemma FieldsKeepValue(displacement: uint32)
    requires displacement % 2 == 0 && -0x100_0000 <= Signed32(displacement) <= 0x100_0000 - 2
    ensures FieldsOf(displacement).Value() == Signed32(displacement)
  {
    FieldsSum(displacement);
    TopByte(displacement);
  }

  /** The sign fills the bits above the displacement. */
  lemma TopByte(displacement: uint32)
    requires -0x100_0000 <= Signed32(displacement) <= 0x100_0000 - 2
    ensures displacement / 0x8000_0000 == (if Signed32(displacement) < 0 then 1 else 0)
    ensures displacement / 0x100_0000 == (if Signed32(displacement) < 0 then 255 else 0)
  {
  }

  lemma Thumb2RoundTrip(displacement: uint32)
    requires displacement % 2 == 0 && 4 - 0x100_0000 <= Signed32(displacement) <= 0x100_0000 + 2
    ensures Thumb2Branch(Thumb2Call(displacement)) == Signed32(displacement)
  {
    var d := U32(displacement - 4);
    assert Signed32(d) == Signed32(displacement) - 4 && d % 2 == 0;
    FieldsKeepValue(d);
    ReadBack(FieldsOf(d));
    SwapTwice(FieldsOf(d).Instruction());
  }
}
