/** Bin slots and image offsets, stored in the lock word of the object they belong to. */
module BinSlots {
  import opened Arith
  import opened Words

  const BIN_SPAN := 0x800_0000  // 1 << kBinShift
  const STATE_SPAN := 0x4000_0000  // 1 << kStateShift

  datatype Slot = Slot(bin: nat, index: nat)

  /** Bitwise `|`. */
  function Or(x: nat, y: nat): nat
    decreases x + y
  {
    if x == 0 && y == 0 then 0 else (if x % 2 == 1 || y % 2 == 1 then 1 else 0) + 2 * Or(x / 2, y / 2)
  }

  /** Fields that do not overlap are added. */
  lemma {:induction false} OrOfFields(x: nat, y: nat, k: nat)
    requires x < Pow2(k)
    ensures Or(x, y * Pow2(k)) == x + y * Pow2(k)
    decreases k
  {
    if k == 0 {
      OrWithZero(y);
    } else if x > 0 || y > 0 {
      var p := Pow2(k - 1);
      assert y * Pow2(k) == 2 * (y * p);
      OrOfFields(x / 2, y, k - 1);
    }
  }

  lemma {:induction false} OrWithZero(y: nat)
    ensures Or(0, y) == y
  {
    if y > 0 {
      OrWithZero(y / 2);
    }
  }

  lemma BinSpanIsPower()
    ensures Pow2(27) == BIN_SPAN
  {
    assert Pow2(9) == 512;
    assert Pow2(18) == 512 * Pow2(9);
    assert Pow2(27) == 512 * Pow2(18);
  }

  /** `index | bin << 27`. */
  function Packed(s: Slot): uint32
    requires s.bin < 8 && s.index < BIN_SPAN
  {
    PackedIsSum(s);
    Or(s.index, s.bin * BIN_SPAN)
  }

  lemma PackedIsSum(s: Slot)
    requires s.bin < 8 && s.index < BIN_SPAN
    ensures Or(s.index, s.bin * BIN_SPAN) == s.index + s.bin * BIN_SPAN < WORD
  {
    BinSpanIsPower();
    OrOfFields(s.index, s.bin, 27);
  }

  /** The bin field, and every bit outside it. */
  function Unpacked(v: uint32): Slot {
    Slot(v / BIN_SPAN % 8, v % BIN_SPAN + v / STATE_SPAN * STATE_SPAN)
  }

  function FromForwardingAddress(target: uint32): (lockWord: uint32) {
    target / 4 + 3 * STATE_SPAN
  }

  function ForwardingAddress(lockWord: uint32): (target: uint32) {
    lockWord * 4 % WORD
  }

  predicate IsForwarding(lockWord: uint32) {
    lockWord / STATE_SPAN == 3
  }

  /** The state is recognised, and the address survives exactly when its two low bits are clear. */
  lemma ForwardingRoundTripIff(target: uint32)
    ensures IsForwarding(FromForwardingAddress(target))
    ensures ForwardingAddress(FromForwardingAddress(target)) == target <==> target % 4 == 0
  {
  }

  lemma SlotRoundTrip(s: Slot)
    requires s.bin < 8 && s.index < BIN_SPAN
    ensures Unpacked(Packed(s)) == s
    ensures s.index % 4 == 0 ==> Packed(s) % 4 == 0
  {
    hide Or;
    PackedIsSum(s);
  }

  /** An index survives in the bit field representation exactly when it leaves the bin's bits clear. */
  lemma BitFieldsIff(bin: bv32, index: bv32)
    requires bin < 8
    ensures var word := index | (bin << 27);
            (word & 0x3800_0000) >> 27 == bin && word & !0x3800_0000 == index <==> index & 0x3800_0000 == 0
  {
  }

  // ---------------------------------------------------------------- all lock words of a heap

  /** The slots that the lock words hold. */
  function SlotsIn(lock: map<nat, uint32>): map<nat, Slot> {
    map o | o in lock && IsForwarding(lock[o]) :: Unpacked(ForwardingAddress(lock[o]))
  }

  lemma StoreSlot(lock: map<nat, uint32>, o: nat, s: Slot)
    requires s.bin < 8 && s.index < BIN_SPAN && s.index % 4 == 0
    ensures SlotsIn(lock[o := FromForwardingAddress(Packed(s))]) == SlotsIn(lock)[o := s]
  {
    hide Packed, Unpacked, FromForwardingAddress, ForwardingAddress, IsForwarding;
    SlotRoundTrip(s);
    ForwardingRoundTripIff(Packed(s));
  }
}
