/**
 * The bin allocator of the image writer on values: what assigning a slot does, the invariant every
 * state of the heap walk satisfies, and the layout that follows once every object has a slot.
 */
module ImageAlloc {
  import opened Arith
  import opened Words
  import opened Totals
  import opened ImageHeap
  import opened BinSlots

  datatype Reloc = Reloc(offset: nat, bin: nat)

  datatype Alloc = Alloc(slots: map<nat, Slot>, sizes: seq<nat>, end: nat, reloc: map<nat, Reloc>)

  const BEGIN: nat := 144

  // ---------------------------------------------------------------- operations

  /** Gives `o` a slot of its own. */
  function Assign(h: Heap, a: Alloc, o: nat): Alloc
    requires o in h.objects && |a.sizes| == BIN_SIZE
  {
    var bin, delta := BinOf(h, o), Delta(h, o);
    var index := if o in Arrays(h) then Arrays(h)[o].offset else a.sizes[bin];
    Alloc(a.slots[o := Slot(bin, index)],
          if bin == BIN_DEX_CACHE_ARRAY then a.sizes else a.sizes[bin := a.sizes[bin] + delta],
          a.end + delta, a.reloc)
  }

  /** Points `o` to the slot of its interned twin. */
  function Share(h: Heap, a: Alloc, o: nat): Alloc
    requires o in h.objects && Rep(h, o) in a.slots
  {
    a.(slots := a.slots[o := a.slots[Rep(h, o)]])
  }

  function RecordSize(h: Heap, bin: nat): nat {
    if bin == BIN_ART_FIELD then 16 else h.methodSize
  }

  /** Gives a native record the next place of its bin. */
  function AddNative(h: Heap, a: Alloc, n: nat, bin: nat): Alloc
    requires |a.sizes| == BIN_SIZE && bin < BIN_SIZE
  {
    a.(reloc := a.reloc[n := Reloc(a.sizes[bin], bin)], sizes := a.sizes[bin := a.sizes[bin] + RecordSize(h, bin)])
  }

  // ---------------------------------------------------------------- invariant of the objects

  ghost function Reps(h: Heap, a: Alloc): set<nat> {
    set o | o in a.slots && o in h.objects && Rep(h, o) == o
  }

  ghost function InBin(h: Heap, s: set<nat>, b: nat): set<nat> {
    set o | o in s && o in h.objects && BinOf(h, o) == b
  }

  ghost predicate Shaped(h: Heap, a: Alloc) {
    |a.sizes| == BIN_SIZE && a.slots.Keys <= h.objects.Keys &&
    forall b :: 0 <= b < BIN_MIRROR_COUNT ==> a.sizes[b] % OBJECT_ALIGNMENT == 0
  }

  /** A string and its interned twin have one slot. */
  ghost predicate Sharing(h: Heap, a: Alloc)
    requires Shaped(h, a)
  {
    forall o {:trigger Rep(h, o)} :: o in a.slots ==> Rep(h, o) in a.slots && a.slots[o] == a.slots[Rep(h, o)]
  }

  /** The slot of `r` is aligned and inside the part of its bin used so far. */
  ghost predicate Placed(h: Heap, a: Alloc, r: nat)
    requires Shaped(h, a) && r in a.slots
  {
    var s := a.slots[r];
    s.bin == BinOf(h, r) && s.index % OBJECT_ALIGNMENT == 0 && s.index + Delta(h, r) <= a.sizes[s.bin] &&
    (s.bin == BIN_DEX_CACHE_ARRAY ==> r in Arrays(h) && s.index == Arrays(h)[r].offset)
  }

  ghost predicate AllPlaced(h: Heap, a: Alloc)
    requires Shaped(h, a)
  {
    forall r :: r in a.slots && Rep(h, r) == r ==> Placed(h, a, r)
  }

  predicate SlotsApart(s: Slot, d: nat, t: Slot, e: nat) {
    s.bin != t.bin || s.index + d <= t.index || t.index + e <= s.index
  }

  /** Different objects, other than duplicates of a string, have disjoint slots. */
  ghost predicate AllApart(h: Heap, a: Alloc)
    requires Shaped(h, a)
  {
    forall r, t :: r in a.slots && t in a.slots && r != t && Rep(h, r) == r && Rep(h, t) == t ==>
      SlotsApart(a.slots[r], Delta(h, r), a.slots[t], Delta(h, t))
  }

  /** Bins and image have grown by exactly the sizes of the objects that own a slot. */
  ghost predicate Accounted(h: Heap, a: Alloc)
    requires Shaped(h, a)
  {
    a.end == BEGIN + Total(Deltas(h), Reps(h, a)) &&
    a.sizes[BIN_DEX_CACHE_ARRAY] == ArraysSize(h) &&
    forall b :: 1 <= b < BIN_MIRROR_COUNT ==> a.sizes[b] == Total(Deltas(h), InBin(h, Reps(h, a), b))
  }

  ghost predicate Inv(h: Heap, a: Alloc) {
    Shaped(h, a) && Sharing(h, a) && AllPlaced(h, a) && AllApart(h, a) && Accounted(h, a)
  }

  // ---------------------------------------------------------------- assigning a slot keeps it

  lemma AssignShapes(h: Heap, a: Alloc, o: nat)
    requires Shaped(h, a) && o in h.objects
    ensures Shaped(h, Assign(h, a, o))
  {
    hide Arrays, BinOf, Delta;
    var bin := BinOf(h, o);
    assert (a.sizes[bin] + Delta(h, o)) % OBJECT_ALIGNMENT == 0;
  }

  lemma AssignShares(h: Heap, a: Alloc, o: nat)
    requires Shaped(h, a) && Sharing(h, a) && o in h.objects && o !in a.slots && Rep(h, o) == o
    ensures Shaped(h, Assign(h, a, o)) && Sharing(h, Assign(h, a, o))
  {
    AssignShapes(h, a, o);
    hide Arrays, BinOf, Delta, Rep;
  }

  lemma AssignPlaces(h: Heap, a: Alloc, o: nat)
    requires WellFormed(h) && Inv(h, a) && o in h.objects && o !in a.slots
    ensures Shaped(h, Assign(h, a, o)) && AllPlaced(h, Assign(h, a, o))
  {
    hide Arrays, BinOf, Delta, Rep, WellFormed, Inv, Shaped, Placed, Assign;
    UnfoldInv(h, a);
    AssignShapes(h, a, o);
    SlotsAfter(h, a, o);
    var b := Assign(h, a, o);
    forall r | r in b.slots && Rep(h, r) == r ensures Placed(h, b, r) {
      if r == o {
        OwnPlace(h, a, o);
      } else {
        OtherPlace(h, a, o, r);
      }
    }
  }

  lemma UnfoldInv(h: Heap, a: Alloc)
    requires Inv(h, a)
    ensures Shaped(h, a) && Sharing(h, a) && AllPlaced(h, a) && AllApart(h, a) && Accounted(h, a)
  {
  }

  lemma SlotsAfter(h: Heap, a: Alloc, o: nat)
    requires Shaped(h, a) && o in h.objects
    ensures var b := Assign(h, a, o); b.slots.Keys == a.slots.Keys + {o}
    ensures forall r :: r in a.slots && r != o ==> Assign(h, a, o).slots[r] == a.slots[r]
  {
    hide Arrays, BinOf, Delta;
  }

  lemma OtherPlace(h: Heap, a: Alloc, o: nat, r: nat)
    requires Inv(h, a) && o in h.objects && r in a.slots && r != o && Rep(h, r) == r
    ensures var b := Assign(h, a, o); Shaped(h, b) && Placed(h, b, r) && b.slots[r] == a.slots[r]
  {
    hide Arrays, BinOf, Delta, Rep, Sharing, AllApart, Accounted;
    AssignShapes(h, a, o);
    assert Placed(h, a, r);
  }

  lemma OwnPlace(h: Heap, a: Alloc, o: nat)
    requires WellFormed(h) && Inv(h, a) && o in h.objects
    ensures var b := Assign(h, a, o); Shaped(h, b) && Placed(h, b, o)
    ensures o in Arrays(h) <==> BinOf(h, o) == BIN_DEX_CACHE_ARRAY
  {
    hide Arrays, ArraysSize, BinOf, Sharing, AllPlaced, AllApart, Total, Deltas, WellFormed, Aligned, Reserved, Delta;
    AssignShapes(h, a, o);
    BinOfArray(h, o);
    if o in Arrays(h) {
      ArrayPlace(h, o);
    }
  }

  /** A prepared array lies aligned inside its bin. */
  lemma ArrayPlace(h: Heap, x: nat)
    requires WellFormed(h) && x in Arrays(h)
    ensures x in h.objects && Arrays(h)[x].offset % OBJECT_ALIGNMENT == 0 &&
            Arrays(h)[x].offset + Delta(h, x) <= ArraysSize(h)
  {
    ArrayFacts(h);
    hide Arrays, ArraysSize, Total, Deltas, WellFormed, Delta;
  }

  lemma BinOfArray(h: Heap, o: nat)
    requires WellFormed(h) && o in h.objects
    ensures o in Arrays(h) <==> BinOf(h, o) == BIN_DEX_CACHE_ARRAY
  {
    hide Arrays, Closed, InternsConsistently, DistinctNatives;
  }

  lemma DeltaOfArray(h: Heap, x: nat)
    requires x in h.objects && x in Arrays(h) && Tiled(Prepared(Arrays(h), ArraysSize(h)))
    ensures Delta(h, x) == Arrays(h)[x].length
  {
    hide Arrays, ArraysSize;
    assert Arrays(h)[x].length % OBJECT_ALIGNMENT == 0;
  }

  /** The prepared arrays: aligned, disjoint, and exactly filling their bin. */
  lemma ArrayFacts(h: Heap)
    requires WellFormed(h)
    ensures Tiled(Prepared(Arrays(h), ArraysSize(h)))
    ensures forall x :: x in Arrays(h) ==> x in h.objects && Delta(h, x) == Arrays(h)[x].length
    ensures ArraysSize(h) == Total(Deltas(h), Arrays(h).Keys)
  {
    hide Closed, InternsConsistently, DistinctNatives, PrepareUpTo, Total, Tiled, Delta, DistinctArrays;
    PrepareTiles(h.ptrSize, h.dexCaches, |h.dexCaches|);
    forall x | x in Arrays(h) ensures x in h.objects && Delta(h, x) == Arrays(h)[x].length {
      DeltaOfArray(h, x);
    }
    PrepareSums(h.ptrSize, h.dexCaches, |h.dexCaches|, Deltas(h));
  }

  /** A new slot does not touch the slot of any other object. */
  lemma OwnSlotApart(h: Heap, a: Alloc, o: nat, t: nat)
    requires WellFormed(h) && Inv(h, a) && o in h.objects && t in a.slots && t != o && Rep(h, t) == t
    ensures SlotsApart(Assign(h, a, o).slots[o], Delta(h, o), a.slots[t], Delta(h, t))
  {
    hide Arrays, ArraysSize, BinOf, Delta, Rep, Sharing, AllApart, Accounted, WellFormed, Total, Deltas, Tiled;
    BinOfArray(h, o);
    assert Placed(h, a, t);
    if BinOf(h, o) == BIN_DEX_CACHE_ARRAY && a.slots[t].bin == BIN_DEX_CACHE_ARRAY {
      ArrayFacts(h);
      assert Apart(Arrays(h)[o], Arrays(h)[t]) by { TiledApart(h, o, t); }
    }
  }

  lemma TiledApart(h: Heap, x: nat, y: nat)
    requires Tiled(Prepared(Arrays(h), ArraysSize(h))) && x in Arrays(h) && y in Arrays(h) && x != y
    ensures Apart(Arrays(h)[x], Arrays(h)[y])
  {
    hide Arrays, ArraysSize, Apart;
  }

  lemma AssignKeepsApart(h: Heap, a: Alloc, o: nat)
    requires WellFormed(h) && Inv(h, a) && o in h.objects && o !in a.slots
    ensures Shaped(h, Assign(h, a, o)) && AllApart(h, Assign(h, a, o))
  {
    hide Arrays, BinOf, Delta, Rep, WellFormed, Inv, Shaped, Placed, Assign, SlotsApart, Sharing;
    UnfoldInv(h, a);
    AssignShapes(h, a, o);
    SlotsAfter(h, a, o);
    var b := Assign(h, a, o);
    forall r, t | r in b.slots && t in b.slots && r != t && Rep(h, r) == r && Rep(h, t) == t
      ensures SlotsApart(b.slots[r], Delta(h, r), b.slots[t], Delta(h, t))
    {
      if r == o {
        OwnSlotApart(h, a, o, t);
      } else if t == o {
        OwnSlotApart(h, a, o, r);
        ApartCommutes(b.slots[o], Delta(h, o), b.slots[r], Delta(h, r));
      }
    }
  }

  lemma ApartCommutes(s: Slot, d: nat, t: Slot, e: nat)
    ensures SlotsApart(s, d, t, e) == SlotsApart(t, e, s, d)
  {
  }

  lemma AssignAccounts(h: Heap, a: Alloc, o: nat)
    requires WellFormed(h) && Inv(h, a) && o in h.objects && o !in a.slots && Rep(h, o) == o
    ensures Shaped(h, Assign(h, a, o)) && Accounted(h, Assign(h, a, o))
  {
    hide Arrays, BinOf, Delta, Rep, WellFormed, AllPlaced, AllApart, Sharing, Total, ArraysSize;
    AssignShapes(h, a, o);
    var b, bin, d := Assign(h, a, o), BinOf(h, o), Deltas(h);
    assert Reps(h, b) == Reps(h, a) + {o};
    TotalInsert(d, Reps(h, a), o);
    assert Totals.At(d, o) == Delta(h, o);
    forall c | 1 <= c < BIN_MIRROR_COUNT ensures b.sizes[c] == Total(d, InBin(h, Reps(h, b), c)) {
      if c == bin {
        assert InBin(h, Reps(h, b), c) == InBin(h, Reps(h, a), c) + {o};
        TotalInsert(d, InBin(h, Reps(h, a), c), o);
      } else {
        assert InBin(h, Reps(h, b), c) == InBin(h, Reps(h, a), c);
      }
    }
  }

  lemma AssignKeepsInv(h: Heap, a: Alloc, o: nat)
    requires WellFormed(h) && Inv(h, a) && o in h.objects && o !in a.slots && Rep(h, o) == o
    ensures Inv(h, Assign(h, a, o))
  {
    hide WellFormed, Shaped, Sharing, AllPlaced, AllApart, Accounted, Assign, Rep;
    AssignShares(h, a, o);
    AssignPlaces(h, a, o);
    AssignKeepsApart(h, a, o);
    AssignAccounts(h, a, o);
  }

  /** Pointing a duplicate string to its twin's slot allocates nothing. */
  lemma ShareKeepsInv(h: Heap, a: Alloc, o: nat)
    requires WellFormed(h) && Inv(h, a) && o in h.objects && o !in a.slots
    requires Rep(h, o) != o && Rep(h, o) in a.slots && Rep(h, Rep(h, o)) == Rep(h, o)
    ensures Inv(h, Share(h, a, o))
  {
    hide WellFormed, Rep, BinOf, Delta, Arrays, Total, ArraysSize;
    var b := Share(h, a, o);
    assert Shaped(h, b) && Sharing(h, b);
    assert Reps(h, b) == Reps(h, a);
    assert AllPlaced(h, b) by {
      hide AllApart, Accounted, Sharing;
      forall r | r in b.slots && Rep(h, r) == r ensures Placed(h, b, r) {
        assert Placed(h, a, r);
      }
    }
  }

  // ---------------------------------------------------------------- native records

  predicate NativeBin(bin: nat) {
    BIN_ART_FIELD <= bin < BIN_SIZE
  }

  ghost function RecordsIn(a: Alloc, b: nat): set<nat> {
    set n | n in a.reloc && a.reloc[n].bin == b
  }

  /** Size of a bin with `count` records. */
  function BinBytes(h: Heap, b: nat, count: nat): nat {
    RecordSize(h, b) * count
  }

  lemma BinBytesStep(h: Heap, b: nat, count: nat)
    ensures BinBytes(h, b, count + 1) == BinBytes(h, b, count) + RecordSize(h, b)
    ensures BinBytes(h, b, 0) == 0
  {
    hide RecordSize;
    assert RecordSize(h, b) * (count + 1) == RecordSize(h, b) * count + RecordSize(h, b);
  }

  /** Bins of records are as large as their records. */
  ghost predicate RecordsFill(h: Heap, a: Alloc)
    requires |a.sizes| == BIN_SIZE
  {
    forall b :: BIN_ART_FIELD <= b < BIN_SIZE ==> a.sizes[b] == BinBytes(h, b, |RecordsIn(a, b)|)
  }

  ghost predicate RecordsInBins(h: Heap, a: Alloc)
    requires |a.sizes| == BIN_SIZE
  {
    (forall n :: n in a.reloc ==>
      NativeBin(a.reloc[n].bin) && a.reloc[n].offset + RecordSize(h, a.reloc[n].bin) <= a.sizes[a.reloc[n].bin]) &&
    (forall n, m :: n in a.reloc && m in a.reloc && n != m ==> RecordsApart(h, a.reloc[n], a.reloc[m]))
  }

  /** Field and method records are disjoint, inside their bins, and fill them. */
  ghost predicate NativesPlaced(h: Heap, a: Alloc) {
    |a.sizes| == BIN_SIZE && RecordsFill(h, a) && RecordsInBins(h, a)
  }

  predicate RecordsApart(h: Heap, r: Reloc, t: Reloc) {
    r.bin != t.bin || r.offset + RecordSize(h, r.bin) <= t.offset || t.offset + RecordSize(h, t.bin) <= r.offset
  }

  /** Records of objects without a slot, and runtime methods, have no place yet. */
  ghost predicate NativesFresh(h: Heap, a: Alloc) {
    (forall o, n :: o in h.objects && o !in a.slots && n in NativesOf(h.objects[o]) ==> n !in a.reloc) &&
    (forall n :: n in h.runtimeMethods ==> n !in a.reloc)
  }

  lemma AddNativeKeepsPlaced(h: Heap, a: Alloc, n: nat, bin: nat)
    requires NativesPlaced(h, a) && NativeBin(bin) && n !in a.reloc
    ensures NativesPlaced(h, AddNative(h, a, n, bin))
  {
    hide RecordsFill, RecordsInBins, RecordSize;
    AddNativeFills(h, a, n, bin);
    AddNativeInBin(h, a, n, bin);
  }

  lemma AddNativeFills(h: Heap, a: Alloc, n: nat, bin: nat)
    requires |a.sizes| == BIN_SIZE && RecordsFill(h, a) && NativeBin(bin) && n !in a.reloc
    ensures RecordsFill(h, AddNative(h, a, n, bin))
  {
    hide RecordSize, BinBytes, RecordsIn;
    var c := AddNative(h, a, n, bin);
    forall b | BIN_ART_FIELD <= b < BIN_SIZE ensures c.sizes[b] == BinBytes(h, b, |RecordsIn(c, b)|) {
      OneMoreRecord(a, c, n, c.reloc[n], b);
      BinBytesStep(h, b, |RecordsIn(a, b)|);
    }
  }

  lemma OneMoreRecord(a: Alloc, c: Alloc, n: nat, r: Reloc, b: nat)
    requires n !in a.reloc && c.reloc == a.reloc[n := r]
    ensures |RecordsIn(c, b)| == |RecordsIn(a, b)| + if b == r.bin then 1 else 0
  {
    if b == r.bin {
      assert RecordsIn(c, b) == RecordsIn(a, b) + {n};
    } else {
      assert RecordsIn(c, b) == RecordsIn(a, b);
    }
  }

  lemma AddNativeInBin(h: Heap, a: Alloc, n: nat, bin: nat)
    requires |a.sizes| == BIN_SIZE && RecordsInBins(h, a) && NativeBin(bin) && n !in a.reloc
    ensures RecordsInBins(h, AddNative(h, a, n, bin))
  {
    hide RecordSize;
  }

  lemma AddNativeKeepsInv(h: Heap, a: Alloc, n: nat, bin: nat)
    requires Inv(h, a) && NativeBin(bin)
    ensures Inv(h, AddNative(h, a, n, bin))
  {
    hide RecordSize, BinOf, Delta, Arrays, Total, ArraysSize, Rep;
    var b := AddNative(h, a, n, bin);
    assert b.slots == a.slots && b.end == a.end && b.sizes[..BIN_ART_FIELD] == a.sizes[..BIN_ART_FIELD];
    SameObjectsSameInv(h, a, b);
  }

  /** The invariant of the objects does not depend on native records. */
  lemma SameObjectsSameInv(h: Heap, a: Alloc, b: Alloc)
    requires Inv(h, a) && |b.sizes| == BIN_SIZE
    requires b.slots == a.slots && b.end == a.end && b.sizes[..BIN_ART_FIELD] == a.sizes[..BIN_ART_FIELD]
    ensures Inv(h, b)
  {
    hide BinOf, Delta, Arrays, Total, ArraysSize, Rep;
    assert forall c :: 0 <= c < BIN_MIRROR_COUNT ==> b.sizes[c] == a.sizes[c] by {
      assert forall c :: 0 <= c < BIN_MIRROR_COUNT ==>
               b.sizes[c] == b.sizes[..BIN_ART_FIELD][c] && a.sizes[c] == a.sizes[..BIN_ART_FIELD][c];
    }
    assert Shaped(h, b);
    assert Reps(h, b) == Reps(h, a);
    assert AllPlaced(h, b) by {
      hide AllApart, Accounted, Sharing;
      forall r | r in b.slots && Rep(h, r) == r ensures Placed(h, b, r) {
        assert Placed(h, a, r);
      }
    }
  }

  // ---------------------------------------------------------------- final offsets

  /** Bytes in the bins before `n`. */
  function Before(sizes: seq<nat>, n: nat): nat
    requires n <= |sizes|
  {
    if n == 0 then 0 else Before(sizes, n - 1) + sizes[n - 1]
  }

  lemma {:induction false} BeforeGrows(sizes: seq<nat>, m: nat, n: nat)
    requires m < n <= |sizes|
    ensures Before(sizes, m) + sizes[m] <= Before(sizes, n)
    decreases n
  {
    if m < n - 1 {
      BeforeGrows(sizes, m, n - 1);
    }
  }

  function OffsetOf(a: Alloc, o: nat): nat
    requires o in a.slots && a.slots[o].bin < |a.sizes|
  {
    BEGIN + Before(a.sizes, a.slots[o].bin) + a.slots[o].index
  }

  /** Every object of the heap has a slot. */
  ghost predicate Complete(h: Heap, a: Alloc) {
    Inv(h, a) && a.slots.Keys == h.objects.Keys
  }

  ghost function AllReps(h: Heap): set<nat> {
    set o | o in h.objects && Rep(h, o) == o
  }

  ghost function Below(h: Heap, s: set<nat>, n: nat): set<nat> {
    set o | o in s && o in h.objects && BinOf(h, o) < n
  }

  lemma {:induction false} BinsAddUp(h: Heap, sizes: seq<nat>, s: set<nat>, n: nat)
    requires n <= BIN_MIRROR_COUNT <= |sizes|
    requires forall b :: 0 <= b < n ==> sizes[b] == Total(Deltas(h), InBin(h, s, b))
    ensures Before(sizes, n) == Total(Deltas(h), Below(h, s, n))
  {
    hide BinOf, Total, Deltas;
    if n == 0 {
      TotalEmpty(Deltas(h));
      assert Below(h, s, 0) == {};
    } else {
      BinsAddUp(h, sizes, s, n - 1);
      assert Below(h, s, n) == Below(h, s, n - 1) + InBin(h, s, n - 1);
      TotalUnion(Deltas(h), Below(h, s, n - 1), InBin(h, s, n - 1));
    }
  }

  /** The image ends where the mirror bins end. */
  lemma EndIsSumOfBins(h: Heap, a: Alloc)
    requires WellFormed(h) && Complete(h, a)
    ensures a.end == BEGIN + Before(a.sizes, BIN_MIRROR_COUNT) == BEGIN + Total(Deltas(h), AllReps(h))
  {
    hide *;
    CompleteReps(h, a);
    BinsAccounted(h, a);
    BinsAddUp(h, a.sizes, AllReps(h), BIN_MIRROR_COUNT);
    AllBelow(h);
  }

  lemma CompleteReps(h: Heap, a: Alloc)
    requires Complete(h, a)
    ensures Reps(h, a) == AllReps(h) && |a.sizes| == BIN_SIZE > BIN_MIRROR_COUNT && a.slots.Keys == h.objects.Keys
  {
    hide Rep, Sharing, AllPlaced, AllApart, Accounted;
  }

  lemma AllBelow(h: Heap)
    ensures Below(h, AllReps(h), BIN_MIRROR_COUNT) == AllReps(h)
  {
    hide BinOf, Rep;
  }

  lemma BinsAccounted(h: Heap, a: Alloc)
    requires WellFormed(h) && Complete(h, a) && Reps(h, a) == AllReps(h)
    ensures BIN_MIRROR_COUNT < |a.sizes| && a.end == BEGIN + Total(Deltas(h), AllReps(h))
    ensures forall b :: 0 <= b < BIN_MIRROR_COUNT ==> a.sizes[b] == Total(Deltas(h), InBin(h, AllReps(h), b))
  {
    ArrayFacts(h);
    ArraysAreBinZero(h);
    hide WellFormed, Sharing, AllPlaced, AllApart, Total, Deltas, Reps, AllReps, InBin, Arrays, ArraysSize, Tiled;
  }

  lemma ArraysAreBinZero(h: Heap)
    requires WellFormed(h)
    ensures InBin(h, AllReps(h), BIN_DEX_CACHE_ARRAY) == Arrays(h).Keys
  {
    hide Arrays, BinOf, Closed, InternsConsistently, DistinctNatives;
    forall o | o in h.objects ensures o in Arrays(h) <==> BinOf(h, o) == BIN_DEX_CACHE_ARRAY {
      BinOfArray(h, o);
    }
  }

  /** Where an object ends up: aligned, after the header and inside the image. */
  lemma OffsetsInImage(h: Heap, a: Alloc, o: nat)
    requires WellFormed(h) && Complete(h, a) && o in h.objects
    ensures a.slots[o].bin < BIN_MIRROR_COUNT && Rep(h, o) in h.objects
    ensures OffsetOf(a, o) % OBJECT_ALIGNMENT == 0 && BEGIN <= OffsetOf(a, o)
    ensures OffsetOf(a, o) + Delta(h, Rep(h, o)) <= a.end
    ensures OffsetOf(a, o) == OffsetOf(a, Rep(h, o))
  {
    hide *;
    EndIsSumOfBins(h, a);
    SlotFacts(h, a, o);
    SlotFacts(h, a, Rep(h, o));
    var s := a.slots[o];
    BeforeGrows(a.sizes, s.bin, BIN_MIRROR_COUNT);
    BeforeAligned(a.sizes, s.bin);
    OffsetAligned(a, o);
    OffsetSame(a, o, Rep(h, o));
  }

  lemma OffsetAligned(a: Alloc, o: nat)
    requires o in a.slots && a.slots[o].bin < |a.sizes|
    requires a.slots[o].index % OBJECT_ALIGNMENT == 0 && Before(a.sizes, a.slots[o].bin) % OBJECT_ALIGNMENT == 0
    ensures OffsetOf(a, o) % OBJECT_ALIGNMENT == 0
    ensures OffsetOf(a, o) == BEGIN + Before(a.sizes, a.slots[o].bin) + a.slots[o].index
  {
    hide Before;
  }

  lemma OffsetSame(a: Alloc, o: nat, p: nat)
    requires o in a.slots && a.slots[o].bin < |a.sizes| && p in a.slots && a.slots[p] == a.slots[o]
    ensures OffsetOf(a, o) == OffsetOf(a, p)
  {
  }

  lemma SlotFacts(h: Heap, a: Alloc, o: nat)
    requires WellFormed(h) && Complete(h, a) && o in h.objects
    ensures |a.sizes| == BIN_SIZE > BIN_MIRROR_COUNT &&
            (forall b :: 0 <= b < BIN_MIRROR_COUNT ==> a.sizes[b] % OBJECT_ALIGNMENT == 0)
    ensures Rep(h, o) in h.objects && Rep(h, Rep(h, o)) == Rep(h, o)
    ensures o in a.slots && Rep(h, o) in a.slots && a.slots[o] == a.slots[Rep(h, o)]
    ensures var s := a.slots[o];
            s.bin < BIN_MIRROR_COUNT && s.index % OBJECT_ALIGNMENT == 0 &&
            s.index + Delta(h, Rep(h, o)) <= a.sizes[s.bin]
  {
    RepIsFixed(h, o);
    hide BinOf, Rep, Delta, Arrays, WellFormed, AllApart, Accounted;
    assert Placed(h, a, Rep(h, o));
  }

  lemma RepIsFixed(h: Heap, o: nat)
    requires WellFormed(h) && o in h.objects
    ensures Rep(h, o) in h.objects && Rep(h, Rep(h, o)) == Rep(h, o)
  {
    hide Closed, ArraysFit, DistinctNatives, SameString;
  }

  lemma {:induction false} BeforeAligned(sizes: seq<nat>, n: nat)
    requires n <= |sizes| && forall b :: 0 <= b < n ==> sizes[b] % OBJECT_ALIGNMENT == 0
    ensures Before(sizes, n) % OBJECT_ALIGNMENT == 0
  {
    if n > 0 {
      BeforeAligned(sizes, n - 1);
    }
  }

  /** Objects share an offset exactly when they are duplicates of one string; all others are disjoint. */
  lemma OffsetsApart(h: Heap, a: Alloc, o: nat, p: nat)
    requires WellFormed(h) && Complete(h, a) && o in h.objects && p in h.objects
    ensures a.slots[o].bin < BIN_MIRROR_COUNT && a.slots[p].bin < BIN_MIRROR_COUNT
    ensures Rep(h, o) == Rep(h, p) ==> OffsetOf(a, o) == OffsetOf(a, p)
    ensures Rep(h, o) in h.objects && Rep(h, p) in h.objects
    ensures Rep(h, o) != Rep(h, p) ==>
      OffsetOf(a, o) + Delta(h, Rep(h, o)) <= OffsetOf(a, p) || OffsetOf(a, p) + Delta(h, Rep(h, p)) <= OffsetOf(a, o)
  {
    hide *;
    SlotFacts(h, a, o);
    SlotFacts(h, a, p);
    if Rep(h, o) == Rep(h, p) {
      OffsetSame(a, o, p);
    } else {
      RepsApart(h, a, Rep(h, o), Rep(h, p));
      OffsetsOfApartSlots(a, o, Delta(h, Rep(h, o)), p, Delta(h, Rep(h, p)));
    }
  }

  lemma RepsApart(h: Heap, a: Alloc, r: nat, t: nat)
    requires Complete(h, a) && r in h.objects && t in h.objects && r != t && Rep(h, r) == r && Rep(h, t) == t
    ensures SlotsApart(a.slots[r], Delta(h, r), a.slots[t], Delta(h, t))
  {
    hide Rep, Delta, Sharing, AllPlaced, Accounted, SlotsApart;
  }

  lemma OffsetsOfApartSlots(a: Alloc, o: nat, d: nat, p: nat, e: nat)
    requires o in a.slots && p in a.slots && a.slots[o].bin < |a.sizes| && a.slots[p].bin < |a.sizes|
    requires a.slots[o].index + d <= a.sizes[a.slots[o].bin] && a.slots[p].index + e <= a.sizes[a.slots[p].bin]
    requires SlotsApart(a.slots[o], d, a.slots[p], e)
    ensures OffsetOf(a, o) + d <= OffsetOf(a, p) || OffsetOf(a, p) + e <= OffsetOf(a, o)
  {
    hide Before;
    var b, c := a.slots[o].bin, a.slots[p].bin;
    if b < c {
      BeforeGrows(a.sizes, b, c);
    } else if c < b {
      BeforeGrows(a.sizes, c, b);
    }
  }

  /** Where a native record ends up. */
  function RecordOffset(a: Alloc, n: nat): nat
    requires n in a.reloc && a.reloc[n].bin < |a.sizes|
  {
    BEGIN + Before(a.sizes, a.reloc[n].bin) + a.reloc[n].offset
  }

  /** Native records follow all objects and are disjoint. */
  lemma RecordsFollowObjects(h: Heap, a: Alloc, n: nat, m: nat)
    requires WellFormed(h) && Complete(h, a) && NativesPlaced(h, a) && n in a.reloc && m in a.reloc && n != m
    ensures a.end <= RecordOffset(a, n) &&
            RecordOffset(a, n) + RecordSize(h, a.reloc[n].bin) <= BEGIN + Before(a.sizes, BIN_SIZE)
    ensures RecordOffset(a, n) + RecordSize(h, a.reloc[n].bin) <= RecordOffset(a, m) ||
            RecordOffset(a, m) + RecordSize(h, a.reloc[m].bin) <= RecordOffset(a, n)
  {
    EndIsSumOfBins(h, a);
    hide Complete, WellFormed, Before, RecordSize, Total, Deltas;
    var b, c := a.reloc[n].bin, a.reloc[m].bin;
    assert RecordsApart(h, a.reloc[n], a.reloc[m]);
    BeforeGrows(a.sizes, b, BIN_SIZE);
    if BIN_MIRROR_COUNT < b {
      BeforeGrows(a.sizes, BIN_MIRROR_COUNT, b);
    }
    if b < c {
      BeforeGrows(a.sizes, b, c);
    } else if c < b {
      BeforeGrows(a.sizes, c, b);
    }
  }

  lemma ArrayAtPreparedOffset(h: Heap, a: Alloc, x: nat)
    requires WellFormed(h) && Complete(h, a) && x in Arrays(h)
    ensures x in a.slots && a.slots[x].bin < |a.sizes| && OffsetOf(a, x) == BEGIN + Arrays(h)[x].offset
  {
    ArrayIsOwnRep(h, x);
    BinOfArray(h, x);
    hide WellFormed, Arrays, BinOf, Rep, Delta, Sharing, AllApart, Accounted;
    assert Placed(h, a, x);
  }

  /**
   * The arrays of dex cache `k` lie where compiled code expects them: one after the other, at fixed
   * distances from the start registered for the dex file.
   */
  lemma DexCacheArraysAtFixedOffsets(h: Heap, a: Alloc, k: nat)
    requires WellFormed(h) && Complete(h, a) && k < |h.dexCaches|
    ensures var c, start := h.dexCaches[k], BEGIN + PrepareUpTo(h.ptrSize, h.dexCaches, k).size;
            var types, methods, strings :=
              ArraySize(4, c.numTypes), ArraySize(h.ptrSize, c.numMethods), ArraySize(4, c.numStrings);
            LiesAt(a, c.types, start) && LiesAt(a, c.methods, start + types) &&
            LiesAt(a, c.strings, start + types + methods) && LiesAt(a, c.fields, start + types + methods + strings)
  {
    hide *;
    ArraysAreDistinct(h);
    ArraysOfCache(h.ptrSize, h.dexCaches, k);
    var c := h.dexCaches[k];
    ArrayLiesAt(h, a, c.types);
    ArrayLiesAt(h, a, c.methods);
    ArrayLiesAt(h, a, c.strings);
    ArrayLiesAt(h, a, c.fields);
  }

  predicate LiesAt(a: Alloc, x: nat, offset: nat) {
    x in a.slots && a.slots[x].bin < |a.sizes| && OffsetOf(a, x) == offset
  }

  lemma ArrayLiesAt(h: Heap, a: Alloc, x: nat)
    requires WellFormed(h) && Complete(h, a) && x in PrepareUpTo(h.ptrSize, h.dexCaches, |h.dexCaches|).arrays
    ensures LiesAt(a, x, BEGIN + PrepareUpTo(h.ptrSize, h.dexCaches, |h.dexCaches|).arrays[x].offset)
  {
    hide WellFormed, Complete, PrepareUpTo, OffsetOf;
    ArrayAtPreparedOffset(h, a, x);
  }

  lemma ArraysAreDistinct(h: Heap)
    requires WellFormed(h)
    ensures DistinctArrays(h.dexCaches)
  {
    hide Closed, InternsConsistently, DistinctNatives, DistinctArrays, Arrays;
  }

  lemma ArrayIsOwnRep(h: Heap, x: nat)
    requires WellFormed(h) && x in Arrays(h)
    ensures x in h.objects && Rep(h, x) == x
  {
    hide Closed, InternsConsistently, DistinctNatives, Arrays;
  }
}
