/** What the heap walk of the image writer keeps and how its states grow, on values. */
module ImageWalk {
  import opened Arith
  import opened Words
  import opened Totals
  import opened ImageHeap
  import opened BinSlots
  import opened ImageAlloc

  /** Every mirror bin fits the bits of a slot's index. */
  ghost predicate Fits(h: Heap) {
    forall b :: 0 <= b < BIN_MIRROR_COUNT ==> Total(Deltas(h), InBin(h, AllReps(h), b)) <= BIN_SPAN
  }

  ghost predicate WalkState(h: Heap, a: Alloc) {
    Inv(h, a) && NativesPlaced(h, a) && NativesFresh(h, a)
  }

  lemma InvSize(h: Heap, a: Alloc)
    requires Inv(h, a)
    ensures |a.sizes| == BIN_SIZE
  {
  }

  /** The bound on a bin that keeps its indexes inside the index bits. */
  lemma BinFits(h: Heap, a: Alloc, b: nat)
    requires WellFormed(h) && Fits(h) && Inv(h, a) && b < BIN_MIRROR_COUNT
    ensures a.sizes[b] <= BIN_SPAN
  {
    if b == BIN_DEX_CACHE_ARRAY {
      ArrayFacts(h);
      ArraysAreBinZero(h);
    }
    hide Total, Deltas, Rep, BinOf, Arrays, ArraysSize, AllPlaced, AllApart, Sharing, WellFormed;
    assert Total(Deltas(h), InBin(h, AllReps(h), b)) <= BIN_SPAN;
    if b != BIN_DEX_CACHE_ARRAY {
      TotalSubset(Deltas(h), InBin(h, Reps(h, a), b), InBin(h, AllReps(h), b));
    }
  }

  /** Seven bins of that size keep the image far below 4 GiB. */
  lemma SmallImage(h: Heap)
    requires Fits(h)
    ensures BEGIN + Total(Deltas(h), AllReps(h)) < WORD
  {
    hide Total, Deltas, AllReps, InBin, Below;
    var sizes: seq<nat> := seq(BIN_MIRROR_COUNT, (b: nat) => Total(Deltas(h), InBin(h, AllReps(h), b)));
    BinsAddUp(h, sizes, AllReps(h), BIN_MIRROR_COUNT);
    AllBelow(h);
    BeforeAtMost(sizes, BIN_MIRROR_COUNT, BIN_SPAN);
  }

  lemma {:induction false} BeforeAtMost(sizes: seq<nat>, n: nat, bound: nat)
    requires n <= |sizes| && forall b :: 0 <= b < n ==> sizes[b] <= bound
    ensures Before(sizes, n) <= n * bound
  {
    if n > 0 {
      BeforeAtMost(sizes, n - 1, bound);
      assert n * bound == (n - 1) * bound + bound;
    }
  }

  /** Every slot that is handed out can be stored in a lock word. */
  lemma NewSlotFits(h: Heap, a: Alloc, o: nat)
    requires WellFormed(h) && Fits(h) && Inv(h, a) && o in h.objects && o !in a.slots && Rep(h, o) == o
    ensures var s := Assign(h, a, o).slots[o];
            s.bin < 8 && s.index < BIN_SPAN && s.index % 4 == 0
  {
    hide *;
    InvSize(h, a);
    AssignKeepsInv(h, a, o);
    var b := Assign(h, a, o);
    SlotsOfInv(h, a, o);
    BinFits(h, b, b.slots[o].bin);
    FourDividesEight(b.slots[o].index);
  }

  lemma FourDividesEight(x: nat)
    requires x % OBJECT_ALIGNMENT == 0
    ensures x % 4 == 0
  {
  }

  lemma SlotsOfInv(h: Heap, a: Alloc, o: nat)
    requires WellFormed(h) && Inv(h, a) && o in h.objects && o !in a.slots && Rep(h, o) == o && Inv(h, Assign(h, a, o))
    ensures var b := Assign(h, a, o);
            o in b.slots && b.slots[o].bin < BIN_MIRROR_COUNT < 8 && b.slots[o].bin < |b.sizes| &&
            b.slots[o].index % OBJECT_ALIGNMENT == 0 && b.slots[o].index < b.sizes[b.slots[o].bin]
  {
    OwnPlace(h, a, o);
    DeltaPositive(h, o);
    hide WellFormed, Inv, BinOf, Delta, Arrays;
  }

  lemma DeltaPositive(h: Heap, o: nat)
    requires WellFormed(h) && o in h.objects
    ensures |h.objects[o].bytes| <= Delta(h, o) && Delta(h, o) > 0
  {
    ArrayFacts(h);
    hide InternsConsistently, DistinctNatives, Arrays, ArraysSize, Total;
    assert GoodObject(h.ptrSize, h.objects[o]);
  }

  lemma AssignKeepsWalk(h: Heap, a: Alloc, o: nat)
    requires WellFormed(h) && WalkState(h, a) && o in h.objects && o !in a.slots && Rep(h, o) == o
    ensures WalkState(h, Assign(h, a, o))
  {
    AssignKeepsInv(h, a, o);
    SlotsAfter(h, a, o);
    AssignKeepsNatives(h, a, o);
    hide WellFormed, Inv, NativesPlaced, Rep, Assign, NativesOf;
  }

  lemma AssignKeepsNatives(h: Heap, a: Alloc, o: nat)
    requires Shaped(h, a) && NativesPlaced(h, a) && o in h.objects
    ensures NativesPlaced(h, Assign(h, a, o)) && Assign(h, a, o).reloc == a.reloc
  {
    hide BinOf, Delta, Arrays, RecordSize, BinBytes;
    SameRecordSets(a, Assign(h, a, o));
  }

  lemma SameRecordSets(a: Alloc, b: Alloc)
    requires a.reloc == b.reloc
    ensures forall c :: RecordsIn(a, c) == RecordsIn(b, c)
  {
  }

  lemma ShareKeepsWalk(h: Heap, a: Alloc, o: nat)
    requires WellFormed(h) && WalkState(h, a) && o in h.objects && o !in a.slots
    requires Rep(h, o) != o && Rep(h, o) in a.slots
    ensures WalkState(h, Share(h, a, o))
  {
    hide WellFormed, Inv, Rep, NativesPlaced, NativesFresh;
    RepIsFixed(h, o);
    ShareKeepsInv(h, a, o);
    InvSize(h, a);
    SameRecords(h, a, Share(h, a, o));
  }

  /** More slots leave the placed records as they are. */
  lemma SameRecords(h: Heap, a: Alloc, b: Alloc)
    requires NativesPlaced(h, a) && NativesFresh(h, a)
    requires b.sizes == a.sizes && b.reloc == a.reloc && a.slots.Keys <= b.slots.Keys
    ensures NativesPlaced(h, b) && NativesFresh(h, b)
  {
    hide NativesOf, RecordSize, BinBytes;
    SameRecordSets(a, b);
  }

  // ---------------------------------------------------------------- how states grow

  /** Slots and records are never moved, and objects that had a slot get no further records. */
  ghost predicate Grows(h: Heap, a: Alloc, b: Alloc) {
    (forall o :: o in a.slots ==> o in b.slots && b.slots[o] == a.slots[o]) &&
    (forall n :: n in a.reloc ==> n in b.reloc && b.reloc[n] == a.reloc[n]) &&
    (forall o, n :: o in a.slots && o in h.objects && n in NativesOf(h.objects[o]) && n in b.reloc ==> n in a.reloc)
  }

  /** All records of objects that got their slot between `a` and `b` have a place in `b`. */
  ghost predicate Finished(h: Heap, a: Alloc, b: Alloc) {
    forall o, n :: o in b.slots && o !in a.slots && o in h.objects && n in NativesOf(h.objects[o]) ==> n in b.reloc
  }

  lemma GrowsTransitive(h: Heap, a: Alloc, b: Alloc, c: Alloc)
    requires Grows(h, a, b) && Grows(h, b, c)
    ensures Grows(h, a, c)
    ensures Finished(h, a, b) && Finished(h, b, c) ==> Finished(h, a, c)
  {
    hide NativesOf;
  }

  lemma GrowsReflexive(h: Heap, a: Alloc)
    ensures Grows(h, a, a) && Finished(h, a, a)
  {
  }

  // ---------------------------------------------------------------- the records of a class

  function AddAll(h: Heap, a: Alloc, ns: seq<nat>, bin: nat): (b: Alloc)
    requires |a.sizes| == BIN_SIZE && bin < BIN_SIZE
    ensures |b.sizes| == BIN_SIZE
  {
    if ns == [] then a else AddNative(h, AddAll(h, a, ns[..|ns| - 1], bin), ns[|ns| - 1], bin)
  }

  /** The records `ns` got a place, and nothing else changed. */
  ghost predicate Added(a: Alloc, b: Alloc, ns: seq<nat>) {
    b.slots == a.slots && b.reloc.Keys == a.reloc.Keys + (set n | n in ns) &&
    (forall n :: n in a.reloc ==> b.reloc[n] == a.reloc[n])
  }

  lemma AddedBoth(a: Alloc, b: Alloc, c: Alloc, x: seq<nat>, y: seq<nat>)
    requires Added(a, b, x) && Added(b, c, y)
    ensures Added(a, c, x + y)
  {
  }

  /** Placing fresh records adds exactly those records and keeps the invariant. */
  lemma {:induction false} AddAllKeeps(h: Heap, a: Alloc, ns: seq<nat>, bin: nat)
    requires Inv(h, a) && NativesPlaced(h, a) && NativeBin(bin) && bin < BIN_SIZE && NoRepeats(ns)
    requires forall n :: n in ns ==> n !in a.reloc
    ensures var b := AddAll(h, a, ns, bin);
            Inv(h, b) && NativesPlaced(h, b) && b.end == a.end && Added(a, b, ns)
    decreases |ns|
  {
    hide Inv, NativesPlaced, NativeBin, Added, NoRepeats, AddNative;
    InvSize(h, a);
    if ns == [] {
      AddedNothing(a);
    } else {
      var k := |ns| - 1;
      PrefixHasNoRepeats(ns, k);
      AddAllKeeps(h, a, ns[..k], bin);
      var b := AddAll(h, a, ns[..k], bin);
      NextIsFresh(a, b, ns, k);
      AddNativeKeepsInv(h, b, ns[k], bin);
      AddNativeKeepsPlaced(h, b, ns[k], bin);
      AddedOne(h, b, ns[k], bin);
      AddedBoth(a, b, AddNative(h, b, ns[k], bin), ns[..k], [ns[k]]);
      assert ns == ns[..k] + [ns[k]];
    }
  }

  lemma PrefixHasNoRepeats(ns: seq<nat>, k: nat)
    requires k < |ns| && NoRepeats(ns)
    ensures NoRepeats(ns[..k]) && ns[k] !in ns[..k]
  {
  }

  lemma NextIsFresh(a: Alloc, b: Alloc, ns: seq<nat>, k: nat)
    requires k < |ns| && Added(a, b, ns[..k]) && ns[k] !in ns[..k] && ns[k] !in a.reloc
    ensures ns[k] !in b.reloc
  {
  }

  lemma AddedOne(h: Heap, a: Alloc, n: nat, bin: nat)
    requires |a.sizes| == BIN_SIZE && bin < BIN_SIZE && n !in a.reloc
    ensures Added(a, AddNative(h, a, n, bin), [n]) && AddNative(h, a, n, bin).end == a.end
  {
  }

  function MethodBin(ms: seq<ArtMethod>): nat {
    if exists i :: 0 <= i < |ms| && WillMethodBeDirty(ms[i]) then BIN_ART_METHOD_DIRTY else BIN_ART_METHOD_CLEAN
  }

  function AddRecords(h: Heap, a: Alloc, o: nat): (b: Alloc)
    requires |a.sizes| == BIN_SIZE && o in h.objects
    ensures |b.sizes| == BIN_SIZE
  {
    match h.objects[o].kind
    case ClassObject(_, _, fields, direct, virtuals) =>
      var b := AddAll(h, a, fields, BIN_ART_FIELD);
      var c := AddAll(h, b, Ids(direct), MethodBin(direct));
      AddAll(h, c, Ids(virtuals), MethodBin(virtuals))
    case _ => a
  }

  lemma AddRecordsKeeps(h: Heap, a: Alloc, o: nat)
    requires Inv(h, a) && NativesPlaced(h, a) && |a.sizes| == BIN_SIZE && o in h.objects &&
             NoRepeats(NativesOf(h.objects[o]))
    requires forall n :: n in NativesOf(h.objects[o]) ==> n !in a.reloc
    ensures var b := AddRecords(h, a, o);
            Inv(h, b) && NativesPlaced(h, b) && OwnRecordsAdded(h, a, b, o)
  {
    hide Inv, NativesPlaced, AddAll, Added, NoRepeats;
    if h.objects[o].kind.ClassObject? {
      var k := h.objects[o].kind;
      AddThree(h, a, k.fields, Ids(k.direct), Ids(k.virtuals), MethodBin(k.direct), MethodBin(k.virtuals));
    } else {
      AddedNothing(a);
    }
  }

  lemma AddedNothing(a: Alloc)
    ensures Added(a, a, [])
  {
  }

  lemma AddThree(h: Heap, a: Alloc, x: seq<nat>, y: seq<nat>, z: seq<nat>, directBin: nat, virtualBin: nat)
    requires Inv(h, a) && NativesPlaced(h, a) && |a.sizes| == BIN_SIZE && NoRepeats(x + y + z)
    requires NativeBin(directBin) && NativeBin(virtualBin)
    requires forall n :: n in x + y + z ==> n !in a.reloc
    ensures var b := AddAll(h, a, x, BIN_ART_FIELD);
            var c := AddAll(h, b, y, directBin);
            var d := AddAll(h, c, z, virtualBin);
            Inv(h, d) && NativesPlaced(h, d) && Added(a, d, x + y + z)
  {
    hide Inv, NativesPlaced, AddAll, NoRepeats;
    SplitRecords(x, y, z);
    AddAllKeeps(h, a, x, BIN_ART_FIELD);
    var b := AddAll(h, a, x, BIN_ART_FIELD);
    AddAllKeeps(h, b, y, directBin);
    var c := AddAll(h, b, y, directBin);
    AddAllKeeps(h, c, z, virtualBin);
    AddedBoth(a, b, c, x, y);
    AddedBoth(a, c, AddAll(h, c, z, virtualBin), x + y, z);
  }

  lemma SplitRecords(x: seq<nat>, y: seq<nat>, z: seq<nat>)
    requires NoRepeats(x + y + z)
    ensures NoRepeats(x) && NoRepeats(y) && NoRepeats(z)
    ensures forall n :: n in y ==> n !in x
    ensures forall n :: n in z ==> n !in x && n !in y
    ensures forall n :: n in x + y + z <==> n in x || n in y || n in z
  {
    var s := x + y + z;
    assert forall i :: 0 <= i < |x| ==> s[i] == x[i];
    assert forall i :: 0 <= i < |y| ==> s[|x| + i] == y[i];
    assert forall i :: 0 <= i < |z| ==> s[|x| + |y| + i] == z[i];
  }

  /**
   * One visit of the walk: `a1` is the state right after the slots of `o` were assigned, `a2` the
   * state after its children were walked.
   */
  lemma VisitKeeps(h: Heap, a0: Alloc, a1: Alloc, a2: Alloc, o: nat)
    requires WellFormed(h) && WalkState(h, a0) && WalkState(h, a2)
    requires o in h.objects && o !in a0.slots && o in a1.slots && a1.reloc == a0.reloc
    requires forall p :: p in a0.slots ==> p in a1.slots && a1.slots[p] == a0.slots[p]
    requires forall p :: p in a1.slots && p !in a0.slots ==>
               p == o || (p in h.objects && h.objects[p].kind.StringObject?)
    requires Grows(h, a1, a2) && Finished(h, a1, a2)
    ensures var a3 := AddRecords(h, a2, o);
            WalkState(h, a3) && Grows(h, a0, a3) && Finished(h, a0, a3) && o in a3.slots && a3.slots == a2.slots
  {
    hide *;
    UnfoldWalk(h, a0);
    UnfoldWalk(h, a2);
    FreshForVisit(h, a0, a1, a2, o);
    AddRecordsKeeps(h, a2, o);
    RecordsAreOwn(h, o);
    var a3 := AddRecords(h, a2, o);
    SlotKept(h, a1, a2, o);
    assert a3.slots == a2.slots by { AddRecordsSlots(h, a2, a3, o); }
    VisitGrows(h, a0, a1, a2, a3, o);
    VisitFinishes(h, a0, a1, a2, a3, o);
    VisitKeepsFresh(h, a2, a3, o);
    FoldWalk(h, a3);
  }

  lemma UnfoldWalk(h: Heap, a: Alloc)
    requires WalkState(h, a)
    ensures Inv(h, a) && NativesPlaced(h, a) && NativesFresh(h, a) && |a.sizes| == BIN_SIZE
  {
  }

  lemma FoldWalk(h: Heap, a: Alloc)
    requires Inv(h, a) && NativesPlaced(h, a) && NativesFresh(h, a)
    ensures WalkState(h, a)
  {
  }

  lemma SlotKept(h: Heap, a: Alloc, b: Alloc, o: nat)
    requires Grows(h, a, b) && o in a.slots
    ensures o in b.slots
  {
  }

  ghost predicate OwnRecordsAdded(h: Heap, a: Alloc, b: Alloc, o: nat)
    requires o in h.objects
  {
    Added(a, b, NativesOf(h.objects[o]))
  }

  lemma AddRecordsSlots(h: Heap, a: Alloc, b: Alloc, o: nat)
    requires o in h.objects && OwnRecordsAdded(h, a, b, o)
    ensures b.slots == a.slots
  {
  }

  lemma VisitGrows(h: Heap, a0: Alloc, a1: Alloc, a2: Alloc, a3: Alloc, o: nat)
    requires o in h.objects && o !in a0.slots && a1.reloc == a0.reloc
    requires forall p :: p in a0.slots ==> p in a1.slots && a1.slots[p] == a0.slots[p]
    requires Grows(h, a1, a2) && OwnRecordsAdded(h, a2, a3, o)
    requires forall p, n :: p in h.objects && p != o && n in NativesOf(h.objects[p]) ==> n !in NativesOf(h.objects[o])
    ensures Grows(h, a0, a3)
  {
    hide NativesOf;
  }

  lemma VisitFinishes(h: Heap, a0: Alloc, a1: Alloc, a2: Alloc, a3: Alloc, o: nat)
    requires o in h.objects && OwnRecordsAdded(h, a2, a3, o) && Finished(h, a1, a2)
    requires forall p :: p in a1.slots && p !in a0.slots ==>
               p == o || (p in h.objects && h.objects[p].kind.StringObject?)
    ensures Finished(h, a0, a3)
  {
    forall p, n | p in a3.slots && p !in a0.slots && p in h.objects && n in NativesOf(h.objects[p])
      ensures n in a3.reloc {
      if p !in a1.slots {
        assert n in a2.reloc;
      } else if p != o {
        StringsHaveNone(h.objects[p]);
      }
    }
  }

  lemma VisitKeepsFresh(h: Heap, a2: Alloc, a3: Alloc, o: nat)
    requires o in h.objects && o in a2.slots && OwnRecordsAdded(h, a2, a3, o) && NativesFresh(h, a2)
    requires forall p, n :: p in h.objects && p != o && n in NativesOf(h.objects[p]) ==> n !in NativesOf(h.objects[o])
    requires forall n :: n in NativesOf(h.objects[o]) ==> n !in h.runtimeMethods
    ensures NativesFresh(h, a3)
  {
    hide NativesOf;
  }

  lemma StringsHaveNone(o: Object)
    requires o.kind.StringObject?
    ensures NativesOf(o) == []
  {
  }

  lemma FreshForVisit(h: Heap, a0: Alloc, a1: Alloc, a2: Alloc, o: nat)
    requires NativesFresh(h, a0) && o in h.objects && o !in a0.slots && o in a1.slots && a1.reloc == a0.reloc
    requires Grows(h, a1, a2) && WellFormed(h)
    ensures NoRepeats(NativesOf(h.objects[o]))
    ensures forall n :: n in NativesOf(h.objects[o]) ==> n !in a2.reloc
  {
    hide NativesOf, Closed, InternsConsistently, ArraysFit;
  }

  /** No other object, and no runtime method, owns a record of `o`. */
  lemma RecordsAreOwn(h: Heap, o: nat)
    requires WellFormed(h) && o in h.objects
    ensures forall p, n :: p in h.objects && p != o && n in NativesOf(h.objects[p]) ==> n !in NativesOf(h.objects[o])
    ensures forall n :: n in NativesOf(h.objects[o]) ==> n !in h.runtimeMethods
  {
    hide NativesOf, Closed, InternsConsistently, ArraysFit;
  }

  // ---------------------------------------------------------------- placing one object

  /** A string goes to the slot of its interned twin, which is assigned first if need be. */
  function Place(h: Heap, a: Alloc, o: nat): Alloc
    requires o in h.objects && Rep(h, o) in h.objects && |a.sizes| == BIN_SIZE
  {
    if Rep(h, o) == o then Assign(h, a, o)
    else if Rep(h, o) in a.slots then Share(h, a, o)
    else Share(h, Assign(h, a, Rep(h, o)), o)
  }

  lemma PlaceKeeps(h: Heap, a: Alloc, o: nat)
    requires WellFormed(h) && WalkState(h, a) && o in h.objects && o !in a.slots
    ensures Rep(h, o) in h.objects && |a.sizes| == BIN_SIZE
    ensures var b := Place(h, a, o);
            WalkState(h, b) && b.reloc == a.reloc && b.slots.Keys == a.slots.Keys + {o, Rep(h, o)} &&
            (forall p :: p in a.slots ==> b.slots[p] == a.slots[p])
    ensures Rep(h, o) != o ==> h.objects[Rep(h, o)].kind.StringObject?
  {
    hide *;
    UnfoldWalk(h, a);
    RepIsFixed(h, o);
    var r := Rep(h, o);
    PlaceCases(h, a, o);
    if r == o {
      AssignKeepsWalk(h, a, o);
      AssignChanges(h, a, o);
    } else {
      TwinIsString(h, o);
      if r in a.slots {
        ShareKeepsWalk(h, a, o);
        ShareChanges(h, a, o);
      } else {
        AssignKeepsWalk(h, a, r);
        AssignChanges(h, a, r);
        ShareKeepsWalk(h, Assign(h, a, r), o);
        ShareChanges(h, Assign(h, a, r), o);
      }
    }
  }

  lemma PlaceCases(h: Heap, a: Alloc, o: nat)
    requires o in h.objects && Rep(h, o) in h.objects && |a.sizes| == BIN_SIZE
    ensures Rep(h, o) == o ==> Place(h, a, o) == Assign(h, a, o)
    ensures Rep(h, o) != o && Rep(h, o) in a.slots ==> Place(h, a, o) == Share(h, a, o)
    ensures Rep(h, o) != o && Rep(h, o) !in a.slots ==>
      Rep(h, o) in Assign(h, a, Rep(h, o)).slots && Place(h, a, o) == Share(h, Assign(h, a, Rep(h, o)), o)
  {
    hide Arrays, BinOf, Delta, Rep;
  }

  lemma AssignChanges(h: Heap, a: Alloc, o: nat)
    requires o in h.objects && |a.sizes| == BIN_SIZE
    ensures var b := Assign(h, a, o);
            b.reloc == a.reloc && b.slots.Keys == a.slots.Keys + {o} && |b.sizes| == BIN_SIZE &&
            (forall p :: p in a.slots && p != o ==> b.slots[p] == a.slots[p])
  {
    hide Arrays, BinOf, Delta;
  }

  lemma ShareChanges(h: Heap, a: Alloc, o: nat)
    requires o in h.objects && Rep(h, o) in a.slots
    ensures var b := Share(h, a, o);
            b.reloc == a.reloc && b.slots.Keys == a.slots.Keys + {o} &&
            (forall p :: p in a.slots && p != o ==> b.slots[p] == a.slots[p])
  {
    hide Rep;
  }

  lemma TwinIsString(h: Heap, o: nat)
    requires WellFormed(h) && o in h.objects && Rep(h, o) != o
    ensures h.objects[o].kind.StringObject? && Rep(h, o) in h.objects && h.objects[Rep(h, o)].kind.StringObject?
  {
    hide Closed, ArraysFit, DistinctNatives;
    assert SameString(h.objects[o], h.objects[h.interned[o]]);
  }
}
