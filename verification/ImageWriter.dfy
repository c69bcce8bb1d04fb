/** The image writer: heap walk, bin slots in lock words, final offsets. */
module ImageWriters {
  import opened Arith
  import opened Words
  import opened Totals
  import opened ImageHeap
  import opened BinSlots
  import opened ImageAlloc
  import opened ImageWalk
  import opened ImageCopy

  const HASH_STATE := 0x8000_0000

  /** Lock words of objects without a slot are untouched; hash codes of the others are saved. */
  ghost predicate LockState(h: Heap, lock: map<nat, uint32>, saved: map<nat, nat>) {
    lock.Keys == h.objects.Keys &&
    (forall o :: o in lock && !IsForwarding(lock[o]) ==> lock[o] == h.objects[o].lockWord && o !in saved) &&
    (forall o :: o in lock && IsForwarding(lock[o]) ==> (o in saved <==> h.objects[o].lockWord != 0)) &&
    (forall o :: o in saved ==> o in lock && HASH_STATE + saved[o] == h.objects[o].lockWord)
  }

  lemma SetLockKeepsState(h: Heap, lock: map<nat, uint32>, saved: map<nat, nat>, o: nat, word: uint32)
    requires LockState(h, lock, saved) && o in lock && !IsForwarding(lock[o]) && IsForwarding(word)
    requires Deflated(lock[o])
    ensures LockState(h, lock[o := word], if lock[o] == 0 then saved else saved[o := lock[o] - HASH_STATE])
  {
    hide IsForwarding;
  }

  lemma AssignedIsInSlots(lock: map<nat, uint32>, o: nat)
    requires o in lock
    ensures o in SlotsIn(lock) <==> IsForwarding(lock[o])
    ensures o in SlotsIn(lock) ==> SlotsIn(lock)[o] == Unpacked(ForwardingAddress(lock[o]))
  {
  }

  /** Before any slot is given out. */
  function Initial(h: Heap): Alloc {
    Alloc(map[], [ArraysSize(h), 0, 0, 0, 0, 0, 0, 0, 0, 0], BEGIN, map[])
  }

  lemma InitialState(h: Heap)
    requires WellFormed(h)
    ensures WalkState(h, Initial(h))
  {
    hide WellFormed, WalkState, Total, Deltas, Arrays, ArraysSize, Tiled;
    ArrayFacts(h);
    TiledSize(h);
    EmptyState(h, Initial(h));
  }

  lemma EmptyState(h: Heap, a: Alloc)
    requires a.slots == map[] && a.reloc == map[] && a.end == BEGIN && |a.sizes| == BIN_SIZE
    requires a.sizes[BIN_DEX_CACHE_ARRAY] == ArraysSize(h) && ArraysSize(h) % OBJECT_ALIGNMENT == 0
    requires forall b :: 1 <= b < BIN_SIZE ==> a.sizes[b] == 0
    ensures WalkState(h, a)
  {
    hide Total, Deltas, Arrays, ArraysSize, NativesOf, BinOf, Rep, Delta, BinBytes;
    NothingTotals(h, a);
    forall b | BIN_ART_FIELD <= b < BIN_SIZE ensures a.sizes[b] == BinBytes(h, b, |RecordsIn(a, b)|) {
      assert RecordsIn(a, b) == {};
      BinBytesStep(h, b, 0);
    }
    assert Shaped(h, a);
  }

  lemma TiledSize(h: Heap)
    requires Tiled(Prepared(Arrays(h), ArraysSize(h)))
    ensures ArraysSize(h) % OBJECT_ALIGNMENT == 0
  {
    hide Arrays, ArraysSize;
  }

  lemma NothingTotals(h: Heap, a: Alloc)
    requires a.slots == map[]
    ensures Total(Deltas(h), Reps(h, a)) == 0
    ensures forall b :: 1 <= b < BIN_MIRROR_COUNT ==> Total(Deltas(h), InBin(h, Reps(h, a), b)) == 0
  {
    hide Total, Deltas, BinOf, Rep;
    TotalEmpty(Deltas(h));
    assert Reps(h, a) == {};
    forall b | 1 <= b < BIN_MIRROR_COUNT ensures Total(Deltas(h), InBin(h, Reps(h, a), b)) == 0 {
      assert InBin(h, Reps(h, a), b) == {};
    }
  }

  function InitialLocks(h: Heap): map<nat, uint32> {
    map o | o in h.objects :: h.objects[o].lockWord
  }

  lemma NothingAssigned(h: Heap)
    requires WellFormed(h)
    ensures SlotsIn(InitialLocks(h)) == map[] && LockState(h, InitialLocks(h), map[])
  {
    hide InternsConsistently, ArraysFit, DistinctNatives, Unpacked, ForwardingAddress;
    forall o | o in h.objects ensures !IsForwarding(h.objects[o].lockWord) {
      assert GoodObject(h.ptrSize, h.objects[o]);
    }
  }

  /** All field and method records have a place. */
  ghost predicate AllRecorded(h: Heap, a: Alloc) {
    (forall o, n :: o in h.objects && n in NativesOf(h.objects[o]) ==> n in a.reloc) &&
    (forall n :: n in h.runtimeMethods ==> n in a.reloc)
  }

  /** Hash codes of exactly those objects that had one. */
  ghost predicate HashesSaved(h: Heap, saved: map<nat, nat>) {
    saved.Keys <= h.objects.Keys &&
    forall o :: o in h.objects ==>
      (o in saved <==> h.objects[o].lockWord != 0) && (o in saved ==> HASH_STATE + saved[o] == h.objects[o].lockWord)
  }

  /** Each object, visited once in some order. */
  ghost predicate Visits(h: Heap, objects: seq<nat>) {
    NoRepeats(objects) && forall o :: o in h.objects <==> o in objects
  }

  class ImageWriter {
    const h: Heap
    var lock: map<nat, uint32>
    var saved: map<nat, nat>
    var binSizes: seq<nat>
    var imageEnd: nat
    var reloc: map<nat, Reloc>
    var dexCacheArrays: map<nat, Location>
    var dexCacheArrayStarts: seq<nat>  // by dex cache
    var previousSizes: seq<nat>
    const base: nat  // image_begin_

    constructor (h: Heap, base: nat)
      ensures this.h == h && this.base == base && |previousSizes| == BIN_SIZE
      ensures lock == InitialLocks(h) && saved == map[] && reloc == map[] && dexCacheArrays == map[]
      ensures binSizes == [0, 0, 0, 0, 0, 0, 0, 0, 0, 0] && imageEnd == 0
    {
      this.h, this.base := h, base;
      lock := InitialLocks(h);
      saved := map[];
      reloc := map[];
      dexCacheArrays, dexCacheArrayStarts := map[], [];
      binSizes := [0, 0, 0, 0, 0, 0, 0, 0, 0, 0];
      previousSizes := [0, 0, 0, 0, 0, 0, 0, 0, 0, 0];
      imageEnd := 0;
    }

    ghost function Abs(): Alloc
      reads this
    {
      Alloc(SlotsIn(lock), binSizes, imageEnd, reloc)
    }

    ghost predicate Valid()
      reads this
    {
      WellFormed(h) && Fits(h) && dexCacheArrays == Arrays(h) &&
      WalkState(h, Abs()) && LockState(h, lock, saved)
    }

    lemma Open()
      requires Valid()
      ensures WellFormed(h) && Fits(h) && dexCacheArrays == Arrays(h) && WalkState(h, Abs()) &&
              LockState(h, lock, saved)
      ensures Abs() == Alloc(SlotsIn(lock), binSizes, imageEnd, reloc) && |binSizes| == BIN_SIZE > BIN_MIRROR_COUNT &&
              Inv(h, Abs())
      ensures lock.Keys == h.objects.Keys
    {
      hide WellFormed, Fits, Arrays, SlotsIn;
    }

    lemma AbsIs()
      ensures Abs() == Alloc(SlotsIn(lock), binSizes, imageEnd, reloc)
    {
    }

    lemma Close()
      requires WellFormed(h) && Fits(h) && dexCacheArrays == Arrays(h) && LockState(h, lock, saved)
      requires WalkState(h, Alloc(SlotsIn(lock), binSizes, imageEnd, reloc))
      ensures Valid() && Abs() == Alloc(SlotsIn(lock), binSizes, imageEnd, reloc)
    {
      hide WellFormed, Fits, Arrays, SlotsIn, WalkState, LockState;
    }

    /** Saves a hash code before the lock word is overwritten with the slot. */
    method SetImageBinSlot(o: nat, s: Slot)
      requires o in lock && !IsForwarding(lock[o]) && LockState(h, lock, saved) && Deflated(lock[o])
      requires s.bin < 8 && s.index < BIN_SPAN && s.index % 4 == 0
      modifies this`lock, this`saved
      ensures LockState(h, lock, saved)
      ensures SlotsIn(lock) == old(SlotsIn(lock))[o := s]
    {
      hide IsForwarding, FromForwardingAddress, Packed, SlotsIn, LockState;
      var word := FromForwardingAddress(Packed(s));
      ForwardingRoundTripIff(Packed(s));
      SetLockKeepsState(h, lock, saved, o, word);
      StoreSlot(lock, o, s);
      var lw := lock[o];
      if lw != 0 {
        saved := saved[o := lw - HASH_STATE];
      }
      lock := lock[o := word];
    }

    /** The bin of an object; static fields are scanned for one that is not final. */
    method ChooseBin(o: nat) returns (bin: nat)
      requires o in h.objects && dexCacheArrays == Arrays(h)
      ensures bin == BinOf(h, o)
    {
      hide Arrays;
      bin := BIN_REGULAR;
      match h.objects[o].kind {
        case ClassObject(initialized, staticIsFinal, _, _, _) =>
          bin := BIN_CLASS_VERIFIED;
          if initialized {
            bin := BIN_CLASS_INITIALIZED;
            if |staticIsFinal| == 0 {
              bin := BIN_CLASS_INITIALIZED_FINAL_STATICS;
            } else {
              var allFinal := true;
              var i := 0;
              while i < |staticIsFinal| && allFinal
                invariant i <= |staticIsFinal|
                invariant allFinal <==> forall j :: 0 <= j < i ==> staticIsFinal[j]
              {
                if !staticIsFinal[i] {
                  allFinal := false;
                }
                i := i + 1;
              }
              if allFinal {
                bin := BIN_CLASS_INITIALIZED_FINAL_STATICS;
              }
            }
          }
        case StringObject => bin := BIN_STRING;
        case PlainArray =>
          if o in dexCacheArrays {
            bin := BIN_DEX_CACHE_ARRAY;
          }
        case OtherObject =>
      }
    }

    method AssignImageBinSlot(o: nat)
      requires Valid() && o in h.objects && o !in Abs().slots && Rep(h, o) == o
      modifies this`lock, this`saved, this`binSizes, this`imageEnd
      ensures Valid() && Abs() == Assign(h, old(Abs()), o)
    {
      hide *;
      Open();
      ghost var a := Abs();
      NewSlotFits(h, a, o);
      AssignKeepsWalk(h, a, o);
      BinOfArray(h, o);
      NotYetAssigned(h, lock, saved, o);
      var bin := ChooseBin(o);
      var size, current := |h.objects[o].bytes|, 0;
      if bin == BIN_DEX_CACHE_ARRAY {
        current := dexCacheArrays[o].offset;
        size := dexCacheArrays[o].length;
        AssignArray(h, a, o);
      }
      var delta := Aligned(size);
      if bin != BIN_DEX_CACHE_ARRAY {
        current := binSizes[bin];
        binSizes := binSizes[bin := current + delta];
        AssignPlain(h, a, o);
      }
      SetImageBinSlot(o, Slot(bin, current));
      imageEnd := imageEnd + delta;
      Close();
    }

    /** Interned strings may be reached through a duplicate first, and get their slot then. */
    method CalculateObjectBinSlots(o: nat)
      requires Valid() && o in h.objects && (o in Abs().slots ==> h.objects[o].kind.StringObject?)
      modifies this`lock, this`saved, this`binSizes, this`imageEnd
      ensures Valid() && Rep(h, o) in h.objects && |old(binSizes)| == BIN_SIZE
      ensures Abs() == if o in old(Abs()).slots then old(Abs()) else Place(h, old(Abs()), o)
    {
      hide *;
      Open();
      ghost var a := Abs();
      RepIsFixed(h, o);
      AssignedIsInSlots(lock, o);
      if o !in a.slots {
        PlaceKeeps(h, a, o);
        PlaceCases(h, a, o);
      }
      if h.objects[o].kind.StringObject? {
        InternIsRep(h, o);
        if IsForwarding(lock[o]) {
          return;
        }
        var interned := h.interned[o];
        if o != interned {
          AssignedIsInSlots(lock, interned);
          if !IsForwarding(lock[interned]) {
            AssignImageBinSlot(interned);
            AssignChanges(h, a, interned);
          }
          ghost var b := Abs();
          Open();
          AssignedIsInSlots(lock, interned);
          StoredSlotFits(h, b, interned);
          NotYetAssigned(h, lock, saved, o);
          SetImageBinSlot(o, Unpacked(ForwardingAddress(lock[interned])));
          ShareIs(h, b, o);
          Close();
          return;
        }
      } else {
        OwnRep(h, o);
      }
      AssignImageBinSlot(o);
    }

    /** Gives records their place, one after the other. */
    method AssignRecords(ns: seq<nat>, bin: nat)
      requires |binSizes| == BIN_SIZE && NativeBin(bin)
      requires NoRepeats(ns) && forall n :: n in ns ==> n !in reloc
      modifies this`binSizes, this`reloc
      ensures |old(binSizes)| == BIN_SIZE && Abs() == AddAll(h, old(Abs()), ns, bin)
    {
      hide SlotsIn, RecordSize;
      ghost var a := Abs();
      for i := 0 to |ns|
        invariant |binSizes| == BIN_SIZE && Abs() == AddAll(h, a, ns[..i], bin)
        invariant forall j :: i <= j < |ns| ==> ns[j] !in reloc
      {
        assert ns[..i + 1][..i] == ns[..i];
        assert ns[i] !in reloc;
        reloc := reloc[ns[i] := Reloc(binSizes[bin], bin)];
        binSizes := binSizes[bin := binSizes[bin] + RecordSize(h, bin)];
      }
      assert ns[..|ns|] == ns;
    }

    /** All methods of an array are dirty if one of them will be. */
    method AnyDirty(ms: seq<ArtMethod>) returns (dirty: bool)
      ensures (if dirty then BIN_ART_METHOD_DIRTY else BIN_ART_METHOD_CLEAN) == MethodBin(ms)
    {
      dirty := false;
      for i := 0 to |ms|
        invariant dirty <==> exists j :: 0 <= j < i && WillMethodBeDirty(ms[j])
      {
        dirty := dirty || WillMethodBeDirty(ms[i]);
      }
    }

    method AssignClassRecords(o: nat)
      requires o in h.objects && h.objects[o].kind.ClassObject? && |binSizes| == BIN_SIZE
      requires NoRepeats(NativesOf(h.objects[o])) && forall n :: n in NativesOf(h.objects[o]) ==> n !in reloc
      modifies this`binSizes, this`reloc
      ensures |old(binSizes)| == BIN_SIZE && Abs() == AddRecords(h, old(Abs()), o)
    {
      hide AddAll, MethodBin, NoRepeats, SlotsIn;
      var k := h.objects[o].kind;
      SplitRecords(k.fields, Ids(k.direct), Ids(k.virtuals));
      ghost var a := Abs();
      AssignRecords(k.fields, BIN_ART_FIELD);
      AddAllReloc(h, a, k.fields, BIN_ART_FIELD);
      var dirty := AnyDirty(k.direct);
      ghost var b := Abs();
      AssignRecords(Ids(k.direct), if dirty then BIN_ART_METHOD_DIRTY else BIN_ART_METHOD_CLEAN);
      AddAllReloc(h, b, Ids(k.direct), MethodBin(k.direct));
      dirty := AnyDirty(k.virtuals);
      AssignRecords(Ids(k.virtuals), if dirty then BIN_ART_METHOD_DIRTY else BIN_ART_METHOD_CLEAN);
    }

    /**
     * Depth-first over a heap that may be cyclic: every call that visits an object leaves fewer objects
     * without a slot. No slot is given twice, and all records of newly visited classes get a place.
     */
    method WalkFieldsInOrder(o: nat)
      requires Valid() && o in h.objects
      modifies this`lock, this`saved, this`binSizes, this`imageEnd, this`reloc
      ensures Valid() && o in Abs().slots
      ensures Grows(h, old(Abs()), Abs()) && Finished(h, old(Abs()), Abs())
      decreases |h.objects.Keys - Abs().slots.Keys|, 0
    {
      hide *;
      Open();
      ghost var a0 := Abs();
      AssignedIsInSlots(lock, o);
      if IsForwarding(lock[o]) {
        GrowsReflexive(h, a0);
        return;
      }
      CalculateObjectBinSlots(o);
      PlaceShrinks(h, a0, o);
      WalkChildren(o);
      Open();
      ghost var a2 := Abs();
      VisitDone(h, a0, a2, o);
      if h.objects[o].kind.ClassObject? {
        AssignClassRecords(o);
      } else {
        NoRecords(h, a2, o);
      }
      AbsIs();
      Close();
    }

    /** The fields, or the array elements, of `o` that hold references. */
    method WalkChildren(o: nat)
      requires Valid() && o in h.objects
      modifies this`lock, this`saved, this`binSizes, this`imageEnd, this`reloc
      ensures Valid() && Grows(h, old(Abs()), Abs()) && Finished(h, old(Abs()), Abs())
      decreases |h.objects.Keys - Abs().slots.Keys|, 1
    {
      hide WalkState, LockState, SlotsIn, WellFormed, Fits, Arrays, IsForwarding, Grows, Finished;
      ghost var a1 := Abs();
      GrowsReflexive(h, a1);
      var obj := h.objects[o];
      for k := 0 to |obj.walk|
        invariant Valid() && Grows(h, a1, Abs()) && Finished(h, a1, Abs())
      {
        ChildInHeap(h, o, k);
        var value := WordAt(obj.bytes, obj.walk[k]);
        if value != 0 {
          ghost var a := Abs();
          StillFewer(h, a1, a);
          WalkFieldsInOrder(value);
          GrowsTransitive(h, a1, a, Abs());
        }
      }
    }

    /** Reserves the arrays of every dex cache, in the fixed order of their layout. */
    method PrepareDexCacheArraySlots()
      requires |binSizes| == BIN_SIZE && dexCacheArrays == map[] && DistinctArrays(h.dexCaches)
      modifies this`dexCacheArrays, this`dexCacheArrayStarts, this`binSizes
      ensures dexCacheArrays == Arrays(h) && binSizes == old(binSizes)[BIN_DEX_CACHE_ARRAY := ArraysSize(h)]
      ensures |dexCacheArrayStarts| == |h.dexCaches|
      ensures forall k :: 0 <= k < |h.dexCaches| ==>
                dexCacheArrayStarts[k] == PrepareUpTo(h.ptrSize, h.dexCaches, k).size
    {
      hide ArraySize, DistinctArrays, ArraysOf, FourArrays, PrepareOne;
      var size := 0;
      dexCacheArrayStarts := [];
      for k := 0 to |h.dexCaches|
        invariant binSizes == old(binSizes) && |dexCacheArrayStarts| == k
        invariant forall j :: 0 <= j < k ==> dexCacheArrayStarts[j] == PrepareUpTo(h.ptrSize, h.dexCaches, j).size
        invariant Prepared(dexCacheArrays, size) == PrepareUpTo(h.ptrSize, h.dexCaches, k)
      {
        var c := h.dexCaches[k];
        dexCacheArrayStarts := dexCacheArrayStarts + [size];
        FreshArrays(h.dexCaches, k, k);
        PrepareOneByOffsets(h.ptrSize, c, Prepared(dexCacheArrays, size));
        var types, methods := ArraySize(4, c.numTypes), ArraySize(h.ptrSize, c.numMethods);
        var strings, fields := ArraySize(4, c.numStrings), ArraySize(h.ptrSize, c.numFields);
        var methodsOffset := types;
        var stringsOffset := methodsOffset + methods;
        var fieldsOffset := stringsOffset + strings;
        dexCacheArrays := dexCacheArrays[c.types := Location(size, types)];
        dexCacheArrays := dexCacheArrays[c.methods := Location(size + methodsOffset, methods)];
        dexCacheArrays := dexCacheArrays[c.fields := Location(size + fieldsOffset, fields)];
        dexCacheArrays := dexCacheArrays[c.strings := Location(size + stringsOffset, strings)];
        size := size + fieldsOffset + fields;
      }
      binSizes := binSizes[BIN_DEX_CACHE_ARRAY := size];
    }

    /** Visits the whole heap: afterwards every object has a slot and every record a place. */
    method AssignAllSlots(objects: seq<nat>) returns (ghost a: Alloc)
      requires Valid() && Abs() == Initial(h) && Visits(h, objects)
      modifies this`lock, this`saved, this`binSizes, this`imageEnd, this`reloc
      ensures a == Abs() && Complete(h, a) && NativesPlaced(h, a) && AllRecorded(h, a)
      ensures LockState(h, lock, saved) && |a.sizes| == BIN_SIZE
    {
      hide *;
      ghost var a0 := Abs();
      GrowsReflexive(h, a0);
      for i := 0 to |objects|
        invariant Valid() && Grows(h, a0, Abs()) && Finished(h, a0, Abs())
        invariant forall j :: 0 <= j < i ==> objects[j] in Abs().slots
      {
        VisitsOnly(h, objects, i);
        ghost var b := Abs();
        WalkFieldsInOrder(objects[i]);
        GrowsTransitive(h, a0, b, Abs());
        SlotsKept(h, b, Abs());
      }
      Open();
      ghost var b := Abs();
      AllVisited(h, b, objects);
      RuntimeMethodsFresh(h, b);
      AssignRecords(h.runtimeMethods, BIN_ART_METHOD_DIRTY);
      a := Abs();
      RuntimeMethodsKeep(h, a0, b);
      AbsIs();
    }

    /** Replaces the slot in a lock word by the offset it stands for. */
    method UnbinObjectsIntoOffset(o: nat)
      requires o in lock && Unpacked(ForwardingAddress(lock[o])).bin < |previousSizes|
      requires var s := Unpacked(ForwardingAddress(lock[o])); BEGIN + previousSizes[s.bin] + s.index < WORD
      modifies this`lock
      ensures var s := Unpacked(ForwardingAddress(old(lock)[o]));
              lock == old(lock)[o := FromForwardingAddress(BEGIN + previousSizes[s.bin] + s.index)]
    {
      hide Unpacked, ForwardingAddress, FromForwardingAddress;
      var slot := Unpacked(ForwardingAddress(lock[o]));
      var offset := BEGIN + previousSizes[slot.bin] + slot.index;
      lock := lock[o := FromForwardingAddress(offset)];
    }

    method UnbinAll(objects: seq<nat>, ghost a: Alloc)
      requires WellFormed(h) && Fits(h) && Complete(h, a) && Visits(h, objects)
      requires lock.Keys == h.objects.Keys && SlotsIn(lock) == a.slots && a.sizes == binSizes
      requires |previousSizes| == |binSizes|
      requires forall b :: 0 <= b < |binSizes| ==> previousSizes[b] == Before(binSizes, b)
      modifies this`lock
      ensures OffsetsStored(h, a, lock)
    {
      hide WellFormed, Fits, Complete, Before, SlotsIn, Unpacked, ForwardingAddress, FromForwardingAddress, Visits;
      ghost var was := lock;
      VisitsOnlyObjects(h, objects);
      for i := 0 to |objects|
        invariant lock.Keys == h.objects.Keys
        invariant forall j :: i <= j < |objects| ==> objects[j] in lock && lock[objects[j]] == was[objects[j]]
        invariant forall j :: 0 <= j < i ==>
          objects[j] in a.slots && a.slots[objects[j]].bin < |a.sizes| && objects[j] in lock &&
          ForwardingAddress(lock[objects[j]]) == OffsetOf(a, objects[j])
      {
        var o := objects[i];
        VisitedOnce(h, objects, i);
        OffsetFits(h, a, o);
        AssignedIsInSlots(was, o);
        UnbinObjectsIntoOffset(o);
      }
      StoredEverywhere(h, a, lock, objects);
    }

    /** Running sums of the bin sizes. */
    method SumBins()
      requires |binSizes| == BIN_SIZE && |previousSizes| == BIN_SIZE
      modifies this`previousSizes
      ensures |previousSizes| == BIN_SIZE && forall b :: 0 <= b < BIN_SIZE ==> previousSizes[b] == Before(binSizes, b)
    {
      var previous := 0;
      for i := 0 to BIN_SIZE
        invariant |previousSizes| == BIN_SIZE && previous == Before(binSizes, i)
        invariant forall b :: 0 <= b < i ==> previousSizes[b] == Before(binSizes, b)
      {
        previousSizes := previousSizes[i := previous];
        previous := previous + binSizes[i];
      }
    }

    /** Adds the start of its bin to every record's place. */
    method RelocateRecords(ghost a: Alloc)
      requires reloc == a.reloc && binSizes == a.sizes && NativesPlaced(h, a)
      requires |previousSizes| == |binSizes|
      requires forall b :: 0 <= b < |binSizes| ==> previousSizes[b] == Before(binSizes, b)
      modifies this`reloc
      ensures RecordsStored(a, reloc)
    {
      hide Before, RecordSize;
      reloc := map n | n in reloc :: Reloc(reloc[n].offset + (BEGIN + previousSizes[reloc[n].bin]), reloc[n].bin);
    }

    ghost predicate LaidOut(a: Alloc)
      reads this
    {
      Layout(h, a, lock, saved, reloc) && binSizes == a.sizes && imageEnd == a.end &&
      |previousSizes| == |binSizes| && forall b :: 0 <= b < |binSizes| ==> previousSizes[b] == Before(binSizes, b)
    }

    /** From the untouched heap to final offsets of all objects and records. */
    method CalculateNewObjectOffsets(objects: seq<nat>) returns (ghost a: Alloc)
      requires WellFormed(h) && Fits(h) && Visits(h, objects)
      requires lock == InitialLocks(h) && saved == map[] && reloc == map[] && dexCacheArrays == map[]
      requires binSizes == [0, 0, 0, 0, 0, 0, 0, 0, 0, 0] && imageEnd == 0 && |previousSizes| == BIN_SIZE
      modifies this
      ensures LaidOut(a)
    {
      hide WellFormed, Fits, Visits, InitialLocks, SlotsIn, WalkState, LockState, Arrays, ArraysSize, Complete,
           NativesPlaced, AllRecorded, Before, OffsetsStored, RecordsStored, HashesSaved, Aligned, DistinctArrays,
           Valid, Abs;
      HeaderFits();
      imageEnd := imageEnd + Aligned(IMAGE_HEADER_SIZE);
      ArraysAreDistinct(h);
      PrepareDexCacheArraySlots();
      InitialState(h);
      NothingAssigned(h);
      assert Alloc(SlotsIn(lock), binSizes, imageEnd, reloc) == Initial(h);
      Close();
      a := AssignAllSlots(objects);
      AbsIs();
      CompleteReps(h, a);
      SumBins();
      LocksExist(h, lock, saved);
      SavedInTheEnd(h, a, lock, saved);
      UnbinAll(objects, a);
      RelocateRecords(a);
    }

    /** Where the oat file starts: the first page after the interned strings. */
    function GetOatFileBegin(internTableBytes: nat): nat
      requires |binSizes| == BIN_SIZE
      reads this`imageEnd, this`binSizes
    {
      base + RoundUp(imageEnd + binSizes[BIN_ART_FIELD] + binSizes[BIN_ART_METHOD_DIRTY] +
                     binSizes[BIN_ART_METHOD_CLEAN] + internTableBytes, PAGE_SIZE)
    }

    /**
     * The image's sections: objects, fields, methods, interned strings and, on a new page, the bitmap.
     * Each begins where the one before ends, and fields and methods lie where their bins were put.
     */
    method CreateSections(ghost a: Alloc, internTableBytes: nat, bitmapBytes: nat) returns (sections: seq<Section>)
      requires LaidOut(a)
      ensures |sections| == 5 && sections[0] == Section(0, a.end) && sections[3].size == internTableBytes
      ensures forall i :: 0 <= i < 3 ==> sections[i + 1].offset == sections[i].offset + sections[i].size
      ensures sections[4] == Section(RoundUp(sections[3].offset + internTableBytes, PAGE_SIZE),
                                     RoundUp(bitmapBytes, PAGE_SIZE))
      ensures sections[1].offset == BEGIN + Before(a.sizes, BIN_ART_FIELD)
      ensures sections[2].offset == BEGIN + Before(a.sizes, BIN_ART_METHOD_CLEAN)
      ensures sections[3].offset == BEGIN + Before(a.sizes, BIN_SIZE)
      ensures GetOatFileBegin(internTableBytes) == base + RoundUp(sections[3].offset + internTableBytes, PAGE_SIZE)
    {
      hide WellFormed, Fits, Complete, NativesPlaced, AllRecorded, OffsetsStored, RecordsStored, HashesSaved, RoundUp,
           Before, Total;
      CompleteReps(h, a);
      EndIsSumOfBins(h, a);
      LastBins(a.sizes);
      var cur := imageEnd;
      sections := [Section(0, imageEnd), Section(cur, binSizes[BIN_ART_FIELD])];
      assert BEGIN + previousSizes[BIN_ART_FIELD] == sections[1].offset;
      cur := sections[1].offset + sections[1].size;
      sections := sections + [Section(cur, binSizes[BIN_ART_METHOD_CLEAN] + binSizes[BIN_ART_METHOD_DIRTY])];
      assert BEGIN + previousSizes[BIN_ART_METHOD_CLEAN] == sections[2].offset;
      cur := sections[2].offset + sections[2].size;
      sections := sections + [Section(cur, internTableBytes)];
      cur := sections[3].offset + sections[3].size;
      sections := sections + [Section(RoundUp(cur, PAGE_SIZE), RoundUp(bitmapBytes, PAGE_SIZE))];
    }

    // -------------------------------------------------------------- copying

    ghost function Target(): Placement
      reads this
    {
      PlacementOf(lock, reloc, base, saved)
    }

    /** `memcpy` into the image. */
    method Store(image: array<uint8>, at: nat, data: seq<uint8>)
      requires at + |data| <= image.Length
      modifies image
      ensures image[..] == Splice(old(image[..]), at, data)
    {
      for i := 0 to |data|
        invariant image[..] == Splice(old(image[..]), at, data[..i])
      {
        image[at + i] := data[i];
        assert image[..] == Splice(old(image[..]), at, data[..i + 1]);
      }
      assert data[..|data|] == data;
    }

    /** Copies an object to its place and rewrites lock word, native pointers and references there. */
    method CopyAndFixupObject(image: array<uint8>, o: nat)
      requires WellPlaced(h, Target(), image.Length) && o in h.objects
      modifies image
      ensures HasRoom(h, Target(), o, image.Length)
      ensures image[..] == Splice(old(image[..]), Target().offset[o], Fixed(h, Target(), o))
    {
      hide *;
      ghost var p, was := Target(), image[..];
      RoomForAll(h, p, image.Length, o);
      AddressOf(o);
      CopyEnds(h, p, o, was);
      var offset: nat := ForwardingAddress(lock[o]);
      Store(image, offset, h.objects[o].bytes);
      LockWriteIs(h, p, o);
      LockOf(o);
      var word := if o in saved then HASH_STATE + saved[o] else 0;
      NextWrite(h, p, o, was, 1);
      Store(image, offset + 4, Le32(word));
      FixupNativePointers(image, o, was);
      FixupReferences(image, o, was);
    }

    method FixupNativePointers(image: array<uint8>, o: nat, ghost was: seq<uint8>)
      requires |was| == image.Length && HasRoom(h, Target(), o, image.Length)
      requires image[..] == PartialCopy(h, Target(), o, was, 1)
      modifies image
      ensures image[..] == PartialCopy(h, Target(), o, was, 1 + |h.objects[o].natives|)
    {
      hide *;
      ghost var p := Target();
      Room(h, p, o, image.Length);
      AddressOf(o);
      var offset: nat, obj := ForwardingAddress(lock[o]), h.objects[o];
      for i := 0 to |obj.natives|
        invariant image[..] == PartialCopy(h, p, o, was, 1 + i)
      {
        NativeWriteIs(h, p, o, i);
        NextWrite(h, p, o, was, 2 + i);
        var f := obj.natives[i];
        var elem := PointerAt(obj.bytes, f, h.ptrSize);
        RecordTarget(elem);
        var address := if elem != 0 then base + reloc[elem].offset else 0;
        Store(image, offset + f, EncodeLe(address, h.ptrSize));
      }
    }

    method FixupReferences(image: array<uint8>, o: nat, ghost was: seq<uint8>)
      requires |was| == image.Length && HasRoom(h, Target(), o, image.Length)
      requires image[..] == PartialCopy(h, Target(), o, was, 1 + |h.objects[o].natives|)
      modifies image
      ensures image[..] == PartialCopy(h, Target(), o, was, |Writes(h, Target(), o)|)
    {
      hide *;
      ghost var p := Target();
      Room(h, p, o, image.Length);
      AddressOf(o);
      var offset: nat, obj := ForwardingAddress(lock[o]), h.objects[o];
      ghost var n := 1 + |obj.natives|;
      for i := 0 to |obj.refs|
        invariant image[..] == PartialCopy(h, p, o, was, n + i)
      {
        RefWriteIs(h, p, o, i);
        NextWrite(h, p, o, was, n + i + 1);
        var f := obj.refs[i];
        var ref := WordAt(obj.bytes, f);
        AddressOf(ref);
        var address := if ref == 0 then 0 else base + ForwardingAddress(lock[ref]);
        Store(image, offset + f, Le32(address));
      }
    }

    lemma AddressOf(t: nat)
      requires t == 0 || t in Target().offset
      ensures t in Target().offset ==> t in lock && Target().offset[t] == ForwardingAddress(lock[t])
      ensures ImageAddress(Target(), t) == if t == 0 then 0 else base + ForwardingAddress(lock[t])
    {
      hide ForwardingAddress;
    }

    lemma RecordTarget(n: nat)
      requires n == 0 || n in Target().record
      ensures n != 0 ==> n in reloc
      ensures RecordAddress(Target(), n) == if n != 0 then base + reloc[n].offset else 0
    {
    }

    lemma LockOf(o: nat)
      ensures RestoredLock(Target(), o) == if o in saved then HASH_STATE + saved[o] else 0
    {
    }

    /** Copies every object, then gives hashed objects of the heap their lock words back. */
    method CopyAndFixupObjects(image: array<uint8>, objects: seq<nat>)
      requires WellPlaced(h, Target(), image.Length) && Visits(h, objects)
      modifies image, this`lock, this`saved
      ensures ImageOf(h, old(Target()), image[..])
      ensures saved == map[] && lock.Keys == old(lock.Keys)
      ensures forall o :: o in lock ==>
                lock[o] == if o in old(saved) then U32(HASH_STATE + old(saved)[o]) else old(lock)[o]
    {
      hide WellPlaced, Visits, CopyUpTo, Splice, Fixed, ImageOf, Addressable, PlacementOf, HasRoom;
      ghost var p, was := Target(), image[..];
      VisitsExactly(h, objects);
      CopyNothing(h, p, objects, was);
      for i := 0 to |objects|
        invariant Target() == p && lock == old(lock) && saved == old(saved)
        invariant image[..] == CopyUpTo(h, p, objects, i, was)
      {
        CopyStep(h, p, objects, i + 1, was);
        CopyAndFixupObject(image, objects[i]);
      }
      ImageIsComplete(h, p, objects, was);
      lock := map o | o in lock :: if o in saved then U32(HASH_STATE + saved[o]) else lock[o];
      saved := map[];
    }

    /** Zeroed memory for objects, records and the intern table, in whole pages. */
    method AllocMemory(internTableBytes: nat) returns (image: array<uint8>)
      requires |binSizes| == BIN_SIZE
      ensures fresh(image) && image.Length == RoundUp(BEGIN + Before(binSizes, BIN_SIZE) + internTableBytes, PAGE_SIZE)
    {
      hide RoundUp;
      var sum := 0;
      for i := 0 to BIN_SIZE
        invariant sum == Before(binSizes, i)
      {
        sum := sum + binSizes[i];
      }
      image := new uint8[RoundUp(BEGIN + sum + internTableBytes, PAGE_SIZE)](_ => 0);
    }

    /** With every object laid out, the image that is written is an image of the heap. */
    method WriteImage(objects: seq<nat>, internTableBytes: nat, ghost a: Alloc) returns (image: array<uint8>)
      requires LaidOut(a) && Visits(h, objects) && KnownPointers(h) && |a.sizes| == BIN_SIZE
      requires base + BEGIN + Before(a.sizes, BIN_SIZE) <= WORD
      modifies this`lock, this`saved
      ensures fresh(image) && image.Length == RoundUp(BEGIN + Before(a.sizes, BIN_SIZE) + internTableBytes, PAGE_SIZE)
      ensures ImageOf(h, old(Target()), image[..])
    {
      hide *;
      OpenLayout(a);
      image := AllocMemory(internTableBytes);
      RoundUpIsLeast(BEGIN + Before(a.sizes, BIN_SIZE) + internTableBytes, PAGE_SIZE) by { PageSize(); }
      LayoutIsWellPlaced(h, a, lock, saved, reloc, base, image.Length);
      CopyAndFixupObjects(image, objects);
    }

    lemma OpenLayout(a: Alloc)
      requires LaidOut(a)
      ensures Layout(h, a, lock, saved, reloc) && binSizes == a.sizes
      ensures Target() == PlacementOf(lock, reloc, base, saved)
    {
      hide Layout, PlacementOf;
    }
  }

  datatype Section = Section(offset: nat, size: nat)

  function PlacementOf(lock: map<nat, uint32>, reloc: map<nat, Reloc>, base: nat, saved: map<nat, nat>): Placement {
    Placement(map o | o in lock :: ImageOffset(lock, o), map n | n in reloc :: reloc[n].offset, base, saved)
  }

  lemma Room(h: Heap, p: Placement, o: nat, size: nat)
    requires HasRoom(h, p, o, size)
    ensures Addressable(h, p) && o in h.objects && o in p.offset && p.offset[o] + |h.objects[o].bytes| <= size
  {
    hide Addressable;
  }

  lemma RoomForAll(h: Heap, p: Placement, size: nat, o: nat)
    requires WellPlaced(h, p, size) && o in h.objects
    ensures HasRoom(h, p, o, size)
    ensures Addressable(h, p) && o in p.offset && p.offset[o] + |h.objects[o].bytes| <= size
  {
    hide InternsConsistently, PairPlaced, Addressable;
    InDomain(h, p, size, o);
  }

  lemma VisitsExactly(h: Heap, objects: seq<nat>)
    requires Visits(h, objects)
    ensures forall o :: o in h.objects <==> o in objects
    ensures forall i :: 0 <= i < |objects| ==> objects[i] in h.objects
  {
  }

  lemma CopyNothing(h: Heap, p: Placement, objects: seq<nat>, image: seq<uint8>)
    requires WellPlaced(h, p, |image|) && forall i :: 0 <= i < |objects| ==> objects[i] in h.objects
    ensures CopyUpTo(h, p, objects, 0, image) == image
  {
  }

  /** `Before` the four last bins, spelled out. */
  lemma LastBins(sizes: seq<nat>)
    requires |sizes| == BIN_SIZE
    ensures Before(sizes, BIN_ART_METHOD_CLEAN) == Before(sizes, BIN_ART_FIELD) + sizes[BIN_ART_FIELD]
    ensures Before(sizes, BIN_SIZE) == Before(sizes, BIN_ART_METHOD_CLEAN) + sizes[BIN_ART_METHOD_CLEAN] +
              sizes[BIN_ART_METHOD_DIRTY]
  {
  }

  lemma InternIsRep(h: Heap, o: nat)
    requires WellFormed(h) && o in h.objects && h.objects[o].kind.StringObject?
    ensures o in h.interned && h.interned[o] == Rep(h, o)
  {
    hide Closed, ArraysFit, DistinctNatives, SameString;
  }

  lemma OwnRep(h: Heap, o: nat)
    requires o in h.objects && !h.objects[o].kind.StringObject?
    ensures Rep(h, o) == o
  {
  }

  lemma ShareIs(h: Heap, a: Alloc, o: nat)
    requires o in h.objects && Rep(h, o) in a.slots
    ensures Share(h, a, o) == Alloc(a.slots[o := a.slots[Rep(h, o)]], a.sizes, a.end, a.reloc)
  {
    hide Rep;
  }

  lemma AssignArray(h: Heap, a: Alloc, o: nat)
    requires o in h.objects && |a.sizes| == BIN_SIZE && o in Arrays(h) && BinOf(h, o) == BIN_DEX_CACHE_ARRAY
    ensures Assign(h, a, o) == Alloc(a.slots[o := Slot(BIN_DEX_CACHE_ARRAY, Arrays(h)[o].offset)], a.sizes,
                                     a.end + Aligned(Arrays(h)[o].length), a.reloc)
  {
    hide BinOf, Arrays, Aligned;
  }

  lemma AssignPlain(h: Heap, a: Alloc, o: nat)
    requires o in h.objects && |a.sizes| == BIN_SIZE && o !in Arrays(h) && BinOf(h, o) != BIN_DEX_CACHE_ARRAY
    ensures var bin, delta := BinOf(h, o), Aligned(|h.objects[o].bytes|);
            Assign(h, a, o) == Alloc(a.slots[o := Slot(bin, a.sizes[bin])], a.sizes[bin := a.sizes[bin] + delta],
                                     a.end + delta, a.reloc)
  {
    hide BinOf, Arrays, Aligned;
  }

  lemma NotYetAssigned(h: Heap, lock: map<nat, uint32>, saved: map<nat, nat>, o: nat)
    requires LockState(h, lock, saved) && WellFormed(h) && o in h.objects && o !in SlotsIn(lock)
    ensures o in lock && !IsForwarding(lock[o]) && Deflated(lock[o])
  {
    hide InternsConsistently, ArraysFit, DistinctNatives, IsForwarding;
    assert GoodObject(h.ptrSize, h.objects[o]);
  }

  lemma LocksExist(h: Heap, lock: map<nat, uint32>, saved: map<nat, nat>)
    requires LockState(h, lock, saved)
    ensures lock.Keys == h.objects.Keys
  {
  }

  lemma StoredSlotFits(h: Heap, a: Alloc, r: nat)
    requires WellFormed(h) && Fits(h) && Inv(h, a) && r in a.slots && r in h.objects && Rep(h, r) == r
    ensures a.slots[r].bin < 8 && a.slots[r].index < BIN_SPAN && a.slots[r].index % 4 == 0
  {
    hide *;
    DeltaPositive(h, r);
    PlacedFacts(h, a, r);
    BinFits(h, a, a.slots[r].bin);
  }

  lemma PlacedFacts(h: Heap, a: Alloc, r: nat)
    requires Inv(h, a) && r in a.slots && r in h.objects && Rep(h, r) == r
    ensures var s := a.slots[r];
            s.bin < BIN_MIRROR_COUNT < 8 && s.index % 4 == 0 && s.bin < |a.sizes| &&
            s.index + Delta(h, r) <= a.sizes[s.bin]
  {
    hide Rep, BinOf, Arrays, Delta, Sharing, AllApart, Accounted;
    assert Placed(h, a, r);
    FourDividesEight(a.slots[r].index);
  }

  lemma AddAllReloc(h: Heap, a: Alloc, ns: seq<nat>, bin: nat)
    requires |a.sizes| == BIN_SIZE && bin < BIN_SIZE
    ensures AddAll(h, a, ns, bin).reloc.Keys == a.reloc.Keys + set n | n in ns
  {
    if ns != [] {
      AddAllReloc(h, a, ns[..|ns| - 1], bin);
      assert ns == ns[..|ns| - 1] + [ns[|ns| - 1]];
    }
  }

  lemma NoRecords(h: Heap, a: Alloc, o: nat)
    requires o in h.objects && !h.objects[o].kind.ClassObject? && |a.sizes| == BIN_SIZE
    ensures AddRecords(h, a, o) == a
  {
  }

  lemma ChildInHeap(h: Heap, o: nat, k: nat)
    requires WellFormed(h) && o in h.objects && k < |h.objects[o].walk|
    ensures h.objects[o].walk[k] + 4 <= |h.objects[o].bytes|
    ensures var t := WordAt(h.objects[o].bytes, h.objects[o].walk[k]); t == 0 || t in h.objects
  {
    hide InternsConsistently, ArraysFit, DistinctNatives, WordAt;
    assert GoodObject(h.ptrSize, h.objects[o]);
  }

  lemma PlaceShrinks(h: Heap, a: Alloc, o: nat)
    requires WellFormed(h) && WalkState(h, a) && o in h.objects && o !in a.slots
    ensures Rep(h, o) in h.objects && |a.sizes| == BIN_SIZE
    ensures |h.objects.Keys - Place(h, a, o).slots.Keys| < |h.objects.Keys - a.slots.Keys|
  {
    hide *;
    PlaceKeeps(h, a, o);
    Fewer(h, a, Place(h, a, o), o);
  }

  lemma VisitDone(h: Heap, a0: Alloc, a2: Alloc, o: nat)
    requires WellFormed(h) && WalkState(h, a0) && WalkState(h, a2) && o in h.objects && o !in a0.slots
    requires Rep(h, o) in h.objects && |a0.sizes| == BIN_SIZE && |a2.sizes| == BIN_SIZE
    requires Grows(h, Place(h, a0, o), a2) && Finished(h, Place(h, a0, o), a2)
    ensures var a3 := AddRecords(h, a2, o);
            WalkState(h, a3) && Grows(h, a0, a3) && Finished(h, a0, a3) && o in a3.slots
    ensures NoRepeats(NativesOf(h.objects[o])) && forall n :: n in NativesOf(h.objects[o]) ==> n !in a2.reloc
  {
    hide *;
    var a1 := Place(h, a0, o);
    PlaceKeeps(h, a0, o);
    UnfoldWalk(h, a0);
    VisitKeeps(h, a0, a1, a2, o);
    FreshForVisit(h, a0, a1, a2, o);
  }

  /** The measure of the walk: a visit takes its object out of the unassigned ones. */
  lemma Fewer(h: Heap, a: Alloc, b: Alloc, o: nat)
    requires o in h.objects && o !in a.slots && o in b.slots && a.slots.Keys <= b.slots.Keys
    ensures |h.objects.Keys - b.slots.Keys| < |h.objects.Keys - a.slots.Keys|
  {
    SmallerSet(h.objects.Keys - b.slots.Keys, h.objects.Keys - a.slots.Keys - {o});
  }

  lemma StillFewer(h: Heap, a: Alloc, b: Alloc)
    requires Grows(h, a, b)
    ensures |h.objects.Keys - b.slots.Keys| <= |h.objects.Keys - a.slots.Keys|
  {
    SmallerSet(h.objects.Keys - b.slots.Keys, h.objects.Keys - a.slots.Keys);
  }

  lemma SmallerSet(s: set<nat>, t: set<nat>)
    requires s <= t
    ensures |s| <= |t|
  {
    assert t == s + (t - s);
  }

  // ---------------------------------------------------------------- the whole heap is visited

  lemma VisitsOnly(h: Heap, objects: seq<nat>, i: nat)
    requires Visits(h, objects) && i < |objects|
    ensures objects[i] in h.objects
  {
  }

  lemma VisitsOnlyObjects(h: Heap, objects: seq<nat>)
    requires Visits(h, objects)
    ensures forall j :: 0 <= j < |objects| ==> objects[j] in h.objects
  {
  }

  lemma SlotsKept(h: Heap, a: Alloc, b: Alloc)
    requires Grows(h, a, b)
    ensures forall o :: o in a.slots ==> o in b.slots
  {
  }

  lemma AllVisited(h: Heap, a: Alloc, objects: seq<nat>)
    requires Visits(h, objects) && Inv(h, a) && forall j :: 0 <= j < |objects| ==> objects[j] in a.slots
    ensures Complete(h, a)
  {
    hide NoRepeats, AllPlaced, AllApart, Accounted, Sharing;
  }

  lemma RuntimeMethodsFresh(h: Heap, a: Alloc)
    requires WellFormed(h) && WalkState(h, a)
    ensures NoRepeats(h.runtimeMethods) && NativeBin(BIN_ART_METHOD_DIRTY) && BIN_ART_METHOD_DIRTY < BIN_SIZE
    ensures forall n :: n in h.runtimeMethods ==> n !in a.reloc
  {
    hide Closed, InternsConsistently, ArraysFit, NoRepeats, Inv, NativesPlaced;
  }

  lemma RuntimeMethodsKeep(h: Heap, a0: Alloc, b: Alloc)
    requires WellFormed(h) && WalkState(h, b) && Complete(h, b) && a0 == Initial(h) && Finished(h, a0, b) &&
             |b.sizes| == BIN_SIZE
    ensures var a := AddAll(h, b, h.runtimeMethods, BIN_ART_METHOD_DIRTY);
            Complete(h, a) && NativesPlaced(h, a) && AllRecorded(h, a) && |a.sizes| == BIN_SIZE
  {
    hide *;
    RuntimeMethodsFresh(h, b);
    UnfoldWalk(h, b);
    AddAllKeeps(h, b, h.runtimeMethods, BIN_ART_METHOD_DIRTY);
    var a := AddAll(h, b, h.runtimeMethods, BIN_ART_METHOD_DIRTY);
    StillComplete(h, a0, b, a);
  }

  lemma StillComplete(h: Heap, a0: Alloc, b: Alloc, a: Alloc)
    requires Complete(h, b) && a0 == Initial(h) && Finished(h, a0, b)
    requires Inv(h, a) && Added(b, a, h.runtimeMethods)
    ensures Complete(h, a) && AllRecorded(h, a)
  {
    hide Inv, NativesOf;
  }

  // ---------------------------------------------------------------- the finished layout

  /** The offset of an object, as its lock word holds it. */
  function ImageOffset(lock: map<nat, uint32>, o: nat): nat
    requires o in lock
  {
    ForwardingAddress(lock[o])
  }

  /** Every lock word holds the final offset of its object. */
  ghost predicate OffsetsStored(h: Heap, a: Alloc, lock: map<nat, uint32>) {
    lock.Keys == h.objects.Keys && a.slots.Keys == h.objects.Keys &&
    forall o :: o in h.objects ==> a.slots[o].bin < |a.sizes| && ImageOffset(lock, o) == OffsetOf(a, o)
  }

  /** Every record's entry holds its final offset. */
  ghost predicate RecordsStored(a: Alloc, reloc: map<nat, Reloc>) {
    reloc.Keys == a.reloc.Keys &&
    forall n :: n in a.reloc ==>
      a.reloc[n].bin < |a.sizes| && reloc[n] == Reloc(RecordOffset(a, n), a.reloc[n].bin)
  }

  ghost predicate Layout(h: Heap, a: Alloc, lock: map<nat, uint32>, saved: map<nat, nat>, reloc: map<nat, Reloc>) {
    WellFormed(h) && Fits(h) && Complete(h, a) && NativesPlaced(h, a) && AllRecorded(h, a) &&
    OffsetsStored(h, a, lock) && RecordsStored(a, reloc) && HashesSaved(h, saved)
  }

  lemma HeaderFits()
    ensures Aligned(IMAGE_HEADER_SIZE) == BEGIN
  {
  }

  /** An offset, unlike a slot, is stored without a bound on the size of single bins. */
  lemma OffsetFits(h: Heap, a: Alloc, o: nat)
    requires WellFormed(h) && Fits(h) && Complete(h, a) && o in h.objects
    ensures o in a.slots && a.slots[o].bin < |a.sizes| && OffsetOf(a, o) < WORD
    ensures ForwardingAddress(FromForwardingAddress(OffsetOf(a, o))) == OffsetOf(a, o)
  {
    hide *;
    CompleteReps(h, a);
    OffsetsInImage(h, a, o);
    EndIsSumOfBins(h, a);
    SmallImage(h);
    FourDividesEight(OffsetOf(a, o));
    ForwardingRoundTripIff(OffsetOf(a, o));
  }

  lemma VisitedOnce(h: Heap, objects: seq<nat>, i: nat)
    requires Visits(h, objects) && i < |objects|
    ensures objects[i] in h.objects
    ensures forall j :: 0 <= j < |objects| && j != i ==> objects[j] != objects[i]
  {
  }

  lemma StoredEverywhere(h: Heap, a: Alloc, lock: map<nat, uint32>, objects: seq<nat>)
    requires Visits(h, objects) && Complete(h, a) && lock.Keys == h.objects.Keys
    requires forall j :: 0 <= j < |objects| ==>
      objects[j] in a.slots && a.slots[objects[j]].bin < |a.sizes| && objects[j] in lock &&
      ForwardingAddress(lock[objects[j]]) == OffsetOf(a, objects[j])
    ensures OffsetsStored(h, a, lock)
  {
    hide Inv, NoRepeats, ForwardingAddress, OffsetOf;
  }

  lemma SavedInTheEnd(h: Heap, a: Alloc, lock: map<nat, uint32>, saved: map<nat, nat>)
    requires LockState(h, lock, saved) && a.slots == SlotsIn(lock) && a.slots.Keys == h.objects.Keys
    ensures HashesSaved(h, saved)
  {
    hide IsForwarding;
    forall o | o in h.objects ensures IsForwarding(lock[o]) {
      AssignedIsInSlots(lock, o);
    }
  }

  // ---------------------------------------------------------------- the layout is a good place for a copy

  ghost predicate IsRecord(h: Heap, n: nat) {
    n in h.runtimeMethods || exists o :: o in h.objects && n in NativesOf(h.objects[o])
  }

  /** Every native pointer in the heap is null or points to a field or method record. */
  ghost predicate KnownPointers(h: Heap) {
    forall o, f :: o in h.objects && f in h.objects[o].natives ==> PointsToRecord(h, o, f)
  }

  ghost predicate PointsToRecord(h: Heap, o: nat, f: nat)
    requires o in h.objects
  {
    f + h.ptrSize <= |h.objects[o].bytes| &&
    var n := PointerAt(h.objects[o].bytes, f, h.ptrSize);
    n == 0 || IsRecord(h, n)
  }

  lemma PageSize()
    ensures PAGE_SIZE > 0
  {
  }

  /** A record's place lies after the objects and inside the image. */
  lemma RecordInImage(h: Heap, a: Alloc, n: nat)
    requires WellFormed(h) && Complete(h, a) && NativesPlaced(h, a) && n in a.reloc
    ensures a.reloc[n].bin < |a.sizes| == BIN_SIZE && a.end <= RecordOffset(a, n) < BEGIN + Before(a.sizes, BIN_SIZE)
    ensures a.end <= BEGIN + Before(a.sizes, BIN_SIZE)
  {
    EndIsSumOfBins(h, a);
    hide Complete, Closed, InternsConsistently, ArraysFit, DistinctNatives, Before, Total, Deltas;
    var b := a.reloc[n].bin;
    BeforeGrows(a.sizes, b, BIN_SIZE);
    if BIN_MIRROR_COUNT < b {
      BeforeGrows(a.sizes, BIN_MIRROR_COUNT, b);
    }
  }

  lemma OffsetInImage(h: Heap, a: Alloc, lock: map<nat, uint32>, o: nat)
    requires WellFormed(h) && Complete(h, a) && OffsetsStored(h, a, lock) && o in h.objects
    ensures o in lock && ImageOffset(lock, o) + |h.objects[o].bytes| <= a.end <= BEGIN + Before(a.sizes, BIN_SIZE)
    ensures |a.sizes| == BIN_SIZE && |h.objects[o].bytes| > 0
  {
    hide *;
    StoredAt(h, a, lock, o);
    CompleteReps(h, a);
    OffsetsInImage(h, a, o);
    EndIsSumOfBins(h, a);
    BeforeGrows(a.sizes, BIN_MIRROR_COUNT, BIN_SIZE);
    SizeOfRep(h, o);
  }

  lemma StoredAt(h: Heap, a: Alloc, lock: map<nat, uint32>, o: nat)
    requires OffsetsStored(h, a, lock) && o in h.objects
    ensures o in lock && o in a.slots && a.slots[o].bin < |a.sizes| && ImageOffset(lock, o) == OffsetOf(a, o)
  {
    hide ImageOffset, OffsetOf;
  }

  lemma SizeOfRep(h: Heap, o: nat)
    requires WellFormed(h) && o in h.objects
    ensures Rep(h, o) in h.objects && |h.objects[o].bytes| <= Delta(h, Rep(h, o)) && |h.objects[o].bytes| > 0
  {
    hide Closed, ArraysFit, DistinctNatives, Alike;
    RepHasSameFields(h, o);
    AlikeLength(h.objects[o].bytes, h.objects[Rep(h, o)].bytes);
    DeltaPositive(h, Rep(h, o));
    SizePositive(h, o);
  }

  lemma SizePositive(h: Heap, o: nat)
    requires WellFormed(h) && o in h.objects
    ensures |h.objects[o].bytes| > 0
  {
    hide InternsConsistently, ArraysFit, DistinctNatives;
    assert GoodObject(h.ptrSize, h.objects[o]);
  }

  lemma PairApart(h: Heap, a: Alloc, lock: map<nat, uint32>, o: nat, q: nat)
    requires WellFormed(h) && Complete(h, a) && OffsetsStored(h, a, lock) && o in h.objects && q in h.objects
    ensures o in lock && q in lock
    ensures if Rep(h, o) == Rep(h, q) then ImageOffset(lock, o) == ImageOffset(lock, q)
            else ImageOffset(lock, o) + |h.objects[o].bytes| <= ImageOffset(lock, q) ||
                 ImageOffset(lock, q) + |h.objects[q].bytes| <= ImageOffset(lock, o)
  {
    hide *;
    StoredAt(h, a, lock, o);
    StoredAt(h, a, lock, q);
    OffsetsApart(h, a, o, q);
    SizeOfRep(h, o);
    SizeOfRep(h, q);
  }

  lemma PointerKnown(h: Heap, a: Alloc, p: Placement, o: nat, f: nat)
    requires KnownPointers(h) && AllRecorded(h, a) && p.record.Keys == a.reloc.Keys
    requires o in h.objects && f in h.objects[o].natives
    ensures KnownPointer(h, p, o, f)
  {
    hide NativesOf, PointerAt;
    assert PointsToRecord(h, o, f);
  }

  lemma SavedFits(h: Heap, saved: map<nat, nat>, o: nat)
    requires WellFormed(h) && HashesSaved(h, saved) && o in saved
    ensures saved[o] < 0x1000_0000
  {
    hide InternsConsistently, ArraysFit, DistinctNatives;
    assert GoodObject(h.ptrSize, h.objects[o]);
  }

  lemma LayoutIsAddressable(h: Heap, a: Alloc, lock: map<nat, uint32>, saved: map<nat, nat>, reloc: map<nat, Reloc>,
                            base: nat)
    requires Layout(h, a, lock, saved, reloc) && KnownPointers(h)
    requires |a.sizes| == BIN_SIZE && base + BEGIN + Before(a.sizes, BIN_SIZE) <= WORD
    ensures Addressable(h, PlacementOf(lock, reloc, base, saved))
  {
    hide Closed, InternsConsistently, ArraysFit, DistinctNatives, Complete, NativesPlaced, AllRecorded, HashesSaved,
         KnownPointers, Before, ImageOffset, RecordOffset, OffsetOf, KnownPointer, Fits;
    var p := PlacementOf(lock, reloc, base, saved);
    forall t | t in p.offset ensures p.base + p.offset[t] < WORD {
      OffsetInImage(h, a, lock, t);
    }
    forall n | n in p.record ensures p.base + p.record[n] < WORD {
      RecordInImage(h, a, n);
    }
    forall o | o in p.saved ensures p.saved[o] < 0x1000_0000 {
      SavedFits(h, saved, o);
    }
    forall o, f | o in h.objects && f in h.objects[o].natives ensures KnownPointer(h, p, o, f) {
      PointerKnown(h, a, p, o, f);
    }
  }

  lemma LayoutIsWellPlaced(h: Heap, a: Alloc, lock: map<nat, uint32>, saved: map<nat, nat>, reloc: map<nat, Reloc>,
                           base: nat, size: nat)
    requires Layout(h, a, lock, saved, reloc) && KnownPointers(h)
    requires |a.sizes| == BIN_SIZE && base + BEGIN + Before(a.sizes, BIN_SIZE) <= WORD &&
             BEGIN + Before(a.sizes, BIN_SIZE) <= size
    ensures WellPlaced(h, PlacementOf(lock, reloc, base, saved), size)
  {
    hide *;
    LayoutIsAddressable(h, a, lock, saved, reloc, base);
    LayoutParts(h, a, lock, saved, reloc);
    var p := PlacementOf(lock, reloc, base, saved);
    forall o | o in h.objects ensures o in p.offset && p.offset[o] + |h.objects[o].bytes| <= size {
      OffsetInImage(h, a, lock, o);
      PlacementAt(lock, reloc, base, saved, o);
    }
    forall o, q | o in h.objects && q in h.objects ensures PairPlaced(h, p, o, q) {
      PairApart(h, a, lock, o, q);
      PlacementAt(lock, reloc, base, saved, o);
      PlacementAt(lock, reloc, base, saved, q);
      PairIsPlaced(h, p, o, q);
    }
    FoldWellPlaced(h, p, size);
  }

  lemma LayoutParts(h: Heap, a: Alloc, lock: map<nat, uint32>, saved: map<nat, nat>, reloc: map<nat, Reloc>)
    requires Layout(h, a, lock, saved, reloc)
    ensures WellFormed(h) && InternsConsistently(h) && Complete(h, a) && OffsetsStored(h, a, lock)
  {
    hide Closed, ArraysFit, DistinctNatives, InternsConsistently, Complete, NativesPlaced, AllRecorded, HashesSaved,
         OffsetsStored, RecordsStored, Fits;
  }

  lemma PlacementAt(lock: map<nat, uint32>, reloc: map<nat, Reloc>, base: nat, saved: map<nat, nat>, o: nat)
    requires o in lock
    ensures var p := PlacementOf(lock, reloc, base, saved); o in p.offset && p.offset[o] == ImageOffset(lock, o)
  {
    hide ImageOffset;
  }

  lemma PairIsPlaced(h: Heap, p: Placement, o: nat, q: nat)
    requires o in h.objects && q in h.objects && o in p.offset && q in p.offset
    requires if Rep(h, o) == Rep(h, q) then p.offset[o] == p.offset[q]
             else p.offset[o] + |h.objects[o].bytes| <= p.offset[q] || p.offset[q] + |h.objects[q].bytes| <= p.offset[o]
    ensures PairPlaced(h, p, o, q)
  {
    hide Rep;
  }

  lemma FoldWellPlaced(h: Heap, p: Placement, size: nat)
    requires Addressable(h, p) && InternsConsistently(h)
    requires forall o :: o in h.objects ==> o in p.offset && p.offset[o] + |h.objects[o].bytes| <= size
    requires forall o, q :: o in h.objects && q in h.objects ==> PairPlaced(h, p, o, q)
    ensures WellPlaced(h, p, size)
  {
    hide Addressable, InternsConsistently, PairPlaced;
  }

  /** The oat file follows on the next page exactly when the image begins on a page. */
  lemma OatFollowsImageIff(base: nat, imageSize: nat)
    ensures RoundUp(base + imageSize, PAGE_SIZE) == base + RoundUp(imageSize, PAGE_SIZE) <==> base % PAGE_SIZE == 0
  {
  }

  /** Saved hash codes restore exactly the lock words the heap had. */
  lemma LockWordsRestored(h: Heap, p: Placement)
    requires HashesSaved(h, p.saved)
    ensures forall o :: o in h.objects ==> RestoredLock(p, o) == h.objects[o].lockWord
  {
  }

  /**
   * The whole run, from an untouched heap to its image. It gives up only when the image would not
   * end in the low 4 GiB.
   */
  method WriteHeapImage(h: Heap, base: nat, objects: seq<nat>, internTableBytes: nat)
    returns (ok: bool, image: array<uint8>, ghost p: Placement, ghost a: Alloc)
    requires WellFormed(h) && Fits(h) && Visits(h, objects) && KnownPointers(h)
    ensures Complete(h, a) && NativesPlaced(h, a) && AllRecorded(h, a) && |a.sizes| == BIN_SIZE
    ensures ok <==> base + BEGIN + Before(a.sizes, BIN_SIZE) <= WORD
    ensures ok ==> p.base == base && ImageOf(h, p, image[..])
    ensures ok ==> forall o :: o in h.objects ==> RestoredLock(p, o) == h.objects[o].lockWord
  {
    hide WellFormed, Fits, Visits, KnownPointers, Layout, ImageOf, PlacementOf, Before, RestoredLock, InitialLocks,
         Complete, NativesPlaced, AllRecorded;
    var writer := new ImageWriter(h, base);
    a := writer.CalculateNewObjectOffsets(objects);
    writer.OpenLayout(a);
    LayoutSize(h, a, writer.lock, writer.saved, writer.reloc);
    var size := BEGIN + Before(writer.binSizes, BIN_SIZE);
    ok := base + size <= WORD;
    p := writer.Target();
    LayoutSaves(h, a, writer.lock, writer.saved, writer.reloc);
    if ok {
      TargetParts(writer.lock, writer.reloc, base, writer.saved);
      LockWordsRestored(h, p);
      image := writer.WriteImage(objects, internTableBytes, a);
    } else {
      image := new uint8[0];
    }
  }

  lemma TargetParts(lock: map<nat, uint32>, reloc: map<nat, Reloc>, base: nat, saved: map<nat, nat>)
    ensures PlacementOf(lock, reloc, base, saved).base == base && PlacementOf(lock, reloc, base, saved).saved == saved
  {
  }

  lemma LayoutSize(h: Heap, a: Alloc, lock: map<nat, uint32>, saved: map<nat, nat>, reloc: map<nat, Reloc>)
    requires Layout(h, a, lock, saved, reloc)
    ensures |a.sizes| == BIN_SIZE
  {
    hide *;
    LayoutParts(h, a, lock, saved, reloc);
    CompleteReps(h, a);
  }

  lemma LayoutSaves(h: Heap, a: Alloc, lock: map<nat, uint32>, saved: map<nat, nat>, reloc: map<nat, Reloc>)
    requires Layout(h, a, lock, saved, reloc)
    ensures HashesSaved(h, saved) && Complete(h, a) && NativesPlaced(h, a) && AllRecorded(h, a)
  {
    hide WellFormed, Complete, NativesPlaced, AllRecorded, HashesSaved, OffsetsStored, RecordsStored, Fits;
  }
}
