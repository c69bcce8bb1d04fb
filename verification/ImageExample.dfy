/** A heap with a cycle, shared strings and native records: the assumptions of the image theorems can be met. */
module ImageExample {
  import opened Arith
  import opened Words
  import opened Totals
  import opened ImageHeap
  import opened BinSlots
  import opened ImageAlloc
  import opened ImageWalk

  const CLASS_ID: nat := 1
  const PLAIN_ID: nat := 2

  function SmallClass(): Object {
    Object(ClassObject(true, [true], [100], [ArtMethod(200, false, true)], []),
           [1, 0, 0, 0, 0, 0, 0, 0, 2, 0, 0, 0], 0x8000_0007, [0, 8], [8], [])
  }

  function SmallPlain(): Object {
    Object(OtherObject, [1, 0, 0, 0, 0, 0, 0, 0, 2, 0, 0, 0], 0, [0, 8], [0, 8], [])
  }

  function SmallString(): Object {
    Object(StringObject, [1, 0, 0, 0, 0, 0, 0, 0, 97, 0], 0, [0], [0], [])
  }

  /** A class with a field and a method, an object that refers to itself and to the class, two equal strings. */
  function SmallHeap(): Heap {
    Heap(map[CLASS_ID := SmallClass(), PLAIN_ID := SmallPlain(), 3 := SmallString(), 4 := SmallString()],
         map[3 := 4, 4 := 4], [], [300], 4, 28)
  }

  predicate RefersTo(o: Object, targets: set<nat>) {
    forall f :: f in o.refs && f + 4 <= |o.bytes| ==> WordAt(o.bytes, f) in targets
  }

  lemma PairRefersTo(o: Object)
    requires o.bytes == [1, 0, 0, 0, 0, 0, 0, 0, 2, 0, 0, 0] && o.refs == [0, 8]
    ensures RefersTo(o, {CLASS_ID, PLAIN_ID})
  {
    assert o.bytes[0..4] == [1, 0, 0, 0] && o.bytes[8..12] == [2, 0, 0, 0];
    assert WordAt(o.bytes, 0) == 1 && WordAt(o.bytes, 8) == 2;
    hide WordAt;
  }

  lemma StringRefersTo()
    ensures RefersTo(SmallString(), {CLASS_ID, PLAIN_ID})
  {
    var bytes := SmallString().bytes;
    assert bytes[0..4] == [1, 0, 0, 0];
    assert WordAt(bytes, 0) == 1;
    hide WordAt;
  }

  lemma SmallClassIsGood()
    ensures GoodObject(4, SmallClass())
  {
  }

  lemma SmallPlainIsGood()
    ensures GoodObject(4, SmallPlain())
  {
  }

  lemma SmallStringIsGood()
    ensures GoodObject(4, SmallString())
  {
  }

  lemma ObjectIsClosed(o: Object, h: Heap)
    requires GoodObject(4, o) && RefersTo(o, {CLASS_ID, PLAIN_ID}) && CLASS_ID in h.objects && PLAIN_ID in h.objects
    ensures forall f :: f in o.refs ==> f + 4 <= |o.bytes| && WordAt(o.bytes, f) in h.objects
  {
    hide WordAt;
  }

  lemma SmallHeapIsClosed()
    ensures Closed(SmallHeap())
  {
    hide SmallClass, SmallPlain, SmallString, WordAt, GoodObject, RefersTo;
    var h := SmallHeap();
    SmallClassIsGood();
    SmallPlainIsGood();
    SmallStringIsGood();
    PairRefersTo(SmallClass()) by { SmallPair(); }
    PairRefersTo(SmallPlain()) by { SmallPair(); }
    StringRefersTo();
    ObjectIsClosed(SmallClass(), h);
    ObjectIsClosed(SmallPlain(), h);
    ObjectIsClosed(SmallString(), h);
  }

  lemma SmallPair()
    ensures SmallClass().bytes == SmallPlain().bytes == [1, 0, 0, 0, 0, 0, 0, 0, 2, 0, 0, 0]
    ensures SmallClass().refs == SmallPlain().refs == [0, 8]
  {
  }

  /** Heaps with cycles, shared strings and records meet every assumption of the theorems. */
  lemma SmallHeapIsWellFormed()
    ensures WellFormed(SmallHeap()) && Fits(SmallHeap())
  {
    SmallHeapIsClosed();
    SmallHeapFits();
    SmallRecords();
    hide Closed, Fits, DistinctNatives;
  }

  lemma SmallRecords()
    ensures DistinctNatives(SmallHeap())
  {
    hide SmallHeap, NativesOf;
    var h := SmallHeap();
    assert h.runtimeMethods == [300] by { SmallNatives(1); }
    forall o | o in h.objects ensures NativesOf(h.objects[o]) == if o == CLASS_ID then [100, 200] else [] {
      SmallNatives(o);
    }
  }

  lemma SmallNatives(o: nat)
    ensures SmallHeap().runtimeMethods == [300]
    ensures o in SmallHeap().objects ==> NativesOf(SmallHeap().objects[o]) == if o == CLASS_ID then [100, 200] else []
  {
    assert NativesOf(SmallClass()) == [100, 200];
  }

  lemma SmallHeapFits()
    ensures Fits(SmallHeap())
  {
    hide Total, SmallHeap, Deltas, AllReps;
    var d := Deltas(SmallHeap());
    SmallReps();
    SmallDeltas();
    TotalEmpty(d);
    TotalInsert(d, {}, 1);
    TotalInsert(d, {1}, 2);
    TotalInsert(d, {1, 2}, 4);
    assert {} + {1} == {1} && {1} + {2} == {1, 2} && {1, 2} + {4} == {1, 2, 4};
    forall b | 0 <= b < BIN_MIRROR_COUNT ensures Total(d, InBin(SmallHeap(), AllReps(SmallHeap()), b)) <= BIN_SPAN {
      TotalSubset(d, InBin(SmallHeap(), AllReps(SmallHeap()), b), AllReps(SmallHeap()));
    }
  }

  lemma SmallReps()
    ensures AllReps(SmallHeap()) == {1, 2, 4}
  {
  }

  lemma SmallDeltas()
    ensures forall o :: Totals.At(Deltas(SmallHeap()), o) <= 20
  {
    hide Aligned;
  }
}
