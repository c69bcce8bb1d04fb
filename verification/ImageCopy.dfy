/**
 * Copying the heap into the image: each object is copied to its place, its lock word is restored and
 * its references and native pointers are rewritten. The graph read from the image is the heap's.
 */
module ImageCopy {
  import opened Arith
  import opened Words
  import opened ImageHeap

  // ---------------------------------------------------------------- overlapping-free writes

  datatype Write = Write(at: nat, data: seq<uint8>)

  predicate WritesFit(size: nat, ws: seq<Write>) {
    forall i :: 0 <= i < |ws| ==> ws[i].at + |ws[i].data| <= size
  }

  predicate WritesApart(ws: seq<Write>) {
    forall i, j :: 0 <= i < j < |ws| ==> ws[i].at + |ws[i].data| <= ws[j].at || ws[j].at + |ws[j].data| <= ws[i].at
  }

  /** The first `n` writes, in order. */
  function Apply(s: seq<uint8>, ws: seq<Write>, n: nat): (r: seq<uint8>)
    requires n <= |ws| && WritesFit(|s|, ws)
    ensures |r| == |s|
  {
    if n == 0 then s else Splice(Apply(s, ws, n - 1), ws[n - 1].at, ws[n - 1].data)
  }

  lemma {:induction false} ApplyKeeps(s: seq<uint8>, ws: seq<Write>, n: nat, b: nat)
    requires n <= |ws| && WritesFit(|s|, ws) && b < |s|
    requires forall i :: 0 <= i < n ==> b < ws[i].at || ws[i].at + |ws[i].data| <= b
    ensures Apply(s, ws, n)[b] == s[b]
  {
    if n > 0 {
      ApplyKeeps(s, ws, n - 1, b);
    }
  }

  lemma {:induction false} ApplyStores(s: seq<uint8>, ws: seq<Write>, n: nat, i: nat)
    requires i < n <= |ws| && WritesFit(|s|, ws) && WritesApart(ws)
    ensures Apply(s, ws, n)[ws[i].at..ws[i].at + |ws[i].data|] == ws[i].data
  {
    hide Apply;
    ApplyStep(s, ws, n);
    if i < n - 1 {
      ApplyStores(s, ws, n - 1, i);
      SpliceElsewhere(Apply(s, ws, n - 1), ws[n - 1].at, ws[n - 1].data, ws[i].at, ws[i].at + |ws[i].data|);
    }
  }

  lemma ApplyStep(s: seq<uint8>, ws: seq<Write>, n: nat)
    requires 0 < n <= |ws| && WritesFit(|s|, ws)
    ensures Apply(s, ws, n) == Splice(Apply(s, ws, n - 1), ws[n - 1].at, ws[n - 1].data)
  {
    hide Splice;
  }

  lemma SpliceElsewhere(s: seq<uint8>, at: nat, data: seq<uint8>, a: nat, c: nat)
    requires at + |data| <= |s| && a <= c <= |s| && (at + |data| <= a || c <= at)
    ensures Splice(s, at, data)[a..c] == s[a..c]
  {
  }

  /** Writing into a part of a buffer is writing into what was put there. */
  lemma SpliceInSplice(s: seq<uint8>, off: nat, x: seq<uint8>, at: nat, data: seq<uint8>)
    requires off + |x| <= |s| && at + |data| <= |x|
    ensures Splice(Splice(s, off, x), off + at, data) == Splice(s, off, Splice(x, at, data))
  {
    var y := Splice(s, off, x);
    assert y[..off + at] == s[..off] + x[..at];
    assert y[off + at + |data|..] == x[at + |data|..] + s[off + |x|..];
  }

  // ---------------------------------------------------------------- what a copy contains

  /** Where everything goes: offsets of objects and native records, and the image's address. */
  datatype Placement = Placement(offset: map<nat, nat>, record: map<nat, nat>, base: nat, saved: map<nat, nat>)

  /** The image address of an object; null stays null. */
  function ImageAddress(p: Placement, t: nat): nat
    requires t == 0 || t in p.offset
  {
    if t == 0 then 0 else p.base + p.offset[t]
  }

  function RecordAddress(p: Placement, n: nat): nat
    requires n == 0 || n in p.record
  {
    if n == 0 then 0 else p.base + p.record[n]
  }

  function RestoredLock(p: Placement, o: nat): nat {
    if o in p.saved then 0x8000_0000 + p.saved[o] else 0
  }

  /** All addresses fit their words. */
  ghost predicate Addressable(h: Heap, p: Placement) {
    (h.ptrSize == 4 || h.ptrSize == 8) && Closed(h) && p.offset.Keys == h.objects.Keys &&
    (forall t :: t in p.offset ==> p.base + p.offset[t] < WORD) &&
    (forall n :: n in p.record ==> p.base + p.record[n] < WORD) &&
    (forall o :: o in p.saved ==> p.saved[o] < 0x1000_0000) &&
    (forall o, f :: o in h.objects && f in h.objects[o].natives ==> KnownPointer(h, p, o, f))
  }

  ghost predicate KnownPointer(h: Heap, p: Placement, o: nat, f: nat)
    requires o in h.objects
  {
    f + h.ptrSize <= |h.objects[o].bytes| &&
    var n := PointerAt(h.objects[o].bytes, f, h.ptrSize);
    n == 0 || n in p.record
  }

  function NativeWrite(h: Heap, p: Placement, o: nat, i: nat): Write
    requires Addressable(h, p) && o in h.objects && i < |h.objects[o].natives|
  {
    var f := h.objects[o].natives[i];
    assert KnownPointer(h, p, o, f);
    Write(f, EncodeLe(RecordAddress(p, PointerAt(h.objects[o].bytes, f, h.ptrSize)), h.ptrSize))
  }

  function RefWrite(h: Heap, p: Placement, o: nat, i: nat): Write
    requires Addressable(h, p) && o in h.objects && i < |h.objects[o].refs|
  {
    var obj := h.objects[o];
    var f := obj.refs[i];
    assert GoodObject(h.ptrSize, obj) && f in obj.refs;
    Write(f, Le32(ImageAddress(p, WordAt(obj.bytes, f))))
  }

  function LockWrite(h: Heap, p: Placement, o: nat): Write
    requires Addressable(h, p)
  {
    Write(4, Le32(RestoredLock(p, o)))
  }

  /** The lock word, then native pointers, then references. */
  function Writes(h: Heap, p: Placement, o: nat): (ws: seq<Write>)
    requires Addressable(h, p) && o in h.objects
    ensures |ws| == 1 + |h.objects[o].natives| + |h.objects[o].refs|
  {
    var obj := h.objects[o];
    [LockWrite(h, p, o)] +
    seq(|obj.natives|, i requires 0 <= i < |obj.natives| => NativeWrite(h, p, o, i)) +
    seq(|obj.refs|, i requires 0 <= i < |obj.refs| => RefWrite(h, p, o, i))
  }

  lemma WriteAt(h: Heap, p: Placement, o: nat, i: nat)
    requires Addressable(h, p) && o in h.objects && i < |Writes(h, p, o)|
    ensures var obj, w := h.objects[o], Writes(h, p, o)[i];
            var n := |obj.natives|;
            (i == 0 ==> w == LockWrite(h, p, o)) &&
            (0 < i <= n ==> w == NativeWrite(h, p, o, i - 1)) &&
            (n < i ==> w == RefWrite(h, p, o, i - 1 - n))
  {
    hide NativeWrite, RefWrite, LockWrite, Addressable;
  }

  /** The writes of one object stay inside it and never overlap. */
  lemma WritesAreApart(h: Heap, p: Placement, o: nat)
    requires Addressable(h, p) && o in h.objects
    ensures WritesFit(|h.objects[o].bytes|, Writes(h, p, o)) && WritesApart(Writes(h, p, o))
  {
    hide Writes, Addressable, NativeWrite, RefWrite;
    var obj, ws := h.objects[o], Writes(h, p, o);
    var n := |obj.natives|;
    GoodAt(h, p, o);
    forall i | 0 <= i < |ws|
      ensures ws[i].at == (if i == 0 then 4 else if i <= n then obj.natives[i - 1] else obj.refs[i - 1 - n])
      ensures |ws[i].data| == (if 0 < i <= n then h.ptrSize else 4)
    {
      WriteAt(h, p, o, i);
      WriteShape(h, p, o, i);
    }
  }

  lemma GoodAt(h: Heap, p: Placement, o: nat)
    requires Addressable(h, p) && o in h.objects
    ensures GoodObject(h.ptrSize, h.objects[o])
  {
  }

  lemma WriteShape(h: Heap, p: Placement, o: nat, i: nat)
    requires Addressable(h, p) && o in h.objects && i < |Writes(h, p, o)|
    ensures LockWrite(h, p, o).at == 4 && |LockWrite(h, p, o).data| == 4
    ensures 0 < i <= |h.objects[o].natives| ==>
      var w := NativeWrite(h, p, o, i - 1); w.at == h.objects[o].natives[i - 1] && |w.data| == h.ptrSize
    ensures i > |h.objects[o].natives| ==>
      var j := i - 1 - |h.objects[o].natives|;
      RefWrite(h, p, o, j).at == h.objects[o].refs[j] && |RefWrite(h, p, o, j).data| == 4
  {
    hide Addressable, RestoredLock, Le32, EncodeLe, DecodeLe;
  }

  /** The bytes of an object's copy. */
  function Fixed(h: Heap, p: Placement, o: nat): (s: seq<uint8>)
    requires Addressable(h, p) && o in h.objects
    ensures |s| == |h.objects[o].bytes|
  {
    hide Writes, Addressable, Apply;
    WritesAreApart(h, p, o);
    Apply(h.objects[o].bytes, Writes(h, p, o), |Writes(h, p, o)|)
  }

  ghost predicate HasRoom(h: Heap, p: Placement, o: nat, size: nat) {
    Addressable(h, p) && o in h.objects && o in p.offset && p.offset[o] + |h.objects[o].bytes| <= size
  }

  /** The image with the copy of `o` after its first `n` writes. */
  ghost function PartialCopy(h: Heap, p: Placement, o: nat, image: seq<uint8>, n: nat): (r: seq<uint8>)
    requires HasRoom(h, p, o, |image|) && n <= |Writes(h, p, o)|
    ensures |r| == |image|
  {
    hide Addressable, Writes, Apply;
    WritesAreApart(h, p, o);
    Splice(image, p.offset[o], Apply(h.objects[o].bytes, Writes(h, p, o), n))
  }

  /** One more write of an object, done in place in the image. */
  lemma NextWrite(h: Heap, p: Placement, o: nat, image: seq<uint8>, n: nat)
    requires HasRoom(h, p, o, |image|) && 0 < n <= |Writes(h, p, o)|
    ensures var w := Writes(h, p, o)[n - 1];
            p.offset[o] + w.at + |w.data| <= |image| &&
            Splice(PartialCopy(h, p, o, image, n - 1), p.offset[o] + w.at, w.data) == PartialCopy(h, p, o, image, n)
  {
    hide Addressable, Writes, Apply, Splice;
    WritesAreApart(h, p, o);
    var ws, bytes := Writes(h, p, o), h.objects[o].bytes;
    ApplyStep(bytes, ws, n);
    SpliceInSplice(image, p.offset[o], Apply(bytes, ws, n - 1), ws[n - 1].at, ws[n - 1].data);
  }

  /** A copy starts with the object's bytes and ends as its fixed-up form. */
  lemma CopyEnds(h: Heap, p: Placement, o: nat, image: seq<uint8>)
    requires HasRoom(h, p, o, |image|)
    ensures PartialCopy(h, p, o, image, 0) == Splice(image, p.offset[o], h.objects[o].bytes)
    ensures PartialCopy(h, p, o, image, |Writes(h, p, o)|) == Splice(image, p.offset[o], Fixed(h, p, o))
  {
    hide Addressable, Writes, Splice;
    WritesAreApart(h, p, o);
  }

  lemma LockWriteIs(h: Heap, p: Placement, o: nat)
    requires Addressable(h, p) && o in h.objects
    ensures RestoredLock(p, o) < WORD && Writes(h, p, o)[0] == Write(4, Le32(RestoredLock(p, o)))
  {
    hide Addressable, Writes, RestoredLock, Le32;
    LockIsWord(h, p, o);
    WriteAt(h, p, o, 0);
  }

  lemma NativeWriteIs(h: Heap, p: Placement, o: nat, i: nat)
    requires Addressable(h, p) && o in h.objects && i < |h.objects[o].natives|
    ensures var f := h.objects[o].natives[i];
            f + h.ptrSize <= |h.objects[o].bytes| &&
            var n := PointerAt(h.objects[o].bytes, f, h.ptrSize);
            (n == 0 || n in p.record) && Writes(h, p, o)[1 + i] == Write(f, EncodeLe(RecordAddress(p, n), h.ptrSize))
  {
    hide Addressable, Writes, EncodeLe, PointerAt, RecordAddress;
    RecordKnown(h, p, o, h.objects[o].natives[i]);
    WriteAt(h, p, o, 1 + i);
  }

  lemma RefWriteIs(h: Heap, p: Placement, o: nat, i: nat)
    requires Addressable(h, p) && o in h.objects && i < |h.objects[o].refs|
    ensures h.objects[o].refs[i] + 4 <= |h.objects[o].bytes|
    ensures var t := WordAt(h.objects[o].bytes, h.objects[o].refs[i]);
            (t == 0 || t in p.offset) && ImageAddress(p, t) < WORD &&
            Writes(h, p, o)[1 + |h.objects[o].natives| + i] == Write(h.objects[o].refs[i], Le32(ImageAddress(p, t)))
  {
    hide Addressable, Writes, Le32, WordAt, ImageAddress;
    TargetKnown(h, p, o, i);
    WriteAt(h, p, o, 1 + |h.objects[o].natives| + i);
  }

  // ---------------------------------------------------------------- duplicates of a string

  /** Alike but for the lock word. */
  predicate Alike(x: seq<uint8>, y: seq<uint8>) {
    |x| == |y| && forall i :: 0 <= i < |x| && !(4 <= i < 8) ==> x[i] == y[i]
  }

  lemma {:induction false} ApplyAlike(x: seq<uint8>, y: seq<uint8>, ws: seq<Write>, vs: seq<Write>, n: nat)
    requires Alike(x, y) && n <= |ws| && |ws| == |vs| && WritesFit(|x|, ws) && WritesFit(|y|, vs)
    requires forall i :: 0 <= i < n ==>
               ws[i] == vs[i] || (ws[i].at == vs[i].at == 4 && |ws[i].data| == |vs[i].data| == 4)
    ensures Alike(Apply(x, ws, n), Apply(y, vs, n))
  {
    if n > 0 {
      ApplyAlike(x, y, ws, vs, n - 1);
      SpliceAlike(Apply(x, ws, n - 1), Apply(y, vs, n - 1), ws[n - 1], vs[n - 1]);
    }
  }

  lemma SpliceAlike(x: seq<uint8>, y: seq<uint8>, w: Write, v: Write)
    requires Alike(x, y) && w.at + |w.data| <= |x| && v.at + |v.data| <= |y|
    requires w == v || (w.at == v.at == 4 && |w.data| == |v.data| == 4)
    ensures Alike(Splice(x, w.at, w.data), Splice(y, v.at, v.data))
  {
    var r, t := Splice(x, w.at, w.data), Splice(y, v.at, v.data);
    forall i | 0 <= i < |x| && !(4 <= i < 8) ensures r[i] == t[i] {
      if w.at <= i < w.at + |w.data| {
        assert r[i] == r[w.at..w.at + |w.data|][i - w.at];
        assert t[i] == t[v.at..v.at + |v.data|][i - v.at];
      }
    }
  }

  ghost predicate SameFields(x: Object, y: Object) {
    Alike(x.bytes, y.bytes) && x.refs == y.refs && x.natives == y.natives
  }

  lemma RepHasSameFields(h: Heap, o: nat)
    requires InternsConsistently(h) && o in h.objects
    ensures Rep(h, o) in h.objects && SameFields(h.objects[o], h.objects[Rep(h, o)])
  {
    if h.objects[o].kind.StringObject? {
      assert SameString(h.objects[o], h.objects[h.interned[o]]);
    }
  }

  lemma FixedAlike(h: Heap, p: Placement, o: nat, q: nat)
    requires Addressable(h, p) && o in h.objects && q in h.objects && SameFields(h.objects[o], h.objects[q])
    ensures Alike(Fixed(h, p, o), Fixed(h, p, q))
  {
    hide Addressable, Writes, Apply, Alike, NativeWrite, RefWrite, LockWrite;
    var ws, vs := Writes(h, p, o), Writes(h, p, q);
    WritesAreApart(h, p, o);
    WritesAreApart(h, p, q);
    forall i | 0 <= i < |ws|
      ensures ws[i] == vs[i] || (ws[i].at == vs[i].at == 4 && |ws[i].data| == |vs[i].data| == 4)
    {
      WriteAt(h, p, o, i);
      WriteAt(h, p, q, i);
      WriteShape(h, p, o, i);
      WriteShape(h, p, q, i);
      var n := |h.objects[o].natives|;
      if 0 < i <= n {
        SameNativeWrite(h, p, o, q, i - 1);
      } else if n < i {
        SameRefWrite(h, p, o, q, i - 1 - n);
      }
    }
    AlikeLength(h.objects[o].bytes, h.objects[q].bytes);
    ApplyAlike(h.objects[o].bytes, h.objects[q].bytes, ws, vs, |ws|);
  }

  lemma AlikeLength(x: seq<uint8>, y: seq<uint8>)
    requires Alike(x, y)
    ensures |x| == |y|
  {
  }

  lemma AlikeSlice(x: seq<uint8>, y: seq<uint8>, a: nat, c: nat)
    requires Alike(x, y) && a <= c <= |x| && (c <= 4 || 8 <= a)
    ensures x[a..c] == y[a..c]
  {
  }

  lemma SameNativeWrite(h: Heap, p: Placement, o: nat, q: nat, i: nat)
    requires Addressable(h, p) && o in h.objects && q in h.objects && SameFields(h.objects[o], h.objects[q])
    requires i < |h.objects[o].natives|
    ensures NativeWrite(h, p, o, i) == NativeWrite(h, p, q, i)
  {
    hide Addressable, EncodeLe, DecodeLe, RecordAddress, KnownPointer, Alike;
    GoodAt(h, p, o);
    var f := h.objects[o].natives[i];
    AlikeSlice(h.objects[o].bytes, h.objects[q].bytes, f, f + h.ptrSize);
  }

  lemma SameRefWrite(h: Heap, p: Placement, o: nat, q: nat, i: nat)
    requires Addressable(h, p) && o in h.objects && q in h.objects && SameFields(h.objects[o], h.objects[q])
    requires i < |h.objects[o].refs|
    ensures RefWrite(h, p, o, i) == RefWrite(h, p, q, i)
  {
    hide Addressable, Le32, FromLe32, ImageAddress, Alike;
    GoodAt(h, p, o);
    var f := h.objects[o].refs[i];
    AlikeSlice(h.objects[o].bytes, h.objects[q].bytes, f, f + 4);
  }

  // ---------------------------------------------------------------- the whole image

  /** Objects other than duplicates of a string lie apart; everything is inside the image. */
  ghost predicate WellPlaced(h: Heap, p: Placement, size: nat) {
    Addressable(h, p) && InternsConsistently(h) &&
    (forall o :: o in h.objects ==> p.offset[o] + |h.objects[o].bytes| <= size) &&
    (forall o, q :: o in h.objects && q in h.objects ==> PairPlaced(h, p, o, q))
  }

  ghost predicate PairPlaced(h: Heap, p: Placement, o: nat, q: nat)
    requires o in h.objects && q in h.objects && o in p.offset && q in p.offset
  {
    if Rep(h, o) == Rep(h, q) then p.offset[o] == p.offset[q]
    else p.offset[o] + |h.objects[o].bytes| <= p.offset[q] || p.offset[q] + |h.objects[q].bytes| <= p.offset[o]
  }

  /** The image after the first `k` objects were copied. */
  function CopyUpTo(h: Heap, p: Placement, objects: seq<nat>, k: nat, image: seq<uint8>): (r: seq<uint8>)
    requires WellPlaced(h, p, |image|) && k <= |objects| && forall i :: 0 <= i < |objects| ==> objects[i] in h.objects
    ensures |r| == |image|
  {
    hide Addressable, InternsConsistently, PairPlaced, Fixed;
    if k == 0 then image
    else Splice(CopyUpTo(h, p, objects, k - 1, image), p.offset[objects[k - 1]], Fixed(h, p, objects[k - 1]))
  }

  /** No other object is a duplicate of `o`. */
  ghost predicate Alone(h: Heap, o: nat)
    requires o in h.objects
  {
    forall q :: q in h.objects && q != o ==> Rep(h, q) != Rep(h, o)
  }

  /** The image holds the copy of `o`, with its own lock word unless `o` has a duplicate. */
  ghost predicate Copied(h: Heap, p: Placement, image: seq<uint8>, o: nat)
    requires Addressable(h, p) && o in h.objects
  {
    p.offset[o] + |h.objects[o].bytes| <= |image| &&
    forall i :: 0 <= i < |h.objects[o].bytes| && (!(4 <= i < 8) || Alone(h, o)) ==>
      image[p.offset[o] + i] == Fixed(h, p, o)[i]
  }

  lemma CopiedNow(h: Heap, p: Placement, image: seq<uint8>, o: nat)
    requires WellPlaced(h, p, |image|) && o in h.objects
    ensures p.offset[o] + |h.objects[o].bytes| <= |image|
    ensures Copied(h, p, Splice(image, p.offset[o], Fixed(h, p, o)), o)
  {
    hide Addressable, InternsConsistently, PairPlaced, Fixed, Alone;
    InDomain(h, p, |image|, o);
    var r, f := Splice(image, p.offset[o], Fixed(h, p, o)), Fixed(h, p, o);
    forall i | 0 <= i < |f| ensures r[p.offset[o] + i] == f[i] {
      assert r[p.offset[o]..p.offset[o] + |f|][i] == f[i];
    }
  }

  /** Copying another object does not disturb a copy made before. */
  lemma CopiedStays(h: Heap, p: Placement, image: seq<uint8>, o: nat, q: nat)
    requires WellPlaced(h, p, |image|) && o in h.objects && q in h.objects && o != q && Copied(h, p, image, q)
    ensures p.offset[o] + |h.objects[o].bytes| <= |image|
    ensures Copied(h, p, Splice(image, p.offset[o], Fixed(h, p, o)), q)
  {
    hide Addressable, InternsConsistently, Fixed, Alike, Splice;
    InDomain(h, p, |image|, o);
    InDomain(h, p, |image|, q);
    assert PairPlaced(h, p, o, q);
    if Rep(h, o) == Rep(h, q) {
      assert !Alone(h, q);
      RepHasSameFields(h, o);
      RepHasSameFields(h, q);
      FixedAlike(h, p, o, Rep(h, o));
      FixedAlike(h, p, q, Rep(h, q));
      AlikeThrough(Fixed(h, p, o), Fixed(h, p, Rep(h, o)), Fixed(h, p, q));
      CopyOfTwin(h, p, image, o, q);
    } else {
      CopyElsewhere(h, p, image, o, q);
    }
  }

  lemma InDomain(h: Heap, p: Placement, size: nat, o: nat)
    requires WellPlaced(h, p, size) && o in h.objects
    ensures o in p.offset && p.offset[o] + |h.objects[o].bytes| <= size
  {
    hide InternsConsistently, PairPlaced, Closed, KnownPointer;
  }

  lemma CopyElsewhere(h: Heap, p: Placement, image: seq<uint8>, o: nat, q: nat)
    requires WellPlaced(h, p, |image|) && o in h.objects && q in h.objects && Copied(h, p, image, q)
    requires p.offset[o] + |h.objects[o].bytes| <= p.offset[q] || p.offset[q] + |h.objects[q].bytes| <= p.offset[o]
    ensures p.offset[o] + |h.objects[o].bytes| <= |image|
    ensures Copied(h, p, Splice(image, p.offset[o], Fixed(h, p, o)), q)
  {
    hide Addressable, InternsConsistently, PairPlaced, Fixed, Alone;
    InDomain(h, p, |image|, o);
    InDomain(h, p, |image|, q);
  }

  lemma AlikeThrough(x: seq<uint8>, z: seq<uint8>, y: seq<uint8>)
    requires Alike(x, z) && Alike(y, z)
    ensures Alike(x, y)
  {
  }

  lemma CopyOfTwin(h: Heap, p: Placement, image: seq<uint8>, o: nat, q: nat)
    requires WellPlaced(h, p, |image|) && o in h.objects && q in h.objects && !Alone(h, q)
    requires p.offset[o] == p.offset[q] && Alike(Fixed(h, p, o), Fixed(h, p, q))
    ensures p.offset[o] + |h.objects[o].bytes| <= |image|
    ensures Copied(h, p, Splice(image, p.offset[o], Fixed(h, p, o)), q)
  {
    hide Addressable, InternsConsistently, PairPlaced, Fixed, Alone, Splice;
    InDomain(h, p, |image|, o);
    InDomain(h, p, |image|, q);
    AlikeInside(image, p.offset[o], Fixed(h, p, o), Fixed(h, p, q));
  }

  lemma AlikeInside(image: seq<uint8>, at: nat, f: seq<uint8>, g: seq<uint8>)
    requires at + |f| <= |image| && Alike(f, g)
    ensures forall i :: 0 <= i < |g| && !(4 <= i < 8) ==> Splice(image, at, f)[at + i] == g[i]
  {
    var r := Splice(image, at, f);
    forall i | 0 <= i < |g| && !(4 <= i < 8) ensures r[at + i] == g[i] {
      assert r[at..at + |f|][i] == f[i];
    }
  }

  lemma {:induction false} AllCopied(h: Heap, p: Placement, objects: seq<nat>, k: nat, image: seq<uint8>)
    requires WellPlaced(h, p, |image|) && k <= |objects| && forall i :: 0 <= i < |objects| ==> objects[i] in h.objects
    ensures forall i :: 0 <= i < k ==> Copied(h, p, CopyUpTo(h, p, objects, k, image), objects[i])
  {
    hide *;
    if k > 0 {
      AllCopied(h, p, objects, k - 1, image);
      var before, o := CopyUpTo(h, p, objects, k - 1, image), objects[k - 1];
      CopyStep(h, p, objects, k, image);
      forall i | 0 <= i < k ensures Copied(h, p, CopyUpTo(h, p, objects, k, image), objects[i]) {
        if objects[i] == o {
          CopiedNow(h, p, before, o);
        } else {
          CopiedStays(h, p, before, o, objects[i]);
        }
      }
    }
  }

  lemma CopyStep(h: Heap, p: Placement, objects: seq<nat>, k: nat, image: seq<uint8>)
    requires WellPlaced(h, p, |image|) && 0 < k <= |objects|
    requires forall i :: 0 <= i < |objects| ==> objects[i] in h.objects
    ensures var o := objects[k - 1];
            Addressable(h, p) && o in p.offset && p.offset[o] + |h.objects[o].bytes| <= |image| &&
            CopyUpTo(h, p, objects, k, image) ==
              Splice(CopyUpTo(h, p, objects, k - 1, image), p.offset[o], Fixed(h, p, o))
  {
    hide InternsConsistently, PairPlaced, Addressable, Fixed, Splice;
    InDomain(h, p, |image|, objects[k - 1]);
  }

  // ---------------------------------------------------------------- reading the image

  /** The finished image of a heap whose objects were all visited. */
  ghost predicate ImageOf(h: Heap, p: Placement, image: seq<uint8>) {
    WellPlaced(h, p, |image|) && forall o :: o in h.objects ==> Copied(h, p, image, o)
  }

  lemma ImageIsComplete(h: Heap, p: Placement, objects: seq<nat>, image: seq<uint8>)
    requires WellPlaced(h, p, |image|) && forall o :: o in h.objects <==> o in objects
    requires forall i :: 0 <= i < |objects| ==> objects[i] in h.objects
    ensures ImageOf(h, p, CopyUpTo(h, p, objects, |objects|, image))
  {
    hide WellPlaced, Copied, CopyUpTo;
    AllCopied(h, p, objects, |objects|, image);
  }

  lemma CopiedSlice(h: Heap, p: Placement, image: seq<uint8>, o: nat, a: nat, c: nat)
    requires ImageOf(h, p, image) && o in h.objects && a <= c <= |h.objects[o].bytes| &&
             (c <= 4 || 8 <= a || Alone(h, o))
    ensures o in p.offset && p.offset[o] + c <= |image|
    ensures image[p.offset[o] + a..p.offset[o] + c] == Fixed(h, p, o)[a..c]
  {
    hide WellPlaced, Fixed, Alone;
    InDomain(h, p, |image|, o);
    PlacedIsAddressable(h, p, |image|);
    assert Copied(h, p, image, o);
    SliceAgrees(image, p.offset[o], Fixed(h, p, o), a, c);
  }

  lemma SliceAgrees(image: seq<uint8>, off: nat, f: seq<uint8>, a: nat, c: nat)
    requires off + |f| <= |image| && a <= c <= |f| && forall i :: a <= i < c ==> image[off + i] == f[i]
    ensures image[off + a..off + c] == f[a..c]
  {
    forall i | 0 <= i < c - a ensures image[off + a..off + c][i] == f[a..c][i] {
      assert image[off + (a + i)] == f[a + i];
    }
  }

  /** The bytes of a rewritten word, in the copy. */
  lemma FixedWord(h: Heap, p: Placement, o: nat, k: nat)
    requires Addressable(h, p) && o in h.objects && k < |Writes(h, p, o)|
    ensures var w := Writes(h, p, o)[k];
            w.at + |w.data| <= |h.objects[o].bytes| && Fixed(h, p, o)[w.at..w.at + |w.data|] == w.data
  {
    hide Addressable, Writes, Apply;
    WritesAreApart(h, p, o);
    ApplyStores(h.objects[o].bytes, Writes(h, p, o), |Writes(h, p, o)|, k);
  }

  /** Every reference is null or the image address of its target. */
  lemma ReferencePreserved(h: Heap, p: Placement, image: seq<uint8>, o: nat, i: nat)
    requires ImageOf(h, p, image) && o in h.objects && i < |h.objects[o].refs|
    ensures var f := h.objects[o].refs[i];
            o in p.offset && f + 4 <= |h.objects[o].bytes| && p.offset[o] + f + 4 <= |image| &&
            (WordAt(h.objects[o].bytes, f) == 0 || WordAt(h.objects[o].bytes, f) in p.offset) &&
            WordAt(image, p.offset[o] + f) == ImageAddress(p, WordAt(h.objects[o].bytes, f))
  {
    hide Writes, Fixed, Copied, WellPlaced, Addressable, FromLe32, Le32, WordAt, ImageAddress;
    PlacedIsAddressable(h, p, |image|);
    GoodAt(h, p, o);
    var f, k := h.objects[o].refs[i], 1 + |h.objects[o].natives| + i;
    WriteAt(h, p, o, k);
    WriteShape(h, p, o, k);
    FixedWord(h, p, o, k);
    CopiedSlice(h, p, image, o, f, f + 4);
    TargetKnown(h, p, o, i);
    assert RefWrite(h, p, o, i).data == Le32(ImageAddress(p, WordAt(h.objects[o].bytes, f)));
    WordOfSlice(image, p.offset[o] + f, ImageAddress(p, WordAt(h.objects[o].bytes, f)));
  }

  lemma WordOfSlice(s: seq<uint8>, at: nat, x: uint32)
    requires at + 4 <= |s| && s[at..at + 4] == Le32(x)
    ensures WordAt(s, at) == x
  {
    hide Le32, FromLe32;
    Le32RoundTrip(x);
  }

  lemma PlacedIsAddressable(h: Heap, p: Placement, size: nat)
    requires WellPlaced(h, p, size)
    ensures Addressable(h, p)
  {
  }

  lemma TargetKnown(h: Heap, p: Placement, o: nat, i: nat)
    requires Addressable(h, p) && o in h.objects && i < |h.objects[o].refs|
    ensures var f := h.objects[o].refs[i];
            f + 4 <= |h.objects[o].bytes| &&
            var t := WordAt(h.objects[o].bytes, f);
            (t == 0 || t in p.offset) && ImageAddress(p, t) < WORD
  {
    hide WordAt, KnownPointer;
    GoodAt(h, p, o);
    assert h.objects[o].refs[i] in h.objects[o].refs;
  }

  /** Every native pointer is null or the image address of its record. */
  lemma NativePointerPreserved(h: Heap, p: Placement, image: seq<uint8>, o: nat, i: nat)
    requires ImageOf(h, p, image) && o in h.objects && i < |h.objects[o].natives|
    ensures var f, w := h.objects[o].natives[i], h.ptrSize;
            o in p.offset && f + w <= |h.objects[o].bytes| && p.offset[o] + f + w <= |image| &&
            var n := PointerAt(h.objects[o].bytes, f, w);
            (n == 0 || n in p.record) && PointerAt(image, p.offset[o] + f, w) == RecordAddress(p, n)
  {
    hide Writes, Fixed, Copied, WellPlaced, Addressable, EncodeLe, DecodeLe, RecordAddress, Pow256;
    PlacedIsAddressable(h, p, |image|);
    GoodAt(h, p, o);
    var f, w, k := h.objects[o].natives[i], h.ptrSize, 1 + i;
    WriteAt(h, p, o, k);
    WriteShape(h, p, o, k);
    FixedWord(h, p, o, k);
    CopiedSlice(h, p, image, o, f, f + w);
    RecordKnown(h, p, o, f);
    LeRoundTrip(RecordAddress(p, PointerAt(h.objects[o].bytes, f, w)), w);
  }

  lemma RecordKnown(h: Heap, p: Placement, o: nat, f: nat)
    requires Addressable(h, p) && o in h.objects && f in h.objects[o].natives
    ensures f + h.ptrSize <= |h.objects[o].bytes|
    ensures var n := PointerAt(h.objects[o].bytes, f, h.ptrSize);
            (n == 0 || n in p.record) && RecordAddress(p, n) < Pow256(h.ptrSize)
  {
    hide DecodeLe, Closed, Pow256;
    assert KnownPointer(h, p, o, f);
    WordFits(h.ptrSize);
  }

  /** The lock word of an object without duplicates is restored. */
  lemma LockWordPreserved(h: Heap, p: Placement, image: seq<uint8>, o: nat)
    requires ImageOf(h, p, image) && o in h.objects && Alone(h, o)
    ensures o in p.offset && p.offset[o] + 8 <= |image| && WordAt(image, p.offset[o] + 4) == RestoredLock(p, o)
  {
    hide Writes, Fixed, Copied, WellPlaced, Addressable, Le32, FromLe32, WordAt, Alone;
    PlacedIsAddressable(h, p, |image|);
    GoodAt(h, p, o);
    WriteAt(h, p, o, 0);
    FixedWord(h, p, o, 0);
    CopiedSlice(h, p, image, o, 4, 8);
    LockIsWord(h, p, o);
    WordOfSlice(image, p.offset[o] + 4, RestoredLock(p, o));
  }

  lemma LockIsWord(h: Heap, p: Placement, o: nat)
    requires Addressable(h, p)
    ensures RestoredLock(p, o) < WORD
  {
    hide Closed, KnownPointer;
  }

  /** All other bytes are those of the object. */
  lemma PlainBytePreserved(h: Heap, p: Placement, image: seq<uint8>, o: nat, b: nat)
    requires ImageOf(h, p, image) && o in h.objects && b < |h.objects[o].bytes| && !(4 <= b < 8)
    requires forall i :: 0 <= i < |h.objects[o].refs| ==> !(h.objects[o].refs[i] <= b < h.objects[o].refs[i] + 4)
    requires forall i :: 0 <= i < |h.objects[o].natives| ==>
               !(h.objects[o].natives[i] <= b < h.objects[o].natives[i] + h.ptrSize)
    ensures o in p.offset && p.offset[o] + b < |image| && image[p.offset[o] + b] == h.objects[o].bytes[b]
  {
    hide Writes, Copied, WellPlaced, Addressable, Apply, NativeWrite, RefWrite;
    PlacedIsAddressable(h, p, |image|);
    CopiedSlice(h, p, image, o, b, b + 1);
    WritesAreApart(h, p, o);
    var ws := Writes(h, p, o);
    forall i | 0 <= i < |ws| ensures b < ws[i].at || ws[i].at + |ws[i].data| <= b {
      WriteAt(h, p, o, i);
      WriteShape(h, p, o, i);
    }
    ApplyKeeps(h.objects[o].bytes, ws, |ws|, b);
    assert image[p.offset[o] + b..p.offset[o] + (b + 1)][0] == image[p.offset[o] + b];
  }

  // ---------------------------------------------------------------- paths through the graph

  /** Follows reference fields from object to object; 0 is null. */
  ghost predicate Leads(h: Heap, o: nat, path: seq<nat>)
    decreases |path|
  {
    path == [] ||
    (o in h.objects && path[0] in h.objects[o].refs && path[0] + 4 <= |h.objects[o].bytes| &&
     Leads(h, WordAt(h.objects[o].bytes, path[0]), path[1..]))
  }

  ghost function Follow(h: Heap, o: nat, path: seq<nat>): nat
    requires Leads(h, o, path)
    decreases |path|
  {
    if path == [] then o else Follow(h, WordAt(h.objects[o].bytes, path[0]), path[1..])
  }

  /** The same with nothing but the image and addresses. */
  function FollowImage(image: seq<uint8>, base: nat, address: nat, path: seq<nat>): nat
    decreases |path|
  {
    if path == [] then address
    else if address < base || address - base + path[0] + 4 > |image| then 0
    else FollowImage(image, base, WordAt(image, address - base + path[0]), path[1..])
  }

  /** Every path of fields reaches, in the image, the copy of what it reaches in the heap. */
  lemma {:induction false} PathsPreserved(h: Heap, p: Placement, image: seq<uint8>, o: nat, path: seq<nat>)
    requires ImageOf(h, p, image) && (o == 0 || o in p.offset) && Leads(h, o, path)
    ensures Follow(h, o, path) == 0 || Follow(h, o, path) in p.offset
    ensures FollowImage(image, p.base, ImageAddress(p, o), path) == ImageAddress(p, Follow(h, o, path))
    decreases |path|
  {
    hide ImageOf, WordAt, ImageAddress;
    if path != [] {
      FieldPreserved(h, p, image, o, path[0]);
      PathsPreserved(h, p, image, WordAt(h.objects[o].bytes, path[0]), path[1..]);
    }
  }

  lemma FieldPreserved(h: Heap, p: Placement, image: seq<uint8>, o: nat, f: nat)
    requires ImageOf(h, p, image) && o in h.objects && f in h.objects[o].refs && f + 4 <= |h.objects[o].bytes|
    ensures o in p.offset && p.base <= ImageAddress(p, o) && ImageAddress(p, o) - p.base + f + 4 <= |image|
    ensures var t := WordAt(h.objects[o].bytes, f);
            (t == 0 || t in p.offset) && WordAt(image, ImageAddress(p, o) - p.base + f) == ImageAddress(p, t)
  {
    hide ImageOf, WordAt;
    NullIsNoObject(h, p, image);
    var i :| 0 <= i < |h.objects[o].refs| && h.objects[o].refs[i] == f;
    ReferencePreserved(h, p, image, o, i);
  }

  lemma NullIsNoObject(h: Heap, p: Placement, image: seq<uint8>)
    requires ImageOf(h, p, image)
    ensures 0 !in h.objects && p.offset.Keys == h.objects.Keys
  {
    hide Copied, KnownPointer, PairPlaced, InternsConsistently, GoodObject;
  }

  /** Two objects share an image address exactly when they are duplicates of one string. */
  lemma SameAddressIff(h: Heap, p: Placement, image: seq<uint8>, o: nat, q: nat)
    requires ImageOf(h, p, image) && o in h.objects && q in h.objects
    ensures o in p.offset && q in p.offset
    ensures ImageAddress(p, o) == ImageAddress(p, q) <==> Rep(h, o) == Rep(h, q)
  {
    hide Copied, Rep, Addressable, InternsConsistently;
    NullIsNoObject(h, p, image);
    PlacedIsAddressable(h, p, |image|);
    GoodAt(h, p, o);
    GoodAt(h, p, q);
    assert PairPlaced(h, p, o, q);
  }
}
