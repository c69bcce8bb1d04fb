/**
 * The heap that is written to a boot image: objects with their bytes and reference fields, interned
 * strings, native field and method records, and the fixed layout of dex cache arrays.
 */
module ImageHeap {
  import opened Arith
  import opened Words
  import opened Totals

  const OBJECT_ALIGNMENT: nat := 8
  const IMAGE_HEADER_SIZE: nat := 140

  const BIN_DEX_CACHE_ARRAY: nat := 0
  const BIN_STRING: nat := 1
  const BIN_REGULAR: nat := 3
  const BIN_CLASS_INITIALIZED_FINAL_STATICS: nat := 4
  const BIN_CLASS_INITIALIZED: nat := 5
  const BIN_CLASS_VERIFIED: nat := 6
  const BIN_ART_FIELD: nat := 7
  const BIN_ART_METHOD_CLEAN: nat := 8
  const BIN_ART_METHOD_DIRTY: nat := 9
  const BIN_MIRROR_COUNT: nat := 7
  const BIN_SIZE: nat := 10

  datatype ArtMethod = ArtMethod(id: nat, native: bool, declaringClassInitialized: bool)

  function WillMethodBeDirty(m: ArtMethod): bool {
    m.native || !m.declaringClassInitialized
  }

  datatype Kind =
    | ClassObject(initialized: bool, staticIsFinal: seq<bool>, fields: seq<nat>, direct: seq<ArtMethod>,
                  virtuals: seq<ArtMethod>)
    | StringObject
    | PlainArray  // an array of references, ints or longs
    | OtherObject

  /**
   * An object in memory. `refs` are the offsets of its reference fields, the class pointer at 0 among
   * them; `walk` lists those the heap walk follows, in its order; `natives` are the offsets of pointers
   * to native records. The lock word, at offset 4, is kept apart because the writer overwrites it.
   */
  datatype Object = Object(kind: Kind, bytes: seq<uint8>, lockWord: uint32, refs: seq<nat>, walk: seq<nat>,
                           natives: seq<nat>)

  datatype DexCache = DexCache(types: nat, methods: nat, fields: nat, strings: nat, numTypes: nat, numMethods: nat,
                               numFields: nat, numStrings: nat)

  datatype Heap = Heap(objects: map<nat, Object>, interned: map<nat, nat>, dexCaches: seq<DexCache>,
                       runtimeMethods: seq<nat>, ptrSize: nat, methodSize: nat)

  // ---------------------------------------------------------------- dex cache arrays

  /** The object size rounded up to 64-bit alignment. */
  function Aligned(size: nat): (r: nat)
    ensures size <= r < size + OBJECT_ALIGNMENT && r % OBJECT_ALIGNMENT == 0
  {
    hide RoundUp;
    RoundUpIsLeast(size, OBJECT_ALIGNMENT);
    RoundUp(size, OBJECT_ALIGNMENT)
  }

  /** `ComputeArraySize` rounded up: header, then elements of 4 or 8 bytes. */
  function ArraySize(elementSize: nat, n: nat): (r: nat)
    ensures r % OBJECT_ALIGNMENT == 0 && r > 0
  {
    Aligned((if elementSize == 8 then 16 else 12) + elementSize * n)
  }

  datatype Location = Location(offset: nat, length: nat)

  datatype Prepared = Prepared(arrays: map<nat, Location>, size: nat)

  function Append(p: Prepared, x: nat, length: nat): Prepared {
    Prepared(p.arrays[x := Location(p.size, length)], p.size + length)
  }

  /** Types, methods, strings and fields, in that order, after the arrays of the earlier dex caches. */
  function PrepareOne(ptrSize: nat, c: DexCache, p: Prepared): Prepared {
    var p1 := Append(p, c.types, ArraySize(4, c.numTypes));
    var p2 := Append(p1, c.methods, ArraySize(ptrSize, c.numMethods));
    var p3 := Append(p2, c.strings, ArraySize(4, c.numStrings));
    Append(p3, c.fields, ArraySize(ptrSize, c.numFields))
  }

  function PrepareUpTo(ptrSize: nat, caches: seq<DexCache>, k: nat): Prepared
    requires k <= |caches|
  {
    if k == 0 then Prepared(map[], 0) else PrepareOne(ptrSize, caches[k - 1], PrepareUpTo(ptrSize, caches, k - 1))
  }

  function ArraysOf(c: DexCache): set<nat> {
    {c.types, c.methods, c.fields, c.strings}
  }

  predicate FourArrays(c: DexCache) {
    c.types != c.methods && c.types != c.fields && c.types != c.strings &&
    c.methods != c.fields && c.methods != c.strings && c.fields != c.strings
  }

  /** `SafeMap::Put` demands that no array belongs to two dex caches or to one of them twice. */
  ghost predicate DistinctArrays(caches: seq<DexCache>) {
    (forall i :: 0 <= i < |caches| ==> FourArrays(caches[i])) &&
    (forall i, j :: 0 <= i < j < |caches| ==> ArraysOf(caches[i]) !! ArraysOf(caches[j]))
  }

  function ArraysUpTo(caches: seq<DexCache>, k: nat): set<nat>
    requires k <= |caches|
  {
    if k == 0 then {} else ArraysUpTo(caches, k - 1) + ArraysOf(caches[k - 1])
  }

  lemma {:induction false} FreshArrays(caches: seq<DexCache>, k: nat, j: nat)
    requires k <= j < |caches| && DistinctArrays(caches)
    ensures ArraysUpTo(caches, k) !! ArraysOf(caches[j]) && FourArrays(caches[j])
  {
    if k > 0 {
      hide ArraysOf;
      FreshArrays(caches, k - 1, j);
    }
  }

  /** The arrays lie aligned and disjoint inside the bin. */
  ghost predicate Tiled(p: Prepared) {
    p.size % OBJECT_ALIGNMENT == 0 &&
    (forall x :: x in p.arrays ==>
      var l := p.arrays[x];
      l.offset % OBJECT_ALIGNMENT == 0 && l.length % OBJECT_ALIGNMENT == 0 && l.length > 0 &&
      l.offset + l.length <= p.size) &&
    (forall x, y :: x in p.arrays && y in p.arrays && x != y ==> Apart(p.arrays[x], p.arrays[y]))
  }

  predicate Apart(l: Location, m: Location) {
    l.offset + l.length <= m.offset || m.offset + m.length <= l.offset
  }

  /** The same in the order and with the offsets in which the arrays are registered. */
  lemma PrepareOneByOffsets(ptrSize: nat, c: DexCache, p: Prepared)
    requires FourArrays(c)
    ensures var types, methods := ArraySize(4, c.numTypes), ArraySize(ptrSize, c.numMethods);
            var strings, fields := ArraySize(4, c.numStrings), ArraySize(ptrSize, c.numFields);
            PrepareOne(ptrSize, c, p) ==
            Prepared(p.arrays[c.types := Location(p.size, types)]
                             [c.methods := Location(p.size + types, methods)]
                             [c.fields := Location(p.size + (types + methods + strings), fields)]
                             [c.strings := Location(p.size + (types + methods), strings)],
                     p.size + (types + methods + strings) + fields)
  {
    hide ArraySize;
  }

  lemma AppendTiles(p: Prepared, x: nat, length: nat)
    requires Tiled(p) && x !in p.arrays && length % OBJECT_ALIGNMENT == 0 && length > 0
    ensures Tiled(Append(p, x, length))
  {
  }

  lemma PrepareOneTiles(ptrSize: nat, c: DexCache, p: Prepared)
    requires Tiled(p) && FourArrays(c) && ArraysOf(c) !! p.arrays.Keys
    ensures Tiled(PrepareOne(ptrSize, c, p))
    ensures PrepareOne(ptrSize, c, p).arrays.Keys == p.arrays.Keys + ArraysOf(c)
    ensures forall x :: x in p.arrays ==> PrepareOne(ptrSize, c, p).arrays[x] == p.arrays[x]
  {
    hide ArraySize, Tiled;
    var p1 := Append(p, c.types, ArraySize(4, c.numTypes));
    var p2 := Append(p1, c.methods, ArraySize(ptrSize, c.numMethods));
    var p3 := Append(p2, c.strings, ArraySize(4, c.numStrings));
    AppendTiles(p, c.types, ArraySize(4, c.numTypes));
    AppendTiles(p1, c.methods, ArraySize(ptrSize, c.numMethods));
    AppendTiles(p2, c.strings, ArraySize(4, c.numStrings));
    AppendTiles(p3, c.fields, ArraySize(ptrSize, c.numFields));
  }

  lemma {:induction false} PrepareTiles(ptrSize: nat, caches: seq<DexCache>, k: nat)
    requires k <= |caches| && DistinctArrays(caches)
    ensures Tiled(PrepareUpTo(ptrSize, caches, k))
    ensures PrepareUpTo(ptrSize, caches, k).arrays.Keys == ArraysUpTo(caches, k)
  {
    hide ArraySize, Tiled, PrepareOne, ArraysOf, DistinctArrays, FourArrays;
    if k == 0 {
      NothingPrepared(map[]);
    } else {
      PrepareTiles(ptrSize, caches, k - 1);
      FreshArrays(caches, k - 1, k - 1);
      PrepareOneTiles(ptrSize, caches[k - 1], PrepareUpTo(ptrSize, caches, k - 1));
    }
  }

  lemma NothingPrepared(d: Sizes)
    ensures Tiled(Prepared(map[], 0)) && Summed(d, Prepared(map[], 0))
  {
    TotalEmpty(d);
  }

  /** The size of a bin is the sum of its arrays. */
  ghost predicate Summed(d: Sizes, p: Prepared) {
    p.size == Total(d, p.arrays.Keys)
  }

  lemma AppendSums(d: Sizes, p: Prepared, x: nat, length: nat)
    requires Summed(d, p) && x !in p.arrays && At(d, x) == length
    ensures Summed(d, Append(p, x, length))
  {
    hide Total, At;
    TotalInsert(d, p.arrays.Keys, x);
    assert Append(p, x, length).arrays.Keys == p.arrays.Keys + {x};
  }

  lemma PrepareOneSums(ptrSize: nat, c: DexCache, p: Prepared, d: Sizes)
    requires Summed(d, p) && FourArrays(c) && ArraysOf(c) !! p.arrays.Keys
    requires var q := PrepareOne(ptrSize, c, p); forall x :: x in q.arrays ==> At(d, x) == q.arrays[x].length
    ensures Summed(d, PrepareOne(ptrSize, c, p))
  {
    hide ArraySize, Summed, At;
    var p1 := Append(p, c.types, ArraySize(4, c.numTypes));
    var p2 := Append(p1, c.methods, ArraySize(ptrSize, c.numMethods));
    var p3 := Append(p2, c.strings, ArraySize(4, c.numStrings));
    AppendSums(d, p, c.types, ArraySize(4, c.numTypes));
    AppendSums(d, p1, c.methods, ArraySize(ptrSize, c.numMethods));
    AppendSums(d, p2, c.strings, ArraySize(4, c.numStrings));
    AppendSums(d, p3, c.fields, ArraySize(ptrSize, c.numFields));
  }

  lemma {:induction false} PrepareSums(ptrSize: nat, caches: seq<DexCache>, k: nat, d: Sizes)
    requires k <= |caches| && DistinctArrays(caches)
    requires var p := PrepareUpTo(ptrSize, caches, k); forall x :: x in p.arrays ==> At(d, x) == p.arrays[x].length
    ensures Summed(d, PrepareUpTo(ptrSize, caches, k))
  {
    hide ArraySize, PrepareOne, Summed, At, Tiled, ArraysOf, DistinctArrays, FourArrays, ArraysUpTo;
    if k == 0 {
      NothingPrepared(d);
    } else {
      var p := PrepareUpTo(ptrSize, caches, k - 1);
      PrepareTiles(ptrSize, caches, k - 1);
      FreshArrays(caches, k - 1, k - 1);
      PrepareOneTiles(ptrSize, caches[k - 1], p);
      PrepareSums(ptrSize, caches, k - 1, d);
      PrepareOneSums(ptrSize, caches[k - 1], p, d);
    }
  }

  /** Registering further dex caches moves no array. */
  lemma {:induction false} ArraysStay(ptrSize: nat, caches: seq<DexCache>, k: nat, n: nat, x: nat)
    requires k <= n <= |caches| && DistinctArrays(caches) && x in PrepareUpTo(ptrSize, caches, k).arrays
    ensures x in PrepareUpTo(ptrSize, caches, n).arrays
    ensures PrepareUpTo(ptrSize, caches, n).arrays[x] == PrepareUpTo(ptrSize, caches, k).arrays[x]
    decreases n
  {
    hide PrepareOne, Tiled, ArraysOf, DistinctArrays, FourArrays;
    if k < n {
      ArraysStay(ptrSize, caches, k, n - 1, x);
      PrepareTiles(ptrSize, caches, n - 1);
      FreshArrays(caches, n - 1, n - 1);
      PrepareOneTiles(ptrSize, caches[n - 1], PrepareUpTo(ptrSize, caches, n - 1));
    }
  }

  /** The four arrays of dex cache `k` follow each other from the start registered for its dex file. */
  lemma ArraysOfCache(ptrSize: nat, caches: seq<DexCache>, k: nat)
    requires k < |caches| && DistinctArrays(caches)
    ensures var c, all := caches[k], PrepareUpTo(ptrSize, caches, |caches|).arrays;
            var start := PrepareUpTo(ptrSize, caches, k).size;
            var types, methods, strings :=
              ArraySize(4, c.numTypes), ArraySize(ptrSize, c.numMethods), ArraySize(4, c.numStrings);
            c.types in all && all[c.types].offset == start &&
            c.methods in all && all[c.methods].offset == start + types &&
            c.strings in all && all[c.strings].offset == start + types + methods &&
            c.fields in all && all[c.fields].offset == start + types + methods + strings
  {
    hide *;
    var c, p := caches[k], PrepareUpTo(ptrSize, caches, k);
    FreshArrays(caches, k, k);
    PrepareOnePlaces(ptrSize, c, p);
    PrepareStep(ptrSize, caches, k);
    ArraysStay(ptrSize, caches, k + 1, |caches|, c.types);
    ArraysStay(ptrSize, caches, k + 1, |caches|, c.methods);
    ArraysStay(ptrSize, caches, k + 1, |caches|, c.strings);
    ArraysStay(ptrSize, caches, k + 1, |caches|, c.fields);
  }

  lemma PrepareOnePlaces(ptrSize: nat, c: DexCache, p: Prepared)
    requires FourArrays(c)
    ensures var all := PrepareOne(ptrSize, c, p).arrays;
            var types, methods, strings :=
              ArraySize(4, c.numTypes), ArraySize(ptrSize, c.numMethods), ArraySize(4, c.numStrings);
            c.types in all && all[c.types].offset == p.size &&
            c.methods in all && all[c.methods].offset == p.size + types &&
            c.strings in all && all[c.strings].offset == p.size + types + methods &&
            c.fields in all && all[c.fields].offset == p.size + types + methods + strings
  {
    hide ArraySize;
  }

  lemma PrepareStep(ptrSize: nat, caches: seq<DexCache>, k: nat)
    requires k < |caches|
    ensures PrepareUpTo(ptrSize, caches, k + 1) == PrepareOne(ptrSize, caches[k], PrepareUpTo(ptrSize, caches, k))
  {
    hide PrepareOne;
  }

  // ---------------------------------------------------------------- sizes, bins, representatives

  function Arrays(h: Heap): map<nat, Location> {
    PrepareUpTo(h.ptrSize, h.dexCaches, |h.dexCaches|).arrays
  }

  function ArraysSize(h: Heap): nat {
    PrepareUpTo(h.ptrSize, h.dexCaches, |h.dexCaches|).size
  }

  /** An object's own size, or the prepared length of a dex cache array. */
  function Reserved(h: Heap, o: nat): nat
    requires o in h.objects
  {
    if o in Arrays(h) then Arrays(h)[o].length else |h.objects[o].bytes|
  }

  function Delta(h: Heap, o: nat): (d: nat)
    requires o in h.objects
    ensures d % OBJECT_ALIGNMENT == 0
  {
    Aligned(Reserved(h, o))
  }

  function Deltas(h: Heap): (d: Sizes) {
    map o | o in h.objects :: Delta(h, o)
  }

  function BinOf(h: Heap, o: nat): (b: nat)
    requires o in h.objects
    ensures b < BIN_MIRROR_COUNT
  {
    match h.objects[o].kind
    case ClassObject(initialized, staticIsFinal, _, _, _) =>
      if !initialized then BIN_CLASS_VERIFIED
      else if forall i :: 0 <= i < |staticIsFinal| ==> staticIsFinal[i] then BIN_CLASS_INITIALIZED_FINAL_STATICS
      else BIN_CLASS_INITIALIZED
    case StringObject => BIN_STRING
    case PlainArray => if o in Arrays(h) then BIN_DEX_CACHE_ARRAY else BIN_REGULAR
    case OtherObject => BIN_REGULAR
  }

  /** The object whose slot `o` gets: the interned twin of a string, otherwise `o` itself. */
  function Rep(h: Heap, o: nat): nat
    requires o in h.objects
  {
    if h.objects[o].kind.StringObject? && o in h.interned then h.interned[o] else o
  }

  /** Ids of the field and method records that belong to an object. */
  function NativesOf(o: Object): seq<nat> {
    match o.kind
    case ClassObject(_, _, fields, direct, virtuals) => fields + Ids(direct) + Ids(virtuals)
    case _ => []
  }

  function Ids(ms: seq<ArtMethod>): (ids: seq<nat>)
    ensures |ids| == |ms|
    ensures forall i :: 0 <= i < |ms| ==> ids[i] == ms[i].id
  {
    seq(|ms|, i requires 0 <= i < |ms| => ms[i].id)
  }

  // ---------------------------------------------------------------- well-formed heaps

  /** Default, or an identity hash code with clear read barrier bits. */
  predicate Deflated(lockWord: uint32) {
    lockWord == 0 || 0x8000_0000 <= lockWord < 0x9000_0000
  }

  /** Reference words, native pointers and the lock word do not overlap. */
  predicate GoodObject(ptrSize: nat, o: Object) {
    |o.bytes| >= 8 && Deflated(o.lockWord) &&
    (forall i :: 0 <= i < |o.refs| ==> o.refs[i] + 4 <= |o.bytes| && (o.refs[i] + 4 <= 4 || o.refs[i] >= 8)) &&
    (forall i :: 0 <= i < |o.natives| ==> o.natives[i] >= 8 && o.natives[i] + ptrSize <= |o.bytes|) &&
    (forall i :: 0 <= i < |o.walk| ==> o.walk[i] in o.refs) &&
    (forall i, j :: 0 <= i < j < |o.refs| ==> o.refs[i] + 4 <= o.refs[j] || o.refs[j] + 4 <= o.refs[i]) &&
    (forall i, j :: 0 <= i < j < |o.natives| ==>
                      o.natives[i] + ptrSize <= o.natives[j] || o.natives[j] + ptrSize <= o.natives[i]) &&
    (forall i, j :: 0 <= i < |o.refs| && 0 <= j < |o.natives| ==>
                      o.refs[i] + 4 <= o.natives[j] || o.natives[j] + ptrSize <= o.refs[i])
  }

  /** References stay inside the heap; 0 is null. */
  ghost predicate Closed(h: Heap) {
    0 !in h.objects &&
    forall o :: o in h.objects ==>
      GoodObject(h.ptrSize, h.objects[o]) &&
      forall f :: f in h.objects[o].refs ==> var t := WordAt(h.objects[o].bytes, f); t == 0 || t in h.objects
  }

  /** Interning picks one string for all that agree with it everywhere but in the lock word. */
  ghost predicate InternsConsistently(h: Heap) {
    forall o :: o in h.objects && h.objects[o].kind.StringObject? ==>
      o in h.interned && h.interned[o] in h.objects && Rep(h, h.interned[o]) == h.interned[o] &&
      SameString(h.objects[o], h.objects[h.interned[o]])
  }

  predicate SameString(s: Object, t: Object) {
    t.kind.StringObject? && |s.bytes| == |t.bytes| && s.refs == t.refs && s.natives == t.natives &&
    (forall i :: 0 <= i < |s.bytes| && !(4 <= i < 8) ==> s.bytes[i] == t.bytes[i])
  }

  /** The prepared lengths leave room for the arrays of this heap. */
  ghost predicate ArraysFit(h: Heap) {
    DistinctArrays(h.dexCaches) &&
    forall x :: x in Arrays(h) ==>
      x in h.objects && h.objects[x].kind.PlainArray? && |h.objects[x].bytes| <= Arrays(h)[x].length
  }

  predicate NoRepeats(s: seq<nat>) {
    forall i, j :: 0 <= i < j < |s| ==> s[i] != s[j]
  }

  /** No record belongs to two classes, and runtime methods belong to none. */
  ghost predicate DistinctNatives(h: Heap) {
    NoRepeats(h.runtimeMethods) &&
    (forall o :: o in h.objects ==> NoRepeats(NativesOf(h.objects[o]))) &&
    (forall o, n :: o in h.objects && n in NativesOf(h.objects[o]) ==> n !in h.runtimeMethods) &&
    (forall o, p, n :: o in h.objects && p in h.objects && o != p && n in NativesOf(h.objects[o]) ==>
                         n !in NativesOf(h.objects[p]))
  }

  ghost predicate WellFormed(h: Heap) {
    (h.ptrSize == 4 || h.ptrSize == 8) && h.methodSize > 0 &&
    Closed(h) && InternsConsistently(h) && ArraysFit(h) && DistinctNatives(h)
  }
}
