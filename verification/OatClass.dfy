/**
 * Per-class records of the oat file: which methods have code, and where each method's offset
 * entry is. The runtime reader of the same record is modelled beside the writer.
 */
module OatClasses {
  import opened Arith
  import opened Words
  import opened SafeMap
  import opened OatTypes
  import opened Flatten

  datatype ClassType = AllCompiled | SomeCompiled | NoneCompiled {
    function Value(): nat {
      match this
      case AllCompiled => 0
      case SomeCompiled => 1
      case NoneCompiled => 2
    }
  }

  const OFFSETS_ENTRY_SIZE := 4
  const TYPE_AND_STATUS_SIZE := 4
  const BITMAP_SIZE_SIZE := 4

  function Le16(x: nat): (s: seq<uint8>)
    requires x < 0x1_0000
    ensures |s| == 2
  {
    [x % 0x100, x / 0x100]
  }

  // ---------------------------------------------------------------- bit vectors

  /** Storage for `bits` bits, in whole 32-bit words. */
  function StorageBits(bits: nat): nat {
    RoundUp(bits, 32)
  }

  function BitValue(b: bool): nat { if b then 1 else 0 }

  /** The number whose bits are `bits`, lowest first. */
  function BitsValue(bits: seq<bool>): (x: nat)
    ensures x < Pow2(|bits|)
  {
    if bits == [] then 0 else BitValue(bits[0]) + 2 * BitsValue(bits[1..])
  }

  function ByteOf(bits: seq<bool>): uint8
    requires |bits| == 8
  {
    assert Pow2(8) == 256;
    BitsValue(bits)
  }

  /** `(x >> b) & 1`. */
  predicate TestBit(x: nat, b: nat) {
    if b == 0 then x % 2 == 1 else TestBit(x / 2, b - 1)
  }

  lemma {:induction false} BitsRoundTrip(bits: seq<bool>, b: nat)
    requires b < |bits|
    ensures TestBit(BitsValue(bits), b) == bits[b]
  {
    HalfAndParity(bits[0], BitsValue(bits[1..]));
    if b > 0 {
      BitsRoundTrip(bits[1..], b - 1);
    }
  }

  lemma HalfAndParity(b: bool, rest: nat)
    ensures (BitValue(b) + 2 * rest) / 2 == rest
    ensures (BitValue(b) + 2 * rest) % 2 == 1 <==> b
  {
  }

  /** The raw storage of a bit vector: little-endian words, so plain bytes of ascending bits. */
  function RawStorage(bits: seq<bool>): (s: seq<uint8>)
    requires |bits| % 8 == 0
    ensures |s| == |bits| / 8
  {
    seq(|bits| / 8, i requires 0 <= i < |bits| / 8 => ByteOf(bits[8 * i..8 * i + 8]))
  }

  predicate IsBitSet(storage: seq<uint8>, index: nat)
    requires index < 8 * |storage|
  {
    TestBit(storage[index / 8], index % 8)
  }

  function NumSetBits(storage: seq<uint8>, end: nat): nat
    requires end <= 8 * |storage|
  {
    if end == 0 then 0 else NumSetBits(storage, end - 1) + BitValue(IsBitSet(storage, end - 1))
  }

  lemma StorageKeepsBits(bits: seq<bool>, index: nat)
    requires |bits| % 8 == 0 && index < |bits|
    ensures IsBitSet(RawStorage(bits), index) == bits[index]
  {
    hide BitsValue, TestBit;
    var i, b := index / 8, index % 8;
    assert 8 * i + 8 <= |bits|;
    BitsRoundTrip(bits[8 * i..8 * i + 8], b);
  }

  // ---------------------------------------------------------------- the writer's record

  /** Number of methods with code before method `i`. */
  function Rank(methods: seq<Option<Visited>>, i: nat): nat
    requires i <= |methods|
  {
    |Compact(methods[..i])|
  }

  lemma RankStep(methods: seq<Option<Visited>>, i: nat)
    requires i < |methods|
    ensures Rank(methods, i + 1) == Rank(methods, i) + BitValue(methods[i].Some?)
  {
    CompactStep(methods, i);
  }

  lemma {:induction false} RankBounds(methods: seq<Option<Visited>>, i: nat)
    requires i <= |methods|
    ensures Rank(methods, i) <= i
    ensures Rank(methods, i) == 0 ==> forall j :: 0 <= j < i ==> methods[j].None?
    ensures Rank(methods, i) == i ==> forall j :: 0 <= j < i ==> methods[j].Some?
  {
    if i > 0 {
      RankBounds(methods, i - 1);
      RankStep(methods, i - 1);
    }
  }

  lemma {:induction false} RankMonotone(methods: seq<Option<Visited>>, i: nat, j: nat)
    requires i <= j <= |methods|
    ensures Rank(methods, i) <= Rank(methods, j)
    decreases j
  {
    if i < j {
      RankMonotone(methods, i, j - 1);
      RankStep(methods, j - 1);
    }
  }

  function TypeOf(methods: seq<Option<Visited>>): ClassType {
    var compiled := Rank(methods, |methods|);
    if compiled == 0 then NoneCompiled
    else if compiled == |methods| then AllCompiled
    else SomeCompiled
  }

  /** Bytes of the record before its offset entries. */
  function PrefixSize(methods: seq<Option<Visited>>): nat {
    TYPE_AND_STATUS_SIZE
    + if TypeOf(methods).SomeCompiled? then BITMAP_SIZE_SIZE + StorageBits(|methods|) / 8 else 0
  }

  /** Bit `i` says whether method `i` has code; bits past the last method are clear. */
  ghost predicate MarksCompiled(bits: seq<bool>, methods: seq<Option<Visited>>, n: nat)
    requires n <= |methods|
  {
    && |bits| == StorageBits(|methods|)
    && (forall i :: 0 <= i < |bits| ==> (bits[i] <==> i < n && methods[i].Some?))
  }

  lemma StorageFits(bits: nat)
    ensures StorageBits(bits) >= bits && StorageBits(bits) % 8 == 0
  {
    RoundUpIsLeast(bits, 32);
    ModDivisor(StorageBits(bits), 4, 8);
  }

  class OatClass {
    const offset: nat
    const methods: seq<Option<Visited>>
    const status: nat
    var kind: ClassType
    var bitmap: seq<bool>
    var bitmapSize: nat
    var offsetsFromClass: seq<nat>
    var methodOffsets: seq<uint32>

    ghost predicate Valid()
      reads this
    {
      && status < 0x1_0000 && |methods| < WORD
      && kind == TypeOf(methods)
      && bitmapSize == PrefixSize(methods) - TYPE_AND_STATUS_SIZE - (if kind.SomeCompiled? then BITMAP_SIZE_SIZE else 0)
      && (kind.SomeCompiled? ==>
            && |bitmap| % 8 == 0 && |bitmap| / 8 < WORD && bitmapSize < WORD
            && MarksCompiled(bitmap, methods, |methods|))
      && |methodOffsets| == Rank(methods, |methods|)
      && |offsetsFromClass| == |methods|
      && (forall i :: 0 <= i < |methods| ==>
            offsetsFromClass[i] ==
            if methods[i].None? then 0 else PrefixSize(methods) + OFFSETS_ENTRY_SIZE * Rank(methods, i))
    }

    /** Every method's entry is placed after the prefix, by its rank among compiled methods. */
    constructor (offset: nat, methods: seq<Option<Visited>>, numCompiled: nat, status: nat)
      requires status < 0x1_0000 && |methods| < WORD && numCompiled == Rank(methods, |methods|)
      ensures Valid() && this.methods == methods && this.offset == offset && this.status == status
      ensures forall r :: 0 <= r < |methodOffsets| ==> methodOffsets[r] == 0
    {
      hide Rank, StorageBits;
      this.offset, this.methods, this.status := offset, methods, status;
      var n := |methods|;
      kind := if numCompiled == 0 then NoneCompiled else if numCompiled == n then AllCompiled else SomeCompiled;
      methodOffsets := seq(numCompiled, _ => 0);
      bitmap, bitmapSize := [], 0;
      offsetsFromClass := seq(n, _ => 0);
      new;
      ghost var zeros := methodOffsets;
      StorageFits(n);
      StorageSmall(n);
      var running := TYPE_AND_STATUS_SIZE;
      if kind.SomeCompiled? {
        bitmap := seq(StorageBits(n), _ => false);
        bitmapSize := StorageBits(n) / 8;
        running := running + BITMAP_SIZE_SIZE + bitmapSize;
      }
      ghost var size := bitmapSize;
      RankBounds(methods, 0);
      for i := 0 to n
        invariant running == PrefixSize(methods) + OFFSETS_ENTRY_SIZE * Rank(methods, i)
        invariant |offsetsFromClass| == n
        invariant forall j :: 0 <= j < i ==>
                    offsetsFromClass[j] ==
                    if methods[j].None? then 0 else PrefixSize(methods) + OFFSETS_ENTRY_SIZE * Rank(methods, j)
        invariant kind.SomeCompiled? ==> MarksCompiled(bitmap, methods, i)
        invariant kind == TypeOf(methods) && methodOffsets == zeros && bitmapSize == size
      {
        RankStep(methods, i);
        if methods[i].None? {
          offsetsFromClass := offsetsFromClass[i := 0];
        } else {
          offsetsFromClass := offsetsFromClass[i := running];
          running := running + OFFSETS_ENTRY_SIZE;
          if kind.SomeCompiled? {
            bitmap := bitmap[i := true];
          }
        }
      }
    }

    function SizeOf(): nat
      reads this
    {
      TYPE_AND_STATUS_SIZE + (if bitmapSize == 0 then 0 else BITMAP_SIZE_SIZE) + bitmapSize
      + OFFSETS_ENTRY_SIZE * |methodOffsets|
    }

    lemma Sizes()
      requires Valid()
      ensures status < 0x1_0000 && kind == TypeOf(methods)
      ensures kind.SomeCompiled? ==> |bitmap| % 8 == 0 && 0 < bitmapSize == |bitmap| / 8 < WORD
      ensures !kind.SomeCompiled? ==> bitmapSize == 0
      ensures SizeOf() == PrefixSize(methods) + OFFSETS_ENTRY_SIZE * Rank(methods, |methods|)
    {
      hide Rank, StorageBits;
      StorageFits(|methods|);
      if kind.SomeCompiled? {
        SomeHasBitmap(methods);
      }
    }

    /** The bytes the class record is written as. */
    method Write() returns (out: seq<uint8>)
      requires Valid()
      ensures out == RecordBytes(methods, status, bitmap, methodOffsets)
      ensures |out| == SizeOf() == PrefixSize(methods) + OFFSETS_ENTRY_SIZE * Rank(methods, |methods|)
    {
      Sizes();
      hide Rank, StorageBits, RawStorage, Le32, Le16, TypeOf, MarksCompiled, PrefixSize, Valid;
      out := Le16(status);
      out := out + Le16(kind.Value());
      if bitmapSize != 0 {
        out := out + Le32(bitmapSize);
        out := out + RawStorage(bitmap);
      }
      var entries := WriteEntries();
      out := out + entries;
    }

    method WriteEntries() returns (entries: seq<uint8>)
      ensures entries == Words32(methodOffsets)
    {
      hide Le32;
      entries := [];
      for r := 0 to |methodOffsets|
        invariant entries == Words32(methodOffsets[..r])
      {
        assert methodOffsets[..r + 1][..r] == methodOffsets[..r];
        entries := entries + Le32(methodOffsets[r]);
      }
      assert methodOffsets[..|methodOffsets|] == methodOffsets;
    }
  }

  lemma SomeHasBitmap(methods: seq<Option<Visited>>)
    requires TypeOf(methods).SomeCompiled?
    ensures StorageBits(|methods|) / 8 > 0
  {
    hide Rank;
    StorageFits(|methods|);
    RankBounds(methods, |methods|);
    RoundUpIsLeast(|methods|, 32);
    assert StorageBits(|methods|) >= 8;
  }

  function Words32(ws: seq<uint32>): (s: seq<uint8>)
    ensures |s| == 4 * |ws|
  {
    if ws == [] then [] else Words32(ws[..|ws| - 1]) + Le32(ws[|ws| - 1])
  }

  lemma {:induction false} Words32At(ws: seq<uint32>, r: nat)
    requires r < |ws|
    ensures Words32(ws)[4 * r..4 * r + 4] == Le32(ws[r])
  {
    hide Le32;
    var n := |ws| - 1;
    if r < n {
      Words32At(ws[..n], r);
      assert Words32(ws)[4 * r..4 * r + 4] == Words32(ws[..n])[4 * r..4 * r + 4];
    }
  }

  function RecordBytes(methods: seq<Option<Visited>>, status: nat, bitmap: seq<bool>, entries: seq<uint32>): seq<uint8>
    requires status < 0x1_0000
    requires TypeOf(methods).SomeCompiled? ==> |bitmap| % 8 == 0 && |bitmap| / 8 < WORD
  {
    Le16(status) + Le16(TypeOf(methods).Value())
    + (if TypeOf(methods).SomeCompiled? then Le32(|bitmap| / 8) + RawStorage(bitmap) else [])
    + Words32(entries)
  }

  // ---------------------------------------------------------------- the runtime reader

  function ReadType(record: seq<uint8>): nat
    requires |record| >= TYPE_AND_STATUS_SIZE
  {
    record[2] as int + 0x100 * (record[3] as int)
  }

  /** Everything the runtime reads for method `i` lies inside the record. */
  predicate Readable(record: seq<uint8>, i: nat) {
    && |record| >= TYPE_AND_STATUS_SIZE
    && var classType := ReadType(record);
       if classType == 2 then true
       else if classType == 1 then
         && |record| >= 8 && 8 + WordAt(record, 4) <= |record| && i < 8 * WordAt(record, 4)
         && var bitmap := record[8..8 + WordAt(record, 4)];
            IsBitSet(bitmap, i) ==> 8 + WordAt(record, 4) + 4 * NumSetBits(bitmap, i) + 4 <= |record|
       else 4 + 4 * i + 4 <= |record|
  }

  /** The code offset the runtime finds for method `i`, if the record says it has code. */
  function ReadMethodOffset(record: seq<uint8>, i: nat): Option<uint32>
    requires Readable(record, i)
  {
    var classType := ReadType(record);
    if classType == 2 then None
    else if classType == 1 then
      var bitmap := record[8..8 + WordAt(record, 4)];
      if !IsBitSet(bitmap, i) then None
      else Some(WordAt(record, 8 + WordAt(record, 4) + 4 * NumSetBits(bitmap, i)))
    else Some(WordAt(record, 4 + 4 * i))
  }

  lemma {:induction false} SetBitsAreRank(methods: seq<Option<Visited>>, bits: seq<bool>, i: nat)
    requires i <= |methods| && |bits| % 8 == 0 && |bits| >= |methods| && MarksCompiled(bits, methods, |methods|)
    ensures NumSetBits(RawStorage(bits), i) == Rank(methods, i)
  {
    hide Rank, RawStorage, IsBitSet, StorageBits;
    if i > 0 {
      SetBitsAreRank(methods, bits, i - 1);
      StorageKeepsBits(bits, i - 1);
      RankStep(methods, i - 1);
    } else {
      RankBounds(methods, 0);
    }
  }

  lemma RecordParts(methods: seq<Option<Visited>>, status: nat, bitmap: seq<bool>, entries: seq<uint32>, r: nat)
    requires status < 0x1_0000 && r < |entries|
    requires TypeOf(methods).SomeCompiled? ==> |bitmap| % 8 == 0 && |bitmap| / 8 < WORD
    ensures var record := RecordBytes(methods, status, bitmap, entries);
            var prefix := 4 + if TypeOf(methods).SomeCompiled? then 4 + |bitmap| / 8 else 0;
            |record| == prefix + 4 * |entries| && WordAt(record, prefix + 4 * r) == entries[r]
  {
    hide Rank, TypeOf, Le32, Le16, RawStorage, FromLe32;
    var record := RecordBytes(methods, status, bitmap, entries);
    var prefix := 4 + if TypeOf(methods).SomeCompiled? then 4 + |bitmap| / 8 else 0;
    Words32At(entries, r);
    assert record[prefix + 4 * r..prefix + 4 * r + 4] == Words32(entries)[4 * r..4 * r + 4];
    Le32RoundTrip(entries[r]);
  }

  lemma RecordHead(methods: seq<Option<Visited>>, status: nat, bitmap: seq<bool>, entries: seq<uint32>)
    requires status < 0x1_0000
    requires TypeOf(methods).SomeCompiled? ==> |bitmap| % 8 == 0 && |bitmap| / 8 < WORD
    ensures var record := RecordBytes(methods, status, bitmap, entries);
            && |record| >= 4 && ReadType(record) == TypeOf(methods).Value()
            && (TypeOf(methods).SomeCompiled? ==>
                  && |record| >= 8 + |bitmap| / 8 && WordAt(record, 4) == |bitmap| / 8
                  && record[8..8 + |bitmap| / 8] == RawStorage(bitmap))
  {
    hide Rank, TypeOf, Le32, RawStorage, FromLe32, Words32;
    var record := RecordBytes(methods, status, bitmap, entries);
    if TypeOf(methods).SomeCompiled? {
      assert record[4..8] == Le32(|bitmap| / 8);
      Le32RoundTrip(|bitmap| / 8);
    }
  }

  /**
   * For every pattern of methods with and without code, the runtime finds method `i`'s own code
   * offset in the written record exactly when the method has code.
   */
  lemma RecordReadsBack(methods: seq<Option<Visited>>, status: nat, bitmap: seq<bool>, entries: seq<uint32>, i: nat)
    requires status < 0x1_0000 && |methods| < WORD && i < |methods| && |entries| == Rank(methods, |methods|)
    requires TypeOf(methods).SomeCompiled? ==>
               |bitmap| % 8 == 0 && |bitmap| / 8 < WORD && MarksCompiled(bitmap, methods, |methods|)
    ensures var record := RecordBytes(methods, status, bitmap, entries);
            && Readable(record, i)
            && (methods[i].Some? ==> Rank(methods, i) < |entries|)
            && ReadMethodOffset(record, i) == if methods[i].None? then None else Some(entries[Rank(methods, i)])
  {
    hide Rank, Le32, RawStorage, FromLe32, Words32, RecordBytes, NumSetBits, IsBitSet, StorageBits, ReadType, WordAt;
    var record := RecordBytes(methods, status, bitmap, entries);
    RecordHead(methods, status, bitmap, entries);
    RankBounds(methods, |methods|);
    RankBounds(methods, i);
    RankStep(methods, i);
    RankMonotone(methods, i + 1, |methods|);
    if methods[i].Some? {
      RecordParts(methods, status, bitmap, entries, Rank(methods, i));
    }
    match TypeOf(methods)
    case NoneCompiled =>
    case AllCompiled => AllRank(methods, i);
    case SomeCompiled =>
      StorageFits(|methods|);
      SetBitsAreRank(methods, bitmap, i);
      StorageKeepsBits(bitmap, i);
  }

  lemma {:induction false} AllRank(methods: seq<Option<Visited>>, i: nat)
    requires i <= |methods| && Rank(methods, |methods|) == |methods|
    ensures Rank(methods, i) == i
  {
    hide Rank;
    RankBounds(methods, |methods|);
    if i > 0 {
      AllRank(methods, i - 1);
      RankStep(methods, i - 1);
    } else {
      RankBounds(methods, 0);
    }
  }

  lemma StorageSmall(n: nat)
    requires n < WORD
    ensures StorageBits(n) / 8 < WORD
  {
    RoundUpIsLeast(n, 32);
  }
}
