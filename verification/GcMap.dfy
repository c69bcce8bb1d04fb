/**
 * The GC map: an open-addressing hash table from native offsets to register bitmaps, built into
 * a byte vector by the compiler and probed in place by the runtime.
 */
module GcMap {
  import opened Arith
  import opened Words
  import opened SafeMap

  // ---------------------------------------------------------------- widths

  function BitLength(x: nat): nat {
    if x == 0 then 0 else 1 + BitLength(x / 2)
  }

  /** Leading zeros of a 32-bit word. */
  function Clz(x: uint32): (n: nat)
    requires x > 0
  {
    BitLengthOfWord(x);
    32 - BitLength(x)
  }

  lemma {:induction false} BitLengthBounds(x: nat)
    ensures x < Pow2(BitLength(x)) && (x > 0 ==> Pow2(BitLength(x)) <= 2 * x)
  {
    if x > 0 {
      BitLengthBounds(x / 2);
    }
  }

  lemma Pow2Of32()
    ensures Pow2(32) == WORD
  {
    assert Pow2(8) == 256;
    assert Pow2(16) == 65536;
    assert Pow2(24) == 16777216;
  }

  lemma BitLengthOfWord(x: uint32)
    ensures BitLength(x) <= 32
  {
    BitLengthBounds(x);
    Pow2Of32();
    if BitLength(x) > 32 {
      Pow2Monotone(33, BitLength(x));
    }
  }

  lemma {:induction false} Pow256IsPow2(n: nat)
    ensures Pow256(n) == Pow2(8 * n)
  {
    if n > 0 {
      Pow256IsPow2(n - 1);
      var m := 8 * n - 8;
      assert Pow2(m + 4) == 16 * Pow2(m) by {
        assert Pow2(m + 2) == 4 * Pow2(m);
      }
      assert Pow2(m + 8) == 16 * Pow2(m + 4) by {
        assert Pow2(m + 6) == 4 * Pow2(m + 4);
      }
    }
  }

  /** Bytes per stored offset, as the constructor computes them. */
  function OffsetWidth(entries: nat, maxOffset: uint32): (w: nat)
    ensures w <= 4
  {
    if entries != 0 && maxOffset != 0 then 4 - Clz(maxOffset) / 8 else 0
  }

  /** The computed width holds every offset up to the maximum, and no smaller width would. */
  lemma WidthIsLeast(entries: nat, maxOffset: uint32)
    requires entries > 0
    ensures maxOffset < Pow256(OffsetWidth(entries, maxOffset))
    ensures OffsetWidth(entries, maxOffset) > 0 ==> Pow256(OffsetWidth(entries, maxOffset) - 1) <= maxOffset
  {
    hide Pow2, BitLength, Pow256;
    var w := OffsetWidth(entries, maxOffset);
    if maxOffset > 0 {
      BitLengthOfWord(maxOffset);
      BitLengthBounds(maxOffset);
      Pow256IsPow2(w);
      Pow2Monotone(BitLength(maxOffset), 8 * w);
      BitLengthPositive(maxOffset);
      Pow256IsPow2(w - 1);
      Pow2Monotone(8 * (w - 1), BitLength(maxOffset) - 1);
      Pow2Step(BitLength(maxOffset));
    } else {
      Pow256IsPow2(0);
      Pow2Zero();
    }
  }

  lemma BitLengthPositive(x: nat)
    requires x > 0
    ensures BitLength(x) > 0
  {
  }

  lemma Pow2Step(n: nat)
    requires n > 0
    ensures Pow2(n) == 2 * Pow2(n - 1)
  {
  }

  lemma Pow2Zero()
    ensures Pow2(0) == 1
  {
  }

  // ---------------------------------------------------------------- the table

  datatype Entry = Entry(offset: nat, references: seq<uint8>)

  const HEADER_SIZE := 4

  /** NativePcOffsetToReferenceMap::Hash, on 32-bit words. */
  function Hash(offset: uint32): nat {
    var h := offset as bv32;
    var h1 := h ^ (h >> 20) ^ (h >> 12);
    var h2 := h1 ^ (h1 >> 7) ^ (h1 >> 4);
    h2 as nat
  }

  /** Sizes fixed by the header of a table. */
  datatype Format = Format(entries: nat, offsetWidth: nat, referencesWidth: nat) {
    predicate Valid() {
      entries < 0x1_0000 && offsetWidth < 8 && referencesWidth < 0x2000
    }

    function EntryWidth(): nat {
      offsetWidth + referencesWidth
    }

    /** First byte of the entry at `index`. */
    function EntryAt(index: nat): nat {
      index * EntryWidth() + HEADER_SIZE
    }

    function TableSize(): nat {
      EntryAt(entries)
    }

    function Home(offset: uint32): (i: nat)
      requires entries > 0
      ensures i < entries
    {
      Hash(offset) % entries
    }

    /** Probing wraps around at the end of the table. */
    function Next(index: nat): (i: nat)
      requires index < entries
      ensures i < entries
    {
      if index + 1 == entries then 0 else index + 1
    }

    /** Number of probes from `from` until `index` is reached. */
    function Distance(from: nat, index: nat): (d: nat)
      requires from < entries && index < entries
      ensures d < entries
    {
      if from <= index then index - from else index + entries - from
    }
  }

  lemma EntriesAreApart(f: Format, i: nat, j: nat)
    requires i < j < f.entries
    ensures f.EntryAt(i) + f.EntryWidth() <= f.EntryAt(j)
    ensures f.EntryAt(j) + f.EntryWidth() <= f.TableSize()
  {
    MulStep(i, j, f.EntryWidth());
    MulStep(j, f.entries, f.EntryWidth());
  }

  lemma EntryFits(f: Format, i: nat)
    requires i < f.entries
    ensures f.EntryAt(i) + f.EntryWidth() <= f.TableSize()
  {
    MulStep(i, f.entries, f.EntryWidth());
  }

  type Slots = seq<Option<Entry>>

  /** The bytes of the table hold every occupied slot. */
  ghost predicate Encodes(f: Format, data: seq<uint8>, slots: Slots) {
    && |data| == f.TableSize() && |slots| == f.entries
    && (forall k :: 0 <= k < f.entries ==> EncodesSlot(f, data, k, slots[k]))
  }

  ghost predicate EncodesSlot(f: Format, data: seq<uint8>, k: nat, slot: Option<Entry>)
    requires |data| == f.TableSize() && k < f.entries
  {
    EntryFits(f, k);
    slot.Some? ==>
      && slot.value.offset < Pow256(f.offsetWidth) && slot.value.offset < WORD
      && |slot.value.references| == f.referencesWidth
      && data[f.EntryAt(k)..f.EntryAt(k) + f.offsetWidth] == EncodeLe(slot.value.offset, f.offsetWidth)
      && data[f.EntryAt(k) + f.offsetWidth..f.EntryAt(k) + f.EntryWidth()] == slot.value.references
  }

  /** Slot `k` answers for `offset`: every earlier probe meets an occupied slot of another offset. */
  ghost predicate Answers(f: Format, slots: Slots, offset: uint32, references: seq<uint8>, k: nat)
    requires |slots| == f.entries > 0
  {
    && k < f.entries && slots[k] == Some(Entry(offset, references))
    && (forall i :: 0 <= i < f.entries && f.Distance(f.Home(offset), i) < f.Distance(f.Home(offset), k) ==>
          slots[i].Some? && slots[i].value.offset != offset)
  }

  /** The table as a finite map: for an offset added more than once, the first bitmap counts. */
  ghost predicate Represents(f: Format, slots: Slots, contents: map<uint32, seq<uint8>>) {
    && |slots| == f.entries
    && (f.entries == 0 ==> contents == map[])
    && (f.entries > 0 ==>
          && (forall k :: 0 <= k < f.entries && slots[k].Some? ==> slots[k].value.offset in contents)
          && (forall o :: o in contents ==> exists k: nat :: Answers(f, slots, o, contents[o], k)))
  }

  function Occupied(slots: Slots): nat {
    if slots == [] then 0 else Occupied(slots[..|slots| - 1]) + if slots[|slots| - 1].Some? then 1 else 0
  }

  lemma {:induction false} FreeSlotExists(slots: Slots) returns (k: nat)
    requires Occupied(slots) < |slots|
    ensures k < |slots| && slots[k].None?
  {
    var n := |slots| - 1;
    if slots[n].None? {
      k := n;
    } else {
      k := FreeSlotExists(slots[..n]);
    }
  }

  lemma {:induction false} OccupyOne(slots: Slots, k: nat, e: Entry)
    requires k < |slots| && slots[k].None?
    ensures Occupied(slots[k := Some(e)]) == Occupied(slots) + 1
  {
    var n := |slots| - 1;
    if k < n {
      OccupyOne(slots[..n], k, e);
      assert slots[k := Some(e)][..n] == slots[..n][k := Some(e)];
    } else {
      assert slots[k := Some(e)][..n] == slots[..n];
    }
  }

  lemma AnswersAfterFill(f: Format, slots: Slots, k: nat, e: Entry, o: uint32, r: seq<uint8>, j: nat)
    requires |slots| == f.entries > 0 && k < f.entries && slots[k].None? && Answers(f, slots, o, r, j)
    ensures Answers(f, slots[k := Some(e)], o, r, j)
  {
    hide Format.Home, Format.Distance;
  }

  /** Filling the slot that probing stopped at adds one binding and disturbs no other. */
  lemma FillKeepsMap(f: Format, slots: Slots, contents: map<uint32, seq<uint8>>, k: nat, e: Entry)
    requires f.entries > 0 && Represents(f, slots, contents) && k < f.entries && slots[k].None? && e.offset < WORD
    requires forall i :: 0 <= i < f.entries && f.Distance(f.Home(e.offset), i) < f.Distance(f.Home(e.offset), k) ==>
               slots[i].Some?
    ensures Represents(f, slots[k := Some(e)],
                       if e.offset in contents then contents else contents[e.offset := e.references])
  {
    hide Format.Home, Format.Distance, Answers;
    var filled := slots[k := Some(e)];
    var after: map<uint32, seq<uint8>> := if e.offset in contents then contents else contents[e.offset := e.references];
    forall o | o in after ensures exists j: nat :: Answers(f, filled, o, after[o], j) {
      if o in contents {
        var j: nat :| Answers(f, slots, o, contents[o], j);
        AnswersAfterFill(f, slots, k, e, o, contents[o], j);
      } else {
        NewAnswers(f, slots, contents, k, e);
      }
    }
  }

  lemma NewAnswers(f: Format, slots: Slots, contents: map<uint32, seq<uint8>>, k: nat, e: Entry)
    requires f.entries > 0 && Represents(f, slots, contents) && k < f.entries && slots[k].None?
    requires e.offset < WORD && e.offset !in contents
    requires forall i :: 0 <= i < f.entries && f.Distance(f.Home(e.offset), i) < f.Distance(f.Home(e.offset), k) ==>
               slots[i].Some?
    ensures Answers(f, slots[k := Some(e)], e.offset, e.references, k)
  {
    hide Format.Home, Format.Distance;
  }

  // ---------------------------------------------------------------- building

  class GcMapBuilder {
    const format: Format
    const maxNativeOffset: uint32
    const table: array<uint8>
    const inUse: array<bool>
    ghost var slots: Slots
    ghost var contents: map<uint32, seq<uint8>>

    ghost predicate Valid()
      reads this, table, inUse
    {
      && format.Valid() && (format.entries > 0 ==> maxNativeOffset < Pow256(format.offsetWidth))
      && table.Length == format.TableSize() && inUse.Length == format.entries == |slots|
      && Encodes(format, table[..], slots)
      && (forall k :: 0 <= k < format.entries ==> (inUse[k] <==> slots[k].Some?))
      && Represents(format, slots, contents)
    }

    /** An empty table with its header; the bounds are the ones the source checks. */
    constructor (entries: nat, maxNativeOffset: uint32, referencesWidth: nat)
      requires entries < 0x1_0000 && referencesWidth < 0x2000
      ensures Valid() && fresh(table) && fresh(inUse) && contents == map[] && Occupied(slots) == 0
      ensures format == Format(entries, OffsetWidth(entries, maxNativeOffset),
                               if entries != 0 then referencesWidth else 0)
      ensures this.maxNativeOffset == maxNativeOffset && HasHeader(format, table[..])
    {
      hide OffsetWidth, Format.TableSize, ReadFormat, Encodes, Represents, Occupied, Pow256;
      var f := Format(entries, OffsetWidth(entries, maxNativeOffset), if entries != 0 then referencesWidth else 0);
      format, this.maxNativeOffset := f, maxNativeOffset;
      table := new uint8[f.TableSize()](_ => 0);
      inUse := new bool[entries](_ => false);
      slots := seq(entries, _ => None);
      contents := map[];
      new;
      SetUpHeader();
      EmptyTable(format, table[..], slots);
      NothingOccupied(slots);
      if entries > 0 {
        WidthIsLeast(entries, maxNativeOffset);
      }
    }

    lemma WrittenParts()
      requires Valid()
      ensures Encodes(format, table[..], slots) && Represents(format, slots, contents)
    {
      hide Encodes, Represents;
    }

    method SetUpHeader()
      requires format.Valid() && table.Length == format.TableSize()
      modifies table
      ensures HasHeader(format, table[..])
    {
      MulNonNeg(format.entries, format.EntryWidth());
      table[0] := format.offsetWidth % 8;
      table[0] := table[0] + format.referencesWidth * 8 % 0x100;
      table[1] := format.referencesWidth / 32 % 0x100;
      table[2] := format.entries % 0x100;
      table[3] := format.entries / 0x100 % 0x100;
      HeaderRoundTrip(format, table[..]);
    }

    ghost function Header(): seq<uint8>
      reads table
    {
      if table.Length >= HEADER_SIZE then table[..HEADER_SIZE] else []
    }

    /** Probes for a free slot from the offset's home and fills it. */
    method AddEntry(nativeOffset: uint32, references: seq<uint8>)
      requires Valid() && Occupied(slots) < format.entries
      requires nativeOffset <= maxNativeOffset && format.referencesWidth <= |references|
      modifies this`slots, this`contents, table, inUse
      ensures Valid() && Header() == old(Header())
      ensures Occupied(slots) == old(Occupied(slots)) + 1
      ensures contents == if nativeOffset in old(contents) then old(contents)
                else old(contents)[nativeOffset := references[..format.referencesWidth]]
    {
      hide Encodes, Represents, Occupied, Answers, Format.Home, Format.TableSize, EncodesSlot;
      ghost var free := FreeSlotExists(slots);
      var index := Probe(nativeOffset, free);
      inUse[index] := true;
      var e := Entry(nativeOffset, references[..format.referencesWidth]);
      OccupyOne(slots, index, e);
      FillKeepsMap(format, slots, contents, index, e);
      ghost var before := table[..];
      HeaderBeforeEntries(format, index);
      StoreEntry(index, nativeOffset, references);
      StoreEncodes(format, table[..], before, slots, index, e);
      slots := slots[index := Some(e)];
      contents := if nativeOffset in contents then contents else contents[nativeOffset := e.references];
    }

    /** The first free slot at or after the home of an offset, cyclically. */
    method Probe(nativeOffset: uint32, ghost free: nat) returns (index: nat)
      requires Valid() && free < format.entries && slots[free].None?
      ensures index < format.entries && slots[index].None?
      ensures var home := format.Home(nativeOffset);
              forall i :: 0 <= i < format.entries && format.Distance(home, i) < format.Distance(home, index) ==>
                slots[i].Some?
    {
      hide Encodes, Represents, Format.Home, Format.TableSize;
      ghost var home := format.Home(nativeOffset);
      index := format.Home(nativeOffset);
      while inUse[index]
        invariant index < format.entries
        invariant forall i :: 0 <= i < format.entries && format.Distance(home, i) < format.Distance(home, index) ==>
                    slots[i].Some?
        invariant format.Distance(home, index) <= format.Distance(home, free)
        decreases format.Distance(home, free) - format.Distance(home, index)
      {
        assert slots[index].Some?;
        index := format.Next(index);
      }
    }

    /** SetCodeOffset and SetReferences: the two halves of one entry, byte by byte. */
    method StoreEntry(index: nat, nativeOffset: uint32, references: seq<uint8>)
      requires index < format.entries && table.Length == format.TableSize()
      requires format.referencesWidth <= |references|
      modifies table
      ensures StoredAt(table[..], old(table[..]), format.EntryAt(index),
                       EncodeLe(nativeOffset, format.offsetWidth) + references[..format.referencesWidth])
    {
      hide EncodeLe, Pow256, Format.TableSize, Format.EntryAt;
      EntryFits(format, index);
      var tableOffset := format.EntryAt(index);
      var w := format.offsetWidth;
      for i := 0 to w
        invariant forall b :: 0 <= b < table.Length && !(tableOffset <= b < tableOffset + i) ==>
                    table[b] == old(table[b])
        invariant forall b :: 0 <= b < i ==> table[tableOffset + b] == EncodeLe(nativeOffset, w)[b]
      {
        EncodeLeAt(nativeOffset, w, i);
        table[tableOffset + i] := nativeOffset / Pow256(i) % 0x100;
      }
      for i := 0 to format.referencesWidth
        invariant forall b :: 0 <= b < table.Length && !(tableOffset <= b < tableOffset + w + i) ==>
                    table[b] == old(table[b])
        invariant forall b :: 0 <= b < w ==> table[tableOffset + b] == EncodeLe(nativeOffset, w)[b]
        invariant forall b :: 0 <= b < i ==> table[tableOffset + w + b] == references[b]
      {
        table[tableOffset + w + i] := references[i];
      }
      assert table[tableOffset..tableOffset + w] == EncodeLe(nativeOffset, w);
      assert table[tableOffset + w..tableOffset + w + format.referencesWidth] == references[..format.referencesWidth];
      assert table[..][tableOffset..tableOffset + w + format.referencesWidth] ==
             table[tableOffset..tableOffset + w] + table[tableOffset + w..tableOffset + w + format.referencesWidth];
    }
  }

  /** `now` is `before` with `bytes` stored at `at`. */
  ghost predicate StoredAt(now: seq<uint8>, before: seq<uint8>, at: nat, bytes: seq<uint8>) {
    && |now| == |before| && at + |bytes| <= |now|
    && now[at..at + |bytes|] == bytes
    && (forall b :: 0 <= b < |now| && !(at <= b < at + |bytes|) ==> now[b] == before[b])
  }

  lemma StoreEncodes(f: Format, now: seq<uint8>, before: seq<uint8>, slots: Slots, k: nat, e: Entry)
    requires Encodes(f, before, slots) && k < f.entries
    requires e.offset < Pow256(f.offsetWidth) && e.offset < WORD && |e.references| == f.referencesWidth
    requires StoredAt(now, before, f.EntryAt(k), EncodeLe(e.offset, f.offsetWidth) + e.references)
    ensures Encodes(f, now, slots[k := Some(e)])
  {
    hide Format.EntryAt, Format.TableSize, EncodeLe, Pow256;
    var bytes := EncodeLe(e.offset, f.offsetWidth) + e.references;
    var at := f.EntryAt(k);
    EntryFits(f, k);
    assert now[at..at + f.offsetWidth] == bytes[..f.offsetWidth] == EncodeLe(e.offset, f.offsetWidth);
    assert now[at + f.offsetWidth..at + f.EntryWidth()] == bytes[f.offsetWidth..] == e.references;
    forall i | 0 <= i < f.entries && i != k ensures EncodesSlot(f, now, i, slots[i]) {
      OtherSlotKept(f, now, before, bytes, slots[i], k, i);
    }
  }

  lemma OtherSlotKept(f: Format, now: seq<uint8>, before: seq<uint8>, bytes: seq<uint8>, slot: Option<Entry>, k: nat,
                      i: nat)
    requires |before| == f.TableSize() && k < f.entries && i < f.entries && i != k
    requires EncodesSlot(f, before, i, slot) && |bytes| == f.EntryWidth() && StoredAt(now, before, f.EntryAt(k), bytes)
    ensures EncodesSlot(f, now, i, slot)
  {
    hide Format.EntryAt, Format.TableSize, EncodeLe, Pow256;
    EntryFits(f, i);
    EntriesAreApart(f, if i < k then i else k, if i < k then k else i);
    var a := f.EntryAt(i);
    assert now[a..a + f.offsetWidth] == before[a..a + f.offsetWidth];
    assert now[a + f.offsetWidth..a + f.EntryWidth()] == before[a + f.offsetWidth..a + f.EntryWidth()];
  }

  lemma EmptyTable(f: Format, data: seq<uint8>, slots: Slots)
    requires |data| == f.TableSize() && |slots| == f.entries
    requires forall k :: 0 <= k < |slots| ==> slots[k].None?
    ensures Encodes(f, data, slots) && Represents(f, slots, map[])
  {
    hide Format.TableSize, Format.EntryAt, Format.Home, Format.Distance;
  }

  lemma {:induction false} NothingOccupied(slots: Slots)
    requires forall k :: 0 <= k < |slots| ==> slots[k].None?
    ensures Occupied(slots) == 0
  {
    if slots != [] {
      NothingOccupied(slots[..|slots| - 1]);
    }
  }

  /** The four header bytes. */
  predicate HasHeader(f: Format, data: seq<uint8>) {
    |data| >= HEADER_SIZE && ReadFormat(data) == f
  }

  /** How the runtime reads the header back. */
  function ReadFormat(data: seq<uint8>): Format
    requires |data| >= HEADER_SIZE
  {
    Format(data[2] as int + data[3] as int * 0x100, data[0] as int % 8, (data[0] as int + data[1] as int * 0x100) / 8)
  }

  lemma HeaderBeforeEntries(f: Format, k: nat)
    requires k < f.entries
    ensures f.EntryAt(k) >= HEADER_SIZE
  {
    MulNonNeg(k, f.EntryWidth());
  }

  lemma HeaderRoundTrip(f: Format, data: seq<uint8>)
    requires f.Valid() && |data| >= HEADER_SIZE
    requires data[0] == f.offsetWidth % 8 + f.referencesWidth * 8 % 0x100 && data[1] == f.referencesWidth / 32 % 0x100
    requires data[2] == f.entries % 0x100 && data[3] == f.entries / 0x100 % 0x100
    ensures ReadFormat(data) == f
  {
    ReferencesBytes(f.referencesWidth, f.offsetWidth);
    EntriesBytes(f.entries);
  }

  lemma ReferencesBytes(width: nat, low: nat)
    requires width < 0x2000 && low < 8
    ensures (low + width * 8 % 0x100) % 8 == low
    ensures (low + width * 8 % 0x100 + width / 32 % 0x100 * 0x100) / 8 == width
  {
    var q, r := width / 32, width % 32;
    assert width == 32 * q + r && q < 0x100;
    assert width * 8 == 256 * q + 8 * r;
    ReferencesByte(q, r);
  }

  lemma EntriesBytes(n: nat)
    requires n < 0x1_0000
    ensures n % 0x100 + n / 0x100 % 0x100 * 0x100 == n
  {
  }

  lemma ReferencesByte(q: nat, r: nat)
    requires q < 256 && r < 32
    ensures (256 * q + 8 * r) % 0x100 == 8 * r
  {
  }

  // ---------------------------------------------------------------- the runtime reader

  /** GetNativePcOffset. */
  method ReadOffset(f: Format, data: seq<uint8>, index: nat) returns (offset: nat)
    requires index < f.entries && |data| == f.TableSize()
    ensures f.EntryAt(index) + f.offsetWidth <= |data|
    ensures offset == DecodeLe(data[f.EntryAt(index)..f.EntryAt(index) + f.offsetWidth])
  {
    hide Format.EntryAt, Format.TableSize, DecodeLe, Pow256;
    EntryFits(f, index);
    var at := f.EntryAt(index);
    offset := 0;
    DecodeNothing();
    assert data[at..at] == [];
    for i := 0 to f.offsetWidth
      invariant offset == DecodeLe(data[at..at + i])
    {
      DecodeLeSnoc(data[at..at + i], data[at + i]);
      assert data[at..at + i + 1] == data[at..at + i] + [data[at + i]];
      offset := offset + data[at + i] as int * Pow256(i);
    }
  }

  lemma DecodeNothing()
    ensures DecodeLe([]) == 0
  {
  }

  lemma SlotDecodes(f: Format, data: seq<uint8>, slots: Slots, k: nat)
    requires Encodes(f, data, slots) && k < f.entries && slots[k].Some?
    ensures f.EntryAt(k) + f.offsetWidth <= f.EntryAt(k) + f.EntryWidth() <= |data|
    ensures DecodeLe(data[f.EntryAt(k)..f.EntryAt(k) + f.offsetWidth]) == slots[k].value.offset
    ensures data[f.EntryAt(k) + f.offsetWidth..f.EntryAt(k) + f.EntryWidth()] == slots[k].value.references
  {
    hide Format.EntryAt, Format.TableSize, DecodeLe, Pow256, EncodeLe;
    EntryFits(f, k);
    assert EncodesSlot(f, data, k, slots[k]);
    LeRoundTrip(slots[k].value.offset, f.offsetWidth);
  }

  /**
   * FindBitMap: from the header alone, linear probing reaches every offset that was added, and
   * returns the bitmap it was first added with.
   */
  method FindBitMap(data: seq<uint8>, nativePcOffset: uint32, ghost f: Format, ghost slots: Slots,
                    ghost contents: map<uint32, seq<uint8>>) returns (bitmap: seq<uint8>)
    requires HasHeader(f, data) && Encodes(f, data, slots) && Represents(f, slots, contents)
    requires nativePcOffset in contents
    ensures bitmap == contents[nativePcOffset]
  {
    hide Format.EntryAt, Format.TableSize, DecodeLe, Pow256, Encodes, Format.Home, Represents, EncodesSlot;
    var format := ReadFormat(data);
    ghost var k := AnswerExists(f, slots, contents, nativePcOffset);
    ghost var home := f.Home(nativePcOffset);
    EncodesSizes(f, data, slots);
    var index: nat := format.Home(nativePcOffset);
    SlotDecodes(f, data, slots, index);
    var found: nat := ReadOffset(format, data, index);
    while found != nativePcOffset
      invariant index < f.entries && f.Distance(home, index) <= f.Distance(home, k)
      invariant slots[index].Some? && found == slots[index].value.offset
      decreases f.Distance(home, k) - f.Distance(home, index)
    {
      index := format.Next(index);
      SlotDecodes(f, data, slots, index);
      found := ReadOffset(format, data, index);
    }
    SlotDecodes(f, data, slots, index);
    var at := format.EntryAt(index);
    bitmap := data[at + format.offsetWidth..at + format.EntryWidth()];
  }

  lemma AnswerExists(f: Format, slots: Slots, contents: map<uint32, seq<uint8>>, offset: uint32) returns (k: nat)
    requires Represents(f, slots, contents) && offset in contents
    ensures f.entries > 0 && |slots| == f.entries && Answers(f, slots, offset, contents[offset], k)
  {
    hide Format.Home, Answers;
    k :| Answers(f, slots, offset, contents[offset], k);
  }

  lemma EncodesSizes(f: Format, data: seq<uint8>, slots: Slots)
    requires Encodes(f, data, slots)
    ensures |data| == f.TableSize() && |slots| == f.entries
  {
  }

  // ---------------------------------------------------------------- build, then look up

  /** Offsets are words, and bitmaps are at least as long as they are written. */
  predicate Fitting(entries: seq<Entry>, width: nat) {
    forall i :: 0 <= i < |entries| ==> entries[i].offset < WORD && width <= |entries[i].references|
  }

  /** What a map holds after the first `n` entries were added: of several for one offset, the first. */
  function Added(entries: seq<Entry>, width: nat, n: nat): (m: map<uint32, seq<uint8>>)
    requires n <= |entries| && Fitting(entries, width)
  {
    if n == 0 then map[]
    else
      var m, e := Added(entries, width, n - 1), entries[n - 1];
      if e.offset in m then m else m[e.offset := e.references[..width]]
  }

  lemma {:induction false} AddedIsFirst(entries: seq<Entry>, width: nat, n: nat, j: nat)
    requires Fitting(entries, width)
    requires j <= n <= |entries| && j < |entries| && forall i :: 0 <= i < j ==> entries[i].offset != entries[j].offset
    ensures entries[j].offset in Added(entries, width, n) <==> j < n
    ensures j < n ==> Added(entries, width, n)[entries[j].offset] == entries[j].references[..width]
  {
    if j < n {
      AddedIsFirst(entries, width, n - 1, j);
    } else if n > 0 {
      NotAddedYet(entries, width, n, entries[j].offset);
    }
  }

  lemma {:induction false} NotAddedYet(entries: seq<Entry>, width: nat, n: nat, offset: nat)
    requires Fitting(entries, width)
    requires n <= |entries| && offset < WORD && forall i :: 0 <= i < n ==> entries[i].offset != offset
    ensures offset !in Added(entries, width, n)
  {
    if n > 0 {
      NotAddedYet(entries, width, n - 1, offset);
    }
  }

  lemma HeaderDecides(f: Format, before: seq<uint8>, after: seq<uint8>)
    requires HasHeader(f, before) && |after| >= HEADER_SIZE && after[..HEADER_SIZE] == before[..HEADER_SIZE]
    ensures HasHeader(f, after)
  {
    forall b | 0 <= b < HEADER_SIZE ensures after[b] == before[b] {
      assert after[..HEADER_SIZE][b] == before[..HEADER_SIZE][b];
    }
  }

  /**
   * End to end: a map built by adding entries, read from its bytes alone, gives for the offset of any of
   * them the bitmap of the first entry with that offset; with distinct offsets, its own.
   */
  method BuildAndFind(entries: seq<Entry>, maxNativeOffset: uint32, width: nat, i: nat, ghost j: nat)
      returns (bitmap: seq<uint8>)
    requires |entries| < 0x1_0000 && width < 0x2000 && j <= i < |entries|
    requires forall k :: 0 <= k < |entries| ==>
               entries[k].offset <= maxNativeOffset && width <= |entries[k].references|
    requires entries[j].offset == entries[i].offset && forall k :: 0 <= k < j ==> entries[k].offset != entries[i].offset
    ensures bitmap == entries[j].references[..width]
  {
    hide GcMapBuilder.Valid, Represents, Encodes, Occupied, Format.TableSize, ReadFormat;
    var builder := new GcMapBuilder(|entries|, maxNativeOffset, width);
    for n := 0 to |entries|
      invariant builder.Valid() && fresh(builder.table) && fresh(builder.inUse)
      invariant HasHeader(builder.format, builder.table[..])
      invariant Occupied(builder.slots) == n && builder.contents == Added(entries, width, n)
    {
      ghost var before := builder.table[..];
      builder.AddEntry(entries[n].offset, entries[n].references);
      HeaderDecides(builder.format, before, builder.table[..]);
    }
    AddedIsFirst(entries, width, |entries|, j);
    builder.WrittenParts();
    bitmap := FindBitMap(builder.table[..], entries[i].offset, builder.format, builder.slots, builder.contents);
  }
}
