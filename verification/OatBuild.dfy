/**
 * The whole oat file: leading tables, the class records with the offsets that planning found, tables
 * and code; and the way back, from a class record to a method's code.
 */
module OatBuild {
  import opened Arith
  import opened Words
  import opened SafeMap
  import opened CompiledMethods
  import opened OatTypes
  import opened OatCode
  import opened OatFile
  import opened OatClasses
  import opened OatWriters
  import opened Flatten

  type Classes = seq<seq<Option<Visited>>>

  // ---------------------------------------------------------------- class records

  /** A class has fewer methods than a word counts, and a status of two bytes. */
  predicate Writable(classes: Classes, statuses: seq<nat>) {
    |statuses| == |classes| &&
    (forall i :: 0 <= i < |classes| ==> statuses[i] < 0x1_0000 && |classes[i]| < WORD)
  }

  function Bitmap(methods: seq<Option<Visited>>): (bits: seq<bool>)
    requires |methods| < WORD
    ensures MarksCompiled(bits, methods, |methods|) && |bits| % 8 == 0 && |bits| / 8 < WORD
  {
    hide StorageBits;
    StorageFits(|methods|);
    StorageSmall(|methods|);
    seq(StorageBits(|methods|), i requires 0 <= i => i < |methods| && methods[i].Some?)
  }

  function AsWords(offsets: seq<nat>): (ws: seq<uint32>)
    ensures |ws| == |offsets| && forall r :: 0 <= r < |ws| ==> ws[r] == U32(offsets[r])
  {
    seq(|offsets|, r requires 0 <= r < |offsets| => U32(offsets[r]))
  }

  function Record(methods: seq<Option<Visited>>, status: nat, offsets: seq<nat>): seq<uint8>
    requires |methods| < WORD && status < 0x1_0000
  {
    RecordBytes(methods, status, Bitmap(methods), AsWords(offsets))
  }

  function RecordSize(methods: seq<Option<Visited>>): nat {
    PrefixSize(methods) + OFFSETS_ENTRY_SIZE * Rank(methods, |methods|)
  }

  /** Where the record of class `k` begins, counted from the first record. */
  function Place(classes: Classes, k: nat): nat
    requires k <= |classes|
  {
    if k == 0 then 0 else Place(classes, k - 1) + RecordSize(classes[k - 1])
  }

  function RecordsOf(classes: Classes, statuses: seq<nat>, offsets: seq<seq<nat>>, k: nat): seq<uint8>
    requires Writable(classes, statuses) && Shaped(classes, offsets) && k <= |classes|
  {
    if k == 0 then []
    else RecordsOf(classes, statuses, offsets, k - 1) + Record(classes[k - 1], statuses[k - 1], offsets[k - 1])
  }

  lemma RecordIsSized(methods: seq<Option<Visited>>, status: nat, offsets: seq<nat>)
    requires |methods| < WORD && status < 0x1_0000 && |offsets| == |Compact(methods)|
    ensures |Record(methods, status, offsets)| == RecordSize(methods)
  {
    hide Le32, Le16, RawStorage, TypeOf, StorageBits;
    assert methods[..|methods|] == methods;
  }

  lemma {:induction false} RecordsAreSized(classes: Classes, statuses: seq<nat>, offsets: seq<seq<nat>>, k: nat)
    requires Writable(classes, statuses) && Shaped(classes, offsets) && k <= |classes|
    ensures |RecordsOf(classes, statuses, offsets, k)| == Place(classes, k)
  {
    hide Record, RecordSize, Compact;
    if k > 0 {
      RecordsAreSized(classes, statuses, offsets, k - 1);
      RecordIsSized(classes[k - 1], statuses[k - 1], offsets[k - 1]);
    }
  }

  /** Every record is in the block at its place. */
  lemma {:induction false} RecordAtPlace(classes: Classes, statuses: seq<nat>, offsets: seq<seq<nat>>, k: nat, i: nat)
    requires Writable(classes, statuses) && Shaped(classes, offsets) && i < k <= |classes|
    ensures ReadsAs(RecordsOf(classes, statuses, offsets, k), Place(classes, i),
                    Record(classes[i], statuses[i], offsets[i]))
    decreases k
  {
    hide Record, RecordSize, Compact, ReadsAs;
    var before := RecordsOf(classes, statuses, offsets, k - 1);
    var last := Record(classes[k - 1], statuses[k - 1], offsets[k - 1]);
    if i < k - 1 {
      RecordAtPlace(classes, statuses, offsets, k - 1, i);
      ReadsAsAfterAppend(before, last, Place(classes, i), Record(classes[i], statuses[i], offsets[i]));
    } else {
      RecordsAreSized(classes, statuses, offsets, k - 1);
      ReadsAsAtEnd(before, last);
    }
  }

  /** One class after the other; each record is filled with the offsets that were planned for its methods. */
  method WriteClasses(classes: Classes, statuses: seq<nat>, offsets: seq<seq<nat>>) returns (bytes: seq<uint8>)
    requires Writable(classes, statuses) && Shaped(classes, offsets)
    ensures bytes == RecordsOf(classes, statuses, offsets, |classes|)
  {
    hide Record, RecordBytes, Compact, OatClass.Valid, RecordSize, PrefixSize;
    bytes := [];
    for i := 0 to |classes|
      invariant bytes == RecordsOf(classes, statuses, offsets, i)
    {
      var record := WriteClass(|bytes|, classes[i], statuses[i], offsets[i]);
      bytes := bytes + record;
    }
  }

  method WriteClass(offset: nat, methods: seq<Option<Visited>>, status: nat, offsets: seq<nat>)
      returns (record: seq<uint8>)
    requires |methods| < WORD && status < 0x1_0000 && |offsets| == |Compact(methods)|
    ensures record == Record(methods, status, offsets)
  {
    hide RecordBytes, Compact, StorageBits, PrefixSize, TypeOf;
    assert methods[..|methods|] == methods;
    var oatClass := new OatClass(offset, methods, |offsets|, status);
    oatClass.methodOffsets := AsWords(offsets);
    record := oatClass.Write();
    SameRecord(methods, status, oatClass.bitmap, AsWords(offsets));
  }

  /** Only one bitmap marks the compiled methods, and other class types have none. */
  lemma SameRecord(methods: seq<Option<Visited>>, status: nat, bitmap: seq<bool>, entries: seq<uint32>)
    requires |methods| < WORD && status < 0x1_0000
    requires TypeOf(methods).SomeCompiled? ==>
               |bitmap| % 8 == 0 && |bitmap| / 8 < WORD && MarksCompiled(bitmap, methods, |methods|)
    ensures RecordBytes(methods, status, bitmap, entries) == RecordBytes(methods, status, Bitmap(methods), entries)
  {
    hide TypeOf, StorageBits, Le16, Le32, RawStorage;
    if TypeOf(methods).SomeCompiled? {
      assert bitmap == Bitmap(methods);
    }
  }

  // ---------------------------------------------------------------- from a class to code

  /** What the runtime finds for method `j` of class `i`, reading the record at the class's place in the file. */
  ghost function FoundOffset(file: seq<uint8>, classes: Classes, front: nat, i: nat, j: nat): Option<Option<uint32>>
    requires i < |classes|
  {
    var at := front + Place(classes, i);
    if at + RecordSize(classes[i]) > |file| then None
    else
      var record := file[at..at + RecordSize(classes[i])];
      if Readable(record, j) then Some(ReadMethodOffset(record, j)) else None
  }

  /** Every method of every class is found through its class record, and read back at the offset found there. */
  ghost predicate FoundThroughClasses(l: Linker, targets: map<MethodRef, nat>, file: seq<uint8>, classes: Classes,
                                      front: nat)
    requires l.AllCompilable(Flat(classes))
  {
    forall i: nat, j: nat :: i < |classes| && j < |classes[i]| ==>
      match classes[i][j]
      case None => FoundOffset(file, classes, front, i, j) == Some(None)
      case Some(v) =>
        l.Compilable(v.compiled) &&
        exists offset: uint32 :: FoundOffset(file, classes, front, i, j) == Some(Some(offset)) &&
                                 ReadsBack(l, targets, file, v.compiled, offset)
  }

  lemma RecordInFile(file: seq<uint8>, front: seq<uint8>, classes: Classes, statuses: seq<nat>, offsets: seq<seq<nat>>,
                     i: nat)
    requires Writable(classes, statuses) && Shaped(classes, offsets) && i < |classes|
    requires front + RecordsOf(classes, statuses, offsets, |classes|) <= file
    ensures var at := |front| + Place(classes, i);
            at + RecordSize(classes[i]) <= |file| &&
            file[at..at + RecordSize(classes[i])] == Record(classes[i], statuses[i], offsets[i])
  {
    hide Record, RecordSize, RecordsOf, Place, Compact;
    var records := RecordsOf(classes, statuses, offsets, |classes|);
    var record := Record(classes[i], statuses[i], offsets[i]);
    RecordAtPlace(classes, statuses, offsets, |classes|, i);
    RecordIsSized(classes[i], statuses[i], offsets[i]);
    PartInFile(front, records, file, Place(classes, i), record);
  }

  lemma PartInFile(front: seq<uint8>, records: seq<uint8>, file: seq<uint8>, at: nat, record: seq<uint8>)
    requires front + records <= file && ReadsAs(records, at, record)
    ensures ReadsAs(file, |front| + at, record)
  {
    var head := front + records;
    assert head[|front| + at..|front| + at + |record|] == records[at..at + |record|];
    assert file[|front| + at..|front| + at + |record|] == head[|front| + at..|front| + at + |record|];
  }

  predicate AllWords(offsets: seq<nat>) {
    forall x :: x in offsets ==> x < WORD
  }

  /** The offset found for a method is the one planned for its place in the visiting order. */
  lemma OffsetFound(file: seq<uint8>, front: seq<uint8>, classes: Classes, statuses: seq<nat>, offsets: seq<seq<nat>>,
                    i: nat, j: nat)
    requires Writable(classes, statuses) && Shaped(classes, offsets) && i < |classes| && j < |classes[i]|
    requires front + RecordsOf(classes, statuses, offsets, |classes|) <= file
    requires AllWords(Concat(offsets))
    ensures classes[i][j].None? ==> FoundOffset(file, classes, |front|, i, j) == Some(None)
    ensures classes[i][j].Some? ==>
              |Seen(classes, i, j)| < |Concat(offsets)| &&
              FoundOffset(file, classes, |front|, i, j) == Some(Some(Concat(offsets)[|Seen(classes, i, j)|]))
  {
    hide Flat, Concat, Compact, RecordBytes, Readable, ReadMethodOffset, TypeOf, Seen, RecordSize, RecordsOf, Place,
         U32, AllWords;
    RecordInFile(file, front, classes, statuses, offsets, i);
    InWords(classes, offsets, i);
    ClassRecordFindsCode(classes, offsets, i, j, statuses[i], Bitmap(classes[i]), AsWords(offsets[i]));
  }

  lemma InWords(classes: Classes, offsets: seq<seq<nat>>, i: nat)
    requires Shaped(classes, offsets) && i < |classes|
    requires AllWords(Concat(offsets))
    ensures AsWords(offsets[i]) == offsets[i]
  {
    hide Compact;
    ConcatHolds(offsets, i);
  }

  /** Every part is a piece of the concatenation. */
  lemma {:induction false} ConcatHolds(offsets: seq<seq<nat>>, i: nat)
    requires i < |offsets|
    ensures forall r :: 0 <= r < |offsets[i]| ==> offsets[i][r] in Concat(offsets)
  {
    var n := |offsets| - 1;
    if i < n {
      ConcatHolds(offsets[..n], i);
    }
  }

  lemma FileBeginsWithTables(l: Linker, tables: seq<uint8>, vs: seq<Visited>, ts: seq<seq<uint8>>, anyClass: bool,
                             k: Linked)
    requires k.Covers(|vs|) && l.AllCompilable(vs)
    ensures tables <= FileBytes(l, tables, vs, ts, anyClass, k)
  {
    hide LayoutOf, MapBytes, TrampolineBytes, WriteEnd;
  }

  /** Offsets of a finished file fit words. */
  lemma OffsetsAreWords(l: Linker, k: Linked, lay: Layout, vs: seq<Visited>, anyClass: bool)
    requires Finished(l, lay, vs, anyClass, k) && l.AllCompilable(vs) &&
             PlanEnd(l, lay.code, vs, anyClass).offset < WORD
    ensures AllWords(k.offsets)
  {
    hide PlanEnd, OffsetOf, CodeHeader, TablesHeader, Linker.AllCompilable;
    forall x | x in k.offsets ensures x < WORD {
      var q :| 0 <= q < |k.offsets| && k.offsets[q] == x;
      OffsetsInRange(l, lay.code, vs, anyClass, q);
    }
  }

  /** In a finished file that begins with the class records, every class leads to its code. */
  lemma ClassesLeadToCode(l: Linker, front: seq<uint8>, classes: Classes, statuses: seq<nat>, offsets: seq<seq<nat>>,
                          ts: seq<seq<uint8>>, k: Linked, file: seq<uint8>)
    requires Writable(classes, statuses) && Shaped(classes, offsets) && k.offsets == Concat(offsets) && front != []
    requires l.AllCompilable(Flat(classes)) && k.Covers(|Flat(classes)|)
    requires var tables := front + RecordsOf(classes, statuses, offsets, |classes|);
             var lay := LayoutOf(l, |tables|, Flat(classes), ts);
             Finished(l, lay, Flat(classes), classes != [], k) &&
             PlanEnd(l, lay.code, Flat(classes), classes != []).offset < WORD &&
             file == FileBytes(l, tables, Flat(classes), ts, classes != [], k)
    ensures FoundThroughClasses(l, k.targets, file, classes, |front|)
  {
    hide Flat, Concat, Compact, PlanEnd, LayoutOf, FileBytes, Finished, Shaped, RecordsOf, FoundOffset, ReadsBack, Seen,
         AllWords, Linker.Compilable;
    var tables := front + RecordsOf(classes, statuses, offsets, |classes|);
    var vs := Flat(classes);
    FileBeginsWithTables(l, tables, vs, ts, classes != [], k);
    OffsetsAreWords(l, k, LayoutOf(l, |tables|, vs, ts), vs, classes != []);
    forall i: nat, j: nat | i < |classes| && j < |classes[i]|
      ensures match classes[i][j]
              case None => FoundOffset(file, classes, |front|, i, j) == Some(None)
              case Some(v) =>
                l.Compilable(v.compiled) &&
                exists offset: uint32 :: FoundOffset(file, classes, |front|, i, j) == Some(Some(offset)) &&
                                         ReadsBack(l, k.targets, file, v.compiled, offset)
    {
      OffsetFound(file, front, classes, statuses, offsets, i, j);
      if classes[i][j].Some? {
        SeenStep(classes, i, j);
        FileReadsBack(l, tables, vs, ts, classes != [], k, |Seen(classes, i, j)|);
      }
    }
  }

  /**
   * Plans, writes the class records with the offsets planning found, and writes the rest: from the finished
   * file every method of every class is found through its class record and read back.
   */
  method BuildFile(w: OatWriter, front: seq<uint8>, statuses: seq<nat>, trampolines: seq<seq<uint8>>)
      returns (size: nat)
    requires w.Blank() && w.linker.AllCompilable(w.Methods()) && front != [] && Writable(w.classes, statuses)
    requires var tablesEnd := |front| + Place(w.classes, |w.classes|);
             PlanEnd(w.linker, LayoutOf(w.linker, tablesEnd, w.Methods(), trampolines).code, w.Methods(),
                     w.classes != []).offset < WORD
    modifies w
    ensures w.Valid() && size == |w.out|
    ensures FoundThroughClasses(w.linker, w.methodOffsetMap, w.out, w.classes, |front|)
  {
    hide Flat, Concat, Compact, PlanAt, PlanEnd, LayoutOf, FileBytes, Record, RecordSize, Place, RecordsOf, Finished,
         Shaped, FoundThroughClasses;
    var tablesEnd := |front| + Place(w.classes, |w.classes|);
    var planned := w.InitLayout(tablesEnd, trampolines);
    var records := WriteClasses(w.classes, statuses, w.codeOffsets);
    RecordsAreSized(w.classes, statuses, w.codeOffsets, |w.classes|);
    size := w.WriteFile(front + records, trampolines);
    ClassesLeadToCode(w.linker, front, w.classes, statuses, w.codeOffsets, trampolines, w.LinkedTables(), w.out);
  }
}
