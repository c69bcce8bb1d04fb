/**
 * The whole oat file: where each pass starts, what the finished bytes are, and what a reader
 * that only knows a method's code offset gets back out of them.
 */
module OatFile {
  import opened Arith
  import opened Words
  import opened CompiledMethods
  import opened OatTypes
  import opened OatMaps
  import opened OatCode

  // ---------------------------------------------------------------- layout

  function TrampolinesEnd(l: Linker, offset: nat, ts: seq<seq<uint8>>): (end: nat)
    ensures end >= offset
  {
    if ts == [] then offset
    else l.Align(TrampolinesEnd(l, offset, ts[..|ts| - 1])) + |ts[|ts| - 1]|
  }

  function TrampolineBytes(l: Linker, offset: nat, ts: seq<seq<uint8>>): (s: seq<uint8>)
    ensures offset + |s| == TrampolinesEnd(l, offset, ts)
  {
    if ts == [] then []
    else
      var at := TrampolinesEnd(l, offset, ts[..|ts| - 1]);
      TrampolineBytes(l, offset, ts[..|ts| - 1]) + Zeros(l.Align(at) - at) + ts[|ts| - 1]
  }

  /** Start offsets of the passes, in the order they run. */
  datatype Layout = Layout(gcMaps: nat, mappingTables: nat, vmapTables: nat, mapsEnd: nat, exec: nat, code: nat) {
    function Start(kind: TableKind): nat {
      match kind
      case GcMap => gcMaps
      case MappingTable => mappingTables
      case VmapTable => vmapTables
    }
  }

  function PageUp(x: nat): nat {
    RoundUp(x, PAGE_SIZE)
  }

  function LayoutOf(l: Linker, tablesEnd: nat, vs: seq<Visited>, ts: seq<seq<uint8>>): Layout {
    var mapping := MapEnd(l, GcMap, tablesEnd, vs);
    var vmap := MapEnd(l, MappingTable, mapping, vs);
    var end := MapEnd(l, VmapTable, vmap, vs);
    Layout(tablesEnd, mapping, vmap, end, PageUp(end), TrampolinesEnd(l, PageUp(end), ts))
  }

  /** The header of method `q` after the three table passes. */
  function TablesHeader(l: Linker, lay: Layout, vs: seq<Visited>, q: nat): MethodHeader
    requires q < |vs|
  {
    TableHeader(l, VmapTable, lay.vmapTables, vs, q,
      TableHeader(l, MappingTable, lay.mappingTables, vs, q,
        TableHeader(l, GcMap, lay.gcMaps, vs, q, EMPTY_HEADER)))
  }

  /** `k` is what all planning passes together leave for the writing passes. */
  ghost predicate Finished(l: Linker, lay: Layout, vs: seq<Visited>, anyClass: bool, k: Linked) {
    && Records(l, k, lay.code, vs, anyClass)
    && (forall q :: 0 <= q < |vs| ==>
          k.headers[q] == CodeHeader(l, PlanAt(l, lay.code, vs, q), vs[q].compiled, TablesHeader(l, lay, vs, q)))
  }

  /** What planning leaves, spelled out. */
  function PlannedBy(l: Linker, lay: Layout, vs: seq<Visited>, anyClass: bool): (k: Linked) {
    var end := PlanEnd(l, lay.code, vs, anyClass);
    Linked(
      seq(|vs|, q requires 0 <= q < |vs| => OffsetOf(l, lay.code, vs, q)),
      seq(|vs|, q requires 0 <= q < |vs| =>
        CodeHeader(l, PlanAt(l, lay.code, vs, q), vs[q].compiled, TablesHeader(l, lay, vs, q))),
      end.thunks, end.targets)
  }

  lemma PlannedIsFinished(l: Linker, lay: Layout, vs: seq<Visited>, anyClass: bool)
    ensures Finished(l, lay, vs, anyClass, PlannedBy(l, lay, vs, anyClass))
  {
    hide PlanEnd, OffsetOf, PlanAt, CodeHeader, TablesHeader;
  }

  function MapBytes(l: Linker, lay: Layout, vs: seq<Visited>, k: Linked, kind: TableKind): seq<uint8>
    requires k.Covers(|vs|)
  {
    WrittenMaps(l, kind, lay.Start(kind), vs, ReadOffsets(kind, k.headers, k.offsets))
  }

  /** Everything before the executable part. */
  function RodataBytes(l: Linker, tables: seq<uint8>, vs: seq<Visited>, ts: seq<seq<uint8>>, k: Linked): seq<uint8>
    requires k.Covers(|vs|)
  {
    var lay := LayoutOf(l, |tables|, vs, ts);
    tables + MapBytes(l, lay, vs, k, GcMap) + MapBytes(l, lay, vs, k, MappingTable) + MapBytes(l, lay, vs, k, VmapTable)
    + Zeros(lay.exec - lay.mapsEnd)
  }

  /** Everything written, from the first byte of the oat data on. */
  function FileBytes(l: Linker, tables: seq<uint8>, vs: seq<Visited>, ts: seq<seq<uint8>>, anyClass: bool, k: Linked)
      : seq<uint8>
    requires k.Covers(|vs|) && l.AllCompilable(vs)
  {
    var lay := LayoutOf(l, |tables|, vs, ts);
    RodataBytes(l, tables, vs, ts, k) + TrampolineBytes(l, lay.exec, ts) + WriteEnd(l, k, lay.code, vs, anyClass).out
  }

  // ---------------------------------------------------------------- table offsets

  lemma LayoutAscends(l: Linker, tablesEnd: nat, vs: seq<Visited>, ts: seq<seq<uint8>>)
    ensures var lay := LayoutOf(l, tablesEnd, vs, ts);
            lay.gcMaps == tablesEnd <= lay.mappingTables <= lay.vmapTables <= lay.mapsEnd <= lay.exec <= lay.code
  {
    hide MapPlanAt, TrampolinesEnd;
    var lay := LayoutOf(l, tablesEnd, vs, ts);
    RoundUpIsLeast(lay.mapsEnd, PAGE_SIZE);
    MapDedupeBelow(l, GcMap, lay.gcMaps, vs, |vs|);
    MapDedupeBelow(l, MappingTable, lay.mappingTables, vs, |vs|);
    MapDedupeBelow(l, VmapTable, lay.vmapTables, vs, |vs|);
  }

  /** A table precedes all code. */
  lemma TableBeforeCode(l: Linker, tablesEnd: nat, vs: seq<Visited>, ts: seq<seq<uint8>>, kind: TableKind, q: nat)
    requires q < |vs| && TableBytes(l, kind, vs[q].compiled) != []
    ensures var lay := LayoutOf(l, tablesEnd, vs, ts);
            tablesEnd <= TableOffset(l, kind, lay.Start(kind), vs, q) < lay.code
  {
    hide MapPlanAt, TrampolinesEnd, MapOffset;
    var lay := LayoutOf(l, tablesEnd, vs, ts);
    LayoutAscends(l, tablesEnd, vs, ts);
    MapDedupeBelow(l, kind, lay.Start(kind), vs, |vs|);
    TableOffsetIsFinal(l, kind, lay.Start(kind), vs, q);
  }

  lemma TablesHeaderField(l: Linker, lay: Layout, vs: seq<Visited>, q: nat, kind: TableKind)
    requires q < |vs|
    ensures Field(kind, TablesHeader(l, lay, vs, q)) ==
            if TableBytes(l, kind, vs[q].compiled) == [] then 0
            else Field(kind, SetOffset(kind, EMPTY_HEADER, 0, TableOffset(l, kind, lay.Start(kind), vs, q)))
  {
    hide TableOffset, TableBytes;
  }

  /** What the table field of method `q`'s finished header is worth. */
  ghost predicate DistanceIsRight(l: Linker, lay: Layout, vs: seq<Visited>, k: Linked, kind: TableKind, q: nat)
    requires q < |vs| && k.Covers(|vs|)
  {
    var field := Field(kind, k.headers[q]);
    var read := GetOffset(kind, k.headers[q], k.offsets[q]);
    if TableBytes(l, kind, vs[q].compiled) == [] then field == 0 && read == 0
    else
      && read == TableOffset(l, kind, lay.Start(kind), vs, q)
      && 0 < field == k.offsets[q] - l.isa.CodeDelta() - TableOffset(l, kind, lay.Start(kind), vs, q)
  }

  /**
   * After all planning, the offset read back for each table is the one planned for it, and the
   * header field itself is the distance from the code down to the table.
   */
  lemma PlannedOffsetsSurvive(l: Linker, tablesEnd: nat, vs: seq<Visited>, ts: seq<seq<uint8>>, anyClass: bool,
                              k: Linked, kind: TableKind, q: nat)
    requires q < |vs| && l.AllCompilable(vs) && tablesEnd > 0
    requires Finished(l, LayoutOf(l, tablesEnd, vs, ts), vs, anyClass, k)
    requires k.offsets[q] < WORD
    ensures DistanceIsRight(l, LayoutOf(l, tablesEnd, vs, ts), vs, k, kind, q)
  {
    hide PlanAt, TableOffset, TableBytes, TablesHeader, LayoutOf, Linker.AllCompilable, Linker.Compilable, U32,
         CodeStart, Rebase, SetOffset, PlanEnd, CodeOffset;
    var lay := LayoutOf(l, tablesEnd, vs, ts);
    var code := k.offsets[q] - l.isa.CodeDelta();
    CodeIsEven(l, lay.code, vs, q);
    TablesHeaderField(l, lay, vs, q, kind);
    assert Field(kind, k.headers[q]) == Rebase(Field(kind, TablesHeader(l, lay, vs, q)), code);
    if TableBytes(l, kind, vs[q].compiled) != [] {
      TableBeforeCode(l, tablesEnd, vs, ts, kind, q);
      OffsetAfterCode(kind, EMPTY_HEADER, k.headers[q], TableOffset(l, kind, lay.Start(kind), vs, q), code,
                      l.isa.CodeDelta());
    } else {
      RebaseAbsent(code);
    }
  }

  lemma RebaseAbsent(code: int)
    ensures Rebase(0, code) == 0
  {
  }

  // ---------------------------------------------------------------- reading the file back

  lemma HoldsInside(pre: seq<uint8>, part: seq<uint8>, post: seq<uint8>, offset: nat, bytes: seq<uint8>)
    requires Holds(part, |pre|, offset, bytes)
    ensures Holds(pre + part + post, 0, offset, bytes)
  {
    var file := pre + part + post;
    assert file[offset..offset + |bytes|] == part[offset - |pre|..offset - |pre| + |bytes|];
  }

  /** What a reader who knows a method's code offset expects to find. */
  ghost predicate ReadsBack(l: Linker, targets: map<MethodRef, nat>, file: seq<uint8>, m: CompiledMethod,
                            codeOffset: nat)
    requires l.Compilable(m)
  {
    var c := codeOffset - l.isa.CodeDelta();
    && METHOD_HEADER_SIZE <= c && c + |l.Code(m)| <= |file|
    && file[c..c + |l.Code(m)|] == PatchedCode(l, targets, m, c)
    && var h := DecodeHeader(file[c - METHOD_HEADER_SIZE..c]);
       && h.codeSize == |l.Code(m)|
       && TableReadsBack(l, file, h, c, m, GcMap)
       && TableReadsBack(l, file, h, c, m, MappingTable)
       && TableReadsBack(l, file, h, c, m, VmapTable)
  }

  /** The table of `m` lies its header's distance below its code; no table, no distance. */
  ghost predicate TableReadsBack(l: Linker, file: seq<uint8>, h: MethodHeader, code: nat, m: CompiledMethod,
                                 kind: TableKind) {
    if TableBytes(l, kind, m) == [] then Field(kind, h) == 0
    else 0 < Field(kind, h) <= code && Holds(file, 0, code - Field(kind, h), TableBytes(l, kind, m))
  }

  lemma OffsetsInRange(l: Linker, start: nat, vs: seq<Visited>, anyClass: bool, q: nat)
    requires q < |vs| && l.AllCompilable(vs) && PlanEnd(l, start, vs, anyClass).offset < WORD
    ensures OffsetOf(l, start, vs, q) < WORD
    ensures |l.Code(vs[q].compiled)| < WORD
  {
    hide PlanAt, Visit, CodeStart, Linker.Align;
    var j := EveryMethodIsServed(l, start, vs, q);
    PlacedBelowCursor(l, start, vs, j, |vs|);
    PlanStartsAtStart(l, start, vs, j);
    assert vs[j].compiled.quickCode == KeyOf(vs[j].compiled).code == vs[q].compiled.quickCode;
  }

  lemma OffsetsArePlanned(l: Linker, tablesEnd: nat, vs: seq<Visited>, ts: seq<seq<uint8>>, anyClass: bool, k: Linked,
                          kind: TableKind)
    requires l.AllCompilable(vs) && tablesEnd > 0
    requires Finished(l, LayoutOf(l, tablesEnd, vs, ts), vs, anyClass, k)
    requires PlanEnd(l, LayoutOf(l, tablesEnd, vs, ts).code, vs, anyClass).offset < WORD
    ensures PlannedOffsets(l, kind, LayoutOf(l, tablesEnd, vs, ts).Start(kind), vs,
                           ReadOffsets(kind, k.headers, k.offsets))
  {
    hide PlanAt, PlanEnd, TableOffset, LayoutOf, OffsetOf, Field, GetOffset, Linker.AllCompilable, CodeHeader,
         TablesHeader;
    var lay := LayoutOf(l, tablesEnd, vs, ts);
    forall q | 0 <= q < |vs|
      ensures ReadOffsets(kind, k.headers, k.offsets)[q] == TableOffset(l, kind, lay.Start(kind), vs, q)
    {
      OffsetsInRange(l, lay.code, vs, anyClass, q);
      PlannedOffsetsSurvive(l, tablesEnd, vs, ts, anyClass, k, kind, q);
      AbsentTableOffset(l, kind, lay.Start(kind), vs, q);
    }
  }

  lemma AbsentTableOffset(l: Linker, kind: TableKind, start: nat, vs: seq<Visited>, q: nat)
    requires q < |vs|
    ensures TableBytes(l, kind, vs[q].compiled) == [] ==> TableOffset(l, kind, start, vs, q) == 0
  {
  }

  /** Each pass's bytes begin in the file where the layout says the pass starts. */
  lemma FileParts(l: Linker, tables: seq<uint8>, vs: seq<Visited>, ts: seq<seq<uint8>>, anyClass: bool, k: Linked,
                  kind: TableKind)
      returns (pre: seq<uint8>, post: seq<uint8>)
    requires l.AllCompilable(vs) && tables != []
    requires Finished(l, LayoutOf(l, |tables|, vs, ts), vs, anyClass, k)
    requires PlanEnd(l, LayoutOf(l, |tables|, vs, ts).code, vs, anyClass).offset < WORD
    ensures |pre| == LayoutOf(l, |tables|, vs, ts).Start(kind)
    ensures FileBytes(l, tables, vs, ts, anyClass, k) ==
            pre + MapBytes(l, LayoutOf(l, |tables|, vs, ts), vs, k, kind) + post
  {
    hide PlanEnd, PlanAt, WriteEnd, WrittenMaps, MapEnd, CodeHeader, TablesHeader, ReadOffsets, Linker.AllCompilable,
         TrampolinesEnd, TrampolineBytes, PageUp;
    var lay := LayoutOf(l, |tables|, vs, ts);
    MapSizes(l, tables, vs, ts, anyClass, k);
    var g, m, v := MapBytes(l, lay, vs, k, GcMap), MapBytes(l, lay, vs, k, MappingTable),
      MapBytes(l, lay, vs, k, VmapTable);
    var rest := Zeros(lay.exec - lay.mapsEnd) + TrampolineBytes(l, lay.exec, ts) +
      WriteEnd(l, k, lay.code, vs, anyClass).out;
    match kind {
      case GcMap => pre, post := tables, m + v + rest;
      case MappingTable => pre, post := tables + g, v + rest;
      case VmapTable => pre, post := tables + g + m, rest;
    }
    assert FileBytes(l, tables, vs, ts, anyClass, k) == tables + g + m + v + rest;
  }

  lemma MapSizes(l: Linker, tables: seq<uint8>, vs: seq<Visited>, ts: seq<seq<uint8>>, anyClass: bool, k: Linked)
    requires l.AllCompilable(vs) && tables != []
    requires Finished(l, LayoutOf(l, |tables|, vs, ts), vs, anyClass, k)
    requires PlanEnd(l, LayoutOf(l, |tables|, vs, ts).code, vs, anyClass).offset < WORD
    ensures var lay := LayoutOf(l, |tables|, vs, ts);
            && lay.gcMaps + |MapBytes(l, lay, vs, k, GcMap)| == lay.mappingTables
            && lay.mappingTables + |MapBytes(l, lay, vs, k, MappingTable)| == lay.vmapTables
            && lay.vmapTables + |MapBytes(l, lay, vs, k, VmapTable)| == lay.mapsEnd
            && lay.exec >= lay.mapsEnd
  {
    hide PlanEnd, PlanAt, WrittenMaps, MapEnd, Linker.AllCompilable, TrampolinesEnd, TableIsAt, WrittenAtFirstUse,
         CodeHeader, TablesHeader;
    var lay := LayoutOf(l, |tables|, vs, ts);
    LayoutAscends(l, |tables|, vs, ts);
    OffsetsArePlanned(l, |tables|, vs, ts, anyClass, k, GcMap);
    OffsetsArePlanned(l, |tables|, vs, ts, anyClass, k, MappingTable);
    OffsetsArePlanned(l, |tables|, vs, ts, anyClass, k, VmapTable);
    MapPassAgreement(l, GcMap, lay.gcMaps, vs, ReadOffsets(GcMap, k.headers, k.offsets));
    MapPassAgreement(l, MappingTable, lay.mappingTables, vs, ReadOffsets(MappingTable, k.headers, k.offsets));
    MapPassAgreement(l, VmapTable, lay.vmapTables, vs, ReadOffsets(VmapTable, k.headers, k.offsets));
  }

  /** The code region begins at its planned offset and the file ends at the planned size. */
  lemma FileCodePart(l: Linker, tables: seq<uint8>, vs: seq<Visited>, ts: seq<seq<uint8>>, anyClass: bool, k: Linked)
      returns (pre: seq<uint8>)
    requires l.AllCompilable(vs) && tables != []
    requires Finished(l, LayoutOf(l, |tables|, vs, ts), vs, anyClass, k)
    requires PlanEnd(l, LayoutOf(l, |tables|, vs, ts).code, vs, anyClass).offset < WORD
    ensures |pre| == LayoutOf(l, |tables|, vs, ts).code
    ensures FileBytes(l, tables, vs, ts, anyClass, k) ==
            pre + WriteEnd(l, k, LayoutOf(l, |tables|, vs, ts).code, vs, anyClass).out
    ensures |FileBytes(l, tables, vs, ts, anyClass, k)| ==
              PlanEnd(l, LayoutOf(l, |tables|, vs, ts).code, vs, anyClass).offset
  {
    hide PlanEnd, PlanAt, WriteEnd, WriteAt, WrittenMaps, MapEnd, ReadOffsets, Linker.AllCompilable, PageUp, Duplicate,
         MapBytes, CodeHeader, TablesHeader;
    var lay := LayoutOf(l, |tables|, vs, ts);
    MapSizes(l, tables, vs, ts, anyClass, k);
    TwoPassAgreement(l, k, lay.code, vs, anyClass);
    pre := tables + MapBytes(l, lay, vs, k, GcMap) + MapBytes(l, lay, vs, k, MappingTable) +
      MapBytes(l, lay, vs, k, VmapTable)
           + Zeros(lay.exec - lay.mapsEnd) + TrampolineBytes(l, lay.exec, ts);
  }

  /** Methods that share code have the same tables at the same offsets. */
  lemma SharedTables(l: Linker, kind: TableKind, start: nat, vs: seq<Visited>, i: nat, j: nat)
    requires i < |vs| && j < |vs| && KeyOf(vs[i].compiled) == KeyOf(vs[j].compiled)
    ensures Table(kind, vs[i].compiled) == Table(kind, vs[j].compiled)
    ensures TableBytes(l, kind, vs[i].compiled) == TableBytes(l, kind, vs[j].compiled)
    ensures TableOffset(l, kind, start, vs, i) == TableOffset(l, kind, start, vs, j)
  {
    hide MapPlanAt;
    var a, b := KeyOf(vs[i].compiled), KeyOf(vs[j].compiled);
    assert a.gc == vs[i].compiled.gcMap && a.mapping == vs[i].compiled.mappingTable &&
           a.vmap == vs[i].compiled.vmapTable;
    assert b.gc == vs[j].compiled.gcMap && b.mapping == vs[j].compiled.mappingTable &&
           b.vmap == vs[j].compiled.vmapTable;
    if TableBytes(l, kind, vs[i].compiled) != [] {
      TableOffsetIsFinal(l, kind, start, vs, i);
      TableOffsetIsFinal(l, kind, start, vs, j);
    }
  }

  lemma TableIsReadBack(l: Linker, tables: seq<uint8>, vs: seq<Visited>, ts: seq<seq<uint8>>, anyClass: bool, k: Linked,
                        i: nat, j: nat, kind: TableKind)
    requires l.AllCompilable(vs) && tables != []
    requires Finished(l, LayoutOf(l, |tables|, vs, ts), vs, anyClass, k)
    requires PlanEnd(l, LayoutOf(l, |tables|, vs, ts).code, vs, anyClass).offset < WORD
    requires Serves(l, LayoutOf(l, |tables|, vs, ts).code, vs, i, j)
    requires k.offsets[i] >= l.isa.CodeDelta()
    ensures TableReadsBack(l, FileBytes(l, tables, vs, ts, anyClass, k), k.headers[j],
                           k.offsets[i] - l.isa.CodeDelta(), vs[i].compiled, kind)
  {
    hide PlanEnd, PlanAt, LayoutOf, FileBytes, OffsetOf, TableOffset, TableBytes, Field, GetOffset, Duplicate,
         CodeHeader, TablesHeader, WrittenMaps, Linker.AllCompilable, Linker.Compilable, Holds, WrittenAtFirstUse;
    var lay := LayoutOf(l, |tables|, vs, ts);
    OffsetsInRange(l, lay.code, vs, anyClass, j);
    PlannedOffsetsSurvive(l, |tables|, vs, ts, anyClass, k, kind, j);
    SharedTables(l, kind, lay.Start(kind), vs, i, j);
    if TableBytes(l, kind, vs[i].compiled) != [] {
      OffsetsArePlanned(l, |tables|, vs, ts, anyClass, k, kind);
      MapPassAgreement(l, kind, lay.Start(kind), vs, ReadOffsets(kind, k.headers, k.offsets));
      var pre, post := FileParts(l, tables, vs, ts, anyClass, k, kind);
      assert TableIsAt(l, kind, lay.Start(kind), MapBytes(l, lay, vs, k, kind), vs[j].compiled,
                       ReadOffsets(kind, k.headers, k.offsets)[j]);
      HoldsInside(pre, MapBytes(l, lay, vs, k, kind), post, TableOffset(l, kind, lay.Start(kind), vs, j),
                  TableBytes(l, kind, vs[j].compiled));
    }
  }

  lemma CodeInsideFile(l: Linker, k: Linked, pre: seq<uint8>, out: seq<uint8>, header: MethodHeader, m: CompiledMethod,
                       offset: nat)
    requires l.Compilable(m) && CodeIsAt(l, k, |pre|, out, header, m, offset)
    ensures var c, file := offset - l.isa.CodeDelta(), pre + out;
            && METHOD_HEADER_SIZE <= c && c + |l.Code(m)| <= |file|
            && file[c - METHOD_HEADER_SIZE..c] == header.Encode()
            && file[c..c + |l.Code(m)|] == PatchedCode(l, k.targets, m, c)
  {
    var c, file := offset - l.isa.CodeDelta(), pre + out;
    assert file[c - METHOD_HEADER_SIZE..c] == out[c - METHOD_HEADER_SIZE - |pre|..c - |pre|];
    assert file[c..c + |l.Code(m)|] == out[c - |pre|..c - |pre| + |l.Code(m)|];
  }

  /**
   * The finished file, read from nothing but a method's code offset, yields that method's patched
   * code, its code size and its three tables, whether or not any of them is shared; and the file
   * is exactly as long as planning said.
   */
  lemma FileReadsBack(l: Linker, tables: seq<uint8>, vs: seq<Visited>, ts: seq<seq<uint8>>, anyClass: bool, k: Linked,
                      i: nat)
    requires i < |vs| && l.AllCompilable(vs) && tables != []
    requires Finished(l, LayoutOf(l, |tables|, vs, ts), vs, anyClass, k)
    requires PlanEnd(l, LayoutOf(l, |tables|, vs, ts).code, vs, anyClass).offset < WORD
    ensures ReadsBack(l, k.targets, FileBytes(l, tables, vs, ts, anyClass, k), vs[i].compiled, k.offsets[i])
    ensures |FileBytes(l, tables, vs, ts, anyClass, k)| ==
              PlanEnd(l, LayoutOf(l, |tables|, vs, ts).code, vs, anyClass).offset
  {
    hide PlanEnd, PlanAt, LayoutOf, FileBytes, OffsetOf, Duplicate, TablesHeader, TableReadsBack, PatchedCode,
         Linker.Compilable, MethodHeader.Encode, DecodeHeader, WriteEnd, CodeIsAt;
    var lay := LayoutOf(l, |tables|, vs, ts);
    var j := EveryMethodHasItsCode(l, k, lay.code, vs, anyClass, i);
    var pre := FileCodePart(l, tables, vs, ts, anyClass, k);
    CodeInsideFile(l, k, pre, WriteEnd(l, k, lay.code, vs, anyClass).out, k.headers[j], vs[i].compiled, k.offsets[i]);
    HeaderRoundTrip(k.headers[j]);
    OffsetsInRange(l, lay.code, vs, anyClass, j);
    SameKeySameSize(l, vs[i].compiled, vs[j].compiled);
    TableIsReadBack(l, tables, vs, ts, anyClass, k, i, j, GcMap);
    TableIsReadBack(l, tables, vs, ts, anyClass, k, i, j, MappingTable);
    TableIsReadBack(l, tables, vs, ts, anyClass, k, i, j, VmapTable);
  }

  lemma SameKeySameSize(l: Linker, m: CompiledMethod, n: CompiledMethod)
    requires KeyOf(m) == KeyOf(n)
    ensures l.Code(m) == l.Code(n)
  {
    assert m.quickCode == KeyOf(m).code && n.quickCode == KeyOf(n).code;
  }

  // ---------------------------------------------------------------- what sharing does to frame info

  /** The frame description at a method's code offset is the method's own. */
  ghost predicate FrameReadsBack(l: Linker, file: seq<uint8>, m: CompiledMethod, codeOffset: nat) {
    var c := codeOffset - l.isa.CodeDelta();
    && METHOD_HEADER_SIZE <= c <= |file|
    && SameFrame(DecodeHeader(file[c - METHOD_HEADER_SIZE..c]), m)
  }

  predicate SameFrame(h: MethodHeader, m: CompiledMethod) {
    h.frameSize == m.frameSize && h.coreSpillMask == m.coreSpillMask && h.fpSpillMask == m.fpSpillMask
  }

  predicate FramesAgree(m: CompiledMethod, n: CompiledMethod) {
    m.frameSize == n.frameSize && m.coreSpillMask == n.coreSpillMask && m.fpSpillMask == n.fpSpillMask
  }

  /** The header a reader finds at method `i` describes the frame of the method placed there. */
  lemma HeaderIsOfServer(l: Linker, tables: seq<uint8>, vs: seq<Visited>, ts: seq<seq<uint8>>, anyClass: bool,
                         k: Linked, i: nat)
      returns (j: nat)
    requires i < |vs| && l.AllCompilable(vs) && tables != []
    requires Finished(l, LayoutOf(l, |tables|, vs, ts), vs, anyClass, k)
    requires PlanEnd(l, LayoutOf(l, |tables|, vs, ts).code, vs, anyClass).offset < WORD
    ensures Serves(l, LayoutOf(l, |tables|, vs, ts).code, vs, i, j)
    ensures FrameReadsBack(l, FileBytes(l, tables, vs, ts, anyClass, k), vs[j].compiled, k.offsets[i])
  {
    hide PlanEnd, PlanAt, LayoutOf, FileBytes, OffsetOf, Duplicate, TablesHeader, PatchedCode, Linker.Compilable,
         MethodHeader.Encode, DecodeHeader, WriteEnd, CodeIsAt, Rebase;
    var lay := LayoutOf(l, |tables|, vs, ts);
    j := EveryMethodHasItsCode(l, k, lay.code, vs, anyClass, i);
    var pre := FileCodePart(l, tables, vs, ts, anyClass, k);
    CodeInsideFile(l, k, pre, WriteEnd(l, k, lay.code, vs, anyClass).out, k.headers[j], vs[i].compiled, k.offsets[i]);
    HeaderRoundTrip(k.headers[j]);
  }

  /** Without debuggable code, methods with one key get one code offset. */
  lemma SameKeySameOffset(l: Linker, start: nat, vs: seq<Visited>, i: nat, j: nat)
    requires i < |vs| && j < |vs| && !l.debuggable && KeyOf(vs[i].compiled) == KeyOf(vs[j].compiled)
    ensures OffsetOf(l, start, vs, i) == OffsetOf(l, start, vs, j)
  {
    hide CodeStart, Reserve, ReserveThunks, Linker.Align;
    PlanGrows(l, start, vs, i + 1, |vs|);
    PlanGrows(l, start, vs, j + 1, |vs|);
  }

  /** A method served by another one is a duplicate, so it is found only when code is shared. */
  lemma ServerIsSelf(l: Linker, start: nat, vs: seq<Visited>, i: nat, j: nat)
    requires l.debuggable && l.AllCompilable(vs) && Serves(l, start, vs, i, j)
    ensures i == j
  {
    hide PlanAt, CodeOffset;
    if j < i {
      PlacedRangesAscend(l, start, vs, j, i);
    }
  }

  /** Methods with one key have one frame. */
  ghost predicate FramesFollowKeys(vs: seq<Visited>) {
    forall i, j :: 0 <= i < |vs| && 0 <= j < |vs| && KeyOf(vs[i].compiled) == KeyOf(vs[j].compiled) ==>
                     FramesAgree(vs[i].compiled, vs[j].compiled)
  }

  /**
   * The deduplication key leaves out the frame size and spill masks, so a shared header is right
   * for everybody exactly when methods with one key also have one frame, or nothing is shared.
   */
  lemma FrameInfoReadsBackIff(l: Linker, tables: seq<uint8>, vs: seq<Visited>, ts: seq<seq<uint8>>, anyClass: bool,
                              k: Linked)
    requires l.AllCompilable(vs) && tables != []
    requires Finished(l, LayoutOf(l, |tables|, vs, ts), vs, anyClass, k)
    requires PlanEnd(l, LayoutOf(l, |tables|, vs, ts).code, vs, anyClass).offset < WORD
    ensures (forall i :: 0 <= i < |vs| ==>
               FrameReadsBack(l, FileBytes(l, tables, vs, ts, anyClass, k), vs[i].compiled, k.offsets[i]))
            <==> l.debuggable || FramesFollowKeys(vs)
  {
    hide PlanEnd, PlanAt, LayoutOf, FileBytes, OffsetOf, Duplicate, DecodeHeader, KeyOf, CodeHeader, TablesHeader;
    var lay, file := LayoutOf(l, |tables|, vs, ts), FileBytes(l, tables, vs, ts, anyClass, k);
    if l.debuggable || FramesFollowKeys(vs) {
      forall i | 0 <= i < |vs| ensures FrameReadsBack(l, file, vs[i].compiled, k.offsets[i]) {
        var j := HeaderIsOfServer(l, tables, vs, ts, anyClass, k, i);
        if l.debuggable {
          ServerIsSelf(l, lay.code, vs, i, j);
        } else {
          assert FramesAgree(vs[i].compiled, vs[j].compiled);
        }
      }
    } else {
      var i, j :| 0 <= i < |vs| && 0 <= j < |vs| && KeyOf(vs[i].compiled) == KeyOf(vs[j].compiled)
                  && !FramesAgree(vs[i].compiled, vs[j].compiled);
      SameKeySameOffset(l, lay.code, vs, i, j);
      assert k.offsets[i] == k.offsets[j];
      assert !FrameReadsBack(l, file, vs[i].compiled, k.offsets[i]) ||
             !FrameReadsBack(l, file, vs[j].compiled, k.offsets[j]);
    }
  }
}
