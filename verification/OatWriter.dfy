/**
 * The oat writer itself: nested walks over classes and methods that update offsets and headers
 * in place. Every pass is proved against the flat specifications of OatMaps and OatCode.
 */
module OatWriters {
  import opened Arith
  import opened Words
  import opened SafeMap
  import opened CompiledMethods
  import opened OatTypes
  import opened OatMaps
  import opened OatCode
  import opened OatFile
  import OatClasses
  import opened Flatten

  class OatWriter {
    const linker: Linker
    const classes: seq<seq<Option<Visited>>>

    var codeOffsets: seq<seq<nat>>
    var headers: seq<seq<MethodHeader>>
    var thunkLocations: seq<nat>
    var placed: nat
    var nextThunk: nat
    var methodOffsetMap: map<MethodRef, nat>
    var absolutePatches: seq<int>
    var methodInfo: seq<DebugInfo>
    var executableOffset: nat
    var executableOffsetAlignment: nat
    var out: seq<uint8>

    /** One zeroed slot per compiled method, as the class records allocate them. */
    constructor (linker: Linker, classes: seq<seq<Option<Visited>>>)
      ensures this.linker == linker && this.classes == classes
      ensures Blank()
    {
      this.linker := linker;
      this.classes := classes;
      codeOffsets := seq(|classes|, i requires 0 <= i < |classes| => seq(|Compact(classes[i])|, _ => 0));
      headers := seq(|classes|, i requires 0 <= i < |classes| => seq(|Compact(classes[i])|, _ => EMPTY_HEADER));
      thunkLocations, placed, nextThunk, methodOffsetMap := [], 0, 0, map[];
      absolutePatches, methodInfo, out := [], [], [];
      executableOffset, executableOffsetAlignment := 0, 0;
      new;
      ConcatConstant(codeOffsets, 0);
      ConcatConstant(headers, EMPTY_HEADER);
    }

    /** Nothing has been planned or written. */
    ghost predicate Blank()
      reads this
    {
      && Valid() && CodeUnplanned()
      && (forall q :: 0 <= q < |Headers()| ==> Headers()[q] == EMPTY_HEADER)
      && thunkLocations == [] && placed == 0 && nextThunk == 0 && methodOffsetMap == map[]
      && absolutePatches == [] && methodInfo == [] && out == []
    }

    ghost function Methods(): seq<Visited> {
      Flat(classes)
    }

    /** One slot per compiled method in both tables. */
    ghost predicate Valid()
      reads this`codeOffsets, this`headers
    {
      Shaped(classes, codeOffsets) && Shaped(classes, headers)
    }

    ghost function Offsets(): seq<nat>
      reads this`codeOffsets
    {
      Concat(codeOffsets)
    }

    ghost function Headers(): seq<MethodHeader>
      reads this`headers
    {
      Concat(headers)
    }

    ghost predicate CodeUnplanned()
      reads this`codeOffsets
    {
      forall q :: 0 <= q < |Offsets()| ==> Offsets()[q] == 0
    }

    // ---------------------------------------------------------------- table passes

    /** One visit of the table-planning visitor. */
    method InitMapVisit(kind: TableKind, i: nat, r: nat, compiled: CompiledMethod, offset: nat,
                        dedupe: Entries<nat, nat>, ghost p: MapPlan)
      returns (newOffset: nat, newDedupe: Entries<nat, nat>)
      requires i < |headers| && i < |codeOffsets| && r < |headers[i]| && r < |codeOffsets[i]|
      requires codeOffsets[i][r] == 0
      requires offset == p.offset && Models(AddressLess, Address, dedupe, p.dedupe)
      requires VisitMap(linker, kind, p, compiled).offset < WORD
      requires forall t :: t in p.dedupe ==> p.dedupe[t] < WORD
      modifies this`headers
      ensures newOffset == VisitMap(linker, kind, p, compiled).offset
      ensures Models(AddressLess, Address, newDedupe, VisitMap(linker, kind, p, compiled).dedupe)
      ensures headers ==
              if TableBytes(linker, kind, compiled) == [] then old(headers)
              else SetSlot(old(headers), i, r,
                           SetOffset(kind, old(headers)[i][r], 0, MapOffset(linker, kind, p, compiled)))
    {
      hide Models, OrderedBy, Find, LowerBound, PutBefore;
      AddressLessOrders();
      newOffset, newDedupe := offset, dedupe;
      var table := Table(kind, compiled);
      var mapSize := |Bytes(linker.vectors, table)|;
      if mapSize != 0 {
        FindIsLookup(AddressLess, Address, dedupe, p.dedupe, table);
        match Find(AddressLess, dedupe, table)
        case Some(shared) =>
          headers := SetSlot(headers, i, r, SetOffset(kind, headers[i][r], codeOffsets[i][r], U32(shared)));
        case None =>
          headers := SetSlot(headers, i, r, SetOffset(kind, headers[i][r], codeOffsets[i][r], U32(offset)));
          PutIsUpdate(AddressLess, Address, dedupe, p.dedupe, table, offset);
          newDedupe := PutBefore(dedupe, LowerBound(AddressLess, dedupe, table), table, U32(offset));
          newOffset := offset + mapSize;
      }
    }

    /** The table-planning walk over all classes, for one kind of table. */
    method InitMaps(kind: TableKind, start: nat) returns (offset: nat)
      requires Valid()
      requires CodeUnplanned()
      requires MapEnd(linker, kind, start, Methods()) < WORD
      modifies this`headers
      ensures Valid()
      ensures offset == MapEnd(linker, kind, start, Methods())
      ensures TablesPlanned(linker, kind, start, Methods(), |Methods()|, old(Headers()), Headers())
    {
      ghost var before, vs, k := Headers(), Methods(), 0;
      ShapedLength(classes, headers);
      ShapedLength(classes, codeOffsets);
      SeenNothing(classes);
      offset := start;
      var dedupe: Entries<nat, nat> := [];
      EmptyModels<nat, nat, nat>(AddressLess, Address);
      var i := 0;
      while i < |classes|
        invariant i <= |classes| && Valid() && k == |Seen(classes, i, 0)|
        invariant MapLoop(linker, kind, start, vs, k, offset, dedupe, before, Headers())
      {
        offset, dedupe := InitMapClass(kind, start, i, offset, dedupe, before);
        k := |Seen(classes, i + 1, 0)|;
        i := i + 1;
      }
    }

    method InitMapClass(kind: TableKind, ghost start: nat, i: nat, offset: nat, dedupe: Entries<nat, nat>,
                        ghost before: seq<MethodHeader>)
      returns (newOffset: nat, newDedupe: Entries<nat, nat>)
      requires Valid() && i < |classes|
      requires CodeUnplanned()
      requires MapEnd(linker, kind, start, Methods()) < WORD
      requires MapLoop(linker, kind, start, Methods(), |Seen(classes, i, 0)|, offset, dedupe, before, Headers())
      modifies this`headers
      ensures Valid()
      ensures MapLoop(linker, kind, start, Methods(), |Seen(classes, i + 1, 0)|, newOffset, newDedupe, before,
                      Headers())
    {
      hide *;
      newOffset, newDedupe := offset, dedupe;
      ghost var k, vs := |Seen(classes, i, 0)|, Methods();
      var r := 0;
      var j := 0;
      while j < |classes[i]|
        invariant j <= |classes[i]| && Valid() && k == |Seen(classes, i, j)|
        invariant r == |Compact(classes[i][..j])|
        invariant MapLoop(linker, kind, start, vs, k, newOffset, newDedupe, before, Headers())
      {
        SeenStep(classes, i, j);
        CompactStep(classes[i], j);
        if classes[i][j].Some? {
          newOffset, newDedupe := InitMapMethod(kind, start, i, j, r, classes[i][j].value, newOffset, newDedupe,
                                                before);
          r, k := r + 1, k + 1;
        }
        j := j + 1;
      }
      SeenNextClass(classes, i);
    }

    method InitMapMethod(kind: TableKind, ghost start: nat, i: nat, j: nat, r: nat, v: Visited, offset: nat,
                         dedupe: Entries<nat, nat>, ghost before: seq<MethodHeader>)
      returns (newOffset: nat, newDedupe: Entries<nat, nat>)
      requires Valid() && i < |classes| && j < |classes[i]| && classes[i][j] == Some(v)
      requires r == |Compact(classes[i][..j])|
      requires CodeUnplanned()
      requires MapEnd(linker, kind, start, Methods()) < WORD
      requires MapLoop(linker, kind, start, Methods(), |Seen(classes, i, j)|, offset, dedupe, before, Headers())
      modifies this`headers
      ensures Valid()
      ensures MapLoop(linker, kind, start, Methods(), |Seen(classes, i, j)| + 1, newOffset, newDedupe, before,
                      Headers())
    {
      hide Seen, Flat, Compact, Concat, Models, SetOffset, VisitMap;
      ghost var vs, k := Methods(), |Seen(classes, i, j)|;
      ghost var p := MapPlanAt(linker, kind, start, vs, k);
      SeenStep(classes, i, j);
      SlotOfSeen(classes, headers, i, j);
      SlotOfSeen(classes, codeOffsets, i, j);
      ConcatUpdate(headers, i, r, SetOffset(kind, headers[i][r], 0, MapOffset(linker, kind, p, v.compiled)));
      MapPlanGrows(linker, kind, start, vs, k, k + 1);
      MapPlanGrows(linker, kind, start, vs, k + 1, |vs|);
      MapDedupeBelow(linker, kind, start, vs, k);
      assert Offsets()[k] == codeOffsets[i][r];
      newOffset, newDedupe := InitMapVisit(kind, i, r, v.compiled, offset, dedupe, p);
    }

    // ---------------------------------------------------------------- planning the code

    /** The patcher's part before a method: a thunk if one is due, always followed by alignment. */
    method ReserveSpace(offset: nat, ghost p: Plan) returns (r: nat)
      requires offset == p.offset && placed == p.placed && Reserve(linker, p) < WORD
      modifies this`thunkLocations
      ensures r == Reserve(linker, p)
      ensures thunkLocations ==
              if linker.needsThunk(p.placed) then old(thunkLocations) + [linker.Align(p.offset)]
              else old(thunkLocations)
    {
      hide Linker.Align;
      r := U32(offset);
      if linker.needsThunk(placed) {
        var location := U32(linker.Align(r));
        thunkLocations := thunkLocations + [location];
        r := U32(linker.Align(U32(location + |linker.thunk|)));
      }
    }

    method NewQuickCodeOffset(offset: nat, ghost p: Plan) returns (newOffset: nat, quickCodeOffset: nat)
      requires offset == p.offset && placed == p.placed && thunkLocations == p.thunks
      requires CodeStart(linker, p) + linker.isa.CodeDelta() < WORD
      modifies this`thunkLocations
      ensures newOffset == CodeStart(linker, p) - METHOD_HEADER_SIZE
      ensures quickCodeOffset == CodeStart(linker, p) + linker.isa.CodeDelta()
      ensures thunkLocations == ReserveThunks(linker, p)
    {
      hide Linker.Align;
      newOffset := ReserveSpace(offset, p);
      newOffset := linker.Align(newOffset);
      quickCodeOffset := U32(newOffset + METHOD_HEADER_SIZE + linker.isa.CodeDelta());
    }

    method RecordAbsolutePatches(base: int, patches: seq<LinkerPatch>)
      modifies this`absolutePatches
      ensures absolutePatches == old(absolutePatches) + PatchLocations(base, patches)
    {
      for n := 0 to |patches|
        invariant absolutePatches == old(absolutePatches) + PatchLocations(base, patches[..n])
      {
        assert patches[..n + 1][..n] == patches[..n];
        if !patches[n].IsPcRelative() {
          absolutePatches := absolutePatches + [base + patches[n].literalOffset];
        }
      }
      assert patches[..|patches|] == patches;
    }

    /** Finds or assigns the offset of one method's code. */
    method AssignCode(exec: nat, v: Visited, offset: nat, dedupe: Entries<CompiledMethod, nat>, ghost p: Plan)
      returns (newOffset: nat, newDedupe: Entries<CompiledMethod, nat>, quickCodeOffset: nat, deduped: bool)
      requires offset == p.offset && placed == p.placed && thunkLocations == p.thunks
      requires Models(CodeLess, KeyOf, dedupe, p.dedupe)
      requires CodeStart(linker, p) + linker.isa.CodeDelta() < WORD || IsDuplicate(linker, p, v.compiled)
      modifies this`thunkLocations, this`placed, this`absolutePatches
      ensures newOffset == Visit(linker, p, v).offset
      ensures Models(CodeLess, KeyOf, newDedupe, Visit(linker, p, v).dedupe)
      ensures thunkLocations == Visit(linker, p, v).thunks && placed == Visit(linker, p, v).placed
      ensures quickCodeOffset == CodeOffset(linker, p, v.compiled)
      ensures deduped == IsDuplicate(linker, p, v.compiled)
      ensures absolutePatches == if deduped then old(absolutePatches) else
                old(absolutePatches) + PatchLocations(CodeStart(linker, p) - exec, v.compiled.patches)
    {
      hide Models, OrderedBy, Find, LowerBound, PutBefore, CodeLess, Linker.Align, CodeStart, PatchLocations,
           ReserveThunks, Reserve;
      CodeLessOrdersByKey();
      newOffset, newDedupe, deduped := offset, dedupe, false;
      if linker.debuggable {
        newOffset, quickCodeOffset := NewQuickCodeOffset(offset, p);
      } else {
        FindIsLookup(CodeLess, KeyOf, dedupe, p.dedupe, v.compiled);
        match Find(CodeLess, dedupe, v.compiled) {
          case Some(shared) =>
            quickCodeOffset, deduped := shared, true;
          case None =>
            newOffset, quickCodeOffset := NewQuickCodeOffset(offset, p);
            PutIsUpdate(CodeLess, KeyOf, dedupe, p.dedupe, v.compiled, quickCodeOffset);
            newDedupe := PutBefore(dedupe, LowerBound(CodeLess, dedupe, v.compiled), v.compiled, quickCodeOffset);
        }
      }
      if !deduped {
        placed := placed + 1;
        var codeSize := |linker.Code(v.compiled)|;
        newOffset := newOffset + METHOD_HEADER_SIZE;
        newOffset := newOffset + codeSize;
        RecordAbsolutePatches(newOffset - codeSize - exec, v.compiled.patches);
      }
    }

    /** The header of the visited method, updated in place once its code offset is known. */
    method UpdateHeader(i: nat, r: nat, m: CompiledMethod, quickCodeOffset: nat, ghost p: Plan)
      requires i < |headers| && r < |headers[i]| && quickCodeOffset == CodeOffset(linker, p, m)
      modifies this`headers
      ensures headers == SetSlot(old(headers), i, r, CodeHeader(linker, p, m, old(headers)[i][r]))
    {
      hide Linker.Align, CodeOffset;
      var header := headers[i][r];
      var mappingTableOffset, vmapTableOffset, gcMapOffset :=
        header.mappingTableOffset, header.vmapTableOffset, header.gcMapOffset;
      var codeOffset := quickCodeOffset - linker.isa.CodeDelta();
      if mappingTableOffset != 0 {
        mappingTableOffset := U32(mappingTableOffset + codeOffset);
      }
      if vmapTableOffset != 0 {
        vmapTableOffset := U32(vmapTableOffset + codeOffset);
      }
      if gcMapOffset != 0 {
        gcMapOffset := U32(gcMapOffset + codeOffset);
      }
      headers := SetSlot(headers, i, r, MethodHeader(
        mappingTableOffset, vmapTableOffset, gcMapOffset,
        m.frameSize, m.coreSpillMask, m.fpSpillMask, U32(|linker.Code(m)|)));
    }

    /** One visit of the code-planning visitor. */
    method InitCodeVisit(exec: nat, i: nat, r: nat, v: Visited, offset: nat, dedupe: Entries<CompiledMethod, nat>,
                         ghost p: Plan)
      returns (newOffset: nat, newDedupe: Entries<CompiledMethod, nat>)
      requires i < |headers| == |codeOffsets| && r < |headers[i]| == |codeOffsets[i]|
      requires CarriesPlan(p, offset, dedupe)
      requires CodeStart(linker, p) + linker.isa.CodeDelta() < WORD || IsDuplicate(linker, p, v.compiled)
      modifies this`thunkLocations, this`placed, this`absolutePatches, this`methodOffsetMap
      modifies this`headers, this`codeOffsets, this`methodInfo
      ensures CarriesPlan(Visit(linker, p, v), newOffset, newDedupe)
      ensures headers == SetSlot(old(headers), i, r, CodeHeader(linker, p, v.compiled, old(headers)[i][r]))
      ensures codeOffsets == SetSlot(old(codeOffsets), i, r, CodeOffset(linker, p, v.compiled))
      ensures absolutePatches == if IsDuplicate(linker, p, v.compiled) then old(absolutePatches) else
                old(absolutePatches) + PatchLocations(CodeStart(linker, p) - exec, v.compiled.patches)
      ensures methodInfo == if linker.generateDebugInfo
                then old(methodInfo) + [DebugInfoOf(linker, exec, p, v)] else old(methodInfo)
    {
      hide Models, Linker.Align, CodeStart, PatchLocations, ReserveThunks, Reserve, CodeHeader, CodeOffset, IsDuplicate,
           Visit, SetSlot;
      VisitTargets(linker, p, v);
      var quickCodeOffset: nat, deduped: bool;
      newOffset, newDedupe, quickCodeOffset, deduped := AssignCode(exec, v, offset, dedupe, p);
      if v.ref !in methodOffsetMap {
        methodOffsetMap := methodOffsetMap[v.ref := quickCodeOffset];
      }
      UpdateHeader(i, r, v.compiled, quickCodeOffset, p);
      if linker.generateDebugInfo {
        var quickCodeStart := quickCodeOffset - exec - linker.isa.CodeDelta();
        methodInfo := methodInfo + [DebugInfo(
          v.ref, deduped, quickCodeStart, quickCodeStart + |linker.Code(v.compiled)|, v.compiled)];
      }
      codeOffsets := SetSlot(codeOffsets, i, r, quickCodeOffset);
    }

    /** The visitor's fields are those of the plan `p`. */
    ghost predicate CarriesPlan(p: Plan, offset: nat, dedupe: Entries<CompiledMethod, nat>)
      reads this`thunkLocations, this`placed, this`methodOffsetMap
    {
      && offset == p.offset && Models(CodeLess, KeyOf, dedupe, p.dedupe)
      && thunkLocations == p.thunks && placed == p.placed && methodOffsetMap == p.targets
    }

    ghost function Tables(): CodeTables
      reads this
    {
      CodeTables(Headers(), Offsets(), absolutePatches, methodInfo)
    }

    method InitCodeMethod(exec: nat, ghost start: nat, i: nat, j: nat, r: nat, v: Visited, offset: nat,
                          dedupe: Entries<CompiledMethod, nat>, ghost before: seq<MethodHeader>)
      returns (newOffset: nat, newDedupe: Entries<CompiledMethod, nat>)
      requires Valid() && linker.AllCompilable(Methods())
      requires i < |classes| && j < |classes[i]| && classes[i][j] == Some(v)
      requires r == |Compact(classes[i][..j])|
      requires PlanEnd(linker, start, Methods(), classes != []).offset < WORD
      requires |Seen(classes, i, j)| <= |Methods()|
      requires CarriesPlan(PlanAt(linker, start, Methods(), |Seen(classes, i, j)|), offset, dedupe)
      requires CodePlanned(linker, exec, start, Methods(), |Seen(classes, i, j)|, before, Tables())
      modifies this`thunkLocations, this`placed, this`absolutePatches, this`methodOffsetMap
      modifies this`headers, this`codeOffsets, this`methodInfo
      ensures Valid() && |Seen(classes, i, j)| < |Methods()|
      ensures CarriesPlan(PlanAt(linker, start, Methods(), |Seen(classes, i, j)| + 1), newOffset, newDedupe)
      ensures CodePlanned(linker, exec, start, Methods(), |Seen(classes, i, j)| + 1, before, Tables())
    {
      hide Seen, Flat, Compact, Concat, CarriesPlan, CodePlanned, Visit, CodeStart, CodeHeader, CodeOffset, IsDuplicate,
           PatchLocations, DebugInfoOf, PlanEnd;
      ghost var vs, k, t := Methods(), |Seen(classes, i, j)|, Tables();
      ghost var p := PlanAt(linker, start, vs, k);
      SeenStep(classes, i, j);
      SlotOfSeen(classes, headers, i, j);
      SlotOfSeen(classes, codeOffsets, i, j);
      ConcatUpdate(headers, i, r, CodeHeader(linker, p, v.compiled, headers[i][r]));
      ConcatUpdate(codeOffsets, i, r, CodeOffset(linker, p, v.compiled));
      FitsEverywhere(linker, start, vs, classes != [], k);
      newOffset, newDedupe := InitCodeVisit(exec, i, r, v, offset, dedupe, p);
      CodePlannedStep(linker, exec, start, vs, k, before, t, Tables());
    }

    method InitCodeClass(exec: nat, ghost start: nat, i: nat, offset: nat, dedupe: Entries<CompiledMethod, nat>,
                         ghost before: seq<MethodHeader>)
      returns (newOffset: nat, newDedupe: Entries<CompiledMethod, nat>)
      requires Valid() && linker.AllCompilable(Methods()) && i < |classes|
      requires PlanEnd(linker, start, Methods(), classes != []).offset < WORD
      requires |Seen(classes, i, 0)| <= |Methods()|
      requires CarriesPlan(PlanAt(linker, start, Methods(), |Seen(classes, i, 0)|), offset, dedupe)
      requires CodePlanned(linker, exec, start, Methods(), |Seen(classes, i, 0)|, before, Tables())
      modifies this`thunkLocations, this`placed, this`absolutePatches, this`methodOffsetMap
      modifies this`headers, this`codeOffsets, this`methodInfo
      ensures Valid() && |Seen(classes, i + 1, 0)| <= |Methods()|
      ensures CarriesPlan(PlanAt(linker, start, Methods(), |Seen(classes, i + 1, 0)|), newOffset, newDedupe)
      ensures CodePlanned(linker, exec, start, Methods(), |Seen(classes, i + 1, 0)|, before, Tables())
    {
      hide *;
      newOffset, newDedupe := offset, dedupe;
      ghost var k, vs := |Seen(classes, i, 0)|, Methods();
      var r := 0;
      var j := 0;
      while j < |classes[i]|
        invariant j <= |classes[i]| && Valid() && k == |Seen(classes, i, j)| && k <= |vs|
        invariant r == |Compact(classes[i][..j])|
        invariant CarriesPlan(PlanAt(linker, start, vs, k), newOffset, newDedupe)
        invariant CodePlanned(linker, exec, start, vs, k, before, Tables())
      {
        SeenStep(classes, i, j);
        CompactStep(classes[i], j);
        if classes[i][j].Some? {
          newOffset, newDedupe := InitCodeMethod(exec, start, i, j, r, classes[i][j].value, newOffset, newDedupe,
                                                 before);
          r, k := r + 1, k + 1;
        }
        j := j + 1;
      }
      SeenNextClass(classes, i);
    }

    /** The code-planning walk: offsets, headers, thunks, patch locations and debug records. */
    method InitCode(exec: nat, start: nat) returns (offset: nat)
      requires Valid() && linker.AllCompilable(Methods())
      requires thunkLocations == [] && placed == 0 && methodOffsetMap == map[]
      requires absolutePatches == [] && methodInfo == []
      requires PlanEnd(linker, start, Methods(), classes != []).offset < WORD
      modifies this`thunkLocations, this`placed, this`absolutePatches, this`methodOffsetMap
      modifies this`headers, this`codeOffsets, this`methodInfo
      ensures Valid()
      ensures offset == PlanEnd(linker, start, Methods(), classes != []).offset
      ensures CodePlanned(linker, exec, start, Methods(), |Methods()|, old(Headers()), Tables())
      ensures thunkLocations == PlanEnd(linker, start, Methods(), classes != []).thunks
      ensures methodOffsetMap == PlanEnd(linker, start, Methods(), classes != []).targets
    {
      hide Seen, Flat, Compact, Concat, Models, Linker.Align, Visit, CodePlanned, Reserve, ReserveThunks;
      ghost var vs := Methods();
      PlanBegins(exec, start);
      var dedupe: Entries<CompiledMethod, nat>;
      offset, dedupe := InitCodeClasses(exec, start, Headers());
      if classes != [] {
        ReserveThunksIs(linker, PlanAt(linker, start, vs, |vs|));
        offset := ReserveSpace(offset, PlanAt(linker, start, vs, |vs|));
      }
    }

    lemma PlanBegins(exec: nat, start: nat)
      requires Valid() && thunkLocations == [] && placed == 0 && methodOffsetMap == map[]
      requires absolutePatches == [] && methodInfo == []
      ensures CarriesPlan(PlanAt(linker, start, Methods(), 0), start, [])
      ensures CodePlanned(linker, exec, start, Methods(), 0, Headers(), Tables())
    {
      hide Flat, Compact, Concat, Models, Visit;
      ShapedLength(classes, headers);
      ShapedLength(classes, codeOffsets);
      EmptyModels<CompiledMethod, nat, CodeKey>(CodeLess, KeyOf);
    }

    method InitCodeClasses(exec: nat, start: nat, ghost before: seq<MethodHeader>)
      returns (offset: nat, dedupe: Entries<CompiledMethod, nat>)
      requires Valid() && linker.AllCompilable(Methods())
      requires PlanEnd(linker, start, Methods(), classes != []).offset < WORD
      requires CarriesPlan(PlanAt(linker, start, Methods(), 0), start, [])
      requires CodePlanned(linker, exec, start, Methods(), 0, before, Tables())
      modifies this`thunkLocations, this`placed, this`absolutePatches, this`methodOffsetMap
      modifies this`headers, this`codeOffsets, this`methodInfo
      ensures Valid()
      ensures CarriesPlan(PlanAt(linker, start, Methods(), |Methods()|), offset, dedupe)
      ensures CodePlanned(linker, exec, start, Methods(), |Methods()|, before, Tables())
    {
      hide *;
      SeenNothing(classes);
      ghost var vs, k := Methods(), 0;
      offset, dedupe := start, [];
      var i := 0;
      while i < |classes|
        invariant i <= |classes| && Valid() && k == |Seen(classes, i, 0)| && k <= |vs|
        invariant CarriesPlan(PlanAt(linker, start, vs, k), offset, dedupe)
        invariant CodePlanned(linker, exec, start, vs, k, before, Tables())
      {
        offset, dedupe := InitCodeClass(exec, start, i, offset, dedupe, before);
        i := i + 1;
        k := |Seen(classes, i, 0)|;
      }
      SeenAll(classes);
      MethodsAre();
    }

    lemma MethodsAre()
      ensures Methods() == Flat(classes)
    {
    }

    // ---------------------------------------------------------------- writing the tables

    ghost function Stored(kind: TableKind): (r: seq<nat>)
      reads this`headers, this`codeOffsets
      requires |Headers()| == |Offsets()|
      ensures |r| == |Headers()|
    {
      ReadOffsets(kind, Headers(), Offsets())
    }

    /** The first `k` methods' tables have been written after `before`. */
    ghost predicate MapsWritten(kind: TableKind, start: nat, k: nat, offset: nat, before: seq<uint8>)
      reads this`headers, this`codeOffsets, this`out
    {
      && k <= |Methods()| == |Headers()| == |Offsets()|
      && offset == WriteMapAt(linker, kind, start, Methods(), Stored(kind), k).offset
      && out == before + WriteMapAt(linker, kind, start, Methods(), Stored(kind), k).out
    }

    method WriteMapMethod(kind: TableKind, ghost start: nat, i: nat, j: nat, r: nat, v: Visited, offset: nat,
                          ghost before: seq<uint8>)
      returns (newOffset: nat)
      requires Valid() && i < |classes| && j < |classes[i]| && classes[i][j] == Some(v)
      requires r == |Compact(classes[i][..j])|
      requires MapsWritten(kind, start, |Seen(classes, i, j)|, offset, before)
      modifies this`out
      ensures MapsWritten(kind, start, |Seen(classes, i, j)| + 1, newOffset, before)
    {
      hide Seen, Flat, Compact, Concat;
      SeenStep(classes, i, j);
      SlotOfSeen(classes, headers, i, j);
      SlotOfSeen(classes, codeOffsets, i, j);
      var mapOffset := GetOffset(kind, headers[i][r], codeOffsets[i][r]);
      assert mapOffset == Stored(kind)[|Seen(classes, i, j)|];
      newOffset := offset;
      var bytes := Bytes(linker.vectors, Table(kind, v.compiled));
      if |bytes| != 0 && mapOffset == offset {
        out := out + bytes;
        newOffset := newOffset + |bytes|;
      }
    }

    method WriteMapsClass(kind: TableKind, ghost start: nat, i: nat, offset: nat, ghost before: seq<uint8>)
      returns (newOffset: nat)
      requires Valid() && i < |classes| && MapsWritten(kind, start, |Seen(classes, i, 0)|, offset, before)
      modifies this`out
      ensures MapsWritten(kind, start, |Seen(classes, i + 1, 0)|, newOffset, before)
    {
      hide *;
      newOffset := offset;
      var r := 0;
      var j := 0;
      while j < |classes[i]|
        invariant j <= |classes[i]| && r == |Compact(classes[i][..j])|
        invariant MapsWritten(kind, start, |Seen(classes, i, j)|, newOffset, before)
      {
        SeenStep(classes, i, j);
        CompactStep(classes[i], j);
        if classes[i][j].Some? {
          newOffset := WriteMapMethod(kind, start, i, j, r, classes[i][j].value, newOffset, before);
          r := r + 1;
        }
        j := j + 1;
      }
      SeenNextClass(classes, i);
    }

    /** The table-writing walk over all classes, for one kind of table. */
    method WriteMaps(kind: TableKind, start: nat) returns (offset: nat)
      requires Valid()
      modifies this`out
      ensures MapsWritten(kind, start, |Methods()|, offset, old(out))
    {
      hide Seen, Flat, Compact, Concat;
      ShapedLength(classes, headers);
      ShapedLength(classes, codeOffsets);
      SeenNothing(classes);
      offset := start;
      var i := 0;
      while i < |classes|
        invariant i <= |classes| && MapsWritten(kind, start, |Seen(classes, i, 0)|, offset, old(out))
      {
        offset := WriteMapsClass(kind, start, i, offset, old(out));
        i := i + 1;
      }
      SeenAll(classes);
    }

    // ---------------------------------------------------------------- writing the code

    ghost function LinkedTables(): Linked
      reads this`headers, this`codeOffsets, this`thunkLocations, this`methodOffsetMap
    {
      Linked(Offsets(), Headers(), thunkLocations, methodOffsetMap)
    }

    /** The patcher's part before a method: the next thunk, if it was reserved right here. */
    method WriteReservedThunks(offset: nat, ghost before: seq<uint8>, ghost w: Writer) returns (newOffset: nat)
      requires offset == w.offset && nextThunk == w.nextThunk && out == before + w.out
      modifies this`out, this`nextThunk
      ensures var t := WriteThunks(linker, thunkLocations, w);
              newOffset == t.offset && nextThunk == t.nextThunk && out == before + t.out
    {
      hide Linker.Align;
      newOffset := offset;
      if nextThunk < |thunkLocations| {
        var alignedOffset := linker.Align(offset);
        if alignedOffset == thunkLocations[nextThunk] {
          nextThunk := nextThunk + 1;
          out := out + Zeros(alignedOffset - offset);
          out := out + linker.thunk;
          var thunkEndOffset := alignedOffset + |linker.thunk|;
          newOffset := linker.Align(thunkEndOffset);
          out := out + Zeros(newOffset - thunkEndOffset);
        }
      }
    }

    /** A private copy of the code with every linker patch applied to it. */
    method PatchCode(m: CompiledMethod, at: nat) returns (code: seq<uint8>)
      requires linker.Compilable(m)
      ensures code == PatchedCode(linker, methodOffsetMap, m, at)
    {
      hide PatchWord;
      code := linker.Code(m);
      for n := 0 to |m.patches|
        invariant |code| == |linker.Code(m)|
        invariant Patched(linker, methodOffsetMap, code, m.patches[n..], at) ==
                    PatchedCode(linker, methodOffsetMap, m, at)
      {
        var p := m.patches[n];
        assert m.patches[n..][1..] == m.patches[n + 1..];
        code := Splice(code, p.literalOffset,
                       Le32(PatchWord(linker, methodOffsetMap, p, at, WordAt(code, p.literalOffset))));
      }
    }

    method WriteCodeVisit(i: nat, r: nat, m: CompiledMethod, offset: nat, ghost before: seq<uint8>, ghost w: Writer,
                          ghost q: nat)
      returns (newOffset: nat)
      requires i < |headers| == |codeOffsets| && r < |headers[i]| == |codeOffsets[i]|
      requires q < |Offsets()| == |Headers()| && Offsets()[q] == codeOffsets[i][r] && Headers()[q] == headers[i][r]
      requires linker.Compilable(m)
      requires offset == w.offset && nextThunk == w.nextThunk && out == before + w.out
      modifies this`out, this`nextThunk
      ensures var t := WriteMethod(linker, LinkedTables(), w, q, m);
              newOffset == t.offset && nextThunk == t.nextThunk && out == before + t.out
    {
      hide Linker.Align, WriteThunks, PatchedCode, Concat, MethodHeader.Encode;
      newOffset := offset;
      var codeSize := |linker.Code(m)|;
      if codeOffsets[i][r] >= newOffset {
        newOffset := WriteReservedThunks(newOffset, before, w);
        var alignedOffset := linker.Align(newOffset);
        out := out + Zeros(alignedOffset - newOffset);
        newOffset := alignedOffset;
        out := out + headers[i][r].Encode();
        newOffset := newOffset + METHOD_HEADER_SIZE;
        var patched := PatchCode(m, newOffset);
        out := out + patched;
        newOffset := newOffset + codeSize;
      }
    }

    /** The first `k` methods' code has been written after `before`. */
    ghost predicate CodeWritten(start: nat, k: nat, offset: nat, before: seq<uint8>)
      requires linker.AllCompilable(Methods())
      reads this`headers, this`codeOffsets, this`thunkLocations, this`methodOffsetMap, this`out, this`nextThunk
    {
      && k <= |Methods()| == |Headers()| == |Offsets()|
      && Carries(WriteAt(linker, LinkedTables(), start, Methods(), k), offset, before)
    }

    ghost predicate Carries(w: Writer, offset: nat, before: seq<uint8>)
      reads this`out, this`nextThunk
    {
      offset == w.offset && nextThunk == w.nextThunk && out == before + w.out
    }

    method WriteCodeMethod(ghost start: nat, i: nat, j: nat, r: nat, v: Visited, offset: nat, ghost before: seq<uint8>)
      returns (newOffset: nat)
      requires Valid() && i < |classes| && j < |classes[i]| && classes[i][j] == Some(v)
      requires r == |Compact(classes[i][..j])| && linker.AllCompilable(Methods())
      requires CodeWritten(start, |Seen(classes, i, j)|, offset, before)
      modifies this`out, this`nextThunk
      ensures CodeWritten(start, |Seen(classes, i, j)| + 1, newOffset, before)
    {
      hide Seen, Flat, Compact, Concat, WriteMethod, Linker.Compilable;
      ghost var k := |Seen(classes, i, j)|;
      SeenStep(classes, i, j);
      SlotOfSeen(classes, headers, i, j);
      SlotOfSeen(classes, codeOffsets, i, j);
      assert Offsets()[k] == codeOffsets[i][r] && Headers()[k] == headers[i][r];
      newOffset := WriteCodeVisit(i, r, v.compiled, offset, before,
                                  WriteAt(linker, LinkedTables(), start, Methods(), k), k);
    }

    method WriteCodeClass(ghost start: nat, i: nat, offset: nat, ghost before: seq<uint8>) returns (newOffset: nat)
      requires Valid() && i < |classes| && linker.AllCompilable(Methods())
      requires CodeWritten(start, |Seen(classes, i, 0)|, offset, before)
      modifies this`out, this`nextThunk
      ensures CodeWritten(start, |Seen(classes, i + 1, 0)|, newOffset, before)
    {
      hide *;
      newOffset := offset;
      var r := 0;
      var j := 0;
      while j < |classes[i]|
        invariant j <= |classes[i]| && r == |Compact(classes[i][..j])|
        invariant CodeWritten(start, |Seen(classes, i, j)|, newOffset, before)
      {
        SeenStep(classes, i, j);
        CompactStep(classes[i], j);
        if classes[i][j].Some? {
          newOffset := WriteCodeMethod(start, i, j, r, classes[i][j].value, newOffset, before);
          r := r + 1;
        }
        j := j + 1;
      }
      SeenNextClass(classes, i);
    }

    /** The code-writing walk: it decides what to write from the stored offsets alone. */
    method WriteCode(start: nat) returns (offset: nat)
      requires Valid() && linker.AllCompilable(Methods()) && nextThunk == 0
      modifies this`out, this`nextThunk
      ensures |Headers()| == |Offsets()| == |Methods()|
      ensures Carries(WriteEnd(linker, LinkedTables(), start, Methods(), classes != []), offset, old(out))
    {
      hide Seen, Flat, Compact, Concat, WriteMethod, Linker.Compilable;
      ShapedLength(classes, headers);
      ShapedLength(classes, codeOffsets);
      SeenNothing(classes);
      offset := start;
      var i := 0;
      while i < |classes|
        invariant i <= |classes| && CodeWritten(start, |Seen(classes, i, 0)|, offset, old(out))
      {
        offset := WriteCodeClass(start, i, offset, old(out));
        i := i + 1;
      }
      SeenAll(classes);
      if classes != [] {
        offset := WriteReservedThunks(offset, old(out), WriteAt(linker, LinkedTables(), start, Methods(), |Methods()|));
      }
    }

    // ---------------------------------------------------------------- whole runs

    /** All planning passes in order. */
    method InitLayout(tablesEnd: nat, trampolines: seq<seq<uint8>>) returns (size: nat)
      requires Blank() && linker.AllCompilable(Methods())
      requires PlanEnd(linker, LayoutOf(linker, tablesEnd, Methods(), trampolines).code, Methods(),
                       classes != []).offset < WORD
      modifies this`thunkLocations, this`placed, this`absolutePatches, this`methodOffsetMap
      modifies this`headers, this`codeOffsets, this`methodInfo, this`executableOffset, this`executableOffsetAlignment
      ensures Valid()
      ensures var lay := LayoutOf(linker, tablesEnd, Methods(), trampolines);
              && Finished(linker, lay, Methods(), classes != [], LinkedTables())
              && size == PlanEnd(linker, lay.code, Methods(), classes != []).offset
              && executableOffset == lay.exec && executableOffsetAlignment == lay.exec - lay.mapsEnd
              && absolutePatches == AbsolutePatches(linker, lay.exec, lay.code, Methods(), |Methods()|)
              && (linker.generateDebugInfo ==>
                  methodInfo == DebugInfos(linker, lay.exec, lay.code, Methods(), |Methods()|))
    {
      hide Flat, Concat, PlanAt, PlanEnd, Linker.Align, Linker.AllCompilable, MapPlanAt, TableHeader, CodeHeader,
           PageUp, CodeOffset, AbsolutePatches, DebugInfos, TrampolinesEnd, RoundUp, Shaped;
      ghost var vs, lay := Methods(), LayoutOf(linker, tablesEnd, Methods(), trampolines);
      LayoutAscends(linker, tablesEnd, vs, trampolines);
      PlanEndAfterStart(linker, lay.code, vs, classes != []);
      ghost var h0 := Headers();
      var offset := InitMaps(GcMap, tablesEnd);
      ghost var h1 := Headers();
      offset := InitMaps(MappingTable, offset);
      ghost var h2 := Headers();
      offset := InitMaps(VmapTable, offset);
      ghost var h3 := Headers();
      TablesHeadersDone(linker, lay, vs, h0, h1, h2, h3);
      executableOffset := PageUp(offset);
      executableOffsetAlignment := executableOffset - offset;
      offset := InitTrampolines(executableOffset, trampolines);
      size := InitCode(executableOffset, offset);
      CodePlannedIsFinished(linker, lay, vs, classes != [], h3, Tables(), LinkedTables());
    }

    method InitTrampolines(start: nat, trampolines: seq<seq<uint8>>) returns (offset: nat)
      ensures offset == TrampolinesEnd(linker, start, trampolines)
    {
      hide Linker.Align;
      offset := start;
      for n := 0 to |trampolines|
        invariant offset == TrampolinesEnd(linker, start, trampolines[..n])
      {
        assert trampolines[..n + 1][..n] == trampolines[..n];
        offset := linker.Align(offset);
        offset := offset + |trampolines[n]|;
      }
      assert trampolines[..|trampolines|] == trampolines;
    }

    method WriteTrampolines(start: nat, trampolines: seq<seq<uint8>>) returns (offset: nat)
      modifies this`out
      ensures offset == TrampolinesEnd(linker, start, trampolines)
      ensures out == old(out) + TrampolineBytes(linker, start, trampolines)
    {
      hide Linker.Align;
      offset := start;
      for n := 0 to |trampolines|
        invariant offset == TrampolinesEnd(linker, start, trampolines[..n])
        invariant out == old(out) + TrampolineBytes(linker, start, trampolines[..n])
      {
        assert trampolines[..n + 1][..n] == trampolines[..n];
        var alignedOffset := linker.Align(offset);
        out := out + Zeros(alignedOffset - offset);
        out := out + trampolines[n];
        offset := alignedOffset + |trampolines[n]|;
      }
      assert trampolines[..|trampolines|] == trampolines;
    }

    /** Planning is over for a file whose leading tables take `tablesEnd` bytes. */
    ghost predicate Planned(tablesEnd: nat, trampolines: seq<seq<uint8>>)
      requires linker.AllCompilable(Methods())
      reads this`headers, this`codeOffsets, this`thunkLocations, this`methodOffsetMap, this`executableOffset,
              this`executableOffsetAlignment
    {
      var lay := LayoutOf(linker, tablesEnd, Methods(), trampolines);
      && Valid() && tablesEnd > 0
      && Finished(linker, lay, Methods(), classes != [], LinkedTables())
      && PlanEnd(linker, lay.code, Methods(), classes != []).offset < WORD
      && executableOffset == lay.exec && executableOffsetAlignment == lay.exec - lay.mapsEnd
    }

    /** The read-only part: leading tables, the three kinds of maps, and padding to a page. */
    method WriteRodata(tables: seq<uint8>, ghost trampolines: seq<seq<uint8>>) returns (offset: nat)
      requires linker.AllCompilable(Methods()) && Planned(|tables|, trampolines) && out == []
      modifies this`out
      ensures offset == executableOffset && LinkedTables().Covers(|Methods()|)
      ensures out == RodataBytes(linker, tables, Methods(), trampolines, LinkedTables())
    {
      hide Flat, Concat, PlanAt, PlanEnd, Linker.AllCompilable, MapEnd, WriteMapAt, Shaped, LayoutOf, Finished,
           ReadOffsets, Zeros, PageUp, CodeHeader, TablesHeader;
      ghost var lay := LayoutOf(linker, |tables|, Methods(), trampolines);
      LayoutChains(linker, |tables|, Methods(), trampolines);
      FinishedCovers(linker, lay, Methods(), classes != [], LinkedTables());
      LayoutAscends(linker, |tables|, Methods(), trampolines);
      MapCursor(linker, GcMap, lay.gcMaps, Methods(), |tables|, LinkedTables(), lay, trampolines, classes != []);
      MapCursor(linker, MappingTable, lay.mappingTables, Methods(), |tables|, LinkedTables(), lay, trampolines,
                classes != []);
      MapCursor(linker, VmapTable, lay.vmapTables, Methods(), |tables|, LinkedTables(), lay, trampolines,
                classes != []);
      out := out + tables;
      offset := |tables|;
      offset := WriteMaps(GcMap, offset);
      offset := WriteMaps(MappingTable, offset);
      offset := WriteMaps(VmapTable, offset);
      out := out + Zeros(executableOffsetAlignment);
      offset := offset + executableOffsetAlignment;
    }

    /** The executable part: trampolines, then the code of all methods. */
    method WriteText(ghost tablesEnd: nat, trampolines: seq<seq<uint8>>) returns (offset: nat)
      requires linker.AllCompilable(Methods()) && Planned(tablesEnd, trampolines) && nextThunk == 0
      modifies this`out, this`nextThunk
      ensures LinkedTables().Covers(|Methods()|)
      ensures var code := LayoutOf(linker, tablesEnd, Methods(), trampolines).code;
              && offset == PlanEnd(linker, code, Methods(), classes != []).offset
              && out == old(out) + TrampolineBytes(linker, executableOffset, trampolines)
                        + WriteEnd(linker, LinkedTables(), code, Methods(), classes != []).out
    {
      hide Flat, Concat, PlanAt, PlanEnd, Linker.AllCompilable, Shaped, LayoutOf, Finished, TrampolinesEnd,
           TrampolineBytes, WriteEnd;
      ghost var lay := LayoutOf(linker, tablesEnd, Methods(), trampolines);
      LayoutChains(linker, tablesEnd, Methods(), trampolines);
      FinishedCovers(linker, lay, Methods(), classes != [], LinkedTables());
      offset := WriteTrampolines(executableOffset, trampolines);
      offset := WriteCode(offset);
      TwoPassAgreement(linker, LinkedTables(), lay.code, Methods(), classes != []);
    }

    /** Both parts, one after the other. */
    method WriteFile(tables: seq<uint8>, trampolines: seq<seq<uint8>>) returns (size: nat)
      requires linker.AllCompilable(Methods()) && Planned(|tables|, trampolines) && out == [] && nextThunk == 0
      modifies this`out, this`nextThunk
      ensures LinkedTables().Covers(|Methods()|)
      ensures out == FileBytes(linker, tables, Methods(), trampolines, classes != [], LinkedTables())
      ensures size == |out|
    {
      hide Flat, Concat, PlanAt, PlanEnd, Linker.AllCompilable, Shaped, LayoutOf, Finished, TrampolineBytes, WriteEnd,
           RodataBytes;
      size := WriteRodata(tables, trampolines);
      size := WriteText(|tables|, trampolines);
      ghost var pre := FileCodePart(linker, tables, Methods(), trampolines, classes != [], LinkedTables());
    }

    /** Plans and writes one oat file: every compiled method can be read back from its bytes. */
    method Build(tables: seq<uint8>, trampolines: seq<seq<uint8>>) returns (size: nat)
      requires Blank() && linker.AllCompilable(Methods()) && tables != []
      requires PlanEnd(linker, LayoutOf(linker, |tables|, Methods(), trampolines).code, Methods(),
                       classes != []).offset < WORD
      modifies this
      ensures Valid() && |Offsets()| == |Methods()| && |out| == size
      ensures Finished(linker, LayoutOf(linker, |tables|, Methods(), trampolines), Methods(), classes != [],
                       LinkedTables())
      ensures LinkedTables().Covers(|Methods()|)
      ensures out == FileBytes(linker, tables, Methods(), trampolines, classes != [], LinkedTables())
      ensures forall q :: 0 <= q < |Methods()| ==>
                ReadsBack(linker, methodOffsetMap, out, Methods()[q].compiled, Offsets()[q])
    {
      hide Flat, Concat, PlanAt, PlanEnd, LayoutOf, Linker.Align, CodeHeader, TablesHeader, ReadsBack, FileBytes,
           Shaped;
      var planned := InitLayout(|tables|, trampolines);
      size := WriteFile(tables, trampolines);
      forall q | 0 <= q < |Methods()|
        ensures ReadsBack(linker, methodOffsetMap, out, Methods()[q].compiled, Offsets()[q])
      {
        FileReadsBack(linker, tables, Methods(), trampolines, classes != [], LinkedTables(), q);
      }
    }
  }

  /** The first `k` headers have their table offset, the others are as before. */
  ghost predicate TablesPlanned(l: Linker, kind: TableKind, start: nat, vs: seq<Visited>, k: nat,
                                before: seq<MethodHeader>, now: seq<MethodHeader>) {
    && |now| == |before| == |vs|
    && (forall q :: 0 <= q < |vs| ==>
          now[q] == if q < k then TableHeader(l, kind, start, vs, q, before[q]) else before[q])
  }

  ghost predicate MapLoop(l: Linker, kind: TableKind, start: nat, vs: seq<Visited>, k: nat, offset: nat,
                          dedupe: Entries<nat, nat>, before: seq<MethodHeader>, now: seq<MethodHeader>) {
    && k <= |vs|
    && offset == MapPlanAt(l, kind, start, vs, k).offset
    && Models(AddressLess, Address, dedupe, MapPlanAt(l, kind, start, vs, k).dedupe)
    && TablesPlanned(l, kind, start, vs, k, before, now)
  }

  /** The tables the code-planning pass fills, as flat lists. */
  datatype CodeTables = CodeTables(
    headers: seq<MethodHeader>, offsets: seq<nat>, patches: seq<int>, info: seq<DebugInfo>)

  /** The first `k` methods have been planned into `t`. */
  ghost predicate CodePlanned(l: Linker, exec: nat, start: nat, vs: seq<Visited>, k: nat, before: seq<MethodHeader>,
                              t: CodeTables) {
    && k <= |vs| == |before| == |t.headers| == |t.offsets|
    && (forall q :: 0 <= q < |vs| ==>
          t.headers[q] ==
          if q < k then CodeHeader(l, PlanAt(l, start, vs, q), vs[q].compiled, before[q]) else before[q])
    && (forall q :: 0 <= q < k ==> t.offsets[q] == OffsetOf(l, start, vs, q))
    && t.patches == AbsolutePatches(l, exec, start, vs, k)
    && t.info == if l.generateDebugInfo then DebugInfos(l, exec, start, vs, k) else []
  }

  lemma VisitTargets(l: Linker, p: Plan, v: Visited)
    ensures Visit(l, p, v).targets ==
            if v.ref in p.targets then p.targets else p.targets[v.ref := CodeOffset(l, p, v.compiled)]
  {
    hide CodeOffset, CodeStart, ReserveThunks, IsDuplicate;
  }

  lemma ReserveThunksIs(l: Linker, p: Plan)
    ensures ReserveThunks(l, p) == if l.needsThunk(p.placed) then p.thunks + [l.Align(p.offset)] else p.thunks
  {
    hide Linker.Align;
  }

  lemma CodePlannedStep(l: Linker, exec: nat, start: nat, vs: seq<Visited>, k: nat, before: seq<MethodHeader>,
                        t: CodeTables, u: CodeTables)
    requires CodePlanned(l, exec, start, vs, k, before, t) && k < |vs|
    requires var p, m := PlanAt(l, start, vs, k), vs[k].compiled;
             && u.headers == t.headers[k := CodeHeader(l, p, m, t.headers[k])]
             && u.offsets == t.offsets[k := CodeOffset(l, p, m)]
             && u.patches == (if IsDuplicate(l, p, m) then t.patches
                              else t.patches + PatchLocations(CodeStart(l, p) - exec, m.patches))
             && u.info == if l.generateDebugInfo then t.info + [DebugInfoOf(l, exec, p, vs[k])] else t.info
    ensures CodePlanned(l, exec, start, vs, k + 1, before, u)
  {
    hide PlanAt, CodeHeader, CodeOffset, IsDuplicate, CodeStart, PatchLocations, DebugInfoOf;
  }

  /** Below 4 GiB at the end means below 4 GiB at every newly placed method. */
  lemma FitsEverywhere(l: Linker, start: nat, vs: seq<Visited>, anyClass: bool, k: nat)
    requires k < |vs| && l.AllCompilable(vs)
    requires PlanEnd(l, start, vs, anyClass).offset < WORD
    ensures var p := PlanAt(l, start, vs, k);
            CodeStart(l, p) + l.isa.CodeDelta() < WORD || IsDuplicate(l, p, vs[k].compiled)
  {
    hide CodeStart, Linker.Align, ReserveThunks;
    PlanGrows(l, start, vs, k + 1, |vs|);
  }

  lemma PlanEndAfterStart(l: Linker, start: nat, vs: seq<Visited>, anyClass: bool)
    ensures PlanEnd(l, start, vs, anyClass).offset >= start
  {
    hide PlanAt, Linker.Align;
    PlanStartsAtStart(l, start, vs, |vs|);
  }

  lemma TablesHeadersDone(l: Linker, lay: Layout, vs: seq<Visited>, h0: seq<MethodHeader>, h1: seq<MethodHeader>,
                          h2: seq<MethodHeader>, h3: seq<MethodHeader>)
    requires forall q :: 0 <= q < |h0| ==> h0[q] == EMPTY_HEADER
    requires TablesPlanned(l, GcMap, lay.gcMaps, vs, |vs|, h0, h1)
    requires TablesPlanned(l, MappingTable, lay.mappingTables, vs, |vs|, h1, h2)
    requires TablesPlanned(l, VmapTable, lay.vmapTables, vs, |vs|, h2, h3)
    ensures forall q :: 0 <= q < |vs| ==> h3[q] == TablesHeader(l, lay, vs, q)
  {
    hide TableHeader;
  }

  lemma CodePlannedIsFinished(l: Linker, lay: Layout, vs: seq<Visited>, anyClass: bool, h: seq<MethodHeader>,
                              t: CodeTables, k: Linked)
    requires CodePlanned(l, lay.exec, lay.code, vs, |vs|, h, t)
    requires forall q :: 0 <= q < |vs| ==> h[q] == TablesHeader(l, lay, vs, q)
    requires k.headers == t.headers && k.offsets == t.offsets
    requires k.thunks == PlanEnd(l, lay.code, vs, anyClass).thunks &&
             k.targets == PlanEnd(l, lay.code, vs, anyClass).targets
    ensures Finished(l, lay, vs, anyClass, k)
  {
    hide PlanAt, CodeHeader, TablesHeader, CodeOffset, AbsolutePatches, DebugInfos, PlanEnd;
  }

  lemma LayoutChains(l: Linker, tablesEnd: nat, vs: seq<Visited>, ts: seq<seq<uint8>>)
    ensures var lay := LayoutOf(l, tablesEnd, vs, ts);
            && lay.gcMaps == tablesEnd && lay.mappingTables == MapEnd(l, GcMap, lay.gcMaps, vs)
            && lay.vmapTables == MapEnd(l, MappingTable, lay.mappingTables, vs)
            && lay.mapsEnd == MapEnd(l, VmapTable, lay.vmapTables, vs)
            && lay.code == TrampolinesEnd(l, lay.exec, ts)
  {
  }

  lemma FinishedCovers(l: Linker, lay: Layout, vs: seq<Visited>, anyClass: bool, k: Linked)
    requires Finished(l, lay, vs, anyClass, k)
    ensures Records(l, k, lay.code, vs, anyClass) && k.Covers(|vs|)
  {
  }

  /** A table-writing pass ends where its planning pass did. */
  lemma MapCursor(l: Linker, kind: TableKind, start: nat, vs: seq<Visited>, tablesEnd: nat, k: Linked, lay: Layout,
                  ts: seq<seq<uint8>>, anyClass: bool)
    requires l.AllCompilable(vs) && tablesEnd > 0 && lay == LayoutOf(l, tablesEnd, vs, ts) && start == lay.Start(kind)
    requires Finished(l, lay, vs, anyClass, k) && PlanEnd(l, lay.code, vs, anyClass).offset < WORD
    ensures WriteMapAt(l, kind, start, vs, ReadOffsets(kind, k.headers, k.offsets), |vs|).offset ==
              MapEnd(l, kind, start, vs)
  {
    hide PlanAt, PlanEnd, LayoutOf, CodeHeader, TablesHeader, Linker.AllCompilable, WriteMapAt, MapPlanAt;
    OffsetsArePlanned(l, tablesEnd, vs, ts, anyClass, k, kind);
    MapsInStep(l, kind, start, vs, ReadOffsets(kind, k.headers, k.offsets), |vs|);
  }

  /**
   * From a class record to code: what the runtime reads for method `j` of class `i` out of the
   * written record is the offset planned for that method's place in the whole visiting order.
   */
  lemma ClassRecordFindsCode(classes: seq<seq<Option<Visited>>>, codeOffsets: seq<seq<nat>>, i: nat, j: nat,
                             status: nat, bitmap: seq<bool>, entries: seq<uint32>)
    requires Shaped(classes, codeOffsets) && i < |classes| && j < |classes[i]|
    requires status < 0x1_0000 && |classes[i]| < WORD && entries == codeOffsets[i]
    requires OatClasses.TypeOf(classes[i]).SomeCompiled? ==>
               |bitmap| % 8 == 0 && |bitmap| / 8 < WORD && OatClasses.MarksCompiled(bitmap, classes[i], |classes[i]|)
    ensures var record := OatClasses.RecordBytes(classes[i], status, bitmap, entries);
            && OatClasses.Readable(record, j)
            && (classes[i][j].Some? ==> |Seen(classes, i, j)| < |Concat(codeOffsets)|)
            && OatClasses.ReadMethodOffset(record, j) ==
               if classes[i][j].None? then None else Some(Concat(codeOffsets)[|Seen(classes, i, j)|])
  {
    hide Compact, Flat, Concat, OatClasses.RecordBytes, OatClasses.Readable, OatClasses.ReadMethodOffset,
         OatClasses.TypeOf, Seen;
    var methods := classes[i];
    assert methods[..|methods|] == methods;
    OatClasses.RecordReadsBack(methods, status, bitmap, entries, j);
    if methods[j].Some? {
      SlotOfSeen(classes, codeOffsets, i, j);
    }
  }
}
