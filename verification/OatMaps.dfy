/**
 * The three table passes of the oat writer: GC maps, mapping tables, vmap tables. Each non-empty
 * table is stored once; a method header keeps the distance from the code back to each table.
 */
module OatMaps {
  import opened Arith
  import opened Words
  import opened CompiledMethods
  import opened OatTypes

  datatype TableKind = GcMap | MappingTable | VmapTable

  function Table(kind: TableKind, m: CompiledMethod): nat {
    match kind
    case GcMap => m.gcMap
    case MappingTable => m.mappingTable
    case VmapTable => m.vmapTable
  }

  function TableBytes(l: Linker, kind: TableKind, m: CompiledMethod): seq<uint8> {
    Bytes(l.vectors, Table(kind, m))
  }

  // ---------------------------------------------------------------- header fields

  function Field(kind: TableKind, h: MethodHeader): uint32 {
    match kind
    case GcMap => h.gcMapOffset
    case MappingTable => h.mappingTableOffset
    case VmapTable => h.vmapTableOffset
  }

  function WithField(kind: TableKind, h: MethodHeader, x: uint32): MethodHeader {
    match kind
    case GcMap => h.(gcMapOffset := x)
    case MappingTable => h.(mappingTableOffset := x)
    case VmapTable => h.(vmapTableOffset := x)
  }

  /** `code_offset & ~1`. */
  function ClearModeBit(codeOffset: nat): nat {
    codeOffset - codeOffset % 2
  }

  function GetOffset(kind: TableKind, h: MethodHeader, codeOffset: nat): uint32 {
    if Field(kind, h) == 0 then 0 else U32(ClearModeBit(codeOffset) - Field(kind, h))
  }

  function SetOffset(kind: TableKind, h: MethodHeader, codeOffset: nat, offset: nat): MethodHeader {
    WithField(kind, h, U32(ClearModeBit(codeOffset) - offset))
  }

  /** The code pass turns "0 - offset" into "code - offset", leaving absent tables at 0. */
  function Rebase(field: uint32, code: int): uint32 {
    if field == 0 then 0 else U32(field + code)
  }

  /**
   * Setting a table offset before the code offset is known and reading it back is the identity,
   * in wrapping 32-bit arithmetic.
   */
  lemma OffsetBeforeCode(kind: TableKind, h: MethodHeader, offset: nat)
    requires offset < WORD
    ensures GetOffset(kind, SetOffset(kind, h, 0, offset), 0) == offset
  {
  }

  /**
   * It stays the identity once the code pass has rebased the field, and the rebased field is
   * then a plain distance, strictly between 0 and the code offset.
   */
  lemma OffsetAfterCode(kind: TableKind, h: MethodHeader, rebased: MethodHeader, offset: nat, code: nat, delta: nat)
    requires 0 < offset < code && code % 2 == 0 && delta <= 1 && code + delta < WORD
    requires Field(kind, rebased) == Rebase(Field(kind, SetOffset(kind, h, 0, offset)), code)
    ensures Field(kind, rebased) == code - offset && 0 < Field(kind, rebased) < code
    ensures GetOffset(kind, rebased, code + delta) == offset
  {
    assert Field(kind, SetOffset(kind, h, 0, offset)) == U32(0 - offset) == WORD - offset;
    assert ClearModeBit(code + delta) == code;
  }

  // ---------------------------------------------------------------- planning

  datatype MapPlan = MapPlan(offset: nat, dedupe: map<nat, nat>)

  function MapOffset(l: Linker, kind: TableKind, p: MapPlan, m: CompiledMethod): nat {
    if TableBytes(l, kind, m) == [] then 0
    else if Table(kind, m) in p.dedupe then p.dedupe[Table(kind, m)]
    else p.offset
  }

  predicate IsNew(l: Linker, kind: TableKind, p: MapPlan, m: CompiledMethod) {
    TableBytes(l, kind, m) != [] && Table(kind, m) !in p.dedupe
  }

  function VisitMap(l: Linker, kind: TableKind, p: MapPlan, m: CompiledMethod): MapPlan {
    if IsNew(l, kind, p, m)
    then MapPlan(p.offset + |TableBytes(l, kind, m)|, p.dedupe[Table(kind, m) := p.offset])
    else p
  }

  function MapPlanAt(l: Linker, kind: TableKind, start: nat, vs: seq<Visited>, k: nat): MapPlan
    requires k <= |vs|
  {
    if k == 0 then MapPlan(start, map[])
    else VisitMap(l, kind, MapPlanAt(l, kind, start, vs, k - 1), vs[k - 1].compiled)
  }

  function MapEnd(l: Linker, kind: TableKind, start: nat, vs: seq<Visited>): nat {
    MapPlanAt(l, kind, start, vs, |vs|).offset
  }

  function TableOffset(l: Linker, kind: TableKind, start: nat, vs: seq<Visited>, k: nat): nat
    requires k < |vs|
  {
    MapOffset(l, kind, MapPlanAt(l, kind, start, vs, k), vs[k].compiled)
  }

  /** The header of method `k` once the pass has set its table offset. */
  function TableHeader(l: Linker, kind: TableKind, start: nat, vs: seq<Visited>, k: nat, h: MethodHeader): MethodHeader
    requires k < |vs|
  {
    if TableBytes(l, kind, vs[k].compiled) == [] then h
    else SetOffset(kind, h, 0, TableOffset(l, kind, start, vs, k))
  }

  // ---------------------------------------------------------------- writing

  datatype MapWriter = MapWriter(offset: nat, out: seq<uint8>)

  function WriteMap(l: Linker, kind: TableKind, w: MapWriter, mapOffset: nat, m: CompiledMethod): MapWriter {
    var bytes := TableBytes(l, kind, m);
    if bytes != [] && mapOffset == w.offset then MapWriter(w.offset + |bytes|, w.out + bytes) else w
  }

  /** `offsets` are what the write visitor reads out of the headers. */
  function WriteMapAt(l: Linker, kind: TableKind, start: nat, vs: seq<Visited>, offsets: seq<nat>, k: nat): MapWriter
    requires k <= |vs| == |offsets|
  {
    if k == 0 then MapWriter(start, [])
    else WriteMap(l, kind, WriteMapAt(l, kind, start, vs, offsets, k - 1), offsets[k - 1], vs[k - 1].compiled)
  }

  function WrittenMaps(l: Linker, kind: TableKind, start: nat, vs: seq<Visited>, offsets: seq<nat>): seq<uint8>
    requires |vs| == |offsets|
  {
    WriteMapAt(l, kind, start, vs, offsets, |vs|).out
  }

  /** What the table-writing visitor reads back out of the finished headers. */
  function ReadOffsets(kind: TableKind, headers: seq<MethodHeader>, codeOffsets: seq<nat>): (r: seq<nat>)
    requires |headers| == |codeOffsets|
    ensures |r| == |headers|
    ensures forall q :: 0 <= q < |r| ==> r[q] == GetOffset(kind, headers[q], codeOffsets[q])
  {
    seq(|headers|, q requires 0 <= q < |headers| => GetOffset(kind, headers[q], codeOffsets[q]))
  }

  ghost predicate PlannedOffsets(l: Linker, kind: TableKind, start: nat, vs: seq<Visited>, offsets: seq<nat>) {
    |offsets| == |vs| && forall i :: 0 <= i < |vs| ==> offsets[i] == TableOffset(l, kind, start, vs, i)
  }

  // ---------------------------------------------------------------- agreement

  /** `bytes` are in `out` (whose first byte has offset `start`) at `offset`. */
  ghost predicate Holds(out: seq<uint8>, start: nat, offset: nat, bytes: seq<uint8>) {
    && start <= offset && offset + |bytes| <= start + |out|
    && out[offset - start..offset - start + |bytes|] == bytes
  }

  lemma HoldsInMore(out: seq<uint8>, more: seq<uint8>, start: nat, offset: nat, bytes: seq<uint8>)
    requires Holds(out, start, offset, bytes) && out <= more
    ensures Holds(more, start, offset, bytes)
  {
    var a, b := offset - start, offset - start + |bytes|;
    assert more[a..b] == out[a..b];
  }

  /** Every table placed so far is in the output with its own contents. */
  ghost predicate TablesIn(l: Linker, start: nat, dedupe: map<nat, nat>, out: seq<uint8>) {
    forall t :: t in dedupe ==> Bytes(l.vectors, t) != [] && Holds(out, start, dedupe[t], Bytes(l.vectors, t))
  }

  lemma TableAppended(l: Linker, start: nat, dedupe: map<nat, nat>, out: seq<uint8>, t: nat)
    requires TablesIn(l, start, dedupe, out) && Bytes(l.vectors, t) != []
    ensures TablesIn(l, start, dedupe[t := start + |out|], out + Bytes(l.vectors, t))
  {
    var bytes := Bytes(l.vectors, t);
    var more := out + bytes;
    assert more[|out|..|out| + |bytes|] == bytes;
    forall u | u in dedupe ensures Holds(more, start, dedupe[u], Bytes(l.vectors, u)) {
      HoldsInMore(out, more, start, dedupe[u], Bytes(l.vectors, u));
    }
  }

  ghost predicate MapsAgree(l: Linker, start: nat, p: MapPlan, w: MapWriter) {
    w.offset == p.offset == start + |w.out| && TablesIn(l, start, p.dedupe, w.out)
  }

  lemma MapStepAgrees(l: Linker, kind: TableKind, start: nat, p: MapPlan, w: MapWriter, m: CompiledMethod)
    requires MapsAgree(l, start, p, w)
    ensures TableBytes(l, kind, m) != [] ==>
              (MapOffset(l, kind, p, m) == w.offset <==> IsNew(l, kind, p, m))
    ensures MapsAgree(l, start, VisitMap(l, kind, p, m), WriteMap(l, kind, w, MapOffset(l, kind, p, m), m))
  {
    if IsNew(l, kind, p, m) {
      TableAppended(l, start, p.dedupe, w.out, Table(kind, m));
    }
  }

  lemma {:induction false} MapsInStep(l: Linker, kind: TableKind, start: nat, vs: seq<Visited>, offsets: seq<nat>,
                                      k: nat)
    requires k <= |vs| && PlannedOffsets(l, kind, start, vs, offsets)
    ensures MapsAgree(l, start, MapPlanAt(l, kind, start, vs, k), WriteMapAt(l, kind, start, vs, offsets, k))
  {
    if k > 0 {
      MapsInStep(l, kind, start, vs, offsets, k - 1);
      MapStepAgrees(l, kind, start, MapPlanAt(l, kind, start, vs, k - 1),
                    WriteMapAt(l, kind, start, vs, offsets, k - 1), vs[k - 1].compiled);
    }
  }

  lemma {:induction false} MapPlanGrows(l: Linker, kind: TableKind, start: nat, vs: seq<Visited>, i: nat, j: nat)
    requires i <= j <= |vs|
    ensures MapPlanAt(l, kind, start, vs, i).offset <= MapPlanAt(l, kind, start, vs, j).offset
    ensures forall t :: t in MapPlanAt(l, kind, start, vs, i).dedupe ==>
              t in MapPlanAt(l, kind, start, vs, j).dedupe &&
              MapPlanAt(l, kind, start, vs, j).dedupe[t] == MapPlanAt(l, kind, start, vs, i).dedupe[t]
    decreases j
  {
    if i < j {
      MapPlanGrows(l, kind, start, vs, i, j - 1);
    }
  }

  lemma {:induction false} MapDedupeBelow(l: Linker, kind: TableKind, start: nat, vs: seq<Visited>, k: nat)
    requires k <= |vs|
    ensures var p := MapPlanAt(l, kind, start, vs, k);
            forall t :: t in p.dedupe ==> start <= p.dedupe[t] < p.offset
    ensures start <= MapPlanAt(l, kind, start, vs, k).offset
  {
    if k > 0 {
      MapDedupeBelow(l, kind, start, vs, k - 1);
    }
  }

  /** The offset every method was given for its table is the one the finished plan knows. */
  lemma TableOffsetIsFinal(l: Linker, kind: TableKind, start: nat, vs: seq<Visited>, i: nat)
    requires i < |vs| && TableBytes(l, kind, vs[i].compiled) != []
    ensures var d := MapPlanAt(l, kind, start, vs, |vs|).dedupe;
            Table(kind, vs[i].compiled) in d && d[Table(kind, vs[i].compiled)] == TableOffset(l, kind, start, vs, i)
  {
    MapPlanGrows(l, kind, start, vs, i + 1, |vs|);
  }

  /**
   * The test "offset in the header equals the cursor" writes each distinct non-empty table exactly
   * once; the pass ends where planning ended, and every method's table is found at its offset.
   */
  lemma MapPassAgreement(l: Linker, kind: TableKind, start: nat, vs: seq<Visited>, offsets: seq<nat>)
    requires PlannedOffsets(l, kind, start, vs, offsets)
    ensures start + |WrittenMaps(l, kind, start, vs, offsets)| == MapEnd(l, kind, start, vs)
    ensures forall i :: 0 <= i < |vs| ==> WrittenAtFirstUse(l, kind, start, vs, offsets, i)
    ensures forall i :: 0 <= i < |vs| ==>
              TableIsAt(l, kind, start, WrittenMaps(l, kind, start, vs, offsets), vs[i].compiled, offsets[i])
  {
    MapsInStep(l, kind, start, vs, offsets, |vs|);
    forall i | 0 <= i < |vs|
      ensures WrittenAtFirstUse(l, kind, start, vs, offsets, i)
      ensures TableIsAt(l, kind, start, WrittenMaps(l, kind, start, vs, offsets), vs[i].compiled, offsets[i])
    {
      FirstUseAgrees(l, kind, start, vs, offsets, i);
      if TableBytes(l, kind, vs[i].compiled) != [] {
        TableOffsetIsFinal(l, kind, start, vs, i);
      }
    }
  }

  /** Method `i` makes the write pass emit its table exactly when it is the first to have it. */
  ghost predicate WrittenAtFirstUse(l: Linker, kind: TableKind, start: nat, vs: seq<Visited>, offsets: seq<nat>, i: nat)
    requires i < |vs| == |offsets|
  {
    TableBytes(l, kind, vs[i].compiled) != [] ==>
      (offsets[i] == WriteMapAt(l, kind, start, vs, offsets, i).offset <==> FirstUse(kind, vs, i))
  }

  lemma FirstUseAgrees(l: Linker, kind: TableKind, start: nat, vs: seq<Visited>, offsets: seq<nat>, i: nat)
    requires i < |vs| && PlannedOffsets(l, kind, start, vs, offsets)
    ensures WrittenAtFirstUse(l, kind, start, vs, offsets, i)
  {
    if TableBytes(l, kind, vs[i].compiled) != [] {
      MapsInStep(l, kind, start, vs, offsets, i);
      MapStepAgrees(l, kind, start, MapPlanAt(l, kind, start, vs, i),
                    WriteMapAt(l, kind, start, vs, offsets, i), vs[i].compiled);
      DedupeIsFirstUse(l, kind, start, vs, i, i);
    }
  }

  /** No earlier method has the same table. */
  ghost predicate FirstUse(kind: TableKind, vs: seq<Visited>, i: nat)
    requires i < |vs|
  {
    forall j :: 0 <= j < i ==> Table(kind, vs[j].compiled) != Table(kind, vs[i].compiled)
  }

  lemma {:induction false} DedupeIsFirstUse(l: Linker, kind: TableKind, start: nat, vs: seq<Visited>, k: nat, i: nat)
    requires k <= i < |vs| && TableBytes(l, kind, vs[i].compiled) != []
    ensures Table(kind, vs[i].compiled) in MapPlanAt(l, kind, start, vs, k).dedupe
            <==> exists j :: 0 <= j < k && Table(kind, vs[j].compiled) == Table(kind, vs[i].compiled)
    decreases k
  {
    if k > 0 {
      DedupeIsFirstUse(l, kind, start, vs, k - 1, i);
    }
  }

  /** The table of `m`, if it has one, is in `out` (whose first byte has offset `start`) at `offset`. */
  ghost predicate TableIsAt(l: Linker, kind: TableKind, start: nat, out: seq<uint8>, m: CompiledMethod, offset: nat) {
    var bytes := TableBytes(l, kind, m);
    if bytes == [] then offset == 0 else Holds(out, start, offset, bytes)
  }
}
