/** Compiled methods as the back end sees them, and the order that decides what is a duplicate. */
module CompiledMethods {
  import SafeMap
  import opened Words

  /** In declaration order, which is the order the comparison operators use. */
  datatype PatchType = Method | Call | CallRelative | TypePatch | DexCacheArray {
    function Ordinal(): nat {
      match this
      case Method => 0
      case Call => 1
      case CallRelative => 2
      case TypePatch => 3
      case DexCacheArray => 4
    }
  }

  /** `cmp1` and `cmp2` are the raw words of the two unions; pointers are natural numbers. */
  datatype LinkerPatch = LinkerPatch(
    literalOffset: nat, patchType: PatchType, targetDexFile: nat, cmp1: nat, cmp2: nat) {

    predicate IsPcRelative() {
      patchType.CallRelative? || patchType.DexCacheArray?
    }
  }

  predicate PatchLess(l: LinkerPatch, r: LinkerPatch) {
    if l.literalOffset != r.literalOffset then l.literalOffset < r.literalOffset
    else if l.patchType != r.patchType then l.patchType.Ordinal() < r.patchType.Ordinal()
    else if l.targetDexFile != r.targetDexFile then l.targetDexFile < r.targetDexFile
    else if l.cmp1 != r.cmp1 then l.cmp1 < r.cmp1
    else l.cmp2 < r.cmp2
  }

  /** Patches are totally ordered, and only a patch equal in every field is neither before nor after. */
  lemma PatchLessIsTotalOrder(a: LinkerPatch, b: LinkerPatch, c: LinkerPatch)
    ensures !(PatchLess(a, b) && PatchLess(b, a))
    ensures a == b <==> !PatchLess(a, b) && !PatchLess(b, a)
    ensures PatchLess(a, b) && PatchLess(b, c) ==> PatchLess(a, c)
  {
  }

  /**
   * Null pointers are 0. Tables and code are shared vectors, so they are compared by address. `cfi`
   * is the call frame information, if there is any.
   */
  datatype CompiledMethod = CompiledMethod(
    quickCode: nat, mappingTable: nat, vmapTable: nat, gcMap: nat, patches: seq<LinkerPatch>,
    frameSize: uint32, coreSpillMask: uint32, fpSpillMask: uint32,
    cfi: SafeMap.Option<seq<uint8>>)

  /** What two methods must agree on to share one copy of their code. */
  datatype CodeKey = CodeKey(code: nat, mapping: nat, vmap: nat, gc: nat, patches: seq<LinkerPatch>)

  function KeyOf(m: CompiledMethod): CodeKey {
    CodeKey(m.quickCode, m.mappingTable, m.vmapTable, m.gcMap, m.patches)
  }

  /** The loop over two patch lists of one length: the first difference decides. */
  predicate PatchesLess(l: seq<LinkerPatch>, r: seq<LinkerPatch>)
    requires |l| == |r|
  {
    if l == [] then false
    else if l[0] != r[0] then PatchLess(l[0], r[0])
    else PatchesLess(l[1..], r[1..])
  }

  predicate CodeLess(l: CompiledMethod, r: CompiledMethod) {
    if l.quickCode != r.quickCode then l.quickCode < r.quickCode
    else if l.mappingTable != r.mappingTable then l.mappingTable < r.mappingTable
    else if l.vmapTable != r.vmapTable then l.vmapTable < r.vmapTable
    else if l.gcMap != r.gcMap then l.gcMap < r.gcMap
    else if |l.patches| != |r.patches| then |l.patches| < |r.patches|
    else PatchesLess(l.patches, r.patches)
  }

  lemma {:induction false} PatchesLessTrichotomy(a: seq<LinkerPatch>, b: seq<LinkerPatch>)
    requires |a| == |b|
    ensures !(PatchesLess(a, b) && PatchesLess(b, a))
    ensures a == b <==> !PatchesLess(a, b) && !PatchesLess(b, a)
  {
    if a != [] {
      assert a == [a[0]] + a[1..] && b == [b[0]] + b[1..];
      PatchLessIsTotalOrder(a[0], b[0], a[0]);
      PatchesLessTrichotomy(a[1..], b[1..]);
    }
  }

  lemma {:induction false} PatchesLessTransitive(a: seq<LinkerPatch>, b: seq<LinkerPatch>, c: seq<LinkerPatch>)
    requires |a| == |b| == |c| && PatchesLess(a, b) && PatchesLess(b, c)
    ensures PatchesLess(a, c)
  {
    PatchLessIsTotalOrder(a[0], b[0], c[0]);
    PatchLessIsTotalOrder(a[0], c[0], a[0]);
    if a[0] == b[0] == c[0] {
      PatchesLessTransitive(a[1..], b[1..], c[1..]);
    }
  }

  /**
   * The deduplication comparator is a strict weak order on methods with patch lists of any
   * length, and it identifies exactly the methods with the same code, tables and patches.
   */
  lemma CodeLessOrdersByKey()
    ensures SafeMap.OrderedBy(CodeLess, KeyOf)
  {
    forall a, b
      ensures !(CodeLess(a, b) && CodeLess(b, a))
      ensures KeyOf(a) == KeyOf(b) <==> !CodeLess(a, b) && !CodeLess(b, a)
    {
      if |a.patches| == |b.patches| {
        PatchesLessTrichotomy(a.patches, b.patches);
      }
    }
    forall a, b, c | CodeLess(a, b) && CodeLess(b, c) ensures CodeLess(a, c) {
      if |a.patches| == |b.patches| == |c.patches| {
        if PatchesLess(a.patches, b.patches) && PatchesLess(b.patches, c.patches) {
          PatchesLessTransitive(a.patches, b.patches, c.patches);
        }
      }
    }
  }

  predicate AddressLess(a: nat, b: nat) { a < b }

  function Address(a: nat): nat { a }

  lemma AddressLessOrders()
    ensures SafeMap.OrderedBy(AddressLess, Address)
  {
  }
}
