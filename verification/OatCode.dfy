/**
 * The code pass of the oat writer, twice: once planning offsets, once replaying the walk to
 * write bytes. The replay never learns which methods were duplicates; it compares each stored
 * offset with its own cursor.
 */
module OatCode {
  import opened Arith
  import opened Words
  import opened CompiledMethods
  import opened OatTypes
  import opened OatMaps

  // ---------------------------------------------------------------- planning

  /** State of the planning pass between two methods. */
  datatype Plan = Plan(
    offset: nat,
    dedupe: map<CodeKey, nat>,
    thunks: seq<nat>,
    placed: nat,
    targets: map<MethodRef, nat>)

  function Start(offset: nat): Plan {
    Plan(offset, map[], [], 0, map[])
  }

  predicate IsDuplicate(l: Linker, p: Plan, m: CompiledMethod) {
    !l.debuggable && KeyOf(m) in p.dedupe
  }

  /** The cursor after the patcher reserved room for a thunk, if one is due. */
  function Reserve(l: Linker, p: Plan): (r: nat)
    ensures r >= p.offset
  {
    if l.needsThunk(p.placed) then l.Align(l.Align(p.offset) + |l.thunk|) else p.offset
  }

  function ReserveThunks(l: Linker, p: Plan): seq<nat> {
    if l.needsThunk(p.placed) then p.thunks + [l.Align(p.offset)] else p.thunks
  }

  /** First byte of the code of a newly placed method. */
  function CodeStart(l: Linker, p: Plan): (c: nat)
    ensures c >= p.offset + METHOD_HEADER_SIZE
  {
    l.Align(Reserve(l, p)) + METHOD_HEADER_SIZE
  }

  lemma CodeStartIsEven(l: Linker, p: Plan)
    ensures CodeStart(l, p) % 2 == 0
  {
    hide *;
    CodeStartIs(l, p);
    EvenAfterHeader(l.Align(Reserve(l, p)));
  }

  lemma CodeStartIs(l: Linker, p: Plan)
    ensures CodeStart(l, p) == l.Align(Reserve(l, p)) + METHOD_HEADER_SIZE && METHOD_HEADER_SIZE == 28
  {
    hide Linker.Align, Reserve;
  }

  lemma EvenAfterHeader(a: nat)
    requires a % 8 == 0
    ensures (a + 28) % 2 == 0
  {
    var q := a / 8;
    assert a + 28 == (4 * q + 14) * 2;
    DivModUnique(a + 28, 2, 4 * q + 14, 0);
  }

  function CodeOffset(l: Linker, p: Plan, m: CompiledMethod): nat {
    if IsDuplicate(l, p, m) then p.dedupe[KeyOf(m)] else CodeStart(l, p) + l.isa.CodeDelta()
  }

  function Visit(l: Linker, p: Plan, v: Visited): Plan {
    var codeOffset := CodeOffset(l, p, v.compiled);
    var targets := if v.ref in p.targets then p.targets else p.targets[v.ref := codeOffset];
    if IsDuplicate(l, p, v.compiled) then p.(targets := targets)
    else Plan(
      CodeStart(l, p) + |l.Code(v.compiled)|,
      if l.debuggable then p.dedupe else p.dedupe[KeyOf(v.compiled) := codeOffset],
      ReserveThunks(l, p), p.placed + 1, targets)
  }

  /** The plan after the first `k` visited methods. */
  function PlanAt(l: Linker, start: nat, vs: seq<Visited>, k: nat): Plan
    requires k <= |vs|
  {
    if k == 0 then Start(start) else Visit(l, PlanAt(l, start, vs, k - 1), vs[k - 1])
  }

  /** After the last class the patcher may reserve one more thunk. */
  function PlanEnd(l: Linker, start: nat, vs: seq<Visited>, anyClass: bool): Plan {
    var p := PlanAt(l, start, vs, |vs|);
    if anyClass then p.(offset := Reserve(l, p), thunks := ReserveThunks(l, p)) else p
  }

  function OffsetOf(l: Linker, start: nat, vs: seq<Visited>, k: nat): nat
    requires k < |vs|
  {
    CodeOffset(l, PlanAt(l, start, vs, k), vs[k].compiled)
  }

  predicate Duplicate(l: Linker, start: nat, vs: seq<Visited>, k: nat)
    requires k < |vs|
  {
    IsDuplicate(l, PlanAt(l, start, vs, k), vs[k].compiled)
  }

  // ---------------------------------------------------------------- by-products of planning

  /** Locations of the absolute patches of code whose first byte is at `base`. */
  function PatchLocations(base: int, patches: seq<LinkerPatch>): seq<int> {
    if patches == [] then []
    else
      var rest := PatchLocations(base, patches[..|patches| - 1]);
      var p := patches[|patches| - 1];
      if p.IsPcRelative() then rest else rest + [base + p.literalOffset]
  }

  lemma {:induction false} PlanStartsAtStart(l: Linker, start: nat, vs: seq<Visited>, k: nat)
    requires k <= |vs|
    ensures PlanAt(l, start, vs, k).offset >= start
  {
    hide Visit;
    if k > 0 {
      PlanStartsAtStart(l, start, vs, k - 1);
      VisitExtends(l, PlanAt(l, start, vs, k - 1), vs[k - 1]);
    }
  }

  /** Absolute patch locations collected so far, relative to the executable section. */
  function AbsolutePatches(l: Linker, exec: nat, start: nat, vs: seq<Visited>, k: nat): seq<int>
    requires k <= |vs|
  {
    if k == 0 then []
    else
      var p, rest := PlanAt(l, start, vs, k - 1), AbsolutePatches(l, exec, start, vs, k - 1);
      if IsDuplicate(l, p, vs[k - 1].compiled) then rest
      else rest + PatchLocations(CodeStart(l, p) - exec, vs[k - 1].compiled.patches)
  }

  /** The header of method `k` once its table fields are rebased and its code is described. */
  function CodeHeader(l: Linker, p: Plan, m: CompiledMethod, h: MethodHeader): MethodHeader {
    var code := CodeOffset(l, p, m) - l.isa.CodeDelta();
    MethodHeader(
      Rebase(h.mappingTableOffset, code), Rebase(h.vmapTableOffset, code), Rebase(h.gcMapOffset, code),
      m.frameSize, m.coreSpillMask, m.fpSpillMask, U32(|l.Code(m)|))
  }

  /** What the debug writers learn about a visited method; addresses are relative to `.text`. */
  datatype DebugInfo = DebugInfo(ref: MethodRef, deduped: bool, lowPc: int, highPc: int, compiled: CompiledMethod)

  function DebugInfoOf(l: Linker, exec: nat, p: Plan, v: Visited): DebugInfo {
    var low := CodeOffset(l, p, v.compiled) - exec - l.isa.CodeDelta();
    DebugInfo(v.ref, IsDuplicate(l, p, v.compiled), low, low + |l.Code(v.compiled)|, v.compiled)
  }

  function DebugInfos(l: Linker, exec: nat, start: nat, vs: seq<Visited>, k: nat): (r: seq<DebugInfo>)
    requires k <= |vs|
    ensures |r| == k
  {
    if k == 0 then []
    else DebugInfos(l, exec, start, vs, k - 1) + [DebugInfoOf(l, exec, PlanAt(l, start, vs, k - 1), vs[k - 1])]
  }

  // ---------------------------------------------------------------- writing

  /** What planning leaves for the writing pass, one entry per visited method. */
  datatype Linked = Linked(
    offsets: seq<nat>, headers: seq<MethodHeader>, thunks: seq<nat>, targets: map<MethodRef, nat>) {

    predicate Covers(n: nat) {
      |offsets| == n && |headers| == n
    }
  }

  datatype Writer = Writer(offset: nat, nextThunk: nat, out: seq<uint8>)

  /** The offset a call patch is pointed at. */
  function TargetOffset(l: Linker, targets: map<MethodRef, nat>, p: LinkerPatch): nat {
    var ref := MethodRef(p.targetDexFile, p.cmp1);
    if ref in targets && targets[ref] != 0 then targets[ref] else l.trampoline(ref)
  }

  /** The word a patch puts at its literal offset in code placed at `at`. */
  function PatchWord(l: Linker, targets: map<MethodRef, nat>, p: LinkerPatch, at: nat, insn: nat): (w: uint32)
  {
    match p.patchType
    case Call => U32(l.oatBase + TargetOffset(l, targets, p))
    case Method => U32(l.address(p))
    case TypePatch => U32(l.address(p))
    case CallRelative => U32(l.relative(p, at + p.literalOffset, TargetOffset(l, targets, p), insn))
    case DexCacheArray => U32(l.relative(p, at + p.literalOffset, l.address(p), insn))
  }

  function Patched(l: Linker, targets: map<MethodRef, nat>, code: seq<uint8>, patches: seq<LinkerPatch>, at: nat)
      : (r: seq<uint8>)
    requires forall p :: p in patches ==> p.literalOffset + 4 <= |code|
    ensures |r| == |code|
    decreases |patches|
  {
    if patches == [] then code
    else
      var p := patches[0];
      var word := Le32(PatchWord(l, targets, p, at, WordAt(code, p.literalOffset)));
      Patched(l, targets, Splice(code, p.literalOffset, word), patches[1..], at)
  }

  function PatchedCode(l: Linker, targets: map<MethodRef, nat>, m: CompiledMethod, at: nat): (r: seq<uint8>)
    requires l.Compilable(m)
    ensures |r| == |l.Code(m)|
  {
    Patched(l, targets, l.Code(m), m.patches, at)
  }

  function WriteThunks(l: Linker, thunks: seq<nat>, w: Writer): Writer {
    if w.nextThunk < |thunks| && l.Align(w.offset) == thunks[w.nextThunk] then
      var aligned := l.Align(w.offset);
      var end := l.Align(aligned + |l.thunk|);
      Writer(end, w.nextThunk + 1,
             w.out + Zeros(aligned - w.offset) + l.thunk + Zeros(end - (aligned + |l.thunk|)))
    else w
  }

  function WriteAligned(l: Linker, w: Writer): Writer {
    var aligned := l.Align(w.offset);
    Writer(aligned, w.nextThunk, w.out + Zeros(aligned - w.offset))
  }

  /** One method of the writing pass: the stored offset is all that decides. */
  function WriteMethod(l: Linker, k: Linked, w: Writer, i: nat, m: CompiledMethod): Writer
    requires i < |k.offsets| == |k.headers| && l.Compilable(m)
  {
    if k.offsets[i] >= w.offset then
      var a := WriteAligned(l, WriteThunks(l, k.thunks, w));
      var at := a.offset + METHOD_HEADER_SIZE;
      var code := PatchedCode(l, k.targets, m, at);
      Writer(at + |code|, a.nextThunk, a.out + k.headers[i].Encode() + code)
    else w
  }

  function WriteAt(l: Linker, k: Linked, start: nat, vs: seq<Visited>, n: nat): Writer
    requires n <= |vs| && k.Covers(|vs|) && l.AllCompilable(vs)
  {
    if n == 0 then Writer(start, 0, [])
    else WriteMethod(l, k, WriteAt(l, k, start, vs, n - 1), n - 1, vs[n - 1].compiled)
  }

  function WriteEnd(l: Linker, k: Linked, start: nat, vs: seq<Visited>, anyClass: bool): Writer
    requires k.Covers(|vs|) && l.AllCompilable(vs)
  {
    var w := WriteAt(l, k, start, vs, |vs|);
    if anyClass then WriteThunks(l, k.thunks, w) else w
  }

  /** The linked description carries exactly what the plan decided. */
  ghost predicate Records(l: Linker, k: Linked, start: nat, vs: seq<Visited>, anyClass: bool) {
    && k.Covers(|vs|)
    && k.thunks == PlanEnd(l, start, vs, anyClass).thunks
    && k.targets == PlanEnd(l, start, vs, anyClass).targets
    && (forall i :: 0 <= i < |vs| ==> k.offsets[i] == OffsetOf(l, start, vs, i))
  }

  // ---------------------------------------------------------------- the plan's own invariants

  /** Offsets, thunks, deduplication entries and call targets are only ever added to. */
  ghost predicate Extends(p: Plan, q: Plan) {
    && p.offset <= q.offset && p.thunks <= q.thunks
    && (forall ref :: ref in p.targets ==> ref in q.targets && q.targets[ref] == p.targets[ref])
    && (forall key :: key in p.dedupe ==> key in q.dedupe && q.dedupe[key] == p.dedupe[key])
  }

  lemma VisitExtends(l: Linker, p: Plan, v: Visited)
    ensures Extends(p, Visit(l, p, v))
    ensures !IsDuplicate(l, p, v.compiled) ==>
              && Visit(l, p, v).offset >= l.Align(p.offset) + METHOD_HEADER_SIZE + |l.Code(v.compiled)|
              && Visit(l, p, v).thunks == ReserveThunks(l, p)
  {
    hide Linker.Align;
    if !IsDuplicate(l, p, v.compiled) {
      AlignMonotone(l, p.offset, Reserve(l, p));
    }
  }

  lemma AlignMonotone(l: Linker, a: nat, b: nat)
    requires a <= b
    ensures l.Align(a) <= l.Align(b)
  {
    RoundUpMonotone(a, b, 8);
    RoundUpMonotone(a, b, 16);
  }

  lemma {:induction false} PlanGrows(l: Linker, start: nat, vs: seq<Visited>, i: nat, j: nat)
    requires i <= j <= |vs|
    ensures Extends(PlanAt(l, start, vs, i), PlanAt(l, start, vs, j))
    decreases j
  {
    hide Visit;
    if i < j {
      PlanGrows(l, start, vs, i, j - 1);
      VisitExtends(l, PlanAt(l, start, vs, j - 1), vs[j - 1]);
    }
  }

  /** `key` was placed by visited method `j`. */
  ghost predicate PlacedBy(l: Linker, start: nat, vs: seq<Visited>, key: CodeKey, offset: nat, j: nat) {
    && j < |vs| && KeyOf(vs[j].compiled) == key
    && !Duplicate(l, start, vs, j) && OffsetOf(l, start, vs, j) == offset
  }

  /** Every deduplication entry is the offset of an earlier method that was placed. */
  lemma {:induction false} DedupeHasOrigin(l: Linker, start: nat, vs: seq<Visited>, k: nat, key: CodeKey)
      returns (j: nat)
    requires k <= |vs| && key in PlanAt(l, start, vs, k).dedupe
    ensures j < k && PlacedBy(l, start, vs, key, PlanAt(l, start, vs, k).dedupe[key], j)
  {
    var p := PlanAt(l, start, vs, k - 1);
    if key in p.dedupe {
      j := DedupeHasOrigin(l, start, vs, k - 1, key);
    } else {
      j := k - 1;
    }
  }

  /** A placed method ends at or before every later cursor. */
  lemma PlacedBelowCursor(l: Linker, start: nat, vs: seq<Visited>, j: nat, k: nat)
    requires j < k <= |vs| && !Duplicate(l, start, vs, j)
    ensures OffsetOf(l, start, vs, j) - l.isa.CodeDelta() + |l.Code(vs[j].compiled)| <= PlanAt(l, start, vs, k).offset
  {
    hide CodeStart, Linker.Align, Reserve, ReserveThunks;
    PlanGrows(l, start, vs, j + 1, k);
  }

  /** Where a duplicate really is: at an earlier method with the same key, below the cursor. */
  lemma DuplicateBelowCursor(l: Linker, start: nat, vs: seq<Visited>, k: nat) returns (j: nat)
    requires k < |vs| && Duplicate(l, start, vs, k) && l.AllCompilable(vs)
    ensures j < k && PlacedBy(l, start, vs, KeyOf(vs[k].compiled), OffsetOf(l, start, vs, k), j)
    ensures OffsetOf(l, start, vs, k) < PlanAt(l, start, vs, k).offset
  {
    j := DedupeHasOrigin(l, start, vs, k, KeyOf(vs[k].compiled));
    PlacedBelowCursor(l, start, vs, j, k);
  }

  /** Thunks reserved after method `k` lie at or above the cursor's aligned position there. */
  lemma {:induction false} LaterThunks(l: Linker, start: nat, vs: seq<Visited>, k: nat, n: nat, t: nat)
    requires k <= n <= |vs|
    requires |PlanAt(l, start, vs, k).thunks| <= t < |PlanAt(l, start, vs, n).thunks|
    ensures PlanAt(l, start, vs, n).thunks[t] >= PlanAt(l, start, vs, k).offset
    decreases n
  {
    hide Visit;
    if k < n {
      var p := PlanAt(l, start, vs, n - 1);
      NextThunk(l, p, vs[n - 1]);
      if t < |p.thunks| {
        LaterThunks(l, start, vs, k, n - 1, t);
      } else {
        PlanGrows(l, start, vs, k, n - 1);
      }
    }
  }

  lemma NextThunk(l: Linker, p: Plan, v: Visited)
    ensures var n := Visit(l, p, v);
            n.thunks == p.thunks || n.thunks == p.thunks + [l.Align(p.offset)]
  {
    hide Linker.Align, CodeStart, IsDuplicate;
  }

  lemma LaterThunksEnd(l: Linker, start: nat, vs: seq<Visited>, anyClass: bool, k: nat, t: nat)
    requires k <= |vs|
    requires |PlanAt(l, start, vs, k).thunks| <= t < |PlanEnd(l, start, vs, anyClass).thunks|
    ensures PlanEnd(l, start, vs, anyClass).thunks[t] >= PlanAt(l, start, vs, k).offset
  {
    var p := PlanAt(l, start, vs, |vs|);
    if t < |p.thunks| {
      LaterThunks(l, start, vs, k, |vs|, t);
    } else {
      PlanGrows(l, start, vs, k, |vs|);
    }
  }

  // ---------------------------------------------------------------- the replay agrees with the plan

  /** Header and patched code of `m` are in `out` (whose first byte has offset `start`) at `offset`. */
  ghost predicate CodeIsAt(l: Linker, k: Linked, start: nat, out: seq<uint8>, header: MethodHeader, m: CompiledMethod,
                           offset: nat)
    requires l.Compilable(m)
  {
    var c := offset - l.isa.CodeDelta();
    && start + METHOD_HEADER_SIZE <= c && c + |l.Code(m)| <= start + |out|
    && out[c - METHOD_HEADER_SIZE - start..c - start] == header.Encode()
    && out[c - start..c - start + |l.Code(m)|] == PatchedCode(l, k.targets, m, c)
  }

  ghost predicate SameCursor(start: nat, p: Plan, w: Writer) {
    w.offset == p.offset && w.nextThunk == |p.thunks| && start + |w.out| == w.offset
  }

  /** At method `n` both passes stand at the same cursor with the same thunks behind them. */
  ghost predicate InStep(l: Linker, k: Linked, start: nat, vs: seq<Visited>, n: nat)
    requires n <= |vs| && k.Covers(|vs|) && l.AllCompilable(vs)
  {
    SameCursor(start, PlanAt(l, start, vs, n), WriteAt(l, k, start, vs, n))
  }

  /** `thunks` holds the thunk due at `p`, or none at the cursor if none is due. */
  ghost predicate ThunkHere(l: Linker, thunks: seq<nat>, p: Plan) {
    && ReserveThunks(l, p) <= thunks
    && (!l.needsThunk(p.placed) && |p.thunks| < |thunks| ==> thunks[|p.thunks|] > l.Align(p.offset))
  }

  /** The writer emits a thunk exactly when the plan reserved one at this cursor. */
  lemma ThunksAgree(l: Linker, thunks: seq<nat>, start: nat, p: Plan, w: Writer)
    requires SameCursor(start, p, w) && ThunkHere(l, thunks, p)
    ensures SameCursor(start, p.(offset := Reserve(l, p), thunks := ReserveThunks(l, p)), WriteThunks(l, thunks, w))
  {
    if l.needsThunk(p.placed) {
      assert thunks[|p.thunks|] == ReserveThunks(l, p)[|p.thunks|];
    }
  }

  lemma ThunkHereAt(l: Linker, start: nat, vs: seq<Visited>, anyClass: bool, n: nat)
    requires n < |vs| && !Duplicate(l, start, vs, n)
    ensures ThunkHere(l, PlanEnd(l, start, vs, anyClass).thunks, PlanAt(l, start, vs, n))
  {
    hide Linker.Align, CodeStart, Reserve, Visit;
    var p, q := PlanAt(l, start, vs, n), PlanAt(l, start, vs, n + 1);
    PlanGrows(l, start, vs, n + 1, |vs|);
    VisitExtends(l, p, vs[n]);
    assert q.thunks == ReserveThunks(l, p);
    if !l.needsThunk(p.placed) && |p.thunks| < |PlanEnd(l, start, vs, anyClass).thunks| {
      LaterThunksEnd(l, start, vs, anyClass, n + 1, |p.thunks|);
      assert q.offset > l.Align(p.offset);
    }
  }

  /** Placing a method on top of agreeing cursors keeps them agreeing. */
  lemma PlaceAgrees(l: Linker, k: Linked, start: nat, p: Plan, w: Writer, i: nat, v: Visited)
    requires i < |k.offsets| == |k.headers| && l.Compilable(v.compiled)
    requires SameCursor(start, p, w) && ThunkHere(l, k.thunks, p)
    requires !IsDuplicate(l, p, v.compiled) && k.offsets[i] == CodeOffset(l, p, v.compiled)
    ensures SameCursor(start, Visit(l, p, v), WriteMethod(l, k, w, i, v.compiled))
    ensures CodeIsAt(l, k, start, WriteMethod(l, k, w, i, v.compiled).out, k.headers[i], v.compiled, k.offsets[i])
  {
    hide Linker.Align, PatchedCode, ThunkHere, WriteThunks, MethodHeader.Encode;
    ThunksAgree(l, k.thunks, start, p, w);
    var t := WriteThunks(l, k.thunks, w);
    var a := WriteAligned(l, t);
    var at := a.offset + METHOD_HEADER_SIZE;
    assert at == CodeStart(l, p);
    var code := PatchedCode(l, k.targets, v.compiled, at);
    var out := a.out + k.headers[i].Encode() + code;
    assert start + |a.out| == a.offset;
    assert out[|a.out|..|a.out| + METHOD_HEADER_SIZE] == k.headers[i].Encode();
    assert out[|a.out| + METHOD_HEADER_SIZE..|a.out| + METHOD_HEADER_SIZE + |code|] == code;
  }

  lemma StepAgrees(l: Linker, k: Linked, start: nat, vs: seq<Visited>, anyClass: bool, n: nat)
    requires n < |vs| && l.AllCompilable(vs) && Records(l, k, start, vs, anyClass)
    requires InStep(l, k, start, vs, n)
    ensures InStep(l, k, start, vs, n + 1)
    ensures k.offsets[n] >= WriteAt(l, k, start, vs, n).offset <==> !Duplicate(l, start, vs, n)
    ensures !Duplicate(l, start, vs, n) ==>
              CodeIsAt(l, k, start, WriteAt(l, k, start, vs, n + 1).out, k.headers[n], vs[n].compiled, k.offsets[n])
  {
    if Duplicate(l, start, vs, n) {
      var j := DuplicateBelowCursor(l, start, vs, n);
    } else {
      ThunkHereAt(l, start, vs, anyClass, n);
      PlaceAgrees(l, k, start, PlanAt(l, start, vs, n), WriteAt(l, k, start, vs, n), n, vs[n]);
    }
  }

  lemma {:induction false} InStepAt(l: Linker, k: Linked, start: nat, vs: seq<Visited>, anyClass: bool, n: nat)
    requires n <= |vs| && l.AllCompilable(vs) && Records(l, k, start, vs, anyClass)
    ensures InStep(l, k, start, vs, n)
  {
    hide WriteMethod, Visit, Linker.Compilable;
    if n > 0 {
      hide *;
      InStepAt(l, k, start, vs, anyClass, n - 1);
      StepAgrees(l, k, start, vs, anyClass, n - 1);
    }
  }

  /**
   * Two-pass agreement: at every method the writing pass has the planning pass's cursor, it
   * writes exactly the methods that were not deduplicated, and both passes end at one size.
   */
  lemma TwoPassAgreement(l: Linker, k: Linked, start: nat, vs: seq<Visited>, anyClass: bool)
    requires l.AllCompilable(vs) && Records(l, k, start, vs, anyClass)
    ensures forall n :: 0 <= n <= |vs| ==> WriteAt(l, k, start, vs, n).offset == PlanAt(l, start, vs, n).offset
    ensures forall n :: 0 <= n < |vs| ==>
              (k.offsets[n] >= WriteAt(l, k, start, vs, n).offset <==> !Duplicate(l, start, vs, n))
    ensures forall n :: 0 <= n < |vs| && !Duplicate(l, start, vs, n) ==>
              l.Compilable(vs[n].compiled) &&
              CodeIsAt(l, k, start, WriteEnd(l, k, start, vs, anyClass).out, k.headers[n], vs[n].compiled, k.offsets[n])
    ensures WriteEnd(l, k, start, vs, anyClass).offset == PlanEnd(l, start, vs, anyClass).offset
    ensures start + |WriteEnd(l, k, start, vs, anyClass).out| == PlanEnd(l, start, vs, anyClass).offset
    ensures WriteEnd(l, k, start, vs, anyClass).nextThunk == |k.thunks|
  {
    hide CodeIsAt, WriteAt, WriteEnd, PlanAt, PlanEnd, OffsetOf, Duplicate, Linker.Compilable;
    forall n | 0 <= n <= |vs|
      ensures WriteAt(l, k, start, vs, n).offset == PlanAt(l, start, vs, n).offset
      ensures n < |vs| ==> (k.offsets[n] >= WriteAt(l, k, start, vs, n).offset <==> !Duplicate(l, start, vs, n))
      ensures n < |vs| && !Duplicate(l, start, vs, n) ==>
                l.Compilable(vs[n].compiled) &&
                CodeIsAt(l, k, start, WriteEnd(l, k, start, vs, anyClass).out, k.headers[n], vs[n].compiled,
                         k.offsets[n])
    {
      InStepAt(l, k, start, vs, anyClass, n);
      if n < |vs| {
        StepAgrees(l, k, start, vs, anyClass, n);
        if !Duplicate(l, start, vs, n) {
          PlacedMethodHasItsCode(l, k, start, vs, anyClass, n);
        }
      }
    }
    EndAgrees(l, k, start, vs, anyClass);
  }

  lemma EndAgrees(l: Linker, k: Linked, start: nat, vs: seq<Visited>, anyClass: bool)
    requires l.AllCompilable(vs) && Records(l, k, start, vs, anyClass)
    ensures SameCursor(start, PlanEnd(l, start, vs, anyClass), WriteEnd(l, k, start, vs, anyClass))
  {
    InStepAt(l, k, start, vs, anyClass, |vs|);
    if anyClass {
      ThunksAgree(l, k.thunks, start, PlanAt(l, start, vs, |vs|), WriteAt(l, k, start, vs, |vs|));
    }
  }

  // ---------------------------------------------------------------- what the bytes say

  lemma WriteOnlyAppends(l: Linker, k: Linked, w: Writer, i: nat, m: CompiledMethod)
    requires i < |k.offsets| == |k.headers| && l.Compilable(m)
    ensures w.out <= WriteMethod(l, k, w, i, m).out
  {
    hide Linker.Align, PatchedCode;
  }

  lemma {:induction false} OutputOnlyGrows(l: Linker, k: Linked, start: nat, vs: seq<Visited>, i: nat, j: nat)
    requires i <= j <= |vs| && k.Covers(|vs|) && l.AllCompilable(vs)
    ensures WriteAt(l, k, start, vs, i).out <= WriteAt(l, k, start, vs, j).out
    decreases j
  {
    if i < j {
      hide WriteMethod;
      OutputOnlyGrows(l, k, start, vs, i, j - 1);
      WriteOnlyAppends(l, k, WriteAt(l, k, start, vs, j - 1), j - 1, vs[j - 1].compiled);
    }
  }

  lemma OutputReachesEnd(l: Linker, k: Linked, start: nat, vs: seq<Visited>, anyClass: bool, i: nat)
    requires i <= |vs| && k.Covers(|vs|) && l.AllCompilable(vs)
    ensures WriteAt(l, k, start, vs, i).out <= WriteEnd(l, k, start, vs, anyClass).out
  {
    OutputOnlyGrows(l, k, start, vs, i, |vs|);
  }

  lemma CodeStaysAt(l: Linker, k: Linked, start: nat, out: seq<uint8>, more: seq<uint8>, header: MethodHeader,
                    m: CompiledMethod, offset: nat)
    requires l.Compilable(m) && out <= more
    requires CodeIsAt(l, k, start, out, header, m, offset)
    ensures CodeIsAt(l, k, start, more, header, m, offset)
  {
    var c := offset - l.isa.CodeDelta() - start;
    assert more[c - METHOD_HEADER_SIZE..c] == out[c - METHOD_HEADER_SIZE..c];
    assert more[c..c + |l.Code(m)|] == out[c..c + |l.Code(m)|];
  }

  lemma PlacedMethodHasItsCode(l: Linker, k: Linked, start: nat, vs: seq<Visited>, anyClass: bool, j: nat)
    requires j < |vs| && l.AllCompilable(vs) && Records(l, k, start, vs, anyClass) && !Duplicate(l, start, vs, j)
    ensures CodeIsAt(l, k, start, WriteEnd(l, k, start, vs, anyClass).out, k.headers[j], vs[j].compiled, k.offsets[j])
  {
    InStepAt(l, k, start, vs, anyClass, j);
    StepAgrees(l, k, start, vs, anyClass, j);
    OutputReachesEnd(l, k, start, vs, anyClass, j + 1);
    CodeStaysAt(l, k, start, WriteAt(l, k, start, vs, j + 1).out, WriteEnd(l, k, start, vs, anyClass).out,
                k.headers[j], vs[j].compiled, k.offsets[j]);
  }

  /** Methods with one key have one patched code at any given place. */
  lemma SameKeySameCode(l: Linker, k: Linked, start: nat, out: seq<uint8>, header: MethodHeader, m: CompiledMethod,
                        n: CompiledMethod, offset: nat)
    requires l.Compilable(m) && l.Compilable(n) && KeyOf(m) == KeyOf(n)
    requires CodeIsAt(l, k, start, out, header, m, offset)
    ensures CodeIsAt(l, k, start, out, header, n, offset)
  {
    assert m.quickCode == KeyOf(m).code && n.quickCode == KeyOf(n).code;
    assert m.patches == KeyOf(m).patches && n.patches == KeyOf(n).patches;
  }

  /** The visited method whose bytes serve method `i`: itself, or the one it duplicates. */
  ghost predicate Serves(l: Linker, start: nat, vs: seq<Visited>, i: nat, j: nat) {
    && i < |vs| && j <= i && !Duplicate(l, start, vs, j)
    && KeyOf(vs[j].compiled) == KeyOf(vs[i].compiled)
    && OffsetOf(l, start, vs, j) == OffsetOf(l, start, vs, i)
  }

  lemma EveryMethodIsServed(l: Linker, start: nat, vs: seq<Visited>, i: nat) returns (j: nat)
    requires i < |vs| && l.AllCompilable(vs)
    ensures Serves(l, start, vs, i, j)
  {
    if Duplicate(l, start, vs, i) {
      j := DuplicateBelowCursor(l, start, vs, i);
    } else {
      j := i;
    }
  }

  /**
   * Every visited method, duplicate or not, finds its own patched code in the finished output
   * at its recorded offset, behind the header of the method that was placed there.
   */
  lemma EveryMethodHasItsCode(l: Linker, k: Linked, start: nat, vs: seq<Visited>, anyClass: bool, i: nat)
      returns (j: nat)
    requires i < |vs| && l.AllCompilable(vs) && Records(l, k, start, vs, anyClass)
    ensures Serves(l, start, vs, i, j)
    ensures CodeIsAt(l, k, start, WriteEnd(l, k, start, vs, anyClass).out, k.headers[j], vs[i].compiled, k.offsets[i])
  {
    j := EveryMethodIsServed(l, start, vs, i);
    PlacedMethodHasItsCode(l, k, start, vs, anyClass, j);
    SameKeySameCode(l, k, start, WriteEnd(l, k, start, vs, anyClass).out, k.headers[j],
                    vs[j].compiled, vs[i].compiled, k.offsets[j]);
  }

  // ---------------------------------------------------------------- patched code

  predicate Apart(p: LinkerPatch, q: LinkerPatch) {
    p.literalOffset + 4 <= q.literalOffset || q.literalOffset + 4 <= p.literalOffset
  }

  /** Bytes under no patch are those the compiler produced. */
  lemma {:induction false} UnpatchedByteStays(l: Linker, targets: map<MethodRef, nat>, code: seq<uint8>,
                                              patches: seq<LinkerPatch>, at: nat, b: nat)
    requires b < |code| && forall p :: p in patches ==> p.literalOffset + 4 <= |code|
    requires forall p :: p in patches ==> !(p.literalOffset <= b < p.literalOffset + 4)
    ensures Patched(l, targets, code, patches, at)[b] == code[b]
    decreases |patches|
  {
    hide PatchWord, Le32;
    if patches != [] {
      var p := patches[0];
      var word := Le32(PatchWord(l, targets, p, at, WordAt(code, p.literalOffset)));
      UnpatchedByteStays(l, targets, Splice(code, p.literalOffset, word), patches[1..], at, b);
    }
  }

  /** A patch under no later patch leaves its word in the finished code. */
  lemma {:induction false} PatchLands(l: Linker, targets: map<MethodRef, nat>, code: seq<uint8>,
                                      patches: seq<LinkerPatch>, at: nat, n: nat) returns (insn: uint32)
    requires n < |patches| && forall p :: p in patches ==> p.literalOffset + 4 <= |code|
    requires forall j :: n < j < |patches| ==> Apart(patches[n], patches[j])
    ensures var o := patches[n].literalOffset;
            Patched(l, targets, code, patches, at)[o..o + 4] == Le32(PatchWord(l, targets, patches[n], at, insn))
    decreases |patches|
  {
    hide PatchWord, Le32;
    var p := patches[0];
    var word := Le32(PatchWord(l, targets, p, at, WordAt(code, p.literalOffset)));
    var next := Splice(code, p.literalOffset, word);
    if n > 0 {
      assert patches[1..][n - 1] == patches[n];
      insn := PatchLands(l, targets, next, patches[1..], at, n - 1);
    } else {
      insn := WordAt(code, p.literalOffset);
      var o := p.literalOffset;
      var done := Patched(l, targets, next, patches[1..], at);
      forall b | o <= b < o + 4 ensures done[b] == next[b] {
        forall q | q in patches[1..] ensures !(q.literalOffset <= b < q.literalOffset + 4) {
          var j :| 0 <= j < |patches[1..]| && patches[1..][j] == q;
          assert Apart(patches[0], patches[j + 1]);
        }
        UnpatchedByteStays(l, targets, next, patches[1..], at, b);
      }
      assert next[o..o + 4] == word;
    }
  }

  /** `j` is the first visited definition of `ref`. */
  ghost predicate FirstDefinition(vs: seq<Visited>, ref: MethodRef, j: nat) {
    j < |vs| && vs[j].ref == ref && forall i :: 0 <= i < j ==> vs[i].ref != ref
  }

  lemma {:induction false} TargetsAreDefinitions(l: Linker, start: nat, vs: seq<Visited>, k: nat, ref: MethodRef,
                                                 j: nat)
    requires k <= |vs| && FirstDefinition(vs, ref, j)
    ensures ref in PlanAt(l, start, vs, k).targets <==> j < k
    ensures j < k ==> PlanAt(l, start, vs, k).targets[ref] == OffsetOf(l, start, vs, j)
  {
    hide CodeOffset, CodeStart, Linker.Align, IsDuplicate;
    if k > 0 {
      TargetsAreDefinitions(l, start, vs, k - 1, ref, j);
    }
  }

  /** The code of every method starts at an even offset at or after the code region. */
  lemma CodeIsEven(l: Linker, start: nat, vs: seq<Visited>, q: nat)
    requires q < |vs| && l.AllCompilable(vs)
    ensures var c := OffsetOf(l, start, vs, q) - l.isa.CodeDelta();
            c >= start + METHOD_HEADER_SIZE && c % 2 == 0
  {
    hide PlanAt, Visit, CodeStart, Linker.Align, Linker.AllCompilable, Linker.Compilable;
    var j := EveryMethodIsServed(l, start, vs, q);
    PlanStartsAtStart(l, start, vs, j);
    CodeStartIsEven(l, PlanAt(l, start, vs, j));
  }

  /**
   * A direct call is linked: in the finished output, at the call's place in the code of every method
   * that makes it, duplicate or not, is the run-time address of the offset recorded for the first
   * definition of the method it names.
   */
  lemma CallReachesTarget(l: Linker, k: Linked, start: nat, vs: seq<Visited>, anyClass: bool, i: nat, n: nat, j: nat)
    requires i < |vs| && l.AllCompilable(vs) && Records(l, k, start, vs, anyClass)
    requires var ps := vs[i].compiled.patches;
             && n < |ps| && ps[n].patchType.Call?
             && (forall m :: n < m < |ps| ==> Apart(ps[n], ps[m]))
             && FirstDefinition(vs, MethodRef(ps[n].targetDexFile, ps[n].cmp1), j)
    ensures var at := k.offsets[i] - l.isa.CodeDelta() + vs[i].compiled.patches[n].literalOffset;
            start <= at && ReadsAs(WriteEnd(l, k, start, vs, anyClass).out, at - start,
                                   Le32(U32(l.oatBase + k.offsets[j])))
  {
    hide WriteEnd, PlanAt, Patched, Duplicate, OffsetOf, Serves, MethodHeader.Encode, Le32, U32;
    var server := EveryMethodHasItsCode(l, k, start, vs, anyClass, i);
    var at := k.offsets[i] - l.isa.CodeDelta();
    PatchedCallNames(l, k, start, vs, anyClass, i, n, j, at);
    WordInCode(l, k, start, WriteEnd(l, k, start, vs, anyClass).out, k.headers[server], vs[i].compiled, k.offsets[i],
               vs[i].compiled.patches[n].literalOffset, Le32(U32(l.oatBase + k.offsets[j])));
  }

  /** What patched code holds is found in the output. */
  lemma WordInCode(l: Linker, k: Linked, start: nat, out: seq<uint8>, header: MethodHeader, m: CompiledMethod,
                   offset: nat, o: nat, word: seq<uint8>)
    requires l.Compilable(m) && CodeIsAt(l, k, start, out, header, m, offset) && o + |word| <= |l.Code(m)|
    requires offset >= l.isa.CodeDelta() &&
             PatchedCode(l, k.targets, m, offset - l.isa.CodeDelta())[o..o + |word|] == word
    ensures start <= offset - l.isa.CodeDelta() + o && ReadsAs(out, offset - l.isa.CodeDelta() + o - start, word)
  {
    hide PatchedCode, MethodHeader.Encode;
    var c := offset - l.isa.CodeDelta() - start;
    var code := PatchedCode(l, k.targets, m, offset - l.isa.CodeDelta());
    assert out[c + o..c + o + |word|] == out[c..c + |code|][o..o + |word|];
  }

  lemma PatchedCallNames(l: Linker, k: Linked, start: nat, vs: seq<Visited>, anyClass: bool, i: nat, n: nat, j: nat,
                         at: nat)
    requires i < |vs| && l.AllCompilable(vs) && Records(l, k, start, vs, anyClass)
    requires var ps := vs[i].compiled.patches;
             && n < |ps| && ps[n].patchType.Call?
             && (forall m :: n < m < |ps| ==> Apart(ps[n], ps[m]))
             && FirstDefinition(vs, MethodRef(ps[n].targetDexFile, ps[n].cmp1), j)
    ensures var o := vs[i].compiled.patches[n].literalOffset;
            PatchedCode(l, k.targets, vs[i].compiled, at)[o..o + 4] == Le32(U32(l.oatBase + k.offsets[j]))
  {
    hide PlanAt, Patched, U32, Le32, CodeOffset;
    var m := vs[i].compiled;
    CodeIsEven(l, start, vs, j);
    TargetsAreDefinitions(l, start, vs, |vs|, MethodRef(m.patches[n].targetDexFile, m.patches[n].cmp1), j);
    var insn := PatchLands(l, k.targets, l.Code(m), m.patches, at, n);
  }

  // ---------------------------------------------------------------- code ranges

  /** Methods that were placed occupy disjoint ranges, in visiting order. */
  lemma PlacedRangesAscend(l: Linker, start: nat, vs: seq<Visited>, i: nat, j: nat)
    requires i < j < |vs| && !Duplicate(l, start, vs, i) && !Duplicate(l, start, vs, j)
    ensures OffsetOf(l, start, vs, i) + |l.Code(vs[i].compiled)| + METHOD_HEADER_SIZE <= OffsetOf(l, start, vs, j)
  {
    hide PlanAt, Visit, Linker.Align, Reserve;
    PlacedBelowCursor(l, start, vs, i, j);
  }
}
