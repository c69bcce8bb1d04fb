/**
 * Relative calls in the finished file: the instruction word of every call that is checked branches to
 * its callee's code or to a thunk, and thunks are where they were reserved.
 */
module RelativeLinks {
  import opened Arith
  import opened Words
  import opened SafeMap
  import opened CompiledMethods
  import opened OatTypes
  import opened OatMaps
  import opened OatCode
  import opened OatFile
  import opened RelativeCalls
  import opened RelativeReach
  import opened RelativeRule
  import opened Branches

  // ---------------------------------------------------------------- the patcher's encodings

  /** The instruction sets that have a patcher with thunks. */
  predicate HasThunks(isa: Isa) {
    isa.Arm? || isa.Thumb2? || isa.Arm64?
  }

  function ReachOf(isa: Isa): Reach
    requires HasThunks(isa)
  {
    if isa.Arm64? then ARM64_REACH else THUMB2_REACH
  }

  /** Places of instructions and code are multiples of this. */
  function Unit(isa: Isa): (n: nat)
    requires HasThunks(isa)
    ensures n == 2 || n == 4
  {
    if isa.Arm64? then 4 else 2
  }

  function CallWord(isa: Isa, displacement: uint32): uint32
    requires HasThunks(isa)
  {
    if isa.Arm64? then Arm64Call(displacement) else Thumb2Call(displacement)
  }

  /** What a processor makes of a call instruction. */
  function Branch(isa: Isa, word: uint32): int
    requires HasThunks(isa)
  {
    if isa.Arm64? then Arm64Branch(word) else Thumb2Branch(word)
  }

  lemma ReachesAreEncodable()
    ensures Encodable(THUMB2_REACH) && Encodable(ARM64_REACH)
  {
  }

  /** Every displacement in reach that a patcher can be asked for survives the instruction. */
  lemma CallRoundTrip(isa: Isa, displacement: uint32)
    requires HasThunks(isa) && displacement % Unit(isa) == 0
    requires -(ReachOf(isa).negative as int) <= Signed32(displacement) <= ReachOf(isa).positive
    ensures Branch(isa, CallWord(isa, displacement)) == Signed32(displacement)
  {
    hide Thumb2Call, Thumb2Branch, Arm64Call, Arm64Branch;
    if isa.Arm64? {
      Arm64RoundTrip(displacement);
    } else {
      Thumb2RoundTrip(displacement);
    }
  }

  /** How many thunks have been written when code at `at` is patched. */
  function Passed(thunks: seq<nat>, at: nat): (n: nat)
    ensures n <= |thunks|
  {
    if thunks == [] || thunks[0] >= at then 0 else 1 + Passed(thunks[1..], at)
  }

  /** The linker's relative call words encode the patcher's displacement for these thunks. */
  ghost predicate EncodesCalls(l: Linker, thunks: seq<nat>)
    requires HasThunks(l.isa)
  {
    forall patch: LinkerPatch, at: nat, target: nat, insn: nat :: patch.patchType.CallRelative? ==>
      match CalculateDisplacement(ReachOf(l.isa), thunks, Passed(thunks, at), at, target / 2 * 2)
      case None => true
      case Some(d) => l.relative(patch, at, target, insn) == CallWord(l.isa, d)
  }

  // ---------------------------------------------------------------- thunks in order

  predicate InSequence(thunks: seq<nat>) {
    forall i, j :: 0 <= i < j < |thunks| ==> thunks[i] <= thunks[j]
  }

  lemma {:induction false} PassedIs(thunks: seq<nat>, next: nat, at: nat)
    requires InSequence(thunks) && Between(thunks, next, at)
    ensures Passed(thunks, at) == next
    decreases next
  {
    if next > 0 {
      assert thunks[0] <= thunks[next - 1];
      PassedIs(thunks[1..], next - 1, at);
    }
  }

  lemma AppendInSequence(thunks: seq<nat>, offset: nat, t: nat)
    requires InSequence(thunks) && AllBelow(thunks, offset) && offset <= t
    ensures InSequence(thunks + [t])
  {
  }

  lemma ReserveInSequence(l: Linker, p: Plan)
    requires InSequence(p.thunks) && AllBelow(p.thunks, p.offset)
    ensures InSequence(ReserveThunks(l, p))
  {
    hide Linker.Align, InSequence, AllBelow;
    AppendInSequence(p.thunks, p.offset, l.Align(p.offset));
  }

  lemma {:induction false} ThunksInSequence(l: Linker, start: nat, vs: seq<Visited>, k: nat)
    requires k <= |vs|
    ensures InSequence(PlanAt(l, start, vs, k).thunks)
  {
    hide Reserve, ReserveThunks, CodeStart, CodeOffset, IsDuplicate, AllBelow;
    if k > 0 {
      ThunksInSequence(l, start, vs, k - 1);
      ThunksBelow(l, start, vs, k - 1);
      ReserveInSequence(l, PlanAt(l, start, vs, k - 1));
    }
  }

  lemma EndInSequence(l: Linker, start: nat, vs: seq<Visited>)
    ensures InSequence(End(l, start, vs).thunks)
  {
    hide PlanAt, Reserve, ReserveThunks, InSequence, AllBelow;
    ThunksInSequence(l, start, vs, |vs|);
    ThunksBelow(l, start, vs, |vs|);
    ReserveInSequence(l, PlanAt(l, start, vs, |vs|));
  }

  // ---------------------------------------------------------------- thunks in the output

  /** The writer puts a thunk's code at its reserved place. */
  lemma ThunkIsWritten(l: Linker, thunks: seq<nat>, start: nat, p: Plan, w: Writer)
    requires SameCursor(start, p, w) && ThunkHere(l, thunks, p) && l.needsThunk(p.placed)
    ensures l.Align(p.offset) >= start
    ensures ReadsAs(WriteThunks(l, thunks, w).out, l.Align(p.offset) - start, l.thunk)
  {
    hide Linker.Align;
    assert thunks[|p.thunks|] == ReserveThunks(l, p)[|p.thunks|];
    var aligned := l.Align(w.offset);
    var end := l.Align(aligned + |l.thunk|);
    ReadsAsAtEnd(w.out + Zeros(aligned - w.offset), l.thunk);
    ReadsAsAfterAppend(w.out + Zeros(aligned - w.offset) + l.thunk, Zeros(end - (aligned + |l.thunk|)),
                       aligned - start, l.thunk);
  }

  lemma WriteKeepsReading(l: Linker, k: Linked, w: Writer, i: nat, m: CompiledMethod, at: nat)
    requires i < |k.offsets| == |k.headers| && l.Compilable(m) && k.offsets[i] >= w.offset
    requires ReadsAs(WriteThunks(l, k.thunks, w).out, at, l.thunk)
    ensures ReadsAs(WriteMethod(l, k, w, i, m).out, at, l.thunk)
  {
    hide Linker.Align, PatchedCode, ReadsAs, WriteThunks, MethodHeader.Encode;
    var t := WriteThunks(l, k.thunks, w);
    var a := WriteAligned(l, t);
    var code := PatchedCode(l, k.targets, m, a.offset + METHOD_HEADER_SIZE);
    ReadsAsAfterAppend(t.out, Zeros(a.offset - t.offset), at, l.thunk);
    ReadsAsAfterAppend(a.out, k.headers[i].Encode(), at, l.thunk);
    ReadsAsAfterAppend(a.out + k.headers[i].Encode(), code, at, l.thunk);
  }

  /** All thunks reserved so far are in the output. */
  ghost predicate ThunksIn(l: Linker, start: nat, thunks: seq<nat>, out: seq<uint8>) {
    forall t :: 0 <= t < |thunks| ==> thunks[t] >= start && ReadsAs(out, thunks[t] - start, l.thunk)
  }

  lemma ThunksStayIn(l: Linker, start: nat, thunks: seq<nat>, out: seq<uint8>, more: seq<uint8>)
    requires ThunksIn(l, start, thunks, out) && out <= more
    ensures ThunksIn(l, start, thunks, more)
  {
    hide ReadsAs;
    assert more == out + more[|out|..];
    forall t | 0 <= t < |thunks| ensures ReadsAs(more, thunks[t] - start, l.thunk) {
      ReadsAsAfterAppend(out, more[|out|..], thunks[t] - start, l.thunk);
    }
  }

  lemma OneMoreThunkIn(l: Linker, start: nat, thunks: seq<nat>, t: nat, out: seq<uint8>)
    requires ThunksIn(l, start, thunks, out) && t >= start && ReadsAs(out, t - start, l.thunk)
    ensures ThunksIn(l, start, thunks + [t], out)
  {
    hide ReadsAs;
  }

  /** Writing a placed method adds the thunk that was reserved before it. */
  lemma PlaceKeepsThunks(l: Linker, k: Linked, start: nat, p: Plan, w: Writer, n: nat, v: Visited)
    requires n < |k.offsets| == |k.headers| && l.Compilable(v.compiled) && k.offsets[n] >= w.offset
    requires SameCursor(start, p, w) && ThunkHere(l, k.thunks, p) && !IsDuplicate(l, p, v.compiled)
    requires ThunksIn(l, start, p.thunks, w.out)
    ensures ThunksIn(l, start, Visit(l, p, v).thunks, WriteMethod(l, k, w, n, v.compiled).out)
  {
    hide *;
    VisitExtends(l, p, v);
    ReserveThunksAre(l, p);
    WriteOnlyAppends(l, k, w, n, v.compiled);
    ThunksStayIn(l, start, p.thunks, w.out, WriteMethod(l, k, w, n, v.compiled).out);
    if l.needsThunk(p.placed) {
      ThunkIsWritten(l, k.thunks, start, p, w);
      WriteKeepsReading(l, k, w, n, v.compiled, l.Align(p.offset) - start);
      OneMoreThunkIn(l, start, p.thunks, l.Align(p.offset), WriteMethod(l, k, w, n, v.compiled).out);
    }
  }

  /** A duplicate writes nothing and reserves nothing. */
  lemma SkipKeepsThunks(l: Linker, k: Linked, start: nat, p: Plan, w: Writer, n: nat, v: Visited)
    requires n < |k.offsets| == |k.headers| && l.Compilable(v.compiled) && IsDuplicate(l, p, v.compiled)
    requires ThunksIn(l, start, p.thunks, w.out)
    ensures ThunksIn(l, start, Visit(l, p, v).thunks, WriteMethod(l, k, w, n, v.compiled).out)
  {
    hide *;
    DuplicateKeepsThunks(l, p, v);
    WriteOnlyAppends(l, k, w, n, v.compiled);
    ThunksStayIn(l, start, p.thunks, w.out, WriteMethod(l, k, w, n, v.compiled).out);
  }

  lemma StepFacts(l: Linker, k: Linked, start: nat, vs: seq<Visited>, n: nat)
    requires n < |vs| && l.AllCompilable(vs) && Records(l, k, start, vs, true)
    ensures k.Covers(|vs|) && n < |k.offsets| == |k.headers| && l.Compilable(vs[n].compiled)
    ensures SameCursor(start, PlanAt(l, start, vs, n), WriteAt(l, k, start, vs, n))
    ensures !Duplicate(l, start, vs, n) ==>
              k.offsets[n] >= WriteAt(l, k, start, vs, n).offset && ThunkHere(l, k.thunks, PlanAt(l, start, vs, n))
  {
    hide PlanAt, PlanEnd, WriteAt, OffsetOf, Duplicate, SameCursor, ThunkHere, Linker.Compilable;
    InStepAt(l, k, start, vs, true, n);
    StepAgrees(l, k, start, vs, true, n);
    if !Duplicate(l, start, vs, n) {
      ThunkHereAt(l, start, vs, true, n);
    }
  }

  lemma ThunksInStep(l: Linker, k: Linked, start: nat, vs: seq<Visited>, n: nat)
    requires n < |vs| && l.AllCompilable(vs) && Records(l, k, start, vs, true)
    requires k.Covers(|vs|) && ThunksIn(l, start, PlanAt(l, start, vs, n).thunks, WriteAt(l, k, start, vs, n).out)
    ensures ThunksIn(l, start, PlanAt(l, start, vs, n + 1).thunks, WriteAt(l, k, start, vs, n + 1).out)
  {
    hide *;
    StepIs(l, THUMB2_REACH, start, vs, n + 1);
    WriteStepIs(l, k, start, vs, n);
    StepFacts(l, k, start, vs, n);
    DuplicateIs(l, start, vs, n);
    if Duplicate(l, start, vs, n) {
      SkipKeepsThunks(l, k, start, PlanAt(l, start, vs, n), WriteAt(l, k, start, vs, n), n, vs[n]);
    } else {
      PlaceKeepsThunks(l, k, start, PlanAt(l, start, vs, n), WriteAt(l, k, start, vs, n), n, vs[n]);
    }
  }

  lemma WriteStepIs(l: Linker, k: Linked, start: nat, vs: seq<Visited>, n: nat)
    requires n < |vs| && l.AllCompilable(vs) && k.Covers(|vs|)
    ensures WriteAt(l, k, start, vs, n + 1) == WriteMethod(l, k, WriteAt(l, k, start, vs, n), n, vs[n].compiled)
  {
    hide WriteMethod;
  }

  lemma DuplicateIs(l: Linker, start: nat, vs: seq<Visited>, n: nat)
    requires n < |vs|
    ensures Duplicate(l, start, vs, n) <==> IsDuplicate(l, PlanAt(l, start, vs, n), vs[n].compiled)
  {
    hide PlanAt, IsDuplicate;
  }

  lemma DuplicateKeepsThunks(l: Linker, p: Plan, v: Visited)
    requires IsDuplicate(l, p, v.compiled)
    ensures Visit(l, p, v).thunks == p.thunks
  {
    hide IsDuplicate, CodeOffset;
  }

  lemma ReserveThunksAre(l: Linker, p: Plan)
    ensures ReserveThunks(l, p) == if l.needsThunk(p.placed) then p.thunks + [l.Align(p.offset)] else p.thunks
  {
    hide Linker.Align;
  }

  lemma {:induction false} ThunksInAt(l: Linker, k: Linked, start: nat, vs: seq<Visited>, n: nat)
    requires n <= |vs| && l.AllCompilable(vs) && Records(l, k, start, vs, true)
    ensures ThunksIn(l, start, PlanAt(l, start, vs, n).thunks, WriteAt(l, k, start, vs, n).out)
  {
    hide Visit, WriteMethod, Linker.AllCompilable, Records, OffsetOf, PlanEnd;
    if n > 0 {
      StepFacts(l, k, start, vs, n - 1);
      ThunksInAt(l, k, start, vs, n - 1);
      ThunksInStep(l, k, start, vs, n - 1);
    }
  }

  /** In the end every reserved thunk is in the output at its place. */
  lemma EveryThunkIsWritten(l: Linker, k: Linked, start: nat, vs: seq<Visited>)
    requires l.AllCompilable(vs) && Records(l, k, start, vs, true)
    ensures ThunksIn(l, start, k.thunks, WriteEnd(l, k, start, vs, true).out)
  {
    hide PlanAt, WriteAt, WriteThunks, ThunksIn, ThunkHere, SameCursor, Linker.Align, ReserveThunks, Reserve;
    var p, w := PlanAt(l, start, vs, |vs|), WriteAt(l, k, start, vs, |vs|);
    ThunksInAt(l, k, start, vs, |vs|);
    InStepAt(l, k, start, vs, true, |vs|);
    EndThunkHere(l, k, start, vs);
    WriteThunksAppends(l, k.thunks, w);
    ThunksStayIn(l, start, p.thunks, w.out, WriteThunks(l, k.thunks, w).out);
    ReserveThunksAre(l, p);
    if l.needsThunk(p.placed) {
      ThunkIsWritten(l, k.thunks, start, p, w);
      OneMoreThunkIn(l, start, p.thunks, l.Align(p.offset), WriteThunks(l, k.thunks, w).out);
    }
  }

  lemma EndThunkHere(l: Linker, k: Linked, start: nat, vs: seq<Visited>)
    requires Records(l, k, start, vs, true)
    ensures ThunkHere(l, k.thunks, PlanAt(l, start, vs, |vs|))
    ensures k.thunks == ReserveThunks(l, PlanAt(l, start, vs, |vs|))
  {
    hide PlanAt, Linker.Align, OffsetOf;
  }

  lemma WriteThunksAppends(l: Linker, thunks: seq<nat>, w: Writer)
    ensures w.out <= WriteThunks(l, thunks, w).out
  {
    hide Linker.Align;
  }

  // ---------------------------------------------------------------- the word of a call

  /** `to` is the callee's first byte or the place of a thunk. */
  predicate Leads(thunks: seq<nat>, goal: int, to: int) {
    to == goal || exists t :: 0 <= t < |thunks| && to == thunks[t]
  }

  predicate AllAligned(thunks: seq<nat>) {
    forall t :: 0 <= t < |thunks| ==> thunks[t] % 4 == 0
  }

  /** The instruction word of a call that reaches leads to its goal or to a thunk. */
  lemma WordLeads(l: Linker, thunks: seq<nat>, next: nat, from: nat, patch: LinkerPatch, target: nat, insn: nat)
    requires HasThunks(l.isa) && EncodesCalls(l, thunks) && patch.patchType.CallRelative?
    requires InSequence(thunks) && AllAligned(thunks) && Between(thunks, next, from)
    requires from % Unit(l.isa) == 0 && target / 2 * 2 % Unit(l.isa) == 0
    requires Reaches(ReachOf(l.isa), thunks, next, from, target / 2 * 2)
    ensures Leads(thunks, target / 2 * 2, from + Branch(l.isa, U32(l.relative(patch, from, target, insn))))
  {
    hide CallWord, Branch, Signed32, U32, InSequence, Leads, CalculateDisplacement, EncodesCalls;
    PassedIs(thunks, next, from);
    var d := CalculateDisplacement(ReachOf(l.isa), thunks, next, from, target / 2 * 2).value;
    EncodedWord(l, thunks, next, from, patch, target, insn);
    var to := from + Signed32(d);
    LeadsAligned(l.isa, thunks, target / 2 * 2, to);
    SameUnit(l.isa, from, to, d);
    CallRoundTrip(l.isa, d);
    WordIs(CallWord(l.isa, d));
  }

  lemma EncodedWord(l: Linker, thunks: seq<nat>, next: nat, from: nat, patch: LinkerPatch, target: nat, insn: nat)
    requires HasThunks(l.isa) && EncodesCalls(l, thunks) && patch.patchType.CallRelative?
    requires Passed(thunks, from) == next
    requires CalculateDisplacement(ReachOf(l.isa), thunks, next, from, target / 2 * 2).Some?
    ensures l.relative(patch, from, target, insn) ==
            CallWord(l.isa, CalculateDisplacement(ReachOf(l.isa), thunks, next, from, target / 2 * 2).value)
  {
    hide CallWord, CalculateDisplacement, Passed;
  }

  lemma WordIs(w: uint32)
    ensures U32(w) == w
  {
  }

  lemma LeadsAligned(isa: Isa, thunks: seq<nat>, goal: nat, to: int)
    requires HasThunks(isa) && AllAligned(thunks) && goal % Unit(isa) == 0
    requires to == goal || exists i :: 0 <= i < |thunks| && to == thunks[i]
    ensures to >= 0 && to % Unit(isa) == 0 && Leads(thunks, goal, to)
  {
    if to != goal {
      FourIsEven(isa, to);
    }
  }

  lemma FourIsEven(isa: Isa, x: nat)
    requires HasThunks(isa) && x % 4 == 0
    ensures x % Unit(isa) == 0
  {
    DivModUnique(x, 2, 2 * (x / 4), 0);
  }

  lemma SameUnit(isa: Isa, from: nat, to: nat, d: uint32)
    requires HasThunks(isa) && from % Unit(isa) == 0 && to % Unit(isa) == 0 && to == from + Signed32(d)
    ensures d % Unit(isa) == 0
  {
  }

  // ---------------------------------------------------------------- places are aligned

  lemma AfterHeaderAligned(a: nat)
    requires a % 8 == 0
    ensures (a + 28) % 4 == 0 && a % 4 == 0
  {
    DivModUnique(a + 28, 4, 2 * (a / 8) + 7, 0);
    DivModUnique(a, 4, 2 * (a / 8), 0);
  }

  lemma CodeStartAligned(l: Linker, p: Plan)
    ensures CodeStart(l, p) % 4 == 0
  {
    hide Reserve, Linker.Align;
    CodeStartIs(l, p);
    AfterHeaderAligned(l.Align(Reserve(l, p)));
  }

  lemma ReserveAligned(l: Linker, p: Plan)
    requires AllAligned(p.thunks)
    ensures AllAligned(ReserveThunks(l, p))
  {
    hide Linker.Align;
    AfterHeaderAligned(l.Align(p.offset));
  }

  lemma {:induction false} ThunksAligned(l: Linker, start: nat, vs: seq<Visited>, k: nat)
    requires k <= |vs|
    ensures AllAligned(PlanAt(l, start, vs, k).thunks)
  {
    hide Reserve, ReserveThunks, CodeStart, CodeOffset, IsDuplicate, AllAligned;
    if k > 0 {
      ThunksAligned(l, start, vs, k - 1);
      ReserveAligned(l, PlanAt(l, start, vs, k - 1));
    } else {
      assert AllAligned([]) by { NoThunks(); }
    }
  }

  lemma NoThunks()
    ensures AllAligned([])
  {
  }

  lemma EndAligned(l: Linker, start: nat, vs: seq<Visited>)
    ensures AllAligned(End(l, start, vs).thunks)
  {
    hide PlanAt, Reserve, ReserveThunks, AllAligned;
    ThunksAligned(l, start, vs, |vs|);
    ReserveAligned(l, PlanAt(l, start, vs, |vs|));
  }

  // ---------------------------------------------------------------- calls in the file

  /** What is checked when a call is patched: places are aligned, and the goal is in the file's range. */
  predicate CallFits(l: Linker, targets: map<MethodRef, nat>, patch: LinkerPatch)
    requires HasThunks(l.isa)
  {
    patch.literalOffset % Unit(l.isa) == 0 && Goal(l, targets, patch) % Unit(l.isa) == 0 &&
    Goal(l, targets, patch) < HALF_WORD
  }

  lemma CallPlace(l: Linker, start: nat, vs: seq<Visited>, i: nat, n: nat)
    requires HasThunks(l.isa) && IsCall(l, start, vs, i, n) &&
             vs[i].compiled.patches[n].literalOffset % Unit(l.isa) == 0
    ensures var c, patch := CallAt(l, start, vs, i, n), vs[i].compiled.patches[n];
            c.actual % Unit(l.isa) == 0 &&
            c.actual == OffsetOf(l, start, vs, i) - l.isa.CodeDelta() + patch.literalOffset
  {
    hide PlanAt, CodeStart, CodeWithoutThunk, ReserveThunks, IsDuplicate;
    CodeStartAligned(l, PlanAt(l, start, vs, i));
    SumAligned(l.isa, CodeStart(l, PlanAt(l, start, vs, i)), vs[i].compiled.patches[n].literalOffset);
  }

  lemma SumAligned(isa: Isa, a: nat, b: nat)
    requires HasThunks(isa) && a % 4 == 0 && b % Unit(isa) == 0
    ensures (a + b) % Unit(isa) == 0
  {
    var p := a / 4;
    if isa.Arm64? {
      DivModUnique(a + b, 4, p + b / 4, 0);
    } else {
      DivModUnique(a + b, 2, 2 * p + b / 2, 0);
    }
  }

  /** A call that is checked, or near something, reaches. */
  predicate Checked(l: Linker, start: nat, vs: seq<Visited>, i: nat, n: nat)
    requires HasThunks(l.isa) && i < |vs| && n < |vs[i].compiled.patches|
  {
    Unchecked(l, ReachOf(l.isa), End(l, start, vs), CallAt(l, start, vs, i, n)) ==>
      Near(l, ReachOf(l.isa), start, vs, i, n)
  }

  /** The word that patching computes for a placed method's call. */
  lemma PatchedWordLeads(l: Linker, start: nat, vs: seq<Visited>, targets: map<MethodRef, nat>, i: nat, n: nat,
                         insn: nat)
    requires HasThunks(l.isa) && IsCall(l, start, vs, i, n) && Ruled(l, ReachOf(l.isa), start, vs)
    requires targets == End(l, start, vs).targets && End(l, start, vs).offset < HALF_WORD
    requires EncodesCalls(l, End(l, start, vs).thunks) && CallFits(l, targets, vs[i].compiled.patches[n])
    requires Checked(l, start, vs, i, n)
    ensures var patch := vs[i].compiled.patches[n];
            var at := OffsetOf(l, start, vs, i) - l.isa.CodeDelta();
            at >= 0 && Leads(End(l, start, vs).thunks, Goal(l, targets, patch),
                             at + patch.literalOffset + Branch(l.isa, PatchWord(l, targets, patch, at, insn)))
  {
    hide PlanAt, End, Ruled, EncodesCalls, Unchecked, Near, Reaches, CallAt, Duplicate, OffsetOf, Branch, U32, Leads,
         AllAligned, InSequence, TargetOffset;
    var c, e, patch := CallAt(l, start, vs, i, n), End(l, start, vs), vs[i].compiled.patches[n];
    ReachesAreEncodable();
    CallPlace(l, start, vs, i, n);
    CallBetweenThunks(l, ReachOf(l.isa), start, vs, i, n);
    CallReachesIff(l, ReachOf(l.isa), start, vs, i, n);
    EndInSequence(l, start, vs);
    EndAligned(l, start, vs);
    OffsetAfterDelta(l, ReachOf(l.isa), start, vs, i);
    WordLeads(l, e.thunks, c.thunksBefore, c.actual, patch, TargetOffset(l, targets, patch), insn);
  }

  lemma OffsetAfterDelta(l: Linker, r: Reach, start: nat, vs: seq<Visited>, i: nat)
    requires i < |vs| && Ruled(l, r, start, vs)
    ensures OffsetOf(l, start, vs, i) >= l.isa.CodeDelta()
  {
    hide OffsetOf, PlanAt, Follows, AllModest, OnceEach, Linker.AllCompilable;
    CodeIsEven(l, start, vs, i);
  }

  /** Every thunk's code is in the finished file where it was reserved. */
  lemma ThunksInFile(l: Linker, tables: seq<uint8>, vs: seq<Visited>, ts: seq<seq<uint8>>, k: Linked)
    requires l.AllCompilable(vs) && tables != [] && Finished(l, LayoutOf(l, |tables|, vs, ts), vs, true, k)
    requires PlanEnd(l, LayoutOf(l, |tables|, vs, ts).code, vs, true).offset < WORD
    ensures forall t :: 0 <= t < |k.thunks| ==>
              ReadsAs(FileBytes(l, tables, vs, ts, true, k), k.thunks[t], l.thunk)
  {
    hide PlanEnd, PlanAt, LayoutOf, FileBytes, OffsetOf, WriteEnd, Linker.AllCompilable, TablesHeader, CodeHeader,
         ReadsAs;
    var start := LayoutOf(l, |tables|, vs, ts).code;
    EveryThunkIsWritten(l, k, start, vs);
    var pre := FileCodePart(l, tables, vs, ts, true, k);
    var out := WriteEnd(l, k, start, vs, true).out;
    forall t | 0 <= t < |k.thunks| ensures ReadsAs(pre + out, k.thunks[t], l.thunk) {
      ReadsBehind(pre, out, k.thunks[t] - start, l.thunk);
    }
  }

  lemma ReadsBehind(pre: seq<uint8>, out: seq<uint8>, at: nat, data: seq<uint8>)
    requires ReadsAs(out, at, data)
    ensures ReadsAs(pre + out, |pre| + at, data)
  {
    assert (pre + out)[|pre| + at..|pre| + at + |data|] == out[at..at + |data|];
  }

  /** The word that patching computes for a call is in the finished file at the call's place. */
  lemma CallWordInFile(l: Linker, tables: seq<uint8>, vs: seq<Visited>, ts: seq<seq<uint8>>, k: Linked, i: nat, n: nat)
      returns (insn: uint32)
    requires l.AllCompilable(vs) && tables != [] && Finished(l, LayoutOf(l, |tables|, vs, ts), vs, true, k)
    requires PlanEnd(l, LayoutOf(l, |tables|, vs, ts).code, vs, true).offset < WORD
    requires i < |vs| && n < |vs[i].compiled.patches| && k.Covers(|vs|) && k.offsets[i] >= l.isa.CodeDelta()
    requires forall m :: n < m < |vs[i].compiled.patches| ==>
                           Apart(vs[i].compiled.patches[n], vs[i].compiled.patches[m])
    ensures var file, patch := FileBytes(l, tables, vs, ts, true, k), vs[i].compiled.patches[n];
            var at := k.offsets[i] - l.isa.CodeDelta();
            at + patch.literalOffset + 4 <= |file| &&
            WordAt(file, at + patch.literalOffset) == PatchWord(l, k.targets, patch, at, insn)
  {
    hide PlanEnd, PlanAt, LayoutOf, FileBytes, Finished, PatchWord, Patched, TableReadsBack, DecodeHeader, WordAt;
    FileReadsBack(l, tables, vs, ts, true, k, i);
    var m := vs[i].compiled;
    var at := k.offsets[i] - l.isa.CodeDelta();
    insn := PatchLands(l, k.targets, l.Code(m), m.patches, at, n);
    WordOfSlice(FileBytes(l, tables, vs, ts, true, k), at, PatchedCode(l, k.targets, m, at), m.patches[n].literalOffset,
                PatchWord(l, k.targets, m.patches[n], at, insn));
  }

  lemma OffsetRecorded(l: Linker, k: Linked, lay: Layout, vs: seq<Visited>, i: nat)
    requires Finished(l, lay, vs, true, k) && i < |vs|
    ensures k.Covers(|vs|) && k.offsets[i] == OffsetOf(l, lay.code, vs, i)
    ensures k.targets == End(l, lay.code, vs).targets && k.thunks == End(l, lay.code, vs).thunks
  {
    hide PlanEnd, OffsetOf, CodeHeader, TablesHeader;
  }

  /**
   * In the finished file the instruction of every relative call, at its place in the code of every method
   * that makes it, branches to its callee's first byte or to a thunk, if the call is checked when thunks
   * are reserved, or near its callee or the thunk before it.
   */
  lemma CallInFileLeads(l: Linker, tables: seq<uint8>, vs: seq<Visited>, ts: seq<seq<uint8>>, k: Linked, i: nat, n: nat)
      returns (j: nat)
    requires l.AllCompilable(vs) && tables != [] && Finished(l, LayoutOf(l, |tables|, vs, ts), vs, true, k)
    requires HasThunks(l.isa) && Ruled(l, ReachOf(l.isa), LayoutOf(l, |tables|, vs, ts).code, vs)
    requires PlanEnd(l, LayoutOf(l, |tables|, vs, ts).code, vs, true).offset < HALF_WORD && EncodesCalls(l, k.thunks)
    requires IsRelative(vs, i, n) && CallFits(l, k.targets, vs[i].compiled.patches[n])
    requires forall m :: n < m < |vs[i].compiled.patches| ==>
                           Apart(vs[i].compiled.patches[n], vs[i].compiled.patches[m])
    ensures Serves(l, LayoutOf(l, |tables|, vs, ts).code, vs, i, j)
    ensures n < |vs[j].compiled.patches|
    ensures Checked(l, LayoutOf(l, |tables|, vs, ts).code, vs, j, n) ==>
              var file, patch := FileBytes(l, tables, vs, ts, true, k), vs[i].compiled.patches[n];
              var from := k.offsets[i] - l.isa.CodeDelta() + patch.literalOffset;
              0 <= from && from + 4 <= |file| &&
              Leads(k.thunks, Goal(l, k.targets, patch), from + Branch(l.isa, WordAt(file, from)))
  {
    hide PlanAt, PlanEnd, LayoutOf, FileBytes, OffsetOf, Ruled, EncodesCalls, Checked, Branch, Leads, Finished, Goal,
         Serves, CallFits, End, IsCall, PatchWord, WordAt, Linker.AllCompilable, TargetOffset;
    var start := LayoutOf(l, |tables|, vs, ts).code;
    j := EveryMethodIsServed(l, start, vs, i);
    ServedCall(l, start, vs, i, j, n);
    OffsetRecorded(l, k, LayoutOf(l, |tables|, vs, ts), vs, i);
    OffsetAfterDelta(l, ReachOf(l.isa), start, vs, i);
    EndIsPlanEnd(l, start, vs);
    var insn := CallWordInFile(l, tables, vs, ts, k, i, n);
    if Checked(l, start, vs, j, n) {
      PatchedWordLeads(l, start, vs, k.targets, j, n, insn);
    }
  }

  lemma EndIsPlanEnd(l: Linker, start: nat, vs: seq<Visited>)
    ensures End(l, start, vs) == PlanEnd(l, start, vs, true)
  {
  }

  lemma SamePatches(m: CompiledMethod, n: CompiledMethod)
    requires KeyOf(m) == KeyOf(n)
    ensures m.patches == n.patches
  {
    assert m.patches == KeyOf(m).patches && n.patches == KeyOf(n).patches;
  }

  lemma ServedCall(l: Linker, start: nat, vs: seq<Visited>, i: nat, j: nat, n: nat)
    requires Serves(l, start, vs, i, j) && IsRelative(vs, i, n)
    ensures j < |vs| && vs[j].compiled.patches == vs[i].compiled.patches && IsCall(l, start, vs, j, n)
    ensures OffsetOf(l, start, vs, i) == OffsetOf(l, start, vs, j)
  {
    hide Duplicate, OffsetOf;
    SamePatches(vs[i].compiled, vs[j].compiled);
  }

  lemma WordOfSlice(file: seq<uint8>, at: nat, code: seq<uint8>, o: nat, word: uint32)
    requires at + |code| <= |file| && file[at..at + |code|] == code && o + 4 <= |code| && code[o..o + 4] == Le32(word)
    ensures WordAt(file, at + o) == word
  {
    hide Le32, FromLe32;
    var slice := file[at..at + |code|];
    forall b: nat | o <= b < o + 4 ensures file[at + b] == code[b] {
      assert slice[b] == file[at + b];
    }
    assert file[at + o..at + o + 4] == code[o..o + 4];
    Le32RoundTrip(word);
  }

  /** A callee with code meets what is checked of it. */
  lemma CodeGoalFits(l: Linker, start: nat, vs: seq<Visited>, patch: LinkerPatch)
    requires HasThunks(l.isa) && Ruled(l, ReachOf(l.isa), start, vs) && HasCode(vs, RefOf(patch))
    requires End(l, start, vs).offset < HALF_WORD && patch.literalOffset % Unit(l.isa) == 0
    ensures CallFits(l, End(l, start, vs).targets, patch)
  {
    hide PlanAt, Ruled, OffsetOf, Reserve, ReserveThunks, Linker.AllCompilable, AllPending, Goal;
    var e := End(l, start, vs);
    var j := FirstExists(vs, |vs|, RefOf(patch));
    TargetsAreDefinitions(l, start, vs, |vs|, RefOf(patch), j);
    RuledCompilable(l, ReachOf(l.isa), start, vs);
    GoalIsCode(l, start, vs, patch);
    CodeIsAligned(l, start, vs, j);
    FourIsEven(l.isa, CodeOf(l, e, RefOf(patch)));
    QueuePending(l, ReachOf(l.isa), start, vs, |vs|);
  }

  lemma CodeIsAligned(l: Linker, start: nat, vs: seq<Visited>, q: nat)
    requires q < |vs| && l.AllCompilable(vs)
    ensures OffsetOf(l, start, vs, q) >= l.isa.CodeDelta() && (OffsetOf(l, start, vs, q) - l.isa.CodeDelta()) % 4 == 0
  {
    hide PlanAt, Visit, CodeStart, Linker.Align, Linker.AllCompilable;
    var j := EveryMethodIsServed(l, start, vs, q);
    CodeStartAligned(l, PlanAt(l, start, vs, j));
  }

  lemma {:induction false} FirstExists(vs: seq<Visited>, k: nat, ref: MethodRef) returns (j: nat)
    requires k <= |vs| && exists i :: 0 <= i < k && vs[i].ref == ref
    ensures FirstDefinition(vs, ref, j)
  {
    if exists i :: 0 <= i < k - 1 && vs[i].ref == ref {
      j := FirstExists(vs, k - 1, ref);
    } else {
      j := k - 1;
    }
  }

  // ---------------------------------------------------------------- such linkers exist

  function WithRelative(l: Linker, relative: (LinkerPatch, nat, nat, nat) -> nat): Linker {
    l.(relative := relative)
  }

  /** Changing how calls are encoded changes neither plans nor decisions. */
  lemma SameFollowing(l: Linker, m: Linker, r: Reach, start: nat, vs: seq<Visited>)
    requires SameShape(l, m) && m.needsThunk == l.needsThunk && Follows(l, r, start, vs)
    ensures Follows(m, r, start, vs) && End(m, start, vs) == End(l, start, vs)
  {
    hide PlanAt, QueueAt, FollowsAt, DecideEnd, SameShape, IsDuplicate;
    forall k | 0 <= k <= |vs|
      ensures PlanAt(m, start, vs, k) == PlanAt(l, start, vs, k) &&
              QueueAt(m, r, start, vs, k) == QueueAt(l, r, start, vs, k)
      ensures k < |vs| ==> FollowsAt(m, r, PlanAt(m, start, vs, k), QueueAt(m, r, start, vs, k), vs[k])
    {
      SamePlans(l, m, r, start, vs, k);
      if k < |vs| {
        SameFollows(l, m, r, PlanAt(l, start, vs, k), QueueAt(l, r, start, vs, k), vs[k]);
      }
    }
    var p := PlanAt(l, start, vs, |vs|);
    EndSame(l, m, r, p, QueueAt(l, r, start, vs, |vs|));
    SameReserve(l, m, p);
  }

  lemma SameReserve(l: Linker, m: Linker, p: Plan)
    requires SameShape(l, m) && m.needsThunk == l.needsThunk
    ensures Reserve(m, p) == Reserve(l, p) && ReserveThunks(m, p) == ReserveThunks(l, p)
  {
    hide Linker.Align;
    SameAlign(l, m, p.offset);
    SameAlign(l, m, l.Align(p.offset) + |l.thunk|);
  }

  /** The relative call words of a patcher with these thunks. */
  function Encoder(isa: Isa, thunks: seq<nat>): (LinkerPatch, nat, nat, nat) -> nat
    requires HasThunks(isa)
  {
    (patch: LinkerPatch, at: nat, target: nat, insn: nat) =>
      match CalculateDisplacement(ReachOf(isa), thunks, Passed(thunks, at), at, target / 2 * 2)
      case None => 0
      case Some(d) => CallWord(isa, d)
  }

  lemma EncoderEncodes(l: Linker, thunks: seq<nat>)
    requires HasThunks(l.isa)
    ensures EncodesCalls(WithRelative(l, Encoder(l.isa, thunks)), thunks)
  {
    hide CalculateDisplacement, CallWord, Passed, ReachOf;
  }

  /** For every list of methods there is a linker that decides and encodes as the patcher does. */
  lemma PatcherExists(l: Linker, start: nat, vs: seq<Visited>) returns (m: Linker)
    requires HasThunks(l.isa)
    ensures SameShape(l, m) && Follows(m, ReachOf(l.isa), start, vs) && EncodesCalls(m, End(m, start, vs).thunks)
  {
    hide End, Follows, Encoder, EncodesCalls, ReachOf;
    var rule := RuleExists(l, ReachOf(l.isa), start, vs);
    var ruled := WithRule(l, rule);
    m := WithRelative(ruled, Encoder(l.isa, End(ruled, start, vs).thunks));
    SameFollowing(ruled, m, ReachOf(l.isa), start, vs);
    EncoderEncodes(ruled, End(ruled, start, vs).thunks);
  }
}
