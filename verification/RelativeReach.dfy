/**
 * Where patched relative calls go: the displacement the ARM relative patcher computes while code is
 * written, and which calls it brings to their target or to a thunk.
 */
module RelativeReach {
  import opened Arith
  import opened Words
  import opened SafeMap
  import opened CompiledMethods
  import opened OatTypes
  import opened OatCode
  import opened RelativeCalls

  const THUMB2_REACH := Reach(0x100_0000 - 2 + 4, 0x100_0000 - 4)
  const ARM64_REACH := Reach(0x800_0000 - 4, 0x800_0000)

  const HALF_WORD: nat := 0x8000_0000

  predicate Encodable(r: Reach) {
    0 < r.negative && r.positive + r.negative < HALF_WORD
  }

  /**
   * The displacement of a call at `from`, in unsigned arithmetic: to its target, else to the next
   * thunk, else to the one before. `next` counts the thunks that are written already.
   */
  function CalculateDisplacement(r: Reach, thunks: seq<nat>, next: nat, from: nat, to: nat): Option<uint32>
    requires next <= |thunks|
  {
    var displacement := U32(to - from);
    if displacement > r.positive && displacement < U32(0 - r.negative) then
      if next < |thunks| && U32(thunks[next] - from) < r.positive then Some(U32(thunks[next] - from))
      else if next == 0 then None
      else Some(U32(thunks[next - 1] - from))
    else Some(displacement)
  }

  /** The displacement can be encoded and leads to the target or to a thunk. */
  predicate Reaches(r: Reach, thunks: seq<nat>, next: nat, from: nat, to: nat) {
    next <= |thunks| &&
    match CalculateDisplacement(r, thunks, next, from, to)
    case None => false
    case Some(d) =>
      var at := from + Signed32(d);
      InRange(r, from, at) && (at == to || exists i :: 0 <= i < |thunks| && at == thunks[i])
  }

  /** Written thunks lie before the call, the others after it. */
  predicate Between(thunks: seq<nat>, next: nat, from: nat) {
    next <= |thunks| && (next > 0 ==> thunks[next - 1] < from) &&
    (next < |thunks| ==> from < thunks[next] < HALF_WORD)
  }

  lemma SignedDistance(from: nat, to: nat)
    requires from < HALF_WORD && to < HALF_WORD
    ensures Signed32(U32(to - from)) == to - from
  {
  }

  lemma DistanceInRange(r: Reach, from: nat, to: nat)
    requires from < HALF_WORD && to < HALF_WORD && Encodable(r)
    ensures InRange(r, from, to) <==> !(U32(to - from) > r.positive && U32(to - from) < U32(0 - r.negative))
  {
  }

  lemma ReachesIff(r: Reach, thunks: seq<nat>, next: nat, from: nat, to: nat)
    requires Encodable(r) && from < HALF_WORD && to < HALF_WORD && Between(thunks, next, from)
    ensures Reaches(r, thunks, next, from, to) <==>
            InRange(r, from, to) ||
            (next < |thunks| && thunks[next] - from < r.positive) ||
            (next > 0 && from - thunks[next - 1] <= r.negative)
  {
    hide U32, Signed32;
    SignedDistance(from, to);
    DistanceInRange(r, from, to);
    if next < |thunks| {
      SignedDistance(from, thunks[next]);
      assert U32(thunks[next] - from) == thunks[next] - from;
    }
    if next > 0 {
      SignedDistance(from, thunks[next - 1]);
    }
  }

  // ---------------------------------------------------------------- a call and its thunks

  lemma ThunksAround(l: Linker, p: Plan, v: Visited, patch: LinkerPatch)
    requires Below(l, p) && !IsDuplicate(l, p, v.compiled) && l.Compilable(v.compiled) && patch in v.compiled.patches
    ensures var c, n := CallOf(l, p, patch), Visit(l, p, v);
            n.thunks == ReserveThunks(l, p) && c.thunksBefore == |n.thunks| && c.actual < n.offset &&
            (c.thunksBefore > 0 ==> n.thunks[c.thunksBefore - 1] < c.actual)
  {
    hide Linker.Align, Linker.Code, IsDuplicate;
    assert |l.Code(v.compiled)| >= patch.literalOffset + 4;
  }

  predicate AllBelow(thunks: seq<nat>, offset: nat) {
    forall t :: 0 <= t < |thunks| ==> thunks[t] <= offset
  }

  lemma ThunksBelowStep(l: Linker, p: Plan)
    requires AllBelow(p.thunks, p.offset)
    ensures AllBelow(ReserveThunks(l, p), Reserve(l, p))
  {
    hide Linker.Align;
  }

  lemma {:induction false} ThunksBelow(l: Linker, start: nat, vs: seq<Visited>, k: nat)
    requires k <= |vs|
    ensures AllBelow(PlanAt(l, start, vs, k).thunks, PlanAt(l, start, vs, k).offset)
  {
    hide Linker.Align, Reserve, ReserveThunks, IsDuplicate;
    if k > 0 {
      ThunksBelow(l, start, vs, k - 1);
      ThunksBelowStep(l, PlanAt(l, start, vs, k - 1));
      CodeStartIs(l, PlanAt(l, start, vs, k - 1));
    }
  }

  lemma ThunksBelowEnd(l: Linker, start: nat, vs: seq<Visited>)
    ensures AllBelow(End(l, start, vs).thunks, End(l, start, vs).offset)
  {
    hide PlanAt, Reserve, ReserveThunks;
    ThunksBelow(l, start, vs, |vs|);
    ThunksBelowStep(l, PlanAt(l, start, vs, |vs|));
  }

  lemma ThunksGrow(l: Linker, start: nat, vs: seq<Visited>, k: nat)
    requires k <= |vs|
    ensures PlanAt(l, start, vs, k).thunks <= End(l, start, vs).thunks
    ensures PlanAt(l, start, vs, k).offset <= End(l, start, vs).offset
  {
    hide PlanAt, Reserve, Linker.Align;
    PlanGrows(l, start, vs, k, |vs|);
  }

  /** In the end a call still has its thunk before it, and every thunk after that lies behind it. */
  lemma CallBetweenThunks(l: Linker, r: Reach, start: nat, vs: seq<Visited>, i: nat, n: nat)
    requires IsCall(l, start, vs, i, n) && Ruled(l, r, start, vs) && End(l, start, vs).offset < HALF_WORD
    ensures var c := CallAt(l, start, vs, i, n);
            Between(End(l, start, vs).thunks, c.thunksBefore, c.actual) && c.actual < HALF_WORD
  {
    hide *;
    IsNewCall(l, start, vs, i, n);
    var p, e, c := PlanAt(l, start, vs, i), End(l, start, vs), CallAt(l, start, vs, i, n);
    QueuePending(l, r, start, vs, i);
    RuledAt(l, r, start, vs, i);
    StepIs(l, r, start, vs, i + 1);
    ThunksAround(l, p, vs[i], vs[i].compiled.patches[n]);
    ThunksGrow(l, start, vs, i + 1);
    ThunksBelowEnd(l, start, vs);
    CallAtIs(l, start, vs, i, n);
    if c.thunksBefore < |e.thunks| {
      LaterThunksEnd(l, start, vs, true, i + 1, c.thunksBefore);
    }
    BetweenIs(e.thunks, e.offset, Visit(l, p, vs[i]).thunks, Visit(l, p, vs[i]).offset, c.actual);
  }

  lemma CallAtIs(l: Linker, start: nat, vs: seq<Visited>, i: nat, n: nat)
    requires i < |vs| && n < |vs[i].compiled.patches|
    ensures CallAt(l, start, vs, i, n) == CallOf(l, PlanAt(l, start, vs, i), vs[i].compiled.patches[n])
    ensures End(l, start, vs) == PlanEnd(l, start, vs, true)
  {
  }

  lemma BetweenIs(thunks: seq<nat>, end: nat, before: seq<nat>, offset: nat, from: nat)
    requires before <= thunks && AllBelow(thunks, end) && offset <= end < HALF_WORD && from < offset
    requires |before| > 0 ==> before[|before| - 1] < from
    requires |before| < |thunks| ==> thunks[|before|] >= offset
    ensures Between(thunks, |before|, from) && from < HALF_WORD
  {
  }

  // ---------------------------------------------------------------- where calls go

  /** The first byte a patch is to call: its entry point without the mode bit. */
  function Goal(l: Linker, targets: map<MethodRef, nat>, patch: LinkerPatch): nat {
    TargetOffset(l, targets, patch) / 2 * 2
  }

  function RefOf(patch: LinkerPatch): MethodRef {
    MethodRef(patch.targetDexFile, patch.cmp1)
  }

  lemma {:induction false} TargetsAreEven(l: Linker, start: nat, vs: seq<Visited>, k: nat, ref: MethodRef)
    requires k <= |vs| && l.AllCompilable(vs) && ref in PlanAt(l, start, vs, k).targets
    ensures CodeOf(l, PlanAt(l, start, vs, k), ref) > 0 && CodeOf(l, PlanAt(l, start, vs, k), ref) % 2 == 0
  {
    hide CodeOffset, CodeStart, IsDuplicate, Linker.AllCompilable;
    if ref in PlanAt(l, start, vs, k - 1).targets {
      TargetsAreEven(l, start, vs, k - 1, ref);
    } else {
      CodeIsEven(l, start, vs, k - 1);
    }
  }

  /** A call of a method with code goes to its first byte. */
  lemma GoalIsCode(l: Linker, start: nat, vs: seq<Visited>, patch: LinkerPatch)
    requires l.AllCompilable(vs) && RefOf(patch) in End(l, start, vs).targets
    ensures Goal(l, End(l, start, vs).targets, patch) == CodeOf(l, End(l, start, vs), RefOf(patch))
  {
    hide PlanAt, Linker.AllCompilable, Reserve, ReserveThunks;
    TargetsAreEven(l, start, vs, |vs|, RefOf(patch));
    ClearModeBit(CodeOf(l, End(l, start, vs), RefOf(patch)), l.isa.CodeDelta());
  }

  lemma ClearModeBit(code: nat, bit: nat)
    requires code % 2 == 0 && bit <= 1
    ensures (code + bit) / 2 * 2 == code
  {
  }

  /**
   * The calls that the patcher's rule makes no sure arrangement for: no thunk follows, and the callee has
   * no code or lies behind; or the next thunk is just too far for the comparison that is made.
   */
  predicate Unchecked(l: Linker, r: Reach, e: Plan, c: RelativeCall) {
    (c.thunksBefore == |e.thunks| && !(c.target in e.targets && CodeOf(l, e, c.target) >= c.actual)) ||
    JustMissed(r, e.thunks, c)
  }

  /** Where a relative call goes when code is written. */
  predicate CallReaches(l: Linker, r: Reach, start: nat, vs: seq<Visited>, i: nat, n: nat)
    requires i < |vs| && n < |vs[i].compiled.patches|
  {
    var c, e := CallAt(l, start, vs, i, n), End(l, start, vs);
    Reaches(r, e.thunks, c.thunksBefore, c.actual, Goal(l, e.targets, vs[i].compiled.patches[n]))
  }

  /** Its target, or the thunk before it, is near. */
  predicate Near(l: Linker, r: Reach, start: nat, vs: seq<Visited>, i: nat, n: nat)
    requires i < |vs| && n < |vs[i].compiled.patches|
  {
    var c, e := CallAt(l, start, vs, i, n), End(l, start, vs);
    InRange(r, c.actual, Goal(l, e.targets, vs[i].compiled.patches[n])) || Behind(r, e.thunks, c)
  }

  lemma SettledReaches(l: Linker, r: Reach, e: Plan, c: RelativeCall, goal: nat)
    requires Encodable(r) && Between(e.thunks, c.thunksBefore, c.actual) && c.actual < HALF_WORD && goal < HALF_WORD
    requires c.target in e.targets ==> goal == CodeOf(l, e, c.target)
    ensures Reaches(r, e.thunks, c.thunksBefore, c.actual, goal) <==>
            InRange(r, c.actual, goal) || Behind(r, e.thunks, c) || Ahead(r, e.thunks, c)
    ensures Settles(l, r, e, c) && !JustMissed(r, e.thunks, c) ==> Reaches(r, e.thunks, c.thunksBefore, c.actual, goal)
  {
    ReachesIff(r, e.thunks, c.thunksBefore, c.actual, goal);
  }

  /** A call that is not left over reaches, unless its next thunk is just missed and nothing else is near. */
  lemma SettledCallReachesIff(l: Linker, r: Reach, start: nat, vs: seq<Visited>, i: nat, n: nat)
    requires IsCall(l, start, vs, i, n) && Ruled(l, r, start, vs) && Encodable(r)
    requires End(l, start, vs).offset < HALF_WORD
    requires Goal(l, End(l, start, vs).targets, vs[i].compiled.patches[n]) < HALF_WORD
    ensures var c := CallAt(l, start, vs, i, n);
            CallReaches(l, r, start, vs, i, n) <==>
            (Leftover(l, r, start, vs, c) || JustMissed(r, End(l, start, vs).thunks, c) ==> Near(l, r, start, vs, i, n))
  {
    hide PlanEnd, PlanAt, QueueAt, Reaches, Ruled, End, EndOutcome, CallOf, Goal, TargetOffset, Settles, Encodable;
    var c, e := CallAt(l, start, vs, i, n), End(l, start, vs);
    CallBetweenThunks(l, r, start, vs, i, n);
    EveryCallEnds(l, r, start, vs, i, n);
    var goal := Goal(l, e.targets, vs[i].compiled.patches[n]);
    CallGoal(l, r, start, vs, i, n);
    SettledReaches(l, r, e, c, goal);
  }

  /**
   * When the patcher's rule decides about thunks, a relative call reaches its target or a thunk,
   * unless it is unchecked; such a call reaches exactly when its target or the thunk before it
   * happens to be near.
   */
  lemma CallReachesIff(l: Linker, r: Reach, start: nat, vs: seq<Visited>, i: nat, n: nat)
    requires IsCall(l, start, vs, i, n) && Ruled(l, r, start, vs) && Encodable(r)
    requires End(l, start, vs).offset < HALF_WORD
    requires Goal(l, End(l, start, vs).targets, vs[i].compiled.patches[n]) < HALF_WORD
    ensures CallReaches(l, r, start, vs, i, n) <==>
            (Unchecked(l, r, End(l, start, vs), CallAt(l, start, vs, i, n)) ==> Near(l, r, start, vs, i, n))
  {
    hide PlanEnd, PlanAt, QueueAt, Reaches, Ruled, End, EndOutcome, CallOf, Goal, TargetOffset, Settles, Encodable,
         Leftover;
    var c, e := CallAt(l, start, vs, i, n), End(l, start, vs);
    CallBetweenThunks(l, r, start, vs, i, n);
    EveryCallEnds(l, r, start, vs, i, n);
    CallGoal(l, r, start, vs, i, n);
    SettledReaches(l, r, e, c, Goal(l, e.targets, vs[i].compiled.patches[n]));
    SettledCallReachesIff(l, r, start, vs, i, n);
    if Leftover(l, r, start, vs, c) {
      LeftoverReachesAhead(l, r, start, vs, c);
    }
    UncheckedCases(l, r, e, c);
  }

  lemma UncheckedCases(l: Linker, r: Reach, e: Plan, c: RelativeCall)
    ensures Unchecked(l, r, e, c) ==> !Ahead(r, e.thunks, c)
    ensures Settles(l, r, e, c) && !Unchecked(l, r, e, c) ==> !JustMissed(r, e.thunks, c)
  {
  }

  /** A call that is left over reaches everything that lies after it. */
  lemma LeftoverReachesAhead(l: Linker, r: Reach, start: nat, vs: seq<Visited>, c: RelativeCall)
    requires Ruled(l, r, start, vs) && Leftover(l, r, start, vs, c)
    ensures var e := End(l, start, vs);
            c.target in e.targets && CodeOf(l, e, c.target) >= c.actual ==> InRange(r, c.actual, CodeOf(l, e, c.target))
  {
    hide Ruled, PlanAt, QueueAt, EndOutcome, DecideEnd, Leftover, End, Linker.Align;
    QueuePending(l, r, start, vs, |vs|);
    LeftoverIs(l, r, start, vs, c);
    EndIs(l, r, start, vs);
    var i :| 0 <= i < |QueueAt(l, r, start, vs, |vs|)| && QueueAt(l, r, start, vs, |vs|)[i] == c;
    assert Pending(l, r, PlanAt(l, start, vs, |vs|), c);
  }

  lemma CallGoal(l: Linker, r: Reach, start: nat, vs: seq<Visited>, i: nat, n: nat)
    requires i < |vs| && n < |vs[i].compiled.patches| && Ruled(l, r, start, vs)
    ensures var c, e := CallAt(l, start, vs, i, n), End(l, start, vs);
            c.target == RefOf(vs[i].compiled.patches[n]) &&
            (c.target in e.targets ==> Goal(l, e.targets, vs[i].compiled.patches[n]) == CodeOf(l, e, c.target))
  {
    hide PlanAt, End, CodeWithoutThunk, CodeStart, ReserveThunks, Goal, AllModest, OnceEach, Follows;
    if CallAt(l, start, vs, i, n).target in End(l, start, vs).targets {
      GoalIsCode(l, start, vs, vs[i].compiled.patches[n]);
    }
  }

  // ---------------------------------------------------------------- all calls

  predicate IsRelative(vs: seq<Visited>, i: nat, n: nat) {
    i < |vs| && n < |vs[i].compiled.patches| && vs[i].compiled.patches[n].patchType.CallRelative?
  }

  ghost predicate HasCode(vs: seq<Visited>, ref: MethodRef) {
    exists j :: 0 <= j < |vs| && vs[j].ref == ref
  }

  /** Every method that is called has code. */
  ghost predicate TargetsHaveCode(vs: seq<Visited>) {
    forall i: nat, n: nat :: IsRelative(vs, i, n) ==> HasCode(vs, RefOf(vs[i].compiled.patches[n]))
  }

  lemma {:induction false} HasCodeIsTarget(l: Linker, start: nat, vs: seq<Visited>, k: nat, j: nat)
    requires j < k <= |vs|
    ensures vs[j].ref in PlanAt(l, start, vs, k).targets
    decreases k
  {
    hide CodeOffset, CodeStart, IsDuplicate;
    if j < k - 1 {
      HasCodeIsTarget(l, start, vs, k - 1, j);
    }
  }

  /** Every call on the queue was made by a visited method. */
  lemma {:induction false} QueueOrigin(l: Linker, r: Reach, start: nat, vs: seq<Visited>, k: nat, c: RelativeCall)
      returns (i: nat, n: nat)
    requires k <= |vs| && Ruled(l, r, start, vs) && c in QueueAt(l, r, start, vs, k)
    ensures IsRelative(vs, i, n) && c.target == RefOf(vs[i].compiled.patches[n])
  {
    hide Ruled, QueueStep, PlanAt, Visit, CodeStart, CodeWithoutThunk, ReserveThunks, CallsOf;
    var p, q := PlanAt(l, start, vs, k - 1), QueueAt(l, r, start, vs, k - 1);
    QueuePending(l, r, start, vs, k - 1);
    QueueStepFrom(l, r, p, q, vs[k - 1], c);
    if c in q {
      i, n := QueueOrigin(l, r, start, vs, k - 1, c);
    } else {
      CallsOfAre(l, p, vs[k - 1].compiled.patches, c);
      i := k - 1;
      n :| 0 <= n < |vs[i].compiled.patches| && vs[i].compiled.patches[n].patchType.CallRelative? &&
           c == CallOf(l, p, vs[i].compiled.patches[n]);
    }
  }

  lemma QueueStepFrom(l: Linker, r: Reach, p: Plan, q: seq<RelativeCall>, v: Visited, c: RelativeCall)
    requires InOrder(q) && c in QueueStep(l, r, p, q, v)
    ensures c in q || c in CallsOf(l, p, v.compiled.patches)
  {
    DecideLeaves(l, r, p, q, v);
    hide Decide, CallsOf, InOrder, NextAligned;
  }

  /** What is left after the last method starts with a call of a method without code. */
  lemma {:induction false} ProcessStopsAt(l: Linker, r: Reach, p: Plan, q: seq<RelativeCall>, code: nat, next: nat)
    requires !Process(l, r, p, q, code, None, next).needsThunk && Process(l, r, p, q, code, None, next).rest != []
    ensures Process(l, r, p, q, code, None, next).rest[0] in q
    ensures Process(l, r, p, q, code, None, next).rest[0].target !in p.targets
    decreases |q|
  {
    if Judge(l, r, p, q[0], code, None).Settled? {
      ProcessStopsAt(l, r, p, q[1..], code, next);
    }
  }

  lemma NothingLeftOver(l: Linker, r: Reach, start: nat, vs: seq<Visited>, c: RelativeCall)
    requires Ruled(l, r, start, vs) && TargetsHaveCode(vs)
    ensures !Leftover(l, r, start, vs, c)
  {
    hide Process, Ruled, PlanAt, QueueAt, Linker.Align;
    if Leftover(l, r, start, vs, c) {
      var p, q := PlanAt(l, start, vs, |vs|), QueueAt(l, r, start, vs, |vs|);
      ProcessStopsAt(l, r, p, q, l.Align(p.offset), l.Align(p.offset));
      var first := EndOutcome(l, r, start, vs).rest[0];
      var i, n := QueueOrigin(l, r, start, vs, |vs|, first);
      var j :| 0 <= j < |vs| && vs[j].ref == first.target;
      HasCodeIsTarget(l, start, vs, |vs|, j);
    }
  }

  lemma GoalIsBelow(l: Linker, r: Reach, start: nat, vs: seq<Visited>, i: nat, n: nat)
    requires IsRelative(vs, i, n) && Ruled(l, r, start, vs) && TargetsHaveCode(vs)
    ensures Goal(l, End(l, start, vs).targets, vs[i].compiled.patches[n]) < End(l, start, vs).offset
  {
    hide Ruled, PlanAt, QueueAt, Goal, AllPending, Reserve, ReserveThunks;
    var patch := vs[i].compiled.patches[n];
    var j :| 0 <= j < |vs| && vs[j].ref == RefOf(patch);
    HasCodeIsTarget(l, start, vs, |vs|, j);
    QueuePending(l, r, start, vs, |vs|);
    RuledCompilable(l, r, start, vs);
    GoalIsCode(l, start, vs, patch);
  }

  lemma RuledCompilable(l: Linker, r: Reach, start: nat, vs: seq<Visited>)
    requires Ruled(l, r, start, vs)
    ensures l.AllCompilable(vs)
  {
  }

  /**
   * If every called method has code, then all relative calls reach their target or a thunk exactly
   * when each call whose next thunk is just as far as a call reaches is near something else.
   */
  lemma AllCallsReachIff(l: Linker, r: Reach, start: nat, vs: seq<Visited>)
    requires Ruled(l, r, start, vs) && Encodable(r) && TargetsHaveCode(vs) && End(l, start, vs).offset < HALF_WORD
    ensures (forall i: nat, n: nat :: IsCall(l, start, vs, i, n) ==> CallReaches(l, r, start, vs, i, n)) <==>
            (forall i: nat, n: nat ::
               IsCall(l, start, vs, i, n) && JustMissed(r, End(l, start, vs).thunks, CallAt(l, start, vs, i, n)) ==>
                 Near(l, r, start, vs, i, n))
  {
    hide Ruled, End, CallReaches, JustMissed, Near, Leftover, Encodable, TargetsHaveCode, Duplicate, Goal;
    forall i: nat, n: nat | IsCall(l, start, vs, i, n)
      ensures CallReaches(l, r, start, vs, i, n) <==>
              (JustMissed(r, End(l, start, vs).thunks, CallAt(l, start, vs, i, n)) ==> Near(l, r, start, vs, i, n))
    {
      NothingLeftOver(l, r, start, vs, CallAt(l, start, vs, i, n));
      GoalIsBelow(l, r, start, vs, i, n);
      SettledCallReachesIff(l, r, start, vs, i, n);
    }
  }

  // ---------------------------------------------------------------- what the writing pass knows

  /** When the code of a placed method is patched, its calls are where the plan put them, behind the same thunks. */
  lemma CallIsPatchedThere(l: Linker, k: Linked, start: nat, vs: seq<Visited>, i: nat, n: nat)
    requires IsCall(l, start, vs, i, n) && l.AllCompilable(vs) && Records(l, k, start, vs, true)
    ensures var w, c := WriteThunks(l, k.thunks, WriteAt(l, k, start, vs, i)), CallAt(l, start, vs, i, n);
            w.nextThunk == c.thunksBefore &&
            WriteAligned(l, w).offset + METHOD_HEADER_SIZE + vs[i].compiled.patches[n].literalOffset == c.actual
  {
    hide PlanAt, WriteAt, WriteThunks, ThunkHere, Linker.Align, Reserve, ReserveThunks, Linker.AllCompilable;
    InStepAt(l, k, start, vs, true, i);
    ThunkHereAt(l, start, vs, true, i);
    ThunksAgree(l, k.thunks, start, PlanAt(l, start, vs, i), WriteAt(l, k, start, vs, i));
  }
}
