/** An input on which calls that the patcher's rule leaves unchecked reach nothing. */
module RelativeLost {
  import opened Arith
  import opened Words
  import opened SafeMap
  import opened CompiledMethods
  import opened OatTypes
  import opened OatCode
  import opened RelativeCalls
  import opened RelativeReach
  import RelativeRule

  const FILLER: nat := 0x100_0000 - 60
  const CALLER_AT: nat := 0x100_0000 + 32

  /** The first call's callee has no code; the second one's lies 2^24 bytes before it. */
  const TO_TRAMPOLINE := LinkerPatch(2, CallRelative, 0, 9, 0)
  const TO_CALLEE := LinkerPatch(6, CallRelative, 0, 0, 0)

  const CALLEE := Visited(MethodRef(0, 0), CompiledMethod(1, 0, 0, 0, [], 0, 0, 0, None))
  const BETWEEN := Visited(MethodRef(0, 1), CompiledMethod(2, 0, 0, 0, [], 0, 0, 0, None))
  const CALLER := Visited(MethodRef(0, 2), CompiledMethod(3, 0, 0, 0, [TO_TRAMPOLINE, TO_CALLEE], 0, 0, 0, None))

  /** A trampoline at offset 8, which Thumb code enters at 9; code begins at 16. */
  function LostLinker(): Linker {
    Linker(Thumb2, false, false, map[1 := Zeros(16), 2 := Zeros(FILLER), 3 := Zeros(12)], Zeros(8), _ => false, 0,
           _ => 9, _ => 0, (_, _, _, _) => 0)
  }

  function LostVisits(): (vs: seq<Visited>)
    ensures |vs| == 3
  {
    [CALLEE, BETWEEN, CALLER]
  }

  function AfterCallee(): Plan {
    Plan(60, map[KeyOf(CALLEE.compiled) := 45], [], 1, map[CALLEE.ref := 45])
  }

  function AfterBetween(): Plan {
    Plan(CALLER_AT, AfterCallee().dedupe[KeyOf(BETWEEN.compiled) := 93], [], 2,
         AfterCallee().targets[BETWEEN.ref := 93])
  }

  function AfterCaller(): Plan {
    Plan(CALLER_AT + 40, AfterBetween().dedupe[KeyOf(CALLER.compiled) := CALLER_AT + 29], [], 3,
         AfterBetween().targets[CALLER.ref := CALLER_AT + 29])
  }

  lemma LostAlign(x: nat, y: nat)
    requires x <= y < x + 8 && y % 8 == 0
    ensures LostLinker().Align(x) == y
  {
    assert LostLinker().isa.Alignment() == 8;
  }

  lemma LostCode()
    ensures |LostLinker().Code(CALLEE.compiled)| == 16
    ensures |LostLinker().Code(BETWEEN.compiled)| == FILLER
    ensures |LostLinker().Code(CALLER.compiled)| == 12
  {
  }

  lemma LostVisit()
    ensures Visit(LostLinker(), Start(16), CALLEE) == AfterCallee()
    ensures Visit(LostLinker(), AfterCallee(), BETWEEN) == AfterBetween()
    ensures Visit(LostLinker(), AfterBetween(), CALLER) == AfterCaller()
  {
    hide Linker.Align, Linker.Code;
    LostCode();
    LostAlign(16, 16);
    LostAlign(60, 64);
    LostAlign(CALLER_AT, CALLER_AT);
  }

  lemma LostPlans()
    ensures PlanAt(LostLinker(), 16, LostVisits(), 0) == Start(16)
    ensures PlanAt(LostLinker(), 16, LostVisits(), 1) == AfterCallee()
    ensures PlanAt(LostLinker(), 16, LostVisits(), 2) == AfterBetween()
    ensures PlanAt(LostLinker(), 16, LostVisits(), 3) == AfterCaller()
  {
    hide Visit, LostLinker, AfterCaller, AfterBetween, AfterCallee;
    LostVisit();
    assert PlanAt(LostLinker(), 16, LostVisits(), 1) ==
             Visit(LostLinker(), PlanAt(LostLinker(), 16, LostVisits(), 0), CALLEE);
  }

  const FIRST := RelativeCall(MethodRef(0, 9), CALLER_AT + 30, CALLER_AT + 30, 0)
  const SECOND := RelativeCall(CALLEE.ref, CALLER_AT + 34, CALLER_AT + 34, 0)

  lemma LostCalls()
    ensures CallsOf(LostLinker(), AfterBetween(), CALLER.compiled.patches) == [FIRST, SECOND]
    ensures CallsOf(LostLinker(), Start(16), []) == [] && CallsOf(LostLinker(), AfterCallee(), []) == []
  {
    hide Linker.Align;
    LostAlign(CALLER_AT, CALLER_AT);
    RelativeRule.CallsOfOne(LostLinker(), AfterBetween(), TO_TRAMPOLINE);
    assert [TO_TRAMPOLINE, TO_CALLEE][..1] == [TO_TRAMPOLINE];
  }

  lemma LostSteps()
    ensures QueueStep(LostLinker(), THUMB2_REACH, Start(16), [], CALLEE) == []
    ensures QueueStep(LostLinker(), THUMB2_REACH, AfterCallee(), [], BETWEEN) == []
    ensures QueueStep(LostLinker(), THUMB2_REACH, AfterBetween(), [], CALLER) == [FIRST, SECOND]
    ensures FollowsAt(LostLinker(), THUMB2_REACH, Start(16), [], CALLEE)
    ensures FollowsAt(LostLinker(), THUMB2_REACH, AfterCallee(), [], BETWEEN)
    ensures FollowsAt(LostLinker(), THUMB2_REACH, AfterBetween(), [], CALLER)
    ensures !DecideEnd(LostLinker(), THUMB2_REACH, AfterCaller(), [FIRST, SECOND]).needsThunk
  {
    hide Linker.Align, Linker.Code, CallsOf;
    LostCalls();
    LostAlign(CALLER_AT + 40, CALLER_AT + 40);
  }

  lemma LostQueues()
    ensures QueueAt(LostLinker(), THUMB2_REACH, 16, LostVisits(), 0) == []
    ensures QueueAt(LostLinker(), THUMB2_REACH, 16, LostVisits(), 1) == []
    ensures QueueAt(LostLinker(), THUMB2_REACH, 16, LostVisits(), 2) == []
    ensures QueueAt(LostLinker(), THUMB2_REACH, 16, LostVisits(), 3) == [FIRST, SECOND]
  {
    hide QueueStep, PlanAt, LostLinker, AfterCallee, AfterBetween;
    LostPlans();
    LostSteps();
  }

  lemma LostIsRuled()
    ensures Ruled(LostLinker(), THUMB2_REACH, 16, LostVisits())
    ensures End(LostLinker(), 16, LostVisits()) == AfterCaller()
  {
    hide QueueStep, FollowsAt, DecideEnd, Visit, AfterCallee, AfterBetween, AllModest, Linker.AllCompilable, OnceEach;
    LostPlans();
    LostSteps();
    LostQueues();
    LostIsModest();
  }

  lemma LostIsModest()
    ensures LostLinker().AllCompilable(LostVisits()) && AllModest(LostLinker(), THUMB2_REACH, LostVisits())
    ensures OnceEach(LostVisits())
  {
    hide Linker.Code;
    LostCode();
  }

  lemma LostCallsAt()
    ensures CallAt(LostLinker(), 16, LostVisits(), 2, 0) == FIRST && IsCall(LostLinker(), 16, LostVisits(), 2, 0)
    ensures CallAt(LostLinker(), 16, LostVisits(), 2, 1) == SECOND && IsCall(LostLinker(), 16, LostVisits(), 2, 1)
  {
    hide Visit, Linker.Align;
    LostPlans();
    LostAlign(CALLER_AT, CALLER_AT);
  }

  lemma NothingIsNear()
    ensures !Reaches(THUMB2_REACH, [], 0, CALLER_AT + 30, 8) && !Reaches(THUMB2_REACH, [], 0, CALLER_AT + 34, 44)
  {
  }

  /**
   * Both kinds of unchecked calls: the trampoline for a callee without code is out of reach, and so is
   * the code of a callee that lies behind, because the rule stops at the first call it cannot settle.
   */
  lemma UncheckedCallsCounterexample()
    ensures var l, vs := LostLinker(), LostVisits();
            Ruled(l, THUMB2_REACH, 16, vs) && Encodable(THUMB2_REACH) && End(l, 16, vs).offset < HALF_WORD &&
            IsCall(l, 16, vs, 2, 0) && !HasCode(vs, RefOf(TO_TRAMPOLINE)) &&
            !CallReaches(l, THUMB2_REACH, 16, vs, 2, 0) &&
            IsCall(l, 16, vs, 2, 1) && HasCode(vs, RefOf(TO_CALLEE)) && !CallReaches(l, THUMB2_REACH, 16, vs, 2, 1)
  {
    hide Ruled, Reaches, Visit, PlanAt, CallOf;
    LostIsRuled();
    LostCallsAt();
    NothingIsNear();
    assert LostVisits()[0].ref == RefOf(TO_CALLEE);
    assert Goal(LostLinker(), AfterCaller().targets, TO_TRAMPOLINE) == 8;
    assert Goal(LostLinker(), AfterCaller().targets, TO_CALLEE) == 44;
  }
}
