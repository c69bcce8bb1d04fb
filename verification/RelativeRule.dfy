/** The patcher's rule can always be followed, and an input on which it leaves a call out of reach. */
module RelativeRule {
  import opened Arith
  import opened Words
  import opened SafeMap
  import opened CompiledMethods
  import opened OatTypes
  import opened OatCode
  import opened RelativeCalls
  import opened RelativeReach

  function WithRule(l: Linker, rule: nat -> bool): Linker {
    l.(needsThunk := rule)
  }

  /** The linkers place code alike, apart from thunks. */
  predicate SameShape(l: Linker, m: Linker) {
    l.isa == m.isa && l.debuggable == m.debuggable && l.vectors == m.vectors && l.thunk == m.thunk
  }

  lemma SameAlign(l: Linker, m: Linker, offset: nat)
    requires SameShape(l, m)
    ensures m.Align(offset) == l.Align(offset)
  {
  }

  lemma SameVisit(l: Linker, m: Linker, p: Plan, v: Visited)
    requires SameShape(l, m)
    requires IsDuplicate(l, p, v.compiled) || m.needsThunk(p.placed) == l.needsThunk(p.placed)
    ensures IsDuplicate(m, p, v.compiled) == IsDuplicate(l, p, v.compiled)
    ensures Visit(m, p, v) == Visit(l, p, v)
  {
    hide Linker.Align;
    SameAlign(l, m, p.offset);
    SameAlign(l, m, l.Align(p.offset) + |l.thunk|);
    SameAlign(l, m, Reserve(l, p));
  }

  lemma SameCall(l: Linker, m: Linker, p: Plan, patch: LinkerPatch)
    requires SameShape(l, m)
    requires m.needsThunk(p.placed) == l.needsThunk(p.placed)
    ensures CallOf(m, p, patch) == CallOf(l, p, patch)
  {
    hide Linker.Align;
    SameAlign(l, m, p.offset);
    SameAlign(l, m, l.Align(p.offset) + |l.thunk|);
    SameAlign(l, m, Reserve(l, p));
  }

  lemma {:induction false} SameCalls(l: Linker, m: Linker, p: Plan, patches: seq<LinkerPatch>)
    requires SameShape(l, m)
    requires m.needsThunk(p.placed) == l.needsThunk(p.placed)
    ensures CallsOf(m, p, patches) == CallsOf(l, p, patches)
  {
    hide CallOf;
    if patches != [] {
      SameCalls(l, m, p, patches[..|patches| - 1]);
      SameCall(l, m, p, patches[|patches| - 1]);
    }
  }

  lemma {:induction false} SameProcess(l: Linker, m: Linker, r: Reach, p: Plan, q: seq<RelativeCall>, code: nat,
                                       ref: Option<MethodRef>, next: nat)
    requires SameShape(l, m)
    ensures Process(m, r, p, q, code, ref, next) == Process(l, r, p, q, code, ref, next)
    decreases |q|
  {
    if q != [] {
      assert Judge(m, r, p, q[0], code, ref) == Judge(l, r, p, q[0], code, ref);
      hide Judge;
      SameProcess(l, m, r, p, q[1..], code, ref, next);
    }
  }

  lemma SameDecisions(l: Linker, m: Linker, r: Reach, p: Plan, q: seq<RelativeCall>, v: Visited)
    requires SameShape(l, m)
    ensures Decide(m, r, p, q, v) == Decide(l, r, p, q, v)
    ensures DecideEnd(m, r, p, q) == DecideEnd(l, r, p, q)
  {
    hide Linker.Align, Process;
    SameAlign(l, m, p.offset);
    SameAlign(l, m, CodeWithoutThunk(l, p) + |l.Code(v.compiled)|);
    SameProcess(l, m, r, p, q, CodeWithoutThunk(l, p), Some(v.ref), NextAligned(l, p, v.compiled));
    SameProcess(l, m, r, p, q, l.Align(p.offset), None, l.Align(p.offset));
  }

  lemma SameQueueStep(l: Linker, m: Linker, r: Reach, p: Plan, q: seq<RelativeCall>, v: Visited)
    requires SameShape(l, m)
    requires IsDuplicate(l, p, v.compiled) || m.needsThunk(p.placed) == l.needsThunk(p.placed)
    ensures QueueStep(m, r, p, q, v) == QueueStep(l, r, p, q, v)
  {
    hide Decide, CallsOf, DecideEnd, Visit;
    SameVisit(l, m, p, v);
    SameDecisions(l, m, r, p, q, v);
    if !IsDuplicate(l, p, v.compiled) {
      SameCalls(l, m, p, v.compiled.patches);
    }
  }

  predicate Agree(a: nat -> bool, b: nat -> bool, n: nat) {
    forall m: nat :: m < n ==> a(m) == b(m)
  }

  lemma PlacedGrows(l: Linker, p: Plan, v: Visited)
    ensures Visit(l, p, v).placed >= p.placed
    ensures !IsDuplicate(l, p, v.compiled) ==> Visit(l, p, v).placed > p.placed
  {
    hide CodeStart, ReserveThunks, CodeOffset, IsDuplicate;
  }

  /** Plans and queues depend only on the decisions for methods placed before. */
  lemma {:induction false} SamePlans(l: Linker, m: Linker, r: Reach, start: nat, vs: seq<Visited>, k: nat)
    requires SameShape(l, m)
    requires k <= |vs| && Agree(m.needsThunk, l.needsThunk, PlanAt(l, start, vs, k).placed)
    ensures PlanAt(m, start, vs, k) == PlanAt(l, start, vs, k)
    ensures QueueAt(m, r, start, vs, k) == QueueAt(l, r, start, vs, k)
  {
    hide Visit, QueueStep, IsDuplicate, SameShape;
    if k > 0 {
      var p, q := PlanAt(l, start, vs, k - 1), QueueAt(l, r, start, vs, k - 1);
      PlacedGrows(l, p, vs[k - 1]);
      SamePlans(l, m, r, start, vs, k - 1);
      SameVisit(l, m, p, vs[k - 1]);
      SameQueueStep(l, m, r, p, q, vs[k - 1]);
    }
  }

  ghost predicate FollowsUpTo(l: Linker, r: Reach, start: nat, vs: seq<Visited>, k: nat)
    requires k <= |vs|
  {
    forall j :: 0 <= j < k ==> FollowsAt(l, r, PlanAt(l, start, vs, j), QueueAt(l, r, start, vs, j), vs[j])
  }

  function Updated(rule: nat -> bool, at: nat, value: bool): nat -> bool {
    (n: nat) => if n == at then value else rule(n)
  }

  lemma {:induction false} PlacedUpTo(l: Linker, start: nat, vs: seq<Visited>, i: nat, k: nat)
    requires i <= k <= |vs|
    ensures PlanAt(l, start, vs, i).placed <= PlanAt(l, start, vs, k).placed
    ensures i < k && !Duplicate(l, start, vs, i) ==> PlanAt(l, start, vs, i).placed < PlanAt(l, start, vs, k).placed
    decreases k
  {
    hide Visit, IsDuplicate;
    if i < k {
      PlacedUpTo(l, start, vs, i, k - 1);
      PlacedGrows(l, PlanAt(l, start, vs, k - 1), vs[k - 1]);
    }
  }

  /** A decision that is yet to come does not touch the ones that were made. */
  lemma UpdateKeepsFollowing(l: Linker, r: Reach, start: nat, vs: seq<Visited>, k: nat, value: bool)
    requires k <= |vs| && FollowsUpTo(l, r, start, vs, k)
    ensures var n := WithRule(l, Updated(l.needsThunk, PlanAt(l, start, vs, k).placed, value));
            FollowsUpTo(n, r, start, vs, k) && PlanAt(n, start, vs, k) == PlanAt(l, start, vs, k) &&
            QueueAt(n, r, start, vs, k) == QueueAt(l, r, start, vs, k)
  {
    hide PlanAt, QueueAt, IsDuplicate, Decide;
    var rule := Updated(l.needsThunk, PlanAt(l, start, vs, k).placed, value);
    var n := WithRule(l, rule);
    SamePlans(l, n, r, start, vs, k);
    forall j | 0 <= j < k
      ensures FollowsAt(n, r, PlanAt(n, start, vs, j), QueueAt(n, r, start, vs, j), vs[j])
    {
      var p, q := PlanAt(l, start, vs, j), QueueAt(l, r, start, vs, j);
      PlacedUpTo(l, start, vs, j, k);
      SamePlans(l, n, r, start, vs, j);
      assert FollowsAt(l, r, p, q, vs[j]);
      SameFollows(l, n, r, p, q, vs[j]);
    }
  }

  lemma SameFollows(l: Linker, m: Linker, r: Reach, p: Plan, q: seq<RelativeCall>, v: Visited)
    requires SameShape(l, m)
    requires FollowsAt(l, r, p, q, v)
    requires IsDuplicate(l, p, v.compiled) || m.needsThunk(p.placed) == l.needsThunk(p.placed)
    ensures FollowsAt(m, r, p, q, v)
  {
    hide Decide, DecideEnd, Visit, IsDuplicate;
    SameDecisions(l, m, r, p, q, v);
    SameVisit(l, m, p, v);
  }

  /** The next decision can be made as the patcher makes it. */
  lemma DecideNext(l: Linker, r: Reach, start: nat, vs: seq<Visited>, k: nat) returns (rule: nat -> bool)
    requires k < |vs| && FollowsUpTo(l, r, start, vs, k)
    ensures FollowsUpTo(WithRule(l, rule), r, start, vs, k + 1)
  {
    hide PlanAt, QueueAt, FollowsAt, Decide;
    var p, q := PlanAt(l, start, vs, k), QueueAt(l, r, start, vs, k);
    var value := Decide(l, r, p, q, vs[k]).needsThunk;
    rule := Updated(l.needsThunk, p.placed, value);
    UpdateKeepsFollowing(l, r, start, vs, k, value);
    DecidedFollows(l, r, p, q, vs[k], rule);
    assert FollowsAt(WithRule(l, rule), r, p, q, vs[k]);
  }

  lemma DecidedFollows(l: Linker, r: Reach, p: Plan, q: seq<RelativeCall>, v: Visited, rule: nat -> bool)
    requires rule(p.placed) == Decide(l, r, p, q, v).needsThunk
    ensures FollowsAt(WithRule(l, rule), r, p, q, v)
  {
    hide Decide, DecideEnd, IsDuplicate;
    SameDecisions(l, WithRule(l, rule), r, p, q, v);
  }

  lemma {:induction false} RuleUpTo(l: Linker, r: Reach, start: nat, vs: seq<Visited>, k: nat)
      returns (rule: nat -> bool)
    requires k <= |vs|
    ensures FollowsUpTo(WithRule(l, rule), r, start, vs, k)
  {
    hide FollowsAt, PlanAt, QueueAt;
    if k == 0 {
      rule := l.needsThunk;
    } else {
      var before := RuleUpTo(l, r, start, vs, k - 1);
      rule := DecideNext(WithRule(l, before), r, start, vs, k - 1);
      assert WithRule(WithRule(l, before), rule) == WithRule(l, rule);
    }
  }

  /** Whatever is visited, thunks can be reserved by the patcher's rule. */
  lemma RuleExists(l: Linker, r: Reach, start: nat, vs: seq<Visited>) returns (rule: nat -> bool)
    ensures Follows(WithRule(l, rule), r, start, vs)
  {
    hide PlanAt, QueueAt, FollowsAt, DecideEnd;
    var before := RuleUpTo(l, r, start, vs, |vs|);
    var m := WithRule(l, before);
    var p, q := PlanAt(m, start, vs, |vs|), QueueAt(m, r, start, vs, |vs|);
    var value := DecideEnd(m, r, p, q).needsThunk;
    rule := Updated(before, p.placed, value);
    UpdateKeepsFollowing(m, r, start, vs, |vs|, value);
    EndSame(m, WithRule(m, rule), r, p, q);
    assert WithRule(m, rule) == WithRule(l, rule);
  }

  lemma EndSame(l: Linker, m: Linker, r: Reach, p: Plan, q: seq<RelativeCall>)
    requires SameShape(l, m)
    ensures DecideEnd(m, r, p, q) == DecideEnd(l, r, p, q)
  {
    hide Process, Linker.Align;
    SameAlign(l, m, p.offset);
    SameProcess(l, m, r, p, q, l.Align(p.offset), None, l.Align(p.offset));
  }

  // ---------------------------------------------------------------- a thunk that is just missed

  const FILLER: nat := 0x100_0000 - 36
  const THUNK_AT: nat := 0x100_0000 + 32

  /** A call at offset 30, code up to a thunk 2^24 + 2 bytes away, and the callee behind that thunk. */
  const CALL := LinkerPatch(2, CallRelative, 0, 2, 0)
  const CALLER := Visited(MethodRef(0, 0), CompiledMethod(1, 0, 0, 0, [CALL], 0, 0, 0, None))
  const BETWEEN := Visited(MethodRef(0, 1), CompiledMethod(2, 0, 0, 0, [], 0, 0, 0, None))
  const CALLEE := Visited(MethodRef(0, 2), CompiledMethod(3, 0, 0, 0, [], 0, 0, 0, None))

  function ThumbLinker(): Linker {
    Linker(Thumb2, false, false, map[1 := Zeros(8), 2 := Zeros(FILLER), 3 := Zeros(16)], Zeros(8), n => n == 2, 0,
           _ => 0, _ => 0, (_, _, _, _) => 0)
  }

  function AfterCaller(): Plan {
    Plan(36, map[KeyOf(CALLER.compiled) := 29], [], 1, map[CALLER.ref := 29])
  }

  function AfterBetween(): Plan {
    Plan(THUNK_AT, AfterCaller().dedupe[KeyOf(BETWEEN.compiled) := 69], [], 2, AfterCaller().targets[BETWEEN.ref := 69])
  }

  function AfterCallee(): Plan {
    Plan(THUNK_AT + 52, AfterBetween().dedupe[KeyOf(CALLEE.compiled) := THUNK_AT + 37], [THUNK_AT], 3,
         AfterBetween().targets[CALLEE.ref := THUNK_AT + 37])
  }

  lemma ThumbAlign(x: nat, y: nat)
    requires x <= y < x + 8 && y % 8 == 0
    ensures ThumbLinker().Align(x) == y
  {
    assert ThumbLinker().isa.Alignment() == 8;
  }

  lemma ThumbCode()
    ensures |ThumbLinker().Code(CALLER.compiled)| == 8
    ensures |ThumbLinker().Code(BETWEEN.compiled)| == FILLER
    ensures |ThumbLinker().Code(CALLEE.compiled)| == 16
  {
  }

  lemma ExampleVisits()
    ensures Visit(ThumbLinker(), Start(0), CALLER) == AfterCaller()
    ensures Visit(ThumbLinker(), AfterCaller(), BETWEEN) == AfterBetween()
    ensures Visit(ThumbLinker(), AfterBetween(), CALLEE) == AfterCallee()
  {
    hide Linker.Align, Linker.Code;
    ThumbCode();
    ThumbAlign(0, 0);
    ThumbAlign(36, 40);
    ThumbAlign(THUNK_AT, THUNK_AT);
    ThumbAlign(THUNK_AT + 8, THUNK_AT + 8);
  }

  function ThumbVisits(): (vs: seq<Visited>)
    ensures |vs| == 3
  {
    [CALLER, BETWEEN, CALLEE]
  }

  lemma ExamplePlans()
    ensures PlanAt(ThumbLinker(), 0, ThumbVisits(), 0) == Start(0)
    ensures PlanAt(ThumbLinker(), 0, ThumbVisits(), 1) == AfterCaller()
    ensures PlanAt(ThumbLinker(), 0, ThumbVisits(), 2) == AfterBetween()
    ensures PlanAt(ThumbLinker(), 0, ThumbVisits(), 3) == AfterCallee()
  {
    hide Visit, ThumbLinker, AfterCaller, AfterBetween, AfterCallee;
    ExampleVisits();
    assert PlanAt(ThumbLinker(), 0, ThumbVisits(), 1) ==
             Visit(ThumbLinker(), PlanAt(ThumbLinker(), 0, ThumbVisits(), 0), CALLER);
  }

  const WAITING := RelativeCall(CALLEE.ref, 30, 30, 0)

  lemma CallsOfOne(l: Linker, p: Plan, patch: LinkerPatch)
    requires patch.patchType.CallRelative?
    ensures CallsOf(l, p, [patch]) == [CallOf(l, p, patch)]
  {
    hide CallOf;
    assert [patch][..0] == [];
    assert CallsOf(l, p, []) == [];
  }

  lemma ExampleSteps()
    ensures QueueStep(ThumbLinker(), THUMB2_REACH, Start(0), [], CALLER) == [WAITING]
    ensures QueueStep(ThumbLinker(), THUMB2_REACH, AfterCaller(), [WAITING], BETWEEN) == [WAITING]
    ensures QueueStep(ThumbLinker(), THUMB2_REACH, AfterBetween(), [WAITING], CALLEE) == []
    ensures FollowsAt(ThumbLinker(), THUMB2_REACH, Start(0), [], CALLER)
    ensures FollowsAt(ThumbLinker(), THUMB2_REACH, AfterCaller(), [WAITING], BETWEEN)
    ensures FollowsAt(ThumbLinker(), THUMB2_REACH, AfterBetween(), [WAITING], CALLEE)
    ensures !DecideEnd(ThumbLinker(), THUMB2_REACH, AfterCallee(), []).needsThunk
  {
    hide Linker.Align, Linker.Code;
    ThumbCode();
    ThumbAlign(0, 0);
    ThumbAlign(36, 40);
    ThumbAlign(THUNK_AT, THUNK_AT);
    ThumbAlign(THUNK_AT + 44, THUNK_AT + 48);
    ThumbAlign(THUNK_AT + 52, THUNK_AT + 56);
    CallsOfOne(ThumbLinker(), Start(0), CALL);
    assert CallOf(ThumbLinker(), Start(0), CALL) == WAITING;
  }

  lemma ExampleIsRuled()
    ensures Ruled(ThumbLinker(), THUMB2_REACH, 0, ThumbVisits())
    ensures End(ThumbLinker(), 0, ThumbVisits()).thunks == [THUNK_AT]
    ensures End(ThumbLinker(), 0, ThumbVisits()).targets == AfterCallee().targets
  {
    hide QueueStep, FollowsAt, DecideEnd, Visit, AfterCaller, AfterBetween, AllModest, Linker.AllCompilable, OnceEach;
    ExamplePlans();
    ExampleSteps();
    ExampleQueues();
    ExampleIsModest();
  }

  lemma ExampleIsModest()
    ensures ThumbLinker().AllCompilable(ThumbVisits()) && AllModest(ThumbLinker(), THUMB2_REACH, ThumbVisits())
    ensures OnceEach(ThumbVisits())
  {
    hide Linker.Code;
    ThumbCode();
  }

  lemma ExampleQueues()
    ensures QueueAt(ThumbLinker(), THUMB2_REACH, 0, ThumbVisits(), 0) == []
    ensures QueueAt(ThumbLinker(), THUMB2_REACH, 0, ThumbVisits(), 1) == [WAITING]
    ensures QueueAt(ThumbLinker(), THUMB2_REACH, 0, ThumbVisits(), 2) == [WAITING]
    ensures QueueAt(ThumbLinker(), THUMB2_REACH, 0, ThumbVisits(), 3) == []
  {
    hide QueueStep, PlanAt, ThumbLinker, AfterCaller, AfterBetween;
    ExamplePlans();
    ExampleSteps();
  }

  lemma ExampleTargetsHaveCode()
    ensures TargetsHaveCode(ThumbVisits())
  {
    assert ThumbVisits()[2].ref == RefOf(CALL);
  }

  lemma ThunkIsJustMissed()
    ensures !Reaches(THUMB2_REACH, [THUNK_AT], 0, 30, THUNK_AT + 36)
  {
  }

  /**
   * The comparison that decides about thunks and the one that uses them differ by one: all
   * decisions follow the rule, every callee has code, yet the call reaches neither.
   */
  lemma JustMissedCounterexample()
    ensures var l, vs := ThumbLinker(), ThumbVisits();
            Ruled(l, THUMB2_REACH, 0, vs) && Encodable(THUMB2_REACH) && TargetsHaveCode(vs) &&
            End(l, 0, vs).offset < HALF_WORD && IsCall(l, 0, vs, 0, 0) && !CallReaches(l, THUMB2_REACH, 0, vs, 0, 0)
  {
    hide Ruled, TargetsHaveCode, Reaches, Visit, PlanAt, CallOf;
    ExampleIsRuled();
    ExamplePlans();
    ExampleTargetsHaveCode();
    ThunkIsJustMissed();
    ExampleCall();
    assert Goal(ThumbLinker(), AfterCallee().targets, CALL) == THUNK_AT + 36;
  }

  lemma ExampleCall()
    ensures CallAt(ThumbLinker(), 0, ThumbVisits(), 0, 0) == WAITING
    ensures IsCall(ThumbLinker(), 0, ThumbVisits(), 0, 0)
  {
    hide Visit, Linker.Align;
    ExamplePlans();
    ThumbAlign(0, 0);
  }
}
