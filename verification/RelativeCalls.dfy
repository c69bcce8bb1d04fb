/**
 * The ARM relative patcher's rule for thunks: which relative calls are still waiting for their target,
 * when a thunk is reserved for them, and which calls can be relied on to reach their target or a thunk.
 */
module RelativeCalls {
  import opened Arith
  import opened SafeMap
  import opened CompiledMethods
  import opened OatTypes
  import opened OatMaps
  import opened OatCode

  /** How far a call reaches forwards and backwards, measured from the patched instruction. */
  datatype Reach = Reach(positive: nat, negative: nat)

  /**
   * A relative call that waits for its target. `at` is where the patcher believes the call to be.
   * The rest is for reasoning only: where it really is, and how many thunks lie before it.
   */
  datatype RelativeCall = RelativeCall(target: MethodRef, at: nat, actual: nat, thunksBefore: nat)

  // ---------------------------------------------------------------- the patcher's steps

  /** Where a method's code would start without a thunk before it. */
  function CodeWithoutThunk(l: Linker, p: Plan): nat {
    l.Align(p.offset) + METHOD_HEADER_SIZE
  }

  function NextAligned(l: Linker, p: Plan, m: CompiledMethod): nat {
    l.Align(CodeWithoutThunk(l, p) + |l.Code(m)|)
  }

  /** The calls of a method, recorded with the offset computed before a thunk was reserved. */
  function CallsOf(l: Linker, p: Plan, patches: seq<LinkerPatch>): seq<RelativeCall> {
    if patches == [] then []
    else
      var patch := patches[|patches| - 1];
      var before := CallsOf(l, p, patches[..|patches| - 1]);
      if patch.patchType.CallRelative? then before + [CallOf(l, p, patch)] else before
  }

  function CallOf(l: Linker, p: Plan, patch: LinkerPatch): RelativeCall {
    RelativeCall(MethodRef(patch.targetDexFile, patch.cmp1), CodeWithoutThunk(l, p) + patch.literalOffset,
         CodeStart(l, p) + patch.literalOffset, |ReserveThunks(l, p)|)
  }

  datatype Outcome = Outcome(needsThunk: bool, rest: seq<RelativeCall>)

  /** What becomes of the first waiting call: it is settled, a thunk is needed, or nothing can be said yet. */
  datatype Verdict = Settled | NeedsThunk | Undecided

  function Judge(l: Linker, r: Reach, p: Plan, c: RelativeCall, code: nat, ref: Option<MethodRef>): Verdict {
    var n := |p.thunks|;
    if ref == Some(c.target) then (if code - c.at > r.positive then NeedsThunk else Settled)
    else if c.target !in p.targets then
      (if n == 0 || c.at - p.thunks[n - 1] > r.negative then Undecided else Settled)
    else
      var target := p.targets[c.target] - l.isa.CodeDelta();
      if target >= c.at then Settled
      else
        var nearest := if n > 0 && target < p.thunks[n - 1] then p.thunks[n - 1] else target;
        if c.at - nearest > r.negative then NeedsThunk else Settled
  }

  /** Settles waiting calls from the front until one needs a thunk or is undecided. */
  function Process(l: Linker, r: Reach, p: Plan, q: seq<RelativeCall>, code: nat, ref: Option<MethodRef>, next: nat)
      : Outcome {
    if q == [] then Outcome(false, [])
    else match Judge(l, r, p, q[0], code, ref)
      case Settled => Process(l, r, p, q[1..], code, ref, next)
      case NeedsThunk => Outcome(true, q)
      case Undecided => Outcome(next - q[0].at > r.positive, q)
  }

  /** Before a method: calls are looked at when the first would be out of reach behind the method. */
  function Decide(l: Linker, r: Reach, p: Plan, q: seq<RelativeCall>, v: Visited): Outcome {
    var next := NextAligned(l, p, v.compiled);
    if q != [] && next - q[0].at > r.positive then Process(l, r, p, q, CodeWithoutThunk(l, p), Some(v.ref), next)
    else Outcome(false, q)
  }

  /** After the last method. */
  function DecideEnd(l: Linker, r: Reach, p: Plan, q: seq<RelativeCall>): Outcome {
    Process(l, r, p, q, l.Align(p.offset), None, l.Align(p.offset))
  }

  function QueueStep(l: Linker, r: Reach, p: Plan, q: seq<RelativeCall>, v: Visited): seq<RelativeCall> {
    if IsDuplicate(l, p, v.compiled) then q
    else
      var o := Decide(l, r, p, q, v);
      (if o.needsThunk then [] else o.rest) + CallsOf(l, p, v.compiled.patches)
  }

  /** The calls that wait after `k` visited methods. */
  function QueueAt(l: Linker, r: Reach, start: nat, vs: seq<Visited>, k: nat): seq<RelativeCall>
    requires k <= |vs|
  {
    if k == 0 then []
    else QueueStep(l, r, PlanAt(l, start, vs, k - 1), QueueAt(l, r, start, vs, k - 1), vs[k - 1])
  }

  /** A thunk is reserved before a method exactly when the patcher decides so. */
  predicate FollowsAt(l: Linker, r: Reach, p: Plan, q: seq<RelativeCall>, v: Visited) {
    IsDuplicate(l, p, v.compiled) || (l.needsThunk(p.placed) <==> Decide(l, r, p, q, v).needsThunk)
  }

  ghost predicate Follows(l: Linker, r: Reach, start: nat, vs: seq<Visited>) {
    (forall k :: 0 <= k < |vs| ==> FollowsAt(l, r, PlanAt(l, start, vs, k), QueueAt(l, r, start, vs, k), vs[k])) &&
    (l.needsThunk(PlanAt(l, start, vs, |vs|).placed) <==>
     DecideEnd(l, r, PlanAt(l, start, vs, |vs|), QueueAt(l, r, start, vs, |vs|)).needsThunk)
  }

  // ---------------------------------------------------------------- what a call can rely on

  /** A call at `from` reaches `to`. */
  predicate InRange(r: Reach, from: int, to: int) {
    if to >= from then to - from <= r.positive else from - to <= r.negative
  }

  function CodeOf(l: Linker, p: Plan, ref: MethodRef): int
    requires ref in p.targets
  {
    p.targets[ref] - l.isa.CodeDelta()
  }

  predicate Direct(l: Linker, r: Reach, p: Plan, c: RelativeCall) {
    c.target in p.targets && InRange(r, c.actual, CodeOf(l, p, c.target))
  }

  /** The last thunk before the call is near enough. */
  predicate Behind(r: Reach, thunks: seq<nat>, c: RelativeCall) {
    0 < c.thunksBefore <= |thunks| && thunks[c.thunksBefore - 1] <= c.actual &&
    c.actual - thunks[c.thunksBefore - 1] <= r.negative
  }

  /** The next thunk is near enough, by the strict comparison that is used when calls are patched. */
  predicate Ahead(r: Reach, thunks: seq<nat>, c: RelativeCall) {
    c.thunksBefore < |thunks| && c.actual <= thunks[c.thunksBefore] && thunks[c.thunksBefore] - c.actual < r.positive
  }

  /** The next thunk is as far away as a call reaches, which that comparison rejects. */
  predicate JustMissed(r: Reach, thunks: seq<nat>, c: RelativeCall) {
    c.thunksBefore < |thunks| && thunks[c.thunksBefore] == c.actual + r.positive
  }

  predicate Settles(l: Linker, r: Reach, p: Plan, c: RelativeCall) {
    Direct(l, r, p, c) || Behind(r, p.thunks, c) || Ahead(r, p.thunks, c) || JustMissed(r, p.thunks, c)
  }

  /** A waiting call: no thunk after it so far, and one reserved now would be within reach. */
  predicate Pending(l: Linker, r: Reach, p: Plan, c: RelativeCall) {
    |p.thunks| == c.thunksBefore && c.at <= c.actual <= p.offset && l.Align(p.offset) - c.actual <= r.positive &&
    (c.thunksBefore > 0 ==> p.thunks[c.thunksBefore - 1] <= c.at) &&
    (c.at == c.actual || Behind(r, p.thunks, c))
  }

  predicate AllPending(l: Linker, r: Reach, p: Plan, q: seq<RelativeCall>) {
    (forall i :: 0 <= i < |q| ==> Pending(l, r, p, q[i])) && InOrder(q)
  }

  predicate InOrder(q: seq<RelativeCall>) {
    forall i, j :: 0 <= i < j < |q| ==> q[i].at <= q[j].at
  }

  /** Code and thunks that are already placed lie below the cursor. */
  ghost predicate Below(l: Linker, p: Plan) {
    (forall ref :: ref in p.targets ==> 0 <= CodeOf(l, p, ref) < p.offset) &&
    (forall key :: key in p.dedupe ==> 0 <= p.dedupe[key] - l.isa.CodeDelta() < p.offset) &&
    (p.thunks != [] ==> p.thunks[|p.thunks| - 1] <= p.offset)
  }

  /** A call that was taken off the queue can be relied on. */
  predicate Relies(l: Linker, r: Reach, p: Plan, c: RelativeCall, code: nat, ref: Option<MethodRef>) {
    (ref == Some(c.target) && code - c.at <= r.positive) || Direct(l, r, p, c) || Behind(r, p.thunks, c)
  }

  lemma SettledRelies(l: Linker, r: Reach, p: Plan, c: RelativeCall, code: nat, ref: Option<MethodRef>)
    requires Pending(l, r, p, c) && Below(l, p) && Judge(l, r, p, c, code, ref).Settled?
    ensures Relies(l, r, p, c, code, ref)
  {
    hide Linker.Align;
    if c.at == c.actual && ref != Some(c.target) && c.target in p.targets {
      assert 0 <= CodeOf(l, p, c.target) < p.offset <= l.Align(p.offset);
    }
  }

  lemma {:induction false} ProcessLeavesSuffix(l: Linker, r: Reach, p: Plan, q: seq<RelativeCall>, code: nat,
                                               ref: Option<MethodRef>, next: nat)
    ensures var rest := Process(l, r, p, q, code, ref, next).rest; |rest| <= |q| && rest == q[|q| - |rest|..]
    decreases |q|
  {
    hide Judge;
    if q != [] && Judge(l, r, p, q[0], code, ref).Settled? {
      ProcessLeavesSuffix(l, r, p, q[1..], code, ref, next);
    }
  }

  /** After processing, a call either can be relied on or still waits; without a thunk, none waits too long. */
  lemma {:induction false} ProcessRelies(l: Linker, r: Reach, p: Plan, q: seq<RelativeCall>, code: nat,
                                         ref: Option<MethodRef>, next: nat, i: nat)
    requires AllPending(l, r, p, q) && Below(l, p) && i < |q|
    ensures var o := Process(l, r, p, q, code, ref, next);
            (q[i] in o.rest && (!o.needsThunk ==> next - q[i].at <= r.positive)) || Relies(l, r, p, q[i], code, ref)
    decreases |q|
  {
    hide Pending, Judge, Relies, Below;
    if Judge(l, r, p, q[0], code, ref).Settled? {
      if i == 0 {
        SettledRelies(l, r, p, q[0], code, ref);
      } else {
        ProcessRelies(l, r, p, q[1..], code, ref, next, i - 1);
      }
    }
  }

  // ---------------------------------------------------------------- one method

  /** A visit that places a method without a thunk. */
  lemma VisitPlain(l: Linker, p: Plan, v: Visited)
    requires !IsDuplicate(l, p, v.compiled) && !l.needsThunk(p.placed)
    ensures var n := Visit(l, p, v);
            n.thunks == p.thunks && CodeStart(l, p) == CodeWithoutThunk(l, p) &&
            n.offset == CodeStart(l, p) + |l.Code(v.compiled)| && l.Align(n.offset) == NextAligned(l, p, v.compiled)
    ensures ReserveThunks(l, p) == p.thunks
  {
    hide Linker.Align, Linker.Code;
  }

  /** A visit that places a thunk before the method. */
  lemma VisitAfterThunk(l: Linker, p: Plan, v: Visited)
    requires !IsDuplicate(l, p, v.compiled) && l.needsThunk(p.placed)
    ensures var n := Visit(l, p, v);
            n.thunks == p.thunks + [l.Align(p.offset)] && n.offset == CodeStart(l, p) + |l.Code(v.compiled)| &&
            CodeWithoutThunk(l, p) <= CodeStart(l, p) <= l.Align(p.offset) + |l.thunk| + METHOD_HEADER_SIZE + 32
    ensures ReserveThunks(l, p) == p.thunks + [l.Align(p.offset)]
  {
    hide Linker.Align, Linker.Code;
    assert l.isa.Alignment() <= 16;
  }

  lemma VisitKeepsTargets(l: Linker, p: Plan, v: Visited)
    ensures var n := Visit(l, p, v);
            (forall ref :: ref in p.targets ==> ref in n.targets && n.targets[ref] == p.targets[ref]) &&
            (v.ref !in p.targets ==> v.ref in n.targets && n.targets[v.ref] == CodeOffset(l, p, v.compiled))
  {
    hide CodeOffset, CodeStart;
  }

  lemma BelowStep(l: Linker, p: Plan, v: Visited)
    requires Below(l, p) && l.Compilable(v.compiled)
    ensures Below(l, Visit(l, p, v))
  {
    VisitExtends(l, p, v);
    if !IsDuplicate(l, p, v.compiled) {
      if l.needsThunk(p.placed) {
        VisitAfterThunk(l, p, v);
      } else {
        VisitPlain(l, p, v);
      }
    }
    hide Linker.Align, CodeStart, ReserveThunks;
  }

  /** What a call can rely on stays. */
  lemma SettlesStays(l: Linker, r: Reach, p: Plan, n: Plan, c: RelativeCall)
    requires Settles(l, r, p, c) && p.thunks <= n.thunks
    requires forall ref :: ref in p.targets ==> ref in n.targets && n.targets[ref] == p.targets[ref]
    ensures Settles(l, r, n, c)
  {
  }

  lemma DecideRelies(l: Linker, r: Reach, p: Plan, q: seq<RelativeCall>, v: Visited, i: nat)
    requires AllPending(l, r, p, q) && Below(l, p) && i < |q|
    ensures var o := Decide(l, r, p, q, v);
            (q[i] in o.rest && (!o.needsThunk ==> NextAligned(l, p, v.compiled) - q[i].at <= r.positive)) ||
            Relies(l, r, p, q[i], CodeWithoutThunk(l, p), Some(v.ref))
  {
    hide Pending, Below, Process, Relies, NextAligned, CodeWithoutThunk;
    ProcessRelies(l, r, p, q, CodeWithoutThunk(l, p), Some(v.ref), NextAligned(l, p, v.compiled), i);
  }

  /** A waiting call waits on, or can be relied on from now on. */
  lemma WaitingStep(l: Linker, r: Reach, p: Plan, q: seq<RelativeCall>, v: Visited, i: nat)
    requires AllPending(l, r, p, q) && Below(l, p) && FollowsAt(l, r, p, q, v) && i < |q|
    requires !IsDuplicate(l, p, v.compiled) && v.ref !in p.targets
    ensures (q[i] in Decide(l, r, p, q, v).rest && !l.needsThunk(p.placed)) || Settles(l, r, Visit(l, p, v), q[i])
  {
    hide Linker.Align, Decide, Below, IsDuplicate, CodeStart, Reserve, ReserveThunks, Linker.Code, Visit;
    var c, n := q[i], Visit(l, p, v);
    DecideRelies(l, r, p, q, v, i);
    VisitKeepsTargets(l, p, v);
    if l.needsThunk(p.placed) {
      VisitAfterThunk(l, p, v);
    } else {
      VisitPlain(l, p, v);
    }
  }

  /** A call that still waits can be served by a thunk reserved at the next method. */
  lemma StillPending(l: Linker, r: Reach, p: Plan, q: seq<RelativeCall>, v: Visited, i: nat)
    requires AllPending(l, r, p, q) && Below(l, p) && FollowsAt(l, r, p, q, v) && i < |q|
    requires !IsDuplicate(l, p, v.compiled) && !l.needsThunk(p.placed)
    requires NextAligned(l, p, v.compiled) - q[i].at <= r.positive
    ensures Pending(l, r, Visit(l, p, v), q[i])
  {
    hide Linker.Align, Decide, Below, IsDuplicate, CodeStart, Reserve, ReserveThunks, Linker.Code, Visit, NextAligned;
    VisitPlain(l, p, v);
    assert Pending(l, r, p, q[i]);
    CodeAfterCursor(l, p);
  }

  lemma CodeAfterCursor(l: Linker, p: Plan)
    ensures p.offset <= CodeWithoutThunk(l, p) <= CodeStart(l, p) && p.offset <= l.Align(p.offset)
  {
    hide Linker.Align;
  }

  // ---------------------------------------------------------------- the queue

  /** Relative calls come in the order of their places. */
  predicate Ascending(patches: seq<LinkerPatch>) {
    forall i, j ::
      0 <= i < j < |patches| && patches[i].patchType.CallRelative? && patches[j].patchType.CallRelative? ==>
        patches[i].literalOffset <= patches[j].literalOffset
  }

  /**
   * Call patches ascend; a call reaches beyond the end of its own method, and back to a thunk
   * placed right before its method.
   */
  predicate Modest(l: Linker, r: Reach, m: CompiledMethod) {
    Ascending(m.patches) &&
    (forall patch :: patch in m.patches && patch.patchType.CallRelative? ==>
                       |l.Code(m)| - patch.literalOffset + 16 <= r.positive &&
                       patch.literalOffset + |l.thunk| + 60 <= r.negative)
  }

  lemma {:induction false} CallsOfAre(l: Linker, p: Plan, patches: seq<LinkerPatch>, c: RelativeCall)
    ensures c in CallsOf(l, p, patches) <==>
            exists n :: 0 <= n < |patches| && patches[n].patchType.CallRelative? && c == CallOf(l, p, patches[n])
  {
    hide CallOf;
    if patches != [] {
      var front, last := patches[..|patches| - 1], patches[|patches| - 1];
      CallsOfAre(l, p, front, c);
      if c in CallsOf(l, p, front) {
        var n :| 0 <= n < |front| && front[n].patchType.CallRelative? && c == CallOf(l, p, front[n]);
        assert patches[n] == front[n];
      }
      if n :| 0 <= n < |patches| && patches[n].patchType.CallRelative? && c == CallOf(l, p, patches[n]) {
        if n < |front| {
          assert front[n] == patches[n];
        }
      }
    }
  }

  lemma {:induction false} CallsOfSorted(l: Linker, p: Plan, patches: seq<LinkerPatch>)
    requires Ascending(patches)
    ensures InOrder(CallsOf(l, p, patches))
    ensures forall c :: c in CallsOf(l, p, patches) ==> c.at >= CodeWithoutThunk(l, p)
  {
    hide CodeWithoutThunk, CodeStart, ReserveThunks;
    if patches != [] {
      var front, last := patches[..|patches| - 1], patches[|patches| - 1];
      CallsOfSorted(l, p, front);
      var calls := CallsOf(l, p, front);
      if last.patchType.CallRelative? {
        forall i | 0 <= i < |calls| ensures calls[i].at <= CallOf(l, p, last).at {
          CallsOfAre(l, p, front, calls[i]);
        }
      }
    }
  }

  /** A call that was just placed waits. */
  lemma NewCallPending(l: Linker, r: Reach, p: Plan, v: Visited, patch: LinkerPatch)
    requires Below(l, p) && !IsDuplicate(l, p, v.compiled) && l.Compilable(v.compiled) && Modest(l, r, v.compiled)
    requires patch in v.compiled.patches && patch.patchType.CallRelative?
    ensures Pending(l, r, Visit(l, p, v), CallOf(l, p, patch))
  {
    hide Linker.Align, CodeStart, Reserve, ReserveThunks, Linker.Code, Visit, IsDuplicate;
    CodeAfterCursor(l, p);
    assert l.isa.Alignment() <= 16;
    if l.needsThunk(p.placed) {
      VisitAfterThunk(l, p, v);
    } else {
      VisitPlain(l, p, v);
    }
  }

  /** Without a thunk, everything that still waits is within reach of the next method's end. */
  lemma {:induction false} RestInReach(l: Linker, r: Reach, p: Plan, q: seq<RelativeCall>, code: nat,
                                       ref: Option<MethodRef>, next: nat)
    requires InOrder(q) && !Process(l, r, p, q, code, ref, next).needsThunk
    ensures forall c :: c in Process(l, r, p, q, code, ref, next).rest ==> next - c.at <= r.positive
    decreases |q|
  {
    hide Judge;
    if q != [] && Judge(l, r, p, q[0], code, ref).Settled? {
      RestInReach(l, r, p, q[1..], code, ref, next);
    }
  }

  lemma DecideLeaves(l: Linker, r: Reach, p: Plan, q: seq<RelativeCall>, v: Visited)
    requires InOrder(q)
    ensures var o := Decide(l, r, p, q, v);
            |o.rest| <= |q| && o.rest == q[|q| - |o.rest|..] &&
            (!o.needsThunk ==> forall c :: c in o.rest ==> NextAligned(l, p, v.compiled) - c.at <= r.positive)
  {
    hide Process, NextAligned, CodeWithoutThunk;
    var code, next := CodeWithoutThunk(l, p), NextAligned(l, p, v.compiled);
    ProcessLeavesSuffix(l, r, p, q, code, Some(v.ref), next);
    if !Process(l, r, p, q, code, Some(v.ref), next).needsThunk {
      RestInReach(l, r, p, q, code, Some(v.ref), next);
    }
  }

  /** The calls that are left on the queue wait on. */
  lemma KeptPending(l: Linker, r: Reach, p: Plan, q: seq<RelativeCall>, v: Visited)
    requires AllPending(l, r, p, q) && Below(l, p) && FollowsAt(l, r, p, q, v)
    requires !IsDuplicate(l, p, v.compiled) && !l.needsThunk(p.placed)
    ensures AllPending(l, r, Visit(l, p, v), Decide(l, r, p, q, v).rest)
    ensures forall c :: c in Decide(l, r, p, q, v).rest ==> c.at <= CodeWithoutThunk(l, p)
  {
    hide Linker.Align, Decide, Below, IsDuplicate, CodeWithoutThunk, Visit, NextAligned;
    var rest := Decide(l, r, p, q, v).rest;
    DecideLeaves(l, r, p, q, v);
    CodeAfterCursor(l, p);
    forall i | 0 <= i < |rest| ensures Pending(l, r, Visit(l, p, v), rest[i]) && rest[i].at <= CodeWithoutThunk(l, p) {
      assert rest[i] == q[|q| - |rest| + i];
      assert Pending(l, r, p, rest[i]);
      StillPending(l, r, p, q, v, |q| - |rest| + i);
    }
  }

  lemma NewCallsPending(l: Linker, r: Reach, p: Plan, v: Visited)
    requires Below(l, p) && !IsDuplicate(l, p, v.compiled) && l.Compilable(v.compiled) && Modest(l, r, v.compiled)
    ensures AllPending(l, r, Visit(l, p, v), CallsOf(l, p, v.compiled.patches))
    ensures forall c :: c in CallsOf(l, p, v.compiled.patches) ==> c.at >= CodeWithoutThunk(l, p)
  {
    CallsOfSorted(l, p, v.compiled.patches);
    hide *;
    hide Pending, Below, IsDuplicate, Linker.Compilable, Modest, Visit, CallsOf, CallOf;
    var calls := CallsOf(l, p, v.compiled.patches);
    forall i | 0 <= i < |calls| ensures Pending(l, r, Visit(l, p, v), calls[i]) {
      CallsOfAre(l, p, v.compiled.patches, calls[i]);
      var n :| 0 <= n < |v.compiled.patches| && v.compiled.patches[n].patchType.CallRelative? &&
               calls[i] == CallOf(l, p, v.compiled.patches[n]);
      NewCallPending(l, r, p, v, v.compiled.patches[n]);
    }
  }

  lemma DuplicateKeepsPending(l: Linker, r: Reach, p: Plan, q: seq<RelativeCall>, v: Visited)
    requires AllPending(l, r, p, q) && IsDuplicate(l, p, v.compiled)
    ensures AllPending(l, r, Visit(l, p, v), q)
  {
    hide Linker.Align, IsDuplicate;
  }

  lemma Joined(l: Linker, r: Reach, p: Plan, q: seq<RelativeCall>, s: seq<RelativeCall>, bound: nat)
    requires AllPending(l, r, p, q) && AllPending(l, r, p, s)
    requires (forall c :: c in q ==> c.at <= bound) && (forall c :: c in s ==> c.at >= bound)
    ensures AllPending(l, r, p, q + s)
  {
    hide Pending;
  }

  /** A visit leaves a queue of waiting calls. */
  lemma QueueStepPending(l: Linker, r: Reach, p: Plan, q: seq<RelativeCall>, v: Visited)
    requires AllPending(l, r, p, q) && Below(l, p) && FollowsAt(l, r, p, q, v)
    requires l.Compilable(v.compiled) && Modest(l, r, v.compiled)
    ensures AllPending(l, r, Visit(l, p, v), QueueStep(l, r, p, q, v))
  {
    hide Pending, Decide, Below, IsDuplicate, CodeWithoutThunk, Linker.Compilable, Modest, CallsOf, Visit;
    if IsDuplicate(l, p, v.compiled) {
      DuplicateKeepsPending(l, r, p, q, v);
    } else {
      NewCallsPending(l, r, p, v);
      if l.needsThunk(p.placed) {
        Joined(l, r, Visit(l, p, v), [], CallsOf(l, p, v.compiled.patches), CodeWithoutThunk(l, p));
      } else {
        KeptPending(l, r, p, q, v);
        Joined(l, r, Visit(l, p, v), Decide(l, r, p, q, v).rest, CallsOf(l, p, v.compiled.patches),
               CodeWithoutThunk(l, p));
      }
    }
  }

  // ---------------------------------------------------------------- a whole walk

  /** No method is visited twice. */
  ghost predicate OnceEach(vs: seq<Visited>) {
    forall i, j :: 0 <= i < j < |vs| ==> vs[i].ref != vs[j].ref
  }

  ghost predicate AllModest(l: Linker, r: Reach, vs: seq<Visited>) {
    forall k :: 0 <= k < |vs| ==> Modest(l, r, vs[k].compiled)
  }

  /** A walk on which the linker reserves thunks by the patcher's rule. */
  ghost predicate Ruled(l: Linker, r: Reach, start: nat, vs: seq<Visited>) {
    l.AllCompilable(vs) && AllModest(l, r, vs) && OnceEach(vs) && Follows(l, r, start, vs)
  }

  lemma RuledAt(l: Linker, r: Reach, start: nat, vs: seq<Visited>, k: nat)
    requires k < |vs| && Ruled(l, r, start, vs)
    ensures FollowsAt(l, r, PlanAt(l, start, vs, k), QueueAt(l, r, start, vs, k), vs[k])
    ensures l.Compilable(vs[k].compiled) && Modest(l, r, vs[k].compiled)
  {
    hide FollowsAt, PlanAt, QueueAt, Linker.Compilable, Modest, DecideEnd;
  }

  lemma StepIs(l: Linker, r: Reach, start: nat, vs: seq<Visited>, k: nat)
    requires 0 < k <= |vs|
    ensures PlanAt(l, start, vs, k) == Visit(l, PlanAt(l, start, vs, k - 1), vs[k - 1])
    ensures QueueAt(l, r, start, vs, k) ==
            QueueStep(l, r, PlanAt(l, start, vs, k - 1), QueueAt(l, r, start, vs, k - 1), vs[k - 1])
  {
    hide Visit, QueueStep;
  }

  lemma NothingPending(l: Linker, r: Reach, start: nat, vs: seq<Visited>)
    ensures Below(l, PlanAt(l, start, vs, 0)) && AllPending(l, r, PlanAt(l, start, vs, 0), QueueAt(l, r, start, vs, 0))
  {
  }

  lemma {:induction false} QueuePending(l: Linker, r: Reach, start: nat, vs: seq<Visited>, k: nat)
    requires k <= |vs| && Ruled(l, r, start, vs)
    ensures Below(l, PlanAt(l, start, vs, k))
    ensures AllPending(l, r, PlanAt(l, start, vs, k), QueueAt(l, r, start, vs, k))
  {
    hide *;
    if k == 0 {
      NothingPending(l, r, start, vs);
    } else {
      QueuePending(l, r, start, vs, k - 1);
      RuledAt(l, r, start, vs, k - 1);
      StepIs(l, r, start, vs, k);
      QueueStepPending(l, r, PlanAt(l, start, vs, k - 1), QueueAt(l, r, start, vs, k - 1), vs[k - 1]);
      BelowStep(l, PlanAt(l, start, vs, k - 1), vs[k - 1]);
    }
  }

  lemma NotYetATarget(l: Linker, r: Reach, start: nat, vs: seq<Visited>, k: nat)
    requires k < |vs| && Ruled(l, r, start, vs)
    ensures vs[k].ref !in PlanAt(l, start, vs, k).targets
  {
    hide PlanAt, AllModest, Follows, Linker.AllCompilable;
    TargetsAreDefinitions(l, start, vs, k, vs[k].ref, k);
  }

  /** Patch `n` of method `i` is a relative call of code that is placed. */
  ghost predicate IsCall(l: Linker, start: nat, vs: seq<Visited>, i: nat, n: nat) {
    i < |vs| && !Duplicate(l, start, vs, i) && n < |vs[i].compiled.patches| &&
    vs[i].compiled.patches[n].patchType.CallRelative?
  }

  function CallAt(l: Linker, start: nat, vs: seq<Visited>, i: nat, n: nat): RelativeCall
    requires i < |vs| && n < |vs[i].compiled.patches|
  {
    CallOf(l, PlanAt(l, start, vs, i), vs[i].compiled.patches[n])
  }

  /** One more visit: a call of the queue stays there or is settled for good. */
  lemma CallStep(l: Linker, r: Reach, p: Plan, q: seq<RelativeCall>, v: Visited, c: RelativeCall)
    requires AllPending(l, r, p, q) && Below(l, p) && FollowsAt(l, r, p, q, v) && v.ref !in p.targets
    requires c in q || Settles(l, r, p, c)
    ensures c in QueueStep(l, r, p, q, v) || Settles(l, r, Visit(l, p, v), c)
  {
    hide AllPending, Below, FollowsAt, IsDuplicate, Visit, Settles, CallsOf, CallOf, Decide;
    if Settles(l, r, p, c) {
      VisitExtends(l, p, v);
      VisitKeepsTargets(l, p, v);
      SettlesStays(l, r, p, Visit(l, p, v), c);
    } else if !IsDuplicate(l, p, v.compiled) {
      var i :| 0 <= i < |q| && q[i] == c;
      WaitingStep(l, r, p, q, v, i);
      NoThunkNoNeed(l, r, p, q, v);
    }
  }

  lemma NoThunkNoNeed(l: Linker, r: Reach, p: Plan, q: seq<RelativeCall>, v: Visited)
    requires FollowsAt(l, r, p, q, v) && !IsDuplicate(l, p, v.compiled)
    ensures l.needsThunk(p.placed) <==> Decide(l, r, p, q, v).needsThunk
  {
  }

  /** Every call that was placed waits, or is settled for good. */
  lemma {:induction false} CallLives(l: Linker, r: Reach, start: nat, vs: seq<Visited>, i: nat, n: nat, k: nat)
    requires IsCall(l, start, vs, i, n) && i < k <= |vs| && Ruled(l, r, start, vs)
    ensures CallAt(l, start, vs, i, n) in QueueAt(l, r, start, vs, k) ||
            Settles(l, r, PlanAt(l, start, vs, k), CallAt(l, start, vs, i, n))
    decreases k
  {
    hide *;
    IsNewCall(l, start, vs, i, n);
    var p, q, c := PlanAt(l, start, vs, k - 1), QueueAt(l, r, start, vs, k - 1), CallAt(l, start, vs, i, n);
    StepIs(l, r, start, vs, k);
    if k == i + 1 {
      QueueStepHasNew(l, r, p, q, vs[i], c);
    } else {
      CallLives(l, r, start, vs, i, n, k - 1);
      QueuePending(l, r, start, vs, k - 1);
      RuledAt(l, r, start, vs, k - 1);
      NotYetATarget(l, r, start, vs, k - 1);
      CallStep(l, r, p, q, vs[k - 1], c);
    }
  }

  lemma IsNewCall(l: Linker, start: nat, vs: seq<Visited>, i: nat, n: nat)
    requires IsCall(l, start, vs, i, n)
    ensures i < |vs| && n < |vs[i].compiled.patches|
    ensures !IsDuplicate(l, PlanAt(l, start, vs, i), vs[i].compiled)
    ensures CallAt(l, start, vs, i, n) in CallsOf(l, PlanAt(l, start, vs, i), vs[i].compiled.patches)
  {
    hide PlanAt, CallOf, CallsOf, IsDuplicate;
    CallsOfAre(l, PlanAt(l, start, vs, i), vs[i].compiled.patches, CallAt(l, start, vs, i, n));
  }

  lemma QueueStepHasNew(l: Linker, r: Reach, p: Plan, q: seq<RelativeCall>, v: Visited, c: RelativeCall)
    requires !IsDuplicate(l, p, v.compiled) && c in CallsOf(l, p, v.compiled.patches)
    ensures c in QueueStep(l, r, p, q, v)
  {
    hide Decide, CallsOf;
  }

  // ---------------------------------------------------------------- the end of the walk

  function End(l: Linker, start: nat, vs: seq<Visited>): Plan {
    PlanEnd(l, start, vs, true)
  }

  function EndOutcome(l: Linker, r: Reach, start: nat, vs: seq<Visited>): Outcome {
    DecideEnd(l, r, PlanAt(l, start, vs, |vs|), QueueAt(l, r, start, vs, |vs|))
  }

  /** The call is still on the queue at the end, and no last thunk is reserved for it. */
  predicate Leftover(l: Linker, r: Reach, start: nat, vs: seq<Visited>, c: RelativeCall) {
    !EndOutcome(l, r, start, vs).needsThunk && c in EndOutcome(l, r, start, vs).rest
  }

  function ReserveEnd(l: Linker, p: Plan): Plan {
    p.(offset := Reserve(l, p), thunks := ReserveThunks(l, p))
  }

  lemma EndStep(l: Linker, r: Reach, p: Plan, q: seq<RelativeCall>, c: RelativeCall)
    requires AllPending(l, r, p, q) && Below(l, p) && (l.needsThunk(p.placed) <==> DecideEnd(l, r, p, q).needsThunk)
    requires c in q
    ensures !DecideEnd(l, r, p, q).needsThunk && c in DecideEnd(l, r, p, q).rest ==>
              ReserveEnd(l, p).thunks == p.thunks && |p.thunks| == c.thunksBefore
    ensures !(!DecideEnd(l, r, p, q).needsThunk && c in DecideEnd(l, r, p, q).rest) ==>
              Settles(l, r, ReserveEnd(l, p), c)
  {
    hide Linker.Align, Process, Below;
    var i :| 0 <= i < |q| && q[i] == c;
    assert Pending(l, r, p, c);
    ProcessRelies(l, r, p, q, l.Align(p.offset), None, l.Align(p.offset), i);
  }

  lemma EndIs(l: Linker, r: Reach, start: nat, vs: seq<Visited>)
    requires Ruled(l, r, start, vs)
    ensures End(l, start, vs) == ReserveEnd(l, PlanAt(l, start, vs, |vs|))
    ensures l.needsThunk(PlanAt(l, start, vs, |vs|).placed) <==> EndOutcome(l, r, start, vs).needsThunk
    ensures EndOutcome(l, r, start, vs) == DecideEnd(l, r, PlanAt(l, start, vs, |vs|), QueueAt(l, r, start, vs, |vs|))
    ensures PlanAt(l, start, vs, |vs|).thunks <= End(l, start, vs).thunks
    ensures PlanAt(l, start, vs, |vs|).targets == End(l, start, vs).targets
  {
    hide PlanAt, QueueAt, DecideEnd, FollowsAt, AllModest, OnceEach, Reserve, Linker.Align, Linker.AllCompilable;
  }

  /** In the end a call is left over, or it can be relied on. */
  lemma EveryCallEnds(l: Linker, r: Reach, start: nat, vs: seq<Visited>, i: nat, n: nat)
    requires IsCall(l, start, vs, i, n) && Ruled(l, r, start, vs)
    ensures Leftover(l, r, start, vs, CallAt(l, start, vs, i, n)) ==>
              |End(l, start, vs).thunks| == CallAt(l, start, vs, i, n).thunksBefore
    ensures !Leftover(l, r, start, vs, CallAt(l, start, vs, i, n)) ==>
              Settles(l, r, End(l, start, vs), CallAt(l, start, vs, i, n))
  {
    hide *;
    IsNewCall(l, start, vs, i, n);
    var p, q, c := PlanAt(l, start, vs, |vs|), QueueAt(l, r, start, vs, |vs|), CallAt(l, start, vs, i, n);
    EndIs(l, r, start, vs);
    QueuePending(l, r, start, vs, |vs|);
    CallLives(l, r, start, vs, i, n, |vs|);
    LeftoverIs(l, r, start, vs, c);
    if c in q {
      EndStep(l, r, p, q, c);
    } else {
      SettlesStays(l, r, p, End(l, start, vs), c);
    }
  }

  lemma LeftoverIs(l: Linker, r: Reach, start: nat, vs: seq<Visited>, c: RelativeCall)
    requires Ruled(l, r, start, vs)
    ensures var o := DecideEnd(l, r, PlanAt(l, start, vs, |vs|), QueueAt(l, r, start, vs, |vs|));
            Leftover(l, r, start, vs, c) <==> !o.needsThunk && c in o.rest
    ensures Leftover(l, r, start, vs, c) ==> c in QueueAt(l, r, start, vs, |vs|)
  {
    var p, q := PlanAt(l, start, vs, |vs|), QueueAt(l, r, start, vs, |vs|);
    ProcessLeavesSuffix(l, r, p, q, l.Align(p.offset), None, l.Align(p.offset));
    hide PlanAt, QueueAt, Ruled, Process, Linker.Align;
  }

  // ---------------------------------------------------------------- the patcher

  /** The patcher's own state: reserved thunks, and calls that wait. `targets` of the plan answers its lookups. */
  class RelativePatcher {
    const linker: Linker
    const reach: Reach
    var thunkLocations: seq<nat>
    var unprocessed: seq<RelativeCall>

    constructor (l: Linker, r: Reach)
      ensures linker == l && reach == r && thunkLocations == [] && unprocessed == []
    {
      linker, reach, thunkLocations, unprocessed := l, r, [], [];
    }

    /** Settles calls from the front; stops at a call that cannot be settled. */
    method ProcessPatches(p: Plan, code: nat, ref: Option<MethodRef>, next: nat) returns (needsThunk: bool)
      requires thunkLocations == p.thunks
      modifies this`unprocessed
      ensures Outcome(needsThunk, unprocessed) == Process(linker, reach, p, old(unprocessed), code, ref, next)
    {
      hide Judge;
      while unprocessed != []
        invariant Process(linker, reach, p, unprocessed, code, ref, next) ==
                  Process(linker, reach, p, old(unprocessed), code, ref, next)
        decreases |unprocessed|
      {
        var front := unprocessed[0];
        match Judge(linker, reach, p, front, code, ref) {
          case NeedsThunk => return true;
          case Undecided => return next - front.at > reach.positive;
          case Settled => unprocessed := unprocessed[1..];
        }
      }
      needsThunk := false;
    }

    method RecordCalls(p: Plan, patches: seq<LinkerPatch>)
      modifies this`unprocessed
      ensures unprocessed == old(unprocessed) + CallsOf(linker, p, patches)
    {
      hide CallOf;
      for n := 0 to |patches|
        invariant unprocessed == old(unprocessed) + CallsOf(linker, p, patches[..n])
      {
        assert patches[..n + 1][..n] == patches[..n];
        if patches[n].patchType.CallRelative? {
          unprocessed := unprocessed + [CallOf(linker, p, patches[n])];
        }
      }
      assert patches[..|patches|] == patches;
    }

    /** Room before a method that is to be placed, where the linker's decisions are the patcher's. */
    method ReserveSpace(p: Plan, v: Visited) returns (offset: nat)
      requires thunkLocations == p.thunks && !IsDuplicate(linker, p, v.compiled)
      requires FollowsAt(linker, reach, p, unprocessed, v)
      modifies this
      ensures offset == Reserve(linker, p) && thunkLocations == ReserveThunks(linker, p)
      ensures unprocessed == QueueStep(linker, reach, p, old(unprocessed), v)
    {
      hide Process, CallsOf, IsDuplicate, Linker.Align;
      offset := p.offset;
      var code, next := CodeWithoutThunk(linker, p), NextAligned(linker, p, v.compiled);
      if unprocessed != [] && next - unprocessed[0].at > reach.positive {
        var needsThunk := ProcessPatches(p, code, Some(v.ref), next);
        if needsThunk {
          unprocessed := [];
          thunkLocations := thunkLocations + [linker.Align(offset)];
          offset := linker.Align(linker.Align(offset) + |linker.thunk|);
        }
      }
      RecordCalls(p, v.compiled.patches);
    }

    method ReserveSpaceEnd(p: Plan) returns (offset: nat)
      requires thunkLocations == p.thunks
      requires linker.needsThunk(p.placed) <==> DecideEnd(linker, reach, p, unprocessed).needsThunk
      modifies this
      ensures offset == Reserve(linker, p) && thunkLocations == ReserveThunks(linker, p)
      ensures unprocessed == DecideEnd(linker, reach, p, old(unprocessed)).rest
    {
      hide Process, Linker.Align;
      offset := p.offset;
      var aligned := linker.Align(offset);
      var needsThunk := ProcessPatches(p, aligned, None, aligned);
      if needsThunk {
        thunkLocations := thunkLocations + [aligned];
        offset := linker.Align(aligned + |linker.thunk|);
      }
    }
  }
}
