/** Disaggregated execution: plans, the readiness gate, the segment and handoff state machines, and
    retries, as steps of one protocol. */
module ExecutionProtocol {
  import opened Digraph
  import opened IntelligenceModels
  import opened Texts
  import CycleDetection

  datatype SegmentState = Planned | Ready | Running | Succeeded | Failed | Cancelled

  datatype HandoffState = Pending | Available | Consumed | Invalidated

  datatype FailureCategory = InputFailure | HandoffFailure | CompatibilityFailure | RuntimeFailure | VerificationFailure | CancelledFailure

  const MAX_SEGMENTS: nat := 256
  const MAX_RETRY_ATTEMPTS: nat := 8

  datatype RetryPolicy = RetryPolicy(maxAttempts: nat, retryable: set<FailureCategory>)
  {
    predicate Valid() { 1 <= maxAttempts <= MAX_RETRY_ATTEMPTS }
  }

  datatype Segment = Segment(id: string, namespace: string, dependencies: set<string>, requiredHandoffs: set<string>, state: SegmentState)

  datatype Handoff = Handoff(id: string, planId: string, namespace: string, producer: string, consumer: string, state: HandoffState)

  // ----- building a plan

  function DependencyArcs(segments: map<string, Segment>): set<Arc<()>> {
    set s, d | s in segments && d in segments[s].dependencies :: Arc(s, d, ())
  }

  datatype Plan = Plan(segments: map<string, Segment>, handoffs: seq<Handoff>, entries: set<string>, terminals: set<string>)

  function ById(segments: seq<Segment>): (m: map<string, Segment>)
    ensures |m| <= |segments|
    ensures forall id :: id in m ==> m[id].id == id && m[id] in segments
    ensures forall s :: s in segments ==> s.id in m
  {
    if segments == [] then map[] else
    var last := segments[|segments|-1];
    ById(segments[..|segments|-1])[last.id := last]
  }

  predicate UniqueIds(segments: seq<Segment>) {
    forall i, j :: 0 <= i < j < |segments| ==> segments[i].id != segments[j].id
  }

  lemma UniqueExtends(init: seq<Segment>, last: Segment)
    ensures UniqueIds(init + [last]) <==> UniqueIds(init) && forall s :: s in init ==> s.id != last.id
  {
    var all := init + [last];
    assert forall i :: 0 <= i < |init| ==> all[i] == init[i] && init[i] in init;
    if UniqueIds(all) {
      forall s | s in init ensures s.id != last.id {
        var i :| 0 <= i < |init| && init[i] == s;
        assert all[i].id != all[|init|].id;
      }
    }
  }

  lemma DictionaryGrows(init: seq<Segment>, last: Segment)
    ensures |ById(init + [last])| == |ById(init)| + (if exists s :: s in init && s.id == last.id then 0 else 1)
  {
    assert (init + [last])[..|init|] == init;
    if s :| s in init && s.id == last.id {
      assert ById(init + [last]).Keys == ById(init).Keys;
    } else {
      assert ById(init + [last]).Keys == ById(init).Keys + {last.id};
    }
  }

  /** The dictionary is as large as the list exactly when no two segments share an id. */
  lemma {:induction false} SizeDetectsDuplicates(segments: seq<Segment>)
    ensures |ById(segments)| == |segments| <==> UniqueIds(segments)
  {
    if segments != [] {
      var init, last := segments[..|segments|-1], segments[|segments|-1];
      assert segments == init + [last];
      SizeDetectsDuplicates(init);
      UniqueExtends(init, last);
      DictionaryGrows(init, last);
    }
  }

  predicate DependenciesDeclared(segments: map<string, Segment>) {
    forall s, d :: s in segments && d in segments[s].dependencies ==> d in segments
  }

  predicate HandoffsBelong(handoffs: seq<Handoff>, segments: map<string, Segment>, planId: string, namespace: string) {
    forall h :: h in handoffs ==>
      h.planId == planId && h.namespace == namespace && h.producer in segments && h.consumer in segments
  }

  function Entries(segments: map<string, Segment>): set<string> {
    set s | s in segments && segments[s].dependencies == {}
  }

  function Terminals(segments: map<string, Segment>): set<string> {
    set s | s in segments && forall t :: t in segments ==> s !in segments[t].dependencies
  }

  /** A finite acyclic plan has a segment without dependencies and one that nothing depends on. */
  lemma PlanHasEnds(segments: map<string, Segment>)
    requires segments != map[] && DependenciesDeclared(segments) && !Cyclic(DependencyArcs(segments))
    ensures Entries(segments) != {} && Terminals(segments) != {}
  {
    var arcs := DependencyArcs(segments);
    assert segments.Keys != {} by { var s :| s in segments; }
    forall s, d | s in segments && d in segments[s].dependencies
      ensures Arc(s, d, ()) in arcs && Arc(d, s, ()) in Reversed(arcs)
    {
      assert Arc(s, d, ()) in arcs;
    }
    SourceExists(segments.Keys, arcs);
    var t :| t in Sources(segments.Keys, arcs);
    assert t in Terminals(segments);
    if Cyclic(Reversed(arcs)) { ReversedCycle(arcs); }
    SourceExists(segments.Keys, Reversed(arcs));
    var e :| e in Sources(segments.Keys, Reversed(arcs));
    assert e in Entries(segments);
  }

  /** build_disaggregated_execution_plan accepts exactly the bounded, duplicate-free, closed, acyclic
      plans; its last check, for entries and terminals, never fires. */
  method BuildPlan(segments: seq<Segment>, handoffs: seq<Handoff>, planId: string, namespace: string) returns (r: Option<Plan>)
    ensures r.Some? <==>
              && 0 < |segments| <= 256 && UniqueIds(segments)
              && (forall s :: s in segments ==> s.namespace == namespace)
              && DependenciesDeclared(ById(segments)) && !Cyclic(DependencyArcs(ById(segments)))
              && HandoffsBelong(handoffs, ById(segments), planId, namespace)
    ensures r.Some? ==>
              && r.value == Plan(ById(segments), handoffs, Entries(ById(segments)), Terminals(ById(segments)))
              && r.value.entries != {} && r.value.terminals != {}
  {
    if segments == [] || |segments| > MAX_SEGMENTS {
      return None;
    }
    var byId := ById(segments);
    SizeDetectsDuplicates(segments);
    if |byId| != |segments| {
      return None;
    }
    var sound := CheckSegments(segments, byId, namespace);
    if !sound {
      return None;
    }
    var ok := CycleDetection.CycleFree(byId.Keys, DependencyArcs(byId));
    if !ok {
      return None;
    }
    var consumed := set s, d | s in byId && d in byId[s].dependencies :: d;
    var entries := set s | s in byId && |byId[s].dependencies| == 0;
    var terminals := byId.Keys - consumed;
    assert segments[0] in segments;
    EndsAre(byId, consumed, entries, terminals);
    if entries == {} || terminals == {} {
      return None;
    }
    var belong := CheckHandoffs(handoffs, byId, planId, namespace);
    return if belong then Some(Plan(byId, handoffs, entries, terminals)) else None;
  }

  /** The namespace and the dependencies of every segment. */
  method CheckSegments(segments: seq<Segment>, byId: map<string, Segment>, namespace: string) returns (ok: bool)
    requires UniqueIds(segments) && byId == ById(segments)
    ensures ok <==> (forall s :: s in segments ==> s.namespace == namespace) && DependenciesDeclared(byId)
  {
    UniqueAreLookedUp(segments);
    for i := 0 to |segments|
      invariant forall j :: 0 <= j < i ==> segments[j].namespace == namespace && segments[j].dependencies <= byId.Keys
    {
      var s := segments[i];
      if s.namespace != namespace {
        return false;
      }
      if d :| d in s.dependencies && d !in byId {
        assert byId[s.id] == s;
        return false;
      }
    }
    forall s | s in byId ensures byId[s].dependencies <= byId.Keys {
      assert byId[s] in segments;
    }
    return true;
  }

  method CheckHandoffs(handoffs: seq<Handoff>, byId: map<string, Segment>, planId: string, namespace: string) returns (ok: bool)
    ensures ok <==> HandoffsBelong(handoffs, byId, planId, namespace)
  {
    for i := 0 to |handoffs|
      invariant HandoffsBelong(handoffs[..i], byId, planId, namespace)
    {
      var h := handoffs[i];
      assert handoffs[..i+1] == handoffs[..i] + [h];
      if h.planId != planId {
        return false;
      }
      if h.producer !in byId || h.consumer !in byId {
        return false;
      }
      if h.namespace != namespace {
        return false;
      }
    }
    assert handoffs[..|handoffs|] == handoffs;
    return true;
  }

  lemma EndsAre(segments: map<string, Segment>, consumed: set<string>, entries: set<string>, terminals: set<string>)
    requires consumed == set s, d | s in segments && d in segments[s].dependencies :: d
    requires entries == (set s | s in segments && |segments[s].dependencies| == 0) && terminals == segments.Keys - consumed
    requires segments != map[] && DependenciesDeclared(segments) && !Cyclic(DependencyArcs(segments))
    ensures entries == Entries(segments) != {} && terminals == Terminals(segments) != {}
  {
    PlanHasEnds(segments);
  }

  lemma {:induction false} UniqueAreLookedUp(segments: seq<Segment>)
    requires UniqueIds(segments)
    ensures forall s :: s in segments ==> ById(segments)[s.id] == s
  {
    if segments != [] {
      var init, last := segments[..|segments|-1], segments[|segments|-1];
      assert segments == init + [last];
      UniqueExtends(init, last);
      UniqueAreLookedUp(init);
    }
  }

  // ----- the gates and the transitions

  predicate EvaluateReadiness(s: Segment, segments: map<string, Segment>, handoffs: map<string, Handoff>) {
    && s.state == Planned
    && (forall d :: d in s.dependencies ==> d in segments && segments[d].state == Succeeded)
    && (forall h :: h in s.requiredHandoffs ==>
          h in handoffs && handoffs[h].consumer == s.id && handoffs[h].state == Available)
  }

  predicate Allowed(current: SegmentState, target: SegmentState) {
    match current
    case Planned => target == Ready || target == Cancelled
    case Ready => target == Running || target == Cancelled
    case Running => target == Succeeded || target == Failed || target == Cancelled
    case Failed => target == Ready
    case _ => false
  }

  function Transition(s: Segment, target: SegmentState, policy: Option<RetryPolicy>, attempt: int, verified: bool): Option<Segment> {
    if !Allowed(s.state, target) then None
    else if s.state == Failed && target == Ready && (policy.None? || attempt > policy.value.maxAttempts) then None
    else if target == Succeeded && !verified then None
    else Some(s.(state := target))
  }

  predicate CanRetry(category: FailureCategory, policy: RetryPolicy, attempt: int) {
    attempt < policy.maxAttempts && category in policy.retryable
  }

  function MakeAvailable(h: Handoff): Option<Handoff> {
    if h.state != Pending then None else Some(h.(state := Available))
  }

  function Consume(h: Handoff, consumer: string): Option<Handoff> {
    if h.state != Available || consumer != h.consumer then None else Some(h.(state := Consumed))
  }

  function Invalidate(h: Handoff, reason: string): Option<Handoff> {
    if (h.state != Pending && h.state != Available) || !Nonblank(reason) then None else Some(h.(state := Invalidated))
  }

  // ----- runs

  /** `attempts` counts how often a segment was started; `failures` holds its last failure. */
  datatype Run = Run(
    segments: map<string, Segment>,
    handoffs: map<string, Handoff>,
    attempts: map<string, nat>,
    failures: map<string, FailureCategory>)

  datatype Step =
    | Activate(id: string)
    | Start(id: string)
    | Succeed(id: string, verified: bool)
    | Fail(id: string, category: FailureCategory)
    | Retry(id: string)
    | Cancel(id: string)
    | OfferHandoff(handoff: string)
    | ConsumeHandoff(handoff: string, consumer: string)
    | InvalidateHandoff(handoff: string, reason: string)

  function MoveTo(r: Run, id: string, next: Option<Segment>): Option<Run> {
    if next.None? then None else Some(r.(segments := r.segments[id := next.value]))
  }

  function SetHandoff(r: Run, id: string, next: Option<Handoff>): Option<Run> {
    if next.None? then None else Some(r.(handoffs := r.handoffs[id := next.value]))
  }

  /** One step: None when a gate holds it back or the state machine raises. Activation goes through
      the readiness gate, a retry through can_retry_segment. */
  function Take(r: Run, policies: map<string, RetryPolicy>, step: Step): Option<Run>
    requires r.segments.Keys == r.attempts.Keys == policies.Keys
  {
    match step
    case Activate(id) =>
      if id !in r.segments || !EvaluateReadiness(r.segments[id], r.segments, r.handoffs) then None
      else MoveTo(r, id, Transition(r.segments[id], Ready, None, 1, false))
    case Start(id) =>
      if id !in r.segments then None
      else MoveTo(r.(attempts := r.attempts[id := r.attempts[id] + 1]), id,
                  Transition(r.segments[id], Running, None, 1, false))
    case Succeed(id, verified) =>
      if id !in r.segments then None
      else MoveTo(r, id, Transition(r.segments[id], Succeeded, None, 1, verified))
    case Fail(id, category) =>
      if id !in r.segments then None
      else MoveTo(r.(failures := r.failures[id := category]), id,
                  Transition(r.segments[id], Failed, None, 1, false))
    case Retry(id) =>
      if id !in r.segments || id !in r.failures || !CanRetry(r.failures[id], policies[id], r.attempts[id]) then None
      else MoveTo(r, id, Transition(r.segments[id], Ready, Some(policies[id]), r.attempts[id] + 1, false))
    case Cancel(id) =>
      if id !in r.segments then None
      else MoveTo(r, id, Transition(r.segments[id], Cancelled, None, 1, false))
    case OfferHandoff(h) =>
      if h !in r.handoffs then None else SetHandoff(r, h, MakeAvailable(r.handoffs[h]))
    case ConsumeHandoff(h, consumer) =>
      if h !in r.handoffs then None else SetHandoff(r, h, Consume(r.handoffs[h], consumer))
    case InvalidateHandoff(h, reason) =>
      if h !in r.handoffs then None else SetHandoff(r, h, Invalidate(r.handoffs[h], reason))
  }

  predicate WellTyped(r: Run, policies: map<string, RetryPolicy>) {
    && r.segments.Keys == r.attempts.Keys == policies.Keys
    && (forall s :: s in r.segments ==> r.segments[s].id == s && policies[s].Valid())
  }

  predicate Initial(r: Run, policies: map<string, RetryPolicy>) {
    && WellTyped(r, policies)
    && (forall s :: s in r.segments ==> r.segments[s].state == Planned && r.attempts[s] == 0)
    && r.failures == map[]
  }

  /** The run after a list of steps, each of which must succeed. */
  function Execute(r: Run, policies: map<string, RetryPolicy>, steps: seq<Step>): Option<Run>
    requires WellTyped(r, policies)
    decreases |steps|
  {
    if steps == [] then Some(r) else
    var next := Take(r, policies, steps[0]);
    if next.None? then None else
    TakeKeepsTypes(r, policies, steps[0]);
    Execute(next.value, policies, steps[1..])
  }

  lemma TakeKeepsTypes(r: Run, policies: map<string, RetryPolicy>, step: Step)
    requires WellTyped(r, policies) && Take(r, policies, step).Some?
    ensures WellTyped(Take(r, policies, step).value, policies)
  {}

  /** When each step goes through, in terms of the state it is taken in. In a safe state no planned
      segment has a recorded failure, so that a retry goes through for failed segments only. */
  lemma StepsAreGuarded(r: Run, policies: map<string, RetryPolicy>, step: Step)
    requires WellTyped(r, policies)
    ensures Take(r, policies, step).Some? <==>
      match step
      case Activate(s) =>
        && s in r.segments && r.segments[s].state == Planned
        && (forall d :: d in r.segments[s].dependencies ==> d in r.segments && r.segments[d].state == Succeeded)
        && (forall h :: h in r.segments[s].requiredHandoffs ==>
              h in r.handoffs && r.handoffs[h].state == Available && r.handoffs[h].consumer == s)
      case Start(s) => s in r.segments && r.segments[s].state == Ready
      case Succeed(s, verified) => s in r.segments && r.segments[s].state == Running && verified
      case Fail(s, _) => s in r.segments && r.segments[s].state == Running
      case Retry(s) =>
        && s in r.segments && r.segments[s].state in {Failed, Planned}
        && s in r.failures && r.failures[s] in policies[s].retryable && r.attempts[s] < policies[s].maxAttempts
      case Cancel(s) => s in r.segments && r.segments[s].state in {Planned, Ready, Running}
      case OfferHandoff(h) => h in r.handoffs && r.handoffs[h].state == Pending
      case ConsumeHandoff(h, consumer) =>
        h in r.handoffs && r.handoffs[h].state == Available && r.handoffs[h].consumer == consumer
      case InvalidateHandoff(h, reason) =>
        h in r.handoffs && r.handoffs[h].state in {Pending, Available} && Strip(reason) != ""
  {
    match step
    case Retry(s) => if s in r.segments { RetryIsAllowed(r, policies, s); }
    case InvalidateHandoff(_, reason) => NonblankExactly(reason);
    case _ =>
  }

  lemma RetryIsAllowed(r: Run, policies: map<string, RetryPolicy>, s: string)
    requires WellTyped(r, policies) && s in r.segments
    ensures Take(r, policies, Retry(s)).Some? <==>
              && r.segments[s].state in {Failed, Planned}
              && s in r.failures && r.failures[s] in policies[s].retryable && r.attempts[s] < policies[s].maxAttempts
  {}

  /** What each step changes: one state, the count of starts, the recorded failure, and nothing else. */
  lemma StepsChangeOneThing(r: Run, policies: map<string, RetryPolicy>, step: Step)
    requires WellTyped(r, policies) && Take(r, policies, step).Some?
    ensures var r' := Take(r, policies, step).value;
      match step
      case Activate(s) => r' == r.(segments := r.segments[s := r.segments[s].(state := Ready)])
      case Start(s) => r' == r.(segments := r.segments[s := r.segments[s].(state := Running)],
                                attempts := r.attempts[s := r.attempts[s] + 1])
      case Succeed(s, _) => r' == r.(segments := r.segments[s := r.segments[s].(state := Succeeded)])
      case Fail(s, category) => r' == r.(segments := r.segments[s := r.segments[s].(state := Failed)],
                                         failures := r.failures[s := category])
      case Retry(s) => r' == r.(segments := r.segments[s := r.segments[s].(state := Ready)])
      case Cancel(s) => r' == r.(segments := r.segments[s := r.segments[s].(state := Cancelled)])
      case OfferHandoff(h) => r' == r.(handoffs := r.handoffs[h := r.handoffs[h].(state := Available)])
      case ConsumeHandoff(h, _) => r' == r.(handoffs := r.handoffs[h := r.handoffs[h].(state := Consumed)])
      case InvalidateHandoff(h, _) => r' == r.(handoffs := r.handoffs[h := r.handoffs[h].(state := Invalidated)])
  {}

  // ----- safety

  predicate Begun(state: SegmentState) { state != Planned && state != Cancelled }

  /** The number of starts that fits a state. */
  predicate StartsFit(state: SegmentState, starts: nat, policy: RetryPolicy) {
    match state
    case Planned => starts == 0
    case Ready => starts < policy.maxAttempts
    case Cancelled => starts <= policy.maxAttempts
    case _ => 1 <= starts <= policy.maxAttempts
  }

  predicate DependenciesDone(segments: map<string, Segment>, s: string)
    requires s in segments
  {
    forall d :: d in segments[s].dependencies ==> d in segments && segments[d].state == Succeeded
  }

  /** Every handoff that s requires is there, addressed to s, and has left PENDING. */
  predicate HandoffsArrived(r: Run, s: string)
    requires s in r.segments
  {
    forall h :: h in r.segments[s].requiredHandoffs ==>
      h in r.handoffs && r.handoffs[h].consumer == s && r.handoffs[h].state != Pending
  }

  /** What every step keeps of a segment: once begun, its dependencies have succeeded and its handoffs
      have arrived; the number of starts fits the state; and only a segment that has begun has failed. */
  predicate SafeSegment(r: Run, policies: map<string, RetryPolicy>, s: string)
    requires s in r.segments && s in r.attempts && s in policies
  {
    && (Begun(r.segments[s].state) ==> DependenciesDone(r.segments, s) && HandoffsArrived(r, s))
    && StartsFit(r.segments[s].state, r.attempts[s], policies[s])
    && (s in r.failures ==> r.segments[s].state != Planned)
  }

  predicate Safe(r: Run, policies: map<string, RetryPolicy>) {
    WellTyped(r, policies) && forall s :: s in r.segments ==> SafeSegment(r, policies, s)
  }

  /** The shape of every step on a segment: one segment changes to an allowed state, its starts are
      counted, and it begins only through the readiness gate or the retry gate. */
  predicate Moves(r: Run, policies: map<string, RetryPolicy>, r': Run, id: string, target: SegmentState)
    requires r.segments.Keys == r.attempts.Keys == policies.Keys
  {
    && id in r.segments
    && var from := r.segments[id].state;
       && Allowed(from, target)
       && r'.segments == r.segments[id := r.segments[id].(state := target)]
       && r'.attempts == r.attempts[id := if target == Running then r.attempts[id] + 1 else r.attempts[id]]
       && r'.handoffs == r.handoffs
       && (target == Failed || r'.failures == r.failures) && r'.failures.Keys <= r.failures.Keys + {id}
       && (from == Planned && target == Ready ==>
             EvaluateReadiness(r.segments[id], r.segments, r.handoffs) || id in r.failures)
       && (from == Failed && target == Ready ==> r.attempts[id] < policies[id].maxAttempts)
  }

  predicate OnHandoff(step: Step) { step.OfferHandoff? || step.ConsumeHandoff? || step.InvalidateHandoff? }

  lemma TakeMovesSegment(r: Run, policies: map<string, RetryPolicy>, step: Step) returns (id: string, target: SegmentState)
    requires WellTyped(r, policies) && Take(r, policies, step).Some? && !OnHandoff(step)
    ensures Moves(r, policies, Take(r, policies, step).value, id, target)
  {
    id := step.id;
    target := match step
      case Start(_) => Running
      case Succeed(_, _) => Succeeded
      case Fail(_, _) => Failed
      case Cancel(_) => Cancelled
      case _ => Ready;
  }

  lemma MoveKeepsDone(r: Run, policies: map<string, RetryPolicy>, r': Run, id: string, target: SegmentState, s: string)
    requires r.segments.Keys == r.attempts.Keys == policies.Keys && Moves(r, policies, r', id, target)
    requires s in r.segments && DependenciesDone(r.segments, s)
    ensures DependenciesDone(r'.segments, s)
  {}

  lemma MoveKeepsStarts(r: Run, policies: map<string, RetryPolicy>, r': Run, id: string, target: SegmentState)
    requires r.segments.Keys == r.attempts.Keys == policies.Keys && Moves(r, policies, r', id, target)
    requires policies[id].Valid() && StartsFit(r.segments[id].state, r.attempts[id], policies[id])
    ensures StartsFit(target, r'.attempts[id], policies[id])
  {}

  lemma MoveKeepsSegment(r: Run, policies: map<string, RetryPolicy>, r': Run, id: string, target: SegmentState, s: string)
    requires WellTyped(r, policies) && WellTyped(r', policies) && Moves(r, policies, r', id, target)
    requires s in r.segments && SafeSegment(r, policies, s) && SafeSegment(r, policies, id)
    ensures SafeSegment(r', policies, s)
  {
    MoveKeepsStarts(r, policies, r', id, target);
    if Begun(r'.segments[s].state) {
      assert DependenciesDone(r.segments, s) && HandoffsArrived(r, s);
      MoveKeepsDone(r, policies, r', id, target, s);
    }
  }

  /** Handoffs stay, keep their consumer and never return to PENDING. */
  predicate HandoffsAdvance(r: Run, r': Run) {
    forall h :: h in r.handoffs ==>
      h in r'.handoffs && r'.handoffs[h].consumer == r.handoffs[h].consumer
      && (r'.handoffs[h].state == Pending ==> r.handoffs[h].state == Pending)
  }

  lemma TakeAdvancesHandoffs(r: Run, policies: map<string, RetryPolicy>, step: Step)
    requires WellTyped(r, policies) && Take(r, policies, step).Some?
    ensures HandoffsAdvance(r, Take(r, policies, step).value)
  {}

  lemma MoveKeepsSafe(r: Run, policies: map<string, RetryPolicy>, r': Run, id: string, target: SegmentState)
    requires Safe(r, policies) && WellTyped(r', policies) && Moves(r, policies, r', id, target)
    ensures Safe(r', policies)
  {
    forall s | s in r'.segments ensures SafeSegment(r', policies, s) {
      MoveKeepsSegment(r, policies, r', id, target, s);
    }
  }

  lemma MoveKeepsArcs(r: Run, policies: map<string, RetryPolicy>, r': Run, id: string, target: SegmentState)
    requires r.segments.Keys == r.attempts.Keys == policies.Keys && Moves(r, policies, r', id, target)
    ensures DependencyArcs(r'.segments) == DependencyArcs(r.segments)
  {}

  lemma HandoffLeavesSegments(r: Run, policies: map<string, RetryPolicy>, step: Step)
    requires WellTyped(r, policies) && Take(r, policies, step).Some? && OnHandoff(step)
    ensures var r' := Take(r, policies, step).value;
            r'.segments == r.segments && r'.attempts == r.attempts && r'.failures == r.failures
  {}

  lemma HandoffKeepsSafe(r: Run, policies: map<string, RetryPolicy>, r': Run)
    requires Safe(r, policies) && HandoffsAdvance(r, r')
    requires r'.segments == r.segments && r'.attempts == r.attempts && r'.failures == r.failures
    ensures Safe(r', policies)
  {
    forall s | s in r'.segments ensures SafeSegment(r', policies, s) {
      assert SafeSegment(r, policies, s);
    }
  }

  lemma TakeKeepsSafe(r: Run, policies: map<string, RetryPolicy>, step: Step)
    requires Safe(r, policies) && Take(r, policies, step).Some?
    ensures Safe(Take(r, policies, step).value, policies)
    ensures DependencyArcs(Take(r, policies, step).value.segments) == DependencyArcs(r.segments)
  {
    var r' := Take(r, policies, step).value;
    TakeKeepsTypes(r, policies, step);
    if !OnHandoff(step) {
      var id, target := TakeMovesSegment(r, policies, step);
      MoveKeepsSafe(r, policies, r', id, target);
      MoveKeepsArcs(r, policies, r', id, target);
    } else {
      HandoffLeavesSegments(r, policies, step);
      TakeAdvancesHandoffs(r, policies, step);
      HandoffKeepsSafe(r, policies, r');
    }
  }

  lemma {:induction false} RunsAreSafe(r: Run, policies: map<string, RetryPolicy>, steps: seq<Step>)
    requires Safe(r, policies) && Execute(r, policies, steps).Some?
    ensures Safe(Execute(r, policies, steps).value, policies)
    ensures DependencyArcs(Execute(r, policies, steps).value.segments) == DependencyArcs(r.segments)
    decreases |steps|
  {
    if steps != [] {
      TakeKeepsSafe(r, policies, steps[0]);
      RunsAreSafe(Take(r, policies, steps[0]).value, policies, steps[1..]);
    }
  }

  /** In a safe state, everything a begun segment depends on, however remotely, has succeeded. */
  lemma SafeIsTransitive(r: Run, policies: map<string, RetryPolicy>, s: string, d: string)
    requires Safe(r, policies) && s in r.segments && Begun(r.segments[s].state)
    requires d != s && Reach(DependencyArcs(r.segments), s, d)
    ensures d in r.segments && r.segments[d].state == Succeeded
  {
    var done := set n | n in r.segments && r.segments[n].state == Succeeded;
    var e := ReachFirstArc(DependencyArcs(r.segments), s, d);
    DependenciesInside(r, policies, done, s);
    forall a | a in DependencyArcs(r.segments) && a.src in done ensures a.dst in done {
      DependenciesInside(r, policies, done, a.src);
    }
    ReachStaysInside(DependencyArcs(r.segments), done, e.dst, d);
  }

  lemma DependenciesInside(r: Run, policies: map<string, RetryPolicy>, done: set<string>, s: string)
    requires Safe(r, policies) && s in r.segments && Begun(r.segments[s].state)
    requires done == set n | n in r.segments && r.segments[n].state == Succeeded
    ensures forall a :: a in DependencyArcs(r.segments) && a.src == s ==> a.dst in done
  {
    assert SafeSegment(r, policies, s);
  }

  /** In every run from an initial state, whatever a ready, running, failed or succeeded segment
      depends on, directly or not, has succeeded; every handoff it requires is addressed to it and has
      been offered; and no segment is started more often than its retry policy allows. */
  lemma ExecutionIsSafe(r: Run, policies: map<string, RetryPolicy>, steps: seq<Step>, s: string)
    requires Initial(r, policies) && Execute(r, policies, steps).Some? && s in r.segments
    ensures var now := Execute(r, policies, steps).value;
            && s in now.segments && s in now.attempts
            && now.attempts[s] <= policies[s].maxAttempts <= 8
            && (now.segments[s].state !in {Planned, Cancelled} ==>
                  && (forall d :: d != s && Reach(DependencyArcs(r.segments), s, d) ==>
                        d in now.segments && now.segments[d].state == Succeeded)
                  && (forall h :: h in now.segments[s].requiredHandoffs ==>
                        h in now.handoffs && now.handoffs[h].consumer == s && now.handoffs[h].state != Pending))
  {
    RunsAreSafe(r, policies, steps);
    var now := Execute(r, policies, steps).value;
    ExecuteKeepsKeys(r, policies, steps);
    if Begun(now.segments[s].state) {
      assert SafeSegment(now, policies, s);
      forall d | d != s && Reach(DependencyArcs(r.segments), s, d)
        ensures d in now.segments && now.segments[d].state == Succeeded
      {
        SafeIsTransitive(now, policies, s, d);
      }
    }
  }

  // ----- what the steps of a run tell about its last state

  function Count(steps: seq<Step>, step: Step): nat {
    if steps == [] then 0 else (if steps[0] == step then 1 else 0) + Count(steps[1..], step)
  }

  /** `attempts` is the number of starts, and a segment succeeds only by a step that says so and is
      verified. */
  lemma {:induction false} RunsAreRecorded(r: Run, policies: map<string, RetryPolicy>, steps: seq<Step>, s: string)
    requires WellTyped(r, policies) && Execute(r, policies, steps).Some? && s in r.segments
    ensures var now := Execute(r, policies, steps).value;
            && s in now.segments && s in now.attempts
            && now.attempts[s] == r.attempts[s] + Count(steps, Start(s))
            && (now.segments[s].state == Succeeded ==> r.segments[s].state == Succeeded || Succeed(s, true) in steps)
    decreases |steps|
  {
    if steps != [] {
      TakeKeepsTypes(r, policies, steps[0]);
      StepsAreGuarded(r, policies, steps[0]);
      StepIsRecorded(r, policies, steps[0], s);
      RunsAreRecorded(Take(r, policies, steps[0]).value, policies, steps[1..], s);
      assert forall x :: x in steps[1..] ==> x in steps;
    }
  }

  lemma StepIsRecorded(r: Run, policies: map<string, RetryPolicy>, step: Step, s: string)
    requires WellTyped(r, policies) && Take(r, policies, step).Some? && s in r.segments
    ensures var r' := Take(r, policies, step).value;
            && s in r'.segments && s in r'.attempts
            && r'.attempts[s] == r.attempts[s] + (if step == Start(s) then 1 else 0)
            && (r'.segments[s].state == Succeeded ==> r.segments[s].state == Succeeded || step == Succeed(s, true))
  {
    StepsAreGuarded(r, policies, step);
    StepsChangeOneThing(r, policies, step);
  }

  /** A succeeded or cancelled segment stays as it is. */
  lemma {:induction false} EndsAreFinal(r: Run, policies: map<string, RetryPolicy>, steps: seq<Step>, s: string)
    requires WellTyped(r, policies) && Execute(r, policies, steps).Some? && s in r.segments
    requires r.segments[s].state in {Succeeded, Cancelled}
    ensures s in Execute(r, policies, steps).value.segments
    ensures Execute(r, policies, steps).value.segments[s] == r.segments[s]
    decreases |steps|
  {
    if steps != [] {
      TakeKeepsTypes(r, policies, steps[0]);
      StepsAreGuarded(r, policies, steps[0]);
      StepsChangeOneThing(r, policies, steps[0]);
      EndsAreFinal(Take(r, policies, steps[0]).value, policies, steps[1..], s);
    }
  }

  /** The readiness of s: its dependencies have succeeded, its handoffs are available to it. */
  predicate MayBegin(r: Run, s: string)
    requires s in r.segments
  {
    && (forall d :: d in r.segments[s].dependencies ==> d in r.segments && r.segments[d].state == Succeeded)
    && (forall h :: h in r.segments[s].requiredHandoffs ==>
          h in r.handoffs && r.handoffs[h].state == Available && r.handoffs[h].consumer == s)
  }

  /** A planned segment that has begun by the end of a run was activated in it, once all of its
      dependencies had succeeded and all of its handoffs were available. */
  lemma {:induction false} BegunWasActivated(r: Run, policies: map<string, RetryPolicy>, steps: seq<Step>, s: string)
    returns (i: nat, at: Run)
    requires Safe(r, policies) && Execute(r, policies, steps).Some?
    requires s in r.segments && r.segments[s].state == Planned
    requires var now := Execute(r, policies, steps).value; s in now.segments && now.segments[s].state !in {Planned, Cancelled}
    ensures i < |steps| && steps[i] == Activate(s) && Execute(r, policies, steps[..i]) == Some(at)
    ensures s in at.segments && MayBegin(at, s)
    decreases |steps|
  {
    assert SafeSegment(r, policies, s);
    TakeKeepsSafe(r, policies, steps[0]);
    StepsAreGuarded(r, policies, steps[0]);
    StepsChangeOneThing(r, policies, steps[0]);
    var next := Take(r, policies, steps[0]).value;
    if steps[0] == Activate(s) {
      i, at := 0, r;
    } else {
      if steps[0] == Cancel(s) { EndsAreFinal(next, policies, steps[1..], s); }
      i, at := BegunWasActivated(next, policies, steps[1..], s);
      i := i + 1;
      ExecuteFromNext(r, policies, steps, i);
    }
  }

  lemma ExecuteFromNext(r: Run, policies: map<string, RetryPolicy>, steps: seq<Step>, i: nat)
    requires WellTyped(r, policies) && 0 < i <= |steps| && Take(r, policies, steps[0]).Some?
    requires WellTyped(Take(r, policies, steps[0]).value, policies)
    ensures Execute(r, policies, steps[..i]) == Execute(Take(r, policies, steps[0]).value, policies, steps[1..][..i-1])
  {
    assert steps[..i][1..] == steps[1..][..i-1];
  }

  /** Readiness is evaluated once: a ready segment still starts after one of its handoffs has been
      invalidated. */
  lemma InvalidationIsNotSeen(r: Run, policies: map<string, RetryPolicy>, s: string, h: string, reason: string)
    requires WellTyped(r, policies) && s in r.segments && r.segments[s].state == Ready
    requires h in r.segments[s].requiredHandoffs && h in r.handoffs && r.handoffs[h].state == Available && Nonblank(reason)
    ensures var next := Take(r, policies, InvalidateHandoff(h, reason));
            && next.Some? && next.value.handoffs[h].state == Invalidated && WellTyped(next.value, policies)
            && Take(next.value, policies, Start(s)).Some?
  {
    NonblankExactly(reason);
    StepsAreGuarded(r, policies, InvalidateHandoff(h, reason));
    StepsChangeOneThing(r, policies, InvalidateHandoff(h, reason));
    var next := Take(r, policies, InvalidateHandoff(h, reason)).value;
    StepsAreGuarded(next, policies, Start(s));
  }

  lemma {:induction false} ExecuteKeepsKeys(r: Run, policies: map<string, RetryPolicy>, steps: seq<Step>)
    requires WellTyped(r, policies) && Execute(r, policies, steps).Some?
    ensures WellTyped(Execute(r, policies, steps).value, policies)
    decreases |steps|
  {
    if steps != [] {
      TakeKeepsTypes(r, policies, steps[0]);
      ExecuteKeepsKeys(Take(r, policies, steps[0]).value, policies, steps[1..]);
    }
  }

  /** A retry that can_retry_segment admits never trips the check inside the transition; the step
      succeeds exactly when the gate holds of a failed segment. */
  lemma RetryGateSuffices(r: Run, policies: map<string, RetryPolicy>, id: string)
    requires Safe(r, policies) && id in r.segments && id in r.failures
    ensures Take(r, policies, Retry(id)).Some? <==>
              r.segments[id].state == Failed && CanRetry(r.failures[id], policies[id], r.attempts[id])
  {}

  // ----- progress

  /** If every segment is planned or has succeeded, some has not, and every required handoff of the
      planned ones is available to its consumer, then some segment is ready to be activated. */
  lemma SomeSegmentIsReady(r: Run, policies: map<string, RetryPolicy>) returns (s: string)
    requires WellTyped(r, policies)
    requires DependenciesDeclared(r.segments) && !Cyclic(DependencyArcs(r.segments))
    requires forall s :: s in r.segments ==> r.segments[s].state == Planned || r.segments[s].state == Succeeded
    requires exists s :: s in r.segments && r.segments[s].state != Succeeded
    requires forall s, h :: s in r.segments && r.segments[s].state == Planned && h in r.segments[s].requiredHandoffs ==>
               h in r.handoffs && r.handoffs[h].consumer == s && r.handoffs[h].state == Available
    ensures s in r.segments && Take(r, policies, Activate(s)).Some?
  {
    var waiting := set n | n in r.segments && r.segments[n].state == Planned;
    var w :| w in r.segments && r.segments[w].state != Succeeded;
    assert w in waiting;
    s := FirstWaiting(r.segments, waiting);
    forall d | d in r.segments[s].dependencies ensures d in r.segments && r.segments[d].state == Succeeded {
      assert d !in waiting;
    }
    ActivatesWhenReady(r, policies, s);
  }

  lemma ActivatesWhenReady(r: Run, policies: map<string, RetryPolicy>, s: string)
    requires WellTyped(r, policies) && s in r.segments && EvaluateReadiness(r.segments[s], r.segments, r.handoffs)
    ensures Take(r, policies, Activate(s)).Some?
  {}

  lemma FirstWaiting(segments: map<string, Segment>, waiting: set<string>) returns (s: string)
    requires waiting != {} && waiting <= segments.Keys && !Cyclic(DependencyArcs(segments))
    ensures s in waiting && segments[s].dependencies !! waiting
  {
    var arcs := DependencyArcs(segments);
    if Cyclic(Reversed(arcs)) { ReversedCycle(arcs); }
    SourceExists(waiting, Reversed(arcs));
    s :| s in Sources(waiting, Reversed(arcs));
    forall d | d in segments[s].dependencies ensures d !in waiting {
      assert Arc(s, d, ()) in arcs;
      assert Arc(d, s, ()) in Reversed(arcs);
    }
  }

  // ----- every run is finite

  ghost function Sum(f: map<string, nat>): nat
    decreases |f|
  {
    if f == map[] then 0 else
    var k :| k in f;
    f[k] + Sum(f - {k})
  }

  lemma {:induction false} SumSplits(f: map<string, nat>, k: string)
    requires k in f
    ensures Sum(f) == f[k] + Sum(f - {k})
    decreases |f|
  {
    var j :| j in f && Sum(f) == f[j] + Sum(f - {j});
    if j != k {
      SumSplits(f - {j}, k);
      SumSplits(f - {k}, j);
      assert f - {j} - {k} == f - {k} - {j};
    }
  }

  lemma SumDrops(f: map<string, nat>, f': map<string, nat>, k: string)
    requires k in f && k in f' && f' == f[k := f'[k]] && f'[k] < f[k]
    ensures Sum(f') < Sum(f)
  {
    SumSplits(f, k);
    SumSplits(f', k);
    assert f - {k} == f' - {k};
  }

  /** An upper bound on the steps left to a segment. */
  function SegmentPotential(state: SegmentState, starts: nat, policy: RetryPolicy): nat {
    var left := if starts <= policy.maxAttempts then policy.maxAttempts - starts else 0;
    match state
    case Planned => 3 * policy.maxAttempts + 3
    case Ready => 3 * left + 2
    case Running => 3 * left + 4
    case Failed => 3 * left + 3
    case _ => 0
  }

  function HandoffPotential(state: HandoffState): nat {
    match state case Pending => 2 case Available => 1 case _ => 0
  }

  function SegmentPotentials(r: Run, policies: map<string, RetryPolicy>): map<string, nat>
    requires r.segments.Keys == r.attempts.Keys == policies.Keys
  {
    map s | s in r.segments :: SegmentPotential(r.segments[s].state, r.attempts[s], policies[s])
  }

  function HandoffPotentials(r: Run): map<string, nat> {
    map h | h in r.handoffs :: HandoffPotential(r.handoffs[h].state)
  }

  ghost function Potential(r: Run, policies: map<string, RetryPolicy>): nat
    requires r.segments.Keys == r.attempts.Keys == policies.Keys
  {
    Sum(SegmentPotentials(r, policies)) + Sum(HandoffPotentials(r))
  }

  lemma PotentialDrops(from: SegmentState, target: SegmentState, starts: nat, policy: RetryPolicy)
    requires Allowed(from, target) && StartsFit(from, starts, policy)
    requires from == Failed && target == Ready ==> starts < policy.maxAttempts
    ensures SegmentPotential(target, if target == Running then starts + 1 else starts, policy) < SegmentPotential(from, starts, policy)
  {}

  lemma MovedPotentials(r: Run, policies: map<string, RetryPolicy>, r': Run, id: string, target: SegmentState)
    requires WellTyped(r, policies) && WellTyped(r', policies) && Moves(r, policies, r', id, target)
    ensures id in r.segments && id in r'.segments
    ensures SegmentPotentials(r', policies) ==
              SegmentPotentials(r, policies)[id := SegmentPotentials(r', policies)[id]]
    ensures SegmentPotentials(r', policies)[id] ==
              SegmentPotential(target, if target == Running then r.attempts[id] + 1 else r.attempts[id], policies[id])
  {
    var p, p' := SegmentPotentials(r, policies), SegmentPotentials(r', policies);
    forall s | s in r.segments && s != id ensures p'[s] == p[s] {
      OthersKeepPotential(r, policies, r', id, target, s);
    }
    ChangedAtOne(p, p', id);
  }

  lemma OthersKeepPotential(r: Run, policies: map<string, RetryPolicy>, r': Run, id: string, target: SegmentState, s: string)
    requires WellTyped(r, policies) && WellTyped(r', policies) && Moves(r, policies, r', id, target)
    requires s in r.segments && s != id
    ensures SegmentPotentials(r', policies)[s] == SegmentPotentials(r, policies)[s]
  {
    assert r'.segments[s] == r.segments[s] && r'.attempts[s] == r.attempts[s];
  }

  lemma ChangedAtOne(p: map<string, nat>, p': map<string, nat>, id: string)
    requires p.Keys == p'.Keys && id in p && forall s :: s in p && s != id ==> p'[s] == p[s]
    ensures p' == p[id := p'[id]]
  {}

  lemma MoveLowersPotential(r: Run, policies: map<string, RetryPolicy>, r': Run, id: string, target: SegmentState)
    requires Safe(r, policies) && WellTyped(r', policies) && Moves(r, policies, r', id, target)
    ensures Potential(r', policies) < Potential(r, policies)
  {
    assert SafeSegment(r, policies, id);
    PotentialDrops(r.segments[id].state, target, r.attempts[id], policies[id]);
    var p, p' := SegmentPotentials(r, policies), SegmentPotentials(r', policies);
    MovedPotentials(r, policies, r', id, target);
    SumDrops(p, p', id);
  }

  predicate HandoffMoves(r: Run, r': Run, h: string) {
    && h in r.handoffs && h in r'.handoffs && r'.handoffs == r.handoffs[h := r'.handoffs[h]]
    && HandoffPotential(r'.handoffs[h].state) < HandoffPotential(r.handoffs[h].state)
    && r'.segments == r.segments && r'.attempts == r.attempts
  }

  lemma TakeMovesHandoff(r: Run, policies: map<string, RetryPolicy>, step: Step) returns (h: string)
    requires WellTyped(r, policies) && Take(r, policies, step).Some?
    requires OnHandoff(step)
    ensures HandoffMoves(r, Take(r, policies, step).value, h)
  {
    h := step.handoff;
  }

  lemma TakeLowersPotential(r: Run, policies: map<string, RetryPolicy>, step: Step)
    requires Safe(r, policies) && Take(r, policies, step).Some?
    ensures WellTyped(Take(r, policies, step).value, policies)
    ensures Potential(Take(r, policies, step).value, policies) < Potential(r, policies)
  {
    var r' := Take(r, policies, step).value;
    TakeKeepsTypes(r, policies, step);
    if OnHandoff(step) {
      var h := TakeMovesHandoff(r, policies, step);
      assert SegmentPotentials(r', policies) == SegmentPotentials(r, policies);
      assert HandoffPotentials(r') == HandoffPotentials(r)[h := HandoffPotentials(r')[h]];
      SumDrops(HandoffPotentials(r), HandoffPotentials(r'), h);
    } else {
      var id, target := TakeMovesSegment(r, policies, step);
      MoveLowersPotential(r, policies, r', id, target);
    }
  }

  /** No run takes more steps than its potential. */
  lemma {:induction false} RunsAreFinite(r: Run, policies: map<string, RetryPolicy>, steps: seq<Step>)
    requires Safe(r, policies) && Execute(r, policies, steps).Some?
    ensures |steps| <= Potential(r, policies)
    decreases |steps|
  {
    if steps != [] {
      TakeKeepsSafe(r, policies, steps[0]);
      TakeLowersPotential(r, policies, steps[0]);
      RunsAreFinite(Take(r, policies, steps[0]).value, policies, steps[1..]);
    }
  }

  lemma {:induction false} SumBound(f: map<string, nat>, bound: nat)
    requires forall k :: k in f ==> f[k] <= bound
    ensures Sum(f) <= Times(bound, |f.Keys|)
    decreases |f|
  {
    if f != map[] {
      var k :| k in f && Sum(f) == f[k] + Sum(f - {k});
      SumBound(f - {k}, bound);
      assert (f - {k}).Keys == f.Keys - {k};
      assert |f.Keys| == |(f - {k}).Keys| + 1;
      OneMore(bound, |(f - {k}).Keys|);
    }
  }

  function Times(a: nat, b: nat): nat { a * b }

  lemma OneMore(a: nat, b: nat)
    ensures Times(a, b + 1) == Times(a, b) + a
  {}

  lemma InitialPotentials(r: Run, policies: map<string, RetryPolicy>, n: nat)
    requires Initial(r, policies) && forall s :: s in policies ==> policies[s].maxAttempts <= n
    ensures SegmentPotentials(r, policies).Keys == r.segments.Keys && HandoffPotentials(r).Keys == r.handoffs.Keys
    ensures forall s :: s in SegmentPotentials(r, policies) ==> SegmentPotentials(r, policies)[s] <= 3 * n + 3
    ensures forall h :: h in HandoffPotentials(r) ==> HandoffPotentials(r)[h] <= 2
  {}

  lemma InitialIsSafe(r: Run, policies: map<string, RetryPolicy>)
    requires Initial(r, policies)
    ensures Safe(r, policies)
  {}

  /** If no policy admits more than n attempts, a run from an initial state takes at most 3n + 3 steps for
      each segment and two for each handoff. */
  lemma InitialRunsAreBounded(r: Run, policies: map<string, RetryPolicy>, steps: seq<Step>, n: nat)
    requires Initial(r, policies) && Execute(r, policies, steps).Some?
    requires forall s :: s in policies ==> policies[s].maxAttempts <= n
    ensures |steps| <= (3 * n + 3) * |r.segments.Keys| + 2 * |r.handoffs.Keys|
  {
    InitialIsSafe(r, policies);
    RunsAreFinite(r, policies, steps);
    InitialPotentials(r, policies, n);
    SumBound(SegmentPotentials(r, policies), 3 * n + 3);
    SumBound(HandoffPotentials(r), 2);
  }

  // ----- runs that cannot go on are done

  /** Steps that take the work forward; the others cancel, invalidate or consume. */
  predicate Advances(step: Step) {
    step.Activate? || step.Start? || step.Succeed? || step.Fail? || step.Retry? || step.OfferHandoff?
  }

  /** No step takes the work forward. */
  ghost predicate Stuck(r: Run, policies: map<string, RetryPolicy>)
    requires WellTyped(r, policies)
  {
    forall step :: Advances(step) ==> Take(r, policies, step).None?
  }

  /** Every failed segment may be retried, and none was cancelled. */
  predicate Recoverable(r: Run, policies: map<string, RetryPolicy>)
    requires WellTyped(r, policies)
  {
    forall s :: s in r.segments ==>
      && r.segments[s].state != Cancelled
      && (r.segments[s].state == Failed ==> s in r.failures && CanRetry(r.failures[s], policies[s], r.attempts[s]))
  }

  /** Every handoff that a planned segment requires is addressed to it and neither consumed nor invalid. */
  predicate HandoffsComing(r: Run) {
    forall s, h :: s in r.segments && r.segments[s].state == Planned && h in r.segments[s].requiredHandoffs ==>
      h in r.handoffs && r.handoffs[h].consumer == s && (r.handoffs[h].state == Pending || r.handoffs[h].state == Available)
  }

  lemma StuckSegment(r: Run, policies: map<string, RetryPolicy>, s: string)
    requires WellTyped(r, policies) && Stuck(r, policies) && Recoverable(r, policies) && s in r.segments
    ensures r.segments[s].state == Planned || r.segments[s].state == Succeeded
  {
    assert Take(r, policies, Start(s)).None? && Take(r, policies, Succeed(s, true)).None? && Take(r, policies, Retry(s)).None?;
    if s in r.failures { RetryIsPossible(r, policies, s); }
  }

  lemma RetryIsPossible(r: Run, policies: map<string, RetryPolicy>, s: string)
    requires WellTyped(r, policies) && s in r.segments && s in r.failures
    ensures r.segments[s].state == Failed && CanRetry(r.failures[s], policies[s], r.attempts[s]) ==>
              Take(r, policies, Retry(s)).Some?
  {}

  lemma StuckHandoff(r: Run, policies: map<string, RetryPolicy>, s: string, h: string)
    requires WellTyped(r, policies) && Stuck(r, policies) && HandoffsComing(r)
    requires s in r.segments && r.segments[s].state == Planned && h in r.segments[s].requiredHandoffs
    ensures h in r.handoffs && r.handoffs[h].consumer == s && r.handoffs[h].state == Available
  {
    assert Take(r, policies, OfferHandoff(h)).None?;
  }

  /** A stuck state of an acyclic plan has no segment left. */
  lemma StuckIsDone(r: Run, policies: map<string, RetryPolicy>, s: string)
    requires WellTyped(r, policies) && Stuck(r, policies) && Recoverable(r, policies) && HandoffsComing(r)
    requires DependenciesDeclared(r.segments) && !Cyclic(DependencyArcs(r.segments)) && s in r.segments
    ensures r.segments[s].state == Succeeded
  {
    forall n | n in r.segments ensures r.segments[n].state == Planned || r.segments[n].state == Succeeded {
      StuckSegment(r, policies, n);
    }
    forall n, h | n in r.segments && r.segments[n].state == Planned && h in r.segments[n].requiredHandoffs
      ensures h in r.handoffs && r.handoffs[h].consumer == n && r.handoffs[h].state == Available
    {
      StuckHandoff(r, policies, n, h);
    }
    if r.segments[s].state != Succeeded {
      ReadyIsNotStuck(r, policies);
    }
  }

  lemma ReadyIsNotStuck(r: Run, policies: map<string, RetryPolicy>)
    requires WellTyped(r, policies)
    requires DependenciesDeclared(r.segments) && !Cyclic(DependencyArcs(r.segments))
    requires forall s :: s in r.segments ==> r.segments[s].state == Planned || r.segments[s].state == Succeeded
    requires exists s :: s in r.segments && r.segments[s].state != Succeeded
    requires forall s, h :: s in r.segments && r.segments[s].state == Planned && h in r.segments[s].requiredHandoffs ==>
               h in r.handoffs && r.handoffs[h].consumer == s && r.handoffs[h].state == Available
    ensures !Stuck(r, policies)
  {
    var ready := SomeSegmentIsReady(r, policies);
    NotStuckBy(r, policies, Activate(ready));
  }

  lemma NotStuckBy(r: Run, policies: map<string, RetryPolicy>, step: Step)
    requires WellTyped(r, policies) && Advances(step) && Take(r, policies, step).Some?
    ensures !Stuck(r, policies)
  {}

  /** Whatever has happened in a run of an acyclic plan: when nothing can take the work forward, no
      segment was cancelled, every failure may be retried and handoffs are coming, all segments have
      succeeded. With the bound on runs, going on for as long as possible finishes the plan. */
  lemma StuckRunsAreDone(r: Run, policies: map<string, RetryPolicy>, steps: seq<Step>, now: Run, s: string)
    requires Initial(r, policies) && Execute(r, policies, steps) == Some(now)
    requires DependenciesDeclared(r.segments) && !Cyclic(DependencyArcs(r.segments))
    requires WellTyped(now, policies) && Stuck(now, policies)
    requires Recoverable(now, policies) && HandoffsComing(now)
    requires s in now.segments
    ensures now.segments[s].state == Succeeded
  {
    InitialIsSafe(r, policies);
    RunsAreSafe(r, policies, steps);
    ExecuteKeepsDeclared(r, policies, steps);
    StuckIsDone(now, policies, s);
  }

  lemma {:induction false} ExecuteKeepsDeclared(r: Run, policies: map<string, RetryPolicy>, steps: seq<Step>)
    requires Safe(r, policies) && Execute(r, policies, steps).Some? && DependenciesDeclared(r.segments)
    ensures DependenciesDeclared(Execute(r, policies, steps).value.segments)
    decreases |steps|
  {
    if steps != [] {
      TakeKeepsSafe(r, policies, steps[0]);
      TakeKeepsDeclared(r, policies, steps[0]);
      ExecuteKeepsDeclared(Take(r, policies, steps[0]).value, policies, steps[1..]);
    }
  }

  lemma TakeKeepsDeclared(r: Run, policies: map<string, RetryPolicy>, step: Step)
    requires WellTyped(r, policies) && Take(r, policies, step).Some? && DependenciesDeclared(r.segments)
    ensures DependenciesDeclared(Take(r, policies, step).value.segments)
  {
    if !OnHandoff(step) {
      var id, target := TakeMovesSegment(r, policies, step);
    }
  }
}
