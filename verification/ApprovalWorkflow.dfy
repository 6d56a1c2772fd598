/** Approval definitions, the machine compiled from them, and what it does
    (packages/machines/src/approval-workflow.ts). */
module ApprovalWorkflow {
  import opened Wrappers

  datatype State = Draft | PendingApproval | Approved | Rejected | ChangesRequested

  datatype EventType = Submit | Approve | Reject | RequestChanges | Resubmit

  datatype ActionRef =
    | RecordSubmission
    | RecordDecision
    | RecordChangesRequested
    | RecordResubmission
    | ScheduleEscalation
    | EmitApprovalGranted
    | EmitApprovalRejected

  datatype InputSource = Before | After | ImpactSummary

  datatype Guard = SeparationOfDuties | RuleGate(ruleId: string, inputSource: InputSource)

  datatype Transition = Transition(target: State, guard: Option<Guard>, actions: seq<ActionRef>)

  datatype StateDefinition = StateDefinition(final: bool, on: map<EventType, Transition>)

  datatype Definition = Definition(
    initial: State,
    draft: StateDefinition,
    pendingApproval: StateDefinition,
    approved: StateDefinition,
    rejected: StateDefinition,
    changesRequested: StateDefinition)
  {
    function At(s: State): StateDefinition {
      match s
      case Draft => draft
      case PendingApproval => pendingApproval
      case Approved => approved
      case Rejected => rejected
      case ChangesRequested => changesRequested
    }
  }

  /** An event, with what the rule gate would answer at that moment; it answers no when none is provided. */
  datatype Event = Event(kind: EventType, actor: string, ruleGate: bool)

  /** Who submitted, and whether two users are far enough apart for one to decide on the other's submission. */
  datatype Context = Context(submittedBy: string, separate: (string, string) -> bool)

  // ---------------------------------------------------------------------------
  // The definition, read directly
  // ---------------------------------------------------------------------------

  /** The separation of duties can only be met by an approval or a rejection. */
  predicate Allows(guard: Option<Guard>, context: Context, event: Event) {
    match guard
    case None => true
    case Some(SeparationOfDuties) => (event.kind.Approve? || event.kind.Reject?) && context.separate(context.submittedBy, event.actor)
    case Some(RuleGate(_, _)) => event.ruleGate
  }

  /** The transition an event takes, if any: none from a final state, none when the guard says no. */
  function Taken(d: Definition, context: Context, s: State, event: Event): Option<Transition> {
    var definition := d.At(s);
    if !definition.final && event.kind in definition.on && Allows(definition.on[event.kind].guard, context, event)
    then Some(definition.on[event.kind])
    else None
  }

  // ---------------------------------------------------------------------------
  // The compiled machine
  // ---------------------------------------------------------------------------

  datatype GuardRef = SeparationOfDutiesRef | RuleGateRef

  datatype Compiled = Compiled(target: State, guard: Option<GuardRef>, actions: Option<seq<ActionRef>>)

  datatype Node = Node(final: bool, on: seq<(EventType, Compiled)>)

  datatype Machine = Machine(initial: State, draft: Node, pendingApproval: Node, approved: Node, rejected: Node, changesRequested: Node)
  {
    function At(s: State): Node {
      match s
      case Draft => draft
      case PendingApproval => pendingApproval
      case Approved => approved
      case Rejected => rejected
      case ChangesRequested => changesRequested
    }
  }

  function CompileTransition(t: Option<Transition>): Option<Compiled> {
    match t
    case None => None
    case Some(Transition(target, guard, actions)) =>
      Some(Compiled(target, if guard == None then None else Some(Ref(guard.value)), if |actions| > 0 then Some(actions) else None))
  }

  function Ref(guard: Guard): GuardRef {
    if guard.SeparationOfDuties? then SeparationOfDutiesRef else RuleGateRef
  }

  function CompactTransitions(transitions: seq<(EventType, Option<Compiled>)>): seq<(EventType, Compiled)> {
    if transitions == [] then []
    else (if transitions[0].1 == None then [] else [(transitions[0].0, transitions[0].1.value)]) + CompactTransitions(transitions[1..])
  }

  function On(definition: StateDefinition, kind: EventType): Option<Transition> {
    if kind in definition.on then Some(definition.on[kind]) else None
  }

  function CompileState(definition: StateDefinition): Node {
    Node(definition.final,
         CompactTransitions([
           (Submit, CompileTransition(On(definition, Submit))),
           (Approve, CompileTransition(On(definition, Approve))),
           (Reject, CompileTransition(On(definition, Reject))),
           (RequestChanges, CompileTransition(On(definition, RequestChanges))),
           (Resubmit, CompileTransition(On(definition, Resubmit)))]))
  }

  function Compile(d: Definition): Machine {
    Machine(d.initial, CompileState(d.draft), CompileState(d.pendingApproval), CompileState(d.approved),
            CompileState(d.rejected), CompileState(d.changesRequested))
  }

  function Lookup(on: seq<(EventType, Compiled)>, kind: EventType): Option<Compiled> {
    if on == [] then None
    else if on[0].0 == kind then Some(on[0].1)
    else Lookup(on[1..], kind)
  }

  predicate GuardHolds(guard: Option<GuardRef>, context: Context, event: Event) {
    match guard
    case None => true
    case Some(SeparationOfDutiesRef) =>
      if !event.kind.Approve? && !event.kind.Reject? then false else context.separate(context.submittedBy, event.actor)
    case Some(RuleGateRef) => event.ruleGate
  }

  /** Where a run has come to, and the actions it has performed. */
  datatype Snapshot = Snapshot(state: State, performed: seq<ActionRef>)

  /** One event sent to the machine; a final state absorbs it. */
  function Send(m: Machine, context: Context, now: Snapshot, event: Event): Snapshot {
    SendTo(m.At(now.state), context, now, event)
  }

  function SendTo(node: Node, context: Context, now: Snapshot, event: Event): Snapshot {
    if node.final then now
    else
      match Lookup(node.on, event.kind)
      case None => now
      case Some(t) =>
        if GuardHolds(t.guard, context, event)
        then Snapshot(t.target, now.performed + (if t.actions == None then [] else t.actions.value))
        else now
  }

  function Play(m: Machine, context: Context, events: seq<Event>): Snapshot {
    if events == [] then Snapshot(m.initial, [])
    else Send(m, context, Play(m, context, events[..|events| - 1]), events[|events| - 1])
  }

  /** What the definition says of a run. */
  function Reading(d: Definition, context: Context, events: seq<Event>): Snapshot {
    if events == [] then Snapshot(d.initial, [])
    else ReadOn(d, context, Reading(d, context, events[..|events| - 1]), events[|events| - 1])
  }

  function ReadOn(d: Definition, context: Context, now: Snapshot, event: Event): Snapshot {
    match Taken(d, context, now.state, event)
    case None => now
    case Some(t) => Snapshot(t.target, now.performed + t.actions)
  }

  // ---------------------------------------------------------------------------
  // Compilation keeps the meaning
  // ---------------------------------------------------------------------------

  lemma {:induction false} CompactFinds(transitions: seq<(EventType, Option<Compiled>)>, kind: EventType, k: nat)
    requires k < |transitions| && transitions[k].0 == kind
    requires forall j | 0 <= j < |transitions| && j != k :: transitions[j].0 != kind
    ensures Lookup(CompactTransitions(transitions), kind) == transitions[k].1
    decreases |transitions|
  {
    if k > 0 {
      CompactFinds(transitions[1..], kind, k - 1);
      SkipsOthers(transitions[0], CompactTransitions(transitions[1..]), kind);
    } else if transitions[0].1 == None {
      CompactMisses(transitions[1..], kind);
      SkipsOthers(transitions[0], CompactTransitions(transitions[1..]), kind);
    }
  }

  lemma SkipsOthers(first: (EventType, Option<Compiled>), rest: seq<(EventType, Compiled)>, kind: EventType)
    requires first.1 == None || first.0 != kind
    ensures Lookup((if first.1 == None then [] else [(first.0, first.1.value)]) + rest, kind) == Lookup(rest, kind)
  {
    if first.1 == None {
      assert [] + rest == rest;
    } else {
      assert ([(first.0, first.1.value)] + rest)[1..] == rest;
    }
  }

  lemma {:induction false} CompactMisses(transitions: seq<(EventType, Option<Compiled>)>, kind: EventType)
    requires forall j | 0 <= j < |transitions| :: transitions[j].0 != kind
    ensures Lookup(CompactTransitions(transitions), kind) == None
  {
    if transitions != [] {
      CompactMisses(transitions[1..], kind);
      SkipsOthers(transitions[0], CompactTransitions(transitions[1..]), kind);
    }
  }

  lemma CompiledLookup(definition: StateDefinition, kind: EventType)
    ensures Lookup(CompileState(definition).on, kind) == CompileTransition(On(definition, kind))
  {
    var listed := [
      (Submit, CompileTransition(On(definition, Submit))),
      (Approve, CompileTransition(On(definition, Approve))),
      (Reject, CompileTransition(On(definition, Reject))),
      (RequestChanges, CompileTransition(On(definition, RequestChanges))),
      (Resubmit, CompileTransition(On(definition, Resubmit)))];
    var k := match kind case Submit => 0 case Approve => 1 case Reject => 2 case RequestChanges => 3 case Resubmit => 4;
    CompactFinds(listed, kind, k);
  }

  lemma NodeKeepsMeaning(d: Definition, node: Node, context: Context, now: Snapshot, event: Event)
    requires node.final == d.At(now.state).final
    requires Lookup(node.on, event.kind) == CompileTransition(On(d.At(now.state), event.kind))
    ensures SendTo(node, context, now, event) == ReadOn(d, context, now, event)
  {
    var t := On(d.At(now.state), event.kind);
    if t.Some? && t.value.actions == [] {
      assert now.performed + [] == now.performed;
    }
  }

  lemma StepKeepsMeaning(d: Definition, context: Context, now: Snapshot, event: Event)
    ensures Send(Compile(d), context, now, event) == ReadOn(d, context, now, event)
  {
    var node := CompileState(d.At(now.state));
    assert Compile(d).At(now.state) == node;
    CompiledLookup(d.At(now.state), event.kind);
    NodeKeepsMeaning(d, node, context, now, event);
  }

  /** The compiled machine runs exactly as its definition reads: the same states, the same actions in the same order. */
  lemma {:induction false} CompileKeepsMeaning(d: Definition, context: Context, events: seq<Event>)
    ensures Play(Compile(d), context, events) == Reading(d, context, events)
  {
    if events != [] {
      CompileKeepsMeaning(d, context, events[..|events| - 1]);
      StepKeepsMeaning(d, context, Reading(d, context, events[..|events| - 1]), events[|events| - 1]);
    }
  }

  /** A final state absorbs every event. */
  lemma {:induction false} FinalAbsorbs(d: Definition, context: Context, events: seq<Event>, n: nat)
    requires n <= |events| && d.At(Reading(d, context, events[..n]).state).final
    ensures Reading(d, context, events) == Reading(d, context, events[..n])
    decreases |events|
  {
    if n == |events| {
      assert events[..n] == events;
    } else {
      assert events[..|events| - 1][..n] == events[..n];
      FinalAbsorbs(d, context, events[..|events| - 1], n);
    }
  }

  /** Which rule gates a transition, and on what, is not compiled: one check answers for all rule gates. */
  lemma RulesCompileAlike(target: State, actions: seq<ActionRef>, rule: string, source: InputSource, otherRule: string, otherSource: InputSource)
    ensures CompileTransition(Some(Transition(target, Some(RuleGate(rule, source)), actions))) ==
            CompileTransition(Some(Transition(target, Some(RuleGate(otherRule, otherSource)), actions)))
  {
  }

  // ---------------------------------------------------------------------------
  // Who approves
  // ---------------------------------------------------------------------------

  /** No user is separate from themselves. */
  ghost predicate Irreflexive(separate: (string, string) -> bool) {
    forall user :: !separate(user, user)
  }

  /** No run of any submission, under any irreflexive separation check, has its own submitter take it to approved. */
  ghost predicate NeverSelfApproved(d: Definition) {
    d.initial != Approved &&
    forall context: Context, events, event | Irreflexive(context.separate) :: !SelfApproves(d, context, events, event)
  }

  predicate SelfApproves(d: Definition, context: Context, events: seq<Event>, event: Event) {
    var taken := Taken(d, context, Reading(d, context, events).state, event);
    taken.Some? && taken.value.target == Approved && event.actor == context.submittedBy
  }

  ghost predicate Reachable(d: Definition, s: State) {
    exists context: Context, events :: Irreflexive(context.separate) && Reading(d, context, events).state == s
  }

  // What an author can check on the definition itself.

  const ALL_STATES := {Draft, PendingApproval, Approved, Rejected, ChangesRequested}

  const ALL_EVENT_TYPES := {Submit, Approve, Reject, RequestChanges, Resubmit}

  lemma AllListed(s: State, kind: EventType)
    ensures s in ALL_STATES && kind in ALL_EVENT_TYPES
  {
    match s case Draft => case PendingApproval => case Approved => case Rejected => case ChangesRequested =>
    match kind case Submit => case Approve => case Reject => case RequestChanges => case Resubmit =>
  }

  /** Some event can take the transition: its state is not final, and the separation of duties guards only decisions. */
  predicate Live(d: Definition, s: State, kind: EventType) {
    && !d.At(s).final && kind in d.At(s).on
    && (d.At(s).on[kind].guard == Some(SeparationOfDuties) ==> kind.Approve? || kind.Reject?)
  }

  function Targets(d: Definition, from: set<State>): set<State> {
    set s, kind | s in from && kind in ALL_EVENT_TYPES && Live(d, s, kind) :: d.At(s).on[kind].target
  }

  lemma SomethingNew(found: set<State>, targets: set<State>)
    requires !(targets <= found)
    ensures ALL_STATES - (found + targets) < ALL_STATES - found
  {
    var s :| s in targets && s !in found;
    AllListed(s, Submit);
    assert s in ALL_STATES - found && s !in ALL_STATES - (found + targets);
  }

  /** The states found, and all that live transitions lead to from there. */
  function Closure(d: Definition, found: set<State>): (closed: set<State>)
    ensures found <= closed && Targets(d, closed) <= closed
    decreases ALL_STATES - found
  {
    if Targets(d, found) <= found then found
    else
      SomethingNew(found, Targets(d, found));
      Closure(d, found + Targets(d, found))
  }

  lemma {:induction false} RunsStayInClosure(d: Definition, context: Context, events: seq<Event>)
    ensures Reading(d, context, events).state in Closure(d, {d.initial})
  {
    if events != [] {
      var front, event := events[..|events| - 1], events[|events| - 1];
      RunsStayInClosure(d, context, front);
      if Taken(d, context, Reading(d, context, front).state, event).Some? {
        TakenIsLive(d, context, Reading(d, context, front).state, event, Closure(d, {d.initial}));
      }
    }
  }

  lemma TakenIsLive(d: Definition, context: Context, s: State, event: Event, from: set<State>)
    requires s in from && Taken(d, context, s, event).Some?
    ensures Live(d, s, event.kind) && Taken(d, context, s, event).value.target in Targets(d, from)
  {
    AllListed(s, event.kind);
  }

  /** A run of one user's submission, with all others separate from them, that ends in the state. */
  ghost predicate OpenlyReached(d: Definition, s: State) {
    exists events :: Reading(d, OpenContext(), events).state == s
  }

  function OpenContext(): Context {
    Context("submitter", (submitter, actor) => submitter != actor)
  }

  lemma {:induction false} ClosureReached(d: Definition, found: set<State>)
    requires forall s | s in found :: OpenlyReached(d, s)
    ensures forall s | s in Closure(d, found) :: OpenlyReached(d, s)
    decreases ALL_STATES - found
  {
    if !(Targets(d, found) <= found) {
      forall t | t in Targets(d, found) ensures OpenlyReached(d, t) {
        var s, kind :| s in found && kind in ALL_EVENT_TYPES && Live(d, s, kind) && t == d.At(s).on[kind].target;
        LiveIsTaken(d, s, kind);
      }
      SomethingNew(found, Targets(d, found));
      ClosureReached(d, found + Targets(d, found));
    }
  }

  lemma LiveIsTaken(d: Definition, s: State, kind: EventType)
    requires OpenlyReached(d, s) && Live(d, s, kind)
    ensures OpenlyReached(d, d.At(s).on[kind].target)
  {
    var events :| Reading(d, OpenContext(), events).state == s;
    var more := events + [Event(kind, "decider", true)];
    assert more[..|more| - 1] == events;
    assert Reading(d, OpenContext(), more).state == d.At(s).on[kind].target;
  }

  /** The closure of the initial state over live transitions holds exactly the states that runs come to. */
  lemma ReachableIff(d: Definition, s: State)
    ensures Reachable(d, s) <==> s in Closure(d, {d.initial})
  {
    if Reachable(d, s) {
      var context: Context, events :| Irreflexive(context.separate) && Reading(d, context, events).state == s;
      RunsStayInClosure(d, context, events);
    }
    if s in Closure(d, {d.initial}) {
      assert Reading(d, OpenContext(), []).state == d.initial;
      ClosureReached(d, {d.initial});
      var events :| Reading(d, OpenContext(), events).state == s;
      assert Irreflexive(OpenContext().separate);
    }
  }

  /** Every way into approved from a state in the closure is guarded by the separation of duties. */
  predicate ApprovalsGuarded(d: Definition) {
    d.initial != Approved &&
    forall s, kind | s in Closure(d, {d.initial}) && kind in ALL_EVENT_TYPES && IntoApproved(d, s, kind) ::
      d.At(s).on[kind].guard == Some(SeparationOfDuties)
  }

  predicate IntoApproved(d: Definition, s: State, kind: EventType) {
    !d.At(s).final && kind in d.At(s).on && d.At(s).on[kind].target == Approved
  }

  /** A definition keeps submitters from approving their own work exactly when all its reachable approvals are
      so guarded, which is a check of the definition alone. */
  lemma NeverSelfApprovedIff(d: Definition)
    ensures NeverSelfApproved(d) <==> ApprovalsGuarded(d)
  {
    if ApprovalsGuarded(d) {
      forall context: Context, events, event | Irreflexive(context.separate) ensures !SelfApproves(d, context, events, event) {
        RunsStayInClosure(d, context, events);
        var s := Reading(d, context, events).state;
        AllListed(s, event.kind);
        assert IntoApproved(d, s, event.kind) ==> d.At(s).on[event.kind].guard == Some(SeparationOfDuties);
      }
    }
    if NeverSelfApproved(d) {
      forall s, kind | s in Closure(d, {d.initial}) && IntoApproved(d, s, kind)
        ensures d.At(s).on[kind].guard == Some(SeparationOfDuties)
      {
        ReachableIff(d, s);
        var context: Context, events :| Irreflexive(context.separate) && Reading(d, context, events).state == s;
        var event := Event(kind, context.submittedBy, true);
        assert !SelfApproves(d, context, events, event);
      }
    }
  }

  /** A run that is in approved came there by an event of somebody else, when the definition is so guarded. */
  lemma {:induction false} ApprovedBySomebodyElse(d: Definition, context: Context, events: seq<Event>) returns (i: nat)
    requires ApprovalsGuarded(d) && Irreflexive(context.separate)
    requires Play(Compile(d), context, events).state == Approved
    ensures i < |events| && events[i].actor != context.submittedBy && (events[i].kind.Approve? || events[i].kind.Reject?)
    ensures Play(Compile(d), context, events[..i + 1]).state == Approved
  {
    CompileKeepsMeaning(d, context, events);
    var front, event := events[..|events| - 1], events[|events| - 1];
    CompileKeepsMeaning(d, context, front);
    var s := Reading(d, context, front).state;
    if Taken(d, context, s, event).Some? {
      i := |events| - 1;
      RunsStayInClosure(d, context, front);
      OnlyOthersApprove(d, context, s, event);
      assert events[..i + 1] == events;
    } else {
      i := ApprovedBySomebodyElse(d, context, front);
      assert front[..i + 1] == events[..i + 1];
    }
  }

  lemma OnlyOthersApprove(d: Definition, context: Context, s: State, event: Event)
    requires ApprovalsGuarded(d) && Irreflexive(context.separate) && s in Closure(d, {d.initial})
    requires Taken(d, context, s, event).Some? && Taken(d, context, s, event).value.target == Approved
    ensures event.actor != context.submittedBy && (event.kind.Approve? || event.kind.Reject?)
  {
    AllListed(s, event.kind);
    assert IntoApproved(d, s, event.kind);
  }

  const DEFAULT_DEFINITION := Definition(
    Draft,
    StateDefinition(false, map[Submit := Transition(PendingApproval, None, [RecordSubmission, ScheduleEscalation])]),
    StateDefinition(false, map[
      Approve := Transition(Approved, Some(SeparationOfDuties), [RecordDecision, EmitApprovalGranted]),
      Reject := Transition(Rejected, Some(SeparationOfDuties), [RecordDecision, EmitApprovalRejected]),
      RequestChanges := Transition(ChangesRequested, None, [RecordChangesRequested])]),
    StateDefinition(true, map[]),
    StateDefinition(true, map[]),
    StateDefinition(false, map[Resubmit := Transition(PendingApproval, None, [RecordResubmission, ScheduleEscalation])]))

  lemma DefaultIsGuarded()
    ensures NeverSelfApproved(DEFAULT_DEFINITION)
  {
    forall s, kind | IntoApproved(DEFAULT_DEFINITION, s, kind)
      ensures DEFAULT_DEFINITION.At(s).on[kind].guard == Some(SeparationOfDuties)
    {
      match s case Draft => case PendingApproval => case Approved => case Rejected => case ChangesRequested =>
    }
    NeverSelfApprovedIff(DEFAULT_DEFINITION);
  }

  predicate GrantedIffApproved(now: Snapshot) {
    multiset(now.performed)[EmitApprovalGranted] == if now.state == Approved then 1 else 0
  }

  lemma DefaultStepGrants(context: Context, now: Snapshot, event: Event)
    requires GrantedIffApproved(now)
    ensures GrantedIffApproved(ReadOn(DEFAULT_DEFINITION, context, now, event))
  {
    var taken := Taken(DEFAULT_DEFINITION, context, now.state, event);
    if taken.Some? {
      assert multiset(now.performed + taken.value.actions) == multiset(now.performed) + multiset(taken.value.actions);
    }
  }

  /** Under the default definition a granted approval is emitted once when a run comes to approved, and otherwise never. */
  lemma {:induction false} GrantedOnce(context: Context, events: seq<Event>)
    ensures GrantedIffApproved(Play(Compile(DEFAULT_DEFINITION), context, events))
  {
    CompileKeepsMeaning(DEFAULT_DEFINITION, context, events);
    GrantedOnceAsRead(context, events);
  }

  lemma {:induction false} GrantedOnceAsRead(context: Context, events: seq<Event>)
    ensures GrantedIffApproved(Reading(DEFAULT_DEFINITION, context, events))
  {
    if events != [] {
      var front := events[..|events| - 1];
      GrantedOnceAsRead(context, front);
      DefaultStepGrants(context, Reading(DEFAULT_DEFINITION, context, front), events[|events| - 1]);
    }
  }
}
