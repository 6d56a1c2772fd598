/**
 * The value-realization lifecycle of a benefit
 * (packages/machines/src/value-lifecycle.ts).
 *
 * The machine is stated by its transitions, and the stored definition beside it by its table.
 */
module ValueLifecycle {
  import opened Wrappers

  datatype State = Identification | PendingApproval | Approved | Validation | Tracking | Closure

  datatype Event =
    | SubmitForApproval(approvalCaseId: string)
    | ApprovalGranted
    | BeginValidation
    | StartTracking
    | RefreshFacts(baselineExists: bool, realizedEntryCount: int)
    | Close(closeReason: Option<string>)
    | Stop(stopReason: string)

  datatype Context = Context(approvalCaseId: Option<string>, baselineExists: bool, realizedEntryCount: int, stopReason: Option<string>)

  datatype Guard = Always | BaselineExists | RealizedValueExists

  datatype Action = AttachApprovalCase | RecordStopReason

  predicate Holds(guard: Guard, context: Context) {
    match guard
    case Always => true
    case BaselineExists => context.baselineExists
    case RealizedValueExists => context.realizedEntryCount > 0
  }

  // ---------------------------------------------------------------------------
  // The machine
  // ---------------------------------------------------------------------------

  datatype Transition = Transition(target: State, guard: Guard, action: Option<Action>)

  function Transitions(s: State, e: Event): Option<Transition> {
    match (s, e)
    case (Identification, SubmitForApproval(_)) => Some(Transition(PendingApproval, Always, Some(AttachApprovalCase)))
    case (Identification, Stop(_)) => Some(Transition(Closure, Always, Some(RecordStopReason)))
    case (PendingApproval, ApprovalGranted) => Some(Transition(Approved, Always, None))
    case (PendingApproval, Stop(_)) => Some(Transition(Closure, Always, Some(RecordStopReason)))
    case (Approved, BeginValidation) => Some(Transition(Validation, BaselineExists, None))
    case (Approved, Stop(_)) => Some(Transition(Closure, Always, Some(RecordStopReason)))
    case (Validation, StartTracking) => Some(Transition(Tracking, Always, None))
    case (Validation, Stop(_)) => Some(Transition(Closure, Always, Some(RecordStopReason)))
    case (Tracking, Close(_)) => Some(Transition(Closure, RealizedValueExists, Some(RecordStopReason)))
    case (Tracking, Stop(_)) => Some(Transition(Closure, Always, Some(RecordStopReason)))
    case _ => None
  }

  function Perform(action: Option<Action>, context: Context, e: Event): Context {
    match action
    case None => context
    case Some(AttachApprovalCase) =>
      context.(approvalCaseId := if e.SubmitForApproval? then Some(e.approvalCaseId) else None)
    case Some(RecordStopReason) =>
      context.(stopReason := match e case Close(reason) => reason case Stop(reason) => Some(reason) case _ => context.stopReason)
  }

  datatype Snapshot = Snapshot(state: State, context: Context)

  /** One event; the facts can be refreshed in every state but the final one. */
  function Send(now: Snapshot, e: Event): Snapshot {
    if now.state == Closure then now
    else if e.RefreshFacts? then
      now.(context := now.context.(baselineExists := e.baselineExists, realizedEntryCount := e.realizedEntryCount))
    else
      match Transitions(now.state, e)
      case None => now
      case Some(t) =>
        if Holds(t.guard, now.context) then Snapshot(t.target, Perform(t.action, now.context, e)) else now
  }

  function Play(input: Context, events: seq<Event>): Snapshot {
    if events == [] then Snapshot(Identification, input)
    else Send(Play(input, events[..|events| - 1]), events[|events| - 1])
  }

  // ---------------------------------------------------------------------------
  // The stored workflow definition
  // ---------------------------------------------------------------------------

  datatype Row = Row(on: map<string, (State, Guard)>, final: bool)

  function Kind(e: Event): string {
    match e
    case SubmitForApproval(_) => "SUBMIT_FOR_APPROVAL"
    case ApprovalGranted => "APPROVAL_GRANTED"
    case BeginValidation => "BEGIN_VALIDATION"
    case StartTracking => "START_TRACKING"
    case RefreshFacts(_, _) => "REFRESH_FACTS"
    case Close(_) => "CLOSE"
    case Stop(_) => "STOP"
  }

  function Definition(s: State): Row {
    match s
    case Identification => Row(map["SUBMIT_FOR_APPROVAL" := (PendingApproval, Always), "STOP" := (Closure, Always)], false)
    case PendingApproval => Row(map["APPROVAL_GRANTED" := (Approved, Always), "STOP" := (Closure, Always)], false)
    case Approved => Row(map["BEGIN_VALIDATION" := (Validation, BaselineExists), "STOP" := (Closure, Always)], false)
    case Validation => Row(map["START_TRACKING" := (Tracking, Always), "STOP" := (Closure, Always)], false)
    case Tracking => Row(map["CLOSE" := (Closure, RealizedValueExists), "STOP" := (Closure, Always)], false)
    case Closure => Row(map[], true)
  }

  /** Where the definition says an event leads. */
  function Defined(now: Snapshot, e: Event): State {
    var row := Definition(now.state);
    if !row.final && Kind(e) in row.on && Holds(row.on[Kind(e)].1, now.context) then row.on[Kind(e)].0 else now.state
  }

  /** The machine and the definition agree on every event in every state. */
  lemma DefinitionAgrees(now: Snapshot, e: Event)
    ensures Send(now, e).state == Defined(now, e)
  {
  }

  // ---------------------------------------------------------------------------
  // Runs
  // ---------------------------------------------------------------------------

  function Rank(s: State): nat {
    match s
    case Identification => 0
    case PendingApproval => 1
    case Approved => 2
    case Validation => 3
    case Tracking => 4
    case Closure => 5
  }

  lemma PlayOn(input: Context, events: seq<Event>, n: nat)
    requires n < |events|
    ensures Play(input, events[..n + 1]) == Send(Play(input, events[..n]), events[n])
  {
    assert events[..n + 1][..n] == events[..n];
  }

  /** The rank never falls, and rises whenever the state changes: no state is ever left and entered again. */
  lemma {:induction false} RankRises(input: Context, events: seq<Event>, m: nat, n: nat)
    requires m <= n <= |events|
    ensures var s, t := Play(input, events[..m]).state, Play(input, events[..n]).state;
            Rank(s) <= Rank(t) && (Rank(s) == Rank(t) ==> s == t)
    decreases n - m
  {
    if m < n {
      RankRises(input, events, m, n - 1);
      PlayOn(input, events, n - 1);
    }
  }

  /** The step at which a state other than the first was entered. */
  lemma {:induction false} EnteredAt(input: Context, events: seq<Event>, n: nat) returns (i: nat)
    requires n <= |events| && Play(input, events[..n]).state != Identification
    ensures i < n && Play(input, events[..i]).state != Play(input, events[..n]).state
    ensures Play(input, events[..i + 1]).state == Play(input, events[..n]).state
    ensures Play(input, events[..i + 1]) == Send(Play(input, events[..i]), events[i])
    decreases n
  {
    assert events[..0] == [];
    PlayOn(input, events, n - 1);
    if Play(input, events[..n - 1]).state == Play(input, events[..n]).state {
      i := EnteredAt(input, events, n - 1);
    } else {
      i := n - 1;
    }
  }

  /** Once a benefit has left identification its approval case stays. */
  lemma {:induction false} CaseStays(input: Context, events: seq<Event>, m: nat, n: nat)
    requires m <= n <= |events| && Play(input, events[..m]).state != Identification
    ensures Play(input, events[..n]).context.approvalCaseId == Play(input, events[..m]).context.approvalCaseId
    decreases n - m
  {
    if m < n {
      CaseStays(input, events, m, n - 1);
      PlayOn(input, events, n - 1);
      RankRises(input, events, m, n - 1);
    }
  }

  /** What must have happened, in this order, for a benefit to be closed without a stop. */
  datatype Stages = Stages(submitted: nat, granted: nat, begun: nat, started: nat, closed: nat)

  predicate InOrder(events: seq<Event>, at: Stages) {
    && at.submitted < at.granted < at.begun < at.started < at.closed < |events|
    && events[at.submitted].SubmitForApproval? && events[at.granted].ApprovalGranted? && events[at.begun].BeginValidation?
    && events[at.started].StartTracking? && events[at.closed].Close?
  }

  /** How each stage is entered when nobody stops the benefit: from the stage before it, by that stage's event. */
  predicate EntersBy(s: State, e: Event, before: Snapshot) {
    match s
    case Identification => false
    case PendingApproval => e.SubmitForApproval? && before.state == Identification
    case Approved => e.ApprovalGranted? && before.state == PendingApproval
    case Validation => e.BeginValidation? && before.state == Approved && before.context.baselineExists
    case Tracking => e.StartTracking? && before.state == Validation
    case Closure => e.Close? && before.state == Tracking && before.context.realizedEntryCount > 0
  }

  lemma EntersOneByOne(before: Snapshot, e: Event)
    requires Send(before, e).state != before.state && !e.Stop?
    ensures EntersBy(Send(before, e).state, e, before)
    ensures e.SubmitForApproval? ==> Send(before, e).context.approvalCaseId == Some(e.approvalCaseId)
  {
  }

  /** The step that entered the state a run has come to. */
  lemma StageEntered(input: Context, events: seq<Event>, n: nat) returns (i: nat)
    requires n <= |events| && Play(input, events[..n]).state != Identification
    requires forall j | 0 <= j < |events| :: !events[j].Stop?
    ensures i < n && EntersBy(Play(input, events[..n]).state, events[i], Play(input, events[..i]))
    ensures Play(input, events[..i + 1]).state != Identification
    ensures events[i].SubmitForApproval? ==>
              Play(input, events[..i + 1]).context.approvalCaseId == Some(events[i].approvalCaseId)
  {
    i := EnteredAt(input, events, n);
    EntersOneByOne(Play(input, events[..i]), events[i]);
  }

  /**
   * A benefit that closes without a stop has been submitted, approved, validated against a baseline that existed then, tracked,
   * and closed with realized entries; its approval case is the submitted one.
   */
  lemma ClosedWithoutStop(input: Context, events: seq<Event>) returns (at: Stages)
    requires Play(input, events).state == Closure && forall i | 0 <= i < |events| :: !events[i].Stop?
    ensures InOrder(events, at)
    ensures Play(input, events[..at.begun]).context.baselineExists
    ensures Play(input, events[..at.closed]).context.realizedEntryCount > 0
    ensures Play(input, events).context.approvalCaseId == Some(events[at.submitted].approvalCaseId)
  {
    assert events[..|events|] == events;
    var closed := StageEntered(input, events, |events|);
    var started := StageEntered(input, events, closed);
    var begun := StageEntered(input, events, started);
    var granted := StageEntered(input, events, begun);
    var submitted := StageEntered(input, events, granted);
    at := Stages(submitted, granted, begun, started, closed);
    CaseStays(input, events, submitted + 1, |events|);
  }

  /** Closing is final, and no fact changes after it. */
  lemma {:induction false} ClosureAbsorbs(input: Context, events: seq<Event>, n: nat)
    requires n <= |events| && Play(input, events[..n]).state == Closure
    ensures Play(input, events) == Play(input, events[..n])
    decreases |events|
  {
    if n == |events| {
      assert events[..n] == events;
    } else {
      assert events[..|events| - 1][..n] == events[..n];
      ClosureAbsorbs(input, events[..|events| - 1], n);
    }
  }
}
