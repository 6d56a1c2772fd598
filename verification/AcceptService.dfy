/** The accept operations as programs (apps/backend/src/modules/ai/ai-suggestion.service.ts). */
module AcceptService {

  // Each operation is proved to be a run of the protocol. The tables are updated in place;
  // between any two of its own calls the program yields to the other callers, which do
  // whatever the schedule says.

  import opened Wrappers
  import opened AcceptProtocol

  /** What the database and the domain services answer to the calls of one accept. */
  datatype Plan = Plan(
    read: bool, prepare: Option<Reason>, claim: Write, screen: Option<Reason>,
    id: SubjectId, create: Write, align: bool, settle: Write, release: Write, polls: seq<bool>)

  datatype Lookup = Down | Missing | Found(result: Result)

  datatype ClaimOutcome = Won | Taken | Unavailable

  /** One entry of a batch answer. */
  datatype Item = Item(suggestionId: SuggestionId, result: Result)

  /** The callers numbered from bound on, other than me, are as they were. */
  ghost predicate OthersKeep(was: map<CallerId, Caller>, now: map<CallerId, Caller>, bound: CallerId, me: CallerId) {
    forall c | bound <= c && c != me :: (c in now <==> c in was) && (c in now ==> now[c] == was[c])
  }

  function LookupPhase(r: Lookup, otherwise: Phase): Phase {
    match r
    case Down => Finished(Failed(CreationFailed))
    case Missing => otherwise
    case Found(result) => Finished(result)
  }

  // What a call is told comes from its plan: every move it makes carries the plan's answer.

  function PollAnswer(plan: Plan, attempt: nat): bool {
    attempt < |plan.polls| ==> plan.polls[attempt]
  }

  ghost predicate AsPlanned(s: State, m: Move, plan: Plan) {
    match m.action
    case Start(_) => true
    case Read(up) => up == plan.read
    case Prepare(failure) => failure == plan.prepare
    case Claim(io) => io == plan.claim
    case Screen(failure) => failure == plan.screen
    case Create(id, io) => id == plan.id && io == plan.create
    case Align(ok) => ok == plan.align
    case Settle(io) => io == plan.settle
    case Release(io) => io == plan.release
    case Poll(up) =>
      m.caller in s.callers && s.callers[m.caller].phase.Waiting? ==>
        up == PollAnswer(plan, s.callers[m.caller].phase.attempt)
  }

  /** The run goes on with moves of callers numbered below bound, and of me as planned. */
  ghost predicate Continues(was: seq<Move>, now: seq<Move>, bound: CallerId, me: CallerId, plan: Plan) {
    && was <= now
    && forall i | |was| <= i < |now| :: now[i].caller < bound || Own(now, i, me, plan)
  }

  ghost predicate KeptTo(was: seq<Move>, now: seq<Move>, bound: CallerId, me: CallerId, plan: Plan) {
    forall moves | moves == now :: Continues(was, moves, bound, me, plan)
  }

  ghost predicate Own(moves: seq<Move>, i: nat, me: CallerId, plan: Plan)
    requires i < |moves|
  {
    moves[i].caller == me && AsPlanned(Run(INITIAL, moves[..i]), moves[i], plan)
  }

  lemma ContinuesOn(a: seq<Move>, b: seq<Move>, c: seq<Move>, bound: CallerId, me: CallerId, plan: Plan)
    requires Continues(a, b, bound, me, plan) && Continues(b, c, bound, me, plan)
    ensures Continues(a, c, bound, me, plan)
  {
    forall i | |a| <= i < |c| ensures c[i].caller < bound || Own(c, i, me, plan) {
      if i < |b| {
        assert b[i] == c[i] && b[..i] == c[..i];
        assert b[i].caller < bound || Own(b, i, me, plan);
      }
    }
  }

  lemma ContinuesByOwn(a: seq<Move>, b: seq<Move>, m: Move, bound: CallerId, plan: Plan)
    requires Continues(a, b, bound, m.caller, plan) && AsPlanned(Run(INITIAL, b), m, plan)
    ensures Continues(a, b + [m], bound, m.caller, plan)
  {
    assert (b + [m])[..|b|] == b;
    ContinuesOn(a, b, b + [m], bound, m.caller, plan);
  }

  ghost predicate OthersMove(was: seq<Move>, now: seq<Move>, bound: CallerId) {
    was <= now && forall i | |was| <= i < |now| :: now[i].caller < bound
  }

  lemma ContinuesByOthers(a: seq<Move>, b: seq<Move>, c: seq<Move>, bound: CallerId, me: CallerId, plan: Plan)
    requires Continues(a, b, bound, me, plan) && OthersMove(b, c, bound)
    ensures Continues(a, c, bound, me, plan)
  {
    ContinuesOn(a, b, c, bound, me, plan);
  }

  // What the plan of a call says about where it has come to, whatever the others do.

  ghost predicate ClaimPlanned(plan: Plan) {
    plan.read && plan.prepare == None && plan.claim == Done
  }

  ghost predicate CreationPlanned(plan: Plan) {
    ClaimPlanned(plan) && plan.screen == None && plan.create == Done
  }

  ghost predicate PhaseFits(phase: Phase, input: Input, plan: Plan) {
    match phase
    case Reading => true
    case Preparing => plan.read
    case Claiming => plan.read && plan.prepare == None
    case Screening => ClaimPlanned(plan)
    case Creating => ClaimPlanned(plan) && plan.screen == None
    case Aligning(id) => CreationPlanned(plan) && id == plan.id && input.kind == KpiDefinition
    case Settling(id, failure) =>
      CreationPlanned(plan) && id == plan.id
      && failure == if input.kind == KpiDefinition && !plan.align then Some(CreationFailed) else None
    case Releasing(reason) =>
      ClaimPlanned(plan) && reason == if plan.screen.Some? then plan.screen.value else CreationFailed
    case Waiting(_) => plan.read && plan.prepare == None && plan.claim != Refused
    case Finished(Accepted(kind, id, alreadyAccepted, edited)) =>
      plan.read
      && (!alreadyAccepted ==>
            CreationPlanned(plan) && kind == input.kind && id == plan.id && edited == input.edited
            && (input.kind == KpiDefinition ==> plan.align))
    case Finished(Failed(reason)) =>
      && (!plan.read ==> reason == CreationFailed)
      && (reason != CreationFailed && reason != InProgress ==>
            plan.prepare == Some(reason) || (ClaimPlanned(plan) && plan.screen == Some(reason)))
  }

  /** The call is where its plan allows it to be, and what it created it was meant to create: a refused preparation
      or a blocking duplicate leaves no record of it. */
  ghost predicate OnPlan(s: State, me: CallerId, plan: Plan) {
    CallerFits(s, me, plan) && RecordsFit(s, me, plan)
  }

  ghost predicate RecordsFit(s: State, me: CallerId, plan: Plan) {
    forall id | id in s.records && s.records[id].owner == me ::
      id == plan.id && ClaimPlanned(plan) && plan.screen == None && plan.create != Refused
  }

  lemma OwnMoveOnPlan(s: State, m: Move, plan: Plan)
    requires OnPlan(s, m.caller, plan) && AsPlanned(s, m, plan)
    ensures OnPlan(Apply(s, m), m.caller, plan)
  {
    OwnPhaseFits(s, m, plan);
    OwnRecordsFit(s, m, plan);
  }

  ghost predicate CallerFits(s: State, c: CallerId, plan: Plan) {
    c in s.callers ==> PhaseFits(s.callers[c].phase, s.callers[c].input, plan)
  }

  lemma OwnPhaseFits(s: State, m: Move, plan: Plan)
    requires CallerFits(s, m.caller, plan) && AsPlanned(s, m, plan)
    ensures CallerFits(Apply(s, m), m.caller, plan)
  {
    if m.action.Claim? || m.action.Create? || m.action.Settle? || m.action.Release? {
      OwnWriteFits(s, m, plan);
    } else if m.action.Read? || m.action.Poll? {
      OwnReadFits(s, m, plan);
    } else {
      OwnDecisionFits(s, m, plan);
    }
  }

  lemma OwnWriteFits(s: State, m: Move, plan: Plan)
    requires m.action.Claim? || m.action.Create? || m.action.Settle? || m.action.Release?
    requires CallerFits(s, m.caller, plan) && AsPlanned(s, m, plan)
    ensures CallerFits(Apply(s, m), m.caller, plan)
  {
  }

  lemma OwnReadFits(s: State, m: Move, plan: Plan)
    requires m.action.Read? || m.action.Poll?
    requires CallerFits(s, m.caller, plan) && AsPlanned(s, m, plan)
    ensures CallerFits(Apply(s, m), m.caller, plan)
  {
  }

  lemma OwnDecisionFits(s: State, m: Move, plan: Plan)
    requires m.action.Start? || m.action.Prepare? || m.action.Screen? || m.action.Align?
    requires CallerFits(s, m.caller, plan) && AsPlanned(s, m, plan)
    ensures CallerFits(Apply(s, m), m.caller, plan)
  {
  }

  lemma OwnRecordsFit(s: State, m: Move, plan: Plan)
    requires CallerFits(s, m.caller, plan) && AsPlanned(s, m, plan) && RecordsFit(s, m.caller, plan)
    ensures RecordsFit(Apply(s, m), m.caller, plan)
  {
  }

  lemma OtherMoveOnPlan(s: State, m: Move, me: CallerId, plan: Plan)
    requires OnPlan(s, me, plan) && m.caller != me
    ensures OnPlan(Apply(s, m), me, plan)
  {
    OnlyTheCallerMoves(s, m, me);
    OthersOwnTheirs(s, m, me);
  }

  /** In every run, a call that keeps to its plan is where its plan allows it to be. */
  lemma {:induction false} KeepingStaysOnPlan(was: seq<Move>, now: seq<Move>, bound: CallerId, me: CallerId, plan: Plan)
    requires Continues(was, now, bound, me, plan) && bound <= me && me !in Run(INITIAL, was).callers
    ensures OnPlan(Run(INITIAL, now), me, plan)
    decreases |now|
  {
    if now == was {
      OwnersAreCallers(was);
    } else {
      var front, m := now[..|now| - 1], now[|now| - 1];
      assert Continues(was, front, bound, me, plan) by {
        forall i | |was| <= i < |front| ensures front[i].caller < bound || Own(front, i, me, plan) {
          assert front[i] == now[i] && front[..i] == now[..i];
          assert now[i].caller < bound || Own(now, i, me, plan);
        }
      }
      KeepingStaysOnPlan(was, front, bound, me, plan);
      assert now[|front|].caller < bound || Own(now, |front|, me, plan);
      if m.caller == me {
        OwnMoveOnPlan(Run(INITIAL, front), m, plan);
      } else {
        OtherMoveOnPlan(Run(INITIAL, front), m, me, plan);
      }
    }
  }

  // Each write of a caller that is ready for it, as a step of the protocol.

  lemma ClaimApplies(s: State, c: CallerId, io: Write)
    requires c in s.callers && s.callers[c].phase == Claiming
    ensures Apply(s, Move(c, Action.Claim(io))) == ClaimStep(s, c, io)
  {
  }

  lemma CreateApplies(s: State, c: CallerId, id: SubjectId, io: Write)
    requires c in s.callers && s.callers[c].phase == Creating
    ensures Apply(s, Move(c, Action.Create(id, io))) == CreateStep(s, c, id, io)
  {
  }

  lemma SettleApplies(s: State, c: CallerId, io: Write)
    requires c in s.callers && s.callers[c].phase.Settling?
    ensures Apply(s, Move(c, Settle(io))) == SettleStep(s, c, s.callers[c].phase.id, s.callers[c].phase.failure, io)
  {
  }

  lemma ReleaseApplies(s: State, c: CallerId, io: Write)
    requires c in s.callers && s.callers[c].phase.Releasing?
    ensures Apply(s, Move(c, Release(io))) == ReleaseStep(s, c, s.callers[c].phase.reason, io)
  {
  }

  // What a call comes to when no other moves, in every case of its plan.

  ghost predicate TablesKeep(s: State, t: State) {
    t.rows == s.rows && t.records == s.records && t.outbox == s.outbox && t.lost == s.lost
  }

  /** From the first read: a settled row answers with its own record; otherwise the call prepares and claims. */
  ghost predicate Undisturbed(s: State, t: State, me: CallerId, input: Input, plan: Plan, r: Result) {
    var k := input.suggestionId;
    && (!plan.read ==> r == Failed(CreationFailed) && TablesKeep(s, t))
    && (plan.read && k in s.rows && s.rows[k].subjectId.Some? ==>
          r == Accepted(s.rows[k].subjectType, s.rows[k].subjectId.value, true, s.rows[k].edited) && TablesKeep(s, t))
    && (plan.read && !Settled(s.rows, k) ==> PreparedUndisturbed(s, t, me, input, plan, r))
  }

  /** From the preparation: refused, or the claim is unavailable, held by another for good, or won. */
  ghost predicate PreparedUndisturbed(s: State, t: State, me: CallerId, input: Input, plan: Plan, r: Result) {
    var k := input.suggestionId;
    var claimed := s.(rows := s.rows[k := Row(input.kind, None, input.edited)]);
    if plan.prepare.Some? then r == Failed(plan.prepare.value) && TablesKeep(s, t)
    else
      && (plan.claim == Refused ==> r == Failed(CreationFailed) && TablesKeep(s, t))
      && (plan.claim != Refused && k in s.rows && (forall up | up in plan.polls :: up) ==>
            r == Failed(InProgress) && TablesKeep(s, t))
      && (plan.claim == AckLost && k !in s.rows ==> r == Failed(CreationFailed) && TablesKeep(claimed, t))
      && (plan.claim == Done && k !in s.rows ==> WonUndisturbed(claimed, t, me, input, plan, r))
  }

  /** Under the claim: a duplicate releases it, and nothing else is kept. */
  ghost predicate WonUndisturbed(s: State, t: State, me: CallerId, input: Input, plan: Plan, r: Result) {
    && (plan.screen.Some? ==> r == Failed(plan.screen.value) && ReleasedTo(s, t, input, plan))
    && (plan.screen == None ==> CreatedUndisturbed(s, t, me, input, plan, r))
  }

  ghost predicate ReleasedTo(s: State, t: State, input: Input, plan: Plan) {
    var k := input.suggestionId;
    && t.records == s.records && t.outbox == s.outbox && t.lost == s.lost
    && (plan.release == Refused ==> t.rows == s.rows)
    && (plan.release != Refused && k in s.rows && s.rows[k].subjectId == None ==> t.rows == s.rows - {k})
  }

  /** From the creation: a failure releases the claim; a record is settled and announced, also when its alignment failed. */
  ghost predicate CreatedUndisturbed(s: State, t: State, me: CallerId, input: Input, plan: Plan, r: Result) {
    var k := input.suggestionId;
    var created := s.records[plan.id := Record(k, input.kind, me)];
    && (plan.create == Refused || plan.id in s.records ==> r == Failed(CreationFailed) && ReleasedTo(s, t, input, plan))
    && (plan.create == AckLost && plan.id !in s.records ==>
          r == Failed(CreationFailed)
          && ReleasedTo(s.(records := created, lost := s.lost + multiset{k}), t, input, plan))
    && (plan.create == Done && plan.id !in s.records ==>
          && r == (if input.kind == KpiDefinition && !plan.align then Failed(CreationFailed)
                   else Accepted(input.kind, plan.id, false, input.edited))
          && t.records == created && t.lost == s.lost
          && (plan.settle == Refused ==> t.rows == s.rows && t.outbox == s.outbox)
          && (plan.settle != Refused && k in s.rows ==>
                t.rows == s.rows[k := s.rows[k].(subjectId := Some(plan.id))]
                && (k !in s.outbox ==> t.outbox == s.outbox[k := Event(input.kind, plan.id)])))
  }

  class Cluster {
    var rows: map<SuggestionId, Row>
    var records: map<SubjectId, Record>
    var outbox: map<SuggestionId, Event>
    var callers: map<CallerId, Caller>
    var lost: multiset<SuggestionId>
    var schedule: seq<seq<Move>>
    ghost var trace: seq<Move>

    ghost function Now(): State
      reads this
    {
      State(rows, records, outbox, callers, lost)
    }

    /** The tables are what the run so far leads to. */
    ghost predicate Valid()
      reads this
    {
      Now() == Run(INITIAL, trace)
    }

    /** The call, here with its plan, has kept to it since the given run. */
    ghost predicate Keeping(since: seq<Move>, bound: CallerId, me: CallerId, plan: Plan)
      reads this
    {
      KeptTo(since, trace, bound, me, plan)
    }

    ghost predicate In(me: CallerId, input: Input, phase: Phase)
      reads this
    {
      Valid() && me in callers && callers[me] == Caller(input, phase)
    }

    constructor (schedule: seq<seq<Move>>)
      ensures Valid() && trace == [] && callers == map[]
    {
      rows, records, outbox, callers, lost := map[], map[], map[], map[], multiset{};
      this.schedule := schedule;
      trace := [];
    }

    /** Other processes run; the calls of this one are numbered from bound on. */
    method Yield(bound: CallerId, me: CallerId)
      requires Valid() && bound <= me
      modifies this`rows, this`records, this`outbox, this`callers, this`lost, this`trace, this`schedule
      ensures Valid() && OthersMove(old(trace), trace, bound)
      ensures old(schedule) == [] ==> Now() == old(Now()) && trace == old(trace) && schedule == []
      ensures OthersKeep(old(callers), callers, bound, me)
      ensures (me in callers <==> me in old(callers)) && (me in callers ==> callers[me] == old(callers)[me])
    {
      if schedule == [] { return; }
      var batch := schedule[0];
      schedule := schedule[1..];
      for i := 0 to |batch|
        invariant Valid() && OthersMove(old(trace), trace, bound)
        invariant forall c | bound <= c ::
                    (c in callers <==> c in old(callers)) && (c in callers ==> callers[c] == old(callers)[c])
      {
        if batch[i].caller < bound {
          Elsewhere(batch[i]);
        }
      }
    }

    method Elsewhere(m: Move)
      requires Valid()
      modifies this`rows, this`records, this`outbox, this`callers, this`lost, this`trace
      ensures Valid() && trace == old(trace) + [m]
      ensures forall c | c != m.caller ::
                (c in callers <==> c in old(callers)) && (c in callers ==> callers[c] == old(callers)[c])
    {
      var now := State(rows, records, outbox, callers, lost);
      forall c | c != m.caller
        ensures (c in Apply(now, m).callers <==> c in callers)
                && (c in callers ==> Apply(now, m).callers[c] == callers[c])
      {
        OnlyTheCallerMoves(now, m, c);
      }
      RunAppend(INITIAL, trace, m);
      var next := Apply(now, m);
      rows, records, outbox, callers, lost := next.rows, next.records, next.outbox, next.callers, next.lost;
      trace := trace + [m];
    }

    method Begin(me: CallerId, input: Input)
      requires Valid() && me !in callers
      modifies this`callers, this`trace
      ensures In(me, input, Reading) && trace == old(trace) + [Move(me, Start(input))]
      ensures OthersKeep(old(callers), callers, 0, me)
    {
      RunAppend(INITIAL, trace, Move(me, Start(input)));
      callers := callers[me := Caller(input, Reading)];
      trace := trace + [Move(me, Start(input))];
    }

    /** The move that the tables have just made joins the run. */
    ghost method Log(was: State, m: Move)
      requires was == Run(INITIAL, trace) && Now() == Apply(was, m)
      modifies this`trace
      ensures Valid() && trace == old(trace) + [m]
    {
      RunAppend(INITIAL, trace, m);
      trace := trace + [m];
    }

    /** A call that changes no table. */
    method Advance(me: CallerId, action: Action, phase: Phase)
      requires Valid() && me in callers && Apply(Now(), Move(me, action)) == At(Now(), me, phase)
      modifies this`callers, this`trace
      ensures In(me, old(callers)[me].input, phase) && trace == old(trace) + [Move(me, action)]
      ensures OthersKeep(old(callers), callers, 0, me)
    {
      ghost var was := Now();
      callers := callers[me := Caller(callers[me].input, phase)];
      Log(was, Move(me, action));
    }

    /** One point read of the provenance row. */
    method FindSettled(me: CallerId, action: Action, up: bool, otherwise: Phase) returns (r: Lookup)
      requires Valid() && me in callers
      requires Apply(Now(), Move(me, action)) == ReadStep(Now(), me, up, otherwise)
      modifies this`callers, this`trace
      ensures var k := old(callers)[me].input.suggestionId;
              && (r == Down <==> !up)
              && (r.Found? <==> up && Settled(rows, k))
              && (r.Found? ==> r.result == Accepted(rows[k].subjectType, rows[k].subjectId.value, true, rows[k].edited))
      ensures In(me, old(callers)[me].input, LookupPhase(r, otherwise)) && trace == old(trace) + [Move(me, action)]
      ensures OthersKeep(old(callers), callers, 0, me)
    {
      var k := callers[me].input.suggestionId;
      r := if !up then Down else if Settled(rows, k) then Found(Existing(rows, k)) else Missing;
      Advance(me, action, LookupPhase(r, otherwise));
    }

    /** Builds the theme context and validates the input against it. */
    method PrepareContext(me: CallerId, input: Input, failure: Option<Reason>)
      requires In(me, input, Preparing)
      modifies this`callers, this`trace
      ensures In(me, input, if failure.Some? then Finished(Failed(failure.value)) else Claiming)
      ensures trace == old(trace) + [Move(me, Prepare(failure))] && OthersKeep(old(callers), callers, 0, me)
    {
      Advance(me, Prepare(failure), if failure.Some? then Finished(Failed(failure.value)) else Claiming);
    }

    /** Looks for a blocking duplicate. */
    method ScreenDuplicates(me: CallerId, input: Input, failure: Option<Reason>)
      requires In(me, input, Screening)
      modifies this`callers, this`trace
      ensures In(me, input, if failure.Some? then Releasing(failure.value) else Creating)
      ensures trace == old(trace) + [Move(me, Screen(failure))] && OthersKeep(old(callers), callers, 0, me)
    {
      Advance(me, Screen(failure), if failure.Some? then Releasing(failure.value) else Creating);
    }

    /** Aligns a new KPI to its theme. */
    method SetAlignment(me: CallerId, input: Input, id: SubjectId, ok: bool)
      requires In(me, input, Aligning(id))
      modifies this`callers, this`trace
      ensures In(me, input, Settling(id, if ok then None else Some(CreationFailed)))
      ensures trace == old(trace) + [Move(me, Align(ok))] && OthersKeep(old(callers), callers, 0, me)
    {
      Advance(me, Align(ok), Settling(id, if ok then None else Some(CreationFailed)));
    }

    /** The phase after an unanswered poll. */
    static function StillWaiting(attempt: nat): Phase {
      if attempt + 1 < CLAIM_WAIT_ATTEMPTS then Waiting(attempt + 1) else Finished(Failed(InProgress))
    }

    method PollOnce(me: CallerId, input: Input, attempt: nat, up: bool) returns (r: Lookup)
      requires In(me, input, Waiting(attempt))
      modifies this`callers, this`trace
      ensures In(me, input, LookupPhase(r, StillWaiting(attempt)))
      ensures r == Down <==> !up
      ensures r.Found? <==> up && Settled(rows, input.suggestionId)
      ensures trace == old(trace) + [Move(me, Poll(up))] && OthersKeep(old(callers), callers, 0, me)
    {
      r := FindSettled(me, Poll(up), up, StillWaiting(attempt));
    }

    method ReadOnce(me: CallerId, input: Input, up: bool) returns (r: Lookup)
      requires In(me, input, Reading)
      modifies this`callers, this`trace
      ensures In(me, input, LookupPhase(r, Preparing))
      ensures var k := input.suggestionId;
              && (r == Down <==> !up) && (r.Found? <==> up && Settled(rows, k))
              && (r.Found? ==> r.result == Accepted(rows[k].subjectType, rows[k].subjectId.value, true, rows[k].edited))
      ensures trace == old(trace) + [Move(me, Read(up))] && OthersKeep(old(callers), callers, 0, me)
    {
      r := FindSettled(me, Read(up), up, Preparing);
    }

    /** The insert under the unique key: won when it was free and the answer came back. */
    method Claim(me: CallerId, input: Input, io: Write) returns (r: ClaimOutcome)
      requires In(me, input, Claiming)
      modifies this`rows, this`callers, this`trace
      ensures var free := input.suggestionId !in old(rows);
              && (r == Won <==> free && io == Done) && (r == Taken <==> !free && io != Refused)
              && rows == if free && io != Refused
                         then old(rows)[input.suggestionId := Row(input.kind, None, input.edited)] else old(rows)
      ensures In(me, input, match r
                            case Won => Screening
                            case Taken => Waiting(0)
                            case Unavailable => Finished(Failed(CreationFailed)))
      ensures trace == old(trace) + [Move(me, Action.Claim(io))] && OthersKeep(old(callers), callers, 0, me)
    {
      ghost var was := Now();
      ClaimApplies(was, me, io);
      if io == Refused {
        Advance(me, Action.Claim(io), Finished(Failed(CreationFailed)));
        return Unavailable;
      }
      if input.suggestionId in rows {
        Advance(me, Action.Claim(io), Waiting(0));
        return Taken;
      }
      rows := rows[input.suggestionId := Row(input.kind, None, input.edited)];
      callers := callers[me := Caller(input, if io == Done then Screening else Finished(Failed(CreationFailed)))];
      Log(was, Move(me, Action.Claim(io)));
      return if io == Done then Won else Unavailable;
    }

    /** The transaction that mints the record: known to have worked only when its answer came back. */
    method Create(me: CallerId, input: Input, id: SubjectId, io: Write) returns (created: bool)
      requires In(me, input, Creating)
      modifies this`records, this`callers, this`lost, this`trace
      ensures created <==> io == Done && id !in old(records)
      ensures records == if io != Refused && id !in old(records)
                         then old(records)[id := Record(input.suggestionId, input.kind, me)]
                         else old(records)
      ensures lost == if io == AckLost && id !in old(records)
                      then old(lost) + multiset{input.suggestionId} else old(lost)
      ensures In(me, input, if !created then Releasing(CreationFailed)
                            else if input.kind == KpiDefinition then Aligning(id) else Settling(id, None))
      ensures trace == old(trace) + [Move(me, Action.Create(id, io))] && OthersKeep(old(callers), callers, 0, me)
    {
      ghost var was := Now();
      CreateApplies(was, me, id, io);
      if io == Refused || id in records {
        Advance(me, Action.Create(id, io), Releasing(CreationFailed));
        return false;
      }
      records := records[id := Record(input.suggestionId, input.kind, me)];
      if io == AckLost {
        lost := lost + multiset{input.suggestionId};
      }
      callers := callers[me := Caller(input, if io == AckLost then Releasing(CreationFailed)
                                             else if input.kind == KpiDefinition then Aligning(id)
                                             else Settling(id, None))];
      Log(was, Move(me, Action.Create(id, io)));
      return io == Done;
    }

    /** Row update and outbox insert in one transaction; a failure is only logged. */
    method SettleClaim(me: CallerId, input: Input, id: SubjectId, failure: Option<Reason>, io: Write) returns (r: Result)
      requires In(me, input, Settling(id, failure))
      modifies this`rows, this`outbox, this`callers, this`trace
      ensures r == if failure.Some? then Failed(failure.value) else Accepted(input.kind, id, false, input.edited)
      ensures var k := input.suggestionId;
              if io != Refused && k in old(rows)
              then rows == old(rows)[k := old(rows)[k].(subjectId := Some(id))]
                   && outbox == Announce(old(outbox), k, Event(input.kind, id))
              else rows == old(rows) && outbox == old(outbox)
      ensures In(me, input, Finished(r)) && trace == old(trace) + [Move(me, Settle(io))]
      ensures OthersKeep(old(callers), callers, 0, me)
    {
      ghost var was := Now();
      SettleApplies(was, me, io);
      r := if failure.Some? then Failed(failure.value) else Accepted(input.kind, id, false, input.edited);
      var k := input.suggestionId;
      if io != Refused && k in rows {
        rows := rows[k := rows[k].(subjectId := Some(id))];
        outbox := Announce(outbox, k, Event(input.kind, id));
      }
      callers := callers[me := Caller(input, Finished(r))];
      Log(was, Move(me, Settle(io)));
    }

    /** Deletes the claim if it is unfinished; a failure is only logged. */
    method ReleaseClaim(me: CallerId, input: Input, reason: Reason, io: Write) returns (r: Result)
      requires In(me, input, Releasing(reason))
      modifies this`rows, this`callers, this`trace
      ensures r == Failed(reason)
      ensures rows == if io != Refused then WithoutClaim(old(rows), input.suggestionId) else old(rows)
      ensures In(me, input, Finished(r)) && trace == old(trace) + [Move(me, Release(io))]
      ensures OthersKeep(old(callers), callers, 0, me)
    {
      ghost var was := Now();
      ReleaseApplies(was, me, io);
      r := Failed(reason);
      if io != Refused {
        rows := WithoutClaim(rows, input.suggestionId);
      }
      callers := callers[me := Caller(input, Finished(r))];
      Log(was, Move(me, Release(io)));
    }

    // The others run, then one call as planned.

    /** The read before anything else. */
    method TurnToRead(bound: CallerId, me: CallerId, input: Input, plan: Plan, ghost since: seq<Move>) returns (r: Lookup)
      requires In(me, input, Reading) && bound <= me && Keeping(since, bound, me, plan)
      modifies this`rows, this`records, this`outbox, this`callers, this`lost, this`trace, this`schedule
      ensures In(me, input, LookupPhase(r, Preparing)) && OthersKeep(old(callers), callers, bound, me)
      ensures Keeping(since, bound, me, plan)
      ensures r == Down <==> !plan.read
      ensures old(schedule) == [] ==>
                && schedule == [] && TablesKeep(old(Now()), Now())
                && (r.Found? <==> plan.read && Settled(old(rows), input.suggestionId))
                && (r.Found? ==>
                      var row := old(rows)[input.suggestionId];
                      r.result == Accepted(row.subjectType, row.subjectId.value, true, row.edited))
    {
      Yield(bound, me);
      ContinuesByOthers(since, old(trace), trace, bound, me, plan);
      ContinuesByOwn(since, trace, Move(me, Read(plan.read)), bound, plan);
      r := ReadOnce(me, input, plan.read);
    }

    /** One poll for the winner's record. */
    method TurnToPoll(bound: CallerId, me: CallerId, input: Input, attempt: nat, plan: Plan, ghost since: seq<Move>) returns (r: Lookup)
      requires In(me, input, Waiting(attempt)) && bound <= me && Keeping(since, bound, me, plan)
      modifies this`rows, this`records, this`outbox, this`callers, this`lost, this`trace, this`schedule
      ensures In(me, input, LookupPhase(r, StillWaiting(attempt))) && OthersKeep(old(callers), callers, bound, me)
      ensures Keeping(since, bound, me, plan)
      ensures r == Down <==> !PollAnswer(plan, attempt)
      ensures old(schedule) == [] ==>
                && schedule == [] && TablesKeep(old(Now()), Now()) && |trace| == |old(trace)| + 1
                && (r.Found? <==> PollAnswer(plan, attempt) && Settled(old(rows), input.suggestionId))
    {
      Yield(bound, me);
      ContinuesByOthers(since, old(trace), trace, bound, me, plan);
      ContinuesByOwn(since, trace, Move(me, Poll(PollAnswer(plan, attempt))), bound, plan);
      r := PollOnce(me, input, attempt, PollAnswer(plan, attempt));
    }

    /** The claim. */
    method TurnToClaim(bound: CallerId, me: CallerId, input: Input, plan: Plan, ghost since: seq<Move>) returns (r: ClaimOutcome)
      requires In(me, input, Claiming) && bound <= me && Keeping(since, bound, me, plan)
      modifies this`rows, this`records, this`outbox, this`callers, this`lost, this`trace, this`schedule
      ensures In(me, input, match r
                            case Won => Screening
                            case Taken => Waiting(0)
                            case Unavailable => Finished(Failed(CreationFailed))) && OthersKeep(old(callers), callers, bound, me)
      ensures Keeping(since, bound, me, plan)
      ensures old(schedule) == [] ==>
                var free := input.suggestionId !in old(rows);
                && schedule == [] && records == old(records) && outbox == old(outbox) && lost == old(lost)
                && (r == Won <==> free && plan.claim == Done) && (r == Taken <==> !free && plan.claim != Refused)
                && rows == if free && plan.claim != Refused
                           then old(rows)[input.suggestionId := Row(input.kind, None, input.edited)] else old(rows)
    {
      Yield(bound, me);
      ContinuesByOthers(since, old(trace), trace, bound, me, plan);
      ContinuesByOwn(since, trace, Move(me, Action.Claim(plan.claim)), bound, plan);
      r := Claim(me, input, plan.claim);
    }

    /** The look for a duplicate. */
    method TurnToScreen(bound: CallerId, me: CallerId, input: Input, plan: Plan, ghost since: seq<Move>)
      requires In(me, input, Screening) && bound <= me && Keeping(since, bound, me, plan)
      modifies this`rows, this`records, this`outbox, this`callers, this`lost, this`trace, this`schedule
      ensures In(me, input, if plan.screen.Some? then Releasing(plan.screen.value) else Creating) && OthersKeep(old(callers), callers, bound, me)
      ensures Keeping(since, bound, me, plan)
      ensures old(schedule) == [] ==> schedule == [] && TablesKeep(old(Now()), Now())
    {
      Yield(bound, me);
      ContinuesByOthers(since, old(trace), trace, bound, me, plan);
      ContinuesByOwn(since, trace, Move(me, Screen(plan.screen)), bound, plan);
      ScreenDuplicates(me, input, plan.screen);
    }

    /** The creation. */
    method TurnToCreate(bound: CallerId, me: CallerId, input: Input, plan: Plan, ghost since: seq<Move>) returns (created: bool)
      requires In(me, input, Creating) && bound <= me && Keeping(since, bound, me, plan)
      modifies this`rows, this`records, this`outbox, this`callers, this`lost, this`trace, this`schedule
      ensures In(me, input, if !created then Releasing(CreationFailed)
                            else if input.kind == KpiDefinition then Aligning(plan.id) else Settling(plan.id, None)) && OthersKeep(old(callers), callers, bound, me)
      ensures Keeping(since, bound, me, plan)
      ensures old(schedule) == [] ==>
                var free := plan.id !in old(records);
                && schedule == [] && rows == old(rows) && outbox == old(outbox)
                && (created <==> plan.create == Done && free)
                && records == (if plan.create != Refused && free
                               then old(records)[plan.id := Record(input.suggestionId, input.kind, me)] else old(records))
                && lost == if plan.create == AckLost && free then old(lost) + multiset{input.suggestionId} else old(lost)
    {
      Yield(bound, me);
      ContinuesByOthers(since, old(trace), trace, bound, me, plan);
      ContinuesByOwn(since, trace, Move(me, Action.Create(plan.id, plan.create)), bound, plan);
      created := Create(me, input, plan.id, plan.create);
    }

    /** The alignment. */
    method TurnToAlign(bound: CallerId, me: CallerId, input: Input, plan: Plan, ghost since: seq<Move>)
      requires In(me, input, Aligning(plan.id)) && bound <= me && Keeping(since, bound, me, plan)
      modifies this`rows, this`records, this`outbox, this`callers, this`lost, this`trace, this`schedule
      ensures In(me, input, Settling(plan.id, if plan.align then None else Some(CreationFailed))) && OthersKeep(old(callers), callers, bound, me)
      ensures Keeping(since, bound, me, plan)
      ensures old(schedule) == [] ==> schedule == [] && TablesKeep(old(Now()), Now())
    {
      Yield(bound, me);
      ContinuesByOthers(since, old(trace), trace, bound, me, plan);
      ContinuesByOwn(since, trace, Move(me, Align(plan.align)), bound, plan);
      SetAlignment(me, input, plan.id, plan.align);
    }

    /** The settlement. */
    method TurnToSettle(bound: CallerId, me: CallerId, input: Input, failure: Option<Reason>, plan: Plan, ghost since: seq<Move>) returns (r: Result)
      requires In(me, input, Settling(plan.id, failure)) && bound <= me && Keeping(since, bound, me, plan)
      modifies this`rows, this`records, this`outbox, this`callers, this`lost, this`trace, this`schedule
      ensures In(me, input, Finished(r)) && OthersKeep(old(callers), callers, bound, me)
      ensures Keeping(since, bound, me, plan)
      ensures r == if failure.Some? then Failed(failure.value) else Accepted(input.kind, plan.id, false, input.edited)
      ensures old(schedule) == [] ==>
                var k := input.suggestionId;
                && records == old(records) && lost == old(lost)
                && if plan.settle != Refused && k in old(rows)
                   then rows == old(rows)[k := old(rows)[k].(subjectId := Some(plan.id))]
                        && outbox == Announce(old(outbox), k, Event(input.kind, plan.id))
                   else rows == old(rows) && outbox == old(outbox)
    {
      Yield(bound, me);
      ContinuesByOthers(since, old(trace), trace, bound, me, plan);
      ContinuesByOwn(since, trace, Move(me, Settle(plan.settle)), bound, plan);
      r := SettleClaim(me, input, plan.id, failure, plan.settle);
    }

    /** The release. */
    method TurnToRelease(bound: CallerId, me: CallerId, input: Input, reason: Reason, plan: Plan, ghost since: seq<Move>) returns (r: Result)
      requires In(me, input, Releasing(reason)) && bound <= me && Keeping(since, bound, me, plan)
      modifies this`rows, this`records, this`outbox, this`callers, this`lost, this`trace, this`schedule
      ensures In(me, input, Finished(r)) && OthersKeep(old(callers), callers, bound, me)
      ensures Keeping(since, bound, me, plan)
      ensures r == Failed(reason)
      ensures old(schedule) == [] ==>
                && records == old(records) && outbox == old(outbox) && lost == old(lost)
                && rows == if plan.release != Refused then WithoutClaim(old(rows), input.suggestionId) else old(rows)
    {
      Yield(bound, me);
      ContinuesByOthers(since, old(trace), trace, bound, me, plan);
      ContinuesByOwn(since, trace, Move(me, Release(plan.release)), bound, plan);
      r := ReleaseClaim(me, input, reason, plan.release);
    }

    /** Polls for the winner's record a bounded number of times. Undisturbed it waits in vain, for forty polls. */
    method AwaitWinner(bound: CallerId, me: CallerId, input: Input, plan: Plan, ghost since: seq<Move>) returns (r: Result)
      requires In(me, input, Waiting(0)) && bound <= me && Keeping(since, bound, me, plan)
      modifies this`rows, this`records, this`outbox, this`callers, this`lost, this`trace, this`schedule
      ensures In(me, input, Finished(r)) && OthersKeep(old(callers), callers, bound, me)
      ensures Keeping(since, bound, me, plan)
      ensures old(schedule) == [] ==> TablesKeep(old(Now()), Now())
      ensures old(schedule) == [] && !Settled(old(rows), input.suggestionId) && (forall up | up in plan.polls :: up) ==>
                r == Failed(InProgress) && |trace| == |old(trace)| + 40
    {
      var attempt := 0;
      while attempt < CLAIM_WAIT_ATTEMPTS
        invariant attempt <= CLAIM_WAIT_ATTEMPTS
        invariant In(me, input, if attempt < CLAIM_WAIT_ATTEMPTS then Waiting(attempt) else Finished(Failed(InProgress)))
        invariant OthersKeep(old(callers), callers, bound, me) && Keeping(since, bound, me, plan)
        invariant old(schedule) == [] ==>
                    TablesKeep(old(Now()), Now()) && schedule == [] && |trace| == |old(trace)| + attempt
      {
        assert attempt < |plan.polls| ==> plan.polls[attempt] in plan.polls;
        var settled := TurnToPoll(bound, me, input, attempt, plan, since);
        match settled {
          case Down => return Failed(CreationFailed);
          case Found(result) => return result;
          case Missing =>
        }
        attempt := attempt + 1;
      }
      return Failed(InProgress);
    }

    /** One accept, from the first read to its answer. */
    method AcceptOne(bound: CallerId, me: CallerId, input: Input, plan: Plan) returns (r: Result)
      requires Valid() && bound <= me && me !in callers
      modifies this`rows, this`records, this`outbox, this`callers, this`lost, this`trace, this`schedule
      ensures In(me, input, Finished(r)) && OthersKeep(old(callers), callers, bound, me)
      ensures Keeping(old(trace), bound, me, plan)
      ensures old(schedule) == [] ==> Undisturbed(old(Now()), Now(), me, input, plan, r)
    {
      ghost var since := trace;
      ContinuesByOwn(since, trace, Move(me, Start(input)), bound, plan);
      Begin(me, input);
      var existing := TurnToRead(bound, me, input, plan, since);
      match existing {
        case Down => return Failed(CreationFailed);
        case Found(result) => return result;
        case Missing => r := PrepareAndClaim(bound, me, input, plan, since);
      }
    }

    /** The context, the claim, and what its winner or its loser does next. */
    method PrepareAndClaim(bound: CallerId, me: CallerId, input: Input, plan: Plan, ghost since: seq<Move>) returns (r: Result)
      requires In(me, input, Preparing) && bound <= me && Keeping(since, bound, me, plan)
      modifies this`rows, this`records, this`outbox, this`callers, this`lost, this`trace, this`schedule
      ensures In(me, input, Finished(r)) && OthersKeep(old(callers), callers, bound, me)
      ensures Keeping(since, bound, me, plan)
      ensures old(schedule) == [] && !Settled(old(rows), input.suggestionId) ==>
                PreparedUndisturbed(old(Now()), Now(), me, input, plan, r)
    {
      ContinuesByOwn(since, trace, Move(me, Prepare(plan.prepare)), bound, plan);
      PrepareContext(me, input, plan.prepare);
      if plan.prepare.Some? {
        return Failed(plan.prepare.value);
      }
      var claimed := TurnToClaim(bound, me, input, plan, since);
      match claimed {
        case Unavailable => return Failed(CreationFailed);
        case Taken => r := AwaitWinner(bound, me, input, plan, since);
        case Won => r := CreateUnderClaim(bound, me, input, plan, since);
      }
    }

    /** What the winner of the claim does with it. */
    method CreateUnderClaim(bound: CallerId, me: CallerId, input: Input, plan: Plan, ghost since: seq<Move>) returns (r: Result)
      requires In(me, input, Screening) && bound <= me && Keeping(since, bound, me, plan)
      modifies this`rows, this`records, this`outbox, this`callers, this`lost, this`trace, this`schedule
      ensures In(me, input, Finished(r)) && OthersKeep(old(callers), callers, bound, me)
      ensures Keeping(since, bound, me, plan)
      ensures old(schedule) == [] ==> WonUndisturbed(old(Now()), Now(), me, input, plan, r)
    {
      TurnToScreen(bound, me, input, plan, since);
      if plan.screen.Some? {
        r := TurnToRelease(bound, me, input, plan.screen.value, plan, since);
        return;
      }
      r := CreateAndSettle(bound, me, input, plan, since);
    }

    /** The creation, and the end of the claim either way. */
    method CreateAndSettle(bound: CallerId, me: CallerId, input: Input, plan: Plan, ghost since: seq<Move>) returns (r: Result)
      requires In(me, input, Creating) && bound <= me && Keeping(since, bound, me, plan)
      modifies this`rows, this`records, this`outbox, this`callers, this`lost, this`trace, this`schedule
      ensures In(me, input, Finished(r)) && OthersKeep(old(callers), callers, bound, me)
      ensures Keeping(since, bound, me, plan)
      ensures old(schedule) == [] ==> CreatedUndisturbed(old(Now()), Now(), me, input, plan, r)
    {
      var created := TurnToCreate(bound, me, input, plan, since);
      if !created {
        r := TurnToRelease(bound, me, input, CreationFailed, plan, since);
        return;
      }
      var failure := None;
      if input.kind == KpiDefinition {
        failure := if plan.align then None else Some(CreationFailed);
        TurnToAlign(bound, me, input, plan, since);
      }
      r := TurnToSettle(bound, me, input, failure, plan, since);
    }

    /** A single accept: its answer is that of its caller at the end of a longer run, in which it kept to its plan. */
    method Accept(me: CallerId, input: Input, plan: Plan) returns (r: Result)
      requires Valid() && me !in callers
      modifies this
      ensures Valid() && old(trace) <= trace && Continues(old(trace), trace, me, me, plan)
      ensures me in callers && callers[me] == Caller(input, Finished(r)) && OnPlan(Now(), me, plan)
      ensures old(schedule) == [] ==> Undisturbed(old(Now()), Now(), me, input, plan, r)
    {
      r := AcceptOne(me, me, input, plan);
      assert Continues(old(trace), trace, me, me, plan);
      KeepingStaysOnPlan(old(trace), trace, me, me, plan);
    }

    /** The next item of a batch; its failure does not stop the ones after it. */
    method AcceptNext(first: CallerId, inputs: seq<Input>, i: nat, plans: seq<Plan>, accepted: seq<Item>, failed: seq<Item>,
                      ghost since: seq<Move>)
      returns (accepted': seq<Item>, failed': seq<Item>)
      requires Valid() && i < |inputs| == |plans| && BatchDone(callers, first, inputs[..i], accepted, failed)
      requires BatchKeptTo(since, trace, first, plans, i)
      modifies this`rows, this`records, this`outbox, this`callers, this`lost, this`trace, this`schedule
      ensures Valid() && BatchDone(callers, first, inputs[..i + 1], accepted', failed')
      ensures BatchKeptTo(since, trace, first, plans, i + 1)
    {
      ghost var was := callers;
      var r := AcceptOne(first, first + i, inputs[i], plans[i]);
      BatchKeeps(since, old(trace), trace, first, plans, i);
      accepted', failed' := FileAnswer(first, inputs, i, r, accepted, failed, was);
    }

    /** The answer joins the list it belongs to. */
    method FileAnswer(first: CallerId, inputs: seq<Input>, i: nat, r: Result, accepted: seq<Item>, failed: seq<Item>,
                ghost was: map<CallerId, Caller>)
      returns (accepted': seq<Item>, failed': seq<Item>)
      requires i < |inputs| && BatchDone(was, first, inputs[..i], accepted, failed)
      requires OthersKeep(was, callers, first, first + i)
      requires first + i in callers && callers[first + i] == Caller(inputs[i], Finished(r))
      ensures BatchDone(callers, first, inputs[..i + 1], accepted', failed')
    {
      BatchExtends(was, callers, first, inputs, i, r, accepted, failed);
      if r.Accepted? {
        return accepted + [Item(inputs[i].suggestionId, r)], failed;
      } else {
        return accepted, failed + [Item(inputs[i].suggestionId, r)];
      }
    }

    /** A batch, item by item: every input lands in exactly one of the two lists, in order. */
    method AcceptMany(first: CallerId, inputs: seq<Input>, plans: seq<Plan>)
      returns (accepted: seq<Item>, failed: seq<Item>)
      requires Valid() && |plans| == |inputs| && forall c | first <= c :: c !in callers
      modifies this
      ensures Valid() && BatchContinues(old(trace), trace, first, plans, |plans|)
      ensures forall i | 0 <= i < |inputs| :: Answered(callers, first + i, inputs[i])
      ensures accepted == Picked(Answers(callers, first, inputs), true)
      ensures failed == Picked(Answers(callers, first, inputs), false)
      ensures |accepted| + |failed| == |inputs|
    {
      accepted, failed := [], [];
      var i := 0;
      while i < |inputs|
        invariant 0 <= i <= |inputs| && Valid()
        invariant BatchDone(callers, first, inputs[..i], accepted, failed)
        invariant BatchKeptTo(old(trace), trace, first, plans, i)
      {
        accepted, failed := AcceptNext(first, inputs, i, plans, accepted, failed, old(trace));
        i := i + 1;
      }
      assert inputs[..|inputs|] == inputs;
      assert BatchContinues(old(trace), trace, first, plans, |plans|);
      PickedPartitions(Answers(callers, first, inputs));
    }
  }

  /** The run goes on with moves of callers below first, and of the first n calls of a batch, each as planned. */
  ghost predicate BatchContinues(was: seq<Move>, now: seq<Move>, first: CallerId, plans: seq<Plan>, n: nat)
    requires n <= |plans|
  {
    && was <= now
    && forall i | |was| <= i < |now| :: now[i].caller < first || OwnOf(now, i, first, plans, n)
  }

  ghost predicate OwnOf(moves: seq<Move>, i: nat, first: CallerId, plans: seq<Plan>, n: nat)
    requires i < |moves| && n <= |plans|
  {
    first <= moves[i].caller < first + n && Own(moves, i, moves[i].caller, plans[moves[i].caller - first])
  }

  ghost predicate BatchKeptTo(was: seq<Move>, now: seq<Move>, first: CallerId, plans: seq<Plan>, n: nat)
    requires n <= |plans|
  {
    forall moves | moves == now :: BatchContinues(was, moves, first, plans, n)
  }

  lemma BatchKeeps(a: seq<Move>, b: seq<Move>, c: seq<Move>, first: CallerId, plans: seq<Plan>, n: nat)
    requires n < |plans| && BatchKeptTo(a, b, first, plans, n) && KeptTo(b, c, first, first + n, plans[n])
    ensures BatchKeptTo(a, c, first, plans, n + 1)
  {
    BatchContinuesOn(a, b, c, first, plans, n);
  }

  lemma BatchContinuesOn(a: seq<Move>, b: seq<Move>, c: seq<Move>, first: CallerId, plans: seq<Plan>, n: nat)
    requires n < |plans| && BatchContinues(a, b, first, plans, n) && Continues(b, c, first, first + n, plans[n])
    ensures BatchContinues(a, c, first, plans, n + 1)
  {
    forall i | |a| <= i < |c| ensures c[i].caller < first || OwnOf(c, i, first, plans, n + 1) {
      if i < |b| {
        assert b[i] == c[i] && b[..i] == c[..i];
        assert b[i].caller < first || OwnOf(b, i, first, plans, n);
      } else {
        assert c[i].caller < first || Own(c, i, first + n, plans[n]);
      }
    }
  }

  /** Every input has been answered, in order, into the list its answer belongs to. */
  ghost predicate BatchDone(callers: map<CallerId, Caller>, first: CallerId, inputs: seq<Input>,
                            accepted: seq<Item>, failed: seq<Item>) {
    && (forall c | first + |inputs| <= c :: c !in callers)
    && (forall j | 0 <= j < |inputs| :: Answered(callers, first + j, inputs[j]))
    && accepted == Picked(Answers(callers, first, inputs), true)
    && failed == Picked(Answers(callers, first, inputs), false)
  }

  ghost predicate Answered(callers: map<CallerId, Caller>, c: CallerId, input: Input) {
    c in callers && callers[c].input == input && callers[c].phase.Finished?
  }

  /** What the calls numbered from first on were asked and answered. */
  ghost function Answers(callers: map<CallerId, Caller>, first: CallerId, inputs: seq<Input>): (r: seq<Item>)
    ensures |r| == |inputs|
  {
    if inputs == [] then []
    else
      var c := first + |inputs| - 1;
      Answers(callers, first, inputs[..|inputs| - 1])
      + [Item(inputs[|inputs| - 1].suggestionId,
              if c in callers && callers[c].phase.Finished? then callers[c].phase.result else Failed(InProgress))]
  }

  lemma {:induction false} AnswersStay(was: map<CallerId, Caller>, now: map<CallerId, Caller>, first: CallerId,
                                       inputs: seq<Input>, last: CallerId)
    requires first + |inputs| <= last && OthersKeep(was, now, first, last)
    ensures Answers(now, first, inputs) == Answers(was, first, inputs)
    ensures forall j | 0 <= j < |inputs| && Answered(was, first + j, inputs[j]) :: Answered(now, first + j, inputs[j])
  {
    if inputs != [] {
      AnswersStay(was, now, first, inputs[..|inputs| - 1], last);
    }
  }

  lemma BatchExtends(was: map<CallerId, Caller>, now: map<CallerId, Caller>, first: CallerId,
                     inputs: seq<Input>, i: nat, r: Result, accepted: seq<Item>, failed: seq<Item>)
    requires i < |inputs| && BatchDone(was, first, inputs[..i], accepted, failed)
    requires OthersKeep(was, now, first, first + i)
    requires first + i in now && now[first + i] == Caller(inputs[i], Finished(r))
    ensures var item := Item(inputs[i].suggestionId, r);
            BatchDone(now, first, inputs[..i + 1],
                      if r.Accepted? then accepted + [item] else accepted,
                      if r.Accepted? then failed else failed + [item])
  {
    var before, item := Answers(was, first, inputs[..i]), Item(inputs[i].suggestionId, r);
    AnswersStay(was, now, first, inputs[..i], first + i);
    NextAnswer(now, first, inputs, i, r);
    PickedNext(before, item, true);
    PickedNext(before, item, false);
    var done := inputs[..i + 1];
    forall j | 0 <= j < |done| ensures Answered(now, first + j, done[j]) {
      if j < i { assert Answered(now, first + j, inputs[..i][j]); }
    }
  }

  lemma NextAnswer(now: map<CallerId, Caller>, first: CallerId, inputs: seq<Input>, i: nat, r: Result)
    requires i < |inputs| && first + i in now && now[first + i] == Caller(inputs[i], Finished(r))
    ensures Answers(now, first, inputs[..i + 1])
            == Answers(now, first, inputs[..i]) + [Item(inputs[i].suggestionId, r)]
  {
    assert inputs[..i + 1][..i] == inputs[..i];
  }

  lemma PickedNext(items: seq<Item>, item: Item, success: bool)
    ensures Picked(items + [item], success)
            == Picked(items, success) + if item.result.Accepted? == success then [item] else []
  {
    assert (items + [item])[..|items|] == items;
  }

  function Picked(items: seq<Item>, success: bool): seq<Item> {
    if items == [] then []
    else
      var last := items[|items| - 1];
      Picked(items[..|items| - 1], success) + if last.result.Accepted? == success then [last] else []
  }

  lemma {:induction false} PickedPartitions(items: seq<Item>)
    ensures |Picked(items, true)| + |Picked(items, false)| == |items|
    ensures multiset(Picked(items, true)) + multiset(Picked(items, false)) == multiset(items)
    ensures forall item | item in Picked(items, true) :: item.result.Accepted?
    ensures forall item | item in Picked(items, false) :: item.result.Failed?
  {
    if items != [] {
      PickedPartitions(items[..|items| - 1]);
      assert items == items[..|items| - 1] + [items[|items| - 1]];
    }
  }

  /** What is answered for each input is what its own call was answered. */
  lemma {:induction false} AnswersAt(callers: map<CallerId, Caller>, first: CallerId, inputs: seq<Input>, i: nat)
    requires i < |inputs| && Answered(callers, first + i, inputs[i])
    ensures Answers(callers, first, inputs)[i] == Item(inputs[i].suggestionId, callers[first + i].phase.result)
  {
    if i < |inputs| - 1 {
      AnswersAt(callers, first, inputs[..|inputs| - 1], i);
    }
  }

  /** Each list is in the order of the inputs, and holds every answer of its kind. */
  lemma {:induction false} PickedInOrder(items: seq<Item>, success: bool) returns (positions: seq<nat>)
    ensures forall j | 0 <= j < |positions| :: positions[j] < |items|
    ensures forall j, k | 0 <= j < k < |positions| :: positions[j] < positions[k]
    ensures forall i | 0 <= i < |items| :: i in positions <==> items[i].result.Accepted? == success
    ensures |Picked(items, success)| == |positions|
    ensures forall j | 0 <= j < |positions| :: Picked(items, success)[j] == items[positions[j]]
  {
    if items == [] {
      positions := [];
    } else {
      var last := |items| - 1;
      positions := PickedInOrder(items[..last], success);
      if items[last].result.Accepted? == success {
        positions := positions + [last];
      }
    }
  }
}
