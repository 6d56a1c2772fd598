/** The exactly-once acceptance protocol (apps/backend/src/modules/ai/ai-suggestion.service.ts). */
module AcceptProtocol {

  // A transition system over any number of concurrent callers. A move is one database or
  // domain call of one caller together with what the environment did to it: a write may take
  // effect, be rejected, or take effect with its acknowledgement lost. A run is any sequence
  // of moves, so interleavings, failures and crashes (a caller that never moves again) are
  // all covered.

  import opened Wrappers

  type SuggestionId = string
  type SubjectId = nat
  type CallerId = nat

  datatype SubjectType = KpiDefinition | Okr

  datatype Input = Input(suggestionId: SuggestionId, kind: SubjectType, edited: bool)

  datatype Reason = Duplicate | InProgress | ThemeNotFound | Invalid | CreationFailed

  datatype Result =
    | Accepted(subjectType: SubjectType, subjectId: SubjectId, alreadyAccepted: bool, edited: bool)
    | Failed(reason: Reason)

  /** A provenance row; its subject is absent while the claim is unfinished. */
  datatype Row = Row(subjectType: SubjectType, subjectId: Option<SubjectId>, edited: bool)

  /** A KPI or OKR, with the proposal and the caller it came from. */
  datatype Record = Record(suggestionId: SuggestionId, subjectType: SubjectType, owner: CallerId)

  datatype Event = Event(aggregateType: SubjectType, aggregateId: SubjectId)

  datatype Phase =
    | Reading
    | Preparing
    | Claiming
    | Screening
    | Creating
    | Aligning(id: SubjectId)
    | Settling(id: SubjectId, failure: Option<Reason>)
    | Releasing(reason: Reason)
    | Waiting(attempt: nat)
    | Finished(result: Result)
  {
    /** The caller won the claim and has not yet settled or released it. */
    predicate Holding() {
      Screening? || Creating? || Aligning? || Settling? || Releasing?
    }

    /** The caller holds the claim and knows of no record made under it. */
    predicate Empty() {
      Screening? || Creating? || Releasing?
    }
  }

  datatype Caller = Caller(input: Input, phase: Phase)

  datatype State = State(
    rows: map<SuggestionId, Row>,
    records: map<SubjectId, Record>,
    outbox: map<SuggestionId, Event>,
    callers: map<CallerId, Caller>,
    lost: multiset<SuggestionId>)

  datatype Write = Done | Refused | AckLost

  datatype Action =
    | Start(input: Input)
    | Read(up: bool)
    | Prepare(failure: Option<Reason>)
    | Claim(io: Write)
    | Screen(failure: Option<Reason>)
    | Create(id: SubjectId, io: Write)
    | Align(ok: bool)
    | Settle(io: Write)
    | Release(io: Write)
    | Poll(up: bool)

  datatype Move = Move(caller: CallerId, action: Action)

  const CLAIM_WAIT_ATTEMPTS: nat := 40

  const INITIAL := State(map[], map[], map[], map[], multiset{})

  // ---------------------------------------------------------------------------
  // The tables
  // ---------------------------------------------------------------------------

  predicate Settled(rows: map<SuggestionId, Row>, k: SuggestionId) {
    k in rows && rows[k].subjectId.Some?
  }

  function Existing(rows: map<SuggestionId, Row>, k: SuggestionId): Result
    requires Settled(rows, k)
  {
    Accepted(rows[k].subjectType, rows[k].subjectId.value, true, rows[k].edited)
  }

  /** Deletes the claim of a proposal, but never a settled row. */
  function WithoutClaim(rows: map<SuggestionId, Row>, k: SuggestionId): map<SuggestionId, Row> {
    if k in rows && rows[k].subjectId.None? then rows - {k} else rows
  }

  /** Inserts an outbox row unless its dedupe key is taken. */
  function Announce(outbox: map<SuggestionId, Event>, k: SuggestionId, e: Event): map<SuggestionId, Event> {
    if k in outbox then outbox else outbox[k := e]
  }

  // ---------------------------------------------------------------------------
  // Transitions
  // ---------------------------------------------------------------------------

  /** Caller c moves on to the given phase; no table changes. */
  function At(s: State, c: CallerId, phase: Phase): State
    requires c in s.callers
  {
    s.(callers := s.callers[c := Caller(s.callers[c].input, phase)])
  }

  /** findSettledProvenance, on the pre-read and on every poll. */
  function ReadStep(s: State, c: CallerId, up: bool, otherwise: Phase): State
    requires c in s.callers
  {
    var k := s.callers[c].input.suggestionId;
    At(s, c, if !up then Finished(Failed(CreationFailed))
             else if Settled(s.rows, k) then Finished(Existing(s.rows, k))
             else otherwise)
  }

  /** claim: the insert under the unique key on the suggestion id. */
  function ClaimStep(s: State, c: CallerId, io: Write): State
    requires c in s.callers
  {
    var input := s.callers[c].input;
    if io == Refused then At(s, c, Finished(Failed(CreationFailed)))
    else if input.suggestionId in s.rows then At(s, c, Waiting(0))
    else
      var inserted := s.(rows := s.rows[input.suggestionId := Row(input.kind, None, input.edited)]);
      At(inserted, c, if io == Done then Screening else Finished(Failed(CreationFailed)))
  }

  /** createDraft or okrs.create, one transaction that mints a new id. */
  function CreateStep(s: State, c: CallerId, id: SubjectId, io: Write): State
    requires c in s.callers
  {
    var input := s.callers[c].input;
    if io == Refused || id in s.records then At(s, c, Releasing(CreationFailed))
    else
      var created := s.(records := s.records[id := Record(input.suggestionId, input.kind, c)]);
      if io == AckLost then
        At(created.(lost := s.lost + multiset{input.suggestionId}), c, Releasing(CreationFailed))
      else
        At(created, c, if input.kind == KpiDefinition then Aligning(id) else Settling(id, None))
  }

  /** settleClaim: row update and outbox insert in one transaction, its errors swallowed. */
  function SettleStep(s: State, c: CallerId, id: SubjectId, failure: Option<Reason>, io: Write): State
    requires c in s.callers
  {
    var input := s.callers[c].input;
    var k := input.suggestionId;
    var result := if failure.Some? then Failed(failure.value) else Accepted(input.kind, id, false, input.edited);
    if io == Refused || k !in s.rows then At(s, c, Finished(result))
    else
      var row := s.rows[k].(subjectId := Some(id));
      At(s.(rows := s.rows[k := row], outbox := Announce(s.outbox, k, Event(input.kind, id))), c, Finished(result))
  }

  /** releaseClaim: deletes the row if it is still unfinished, its errors swallowed. */
  function ReleaseStep(s: State, c: CallerId, reason: Reason, io: Write): State
    requires c in s.callers
  {
    var k := s.callers[c].input.suggestionId;
    At(if io == Refused then s else s.(rows := WithoutClaim(s.rows, k)), c, Finished(Failed(reason)))
  }

  /** One move; a move the caller is not ready for changes nothing. */
  function Apply(s: State, m: Move): State {
    var c := m.caller;
    if m.action.Start? then
      if c in s.callers then s else s.(callers := s.callers[c := Caller(m.action.input, Reading)])
    else if c !in s.callers then s
    else
      match (s.callers[c].phase, m.action)
      case (Reading, Read(up)) => ReadStep(s, c, up, Preparing)
      case (Preparing, Prepare(failure)) =>
        At(s, c, if failure.Some? then Finished(Failed(failure.value)) else Claiming)
      case (Claiming, Claim(io)) => ClaimStep(s, c, io)
      case (Screening, Screen(failure)) =>
        At(s, c, if failure.Some? then Releasing(failure.value) else Creating)
      case (Creating, Create(id, io)) => CreateStep(s, c, id, io)
      case (Aligning(id), Align(ok)) => At(s, c, Settling(id, if ok then None else Some(CreationFailed)))
      case (Settling(id, failure), Settle(io)) => SettleStep(s, c, id, failure, io)
      case (Releasing(reason), Release(io)) => ReleaseStep(s, c, reason, io)
      case (Waiting(attempt), Poll(up)) =>
        ReadStep(s, c, up, if attempt + 1 < CLAIM_WAIT_ATTEMPTS then Waiting(attempt + 1)
                           else Finished(Failed(InProgress)))
      case _ => s
  }

  function Run(s: State, moves: seq<Move>): State {
    if moves == [] then s else Apply(Run(s, moves[..|moves| - 1]), moves[|moves| - 1])
  }

  // ---------------------------------------------------------------------------
  // The invariant
  // ---------------------------------------------------------------------------

  function RecordsOf(s: State, k: SuggestionId): set<SubjectId> {
    set id | id in s.records && s.records[id].suggestionId == k
  }

  ghost predicate Holds(s: State, c: CallerId, k: SuggestionId) {
    c in s.callers && s.callers[c].phase.Holding() && s.callers[c].input.suggestionId == k
  }

  ghost predicate Succeeded(s: State, c: CallerId, k: SuggestionId) {
    c in s.callers && s.callers[c].phase.Finished? && s.callers[c].phase.result.Accepted?
    && s.callers[c].input.suggestionId == k
  }

  /** The records of a proposal, beyond the one its row stands for, are paid for by lost
      acknowledgements; a settled row names one of them, and exactly the settled rows are announced. */
  ghost predicate KeySound(s: State, k: SuggestionId) {
    && |RecordsOf(s, k)| <= s.lost[k] + (if k in s.rows then 1 else 0)
    && (k in s.outbox <==> Settled(s.rows, k))
    && (Settled(s.rows, k) ==>
          var id := s.rows[k].subjectId.value;
          && s.outbox[k] == Event(s.rows[k].subjectType, id)
          && id in s.records
          && s.records[id].suggestionId == k && s.records[id].subjectType == s.rows[k].subjectType)
  }

  /** A holder's row is its unfinished claim; before it creates, the claim stands for no record;
      afterwards it owns the record it carries. */
  ghost predicate HolderSound(s: State, c: CallerId)
    requires c in s.callers
  {
    var Caller(input, phase) := s.callers[c];
    && (phase.Holding() ==>
          input.suggestionId in s.rows
          && s.rows[input.suggestionId].subjectId.None? && s.rows[input.suggestionId].subjectType == input.kind)
    && (phase.Empty() ==> |RecordsOf(s, input.suggestionId)| <= s.lost[input.suggestionId])
    && (phase.Aligning? || phase.Settling? ==>
          phase.id in s.records && s.records[phase.id] == Record(input.suggestionId, input.kind, c))
  }

  /** A success names a record of its proposal, its own when it reports a first acceptance,
      and the row never says otherwise. */
  ghost predicate SuccessSound(s: State, c: CallerId, k: SuggestionId)
    requires Succeeded(s, c, k)
  {
    var r := s.callers[c].phase.result;
    && k in s.rows
    && (Settled(s.rows, k) ==> s.rows[k].subjectId.value == r.subjectId)
    && r.subjectId in s.records
    && s.records[r.subjectId].suggestionId == k
    && s.records[r.subjectId].subjectType == r.subjectType
    && (!r.alreadyAccepted ==> s.records[r.subjectId].owner == c)
  }

  ghost predicate CallerSound(s: State, c: CallerId) {
    c in s.callers ==>
      && HolderSound(s, c)
      && (Succeeded(s, c, s.callers[c].input.suggestionId) ==> SuccessSound(s, c, s.callers[c].input.suggestionId))
  }

  /** On one proposal: one holder at a time, none after a success, and all successes agree. */
  ghost predicate PairSound(s: State, c: CallerId, d: CallerId) {
    c in s.callers && d in s.callers && s.callers[c].input.suggestionId == s.callers[d].input.suggestionId ==>
      var k := s.callers[c].input.suggestionId;
      && (Holds(s, c, k) && Holds(s, d, k) ==> c == d)
      && !(Succeeded(s, c, k) && Holds(s, d, k))
      && (Succeeded(s, c, k) && Succeeded(s, d, k) ==>
            var r, q := s.callers[c].phase.result, s.callers[d].phase.result;
            && r.subjectId == q.subjectId && r.subjectType == q.subjectType
            && (!r.alreadyAccepted && !q.alreadyAccepted ==> c == d))
  }

  ghost predicate Invariant(s: State) {
    && (forall k :: KeySound(s, k))
    && (forall c :: CallerSound(s, c))
    && (forall c, d :: PairSound(s, c, d))
  }

  /** What every step of caller c looks like from outside: it stays on its own proposal, takes
      the claim only when there is none, touches an existing row only as its holder, and
      succeeds only as the holder or by reading a settled row. */
  ghost predicate Legal(s: State, t: State, c: CallerId) {
    c in s.callers
    && var k := s.callers[c].input.suggestionId;
    && c in t.callers && t.callers == s.callers[c := Caller(s.callers[c].input, t.callers[c].phase)]
    && (forall j | j != k :: SameKey(s, t, j))
    && (forall id | id in s.records :: id in t.records && t.records[id] == s.records[id])
    && KeySound(t, k) && CallerSound(t, c)
    && (k in s.rows && !Holds(s, c, k) ==>
          k in t.rows && t.rows[k] == s.rows[k] && |RecordsOf(t, k)| - t.lost[k] <= |RecordsOf(s, k)| - s.lost[k])
    && (Holds(t, c, k) ==> Holds(s, c, k) || k !in s.rows)
    && (Succeeded(t, c, k) ==>
          Holds(s, c, k) || (Settled(s.rows, k) && t.callers[c].phase.result == Existing(s.rows, k)))
  }

  ghost predicate SameKey(s: State, t: State, j: SuggestionId) {
    && (j in s.rows <==> j in t.rows) && (j in s.rows ==> s.rows[j] == t.rows[j])
    && (j in s.outbox <==> j in t.outbox) && (j in s.outbox ==> s.outbox[j] == t.outbox[j])
    && RecordsOf(s, j) == RecordsOf(t, j) && s.lost[j] == t.lost[j]
  }

  lemma LegalKeepsKeys(s: State, t: State, c: CallerId, j: SuggestionId)
    requires Legal(s, t, c) && KeySound(s, j)
    ensures KeySound(t, j)
  {
    assert j == s.callers[c].input.suggestionId || SameKey(s, t, j);
  }

  lemma LegalKeepsCallers(s: State, t: State, c: CallerId, d: CallerId)
    requires Legal(s, t, c) && CallerSound(s, d)
    requires PairSound(s, c, d) && PairSound(s, d, c)
    ensures CallerSound(t, d)
  {
    if d in s.callers && d != c {
      var j := s.callers[d].input.suggestionId;
      assert j == s.callers[c].input.suggestionId || SameKey(s, t, j);
    }
  }

  lemma LegalKeepsPairs(s: State, t: State, c: CallerId, d: CallerId, e: CallerId)
    requires Legal(s, t, c) && CallerSound(s, d) && CallerSound(s, e)
    requires PairSound(s, d, e) && PairSound(s, e, d)
    ensures PairSound(t, d, e)
  {
  }

  lemma LegalKeepsInvariant(s: State, t: State, c: CallerId)
    requires Invariant(s) && Legal(s, t, c)
    ensures Invariant(t)
  {
    forall k ensures KeySound(t, k) {
      LegalKeepsKeys(s, t, c, k);
    }
    forall d ensures CallerSound(t, d) {
      LegalKeepsCallers(s, t, c, d);
    }
    forall d, e ensures PairSound(t, d, e) {
      LegalKeepsPairs(s, t, c, d, e);
    }
  }

  lemma RecordsUnchanged(s: State, t: State)
    requires s.records == t.records
    ensures forall k :: RecordsOf(s, k) == RecordsOf(t, k)
  {
  }

  lemma PhaseIsLegal(s: State, c: CallerId, phase: Phase)
    requires c in s.callers && KeySound(s, s.callers[c].input.suggestionId) && CallerSound(s, c)
    requires phase.Holding() ==> s.callers[c].phase.Holding()
    requires phase.Empty() ==> s.callers[c].phase.Empty()
    requires phase.Settling? ==> s.callers[c].phase.Aligning? && s.callers[c].phase.id == phase.id
    requires !phase.Aligning?
    requires phase.Finished? && phase.result.Accepted? ==>
               Settled(s.rows, s.callers[c].input.suggestionId)
               && phase.result == Existing(s.rows, s.callers[c].input.suggestionId)
    ensures Legal(s, At(s, c, phase), c)
  {
    RecordsUnchanged(s, At(s, c, phase));
  }

  lemma ClaimIsLegal(s: State, c: CallerId, io: Write)
    requires c in s.callers && KeySound(s, s.callers[c].input.suggestionId) && CallerSound(s, c)
    requires s.callers[c].phase.Claiming?
    ensures Legal(s, ClaimStep(s, c, io), c)
  {
    RecordsUnchanged(s, ClaimStep(s, c, io));
  }

  lemma CreateIsLegal(s: State, c: CallerId, id: SubjectId, io: Write)
    requires c in s.callers && KeySound(s, s.callers[c].input.suggestionId) && CallerSound(s, c)
    requires s.callers[c].phase.Creating?
    ensures Legal(s, CreateStep(s, c, id, io), c)
  {
    var t, k := CreateStep(s, c, id, io), s.callers[c].input.suggestionId;
    if io == Refused || id in s.records {
      PhaseIsLegal(s, c, Releasing(CreationFailed));
    } else {
      assert t.rows == s.rows && t.outbox == s.outbox && t.records == s.records[id := Record(k, s.callers[c].input.kind, c)];
      assert RecordsOf(t, k) == RecordsOf(s, k) + {id};
      assert KeySound(t, k);
      forall j | j != k ensures SameKey(s, t, j) {
        assert RecordsOf(t, j) == RecordsOf(s, j);
      }
    }
  }

  lemma SettleIsLegal(s: State, c: CallerId, io: Write)
    requires c in s.callers && KeySound(s, s.callers[c].input.suggestionId) && CallerSound(s, c)
    requires s.callers[c].phase.Settling?
    ensures Legal(s, SettleStep(s, c, s.callers[c].phase.id, s.callers[c].phase.failure, io), c)
  {
    RecordsUnchanged(s, SettleStep(s, c, s.callers[c].phase.id, s.callers[c].phase.failure, io));
  }

  lemma ReleaseIsLegal(s: State, c: CallerId, io: Write)
    requires c in s.callers && KeySound(s, s.callers[c].input.suggestionId) && CallerSound(s, c)
    requires s.callers[c].phase.Releasing?
    ensures Legal(s, ReleaseStep(s, c, s.callers[c].phase.reason, io), c)
  {
    RecordsUnchanged(s, ReleaseStep(s, c, s.callers[c].phase.reason, io));
  }

  lemma StartKeepsInvariant(s: State, c: CallerId, input: Input)
    requires Invariant(s) && c !in s.callers
    ensures Invariant(s.(callers := s.callers[c := Caller(input, Reading)]))
  {
    var t := s.(callers := s.callers[c := Caller(input, Reading)]);
    RecordsUnchanged(s, t);
    forall k ensures KeySound(t, k) {
      assert KeySound(s, k);
    }
    forall d ensures CallerSound(t, d) {
      assert CallerSound(s, d);
    }
    forall d, e ensures PairSound(t, d, e) {
      assert PairSound(s, d, e);
    }
  }

  /** Every move is a start, a stutter or a legal step of its caller. */
  lemma MoveIsLegal(s: State, m: Move)
    requires Invariant(s) && m.caller in s.callers && Apply(s, m) != s
    ensures Legal(s, Apply(s, m), m.caller)
  {
    var Move(c, a) := m;
    assert KeySound(s, s.callers[c].input.suggestionId) && CallerSound(s, c);
    match a
    case Claim(io) => ClaimIsLegal(s, c, io);
    case Create(id, io) => CreateIsLegal(s, c, id, io);
    case Settle(io) => SettleIsLegal(s, c, io);
    case Release(io) => ReleaseIsLegal(s, c, io);
    case Start(_) => assert false;
    case Read(_) => QuietMoveIsLegal(s, m);
    case Prepare(_) => QuietMoveIsLegal(s, m);
    case Screen(_) => QuietMoveIsLegal(s, m);
    case Align(_) => QuietMoveIsLegal(s, m);
    case Poll(_) => QuietMoveIsLegal(s, m);
  }

  /** The moves that only read or only decide. */
  lemma QuietMoveIsLegal(s: State, m: Move)
    requires m.action.Read? || m.action.Prepare? || m.action.Screen? || m.action.Align? || m.action.Poll?
    requires m.caller in s.callers && Apply(s, m) != s
    requires KeySound(s, s.callers[m.caller].input.suggestionId) && CallerSound(s, m.caller)
    ensures Legal(s, Apply(s, m), m.caller)
  {
    var phase := Apply(s, m).callers[m.caller].phase;
    assert Apply(s, m) == At(s, m.caller, phase);
    PhaseIsLegal(s, m.caller, phase);
  }

  lemma InvariantStep(s: State, m: Move)
    requires Invariant(s)
    ensures Invariant(Apply(s, m))
  {
    if Apply(s, m) == s {
    } else if m.caller in s.callers {
      MoveIsLegal(s, m);
      LegalKeepsInvariant(s, Apply(s, m), m.caller);
    } else {
      StartKeepsInvariant(s, m.caller, m.action.input);
    }
  }

  lemma {:induction false} InvariantHolds(moves: seq<Move>)
    ensures Invariant(Run(INITIAL, moves))
  {
    if moves == [] {
      assert forall k :: RecordsOf(INITIAL, k) == {};
    } else {
      InvariantHolds(moves[..|moves| - 1]);
      InvariantStep(Run(INITIAL, moves[..|moves| - 1]), moves[|moves| - 1]);
    }
  }

  // ---------------------------------------------------------------------------
  // What holds over every run
  // ---------------------------------------------------------------------------

  /** A proposal becomes at most one record more than creations committed whose
      acknowledgement was lost on the way back. */
  lemma RecordsPerSuggestion(moves: seq<Move>, k: SuggestionId)
    ensures |RecordsOf(Run(INITIAL, moves), k)| <= Run(INITIAL, moves).lost[k] + 1
  {
    InvariantHolds(moves);
    assert KeySound(Run(INITIAL, moves), k);
  }

  /** No creation of the run commits and still reports an error. */
  ghost predicate AtomicCreations(moves: seq<Move>) {
    forall i | 0 <= i < |moves| && moves[i].action.Create? :: moves[i].action.io != AckLost
  }

  lemma {:induction false} AtomicCreationsLoseNothing(moves: seq<Move>)
    requires AtomicCreations(moves)
    ensures Run(INITIAL, moves).lost == multiset{}
  {
    if moves != [] {
      var before, m := moves[..|moves| - 1], moves[|moves| - 1];
      AtomicCreationsLoseNothing(before);
      OnlyCreationsLose(Run(INITIAL, before), m);
    }
  }

  lemma OnlyCreationsLose(s: State, m: Move)
    requires m.action.Create? ==> m.action.io != AckLost
    ensures Apply(s, m).lost == s.lost
  {
  }

  /** At most one KPI or OKR per proposal, for any number of callers, interleavings, failed
      claims, failed or unacknowledged settlements and releases, and crashes. */
  lemma AtMostOneRecord(moves: seq<Move>, i: SubjectId, j: SubjectId)
    requires AtomicCreations(moves)
    requires i in Run(INITIAL, moves).records && j in Run(INITIAL, moves).records
    requires Run(INITIAL, moves).records[i].suggestionId == Run(INITIAL, moves).records[j].suggestionId
    ensures i == j
  {
    var s := Run(INITIAL, moves);
    var ids := RecordsOf(s, s.records[i].suggestionId);
    AtomicCreationsLoseNothing(moves);
    RecordsPerSuggestion(moves, s.records[i].suggestionId);
    assert i in ids && j in ids;
    assert |ids - {i}| == 0;
    assert ids == {i} + (ids - {i});
  }

  lemma RunAppend(s: State, moves: seq<Move>, m: Move)
    ensures Run(s, moves + [m]) == Apply(Run(s, moves), m)
  {
    assert (moves + [m])[..|moves|] == moves;
  }

  lemma {:induction false} RunConcat(s: State, moves: seq<Move>, more: seq<Move>)
    ensures Run(s, moves + more) == Run(Run(s, moves), more)
  {
    if more == [] {
      assert moves + more == moves;
    } else {
      RunConcat(s, moves, more[..|more| - 1]);
      assert (moves + more)[..|moves + more| - 1] == moves + more[..|more| - 1];
    }
  }

  // Undisturbed runs of one new caller, move by move.

  function With(s: State, c: CallerId, input: Input, phase: Phase): State {
    s.(callers := s.callers[c := Caller(input, phase)])
  }

  function Claimed(s: State, input: Input): State {
    s.(rows := s.rows[input.suggestionId := Row(input.kind, None, input.edited)])
  }

  function Recorded(s: State, c: CallerId, input: Input, id: SubjectId): State {
    s.(records := s.records[id := Record(input.suggestionId, input.kind, c)])
  }

  function Announced(s: State, input: Input, id: SubjectId): State {
    s.(rows := s.rows[input.suggestionId := Row(input.kind, Some(id), input.edited)],
       outbox := s.outbox[input.suggestionId := Event(input.kind, id)])
  }

  lemma WithTwice(s: State, c: CallerId, input: Input, p: Phase, q: Phase)
    ensures With(With(s, c, input, p), c, input, q) == With(s, c, input, q)
    ensures At(With(s, c, input, p), c, q) == With(s, c, input, q)
  {
    assert s.callers[c := Caller(input, p)][c := Caller(input, q)] == s.callers[c := Caller(input, q)];
  }

  lemma ReadsUnclaimed(s: State, c: CallerId, input: Input)
    requires input.suggestionId !in s.rows
    ensures Apply(With(s, c, input, Reading), Move(c, Read(true))) == With(s, c, input, Preparing)
  {
    WithTwice(s, c, input, Reading, Preparing);
  }

  lemma Prepares(s: State, c: CallerId, input: Input)
    ensures Apply(With(s, c, input, Preparing), Move(c, Prepare(None))) == With(s, c, input, Claiming)
  {
    WithTwice(s, c, input, Preparing, Claiming);
  }

  lemma Claims(s: State, c: CallerId, input: Input)
    requires input.suggestionId !in s.rows
    ensures Apply(With(s, c, input, Claiming), Move(c, Claim(Done))) == With(Claimed(s, input), c, input, Screening)
  {
    WithTwice(Claimed(s, input), c, input, Claiming, Screening);
  }

  lemma Screens(s: State, c: CallerId, input: Input)
    ensures Apply(With(s, c, input, Screening), Move(c, Screen(None))) == With(s, c, input, Creating)
  {
    WithTwice(s, c, input, Screening, Creating);
  }

  lemma Creates(s: State, c: CallerId, input: Input, id: SubjectId)
    requires id !in s.records
    ensures Apply(With(s, c, input, Creating), Move(c, Create(id, Done)))
            == With(Recorded(s, c, input, id), c, input,
                    if input.kind == KpiDefinition then Aligning(id) else Settling(id, None))
  {
    WithTwice(Recorded(s, c, input, id), c, input, Creating,
              if input.kind == KpiDefinition then Aligning(id) else Settling(id, None));
  }

  lemma Aligns(s: State, c: CallerId, input: Input, id: SubjectId)
    ensures Apply(With(s, c, input, Aligning(id)), Move(c, Align(true))) == With(s, c, input, Settling(id, None))
  {
    WithTwice(s, c, input, Aligning(id), Settling(id, None));
  }

  lemma Settles(s: State, c: CallerId, input: Input, id: SubjectId)
    requires input.suggestionId in s.rows && s.rows[input.suggestionId] == Row(input.kind, None, input.edited)
    requires input.suggestionId !in s.outbox
    ensures Apply(With(s, c, input, Settling(id, None)), Move(c, Settle(Done)))
            == With(Announced(s, input, id), c, input, Finished(Accepted(input.kind, id, false, input.edited)))
  {
    WithTwice(Announced(s, input, id), c, input, Settling(id, None),
              Finished(Accepted(input.kind, id, false, input.edited)));
  }

  lemma CreatesUnacknowledged(s: State, c: CallerId, input: Input, id: SubjectId)
    requires id !in s.records
    ensures Apply(With(s, c, input, Creating), Move(c, Create(id, AckLost)))
            == With(Recorded(s, c, input, id).(lost := s.lost + multiset{input.suggestionId}), c, input,
                    Releasing(CreationFailed))
  {
    WithTwice(Recorded(s, c, input, id).(lost := s.lost + multiset{input.suggestionId}), c, input, Creating,
              Releasing(CreationFailed));
  }

  lemma Releases(s: State, c: CallerId, input: Input, reason: Reason)
    requires input.suggestionId !in s.rows
    ensures Apply(With(Claimed(s, input), c, input, Releasing(reason)), Move(c, Release(Done)))
            == With(s, c, input, Finished(Failed(reason)))
  {
    var claimed := Claimed(s, input);
    assert WithoutClaim(claimed.rows, input.suggestionId) == s.rows;
    WithTwice(s, c, input, Releasing(reason), Finished(Failed(reason)));
  }

  /** A new caller that reads, prepares, claims and screens undisturbed is ready to create. */
  function Opening(c: CallerId, input: Input): seq<Move> {
    [Move(c, Start(input))] + [Move(c, Read(true))] + [Move(c, Prepare(None))] + [Move(c, Claim(Done))]
    + [Move(c, Screen(None))]
  }

  lemma OpeningClaims(s: State, c: CallerId, input: Input)
    requires c !in s.callers && input.suggestionId !in s.rows
    ensures Run(s, Opening(c, input)) == With(Claimed(s, input), c, input, Creating)
  {
    var one := [Move(c, Start(input))];
    var two := one + [Move(c, Read(true))];
    var three := two + [Move(c, Prepare(None))];
    var four := three + [Move(c, Claim(Done))];
    assert one[..0] == [];
    assert Run(s, one) == Apply(Run(s, []), one[0]) == With(s, c, input, Reading);
    RunAppend(s, one, Move(c, Read(true)));
    ReadsUnclaimed(s, c, input);
    RunAppend(s, two, Move(c, Prepare(None)));
    Prepares(s, c, input);
    RunAppend(s, three, Move(c, Claim(Done)));
    Claims(s, c, input);
    RunAppend(s, four, Move(c, Screen(None)));
    Screens(Claimed(s, input), c, input);
  }

  /** Creating, aligning where it is a KPI, and settling, all undisturbed. */
  function Completing(c: CallerId, input: Input, id: SubjectId): seq<Move> {
    Opening(c, input) + [Move(c, Create(id, Done))]
    + (if input.kind == KpiDefinition then [Move(c, Align(true))] else []) + [Move(c, Settle(Done))]
  }

  lemma CompletingAccepts(s: State, c: CallerId, input: Input, id: SubjectId)
    requires c !in s.callers && input.suggestionId !in s.rows && input.suggestionId !in s.outbox && id !in s.records
    ensures Run(s, Completing(c, input, id))
            == With(Announced(Recorded(s, c, input, id), input, id), c, input,
                    Finished(Accepted(input.kind, id, false, input.edited)))
  {
    var created := Opening(c, input) + [Move(c, Create(id, Done))];
    var ready := created + if input.kind == KpiDefinition then [Move(c, Align(true))] else [];
    var t := Recorded(Claimed(s, input), c, input, id);
    OpeningClaims(s, c, input);
    RunAppend(s, Opening(c, input), Move(c, Create(id, Done)));
    Creates(Claimed(s, input), c, input, id);
    if input.kind == KpiDefinition {
      RunAppend(s, created, Move(c, Align(true)));
      Aligns(t, c, input, id);
    } else {
      assert ready == created;
    }
    RunAppend(s, ready, Move(c, Settle(Done)));
    Settles(t, c, input, id);
    AnnouncedOverClaim(s, c, input, id);
  }

  lemma AnnouncedOverClaim(s: State, c: CallerId, input: Input, id: SubjectId)
    ensures Announced(Recorded(Claimed(s, input), c, input, id), input, id)
            == Announced(Recorded(s, c, input, id), input, id)
  {
    var k := input.suggestionId;
    assert Claimed(s, input).rows[k := Row(input.kind, Some(id), input.edited)]
        == s.rows[k := Row(input.kind, Some(id), input.edited)];
  }

  /** A retry of an unclaimed proposal, released or never tried, succeeds when nothing goes wrong:
      it mints one new record, settles the row with it and announces it. */
  lemma UnclaimedCanBeAccepted(moves: seq<Move>, c: CallerId, input: Input, id: SubjectId)
    returns (more: seq<Move>)
    requires c !in Run(INITIAL, moves).callers && input.suggestionId !in Run(INITIAL, moves).rows
    requires id !in Run(INITIAL, moves).records
    ensures var s, t, k := Run(INITIAL, moves), Run(INITIAL, moves + more), input.suggestionId;
            && t.records == s.records[id := Record(k, input.kind, c)] && t.lost == s.lost
            && Settled(t.rows, k) && k in t.outbox && t.outbox[k] == Event(input.kind, id)
            && c in t.callers && t.callers[c].phase == Finished(Accepted(input.kind, id, false, input.edited))
  {
    InvariantHolds(moves);
    assert KeySound(Run(INITIAL, moves), input.suggestionId);
    more := Completing(c, input, id);
    CompletingAccepts(Run(INITIAL, moves), c, input, id);
    RunConcat(INITIAL, moves, more);
  }

  /** A caller whose creation takes effect with its answer lost, and which then releases its claim. */
  function Losing(c: CallerId, input: Input, id: SubjectId): seq<Move> {
    Opening(c, input) + [Move(c, Create(id, AckLost))] + [Move(c, Release(Done))]
  }

  lemma LosingRecords(s: State, c: CallerId, input: Input, id: SubjectId)
    requires c !in s.callers && input.suggestionId !in s.rows && id !in s.records
    ensures Run(s, Losing(c, input, id))
            == With(Recorded(s, c, input, id).(lost := s.lost + multiset{input.suggestionId}), c, input,
                    Finished(Failed(CreationFailed)))
  {
    var t := Recorded(s, c, input, id).(lost := s.lost + multiset{input.suggestionId});
    OpeningClaims(s, c, input);
    RunAppend(s, Opening(c, input), Move(c, Create(id, AckLost)));
    CreatesUnacknowledged(Claimed(s, input), c, input, id);
    RunAppend(s, Opening(c, input) + [Move(c, Create(id, AckLost))], Move(c, Release(Done)));
    Releases(t, c, input, CreationFailed);
  }

  /** Losses of acknowledgements so far, one by each of the callers below n. */
  ghost predicate LostBelow(s: State, k: SuggestionId, n: nat) {
    && s.lost[k] == n && |RecordsOf(s, k)| == n && k !in s.rows
    && (forall c | c in s.callers :: c < n) && (forall id | id in s.records :: id < n)
  }

  lemma LosingAddsOne(s: State, n: nat, input: Input)
    requires LostBelow(s, input.suggestionId, n)
    ensures LostBelow(Run(s, Losing(n, input, n)), input.suggestionId, n + 1)
  {
    LosingRecords(s, n, input, n);
    OneMoreRecord(s, Run(s, Losing(n, input, n)), n, input, n);
  }

  lemma OneMoreRecord(s: State, t: State, c: CallerId, input: Input, id: SubjectId)
    requires id !in s.records && t.records == Recorded(s, c, input, id).records
    ensures |RecordsOf(t, input.suggestionId)| == |RecordsOf(s, input.suggestionId)| + 1
  {
    assert RecordsOf(t, input.suggestionId) == RecordsOf(s, input.suggestionId) + {id};
  }

  /** One caller after the other loses its answer, and each leaves a record behind. */
  lemma {:induction false} LosingOver(input: Input, n: nat) returns (moves: seq<Move>)
    ensures LostBelow(Run(INITIAL, moves), input.suggestionId, n)
  {
    if n == 0 {
      moves := [];
      assert RecordsOf(INITIAL, input.suggestionId) == {};
    } else {
      var before := LosingOver(input, n - 1);
      moves := before + Losing(n - 1, input, n - 1);
      RunConcat(INITIAL, before, Losing(n - 1, input, n - 1));
      LosingAddsOne(Run(INITIAL, before), n - 1, input);
    }
  }

  /** The bound on records is tight: for every proposal and every number of lost acknowledgements, some
      run leaves one record for each of them and one more. */
  lemma RecordsReachTheirBound(input: Input, n: nat) returns (moves: seq<Move>)
    ensures var s := Run(INITIAL, moves);
            s.lost[input.suggestionId] == n && |RecordsOf(s, input.suggestionId)| == n + 1
  {
    var before := LosingOver(input, n);
    var more := UnclaimedCanBeAccepted(before, n, input, n);
    moves := before + more;
    OneMoreRecord(Run(INITIAL, before), Run(INITIAL, moves), n, input, n);
  }

  /** So a proposal is sure to become at most one record exactly when no acknowledgement may be lost. */
  lemma AtMostOneRecordIff(k: SuggestionId, n: nat)
    ensures (forall moves | Run(INITIAL, moves).lost[k] <= n :: |RecordsOf(Run(INITIAL, moves), k)| <= 1) <==> n == 0
  {
    forall moves ensures |RecordsOf(Run(INITIAL, moves), k)| <= Run(INITIAL, moves).lost[k] + 1 {
      RecordsPerSuggestion(moves, k);
    }
    var moves := RecordsReachTheirBound(Input(k, Okr, false), n);
  }

  /** All callers that are told a proposal was accepted are told the same record, a record made
      for that proposal, and at most one of them is told it was the first. */
  lemma SuccessesAgree(moves: seq<Move>, k: SuggestionId, c: CallerId, d: CallerId)
    requires Succeeded(Run(INITIAL, moves), c, k) && Succeeded(Run(INITIAL, moves), d, k)
    ensures var s := Run(INITIAL, moves);
            var r, q := s.callers[c].phase.result, s.callers[d].phase.result;
            && r.subjectId == q.subjectId && r.subjectType == q.subjectType
            && (!r.alreadyAccepted && !q.alreadyAccepted ==> c == d)
            && r.subjectId in s.records && s.records[r.subjectId].suggestionId == k
            && s.records[r.subjectId].subjectType == r.subjectType
  {
    InvariantHolds(moves);
    var s := Run(INITIAL, moves);
    assert PairSound(s, c, d) && CallerSound(s, c);
  }

  /** A provenance row is settled exactly when its acceptance is on the outbox, and both name
      the same record of the same kind. */
  lemma SettledIffAnnounced(moves: seq<Move>, k: SuggestionId)
    ensures var s := Run(INITIAL, moves);
            && (k in s.outbox <==> Settled(s.rows, k))
            && (Settled(s.rows, k) ==>
                  var id := s.rows[k].subjectId.value;
                  s.outbox[k] == Event(s.rows[k].subjectType, id) && id in s.records
                  && s.records[id].suggestionId == k && s.records[id].subjectType == s.rows[k].subjectType)
  {
    InvariantHolds(moves);
    assert KeySound(Run(INITIAL, moves), k);
  }

  /** Only the caller that holds a claim can delete it, and only while the claim stands for no
      acknowledged record. */
  lemma ClaimDeletedOnlyByHolder(moves: seq<Move>, m: Move, k: SuggestionId)
    requires k in Run(INITIAL, moves).rows && k !in Apply(Run(INITIAL, moves), m).rows
    ensures var s := Run(INITIAL, moves);
            && Holds(s, m.caller, k) && m.action.Release? && |RecordsOf(s, k)| <= s.lost[k]
            && forall d | Holds(s, d, k) :: d == m.caller
  {
    InvariantHolds(moves);
    var s := Run(INITIAL, moves);
    MoveIsLegal(s, m);
    assert k == s.callers[m.caller].input.suggestionId || SameKey(s, Apply(s, m), k);
    OnlyReleaseDeletes(s, m, k);
    assert CallerSound(s, m.caller);
    forall d | Holds(s, d, k) ensures d == m.caller {
      assert PairSound(s, d, m.caller);
    }
  }

  lemma OnlyReleaseDeletes(s: State, m: Move, k: SuggestionId)
    requires k in s.rows && k !in Apply(s, m).rows
    ensures m.action.Release? && m.caller in s.callers && s.callers[m.caller].phase.Releasing?
  {
  }

  /** Once settled, a proposal resolves to the same record for ever. */
  lemma {:induction false} SettledForEver(moves: seq<Move>, more: seq<Move>, k: SuggestionId)
    requires Settled(Run(INITIAL, moves).rows, k)
    ensures k in Run(INITIAL, moves + more).rows
            && Run(INITIAL, moves + more).rows[k] == Run(INITIAL, moves).rows[k]
    decreases |more|
  {
    if more == [] {
      assert moves + more == moves;
    } else {
      var prefix := moves + more[..|more| - 1];
      SettledForEver(moves, more[..|more| - 1], k);
      assert (moves + more)[..|moves + more| - 1] == prefix;
      SettledRowStays(prefix, more[|more| - 1], k);
    }
  }

  lemma SettledRowStays(moves: seq<Move>, m: Move, k: SuggestionId)
    requires Settled(Run(INITIAL, moves).rows, k)
    ensures k in Apply(Run(INITIAL, moves), m).rows
            && Apply(Run(INITIAL, moves), m).rows[k] == Run(INITIAL, moves).rows[k]
  {
    InvariantHolds(moves);
    var s := Run(INITIAL, moves);
    assert CallerSound(s, m.caller);
    if m.caller in s.callers && Apply(s, m) != s {
      MoveIsLegal(s, m);
      assert k == s.callers[m.caller].input.suggestionId || SameKey(s, Apply(s, m), k);
    }
  }

  lemma OnlyTheCallerMoves(s: State, m: Move, c: CallerId)
    requires c != m.caller
    ensures c in Apply(s, m).callers <==> c in s.callers
    ensures c in s.callers ==> Apply(s, m).callers[c] == s.callers[c]
  {
    if m.caller in s.callers {
      match m.action
      case Start(_) =>
      case Read(_) =>
      case Prepare(_) =>
      case Claim(_) =>
      case Screen(_) =>
      case Create(_, _) =>
      case Align(_) =>
      case Settle(_) =>
      case Release(_) =>
      case Poll(_) =>
    }
  }

  lemma OthersOwnTheirs(s: State, m: Move, c: CallerId)
    requires c != m.caller
    ensures forall id | id in Apply(s, m).records && Apply(s, m).records[id].owner == c :: id in s.records && s.records[id].owner == c
  {
    if m.caller in s.callers {
      match m.action
      case Start(_) =>
      case Read(_) =>
      case Prepare(_) =>
      case Claim(_) =>
      case Screen(_) =>
      case Create(_, _) =>
      case Align(_) =>
      case Settle(_) =>
      case Release(_) =>
      case Poll(_) =>
    }
  }

  ghost predicate OwnersCalled(s: State) {
    forall id | id in s.records :: s.records[id].owner in s.callers
  }

  /** Every record was created by a call. */
  lemma {:induction false} OwnersAreCallers(moves: seq<Move>)
    ensures OwnersCalled(Run(INITIAL, moves))
  {
    if moves != [] {
      var front, m := moves[..|moves| - 1], moves[|moves| - 1];
      OwnersAreCallers(front);
      OwnersStayCallers(Run(INITIAL, front), m);
    }
  }

  lemma OwnersStayCallers(s: State, m: Move)
    requires OwnersCalled(s)
    ensures OwnersCalled(Apply(s, m))
  {
  }
}
