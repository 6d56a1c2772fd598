/** First-seen OpenID Connect identities, reconciled by racing transactions (apps/backend/src/modules/auth/oidc-identity.service.ts). */
module Oidc {
  import opened Wrappers

  const MAX_RECONCILIATION_ATTEMPTS := 2

  type UserId = string

  /** Who the token speaks of: section 5.7 of OpenID Connect Core 1.0 makes the pair the only stable identifier. */
  datatype Key = Key(issuer: string, subject: string)

  datatype Token = Token(key: Key, email: Option<string>, emailVerified: bool)

  /** A user, and the identity it was created for, if it was created by a reconciliation. */
  datatype User = User(id: UserId, createdFor: Option<Key>)

  datatype Identity = Identity(user: UserId, emailAtLink: string)

  datatype Error = CannotBeProvisioned | LinkingNotAllowed

  datatype Result = Reconciled(user: UserId) | Rejected(error: Error)

  /** Where a call has come to; the attempt counts the transactions it has begun. */
  datatype Phase =
    | Looking
    | Refreshing(user: UserId)
    | FindingIdentity(attempt: nat)
    | FindingUser(attempt: nat)
    | Linking(attempt: nat, user: UserId)
    | Creating(attempt: nat)
    | Recovering(attempt: nat)
    | Finished(result: Result)

  datatype Caller = Caller(token: Token, phase: Phase)

  /** Users by their unique email, identities by their unique issuer and subject. */
  datatype State = State(users: map<string, User>, identities: map<Key, Identity>, callers: map<nat, Caller>)

  const INITIAL := State(map[], map[], map[])

  /** `fold` trims and lower-cases an email. */
  datatype Config = Config(allowLinking: bool, fold: string -> string)

  /** A call to the database works, fails without effect, or takes effect with its answer lost. */
  datatype Fate = Works | Breaks | LosesReply

  datatype Move =
    | SignUp(id: UserId, email: string)
    | Begin(caller: nat, token: Token)
    | Step(caller: nat, fate: Fate, newId: UserId)

  function VerifiedEmail(c: Config, token: Token): Option<string> {
    if token.email == None || token.email.value == "" || !token.emailVerified || c.fold(token.email.value) == "" then None
    else Some(c.fold(token.email.value))
  }

  predicate IdTaken(s: State, id: UserId) {
    exists email | email in s.users :: s.users[email].id == id
  }

  function At(s: State, c: nat, phase: Phase): State
    requires c in s.callers
  {
    s.(callers := s.callers[c := s.callers[c].(phase := phase)])
  }

  const GIVE_UP := Finished(Rejected(CannotBeProvisioned))

  // ---------------------------------------------------------------------------
  // Steps
  // ---------------------------------------------------------------------------

  predicate Legal(s: State, m: Move) {
    match m
    case SignUp(id, email) => !IdTaken(s, id) && email !in s.users
    case Begin(c, _) => c !in s.callers
    case Step(c, _, _) => c in s.callers && !s.callers[c].phase.Finished?
  }

  function Apply(c: Config, s: State, m: Move): State {
    match m
    case SignUp(id, email) => s.(users := s.users[email := User(id, None)])
    case Begin(me, token) => s.(callers := s.callers[me := Caller(token, Looking)])
    case Step(me, fate, newId) => if me in s.callers then StepOf(c, s, me, fate, newId) else s
  }

  function StepOf(c: Config, s: State, me: nat, fate: Fate, newId: UserId): State
    requires me in s.callers
  {
    var token := s.callers[me].token;
    var key := token.key;
    match s.callers[me].phase
    case Finished(_) => s
    case Looking =>
      if !fate.Works? then At(s, me, GIVE_UP)
      else if key in s.identities then At(s, me, Refreshing(s.identities[key].user))
      else if VerifiedEmail(c, token) == None then At(s, me, GIVE_UP)
      else At(s, me, FindingIdentity(0))
    case Refreshing(user) => At(s, me, if fate.Works? then Finished(Reconciled(user)) else GIVE_UP)
    case FindingIdentity(n) =>
      if !fate.Works? then At(s, me, GIVE_UP)
      else if key in s.identities then At(s, me, Finished(Reconciled(s.identities[key].user)))
      else At(s, me, FindingUser(n))
    case FindingUser(n) =>
      if !fate.Works? || VerifiedEmail(c, token) == None then At(s, me, GIVE_UP)
      else At(s, me, AfterUserSearch(c, s, n, VerifiedEmail(c, token).value))
    case Linking(n, user) =>
      if fate.Breaks? || VerifiedEmail(c, token) == None then At(s, me, GIVE_UP)
      else if key in s.identities then At(s, me, if fate.Works? then Recovering(n) else GIVE_UP)
      else
        At(s.(identities := s.identities[key := Identity(user, VerifiedEmail(c, token).value)]), me,
           if fate.Works? then Finished(Reconciled(user)) else GIVE_UP)
    case Creating(n) =>
      if fate.Breaks? || VerifiedEmail(c, token) == None then At(s, me, GIVE_UP)
      else
        var email := VerifiedEmail(c, token).value;
        if key in s.identities || email in s.users || IdTaken(s, newId) then At(s, me, if fate.Works? then Recovering(n) else GIVE_UP)
        else
          At(s.(users := s.users[email := User(newId, Some(key))], identities := s.identities[key := Identity(newId, email)]), me,
             if fate.Works? then Finished(Reconciled(newId)) else GIVE_UP)
    case Recovering(n) =>
      if !fate.Works? then At(s, me, GIVE_UP)
      else if key in s.identities then At(s, me, Finished(Reconciled(s.identities[key].user)))
      else At(s, me, if n + 1 < MAX_RECONCILIATION_ATTEMPTS then FindingIdentity(n + 1) else GIVE_UP)
  }

  function AfterUserSearch(c: Config, s: State, n: nat, email: string): Phase {
    if email in s.users then
      if c.allowLinking then Linking(n, s.users[email].id) else Finished(Rejected(LinkingNotAllowed))
    else Creating(n)
  }

  function Run(c: Config, moves: seq<Move>): State {
    if moves == [] then INITIAL else Apply(c, Run(c, moves[..|moves| - 1]), moves[|moves| - 1])
  }

  predicate LegalRun(c: Config, moves: seq<Move>) {
    moves == [] || (LegalRun(c, moves[..|moves| - 1]) && Legal(Run(c, moves[..|moves| - 1]), moves[|moves| - 1]))
  }

  lemma RunExtends(c: Config, moves: seq<Move>, m: Move)
    requires LegalRun(c, moves) && Legal(Run(c, moves), m)
    ensures LegalRun(c, moves + [m]) && Run(c, moves + [m]) == Apply(c, Run(c, moves), m)
  {
    assert (moves + [m])[..|moves|] == moves;
  }

  // ---------------------------------------------------------------------------
  // What every step keeps
  // ---------------------------------------------------------------------------

  /** No two users share an id. */
  ghost predicate IdsUnique(s: State) {
    forall e, f | e in s.users && f in s.users && e != f :: s.users[e].id != s.users[f].id
  }

  /** An identity belongs to the user of the email it was linked under; without linking, to the user created for it. */
  ghost predicate IdentitySound(c: Config, s: State, key: Key) {
    key in s.identities ==>
      var Identity(user, email) := s.identities[key];
      && email in s.users && s.users[email].id == user
      && (!c.allowLinking ==> s.users[email].createdFor == Some(key))
  }

  ghost predicate CallerSound(c: Config, s: State, me: nat) {
    me in s.callers ==>
      var Caller(token, phase) := s.callers[me];
      && (phase.Refreshing? ==> token.key in s.identities && s.identities[token.key].user == phase.user)
      && (phase.Linking? ==>
            var email := VerifiedEmail(c, token);
            c.allowLinking && email.Some? && email.value in s.users && s.users[email.value].id == phase.user)
      && (phase.Finished? && phase.result.Reconciled? ==>
            token.key in s.identities && s.identities[token.key].user == phase.result.user)
  }

  ghost predicate Invariant(c: Config, s: State) {
    IdsUnique(s) && (forall key :: IdentitySound(c, s, key)) && forall me :: CallerSound(c, s, me)
  }

  /** Users and identities stay as they are once they are there. */
  ghost predicate Grows(s: State, t: State) {
    && (forall email | email in s.users :: email in t.users && t.users[email] == s.users[email])
    && (forall key | key in s.identities :: key in t.identities && t.identities[key] == s.identities[key])
  }

  lemma MoveGrows(c: Config, s: State, m: Move)
    requires Legal(s, m)
    ensures Grows(s, Apply(c, s, m))
  {
  }

  lemma IdsStayUnique(c: Config, s: State, m: Move)
    requires Legal(s, m) && IdsUnique(s)
    ensures IdsUnique(Apply(c, s, m))
  {
  }

  lemma IdentityStaysSound(c: Config, s: State, m: Move, key: Key)
    requires Legal(s, m) && Invariant(c, s)
    ensures IdentitySound(c, Apply(c, s, m), key)
  {
    MoveGrows(c, s, m);
    assert IdentitySound(c, s, key);
    if m.Step? {
      assert CallerSound(c, s, m.caller);
    }
  }

  lemma CallerStaysSound(c: Config, s: State, m: Move, me: nat)
    requires Legal(s, m) && Invariant(c, s)
    ensures CallerSound(c, Apply(c, s, m), me)
  {
    MoveGrows(c, s, m);
    assert CallerSound(c, s, me);
    if m.Step? && m.caller == me {
      OwnStepSound(c, s, me, m.fate, m.newId);
    }
  }

  lemma OwnStepSound(c: Config, s: State, me: nat, fate: Fate, newId: UserId)
    requires me in s.callers && CallerSound(c, s, me)
    ensures CallerSound(c, StepOf(c, s, me, fate, newId), me)
  {
  }

  lemma {:induction false} InvariantHolds(c: Config, moves: seq<Move>)
    requires LegalRun(c, moves)
    ensures Invariant(c, Run(c, moves))
  {
    if moves != [] {
      var front, m := moves[..|moves| - 1], moves[|moves| - 1];
      InvariantHolds(c, front);
      var s := Run(c, front);
      IdsStayUnique(c, s, m);
      forall key ensures IdentitySound(c, Apply(c, s, m), key) { IdentityStaysSound(c, s, m, key); }
      forall me ensures CallerSound(c, Apply(c, s, m), me) { CallerStaysSound(c, s, m, me); }
    }
  }

  // ---------------------------------------------------------------------------
  // What follows
  // ---------------------------------------------------------------------------

  lemma {:induction false} RunGrows(c: Config, moves: seq<Move>, n: nat)
    requires LegalRun(c, moves) && n <= |moves|
    ensures Grows(Run(c, moves[..n]), Run(c, moves))
    decreases |moves|
  {
    if n == |moves| {
      assert moves[..n] == moves;
    } else {
      var front := moves[..|moves| - 1];
      assert front[..n] == moves[..n];
      RunGrows(c, front, n);
      MoveGrows(c, Run(c, front), moves[|moves| - 1]);
    }
  }

  /** Every call for an identity that succeeds, at whatever time, answers with the same user. */
  lemma OneUserForEver(c: Config, moves: seq<Move>, n: nat, a: nat, b: nat)
    requires LegalRun(c, moves) && n <= |moves|
    requires var s, t := Run(c, moves[..n]), Run(c, moves);
             && a in s.callers && s.callers[a].phase.Finished? && s.callers[a].phase.result.Reconciled?
             && b in t.callers && t.callers[b].phase.Finished? && t.callers[b].phase.result.Reconciled?
             && s.callers[a].token.key == t.callers[b].token.key
    ensures Run(c, moves[..n]).callers[a].phase.result.user == Run(c, moves).callers[b].phase.result.user
  {
    PrefixIsLegal(c, moves, n);
    InvariantHolds(c, moves[..n]);
    InvariantHolds(c, moves);
    RunGrows(c, moves, n);
    assert CallerSound(c, Run(c, moves[..n]), a) && CallerSound(c, Run(c, moves), b);
  }

  lemma {:induction false} PrefixIsLegal(c: Config, moves: seq<Move>, n: nat)
    requires LegalRun(c, moves) && n <= |moves|
    ensures LegalRun(c, moves[..n])
    decreases |moves|
  {
    if n == |moves| {
      assert moves[..n] == moves;
    } else {
      assert moves[..|moves| - 1][..n] == moves[..n];
      PrefixIsLegal(c, moves[..|moves| - 1], n);
    }
  }

  /** With linking off no identity joins a user that was there before it, nor the user of another identity. */
  lemma NoJoiningWithoutLinking(c: Config, moves: seq<Move>, key: Key, other: Key)
    requires LegalRun(c, moves) && !c.allowLinking
    requires key in Run(c, moves).identities && other in Run(c, moves).identities
    ensures var s := Run(c, moves);
            var Identity(user, email) := s.identities[key];
            && email in s.users && s.users[email] == User(user, Some(key))
            && (user == s.identities[other].user ==> key == other)
  {
    InvariantHolds(c, moves);
    assert IdentitySound(c, Run(c, moves), key) && IdentitySound(c, Run(c, moves), other);
  }

  /** A step that records an identity records it for the user of the token's own verified email. */
  lemma JoinsOnlyByVerifiedEmail(c: Config, s: State, me: nat, fate: Fate, newId: UserId)
    requires Invariant(c, s) && Legal(s, Step(me, fate, newId))
    requires var key := s.callers[me].token.key;
             key !in s.identities && key in Apply(c, s, Step(me, fate, newId)).identities
    ensures var t, token := Apply(c, s, Step(me, fate, newId)), s.callers[me].token;
            var Identity(user, email) := t.identities[token.key];
            && VerifiedEmail(c, token) == Some(email) && email in t.users && t.users[email].id == user
            && token.emailVerified && token.email.Some? && token.email.value != "" && email == c.fold(token.email.value) && email != ""
  {
    assert CallerSound(c, s, me);
  }

  /** How many more steps a call can take. */
  function StepsLeft(phase: Phase): nat {
    match phase
    case Looking => 4 * MAX_RECONCILIATION_ATTEMPTS + 1
    case Refreshing(_) => 1
    case FindingIdentity(n) => Left(n) + 4
    case FindingUser(n) => Left(n) + 3
    case Linking(n, _) => Left(n) + 2
    case Creating(n) => Left(n) + 2
    case Recovering(n) => Left(n) + 1
    case Finished(_) => 0
  }

  function Left(attempt: nat): nat {
    if attempt + 1 < MAX_RECONCILIATION_ATTEMPTS then 4 * (MAX_RECONCILIATION_ATTEMPTS - 1 - attempt) else 0
  }

  lemma WriteBringsCloser(c: Config, s: State, me: nat, fate: Fate, newId: UserId)
    requires me in s.callers && (s.callers[me].phase.Linking? || s.callers[me].phase.Creating?)
    ensures StepsLeft(StepOf(c, s, me, fate, newId).callers[me].phase) < StepsLeft(s.callers[me].phase)
  {
  }

  lemma ReadBringsCloser(c: Config, s: State, me: nat, fate: Fate, newId: UserId)
    requires me in s.callers && !s.callers[me].phase.Linking? && !s.callers[me].phase.Creating? && !s.callers[me].phase.Finished?
    ensures StepsLeft(StepOf(c, s, me, fate, newId).callers[me].phase) < StepsLeft(s.callers[me].phase)
  {
  }

  /** Every step of a call brings it closer to its end. */
  lemma StepsRunOut(c: Config, s: State, me: nat, fate: Fate, newId: UserId)
    requires Legal(s, Step(me, fate, newId))
    ensures StepsLeft(Apply(c, s, Step(me, fate, newId)).callers[me].phase) < StepsLeft(s.callers[me].phase)
  {
    if s.callers[me].phase.Linking? || s.callers[me].phase.Creating? {
      WriteBringsCloser(c, s, me, fate, newId);
    } else {
      ReadBringsCloser(c, s, me, fate, newId);
    }
  }

  /** Another caller's step, or a sign-up, leaves this one where it is. */
  lemma OthersStay(c: Config, s: State, m: Move, me: nat)
    requires Legal(s, m) && (m.SignUp? || m.caller != me)
    ensures me in Apply(c, s, m).callers <==> me in s.callers
    ensures me in s.callers ==> Apply(c, s, m).callers[me] == s.callers[me]
  {
    match m
    case SignUp(_, _) =>
    case Begin(_, _) =>
    case Step(other, fate, newId) => OnlyItsOwnPhase(c, s, other, fate, newId);
  }

  lemma OnlyItsOwnPhase(c: Config, s: State, me: nat, fate: Fate, newId: UserId)
    requires me in s.callers
    ensures StepOf(c, s, me, fate, newId).callers.Keys == s.callers.Keys
    ensures forall other | other in s.callers && other != me ::
              StepOf(c, s, me, fate, newId).callers[other] == s.callers[other]
    ensures StepOf(c, s, me, fate, newId).callers[me].token == s.callers[me].token
  {
  }

  // ---------------------------------------------------------------------------
  // A call that meets no fault
  // ---------------------------------------------------------------------------

  predicate OwnStep(m: Move, me: nat) {
    m.Step? && m.caller == me
  }

  /** Every step of the call worked. */
  ghost predicate OwnStepsWork(moves: seq<Move>, me: nat) {
    forall i | 0 <= i < |moves| && OwnStep(moves[i], me) :: moves[i].fate.Works?
  }

  /** Whenever the call created a user, the new id was free. */
  ghost predicate NewIdsFree(c: Config, moves: seq<Move>, me: nat) {
    forall i | 0 <= i < |moves| && OwnStep(moves[i], me) ::
      me in Run(c, moves[..i]).callers && Run(c, moves[..i]).callers[me].phase.Creating? ==>
        !IdTaken(Run(c, moves[..i]), moves[i].newId)
  }

  /** A second attempt begins only once the email has a user, and then it ends: the race for creating that user
      is lost at most once, and whoever loses the race for the identity finds the winner. */
  predicate OnItsWay(c: Config, s: State, me: nat) {
    me in s.callers && VerifiedEmail(c, s.callers[me].token).Some? ==>
      var Caller(token, phase) := s.callers[me];
      var there, linked := VerifiedEmail(c, token).value in s.users, token.key in s.identities;
      match phase
      case Looking => true
      case Refreshing(_) => true
      case FindingIdentity(n) => n == 0 || (n == 1 && there)
      case FindingUser(n) => n == 0 || (n == 1 && there)
      case Linking(n, _) => n <= 1
      case Creating(n) => n == 0
      case Recovering(n) => linked || (n == 0 && there)
      case Finished(result) => result.Reconciled? || (result == Rejected(LinkingNotAllowed) && !c.allowLinking && there)
  }

  /** The token vouches for an email, and it is not blank. */
  ghost predicate Verified(c: Config, token: Token) {
    token.emailVerified && token.email != None && token.email.value != "" && c.fold(token.email.value) != ""
  }

  lemma OwnStepOnItsWay(c: Config, s: State, me: nat, newId: UserId)
    requires me in s.callers && OnItsWay(c, s, me)
    requires s.callers[me].phase.Creating? ==> !IdTaken(s, newId)
    ensures OnItsWay(c, StepOf(c, s, me, Works, newId), me)
  {
  }

  lemma OthersKeepOnItsWay(c: Config, s: State, m: Move, me: nat)
    requires Legal(s, m) && (m.SignUp? || m.caller != me) && OnItsWay(c, s, me)
    ensures OnItsWay(c, Apply(c, s, m), me)
  {
    OthersStay(c, s, m, me);
    MoveGrows(c, s, m);
  }

  lemma {:induction false} CallsStayOnTheirWay(c: Config, moves: seq<Move>, me: nat)
    requires LegalRun(c, moves) && OwnStepsWork(moves, me) && NewIdsFree(c, moves, me)
    ensures OnItsWay(c, Run(c, moves), me)
  {
    if moves != [] {
      var front, m := moves[..|moves| - 1], moves[|moves| - 1];
      FaultlessPrefix(c, moves, me);
      CallsStayOnTheirWay(c, front, me);
      if OwnStep(m, me) {
        assert moves[..|front|] == front && m == moves[|front|];
        OwnStepOnItsWay(c, Run(c, front), me, m.newId);
      } else if m.SignUp? || m.caller != me {
        OthersKeepOnItsWay(c, Run(c, front), m, me);
      }
    }
  }

  lemma FaultlessPrefix(c: Config, moves: seq<Move>, me: nat)
    requires moves != [] && OwnStepsWork(moves, me) && NewIdsFree(c, moves, me)
    ensures OwnStepsWork(moves[..|moves| - 1], me) && NewIdsFree(c, moves[..|moves| - 1], me)
  {
    var front := moves[..|moves| - 1];
    forall i | 0 <= i < |front| && OwnStep(front[i], me)
      ensures me in Run(c, front[..i]).callers && Run(c, front[..i]).callers[me].phase.Creating? ==>
                !IdTaken(Run(c, front[..i]), front[i].newId)
    {
      assert front[..i] == moves[..i];
    }
  }

  /** A call with a verified email whose own steps all work, whatever the others do, ends with its user, or is told
      that linking is not allowed, where it is not and the email has a user: its two attempts are enough. */
  lemma FaultlessCallsSucceed(c: Config, moves: seq<Move>, me: nat)
    requires LegalRun(c, moves) && OwnStepsWork(moves, me) && NewIdsFree(c, moves, me)
    requires var s := Run(c, moves);
             me in s.callers && s.callers[me].phase.Finished? && Verified(c, s.callers[me].token)
    ensures var s := Run(c, moves);
            var result := s.callers[me].phase.result;
            result.Reconciled?
            || (result == Rejected(LinkingNotAllowed) && !c.allowLinking && c.fold(s.callers[me].token.email.value) in s.users)
  {
    CallsStayOnTheirWay(c, moves, me);
  }

  /** What the steps of a call have met, in order. */
  ghost function OwnFates(moves: seq<Move>, me: nat): seq<Fate> {
    if moves == [] then []
    else
      var last := moves[|moves| - 1];
      OwnFates(moves[..|moves| - 1], me) + if OwnStep(last, me) then [last.fate] else []
  }

  lemma OwnFatesNext(moves: seq<Move>, m: Move, me: nat)
    ensures OwnFates(moves + [m], me) == OwnFates(moves, me) + if OwnStep(m, me) then [m.fate] else []
  {
    assert (moves + [m])[..|moves|] == moves;
  }

  lemma {:induction false} OwnFatesAre(moves: seq<Move>, me: nat)
    ensures OwnStepsWork(moves, me) <==> forall fate | fate in OwnFates(moves, me) :: fate.Works?
  {
    if moves != [] {
      var front, last := moves[..|moves| - 1], moves[|moves| - 1];
      OwnFatesAre(front, me);
      assert moves == front + [last];
      if OwnStepsWork(moves, me) {
        assert forall i | 0 <= i < |front| :: front[i] == moves[i];
      } else if OwnStepsWork(front, me) {
        assert OwnStep(last, me) && !last.fate.Works?;
        assert OwnFates(moves, me)[|OwnFates(front, me)|] == last.fate;
      }
    }
  }

  lemma FaultGivesUp(c: Config, s: State, me: nat, fate: Fate, newId: UserId)
    requires me in s.callers && !s.callers[me].phase.Finished? && !fate.Works?
    ensures StepOf(c, s, me, fate, newId).callers[me].phase == GIVE_UP
  {
  }

  /** The first fault ends a call: it answers that the identity cannot be provisioned, also when its last write took effect. */
  lemma {:induction false} FaultEndsTheCall(c: Config, moves: seq<Move>, me: nat)
    requires LegalRun(c, moves) && !OwnStepsWork(moves, me)
    ensures me in Run(c, moves).callers && Run(c, moves).callers[me].phase == Finished(Rejected(CannotBeProvisioned))
  {
    if moves != [] {
      var front, m := moves[..|moves| - 1], moves[|moves| - 1];
      assert moves == front + [m];
      if !OwnStepsWork(front, me) {
        FaultEndsTheCall(c, front, me);
        OthersStay(c, Run(c, front), m, me);
      } else {
        assert OwnStep(m, me) && !m.fate.Works?;
        FaultGivesUp(c, Run(c, front), me, m.fate, m.newId);
      }
    }
  }

  /** A call that has not begun has made no step. */
  lemma {:induction false} NoStepsBeforeBegin(c: Config, moves: seq<Move>, me: nat)
    requires LegalRun(c, moves) && me !in Run(c, moves).callers
    ensures (forall i | 0 <= i < |moves| :: !OwnStep(moves[i], me)) && OwnFates(moves, me) == []
  {
    if moves != [] {
      var front, m := moves[..|moves| - 1], moves[|moves| - 1];
      CallersStay(c, Run(c, front), m, me);
      NoStepsBeforeBegin(c, front, me);
    }
  }

  lemma CallersStay(c: Config, s: State, m: Move, me: nat)
    requires Legal(s, m) && me !in Apply(c, s, m).callers
    ensures me !in s.callers && !OwnStep(m, me)
  {
    if m.Step? {
      OnlyItsOwnPhase(c, s, m.caller, m.fate, m.newId);
    }
  }
}
