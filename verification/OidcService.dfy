/** Reconciliation as the program performs it, proved to be runs of the reconciliation steps
    (apps/backend/src/modules/auth/oidc-identity.service.ts). */
module OidcService {
  import opened Wrappers
  import opened Oidc

  datatype Answer = InvalidToken | Answered(result: Result)

  function FateAt(fates: seq<Fate>, i: nat): Fate {
    if i < |fates| then fates[i] else Works
  }

  class Database {
    const c: Config
    var state: State
    var schedule: seq<seq<Move>>
    /** What happens to the calls of this process to the database, one after another; past the last they work. */
    const fates: seq<Fate>
    /** How many of those calls there have been. */
    var spent: nat
    ghost var moves: seq<Move>

    ghost predicate Valid()
      reads this
    {
      LegalRun(c, moves) && state == Run(c, moves)
    }

    /** The call is one of those under way, and has come to this phase; its steps met the fates from `first` on. */
    ghost predicate In(me: nat, token: Token, phase: Phase, first: nat)
      reads this
    {
      Fated(me, first) && me in state.callers && state.callers[me] == Caller(token, phase)
    }

    /** The steps of the call met the fates from `first` on, one each. */
    ghost predicate Fated(me: nat, first: nat)
      reads this
    {
      Valid() && spent == first + |OwnFates(moves, me)| && forall i | first <= i < spent :: OwnFates(moves, me)[i - first] == FateAt(fates, i)
    }

    constructor (c: Config, schedule: seq<seq<Move>>, fates: seq<Fate>)
      ensures Valid() && this.c == c && this.fates == fates && spent == 0 && state == INITIAL
    {
      this.c, this.schedule, this.fates, this.spent := c, schedule, fates, 0;
      state, moves := INITIAL, [];
    }

    method Take(m: Move)
      requires Valid() && Legal(state, m)
      modifies this`state, this`moves
      ensures Valid() && state == Apply(c, old(state), m) && moves == old(moves) + [m]
    {
      RunExtends(c, moves, m);
      state := Apply(c, state, m);
      moves := moves + [m];
    }

    /** The other calls, and users signing up, move between any two steps of this one. */
    method Yield(me: nat, ghost first: nat)
      requires Fated(me, first)
      modifies this`state, this`moves, this`schedule
      ensures Fated(me, first)
      ensures (me in state.callers <==> me in old(state).callers) && (me in state.callers ==> state.callers[me] == old(state).callers[me])
    {
      if schedule == [] {
        return;
      }
      var turns := schedule[0];
      schedule := schedule[1..];
      for i := 0 to |turns|
        invariant Fated(me, first)
        invariant (me in state.callers <==> me in old(state).callers) && (me in state.callers ==> state.callers[me] == old(state).callers[me])
      {
        var m := turns[i];
        if (m.SignUp? || m.caller != me) && Legal(state, m) {
          Turn(me, m, first);
        }
      }
    }

    method Turn(me: nat, m: Move, ghost first: nat)
      requires Fated(me, first) && Legal(state, m) && (m.SignUp? || m.caller != me)
      modifies this`state, this`moves
      ensures Fated(me, first)
      ensures (me in state.callers <==> me in old(state).callers) && (me in state.callers ==> state.callers[me] == old(state).callers[me])
    {
      OthersStay(c, state, m, me);
      OwnFatesNext(moves, m, me);
      Take(m);
    }

    /** A step of this call, which meets the next fate. */
    method Perform(me: nat, newId: UserId, ghost first: nat) returns (fate: Fate)
      requires Fated(me, first) && me in state.callers && !state.callers[me].phase.Finished?
      modifies this`state, this`moves, this`spent
      ensures Fated(me, first) && spent == old(spent) + 1 && fate == FateAt(fates, old(spent))
      ensures state == Apply(c, old(state), Step(me, fate, newId))
    {
      fate := FateAt(fates, spent);
      OwnFatesNext(moves, Step(me, fate, newId), me);
      Take(Step(me, fate, newId));
      spent := spent + 1;
    }

    /** One step of this call, after the others have moved. */
    method Call(me: nat, newId: UserId, ghost first: nat) returns (fate: Fate, ghost before: State)
      requires Fated(me, first) && me in state.callers && !state.callers[me].phase.Finished?
      modifies this`state, this`moves, this`schedule, this`spent
      ensures Fated(me, first) && me in before.callers && before.callers[me] == old(state).callers[me]
      ensures state == Apply(c, before, Step(me, fate, newId))
    {
      Yield(me, first);
      before := state;
      fate := Perform(me, newId, first);
    }

    /** The user an identity belongs to, read in one query. */
    method FindIdentity(me: nat, token: Token, phase: Phase, ghost first: nat) returns (fails: bool, found: Option<UserId>)
      requires In(me, token, phase, first) && (phase.Looking? || phase.FindingIdentity? || phase.Recovering?)
      modifies this`state, this`moves, this`schedule, this`spent
      ensures Fated(me, first) && me in state.callers && state.callers[me].token == token
      ensures state.callers[me].phase == (
                if fails then GIVE_UP
                else if found.Some? then (if phase.Looking? then Refreshing(found.value) else Finished(Reconciled(found.value)))
                else AfterMiss(token, phase))
    {
      Yield(me, first);
      found := if token.key in state.identities then Some(state.identities[token.key].user) else None;
      var fate := Perform(me, "", first);
      fails := !fate.Works?;
    }

    /** Where a call goes when its identity is not there. */
    function AfterMiss(token: Token, phase: Phase): Phase
      requires phase.Looking? || phase.FindingIdentity? || phase.Recovering?
    {
      match phase
      case Looking => if VerifiedEmail(c, token) == None then GIVE_UP else FindingIdentity(0)
      case FindingIdentity(n) => FindingUser(n)
      case Recovering(n) => if n + 1 < MAX_RECONCILIATION_ATTEMPTS then FindingIdentity(n + 1) else GIVE_UP
    }

    method FindUserByEmail(me: nat, token: Token, attempt: nat, email: string, ghost first: nat) returns (fails: bool, found: Option<UserId>)
      requires In(me, token, FindingUser(attempt), first) && VerifiedEmail(c, token) == Some(email)
      modifies this`state, this`moves, this`schedule, this`spent
      ensures Fated(me, first) && me in state.callers && state.callers[me].token == token
      ensures state.callers[me].phase == (
                if fails then GIVE_UP
                else if found == None then Creating(attempt)
                else if c.allowLinking then Linking(attempt, found.value) else Finished(Rejected(LinkingNotAllowed)))
    {
      Yield(me, first);
      found := if email in state.users then Some(state.users[email].id) else None;
      var fate := Perform(me, "", first);
      fails := !fate.Works?;
    }

    /** Records the identity for a user that was there; None when somebody recorded it first. */
    method LinkIdentity(me: nat, token: Token, attempt: nat, email: string, user: UserId, ghost first: nat) returns (result: Option<Result>)
      requires In(me, token, Linking(attempt, user), first) && VerifiedEmail(c, token) == Some(email)
      modifies this`state, this`moves, this`schedule, this`spent
      ensures In(me, token, if result.Some? then Finished(result.value) else Recovering(attempt), first)
      ensures result.Some? ==> result.value == Reconciled(user) || result.value == Rejected(CannotBeProvisioned)
      ensures result == Some(Reconciled(user)) ==>
                token.key in state.identities && state.identities[token.key] == Identity(user, email)
    {
      ghost var before;
      var fate;
      fate, before := Call(me, "", first);
      var phase := state.callers[me].phase;
      return if phase.Recovering? then None else Some(phase.result);
    }

    /** Creates a user and its identity in one commit; None when the email or the identity was taken meanwhile. */
    method CreateUser(me: nat, token: Token, attempt: nat, email: string, newId: UserId, ghost first: nat) returns (result: Option<Result>)
      requires In(me, token, Creating(attempt), first) && VerifiedEmail(c, token) == Some(email)
      modifies this`state, this`moves, this`schedule, this`spent
      ensures In(me, token, if result.Some? then Finished(result.value) else Recovering(attempt), first)
      ensures result.Some? ==> result.value == Reconciled(newId) || result.value == Rejected(CannotBeProvisioned)
      ensures result == Some(Reconciled(newId)) ==>
                && token.key in state.identities && state.identities[token.key] == Identity(newId, email)
                && email in state.users && state.users[email] == User(newId, Some(token.key))
    {
      ghost var before;
      var fate;
      fate, before := Call(me, newId, first);
      var phase := state.callers[me].phase;
      return if phase.Recovering? then None else Some(phase.result);
    }

    /** One transaction: an answer, or None when it lost a race on a unique index. */
    method Transact(me: nat, token: Token, attempt: nat, email: string, newId: UserId, ghost first: nat) returns (result: Option<Result>)
      requires In(me, token, FindingIdentity(attempt), first) && VerifiedEmail(c, token) == Some(email)
      modifies this`state, this`moves, this`schedule, this`spent
      ensures In(me, token, if result.Some? then Finished(result.value) else Recovering(attempt), first)
    {
      var fails, found := FindIdentity(me, token, FindingIdentity(attempt), first);
      if fails {
        return Some(Rejected(CannotBeProvisioned));
      }
      if found.Some? {
        return Some(Reconciled(found.value));
      }
      fails, found := FindUserByEmail(me, token, attempt, email, first);
      if fails {
        return Some(Rejected(CannotBeProvisioned));
      }
      if found == None {
        result := CreateUser(me, token, attempt, email, newId, first);
      } else if !c.allowLinking {
        result := Some(Rejected(LinkingNotAllowed));
      } else {
        result := LinkIdentity(me, token, attempt, email, found.value, first);
      }
    }

    method ReconcileFirstSeenIdentity(me: nat, token: Token, email: string, newIds: seq<UserId>, ghost first: nat) returns (result: Result)
      requires In(me, token, FindingIdentity(0), first) && VerifiedEmail(c, token) == Some(email)
      requires |newIds| == MAX_RECONCILIATION_ATTEMPTS
      modifies this`state, this`moves, this`schedule, this`spent
      ensures In(me, token, Finished(result), first)
    {
      for attempt := 0 to MAX_RECONCILIATION_ATTEMPTS
        invariant In(me, token, if attempt < MAX_RECONCILIATION_ATTEMPTS then FindingIdentity(attempt) else GIVE_UP, first)
      {
        var answer := Transact(me, token, attempt, email, newIds[attempt], first);
        if answer.Some? {
          return answer.value;
        }
        var fails, found := FindIdentity(me, token, Recovering(attempt), first);
        if fails {
          return Rejected(CannotBeProvisioned);
        }
        if found.Some? {
          return Reconciled(found.value);
        }
      }
      return Rejected(CannotBeProvisioned);
    }

    /**
     * `validated` is what token validation gives, or None when it refuses the token. The first call to the database that
     * meets a fault ends it; when none does, a verified email and free new ids lead to a user, or to the refusal to link.
     */
    method Reconcile(me: nat, validated: Option<Token>, newIds: seq<UserId>) returns (answer: Answer)
      requires Valid() && me !in state.callers && |newIds| == MAX_RECONCILIATION_ATTEMPTS
      modifies this`state, this`moves, this`schedule, this`spent
      ensures Valid()
      ensures validated == None ==> answer == InvalidToken && state == old(state) && spent == old(spent)
      ensures validated.Some? ==> answer.Answered? && In(me, validated.value, Finished(answer.result), old(spent))
      ensures validated.Some? && (exists i | old(spent) <= i < spent :: FateAt(fates, i) != Works) ==>
                answer.result == Rejected(CannotBeProvisioned)
      ensures validated.Some? && Verified(c, validated.value) && NewIdsFree(c, moves, me)
              && (forall i | old(spent) <= i < spent :: FateAt(fates, i) == Works) ==>
                answer.result.Reconciled?
                || (answer.result == Rejected(LinkingNotAllowed) && !c.allowLinking
                    && c.fold(validated.value.email.value) in state.users)
    {
      if validated == None {
        return InvalidToken;
      }
      var token := validated.value;
      NoStepsBeforeBegin(c, moves, me);
      OwnFatesNext(moves, Begin(me, token), me);
      Take(Begin(me, token));
      var result := ReconcileToken(me, token, newIds, old(spent));
      FatesTell(me, old(spent));
      if !OwnStepsWork(moves, me) {
        FaultEndsTheCall(c, moves, me);
      } else if Verified(c, token) && NewIdsFree(c, moves, me) {
        FaultlessCallsSucceed(c, moves, me);
      }
      return Answered(result);
    }

    lemma FatesTell(me: nat, first: nat)
      requires Fated(me, first)
      ensures OwnStepsWork(moves, me) <==> forall i | first <= i < spent :: FateAt(fates, i) == Works
    {
      OwnFatesAre(moves, me);
      var own := OwnFates(moves, me);
      forall k | 0 <= k < |own| ensures own[k] == FateAt(fates, first + k) {
        assert own[first + k - first] == FateAt(fates, first + k);
      }
    }

    method ReconcileToken(me: nat, token: Token, newIds: seq<UserId>, ghost first: nat) returns (result: Result)
      requires In(me, token, Looking, first) && |newIds| == MAX_RECONCILIATION_ATTEMPTS
      modifies this`state, this`moves, this`schedule, this`spent
      ensures In(me, token, Finished(result), first)
    {
      var fails, found := FindIdentity(me, token, Looking, first);
      if fails {
        return Rejected(CannotBeProvisioned);
      }
      if found.Some? {
        ghost var before;
        var fate;
        fate, before := Call(me, "", first);
        return if fate.Works? then Reconciled(found.value) else Rejected(CannotBeProvisioned);
      }
      var email := VerifiedEmail(c, token);
      if email == None {
        return Rejected(CannotBeProvisioned);
      }
      result := ReconcileFirstSeenIdentity(me, token, email.value, newIds, first);
    }
  }
}
