/** The outbox writer and the relay pass as programs (apps/backend/src/events/outbox-relay.service.ts, event-bus.service.ts). */
module OutboxRelay {
  import opened Wrappers
  import opened Outbox

  datatype Attempt = Taken | Failed | Died

  /** What a producer asks to have announced. */
  datatype Request = Request(eventType: string, dedupeKey: string, occurredAt: int)

  function NewEvent(request: Request): Event {
    Event(request.eventType, request.dedupeKey, request.occurredAt, Pending, 0)
  }

  function Keys(rows: map<string, Event>): set<string> {
    set e | e in rows :: rows[e].dedupeKey
  }

  function KeysAsked(requests: seq<Request>): set<string> {
    set i | 0 <= i < |requests| :: requests[i].dedupeKey
  }

  lemma {:induction false} OldestExists(rows: map<string, Event>, ids: set<string>) returns (oldest: string)
    requires ids != {} && forall e | e in ids :: e in rows
    ensures oldest in ids && forall e | e in ids :: rows[oldest].occurredAt <= rows[e].occurredAt
    decreases |ids|
  {
    oldest :| oldest in ids;
    var rest := ids - {oldest};
    if rest != {} {
      var other := OldestExists(rows, rest);
      if rows[other].occurredAt < rows[oldest].occurredAt {
        oldest := other;
      }
    }
  }

  /** What a pass that marks a whole batch does to the pending rows. */
  lemma PassShrinks(rows: map<string, Event>, batch: seq<string>, batchSize: nat)
    requires OldestPending(rows, batch, batchSize)
    ensures |PendingIds(MarkPublished(rows, batch))| == |PendingIds(rows)| - Least(batchSize, |PendingIds(rows)|)
    ensures forall e, f | e in PendingIds(MarkPublished(rows, batch)) && f in batch :: rows[f].occurredAt <= rows[e].occurredAt
  {
    var marked := set e | e in batch;
    DistinctCount(batch);
    assert PendingIds(MarkPublished(rows, batch)) == PendingIds(rows) - marked;
    assert marked <= PendingIds(rows);
  }

  lemma {:induction false} DistinctCount(batch: seq<string>)
    requires forall i, j | 0 <= i < j < |batch| :: batch[i] != batch[j]
    ensures |set e | e in batch| == |batch|
  {
    if batch != [] {
      var front, last := batch[..|batch| - 1], batch[|batch| - 1];
      DistinctCount(front);
      assert (set e | e in batch) == (set e | e in front) + {last};
    }
  }

  // What the calls of a pass meet, one after the other.

  datatype Fate = Works | LosesReply | Fails | Dies

  /** With no fate left the calls work. */
  function FateAt(fates: seq<Fate>, k: nat): Fate {
    if k < |fates| then fates[k] else Works
  }

  /** The enqueues of one event, from one call to the next: all of its n subscribers' jobs were taken, or all up to
      one for which the queue reported a failure. */
  ghost predicate EventWent(fates: seq<Fate>, from: nat, to: nat, n: nat, taken: bool) {
    if taken then to == from + n && forall k | from <= k < to :: FateAt(fates, k) == Works
    else
      && from < to <= from + n && (forall k | from <= k < to - 1 :: FateAt(fates, k) == Works)
      && (FateAt(fates, to - 1) == LosesReply || FateAt(fates, to - 1) == Fails)
  }

  function SubscribersTo(c: Config, rows: map<string, Event>, e: string): nat {
    if e in rows then |c.route(rows[e].eventType)| else 0
  }

  /** The events of a batch so far, each from its place in the fates to the next one's. */
  ghost predicate BatchWent(c: Config, rows: map<string, Event>, batch: seq<string>, fates: seq<Fate>, cuts: seq<nat>, took: seq<bool>) {
    && |cuts| == |took| + 1 && |took| <= |batch|
    && forall i | 0 <= i < |took| :: EventWent(fates, cuts[i], cuts[i + 1], SubscribersTo(c, rows, batch[i]), took[i])
  }

  ghost predicate IsOne(batch: seq<string>, took: seq<bool>, which: bool, e: string) {
    exists i | 0 <= i < |took| && i < |batch| :: batch[i] == e && took[i] == which
  }

  /** Every failed event of the batch counts one more attempt; nothing else changes. */
  ghost predicate FailuresNoted(before: map<string, Event>, now: map<string, Event>, batch: seq<string>, took: seq<bool>) {
    && before.Keys == now.Keys
    && forall e | e in before ::
         now[e] == if IsOne(batch, took, false, e) then before[e].(attempts := before[e].attempts + 1) else before[e]
  }

  /** The taken events become published, the failed ones stay pending with one more attempt, and nothing else changes. */
  ghost predicate PassNoted(before: map<string, Event>, now: map<string, Event>, batch: seq<string>, took: seq<bool>) {
    && before.Keys == now.Keys
    && forall e | e in before ::
         now[e] == if IsOne(batch, took, true, e) then before[e].(status := Published)
                   else if IsOne(batch, took, false, e) then before[e].(attempts := before[e].attempts + 1)
                   else before[e]
  }

  /** What a pass answers, whoever else moves: the number of events taken, unless the process died or the final
      update, which there is only when some were, did not work. */
  ghost predicate PassAnswers(fates: seq<Fate>, from: nat, to: nat, batch: seq<string>, cuts: seq<nat>, took: seq<bool>,
                              count: Option<nat>) {
    match count
    case None => from < to && (FateAt(fates, to - 1) == Dies || (CountSet(took) > 0 && FateAt(fates, to - 1) != Works))
    case Some(n) =>
      && n == CountSet(took) && |took| == |batch| && |cuts| == |batch| + 1 && cuts[0] == from
      && (n > 0 ==> FateAt(fates, cuts[|batch|]) == Works)
  }

  /** What a pass does when nobody else moves. */
  ghost predicate PassMoves(c: Config, before: map<string, Event>, now: map<string, Event>, fates: seq<Fate>, from: nat, to: nat,
                            batch: seq<string>, cuts: seq<nat>, took: seq<bool>, count: Option<nat>) {
    && (count.Some? ==> BatchWent(c, before, batch, fates, cuts, took) && PassNoted(before, now, batch, took))
    && (count == None && 0 < to ==>
          if FateAt(fates, to - 1) == LosesReply then PassNoted(before, now, batch, took)
          else FailuresNoted(before, now, batch, took))
    && ((forall k | from <= k :: FateAt(fates, k) == Works) ==> count == Some(|batch|) && now == MarkPublished(before, batch))
  }

  lemma OneMoreNoted(before: map<string, Event>, now: map<string, Event>, next: map<string, Event>,
                     batch: seq<string>, took: seq<bool>, more: bool)
    requires FailuresNoted(before, now, batch, took) && |took| < |batch| && batch[|took|] in before
    requires forall i | 0 <= i < |took| :: batch[i] != batch[|took|]
    requires var e := batch[|took|];
             next == if more then now else now[e := now[e].(attempts := now[e].attempts + 1)]
    ensures FailuresNoted(before, next, batch, took + [more])
  {
    var all := took + [more];
    forall e | e in before
      ensures IsOne(batch, all, false, e) <==> IsOne(batch, took, false, e) || (e == batch[|took|] && !more)
    {
      if IsOne(batch, took, false, e) {
        var i :| 0 <= i < |took| && batch[i] == e && took[i] == false;
        assert all[i] == took[i];
      }
      assert all[|took|] == more;
    }
  }

  lemma OneMoreIs(batch: seq<string>, took: seq<bool>, more: bool)
    requires |took| < |batch|
    ensures forall e :: IsOne(batch, took + [more], true, e) <==> IsOne(batch, took, true, e) || (more && e == batch[|took|])
  {
    var all := took + [more];
    forall e ensures IsOne(batch, all, true, e) <==> IsOne(batch, took, true, e) || (more && e == batch[|took|]) {
      if IsOne(batch, took, true, e) {
        var i :| 0 <= i < |took| && batch[i] == e && took[i] == true;
        assert all[i] == took[i];
      }
      assert all[|took|] == more;
    }
  }

  /** The calls from `first` to `last` relayed the first events of the batch, and `ids` are those taken. */
  ghost predicate WentSoFar(c: Config, rows: map<string, Event>, batch: seq<string>, fates: seq<Fate>, first: nat, last: nat,
                            cuts: seq<nat>, took: seq<bool>, ids: seq<string>) {
    && BatchWent(c, rows, batch, fates, cuts, took)
    && cuts[0] == first && cuts[|took|] == last
    && |ids| == CountSet(took)
    && forall e :: e in ids <==> IsOne(batch, took, true, e)
  }

  lemma OneMoreWent(c: Config, rows: map<string, Event>, batch: seq<string>, fates: seq<Fate>, first: nat, last: nat,
                    cuts: seq<nat>, took: seq<bool>, ids: seq<string>, next: nat, more: bool)
    requires WentSoFar(c, rows, batch, fates, first, last, cuts, took, ids) && |took| < |batch|
    requires EventWent(fates, last, next, SubscribersTo(c, rows, batch[|took|]), more)
    ensures WentSoFar(c, rows, batch, fates, first, next, cuts + [next], took + [more],
                      if more then ids + [batch[|took|]] else ids)
  {
    OneMoreFlag(took, more);
    OneMoreIs(batch, took, more);
  }

  /** When every call works every event is taken. */
  lemma AllTaken(c: Config, rows: map<string, Event>, batch: seq<string>, fates: seq<Fate>, cuts: seq<nat>, took: seq<bool>,
                 ids: seq<string>, from: nat)
    requires BatchWent(c, rows, batch, fates, cuts, took) && |took| == |batch| && cuts[0] == from
    requires forall k | from <= k :: FateAt(fates, k) == Works
    requires forall e :: e in ids <==> IsOne(batch, took, true, e)
    ensures CountSet(took) == |batch|
    ensures forall now: map<string, Event> :: MarkPublished(now, ids) == MarkPublished(now, batch)
    ensures forall e :: !IsOne(batch, took, false, e)
  {
    forall i | 0 <= i < |took| ensures took[i] {
      CutsRise(c, rows, batch, fates, cuts, took, i);
      assert EventWent(fates, cuts[i], cuts[i + 1], SubscribersTo(c, rows, batch[i]), took[i]);
      assert cuts[i] < cuts[i + 1] ==> FateAt(fates, cuts[i + 1] - 1) == Works;
    }
    AllCount(took);
    forall e ensures e in ids <==> e in batch {
      if e in batch {
        var i :| 0 <= i < |batch| && batch[i] == e;
        assert took[i];
      }
    }
  }

  lemma {:induction false} CutsRise(c: Config, rows: map<string, Event>, batch: seq<string>, fates: seq<Fate>, cuts: seq<nat>,
                                    took: seq<bool>, i: nat)
    requires BatchWent(c, rows, batch, fates, cuts, took) && i <= |took|
    ensures cuts[0] <= cuts[i]
  {
    if i > 0 {
      CutsRise(c, rows, batch, fates, cuts, took, i - 1);
      assert EventWent(fates, cuts[i - 1], cuts[i - 1 + 1], SubscribersTo(c, rows, batch[i - 1]), took[i - 1]);
    }
  }

  lemma {:induction false} AllCount(took: seq<bool>)
    requires forall i | 0 <= i < |took| :: took[i]
    ensures CountSet(took) == |took|
  {
    if took != [] {
      AllCount(took[..|took| - 1]);
      OneMoreFlag(took[..|took| - 1], true);
      assert took == took[..|took| - 1] + [true];
    }
  }

  lemma MarkNotes(before: map<string, Event>, now: map<string, Event>, batch: seq<string>, took: seq<bool>, ids: seq<string>)
    requires FailuresNoted(before, now, batch, took) && |took| == |batch|
    requires forall i, j | 0 <= i < j < |batch| :: batch[i] != batch[j]
    requires forall e :: e in ids <==> IsOne(batch, took, true, e)
    ensures PassNoted(before, MarkPublished(now, ids), batch, took)
  {
    forall e | e in before && IsOne(batch, took, true, e) ensures !IsOne(batch, took, false, e) {
      var i :| 0 <= i < |took| && batch[i] == e && took[i] == true;
      assert forall j | 0 <= j < |took| && batch[j] == e :: j == i;
    }
  }

  class Processes {
    const c: Config
    var state: State
    var schedule: seq<seq<Move>>
    const fates: seq<Fate>
    /** How many of the fates have been met. */
    var spent: nat
    ghost var moves: seq<Move>

    ghost predicate Valid()
      reads this
    {
      forall run | run == moves :: LegalRun(c, run) && state == Run(c, INITIAL, run)
    }

    constructor (c: Config, schedule: seq<seq<Move>>, fates: seq<Fate>)
      ensures Valid() && this.c == c && state == INITIAL && this.fates == fates && spent == 0
    {
      this.c, this.schedule, this.fates, spent := c, schedule, fates, 0;
      state := INITIAL;
      moves := [];
    }

    method Take(m: Move)
      requires Valid() && Legal(c, state, m)
      modifies this`state, this`moves
      ensures Valid() && state == Apply(c, old(state), m) && Grows(old(state), state)
    {
      assert LegalRun(c, moves);
      RunExtends(c, moves, m);
      MoveGrows(c, state, m);
      state := Apply(c, state, m);
      moves := moves + [m];
    }

    /** The other processes move, the queue forgets; with nothing scheduled nobody does. */
    method Yield(r: nat)
      requires Valid()
      modifies this`state, this`moves, this`schedule
      ensures Valid() && Grows(old(state), state) && (old(schedule) == [] ==> state == old(state) && schedule == [])
      ensures (r in state.relays <==> r in old(state).relays) && (r in state.relays ==> state.relays[r] == old(state).relays[r])
    {
      if schedule == [] {
        return;
      }
      var turns := schedule[0];
      schedule := schedule[1..];
      for i := 0 to |turns|
        invariant Valid() && Grows(old(state), state)
        invariant (r in state.relays <==> r in old(state).relays) && (r in state.relays ==> state.relays[r] == old(state).relays[r])
      {
        if !(turns[i].Step? && turns[i].relay == r) && Legal(c, state, turns[i]) {
          Turn(r, turns[i]);
        }
      }
    }

    method Turn(r: nat, m: Move)
      requires Valid() && Legal(c, state, m) && !(m.Step? && m.relay == r)
      modifies this`state, this`moves
      ensures Valid() && forall s :: Grows(s, old(state)) ==> Grows(s, state)
      ensures (r in state.relays <==> r in old(state).relays) && (r in state.relays ==> state.relays[r] == old(state).relays[r])
    {
      Take(m);
    }

    /** What the next call of a pass meets. */
    method NextFate() returns (fate: Fate)
      modifies this`spent
      ensures fate == FateAt(fates, old(spent)) && spent == old(spent) + 1
    {
      fate := FateAt(fates, spent);
      spent := spent + 1;
    }

    /** The batch query. */
    method FindPending() returns (batch: seq<string>)
      ensures OldestPending(state.rows, batch, c.batchSize)
    {
      var rows := state.rows;
      var pending := PendingIds(rows);
      var remaining := pending;
      batch := [];
      while |batch| < c.batchSize && remaining != {}
        invariant remaining <= pending && |batch| + |remaining| == |pending| && |batch| <= c.batchSize
        invariant forall e :: e in batch <==> e in pending && e !in remaining
        invariant forall i | 0 <= i < |batch| :: batch[i] in pending
        invariant forall i, j | 0 <= i < j < |batch| :: batch[i] != batch[j] && rows[batch[i]].occurredAt <= rows[batch[j]].occurredAt
        invariant forall i, e | 0 <= i < |batch| && e in remaining :: rows[batch[i]].occurredAt <= rows[e].occurredAt
      {
        ghost var first := OldestExists(rows, remaining);
        var oldest :| oldest in remaining && forall e | e in remaining :: rows[oldest].occurredAt <= rows[e].occurredAt;
        batch := batch + [oldest];
        remaining := remaining - {oldest};
      }
    }

    /** One enqueue of the pass at the relay's place; it may fail, with or without the job taken, or the process may die. */
    method EnqueueNext(r: nat) returns (attempt: Attempt)
      requires Valid() && r in state.relays && HasNextJob(c, state, state.relays[r])
      modifies this`state, this`moves, this`schedule, this`spent
      ensures Valid() && Grows(old(state), state) && spent == old(spent) + 1
      ensures attempt == match FateAt(fates, old(spent))
                         case Works => Taken
                         case LosesReply => Failed
                         case Fails => Failed
                         case Dies => Died
      ensures attempt.Died? <==> r !in state.relays
      ensures var relay := old(state).relays[r];
              && (attempt.Taken? ==> state.relays[r] == relay.(next := relay.next + 1))
              && (attempt.Failed? ==> state.relays[r] == relay.(at := relay.at + 1, next := 0))
      ensures old(schedule) == [] ==>
                var e, rows := old(state).relays[r].batch[old(state).relays[r].at], old(state).rows;
                && schedule == []
                && state.rows == if attempt.Failed? && e in rows then rows[e := rows[e].(attempts := rows[e].attempts + 1)] else rows
    {
      Yield(r);
      var fate := NextFate();
      attempt := MeetFate(r, fate);
    }

    method MeetFate(r: nat, fate: Fate) returns (attempt: Attempt)
      requires Valid() && r in state.relays && HasNextJob(c, state, state.relays[r])
      modifies this`state, this`moves
      ensures Valid() && Grows(old(state), state)
      ensures attempt == match fate case Works => Taken case LosesReply => Failed case Fails => Failed case Dies => Died
      ensures attempt.Died? <==> r !in state.relays
      ensures var relay := old(state).relays[r];
              && (attempt.Taken? ==> state.relays[r] == relay.(next := relay.next + 1))
              && (attempt.Failed? ==> state.relays[r] == relay.(at := relay.at + 1, next := 0))
      ensures var e, rows := old(state).relays[r].batch[old(state).relays[r].at], old(state).rows;
              state.rows == if attempt.Failed? && e in rows then rows[e := rows[e].(attempts := rows[e].attempts + 1)] else rows
    {
      match fate {
        case Works =>
          Take(Step(r, Enqueue));
          return Taken;
        case LosesReply =>
          Take(Step(r, EnqueueLosingReply));
          return Failed;
        case Fails =>
          Take(Step(r, EnqueueFails));
          return Failed;
        case Dies =>
          Take(Step(r, Crash));
          return Died;
      }
    }

    /** Relays the event the pass has come to: all its subscribers, or as many as the queue takes. */
    method RelayEvent(r: nat) returns (attempt: Attempt)
      requires Valid() && r in state.relays && state.relays[r].next == 0
      requires var relay := state.relays[r]; relay.at < |relay.batch| && relay.batch[relay.at] in state.rows
      modifies this`state, this`moves, this`schedule, this`spent
      ensures Valid() && Grows(old(state), state)
      ensures attempt.Died? <==> r !in state.relays
      ensures attempt.Died? ==> old(spent) < spent && FateAt(fates, spent - 1) == Dies
      ensures var relay := old(state).relays[r];
              var n := SubscribersTo(c, old(state).rows, relay.batch[relay.at]);
              && (attempt.Failed? ==>
                    state.relays[r] == relay.(at := relay.at + 1) && EventWent(fates, old(spent), spent, n, false))
              && (attempt.Taken? ==>
                    state.relays[r] == relay.(at := relay.at + 1, published := relay.published + [relay.batch[relay.at]])
                    && EventWent(fates, old(spent), spent, n, true))
      ensures old(schedule) == [] ==>
                var e, rows := old(state).relays[r].batch[old(state).relays[r].at], old(state).rows;
                && schedule == []
                && state.rows == if attempt.Failed? then rows[e := rows[e].(attempts := rows[e].attempts + 1)] else rows
    {
      var relay := state.relays[r];
      var e := relay.batch[relay.at];
      var subscribers := RouteOf(c, state, e);
      for k := 0 to |subscribers|
        invariant Valid() && Grows(old(state), state)
        invariant r in state.relays && state.relays[r] == relay.(next := k)
        invariant RouteOf(c, state, e) == subscribers
        invariant spent == old(spent) + k && forall i | old(spent) <= i < spent :: FateAt(fates, i) == Works
        invariant old(schedule) == [] ==> state.rows == old(state).rows && schedule == []
      {
        attempt := EnqueueNext(r);
        if !attempt.Taken? {
          return;
        }
      }
      Yield(r);
      Take(Step(r, FinishEvent));
      return Taken;
    }

    /** The events of the batch one after another, past those that failed; None when the process died. */
    method RelayBatch(r: nat, pending: seq<string>)
      returns (publishedIds: Option<seq<string>>, ghost cuts: seq<nat>, ghost took: seq<bool>)
      requires Valid() && r in state.relays && state.relays[r] == Relay(pending, 0, 0, [])
      requires forall i | 0 <= i < |pending| :: pending[i] in state.rows
      requires forall i, j | 0 <= i < j < |pending| :: pending[i] != pending[j]
      modifies this`state, this`moves, this`schedule, this`spent
      ensures Valid() && Grows(old(state), state)
      ensures publishedIds == None <==> r !in state.relays
      ensures old(spent) <= spent && (publishedIds == None ==> old(spent) < spent && FateAt(fates, spent - 1) == Dies)
      ensures publishedIds.Some? ==>
                && state.relays[r] == Relay(pending, |pending|, 0, publishedIds.value)
                && |took| == |pending|
                && WentSoFar(c, old(state).rows, pending, fates, old(spent), spent, cuts, took, publishedIds.value)
      ensures old(schedule) == [] ==> schedule == [] && FailuresNoted(old(state).rows, state.rows, pending, took)
    {
      var ids := [];
      cuts, took := [spent], [];
      for at := 0 to |pending|
        invariant Valid() && Grows(old(state), state)
        invariant r in state.relays && state.relays[r] == Relay(pending, at, 0, ids)
        invariant |took| == at && old(spent) <= spent
        invariant forall t | t == took :: WentSoFar(c, old(state).rows, pending, fates, old(spent), spent, cuts, t, ids)
        invariant old(schedule) == [] ==> schedule == [] && FailuresNoted(old(state).rows, state.rows, pending, took)
      {
        ghost var rows, reached := state.rows, spent;
        var attempt := RelayEvent(r);
        if attempt.Died? {
          return None, cuts, took;
        }
        if old(schedule) == [] {
          OneMoreNoted(old(state).rows, rows, state.rows, pending, took, attempt.Taken?);
        }
        OneMoreWent(c, old(state).rows, pending, fates, old(spent), reached, cuts, took, ids, spent, attempt.Taken?);
        cuts, took := cuts + [spent], took + [attempt.Taken?];
        if attempt.Taken? {
          ids := ids + [pending[at]];
        }
      }
      return Some(ids), cuts, took;
    }

    /** The final update, when there is something to mark; it may fail, or take effect with its answer lost. */
    method MarkBatch(r: nat, publishedIds: seq<string>) returns (marked: bool)
      requires Valid() && r in state.relays
      requires var relay := state.relays[r]; relay.at == |relay.batch| && relay.published == publishedIds
      modifies this`state, this`moves, this`schedule, this`spent
      ensures Valid() && r !in state.relays && Grows(old(state), state)
      ensures marked <==> publishedIds == [] || FateAt(fates, old(spent)) == Works
      ensures spent == old(spent) + if publishedIds == [] then 0 else 1
      ensures marked ==> forall e | e in publishedIds && e in state.rows :: state.rows[e].status == Published
      ensures old(schedule) == [] ==>
                state.rows == if marked || FateAt(fates, old(spent)) == LosesReply
                              then MarkPublished(old(state).rows, publishedIds) else old(state).rows
    {
      Yield(r);
      if publishedIds == [] {
        Take(Step(r, Mark));
        return true;
      }
      var fate := NextFate();
      if fate == Fails || fate == Dies {
        Take(Step(r, Crash));
        return false;
      }
      Take(Step(r, Mark));
      return fate == Works;
    }

    /**
     * One pass. It answers how many events it published, or None when the process died or the final update failed. An event
     * that fails holds back no other: with nobody else moving, exactly the events all of whose jobs were taken are
     * published, and the others stay pending with one more attempt.
     */
    method RelayPendingEvents(r: nat)
      returns (count: Option<nat>, ghost batch: seq<string>, ghost cuts: seq<nat>, ghost took: seq<bool>)
      requires Valid() && r !in state.relays
      modifies this`state, this`moves, this`schedule, this`spent
      ensures Valid() && r !in state.relays && Grows(old(state), state)
      ensures PassAnswers(fates, old(spent), spent, batch, cuts, took, count)
      ensures count.Some? ==>
                forall i | 0 <= i < |batch| && took[i] && batch[i] in state.rows :: state.rows[batch[i]].status == Published
      ensures old(schedule) == [] ==>
                OldestPending(old(state).rows, batch, c.batchSize)
                && PassMoves(c, old(state).rows, state.rows, fates, old(spent), spent, batch, cuts, took, count)
    {
      Yield(r);
      var pending := FindPending();
      batch := pending;
      Take(Step(r, Read(pending)));
      count, cuts, took := RelayRest(r, pending);
    }

    method RelayRest(r: nat, batch: seq<string>) returns (count: Option<nat>, ghost cuts: seq<nat>, ghost took: seq<bool>)
      requires Valid() && r in state.relays && state.relays[r] == Relay(batch, 0, 0, [])
      requires forall i | 0 <= i < |batch| :: batch[i] in state.rows
      requires forall i, j | 0 <= i < j < |batch| :: batch[i] != batch[j]
      modifies this`state, this`moves, this`schedule, this`spent
      ensures Valid() && r !in state.relays && Grows(old(state), state)
      ensures PassAnswers(fates, old(spent), spent, batch, cuts, took, count)
      ensures count.Some? ==>
                forall i | 0 <= i < |batch| && took[i] && batch[i] in state.rows :: state.rows[batch[i]].status == Published
      ensures old(schedule) == [] ==>
                PassMoves(c, old(state).rows, state.rows, fates, old(spent), spent, batch, cuts, took, count)
    {
      var publishedIds;
      publishedIds, cuts, took := RelayBatch(r, batch);
      if publishedIds == None {
        return None, cuts, took;
      }
      count := FinishPass(r, old(state).rows, batch, publishedIds.value, cuts, took, old(spent));
    }

    /** The final update, and the answer. */
    method FinishPass(r: nat, ghost before: map<string, Event>, ghost batch: seq<string>, publishedIds: seq<string>,
                      ghost cuts: seq<nat>, ghost took: seq<bool>, ghost from: nat)
      returns (count: Option<nat>)
      requires Valid() && r in state.relays && state.relays[r] == Relay(batch, |batch|, 0, publishedIds)
      requires |took| == |batch| && BatchWent(c, before, batch, fates, cuts, took) && cuts[0] == from && cuts[|batch|] == spent
      requires |publishedIds| == CountSet(took) && forall e :: e in publishedIds <==> IsOne(batch, took, true, e)
      requires forall i, j | 0 <= i < j < |batch| :: batch[i] != batch[j]
      modifies this`state, this`moves, this`schedule, this`spent
      ensures Valid() && r !in state.relays && Grows(old(state), state)
      ensures count == if publishedIds == [] || FateAt(fates, old(spent)) == Works then Some(CountSet(took)) else None
      ensures spent == old(spent) + if publishedIds == [] then 0 else 1
      ensures count.Some? ==> forall e | e in publishedIds && e in state.rows :: state.rows[e].status == Published
      ensures old(schedule) == [] && FailuresNoted(before, old(state).rows, batch, took) ==>
                PassMoves(c, before, state.rows, fates, from, spent, batch, cuts, took, count)
    {
      var marked := MarkBatch(r, publishedIds);
      if old(schedule) == [] && FailuresNoted(before, old(state).rows, batch, took) {
        MarkNotes(before, old(state).rows, batch, took, publishedIds);
        if forall k | from <= k :: FateAt(fates, k) == Works {
          CutsRise(c, before, batch, fates, cuts, took, |batch|);
          AllTaken(c, before, batch, fates, cuts, took, publishedIds, from);
          assert old(state).rows == before;
        }
      }
      count := if marked then Some(|publishedIds|) else None;
    }

    /** Inserts a row for every request whose key is new, inside the producer's transaction; ids are generated. */
    method PublishWithin(requests: seq<Request>, ids: seq<string>) returns (count: nat)
      requires Valid()
      requires |ids| == |requests| && forall i | 0 <= i < |ids| :: Uuid(ids[i]) && ids[i] !in state.rows
      requires forall i, j | 0 <= i < j < |ids| :: ids[i] != ids[j]
      modifies this`state, this`moves
      ensures Valid() && Grows(old(state), state)
      ensures Inserted(old(state).rows, state.rows, requests, ids, |requests|, count)
    {
      count := 0;
      for i := 0 to |requests|
        invariant Valid() && Grows(old(state), state)
        invariant Inserted(old(state).rows, state.rows, requests, ids, i, count)
        invariant forall j | i <= j < |ids| :: ids[j] !in state.rows
      {
        ghost var now := state.rows;
        var inserted := InsertIfNew(requests[i], ids[i]);
        OneMoreInserted(old(state).rows, now, state.rows, requests, ids, i, count, inserted);
        if inserted {
          count := count + 1;
        }
      }
    }

    method InsertIfNew(request: Request, id: string) returns (inserted: bool)
      requires Valid() && Uuid(id) && id !in state.rows
      modifies this`state, this`moves
      ensures Valid() && Grows(old(state), state)
      ensures inserted <==> request.dedupeKey !in Keys(old(state).rows)
      ensures state.rows == if inserted
                            then old(state).rows[id := NewEvent(request)]
                            else old(state).rows
      ensures OneMoreKey(old(state).rows, state.rows, request.dedupeKey)
    {
      if e :| e in state.rows && state.rows[e].dedupeKey == request.dedupeKey {
        return false;
      }
      var event := NewEvent(request);
      Take(Publish(id, event));
      KeyAdded(old(state).rows, id, event);
      return true;
    }
  }

  /** After n of the requests the outbox keeps every row it had and has gained one under its id for each request
      whose key it did not have yet: its keys are those it had and those asked for, and the count is the number of rows added. */
  ghost predicate Inserted(before: map<string, Event>, now: map<string, Event>, requests: seq<Request>, ids: seq<string>,
                           n: nat, count: nat)
    requires n <= |ids| == |requests|
  {
    && KeysInserted(before, now, requests[..n]) && |now| == |before| + count
    && (forall e | e in before :: e in now && now[e] == before[e])
    && (forall e | e in now :: e in before || e in ids[..n])
    && (forall i | 0 <= i < n && ids[i] in now :: now[ids[i]] == NewEvent(requests[i]))
  }

  ghost predicate KeysInserted(before: map<string, Event>, now: map<string, Event>, requests: seq<Request>) {
    forall rows | rows == now :: Keys(rows) == Keys(before) + KeysAsked(requests)
  }

  lemma OneMoreInserted(before: map<string, Event>, now: map<string, Event>, next: map<string, Event>,
                        requests: seq<Request>, ids: seq<string>, n: nat, count: nat, inserted: bool)
    requires n < |ids| == |requests| && Inserted(before, now, requests, ids, n, count)
    requires ids[n] !in now && forall j | 0 <= j < n :: ids[j] != ids[n]
    requires next == if inserted then now[ids[n] := NewEvent(requests[n])] else now
    requires OneMoreKey(now, next, requests[n].dedupeKey)
    ensures Inserted(before, next, requests, ids, n + 1, count + if inserted then 1 else 0)
  {
    OneMoreKeyAsked(before, now, next, requests, n);
    assert ids[..n + 1] == ids[..n] + [ids[n]];
  }

  ghost predicate OneMoreKey(now: map<string, Event>, next: map<string, Event>, key: string) {
    forall rows | rows == next :: Keys(rows) == Keys(now) + {key}
  }

  lemma OneMoreKeyAsked(before: map<string, Event>, now: map<string, Event>, next: map<string, Event>,
                        requests: seq<Request>, n: nat)
    requires n < |requests| && KeysInserted(before, now, requests[..n]) && OneMoreKey(now, next, requests[n].dedupeKey)
    ensures KeysInserted(before, next, requests[..n + 1])
  {
    OneMoreAsked(requests, n);
  }

  lemma OneMoreAsked(requests: seq<Request>, i: nat)
    requires i < |requests|
    ensures KeysAsked(requests[..i + 1]) == KeysAsked(requests[..i]) + {requests[i].dedupeKey}
  {
    var more, fewer := requests[..i + 1], requests[..i];
    forall key | key in KeysAsked(more) ensures key in KeysAsked(fewer) + {requests[i].dedupeKey} {
      var j :| 0 <= j < |more| && more[j].dedupeKey == key;
      assert j < i ==> fewer[j] == more[j];
    }
    forall key | key in KeysAsked(fewer) ensures key in KeysAsked(more) {
      var j :| 0 <= j < |fewer| && fewer[j].dedupeKey == key;
      assert more[j] == fewer[j];
    }
    assert more[i] == requests[i];
  }

  lemma KeyAdded(rows: map<string, Event>, id: string, event: Event)
    requires id !in rows
    ensures Keys(rows[id := event]) == Keys(rows) + {event.dedupeKey}
  {
    var now := rows[id := event];
    assert now[id] == event;
    forall key | key in Keys(rows) ensures key in Keys(now) {
      var e :| e in rows && rows[e].dedupeKey == key;
      assert e in now && now[e].dedupeKey == key;
    }
  }
}
