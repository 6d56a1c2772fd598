/** The outbox as a transition system (apps/backend/src/events/outbox-relay.service.ts, event-bus.service.ts). */
module Outbox {
  import opened Wrappers
  import opened JobIds

  datatype Status = Pending | Published

  datatype Event = Event(eventType: string, dedupeKey: string, occurredAt: int, status: Status, attempts: nat)

  datatype Job = Job(eventId: string, subscriberId: string)

  /** One pass over a batch: the event and the subscriber it has come to, and the events it will mark. */
  datatype Relay = Relay(batch: seq<string>, at: nat, next: nat, published: seq<string>)

  /** `route` lists the subscribers to an event type. */
  datatype Config = Config(route: string -> seq<string>, batchSize: nat)

  /** `accepted` keeps, for every job id, the jobs the queue ever took under it; `retained` the ids it still remembers. */
  datatype State = State(
    rows: map<string, Event>,
    accepted: map<string, seq<Job>>,
    retained: set<string>,
    relays: map<nat, Relay>)

  const INITIAL := State(map[], map[], {}, map[])

  datatype Action =
    | Read(batch: seq<string>)
    | Enqueue
    | EnqueueLosingReply
    | EnqueueFails
    | FinishEvent
    | Mark
    | Crash

  datatype Move =
    | Publish(id: string, event: Event)
    | Expire(jobId: string)
    | Step(relay: nat, action: Action)

  function IdOf(eventId: string, subscriberId: string): string {
    BuildJobId("event", [eventId, subscriberId])
  }

  predicate Uuid(id: string) {
    |id| == 36 && ':' !in id
  }

  function PendingIds(rows: map<string, Event>): set<string> {
    set e | e in rows && rows[e].status == Pending
  }

  /** The answer to the batch query: pending rows, oldest first, up to the batch size. */
  predicate OldestPending(rows: map<string, Event>, batch: seq<string>, batchSize: nat) {
    && (forall i, j | 0 <= i < j < |batch| :: batch[i] != batch[j])
    && (forall i | 0 <= i < |batch| :: batch[i] in PendingIds(rows))
    && |batch| == Least(batchSize, |PendingIds(rows)|)
    && (forall i, j | 0 <= i < j < |batch| :: rows[batch[i]].occurredAt <= rows[batch[j]].occurredAt)
    && (forall i, e | 0 <= i < |batch| && e in PendingIds(rows) && e !in batch ::
          rows[batch[i]].occurredAt <= rows[e].occurredAt)
  }

  function Least(a: nat, b: nat): nat {
    if a <= b then a else b
  }

  function RouteOf(c: Config, s: State, e: string): seq<string> {
    if e in s.rows then c.route(s.rows[e].eventType) else []
  }

  // ---------------------------------------------------------------------------
  // Steps
  // ---------------------------------------------------------------------------

  predicate Legal(c: Config, s: State, m: Move) {
    match m
    case Publish(id, event) =>
      && id !in s.rows && Uuid(id) && event.status == Pending && event.attempts == 0
      && forall e | e in s.rows :: s.rows[e].dedupeKey != event.dedupeKey
    case Expire(jobId) => jobId in s.retained
    case Step(r, action) =>
      if action.Read? then r !in s.relays && OldestPending(s.rows, action.batch, c.batchSize)
      else r in s.relays && StepLegal(c, s, s.relays[r], action)
  }

  predicate StepLegal(c: Config, s: State, relay: Relay, action: Action) {
    match action
    case Read(_) => false
    case FinishEvent => relay.at < |relay.batch| && relay.next == |RouteOf(c, s, relay.batch[relay.at])|
    case Mark => relay.at == |relay.batch|
    case Crash => true
    case Enqueue => HasNextJob(c, s, relay)
    case EnqueueLosingReply => HasNextJob(c, s, relay)
    case EnqueueFails => HasNextJob(c, s, relay)
  }

  predicate HasNextJob(c: Config, s: State, relay: Relay) {
    relay.at < |relay.batch| && relay.next < |RouteOf(c, s, relay.batch[relay.at])|
  }

  /** The queue ignores a job whose id it still remembers. */
  function Accept(s: State, job: Job): State {
    var x := IdOf(job.eventId, job.subscriberId);
    if x in s.retained then s
    else s.(accepted := s.accepted[x := (if x in s.accepted then s.accepted[x] else []) + [job]],
            retained := s.retained + {x})
  }

  function NextJob(c: Config, s: State, relay: Relay): Job {
    if HasNextJob(c, s, relay)
    then Job(relay.batch[relay.at], RouteOf(c, s, relay.batch[relay.at])[relay.next])
    else Job("", "")
  }

  /** The failure is recorded on the row, which stays pending, and the pass goes on with the next event. */
  function RecordFailure(s: State, r: nat, relay: Relay): State {
    var moved := s.relays[r := relay.(at := relay.at + 1, next := 0)];
    if relay.at < |relay.batch| && relay.batch[relay.at] in s.rows then
      var e := relay.batch[relay.at];
      s.(rows := s.rows[e := s.rows[e].(attempts := s.rows[e].attempts + 1)], relays := moved)
    else s.(relays := moved)
  }

  function MarkPublished(rows: map<string, Event>, ids: seq<string>): map<string, Event> {
    map e | e in rows :: if e in ids then rows[e].(status := Published) else rows[e]
  }

  function Apply(c: Config, s: State, m: Move): State {
    match m
    case Publish(id, event) => s.(rows := s.rows[id := event])
    case Expire(jobId) => s.(retained := s.retained - {jobId})
    case Step(r, action) =>
      if action.Read? then s.(relays := s.relays[r := Relay(action.batch, 0, 0, [])])
      else if r in s.relays then ApplyStep(c, s, r, s.relays[r], action)
      else s
  }

  function ApplyStep(c: Config, s: State, r: nat, relay: Relay, action: Action): State {
    match action
    case Read(_) => s
    case Enqueue => Accept(s, NextJob(c, s, relay)).(relays := s.relays[r := relay.(next := relay.next + 1)])
    case EnqueueLosingReply => RecordFailure(Accept(s, NextJob(c, s, relay)), r, relay)
    case EnqueueFails => RecordFailure(s, r, relay)
    case FinishEvent =>
      if relay.at < |relay.batch|
      then s.(relays := s.relays[r := relay.(at := relay.at + 1, next := 0, published := relay.published + [relay.batch[relay.at]])])
      else s
    case Mark => s.(rows := MarkPublished(s.rows, relay.published), relays := s.relays - {r})
    case Crash => s.(relays := s.relays - {r})
  }

  function Run(c: Config, s: State, moves: seq<Move>): State {
    if moves == [] then s else Apply(c, Run(c, s, moves[..|moves| - 1]), moves[|moves| - 1])
  }

  ghost predicate LegalRun(c: Config, moves: seq<Move>) {
    moves == [] ||
    (LegalRun(c, moves[..|moves| - 1]) && Legal(c, Run(c, INITIAL, moves[..|moves| - 1]), moves[|moves| - 1]))
  }

  lemma RunExtends(c: Config, moves: seq<Move>, m: Move)
    requires LegalRun(c, moves) && Legal(c, Run(c, INITIAL, moves), m)
    ensures LegalRun(c, moves + [m]) && Run(c, INITIAL, moves + [m]) == Apply(c, Run(c, INITIAL, moves), m)
  {
    assert (moves + [m])[..|moves|] == moves;
  }

  // ---------------------------------------------------------------------------
  // What every step keeps
  // ---------------------------------------------------------------------------

  /** The first `n` subscribers to an event each have a job under their id. */
  ghost predicate Announced(c: Config, s: State, e: string, n: nat) {
    n <= |RouteOf(c, s, e)| && forall k | 0 <= k < n :: IdOf(e, RouteOf(c, s, e)[k]) in s.accepted
  }

  ghost predicate FullyAnnounced(c: Config, s: State, e: string) {
    e in s.rows && Announced(c, s, e, |RouteOf(c, s, e)|)
  }

  ghost predicate EventSound(c: Config, s: State, e: string) {
    e in s.rows ==> Uuid(e) && (s.rows[e].status == Published ==> FullyAnnounced(c, s, e))
  }

  ghost predicate RelaySound(c: Config, s: State, r: nat) {
    r in s.relays ==>
      var relay := s.relays[r];
      && relay.at <= |relay.batch|
      && (forall i | 0 <= i < |relay.batch| :: relay.batch[i] in s.rows)
      && (forall i | 0 <= i < |relay.published| :: FullyAnnounced(c, s, relay.published[i]))
      && (relay.at < |relay.batch| ==> Announced(c, s, relay.batch[relay.at], relay.next))
  }

  /** Every job taken under an id is for an event in the outbox and a subscriber to it, and has that id. */
  ghost predicate JobSound(c: Config, s: State, x: string) {
    && (x in s.retained ==> x in s.accepted)
    && (x in s.accepted ==> s.accepted[x] != [] && forall k | 0 <= k < |s.accepted[x]| :: JobBelongs(c, s, x, s.accepted[x][k]))
  }

  ghost predicate JobBelongs(c: Config, s: State, x: string, job: Job) {
    IdOf(job.eventId, job.subscriberId) == x && job.eventId in s.rows && job.subscriberId in RouteOf(c, s, job.eventId)
  }

  ghost predicate Invariant(c: Config, s: State) {
    && (forall e :: EventSound(c, s, e))
    && (forall r :: RelaySound(c, s, r))
    && (forall x :: JobSound(c, s, x))
  }

  /** Rows stay, with their type; jobs taken stay taken. */
  ghost predicate Grows(s: State, t: State) {
    && (forall e | e in s.rows :: e in t.rows && t.rows[e].eventType == s.rows[e].eventType)
    && (forall x | x in s.accepted :: x in t.accepted)
  }

  lemma MoveGrows(c: Config, s: State, m: Move)
    requires Legal(c, s, m)
    ensures Grows(s, Apply(c, s, m))
  {
  }

  lemma AnnouncedStays(c: Config, s: State, t: State, e: string, n: nat)
    requires Grows(s, t) && e in s.rows && Announced(c, s, e, n)
    ensures Announced(c, t, e, n)
  {
  }

  lemma EventStays(c: Config, s: State, m: Move, e: string)
    requires Invariant(c, s) && Legal(c, s, m)
    ensures EventSound(c, Apply(c, s, m), e)
  {
    var t := Apply(c, s, m);
    MoveGrows(c, s, m);
    assert EventSound(c, s, e);
    if e in s.rows && t.rows[e].status == Published {
      if s.rows[e].status != Published {
        var r :| m == Step(r, Mark);
        assert RelaySound(c, s, r);
      }
      assert FullyAnnounced(c, s, e);
      AnnouncedStays(c, s, t, e, |RouteOf(c, s, e)|);
    }
  }

  lemma RelayFrame(c: Config, s: State, t: State, r: nat)
    requires Grows(s, t) && RelaySound(c, s, r) && (r in t.relays ==> r in s.relays && t.relays[r] == s.relays[r])
    ensures RelaySound(c, t, r)
  {
    if r in t.relays {
      var relay := s.relays[r];
      forall i | 0 <= i < |relay.published| ensures FullyAnnounced(c, t, relay.published[i]) {
        AnnouncedStays(c, s, t, relay.published[i], |RouteOf(c, s, relay.published[i])|);
      }
      if relay.at < |relay.batch| {
        AnnouncedStays(c, s, t, relay.batch[relay.at], relay.next);
      }
    }
  }

  lemma RelayStays(c: Config, s: State, m: Move, r: nat)
    requires Invariant(c, s) && Legal(c, s, m)
    ensures RelaySound(c, Apply(c, s, m), r)
  {
    var t := Apply(c, s, m);
    MoveGrows(c, s, m);
    assert RelaySound(c, s, r);
    if r in t.relays && !(r in s.relays && t.relays[r] == s.relays[r]) {
      if m.action.Read? {
        assert forall i | 0 <= i < |m.action.batch| :: m.action.batch[i] in PendingIds(s.rows);
      } else {
        OwnStepStays(c, s, r, m.action);
      }
    } else {
      RelayFrame(c, s, t, r);
    }
  }

  lemma OwnStepStays(c: Config, s: State, r: nat, action: Action)
    requires RelaySound(c, s, r) && r in s.relays && !action.Read? && !action.Mark? && !action.Crash?
    requires Legal(c, s, Step(r, action)) && forall x :: JobSound(c, s, x)
    ensures RelaySound(c, Apply(c, s, Step(r, action)), r)
  {
    var t := Apply(c, s, Step(r, action));
    var relay, now := s.relays[r], t.relays[r];
    MoveGrows(c, s, Step(r, action));
    var e := relay.batch[relay.at];
    forall i | 0 <= i < |relay.published| ensures FullyAnnounced(c, t, relay.published[i]) {
      AnnouncedStays(c, s, t, relay.published[i], |RouteOf(c, s, relay.published[i])|);
    }
    AnnouncedStays(c, s, t, e, relay.next);
    if action.Enqueue? {
      var x := IdOf(e, RouteOf(c, s, e)[relay.next]);
      assert JobSound(c, s, x);
      assert x in t.accepted;
    }
  }

  /** The job a move hands over, if the queue takes one under this id. */
  ghost predicate Takes(c: Config, s: State, m: Move, x: string) {
    && m.Step? && m.relay in s.relays && HasNextJob(c, s, s.relays[m.relay])
    && var job := NextJob(c, s, s.relays[m.relay]);
    && IdOf(job.eventId, job.subscriberId) == x
    && x in Apply(c, s, m).accepted
    && Apply(c, s, m).accepted[x] == (if x in s.accepted then s.accepted[x] else []) + [job]
  }

  lemma AcceptedAfter(c: Config, s: State, m: Move, x: string)
    requires Legal(c, s, m)
    ensures x in Apply(c, s, m).retained ==> x in s.retained || x in Apply(c, s, m).accepted
    ensures Takes(c, s, m, x)
            || if x in s.accepted then x in Apply(c, s, m).accepted && Apply(c, s, m).accepted[x] == s.accepted[x]
               else x !in Apply(c, s, m).accepted
  {
  }

  lemma BelongingStays(c: Config, s: State, t: State, x: string, job: Job)
    requires Grows(s, t) && JobBelongs(c, s, x, job)
    ensures JobBelongs(c, t, x, job)
  {
  }

  lemma JobStays(c: Config, s: State, m: Move, x: string)
    requires Invariant(c, s) && Legal(c, s, m)
    ensures JobSound(c, Apply(c, s, m), x)
  {
    var t := Apply(c, s, m);
    MoveGrows(c, s, m);
    AcceptedAfter(c, s, m, x);
    assert JobSound(c, s, x);
    if x in s.accepted {
      forall k | 0 <= k < |s.accepted[x]| ensures JobBelongs(c, t, x, s.accepted[x][k]) {
        BelongingStays(c, s, t, x, s.accepted[x][k]);
      }
    }
    if Takes(c, s, m, x) {
      assert RelaySound(c, s, m.relay);
      BelongingStays(c, s, t, x, NextJob(c, s, s.relays[m.relay]));
    }
  }

  lemma {:induction false} InvariantHolds(c: Config, moves: seq<Move>)
    requires LegalRun(c, moves)
    ensures Invariant(c, Run(c, INITIAL, moves))
  {
    if moves != [] {
      var front, m := moves[..|moves| - 1], moves[|moves| - 1];
      InvariantHolds(c, front);
      var s := Run(c, INITIAL, front);
      forall e ensures EventSound(c, Apply(c, s, m), e) { EventStays(c, s, m, e); }
      forall r ensures RelaySound(c, Apply(c, s, m), r) { RelayStays(c, s, m, r); }
      forall x ensures JobSound(c, Apply(c, s, m), x) { JobStays(c, s, m, x); }
    }
  }

  // ---------------------------------------------------------------------------
  // At least once
  // ---------------------------------------------------------------------------

  /** A published event has had a job taken under the id of every subscriber to it. */
  lemma PublishedMeansAnnounced(c: Config, moves: seq<Move>, e: string, k: nat)
    requires LegalRun(c, moves)
    requires var s := Run(c, INITIAL, moves); e in s.rows && s.rows[e].status == Published && k < |RouteOf(c, s, e)|
    ensures var s := Run(c, INITIAL, moves); IdOf(e, RouteOf(c, s, e)[k]) in s.accepted
  {
    InvariantHolds(c, moves);
    assert EventSound(c, Run(c, INITIAL, moves), e);
  }

  /** The job ids of two subscribers to one type are the same only for one subscriber. */
  ghost predicate ColonSafe(c: Config) {
    forall t, i, j | 0 <= i < |c.route(t)| && 0 <= j < |c.route(t)| ::
      Clean(c.route(t)[i]) == Clean(c.route(t)[j]) ==> c.route(t)[i] == c.route(t)[j]
  }

  /** A job for this very pair has been taken. */
  predicate Delivered(s: State, e: string, subscriber: string) {
    var x := IdOf(e, subscriber);
    x in s.accepted && Job(e, subscriber) in s.accepted[x]
  }

  lemma EachGetsItsOwnJob(c: Config, moves: seq<Move>, e: string, k: nat)
    requires LegalRun(c, moves) && ColonSafe(c)
    requires var s := Run(c, INITIAL, moves); e in s.rows && s.rows[e].status == Published && k < |RouteOf(c, s, e)|
    ensures var s := Run(c, INITIAL, moves); Delivered(s, e, RouteOf(c, s, e)[k])
  {
    var s := Run(c, INITIAL, moves);
    PublishedMeansAnnounced(c, moves, e, k);
    InvariantHolds(c, moves);
    var subscriber := RouteOf(c, s, e)[k];
    var x := IdOf(e, subscriber);
    assert JobSound(c, s, x);
    var job := s.accepted[x][0];
    assert JobBelongs(c, s, x, job);
    assert EventSound(c, s, e) && EventSound(c, s, job.eventId);
    SameJobIdIff("event", e, subscriber, job.eventId, job.subscriberId);
    CleanUuid(e);
    CleanUuid(job.eventId);
  }

  lemma CleanUuid(id: string)
    requires ':' !in id
    ensures Clean(id) == id
  {
  }

  // ---------------------------------------------------------------------------
  // At most once, while ids are remembered
  // ---------------------------------------------------------------------------

  function Expiries(moves: seq<Move>, x: string): nat {
    if moves == [] then 0
    else Expiries(moves[..|moves| - 1], x) + (if moves[|moves| - 1] == Expire(x) then 1 else 0)
  }

  function TimesAccepted(s: State, x: string): nat {
    if x in s.accepted then |s.accepted[x]| else 0
  }

  /** The jobs taken under an id are the one still remembered and one for every time it was forgotten. */
  lemma {:induction false} AcceptancesAreExpiries(c: Config, moves: seq<Move>, x: string)
    requires LegalRun(c, moves)
    ensures var s := Run(c, INITIAL, moves);
            TimesAccepted(s, x) == Expiries(moves, x) + (if x in s.retained then 1 else 0)
  {
    if moves != [] {
      var front := moves[..|moves| - 1];
      AcceptancesAreExpiries(c, front, x);
      OneMoreAcceptance(c, Run(c, INITIAL, front), moves[|moves| - 1], x);
    }
  }

  lemma OneMoreAcceptance(c: Config, s: State, m: Move, x: string)
    requires Legal(c, s, m)
    ensures var t := Apply(c, s, m);
            TimesAccepted(t, x) - TimesAccepted(s, x) ==
            (if m == Expire(x) then 1 else 0) + (if x in t.retained then 1 else 0) - (if x in s.retained then 1 else 0)
  {
  }

  /** However many relays run, fail and crash, no pair has a second job unless the queue forgot the first. */
  lemma OneJobWhileRemembered(c: Config, moves: seq<Move>, x: string)
    requires LegalRun(c, moves) && Expire(x) !in moves
    ensures TimesAccepted(Run(c, INITIAL, moves), x) <= 1
  {
    AcceptancesAreExpiries(c, moves, x);
    NoExpiries(moves, x);
  }

  lemma {:induction false} NoExpiries(moves: seq<Move>, x: string)
    requires Expire(x) !in moves
    ensures Expiries(moves, x) == 0
  {
    if moves != [] {
      assert moves[|moves| - 1] in moves;
      NoExpiries(moves[..|moves| - 1], x);
    }
  }

  // ---------------------------------------------------------------------------
  // One undisturbed pass
  // ---------------------------------------------------------------------------

  /** From an outbox with one pending event, relay `r` has taken the first `n` of its subscribers. */
  ghost predicate Halfway(c: Config, moves: seq<Move>, e: string, r: nat, n: nat) {
    && LegalRun(c, moves)
    && (forall x :: Expire(x) !in moves)
    && var s := Run(c, INITIAL, moves);
       && e in s.rows && s.rows.Keys == {e} && s.rows[e].status == Pending
       && r in s.relays && s.relays[r] == Relay([e], 0, n, [])
       && n <= |RouteOf(c, s, e)|
  }

  lemma {:induction false} TakeSubscribers(c: Config, moves: seq<Move>, e: string, r: nat, n: nat) returns (later: seq<Move>)
    requires Halfway(c, moves, e, r, n)
    ensures Halfway(c, later, e, r, |RouteOf(c, Run(c, INITIAL, moves), e)|)
    ensures Run(c, INITIAL, later).rows == Run(c, INITIAL, moves).rows
    decreases |RouteOf(c, Run(c, INITIAL, moves), e)| - n
  {
    var s := Run(c, INITIAL, moves);
    if n == |RouteOf(c, s, e)| {
      later := moves;
    } else {
      RunExtends(c, moves, Step(r, Enqueue));
      later := TakeSubscribers(c, moves + [Step(r, Enqueue)], e, r, n + 1);
    }
  }

  /** Some run, in which the queue forgets nothing, publishes an event of the given type. */
  lemma SomeRunPublishes(c: Config, eventType: string) returns (moves: seq<Move>, e: string)
    requires c.batchSize > 0
    ensures LegalRun(c, moves) && forall x :: Expire(x) !in moves
    ensures var s := Run(c, INITIAL, moves);
            e in s.rows && s.rows[e] == Event(eventType, "key", 0, Published, 0)
  {
    e := seq(36, _ => '0');
    moves := BatchRead(c, e, Event(eventType, "key", 0, Pending, 0), 0);
    moves := TakeSubscribers(c, moves, e, 0, 0);
    RunExtends(c, moves, Step(0, FinishEvent));
    moves := moves + [Step(0, FinishEvent)];
    RunExtends(c, moves, Step(0, Mark));
    moves := moves + [Step(0, Mark)];
  }

  /** One event is announced, and a relay reads it as its batch. */
  lemma BatchRead(c: Config, e: string, event: Event, r: nat) returns (moves: seq<Move>)
    requires c.batchSize > 0 && Uuid(e) && event.status == Pending && event.attempts == 0
    ensures Halfway(c, moves, e, r, 0) && Run(c, INITIAL, moves) == State(map[e := event], map[], {}, map[r := Relay([e], 0, 0, [])])
  {
    RunExtends(c, [], Publish(e, event));
    moves := [Publish(e, event)];
    assert [] + moves == moves;
    assert PendingIds(Run(c, INITIAL, moves).rows) == {e};
    RunExtends(c, moves, Step(r, Read([e])));
    moves := moves + [Step(r, Read([e]))];
  }

  /** Every published event reaches every subscriber exactly when no two ids of one route differ only in colons. */
  lemma DeliveredIff(c: Config)
    requires c.batchSize > 0
    ensures ColonSafe(c) <==>
            forall moves, e, k | LegalRun(c, moves) && ReachedBy(c, moves, e, k) ::
              Delivered(Run(c, INITIAL, moves), e, RouteOf(c, Run(c, INITIAL, moves), e)[k])
  {
    if ColonSafe(c) {
      forall moves, e, k | LegalRun(c, moves) && ReachedBy(c, moves, e, k)
        ensures Delivered(Run(c, INITIAL, moves), e, RouteOf(c, Run(c, INITIAL, moves), e)[k])
      {
        EachGetsItsOwnJob(c, moves, e, k);
      }
    } else {
      var t, i, j :| 0 <= i < |c.route(t)| && 0 <= j < |c.route(t)| &&
        Clean(c.route(t)[i]) == Clean(c.route(t)[j]) && c.route(t)[i] != c.route(t)[j];
      var moves, e := SomeRunPublishes(c, t);
      var s := Run(c, INITIAL, moves);
      assert ReachedBy(c, moves, e, i) && ReachedBy(c, moves, e, j);
      SameJobIdIff("event", e, c.route(t)[i], e, c.route(t)[j]);
      OneJobWhileRemembered(c, moves, IdOf(e, c.route(t)[i]));
      assert !Delivered(s, e, c.route(t)[i]) || !Delivered(s, e, c.route(t)[j]);
    }
  }

  /** The k-th subscriber to a published event. */
  predicate ReachedBy(c: Config, moves: seq<Move>, e: string, k: int) {
    var s := Run(c, INITIAL, moves);
    e in s.rows && s.rows[e].status == Published && 0 <= k < |RouteOf(c, s, e)|
  }

  /** A relay that read its batch before another published it enqueues again once the queue has forgotten the ids. */
  lemma ForgettingLetsTwoThrough(c: Config, eventType: string) returns (moves: seq<Move>, x: string)
    requires c.batchSize > 0 && |c.route(eventType)| == 1
    ensures LegalRun(c, moves) && TimesAccepted(Run(c, INITIAL, moves), x) == 2
  {
    var e := seq(36, _ => '0');
    x := IdOf(e, c.route(eventType)[0]);
    moves := BatchRead(c, e, Event(eventType, "key", 0, Pending, 0), 0);
    assert PendingIds(Run(c, INITIAL, moves).rows) == {e};
    RunExtends(c, moves, Step(1, Read([e])));
    moves := moves + [Step(1, Read([e]))];
    RunExtends(c, moves, Step(0, Enqueue));
    moves := moves + [Step(0, Enqueue)];
    RunExtends(c, moves, Expire(x));
    moves := moves + [Expire(x)];
    RunExtends(c, moves, Step(1, Enqueue));
    moves := moves + [Step(1, Enqueue)];
  }

  // ---------------------------------------------------------------------------
  // Announced once
  // ---------------------------------------------------------------------------

  ghost predicate KeysUnique(rows: map<string, Event>) {
    forall e, f | e in rows && f in rows && e != f :: rows[e].dedupeKey != rows[f].dedupeKey
  }

  /** No two events of an outbox ever share a dedupe key. */
  lemma {:induction false} KeysStayUnique(c: Config, moves: seq<Move>)
    requires LegalRun(c, moves)
    ensures KeysUnique(Run(c, INITIAL, moves).rows)
  {
    if moves != [] {
      KeysStayUnique(c, moves[..|moves| - 1]);
      KeysKept(c, Run(c, INITIAL, moves[..|moves| - 1]), moves[|moves| - 1]);
    }
  }

  lemma KeysKept(c: Config, s: State, m: Move)
    requires Legal(c, s, m) && KeysUnique(s.rows)
    ensures KeysUnique(Apply(c, s, m).rows)
  {
  }

  /** Once published, an event is never pending again. */
  lemma {:induction false} PublishedForEver(c: Config, moves: seq<Move>, n: nat, e: string)
    requires LegalRun(c, moves) && n <= |moves|
    requires var s := Run(c, INITIAL, moves[..n]); e in s.rows && s.rows[e].status == Published
    ensures var s := Run(c, INITIAL, moves); e in s.rows && s.rows[e].status == Published
    decreases |moves|
  {
    if n == |moves| {
      assert moves[..n] == moves;
    } else {
      var front := moves[..|moves| - 1];
      assert front[..n] == moves[..n];
      PublishedForEver(c, front, n, e);
      PublishedStays(c, Run(c, INITIAL, front), moves[|moves| - 1], e);
    }
  }

  lemma PublishedStays(c: Config, s: State, m: Move, e: string)
    requires Legal(c, s, m) && e in s.rows && s.rows[e].status == Published
    ensures e in Apply(c, s, m).rows && Apply(c, s, m).rows[e].status == Published
  {
  }
}
