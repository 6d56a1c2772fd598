/**
 * The routing table from event types to subscribers
 * (apps/backend/src/events/event-subscriber.registry.ts).
 *
 * The two indexes of the program are related to the history of registrations, of which every lookup is a scan.
 */
module EventRegistry {
  import opened Wrappers

  datatype Subscriber = Subscriber(id: string, eventTypes: seq<string>)

  const WILDCARD := "*"

  /** One entry for every time the subscriber names the type. */
  function Mentions(s: Subscriber, eventTypes: seq<string>, eventType: string): seq<Subscriber> {
    if eventTypes == [] then []
    else Mentions(s, eventTypes[..|eventTypes| - 1], eventType)
         + (if eventTypes[|eventTypes| - 1] == eventType then [s] else [])
  }

  /** A scan of the registrations, oldest first. */
  function Scan(history: seq<Subscriber>, eventType: string): seq<Subscriber> {
    if history == [] then []
    else
      var last := history[|history| - 1];
      Scan(history[..|history| - 1], eventType) + Mentions(last, last.eventTypes, eventType)
  }

  predicate Registered(history: seq<Subscriber>, id: string) {
    exists i | 0 <= i < |history| :: history[i].id == id
  }

  /** No id is registered twice, and the index finds each registration by its id. */
  ghost predicate Indexed(history: seq<Subscriber>, byId: map<string, Subscriber>) {
    && (forall i, j | 0 <= i < j < |history| :: history[i].id != history[j].id)
    && (forall id :: id in byId <==> Registered(history, id))
    && (forall i | 0 <= i < |history| :: history[i].id in byId && byId[history[i].id] == history[i])
  }

  lemma IndexGrows(history: seq<Subscriber>, byId: map<string, Subscriber>, s: Subscriber)
    requires Indexed(history, byId) && s.id !in byId
    ensures Indexed(history + [s], byId[s.id := s])
  {
    forall i | 0 <= i < |history| ensures history[i].id != s.id {
      assert Registered(history, history[i].id);
    }
    forall id ensures id in byId[s.id := s] <==> Registered(history + [s], id) {
      if id in byId {
        var i :| 0 <= i < |history| && history[i].id == id;
        assert (history + [s])[i].id == id;
      }
      assert (history + [s])[|history|].id == s.id;
    }
  }

  lemma Recount(history: seq<Subscriber>, s: Subscriber)
    ensures forall t :: Scan(history + [s], t) == Scan(history, t) + Mentions(s, s.eventTypes[..|s.eventTypes|], t)
  {
    assert (history + [s])[..|history|] == history && s.eventTypes[..|s.eventTypes|] == s.eventTypes;
  }

  class Registry {
    var byEventType: map<string, seq<Subscriber>>
    var byId: map<string, Subscriber>
    ghost var history: seq<Subscriber>

    ghost predicate Valid()
      reads this
    {
      Indexed(history, byId) && forall t :: Listed(t) == Scan(history, t)
    }

    function Listed(eventType: string): seq<Subscriber>
      reads this
    {
      if eventType in byEventType then byEventType[eventType] else []
    }

    constructor ()
      ensures Valid() && history == []
    {
      byEventType, byId, history := map[], map[], [];
    }

    /** Answers whether it registered; a second registration of an id throws and changes nothing. */
    method Register(subscriber: Subscriber) returns (registered: bool)
      requires Valid()
      modifies this
      ensures Valid()
      ensures registered <==> !Registered(old(history), subscriber.id)
      ensures history == if registered then old(history) + [subscriber] else old(history)
      ensures !registered ==> byId == old(byId) && byEventType == old(byEventType)
    {
      if subscriber.id in byId {
        return false;
      }
      IndexGrows(history, byId, subscriber);
      byId := byId[subscriber.id := subscriber];
      AddToAll(subscriber);
      history := history + [subscriber];
      return true;
    }

    /** The subscriber joins the list of every type it names, in order. */
    method AddToAll(subscriber: Subscriber)
      requires forall t :: Listed(t) == Scan(history, t)
      modifies this`byEventType
      ensures forall t :: Listed(t) == Scan(history + [subscriber], t)
    {
      for k := 0 to |subscriber.eventTypes|
        invariant forall t :: Listed(t) == Scan(history, t) + Mentions(subscriber, subscriber.eventTypes[..k], t)
      {
        AddTo(subscriber, k);
      }
      Recount(history, subscriber);
    }

    /** The subscriber joins the list of the k-th type it names. */
    method AddTo(subscriber: Subscriber, k: nat)
      requires k < |subscriber.eventTypes|
      requires forall t :: Listed(t) == Scan(history, t) + Mentions(subscriber, subscriber.eventTypes[..k], t)
      modifies this`byEventType
      ensures forall t :: Listed(t) == Scan(history, t) + Mentions(subscriber, subscriber.eventTypes[..k + 1], t)
    {
      var eventType := subscriber.eventTypes[k];
      assert subscriber.eventTypes[..k + 1][..k] == subscriber.eventTypes[..k];
      var existing := Listed(eventType);
      byEventType := byEventType[eventType := existing + [subscriber]];
      forall t ensures Listed(t) == Scan(history, t) + Mentions(subscriber, subscriber.eventTypes[..k + 1], t) {
        assert t != eventType ==> Listed(t) == old(Listed(t));
      }
    }

    /** The subscribers that name the type, then those that name the wildcard, each in the order of registration. */
    method SubscribersFor(eventType: string) returns (subscribers: seq<Subscriber>)
      requires Valid()
      ensures subscribers == Scan(history, eventType) + Scan(history, WILDCARD)
    {
      var exact := Listed(eventType);
      var wildcard := Listed(WILDCARD);
      return exact + wildcard;
    }

    method FindById(id: string) returns (found: Option<Subscriber>)
      requires Valid()
      ensures found == None <==> !Registered(history, id)
      ensures found.Some? ==> found.value in history && found.value.id == id
    {
      if id in byId {
        ghost var i :| 0 <= i < |history| && history[i].id == id;
        return Some(byId[id]);
      }
      return None;
    }
  }

  lemma {:induction false} MentionsCount(s: Subscriber, eventTypes: seq<string>, eventType: string)
    ensures |Mentions(s, eventTypes, eventType)| == multiset(eventTypes)[eventType]
    ensures forall x | x in Mentions(s, eventTypes, eventType) :: x == s
  {
    if eventTypes != [] {
      var front := eventTypes[..|eventTypes| - 1];
      MentionsCount(s, front, eventType);
      assert eventTypes == front + [eventTypes[|eventTypes| - 1]];
    }
  }

  /** A scan finds exactly the registered subscribers that name the type. */
  lemma {:induction false} ScanFinds(history: seq<Subscriber>, eventType: string, s: Subscriber)
    ensures s in Scan(history, eventType) <==> s in history && eventType in s.eventTypes
  {
    if history != [] {
      var front, last := history[..|history| - 1], history[|history| - 1];
      ScanFinds(front, eventType, s);
      MentionsCount(last, last.eventTypes, eventType);
      assert history == front + [last];
      assert eventType in last.eventTypes <==> multiset(last.eventTypes)[eventType] > 0;
      if eventType in last.eventTypes {
        assert Mentions(last, last.eventTypes, eventType)[0] in Mentions(last, last.eventTypes, eventType);
      }
    }
  }

  /** Each registered subscriber is listed as often as it names the type, whatever the others name. */
  lemma {:induction false} ScanCounts(history: seq<Subscriber>, eventType: string, s: Subscriber)
    requires forall i, j | 0 <= i < j < |history| :: history[i].id != history[j].id
    ensures multiset(Scan(history, eventType))[s] == if s in history then multiset(s.eventTypes)[eventType] else 0
  {
    if history != [] {
      var front, last := history[..|history| - 1], history[|history| - 1];
      ScanCounts(front, eventType, s);
      var mentions := Mentions(last, last.eventTypes, eventType);
      MentionsCount(last, last.eventTypes, eventType);
      assert multiset(Scan(history, eventType)) == multiset(Scan(front, eventType)) + multiset(mentions);
      AllOne(mentions, last, s);
      assert history == front + [last];
    }
  }

  lemma {:induction false} AllOne(list: seq<Subscriber>, one: Subscriber, s: Subscriber)
    requires forall x | x in list :: x == one
    ensures multiset(list)[s] == if s == one then |list| else 0
  {
    if list != [] {
      var front, last := list[..|list| - 1], list[|list| - 1];
      assert list == front + [last] && last in list;
      forall x | x in front ensures x == one {
        assert x in list;
      }
      AllOne(front, one, s);
    }
  }

  lemma ScanOnce(history: seq<Subscriber>, s: Subscriber, eventType: string)
    ensures Scan(history + [s], eventType) == Scan(history, eventType) + Mentions(s, s.eventTypes, eventType)
  {
    assert (history + [s])[..|history|] == history;
  }

  lemma {:induction false} ScanConcat(a: seq<Subscriber>, b: seq<Subscriber>, eventType: string)
    ensures Scan(a + b, eventType) == Scan(a, eventType) + Scan(b, eventType)
    decreases |b|
  {
    if b == [] {
      assert a + b == a;
    } else {
      var front, last := b[..|b| - 1], b[|b| - 1];
      assert b == front + [last];
      ScanConcat(a, front, eventType);
      ScanOnce(front, last, eventType);
      Joined(a, front, last, eventType);
    }
  }

  lemma Joined(a: seq<Subscriber>, front: seq<Subscriber>, last: Subscriber, eventType: string)
    requires Scan(a + front, eventType) == Scan(a, eventType) + Scan(front, eventType)
    ensures Scan(a + (front + [last]), eventType) ==
            Scan(a, eventType) + (Scan(front, eventType) + Mentions(last, last.eventTypes, eventType))
  {
    Regroup(a, front, [last]);
    ScanOnce(a + front, last, eventType);
    Regroup(Scan(a, eventType), Scan(front, eventType), Mentions(last, last.eventTypes, eventType));
  }

  lemma Regroup(a: seq<Subscriber>, b: seq<Subscriber>, c: seq<Subscriber>)
    ensures a + (b + c) == (a + b) + c
  {
  }

  /** Of two subscribers to a type, the one registered first is listed first. */
  lemma EarlierIsListedEarlier(history: seq<Subscriber>, i: nat, j: nat, eventType: string)
    returns (p: nat, q: nat)
    requires i < j < |history| && eventType in history[i].eventTypes && eventType in history[j].eventTypes
    ensures p < q < |Scan(history, eventType)|
    ensures Scan(history, eventType)[p] == history[i] && Scan(history, eventType)[q] == history[j]
  {
    var a, b := history[..i + 1], history[i + 1..];
    assert history == a + b;
    ScanConcat(a, b, eventType);
    assert a[i] == history[i] && b[j - i - 1] == history[j];
    ScanFinds(a, eventType, history[i]);
    ScanFinds(b, eventType, history[j]);
    p :| 0 <= p < |Scan(a, eventType)| && Scan(a, eventType)[p] == history[i];
    var r :| 0 <= r < |Scan(b, eventType)| && Scan(b, eventType)[r] == history[j];
    q := |Scan(a, eventType)| + r;
  }
}
