/** Bitemporal snapshots (apps/backend/src/modules/audit/snapshot.service.ts). */
module Snapshots {
  import opened Wrappers
  import Json

  // Writing a version closes the open one, and a query asks what held at an instant.

  datatype Aggregate = Aggregate(kind: string, id: string)

  /** One version as its writer hands it over. */
  datatype Version = Version(aggregate: Aggregate, number: int, data: Json.Value, validFrom: int)

  datatype Snapshot = Snapshot(version: Version, validTo: Option<int>)

  /** The payload of a journal entry, as the replay looks at it. */
  datatype Payload = Record(fields: map<string, Json.Value>) | Other

  /** A journal entry; the journal is listed in sequence order. */
  datatype Entry = Entry(aggregate: Aggregate, occurredAt: int, payload: Payload)

  datatype Answer =
    | FromSnapshot(version: int, data: Json.Value)
    | Replayed(fields: map<string, Json.Value>)

  // ---------------------------------------------------------------------------
  // The table in terms of what was written
  // ---------------------------------------------------------------------------

  function Versions(rows: seq<Snapshot>): (versions: seq<Version>)
    ensures |versions| == |rows|
    ensures forall i | 0 <= i < |rows| :: versions[i] == rows[i].version
  {
    seq(|rows|, i requires 0 <= i < |rows| => rows[i].version)
  }

  /** When the version at `k` is superseded: at the start of the next one written for its aggregate. */
  function Superseded(versions: seq<Version>, k: nat, from: nat): Option<int>
    requires k < from <= |versions|
    decreases |versions| - from
  {
    if from == |versions| then None
    else if versions[from].aggregate == versions[k].aggregate then Some(versions[from].validFrom)
    else Superseded(versions, k, from + 1)
  }

  /** Every row ends where the next one for its aggregate starts, and the last one is open. */
  ghost predicate Chained(rows: seq<Snapshot>) {
    forall k | 0 <= k < |rows| :: EndsAtNext(rows, k)
  }

  predicate EndsAtNext(rows: seq<Snapshot>, k: nat)
    requires k < |rows|
  {
    rows[k].validTo == Superseded(Versions(rows), k, k + 1)
  }

  /** The unique index on aggregate and version number. */
  ghost predicate UniqueVersions(versions: seq<Version>) {
    forall i, j | 0 <= i < j < |versions| && versions[i].aggregate == versions[j].aggregate ::
      versions[i].number != versions[j].number
  }

  ghost predicate Taken(versions: seq<Version>, v: Version) {
    exists i | 0 <= i < |versions| :: versions[i].aggregate == v.aggregate && versions[i].number == v.number
  }

  lemma {:induction false} SupersededGrows(versions: seq<Version>, v: Version, k: nat, from: nat)
    requires k < from <= |versions|
    ensures Superseded(versions + [v], k, from) ==
            (if Superseded(versions, k, from) == None && v.aggregate == versions[k].aggregate then Some(v.validFrom)
             else Superseded(versions, k, from))
    decreases |versions| - from
  {
    if from < |versions| {
      SupersededGrows(versions, v, k, from + 1);
    } else {
      assert (versions + [v])[from] == v;
    }
  }

  lemma {:induction false} SupersededBy(versions: seq<Version>, k: nat, from: nat) returns (next: nat)
    requires k < from <= |versions| && Superseded(versions, k, from).Some?
    ensures from <= next < |versions| && versions[next].aggregate == versions[k].aggregate
    ensures Superseded(versions, k, from) == Some(versions[next].validFrom)
    ensures forall j | from <= j < next :: versions[j].aggregate != versions[k].aggregate
    decreases |versions| - from
  {
    if versions[from].aggregate == versions[k].aggregate {
      next := from;
    } else {
      next := SupersededBy(versions, k, from + 1);
    }
  }

  lemma {:induction false} NotSuperseded(versions: seq<Version>, k: nat, from: nat, j: nat)
    requires k < from <= j < |versions| && versions[j].aggregate == versions[k].aggregate
    ensures Superseded(versions, k, from).Some?
    decreases |versions| - from
  {
    if versions[from].aggregate != versions[k].aggregate {
      NotSuperseded(versions, k, from + 1, j);
    }
  }

  /** At most one row of an aggregate is ever open. */
  lemma OneOpenRow(rows: seq<Snapshot>, i: nat, j: nat)
    requires Chained(rows) && i < |rows| && j < |rows| && rows[i].version.aggregate == rows[j].version.aggregate
    requires rows[i].validTo == None && rows[j].validTo == None
    ensures i == j
  {
    if i < j {
      EarlierIsClosed(rows, i, j);
    } else if j < i {
      EarlierIsClosed(rows, j, i);
    }
  }

  lemma EarlierIsClosed(rows: seq<Snapshot>, i: nat, j: nat)
    requires Chained(rows) && i < j < |rows| && rows[i].version.aggregate == rows[j].version.aggregate
    ensures rows[i].validTo.Some?
  {
    assert EndsAtNext(rows, i);
    NotSuperseded(Versions(rows), i, i + 1, j);
  }

  // ---------------------------------------------------------------------------
  // Writing
  // ---------------------------------------------------------------------------

  class Store {
    /** In the order they were written. */
    var rows: seq<Snapshot>

    ghost predicate Valid()
      reads this
    {
      Chained(rows) && UniqueVersions(Versions(rows))
    }

    constructor ()
      ensures Valid() && rows == []
    {
      rows := [];
    }

    /** The open row of an aggregate, the highest version first. */
    method FindCurrent(aggregate: Aggregate) returns (current: Option<nat>)
      requires Valid()
      ensures current.Some? ==>
                && current.value < |rows| && rows[current.value].version.aggregate == aggregate && rows[current.value].validTo == None
                && forall i | 0 <= i < |rows| && i != current.value && rows[i].version.aggregate == aggregate :: rows[i].validTo != None
      ensures current == None ==> forall i | 0 <= i < |rows| && rows[i].version.aggregate == aggregate :: rows[i].validTo != None
    {
      current := None;
      for i := 0 to |rows|
        invariant current.Some? ==>
                    && current.value < i && rows[current.value].version.aggregate == aggregate && rows[current.value].validTo == None
        invariant forall j | 0 <= j < i && rows[j].version.aggregate == aggregate && rows[j].validTo == None :: current == Some(j)
      {
        if rows[i].version.aggregate == aggregate && rows[i].validTo == None {
          if current.Some? {
            OneOpenRow(rows, current.value, i);
          }
          current := Some(i);
        }
      }
    }

    /** One transaction: closes the open row and adds the version, or, when the version number is taken, does neither. */
    method WriteSnapshot(input: Version) returns (created: bool)
      requires Valid()
      modifies this
      ensures Valid()
      ensures created <==> !Taken(Versions(old(rows)), input)
      ensures Versions(rows) == if created then Versions(old(rows)) + [input] else Versions(old(rows))
      ensures !created ==> rows == old(rows)
    {
      var current := FindCurrent(input.aggregate);
      var closed := rows;
      if current.Some? {
        closed := rows[current.value := rows[current.value].(validTo := Some(input.validFrom))];
      }
      for i := 0 to |closed|
        invariant Versions(closed) == Versions(rows)
        invariant forall j | 0 <= j < i :: closed[j].version.aggregate != input.aggregate || closed[j].version.number != input.number
      {
        if closed[i].version.aggregate == input.aggregate && closed[i].version.number == input.number {
          assert Versions(rows)[i] == closed[i].version;
          return false;
        }
      }
      ChainGrows(rows, closed, input);
      rows := closed + [Snapshot(input, None)];
      assert Versions(rows) == Versions(old(rows)) + [input];
      return true;
    }
  }

  lemma ChainGrows(rows: seq<Snapshot>, closed: seq<Snapshot>, input: Version)
    requires Chained(rows) && Versions(closed) == Versions(rows)
    requires forall i | 0 <= i < |rows| ::
               closed[i].validTo == if rows[i].version.aggregate == input.aggregate && rows[i].validTo == None then Some(input.validFrom)
                                    else rows[i].validTo
    ensures Chained(closed + [Snapshot(input, None)])
  {
    var next := closed + [Snapshot(input, None)];
    assert Versions(next) == Versions(rows) + [input];
    forall k | 0 <= k < |next| ensures EndsAtNext(next, k) {
      if k < |rows| {
        SupersededGrows(Versions(rows), input, k, k + 1);
        assert EndsAtNext(rows, k);
      }
    }
  }

  // ---------------------------------------------------------------------------
  // Asking what held at an instant
  // ---------------------------------------------------------------------------

  /** The row's interval holds the instant. */
  predicate Holds(rows: seq<Snapshot>, aggregate: Aggregate, asOf: int, k: int) {
    && 0 <= k < |rows| && rows[k].version.aggregate == aggregate && rows[k].version.validFrom <= asOf
    && (rows[k].validTo == None || rows[k].validTo.value > asOf)
  }

  /** The row the query picks: of those that hold, the one with the highest version. */
  ghost predicate Picked(rows: seq<Snapshot>, aggregate: Aggregate, asOf: int, k: int) {
    Holds(rows, aggregate, asOf, k) &&
    forall i :: Holds(rows, aggregate, asOf, i) ==> rows[i].version.number <= rows[k].version.number
  }

  /** The journal entries a replay goes through. */
  function Relevant(journal: seq<Entry>, aggregate: Aggregate, asOf: int): seq<Entry> {
    if journal == [] then []
    else
      var last := journal[|journal| - 1];
      Relevant(journal[..|journal| - 1], aggregate, asOf)
      + (if last.aggregate == aggregate && last.occurredAt <= asOf then [last] else [])
  }

  ghost predicate Writes(e: Entry, key: string) {
    e.payload.Record? && key in e.payload.fields
  }

  /** `data` holds, for every key that some entry writes, what the last of them wrote. */
  ghost predicate LastWriterWins(entries: seq<Entry>, data: map<string, Json.Value>) {
    && (forall key :: key in data <==> exists i | 0 <= i < |entries| :: Writes(entries[i], key))
    && (forall key, i | 0 <= i < |entries| && Writes(entries[i], key) && NoLaterWriter(entries, key, i) ::
          data[key] == entries[i].payload.fields[key])
  }

  ghost predicate NoLaterWriter(entries: seq<Entry>, key: string, i: nat) {
    forall j | i < j < |entries| :: !Writes(entries[j], key)
  }

  /** The entry is of the aggregate and had occurred by then. */
  ghost predicate Qualifies(journal: seq<Entry>, aggregate: Aggregate, asOf: int, i: int) {
    0 <= i < |journal| && journal[i].aggregate == aggregate && journal[i].occurredAt <= asOf
  }

  /** `data` holds, for every key that some qualifying entry writes, what the last such entry wrote. */
  ghost predicate ReplayOf(journal: seq<Entry>, aggregate: Aggregate, asOf: int, data: map<string, Json.Value>) {
    && (forall key :: key in data <==> exists i :: Qualifies(journal, aggregate, asOf, i) && Writes(journal[i], key))
    && (forall key, i | Qualifies(journal, aggregate, asOf, i) && Writes(journal[i], key)
                        && (forall j :: i < j && Qualifies(journal, aggregate, asOf, j) ==> !Writes(journal[j], key)) ::
          data[key] == journal[i].payload.fields[key])
  }

  /** Where the entries a replay goes through stand in the journal. */
  ghost predicate StandAt(journal: seq<Entry>, aggregate: Aggregate, asOf: int, positions: seq<nat>) {
    && (forall i | 0 <= i < |positions| :: positions[i] < |journal|)
    && (forall i, j | 0 <= i < j < |positions| :: positions[i] < positions[j])
    && (forall i :: i in positions <==> Qualifies(journal, aggregate, asOf, i))
    && |Relevant(journal, aggregate, asOf)| == |positions|
    && (forall i | 0 <= i < |positions| :: Relevant(journal, aggregate, asOf)[i] == journal[positions[i]])
  }

  lemma {:induction false} RelevantStand(journal: seq<Entry>, aggregate: Aggregate, asOf: int) returns (positions: seq<nat>)
    ensures StandAt(journal, aggregate, asOf, positions)
  {
    if journal == [] {
      positions := [];
    } else {
      var front, last := journal[..|journal| - 1], |journal| - 1;
      positions := RelevantStand(front, aggregate, asOf);
      if Qualifies(journal, aggregate, asOf, last) {
        positions := positions + [last];
      }
      forall i ensures i in positions <==> Qualifies(journal, aggregate, asOf, i) {
        assert i != last ==> (Qualifies(journal, aggregate, asOf, i) <==> Qualifies(front, aggregate, asOf, i));
      }
    }
  }

  lemma RelevantReplays(journal: seq<Entry>, aggregate: Aggregate, asOf: int, data: map<string, Json.Value>)
    requires LastWriterWins(Relevant(journal, aggregate, asOf), data)
    ensures ReplayOf(journal, aggregate, asOf, data)
  {
    var relevant := Relevant(journal, aggregate, asOf);
    var positions := RelevantStand(journal, aggregate, asOf);
    forall key ensures key in data <==> exists i :: Qualifies(journal, aggregate, asOf, i) && Writes(journal[i], key) {
      if key in data {
        var k :| 0 <= k < |relevant| && Writes(relevant[k], key);
        assert positions[k] in positions;
      }
      if i :| Qualifies(journal, aggregate, asOf, i) && Writes(journal[i], key) {
        var k :| 0 <= k < |positions| && positions[k] == i;
        assert Writes(relevant[k], key);
      }
    }
    forall key, i | Qualifies(journal, aggregate, asOf, i) && Writes(journal[i], key)
                    && (forall j :: i < j && Qualifies(journal, aggregate, asOf, j) ==> !Writes(journal[j], key))
      ensures data[key] == journal[i].payload.fields[key]
    {
      var k :| 0 <= k < |positions| && positions[k] == i;
      assert Writes(relevant[k], key);
      forall j | k < j < |relevant| ensures !Writes(relevant[j], key) {
        assert positions[j] in positions;
      }
      assert NoLaterWriter(relevant, key, k);
    }
  }

  method ReconstructAsOf(rows: seq<Snapshot>, journal: seq<Entry>, aggregate: Aggregate, asOf: int) returns (answer: Option<Answer>)
    ensures (exists k :: Holds(rows, aggregate, asOf, k)) ==>
              exists k ::
                Picked(rows, aggregate, asOf, k) && answer == Some(FromSnapshot(rows[k].version.number, rows[k].version.data))
    ensures !(exists k :: Holds(rows, aggregate, asOf, k)) ==>
              if (exists k | 0 <= k < |rows| :: rows[k].version.aggregate == aggregate)
                 || !(exists i :: Qualifies(journal, aggregate, asOf, i))
              then answer == None
              else answer.Some? && answer.value.Replayed? && ReplayOf(journal, aggregate, asOf, answer.value.fields)
  {
    var snapshot := FindHolding(rows, aggregate, asOf);
    if snapshot.Some? {
      var version := rows[snapshot.value].version;
      return Some(FromSnapshot(version.number, version.data));
    }
    for k := 0 to |rows|
      invariant forall i | 0 <= i < k :: rows[i].version.aggregate != aggregate
    {
      if rows[k].version.aggregate == aggregate {
        return None;
      }
    }
    var events := Relevant(journal, aggregate, asOf);
    ghost var positions := RelevantStand(journal, aggregate, asOf);
    if events == [] {
      return None;
    }
    assert positions[0] in positions;
    var reconstructed := Replay(events);
    RelevantReplays(journal, aggregate, asOf, reconstructed);
    return Some(Replayed(reconstructed));
  }

  method FindHolding(rows: seq<Snapshot>, aggregate: Aggregate, asOf: int) returns (found: Option<nat>)
    ensures found.Some? ==> Picked(rows, aggregate, asOf, found.value)
    ensures found == None ==> forall k :: !Holds(rows, aggregate, asOf, k)
  {
    found := None;
    for k := 0 to |rows|
      invariant found.Some? ==> found.value < k && Holds(rows, aggregate, asOf, found.value)
      invariant forall i | 0 <= i < k && Holds(rows, aggregate, asOf, i) ::
                  found.Some? && rows[i].version.number <= rows[found.value].version.number
    {
      if Holds(rows, aggregate, asOf, k) && (found == None || rows[found.value].version.number < rows[k].version.number) {
        found := Some(k);
      }
    }
  }

  method Replay(events: seq<Entry>) returns (reconstructed: map<string, Json.Value>)
    ensures LastWriterWins(events, reconstructed)
  {
    reconstructed := map[];
    for i := 0 to |events|
      invariant LastWriterWins(events[..i], reconstructed)
    {
      var payload := events[i].payload;
      ghost var so_far := reconstructed;
      if payload.Record? {
        reconstructed := reconstructed + payload.fields;
      }
      OneMoreWriter(events[..i], events[i], so_far, reconstructed);
      assert events[..i + 1] == events[..i] + [events[i]];
    }
    assert events[..|events|] == events;
  }

  lemma OneMoreWriter(entries: seq<Entry>, e: Entry, before: map<string, Json.Value>, after: map<string, Json.Value>)
    requires LastWriterWins(entries, before)
    requires after == if e.payload.Record? then before + e.payload.fields else before
    ensures LastWriterWins(entries + [e], after)
  {
    var all := entries + [e];
    forall key ensures key in after <==> exists i | 0 <= i < |all| :: Writes(all[i], key) {
      if key in before {
        var i :| 0 <= i < |entries| && Writes(entries[i], key);
        assert Writes(all[i], key);
      }
      assert all[|entries|] == e;
    }
    forall key, i | 0 <= i < |all| && Writes(all[i], key) && NoLaterWriter(all, key, i)
      ensures after[key] == all[i].payload.fields[key]
    {
      if i < |entries| {
        assert !Writes(all[|entries|], key);
        assert NoLaterWriter(entries, key, i) by {
          forall j | i < j < |entries| ensures !Writes(entries[j], key) {
            assert !Writes(all[j], key);
          }
        }
      }
    }
  }

  // ---------------------------------------------------------------------------
  // The last version written
  // ---------------------------------------------------------------------------

  /** The version written last among those of the aggregate that start at `asOf` or before. */
  function LastWritten(versions: seq<Version>, aggregate: Aggregate, asOf: int): Option<nat> {
    if versions == [] then None
    else
      var last := |versions| - 1;
      if versions[last].aggregate == aggregate && versions[last].validFrom <= asOf then Some(last)
      else LastWritten(versions[..last], aggregate, asOf)
  }

  lemma {:induction false} LastWrittenIs(versions: seq<Version>, aggregate: Aggregate, asOf: int)
    ensures var last := LastWritten(versions, aggregate, asOf);
            && (last.Some? ==> last.value < |versions| && versions[last.value].aggregate == aggregate && versions[last.value].validFrom <= asOf)
            && (forall k | 0 <= k < |versions| && versions[k].aggregate == aggregate && versions[k].validFrom <= asOf ::
                  last.Some? && k <= last.value)
  {
    if versions != [] {
      LastWrittenIs(versions[..|versions| - 1], aggregate, asOf);
    }
  }

  /** Whatever the versions and start instants, the last version written holds, and no later row does. */
  lemma LastWrittenHolds(rows: seq<Snapshot>, aggregate: Aggregate, asOf: int)
    requires Chained(rows)
    ensures var last := LastWritten(Versions(rows), aggregate, asOf);
            && (last.Some? ==> Holds(rows, aggregate, asOf, last.value))
            && (forall k :: Holds(rows, aggregate, asOf, k) ==> last.Some? && k <= last.value)
  {
    var versions := Versions(rows);
    LastWrittenIs(versions, aggregate, asOf);
    var last := LastWritten(versions, aggregate, asOf);
    if last.Some? {
      var k := last.value;
      assert EndsAtNext(rows, k);
      if rows[k].validTo.Some? {
        var next := SupersededBy(versions, k, k + 1);
      }
    }
  }

  /** Version numbers of an aggregate rise in the order of writing. */
  ghost predicate NumbersRise(versions: seq<Version>, aggregate: Aggregate) {
    forall i, j | 0 <= i < j < |versions| && versions[i].aggregate == aggregate && versions[j].aggregate == aggregate ::
      versions[i].number < versions[j].number
  }

  /** Start instants of an aggregate never go back in the order of writing. */
  ghost predicate StartsNeverGoBack(versions: seq<Version>, aggregate: Aggregate) {
    forall i, j | 0 <= i < j < |versions| && versions[i].aggregate == aggregate && versions[j].aggregate == aggregate ::
      versions[i].validFrom <= versions[j].validFrom
  }

  /** With starts that never go back, the intervals of an aggregate do not overlap. */
  lemma IntervalsDisjoint(rows: seq<Snapshot>, aggregate: Aggregate, asOf: int, i: nat, j: nat)
    requires Chained(rows) && StartsNeverGoBack(Versions(rows), aggregate)
    requires i < j && Holds(rows, aggregate, asOf, j)
    ensures !Holds(rows, aggregate, asOf, i)
  {
    var versions := Versions(rows);
    if rows[i].version.aggregate == aggregate {
      NotSuperseded(versions, i, i + 1, j);
      var next := SupersededBy(versions, i, i + 1);
      assert EndsAtNext(rows, i);
      assert next < j ==> versions[next].validFrom <= versions[j].validFrom;
    }
  }

  /** At every instant, the query picks the version written last among those that started by then. */
  ghost predicate AlwaysPicksLast(rows: seq<Snapshot>, aggregate: Aggregate) {
    forall asOf, k | Picked(rows, aggregate, asOf, k) :: LastWritten(Versions(rows), aggregate, asOf) == Some(k)
  }

  function Later(v: Version, w: Version): int {
    if v.validFrom <= w.validFrom then w.validFrom else v.validFrom
  }

  /** The version at `l` is written after the one at `k` but not numbered above it, and at the first instant both
      have started, `l` is the last one written while `k` is not yet superseded. */
  predicate Overshadows(versions: seq<Version>, aggregate: Aggregate, k: nat, l: nat)
    requires k < l < |versions|
  {
    var both := Later(versions[k], versions[l]);
    && versions[k].aggregate == aggregate && versions[l].number <= versions[k].number
    && LastWritten(versions, aggregate, both) == Some(l)
    && (Superseded(versions, k, k + 1) == None || both < Superseded(versions, k, k + 1).value)
  }

  ghost predicate NoneOvershadowed(versions: seq<Version>, aggregate: Aggregate) {
    forall k, l | 0 <= k < l < |versions| :: !Overshadows(versions, aggregate, k, l)
  }

  /** The query finds the last version written at every instant exactly when no write is overshadowed by an
      earlier one; versions need not be unique for this. */
  lemma AlwaysPicksLastIff(rows: seq<Snapshot>, aggregate: Aggregate)
    requires Chained(rows)
    ensures AlwaysPicksLast(rows, aggregate) <==> NoneOvershadowed(Versions(rows), aggregate)
  {
    if AlwaysPicksLast(rows, aggregate) {
      forall k, l | 0 <= k < l < |rows| ensures !Overshadows(Versions(rows), aggregate, k, l) {
        if Overshadows(Versions(rows), aggregate, k, l) {
          OvershadowedIsMissed(rows, aggregate, k, l);
        }
      }
    }
    if NoneOvershadowed(Versions(rows), aggregate) {
      forall asOf, k | Picked(rows, aggregate, asOf, k) ensures LastWritten(Versions(rows), aggregate, asOf) == Some(k) {
        PickedIsLast(rows, aggregate, asOf, k);
      }
    }
  }

  lemma OvershadowedIsMissed(rows: seq<Snapshot>, aggregate: Aggregate, k: nat, l: nat)
    requires Chained(rows) && k < l < |rows| && Overshadows(Versions(rows), aggregate, k, l)
    ensures !AlwaysPicksLast(rows, aggregate)
  {
    var both := Later(rows[k].version, rows[l].version);
    assert EndsAtNext(rows, k);
    assert Holds(rows, aggregate, both, k);
    var p := SomePicked(rows, aggregate, both, k, |rows|);
    assert Picked(rows, aggregate, both, p);
    assert p == l ==> Picked(rows, aggregate, both, k);
  }

  lemma {:induction false} SomePicked(rows: seq<Snapshot>, aggregate: Aggregate, asOf: int, k: nat, n: nat) returns (p: nat)
    requires n <= |rows| && Holds(rows, aggregate, asOf, k)
    ensures Holds(rows, aggregate, asOf, p) && rows[k].version.number <= rows[p].version.number
    ensures forall i :: i < n && Holds(rows, aggregate, asOf, i) ==> rows[i].version.number <= rows[p].version.number
  {
    if n == 0 {
      p := k;
    } else {
      p := SomePicked(rows, aggregate, asOf, k, n - 1);
      if Holds(rows, aggregate, asOf, n - 1) && rows[p].version.number < rows[n - 1].version.number {
        p := n - 1;
      }
    }
  }

  lemma PickedIsLast(rows: seq<Snapshot>, aggregate: Aggregate, asOf: int, k: nat)
    requires Chained(rows) && NoneOvershadowed(Versions(rows), aggregate)
    requires Picked(rows, aggregate, asOf, k)
    ensures LastWritten(Versions(rows), aggregate, asOf) == Some(k)
  {
    var versions := Versions(rows);
    LastWrittenHolds(rows, aggregate, asOf);
    var last := LastWritten(versions, aggregate, asOf).value;
    assert Holds(rows, aggregate, asOf, last) && Holds(rows, aggregate, asOf, k);
    if k < last {
      var both := Later(versions[k], versions[last]);
      LastWrittenIs(versions, aggregate, asOf);
      LastWrittenIs(versions, aggregate, both);
      assert LastWritten(versions, aggregate, both) == Some(last);
      assert EndsAtNext(rows, k);
      assert Overshadows(versions, aggregate, k, last);
    }
  }

  /** Nothing is overshadowed when version numbers rise or starts never go back; one of the two is enough. */
  lemma OrderedWritesAreFound(versions: seq<Version>, aggregate: Aggregate)
    requires NumbersRise(versions, aggregate) || StartsNeverGoBack(versions, aggregate)
    ensures NoneOvershadowed(versions, aggregate)
  {
    forall k, l | 0 <= k < l < |versions| ensures !Overshadows(versions, aggregate, k, l) {
      if Overshadows(versions, aggregate, k, l) {
        LastWrittenIs(versions, aggregate, Later(versions[k], versions[l]));
        NotSuperseded(versions, k, k + 1, l);
        var next := SupersededBy(versions, k, k + 1);
      }
    }
  }

  lemma PicksLastWritten(rows: seq<Snapshot>, aggregate: Aggregate, asOf: int, k: nat)
    requires Chained(rows) && Picked(rows, aggregate, asOf, k)
    requires NumbersRise(Versions(rows), aggregate) || StartsNeverGoBack(Versions(rows), aggregate)
    ensures LastWritten(Versions(rows), aggregate, asOf) == Some(k)
  {
    OrderedWritesAreFound(Versions(rows), aggregate);
    AlwaysPicksLastIff(rows, aggregate);
  }

  /** When a later write has a lower number and an earlier start, the query can pick a version that was written over. */
  lemma BackdatedLowerVersionIsMissed(aggregate: Aggregate, data: Json.Value) returns (rows: seq<Snapshot>, asOf: int)
    ensures Chained(rows) && UniqueVersions(Versions(rows))
    ensures Picked(rows, aggregate, asOf, 0) && LastWritten(Versions(rows), aggregate, asOf) == Some(2)
  {
    var first, second, third := Version(aggregate, 3, data, 10), Version(aggregate, 4, data, 30), Version(aggregate, 2, data, 15);
    rows := [Snapshot(first, Some(30)), Snapshot(second, Some(15)), Snapshot(third, None)];
    asOf := 20;
    var versions := Versions(rows);
    assert versions == [first, second, third];
    assert Superseded(versions, 0, 1) == Some(30) && Superseded(versions, 1, 2) == Some(15) && Superseded(versions, 2, 3) == None;
    forall i | Holds(rows, aggregate, asOf, i) ensures rows[i].version.number <= 3 {
      assert i == 0 || i == 1 || i == 2;
    }
  }
}
