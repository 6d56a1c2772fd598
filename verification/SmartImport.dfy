/**
 * Previewing and applying an import of objectives, KPIs and initiatives
 * (services/pixelrag/spm_poc/workflows.py).
 *
 * A preview proposes; an apply stores what is chosen of it, against the store as it is by then.
 */
module SmartImport {
  import opened Wrappers

  /** What an extracted item, a proposed item and a stored record carry; `fields` stands for everything but the name. */
  datatype Item = Item(name: Option<string>, fields: string)

  datatype Reason = MissingName | DuplicateName

  datatype Proposed = Proposed(item: Item, create: bool, reason: Option<Reason>, selected: bool)

  datatype Extracted = Extracted(objectives: seq<Item>, kpis: seq<Item>, initiatives: seq<Item>)

  datatype Proposal = Proposal(objectives: seq<Proposed>, kpis: seq<Proposed>, initiatives: seq<Proposed>)

  datatype Records = Records(objectives: seq<Item>, kpis: seq<Item>, initiatives: seq<Item>)

  datatype ApplyResult = ApplyResult(createdObjectives: nat, createdKpis: nat, createdInitiatives: nat, skipped: nat)

  /** Name normalisation: any function of the text; a missing name counts as the empty text. */
  type Normaliser = string -> string

  function NameOf(normalize: Normaliser, item: Item): string {
    match item.name
    case None => normalize("")
    case Some(name) => normalize(name)
  }

  function Names(normalize: Normaliser, stored: seq<Item>): set<string> {
    set i | 0 <= i < |stored| && stored[i].name.Some? && stored[i].name.value != "" :: NameOf(normalize, stored[i])
  }

  // ---------------------------------------------------------------------------
  // Preview
  // ---------------------------------------------------------------------------

  /** The reason to skip the item at `i`, judged by the items before it and the names already stored. */
  function SkipReason(normalize: Normaliser, items: seq<Item>, existing: set<string>, i: nat): Option<Reason>
    requires i < |items|
  {
    var name := NameOf(normalize, items[i]);
    if name == "" then Some(MissingName)
    else if name in existing || (exists j | 0 <= j < i :: NameOf(normalize, items[j]) == name) then Some(DuplicateName)
    else None
  }

  /** Some stored record has the name. */
  ghost predicate Stored(normalize: Normaliser, stored: seq<Item>, name: string) {
    exists i | 0 <= i < |stored| ::
      stored[i].name != None && stored[i].name.value != "" && normalize(stored[i].name.value) == name
  }

  lemma StoredNames(normalize: Normaliser, stored: seq<Item>, name: string)
    ensures name in Names(normalize, stored) <==> Stored(normalize, stored, name)
  {
  }

  /** The normalised name of an item; a missing name counts as the empty text. */
  ghost function NameText(normalize: Normaliser, item: Item): string {
    normalize(if item.name == None then "" else item.name.value)
  }

  /** An item is marked for creation exactly when it has a name, not stored yet, that no earlier item has; nothing
      else about it changes, and it is selected just then. */
  ghost predicate Marked(normalize: Normaliser, items: seq<Item>, stored: seq<Item>, proposed: seq<Proposed>) {
    && |proposed| == |items|
    && forall i | 0 <= i < |items| ::
         var name := NameText(normalize, items[i]);
         var known := Stored(normalize, stored, name) || exists j | 0 <= j < i :: NameText(normalize, items[j]) == name;
         && proposed[i].item == items[i] && proposed[i].selected == proposed[i].create
         && (proposed[i].create <==> name != "" && !known)
         && proposed[i].reason == (if name == "" then Some(MissingName) else if known then Some(DuplicateName) else None)
  }

  lemma PreviewedIsMarked(normalize: Normaliser, items: seq<Item>, stored: seq<Item>, proposed: seq<Proposed>)
    requires Previewed(normalize, items, Names(normalize, stored), proposed)
    ensures Marked(normalize, items, stored, proposed)
  {
    forall i | 0 <= i < |items|
      ensures var name := NameText(normalize, items[i]);
              var known := Stored(normalize, stored, name) || exists j | 0 <= j < i :: NameText(normalize, items[j]) == name;
              SkipReason(normalize, items, Names(normalize, stored), i) ==
              if name == "" then Some(MissingName) else if known then Some(DuplicateName) else None
    {
      StoredNames(normalize, stored, NameText(normalize, items[i]));
      assert forall j | 0 <= j <= i :: NameOf(normalize, items[j]) == NameText(normalize, items[j]);
    }
  }

  ghost predicate Previewed(normalize: Normaliser, items: seq<Item>, existing: set<string>, proposed: seq<Proposed>) {
    |proposed| == |items| &&
    forall i | 0 <= i < |items| ::
      var reason := SkipReason(normalize, items, existing, i);
      proposed[i] == Proposed(items[i], reason == None, reason, reason == None)
  }

  /** The names met among the first `n` items, and those that exist. */
  ghost predicate Seen(normalize: Normaliser, items: seq<Item>, existing: set<string>, n: nat, seen: set<string>)
    requires n <= |items|
  {
    forall name | name != "" :: name in seen <==> name in existing || exists j | 0 <= j < n :: NameOf(normalize, items[j]) == name
  }

  lemma SeenNext(normalize: Normaliser, items: seq<Item>, existing: set<string>, i: nat, seen: set<string>)
    requires i < |items| && Seen(normalize, items, existing, i, seen)
    ensures var name, reason := NameOf(normalize, items[i]), SkipReason(normalize, items, existing, i);
            && reason == (if name == "" then Some(MissingName) else if name in seen then Some(DuplicateName) else None)
            && Seen(normalize, items, existing, i + 1, if name == "" || name in seen then seen else seen + {name})
  {
    var name := NameOf(normalize, items[i]);
    var next := if name == "" || name in seen then seen else seen + {name};
    forall other | other != ""
      ensures other in next <==> other in existing || exists j | 0 <= j < i + 1 :: NameOf(normalize, items[j]) == other
    {
      if other in next {
        if other == name {
          assert NameOf(normalize, items[i]) == other;
        } else if other !in existing {
          var j :| 0 <= j < i && NameOf(normalize, items[j]) == other;
        }
      } else {
        assert forall j | 0 <= j < i :: NameOf(normalize, items[j]) != other;
      }
    }
  }

  method Propose(normalize: Normaliser, items: seq<Item>, existing: set<string>) returns (proposed: seq<Proposed>)
    ensures Previewed(normalize, items, existing, proposed)
  {
    proposed := [];
    var seen := existing;
    for i := 0 to |items|
      invariant |proposed| == i && Seen(normalize, items, existing, i, seen)
      invariant forall j | 0 <= j < i ::
                  var reason := SkipReason(normalize, items, existing, j);
                  proposed[j] == Proposed(items[j], reason == None, reason, reason == None)
    {
      var name := NameOf(normalize, items[i]);
      SeenNext(normalize, items, existing, i, seen);
      if name == "" {
        proposed := proposed + [Proposed(items[i], false, Some(MissingName), false)];
      } else if name in seen {
        proposed := proposed + [Proposed(items[i], false, Some(DuplicateName), false)];
      } else {
        proposed := proposed + [Proposed(items[i], true, None, true)];
        seen := seen + {name};
      }
    }
  }

  // ---------------------------------------------------------------------------
  // Apply
  // ---------------------------------------------------------------------------

  predicate Wanted(normalize: Normaliser, p: Proposed) {
    p.create && p.selected && NameOf(normalize, p.item) != ""
  }

  /** The item at `i` is created: it is wanted, its name is not stored, and no wanted item before it has the name. */
  predicate Creates(normalize: Normaliser, proposed: seq<Proposed>, names: set<string>, i: nat)
    requires i < |proposed|
  {
    var name := NameOf(normalize, proposed[i].item);
    && Wanted(normalize, proposed[i]) && name !in names
    && forall j | 0 <= j < i && Wanted(normalize, proposed[j]) :: NameOf(normalize, proposed[j].item) != name
  }

  /** The items created among the first `n`, in order. */
  function Created(normalize: Normaliser, proposed: seq<Proposed>, names: set<string>, n: nat): seq<Item>
    requires n <= |proposed|
  {
    if n == 0 then []
    else Created(normalize, proposed, names, n - 1)
         + (if Creates(normalize, proposed, names, n - 1) then [proposed[n - 1].item] else [])
  }

  function AllCreated(normalize: Normaliser, proposed: seq<Proposed>, stored: seq<Item>): seq<Item> {
    Created(normalize, proposed, Names(normalize, stored), |proposed|)
  }

  /** The item is to be created: proposed so and still selected, with a name that is neither stored nor that of an
      earlier such item. */
  ghost predicate ToCreate(normalize: Normaliser, proposed: seq<Proposed>, stored: seq<Item>, i: nat)
    requires i < |proposed|
  {
    var name := NameText(normalize, proposed[i].item);
    && proposed[i].create && proposed[i].selected && name != "" && !Stored(normalize, stored, name)
    && forall j | 0 <= j < i && proposed[j].create && proposed[j].selected :: NameText(normalize, proposed[j].item) != name
  }

  /** The items are those to be created, in the order proposed. */
  ghost predicate CreatedAt(normalize: Normaliser, proposed: seq<Proposed>, stored: seq<Item>, n: nat, items: seq<Item>, positions: seq<nat>)
    requires n <= |proposed|
  {
    && (forall i | 0 <= i < |positions| :: positions[i] < n)
    && (forall i, j | 0 <= i < j < |positions| :: positions[i] < positions[j])
    && (forall i | 0 <= i < n :: i in positions <==> ToCreate(normalize, proposed, stored, i))
    && |items| == |positions| && forall i | 0 <= i < |items| :: items[i] == proposed[positions[i]].item
  }

  lemma CreatesMeans(normalize: Normaliser, proposed: seq<Proposed>, stored: seq<Item>, i: nat)
    requires i < |proposed|
    ensures Creates(normalize, proposed, Names(normalize, stored), i) <==> ToCreate(normalize, proposed, stored, i)
  {
    StoredNames(normalize, stored, NameText(normalize, proposed[i].item));
    assert forall j | 0 <= j <= i :: NameOf(normalize, proposed[j].item) == NameText(normalize, proposed[j].item);
  }

  lemma CreatedAtNext(normalize: Normaliser, proposed: seq<Proposed>, stored: seq<Item>, n: nat, items: seq<Item>,
                      positions: seq<nat>, creates: bool)
    requires n < |proposed| && CreatedAt(normalize, proposed, stored, n, items, positions)
    requires creates <==> ToCreate(normalize, proposed, stored, n)
    ensures CreatedAt(normalize, proposed, stored, n + 1, items + if creates then [proposed[n].item] else [],
                      positions + if creates then [n] else [])
  {
    var next := positions + if creates then [n] else [];
    forall i | 0 <= i < n + 1 ensures i in next <==> ToCreate(normalize, proposed, stored, i) {
      assert i in next <==> i in positions || (creates && i == n);
      assert i == n ==> i !in positions;
    }
  }

  lemma {:induction false} CreatedStand(normalize: Normaliser, proposed: seq<Proposed>, stored: seq<Item>, n: nat) returns (positions: seq<nat>)
    requires n <= |proposed|
    ensures CreatedAt(normalize, proposed, stored, n, Created(normalize, proposed, Names(normalize, stored), n), positions)
  {
    if n == 0 {
      positions := [];
    } else {
      var names := Names(normalize, stored);
      positions := CreatedStand(normalize, proposed, stored, n - 1);
      var creates := Creates(normalize, proposed, names, n - 1);
      CreatesMeans(normalize, proposed, stored, n - 1);
      CreatedAtNext(normalize, proposed, stored, n - 1, Created(normalize, proposed, names, n - 1), positions, creates);
      positions := positions + if creates then [n - 1] else [];
    }
  }

  /** The store has kept what it had and gained, in order, exactly the items to create. */
  ghost predicate Gained(normalize: Normaliser, proposed: seq<Proposed>, stored: seq<Item>, grown: seq<Item>) {
    && |stored| <= |grown| && grown[..|stored|] == stored
    && exists positions :: CreatedAt(normalize, proposed, stored, |proposed|, grown[|stored|..], positions)
  }

  class Repository {
    const normalize: Normaliser
    var records: Records

    constructor (normalize: Normaliser, records: Records)
      ensures this.normalize == normalize && this.records == records
    {
      this.normalize, this.records := normalize, records;
    }

    method Preview(extracted: Extracted) returns (proposal: Proposal)
      ensures Previewed(normalize, extracted.objectives, Names(normalize, records.objectives), proposal.objectives)
      ensures Previewed(normalize, extracted.kpis, Names(normalize, records.kpis), proposal.kpis)
      ensures Previewed(normalize, extracted.initiatives, Names(normalize, records.initiatives), proposal.initiatives)
      ensures Marked(normalize, extracted.objectives, records.objectives, proposal.objectives)
      ensures Marked(normalize, extracted.kpis, records.kpis, proposal.kpis)
      ensures Marked(normalize, extracted.initiatives, records.initiatives, proposal.initiatives)
    {
      var objectives := Propose(normalize, extracted.objectives, Names(normalize, records.objectives));
      var kpis := Propose(normalize, extracted.kpis, Names(normalize, records.kpis));
      var initiatives := Propose(normalize, extracted.initiatives, Names(normalize, records.initiatives));
      PreviewedIsMarked(normalize, extracted.objectives, records.objectives, objectives);
      PreviewedIsMarked(normalize, extracted.kpis, records.kpis, kpis);
      PreviewedIsMarked(normalize, extracted.initiatives, records.initiatives, initiatives);
      return Proposal(objectives, kpis, initiatives);
    }

    method ApplyTo(stored: seq<Item>, proposed: seq<Proposed>)
      returns (grown: seq<Item>, created: nat, skipped: nat, ghost positions: seq<nat>)
      ensures |stored| <= |grown| && grown[..|stored|] == stored && created == |positions|
      ensures CreatedAt(normalize, proposed, stored, |proposed|, grown[|stored|..], positions)
      ensures grown == stored + AllCreated(normalize, proposed, stored)
      ensures created == |AllCreated(normalize, proposed, stored)| && created + skipped == |proposed|
    {
      grown, created, skipped := stored, 0, 0;
      var names := Names(normalize, stored);
      ghost var before := names;
      for i := 0 to |proposed|
        invariant grown == stored + Created(normalize, proposed, before, i)
        invariant created == |Created(normalize, proposed, before, i)| && created + skipped == i
        invariant forall name | name != "" ::
                    name in names <==>
                    name in before || exists j | 0 <= j < i :: Wanted(normalize, proposed[j]) && NameOf(normalize, proposed[j].item) == name
      {
        var p := proposed[i];
        var name := NameOf(normalize, p.item);
        if !p.create || !p.selected || name == "" || name in names {
          skipped := skipped + 1;
        } else {
          grown := grown + [p.item];
          names := names + {name};
          created := created + 1;
        }
      }
      positions := CreatedStand(normalize, proposed, stored, |proposed|);
      assert grown[|stored|..] == AllCreated(normalize, proposed, stored);
    }

    /** One read and one write of the whole store. */
    method Apply(proposal: Proposal) returns (result: ApplyResult)
      modifies this
      ensures records == Applied(normalize, proposal, old(records))
      ensures Gained(normalize, proposal.objectives, old(records).objectives, records.objectives)
      ensures Gained(normalize, proposal.kpis, old(records).kpis, records.kpis)
      ensures Gained(normalize, proposal.initiatives, old(records).initiatives, records.initiatives)
      ensures result.createdObjectives == |records.objectives| - |old(records).objectives|
      ensures result.createdKpis == |records.kpis| - |old(records).kpis|
      ensures result.createdInitiatives == |records.initiatives| - |old(records).initiatives|
      ensures result.createdObjectives + result.createdKpis + result.createdInitiatives + result.skipped ==
              |proposal.objectives| + |proposal.kpis| + |proposal.initiatives|
    {
      var data := records;
      var objectives, o, so, _ := ApplyTo(data.objectives, proposal.objectives);
      var kpis, k, sk, _ := ApplyTo(data.kpis, proposal.kpis);
      var initiatives, i, si, _ := ApplyTo(data.initiatives, proposal.initiatives);
      records := Records(objectives, kpis, initiatives);
      return ApplyResult(o, k, i, so + sk + si);
    }
  }

  function Applied(normalize: Normaliser, proposal: Proposal, data: Records): Records {
    Records(
      data.objectives + AllCreated(normalize, proposal.objectives, data.objectives),
      data.kpis + AllCreated(normalize, proposal.kpis, data.kpis),
      data.initiatives + AllCreated(normalize, proposal.initiatives, data.initiatives))
  }

  // ---------------------------------------------------------------------------
  // What applying keeps
  // ---------------------------------------------------------------------------

  ghost predicate UniqueNames(normalize: Normaliser, stored: seq<Item>) {
    forall i, j | 0 <= i < j < |stored| && Named(normalize, stored[i]) && Named(normalize, stored[j]) ::
      NameOf(normalize, stored[i]) != NameOf(normalize, stored[j])
  }

  /** A record with a name that is not blank. */
  predicate Named(normalize: Normaliser, item: Item) {
    item.name.Some? && item.name.value != "" && NameOf(normalize, item) != ""
  }

  lemma NamesGrow(normalize: Normaliser, stored: seq<Item>, item: Item)
    ensures Names(normalize, stored + [item]) ==
            Names(normalize, stored) + (if item.name.Some? && item.name.value != "" then {NameOf(normalize, item)} else {})
  {
    var grown := stored + [item];
    assert grown[|stored|] == item;
    forall name | name in Names(normalize, stored) ensures name in Names(normalize, grown) {
      var i :| 0 <= i < |stored| && stored[i].name.Some? && stored[i].name.value != "" && NameOf(normalize, stored[i]) == name;
      assert grown[i] == stored[i];
    }
    forall name | name in Names(normalize, grown) && name !in Names(normalize, stored)
      ensures item.name.Some? && item.name.value != "" && name == NameOf(normalize, item)
    {
      var i :| 0 <= i < |grown| && grown[i].name.Some? && grown[i].name.value != "" && NameOf(normalize, grown[i]) == name;
      assert i < |stored| ==> grown[i] == stored[i];
    }
  }

  /** The names stored after the first `n` items have been applied. */
  lemma {:induction false} NamesAfter(normalize: Normaliser, proposed: seq<Proposed>, stored: seq<Item>, n: nat)
    requires n <= |proposed| && normalize("") == ""
    ensures var names := Names(normalize, stored);
            forall name | name != "" ::
              name in Names(normalize, stored + Created(normalize, proposed, names, n)) <==>
              name in names || exists j | 0 <= j < n :: Wanted(normalize, proposed[j]) && NameOf(normalize, proposed[j].item) == name
  {
    var names := Names(normalize, stored);
    if n == 0 {
      assert stored + Created(normalize, proposed, names, 0) == stored;
    } else {
      NamesAfter(normalize, proposed, stored, n - 1);
      var before := stored + Created(normalize, proposed, names, n - 1);
      if Creates(normalize, proposed, names, n - 1) {
        NamesGrow(normalize, before, proposed[n - 1].item);
        assert stored + Created(normalize, proposed, names, n) == before + [proposed[n - 1].item];
      } else {
        assert stored + Created(normalize, proposed, names, n) == before;
      }
    }
  }

  /** However stale the proposal, no two stored records come to share a name. */
  lemma {:induction false} NamesStayUnique(normalize: Normaliser, proposed: seq<Proposed>, stored: seq<Item>, n: nat)
    requires n <= |proposed| && normalize("") == "" && UniqueNames(normalize, stored)
    ensures UniqueNames(normalize, stored + Created(normalize, proposed, Names(normalize, stored), n))
  {
    var names := Names(normalize, stored);
    if n == 0 {
      assert stored + Created(normalize, proposed, names, 0) == stored;
    } else {
      NamesStayUnique(normalize, proposed, stored, n - 1);
      var before := stored + Created(normalize, proposed, names, n - 1);
      if Creates(normalize, proposed, names, n - 1) {
        NamesAfter(normalize, proposed, stored, n - 1);
        assert stored + Created(normalize, proposed, names, n) == before + [proposed[n - 1].item];
      } else {
        assert stored + Created(normalize, proposed, names, n) == before;
      }
    }
  }

  /** Applying the same proposal again creates nothing. */
  lemma SecondApplyCreatesNothing(normalize: Normaliser, proposed: seq<Proposed>, stored: seq<Item>)
    requires normalize("") == ""
    ensures AllCreated(normalize, proposed, stored + AllCreated(normalize, proposed, stored)) == []
  {
    NamesAfter(normalize, proposed, stored, |proposed|);
    var names := Names(normalize, stored + AllCreated(normalize, proposed, stored));
    forall i | 0 <= i < |proposed| ensures !Creates(normalize, proposed, names, i) {
    }
    NothingCreated(normalize, proposed, names, |proposed|);
  }

  lemma {:induction false} NothingCreated(normalize: Normaliser, proposed: seq<Proposed>, names: set<string>, n: nat)
    requires n <= |proposed| && forall i | 0 <= i < |proposed| :: !Creates(normalize, proposed, names, i)
    ensures Created(normalize, proposed, names, n) == []
  {
    if n > 0 {
      NothingCreated(normalize, proposed, names, n - 1);
    }
  }

  lemma ApplyTwice(normalize: Normaliser, proposal: Proposal, data: Records)
    requires normalize("") == ""
    ensures Applied(normalize, proposal, Applied(normalize, proposal, data)) == Applied(normalize, proposal, data)
  {
    SecondApplyCreatesNothing(normalize, proposal.objectives, data.objectives);
    SecondApplyCreatesNothing(normalize, proposal.kpis, data.kpis);
    SecondApplyCreatesNothing(normalize, proposal.initiatives, data.initiatives);
  }

  /** A preview applied to the store it was made from creates exactly the items it says it will. */
  lemma FreshPreviewCreatesItsItems(normalize: Normaliser, items: seq<Item>, stored: seq<Item>, proposed: seq<Proposed>, i: nat)
    requires Previewed(normalize, items, Names(normalize, stored), proposed) && i < |proposed|
    ensures Creates(normalize, proposed, Names(normalize, stored), i) <==> proposed[i].create
  {
    var reason := SkipReason(normalize, items, Names(normalize, stored), i);
    assert proposed[i] == Proposed(items[i], reason == None, reason, reason == None);
    forall j | 0 <= j < i && Wanted(normalize, proposed[j]) ensures proposed[j].item == items[j] {
    }
    if Creates(normalize, proposed, Names(normalize, stored), i) {
      assert proposed[i].create;
    }
  }
}
