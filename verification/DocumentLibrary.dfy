/**
 * The document registry: which documents are listed, in which state, and which one is selected
 * (services/pixelrag/spm_poc/documents.py, services/pixelrag/spm_poc/visual_documents.py).
 *
 * The registry is loaded, edited and saved by every operation; loading puts the built-in document in front.
 */
module DocumentLibrary {
  import opened Wrappers

  datatype Status = Uploaded | Processing | Ready | Failed

  datatype Record = Record(id: string, name: string, status: Status, size: nat, legacy: bool)

  datatype State = State(selected: Option<string>, documents: seq<Record>)

  datatype Error = NotFound | NotReady | Protected | Unsupported | Empty | TooLarge | Unreadable | IndexMissing | IndexFailed

  datatype Result<T> = Ok(value: T) | Err(error: Error)

  const LEGACY_ID := "legacy-spm"
  const MAX_BYTES := 50 * 1024 * 1024

  // ---------------------------------------------------------------------------
  // Registry states
  // ---------------------------------------------------------------------------

  /** The position of a document in the list, or its length. */
  function Find(documents: seq<Record>, id: string): (i: nat)
    ensures i <= |documents|
    ensures i < |documents| ==> documents[i].id == id
    ensures forall j | 0 <= j < i :: documents[j].id != id
  {
    if documents == [] || documents[0].id == id then 0 else 1 + Find(documents[1..], id)
  }

  predicate Listed(state: State, id: string) {
    Find(state.documents, id) < |state.documents|
  }

  ghost predicate DistinctIds(documents: seq<Record>) {
    forall i, j | 0 <= i < j < |documents| :: documents[i].id != documents[j].id
  }

  /** Ids are not repeated, the selected document is listed, and only the built-in one is marked legacy. */
  ghost predicate Sound(state: State) {
    && DistinctIds(state.documents)
    && (forall i | 0 <= i < |state.documents| :: state.documents[i].legacy <==> state.documents[i].id == LEGACY_ID)
    && (state.selected.Some? ==> Listed(state, state.selected.value))
  }

  /** The built-in document is put in front when its file is there and it is not listed yet. */
  function WithLegacySeed(state: State, legacy: Option<Record>): State {
    if legacy == None || Listed(state, LEGACY_ID) then state
    else State(if state.selected == None then Some(legacy.value.id) else state.selected, [legacy.value] + state.documents)
  }

  lemma SeedKeepsSound(state: State, legacy: Option<Record>)
    requires Sound(state) && (legacy.Some? ==> legacy.value.id == LEGACY_ID && legacy.value.legacy)
    ensures Sound(WithLegacySeed(state, legacy))
    ensures WithLegacySeed(WithLegacySeed(state, legacy), legacy) == WithLegacySeed(state, legacy)
    ensures legacy.Some? ==> Listed(WithLegacySeed(state, legacy), LEGACY_ID)
    ensures state.selected.Some? || Listed(state, LEGACY_ID) || legacy == None ==>
              WithLegacySeed(state, legacy).selected == state.selected
    ensures state.selected == None && !Listed(state, LEGACY_ID) && legacy.Some? ==>
              WithLegacySeed(state, legacy).selected == Some(LEGACY_ID)
    ensures WithLegacySeed(state, legacy).documents == (if legacy == None || Listed(state, LEGACY_ID) then [] else [legacy.value]) + state.documents
    ensures forall id :: Listed(state, id) ==> Listed(WithLegacySeed(state, legacy), id)
  {
    var seeded := WithLegacySeed(state, legacy);
    if seeded != state {
      forall id | Listed(state, id) ensures Listed(seeded, id) {
        assert seeded.documents[Find(state.documents, id) + 1].id == id;
      }
      assert seeded.documents[0].id == LEGACY_ID;
      assert forall i | 0 <= i < |state.documents| :: state.documents[i].id != LEGACY_ID;
    }
  }

  /** The list without a document. */
  function Without(documents: seq<Record>, id: string): seq<Record> {
    if documents == [] then []
    else (if documents[0].id == id then [] else [documents[0]]) + Without(documents[1..], id)
  }

  lemma {:induction false} WithoutMembers(documents: seq<Record>, id: string)
    ensures forall r :: r in Without(documents, id) <==> r in documents && r.id != id
  {
    if documents != [] {
      WithoutMembers(documents[1..], id);
      assert documents == [documents[0]] + documents[1..];
    }
  }

  /** What is left of a list with no id twice has no id twice. */
  lemma {:induction false} WithoutStaysDistinct(documents: seq<Record>, id: string)
    requires DistinctIds(documents)
    ensures DistinctIds(Without(documents, id))
  {
    if documents != [] {
      WithoutStaysDistinct(documents[1..], id);
      WithoutMembers(documents[1..], id);
      var rest := Without(documents[1..], id);
      forall i | 0 <= i < |rest| ensures rest[i].id != documents[0].id {
        assert rest[i] in documents[1..];
      }
      if documents[0].id == id {
        assert Without(documents, id) == rest;
      } else {
        assert Without(documents, id) == [documents[0]] + rest;
      }
    }
  }

  /** The list without the one document that has the id. */
  lemma {:induction false} WithoutIsCut(documents: seq<Record>, id: string)
    requires DistinctIds(documents)
    ensures var i := Find(documents, id);
            Without(documents, id) == if i < |documents| then documents[..i] + documents[i + 1..] else documents
  {
    if documents != [] {
      WithoutIsCut(documents[1..], id);
      if documents[0].id == id {
        assert Find(documents[1..], id) == |documents[1..]|;
      }
    }
  }

  /** The id is that of the first ready document, or none when no document is ready. */
  ghost predicate IsFirstReady(documents: seq<Record>, id: Option<string>) {
    match id
    case None => forall i | 0 <= i < |documents| :: documents[i].status != Ready
    case Some(first) =>
      exists i | 0 <= i < |documents| ::
        documents[i].id == first && documents[i].status == Ready && forall j | 0 <= j < i :: documents[j].status != Ready
  }

  /** The first ready document. */
  function FirstReady(documents: seq<Record>): (id: Option<string>)
    ensures id == None <==> forall i | 0 <= i < |documents| :: documents[i].status != Ready
    ensures id.Some? ==> exists i | 0 <= i < |documents| :: documents[i].id == id.value && documents[i].status == Ready
    ensures IsFirstReady(documents, id)
  {
    if documents == [] then None
    else if documents[0].status == Ready then Some(documents[0].id)
    else
      var id := FirstReady(documents[1..]);
      assert id.Some? ==> exists i | 1 <= i < |documents| ::
                 documents[1..][i - 1] == documents[i] && documents[i].id == id.value && documents[i].status == Ready
                 && forall j | 0 <= j < i :: documents[j].status != Ready;
      id
  }

  lemma ReplaceKeepsSound(state: State, i: nat, r: Record)
    requires Sound(state) && i < |state.documents|
    requires r.id == state.documents[i].id && r.legacy == state.documents[i].legacy
    ensures Sound(state.(documents := state.documents[i := r]))
    ensures forall id :: Listed(state.(documents := state.documents[i := r]), id) <==> Listed(state, id)
  {
    var next := state.(documents := state.documents[i := r]);
    forall id ensures Listed(next, id) <==> Listed(state, id) {
      var j, k := Find(state.documents, id), Find(next.documents, id);
      if j < |state.documents| {
        assert next.documents[j].id == id;
      }
      if k < |next.documents| {
        assert state.documents[k].id == id;
      }
    }
  }

  lemma AddKeepsSound(state: State, r: Record)
    requires Sound(state) && !Listed(state, r.id) && (r.legacy <==> r.id == LEGACY_ID)
    ensures Sound(state.(documents := state.documents + [r]))
    ensures forall id :: Listed(state.(documents := state.documents + [r]), id) <==> Listed(state, id) || id == r.id
  {
    var next := state.(documents := state.documents + [r]);
    forall id ensures Listed(next, id) <==> Listed(state, id) || id == r.id {
      var j, k := Find(state.documents, id), Find(next.documents, id);
      if j < |state.documents| {
        assert next.documents[j].id == id;
      }
      assert next.documents[|state.documents|] == r;
      if k < |state.documents| {
        assert state.documents[k].id == id;
      }
    }
  }

  lemma RemoveKeepsSound(state: State, id: string, next: State)
    requires Sound(state) && Listed(state, id)
    requires next.documents == Without(state.documents, id)
    requires next.selected == if state.selected == Some(id) then FirstReady(next.documents) else state.selected
    ensures Sound(next)
    ensures forall other :: Listed(next, other) <==> Listed(state, other) && other != id
  {
    WithoutStaysDistinct(state.documents, id);
    WithoutMembers(state.documents, id);
    forall other ensures Listed(next, other) <==> Listed(state, other) && other != id {
      var j, k := Find(state.documents, other), Find(next.documents, other);
      if j < |state.documents| && other != id {
        assert state.documents[j] in next.documents;
      }
      if k < |next.documents| {
        assert next.documents[k] in state.documents;
      }
    }
    forall i | 0 <= i < |next.documents| ensures next.documents[i].legacy <==> next.documents[i].id == LEGACY_ID {
      assert next.documents[i] in state.documents;
    }
  }

  // ---------------------------------------------------------------------------
  // The library
  // ---------------------------------------------------------------------------

  class Library {
    /** The built-in document, when its file is there. */
    const legacy: Option<Record>
    const legacyIndexed: bool
    const supported: string -> bool
    /** What the registry file holds; None when it is missing or cannot be read. */
    var registry: Option<State>

    ghost predicate Valid()
      reads this
    {
      && (legacy.Some? ==> legacy.value.id == LEGACY_ID && legacy.value.legacy)
      && (registry.Some? ==> Sound(registry.value))
    }

    function Load(): State
      reads this
    {
      WithLegacySeed(if registry.Some? then registry.value else State(None, []), legacy)
    }

    lemma LoadIsSound()
      requires Valid()
      ensures Sound(Load())
    {
      var stored := if registry.Some? then registry.value else State(None, []);
      SeedKeepsSound(stored, legacy);
    }

    constructor (legacy: Option<Record>, legacyIndexed: bool, supported: string -> bool)
      requires legacy.Some? ==> legacy.value.id == LEGACY_ID && legacy.value.legacy
      ensures Valid() && registry == None
    {
      this.legacy, this.legacyIndexed, this.supported := legacy, legacyIndexed, supported;
      registry := None;
    }

    /** After a save the next load gives the saved state back. */
    method Save(state: State)
      requires Valid() && Sound(state) && (legacy.Some? ==> Listed(state, LEGACY_ID))
      modifies this
      ensures Valid() && Load() == state
    {
      registry := Some(state);
    }

    method ListState() returns (state: State)
      requires Valid()
      modifies this
      ensures Valid() && state == old(Load()) == Load()
    {
      LoadIsSound();
      state := Load();
      Save(state);
    }

    method Select(id: string) returns (result: Result<Record>)
      requires Valid()
      modifies this
      ensures Valid()
      ensures result == (
                var state := old(Load());
                if !Listed(state, id) then Err(NotFound)
                else if state.documents[Find(state.documents, id)].status != Ready then Err(NotReady)
                else Ok(state.documents[Find(state.documents, id)]))
      ensures Load() == if result.Ok? then old(Load()).(selected := Some(id)) else old(Load())
    {
      LoadIsSound();
      var state := Load();
      var i := Find(state.documents, id);
      if i == |state.documents| {
        return Err(NotFound);
      }
      if state.documents[i].status != Ready {
        return Err(NotReady);
      }
      Save(state.(selected := Some(id)));
      return Ok(state.documents[i]);
    }

    /** `pages` is what normalising to PDF gives, or None when it fails; `id` is generated. */
    method Upload(name: string, size: nat, pages: Option<nat>, id: string) returns (result: Result<Record>)
      requires Valid() && !Listed(Load(), id) && id != LEGACY_ID
      modifies this
      ensures Valid()
      ensures result == (
                if !supported(name) then Err(Unsupported)
                else if size == 0 then Err(Empty)
                else if size > MAX_BYTES then Err(TooLarge)
                else if pages == None then Err(Unreadable)
                else Ok(Record(id, name, Uploaded, size, false)))
      ensures Load() == if result.Ok? then old(Load()).(documents := old(Load()).documents + [result.value]) else old(Load())
    {
      if !supported(name) {
        return Err(Unsupported);
      }
      if size == 0 {
        return Err(Empty);
      }
      if size > MAX_BYTES {
        return Err(TooLarge);
      }
      if pages == None {
        return Err(Unreadable);
      }
      var record := Record(id, name, Uploaded, size, false);
      LoadIsSound();
      var state := Load();
      AddKeepsSound(state, record);
      Save(state.(documents := state.documents + [record]));
      return Ok(record);
    }

    method SetStatus(id: string, status: Status) returns (record: Record)
      requires Valid() && Listed(Load(), id)
      modifies this
      ensures Valid()
      ensures var state := old(Load());
              var i := Find(state.documents, id);
              record == state.documents[i].(status := status) && Load() == state.(documents := state.documents[i := record])
    {
      LoadIsSound();
      var state := Load();
      var i := Find(state.documents, id);
      record := state.documents[i].(status := status);
      ReplaceKeepsSound(state, i, record);
      Save(state.(documents := state.documents[i := record]));
    }

    /** `built` tells whether the indexer ends with its artifacts in place. */
    method Index(id: string, built: bool) returns (result: Result<Record>)
      requires Valid()
      modifies this
      ensures Valid()
      ensures forall other :: Listed(Load(), other) <==> Listed(old(Load()), other)
      ensures !Listed(old(Load()), id) ==> result == Err(NotFound) && Load() == old(Load())
      ensures Listed(old(Load()), id) ==>
                var before := old(Load());
                var i := Find(before.documents, id);
                var record := before.documents[i];
                var works := if record.legacy then legacyIndexed else built;
                && result == (if works then Ok(record.(status := Ready)) else Err(if record.legacy then IndexMissing else IndexFailed))
                && Load().documents == before.documents[i := AfterIndex(record, works)]
                && Load().selected == (if works && !record.legacy then Some(id) else before.selected)
    {
      LoadIsSound();
      var state := Load();
      var i := Find(state.documents, id);
      if i == |state.documents| {
        return Err(NotFound);
      }
      var record := state.documents[i];
      if record.legacy {
        if legacyIndexed {
          record := SetStatus(id, Ready);
          ReplaceKeepsSound(state, i, record);
          return Ok(record);
        }
        assert state.documents[i := record] == state.documents;
        return Err(IndexMissing);
      }
      record := SetStatus(id, Processing);
      ReplaceKeepsSound(state, i, record);
      ghost var processing := Load();
      assert Find(processing.documents, id) == i;
      record := SetStatus(id, if built then Ready else Failed);
      ReplaceKeepsSound(processing, i, record);
      assert Load().documents == state.documents[i := record];
      if !built {
        return Err(IndexFailed);
      }
      assert Find(Load().documents, id) == i;
      var selected := Select(id);
      return Ok(record);
    }

    /** What indexing makes of a record; a missing built-in index leaves that record as it is. */
    function AfterIndex(record: Record, works: bool): Record {
      if works then record.(status := Ready)
      else if record.legacy then record
      else record.(status := Failed)
    }

    /** Removes a document; when it was selected, the first ready one that remains takes its place. */
    method Delete(id: string) returns (result: Result<Option<string>>)
      requires Valid()
      modifies this
      ensures Valid()
      ensures result.Err? ==> Load() == old(Load())
      ensures result.Err? <==> id == LEGACY_ID || !Listed(old(Load()), id)
      ensures result.Err? ==> result.error == if id == LEGACY_ID then Protected else NotFound
      ensures result.Ok? ==>
                var before := old(Load());
                && Load().documents == Without(before.documents, id) && result.value == Load().selected
                && Load().selected == (if before.selected == Some(id) then FirstReady(Load().documents) else before.selected)
                && forall other :: Listed(Load(), other) <==> Listed(before, other) && other != id
      ensures result.Ok? ==>
                var before := old(Load());
                && (exists i | 0 <= i < |before.documents| && before.documents[i].id == id ::
                      Load().documents == before.documents[..i] + before.documents[i + 1..])
                && (before.selected == Some(id) ==> IsFirstReady(Load().documents, Load().selected))
                && (before.selected != Some(id) ==> Load().selected == before.selected)
    {
      if id == LEGACY_ID {
        return Err(Protected);
      }
      LoadIsSound();
      var state := Load();
      if !Listed(state, id) {
        return Err(NotFound);
      }
      var remaining := Without(state.documents, id);
      WithoutIsCut(state.documents, id);
      var next := State(if state.selected == Some(id) then FirstReady(remaining) else state.selected, remaining);
      RemoveKeepsSound(state, id, next);
      Save(next);
      return Ok(next.selected);
    }
  }
}
