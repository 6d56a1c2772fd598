/** The watched folder: scanning it, remembering contents by fingerprint, and forgetting deleted documents
    (services/pixelrag/spm_poc/web.py, document_lifecycle.py). */
module Ingestion {
  import opened Wrappers
  import L = DocumentLibrary

  datatype File = File(name: string, content: string)

  /** What the history remembers of a content that was indexed. */
  datatype Entry = Entry(documentId: string, name: string, size: nat)

  /** What happens to one file of a scan: the pages it normalises to, if it does, and whether the indexer succeeds. */
  datatype Fate = Fate(pages: Option<nat>, built: bool)

  datatype FileResult =
    | Skipped(name: string, documentId: string, originalName: string)
    | Indexed(name: string, documentId: string)
    | Failed(name: string)

  /** What users ask of the library directly. */
  datatype Request =
    | List
    | Select(id: string)
    | Upload(name: string, size: nat, pages: Option<nat>, newId: string)
    | Index(id: string, built: bool)

  datatype ScanResult = Busy | Done(results: seq<FileResult>)

  function Keep(files: seq<File>, keep: string -> bool): seq<File> {
    if files == [] then []
    else Keep(files[..|files| - 1], keep) + (if keep(files[|files| - 1].name) then [files[|files| - 1]] else [])
  }

  lemma {:induction false} KeepMembers(files: seq<File>, keep: string -> bool)
    ensures forall f :: f in Keep(files, keep) <==> f in files && keep(f.name)
  {
    if files != [] {
      KeepMembers(files[..|files| - 1], keep);
      assert files == files[..|files| - 1] + [files[|files| - 1]];
    }
  }

  /** Some file among the first `n` with this fingerprint has been indexed. */
  ghost predicate IndexedBefore(fingerprint: string -> string, files: seq<File>, results: seq<FileResult>, n: nat, fp: string)
    requires |files| == |results| && n <= |files|
  {
    exists j | 0 <= j < n :: results[j].Indexed? && fingerprint(files[j].content) == fp
  }

  /** What the scan says of the file at `k`, given the history it started from and the history it leaves. */
  ghost predicate Judged(fingerprint: string -> string, before: map<string, Entry>, after: map<string, Entry>,
                         files: seq<File>, results: seq<FileResult>, k: nat)
    requires |files| == |results| && k < |files|
  {
    var fp := fingerprint(files[k].content);
    && results[k].name == files[k].name
    && (results[k].Skipped? <==> fp in before || IndexedBefore(fingerprint, files, results, k, fp))
    && (results[k].Indexed? ==> fp in after && after[fp] == Entry(results[k].documentId, files[k].name, |files[k].content|))
    && (results[k].Skipped? ==>
          fp in after && results[k].documentId == after[fp].documentId && results[k].originalName == after[fp].name)
  }

  /** The results tell how the history came about: what it knew stays, and the contents indexed since are added. */
  ghost predicate Accounted(fingerprint: string -> string, before: map<string, Entry>, after: map<string, Entry>,
                            files: seq<File>, results: seq<FileResult>)
  {
    && |files| == |results|
    && (forall k | 0 <= k < |files| :: Judged(fingerprint, before, after, files, results, k))
    && (forall fp :: fp in after <==> fp in before || IndexedBefore(fingerprint, files, results, |files|, fp))
    && (forall fp | fp in before :: fp in after && after[fp] == before[fp])
  }

  lemma JudgedLater(fingerprint: string -> string, before: map<string, Entry>, middle: map<string, Entry>, after: map<string, Entry>,
                    files: seq<File>, results: seq<FileResult>, file: File, result: FileResult, k: nat)
    requires |files| == |results| && k < |files| && Judged(fingerprint, before, middle, files, results, k)
    requires forall fp | fp in middle :: fp in after && after[fp] == middle[fp]
    ensures Judged(fingerprint, before, after, files + [file], results + [result], k)
  {
    var fp := fingerprint(files[k].content);
    var all, said := files + [file], results + [result];
    if IndexedBefore(fingerprint, files, results, k, fp) {
      var j :| 0 <= j < k && results[j].Indexed? && fingerprint(files[j].content) == fp;
      assert said[j] == results[j] && all[j] == files[j];
    }
    if IndexedBefore(fingerprint, all, said, k, fp) {
      var j :| 0 <= j < k && said[j].Indexed? && fingerprint(all[j].content) == fp;
      assert said[j] == results[j] && all[j] == files[j];
    }
  }

  /** The kept files in order, with their places among all. */
  ghost predicate Stands(files: seq<File>, keep: string -> bool, kept: seq<File>, positions: seq<nat>) {
    && |kept| == |positions|
    && (forall k | 0 <= k < |positions| :: positions[k] < |files| && kept[k] == files[positions[k]])
    && (forall j, k | 0 <= j < k < |positions| :: positions[j] < positions[k])
    && (forall i | 0 <= i < |files| && keep(files[i].name) :: i in positions)
    && (forall k | 0 <= k < |kept| :: keep(kept[k].name))
  }

  lemma StandsNext(files: seq<File>, keep: string -> bool, kept: seq<File>, positions: seq<nat>, file: File)
    requires Stands(files, keep, kept, positions)
    ensures keep(file.name) ==> Stands(files + [file], keep, kept + [file], positions + [|files|])
    ensures !keep(file.name) ==> Stands(files + [file], keep, kept, positions)
  {
  }

  /** Exactly the files that are to be kept, in order. */
  lemma {:induction false} KeepStands(files: seq<File>, keep: string -> bool) returns (positions: seq<nat>)
    ensures Stands(files, keep, Keep(files, keep), positions)
  {
    if files == [] {
      positions := [];
    } else {
      var front, last := files[..|files| - 1], files[|files| - 1];
      positions := KeepStands(front, keep);
      StandsNext(front, keep, Keep(front, keep), positions, last);
      assert files == front + [last];
      if keep(last.name) {
        positions := positions + [|front|];
      }
    }
  }

  /** The file can be uploaded, and the indexer succeeds on it. */
  ghost predicate Works(file: File, fate: Fate) {
    fate.built && fate.pages != None && 0 < |file.content| <= 52428800
  }

  /** What is not skipped is indexed under the id meant for it, or fails, as it was fated. */
  ghost predicate AsFated(files: seq<File>, fates: seq<Fate>, ids: seq<string>, positions: seq<nat>, results: seq<FileResult>) {
    && |files| == |positions| == |results|
    && forall k | 0 <= k < |files| && !results[k].Skipped? ::
         && positions[k] < |fates| && positions[k] < |ids|
         && results[k] == if Works(files[k], fates[positions[k]]) then Indexed(files[k].name, ids[positions[k]])
                          else Failed(files[k].name)
  }

  /** The last file of its name among those that failed, or among those that did not. */
  ghost predicate LastMoved(files: seq<File>, results: seq<FileResult>, failing: bool, k: nat)
    requires |files| == |results| && k < |files|
  {
    && results[k].Failed? == failing
    && forall j | k < j < |files| && files[j].name == files[k].name :: results[j].Failed? != failing
  }

  /** Some file of this name failed, or some did not. */
  ghost predicate SomeMoved(files: seq<File>, results: seq<FileResult>, failing: bool, name: string)
    requires |files| == |results|
  {
    exists k | 0 <= k < |files| :: files[k].name == name && results[k].Failed? == failing
  }

  /** A folder has gained the files that failed, or those that did not, a later file of a name replacing an earlier one. */
  ghost predicate Moved(before: map<string, string>, after: map<string, string>,
                        files: seq<File>, results: seq<FileResult>, failing: bool)
  {
    && |files| == |results|
    && (forall k | 0 <= k < |files| && LastMoved(files, results, failing, k) ::
          files[k].name in after && after[files[k].name] == files[k].content)
    && (forall name | !SomeMoved(files, results, failing, name) ::
          (name in after <==> name in before) && (name in after ==> after[name] == before[name]))
  }

  lemma LastBefore(files: seq<File>, results: seq<FileResult>, failing: bool, file: File, result: FileResult, k: nat)
    requires |files| == |results| && k < |files| && LastMoved(files + [file], results + [result], failing, k)
    ensures LastMoved(files, results, failing, k) && (result.Failed? == failing ==> file.name != files[k].name)
  {
    var all, said := files + [file], results + [result];
    assert all[|files|] == file && said[|files|] == result;
    forall j | k < j < |files| && files[j].name == files[k].name ensures results[j].Failed? != failing {
      assert all[j] == files[j] && said[j] == results[j];
    }
  }

  lemma SomeMovedBefore(files: seq<File>, results: seq<FileResult>, failing: bool, file: File, result: FileResult, name: string)
    requires |files| == |results| && !SomeMoved(files + [file], results + [result], failing, name)
    ensures !SomeMoved(files, results, failing, name) && (result.Failed? == failing ==> file.name != name)
  {
    var all, said := files + [file], results + [result];
    assert all[|files|] == file && said[|files|] == result;
    forall k | 0 <= k < |files| && results[k].Failed? == failing ensures files[k].name != name {
      assert all[k] == files[k] && said[k] == results[k];
    }
  }

  lemma MovedNext(before: map<string, string>, now: map<string, string>, next: map<string, string>, files: seq<File>,
                  results: seq<FileResult>, failing: bool, file: File, result: FileResult)
    requires Moved(before, now, files, results, failing)
    requires next == if result.Failed? == failing then now[file.name := file.content] else now
    ensures Moved(before, next, files + [file], results + [result], failing)
  {
    var all, said := files + [file], results + [result];
    forall k | 0 <= k < |all| && LastMoved(all, said, failing, k)
      ensures all[k].name in next && next[all[k].name] == all[k].content
    {
      if k < |files| {
        LastBefore(files, results, failing, file, result, k);
        assert all[k] == files[k];
      }
    }
    forall name | !SomeMoved(all, said, failing, name)
      ensures (name in next <==> name in before) && (name in next ==> next[name] == before[name])
    {
      SomeMovedBefore(files, results, failing, file, result, name);
    }
  }

  /** The history of a runtime and the folders it moves files to. */
  datatype Stores = Stores(history: map<string, Entry>, processed: map<string, string>, failed: map<string, string>)

  /** The results tell what has become of the files and of the stores. */
  ghost predicate Told(fingerprint: string -> string, before: Stores, after: Stores, fates: seq<Fate>, ids: seq<string>,
                       files: seq<File>, positions: seq<nat>, results: seq<FileResult>)
  {
    && Accounted(fingerprint, before.history, after.history, files, results)
    && AsFated(files, fates, ids, positions, results)
    && Moved(before.processed, after.processed, files, results, false)
    && Moved(before.failed, after.failed, files, results, true)
  }

  /** What one file does to the stores. */
  ghost predicate FileTold(fingerprint: string -> string, before: Stores, after: Stores, file: File, fate: Fate, id: string,
                           result: FileResult)
  {
    var fp := fingerprint(file.content);
    && result.name == file.name
    && (result.Skipped? <==> fp in before.history)
    && (result.Skipped? ==>
          result.documentId == before.history[fp].documentId && result.originalName == before.history[fp].name)
    && (!result.Skipped? ==> result == if Works(file, fate) then Indexed(file.name, id) else Failed(file.name))
    && after.history == (if result.Indexed? then before.history[fp := Entry(id, file.name, |file.content|)] else before.history)
    && after.processed == (if result.Failed? then before.processed else before.processed[file.name := file.content])
    && after.failed == (if result.Failed? then before.failed[file.name := file.content] else before.failed)
  }

  lemma FatedNext(fates: seq<Fate>, ids: seq<string>, files: seq<File>, positions: seq<nat>, results: seq<FileResult>,
                  file: File, i: nat, result: FileResult)
    requires AsFated(files, fates, ids, positions, results) && i < |fates| && i < |ids|
    requires !result.Skipped? ==> result == if Works(file, fates[i]) then Indexed(file.name, ids[i]) else Failed(file.name)
    ensures AsFated(files + [file], fates, ids, positions + [i], results + [result])
  {
  }

  lemma ToldNext(fingerprint: string -> string, before: Stores, now: Stores, next: Stores, fates: seq<Fate>, ids: seq<string>,
                 files: seq<File>, positions: seq<nat>, results: seq<FileResult>, file: File, i: nat, result: FileResult)
    requires Told(fingerprint, before, now, fates, ids, files, positions, results) && i < |fates| && i < |ids|
    requires FileTold(fingerprint, now, next, file, fates[i], ids[i], result)
    ensures Told(fingerprint, before, next, fates, ids, files + [file], positions + [i], results + [result])
  {
    OneMoreJudged(fingerprint, before.history, now.history, next.history, files, results, file, result);
    FatedNext(fates, ids, files, positions, results, file, i, result);
    MovedNext(before.processed, now.processed, next.processed, files, results, false, file, result);
    MovedNext(before.failed, now.failed, next.failed, files, results, true, file, result);
  }

  class Runtime {
    const library: L.Library
    const fingerprint: string -> string
    var scanning: bool
    var history: map<string, Entry>
    var inbox: seq<File>
    var processed: map<string, string>
    var failed: map<string, string>

    /** Every entry of the history names a listed document. */
    ghost predicate Valid()
      reads this, library
    {
      library.Valid() && forall fp | fp in history :: L.Listed(library.Load(), history[fp].documentId)
    }

    ghost function Held(): Stores
      reads this
    {
      Stores(history, processed, failed)
    }

    constructor (library: L.Library, fingerprint: string -> string, inbox: seq<File>)
      requires library.Valid()
      ensures Valid() && this.library == library && this.inbox == inbox && history == map[] && !scanning
    {
      this.library, this.fingerprint, this.inbox := library, fingerprint, inbox;
      scanning, history, processed, failed := false, map[], map[], map[];
    }

    /** Uploads and indexes one file and remembers its content, or fails and remembers nothing. */
    method Ingest(file: File, fate: Fate, id: string) returns (result: FileResult)
      requires Valid() && library.supported(file.name) && fingerprint(file.content) !in history
      requires !L.Listed(library.Load(), id) && id != L.LEGACY_ID
      modifies this`history, library
      ensures Valid()
      ensures forall other :: L.Listed(old(library.Load()), other) ==> L.Listed(library.Load(), other)
      ensures forall other :: L.Listed(library.Load(), other) ==> L.Listed(old(library.Load()), other) || other == id
      ensures result == if Works(file, fate) then Indexed(file.name, id) else Failed(file.name)
      ensures history == if result.Indexed? then old(history)[fingerprint(file.content) := Entry(id, file.name, |file.content|)] else old(history)
      ensures result.Indexed? ==> library.Load().selected == Some(id)
    {
      library.LoadIsSound();
      ghost var before := library.Load();
      var uploaded := library.Upload(file.name, |file.content|, fate.pages, id);
      if uploaded.Err? {
        return Failed(file.name);
      }
      L.AddKeepsSound(before, uploaded.value);
      ghost var after := library.Load();
      var indexed := library.Index(id, fate.built);
      if indexed.Err? {
        return Failed(file.name);
      }
      history := history[fingerprint(file.content) := Entry(id, file.name, |file.content|)];
      return Indexed(file.name, id);
    }

    /** One supported file of a scan; it leaves the folder whatever happens to it. */
    method ScanFile(file: File, fate: Fate, id: string) returns (result: FileResult)
      requires Valid() && library.supported(file.name)
      requires !L.Listed(library.Load(), id) && id != L.LEGACY_ID
      modifies this`history, this`processed, this`failed, library
      ensures Valid() && FileTold(fingerprint, old(Held()), Held(), file, fate, id, result)
      ensures forall other :: L.Listed(old(library.Load()), other) ==> L.Listed(library.Load(), other)
      ensures forall other :: L.Listed(library.Load(), other) ==> L.Listed(old(library.Load()), other) || other == id
      ensures result.Indexed? ==> library.Load().selected == Some(id)
    {
      var fp := fingerprint(file.content);
      if fp in history {
        processed := processed[file.name := file.content];
        return Skipped(file.name, history[fp].documentId, history[fp].name);
      }
      result := Ingest(file, fate, id);
      if result.Failed? {
        failed := failed[file.name := file.content];
      } else {
        processed := processed[file.name := file.content];
      }
    }

    /**
     * One scan, with the fate of each file and the id generated for it. Every supported file leaves the folder with one result;
     * a content that the history knows, or that this scan has already indexed, is skipped, and any other is indexed or fails as
     * it was fated. `files` are the supported files, at `positions` in the folder.
     */
    method ScanIngestionFolder(fates: seq<Fate>, ids: seq<string>)
      returns (scan: ScanResult, ghost files: seq<File>, ghost positions: seq<nat>)
      requires Valid() && |fates| == |ids| == |inbox|
      requires forall i | 0 <= i < |ids| :: !L.Listed(library.Load(), ids[i]) && ids[i] != L.LEGACY_ID
      requires forall i, j | 0 <= i < j < |ids| :: ids[i] != ids[j]
      modifies this, library
      ensures Valid() && scanning == old(scanning)
      ensures forall id :: L.Listed(old(library.Load()), id) ==> L.Listed(library.Load(), id)
      ensures scan.Busy? <==> old(scanning)
      ensures scan.Busy? ==> Held() == old(Held()) && inbox == old(inbox) && library.Load() == old(library.Load())
      ensures scan.Done? ==>
                && inbox == Keep(old(inbox), name => !library.supported(name))
                && Stands(old(inbox), library.supported, files, positions)
                && Told(fingerprint, old(Held()), Held(), fates, ids, files, positions, scan.results)
    {
      if scanning {
        return Busy, [], [];
      }
      scanning := true;
      var results;
      results, files, positions := ScanAll(fates, ids);
      scanning := false;
      return Done(results), files, positions;
    }

    /** The scan itself, under its lock. */
    method ScanAll(fates: seq<Fate>, ids: seq<string>)
      returns (results: seq<FileResult>, ghost files: seq<File>, ghost positions: seq<nat>)
      requires Valid() && |fates| == |ids| == |inbox|
      requires forall i | 0 <= i < |ids| :: !L.Listed(library.Load(), ids[i]) && ids[i] != L.LEGACY_ID
      requires forall i, j | 0 <= i < j < |ids| :: ids[i] != ids[j]
      modifies this`inbox, this`history, this`processed, this`failed, library
      ensures Valid()
      ensures forall id :: L.Listed(old(library.Load()), id) ==> L.Listed(library.Load(), id)
      ensures inbox == Keep(old(inbox), name => !library.supported(name))
      ensures Stands(old(inbox), library.supported, files, positions)
      ensures Told(fingerprint, old(Held()), Held(), fates, ids, files, positions, results)
    {
      var all, remaining := inbox, [];
      results, files, positions := [], [], [];
      for i := 0 to |all|
        invariant Valid()
        invariant StandsSoFar(all, i, files, positions) && remaining == Keep(all[..i], name => !library.supported(name))
        invariant forall id :: L.Listed(old(library.Load()), id) ==> L.Listed(library.Load(), id)
        invariant forall j | i <= j < |ids| :: !L.Listed(library.Load(), ids[j])
        invariant ToldSoFar(old(Held()), Held(), fates, ids, files, positions, results)
      {
        assert all[..i + 1][..i] == all[..i] && all[..i + 1] == all[..i] + [all[i]];
        StandsNext(all[..i], library.supported, files, positions, all[i]);
        if library.supported(all[i].name) {
          results, files, positions := ScanNext(all[i], i, fates, ids, old(Held()), results, files, positions);
        } else {
          remaining := remaining + [all[i]];
        }
      }
      assert all[..|all|] == all;
      inbox := remaining;
    }

    ghost predicate StandsSoFar(all: seq<File>, n: nat, files: seq<File>, positions: seq<nat>)
      requires n <= |all|
    {
      forall kept | kept == files :: Stands(all[..n], library.supported, kept, positions)
    }

    ghost predicate ToldSoFar(before: Stores, after: Stores, fates: seq<Fate>, ids: seq<string>,
                              files: seq<File>, positions: seq<nat>, results: seq<FileResult>)
    {
      forall told | told == results :: Told(fingerprint, before, after, fates, ids, files, positions, told)
    }

    /** The next file of the scan, and its result. */
    method ScanNext(file: File, i: nat, fates: seq<Fate>, ids: seq<string>, ghost before: Stores,
                    results: seq<FileResult>, ghost files: seq<File>, ghost positions: seq<nat>)
      returns (results': seq<FileResult>, ghost files': seq<File>, ghost positions': seq<nat>)
      requires Valid() && library.supported(file.name) && i < |fates| && i < |ids|
      requires !L.Listed(library.Load(), ids[i]) && ids[i] != L.LEGACY_ID
      requires ToldSoFar(before, Held(), fates, ids, files, positions, results)
      modifies this`history, this`processed, this`failed, library
      ensures Valid() && ToldSoFar(before, Held(), fates, ids, files', positions', results')
      ensures files' == files + [file] && positions' == positions + [i]
      ensures forall id :: L.Listed(old(library.Load()), id) ==> L.Listed(library.Load(), id)
      ensures forall id :: L.Listed(library.Load(), id) ==> L.Listed(old(library.Load()), id) || id == ids[i]
    {
      var result := ScanFile(file, fates[i], ids[i]);
      ToldNext(fingerprint, before, old(Held()), Held(), fates, ids, files, positions, results, file, i, result);
      return results + [result], files + [file], positions + [i];
    }

    /** Deletes a document and forgets the contents that led to it, so that they can be ingested again. */
    method DeleteDocument(id: string) returns (result: L.Result<Option<string>>)
      requires Valid()
      modifies this`history, library
      ensures Valid()
      ensures result.Err? <==> id == L.LEGACY_ID || !L.Listed(old(library.Load()), id)
      ensures result.Err? ==> history == old(history) && library.Load() == old(library.Load())
      ensures result.Ok? ==>
                && history == (map fp | fp in old(history) && old(history)[fp].documentId != id :: old(history)[fp])
                && forall other :: L.Listed(library.Load(), other) <==> L.Listed(old(library.Load()), other) && other != id
    {
      result := library.Delete(id);
      if result.Ok? {
        history := map fp | fp in history && history[fp].documentId != id :: history[fp];
      }
    }

    /** No request of a user unlists a document, so the history stays true. */
    method Serve(request: Request)
      requires Valid()
      requires request.Upload? ==> !L.Listed(library.Load(), request.newId) && request.newId != L.LEGACY_ID
      modifies library
      ensures Valid()
      ensures forall id :: L.Listed(library.Load(), id) <==>
                           L.Listed(old(library.Load()), id) || (request.Upload? && id == request.newId && L.Listed(library.Load(), id))
    {
      library.LoadIsSound();
      ghost var before := library.Load();
      match request {
        case List => var state := library.ListState();
        case Select(id) => var selected := library.Select(id);
        case Upload(name, size, pages, newId) =>
          var uploaded := library.Upload(name, size, pages, newId);
          if uploaded.Ok? {
            L.AddKeepsSound(before, uploaded.value);
          }
        case Index(id, built) => var indexed := library.Index(id, built);
      }
    }

    /** The selected document, when there is one, is always a listed one. */
    lemma SelectedIsListed()
      requires Valid()
      ensures library.Load().selected.Some? ==> L.Listed(library.Load(), library.Load().selected.value)
    {
      library.LoadIsSound();
    }
  }

  lemma OneMoreJudged(fingerprint: string -> string, before: map<string, Entry>, known: map<string, Entry>, now: map<string, Entry>,
                      files: seq<File>, results: seq<FileResult>, file: File, result: FileResult)
    requires Accounted(fingerprint, before, known, files, results) && result.name == file.name
    requires var fp := fingerprint(file.content);
             && (result.Skipped? <==> fp in known)
             && (result.Skipped? ==> result.documentId == known[fp].documentId && result.originalName == known[fp].name)
             && now == if result.Indexed? then known[fp := Entry(result.documentId, file.name, |file.content|)] else known
    ensures Accounted(fingerprint, before, now, files + [file], results + [result])
  {
    var all, said := files + [file], results + [result];
    forall fp ensures IndexedBefore(fingerprint, all, said, |files|, fp) <==> IndexedBefore(fingerprint, files, results, |files|, fp) {
      if IndexedBefore(fingerprint, files, results, |files|, fp) {
        var j :| 0 <= j < |files| && results[j].Indexed? && fingerprint(files[j].content) == fp;
        assert said[j] == results[j] && all[j] == files[j];
      }
      if IndexedBefore(fingerprint, all, said, |files|, fp) {
        var j :| 0 <= j < |files| && said[j].Indexed? && fingerprint(all[j].content) == fp;
        assert said[j] == results[j] && all[j] == files[j];
      }
    }
    forall k | 0 <= k < |all| ensures Judged(fingerprint, before, now, all, said, k) {
      if k < |files| {
        JudgedLater(fingerprint, before, known, now, files, results, file, result, k);
      }
    }
    forall fp ensures fp in now <==> fp in before || IndexedBefore(fingerprint, all, said, |all|, fp) {
      assert IndexedBefore(fingerprint, all, said, |all|, fp) <==>
             IndexedBefore(fingerprint, all, said, |files|, fp) || (said[|files|].Indexed? && fingerprint(all[|files|].content) == fp);
    }
  }
}
