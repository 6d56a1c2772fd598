/** The hash-chained audit journal: appending, verifying, and what the chain does and does not give away. */
module Journal {
  import opened Wrappers
  import opened Json
  import opened CanonicalJson

  type Digest = string -> string

  /** A hexadecimal digest: 64 digits for every text. */
  ghost predicate Hexadecimal(sha: Digest) {
    forall x :: |sha(x)| == 64 && '{' !in sha(x)
  }

  /** What an append records; `occurredAt` is the instant in ISO form, as it is hashed. */
  datatype Content = Content(
    sourceEventId: Option<string>,
    eventType: string,
    aggregateType: string,
    aggregateId: string,
    payload: Value,
    correlationId: Option<string>,
    actorUserId: Option<string>,
    occurredAt: string)

  datatype Row = Row(
    id: string,
    sequenceNumber: int,
    content: Content,
    previousHash: Option<string>,
    entryHash: string)

  // ---------------------------------------------------------------------------
  // The hashed text
  // ---------------------------------------------------------------------------

  function Digit(n: int): char
    requires 0 <= n < 10
  {
    "0123456789"[n]
  }

  function Digits(n: nat): string {
    if n < 10 then [Digit(n)] else Digits(n / 10) + [Digit(n % 10)]
  }

  function Decimal(n: int): string {
    if n < 0 then "-" + Digits(-n) else Digits(n)
  }

  lemma {:induction false} DigitsInjective(m: nat, n: nat)
    requires Digits(m) == Digits(n)
    ensures m == n
  {
    DigitsLength(m);
    DigitsLength(n);
    assert Digits(m)[|Digits(m)| - 1] == Digit(m % 10);
    assert Digits(n)[|Digits(n)| - 1] == Digit(n % 10);
    if m >= 10 {
      assert Digits(m / 10) == Digits(m)[..|Digits(m)| - 1];
      assert Digits(n / 10) == Digits(n)[..|Digits(n)| - 1];
      DigitsInjective(m / 10, n / 10);
    }
  }

  lemma DigitsLength(n: nat)
    ensures |Digits(n)| >= 1 && (|Digits(n)| == 1 <==> n < 10)
    ensures Digits(n)[0] != '-'
  {
  }

  lemma DecimalInjective(m: int, n: int)
    requires Decimal(m) == Decimal(n)
    ensures m == n
  {
    SignTells(m);
    SignTells(n);
    if m < 0 {
      CancelPrefix("-", Digits(-m), Digits(-n));
      DigitsInjective(-m, -n);
    } else {
      DigitsInjective(m, n);
    }
  }

  lemma SignTells(n: int)
    ensures Decimal(n) != "" && (Decimal(n)[0] == '-' <==> n < 0)
  {
    DigitsLength(if n < 0 then -n else n);
  }

  function Nullable(o: Option<string>): Value {
    match o
    case None => Null
    case Some(s) => Str(s)
  }

  function Hashable(before: KeyOrder, sequenceNumber: int, content: Content): Value {
    Obj([
      Entry("sourceEventId", Nullable(content.sourceEventId)),
      Entry("sequenceNumber", Str(Decimal(sequenceNumber))),
      Entry("eventType", Str(content.eventType)),
      Entry("aggregateType", Str(content.aggregateType)),
      Entry("aggregateId", Str(content.aggregateId)),
      Entry("payload", Canonical(before, content.payload)),
      Entry("correlationId", Nullable(content.correlationId)),
      Entry("actorUserId", Nullable(content.actorUserId)),
      Entry("occurredAt", Str(content.occurredAt))])
  }

  function OrEmpty(hash: Option<string>): string {
    match hash
    case None => ""
    case Some(s) => s
  }

  function HashedText(before: KeyOrder, previousHash: Option<string>, sequenceNumber: int, content: Content): string {
    OrEmpty(previousHash) + Text(Hashable(before, sequenceNumber, content))
  }

  /** How an entry is hashed: from the previous hash, the sequence number and the content. */
  type Hashing = (Option<string>, int, Content) -> string

  function EntryHash(sha: Digest, before: KeyOrder): Hashing {
    (previousHash, sequenceNumber, content) => sha(HashedText(before, previousHash, sequenceNumber, content))
  }

  /** The same content, apart from the order of keys in the payload. */
  ghost predicate SameContent(c: Content, d: Content) {
    SameUpToOrder(c.payload, d.payload) && c == d.(payload := c.payload)
  }

  lemma HashableWellFormed(before: KeyOrder, n: int, c: Content)
    requires WellFormed(c.payload)
    ensures WellFormed(Hashable(before, n, c))
  {
    CanonicalWellFormed(before, c.payload);
    var entries := Hashable(before, n, c).entries;
    forall i | 0 <= i < |entries| ensures WellFormed(entries[i].value) {
    }
  }

  lemma HashableDetermines(before: KeyOrder, m: int, c: Content, n: int, d: Content)
    requires Hashable(before, m, c) == Hashable(before, n, d)
    ensures m == n && SameContent(c, d)
  {
    var a, b := Hashable(before, m, c).entries, Hashable(before, n, d).entries;
    assert a[0] == b[0] && a[1] == b[1] && a[2] == b[2] && a[3] == b[3] && a[4] == b[4];
    assert a[5] == b[5] && a[6] == b[6] && a[7] == b[7] && a[8] == b[8];
    DecimalInjective(m, n);
    CanonicalDetermines(before, c.payload, d.payload);
  }

  /** A previous hash and a text that starts with a brace come apart again. */
  lemma SplitsAtBrace(a: string, b: string, r: string, s: string)
    requires '{' !in a && '{' !in b && a + r == b + s
    requires r != "" && r[0] == '{' && s != "" && s[0] == '{'
    ensures a == b && r == s
  {
    var x := a + r;
    assert x[|a|] == '{' && x[|b|] == '{';
    assert forall i | 0 <= i < |a| :: x[i] == a[i];
    assert forall i | 0 <= i < |b| :: x[i] == b[i];
    assert |a| == |b|;
    assert a == x[..|a|] && b == x[..|b|];
    CancelPrefix(a, r, s);
  }

  /** The hashed text gives back the previous hash, the sequence number and the content. */
  lemma HashedTextDetermines(before: KeyOrder, p: Option<string>, m: int, c: Content, q: Option<string>, n: int, d: Content)
    requires WellFormed(c.payload) && WellFormed(d.payload)
    requires '{' !in OrEmpty(p) && '{' !in OrEmpty(q)
    requires HashedText(before, p, m, c) == HashedText(before, q, n, d)
    ensures OrEmpty(p) == OrEmpty(q) && m == n && SameContent(c, d)
  {
    HashableWellFormed(before, m, c);
    HashableWellFormed(before, n, d);
    SplitsAtBrace(OrEmpty(p), OrEmpty(q), Text(Hashable(before, m, c)), Text(Hashable(before, n, d)));
    TextInjective(Hashable(before, m, c), Hashable(before, n, d));
    HashableDetermines(before, m, c, n, d);
  }

  /** `text` is what is hashed for an entry. */
  ghost predicate TextIs(before: KeyOrder, p: Option<string>, n: int, c: Content, text: string) {
    forall m | m == n :: text == HashedText(before, p, m, c)
  }

  lemma TextDetermines(before: KeyOrder, p: Option<string>, m: int, c: Content, q: Option<string>, n: int, d: Content, text: string)
    requires WellFormed(c.payload) && WellFormed(d.payload)
    requires '{' !in OrEmpty(p) && '{' !in OrEmpty(q)
    requires TextIs(before, p, m, c, text) && TextIs(before, q, n, d, text)
    ensures OrEmpty(p) == OrEmpty(q) && m == n && SameContent(c, d)
  {
    assert text == HashedText(before, p, m, c) && text == HashedText(before, q, n, d);
    HashedTextDetermines(before, p, m, c, q, n, d);
  }

  // ---------------------------------------------------------------------------
  // Verifying
  // ---------------------------------------------------------------------------

  datatype Reason = WrongSequence(expected: int) | WrongPreviousHash | WrongEntryHash

  datatype Verdict =
    | Intact(checkedEntries: nat)
    | Broken(checkedEntries: nat, sequenceNumber: int, id: string, reason: Reason)

  /** The hash the row at `k` should name as its predecessor's. */
  function PreviousHash(rows: seq<Row>, k: nat): Option<string>
    requires k <= |rows|
  {
    if k == 0 then None else Some(rows[k - 1].entryHash)
  }

  /** The first thing wrong with the row at `k`, if anything is. */
  function Fault(hash: Hashing, rows: seq<Row>, k: nat): Option<Reason>
    requires k < |rows|
  {
    var row := rows[k];
    if row.sequenceNumber != k + 1 then Some(WrongSequence(k + 1))
    else if row.previousHash != PreviousHash(rows, k) then Some(WrongPreviousHash)
    else if row.entryHash != hash(row.previousHash, k + 1, row.content) then Some(WrongEntryHash)
    else None
  }

  predicate Chain(hash: Hashing, rows: seq<Row>) {
    forall k | 0 <= k < |rows| :: Fault(hash, rows, k) == None
  }

  /** Checks the rows in sequence order and stops at the first fault. */
  method VerifyChain(hash: Hashing, rows: seq<Row>) returns (verdict: Verdict)
    ensures verdict.Intact? <==> Chain(hash, rows)
    ensures verdict.Intact? ==> verdict.checkedEntries == |rows|
    ensures verdict.Broken? ==>
              var k := verdict.checkedEntries;
              && k < |rows|
              && (forall i | 0 <= i < k :: Fault(hash, rows, i) == None)
              && Fault(hash, rows, k) == Some(verdict.reason)
              && verdict.sequenceNumber == rows[k].sequenceNumber && verdict.id == rows[k].id
  {
    var expectedPreviousHash: Option<string> := None;
    var expectedSequenceNumber := 1;
    for k := 0 to |rows|
      invariant expectedSequenceNumber == k + 1
      invariant expectedPreviousHash == PreviousHash(rows, k)
      invariant forall i | 0 <= i < k :: Fault(hash, rows, i) == None
    {
      var row := rows[k];
      if row.sequenceNumber != expectedSequenceNumber {
        assert Fault(hash, rows, k) == Some(WrongSequence(k + 1));
        return Broken(expectedSequenceNumber - 1, row.sequenceNumber, row.id, WrongSequence(expectedSequenceNumber));
      }
      if row.previousHash != expectedPreviousHash {
        assert Fault(hash, rows, k) == Some(WrongPreviousHash);
        return Broken(row.sequenceNumber - 1, row.sequenceNumber, row.id, WrongPreviousHash);
      }
      var expectedEntryHash := hash(expectedPreviousHash, row.sequenceNumber, row.content);
      if row.entryHash != expectedEntryHash {
        assert Fault(hash, rows, k) == Some(WrongEntryHash);
        return Broken(row.sequenceNumber - 1, row.sequenceNumber, row.id, WrongEntryHash);
      }
      expectedPreviousHash := Some(row.entryHash);
      expectedSequenceNumber := expectedSequenceNumber + 1;
    }
    return Intact(|rows|);
  }

  // ---------------------------------------------------------------------------
  // Appending
  // ---------------------------------------------------------------------------

  datatype Outcome = Existing(row: Row) | Appended(row: Row) | Refused

  /** The unique indexes, for a table listed in sequence order. */
  ghost predicate UniqueIndexes(rows: seq<Row>) {
    forall i, j | 0 <= i < j < |rows| :: Apart(rows[i], rows[j])
  }

  predicate Apart(earlier: Row, later: Row) {
    && earlier.sequenceNumber < later.sequenceNumber
    && earlier.entryHash != later.entryHash
    && (earlier.content.sourceEventId.Some? ==> earlier.content.sourceEventId != later.content.sourceEventId)
  }

  /** An event id that appends deduplicate on: present and not empty. */
  predicate Deduplicated(source: Option<string>) {
    source.Some? && source.value != ""
  }

  ghost predicate Recorded(rows: seq<Row>, source: Option<string>) {
    exists k | 0 <= k < |rows| :: rows[k].content.sourceEventId == source
  }

  /** The row an append writes when nothing stands in its way. */
  function Next(hash: Hashing, rows: seq<Row>, input: Content, id: string): Row {
    var sequenceNumber := if rows == [] then 1 else rows[|rows| - 1].sequenceNumber + 1;
    var previousHash := PreviousHash(rows, |rows|);
    Row(id, sequenceNumber, input, previousHash, hash(previousHash, sequenceNumber, input))
  }

  /** A row the unique indexes do not let in. */
  ghost predicate Clashes(rows: seq<Row>, row: Row) {
    exists k | 0 <= k < |rows| :: !Apart(rows[k], row)
  }

  /** What an append does to the table and answers. */
  ghost predicate Appends(hash: Hashing, rows: seq<Row>, input: Content, id: string, after: seq<Row>, outcome: Outcome) {
    match outcome
    case Existing(row) =>
      && Deduplicated(input.sourceEventId) && row in rows && row.content.sourceEventId == input.sourceEventId
      && after == rows
    case Appended(row) =>
      && !(Deduplicated(input.sourceEventId) && Recorded(rows, input.sourceEventId))
      && row == Next(hash, rows, input, id) && !Clashes(rows, row)
      && after == rows + [row]
    case Refused =>
      && !(Deduplicated(input.sourceEventId) && Recorded(rows, input.sourceEventId))
      && Clashes(rows, Next(hash, rows, input, id))
      && after == rows
  }

  class Table {
    const hash: Hashing
    /** In sequence order. */
    var rows: seq<Row>

    constructor (hash: Hashing)
      ensures this.hash == hash && rows == []
    {
      this.hash := hash;
      rows := [];
    }

    method FindBySource(source: Option<string>) returns (found: Option<Row>)
      ensures found == None <==> !Recorded(rows, source)
      ensures found.Some? ==> found.value in rows && found.value.content.sourceEventId == source
    {
      for k := 0 to |rows|
        invariant forall i | 0 <= i < k :: rows[i].content.sourceEventId != source
      {
        if rows[k].content.sourceEventId == source {
          return Some(rows[k]);
        }
      }
      return None;
    }

    /** Inserts a row if the unique indexes let it in. */
    method Create(row: Row) returns (created: bool)
      modifies this
      ensures created <==> !Clashes(old(rows), row)
      ensures rows == if created then old(rows) + [row] else old(rows)
    {
      for k := 0 to |rows|
        invariant rows == old(rows)
        invariant forall i | 0 <= i < k :: Apart(rows[i], row)
      {
        if !Apart(rows[k], row) {
          return false;
        }
      }
      rows := rows + [row];
      return true;
    }

    /** Runs under the advisory lock, so one append at a time. */
    method Append(input: Content, id: string) returns (outcome: Outcome)
      requires UniqueIndexes(rows)
      modifies this
      ensures Appends(hash, old(rows), input, id, rows, outcome)
      ensures UniqueIndexes(rows)
    {
      if input.sourceEventId.Some? && input.sourceEventId.value != "" {
        var existing := FindBySource(input.sourceEventId);
        if existing.Some? {
          return Existing(existing.value);
        }
      }
      var previousHash: Option<string>, sequenceNumber := None, 1;
      if rows != [] {
        var previous := rows[|rows| - 1];
        sequenceNumber := previous.sequenceNumber + 1;
        previousHash := Some(previous.entryHash);
      }
      var entryHash := hash(previousHash, sequenceNumber, input);
      var row := Row(id, sequenceNumber, input, previousHash, entryHash);
      var created := Create(row);
      outcome := if created then Appended(row) else Refused;
    }
  }

  // ---------------------------------------------------------------------------
  // Runs of appends
  // ---------------------------------------------------------------------------

  /** One append after another, from `tables[0]` on. */
  ghost predicate Run(hash: Hashing, inputs: seq<Content>, ids: seq<string>, tables: seq<seq<Row>>, outcomes: seq<Outcome>) {
    && |tables| == |inputs| + 1 && |ids| == |inputs| == |outcomes|
    && forall i | 0 <= i < |inputs| :: Appends(hash, tables[i], inputs[i], ids[i], tables[i + 1], outcomes[i])
  }

  lemma AppendKeepsChain(hash: Hashing, rows: seq<Row>, input: Content, id: string, after: seq<Row>, outcome: Outcome)
    requires Chain(hash, rows) && Appends(hash, rows, input, id, after, outcome)
    ensures Chain(hash, after) && rows <= after
  {
    if outcome.Appended? {
      assert rows != [] ==> Fault(hash, rows, |rows| - 1) == None;
      forall k | 0 <= k < |after| ensures Fault(hash, after, k) == None {
        if k < |rows| {
          assert Fault(hash, rows, k) == None;
          assert PreviousHash(after, k) == PreviousHash(rows, k);
        }
      }
    }
  }

  /** Every run from a verifying table ends in one, and rows once written stay. */
  lemma {:induction false} RunKeepsChain(hash: Hashing, inputs: seq<Content>, ids: seq<string>, tables: seq<seq<Row>>, outcomes: seq<Outcome>, i: nat, j: nat)
    requires Run(hash, inputs, ids, tables, outcomes) && i <= j <= |inputs|
    requires Chain(hash, tables[i])
    ensures Chain(hash, tables[j]) && tables[i] <= tables[j]
    decreases j
  {
    if i < j {
      RunKeepsChain(hash, inputs, ids, tables, outcomes, i, j - 1);
      AppendKeepsChain(hash, tables[j - 1], inputs[j - 1], ids[j - 1], tables[j], outcomes[j - 1]);
    }
  }

  lemma AppendKeepsIndexes(hash: Hashing, rows: seq<Row>, input: Content, id: string, after: seq<Row>, outcome: Outcome)
    requires UniqueIndexes(rows) && Appends(hash, rows, input, id, after, outcome)
    ensures UniqueIndexes(after)
  {
  }

  lemma {:induction false} RunKeepsIndexes(hash: Hashing, inputs: seq<Content>, ids: seq<string>, tables: seq<seq<Row>>, outcomes: seq<Outcome>, j: nat)
    requires Run(hash, inputs, ids, tables, outcomes) && j <= |inputs| && UniqueIndexes(tables[0])
    ensures UniqueIndexes(tables[j])
  {
    if j > 0 {
      RunKeepsIndexes(hash, inputs, ids, tables, outcomes, j - 1);
      AppendKeepsIndexes(hash, tables[j - 1], inputs[j - 1], ids[j - 1], tables[j], outcomes[j - 1]);
    }
  }

  /** Once an event is recorded, every later append of it answers with that row and writes nothing. */
  lemma OncePerEvent(hash: Hashing, inputs: seq<Content>, ids: seq<string>, tables: seq<seq<Row>>, outcomes: seq<Outcome>, i: nat, j: nat)
    requires Run(hash, inputs, ids, tables, outcomes) && i < j < |inputs|
    requires Chain(hash, tables[0]) && UniqueIndexes(tables[0])
    requires Deduplicated(inputs[i].sourceEventId) && inputs[j].sourceEventId == inputs[i].sourceEventId
    requires outcomes[i] != Refused
    ensures outcomes[j] == Existing(outcomes[i].row) && tables[j + 1] == tables[j]
  {
    assert Appends(hash, tables[i], inputs[i], ids[i], tables[i + 1], outcomes[i]);
    assert Appends(hash, tables[j], inputs[j], ids[j], tables[j + 1], outcomes[j]);
    RunKeepsChain(hash, inputs, ids, tables, outcomes, 0, i + 1);
    RunKeepsChain(hash, inputs, ids, tables, outcomes, i + 1, j);
    RunKeepsIndexes(hash, inputs, ids, tables, outcomes, j);
    var row := outcomes[i].row;
    assert row in tables[i + 1];
    assert row in tables[j];
    var k :| 0 <= k < |tables[j]| && tables[j][k] == row;
    assert Recorded(tables[j], inputs[j].sourceEventId);
    OneRowPerSource(tables[j], row, outcomes[j].row);
  }

  lemma OneRowPerSource(rows: seq<Row>, r: Row, s: Row)
    requires UniqueIndexes(rows) && r in rows && s in rows
    requires r.content.sourceEventId.Some? && r.content.sourceEventId == s.content.sourceEventId
    ensures r == s
  {
    var i :| 0 <= i < |rows| && rows[i] == r;
    var j :| 0 <= j < |rows| && rows[j] == s;
    SourcesApart(rows, i, j);
    SourcesApart(rows, j, i);
  }

  lemma SourcesApart(rows: seq<Row>, i: nat, j: nat)
    requires UniqueIndexes(rows) && i < |rows| && j < |rows|
    requires rows[i].content.sourceEventId.Some? && rows[i].content.sourceEventId == rows[j].content.sourceEventId
    ensures i >= j
  {
  }

  /** Two texts with one digest. */
  predicate Collision(sha: Digest, x: string, y: string) {
    x != y && sha(x) == sha(y)
  }

  /**
   * A verifying journal refuses an append only over an empty event id it already holds, which the lookup skips but the index does
   * not, or over two texts with one digest.
   */
  lemma RefusedOnlyWhen(sha: Digest, before: KeyOrder, rows: seq<Row>, input: Content, id: string, after: seq<Row>)
    returns (x: string, y: string)
    requires Hexadecimal(sha) && Chain(EntryHash(sha, before), rows)
    requires Appends(EntryHash(sha, before), rows, input, id, after, Refused)
    requires WellFormed(input.payload) && forall k | 0 <= k < |rows| :: WellFormed(rows[k].content.payload)
    ensures (input.sourceEventId == Some("") && Recorded(rows, Some(""))) || Collision(sha, x, y)
  {
    var row := Next(EntryHash(sha, before), rows, input, id);
    var k :| 0 <= k < |rows| && !Apart(rows[k], row);
    if rows[k].content.sourceEventId.Some? && rows[k].content.sourceEventId == input.sourceEventId {
      assert Recorded(rows, input.sourceEventId);
      x, y := "", "";
    } else {
      SameHashAsNext(EntryHash(sha, before), rows, input, id, k);
      x, y := NextCollides(sha, before, rows, input, id, k);
    }
  }

  lemma SameHashAsNext(hash: Hashing, rows: seq<Row>, input: Content, id: string, k: nat)
    requires Chain(hash, rows) && k < |rows| && !Apart(rows[k], Next(hash, rows, input, id))
    requires rows[k].content.sourceEventId == None || rows[k].content.sourceEventId != input.sourceEventId
    ensures rows[k].entryHash == Next(hash, rows, input, id).entryHash
  {
    assert Fault(hash, rows, k) == None && Fault(hash, rows, |rows| - 1) == None;
  }

  lemma NextCollides(sha: Digest, before: KeyOrder, rows: seq<Row>, input: Content, id: string, k: nat)
    returns (x: string, y: string)
    requires Hexadecimal(sha) && Chain(EntryHash(sha, before), rows)
    requires k < |rows| && WellFormed(input.payload) && WellFormed(rows[k].content.payload)
    requires rows[k].entryHash == Next(EntryHash(sha, before), rows, input, id).entryHash
    ensures Collision(sha, x, y)
  {
    var p, q := rows[k].previousHash, PreviousHash(rows, |rows|);
    x := RowText(sha, before, rows, k);
    y := NextText(sha, before, rows, input, id);
    PreviousHashHasNoBrace(sha, before, rows, k);
    PreviousHashHasNoBrace(sha, before, rows, |rows|);
    if x == y {
      TextDetermines(before, p, k + 1, rows[k].content, q, |rows| + 1, input, x);
    }
  }

  /** The text a row of a verifying journal is the digest of. */
  lemma RowText(sha: Digest, before: KeyOrder, rows: seq<Row>, k: nat) returns (text: string)
    requires Chain(EntryHash(sha, before), rows) && k < |rows|
    ensures TextIs(before, rows[k].previousHash, k + 1, rows[k].content, text) && rows[k].entryHash == sha(text)
    ensures rows[k].sequenceNumber == k + 1 && rows[k].previousHash == PreviousHash(rows, k)
  {
    assert Fault(EntryHash(sha, before), rows, k) == None;
    text := HashedText(before, rows[k].previousHash, k + 1, rows[k].content);
  }

  lemma NextText(sha: Digest, before: KeyOrder, rows: seq<Row>, input: Content, id: string) returns (text: string)
    requires Chain(EntryHash(sha, before), rows)
    ensures TextIs(before, PreviousHash(rows, |rows|), |rows| + 1, input, text)
    ensures Next(EntryHash(sha, before), rows, input, id).entryHash == sha(text)
  {
    assert rows != [] ==> Fault(EntryHash(sha, before), rows, |rows| - 1) == None;
    text := HashedText(before, PreviousHash(rows, |rows|), |rows| + 1, input);
  }

  lemma PreviousHashHasNoBrace(sha: Digest, before: KeyOrder, rows: seq<Row>, k: nat)
    requires Hexadecimal(sha) && Chain(EntryHash(sha, before), rows) && k <= |rows|
    ensures '{' !in OrEmpty(PreviousHash(rows, k))
  {
    if k > 0 {
      var text := RowText(sha, before, rows, k - 1);
    }
  }

  /** The empty event id: the second append of it is refused, not answered with the first. */
  lemma EmptySourceIsRefused(hash: Hashing, rows: seq<Row>, input: Content, id: string, after: seq<Row>, outcome: Outcome)
    requires input.sourceEventId == Some("")
    requires Appends(hash, rows, input, id, after, outcome) && Recorded(rows, Some(""))
    ensures outcome == Refused && after == rows
  {
    var k :| 0 <= k < |rows| && rows[k].content.sourceEventId == Some("");
    assert !Apart(rows[k], Next(hash, rows, input, id));
  }

  // ---------------------------------------------------------------------------
  // Tampering
  // ---------------------------------------------------------------------------

  /** Two rows that agree on all the chain covers; the row's own id and the order of payload keys are not covered. */
  ghost predicate SameRecord(r: Row, s: Row) {
    && r.sequenceNumber == s.sequenceNumber && r.previousHash == s.previousHash && r.entryHash == s.entryHash
    && SameContent(r.content, s.content)
  }

  ghost predicate WellFormedRows(rows: seq<Row>) {
    forall k | 0 <= k < |rows| :: WellFormed(rows[k].content.payload)
  }

  /** Rows of two verifying journals with one hash are the same record, or a digest collision is at hand. */
  lemma OneHashOneRecord(sha: Digest, before: KeyOrder, a: seq<Row>, m: nat, b: seq<Row>, n: nat) returns (x: string, y: string)
    requires Hexadecimal(sha) && Chain(EntryHash(sha, before), a) && Chain(EntryHash(sha, before), b)
    requires WellFormedRows(a) && WellFormedRows(b)
    requires m < |a| && n < |b| && a[m].entryHash == b[n].entryHash
    ensures Collision(sha, x, y) || (m == n && SameRecord(a[m], b[n]))
  {
    var p, q := a[m].previousHash, b[n].previousHash;
    x := RowText(sha, before, a, m);
    y := RowText(sha, before, b, n);
    if x == y {
      PreviousHashHasNoBrace(sha, before, a, m);
      PreviousHashHasNoBrace(sha, before, b, n);
      TextDetermines(before, p, m + 1, a[m].content, q, n + 1, b[n].content, x);
    }
  }

  /** Two verifying journals with the same last hash hold the same records, or a digest collision is at hand. */
  lemma {:induction false} TamperEvidence(sha: Digest, before: KeyOrder, a: seq<Row>, b: seq<Row>) returns (x: string, y: string)
    requires Hexadecimal(sha) && Chain(EntryHash(sha, before), a) && Chain(EntryHash(sha, before), b)
    requires WellFormedRows(a) && WellFormedRows(b)
    requires a != [] && b != [] && a[|a| - 1].entryHash == b[|b| - 1].entryHash
    ensures Collision(sha, x, y) || (|a| == |b| && forall k | 0 <= k < |a| :: SameRecord(a[k], b[k]))
    decreases |a|
  {
    x, y := OneHashOneRecord(sha, before, a, |a| - 1, b, |b| - 1);
    if !Collision(sha, x, y) && |a| > 1 {
      var m := |a| - 1;
      PrefixesVerify(EntryHash(sha, before), a, m);
      PrefixesVerify(EntryHash(sha, before), b, m);
      SamePredecessor(EntryHash(sha, before), a, b);
      x, y := TamperEvidence(sha, before, a[..m], b[..m]);
      if !Collision(sha, x, y) {
        forall k | 0 <= k < |a| ensures SameRecord(a[k], b[k]) {
          if k < m {
            assert SameRecord(a[..m][k], b[..m][k]);
          }
        }
      }
    }
  }

  lemma SamePredecessor(hash: Hashing, a: seq<Row>, b: seq<Row>)
    requires Chain(hash, a) && Chain(hash, b) && |a| == |b| > 1 && a[|a| - 1].previousHash == b[|b| - 1].previousHash
    ensures a[|a| - 2].entryHash == b[|b| - 2].entryHash
  {
    assert Fault(hash, a, |a| - 1) == None && Fault(hash, b, |b| - 1) == None;
  }

  /** Cutting off the newest rows leaves a journal that still verifies: only the last hash tells. */
  lemma PrefixesVerify(hash: Hashing, rows: seq<Row>, n: nat)
    requires Chain(hash, rows) && n <= |rows|
    ensures Chain(hash, rows[..n])
  {
    forall k | 0 <= k < n ensures Fault(hash, rows[..n], k) == None {
      assert Fault(hash, rows, k) == None;
      assert PreviousHash(rows[..n], k) == PreviousHash(rows, k);
    }
  }

  // ---------------------------------------------------------------------------
  // Reading payloads back
  // ---------------------------------------------------------------------------

  /** The table as the database gives it back: payload keys may come in another order. */
  ghost predicate ReadBack(rows: seq<Row>, seen: seq<Row>) {
    |rows| == |seen| && forall k | 0 <= k < |rows| :: SameContent(rows[k].content, seen[k].content) && seen[k] == rows[k].(content := seen[k].content)
  }

  lemma SameContentSameText(before: KeyOrder, p: Option<string>, n: int, c: Content, d: Content)
    requires Preorder(before) && SameContent(c, d) && NoTies(before, c.payload)
    requires WellFormed(c.payload) && WellFormed(d.payload)
    ensures HashedText(before, p, n, c) == HashedText(before, p, n, d)
  {
    CanonicalForgetsOrder(before, c.payload, d.payload);
  }

  /** Reordering payload keys never shows to the verifier when no keys tie. */
  lemma ReadBackVerifies(sha: Digest, before: KeyOrder, rows: seq<Row>, seen: seq<Row>)
    requires Preorder(before) && ReadBack(rows, seen) && WellFormedRows(rows) && WellFormedRows(seen)
    requires forall k | 0 <= k < |rows| :: NoTies(before, rows[k].content.payload)
    ensures Chain(EntryHash(sha, before), rows) <==> Chain(EntryHash(sha, before), seen)
  {
    forall k | 0 <= k < |rows| ensures Fault(EntryHash(sha, before), rows, k) == Fault(EntryHash(sha, before), seen, k) {
      ReadBackFault(sha, before, rows, seen, k);
    }
  }

  lemma ReadBackFault(sha: Digest, before: KeyOrder, rows: seq<Row>, seen: seq<Row>, k: nat)
    requires Preorder(before) && ReadBack(rows, seen) && k < |rows|
    requires WellFormed(rows[k].content.payload) && WellFormed(seen[k].content.payload)
    requires NoTies(before, rows[k].content.payload)
    ensures Fault(EntryHash(sha, before), rows, k) == Fault(EntryHash(sha, before), seen, k)
  {
    SameContentSameText(before, rows[k].previousHash, k + 1, rows[k].content, seen[k].content);
    SameFault(EntryHash(sha, before), rows, seen, k);
  }

  lemma SameFault(hash: Hashing, rows: seq<Row>, seen: seq<Row>, k: nat)
    requires ReadBack(rows, seen) && k < |rows|
    requires hash(rows[k].previousHash, k + 1, rows[k].content) == hash(rows[k].previousHash, k + 1, seen[k].content)
    ensures Fault(hash, rows, k) == Fault(hash, seen, k)
  {
    assert PreviousHash(rows, k) == PreviousHash(seen, k);
  }

  /** When two payload keys do tie, some reordering of that payload breaks a verifying journal, or a digest collision is at hand. */
  lemma TiedPayloadBreaks(sha: Digest, before: KeyOrder, rows: seq<Row>, k: nat) returns (seen: seq<Row>, x: string, y: string)
    requires Preorder(before) && Chain(EntryHash(sha, before), rows) && WellFormedRows(rows)
    requires k < |rows| && !NoTies(before, rows[k].content.payload)
    ensures ReadBack(rows, seen) && WellFormedRows(seen)
    ensures !Chain(EntryHash(sha, before), seen) || Collision(sha, x, y)
  {
    var row := rows[k];
    var other := TiesShowOrder(before, row.content.payload);
    var content := row.content.(payload := other);
    seen := rows[k := row.(content := content)];
    forall i | 0 <= i < |rows| ensures SameContent(rows[i].content, seen[i].content) {
      SameAsItself(rows[i].content.payload);
    }
    x := RowText(sha, before, rows, k);
    y := x;
    if Chain(EntryHash(sha, before), seen) {
      y := RowText(sha, before, seen, k);
      DifferentPayloadsHashDifferently(before, row.previousHash, k + 1, row.content, other, x, y);
    }
  }

  lemma HashableHoldsPayload(before: KeyOrder, n: int, c: Content, d: Content)
    requires Hashable(before, n, c) == Hashable(before, n, d)
    ensures Canonical(before, c.payload) == Canonical(before, d.payload)
  {
    assert Hashable(before, n, c).entries[5] == Hashable(before, n, d).entries[5];
  }

  lemma DifferentPayloadsHashDifferently(before: KeyOrder, p: Option<string>, n: int, c: Content, other: Value, x: string, y: string)
    requires WellFormed(c.payload) && WellFormed(other) && Canonical(before, c.payload) != Canonical(before, other)
    requires TextIs(before, p, n, c, x) && TextIs(before, p, n, c.(payload := other), y)
    ensures x != y
  {
    var d := c.(payload := other);
    assert x == HashedText(before, p, n, c) && y == HashedText(before, p, n, d);
    if x == y {
      CancelPrefix(OrEmpty(p), Text(Hashable(before, n, c)), Text(Hashable(before, n, d)));
      HashableWellFormed(before, n, c);
      HashableWellFormed(before, n, d);
      TextInjective(Hashable(before, n, c), Hashable(before, n, d));
      HashableHoldsPayload(before, n, c, d);
    }
  }
}
