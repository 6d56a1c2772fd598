/** The canonical form the journal hashes: every object's entries sorted by key, all the way down. */
module CanonicalJson {
  import opened Json

  /**
   * The order in which a canonical object lists its keys: `before(a, b)` says that `a` is listed no later than `b`.
   * In the program it is localeCompare, after integer-like keys, which JavaScript always lists first. Two different keys may
   * tie: localeCompare calls canonically equivalent Unicode strings equal.
   */
  type KeyOrder = (string, string) -> bool

  ghost predicate Preorder(before: KeyOrder) {
    && (forall a, b :: before(a, b) || before(b, a))
    && (forall a, b, c :: before(a, b) && before(b, c) ==> before(a, c))
  }

  predicate Tied(before: KeyOrder, a: string, b: string) {
    before(a, b) && before(b, a)
  }

  /** No object has two keys that tie. */
  predicate NoTies(before: KeyOrder, v: Value)
    decreases v
  {
    match v
    case Arr(items) => forall i | 0 <= i < |items| :: NoTies(before, items[i])
    case Obj(entries) =>
      && KeysApart(before, entries)
      && forall i | 0 <= i < |entries| :: NoTies(before, entries[i].value)
    case _ => true
  }

  predicate KeysApart(before: KeyOrder, entries: seq<Entry>) {
    forall i, j | 0 <= i < j < |entries| :: !Tied(before, entries[i].key, entries[j].key)
  }

  // ---------------------------------------------------------------------------
  // Stable sorting
  // ---------------------------------------------------------------------------

  function Insert(before: KeyOrder, e: Entry, sorted: seq<Entry>): seq<Entry> {
    if sorted == [] || before(e.key, sorted[0].key) then [e] + sorted
    else [sorted[0]] + Insert(before, e, sorted[1..])
  }

  function Sort(before: KeyOrder, entries: seq<Entry>): seq<Entry> {
    if entries == [] then [] else Insert(before, entries[0], Sort(before, entries[1..]))
  }

  predicate Sorted(before: KeyOrder, entries: seq<Entry>) {
    forall i, j | 0 <= i < j < |entries| :: before(entries[i].key, entries[j].key)
  }

  lemma {:induction false} InsertHolds(before: KeyOrder, e: Entry, sorted: seq<Entry>)
    ensures multiset(Insert(before, e, sorted)) == multiset{e} + multiset(sorted)
    ensures |Insert(before, e, sorted)| == |sorted| + 1
  {
    if sorted != [] && !before(e.key, sorted[0].key) {
      InsertHolds(before, e, sorted[1..]);
      assert sorted == [sorted[0]] + sorted[1..];
    }
  }

  lemma {:induction false} InsertSorts(before: KeyOrder, e: Entry, sorted: seq<Entry>)
    requires Preorder(before) && Sorted(before, sorted)
    ensures Sorted(before, Insert(before, e, sorted))
  {
    if sorted == [] || before(e.key, sorted[0].key) {
      assert forall j | 0 <= j < |sorted| :: before(e.key, sorted[j].key);
    } else {
      var rest := Insert(before, e, sorted[1..]);
      InsertSorts(before, e, sorted[1..]);
      InsertHolds(before, e, sorted[1..]);
      forall x | x in rest ensures before(sorted[0].key, x.key) {
        assert x in multiset(rest);
        if x != e {
          assert x in sorted[1..];
        }
      }
    }
  }

  lemma {:induction false} SortHolds(before: KeyOrder, entries: seq<Entry>)
    ensures multiset(Sort(before, entries)) == multiset(entries)
    ensures |Sort(before, entries)| == |entries|
  {
    if entries != [] {
      SortHolds(before, entries[1..]);
      InsertHolds(before, entries[0], Sort(before, entries[1..]));
      assert entries == [entries[0]] + entries[1..];
    }
  }

  lemma {:induction false} SortSorts(before: KeyOrder, entries: seq<Entry>)
    requires Preorder(before)
    ensures Sorted(before, Sort(before, entries))
  {
    if entries != [] {
      SortSorts(before, entries[1..]);
      InsertSorts(before, entries[0], Sort(before, entries[1..]));
    }
  }

  lemma SameMembers(before: KeyOrder, entries: seq<Entry>)
    ensures forall e :: e in Sort(before, entries) <==> e in entries
  {
    SortHolds(before, entries);
    forall e ensures e in Sort(before, entries) <==> e in entries {
      assert e in multiset(Sort(before, entries)) <==> e in multiset(entries);
    }
  }

  ghost predicate NoTiesAmong(before: KeyOrder, entries: multiset<Entry>) {
    forall e, f | e in entries && f in entries && e != f :: !Tied(before, e.key, f.key)
  }

  /** Without ties there is only one sorted arrangement. */
  lemma {:induction false} OneSortedArrangement(before: KeyOrder, a: seq<Entry>, b: seq<Entry>)
    requires Sorted(before, a) && Sorted(before, b) && multiset(a) == multiset(b) && NoTiesAmong(before, multiset(a))
    ensures a == b
    decreases |a|
  {
    assert |a| == |multiset(a)| && |b| == |multiset(b)|;
    if a != [] {
      SameFirst(before, a, b);
      WithoutFirst(a);
      WithoutFirst(b);
      OneSortedArrangement(before, a[1..], b[1..]);
    }
  }

  lemma SameFirst(before: KeyOrder, a: seq<Entry>, b: seq<Entry>)
    requires Sorted(before, a) && Sorted(before, b) && multiset(a) == multiset(b) && NoTiesAmong(before, multiset(a))
    requires a != [] && b != []
    ensures a[0] == b[0]
  {
    assert a[0] in multiset(a) && b[0] in multiset(b);
    FirstIsLeast(before, a, b[0]);
    FirstIsLeast(before, b, a[0]);
  }

  lemma WithoutFirst(a: seq<Entry>)
    requires a != []
    ensures multiset(a[1..]) == multiset(a) - multiset{a[0]} && a == [a[0]] + a[1..]
  {
    assert a == [a[0]] + a[1..];
  }

  lemma FirstIsLeast(before: KeyOrder, a: seq<Entry>, e: Entry)
    requires Sorted(before, a) && e in a
    ensures e == a[0] || before(a[0].key, e.key)
  {
  }

  // ---------------------------------------------------------------------------
  // The canonical form
  // ---------------------------------------------------------------------------

  function Canonical(before: KeyOrder, v: Value): Value
    decreases v
  {
    match v
    case Arr(items) => Arr(seq(|items|, i requires 0 <= i < |items| => Canonical(before, items[i])))
    case Obj(entries) => Obj(Sort(before, CanonicalEntries(before, entries)))
    case _ => v
  }

  function CanonicalEntries(before: KeyOrder, entries: seq<Entry>): (r: seq<Entry>)
    ensures |r| == |entries|
    ensures forall i | 0 <= i < |entries| :: r[i].key == entries[i].key
    decreases entries
  {
    seq(|entries|, i requires 0 <= i < |entries| =>
      Entry(entries[i].key, Canonical(before, entries[i].value)))
  }

  /** The same value, apart from the order in which objects list their entries. */
  ghost predicate SameUpToOrder(v: Value, w: Value)
    decreases v
  {
    match v
    case Arr(items) =>
      w.Arr? && |items| == |w.items| && forall i | 0 <= i < |items| :: SameUpToOrder(items[i], w.items[i])
    case Obj(entries) =>
      w.Obj? && |entries| == |w.entries| && forall i | 0 <= i < |entries| :: Matched(entries[i], w.entries)
    case _ => v == w
  }

  ghost predicate Matched(e: Entry, others: seq<Entry>)
    decreases e, 0
  {
    exists j | 0 <= j < |others| :: e.key == others[j].key && SameUpToOrder(e.value, others[j].value)
  }

  lemma {:induction false} CanonicalWellFormed(before: KeyOrder, v: Value)
    requires WellFormed(v)
    ensures WellFormed(Canonical(before, v))
    decreases v
  {
    match v {
      case Arr(items) =>
        forall i | 0 <= i < |items| ensures WellFormed(Canonical(before, items[i])) {
          CanonicalWellFormed(before, items[i]);
        }
      case Obj(entries) =>
        var canonical := CanonicalEntries(before, entries);
        forall i | 0 <= i < |entries| ensures WellFormed(canonical[i].value) {
          CanonicalWellFormed(before, entries[i].value);
        }
        SortKeepsKeysUnique(before, canonical);
        var sorted := Sort(before, canonical);
        forall i | 0 <= i < |sorted| ensures WellFormed(sorted[i].value) {
          SameMembers(before, canonical);
          assert sorted[i] in canonical;
        }
      case _ =>
    }
  }

  lemma SortKeepsKeysUnique(before: KeyOrder, entries: seq<Entry>)
    requires UniqueKeys(entries)
    ensures UniqueKeys(Sort(before, entries))
  {
    SortHolds(before, entries);
    MultisetKeepsKeysUnique(entries, Sort(before, entries));
  }

  lemma MultisetKeepsKeysUnique(entries: seq<Entry>, others: seq<Entry>)
    requires UniqueKeys(entries) && multiset(entries) == multiset(others)
    ensures UniqueKeys(others)
  {
    UniqueEntries(entries);
    forall i, j | 0 <= i < j < |others| ensures others[i].key != others[j].key {
      assert others[i] in multiset(entries) && others[j] in multiset(entries);
      if others[i] == others[j] {
        TwiceInMultiset(others, i, j);
      }
    }
  }

  lemma {:induction false} UniqueEntries(entries: seq<Entry>)
    requires UniqueKeys(entries)
    ensures forall e :: multiset(entries)[e] <= 1
  {
    if entries != [] {
      UniqueEntries(entries[1..]);
      assert entries == [entries[0]] + entries[1..];
      assert entries[0] !in entries[1..];
      assert multiset(entries) == multiset{entries[0]} + multiset(entries[1..]);
    }
  }

  lemma TwiceInMultiset(s: seq<Entry>, i: nat, j: nat)
    requires i < j < |s| && s[i] == s[j]
    ensures multiset(s)[s[i]] >= 2
  {
    assert s == s[..j] + s[j..];
    assert s[i] in s[..j] && s[j] in s[j..];
    assert multiset(s) == multiset(s[..j]) + multiset(s[j..]);
    assert s[j..][0] == s[j];
  }

  lemma CanonicalTwin(before: KeyOrder, entries: seq<Entry>, others: seq<Entry>, i: nat) returns (j: nat)
    requires Canonical(before, Obj(entries)) == Canonical(before, Obj(others)) && i < |entries|
    ensures |entries| == |others| && j < |others| && entries[i].key == others[j].key
    ensures Canonical(before, entries[i].value) == Canonical(before, others[j].value)
  {
    var mine, theirs := CanonicalEntries(before, entries), CanonicalEntries(before, others);
    SameMembers(before, mine);
    SameMembers(before, theirs);
    SortHolds(before, mine);
    SortHolds(before, theirs);
    assert mine[i] in theirs;
    j :| 0 <= j < |theirs| && theirs[j] == mine[i];
  }

  /** Two values with one canonical form differ only in the order of their keys. */
  lemma {:induction false} CanonicalDetermines(before: KeyOrder, v: Value, w: Value)
    requires Canonical(before, v) == Canonical(before, w)
    ensures SameUpToOrder(v, w)
    decreases v
  {
    match v {
      case Arr(items) =>
        forall i | 0 <= i < |items| ensures SameUpToOrder(items[i], w.items[i]) {
          assert Canonical(before, v).items[i] == Canonical(before, w).items[i];
          CanonicalDetermines(before, items[i], w.items[i]);
        }
      case Obj(entries) =>
        SortHolds(before, CanonicalEntries(before, entries));
        SortHolds(before, CanonicalEntries(before, w.entries));
        forall i | 0 <= i < |entries| ensures Matched(entries[i], w.entries) {
          var j := CanonicalTwin(before, entries, w.entries, i);
          CanonicalDetermines(before, entries[i].value, w.entries[j].value);
        }
      case _ =>
    }
  }

  /** When no keys tie, the order of keys does not show in the canonical form. */
  lemma {:induction false} CanonicalForgetsOrder(before: KeyOrder, v: Value, w: Value)
    requires Preorder(before) && SameUpToOrder(v, w)
    requires WellFormed(v) && NoTies(before, v) && WellFormed(w)
    ensures Canonical(before, v) == Canonical(before, w)
    decreases v
  {
    match v {
      case Arr(items) =>
        forall i | 0 <= i < |items| ensures Canonical(before, items[i]) == Canonical(before, w.items[i]) {
          CanonicalForgetsOrder(before, items[i], w.items[i]);
        }
      case Obj(entries) =>
        var mine, theirs := CanonicalEntries(before, entries), CanonicalEntries(before, w.entries);
        forall i | 0 <= i < |entries| ensures mine[i] in theirs {
          assert Matched(entries[i], w.entries);
          var j :| 0 <= j < |w.entries| && entries[i].key == w.entries[j].key && SameUpToOrder(entries[i].value, w.entries[j].value);
          CanonicalForgetsOrder(before, entries[i].value, w.entries[j].value);
          assert theirs[j] == mine[i];
        }
        SameEntries(mine, theirs);
        SortHolds(before, mine);
        SortHolds(before, theirs);
        SortSorts(before, mine);
        SortSorts(before, theirs);
        SameMembers(before, mine);
        forall e, f | e in multiset(mine) && f in multiset(mine) && e != f ensures !Tied(before, e.key, f.key) {
          DistinctKeysApart(before, entries, mine, e, f);
        }
        OneSortedArrangement(before, Sort(before, mine), Sort(before, theirs));
      case _ =>
    }
  }

  lemma DistinctKeysApart(before: KeyOrder, entries: seq<Entry>, mine: seq<Entry>, e: Entry, f: Entry)
    requires KeysApart(before, entries) && |mine| == |entries| && forall i | 0 <= i < |entries| :: mine[i].key == entries[i].key
    requires e in mine && f in mine && e != f
    ensures !Tied(before, e.key, f.key)
  {
    var i :| 0 <= i < |mine| && mine[i] == e;
    var j :| 0 <= j < |mine| && mine[j] == f;
    assert i < j || j < i;
    assert !Tied(before, entries[if i < j then i else j].key, entries[if i < j then j else i].key);
  }

  lemma {:induction false} SameEntries(a: seq<Entry>, b: seq<Entry>)
    requires UniqueKeys(a) && |a| == |b| && forall i | 0 <= i < |a| :: a[i] in b
    ensures multiset(a) == multiset(b)
  {
    if a != [] {
      var j :| 0 <= j < |b| && b[j] == a[0];
      var rest := b[..j] + b[j + 1..];
      assert b == b[..j] + [b[j]] + b[j + 1..];
      forall i | 0 <= i < |a[1..]| ensures a[1..][i] in rest {
        assert a[1..][i] == a[i + 1] && a[i + 1] in b;
        var k :| 0 <= k < |b| && b[k] == a[i + 1];
        assert k != j;
        assert b[k] == rest[if k < j then k else k - 1];
      }
      SameEntries(a[1..], rest);
      assert a == [a[0]] + a[1..];
    }
  }

  // ---------------------------------------------------------------------------
  // Keys that tie
  // ---------------------------------------------------------------------------

  /** The entries whose key ties with `key`, in the order they are listed. */
  function Ties(before: KeyOrder, key: string, entries: seq<Entry>): seq<Entry> {
    if entries == [] then []
    else (if Tied(before, key, entries[0].key) then [entries[0]] else []) + Ties(before, key, entries[1..])
  }

  lemma {:induction false} InsertIsStable(before: KeyOrder, key: string, e: Entry, sorted: seq<Entry>)
    requires Preorder(before) && Sorted(before, sorted)
    ensures Ties(before, key, Insert(before, e, sorted)) == Ties(before, key, [e] + sorted)
  {
    if sorted == [] || before(e.key, sorted[0].key) {
    } else {
      InsertIsStable(before, key, e, sorted[1..]);
      assert ([e] + sorted)[1..] == sorted && ([e] + sorted[1..])[1..] == sorted[1..];
      assert ([sorted[0]] + Insert(before, e, sorted[1..]))[1..] == Insert(before, e, sorted[1..]);
      assert !(Tied(before, key, e.key) && Tied(before, key, sorted[0].key));
    }
  }

  lemma {:induction false} SortIsStable(before: KeyOrder, key: string, entries: seq<Entry>)
    requires Preorder(before)
    ensures Ties(before, key, Sort(before, entries)) == Ties(before, key, entries)
  {
    if entries != [] {
      SortIsStable(before, key, entries[1..]);
      SortSorts(before, entries[1..]);
      var sorted := Sort(before, entries[1..]);
      InsertIsStable(before, key, entries[0], sorted);
      assert ([entries[0]] + sorted)[1..] == sorted;
    }
  }

  /** Two keys that tie keep the order they were given in. */
  lemma TiedKeysKeepTheirOrder(before: KeyOrder, e: Entry, f: Entry, back: seq<Entry>)
    requires Preorder(before) && e.key != f.key && Tied(before, e.key, f.key)
    ensures Canonical(before, Obj([e, f] + back)) != Canonical(before, Obj([f, e] + back))
  {
    var mine, theirs := CanonicalEntries(before, [e, f] + back), CanonicalEntries(before, [f, e] + back);
    SortIsStable(before, e.key, mine);
    SortIsStable(before, e.key, theirs);
    assert Ties(before, e.key, mine)[0] == mine[0] && Ties(before, e.key, theirs)[0] == theirs[0];
  }

  lemma {:induction false} SameAsItself(v: Value)
    ensures SameUpToOrder(v, v)
    decreases v
  {
    match v {
      case Arr(items) =>
        forall i | 0 <= i < |items| ensures SameUpToOrder(items[i], items[i]) {
          SameAsItself(items[i]);
        }
      case Obj(entries) =>
        forall i | 0 <= i < |entries| ensures Matched(entries[i], entries) {
          SameAsItself(entries[i].value);
        }
      case _ =>
    }
  }

  /** An object with its entries listed in another order is the same up to order. */
  lemma Rearranged(entries: seq<Entry>, others: seq<Entry>)
    requires multiset(entries) == multiset(others) && UniqueKeys(entries)
    requires WellFormed(Obj(entries))
    ensures SameUpToOrder(Obj(entries), Obj(others)) && WellFormed(Obj(others))
  {
    assert |entries| == |multiset(entries)| && |others| == |multiset(others)|;
    forall i | 0 <= i < |entries| ensures Matched(entries[i], others) {
      SameAsItself(entries[i].value);
      assert entries[i] in multiset(others);
    }
    forall i | 0 <= i < |others| ensures WellFormed(others[i].value) && others[i] in entries {
      assert others[i] in multiset(entries);
    }
    MultisetKeepsKeysUnique(entries, others);
  }

  /** When keys do tie, some other order of the same entries has another canonical form. */
  lemma {:induction false} TiesShowOrder(before: KeyOrder, v: Value) returns (w: Value)
    requires Preorder(before) && WellFormed(v) && !NoTies(before, v)
    ensures SameUpToOrder(v, w) && WellFormed(w) && Canonical(before, v) != Canonical(before, w)
    decreases v
  {
    match v {
      case Arr(items) =>
        var k :| 0 <= k < |items| && !NoTies(before, items[k]);
        var other := TiesShowOrder(before, items[k]);
        w := Arr(items[k := other]);
        forall i | 0 <= i < |items| ensures SameUpToOrder(items[i], w.items[i]) {
          SameAsItself(items[i]);
        }
        assert Canonical(before, v).items[k] != Canonical(before, w).items[k];
      case Obj(entries) =>
        if KeysApart(before, entries) {
          var k :| 0 <= k < |entries| && !NoTies(before, entries[k].value);
          var other := TiesShowOrder(before, entries[k].value);
          w := NestedTieShows(before, entries, k, other);
        } else {
          w := TopTieShows(before, entries);
        }
    }
  }

  lemma NestedTieShows(before: KeyOrder, entries: seq<Entry>, k: nat, other: Value) returns (w: Value)
    requires WellFormed(Obj(entries)) && k < |entries| && WellFormed(other) && SameUpToOrder(entries[k].value, other)
    requires Canonical(before, entries[k].value) != Canonical(before, other)
    ensures SameUpToOrder(Obj(entries), w) && WellFormed(w) && Canonical(before, Obj(entries)) != Canonical(before, w)
  {
    w := Obj(entries[k := Entry(entries[k].key, other)]);
    OneValueReplaced(entries, k, other);
    CanonicalValuesDiffer(before, entries, w.entries, k);
  }

  lemma OneValueReplaced(entries: seq<Entry>, k: nat, other: Value)
    requires WellFormed(Obj(entries)) && k < |entries| && WellFormed(other) && SameUpToOrder(entries[k].value, other)
    ensures var w := Obj(entries[k := Entry(entries[k].key, other)]); SameUpToOrder(Obj(entries), w) && WellFormed(w)
  {
    var others := entries[k := Entry(entries[k].key, other)];
    forall i | 0 <= i < |entries| ensures Matched(entries[i], others) {
      SameAsItself(entries[i].value);
      assert entries[i].key == others[i].key;
    }
  }

  lemma CanonicalValuesDiffer(before: KeyOrder, entries: seq<Entry>, others: seq<Entry>, k: nat)
    requires k < |entries| == |others| && UniqueKeys(entries)
    requires forall i | 0 <= i < |entries| :: entries[i].key == others[i].key
    requires Canonical(before, entries[k].value) != Canonical(before, others[k].value)
    ensures Canonical(before, Obj(entries)) != Canonical(before, Obj(others))
  {
    var mine, theirs := CanonicalEntries(before, entries), CanonicalEntries(before, others);
    assert mine[k] !in theirs;
    SameMembers(before, mine);
    SameMembers(before, theirs);
    assert mine[k] in Sort(before, mine) && mine[k] !in Sort(before, theirs);
  }

  lemma PulledForward(entries: seq<Entry>, i: nat, j: nat) returns (back: seq<Entry>)
    requires i < j < |entries|
    ensures multiset([entries[i], entries[j]] + back) == multiset(entries)
    ensures multiset([entries[j], entries[i]] + back) == multiset(entries)
  {
    var a, b, c := entries[..i], entries[i + 1..j], entries[j + 1..];
    back := a + b + c;
    assert entries == a + [entries[i]] + b + [entries[j]] + c;
  }

  lemma TopTieShows(before: KeyOrder, entries: seq<Entry>) returns (w: Value)
    requires Preorder(before) && WellFormed(Obj(entries)) && !KeysApart(before, entries)
    ensures SameUpToOrder(Obj(entries), w) && WellFormed(w) && Canonical(before, Obj(entries)) != Canonical(before, w)
  {
    var i, j :| 0 <= i < j < |entries| && Tied(before, entries[i].key, entries[j].key);
    var e, f := entries[i], entries[j];
    var back := PulledForward(entries, i, j);
    Rearranged(entries, [e, f] + back);
    Rearranged(entries, [f, e] + back);
    TiedKeysKeepTheirOrder(before, e, f, back);
    if Canonical(before, Obj(entries)) != Canonical(before, Obj([e, f] + back)) {
      w := Obj([e, f] + back);
    } else {
      w := Obj([f, e] + back);
    }
  }

  /** The canonical form forgets the order of keys exactly when no object has keys that tie. */
  lemma ForgetsOrderIff(before: KeyOrder, v: Value)
    requires Preorder(before) && WellFormed(v)
    ensures NoTies(before, v) <==>
            forall w | WellFormed(w) && SameUpToOrder(v, w) :: Canonical(before, v) == Canonical(before, w)
  {
    if NoTies(before, v) {
      forall w | WellFormed(w) && SameUpToOrder(v, w) ensures Canonical(before, v) == Canonical(before, w) {
        CanonicalForgetsOrder(before, v, w);
      }
    } else {
      var w := TiesShowOrder(before, v);
    }
  }
}
