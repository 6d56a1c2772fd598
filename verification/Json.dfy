/** JSON values and the text JSON.stringify writes for them, which can be read in one way only. */
module Json {

  /** Numbers are kept as the text they are written with. */
  datatype Value =
    | Null
    | Bool(b: bool)
    | Num(text: string)
    | Str(s: string)
    | Arr(items: seq<Value>)
    | Obj(entries: seq<Entry>)

  datatype Entry = Entry(key: string, value: Value)

  predicate NumberChar(c: char) {
    ('0' <= c <= '9') || c == '-' || c == '+' || c == '.' || c == 'e' || c == 'E'
  }

  predicate NumberText(text: string) {
    text != "" && (text[0] == '-' || '0' <= text[0] <= '9') && forall i | 0 <= i < |text| :: NumberChar(text[i])
  }

  predicate UniqueKeys(entries: seq<Entry>) {
    forall i, j | 0 <= i < j < |entries| :: entries[i].key != entries[j].key
  }

  /** Numbers are written as numbers and no object repeats a key, all the way down. */
  predicate WellFormed(v: Value)
    decreases v
  {
    match v
    case Num(text) => NumberText(text)
    case Arr(items) => forall i | 0 <= i < |items| :: WellFormed(items[i])
    case Obj(entries) => UniqueKeys(entries) && forall i | 0 <= i < |entries| :: WellFormed(entries[i].value)
    case _ => true
  }

  function HexDigit(n: int): char
    requires 0 <= n < 16
  {
    "0123456789abcdef"[n]
  }

  function EscapeChar(c: char): (r: string)
    ensures r != "" && r[0] != '"'
  {
    if c == '"' then ['\\', '"']
    else if c == '\\' then ['\\', '\\']
    else if c == '\n' then ['\\', 'n']
    else if c == '\r' then ['\\', 'r']
    else if c == '\t' then ['\\', 't']
    else if c == 8 as char then ['\\', 'b']
    else if c == 12 as char then ['\\', 'f']
    else if c < ' ' then ['\\', 'u', '0', '0', HexDigit(c as int / 16), HexDigit(c as int % 16)]
    else [c]
  }

  function Escape(s: string): string {
    if s == "" then "" else EscapeChar(s[0]) + Escape(s[1..])
  }

  function Quote(s: string): string {
    "\"" + Escape(s) + "\""
  }

  function Text(v: Value): string
    decreases v, 0
  {
    match v
    case Null => "null"
    case Bool(b) => if b then "true" else "false"
    case Num(text) => text
    case Str(s) => Quote(s)
    case Arr(items) => "[" + (if items == [] then "]" else Text(items[0]) + MoreItems(items[1..]))
    case Obj(entries) =>
      "{" + (if entries == [] then "}"
             else Quote(entries[0].key) + ":" + Text(entries[0].value) + MoreEntries(entries[1..]))
  }

  function MoreItems(items: seq<Value>): string
    decreases items, 1
  {
    if items == [] then "]" else "," + Text(items[0]) + MoreItems(items[1..])
  }

  function MoreEntries(entries: seq<Entry>): string
    decreases entries, 1
  {
    if entries == [] then "}"
    else "," + Quote(entries[0].key) + ":" + Text(entries[0].value) + MoreEntries(entries[1..])
  }

  // ---------------------------------------------------------------------------
  // Reading it back
  // ---------------------------------------------------------------------------

  lemma HexDigitsDiffer(m: int, n: int)
    requires 0 <= m < 16 && 0 <= n < 16 && HexDigit(m) == HexDigit(n)
    ensures m == n
  {
  }

  lemma CancelPrefix(a: string, b: string, c: string)
    requires a + b == a + c
    ensures b == c
  {
    assert (a + b)[|a|..] == b;
    assert (a + c)[|a|..] == c;
  }

  /** No escape is the beginning of another. */
  lemma EscapeCharPrefixFree(c: char, d: char, r: string, s: string)
    requires EscapeChar(c) + r == EscapeChar(d) + s
    ensures c == d && r == s
  {
    var x, y := EscapeChar(c) + r, EscapeChar(d) + s;
    assert x[0] == EscapeChar(c)[0] && y[0] == EscapeChar(d)[0];
    if x[0] == '\\' {
      assert x[1] == EscapeChar(c)[1] && y[1] == EscapeChar(d)[1];
      if x[1] == 'u' {
        assert x[4] == EscapeChar(c)[4] && y[4] == EscapeChar(d)[4];
        assert x[5] == EscapeChar(c)[5] && y[5] == EscapeChar(d)[5];
        HexDigitsDiffer(c as int / 16, d as int / 16);
        HexDigitsDiffer(c as int % 16, d as int % 16);
      }
    }
    CancelPrefix(EscapeChar(c), r, s);
  }

  /** A text that goes on after an escaped string ends the string at the first bare quote. */
  lemma EscapeStarts(a: string, r: string)
    ensures (Escape(a) + ("\"" + r))[0] == '"' <==> a == ""
    ensures a == "" ==> Escape(a) + ("\"" + r) == "\"" + r
    ensures a != "" ==> Escape(a) + ("\"" + r) == EscapeChar(a[0]) + (Escape(a[1..]) + ("\"" + r))
  {
    if a == "" {
      assert Escape(a) == "";
    } else {
      TextRegroups(EscapeChar(a[0]), Escape(a[1..]), "\"" + r);
    }
  }

  lemma TextRegroups(first: string, rest: string, r: string)
    requires first != ""
    ensures first + rest + r == first + (rest + r) && (first + rest + r)[0] == first[0]
  {
  }

  lemma {:induction false} EscapeReadsOneWay(a: string, b: string, r: string, s: string)
    requires Escape(a) + ("\"" + r) == Escape(b) + ("\"" + s)
    ensures a == b && r == s
  {
    EscapeStarts(a, r);
    EscapeStarts(b, s);
    if a == "" {
      CancelPrefix("\"", r, s);
    } else {
      EscapeCharPrefixFree(a[0], b[0], Escape(a[1..]) + ("\"" + r), Escape(b[1..]) + ("\"" + s));
      EscapeReadsOneWay(a[1..], b[1..], r, s);
      assert a == [a[0]] + a[1..] && b == [b[0]] + b[1..];
    }
  }

  lemma QuoteStarts(a: string, r: string)
    ensures Quote(a) + r == "\"" + (Escape(a) + ("\"" + r))
  {
  }

  lemma QuoteReadsOneWay(a: string, b: string, r: string, s: string)
    requires Quote(a) + r == Quote(b) + s
    ensures a == b && r == s
  {
    QuoteStarts(a, r);
    QuoteStarts(b, s);
    CancelPrefix("\"", Escape(a) + ("\"" + r), Escape(b) + ("\"" + s));
    EscapeReadsOneWay(a, b, r, s);
  }

  /** What may follow a value inside a larger text. */
  predicate Delimited(rest: string) {
    rest == "" || rest[0] == ',' || rest[0] == ']' || rest[0] == '}'
  }

  /** The number of characters at the front of `x` that can stand in a number. */
  function NumberSpan(x: string): nat {
    if x == "" || !NumberChar(x[0]) then 0 else 1 + NumberSpan(x[1..])
  }

  lemma {:induction false} NumberSpanOf(a: string, r: string)
    requires Delimited(r) && forall i | 0 <= i < |a| :: NumberChar(a[i])
    ensures NumberSpan(a + r) == |a|
  {
    if a == "" {
      assert a + r == r;
    } else {
      NumberSpanOf(a[1..], r);
      assert (a + r)[1..] == a[1..] + r;
    }
  }

  lemma NumberReadsOneWay(a: string, b: string, r: string, s: string)
    requires NumberText(a) && NumberText(b) && Delimited(r) && Delimited(s) && a + r == b + s
    ensures a == b && r == s
  {
    NumberSpanOf(a, r);
    NumberSpanOf(b, s);
    assert a == (a + r)[..|a|] && b == (b + s)[..|b|];
    CancelPrefix(a, r, s);
  }

  /** The first character tells the kind of value. */
  function Kind(v: Value): char
    requires WellFormed(v)
  {
    match v
    case Null => 'n'
    case Bool(b) => if b then 't' else 'f'
    case Num(_) => '0'
    case Str(_) => '"'
    case Arr(_) => '['
    case Obj(_) => '{'
  }

  lemma KindsAgree(v: Value, w: Value, r: string, s: string)
    requires WellFormed(v) && WellFormed(w) && Text(v) + r == Text(w) + s
    ensures Kind(v) == Kind(w)
  {
    assert (Text(v) + r)[0] == Text(v)[0] && (Text(w) + s)[0] == Text(w)[0];
  }

  lemma MoreEntriesDelimited(entries: seq<Entry>, r: string)
    ensures Delimited(MoreEntries(entries) + r)
  {
  }

  /** A text, followed by a delimiter or nothing, is the text of one value only. */
  lemma {:induction false} TextReadsOneWay(v: Value, w: Value, r: string, s: string)
    requires WellFormed(v) && WellFormed(w) && Delimited(r) && Delimited(s)
    requires Text(v) + r == Text(w) + s
    ensures v == w && r == s
    decreases v, 0
  {
    KindsAgree(v, w, r, s);
    match v {
      case Null => CancelPrefix("null", r, s);
      case Bool(b) => CancelPrefix(Text(v), r, s);
      case Num(text) => NumberReadsOneWay(text, w.text, r, s);
      case Str(words) => QuoteReadsOneWay(words, w.s, r, s);
      case Arr(items) => ItemsReadOneWay(items, w.items, r, s);
      case Obj(entries) => EntriesReadOneWay(entries, w.entries, r, s);
    }
  }

  /** The second character of a list tells whether it is empty; what follows is its first item and the rest. */
  lemma ItemsStart(items: seq<Value>, r: string)
    requires WellFormed(Arr(items))
    ensures |Text(Arr(items)) + r| >= 2
    ensures (Text(Arr(items)) + r)[1] == ']' <==> items == []
    ensures if items == [] then Text(Arr(items)) + r == "[]" + r
            else Text(Arr(items)) + r == "[" + (Text(items[0]) + (MoreItems(items[1..]) + r))
  {
    if items != [] {
      TextStarts(items[0]);
      ListSplits(Text(items[0]), MoreItems(items[1..]), r);
    }
  }

  /** No text is empty or starts with a closing bracket. */
  lemma TextStarts(v: Value)
    requires WellFormed(v)
    ensures Text(v) != "" && Text(v)[0] != ']'
  {
  }

  lemma ListSplits(first: string, more: string, r: string)
    requires first != "" && first[0] != ']'
    ensures "[" + (first + more) + r == "[" + (first + (more + r))
    ensures ("[" + (first + more) + r)[1] != ']'
  {
    assert ("[" + (first + more) + r)[1] == first[0];
  }

  lemma MoreItemsStart(items: seq<Value>, r: string)
    ensures (MoreItems(items) + r)[0] == ']' <==> items == []
    ensures if items == [] then MoreItems(items) + r == "]" + r
            else MoreItems(items) + r == "," + (Text(items[0]) + (MoreItems(items[1..]) + r))
  {
  }

  lemma {:induction false} ItemsReadOneWay(items: seq<Value>, others: seq<Value>, r: string, s: string)
    requires WellFormed(Arr(items)) && WellFormed(Arr(others)) && Delimited(r) && Delimited(s)
    requires Text(Arr(items)) + r == Text(Arr(others)) + s
    ensures items == others && r == s
    decreases items, 2
  {
    ItemsStart(items, r);
    ItemsStart(others, s);
    if items == [] {
      CancelPrefix("[]", r, s);
    } else {
      CancelPrefix("[", Text(items[0]) + (MoreItems(items[1..]) + r), Text(others[0]) + (MoreItems(others[1..]) + s));
      ItemReadsOneWay(items, others, r, s);
    }
  }

  lemma {:induction false} MoreItemsReadOneWay(items: seq<Value>, others: seq<Value>, r: string, s: string)
    requires WellFormed(Arr(items)) && WellFormed(Arr(others)) && Delimited(r) && Delimited(s)
    requires MoreItems(items) + r == MoreItems(others) + s
    ensures items == others && r == s
    decreases items, 2
  {
    MoreItemsStart(items, r);
    MoreItemsStart(others, s);
    if items == [] {
      CancelPrefix("]", r, s);
    } else {
      CancelPrefix(",", Text(items[0]) + (MoreItems(items[1..]) + r), Text(others[0]) + (MoreItems(others[1..]) + s));
      ItemReadsOneWay(items, others, r, s);
    }
  }

  lemma {:induction false} ItemReadsOneWay(items: seq<Value>, others: seq<Value>, r: string, s: string)
    requires items != [] && others != []
    requires WellFormed(Arr(items)) && WellFormed(Arr(others)) && Delimited(r) && Delimited(s)
    requires Text(items[0]) + (MoreItems(items[1..]) + r) == Text(others[0]) + (MoreItems(others[1..]) + s)
    ensures items == others && r == s
    decreases items, 1
  {
    TextReadsOneWay(items[0], others[0], MoreItems(items[1..]) + r, MoreItems(others[1..]) + s);
    MoreItemsReadOneWay(items[1..], others[1..], r, s);
    assert items == [items[0]] + items[1..] && others == [others[0]] + others[1..];
  }

  /** The text of an entry and of what follows it. */
  function EntryText(entries: seq<Entry>, r: string): string
    requires entries != []
  {
    Quote(entries[0].key) + (":" + (Text(entries[0].value) + (MoreEntries(entries[1..]) + r)))
  }

  lemma EntryRegroups(open: string, quoted: string, value: string, more: string, r: string)
    ensures (open + quoted + ":" + value + more) + r == open + (quoted + (":" + (value + (more + r))))
  {
  }

  lemma EntriesStart(entries: seq<Entry>, r: string)
    ensures |Text(Obj(entries)) + r| >= 2
    ensures (Text(Obj(entries)) + r)[1] == '}' <==> entries == []
    ensures Text(Obj(entries)) + r == if entries == [] then "{}" + r else "{" + EntryText(entries, r)
  {
    if entries != [] {
      var quoted, value, more := Quote(entries[0].key), Text(entries[0].value), MoreEntries(entries[1..]);
      assert quoted[0] == '"';
      assert Text(Obj(entries)) == "{" + quoted + ":" + value + more;
      EntryRegroups("{", quoted, value, more, r);
    }
  }

  lemma MoreEntriesStart(entries: seq<Entry>, r: string)
    ensures (MoreEntries(entries) + r)[0] == '}' <==> entries == []
    ensures MoreEntries(entries) + r == if entries == [] then "}" + r else "," + EntryText(entries, r)
  {
    if entries != [] {
      var quoted, value, more := Quote(entries[0].key), Text(entries[0].value), MoreEntries(entries[1..]);
      assert MoreEntries(entries) == "," + quoted + ":" + value + more;
      EntryRegroups(",", quoted, value, more, r);
    }
  }

  lemma {:induction false} EntriesReadOneWay(entries: seq<Entry>, others: seq<Entry>, r: string, s: string)
    requires WellFormed(Obj(entries)) && WellFormed(Obj(others)) && Delimited(r) && Delimited(s)
    requires Text(Obj(entries)) + r == Text(Obj(others)) + s
    ensures entries == others && r == s
    decreases entries, 2
  {
    EntriesStart(entries, r);
    EntriesStart(others, s);
    if entries == [] {
      CancelPrefix("{}", r, s);
    } else {
      CancelPrefix("{", EntryText(entries, r), EntryText(others, s));
      EntryReadsOneWay(entries, others, r, s);
    }
  }

  lemma {:induction false} MoreEntriesReadOneWay(entries: seq<Entry>, others: seq<Entry>, r: string, s: string)
    requires WellFormed(Obj(entries)) && WellFormed(Obj(others)) && Delimited(r) && Delimited(s)
    requires MoreEntries(entries) + r == MoreEntries(others) + s
    ensures entries == others && r == s
    decreases entries, 2
  {
    MoreEntriesStart(entries, r);
    MoreEntriesStart(others, s);
    if entries == [] {
      CancelPrefix("}", r, s);
    } else {
      CancelPrefix(",", EntryText(entries, r), EntryText(others, s));
      EntryReadsOneWay(entries, others, r, s);
    }
  }

  lemma {:induction false} EntryReadsOneWay(entries: seq<Entry>, others: seq<Entry>, r: string, s: string)
    requires entries != [] && others != []
    requires WellFormed(Obj(entries)) && WellFormed(Obj(others)) && Delimited(r) && Delimited(s)
    requires EntryText(entries, r) == EntryText(others, s)
    ensures entries == others && r == s
    decreases entries, 1
  {
    var a := Text(entries[0].value) + (MoreEntries(entries[1..]) + r);
    var b := Text(others[0].value) + (MoreEntries(others[1..]) + s);
    QuoteReadsOneWay(entries[0].key, others[0].key, ":" + a, ":" + b);
    CancelPrefix(":", a, b);
    MoreEntriesDelimited(entries[1..], r);
    MoreEntriesDelimited(others[1..], s);
    TextReadsOneWay(entries[0].value, others[0].value, MoreEntries(entries[1..]) + r, MoreEntries(others[1..]) + s);
    MoreEntriesReadOneWay(entries[1..], others[1..], r, s);
    assert entries == [entries[0]] + entries[1..] && others == [others[0]] + others[1..];
  }

  /** Different values are written differently. */
  lemma TextInjective(v: Value, w: Value)
    requires WellFormed(v) && WellFormed(w) && Text(v) == Text(w)
    ensures v == w
  {
    assert Text(v) + "" == Text(w) + "";
    TextReadsOneWay(v, w, "", "");
  }
}
