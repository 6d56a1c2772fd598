/** Queue job ids: segments joined by two dashes, with colons replaced (apps/backend/src/queue/queue.constants.ts). */
module JobIds {

  /** Every colon becomes an underscore. */
  function Clean(s: string): (r: string)
    ensures |r| == |s|
  {
    seq(|s|, i requires 0 <= i < |s| => if s[i] == ':' then '_' else s[i])
  }

  function Join(segments: seq<string>): string {
    if segments == [] then ""
    else if |segments| == 1 then segments[0]
    else segments[0] + "--" + Join(segments[1..])
  }

  function BuildJobId(kind: string, segments: seq<string>): string {
    Join([Clean(kind)] + seq(|segments|, i requires 0 <= i < |segments| => Clean(segments[i])))
  }

  /** The queue refuses ids with colons; no job id has one. */
  lemma {:induction false} NoColon(segments: seq<string>)
    requires forall i | 0 <= i < |segments| :: ':' !in segments[i]
    ensures ':' !in Join(segments)
  {
    if |segments| > 1 {
      NoColon(segments[1..]);
    }
  }

  lemma BuiltWithoutColon(kind: string, segments: seq<string>)
    ensures ':' !in BuildJobId(kind, segments)
  {
    NoColon([Clean(kind)] + seq(|segments|, i requires 0 <= i < |segments| => Clean(segments[i])));
  }

  lemma JoinThree(a: string, b: string, c: string)
    ensures Join([a, b, c]) == a + "--" + (b + "--" + c)
  {
    assert [a, b, c][1..] == [b, c] && [b, c][1..] == [c];
    assert Join([b, c]) == b + "--" + Join([c]);
    assert Join([a, b, c]) == a + "--" + Join([b, c]);
  }

  /**
   * The ids of two jobs of one kind, for a first segment of fixed length such as a UUID: they are the same exactly when both
   * segments are the same up to colons.
   */
  lemma SameJobIdIff(kind: string, a: string, s: string, b: string, t: string)
    requires |a| == |b|
    ensures BuildJobId(kind, [a, s]) == BuildJobId(kind, [b, t]) <==> Clean(a) == Clean(b) && Clean(s) == Clean(t)
  {
    Spelled(kind, a, s);
    Spelled(kind, b, t);
    var x, y := Clean(a) + "--" + Clean(s), Clean(b) + "--" + Clean(t);
    var front := Clean(kind) + "--";
    if front + x == front + y {
      assert x == (front + x)[|front|..] && y == (front + y)[|front|..];
      assert Clean(a) == x[..|a|] && Clean(b) == y[..|b|];
      assert Clean(s) == x[|a| + 2..] && Clean(t) == y[|b| + 2..];
    }
  }

  lemma Spelled(kind: string, a: string, s: string)
    ensures BuildJobId(kind, [a, s]) == Clean(kind) + "--" + (Clean(a) + "--" + Clean(s))
  {
    var parts := [Clean(kind)] + seq(2, i requires 0 <= i < 2 => Clean([a, s][i]));
    assert parts == [Clean(kind), Clean(a), Clean(s)];
    JoinThree(Clean(kind), Clean(a), Clean(s));
  }

  /** Without a fixed length the dashes of one segment pass for the separator. */
  lemma LengthMatters()
    ensures BuildJobId("event", ["a--b", "c"]) == BuildJobId("event", ["a", "b--c"])
  {
    Spelled("event", "a--b", "c");
    Spelled("event", "a", "b--c");
    assert Clean("a--b") + "--" + Clean("c") == "a--b--c" == Clean("a") + "--" + Clean("b--c");
  }
}
