/**
 * The rule evaluators, in exact arithmetic:
 *  - rollups of children's values (packages/rules/src/evaluators/rollup.ts),
 *  - aggregation of red, amber and green statuses (packages/rules/src/evaluators/rag-aggregation.ts),
 *  - threshold bands (packages/rules/src/evaluators/threshold-status.ts).
 * Sums are taken from the left, as the program takes them.
 */
module Rules {
  import opened Wrappers

  datatype Direction = HigherIsBetter | LowerIsBetter

  // ---------------------------------------------------------------------------
  // Weighted sums
  // ---------------------------------------------------------------------------

  datatype Term = Term(value: real, weight: real)

  function Weights(terms: seq<Term>): real {
    if terms == [] then 0.0 else Weights(terms[..|terms| - 1]) + terms[|terms| - 1].weight
  }

  function Weighted(terms: seq<Term>): real {
    if terms == [] then 0.0 else Weighted(terms[..|terms| - 1]) + Times(terms[|terms| - 1].value, terms[|terms| - 1].weight)
  }

  function Times(a: real, b: real): real {
    a * b
  }

  predicate NoNegativeWeight(terms: seq<Term>) {
    forall i | 0 <= i < |terms| :: terms[i].weight >= 0.0
  }

  lemma TimesMonotone(a: real, b: real, w: real)
    requires a <= b && w >= 0.0
    ensures Times(a, w) <= Times(b, w)
  {
  }

  /** A weighted sum of values between two bounds lies between the bounds times the weights. */
  lemma {:induction false} WeightedBetween(terms: seq<Term>, lo: real, hi: real)
    requires NoNegativeWeight(terms) && forall i | 0 <= i < |terms| :: lo <= terms[i].value <= hi
    ensures Times(lo, Weights(terms)) <= Weighted(terms) <= Times(hi, Weights(terms))
  {
    if terms != [] {
      var front, last := terms[..|terms| - 1], terms[|terms| - 1];
      WeightedBetween(front, lo, hi);
      TimesMonotone(lo, last.value, last.weight);
      TimesMonotone(last.value, hi, last.weight);
    }
  }

  lemma QuotientBetween(total: real, weight: real, lo: real, hi: real)
    requires weight > 0.0 && Times(lo, weight) <= total <= Times(hi, weight)
    ensures lo <= total / weight <= hi
  {
    var q := total / weight;
    assert q * weight == total;
  }

  lemma {:induction false} SumsConcat(a: seq<Term>, b: seq<Term>)
    ensures Weights(a + b) == Weights(a) + Weights(b) && Weighted(a + b) == Weighted(a) + Weighted(b)
  {
    if b == [] {
      assert a + b == a;
    } else {
      SumsConcat(a, b[..|b| - 1]);
      assert (a + b)[..|a + b| - 1] == a + b[..|b| - 1];
    }
  }

  lemma SumsInsert(s: seq<Term>, k: nat)
    requires k < |s|
    ensures var rest := s[..k] + s[k + 1..];
            Weights(s) == Weights(rest) + s[k].weight && Weighted(s) == Weighted(rest) + Times(s[k].value, s[k].weight)
  {
    assert s == s[..k] + [s[k]] + s[k + 1..];
    SumsConcat(s[..k], s[k + 1..]);
    SumsConcat(s[..k] + [s[k]], s[k + 1..]);
    SumsConcat(s[..k], [s[k]]);
    assert [s[k]][..0] == [];
  }

  lemma WithoutOne<T>(s: seq<T>, k: nat)
    requires k < |s|
    ensures multiset(s) == multiset(s[..k] + s[k + 1..]) + multiset{s[k]}
    ensures multiset(s[..k] + s[k + 1..]) == multiset(s) - multiset{s[k]}
  {
    assert s == s[..k] + [s[k]] + s[k + 1..];
  }

  lemma HasEqual<T>(a: seq<T>, b: seq<T>, x: T) returns (k: nat)
    requires multiset(a) == multiset(b) && x in a
    ensures k < |b| && b[k] == x
  {
    assert x in multiset(b);
    k :| 0 <= k < |b| && b[k] == x;
  }

  /** The order of the terms does not matter. */
  lemma {:induction false} SumsPermute(a: seq<Term>, b: seq<Term>)
    requires multiset(a) == multiset(b)
    ensures Weights(a) == Weights(b) && Weighted(a) == Weighted(b)
    decreases |a|
  {
    assert |a| == |multiset(a)| && |b| == |multiset(b)|;
    if a != [] {
      var front, last := a[..|a| - 1], a[|a| - 1];
      var k := HasEqual(a, b, last);
      WithoutOne(a, |front|);
      WithoutOne(b, k);
      assert a[..|front|] + a[|front| + 1..] == front;
      SumsPermute(front, b[..k] + b[k + 1..]);
      SumsInsert(b, k);
    }
  }

  // ---------------------------------------------------------------------------
  // Rollups
  // ---------------------------------------------------------------------------

  datatype Child = Child(id: string, value: Option<real>)

  datatype RollupRule = Sum | Average | WeightedAverage(weights: map<string, real>) | WorstOf(direction: Direction)

  datatype RollupError = MissingWeight(id: string) | NoPositiveWeight

  datatype Rollup = Rollup(value: Option<real>, included: seq<string>, excluded: seq<string>) | Thrown(error: RollupError)

  function Included(children: seq<Child>): (r: seq<Child>)
    ensures forall i | 0 <= i < |r| :: r[i].value.Some?
  {
    if children == [] then []
    else Included(children[..|children| - 1]) + (if children[|children| - 1].value.Some? then [children[|children| - 1]] else [])
  }

  function Excluded(children: seq<Child>): seq<Child> {
    if children == [] then []
    else Excluded(children[..|children| - 1]) + (if children[|children| - 1].value == None then [children[|children| - 1]] else [])
  }

  function Ids(children: seq<Child>): seq<string> {
    seq(|children|, i requires 0 <= i < |children| => children[i].id)
  }

  /** One term for each included child; plain sums and averages weigh every child alike. */
  function Terms(included: seq<Child>, weight: string -> real): (r: seq<Term>)
    requires forall i | 0 <= i < |included| :: included[i].value.Some?
    ensures |r| == |included|
  {
    seq(|included|, i requires 0 <= i < |included| => Term(included[i].value.value, weight(included[i].id)))
  }

  function Evenly(): string -> real {
    id => 1.0
  }

  function Total(included: seq<Child>): real
    requires forall i | 0 <= i < |included| :: included[i].value.Some?
  {
    Weighted(Terms(included, Evenly()))
  }

  function WeightOf(weights: map<string, real>): string -> real {
    id => if id in weights then weights[id] else 0.0
  }

  function FirstMissing(included: seq<Child>, weights: map<string, real>): Option<string> {
    if included == [] then None
    else if included[0].id !in weights then Some(included[0].id)
    else FirstMissing(included[1..], weights)
  }

  function Extreme(included: seq<Child>, direction: Direction): (r: real)
    requires included != [] && forall i | 0 <= i < |included| :: included[i].value.Some?
    ensures exists i | 0 <= i < |included| :: included[i].value.value == r
    ensures forall i | 0 <= i < |included| ::
              if direction.HigherIsBetter? then r <= included[i].value.value else included[i].value.value <= r
  {
    var last := included[|included| - 1].value.value;
    if |included| == 1 then last
    else
      var rest := Extreme(included[..|included| - 1], direction);
      if direction.HigherIsBetter? == (last < rest) then last else rest
  }

  function EvaluateRollup(rule: RollupRule, children: seq<Child>): Rollup {
    var included := Included(children);
    var ids, excludedIds := Ids(included), Ids(Excluded(children));
    if included == [] then Rollup(None, ids, excludedIds)
    else
      match rule
      case Sum => Rollup(Some(Total(included)), ids, excludedIds)
      case Average => Rollup(Some(Total(included) / |included| as real), ids, excludedIds)
      case WeightedAverage(weights) =>
        var missing := FirstMissing(included, weights);
        var terms := Terms(included, WeightOf(weights));
        if missing.Some? then Thrown(MissingWeight(missing.value))
        else if Weights(terms) <= 0.0 then Thrown(NoPositiveWeight)
        else Rollup(Some(Weighted(terms) / Weights(terms)), ids, excludedIds)
      case WorstOf(direction) => Rollup(Some(Extreme(included, direction)), ids, excludedIds)
  }

  /** Positions of a selection, in the order of what it is taken from. */
  ghost predicate Rising(positions: seq<nat>, length: nat) {
    && (forall i | 0 <= i < |positions| :: positions[i] < length)
    && (forall i, j | 0 <= i < j < |positions| :: positions[i] < positions[j])
  }

  /** Where the children with a value stand, or those without. */
  function Positions(children: seq<Child>, present: bool): (positions: seq<nat>)
    ensures Rising(positions, |children|)
    ensures forall i | 0 <= i < |children| :: i in positions <==> children[i].value.Some? == present
  {
    if children == [] then []
    else
      var last := |children| - 1;
      Positions(children[..last], present) + if children[last].value.Some? == present then [last] else []
  }

  ghost predicate SelectedAt(part: seq<Child>, children: seq<Child>, positions: seq<nat>) {
    Rising(positions, |children|) && |part| == |positions| && forall i | 0 <= i < |part| :: part[i] == children[positions[i]]
  }

  lemma SelectionGrows(part: seq<Child>, children: seq<Child>, positions: seq<nat>, last: Child)
    requires SelectedAt(part, children, positions)
    ensures SelectedAt(part, children + [last], positions)
    ensures SelectedAt(part + [last], children + [last], positions + [|children|])
  {
  }

  lemma {:induction false} IncludedSelected(children: seq<Child>)
    ensures SelectedAt(Included(children), children, Positions(children, true))
  {
    if children != [] {
      var front, last := children[..|children| - 1], children[|children| - 1];
      IncludedSelected(front);
      SelectionGrows(Included(front), front, Positions(front, true), last);
      assert children == front + [last];
    }
  }

  lemma {:induction false} ExcludedSelected(children: seq<Child>)
    ensures SelectedAt(Excluded(children), children, Positions(children, false))
  {
    if children != [] {
      var front, last := children[..|children| - 1], children[|children| - 1];
      ExcludedSelected(front);
      SelectionGrows(Excluded(front), front, Positions(front, false), last);
      assert children == front + [last];
    }
  }

  function IdsAt(children: seq<Child>, positions: seq<nat>): seq<string>
    requires Rising(positions, |children|)
  {
    seq(|positions|, i requires 0 <= i < |positions| => children[positions[i]].id)
  }

  /** The ids a rollup reports partition the children: those with a value are included, those without
      excluded, each in the order given. */
  lemma Partition(rule: RollupRule, children: seq<Child>) returns (present: seq<nat>, missing: seq<nat>)
    requires EvaluateRollup(rule, children).Rollup?
    ensures Rising(present, |children|) && Rising(missing, |children|)
    ensures forall i | 0 <= i < |children| :: i in present <==> children[i].value.Some?
    ensures forall i | 0 <= i < |children| :: i in missing <==> i !in present
    ensures EvaluateRollup(rule, children).included == IdsAt(children, present)
    ensures EvaluateRollup(rule, children).excluded == IdsAt(children, missing)
  {
    present, missing := Positions(children, true), Positions(children, false);
    IncludedSelected(children);
    ExcludedSelected(children);
    RollupReports(rule, children);
    IdsSelected(Included(children), children, present);
    IdsSelected(Excluded(children), children, missing);
  }

  lemma IdsSelected(part: seq<Child>, children: seq<Child>, positions: seq<nat>)
    requires SelectedAt(part, children, positions)
    ensures Ids(part) == IdsAt(children, positions)
  {
  }

  lemma RollupReports(rule: RollupRule, children: seq<Child>)
    requires EvaluateRollup(rule, children).Rollup?
    ensures EvaluateRollup(rule, children).included == Ids(Included(children))
    ensures EvaluateRollup(rule, children).excluded == Ids(Excluded(children))
  {
  }

  lemma {:induction false} IncludedConcat(a: seq<Child>, b: seq<Child>)
    ensures Included(a + b) == Included(a) + Included(b)
  {
    if b == [] {
      assert a + b == a;
    } else {
      IncludedConcat(a, b[..|b| - 1]);
      assert (a + b)[..|a + b| - 1] == a + b[..|b| - 1];
    }
  }

  lemma TotalConcat(a: seq<Child>, b: seq<Child>)
    requires forall i | 0 <= i < |a + b| :: (a + b)[i].value.Some?
    ensures (forall i | 0 <= i < |a| :: a[i].value.Some?) && (forall i | 0 <= i < |b| :: b[i].value.Some?)
    ensures Total(a + b) == Total(a) + Total(b)
  {
    assert forall i | 0 <= i < |a| :: a[i] == (a + b)[i];
    assert forall i | 0 <= i < |b| :: b[i] == (a + b)[|a| + i];
    assert Terms(a + b, Evenly()) == Terms(a, Evenly()) + Terms(b, Evenly());
    SumsConcat(Terms(a, Evenly()), Terms(b, Evenly()));
  }

  function Flatten(groups: seq<seq<Child>>): seq<Child> {
    if groups == [] then [] else Flatten(groups[..|groups| - 1]) + groups[|groups| - 1]
  }

  /** The groups rolled up, as children of the next level. */
  function RolledUp(groups: seq<seq<Child>>, ids: seq<string>): seq<Child>
    requires |ids| == |groups|
  {
    seq(|groups|, i requires 0 <= i < |groups| => Child(ids[i], EvaluateRollup(Sum, groups[i]).value))
  }

  function SumValue(children: seq<Child>): Option<real> {
    if Included(children) == [] then None else Some(Total(Included(children)))
  }

  function Add(a: Option<real>, b: Option<real>): Option<real> {
    if a == None then b else if b == None then a else Some(a.value + b.value)
  }

  lemma SumRollup(children: seq<Child>)
    ensures EvaluateRollup(Sum, children).Rollup? && EvaluateRollup(Sum, children).value == SumValue(children)
  {
  }

  lemma SumValueConcat(a: seq<Child>, b: seq<Child>)
    ensures SumValue(a + b) == Add(SumValue(a), SumValue(b))
  {
    IncludedConcat(a, b);
    TotalConcat(Included(a), Included(b));
    if Included(a) == [] {
      assert Included(a) + Included(b) == Included(b);
    } else if Included(b) == [] {
      assert Included(a) + Included(b) == Included(a);
    }
  }

  lemma SumValueOne(c: Child)
    ensures SumValue([c]) == c.value
  {
    assert [c][..0] == [];
    assert Included([c]) == if c.value.Some? then [c] else [];
    if c.value.Some? {
      var terms := Terms([c], Evenly());
      assert terms == [Term(c.value.value, 1.0)] && terms[..0] == [];
      assert Times(c.value.value, 1.0) == c.value.value;
      assert Weighted(terms) == Weighted(terms[..0]) + Times(c.value.value, 1.0);
    }
  }

  /** A sum of sums is the sum of all, missing values included. */
  lemma {:induction false} SumOfSums(groups: seq<seq<Child>>, ids: seq<string>)
    requires |ids| == |groups|
    ensures EvaluateRollup(Sum, RolledUp(groups, ids)).value == EvaluateRollup(Sum, Flatten(groups)).value
  {
    SumRollup(RolledUp(groups, ids));
    SumRollup(Flatten(groups));
    SumsAgree(groups, ids);
  }

  lemma {:induction false} SumsAgree(groups: seq<seq<Child>>, ids: seq<string>)
    requires |ids| == |groups|
    ensures SumValue(RolledUp(groups, ids)) == SumValue(Flatten(groups))
  {
    if groups != [] {
      var n := |groups| - 1;
      var front, last := RolledUp(groups[..n], ids[..n]), Child(ids[n], SumValue(groups[n]));
      SumRollup(groups[n]);
      assert RolledUp(groups, ids) == front + [last];
      SumsAgree(groups[..n], ids[..n]);
      SumValueConcat(front, [last]);
      SumValueOne(last);
      SumValueConcat(Flatten(groups[..n]), groups[n]);
    }
  }

  /** An average, weighted or not, lies between any bounds of the included values. */
  lemma AverageBetween(rule: RollupRule, children: seq<Child>, lo: real, hi: real)
    requires rule.Average? || rule.WeightedAverage?
    requires rule.WeightedAverage? ==> forall id | id in rule.weights :: rule.weights[id] >= 0.0
    requires forall c | c in Included(children) :: lo <= c.value.value <= hi
    ensures var r := EvaluateRollup(rule, children);
            r.Rollup? && r.value.Some? ==> lo <= r.value.value <= hi
  {
    var included := Included(children);
    var r := EvaluateRollup(rule, children);
    if r.Rollup? && r.value.Some? {
      var terms := Terms(included, if rule.Average? then Evenly() else WeightOf(rule.weights));
      forall i | 0 <= i < |terms| ensures lo <= terms[i].value <= hi && terms[i].weight >= 0.0 {
        assert included[i] in included;
      }
      WeightedBetween(terms, lo, hi);
      if rule.Average? {
        UnitWeights(included, |included|);
        assert terms[..|included|] == terms;
      }
      QuotientBetween(Weighted(terms), Weights(terms), lo, hi);
    }
  }

  lemma {:induction false} UnitWeights(included: seq<Child>, n: nat)
    requires n <= |included| && forall i | 0 <= i < |included| :: included[i].value.Some?
    ensures Weights(Terms(included, Evenly())[..n]) == n as real
  {
    if n > 0 {
      UnitWeights(included, n - 1);
      var terms := Terms(included, Evenly());
      assert terms[..n][..n - 1] == terms[..n - 1];
    }
  }

  // What each rollup comes to, by sums taken over the children themselves.

  /** The sum, over the children with a value, of what each stands for. */
  ghost function SumOver(children: seq<Child>, of: Child -> real): real {
    if children == [] then 0.0
    else (if children[0].value.Some? then of(children[0]) else 0.0) + SumOver(children[1..], of)
  }

  function ValueOf(): Child -> real {
    (c: Child) => if c.value.Some? then c.value.value else 0.0
  }

  function One(): Child -> real {
    (c: Child) => 1.0
  }

  function WeightGiven(weights: map<string, real>): Child -> real {
    (c: Child) => if c.id in weights then weights[c.id] else 0.0
  }

  function WeighedValue(weights: map<string, real>): Child -> real {
    (c: Child) => Times(ValueOf()(c), WeightGiven(weights)(c))
  }

  ghost predicate AnyValue(children: seq<Child>) {
    exists i | 0 <= i < |children| :: children[i].value.Some?
  }

  /** The first child with a value for which there is no weight. */
  ghost predicate FirstUnweighted(children: seq<Child>, weights: map<string, real>, id: string) {
    exists i | 0 <= i < |children| ::
      && children[i].value.Some? && children[i].id == id && id !in weights
      && forall j | 0 <= j < i && children[j].value.Some? :: children[j].id in weights
  }

  ghost predicate AllWeighted(children: seq<Child>, weights: map<string, real>) {
    forall i | 0 <= i < |children| && children[i].value.Some? :: children[i].id in weights
  }

  /** No value is worse than the answer, and some child has it. */
  ghost predicate IsWorst(children: seq<Child>, direction: Direction, worst: real) {
    && (exists i | 0 <= i < |children| :: children[i].value == Some(worst))
    && forall i | 0 <= i < |children| && children[i].value.Some? ::
         if direction == HigherIsBetter then worst <= children[i].value.value else children[i].value.value <= worst
  }

  /** What a rollup answers, in every case. */
  ghost predicate Means(rule: RollupRule, children: seq<Child>, r: Rollup) {
    if !AnyValue(children) then r.Rollup? && r.value == None
    else
      match rule
      case Sum => r.Rollup? && r.value == Some(SumOver(children, ValueOf()))
      case Average =>
        r.Rollup? && r.value.Some? && Times(r.value.value, SumOver(children, One())) == SumOver(children, ValueOf())
      case WeightedAverage(weights) =>
        var total := SumOver(children, WeightGiven(weights));
        if !AllWeighted(children, weights) then r.Thrown? && r.error.MissingWeight? && FirstUnweighted(children, weights, r.error.id)
        else if total <= 0.0 then r == Thrown(NoPositiveWeight)
        else r.Rollup? && r.value.Some? && Times(r.value.value, total) == SumOver(children, WeighedValue(weights))
      case WorstOf(direction) => r.Rollup? && r.value.Some? && IsWorst(children, direction, r.value.value)
  }

  lemma {:induction false} SumOverGrows(children: seq<Child>, last: Child, of: Child -> real)
    ensures SumOver(children + [last], of) == SumOver(children, of) + if last.value.Some? then of(last) else 0.0
  {
    if children == [] {
      assert [last][1..] == [] && [] + [last] == [last];
    } else {
      SumOverGrows(children[1..], last, of);
      assert (children + [last])[1..] == children[1..] + [last];
    }
  }

  lemma TermsGrow(terms: seq<Term>, last: Term)
    ensures Weights(terms + [last]) == Weights(terms) + last.weight
    ensures Weighted(terms + [last]) == Weighted(terms) + Times(last.value, last.weight)
  {
    assert (terms + [last])[..|terms|] == terms;
  }

  /** Sums over the included children are sums over all that have a value. */
  lemma {:induction false} TermsOver(children: seq<Child>, weight: string -> real, weightOf: Child -> real, product: Child -> real)
    requires forall c: Child :: weightOf(c) == weight(c.id) && product(c) == Times(ValueOf()(c), weight(c.id))
    ensures Weights(Terms(Included(children), weight)) == SumOver(children, weightOf)
    ensures Weighted(Terms(Included(children), weight)) == SumOver(children, product)
  {
    if children != [] {
      var front, last := children[..|children| - 1], children[|children| - 1];
      TermsOver(front, weight, weightOf, product);
      assert children == front + [last];
      SumOverGrows(front, last, weightOf);
      SumOverGrows(front, last, product);
      if last.value.Some? {
        var term := Term(last.value.value, weight(last.id));
        assert Terms(Included(children), weight) == Terms(Included(front), weight) + [term];
        TermsGrow(Terms(Included(front), weight), term);
      } else {
        assert Included(children) == Included(front);
      }
    }
  }

  lemma {:induction false} IncludedAre(children: seq<Child>)
    ensures forall c :: c in Included(children) <==> c in children && c.value.Some?
  {
    if children != [] {
      var front, last := children[..|children| - 1], children[|children| - 1];
      IncludedAre(front);
      assert children == front + [last];
    }
  }

  lemma IncludedIsAny(children: seq<Child>)
    ensures Included(children) != [] <==> AnyValue(children)
    ensures forall c :: c in Included(children) <==> c in children && c.value.Some?
  {
    IncludedAre(children);
    if Included(children) != [] {
      assert Included(children)[0] in children;
    }
    if i :| 0 <= i < |children| && children[i].value.Some? {
      assert children[i] in Included(children);
    }
  }

  lemma {:induction false} EvenSums(children: seq<Child>)
    ensures Total(Included(children)) == SumOver(children, ValueOf())
    ensures |Included(children)| as real == SumOver(children, One())
  {
    if children != [] {
      var front, last := children[..|children| - 1], children[|children| - 1];
      EvenSums(front);
      assert children == front + [last];
      SumOverGrows(front, last, ValueOf());
      SumOverGrows(front, last, One());
      if last.value.Some? {
        var term := Term(last.value.value, 1.0);
        assert Terms(Included(children), Evenly()) == Terms(Included(front), Evenly()) + [term];
        TermsGrow(Terms(Included(front), Evenly()), term);
        assert Times(last.value.value, 1.0) == last.value.value;
      } else {
        assert Included(children) == Included(front);
      }
    }
  }

  lemma {:induction false} FirstMissingIs(children: seq<Child>, weights: map<string, real>)
    ensures var missing := FirstMissing(Included(children), weights);
            && (missing == None <==> AllWeighted(children, weights))
            && (missing.Some? ==> FirstUnweighted(children, weights, missing.value))
  {
    if children != [] {
      var front, last := children[..|children| - 1], children[|children| - 1];
      FirstMissingIs(front, weights);
      assert children == front + [last];
      MissingGrows(Included(front), last, weights);
      assert last.value == None ==> Included(children) == Included(front);
      UnweightedGrows(front, last, weights);
    }
  }

  lemma UnweightedGrows(front: seq<Child>, last: Child, weights: map<string, real>)
    ensures forall id | FirstUnweighted(front, weights, id) :: FirstUnweighted(front + [last], weights, id)
    ensures AllWeighted(front + [last], weights) <==> AllWeighted(front, weights) && (last.value.Some? ==> last.id in weights)
    ensures AllWeighted(front, weights) && last.value.Some? && last.id !in weights ==>
              FirstUnweighted(front + [last], weights, last.id)
  {
    var all := front + [last];
    assert all[|front|] == last && forall i | 0 <= i < |front| :: all[i] == front[i];
    forall id | FirstUnweighted(front, weights, id) ensures FirstUnweighted(all, weights, id) {
      var i :| 0 <= i < |front| && front[i].value.Some? && front[i].id == id && id !in weights
               && forall j | 0 <= j < i && front[j].value.Some? :: front[j].id in weights;
      assert all[i] == front[i] && forall j | 0 <= j < i && all[j].value.Some? :: all[j].id in weights;
    }
    if AllWeighted(all, weights) {
      forall i | 0 <= i < |front| && front[i].value.Some? ensures front[i].id in weights {
        assert all[i] == front[i];
      }
    }
  }

  lemma {:induction false} MissingGrows(included: seq<Child>, last: Child, weights: map<string, real>)
    ensures FirstMissing(included + [last], weights) ==
            if FirstMissing(included, weights).Some? then FirstMissing(included, weights)
            else if last.id !in weights then Some(last.id) else None
    ensures FirstMissing(included + [], weights) == FirstMissing(included, weights)
  {
    assert included + [] == included;
    if included == [] {
      assert [] + [last] == [last] && [last][1..] == [];
    } else {
      MissingGrows(included[1..], last, weights);
      assert (included + [last])[1..] == included[1..] + [last];
    }
  }

  lemma QuotientBack(total: real, weight: real)
    requires weight != 0.0
    ensures Times(total / weight, weight) == total
  {
  }

  /** Every rollup answers what it is meant to, on every list of children. */
  lemma RollupMeans(rule: RollupRule, children: seq<Child>)
    ensures Means(rule, children, EvaluateRollup(rule, children))
  {
    var included := Included(children);
    IncludedIsAny(children);
    if included != [] {
      match rule {
        case Sum => EvenSums(children);
        case Average =>
          EvenSums(children);
          QuotientBack(Total(included), |included| as real);
        case WeightedAverage(weights) => WeightedMeans(weights, children);
        case WorstOf(direction) => ExtremeIsWorst(children, direction);
      }
    }
  }

  lemma WeightedMeans(weights: map<string, real>, children: seq<Child>)
    requires Included(children) != [] && AnyValue(children)
    ensures Means(WeightedAverage(weights), children, EvaluateRollup(WeightedAverage(weights), children))
  {
    var terms := Terms(Included(children), WeightOf(weights));
    FirstMissingIs(children, weights);
    TermsOver(children, WeightOf(weights), WeightGiven(weights), WeighedValue(weights));
    if Weights(terms) > 0.0 {
      QuotientBack(Weighted(terms), Weights(terms));
    }
  }

  lemma ExtremeIsWorst(children: seq<Child>, direction: Direction)
    requires Included(children) != []
    ensures IsWorst(children, direction, Extreme(Included(children), direction))
  {
    var included := Included(children);
    var worst := Extreme(included, direction);
    IncludedIsAny(children);
    var k :| 0 <= k < |included| && included[k].value.value == worst;
    assert included[k] in children;
    forall i | 0 <= i < |children| && children[i].value.Some?
      ensures if direction == HigherIsBetter then worst <= children[i].value.value else children[i].value.value <= worst
    {
      assert children[i] in included;
    }
  }

  // ---------------------------------------------------------------------------
  // RAG aggregation
  // ---------------------------------------------------------------------------

  datatype RagStatus = OnTrack | Watch | OffTrack

  datatype RagChild = RagChild(id: string, status: RagStatus, weight: Option<real>)

  datatype RagRule = WorstChildWins | WeightedCount(watchThreshold: real, offTrackThreshold: real)

  datatype RagResult = RagResult(status: RagStatus, score: real)

  function Score(status: RagStatus): real {
    match status
    case OnTrack => 0.0
    case Watch => 0.5
    case OffTrack => 1.0
  }

  function WorstScore(children: seq<RagChild>): (r: real)
    requires children != []
    ensures exists i | 0 <= i < |children| :: Score(children[i].status) == r
    ensures forall i | 0 <= i < |children| :: Score(children[i].status) <= r
  {
    var last := Score(children[|children| - 1].status);
    if |children| == 1 then last
    else
      var rest := WorstScore(children[..|children| - 1]);
      if last > rest then last else rest
  }

  function RagTerm(child: RagChild): Term {
    Term(Score(child.status), if child.weight.Some? then child.weight.value else 1.0)
  }

  function RagTerms(children: seq<RagChild>): seq<Term> {
    seq(|children|, i requires 0 <= i < |children| => RagTerm(children[i]))
  }

  /** Weights, when given, are positive. */
  predicate ValidChildren(children: seq<RagChild>) {
    children != [] && forall i | 0 <= i < |children| :: children[i].weight.Some? ==> children[i].weight.value > 0.0
  }

  lemma {:induction false} RagWeightsPositive(children: seq<RagChild>, n: nat)
    requires ValidChildren(children) && n <= |children|
    ensures if n == 0 then Weights(RagTerms(children)[..n]) == 0.0 else Weights(RagTerms(children)[..n]) > 0.0
  {
    if n > 0 {
      RagWeightsPositive(children, n - 1);
      assert RagTerms(children)[..n][..n - 1] == RagTerms(children)[..n - 1];
    }
  }

  lemma RagWeightPositive(children: seq<RagChild>)
    requires ValidChildren(children)
    ensures Weights(RagTerms(children)) > 0.0
  {
    RagWeightsPositive(children, |children|);
    assert RagTerms(children)[..|children|] == RagTerms(children);
  }

  function WeightedScore(children: seq<RagChild>): real
    requires ValidChildren(children)
  {
    RagWeightPositive(children);
    Weighted(RagTerms(children)) / Weights(RagTerms(children))
  }

  function EvaluateRag(rule: RagRule, children: seq<RagChild>): RagResult
    requires ValidChildren(children)
  {
    match rule
    case WorstChildWins =>
      var score := WorstScore(children);
      RagResult(if score == 1.0 then OffTrack else if score == 0.5 then Watch else OnTrack, score)
    case WeightedCount(watch, offTrack) =>
      var score := WeightedScore(children);
      RagResult(if score >= offTrack then OffTrack else if score >= watch then Watch else OnTrack, score)
  }

  /** How bad a status is. */
  ghost function Badness(child: RagChild): real {
    if child.status == OffTrack then 1.0 else if child.status == Watch then 0.5 else 0.0
  }

  /** A child without a weight counts once. */
  ghost function RagWeight(child: RagChild): real {
    if child.weight == None then 1.0 else child.weight.value
  }

  ghost function RagWeightsOver(children: seq<RagChild>): real {
    if children == [] then 0.0 else RagWeight(children[0]) + RagWeightsOver(children[1..])
  }

  ghost function RagBadnessOver(children: seq<RagChild>): real {
    if children == [] then 0.0 else Times(Badness(children[0]), RagWeight(children[0])) + RagBadnessOver(children[1..])
  }

  lemma {:induction false} RagSumsOver(children: seq<RagChild>)
    ensures Weights(RagTerms(children)) == RagWeightsOver(children)
    ensures Weighted(RagTerms(children)) == RagBadnessOver(children)
  {
    if children != [] {
      var first, rest := children[0], children[1..];
      RagSumsOver(rest);
      SumsConcat([RagTerm(first)], RagTerms(rest));
      assert RagTerms(children) == [RagTerm(first)] + RagTerms(rest);
      assert [RagTerm(first)][..0] == [];
      assert Weighted([RagTerm(first)]) == Times(Badness(first), RagWeight(first));
    }
  }

  /** The weighted score is the mean badness, and its status is the worst whose threshold it reaches; the other score
      is that of the worst child. */
  lemma RagMeans(rule: RagRule, children: seq<RagChild>)
    requires ValidChildren(children)
    ensures var r := EvaluateRag(rule, children);
            match rule
            case WorstChildWins =>
              && (exists i | 0 <= i < |children| :: children[i].status == r.status && r.score == Badness(children[i]))
              && forall i | 0 <= i < |children| :: Badness(children[i]) <= r.score
            case WeightedCount(watch, offTrack) =>
              && Times(r.score, RagWeightsOver(children)) == RagBadnessOver(children)
              && (r.status == OffTrack <==> offTrack <= r.score)
              && (r.status == Watch <==> watch <= r.score < offTrack)
  {
    match rule {
      case WorstChildWins =>
        var i :| 0 <= i < |children| && Score(children[i].status) == WorstScore(children);
        assert children[i].status == EvaluateRag(rule, children).status;
      case WeightedCount(watch, offTrack) =>
        RagSumsOver(children);
        RagWeightPositive(children);
        QuotientBack(Weighted(RagTerms(children)), Weights(RagTerms(children)));
    }
  }

  lemma RagTermsBetween(children: seq<RagChild>, hi: real)
    requires ValidChildren(children) && forall i | 0 <= i < |children| :: Score(children[i].status) <= hi
    ensures 0.0 <= WeightedScore(children) <= hi
  {
    RagWeightPositive(children);
    WeightedBetween(RagTerms(children), 0.0, hi);
    QuotientBetween(Weighted(RagTerms(children)), Weights(RagTerms(children)), 0.0, hi);
  }

  /** Every score lies between nothing and one, and the weighted score never above the worst child's. */
  lemma RagBounds(rule: RagRule, children: seq<RagChild>)
    requires ValidChildren(children)
    ensures 0.0 <= EvaluateRag(rule, children).score <= EvaluateRag(WorstChildWins, children).score <= 1.0
  {
    RagTermsBetween(children, WorstScore(children));
  }

  /** The worst child's status is the status of a child, and none is worse. */
  lemma WorstChildIsWorst(children: seq<RagChild>)
    requires ValidChildren(children)
    ensures var status := EvaluateRag(WorstChildWins, children).status;
            && (exists i | 0 <= i < |children| :: children[i].status == status)
            && (forall i | 0 <= i < |children| :: Score(children[i].status) <= Score(status))
  {
    var i :| 0 <= i < |children| && Score(children[i].status) == WorstScore(children);
    assert children[i].status == EvaluateRag(WorstChildWins, children).status;
  }

  lemma WorstPermutes(a: seq<RagChild>, b: seq<RagChild>)
    requires a != [] && b != [] && multiset(a) == multiset(b)
    ensures WorstScore(a) <= WorstScore(b)
  {
    var i :| 0 <= i < |a| && Score(a[i].status) == WorstScore(a);
    var j := HasEqual(a, b, a[i]);
  }

  /** The order of the children does not matter. */
  lemma RagPermutes(rule: RagRule, a: seq<RagChild>, b: seq<RagChild>)
    requires ValidChildren(a) && ValidChildren(b) && multiset(a) == multiset(b)
    ensures EvaluateRag(rule, a) == EvaluateRag(rule, b)
  {
    if rule.WorstChildWins? {
      WorstPermutes(a, b);
      WorstPermutes(b, a);
    } else {
      TermsPermute(a, b);
      SumsPermute(RagTerms(a), RagTerms(b));
    }
  }

  lemma TermsWithout(a: seq<RagChild>, k: nat)
    requires k < |a|
    ensures multiset(RagTerms(a)) == multiset(RagTerms(a[..k] + a[k + 1..])) + multiset{RagTerm(a[k])}
  {
    WithoutOne(RagTerms(a), k);
    assert RagTerms(a)[..k] + RagTerms(a)[k + 1..] == RagTerms(a[..k] + a[k + 1..]);
  }

  lemma {:induction false} TermsPermute(a: seq<RagChild>, b: seq<RagChild>)
    requires multiset(a) == multiset(b)
    ensures multiset(RagTerms(a)) == multiset(RagTerms(b))
    decreases |a|
  {
    assert |a| == |multiset(a)| && |b| == |multiset(b)|;
    if a != [] {
      var front, last := a[..|a| - 1], a[|a| - 1];
      var k := HasEqual(a, b, last);
      var rest := b[..k] + b[k + 1..];
      WithoutOne(a, |front|);
      WithoutOne(b, k);
      assert a[..|front|] + a[|front| + 1..] == front;
      TermsPermute(front, rest);
      TermsWithout(a, |front|);
      TermsWithout(b, k);
    }
  }

  /** Worsening a child never improves the whole. */
  lemma RagMonotone(rule: RagRule, children: seq<RagChild>, k: nat, status: RagStatus)
    requires ValidChildren(children) && k < |children| && Score(children[k].status) <= Score(status)
    ensures var worse := children[k := children[k].(status := status)];
            && ValidChildren(worse) && EvaluateRag(rule, children).score <= EvaluateRag(rule, worse).score
            && Score(EvaluateRag(rule, children).status) <= Score(EvaluateRag(rule, worse).status)
  {
    var worse := children[k := children[k].(status := status)];
    if rule.WorstChildWins? {
      var i :| 0 <= i < |children| && Score(children[i].status) == WorstScore(children);
      assert Score(children[i].status) <= Score(worse[i].status);
    } else {
      WorseTerms(RagTerms(children), k, Score(status));
      assert RagTerms(worse) == RagTerms(children)[k := Term(Score(status), RagTerms(children)[k].weight)];
      RagWeightPositive(children);
      QuotientMonotone(Weighted(RagTerms(children)), Weighted(RagTerms(worse)), Weights(RagTerms(children)));
    }
  }

  lemma WorseTerms(terms: seq<Term>, k: nat, value: real)
    requires k < |terms| && terms[k].value <= value && terms[k].weight > 0.0
    ensures var worse := terms[k := Term(value, terms[k].weight)];
            Weights(worse) == Weights(terms) && Weighted(worse) >= Weighted(terms)
  {
    var front, back, was, now := terms[..k], terms[k + 1..], terms[k], Term(value, terms[k].weight);
    assert terms == front + [was] + back && terms[k := now] == front + [now] + back;
    SumsConcat(front, [was]);
    SumsConcat(front, [now]);
    SumsConcat(front + [was], back);
    SumsConcat(front + [now], back);
    assert [was][..0] == [] && [now][..0] == [];
    TimesMonotone(was.value, value, was.weight);
  }

  lemma QuotientMonotone(a: real, b: real, w: real)
    requires a <= b && w > 0.0
    ensures a / w <= b / w
  {
    var p, q := a / w, b / w;
    assert p * w == a && q * w == b;
  }

  // ---------------------------------------------------------------------------
  // Threshold bands
  // ---------------------------------------------------------------------------

  datatype Comparator = Gt | Gte | Lt | Lte | Eq | Neq

  datatype Band = Band(title: string, color: string, comparator: Comparator, value: real)

  predicate Compare(actual: real, comparator: Comparator, expected: real) {
    match comparator
    case Gt => actual > expected
    case Gte => actual >= expected
    case Lt => actual < expected
    case Lte => actual <= expected
    case Eq => actual == expected
    case Neq => actual != expected
  }

  /** Of two numbers one is greater, or they are equal, and each comparator is made of these. */
  lemma ComparatorsPart(a: real, b: real)
    ensures Compare(a, Eq, b) <==> a == b
    ensures Compare(a, Gt, b) <==> Compare(b, Lt, a)
    ensures Compare(a, Gt, b) || Compare(a, Lt, b) <==> Compare(a, Neq, b)
    ensures !(Compare(a, Gt, b) && Compare(a, Lt, b)) && (Compare(a, Eq, b) <==> !Compare(a, Neq, b))
    ensures Compare(a, Gte, b) <==> Compare(a, Gt, b) || Compare(a, Eq, b)
    ensures Compare(a, Lte, b) <==> Compare(a, Lt, b) || Compare(a, Eq, b)
    ensures Compare(a, Gt, b) ==> Compare(a + 1.0, Gt, b) && !Compare(b, Gt, a + 1.0)
    ensures Compare(a + 1.0, Gt, a)
  {
  }

  /** The first band the value matches; the evaluator throws when there is none. */
  function MatchedBand(bands: seq<Band>, value: real): (index: Option<nat>)
    ensures index == None <==> forall i | 0 <= i < |bands| :: !Compare(value, bands[i].comparator, bands[i].value)
    ensures index.Some? ==>
              && index.value < |bands| && Compare(value, bands[index.value].comparator, bands[index.value].value)
              && forall i | 0 <= i < index.value :: !Compare(value, bands[i].comparator, bands[i].value)
  {
    if bands == [] then None
    else if Compare(value, bands[0].comparator, bands[0].value) then Some(0)
    else
      var rest := MatchedBand(bands[1..], value);
      assert forall i | 0 <= i < |bands[1..]| :: bands[1..][i] == bands[i + 1];
      if rest == None then None else Some(rest.value + 1)
  }

  /** When all bands ask for more than a value, a larger value never matches a later band. */
  lemma LargerMatchesNoLater(bands: seq<Band>, low: real, high: real)
    requires low <= high && forall i | 0 <= i < |bands| :: bands[i].comparator == Gt || bands[i].comparator == Gte
    requires MatchedBand(bands, low).Some?
    ensures MatchedBand(bands, high).Some? && MatchedBand(bands, high).value <= MatchedBand(bands, low).value
  {
    var k := MatchedBand(bands, low).value;
    assert Compare(high, bands[k].comparator, bands[k].value);
  }
}
