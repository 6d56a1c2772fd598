/** Captured actuals, matched to KPIs and applied (services/pixelrag/spm_poc/workflows.py). */
module DataCapture {
  import opened Wrappers

  datatype Kpi = Kpi(name: Option<string>, actual: Option<string>)

  datatype Measurement = Measurement(kpiName: string, period: string, actual: string, document: Option<string>, details: string)

  datatype Severity = Warning | Critical

  datatype Alert = Alert(severity: Severity, kpiName: string, previous: string, current: string, document: Option<string>)

  datatype Data = Data(kpis: seq<Kpi>, measurements: seq<Measurement>, alerts: seq<Alert>)

  datatype Extracted = Extracted(name: Option<string>, actual: Option<string>, period: Option<string>, details: string)

  datatype Status = MissingActual | Unmatched | LowConfidence | Ambiguous | Matched

  datatype Update = Update(
    proposedActual: Option<string>,
    period: Option<string>,
    document: Option<string>,
    details: string,
    status: Status,
    selected: bool,
    matchedKpi: Option<string>,
    currentActual: Option<string>,
    matchedIndex: Option<int>)

  datatype ApplyResult = ApplyResult(updatedKpis: nat, createdMeasurements: nat, generatedAlerts: nat, skipped: nat)

  /**
   * What the rules take as given: name normalisation, the similarity of an extracted name to a KPI, and the number a text starts
   * with; `minimum` is the confidence below which a match is refused.
   */
  datatype Rules = Rules(
    normalize: string -> string,
    similarity: (Option<string>, Kpi) -> real,
    number: string -> Option<real>,
    minimum: real)

  function Normalized(rules: Rules, name: Option<string>): string {
    match name
    case None => rules.normalize("")
    case Some(s) => rules.normalize(s)
  }

  /** A text that is present and not empty. */
  predicate Present(s: Option<string>) {
    s.Some? && s.value != ""
  }

  // ---------------------------------------------------------------------------
  // Preview
  // ---------------------------------------------------------------------------

  function Score(rules: Rules, name: Option<string>, kpis: seq<Kpi>, i: nat): real
    requires i < |kpis|
  {
    rules.similarity(name, kpis[i])
  }

  /** KPI `i` stands out: it scores enough, and every other KPI at least a hundredth less. */
  ghost predicate StandsOut(rules: Rules, name: Option<string>, kpis: seq<Kpi>, i: nat) {
    && i < |kpis| && Score(rules, name, kpis, i) > 0.0 && Score(rules, name, kpis, i) >= rules.minimum
    && forall j | 0 <= j < |kpis| && j != i ::
         Score(rules, name, kpis, j) <= 0.0 || Score(rules, name, kpis, j) <= Score(rules, name, kpis, i) - 0.01
  }

  /** The best of the KPIs that score above zero, the first of equals, and how many score within a hundredth of it. */
  method BestMatch(rules: Rules, name: Option<string>, kpis: seq<Kpi>) returns (best: Option<nat>, equallyGood: nat)
    ensures best == None <==> forall j | 0 <= j < |kpis| :: Score(rules, name, kpis, j) <= 0.0
    ensures best.Some? ==>
              && best.value < |kpis| && Score(rules, name, kpis, best.value) > 0.0
              && (forall j | 0 <= j < |kpis| :: Score(rules, name, kpis, j) <= Score(rules, name, kpis, best.value))
              && equallyGood >= 1
              && (equallyGood == 1 <==>
                    forall j | 0 <= j < |kpis| && j != best.value ::
                      Score(rules, name, kpis, j) <= 0.0 || Score(rules, name, kpis, j) <= Score(rules, name, kpis, best.value) - 0.01)
  {
    best, equallyGood := None, 0;
    for i := 0 to |kpis|
      invariant best == None <==> forall j | 0 <= j < i :: Score(rules, name, kpis, j) <= 0.0
      invariant best.Some? ==>
                  && best.value < i && Score(rules, name, kpis, best.value) > 0.0
                  && forall j | 0 <= j < i :: Score(rules, name, kpis, j) <= Score(rules, name, kpis, best.value)
    {
      var score := Score(rules, name, kpis, i);
      if score > 0.0 && (best == None || score > Score(rules, name, kpis, best.value)) {
        best := Some(i);
      }
    }
    if best == None {
      return;
    }
    var top := Score(rules, name, kpis, best.value);
    for i := 0 to |kpis|
      invariant i <= best.value ==>
                  (equallyGood == 0 <==> forall j | 0 <= j < i :: Score(rules, name, kpis, j) <= 0.0 || Score(rules, name, kpis, j) <= top - 0.01)
      invariant i > best.value ==>
                  && equallyGood >= 1
                  && (equallyGood == 1 <==>
                        forall j | 0 <= j < i && j != best.value :: Score(rules, name, kpis, j) <= 0.0 || Score(rules, name, kpis, j) <= top - 0.01)
    {
      var score := Score(rules, name, kpis, i);
      if score > 0.0 && Abs(score - top) < 0.01 {
        equallyGood := equallyGood + 1;
      }
    }
  }

  function Abs(x: real): real {
    if x < 0.0 then -x else x
  }

  /** What the preview says of one extracted KPI. */
  ghost predicate Judged(rules: Rules, kpis: seq<Kpi>, extracted: Extracted, reportingPeriod: Option<string>, u: Update) {
    && u.proposedActual == extracted.actual && u.details == extracted.details
    && u.period == (if Present(extracted.period) then extracted.period else reportingPeriod)
    && (u.status.MissingActual? <==> extracted.actual == None)
    && (u.status.Unmatched? <==>
          extracted.actual.Some? && forall j | 0 <= j < |kpis| :: Score(rules, extracted.name, kpis, j) <= 0.0)
    && (u.status.Matched? <==> extracted.actual.Some? && exists i :: StandsOut(rules, extracted.name, kpis, i))
    && (u.status.LowConfidence? <==>
          && extracted.actual.Some? && !u.status.Unmatched?
          && forall j | 0 <= j < |kpis| :: Score(rules, extracted.name, kpis, j) <= 0.0 || Score(rules, extracted.name, kpis, j) < rules.minimum)
    && (u.selected <==> u.status.Matched?)
    && (u.status.Matched? ==>
          exists i: nat ::
            StandsOut(rules, extracted.name, kpis, i)
            && u.matchedIndex == Some(i) && u.matchedKpi == kpis[i].name && u.currentActual == kpis[i].actual)
    && (!u.status.Matched? ==> u.matchedIndex == None && u.matchedKpi == None && u.currentActual == None)
  }

  method Judge(rules: Rules, kpis: seq<Kpi>, extracted: Extracted, reportingPeriod: Option<string>, document: Option<string>)
    returns (u: Update)
    ensures Judged(rules, kpis, extracted, reportingPeriod, u) && u.document == document
  {
    var period := if Present(extracted.period) then extracted.period else reportingPeriod;
    u := Update(extracted.actual, period, document, extracted.details, MissingActual, false, None, None, None);
    if extracted.actual == None {
      return;
    }
    var best, equallyGood := BestMatch(rules, extracted.name, kpis);
    if best == None {
      return u.(status := Unmatched);
    }
    if Score(rules, extracted.name, kpis, best.value) < rules.minimum {
      return u.(status := LowConfidence);
    }
    if equallyGood > 1 {
      return u.(status := Ambiguous);
    }
    var kpi := kpis[best.value];
    assert StandsOut(rules, extracted.name, kpis, best.value);
    return u.(status := Matched, selected := true, matchedKpi := kpi.name, currentActual := kpi.actual, matchedIndex := Some(best.value));
  }

  // ---------------------------------------------------------------------------
  // Apply
  // ---------------------------------------------------------------------------

  /** The update is chosen, and the KPI it was matched with is still the only one of its name and still has the actual it had. */
  predicate Applies(rules: Rules, data: Data, u: Update) {
    && u.selected && u.status.Matched? && u.matchedIndex.Some?
    && 0 <= u.matchedIndex.value < |data.kpis|
    && (forall i | 0 <= i < |data.kpis| ::
          Normalized(rules, data.kpis[i].name) == Normalized(rules, u.matchedKpi) <==> i == u.matchedIndex.value)
    && data.kpis[u.matchedIndex.value].actual == u.currentActual
  }

  predicate WantsMeasurement(u: Update) {
    Present(u.period) && u.proposedActual.Some? && Present(u.matchedKpi)
  }

  predicate Measures(rules: Rules, m: Measurement, u: Update) {
    && WantsMeasurement(u)
    && rules.normalize(m.kpiName) == rules.normalize(u.matchedKpi.value)
    && m.period == u.period.value && m.document == u.document && m.actual == u.proposedActual.value
  }

  predicate Measured(rules: Rules, data: Data, u: Update) {
    exists i | 0 <= i < |data.measurements| :: Measures(rules, data.measurements[i], u)
  }

  function NumberOf(rules: Rules, s: Option<string>): Option<real> {
    if Present(s) then rules.number(s.value) else None
  }

  /** A movement of a tenth or more is worth an alert; of a quarter or more, a critical one. */
  function AlertFor(rules: Rules, u: Update, previous: Option<string>): Option<Alert> {
    var before, after := NumberOf(rules, previous), NumberOf(rules, u.proposedActual);
    if before == None || after == None || before.value == 0.0 || u.matchedKpi == None then None
    else
      var change := (after.value - before.value) / Abs(before.value);
      if Abs(change) < 0.10 then None
      else Some(Alert(if Abs(change) < 0.25 then Warning else Critical, u.matchedKpi.value, previous.value, u.proposedActual.value, u.document))
  }

  /** Between two numbers, of which the first is not zero, a movement of a tenth of the first or more raises an alert,
      and one of a quarter or more a critical one, about this KPI and these two texts; nothing else does. */
  lemma AlertsExactly(rules: Rules, u: Update, previous: Option<string>)
    ensures var r := AlertFor(rules, u, previous);
            if Moved(rules, u, previous) then
              var from, to := rules.number(previous.value).value, rules.number(u.proposedActual.value).value;
              var moved, base := if to < from then from - to else to - from, if from < 0.0 then -from else from;
              && (r.Some? <==> 10.0 * moved >= base)
              && (r.Some? ==> r.value.kpiName == u.matchedKpi.value && r.value.previous == previous.value
                              && r.value.current == u.proposedActual.value && r.value.document == u.document)
              && (r.Some? ==> (r.value.severity == Critical <==> 4.0 * moved >= base))
            else r == None
  {
    if Moved(rules, u, previous) {
      MovementScales(rules.number(previous.value).value, rules.number(u.proposedActual.value).value);
    }
  }

  /** Both texts hold numbers, the first of them not zero, and the KPI has a name. */
  ghost predicate Moved(rules: Rules, u: Update, previous: Option<string>) {
    && previous != None && previous.value != "" && rules.number(previous.value) != None
    && u.proposedActual != None && u.proposedActual.value != "" && rules.number(u.proposedActual.value) != None
    && rules.number(previous.value).value != 0.0 && u.matchedKpi != None
  }

  lemma MovementScales(from: real, to: real)
    requires from != 0.0
    ensures var moved, base := if to < from then from - to else to - from, if from < 0.0 then -from else from;
            && (Abs((to - from) / Abs(from)) < 0.10 <==> 10.0 * moved < base)
            && (Abs((to - from) / Abs(from)) < 0.25 <==> 4.0 * moved < base)
  {
    var q, base := (to - from) / Abs(from), Abs(from);
    assert Times(q, base) == to - from && Times(-q, base) == from - to && Times(0.0, base) == 0.0;
    assert Times(0.10, base) == 0.10 * base && Times(0.25, base) == 0.25 * base;
    TimesRises(0.0, q, base);
    TimesRises(q, 0.0, base);
    TimesRises(Abs(q), 0.10, base);
    TimesRises(Abs(q), 0.25, base);
  }

  ghost function Times(x: real, y: real): real {
    x * y
  }

  lemma TimesRises(x: real, y: real, base: real)
    requires base > 0.0
    ensures x < y <==> Times(x, base) < Times(y, base)
  {
    assert Times(y, base) - Times(x, base) == Times(y - x, base);
    if x < y {
      assert Times(y - x, base) > 0.0;
    } else {
      assert Times(x - y, base) >= 0.0;
    }
  }

  function Step(rules: Rules, data: Data, u: Update): Data {
    if !Applies(rules, data, u) then data
    else
      var k := u.matchedIndex.value;
      var alert := AlertFor(rules, u, data.kpis[k].actual);
      Data(
        data.kpis[k := data.kpis[k].(actual := u.proposedActual)],
        if WantsMeasurement(u) && !Measured(rules, data, u)
        then data.measurements + [Measurement(u.matchedKpi.value, u.period.value, u.proposedActual.value, u.document, u.details)]
        else data.measurements,
        if alert.Some? then data.alerts + [alert.value] else data.alerts)
  }

  function Applied(rules: Rules, data: Data, updates: seq<Update>): Data {
    if updates == [] then data
    else Step(rules, Applied(rules, data, updates[..|updates| - 1]), updates[|updates| - 1])
  }

  /** The measurement is of the update's KPI, period, document and actual. */
  ghost predicate SameMeasurement(rules: Rules, m: Measurement, u: Update)
    requires u.matchedKpi.Some? && u.period.Some? && u.proposedActual.Some?
  {
    rules.normalize(m.kpiName) == rules.normalize(u.matchedKpi.value) && m.period == u.period.value && m.document == u.document
    && m.actual == u.proposedActual.value
  }

  /** The update is chosen and matched, its KPI is still the only one of its name, and the actual is still what it was. */
  ghost predicate Chosen(rules: Rules, now: Data, u: Update) {
    && u.selected && u.status == Matched && u.matchedIndex != None
    && 0 <= u.matchedIndex.value < |now.kpis|
    && (forall i | 0 <= i < |now.kpis| && i != u.matchedIndex.value ::
          Normalized(rules, now.kpis[i].name) != Normalized(rules, u.matchedKpi))
    && Normalized(rules, now.kpis[u.matchedIndex.value].name) == Normalized(rules, u.matchedKpi)
    && now.kpis[u.matchedIndex.value].actual == u.currentActual
  }

  lemma AppliesIsChosen(rules: Rules, now: Data, u: Update)
    ensures Applies(rules, now, u) <==> Chosen(rules, now, u)
  {
  }

  /** The KPI has the new actual, the measurement is recorded unless there is one like it, and the alert is raised. */
  ghost predicate Took(rules: Rules, now: Data, next: Data, u: Update)
    requires u.matchedIndex.Some? && 0 <= u.matchedIndex.value < |now.kpis|
  {
    var k := u.matchedIndex.value;
    && next.kpis == now.kpis[k := Kpi(now.kpis[k].name, u.proposedActual)]
    && next.measurements ==
       now.measurements
       + (if ToRecord(rules, now, u)
          then [Measurement(u.matchedKpi.value, u.period.value, u.proposedActual.value, u.document, u.details)] else [])
    && next.alerts == now.alerts + (if AlertFor(rules, u, now.kpis[k].actual) == None then []
                                    else [AlertFor(rules, u, now.kpis[k].actual).value])
  }

  /** The update names a period, a KPI and an actual, and no measurement like it is there. */
  ghost predicate ToRecord(rules: Rules, now: Data, u: Update) {
    && u.period != None && u.period.value != "" && u.proposedActual != None
    && u.matchedKpi != None && u.matchedKpi.value != ""
    && forall i | 0 <= i < |now.measurements| :: !SameMeasurement(rules, now.measurements[i], u)
  }

  /** An update that is chosen is taken, and any other changes nothing. */
  ghost predicate TookOrKept(rules: Rules, now: Data, next: Data, u: Update, taken: bool) {
    && (taken <==> Chosen(rules, now, u))
    && if taken then Took(rules, now, next, u) else next == now
  }

  /** Through these stores the updates were taken one by one, those that are chosen. */
  ghost predicate Through(rules: Rules, updates: seq<Update>, stores: seq<Data>, taken: seq<bool>) {
    && |stores| == |updates| + 1 && |taken| == |updates|
    && forall i | 0 <= i < |updates| :: TookOrKept(rules, stores[i], stores[i + 1], updates[i], taken[i])
  }

  lemma ThroughNext(rules: Rules, updates: seq<Update>, stores: seq<Data>, taken: seq<bool>, u: Update, next: Data, more: bool)
    requires Through(rules, updates, stores, taken) && TookOrKept(rules, stores[|updates|], next, u, more)
    ensures Through(rules, updates + [u], stores + [next], taken + [more])
  {
    var all, after, now := updates + [u], stores + [next], taken + [more];
    forall i | 0 <= i < |all| ensures TookOrKept(rules, after[i], after[i + 1], all[i], now[i]) {
      if i < |updates| {
        assert after[i] == stores[i] && after[i + 1] == stores[i + 1] && all[i] == updates[i] && now[i] == taken[i];
        assert TookOrKept(rules, stores[i], stores[i + 1], updates[i], taken[i]);
      } else {
        assert after[i] == stores[i] && after[i + 1] == next && all[i] == u && now[i] == more;
      }
    }
  }

  class Repository {
    const rules: Rules
    var data: Data

    constructor (rules: Rules, data: Data)
      ensures this.rules == rules && this.data == data
    {
      this.rules, this.data := rules, data;
    }

    method Preview(extracted: seq<Extracted>, reportingPeriod: Option<string>, document: Option<string>) returns (updates: seq<Update>)
      ensures |updates| == |extracted|
      ensures forall i | 0 <= i < |extracted| ::
                Judged(rules, data.kpis, extracted[i], reportingPeriod, updates[i]) && updates[i].document == document
    {
      updates := [];
      for i := 0 to |extracted|
        invariant |updates| == i
        invariant forall j | 0 <= j < i ::
                    Judged(rules, data.kpis, extracted[j], reportingPeriod, updates[j]) && updates[j].document == document
      {
        var u := Judge(rules, data.kpis, extracted[i], reportingPeriod, document);
        updates := updates + [u];
      }
    }

    /** The KPIs whose name matches the update's. */
    method FindMatches(now: Data, u: Update) returns (matches: seq<nat>)
      ensures forall i | 0 <= i < |matches| :: matches[i] < |now.kpis|
      ensures forall i | 0 <= i < |now.kpis| :: Normalized(rules, now.kpis[i].name) == Normalized(rules, u.matchedKpi) <==> i in matches
      ensures forall i, j | 0 <= i < j < |matches| :: matches[i] < matches[j]
    {
      matches := [];
      for i := 0 to |now.kpis|
        invariant forall k | 0 <= k < |matches| :: matches[k] < i
        invariant forall k | 0 <= k < i :: Normalized(rules, now.kpis[k].name) == Normalized(rules, u.matchedKpi) <==> k in matches
        invariant forall k, l | 0 <= k < l < |matches| :: matches[k] < matches[l]
      {
        if Normalized(rules, now.kpis[i].name) == Normalized(rules, u.matchedKpi) {
          matches := matches + [i];
        }
      }
    }

    method CheckApplies(now: Data, u: Update) returns (applies: bool)
      ensures applies <==> Applies(rules, now, u)
    {
      if !u.selected || !u.status.Matched? || u.matchedIndex == None {
        return false;
      }
      var matches := FindMatches(now, u);
      if |matches| != 1 || matches[0] != u.matchedIndex.value || now.kpis[matches[0]].actual != u.currentActual {
        assert |matches| > 1 ==> matches[0] in matches && matches[1] in matches;
        assert |matches| == 1 ==> matches[0] in matches;
        return false;
      }
      return true;
    }

    method ApplyOne(now: Data, u: Update) returns (next: Data, measured: bool, alerted: bool)
      requires Applies(rules, now, u)
      ensures next == Step(rules, now, u) && Took(rules, now, next, u)
      ensures |next.measurements| == |now.measurements| + (if measured then 1 else 0)
      ensures |next.alerts| == |now.alerts| + (if alerted then 1 else 0)
    {
      var k := u.matchedIndex.value;
      var previous := now.kpis[k].actual;
      next := now.(kpis := now.kpis[k := now.kpis[k].(actual := u.proposedActual)]);
      measured := false;
      if WantsMeasurement(u) {
        var duplicate := false;
        for i := 0 to |now.measurements|
          invariant duplicate <==> exists j | 0 <= j < i :: Measures(rules, now.measurements[j], u)
        {
          duplicate := duplicate || Measures(rules, now.measurements[i], u);
        }
        if !duplicate {
          var m := Measurement(u.matchedKpi.value, u.period.value, u.proposedActual.value, u.document, u.details);
          next := next.(measurements := next.measurements + [m]);
          measured := true;
        }
      }
      var alert := AlertFor(rules, u, previous);
      alerted := alert.Some?;
      if alerted {
        next := next.(alerts := next.alerts + [alert.value]);
      }
    }

    method Apply(updates: seq<Update>) returns (result: ApplyResult, ghost stores: seq<Data>, ghost taken: seq<bool>)
      modifies this
      ensures data == Applied(rules, old(data), updates)
      ensures Through(rules, updates, stores, taken) && stores[0] == old(data) && stores[|updates|] == data
      ensures result.updatedKpis == CountSet(taken)
      ensures result.updatedKpis + result.skipped == |updates|
      ensures result.createdMeasurements == |data.measurements| - |old(data).measurements|
      ensures result.generatedAlerts == |data.alerts| - |old(data).alerts|
    {
      var now := data;
      result, stores, taken := ApplyResult(0, 0, 0, 0), [data], [];
      for i := 0 to |updates|
        invariant now == Applied(rules, data, updates[..i]) && data == old(data)
        invariant Through(rules, updates[..i], stores, taken) && stores[0] == data && stores[i] == now
        invariant result.updatedKpis == CountSet(taken)
        invariant result.updatedKpis + result.skipped == i
        invariant result.createdMeasurements == |now.measurements| - |data.measurements|
        invariant result.generatedAlerts == |now.alerts| - |data.alerts|
      {
        var u := updates[i];
        assert updates[..i + 1][..i] == updates[..i] && updates[..i + 1] == updates[..i] + [u];
        AppliesIsChosen(rules, now, u);
        var applies := CheckApplies(now, u);
        if !applies {
          result := result.(skipped := result.skipped + 1);
        } else {
          var measured, alerted;
          now, measured, alerted := ApplyOne(now, u);
          result := ApplyResult(
            result.updatedKpis + 1,
            result.createdMeasurements + (if measured then 1 else 0),
            result.generatedAlerts + (if alerted then 1 else 0),
            result.skipped);
        }
        ThroughNext(rules, updates[..i], stores, taken, u, now, applies);
        OneMoreFlag(taken, applies);
        stores, taken := stores + [now], taken + [applies];
      }
      assert updates[..|updates|] == updates;
      data := now;
    }
  }

  // ---------------------------------------------------------------------------
  // What applying keeps
  // ---------------------------------------------------------------------------

  ghost predicate SameKey(rules: Rules, m: Measurement, n: Measurement) {
    rules.normalize(m.kpiName) == rules.normalize(n.kpiName) && m.period == n.period && m.document == n.document && m.actual == n.actual
  }

  /** No two measurements share name, period, document and actual. */
  ghost predicate UniqueMeasurements(rules: Rules, data: Data) {
    forall i, j | 0 <= i < j < |data.measurements| :: !SameKey(rules, data.measurements[i], data.measurements[j])
  }

  lemma {:induction false} MeasurementsStayUnique(rules: Rules, data: Data, updates: seq<Update>)
    requires UniqueMeasurements(rules, data)
    ensures UniqueMeasurements(rules, Applied(rules, data, updates))
  {
    if updates != [] {
      MeasurementsStayUnique(rules, data, updates[..|updates| - 1]);
    }
  }

  /** Only actuals change: no KPI is renamed, added or removed. */
  lemma {:induction false} NamesStay(rules: Rules, data: Data, updates: seq<Update>)
    ensures var next := Applied(rules, data, updates);
            |next.kpis| == |data.kpis| && forall i | 0 <= i < |data.kpis| :: next.kpis[i].name == data.kpis[i].name
  {
    if updates != [] {
      NamesStay(rules, data, updates[..|updates| - 1]);
    }
  }

  // ---------------------------------------------------------------------------
  // Applying twice
  // ---------------------------------------------------------------------------

  /** Chosen updates of one KPI were all made against the same actual. */
  ghost predicate Consistent(updates: seq<Update>) {
    forall i, j | 0 <= i < |updates| && 0 <= j < |updates| :: Agree(updates[i], updates[j])
  }

  predicate Agree(u: Update, v: Update) {
    u.status.Matched? && v.status.Matched? && u.selected && v.selected && u.matchedIndex == v.matchedIndex && u.matchedIndex.Some?
    ==> u.currentActual == v.currentActual
  }

  /** The updates of one preview were. */
  lemma PreviewIsConsistent(rules: Rules, kpis: seq<Kpi>, extracted: seq<Extracted>, reportingPeriod: Option<string>, updates: seq<Update>)
    requires |updates| == |extracted|
    requires forall i | 0 <= i < |extracted| :: Judged(rules, kpis, extracted[i], reportingPeriod, updates[i])
    ensures Consistent(updates)
  {
    forall i, j | 0 <= i < |updates| && 0 <= j < |updates| ensures Agree(updates[i], updates[j]) {
      assert Judged(rules, kpis, extracted[i], reportingPeriod, updates[i]);
      assert Judged(rules, kpis, extracted[j], reportingPeriod, updates[j]);
    }
  }

  /** Applying the update would change nothing. */
  predicate Settled(rules: Rules, data: Data, u: Update) {
    Applies(rules, data, u) ==> u.proposedActual == u.currentActual && (WantsMeasurement(u) ==> Measured(rules, data, u))
  }

  lemma AppliedIsSettled(rules: Rules, data: Data, u: Update)
    ensures Settled(rules, Step(rules, data, u), u)
  {
    var next := Step(rules, data, u);
    if Applies(rules, data, u) && WantsMeasurement(u) && !Measured(rules, data, u) {
      assert Measures(rules, next.measurements[|data.measurements|], u);
    }
    if Applies(rules, data, u) && WantsMeasurement(u) && Measured(rules, data, u) {
      assert next.measurements == data.measurements;
    }
  }

  lemma MeasuredStays(rules: Rules, data: Data, u: Update, v: Update)
    requires Measured(rules, data, v)
    ensures Measured(rules, Step(rules, data, u), v)
  {
    var i :| 0 <= i < |data.measurements| && Measures(rules, data.measurements[i], v);
    assert Step(rules, data, u).measurements[i] == data.measurements[i];
  }

  /** Applying an update leaves the settled ones settled, when the two agree. */
  lemma SettledStays(rules: Rules, data: Data, u: Update, v: Update)
    requires Settled(rules, data, v) && Agree(u, v)
    ensures Settled(rules, Step(rules, data, u), v)
  {
    var next := Step(rules, data, u);
    if Applies(rules, data, u) && Applies(rules, next, v) {
      forall i | 0 <= i < |data.kpis| ensures next.kpis[i].name == data.kpis[i].name {
      }
      if u.matchedIndex == v.matchedIndex {
        assert data.kpis[v.matchedIndex.value].actual == u.currentActual;
      }
      if WantsMeasurement(v) {
        MeasuredStays(rules, data, u, v);
      }
    }
  }

  lemma {:induction false} AllSettled(rules: Rules, data: Data, updates: seq<Update>, i: nat)
    requires Consistent(updates) && i < |updates|
    ensures Settled(rules, Applied(rules, data, updates), updates[i])
  {
    var front, last := updates[..|updates| - 1], updates[|updates| - 1];
    if i < |front| {
      assert forall k, l | 0 <= k < |front| && 0 <= l < |front| :: Agree(front[k], front[l]) by {
        forall k, l | 0 <= k < |front| && 0 <= l < |front| ensures Agree(front[k], front[l]) {
          assert Agree(updates[k], updates[l]);
        }
      }
      AllSettled(rules, data, front, i);
      assert Agree(updates[|updates| - 1], updates[i]);
      SettledStays(rules, Applied(rules, data, front), last, updates[i]);
    } else {
      AppliedIsSettled(rules, Applied(rules, data, front), last);
    }
  }

  lemma {:induction false} SettledAppliesToNothing(rules: Rules, data: Data, updates: seq<Update>)
    requires forall i | 0 <= i < |updates| :: Settled(rules, data, updates[i])
    ensures Applied(rules, data, updates) == data
  {
    if updates != [] {
      SettledAppliesToNothing(rules, data, updates[..|updates| - 1]);
    }
  }

  /** Applying consistent updates twice leaves the store as after one apply, whatever the store. */
  lemma ApplyTwice(rules: Rules, data: Data, updates: seq<Update>)
    requires Consistent(updates)
    ensures Applied(rules, Applied(rules, data, updates), updates) == Applied(rules, data, updates)
  {
    forall i | 0 <= i < |updates| ensures Settled(rules, Applied(rules, data, updates), updates[i]) {
      AllSettled(rules, data, updates, i);
    }
    SettledAppliesToNothing(rules, Applied(rules, data, updates), updates);
  }

  // Updates that were edited after the preview need not be consistent. The plainest case is a pair that undoes itself.

  /** The first update applies, and the second takes the same KPI back from what the first proposes. */
  ghost predicate Undoes(rules: Rules, data: Data, rise: Update, fall: Update) {
    && Applies(rules, data, rise)
    && fall.selected && fall.status.Matched? && fall.matchedIndex == rise.matchedIndex
    && Normalized(rules, fall.matchedKpi) == Normalized(rules, rise.matchedKpi)
    && fall.currentActual == rise.proposedActual && fall.proposedActual == rise.currentActual
  }

  function AlertsOf(rules: Rules, u: Update): seq<Alert> {
    if AlertFor(rules, u, u.currentActual).Some? then [AlertFor(rules, u, u.currentActual).value] else []
  }

  lemma UndoingPass(rules: Rules, data: Data, rise: Update, fall: Update)
    requires Undoes(rules, data, rise, fall)
    ensures var next := Applied(rules, data, [rise, fall]);
            && next.kpis == data.kpis && next.alerts == data.alerts + AlertsOf(rules, rise) + AlertsOf(rules, fall)
            && (WantsMeasurement(rise) ==> Measured(rules, next, rise))
            && (WantsMeasurement(fall) ==> Measured(rules, next, fall))
            && ((WantsMeasurement(rise) ==> Measured(rules, data, rise)) && (WantsMeasurement(fall) ==> Measured(rules, data, fall)) ==>
                  next.measurements == data.measurements)
  {
    var middle := Step(rules, data, rise);
    assert [rise, fall][..1] == [rise] && [rise][..0] == [];
    assert Applied(rules, data, []) == data;
    assert Applied(rules, data, [rise]) == middle;
    UndoingStep(rules, data, rise, fall);
    StepRecords(rules, data, rise);
    StepRecords(rules, middle, fall);
    if WantsMeasurement(rise) { MeasuredStays(rules, middle, fall, rise); }
    if WantsMeasurement(fall) && Measured(rules, data, fall) { MeasuredStays(rules, data, rise, fall); }
  }

  lemma UndoingStep(rules: Rules, data: Data, rise: Update, fall: Update)
    requires Undoes(rules, data, rise, fall)
    ensures var middle := Step(rules, data, rise);
            Applies(rules, middle, fall) && Step(rules, middle, fall).kpis == data.kpis
  {
    var middle := Step(rules, data, rise);
    assert forall i | 0 <= i < |data.kpis| :: middle.kpis[i].name == data.kpis[i].name;
  }

  lemma StepRecords(rules: Rules, data: Data, u: Update)
    requires Applies(rules, data, u)
    ensures var next := Step(rules, data, u);
            && next.alerts == data.alerts + AlertsOf(rules, u)
            && (WantsMeasurement(u) ==> Measured(rules, next, u))
            && ((WantsMeasurement(u) ==> Measured(rules, data, u)) ==> next.measurements == data.measurements)
  {
    var next := Step(rules, data, u);
    if WantsMeasurement(u) && !Measured(rules, data, u) {
      assert Measures(rules, next.measurements[|data.measurements|], u);
    } else if WantsMeasurement(u) {
      assert next.measurements == data.measurements;
    }
  }

  /** A pair of updates that undoes itself can be applied again without effect exactly when neither movement is
      worth an alert: the KPI and the measurements are as they were, and only the alerts come again. */
  lemma UndoingUpdatesRepeatIff(rules: Rules, data: Data, rise: Update, fall: Update)
    requires Undoes(rules, data, rise, fall)
    ensures var updates := [rise, fall];
            Applied(rules, Applied(rules, data, updates), updates) == Applied(rules, data, updates)
            <==> AlertFor(rules, rise, rise.currentActual) == None && AlertFor(rules, fall, fall.currentActual) == None
  {
    var again := Applied(rules, data, [rise, fall]);
    UndoingPass(rules, data, rise, fall);
    assert Undoes(rules, again, rise, fall);
    UndoingPass(rules, again, rise, fall);
  }

  /** So a rise from 1 to 2 and back, edited into one list, raises its alerts on every apply. */
  lemma UndoingUpdatesRepeat(rules: Rules, kpi: string, up: string, down: string) returns (data: Data, updates: seq<Update>)
    requires up != "" && down != "" && rules.number(up) == Some(2.0) && rules.number(down) == Some(1.0)
    ensures Applied(rules, Applied(rules, data, updates), updates) != Applied(rules, data, updates)
  {
    data := Data([Kpi(Some(kpi), Some(down))], [], []);
    var rise := Update(Some(up), None, None, "", Matched, true, Some(kpi), Some(down), Some(0));
    var fall := Update(Some(down), None, None, "", Matched, true, Some(kpi), Some(up), Some(0));
    updates := [rise, fall];
    assert Undoes(rules, data, rise, fall);
    assert (2.0 - 1.0) / 1.0 == 1.0;
    UndoingUpdatesRepeatIff(rules, data, rise, fall);
  }
}
