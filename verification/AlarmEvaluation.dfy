/**
 The backend alarm evaluator. One call is one atomic step; the events table is a sequence whose index
 is the event id, so creating an event appends. Between calls, others may only take events out of
 `active`.
 */
module AlarmEvaluation {
  import opened Prelude
  import opened ReadingQuality

  datatype Severity = Critical | Info | Warning
  datatype Band = LowLow | Low | High | HighHigh
  datatype EventState = Active | Acknowledged | Cleared

  datatype Rule = Rule(
    id: string, unit: string, tag: string, severity: Severity, version: int, enabled: bool, isCurrent: bool,
    lowLow: Option<real>, low: Option<real>, high: Option<real>, highHigh: Option<real>,
    deadband: Option<real>, delaySeconds: Option<int>, messageTemplate: Option<string>)

  datatype Input = Input(
    readingId: string, tenant: string, unit: string, tag: string, value: real, engineeringUnit: string,
    quality: Quality, timestamp: int, source: string)

  datatype Snapshot = Snapshot(
    ruleId: string, severity: Severity, version: int, enabled: bool,
    lowLow: Option<real>, low: Option<real>, high: Option<real>, highHigh: Option<real>,
    deadband: Option<real>, delaySeconds: Option<int>, messageTemplate: Option<string>,
    violated: Band, value: real, engineeringUnit: string, quality: Quality, source: string,
    timestamp: int, readingId: string)

  datatype Event = Event(
    tenant: string, unit: string, tag: string, ruleId: Option<string>, severity: Severity, value: real,
    violated: Band, state: EventState, firstTriggeredAt: int, snapshot: Snapshot)

  datatype RuleOutcome =
    | NoThresholdViolated(ruleId: string, severity: Severity)
    | SkippedDuplicateActive(ruleId: string, severity: Severity, existing: nat)
    | Triggered(ruleId: string, severity: Severity, event: nat, band: Band)

  datatype Outcome = SkippedQuality | NoRule | Evaluated(perRule: seq<RuleOutcome>)

  function PickViolatedBand(value: real, rule: Rule): Option<Band> {
    if rule.highHigh.Some? && value > rule.highHigh.value then Some(HighHigh)
    else if rule.high.Some? && value > rule.high.value then Some(High)
    else if rule.lowLow.Some? && value < rule.lowLow.value then Some(LowLow)
    else if rule.low.Some? && value < rule.low.value then Some(Low)
    else None
  }

  function BuildRuleSnapshot(rule: Rule, input: Input, violated: Band): Snapshot {
    Snapshot(rule.id, rule.severity, rule.version, rule.enabled, rule.lowLow, rule.low, rule.high, rule.highHigh,
             rule.deadband, rule.delaySeconds, rule.messageTemplate,
             violated, input.value, input.engineeringUnit, input.quality, input.source,
             input.timestamp, input.readingId)
  }

  predicate Matches(rule: Rule, input: Input) {
    rule.unit == input.unit && rule.tag == input.tag && rule.isCurrent && rule.enabled
  }

  function OfSeverity(rules: seq<Rule>, input: Input, s: Severity): seq<Rule> {
    if rules == [] then []
    else
      (if Matches(rules[0], input) && rules[0].severity == s then [rules[0]] else [])
      + OfSeverity(rules[1..], input, s)
  }

  // The rules to evaluate, by severity name: critical, info, warning.
  function Eligible(rules: seq<Rule>, input: Input): seq<Rule> {
    OfSeverity(rules, input, Critical) + OfSeverity(rules, input, Info) + OfSeverity(rules, input, Warning)
  }

  predicate IsActiveFor(e: Event, unit: string, tag: string, ruleId: string) {
    e.unit == unit && e.tag == tag && e.ruleId == Some(ruleId) && e.state.Active?
  }

  // The first active event of this (unit, tag, rule).
  function FindActive(events: seq<Event>, unit: string, tag: string, ruleId: string): (r: Option<nat>)
    ensures r.Some? ==> r.value < |events| && IsActiveFor(events[r.value], unit, tag, ruleId)
    ensures r.Some? ==> forall i :: 0 <= i < r.value ==> !IsActiveFor(events[i], unit, tag, ruleId)
    ensures r.None? ==> forall i :: 0 <= i < |events| ==> !IsActiveFor(events[i], unit, tag, ruleId)
  {
    if events == [] then None
    else
      var n := |events| - 1;
      var earlier := FindActive(events[..n], unit, tag, ruleId);
      if earlier.Some? then earlier
      else if IsActiveFor(events[n], unit, tag, ruleId) then Some(n)
      else None
  }

  function NewEvent(rule: Rule, input: Input, band: Band): Event {
    Event(input.tenant, input.unit, input.tag, Some(rule.id), rule.severity, input.value, band, Active,
          input.timestamp, BuildRuleSnapshot(rule, input, band))
  }

  // One pass of the loop body.
  function EvaluateRule(events: seq<Event>, input: Input, rule: Rule): (seq<Event>, RuleOutcome) {
    var band := PickViolatedBand(input.value, rule);
    if band.None? then (events, NoThresholdViolated(rule.id, rule.severity))
    else
      var existing := FindActive(events, input.unit, input.tag, rule.id);
      if existing.Some? then (events, SkippedDuplicateActive(rule.id, rule.severity, existing.value))
      else (events + [NewEvent(rule, input, band.value)], Triggered(rule.id, rule.severity, |events|, band.value))
  }

  function EvaluateRules(events: seq<Event>, input: Input, rules: seq<Rule>): (r: (seq<Event>, seq<RuleOutcome>))
    ensures |r.1| == |rules|
  {
    if rules == [] then (events, [])
    else
      var n := |rules| - 1;
      var (before, outcomes) := EvaluateRules(events, input, rules[..n]);
      var (after, outcome) := EvaluateRule(before, input, rules[n]);
      (after, outcomes + [outcome])
  }

  lemma OneMoreRule(events: seq<Event>, input: Input, rules: seq<Rule>, i: nat)
    requires i < |rules|
    ensures var (before, outcomes) := EvaluateRules(events, input, rules[..i]);
            var (after, outcome) := EvaluateRule(before, input, rules[i]);
            EvaluateRules(events, input, rules[..i + 1]) == (after, outcomes + [outcome])
  {
    assert rules[..i + 1][..i] == rules[..i];
  }

  function Evaluate(events: seq<Event>, rules: seq<Rule>, input: Input): (seq<Event>, Outcome) {
    if input.quality != Good then (events, SkippedQuality)
    else if Eligible(rules, input) == [] then (events, NoRule)
    else
      var (after, perRule) := EvaluateRules(events, input, Eligible(rules, input));
      (after, Evaluated(perRule))
  }

  class AlarmEvaluationService {
    var rules: seq<Rule>
    var events: seq<Event>

    constructor (rules: seq<Rule>)
      ensures this.rules == rules && events == []
    {
      this.rules, events := rules, [];
    }

    method EvaluateReading(input: Input) returns (outcome: Outcome)
      modifies this
      ensures (events, outcome) == Evaluate(old(events), rules, input)
      ensures rules == old(rules)
    {
      if input.quality != Good {
        return SkippedQuality;
      }
      var matched := Eligible(rules, input);
      if |matched| == 0 {
        return NoRule;
      }
      var perRule: seq<RuleOutcome> := [];
      for i := 0 to |matched|
        invariant (events, perRule) == EvaluateRules(old(events), input, matched[..i])
        invariant rules == old(rules)
      {
        var rule := matched[i];
        OneMoreRule(old(events), input, matched, i);
        var violated := PickViolatedBand(input.value, rule);
        if violated.None? {
          perRule := perRule + [NoThresholdViolated(rule.id, rule.severity)];
          continue;
        }
        var existingActive := FindActive(events, input.unit, input.tag, rule.id);
        if existingActive.Some? {
          perRule := perRule + [SkippedDuplicateActive(rule.id, rule.severity, existingActive.value)];
          continue;
        }
        var created := |events|;
        events := events + [NewEvent(rule, input, violated.value)];
        perRule := perRule + [Triggered(rule.id, rule.severity, created, violated.value)];
      }
      assert matched[..|matched|] == matched;
      return Evaluated(perRule);
    }
  }

  // -------------------------------------------------------------------------
  // One evaluation
  // -------------------------------------------------------------------------

  predicate SameAlarm(a: Event, b: Event) {
    a.unit == b.unit && a.tag == b.tag && a.ruleId == b.ruleId
  }

  ghost predicate AtMostOneActive(events: seq<Event>) {
    forall i, j | 0 <= i < j < |events| && events[i].state.Active? && events[j].state.Active? && events[i].ruleId.Some?
      :: !SameAlarm(events[i], events[j])
  }

  lemma {:induction false} OfSeverityIsExact(rules: seq<Rule>, input: Input, s: Severity, r: Rule)
    ensures multiset(OfSeverity(rules, input, s))[r] ==
            if Matches(r, input) && r.severity == s then multiset(rules)[r] else 0
  {
    if rules != [] {
      var first, rest := rules[0], rules[1..];
      OfSeverityIsExact(rest, input, s, r);
      assert multiset(rules)[r] == (if first == r then 1 else 0) + multiset(rest)[r] by {
        assert rules == [first] + rest;
      }
      if Matches(first, input) && first.severity == s {
        assert OfSeverity(rules, input, s) == [first] + OfSeverity(rest, input, s);
      } else {
        assert OfSeverity(rules, input, s) == OfSeverity(rest, input, s);
      }
    }
  }

  // What the query orders by.
  function SeverityName(s: Severity): string {
    match s case Critical => "critical" case Info => "info" case Warning => "warning"
  }

  lemma {:induction false} OfSeverityHasSeverity(rules: seq<Rule>, input: Input, s: Severity)
    ensures forall i :: 0 <= i < |OfSeverity(rules, input, s)| ==> OfSeverity(rules, input, s)[i].severity == s
  {
    if rules != [] {
      OfSeverityHasSeverity(rules[1..], input, s);
    }
  }

  /** The query returns exactly the enabled, current rules of the reading's unit and tag, each as often
      as the table holds it ... */
  lemma EligibleIsExact(rules: seq<Rule>, input: Input, r: Rule)
    ensures multiset(Eligible(rules, input))[r] ==
            if r.unit == input.unit && r.tag == input.tag && r.isCurrent && r.enabled then multiset(rules)[r] else 0
  {
    OfSeverityIsExact(rules, input, Critical, r);
    OfSeverityIsExact(rules, input, Info, r);
    OfSeverityIsExact(rules, input, Warning, r);
  }

  /** ... and sorted by severity name; the names differ in their first letters. */
  lemma EligibleIsSorted(rules: seq<Rule>, input: Input, i: nat, j: nat)
    requires i <= j < |Eligible(rules, input)|
    ensures SeverityName(Eligible(rules, input)[i].severity)[0] <= SeverityName(Eligible(rules, input)[j].severity)[0]
  {
    OfSeverityHasSeverity(rules, input, Critical);
    OfSeverityHasSeverity(rules, input, Info);
    OfSeverityHasSeverity(rules, input, Warning);
  }

  lemma FindActiveSurvivesAppend(events: seq<Event>, more: seq<Event>, unit: string, tag: string, ruleId: string)
    requires FindActive(events, unit, tag, ruleId).Some?
    ensures FindActive(events + more, unit, tag, ruleId) == FindActive(events, unit, tag, ruleId)
  {
    assert forall i :: 0 <= i < |events| ==> (events + more)[i] == events[i];
    assert IsActiveFor((events + more)[FindActive(events, unit, tag, ruleId).value], unit, tag, ruleId);
  }

  // What the outcome for a rule says about the events table at any later point of the same call.
  predicate OutcomeHolds(o: RuleOutcome, rule: Rule, input: Input, before: seq<Event>, after: seq<Event>) {
    var active := FindActive(after, input.unit, input.tag, rule.id);
    && o.ruleId == rule.id && o.severity == rule.severity
    && (o.NoThresholdViolated? <==> PickViolatedBand(input.value, rule).None?)
    && (o.SkippedDuplicateActive? ==> active == Some(o.existing))
    && (o.Triggered? ==> && |before| <= o.event < |after| && active == Some(o.event)
                         && PickViolatedBand(input.value, rule) == Some(o.band)
                         && after[o.event] == NewEvent(rule, input, o.band))
  }

  lemma OutcomeSurvivesAppend(o: RuleOutcome, rule: Rule, input: Input, before: seq<Event>, mid: seq<Event>,
                              more: seq<Event>)
    requires OutcomeHolds(o, rule, input, before, mid)
    ensures OutcomeHolds(o, rule, input, before, mid + more)
  {
    if !o.NoThresholdViolated? {
      FindActiveSurvivesAppend(mid, more, input.unit, input.tag, rule.id);
    }
  }

  function TriggeredCount(outcomes: seq<RuleOutcome>): nat {
    if outcomes == [] then 0
    else TriggeredCount(outcomes[..|outcomes| - 1]) + if outcomes[|outcomes| - 1].Triggered? then 1 else 0
  }

  // What holds of the outcomes so far, and of the table they left.
  ghost predicate OutcomesHold(before: seq<Event>, input: Input, rules: seq<Rule>, after: seq<Event>,
                               outcomes: seq<RuleOutcome>)
  {
    && |outcomes| == |rules| && before <= after
    && |after| == |before| + TriggeredCount(outcomes)
    && forall i :: 0 <= i < |rules| ==> OutcomeHolds(outcomes[i], rules[i], input, before, after)
  }

  lemma TriggeredCountAppends(outcomes: seq<RuleOutcome>, o: RuleOutcome)
    ensures TriggeredCount(outcomes + [o]) == TriggeredCount(outcomes) + if o.Triggered? then 1 else 0
  {
    assert (outcomes + [o])[..|outcomes|] == outcomes;
  }

  lemma OutcomesGrow(events: seq<Event>, input: Input, rules: seq<Rule>, mid: seq<Event>, earlier: seq<RuleOutcome>,
                     after: seq<Event>, last: RuleOutcome)
    requires rules != [] && OutcomesHold(events, input, rules[..|rules| - 1], mid, earlier)
    requires mid <= after && |after| == |mid| + if last.Triggered? then 1 else 0
    requires OutcomeHolds(last, rules[|rules| - 1], input, mid, after)
    ensures OutcomesHold(events, input, rules, after, earlier + [last])
  {
    var n := |rules| - 1;
    TriggeredCountAppends(earlier, last);
    assert after == mid + after[|mid|..];
    forall i | 0 <= i < n
      ensures OutcomeHolds(earlier[i], rules[i], input, events, after)
    {
      assert OutcomeHolds(earlier[i], rules[..n][i], input, events, mid);
      OutcomeSurvivesAppend(earlier[i], rules[i], input, events, mid, after[|mid|..]);
    }
    assert OutcomeHolds(last, rules[n], input, events, after);
  }

  lemma EvaluateRuleKeeps(events: seq<Event>, input: Input, rule: Rule)
    ensures var (after, o) := EvaluateRule(events, input, rule);
            && events <= after
            && |after| == |events| + (if o.Triggered? then 1 else 0)
            && OutcomeHolds(o, rule, input, events, after)
    ensures AtMostOneActive(events) ==> AtMostOneActive(EvaluateRule(events, input, rule).0)
  {
  }

  lemma {:induction false} EvaluateRulesKeeps(events: seq<Event>, input: Input, rules: seq<Rule>)
    ensures var (after, outcomes) := EvaluateRules(events, input, rules);
            OutcomesHold(events, input, rules, after, outcomes)
    ensures AtMostOneActive(events) ==> AtMostOneActive(EvaluateRules(events, input, rules).0)
  {
    if rules != [] {
      var n := |rules| - 1;
      var (mid, earlier) := EvaluateRules(events, input, rules[..n]);
      EvaluateRulesKeeps(events, input, rules[..n]);
      EvaluateRuleKeeps(mid, input, rules[n]);
      var (after, last) := EvaluateRule(mid, input, rules[n]);
      OutcomesGrow(events, input, rules, mid, earlier, after, last);
    }
  }

  function ActiveCount(events: seq<Event>, unit: string, tag: string, ruleId: string): nat {
    if events == [] then 0
    else ActiveCount(events[1..], unit, tag, ruleId) + if IsActiveFor(events[0], unit, tag, ruleId) then 1 else 0
  }

  lemma {:induction false} ActiveCountIsOne(events: seq<Event>, unit: string, tag: string, ruleId: string)
    requires AtMostOneActive(events)
    ensures ActiveCount(events, unit, tag, ruleId) == if FindActive(events, unit, tag, ruleId).Some? then 1 else 0
  {
    if events != [] {
      var first, rest := events[0], events[1..];
      ActiveCountIsOne(rest, unit, tag, ruleId);
      var found, later := FindActive(events, unit, tag, ruleId), FindActive(rest, unit, tag, ruleId);
      assert forall i :: 0 < i < |events| ==> events[i] == rest[i - 1];
      if later.Some? {
        assert IsActiveFor(events[later.value + 1], unit, tag, ruleId);
      }
    }
  }

  // The event is the active one of the reading and the rule, and says where it comes from.
  predicate IsRaisedBy(e: Event, rule: Rule, input: Input, band: Band) {
    && e.state.Active? && e.tenant == input.tenant && e.unit == input.unit && e.tag == input.tag
    && e.ruleId == Some(rule.id) && e.severity == rule.severity && e.violated == band
    && e.value == input.value && e.firstTriggeredAt == input.timestamp
  }

  // How an outcome reads off the table before and after.
  ghost predicate Explains(o: RuleOutcome, rule: Rule, input: Input, before: seq<Event>, after: seq<Event>) {
    && o.ruleId == rule.id && o.severity == rule.severity
    && (o.NoThresholdViolated? <==> PickViolatedBand(input.value, rule).None?)
    && (o.SkippedDuplicateActive? ==>
          o.existing < |after| && IsActiveFor(after[o.existing], input.unit, input.tag, rule.id))
    && (o.Triggered? ==> && |before| <= o.event < |after| && PickViolatedBand(input.value, rule) == Some(o.band)
                         && IsRaisedBy(after[o.event], rule, input, o.band))
  }

  /** One evaluation of any reading. Unless it is good the answer is `SkippedQuality` and nothing changes. Else
      there is one outcome per eligible rule in order, no existing event is touched, there is one new event
      per trigger, and every eligible violated rule is left with exactly one active event. */
  lemma EvaluationIsExact(events: seq<Event>, rules: seq<Rule>, input: Input)
    requires AtMostOneActive(events)
    ensures var (after, outcome) := Evaluate(events, rules, input);
            var matched := Eligible(rules, input);
            && events <= after && AtMostOneActive(after)
            && (outcome.SkippedQuality? <==> input.quality != Good)
            && (outcome.NoRule? <==> input.quality == Good && matched == [])
            && (!outcome.Evaluated? ==> after == events)
            && (outcome.Evaluated? ==>
                  && |outcome.perRule| == |matched| && |after| == |events| + TriggeredCount(outcome.perRule)
                  && forall i :: 0 <= i < |matched| ==> Explains(outcome.perRule[i], matched[i], input, events, after))
            && (input.quality == Good ==>
                  forall i :: 0 <= i < |matched| && PickViolatedBand(input.value, matched[i]).Some? ==>
                    ActiveCount(after, input.unit, input.tag, matched[i].id) == 1)
  {
    var matched := Eligible(rules, input);
    EvaluateRulesKeeps(events, input, matched);
    var (after, outcomes) := EvaluateRules(events, input, matched);
    forall i | 0 <= i < |matched|
      ensures Explains(outcomes[i], matched[i], input, events, after)
      ensures PickViolatedBand(input.value, matched[i]).Some? ==>
                ActiveCount(after, input.unit, input.tag, matched[i].id) == 1
    {
      assert OutcomeHolds(outcomes[i], matched[i], input, events, after);
      ActiveCountIsOne(after, input.unit, input.tag, matched[i].id);
    }
  }

  /** Which band a value violates, whatever the bounds: the high ones, alarm before warning, before the low
      ones; and none exactly when the value is within all bounds. */
  lemma BandIsExact(value: real, rule: Rule)
    ensures var over := (b: Option<real>) => b.Some? && value > b.value;
            var under := (b: Option<real>) => b.Some? && value < b.value;
            var high, low := over(rule.highHigh) || over(rule.high), under(rule.lowLow) || under(rule.low);
            var band := PickViolatedBand(value, rule);
            && (band.None? <==> !high && !low)
            && (band in {Some(HighHigh), Some(High)} <==> high)
            && (band == Some(HighHigh) <==> over(rule.highHigh))
            && (band == Some(LowLow) <==> !high && under(rule.lowLow))
  {
  }

  // -------------------------------------------------------------------------
  // Repeating a reading
  // -------------------------------------------------------------------------

  // The outcome a second look gives: a trigger becomes a duplicate with the same event id.
  function Again(o: RuleOutcome): RuleOutcome {
    if o.Triggered? then SkippedDuplicateActive(o.ruleId, o.severity, o.event) else o
  }

  lemma SettledRuleStaysSettled(before: seq<Event>, events: seq<Event>, input: Input, rule: Rule, o: RuleOutcome)
    requires OutcomeHolds(o, rule, input, before, events)
    ensures EvaluateRule(events, input, rule) == (events, Again(o))
  {
  }

  // Rules that were all looked at before, now in any order.
  lemma {:induction false} SettledInAnyOrder(before: seq<Event>, events: seq<Event>, input: Input, rules: seq<Rule>,
                                             outcomes: seq<RuleOutcome>, again: seq<Rule>)
    requires |outcomes| == |rules|
    requires forall j :: 0 <= j < |rules| ==> OutcomeHolds(outcomes[j], rules[j], input, before, events)
    requires forall r :: r in again ==> r in rules
    ensures EvaluateRules(events, input, again).0 == events
    ensures forall i, j | 0 <= i < |again| && 0 <= j < |rules| && again[i] == rules[j]
              :: EvaluateRules(events, input, again).1[i] == Again(outcomes[j])
  {
    if again != [] {
      var n := |again| - 1;
      SettledInAnyOrder(before, events, input, rules, outcomes, again[..n]);
      assert again[n] in again;
      forall j | 0 <= j < |rules| && rules[j] == again[n]
        ensures EvaluateRule(events, input, again[n]) == (events, Again(outcomes[j]))
      {
        SettledRuleStaysSettled(before, events, input, again[n], outcomes[j]);
      }
      assert forall i :: 0 <= i < n ==> again[..n][i] == again[i];
    }
  }

  lemma SameEligible(rules: seq<Rule>, reordered: seq<Rule>, input: Input)
    requires multiset(reordered) == multiset(rules)
    ensures multiset(Eligible(reordered, input)) == multiset(Eligible(rules, input))
  {
    forall r
      ensures multiset(Eligible(reordered, input))[r] == multiset(Eligible(rules, input))[r]
    {
      EligibleIsExact(rules, input, r);
      EligibleIsExact(reordered, input, r);
    }
  }

  // Two looks at the same table, whose eligible rules are the same up to order.
  ghost predicate ReportsAgain(first: Outcome, second: Outcome, matched: seq<Rule>, reordered: seq<Rule>) {
    if first.Evaluated? then
      && second.Evaluated? && |first.perRule| == |matched| == |second.perRule| == |reordered|
      && forall i, j | 0 <= i < |reordered| && 0 <= j < |matched| && reordered[i] == matched[j]
           :: second.perRule[i] == Again(first.perRule[j])
    else second == first
  }

  /** Repeating the same reading creates nothing and reports, rule by rule, the same event ids - even when
      the rules come back in another order, as rules of equal severity may. */
  lemma RepeatedReadingIsIdempotent(events: seq<Event>, rules: seq<Rule>, reordered: seq<Rule>, input: Input)
    requires multiset(reordered) == multiset(rules)
    ensures var (once, first) := Evaluate(events, rules, input);
            var (twice, second) := Evaluate(once, reordered, input);
            && twice == once
            && ReportsAgain(first, second, Eligible(rules, input), Eligible(reordered, input))
  {
    var matched, again := Eligible(rules, input), Eligible(reordered, input);
    SameEligible(rules, reordered, input);
    assert |multiset(again)| == |multiset(matched)|;
    forall r | r in again
      ensures r in matched
    {
      assert r in multiset(again);
    }
    EvaluateRulesKeeps(events, input, matched);
    var (once, first) := EvaluateRules(events, input, matched);
    SettledInAnyOrder(events, once, input, matched, first, again);
  }

  // -------------------------------------------------------------------------
  // Runs
  // -------------------------------------------------------------------------

  // Between evaluations events may leave `active`, in any way; an event still active is untouched.
  ghost predicate OnlyRetires(before: seq<Event>, after: seq<Event>) {
    |after| == |before| && forall i :: 0 <= i < |before| && after[i].state.Active? ==> after[i] == before[i]
  }

  datatype Step = Reading(rules: seq<Rule>, input: Input) | Outside(after: seq<Event>)

  ghost predicate IsStep(before: seq<Event>, step: Step, after: seq<Event>) {
    match step
    case Reading(rules, input) => after == Evaluate(before, rules, input).0
    case Outside(next) => after == next && OnlyRetires(before, next)
  }

  ghost predicate IsRun(steps: seq<Step>, states: seq<seq<Event>>) {
    && |states| == |steps| + 1 && states[0] == []
    && forall i :: 0 <= i < |steps| ==> IsStep(states[i], steps[i], states[i + 1])
  }

  /** In every run, at every point, each (unit, tag, rule) has at most one active event. */
  lemma {:induction false} RunsKeepAtMostOneActive(steps: seq<Step>, states: seq<seq<Event>>, k: nat)
    requires IsRun(steps, states) && k < |states|
    ensures AtMostOneActive(states[k])
  {
    if k > 0 {
      RunsKeepAtMostOneActive(steps, states, k - 1);
      assert IsStep(states[k - 1], steps[k - 1], states[k]);
      if steps[k - 1].Reading? {
        var input := steps[k - 1].input;
        EvaluateRulesKeeps(states[k - 1], input, Eligible(steps[k - 1].rules, input));
      }
    }
  }

  /** In every run an evaluation, of whatever quality, removes and changes no event. */
  lemma EvaluationsOnlyAdd(steps: seq<Step>, states: seq<seq<Event>>, k: nat)
    requires IsRun(steps, states) && k < |steps| && steps[k].Reading?
    ensures states[k] <= states[k + 1]
    ensures steps[k].input.quality != Good ==> states[k + 1] == states[k]
  {
    assert IsStep(states[k], steps[k], states[k + 1]);
    EvaluateRulesKeeps(states[k], steps[k].input, Eligible(steps[k].rules, steps[k].input));
  }

  // The rule as frozen in a snapshot.
  function FrozenRule(e: Event): Rule {
    var s := e.snapshot;
    Rule(s.ruleId, e.unit, e.tag, s.severity, s.version, s.enabled, true, s.lowLow, s.low, s.high, s.highHigh,
         s.deadband, s.delaySeconds, s.messageTemplate)
  }

  // An event can be explained from its own snapshot, without the rules table.
  predicate Replays(e: Event) {
    && e.ruleId == Some(e.snapshot.ruleId) && e.severity == e.snapshot.severity && e.value == e.snapshot.value
    && e.firstTriggeredAt == e.snapshot.timestamp && e.snapshot.quality == Good
    && PickViolatedBand(e.snapshot.value, FrozenRule(e)) == Some(e.violated) == Some(e.snapshot.violated)
  }

  /** The snapshot freezes the whole rule as it was, and where the decision came from. */
  lemma SnapshotFreezesRule(rule: Rule, input: Input, band: Band)
    requires Matches(rule, input)
    ensures var e := NewEvent(rule, input, band);
            && FrozenRule(e) == rule
            && e.snapshot.readingId == input.readingId && e.snapshot.source == input.source
            && e.snapshot.engineeringUnit == input.engineeringUnit && e.snapshot.quality == input.quality
  {
  }

  ghost predicate ActiveReplay(events: seq<Event>) {
    forall i :: 0 <= i < |events| && events[i].state.Active? ==> Replays(events[i])
  }

  lemma NewEventReplays(rule: Rule, input: Input, band: Band)
    requires input.quality == Good && PickViolatedBand(input.value, rule) == Some(band)
    ensures Replays(NewEvent(rule, input, band))
  {
  }

  lemma {:induction false} EvaluateRulesReplay(events: seq<Event>, input: Input, rules: seq<Rule>)
    requires input.quality == Good && ActiveReplay(events)
    ensures ActiveReplay(EvaluateRules(events, input, rules).0)
  {
    if rules != [] {
      var n := |rules| - 1;
      EvaluateRulesReplay(events, input, rules[..n]);
      var band := PickViolatedBand(input.value, rules[n]);
      if band.Some? {
        NewEventReplays(rules[n], input, band.value);
      }
    }
  }

  /** In every run, whatever rule tables the evaluations saw, every active event still replays from its
      own snapshot: later rule edits cannot reinterpret it. */
  lemma {:induction false} ActiveEventsReplay(steps: seq<Step>, states: seq<seq<Event>>, k: nat)
    requires IsRun(steps, states) && k < |states|
    ensures ActiveReplay(states[k])
  {
    if k > 0 {
      ActiveEventsReplay(steps, states, k - 1);
      var step := steps[k - 1];
      assert IsStep(states[k - 1], step, states[k]);
      if step.Reading? && step.input.quality == Good {
        EvaluateRulesReplay(states[k - 1], step.input, Eligible(step.rules, step.input));
      }
    }
  }
}
