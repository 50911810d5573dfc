/** The web evaluator against the backend one, on the same four bounds. */
module EvaluatorAgreement {
  import opened Prelude
  import B = AlarmEvaluation
  import W = TagState
  import T = Telemetry

  // alarmHigh/warningHigh/warningLow/alarmLow are high_high/high/low/low_low.
  function AsThresholds(rule: B.Rule): T.Thresholds {
    T.Thresholds(rule.low, rule.high, rule.lowLow, rule.highHigh)
  }

  function AsState(band: Option<B.Band>): W.AlarmState {
    match band
    case None => W.Normal
    case Some(HighHigh) => W.AlarmHigh
    case Some(High) => W.WarningHigh
    case Some(Low) => W.WarningLow
    case Some(LowLow) => W.AlarmLow
  }

  predicate Agree(v: real, rule: B.Rule) {
    W.BandOf(v, AsThresholds(rule)) == AsState(B.PickViolatedBand(v, rule))
  }

  predicate IsBound(v: real, rule: B.Rule) {
    Some(v) in {rule.highHigh, rule.high, rule.low, rule.lowLow}
  }

  predicate Above(v: real, bound: Option<real>) { bound.Some? && v > bound.value }
  predicate Below(v: real, bound: Option<real>) { bound.Some? && v < bound.value }

  predicate LowsBelowHighs(rule: B.Rule) {
    forall lo, hi | lo in {rule.low, rule.lowLow} && hi in {rule.high, rule.highHigh} && lo.Some? && hi.Some?
      :: lo.value < hi.value
  }

  /** Every value and any four bounds. The two differ exactly at the alarm-high; or, not above it, at the
      alarm-low, or below it and above the warning-high the backend asks about first; or, not below it either,
      at a warning bound that still decides. */
  lemma DifferExactlyWhen(v: real, rule: B.Rule)
    ensures !Agree(v, rule) <==>
            || rule.highHigh == Some(v)
            || (!Above(v, rule.highHigh)
                && (|| rule.lowLow == Some(v)
                    || (Below(v, rule.lowLow) && Above(v, rule.high))
                    || (!Below(v, rule.lowLow)
                        && (rule.high == Some(v) || (rule.low == Some(v) && !Above(v, rule.high))))))
  {
  }

  /** Off every bound only the precedence is left: the two evaluators differ exactly between a warning-high
      and a higher alarm-low, up to the alarm-high. */
  lemma OffBoundsPrecedenceIsTheOnlyDifference(v: real, rule: B.Rule)
    requires !IsBound(v, rule)
    ensures !Agree(v, rule) <==> Above(v, rule.high) && Below(v, rule.lowLow) && !Above(v, rule.highHigh)
  {
  }

  /** With every low bound below every high bound: they differ exactly at a bound that no more severe
      bound of its own side has already overtaken, because only the web counts "at the bound". */
  lemma SaneBoundsDifferExactlyAtBounds(v: real, rule: B.Rule)
    requires LowsBelowHighs(rule)
    ensures !Agree(v, rule) <==>
            || rule.highHigh == Some(v) || (rule.high == Some(v) && !Above(v, rule.highHigh))
            || rule.lowLow == Some(v) || (rule.low == Some(v) && !Below(v, rule.lowLow))
    ensures !IsBound(v, rule) ==> Agree(v, rule)
  {
    assert forall lo, hi | lo in {rule.low, rule.lowLow} && hi in {rule.high, rule.highHigh} && lo.Some? && hi.Some?
        :: lo.value < hi.value;
    assert rule.low in {rule.low, rule.lowLow} && rule.lowLow in {rule.low, rule.lowLow};
    assert rule.high in {rule.high, rule.highHigh} && rule.highHigh in {rule.high, rule.highHigh};
  }

  /** Crossed bounds do disagree off every bound: 7 between warning-high 5 and alarm-low 10. */
  lemma CrossedBoundsDisagree(rule: B.Rule)
    requires rule.high == Some(5.0) && rule.lowLow == Some(10.0) && rule.highHigh == None && rule.low == None
    ensures !IsBound(7.0, rule) && W.BandOf(7.0, AsThresholds(rule)) == W.AlarmLow
    ensures B.PickViolatedBand(7.0, rule) == Some(B.High)
  {
  }
}
