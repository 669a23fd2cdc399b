/** What the dashboard derives from the current values (Dashboard.jsx): trend
    arrows against the previous values, the coolant health index, and the list
    of threshold alerts together with the sentence that is spoken for it. */
module Evaluator {
  import opened Readings
  import opened Text

  // ---------------------------------------------------------------- trends

  datatype Trend = Up | Down | Stable

  /** `getTrend(current, previous)`. */
  function TrendOf(current: real, previous: real): (t: Trend)
    ensures t == Up <==> current > previous
    ensures t == Down <==> current < previous
    ensures t == Stable <==> current == previous
  {
    if current > previous then Up
    else if current < previous then Down
    else Stable
  }

  function Flip(t: Trend): Trend {
    match t
    case Up => Down
    case Down => Up
    case Stable => Stable
  }

  /** Swapping the two values swaps up and down. */
  lemma TrendSwap(current: real, previous: real)
    ensures TrendOf(previous, current) == Flip(TrendOf(current, previous))
  {
  }

  datatype Trends = Trends(temp: Trend, level: Trend, flow: Trend)

  /** `tempTrend`, `levelTrend` and `flowTrend`. */
  function TrendsOf(current: Values, previous: Values): (r: Trends)
    ensures r == Trends(Stable, Stable, Stable) <==> current == previous
  {
    Trends(TrendOf(current.temp, previous.temp), TrendOf(current.level, previous.level),
           TrendOf(current.flow, previous.flow))
  }

  /** Swapping the current and previous values flips every arrow. */
  lemma TrendsSwap(current: Values, previous: Values)
    ensures var r := TrendsOf(current, previous);
      TrendsOf(previous, current) == Trends(Flip(r.temp), Flip(r.level), Flip(r.flow))
  {
  }

  /** Comparing values with themselves shows every arrow as stable. */
  lemma TrendsOfSelf(v: Values)
    ensures TrendsOf(v, v) == Trends(Stable, Stable, Stable)
  {
  }

  // ------------------------------------------------------------ thresholds

  /** The three slider-controlled thresholds; `maxLevel` is the minimum coolant level. */
  datatype Thresholds = Thresholds(maxLevel: int, maxTemp: int, maxFlow: int)

  const DefaultThresholds := Thresholds(80, 40, 60)

  datatype Slider = LevelSlider | TempSlider | FlowSlider

  /** The `max` of each `<input type="range" min={0}>`. */
  function SliderMax(s: Slider): int {
    match s
    case LevelSlider => 100
    case TempSlider => 50
    case FlowSlider => 100
  }

  function Setting(th: Thresholds, s: Slider): int {
    match s
    case LevelSlider => th.maxLevel
    case TempSlider => th.maxTemp
    case FlowSlider => th.maxFlow
  }

  predicate InRange(th: Thresholds) {
    forall s: Slider :: 0 <= Setting(th, s) <= SliderMax(s)
  }

  /** The thresholds after slider `s` is moved to `v`. */
  function Adjusted(th: Thresholds, s: Slider, v: int): (r: Thresholds)
    ensures Setting(r, s) == v
    ensures forall o: Slider :: o != s ==> Setting(r, o) == Setting(th, o)
  {
    match s
    case LevelSlider => th.(maxLevel := v)
    case TempSlider => th.(maxTemp := v)
    case FlowSlider => th.(maxFlow := v)
  }

  lemma DefaultsInRange()
    ensures InRange(DefaultThresholds)
  {
  }

  /** Moving a slider within its range keeps every threshold within range. */
  lemma AdjustedInRange(th: Thresholds, s: Slider, v: int)
    requires InRange(th) && 0 <= v <= SliderMax(s)
    ensures InRange(Adjusted(th, s, v))
  {
  }

  // ------------------------------------------------------------ health index

  function Abs(x: real): real {
    if x < 0.0 then -x else x
  }

  function Max(x: real, y: real): real {
    if x >= y then x else y
  }

  /** The penalty subtracted from 100, before the outer `Math.max(0, ...)`. */
  function Penalty(v: Values, th: Thresholds): (p: real)
    ensures p >= (th.maxLevel as real - v.level) * 0.8
    ensures v.temp == 25.0 && v.flow <= th.maxFlow as real ==> p == (th.maxLevel as real - v.level) * 0.8
  {
    Abs(v.temp - 25.0) * 2.0 + (th.maxLevel as real - v.level) * 0.8
      + Max(0.0, v.flow - th.maxFlow as real) * 1.5
  }

  /** `coolantHealth` before `toFixed(0)`. */
  function Health(v: Values, th: Thresholds): (h: real)
    ensures h >= 0.0
    ensures h == 0.0 || h == 100.0 - Penalty(v, th)
    ensures h >= 100.0 - Penalty(v, th)
  {
    Max(0.0, 100.0 - Penalty(v, th))
  }

  /** The further the temperature is from 25, the lower (or equal) the health. */
  lemma HealthTemperature(v: Values, th: Thresholds, t: real)
    requires Abs(v.temp - 25.0) <= Abs(t - 25.0)
    ensures Health(v.(temp := t), th) <= Health(v, th)
  {
  }

  /** A flow at or below `maxFlow` does not affect the health. */
  lemma HealthFlowBelowLimit(v: Values, th: Thresholds, f: real)
    requires v.flow <= th.maxFlow as real && f <= th.maxFlow as real
    ensures Health(v.(flow := f), th) == Health(v, th)
  {
  }

  /** More flow never raises the health; above `maxFlow` each extra unit costs 1.5. */
  lemma HealthFlow(v: Values, th: Thresholds, f: real)
    requires v.flow <= f
    ensures Health(v.(flow := f), th) <= Health(v, th)
  {
  }

  /** More coolant never lowers the health. */
  lemma HealthLevel(v: Values, th: Thresholds, l: real)
    requires v.level <= l
    ensures Health(v, th) <= Health(v.(level := l), th)
  {
  }

  /** The index is not capped at 100: a level above the minimum counts as a bonus. */
  lemma HealthAboveHundred()
    ensures Health(Values(25.0, 100.0, 0.0), Thresholds(0, 40, 60)) == 180.0
  {
  }

  /** With thresholds from the sliders and a parsed level, the index stays within [0, 180]. */
  lemma HealthBounds(v: Values, th: Thresholds)
    requires InRange(th) && 0.0 <= v.level <= 100.0
    ensures 0.0 <= Health(v, th) <= 180.0
    ensures v.level <= th.maxLevel as real ==> Health(v, th) <= 100.0
  {
    assert 0 <= Setting(th, LevelSlider);
  }

  // ----------------------------------------------------------------- alerts

  datatype Alert =
    | LevelLow(level: real, minimum: int)
    | TempHigh(temp: real, maximum: int)
    | FlowHigh(flow: real, maximum: int)

  /** The position of an alert's kind in the fixed order level, temperature, flow. */
  function Rank(a: Alert): nat {
    match a
    case LevelLow(_, _) => 0
    case TempHigh(_, _) => 1
    case FlowHigh(_, _) => 2
  }

  /** The alert list of the alerts effect. */
  function Alerts(v: Values, th: Thresholds): seq<Alert>
  {
    (if v.level < th.maxLevel as real then [LevelLow(v.level, th.maxLevel)] else [])
    + (if v.temp > th.maxTemp as real then [TempHigh(v.temp, th.maxTemp)] else [])
    + (if v.flow > th.maxFlow as real then [FlowHigh(v.flow, th.maxFlow)] else [])
  }

  /** The effect's `newAlerts`, pushed one test at a time. */
  method BuildAlerts(v: Values, th: Thresholds) returns (newAlerts: seq<Alert>)
    ensures newAlerts == Alerts(v, th)
  {
    newAlerts := [];
    if v.level < th.maxLevel as real {
      newAlerts := newAlerts + [LevelLow(v.level, th.maxLevel)];
    }
    if v.temp > th.maxTemp as real {
      newAlerts := newAlerts + [TempHigh(v.temp, th.maxTemp)];
    }
    if v.flow > th.maxFlow as real {
      newAlerts := newAlerts + [FlowHigh(v.flow, th.maxFlow)];
    }
  }

  /** At most one alert per metric, in the order level, temperature, flow. */
  lemma AlertsOrdered(v: Values, th: Thresholds)
    ensures |Alerts(v, th)| <= 3
    ensures forall i, j :: 0 <= i < j < |Alerts(v, th)| ==> Rank(Alerts(v, th)[i]) < Rank(Alerts(v, th)[j])
  {
  }

  /** Each alert is present exactly when its strict test fires, and carries the values compared. */
  lemma AlertsExact(v: Values, th: Thresholds)
    ensures LevelLow(v.level, th.maxLevel) in Alerts(v, th) <==> v.level < th.maxLevel as real
    ensures TempHigh(v.temp, th.maxTemp) in Alerts(v, th) <==> v.temp > th.maxTemp as real
    ensures FlowHigh(v.flow, th.maxFlow) in Alerts(v, th) <==> v.flow > th.maxFlow as real
    ensures forall a :: a in Alerts(v, th) ==>
      a == LevelLow(v.level, th.maxLevel) || a == TempHigh(v.temp, th.maxTemp) || a == FlowHigh(v.flow, th.maxFlow)
  {
  }

  /** The list is empty exactly when no test fires; values on a threshold do not alert. */
  lemma AlertsEmpty(v: Values, th: Thresholds)
    ensures Alerts(v, th) == [] <==>
      v.level >= th.maxLevel as real && v.temp <= th.maxTemp as real && v.flow <= th.maxFlow as real
  {
  }

  /** A temperature equal to the default maximum of 40 raises no temperature alert (the
      test is strictly greater); one degree more does. */
  lemma TemperatureBoundary()
    ensures forall a :: a in Alerts(Values(40.0, 100.0, 0.0), DefaultThresholds) ==> !a.TempHigh?
    ensures Alerts(Values(41.0, 100.0, 0.0), DefaultThresholds) == [TempHigh(41.0, 40)]
  {
  }

  /** The text of one alert; `show` is JavaScript's number-to-text conversion. */
  // Each message is written as its first word followed by the rest, which lets proofs
  // read its first letter.
  function AlertText(a: Alert, show: real -> string): string {
    match a
    case LevelLow(l, m) =>
      "Coolant " + "level below threshold (" + show(l) + "% < " + show(m as real) + "%)"
    case TempHigh(t, m) =>
      "Temperature " + "exceeded threshold (" + show(t) + "\U{B0}C > " + show(m as real) + "\U{B0}C)"
    case FlowHigh(f, m) =>
      "Flow " + "rate exceeded threshold (" + show(f) + "L/min > " + show(m as real) + "L/min)"
  }

  function AlertTexts(alerts: seq<Alert>, show: real -> string): (texts: seq<string>)
    ensures |texts| == |alerts|
    ensures forall i :: 0 <= i < |alerts| ==> texts[i] == AlertText(alerts[i], show)
  {
    seq(|alerts|, i requires 0 <= i < |alerts| => AlertText(alerts[i], show))
  }

  /** Alerts of different metrics never read the same: each text begins with the name
      of its metric. */
  lemma AlertTextKinds(a: Alert, b: Alert, show: real -> string)
    requires Rank(a) != Rank(b)
    ensures AlertText(a, show) != AlertText(b, show)
  {
    var ta, tb := AlertText(a, show), AlertText(b, show);
    assert ta[0] == (match a case LevelLow(_, _) => 'C' case TempHigh(_, _) => 'T' case FlowHigh(_, _) => 'F');
    assert tb[0] == (match b case LevelLow(_, _) => 'C' case TempHigh(_, _) => 'T' case FlowHigh(_, _) => 'F');
  }

  /** The texts of two runs of alerts are the texts of the first followed by those of
      the second. */
  lemma AlertTextsAppend(a: seq<Alert>, b: seq<Alert>, show: real -> string)
    ensures AlertTexts(a + b, show) == AlertTexts(a, show) + AlertTexts(b, show)
  {
    var l, r := AlertTexts(a + b, show), AlertTexts(a, show) + AlertTexts(b, show);
    forall i | 0 <= i < |l|
      ensures l[i] == r[i]
    {
      if i < |a| {
        assert (a + b)[i] == a[i];
      } else {
        assert (a + b)[i] == b[i - |a|];
      }
    }
  }

  /** `newAlerts.join(". ")`, the sentence passed to `speak`. */
  function Utterance(alerts: seq<Alert>, show: real -> string): string {
    Join(AlertTexts(alerts, show), ". ")
  }

  /** Pushing one more alert adds ". " and its text to the sentence; a single alert is
      spoken as its text alone. */
  lemma UtteranceSnoc(alerts: seq<Alert>, a: Alert, show: real -> string)
    ensures Utterance(alerts + [a], show) ==
      (if alerts == [] then "" else Utterance(alerts, show) + ". ") + AlertText(a, show)
  {
    AlertTextsAppend(alerts, [a], show);
    var texts := AlertTexts(alerts, show);
    assert AlertTexts([a], show) == [AlertText(a, show)];
    if alerts == [] {
      assert texts + [AlertText(a, show)] == [AlertText(a, show)];
    } else {
      JoinSnoc(texts, AlertText(a, show), ". ");
    }
  }
}
