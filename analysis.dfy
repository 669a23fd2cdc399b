/** The rule-based analysis panel (AIAnalysis.jsx): averages the last ten history
    entries and turns them into fixed suggestions, or says that there is not yet
    enough data. */
module Analysis {
  import opened Readings
  import opened Text
  import opened Seqs

  const Window := 10

  // Each message is written as its first word followed by the rest, which lets proofs
  // read its first letter.
  const InsufficientData := "Insufficient " + "data for analysis. Waiting for more readings..."
  const AllNormal := "All " + "systems are operating within normal parameters. No immediate action is required."
  const TempHighHint := "The " + "average temperature is high. Consider checking the cooling system for blockages."
  const TempLowHint := "The " + "coolant is running cooler than optimal. This might affect efficiency."
  const LevelLowHint := "Coolant " + "level is consistently low. Please check for leaks and top up the coolant."
  const FlowHighHint := "Flow " + "rate is higher than usual. This could indicate a leak or a faulty sensor."
  const FlowLowHint := "Flow " + "rate is lower than usual. This could indicate a blockage in the system."

  datatype Metric = Temp | Level | Flow

  function Get(e: Entry, m: Metric): real {
    match m
    case Temp => e.temp
    case Level => e.level
    case Flow => e.flow
  }

  /** `entries.reduce((sum, item) => sum + item.<m>, 0)`, adding from the left. */
  function Sum(entries: seq<Entry>, m: Metric): real
  {
    if entries == [] then 0.0 else Sum(entries[..|entries| - 1], m) + Get(entries[|entries| - 1], m)
  }

  /** The sum over `history.slice(-10)` divided by its length, which is always ten here. */
  function Average(history: seq<Entry>, m: Metric): real
    requires |history| >= Window
  {
    Sum(LastN(history, Window), m) / (Window as real)
  }

  /** If every value lies in [lo, hi], so does their average. */
  lemma {:induction false} SumBounds(entries: seq<Entry>, m: Metric, lo: real, hi: real)
    requires forall i :: 0 <= i < |entries| ==> lo <= Get(entries[i], m) <= hi
    ensures |entries| as real * lo <= Sum(entries, m) <= |entries| as real * hi
  {
    if entries != [] {
      var n := |entries|;
      SumBounds(entries[..n - 1], m, lo, hi);
      assert (n - 1) as real * lo + lo == n as real * lo;
      assert (n - 1) as real * hi + hi == n as real * hi;
    }
  }

  /** An average of values within [lo, hi] is within [lo, hi]; for levels that is [0, 100]. */
  lemma AverageBounds(history: seq<Entry>, m: Metric, lo: real, hi: real)
    requires |history| >= Window
    requires forall i :: |history| - Window <= i < |history| ==> lo <= Get(history[i], m) <= hi
    ensures lo <= Average(history, m) <= hi
  {
    var w := LastN(history, Window);
    assert |w| == Window;
    assert forall i :: 0 <= i < |w| ==> w[i] == history[|history| - Window + i];
    SumBounds(w, m, lo, hi);
    var total := Sum(w, m);
    assert 10.0 * lo <= total <= 10.0 * hi;
    assert Average(history, m) == total / 10.0;
  }

  /** The five suggestions the rules can make. */
  datatype Hint = TempHigh | TempLow | LevelLow | FlowHigh | FlowLow

  function HintText(h: Hint): string {
    match h
    case TempHigh => TempHighHint
    case TempLow => TempLowHint
    case LevelLow => LevelLowHint
    case FlowHigh => FlowHighHint
    case FlowLow => FlowLowHint
  }

  function HintTexts(hints: seq<Hint>): (texts: seq<string>)
    ensures |texts| == |hints|
    ensures forall i :: 0 <= i < |hints| ==> texts[i] == HintText(hints[i])
  {
    seq(|hints|, i requires 0 <= i < |hints| => HintText(hints[i]))
  }

  lemma HintTextsSnoc(hints: seq<Hint>, h: Hint)
    ensures HintTexts(hints + [h]) == HintTexts(hints) + [HintText(h)]
  {
  }

  /** Every suggestion text begins with 'T', 'C' or 'F', unlike the two fixed messages. */
  lemma HintTextInitial(h: Hint)
    ensures |HintText(h)| > 0 && HintText(h)[0] != InsufficientData[0] && HintText(h)[0] != AllNormal[0]
  {
    assert InsufficientData[0] == 'I' && AllNormal[0] == 'A';
    assert TempHighHint[0] == 'T' && TempLowHint[0] == 'T' && LevelLowHint[0] == 'C';
    assert FlowHighHint[0] == 'F' && FlowLowHint[0] == 'F';
  }

  /** The position of a hint's metric in the fixed order temperature, level, flow. */
  function Rank(h: Hint): nat {
    match h
    case TempHigh => 0
    case TempLow => 0
    case LevelLow => 1
    case FlowHigh => 2
    case FlowLow => 2
  }

  /** The temperature rule: high above 35, otherwise cool below 15. */
  function TempHints(avgTemp: real): seq<Hint> {
    if avgTemp > 35.0 then [TempHigh] else if avgTemp < 15.0 then [TempLow] else []
  }

  function LevelHints(avgLevel: real): seq<Hint> {
    if avgLevel < 70.0 then [LevelLow] else []
  }

  /** The flow rule: high above 70, otherwise low when strictly between 0 and 30. */
  function FlowHints(avgFlow: real): seq<Hint> {
    if avgFlow > 70.0 then [FlowHigh] else if avgFlow < 30.0 && avgFlow > 0.0 then [FlowLow] else []
  }

  /** The suggestions the three rules make for three averages. */
  function Suggestions(avgTemp: real, avgLevel: real, avgFlow: real): seq<Hint>
  {
    TempHints(avgTemp) + LevelHints(avgLevel) + FlowHints(avgFlow)
  }

  /** What the panel concludes: too little data, nothing to report, or advice. */
  datatype Outcome = Insufficient | Normal | Advice(hints: seq<Hint>)

  function Assess(history: seq<Entry>): (o: Outcome)
    ensures o.Advice? ==> o.hints != []
  {
    if |history| < Window then Insufficient
    else
      var s := Suggestions(Average(history, Temp), Average(history, Level), Average(history, Flow));
      if s == [] then Normal else Advice(s)
  }

  function Render(o: Outcome): string {
    match o
    case Insufficient => InsufficientData
    case Normal => AllNormal
    case Advice(hints) => Join(HintTexts(hints), " ")
  }

  /** The text the panel shows for a history. */
  function AnalysisText(history: seq<Entry>): string
  {
    Render(Assess(history))
  }

  /** The effect's body: the window, its three averages, and the final message. */
  method Analyze(history: seq<Entry>) returns (analysis: string)
    ensures analysis == AnalysisText(history)
  {
    if |history| < Window {
      return InsufficientData;
    }
    var latestHistory := LastN(history, Window);
    assert |latestHistory| == Window;
    var avgTemp := Sum(latestHistory, Temp) / (|latestHistory| as real);
    var avgLevel := Sum(latestHistory, Level) / (|latestHistory| as real);
    var avgFlow := Sum(latestHistory, Flow) / (|latestHistory| as real);
    assert avgTemp == Average(history, Temp) && avgLevel == Average(history, Level) && avgFlow == Average(history, Flow);

    var suggestions := Suggest(avgTemp, avgLevel, avgFlow);
    ghost var hints := Suggestions(avgTemp, avgLevel, avgFlow);
    assert hints == [] <==> suggestions == [];
    if |suggestions| == 0 {
      analysis := AllNormal;
    } else {
      analysis := Join(suggestions, " ");
    }
  }

  /** The `suggestions` array, pushed one rule at a time. */
  method Suggest(avgTemp: real, avgLevel: real, avgFlow: real) returns (suggestions: seq<string>)
    ensures suggestions == HintTexts(Suggestions(avgTemp, avgLevel, avgFlow))
  {
    suggestions := [];
    ghost var hints: seq<Hint> := [];
    if avgTemp > 35.0 {
      HintTextsSnoc(hints, TempHigh);
      suggestions, hints := suggestions + [TempHighHint], hints + [TempHigh];
    } else if avgTemp < 15.0 {
      HintTextsSnoc(hints, TempLow);
      suggestions, hints := suggestions + [TempLowHint], hints + [TempLow];
    }
    assert suggestions == HintTexts(hints) && hints == TempHints(avgTemp);
    if avgLevel < 70.0 {
      HintTextsSnoc(hints, LevelLow);
      suggestions, hints := suggestions + [LevelLowHint], hints + [LevelLow];
    }
    assert suggestions == HintTexts(hints) && hints == TempHints(avgTemp) + LevelHints(avgLevel);
    if avgFlow > 70.0 {
      HintTextsSnoc(hints, FlowHigh);
      suggestions, hints := suggestions + [FlowHighHint], hints + [FlowHigh];
    } else if avgFlow < 30.0 && avgFlow > 0.0 {
      HintTextsSnoc(hints, FlowLow);
      suggestions, hints := suggestions + [FlowLowHint], hints + [FlowLow];
    }
    assert hints == Suggestions(avgTemp, avgLevel, avgFlow);
  }

  /** Fewer than ten entries always give the insufficient-data message. */
  lemma ShortHistory(history: seq<Entry>)
    requires |history| < Window
    ensures AnalysisText(history) == InsufficientData
  {
  }

  /** From ten entries on, the panel always draws a conclusion from the averages, and
      only the last ten entries matter. */
  lemma OnlyLatestMatter(h1: seq<Entry>, h2: seq<Entry>)
    requires |h1| >= Window && |h2| >= Window
    requires h1[|h1| - Window..] == h2[|h2| - Window..]
    ensures !Assess(h1).Insufficient?
    ensures Assess(h1) == Assess(h2) && AnalysisText(h1) == AnalysisText(h2)
  {
  }

  /** At most three suggestions, one per metric, in the order temperature, level, flow. */
  lemma SuggestionsOrdered(t: real, l: real, f: real)
    ensures |Suggestions(t, l, f)| <= 3
    ensures forall i, j :: 0 <= i < j < |Suggestions(t, l, f)| ==>
      Rank(Suggestions(t, l, f)[i]) < Rank(Suggestions(t, l, f)[j])
  {
  }

  /** The temperature rules: "high" above 35, otherwise "cool" below 15; never both. */
  lemma TemperatureRules(t: real, l: real, f: real)
    ensures TempHigh in Suggestions(t, l, f) <==> t > 35.0
    ensures TempLow in Suggestions(t, l, f) <==> t < 15.0
    ensures !(TempHigh in Suggestions(t, l, f) && TempLow in Suggestions(t, l, f))
  {
  }

  /** The level rule: the low-level hint appears exactly when the average is below 70. */
  lemma LevelRule(t: real, l: real, f: real)
    ensures LevelLow in Suggestions(t, l, f) <==> l < 70.0
  {
  }

  /** The flow rules: "high" above 70, "low" strictly between 0 and 30, nothing at exactly 0. */
  lemma FlowRules(t: real, l: real, f: real)
    ensures FlowHigh in Suggestions(t, l, f) <==> f > 70.0
    ensures FlowLow in Suggestions(t, l, f) <==> 0.0 < f < 30.0
    ensures f == 0.0 ==> FlowHigh !in Suggestions(t, l, f) && FlowLow !in Suggestions(t, l, f)
  {
  }

  /** The text shown tells the three outcomes apart: the waiting message appears exactly
      while fewer than ten entries exist, and the all-normal message exactly when the
      rules are silent; advice never reads as either. */
  lemma RenderTellsOutcomes(history: seq<Entry>)
    ensures AnalysisText(history) == InsufficientData <==> |history| < Window
    ensures AnalysisText(history) == AllNormal <==> Assess(history) == Normal
  {
    assert InsufficientData[0] == 'I' && AllNormal[0] == 'A';
    var o := Assess(history);
    if o.Advice? {
      var texts := HintTexts(o.hints);
      HintTextInitial(o.hints[0]);
      JoinStartsWith(texts, " ");
      var t := AnalysisText(history);
      assert t == Join(texts, " ");
      assert t[0] == texts[0][0];
    }
  }

  /** With ten entries the panel reports "all normal" exactly when no rule fires. */
  lemma NormalExactly(history: seq<Entry>)
    requires |history| >= Window
    ensures Assess(history) == Normal <==>
      Suggestions(Average(history, Temp), Average(history, Level), Average(history, Flow)) == []
  {
  }

  /** The `analysis` state slot of the panel. */
  class Panel {
    var analysis: string

    /** Mounting runs the effect once for the history at hand. */
    constructor (history: seq<Entry>)
      ensures analysis == AnalysisText(history)
    {
      analysis := "";
      new;
      analysis := Analyze(history);
    }

    /** The effect re-runs whenever the `history` prop changes. */
    method Refresh(history: seq<Entry>)
      modifies this
      ensures analysis == AnalysisText(history)
    {
      analysis := Analyze(history);
    }
  }
}
