/** The `Dashboard` component's state (Dashboard.jsx) and the updates that the
    realtime callback, the effects and the threshold sliders make to it.
    Each method performs one update together with the effects React runs after it,
    so that between calls the state is settled: `prevValues` holds the rendered
    values and `alerts` the alerts for them. */
module Dashboard {
  import opened Readings
  import opened Evaluator
  import Analysis

  /** Every level in the history lies in [0, 100]. */
  ghost predicate LevelsInRange(history: seq<Entry>) {
    forall i :: 0 <= i < |history| ==> 0.0 <= history[i].level <= 100.0
  }

  lemma LevelsInRangeSnoc(history: seq<Entry>, e: Entry)
    requires LevelsInRange(history) && 0.0 <= e.level <= 100.0
    ensures LevelsInRange(history + [e])
  {
    var h := history + [e];
    forall i | 0 <= i < |h|
      ensures 0.0 <= h[i].level <= 100.0
    {
      if i < |history| {
        assert h[i] == history[i];
      }
    }
  }

  class Component {
    /** The latest snapshot (`data`). */
    var data: Snapshot
    /** Every entry appended so far, oldest first (`history`). */
    var history: seq<Entry>
    /** `maxLevel`, `maxTemp` and `maxFlow`. */
    var thresholds: Thresholds
    var alerts: seq<Alert>
    var prevValues: Values
    /** Every sentence handed to `speak`, in order. */
    var spoken: seq<string>
    /** JavaScript's number-to-text conversion, used in alert texts. */
    const show: real -> string
    /** The `<AIAnalysis history={history} />` child. */
    const panel: Analysis.Panel

    ghost predicate Valid()
      reads this, panel
    {
      && InRange(thresholds)
      && prevValues == Current(data)
      && alerts == Alerts(Current(data), thresholds)
      && panel.analysis == Analysis.AnalysisText(history)
      && LevelsInRange(history)
    }

    /** Mounting: initial state, then the effects' first run. The alerts effect sees
        level 0 below the default minimum of 80 and speaks. */
    constructor (show: real -> string)
      ensures Valid() && fresh(panel)
      ensures data == EmptySnapshot && history == [] && thresholds == DefaultThresholds
      ensures prevValues == ZeroValues
      ensures alerts == [LevelLow(0.0, 80)]
      ensures spoken == [Utterance(alerts, show)]
      ensures this.show == show
    {
      this.show := show;
      data := EmptySnapshot;
      history := [];
      thresholds := DefaultThresholds;
      prevValues := ZeroValues;
      panel := new Analysis.Panel([]);
      EmptySnapshotIsZero();
      DefaultsInRange();
      var newAlerts := BuildAlerts(ZeroValues, DefaultThresholds);
      alerts := newAlerts;
      spoken := [Utterance(newAlerts, show)];
    }

    /** The `onValue` callback for one snapshot (`val` is `snap.val()`), then the render
        that compares with the previous values, then the effects. Returns the trends of
        that render. */
    method OnSnapshot(val: Option<Snapshot>, time: string, timestamp: int) returns (trends: Trends)
      requires Valid()
      modifies this, panel
      ensures Valid()
      ensures data == SnapshotOf(val)
      ensures history == old(history) + [EntryOf(data, time, timestamp)]
      ensures thresholds == old(thresholds)
      ensures trends == TrendsOf(Current(data), old(prevValues))
      ensures prevValues == Current(data)
      ensures alerts == Alerts(Current(data), thresholds)
      ensures spoken == old(spoken) +
        (if Current(data) != Current(old(data)) && alerts != [] then [Utterance(alerts, show)] else [])
    {
      Receive(val, time, timestamp);
      trends := TrendsOf(Current(data), prevValues);
      RunEffects();
    }

    /** The callback itself: `setData` and the `setHistory` append; the child panel's
        effect follows the new history. */
    method Receive(val: Option<Snapshot>, time: string, timestamp: int)
      requires Valid()
      modifies this, panel
      ensures data == SnapshotOf(val)
      ensures history == old(history) + [EntryOf(data, time, timestamp)]
      ensures panel.analysis == Analysis.AnalysisText(history)
      ensures LevelsInRange(history)
      ensures thresholds == old(thresholds) && prevValues == old(prevValues)
      ensures alerts == old(alerts) && spoken == old(spoken)
    {
      var snap := SnapshotOf(val);
      var entry := EntryOf(snap, time, timestamp);
      LevelsInRangeSnoc(history, entry);
      data := snap;
      history := history + [entry];
      panel.Refresh(history);
    }

    /** The effects after a render: `prevValues` catches up with the rendered values, and
        the alerts effect re-runs, speaking when it finds alerts, only if they differ. */
    method RunEffects()
      requires InRange(thresholds) && alerts == Alerts(prevValues, thresholds)
      requires panel.analysis == Analysis.AnalysisText(history) && LevelsInRange(history)
      modifies this
      ensures Valid()
      ensures data == old(data) && history == old(history) && thresholds == old(thresholds)
      ensures prevValues == Current(data)
      ensures spoken == old(spoken) +
        (if Current(data) != old(prevValues) && alerts != [] then [Utterance(alerts, show)] else [])
    {
      var current := Current(data);
      var changed := current != prevValues;
      prevValues := current;
      if changed {
        var newAlerts := BuildAlerts(current, thresholds);
        alerts := newAlerts;
        if |newAlerts| > 0 {
          spoken := spoken + [Utterance(newAlerts, show)];
        }
      }
    }

    /** Moving one of the three threshold sliders to `v`; the alerts effect re-runs when
        the threshold actually changed. */
    method Adjust(slider: Slider, v: int)
      requires Valid() && 0 <= v <= SliderMax(slider)
      modifies this
      ensures Valid()
      ensures thresholds == Adjusted(old(thresholds), slider, v)
      ensures data == old(data) && history == old(history) && prevValues == old(prevValues)
      ensures alerts == Alerts(Current(data), thresholds)
      ensures spoken == old(spoken) +
        (if thresholds != old(thresholds) && alerts != [] then [Utterance(alerts, show)] else [])
    {
      AdjustedInRange(thresholds, slider, v);
      var next := Adjusted(thresholds, slider, v);
      if next != thresholds {
        thresholds := next;
        var newAlerts := BuildAlerts(Current(data), thresholds);
        alerts := newAlerts;
        if |newAlerts| > 0 {
          spoken := spoken + [Utterance(newAlerts, show)];
        }
      }
    }
  }

  /** Once the effects have run, the arrows compare the values with themselves: only the
      render that first sees a new snapshot shows up or down. */
  lemma SettledTrendsStable(c: Component)
    requires c.Valid()
    ensures TrendsOf(Current(c.data), c.prevValues) == Trends(Stable, Stable, Stable)
  {
  }

  /** Because every history entry's level is a parsed percentage, the panel's level
      average always lies in [0, 100]. */
  lemma PanelLevelAverage(c: Component)
    requires c.Valid() && |c.history| >= Analysis.Window
    ensures 0.0 <= Analysis.Average(c.history, Analysis.Level) <= 100.0
  {
    var h := c.history;
    assert forall i :: |h| - Analysis.Window <= i < |h| ==> 0.0 <= Analysis.Get(h[i], Analysis.Level) <= 100.0;
    Analysis.AverageBounds(h, Analysis.Level, 0.0, 100.0);
  }

  /** The first snapshot's trends are taken against zero. */
  method FirstTrends(show: real -> string, val: Option<Snapshot>, time: string, timestamp: int)
    returns (trends: Trends)
    ensures trends == TrendsOf(Current(SnapshotOf(val)), ZeroValues)
  {
    var c := new Component(show);
    trends := c.OnSnapshot(val, time, timestamp);
  }

  /** Each snapshot adds exactly one entry at the end; earlier entries are kept in order
      and none is ever dropped. */
  method HistoryGrows(show: real -> string, vals: seq<Option<Snapshot>>, time: string)
    returns (history: seq<Entry>)
    ensures |history| == |vals|
    ensures forall i :: 0 <= i < |vals| ==> history[i] == EntryOf(SnapshotOf(vals[i]), time, i)
  {
    var c := new Component(show);
    var k := 0;
    while k < |vals|
      invariant 0 <= k <= |vals|
      invariant c.Valid() && fresh(c.panel)
      invariant |c.history| == k
      invariant forall i :: 0 <= i < k ==> c.history[i] == EntryOf(SnapshotOf(vals[i]), time, i)
    {
      ghost var before := c.history;
      var _ := c.OnSnapshot(vals[k], time, k);
      assert c.history == before + [EntryOf(SnapshotOf(vals[k]), time, k)];
      k := k + 1;
    }
    history := c.history;
  }

  /** `snap.val() || {}`. */
  function SnapshotOf(val: Option<Snapshot>): Snapshot {
    if val.Some? then val.value else EmptySnapshot
  }
}
