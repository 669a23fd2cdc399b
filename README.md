# Coolant sensor pipeline: a Dafny model

This project models the three pieces of logic in a small coolant-monitoring system.

- **The ESP32 sketch** (`espcode/main.cpp`) samples three sensors:
  - a water-level probe, read through the ADC and divided by ten;
  - a pulse-counting flow meter, converted to L/min;
  - a Dallas temperature probe.

  A millisecond scheduler in `loop` reads the sensors every second and publishes every ten seconds. Each publication writes four strings under `/test` in the realtime database: the labelled level `"value_<n>"`, a counter, the temperature and the flow rate.
- **The React `Dashboard` component** (`mcettestbed/app1/src/Dashboard.jsx`) subscribes to that node. For each snapshot it:
  - parses the labelled level into a percentage in [0, 100];
  - appends a history entry. The device makes four separate writes per publication (main.cpp:149-152), and each write that changes the node fires the subscription, so one publication adds between one and four entries and the last ten entries may span only a few publications;
  - compares the values with the previous ones, giving trend arrows;
  - computes a coolant health index;
  - builds an ordered list of threshold alerts and speaks it.

  It also exports the last 100 history entries as CSV.
- **The `AIAnalysis` panel** (`mcettestbed/app1/src/AIAnalysis.jsx`) averages the last ten history entries. From those averages it shows fixed advice, an "all normal" message, or an "insufficient data" message.

The modules follow that structure:

- `Numerals`: decimal digit strings and `String(int)`.
- `JsParse`: JavaScript's `parseFloat`, the `replace(/[^\d.]/g, "")` strip, and the level parse.
- `Readings`: snapshots, rendered values and history entries.
- `Evaluator`: trends, thresholds, health index and alerts.
- `CsvExport`.
- `Analysis` and its `Panel` class.
- `Dashboard`: the component's state as the class `Component`.
- `Firmware`: the sketch's globals as the class `Controller`.
- `Pipeline`: the device-to-dashboard round trip.
- `Text` (`join`, and splitting at a separator character).
- `Seqs` (`slice(-k)`, shared by the export and the panel).

Code that updates state in the source is modelled as imperative Dafny:

- the component's state slots and the sketch's globals are class fields;
- the alert builder and the suggestion builder push onto local sequences.

Each method is proved against the pure functions that specify it. The properties of those functions are then proved as lemmas.

Three facts about the code shape the model:

- **The strip `[^\d.]` keeps the decimal point**, so `"value68.5"` reads as 68.5.
- **The health index has no upper clamp.** Its level term, `(maxLevel - level) * 0.8`, has no `max(0, …)`, so a level above the minimum raises the index. `HealthAboveHundred` exhibits 180.
- **The history is unbounded.** Every snapshot appends one entry and none is ever dropped. The timestamps are not checked to increase.

## Model

| member | source | states |
|---|---|---|
| Numerals.IntToString | espcode/main.cpp:143 | `String(n)` is made of decimal digits, preceded by `-` exactly when n is negative |
| Numerals.NatToString | espcode/main.cpp:143 | the decimal form is non-empty, only digits, and has no leading zero unless the number is 0 |
| Numerals.NatToStringValue | espcode/main.cpp:143 | reading the decimal form of n back as digits gives n |
| Numerals.NatToStringInjective | espcode/main.cpp:146 | different counter values have different decimal texts |
| JsParse.WhitespaceRun | mcettestbed/app1/src/Dashboard.jsx:52 | `parseFloat` skips exactly the leading JavaScript white space and stops at the first other character |
| JsParse.Mantissa | mcettestbed/app1/src/Dashboard.jsx:52 | a number prefix, when found, has positive length within the text and a non-negative value |
| JsParse.ParseUnsigned | mcettestbed/app1/src/Dashboard.jsx:52 | an unsigned literal never parses to a negative number |
| JsParse.OrZeroFalsy | mcettestbed/app1/src/Dashboard.jsx:52 | `\|\| 0` gives 0 exactly for the falsy results NaN and 0, and keeps every other number |
| JsParse.ParseFloatSkipsWhitespace | mcettestbed/app1/src/Dashboard.jsx:73 | `parseFloat` reads the same number whatever white space precedes it |
| JsParse.ParseFloatSigned | mcettestbed/app1/src/Dashboard.jsx:73 | a leading `-` negates the literal that follows and a leading `+` is dropped |
| JsParse.ParseFloatUnsigned | mcettestbed/app1/src/Dashboard.jsx:52 | text that starts with a digit or a dot is parsed with no white space or sign step |
| JsParse.Strip | mcettestbed/app1/src/Dashboard.jsx:52 | stripping keeps only digits and dots and never lengthens the text |
| JsParse.StripKept | mcettestbed/app1/src/Dashboard.jsx:52 | text made of digits and dots is left unchanged by the strip |
| JsParse.StripNoneKept | mcettestbed/app1/src/Dashboard.jsx:52 | text with no digit and no dot is stripped to the empty string |
| JsParse.StripNoDigits | mcettestbed/app1/src/Dashboard.jsx:52 | text without digits strips to dots only |
| JsParse.StripAppend | mcettestbed/app1/src/Dashboard.jsx:52 | stripping works piecewise: strip(a + b) = strip(a) + strip(b) |
| JsParse.StrippedNonNegative | mcettestbed/app1/src/Dashboard.jsx:52 | what `parseFloat` reads after the strip is never negative, because every sign is removed |
| JsParse.ParseLevel | mcettestbed/app1/src/Dashboard.jsx:50-53 | the parsed level always lies in [0, 100] |
| JsParse.ParseDigits | mcettestbed/app1/src/Dashboard.jsx:52 | `parseFloat` of a non-empty digit string is its decimal value |
| JsParse.MantissaDigits | mcettestbed/app1/src/Dashboard.jsx:52 | a digit string is one whole number prefix |
| JsParse.MantissaFraction | mcettestbed/app1/src/Dashboard.jsx:52 | `digits.digits` is one number prefix whose value is the integer part plus the fraction |
| JsParse.ParseFraction | mcettestbed/app1/src/Dashboard.jsx:52 | `parseFloat("d.f")` is the integer part plus the fraction |
| JsParse.StripFraction | mcettestbed/app1/src/Dashboard.jsx:52 | a decimal `digits.digits` survives the strip unchanged |
| JsParse.ParseLevelOfStrip | mcettestbed/app1/src/Dashboard.jsx:50-53 | two raw texts with the same stripped form give the same level |
| JsParse.ParseLevelIgnoresNoise | mcettestbed/app1/src/Dashboard.jsx:50-53 | inserting characters other than digits and dots anywhere does not change the level, so a minus sign cannot make it negative |
| JsParse.ParseLevelLabelled | mcettestbed/app1/src/Dashboard.jsx:50-53 | a label without digits or dots followed by the decimal form of n parses to min(n, 100) |
| JsParse.ParseLevelLabelledFraction | mcettestbed/app1/src/Dashboard.jsx:50-53 | a label followed by `d.f` parses to min(d + 0.f, 100): the fraction is kept |
| JsParse.ParseLevelNoDigits | mcettestbed/app1/src/Dashboard.jsx:50-53 | any text without digits, dots allowed, parses to level 0 (NaN or 0 become 0) |
| JsParse.ParseLevelDeviceExample | mcettestbed/app1/src/Dashboard.jsx:50-53 | `"value_68"` is 68 |
| JsParse.ParseLevelFractionExample | mcettestbed/app1/src/Dashboard.jsx:50-53 | `"value68.5"` is 68.5 |
| JsParse.ParseLevelNoValueExample | mcettestbed/app1/src/Dashboard.jsx:50-53 | `"novalue"` is 0 |
| JsParse.ParseLevelMissingExample | mcettestbed/app1/src/Dashboard.jsx:69-72 | the fallbacks `""` and `"0"` of a missing field are 0 |
| JsParse.ParseLevelCapAndSignExamples | mcettestbed/app1/src/Dashboard.jsx:50-53 | `"150"` is capped to 100 and `"-20"` loses its sign and reads 20 |
| Readings.FieldNumberDecimal | mcettestbed/app1/src/Dashboard.jsx:73-74 | `parseFloat(field) \|\| 0` reads the device's `digits.digits` text as its decimal value and `-digits.digits` as the negated value, so "12.50" is 12.5 |
| Readings.FieldLevel | mcettestbed/app1/src/Dashboard.jsx:69-72 | a field, missing or empty or not, yields a level in [0, 100] |
| Readings.Current | mcettestbed/app1/src/Dashboard.jsx:69-74 | the rendered level is always within [0, 100] |
| Readings.EntryOf | mcettestbed/app1/src/Dashboard.jsx:56-65 | every history entry's level is within [0, 100] |
| Readings.EntryAgreesWithCurrent | mcettestbed/app1/src/Dashboard.jsx:50-72 | the callback's entry and the render give the same level for the same snapshot, despite their different fallbacks `""` and `"0"` |
| Readings.EmptySnapshotIsZero | mcettestbed/app1/src/Dashboard.jsx:69-74 | an empty node renders as level, temperature and flow 0 |
| Evaluator.TrendOf | mcettestbed/app1/src/Dashboard.jsx:77-81 | up iff current > previous, down iff current < previous, stable iff equal |
| Evaluator.TrendSwap | mcettestbed/app1/src/Dashboard.jsx:77-81 | swapping the arguments swaps up and down and keeps stable |
| Evaluator.TrendsOf | mcettestbed/app1/src/Dashboard.jsx:83-85 | all three arrows are stable exactly when the current values equal the previous ones |
| Evaluator.TrendsSwap | mcettestbed/app1/src/Dashboard.jsx:83-85 | swapping current and previous values flips every arrow |
| Evaluator.TrendsOfSelf | mcettestbed/app1/src/Dashboard.jsx:83-94 | comparing values with themselves gives three stable arrows |
| Evaluator.Adjusted | mcettestbed/app1/src/Dashboard.jsx:157-171 | moving one slider sets exactly that threshold and leaves the other two unchanged |
| Evaluator.DefaultsInRange | mcettestbed/app1/src/Dashboard.jsx:24-26 | the defaults 80, 40 and 60 lie within their sliders' ranges |
| Evaluator.AdjustedInRange | mcettestbed/app1/src/Dashboard.jsx:243-263 | moving a slider within [0, max] keeps every threshold within its range (100, 50, 100) |
| Evaluator.Penalty | mcettestbed/app1/src/Dashboard.jsx:99-102 | the penalty is at least the level term, which alone can be negative; at 25 °C and a flow within the limit it equals the level term |
| Evaluator.Health | mcettestbed/app1/src/Dashboard.jsx:97-103 | the index is never negative, is at least 100 minus the penalty, and is either 0 or exactly 100 minus the penalty |
| Evaluator.HealthTemperature | mcettestbed/app1/src/Dashboard.jsx:97-103 | the index does not increase as the temperature moves away from 25 |
| Evaluator.HealthFlowBelowLimit | mcettestbed/app1/src/Dashboard.jsx:97-103 | flows at or below `maxFlow` do not change the index |
| Evaluator.HealthFlow | mcettestbed/app1/src/Dashboard.jsx:97-103 | more flow never raises the index |
| Evaluator.HealthLevel | mcettestbed/app1/src/Dashboard.jsx:97-103 | more coolant never lowers the index |
| Evaluator.HealthAboveHundred | mcettestbed/app1/src/Dashboard.jsx:97-103 | the index is not capped at 100: a full tank at minimum 0, 25 °C and no flow gives 180 |
| Evaluator.HealthBounds | mcettestbed/app1/src/Dashboard.jsx:97-103 | with slider thresholds and a parsed level the index lies in [0, 180], and in [0, 100] when the level is at or below its minimum |
| Evaluator.BuildAlerts | mcettestbed/app1/src/Dashboard.jsx:105-119 | the pushed alert list equals the alert specification |
| Evaluator.AlertsOrdered | mcettestbed/app1/src/Dashboard.jsx:105-118 | `Alerts` holds at most three alerts, in the order level, temperature, flow |
| Evaluator.AlertsExact | mcettestbed/app1/src/Dashboard.jsx:105-118 | in `Alerts`, each alert is present iff its strict test fires, carries the compared values, and no other alert appears |
| Evaluator.AlertsEmpty | mcettestbed/app1/src/Dashboard.jsx:105-118 | the list is empty iff no test fires; a value on its threshold does not alert |
| Evaluator.TemperatureBoundary | mcettestbed/app1/src/Dashboard.jsx:111 | 40 °C against the default 40 gives no temperature alert, and 41 °C gives exactly one |
| Evaluator.AlertTextKinds | mcettestbed/app1/src/Dashboard.jsx:108-118 | alerts of different metrics never have the same text |
| Evaluator.AlertTextsAppend | mcettestbed/app1/src/Dashboard.jsx:108-118 | the texts of two runs of alerts are the texts of the first run followed by those of the second |
| Evaluator.UtteranceSnoc | mcettestbed/app1/src/Dashboard.jsx:122 | pushing one more alert adds `". "` and its text to the spoken sentence; a single alert is spoken as its text alone |
| Seqs.LastN | mcettestbed/app1/src/Dashboard.jsx:127 | `slice(-k)` is the last min(k, n) elements |
| Seqs.LastNSnoc | mcettestbed/app1/src/AIAnalysis.jsx:13 | the window slides: appending drops the oldest element once the window is full, and otherwise only grows it |
| Seqs.LastNOfLastN | mcettestbed/app1/src/AIAnalysis.jsx:13 | the last ten entries of the exported hundred are the last ten entries of the history |
| CsvExport.RowFields | mcettestbed/app1/src/Dashboard.jsx:137 | split at its commas, a row gives back the quoted time, temperature, level and flow, in the header's column order, when none of those texts holds a comma |
| CsvExport.RowsAppend | mcettestbed/app1/src/Dashboard.jsx:137 | the rows of two runs of entries are the rows of the first run followed by those of the second |
| CsvExport.FileName | mcettestbed/app1/src/Dashboard.jsx:146-148 | the name is `sensor_data_last_100_`, then at most ten characters of the ISO time (exactly its first ten when it has them), then `.csv` |
| CsvExport.ExportCsv | mcettestbed/app1/src/Dashboard.jsx:126-148 | refused, with the notice, iff the history is empty; otherwise a download with the dated file name whose content starts with the header |
| CsvExport.HeaderLineHasNoBreak | mcettestbed/app1/src/Dashboard.jsx:133 | the header line holds no line break |
| CsvExport.ExportLines | mcettestbed/app1/src/Dashboard.jsx:132-138 | when no field text holds a line break, the download's lines are the header line followed by exactly the rows of the last min(100, n) entries, oldest first |
| Text.SplitJoin | mcettestbed/app1/src/Dashboard.jsx:138 | pieces without the separator, joined with it, split back into the same pieces |
| Text.JoinSnoc | mcettestbed/app1/src/Dashboard.jsx:122 | joining one more part adds the separator and that part at the end |
| Analysis.SumBounds | mcettestbed/app1/src/AIAnalysis.jsx:14-16 | the `reduce` sum `Sum` of n values within [lo, hi] lies in [n*lo, n*hi] |
| Analysis.AverageBounds | mcettestbed/app1/src/AIAnalysis.jsx:14-16 | `Average`, over the last ten entries, of values within [lo, hi] lies in [lo, hi] |
| Analysis.HintTextsSnoc | mcettestbed/app1/src/AIAnalysis.jsx:20-34 | pushing one more hint adds exactly its fixed text at the end of the suggestion texts |
| Analysis.Assess | mcettestbed/app1/src/AIAnalysis.jsx:8-40 | advice always carries at least one suggestion |
| Analysis.Suggest | mcettestbed/app1/src/AIAnalysis.jsx:18-34 | the pushed suggestions are the texts of the rules' hints, in order |
| Analysis.Analyze | mcettestbed/app1/src/AIAnalysis.jsx:7-41 | the effect's result is the rendered outcome for the history |
| Analysis.ShortHistory | mcettestbed/app1/src/AIAnalysis.jsx:8-11 | fewer than ten entries give exactly the insufficient-data message |
| Analysis.OnlyLatestMatter | mcettestbed/app1/src/AIAnalysis.jsx:13-16 | from ten entries on a conclusion is always drawn, and two histories with the same last ten entries get the same outcome and text |
| Analysis.SuggestionsOrdered | mcettestbed/app1/src/AIAnalysis.jsx:18-34 | at most three suggestions, in the order temperature, level, flow |
| Analysis.TemperatureRules | mcettestbed/app1/src/AIAnalysis.jsx:20-24 | `TempHints` inside `Suggestions`: "high" iff avg > 35, "cool" iff avg < 15, never both |
| Analysis.LevelRule | mcettestbed/app1/src/AIAnalysis.jsx:26-28 | `LevelHints` inside `Suggestions`: the low-level hint appears iff avg < 70 |
| Analysis.FlowRules | mcettestbed/app1/src/AIAnalysis.jsx:30-34 | `FlowHints` inside `Suggestions`: "high" iff avg > 70, "low" iff 0 < avg < 30, and none at exactly 0 |
| Analysis.NormalExactly | mcettestbed/app1/src/AIAnalysis.jsx:36-40 | with ten entries the all-normal outcome appears iff no rule fires |
| Analysis.RenderTellsOutcomes | mcettestbed/app1/src/AIAnalysis.jsx:8-40 | the shown text (`Render`, `AnalysisText`) is the waiting message exactly while fewer than ten entries exist, and the all-normal message exactly when the rules are silent; advice never reads as either |
| Analysis.Panel.constructor | mcettestbed/app1/src/AIAnalysis.jsx:4-41 | after mounting, the panel shows the analysis of its history |
| Analysis.Panel.Refresh | mcettestbed/app1/src/AIAnalysis.jsx:7-41 | after the effect re-runs, the panel shows the analysis of the new history |
| Dashboard.Component.constructor | mcettestbed/app1/src/Dashboard.jsx:21-34 | the initial state (empty data and history, thresholds 80/40/60, previous values 0), with the mount effects run: one low-level alert, spoken once |
| Dashboard.Component.OnSnapshot | mcettestbed/app1/src/Dashboard.jsx:46-124 | one snapshot sets `data` to `snap.val() \|\| {}` (`SnapshotOf`: an absent node becomes the empty snapshot), appends exactly one entry, returns trends against the old previous values, and settles `prevValues` and the alerts; it speaks iff the values changed and alerts exist |
| Dashboard.Component.Receive | mcettestbed/app1/src/Dashboard.jsx:46-65 | the callback sets `data`, appends one entry, and the panel follows the new history; nothing else changes |
| Dashboard.Component.RunEffects | mcettestbed/app1/src/Dashboard.jsx:88-124 | after the effects, `prevValues` equals the rendered values and the alerts match them; speech happens only on a change with alerts |
| Dashboard.Component.Adjust | mcettestbed/app1/src/Dashboard.jsx:157-171 | a slider move sets that threshold, keeps data, history and previous values, recomputes the alerts, and speaks iff the threshold changed and alerts exist |
| Dashboard.SettledTrendsStable | mcettestbed/app1/src/Dashboard.jsx:83-94 | once the effects have run, the arrows compare the values with themselves and are stable |
| Dashboard.PanelLevelAverage | mcettestbed/app1/src/AIAnalysis.jsx:15 | the level average the panel computes from the dashboard's history always lies in [0, 100] |
| Dashboard.FirstTrends | mcettestbed/app1/src/Dashboard.jsx:30-34 | the first snapshot's trends are computed against 0 |
| Dashboard.HistoryGrows | mcettestbed/app1/src/Dashboard.jsx:56-65 | after k snapshots the history holds exactly k entries, one per snapshot in arrival order, none dropped |
| Firmware.Elapsed | espcode/main.cpp:180 | `now - last` on 32-bit unsigned is the d in [0, 2^32) with last + d ≡ now, i.e. now − last, plus 2^32 across a rollover |
| Firmware.ElapsedLater | espcode/main.cpp:180-188 | intervals shorter than 2^32 ms are measured exactly across a `millis()` rollover |
| Firmware.LevelTextForm | espcode/main.cpp:143 | the level text is `value_` followed by digits that read back as n, or by `-` and digits that read back as -n when n is negative |
| Firmware.TruncDiv | espcode/main.cpp:117 | C's integer division by 10 truncates toward zero: q·10 ≤ raw < q·10 + 10 for raw ≥ 0, and the mirror bound for raw < 0 |
| Firmware.Controller.constructor | espcode/main.cpp:34-42 | the globals' initial values |
| Firmware.Controller.FlowPulse | espcode/main.cpp:75-77 | one flow pulse adds 1 to the counter and changes nothing else |
| Firmware.Controller.ReadSensors | espcode/main.cpp:117-130 | the level is raw/10 truncated, the pulse counter is reset, the flow rate becomes count/18 only when pulses were seen, and the temperature is replaced only when −50 < t < 125 |
| Firmware.Controller.SendToFirebase | espcode/main.cpp:137-146 | when not ready nothing changes; otherwise `stringValue` is `"value_" + n`, the counter grows by exactly 1, and the publication carries the counter before the increment |
| Firmware.Controller.Loop | espcode/main.cpp:173-188 | it reads iff at least 1000 ms elapsed and sends iff at least 10000 ms elapsed, both in 32-bit arithmetic; it updates each timestamp when its action is due, even if the send found the database not ready; afterwards neither action is overdue |
| Firmware.CountersDistinct | espcode/main.cpp:146 | no two publications carry the same counter text |
| Pipeline.LevelRoundTrip | espcode/main.cpp:143 | the dashboard reads the device's `"value_" + n` as min(\|n\|, 100) |
| Pipeline.PublishedLevelShown | mcettestbed/app1/src/Dashboard.jsx:50-72 | a snapshot carrying the device's level text renders and records the level min(\|n\|, 100) |
| Pipeline.SensorReadingShown | espcode/main.cpp:113-117 | a 12-bit ADC reading is shown on the dashboard as min(raw / 10, 100), so readings from 1000 up show a full tank |

## Left out

- Firebase, WiFi, Serial, the OneWire/Dallas driver, `analogRead` and `delay` are left out. Sensor values and `Firebase.ready()` are method inputs. `millis()` is the `now` input of `Loop`.
- The flow interrupt and the `noInterrupts` critical section are concurrency. Reading and resetting `pulseCount` is treated as one atomic step, and `FlowPulse` is a separate method.
- Firmware.Controller.FlowPulse: the counter is an unbounded natural, so the overflow of the `volatile int` is not modelled.
- Firmware.Controller.SendToFirebase: `intValue++` is not modelled as a 32-bit signed `int`, so its overflow is not modelled either.
- Text formatting of numbers is abstracted. This covers `String(round(t))` and `String(flow, 2)` on the device, and `toFixed(0)` and template-literal conversion in the browser. `show: real -> string` stands for the browser's number-to-text conversion. A publication records the temperature and flow rate before formatting.
- Floating point is modelled as exact reals. Float rounding of `count / 18.0f`, double precision and overflow to Infinity are not captured, and neither is the `Infinity` literal that `parseFloat` accepts.
- The clock is an input: `toLocaleTimeString`, `getTime` and `toISOString` are passed in as strings or integers.
- The `/test` node's fields are modelled as missing or text, because the device only writes strings. Number-typed fields are not modelled.
- DOM, speech and rendering parts are left out:
  - the `Blob`/`URL`/link download steps and the `alert()` pop-up are represented by the `Export` result;
  - speech availability and cancellation are represented by the log `spoken`, which holds the sentences passed to `speak`;
  - gauges, charts, the health colour, the slider widgets and `SensorGraph.jsx` are rendering only.
- React scheduling is modelled per update. `OnSnapshot` and `Adjust` run the update followed by the effects whose dependencies changed. The intermediate render is visible only through the trends that `OnSnapshot` returns.
- Readings.EntryOf: history entries store `flow` and `temp` as parsed numbers (`parseFloat(x) || 0`). The source stores the raw device strings there (Dashboard.jsx:61-62), and the CSV rows would carry those strings. With them, the panel's `reduce` sums for temperature and flow concatenate text instead of adding. The level is stored as a number, so its average is computed correctly. The flow text from `String(lastFlowRate, 2)` always holds a decimal point, so ten of them concatenated do not read as a number and the flow average is NaN. Whether the temperature average is NaN depends on the text `String(round(t))` produces. The model keeps numbers and does not reproduce that concatenation.
- Readings.EntryAgreesWithCurrent: its temperature and flow equalities hold only because entries here hold parsed numbers. In the source the entry keeps the raw text, for example "12.50" where the render shows 12.5. Only the level agreement is a fact about the source.

