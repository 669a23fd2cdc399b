/** The values the dashboard receives and keeps (Dashboard.jsx): one realtime
    snapshot of the "/test" node, the numbers derived from it and the history
    entries built from it. */
module Readings {
  import opened JsParse
  import opened Numerals

  datatype Option<T> = None | Some(value: T)

  /** One field of a snapshot: missing, or the text the device stored there. */
  datatype Field = Absent | Text(s: string)

  /** The three fields of the "/test" node the dashboard reads: `string` (the
      labelled water level), `flowread` and `temp`. */
  datatype Snapshot = Snapshot(level: Field, flowread: Field, temp: Field)

  /** `snap.val() || {}` when the node holds nothing. */
  const EmptySnapshot := Snapshot(Absent, Absent, Absent)

  /** The three numbers the dashboard renders and compares. */
  datatype Values = Values(temp: real, level: real, flow: real)

  const ZeroValues := Values(0.0, 0.0, 0.0)

  /** One history entry: wall-clock text, epoch milliseconds and the three readings. */
  datatype Entry = Entry(time: string, timestamp: int, flow: real, temp: real, level: real)

  /** `parseFloat(field) || 0`: a missing field reads as `undefined`, which parses to NaN. */
  function FieldNumber(f: Field): real
  {
    match f
    case Absent => 0.0
    case Text(s) => OrZero(ParseFloat(s))
  }

  /** A flow or temperature text in the device's `digits.digits` form reads as its
      decimal value, and with a leading '-' as the negated value: "12.50" is 12.5. */
  lemma FieldNumberDecimal(s: string, d: string, f: string)
    requires |d| >= 1 && AllDigits(d) && AllDigits(f) && SplitsAtDot(s, d, f)
    ensures FieldNumber(Text(s)) == NatValue(d) as real + FracValue(f)
    ensures FieldNumber(Text("-" + s)) == -(NatValue(d) as real + FracValue(f))
  {
    ParseFraction(s, d, f);
    assert s[0] == d[0];
    ParseFloatUnsigned(s);
    ParseFloatSigned(s);
  }

  /** The level parse of `(field || fallback).toString()`: the empty text is falsy too. */
  function FieldLevel(f: Field, fallback: string): (r: real)
    ensures 0.0 <= r <= 100.0
  {
    match f
    case Text(s) => if s != "" then ParseLevel(s) else ParseLevel(fallback)
    case Absent => ParseLevel(fallback)
  }

  /** The values rendered for the latest snapshot (`levelValue`, `flowValue`, `tempValue`). */
  function Current(data: Snapshot): (v: Values)
    ensures 0.0 <= v.level <= 100.0
  {
    Values(FieldNumber(data.temp), FieldLevel(data.level, "0"), FieldNumber(data.flowread))
  }

  /** The history entry the snapshot callback appends. */
  function EntryOf(snap: Snapshot, time: string, timestamp: int): (e: Entry)
    ensures 0.0 <= e.level <= 100.0
  {
    Entry(time, timestamp, FieldNumber(snap.flowread), FieldNumber(snap.temp), FieldLevel(snap.level, ""))
  }

  /** The callback parses a missing level as "" and the render as "0"; both give 0,
      so the entry's level always agrees with the rendered one. (The temperature and
      flow agree because entries here hold them parsed.) */
  lemma {:induction false} EntryAgreesWithCurrent(snap: Snapshot, time: string, timestamp: int)
    ensures EntryOf(snap, time, timestamp).level == Current(snap).level
    ensures EntryOf(snap, time, timestamp).temp == Current(snap).temp
    ensures EntryOf(snap, time, timestamp).flow == Current(snap).flow
  {
    match snap.level
    case Absent => ParseLevelMissingExample();
    case Text(s) => if s == "" { ParseLevelMissingExample(); }
  }

  /** An empty or missing snapshot renders as all zeros. */
  lemma EmptySnapshotIsZero()
    ensures Current(EmptySnapshot) == ZeroValues
  {
    ParseLevelMissingExample();
  }
}
