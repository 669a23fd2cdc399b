/** The ESP32 sketch (main.cpp): the global variables that keep the latest sensor
    values, the 32-bit millisecond scheduler in `loop`, and what `sendToFirebase`
    writes under "/test". The sensors, the clock and `Firebase.ready()` are inputs. */
module Firmware {
  import opened Numerals

  const TwoTo32 := 0x1_0000_0000

  /** `unsigned long` on the ESP32: 32 bits. */
  type U32 = x: int | 0 <= x < TwoTo32

  const ReadInterval := 1000
  const SendInterval := 10000

  /** `now - last` on `unsigned long`, which wraps around modulo 2^32. */
  function Elapsed(now: U32, last: U32): (d: U32)
    ensures (last + d) % TwoTo32 == now
    ensures last <= now ==> d == now - last
    ensures now < last ==> d == now - last + TwoTo32
  {
    (now - last) % TwoTo32
  }

  /** The clock value `d` milliseconds after `last`, wrapping like `millis()`. */
  function Later(last: U32, d: nat): U32 {
    (last + d) % TwoTo32
  }

  /** The elapsed time is measured correctly across a rollover of `millis()`, as long
      as less than 2^32 ms have passed. */
  lemma ElapsedLater(last: U32, d: U32)
    ensures Elapsed(Later(last, d), last) == d
  {
    if last + d >= TwoTo32 {
      assert Later(last, d) == last + d - TwoTo32;
    }
  }

  /** C's `/` on `int`, which truncates toward zero. */
  function TruncDiv(a: int, b: int): (q: int)
    requires b > 0
    ensures a >= 0 ==> 0 <= q * b <= a < q * b + b
    ensures a < 0 ==> a + b > q * b >= a && q <= 0
  {
    if a >= 0 then
      DivBounds(a, b);
      a / b
    else
      var p := (-a) / b;
      DivBounds(-a, b);
      assert (-p) * b == -(p * b);
      -p
  }

  lemma DivBounds(a: nat, b: int)
    requires b > 0
    ensures 0 <= (a / b) * b <= a < (a / b) * b + b
  {
  }

  /** The text written to "/test/string": `"value_" + String(n)`. */
  function LevelText(n: int): string {
    "value_" + IntToString(n)
  }

  /** The level text is the label `value_` followed by the decimal digits of n, with a
      '-' before them when n is negative. */
  lemma LevelTextForm(n: int)
    ensures var t := LevelText(n);
      && |t| >= 7 && t[..6] == "value_"
      && (n >= 0 ==> AllDigits(t[6..]) && NatValue(t[6..]) == n)
      && (n < 0 ==> t[6] == '-' && AllDigits(t[7..]) && NatValue(t[7..]) == -n)
  {
    var t := LevelText(n);
    var d := IntToString(n);
    assert t[6..] == d;
    if n < 0 {
      assert t[7..] == d[1..] == NatToString(-n);
      NatToStringValue(-n);
    } else {
      NatToStringValue(n);
    }
  }

  /** What one successful `sendToFirebase` writes: the labelled level, the counter before
      the increment, and the temperature and flow rate before their text formatting. */
  datatype Publication = Publication(level: string, counter: string, temp: real, flow: real)

  /** A temperature reading `readSensors` accepts. */
  predicate ValidTemperature(t: real) {
    -50.0 < t < 125.0
  }

  /** Each publication carries its own position as its counter text, a valid temperature
      and a non-negative flow rate. */
  ghost predicate Numbered(pubs: seq<Publication>) {
    forall i :: 0 <= i < |pubs| ==>
      pubs[i].counter == IntToString(i) && ValidTemperature(pubs[i].temp) && pubs[i].flow >= 0.0
  }

  lemma NumberedSnoc(pubs: seq<Publication>, p: Publication)
    requires Numbered(pubs)
    requires p.counter == IntToString(|pubs|) && ValidTemperature(p.temp) && p.flow >= 0.0
    ensures Numbered(pubs + [p])
  {
    var q := pubs + [p];
    forall i | 0 <= i < |q|
      ensures q[i].counter == IntToString(i) && ValidTemperature(q[i].temp) && q[i].flow >= 0.0
    {
      if i < |pubs| {
        assert q[i] == pubs[i];
      }
    }
  }

  /** The sketch's global variables. */
  class Controller {
    var pulseCount: nat
    var lastFlowMeasureTime: U32
    var lastSendTime: U32
    var lastFlowRate: real
    var lastTemperature: real
    var lastWaterValue: int
    var intValue: int
    var stringValue: string
    /** Every publication so far, oldest first. */
    var published: seq<Publication>

    /** Kept by every operation: the stored temperature is always a valid reading,
        the flow rate is never negative, the counter equals the number of publications
        and each publication carries its own position as its counter text, and the
        last level written is the one in `stringValue`. */
    ghost predicate Valid()
      reads this
    {
      && ValidTemperature(lastTemperature)
      && lastFlowRate >= 0.0
      && intValue == |published|
      && Numbered(published)
      && stringValue == (if published == [] then "" else published[|published| - 1].level)
    }

    /** The initial values of the globals. */
    constructor ()
      ensures Valid()
      ensures pulseCount == 0 && lastFlowMeasureTime == 0 && lastSendTime == 0
      ensures lastFlowRate == 0.0 && lastTemperature == 0.0 && lastWaterValue == 0
      ensures intValue == 0 && stringValue == "" && published == []
    {
      pulseCount := 0;
      lastFlowMeasureTime := 0;
      lastSendTime := 0;
      lastFlowRate := 0.0;
      lastTemperature := 0.0;
      lastWaterValue := 0;
      intValue := 0;
      stringValue := "";
      published := [];
    }

    /** `flowRatePulse`: one rising edge of the flow sensor. */
    method FlowPulse()
      requires Valid()
      modifies this
      ensures Valid()
      ensures pulseCount == old(pulseCount) + 1
      ensures lastFlowRate == old(lastFlowRate) && lastTemperature == old(lastTemperature)
      ensures lastWaterValue == old(lastWaterValue) && stringValue == old(stringValue)
      ensures intValue == old(intValue) && published == old(published)
      ensures lastFlowMeasureTime == old(lastFlowMeasureTime) && lastSendTime == old(lastSendTime)
    {
      pulseCount := pulseCount + 1;
    }

    /** `readSensors` with `waterValue` from `analogRead` and `temp` from the Dallas sensor. */
    method ReadSensors(waterValue: int, temp: real)
      requires Valid()
      modifies this
      ensures Valid()
      ensures lastWaterValue == TruncDiv(waterValue, 10)
      ensures pulseCount == 0
      ensures lastFlowRate == if old(pulseCount) > 0 then old(pulseCount) as real / 18.0 else old(lastFlowRate)
      ensures lastTemperature == if ValidTemperature(temp) then temp else old(lastTemperature)
      ensures stringValue == old(stringValue) && intValue == old(intValue) && published == old(published)
      ensures lastFlowMeasureTime == old(lastFlowMeasureTime) && lastSendTime == old(lastSendTime)
    {
      lastWaterValue := TruncDiv(waterValue, 10);

      var count := pulseCount;
      pulseCount := 0;
      var flowRate := count as real / 18.0;
      if count > 0 {
        lastFlowRate := flowRate;
      }

      if temp > -50.0 && temp < 125.0 {
        lastTemperature := temp;
      }
    }

    /** `sendToFirebase`, with `ready` standing for `Firebase.ready()`. */
    method SendToFirebase(ready: bool)
      requires Valid()
      modifies this
      ensures Valid()
      ensures !ready ==> stringValue == old(stringValue) && intValue == old(intValue) && published == old(published)
      ensures ready ==> stringValue == LevelText(lastWaterValue) && intValue == old(intValue) + 1
      ensures ready ==>
        published == old(published) +
          [Publication(LevelText(lastWaterValue), IntToString(old(intValue)), lastTemperature, lastFlowRate)]
      ensures pulseCount == old(pulseCount) && lastFlowRate == old(lastFlowRate)
      ensures lastTemperature == old(lastTemperature) && lastWaterValue == old(lastWaterValue)
      ensures lastFlowMeasureTime == old(lastFlowMeasureTime) && lastSendTime == old(lastSendTime)
    {
      if !ready {
        return;
      }
      stringValue := LevelText(lastWaterValue);
      var intStr := IntToString(intValue);
      intValue := intValue + 1;
      NumberedSnoc(published, Publication(stringValue, intStr, lastTemperature, lastFlowRate));
      published := published + [Publication(stringValue, intStr, lastTemperature, lastFlowRate)];
    }

    /** One pass of `loop` at time `now`; the sensor inputs are used only when a read is due.
        Returns whether it read and whether it attempted a send. */
    method Loop(now: U32, waterValue: int, temp: real, ready: bool) returns (didRead: bool, didSend: bool)
      requires Valid()
      modifies this
      ensures Valid()
      ensures didRead <==> Elapsed(now, old(lastFlowMeasureTime)) >= ReadInterval
      ensures didSend <==> Elapsed(now, old(lastSendTime)) >= SendInterval
      ensures lastFlowMeasureTime == if didRead then now else old(lastFlowMeasureTime)
      ensures lastSendTime == if didSend then now else old(lastSendTime)
      ensures didRead ==> lastWaterValue == TruncDiv(waterValue, 10) && pulseCount == 0
      ensures didRead ==> lastFlowRate == if old(pulseCount) > 0 then old(pulseCount) as real / 18.0 else old(lastFlowRate)
      ensures didRead ==> lastTemperature == if ValidTemperature(temp) then temp else old(lastTemperature)
      ensures !didRead ==> lastWaterValue == old(lastWaterValue) && pulseCount == old(pulseCount)
      ensures !didRead ==> lastFlowRate == old(lastFlowRate) && lastTemperature == old(lastTemperature)
      ensures published == old(published) +
        (if didSend && ready
         then [Publication(LevelText(lastWaterValue), IntToString(old(intValue)), lastTemperature, lastFlowRate)]
         else [])
      ensures intValue == old(intValue) + (if didSend && ready then 1 else 0)
      ensures Elapsed(now, lastFlowMeasureTime) < ReadInterval && Elapsed(now, lastSendTime) < SendInterval
    {
      didRead := Elapsed(now, lastFlowMeasureTime) >= ReadInterval;
      if didRead {
        ReadSensors(waterValue, temp);
        lastFlowMeasureTime := now;
      }

      didSend := Elapsed(now, lastSendTime) >= SendInterval;
      if didSend {
        SendToFirebase(ready);
        lastSendTime := now;
      }
    }
  }

  /** Different publications carry different counter texts. */
  lemma CountersDistinct(c: Controller, i: nat, j: nat)
    requires c.Valid() && i < j < |c.published|
    ensures c.published[i].counter != c.published[j].counter
  {
    assert c.published[i].counter == IntToString(i) && c.published[j].counter == IntToString(j);
    if c.published[i].counter == c.published[j].counter {
      NatToStringInjective(i, j);
    }
  }
}
