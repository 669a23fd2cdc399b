/** From the device to the dashboard: the level text the ESP32 writes to
    "/test/string" (main.cpp) read back by the dashboard's level parse
    (Dashboard.jsx). */
module Pipeline {
  import opened Numerals
  import opened JsParse
  import opened Readings
  import Firmware

  function AbsInt(n: int): nat {
    if n < 0 then -n else n
  }

  /** The device's label, with and without the minus sign of a negative value, holds
      nothing the level parse keeps. */
  lemma LabelsNotKept()
    ensures forall i :: 0 <= i < |"value_"| ==> !IsKept("value_"[i])
    ensures forall i :: 0 <= i < |"value_-"| ==> !IsKept("value_-"[i])
  {
  }

  /** The dashboard reads `"value_" + n` as min(|n|, 100): the label and the minus sign
      are stripped, the digits are read back, the result is capped. */
  lemma LevelRoundTrip(n: int)
    ensures ParseLevel(Firmware.LevelText(n)) == Min(AbsInt(n) as real, 100.0)
  {
    LabelsNotKept();
    if n >= 0 {
      ParseLevelLabelled("value_", n);
    } else {
      var digits := NatToString(-n);
      assert Firmware.LevelText(n) == "value_-" + digits by {
        assert "value_" + ("-" + digits) == ("value_" + "-") + digits;
        assert "value_" + "-" == "value_-";
      }
      ParseLevelLabelled("value_-", -n);
    }
  }

  /** A snapshot whose level field holds the device's text for `n` is rendered, and
      recorded in the history, as min(|n|, 100). */
  lemma PublishedLevelShown(n: int, flowread: Field, temp: Field, time: string, timestamp: int)
    ensures var snap := Snapshot(Text(Firmware.LevelText(n)), flowread, temp);
      && Current(snap).level == Min(AbsInt(n) as real, 100.0)
      && EntryOf(snap, time, timestamp).level == Current(snap).level
  {
    var s := Firmware.LevelText(n);
    LevelRoundTrip(n);
    assert |s| > 0;
    var snap := Snapshot(Text(s), flowread, temp);
    assert FieldLevel(snap.level, "0") == ParseLevel(s);
    assert FieldLevel(snap.level, "") == ParseLevel(s);
  }

  /** A 12-bit ADC reading `raw`, divided by ten on the device and published, is shown on
      the dashboard as min(raw / 10, 100); readings of 1000 and above all show as a full
      tank. */
  lemma SensorReadingShown(raw: int, flowread: Field, temp: Field)
    requires 0 <= raw <= 4095
    ensures var snap := Snapshot(Text(Firmware.LevelText(Firmware.TruncDiv(raw, 10))), flowread, temp);
      && Current(snap).level == Min((raw / 10) as real, 100.0)
      && (raw >= 1000 ==> Current(snap).level == 100.0)
  {
    var n := raw / 10;
    assert Firmware.TruncDiv(raw, 10) == n;
    PublishedLevelShown(n, flowread, temp, "", 0);
    assert AbsInt(n) == n;
    if raw >= 1000 {
      assert n >= 100;
    }
  }
}
