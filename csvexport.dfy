/** The "Export Reads" button (`downloadCSV` in Dashboard.jsx): the last 100
    history entries as comma-separated text, or a notice when there is nothing
    to export. */
module CsvExport {
  import opened Readings
  import opened Text
  import opened Seqs

  // The header is written as its four column names, which lets proofs look inside it.
  const HeaderLine := "Time," + "Temperature (\U{B0}C)," + "Coolant Level (%)," + "Flow Rate (L/min)"
  const Header := HeaderLine + "\n"
  const NoDataNotice := "No data available to download yet. Please wait for data to load."
  const ExportLimit := 100

  datatype Export =
    | Refused(notice: string)
    | Download(fileName: string, content: string)

  /** One row, `"<time>",<temp>,<level>,<flow>`; `show` is JavaScript's number-to-text conversion. */
  function Row(e: Entry, show: real -> string): string {
    "\"" + e.time + "\"," + show(e.temp) + "," + show(e.level) + "," + show(e.flow)
  }

  /** Read back at its commas, a row gives the quoted time and the three numbers, in
      the header's column order, as long as none of those texts holds a comma. */
  lemma RowFields(e: Entry, show: real -> string)
    requires ',' !in e.time
    requires ',' !in show(e.temp) && ',' !in show(e.level) && ',' !in show(e.flow)
    ensures Split(Row(e, show), ',') == ["\"" + e.time + "\"", show(e.temp), show(e.level), show(e.flow)]
  {
    var fields := ["\"" + e.time + "\"", show(e.temp), show(e.level), show(e.flow)];
    assert Join(fields[3..], ",") == show(e.flow);
    assert Join(fields[2..], ",") == show(e.level) + "," + show(e.flow);
    assert Join(fields[1..], ",") == show(e.temp) + "," + (show(e.level) + "," + show(e.flow));
    assert Row(e, show) == Join(fields, [',']);
    assert ',' !in fields[0];
    SplitJoin(fields, ',');
  }

  function Rows(entries: seq<Entry>, show: real -> string): (rows: seq<string>)
    ensures |rows| == |entries|
    ensures forall i :: 0 <= i < |entries| ==> rows[i] == Row(entries[i], show)
  {
    seq(|entries|, i requires 0 <= i < |entries| => Row(entries[i], show))
  }

  /** `map` distributes over concatenation: the rows of two runs of entries are the
      rows of the first followed by the rows of the second. */
  lemma RowsAppend(a: seq<Entry>, b: seq<Entry>, show: real -> string)
    ensures Rows(a + b, show) == Rows(a, show) + Rows(b, show)
  {
    var l, r := Rows(a + b, show), Rows(a, show) + Rows(b, show);
    forall i | 0 <= i < |l|
      ensures l[i] == r[i]
    {
      if i < |a| {
        assert (a + b)[i] == a[i];
      } else {
        assert (a + b)[i] == b[i - |a|];
      }
    }
  }

  const FilePrefix := "sensor_data_last_100_"

  /** `sensor_data_last_100_<date>.csv`, the date being the first ten characters of the ISO time. */
  function FileName(isoNow: string): (name: string)
    ensures |name| == |FilePrefix| + MinInt(10, |isoNow|) + 4
    ensures name[..|FilePrefix|] == FilePrefix && name[|name| - 4..] == ".csv"
    ensures |isoNow| >= 10 ==> name[|FilePrefix|..|FilePrefix| + 10] == isoNow[..10]
  {
    FilePrefix + isoNow[..MinInt(10, |isoNow|)] + ".csv"
  }

  /** What clicking the export button produces. */
  function ExportCsv(history: seq<Entry>, show: real -> string, isoNow: string): (x: Export)
    ensures x.Refused? <==> history == []
    ensures x.Refused? ==> x.notice == NoDataNotice
    ensures x.Download? ==>
      x.fileName == FileName(isoNow) && |x.content| >= |Header| && x.content[..|Header|] == Header
  {
    var latestData := LastN(history, ExportLimit);
    if |latestData| == 0 then Refused(NoDataNotice)
    else Download(FileName(isoNow), Header + Join(Rows(latestData, show), "\n"))
  }

  lemma HeaderLineHasNoBreak()
    ensures '\n' !in HeaderLine
  {
    assert '\n' !in "Time,";
    assert '\n' !in "Temperature (\U{B0}C),";
    assert '\n' !in "Coolant Level (%),";
    assert '\n' !in "Flow Rate (L/min)";
  }

  /** When no time text and no number text contains a line break, a download is the
      header line followed by exactly min(100, |history|) lines: the rows of the last
      entries, oldest first. */
  lemma ExportLines(history: seq<Entry>, show: real -> string, isoNow: string)
    requires history != []
    requires forall x: real :: '\n' !in show(x)
    requires forall i :: 0 <= i < |history| ==> '\n' !in history[i].time
    ensures var x := ExportCsv(history, show, isoNow);
      var n := MinInt(ExportLimit, |history|);
      x.Download? && Split(x.content, '\n') == [HeaderLine] + Rows(history[|history| - n..], show)
  {
    var latestData := LastN(history, ExportLimit);
    var rows := Rows(latestData, show);
    forall i | 0 <= i < |rows|
      ensures '\n' !in rows[i]
    {
      var e := latestData[i];
      assert e == history[|history| - |latestData| + i];
      assert '\n' !in e.time;
      assert '\n' !in show(e.temp) && '\n' !in show(e.level) && '\n' !in show(e.flow);
      assert rows[i] == "\"" + e.time + "\"," + show(e.temp) + "," + show(e.level) + "," + show(e.flow);
    }
    assert "\n" == ['\n'];
    SplitJoin(rows, '\n');
    HeaderLineHasNoBreak();
    SplitSingle(HeaderLine, '\n');
    SplitAt(HeaderLine, Join(rows, "\n"), '\n');
    assert Header + Join(rows, "\n") == HeaderLine + "\n" + Join(rows, "\n");
  }
}
