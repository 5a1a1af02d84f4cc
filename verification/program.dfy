/**
 `main`: print the drives, log the drives, then ask about powering off.

 The terminal reporter and the log writer each run the vendor tool on their
 own, so they may see different snapshots; both are inputs here. An exception
 while printing ends the program before the log is touched or the question
 asked.
 */
module Program {
  import opened Wrappers
  import opened Inventory
  import opened Styles
  import opened Formatter
  import opened TerminalReport
  import opened LogWriter
  import opened PowerPrompt

  /** Everything one run leaves behind. */
  datatype Run = Run(
    screen: Transcript,
    log: LogFile,
    warnings: seq<Fault>,
    prompt: Option<PromptOutcome>)

  function RunMain(screenSnapshot: Snapshot, logSnapshot: Snapshot, log: LogFile, lines: seq<string>): (r: Run)
    // The screen: a blank line, then the report of the screen snapshot, which
    // runs to the end exactly when every non-boot record there is printable.
    ensures r.screen == Report(screenSnapshot)
    ensures |r.screen.lines| >= 1 && r.screen.lines[0] == ""
    ensures r.screen.fault.None? <==> forall e :: e in NonBoot(screenSnapshot) ==> Printable(e.1)
    ensures r.screen.fault.None? ==> |r.screen.lines| == 1 + 6 * |NonBoot(screenSnapshot)|
    ensures r.screen.fault.None? ==> r.screen.lines == [""] + BlocksOf(NonBoot(screenSnapshot))
    // A crash while printing: the log is untouched and nothing is asked.
    ensures r.screen.fault.Some? ==> r.log == log && r.warnings == [] && r.prompt.None?
    // Otherwise the log gains the rows of the log snapshot, warns for the rest, and the lines answer the question.
    ensures r.screen.fault.None? ==>
      && r.log.Some?
      && Contents(r.log) == Contents(EnsureLogFile(log)) + Oks(BuildAll(NonBoot(logSnapshot)))
      && r.warnings == Errs(BuildAll(NonBoot(logSnapshot)))
      && r.prompt == Some(Prompt(lines))
    ensures |Contents(r.log)| >= |Contents(log)|
    ensures Contents(r.log)[..|Contents(log)|] == Contents(log)
  {
    ReportStartsBlank(screenSnapshot);
    ReportCompletes(screenSnapshot);
    var screen := Report(screenSnapshot);
    assert screen.fault.None? ==> screen.lines == [""] + ReportDrives(screenSnapshot).lines;
    if screen.fault.Some? then Run(screen, log, [], None)
    else
      ReportBlocks(screenSnapshot);
      RunLogAppends(log, logSnapshot);
      WriteDrivesWarnings(EnsureLogFile(log), logSnapshot);
      var (log', warnings) := RunLog(log, logSnapshot);
      Run(screen, log', warnings, Some(Prompt(lines)))
  }

  /** A boot entry inserted into the screen snapshot alone leaves no trace in the run. */
  lemma MainBootInvisibleOnScreen(a: Snapshot, rec: DriveRecord, b: Snapshot, logSnapshot: Snapshot, log: LogFile, lines: seq<string>)
    ensures RunMain(a + [(BootSerial, rec)] + b, logSnapshot, log, lines) == RunMain(a + b, logSnapshot, log, lines)
  {
    ReportBootAnywhere(a, rec, b);
  }

  /** A boot entry inserted into the log snapshot alone leaves no trace in the run. */
  lemma MainBootInvisibleInLog(screenSnapshot: Snapshot, c: Snapshot, rec: DriveRecord, d: Snapshot, log: LogFile, lines: seq<string>)
    ensures RunMain(screenSnapshot, c + [(BootSerial, rec)] + d, log, lines) == RunMain(screenSnapshot, c + d, log, lines)
  {
    RunLogBootAnywhere(log, c, rec, d);
  }

  /** Boot entries inserted into both snapshots at once leave no trace in the run. */
  lemma MainBootInvisible(
    a: Snapshot, rec: DriveRecord, b: Snapshot,
    c: Snapshot, rec': DriveRecord, d: Snapshot,
    log: LogFile, lines: seq<string>)
    ensures RunMain(a + [(BootSerial, rec)] + b, c + [(BootSerial, rec')] + d, log, lines)
         == RunMain(a + b, c + d, log, lines)
  {
    ReportBootAnywhere(a, rec, b);
    RunLogBootAnywhere(log, c, rec', d);
  }

  /** The non-boot drive of the example run. */
  function ExampleDrive(): DriveRecord
  {
    DriveRecord(map[
      "Index" := "1", "SerialNumber" := "SN0001ABCDEF12345", "ModelNumber" := "X1",
      "Firmware" := "1.0", "DeviceStatus" := "Healthy"])
  }

  lemma ExampleFields()
    ensures ExampleDrive().fields["Index"] == "1"
    ensures ExampleDrive().fields["SerialNumber"] == "SN0001ABCDEF12345"
    ensures ExampleDrive().fields["ModelNumber"] == "X1"
    ensures ExampleDrive().fields["Firmware"] == "1.0"
    ensures ExampleDrive().fields["DeviceStatus"] == "Healthy"
  {
    assert "SerialNumber"[0] != "DeviceStatus"[0];
  }

  /** The example serial has 17 characters: date and counter styled, the short tail kept. */
  lemma ExampleHighlight()
    ensures HighlightSerial("SN0001ABCDEF12345")
         == Success("SN00" + Wrap(DateStyle, "01AB") + Wrap(CounterStyle, "CDEF") + "12345")
  {
    var serial := "SN0001ABCDEF12345";
    assert serial[..4] == "SN00" && serial[4..8] == "01AB" && serial[8..12] == "CDEF";
    assert serial[12..Min(|serial|, 18)] == "12345";
  }

  /** The example block's serial line. */
  lemma ExampleSerialLine()
    ensures "Serial Number (SN): " + HighlightSerial("SN0001ABCDEF12345").value
         == "Serial Number (SN): SN00" + Wrap(DateStyle, "01AB") + Wrap(CounterStyle, "CDEF") + "12345"
  {
    ExampleHighlight();
    var date, counter := Wrap(DateStyle, "01AB"), Wrap(CounterStyle, "CDEF");
    assert "Serial Number (SN): " + ("SN00" + date + counter + "12345")
        == "Serial Number (SN): SN00" + date + counter + "12345";
  }

  /** The example block's status line. */
  lemma ExampleStatusLine()
    ensures "Device Status: " + FormatHealth("Healthy") == "Device Status: " + HealthyStyle + "Healthy" + Reset
  {
    assert FormatHealth("Healthy") == HealthyStyle + "Healthy" + Reset;
    assert "Device Status: " + (HealthyStyle + "Healthy" + Reset)
        == "Device Status: " + HealthyStyle + "Healthy" + Reset;
  }

  /** The example block's lines, one field each. */
  lemma ExampleLines()
    ensures "Index: " + "1" == "Index: 1"
    ensures "Serial Number (SN): " + HighlightSerial("SN0001ABCDEF12345").value
         == "Serial Number (SN): SN00" + Wrap(DateStyle, "01AB") + Wrap(CounterStyle, "CDEF") + "12345"
    ensures "Model Number (MN): " + "X1" == "Model Number (MN): X1"
    ensures "Firmware Version: " + "1.0" == "Firmware Version: 1.0"
    ensures "Device Status: " + FormatHealth("Healthy") == "Device Status: " + HealthyStyle + "Healthy" + Reset
  {
    ExampleSerialLine();
    ExampleStatusLine();
  }

  /** A record with the example's fields prints the example block: serial highlighted, status healthy. */
  lemma ExampleBlock(rec: DriveRecord)
    requires rec.Get("Index") == Some("1")
    requires rec.Get("SerialNumber") == Some("SN0001ABCDEF12345")
    requires rec.Get("ModelNumber") == Some("X1")
    requires rec.Get("Firmware") == Some("1.0")
    requires rec.Get("DeviceStatus") == Some("Healthy")
    ensures DriveBlock(rec) == Transcript([
      "Index: 1",
      "Serial Number (SN): SN00" + Wrap(DateStyle, "01AB") + Wrap(CounterStyle, "CDEF") + "12345",
      "Model Number (MN): X1",
      "Firmware Version: 1.0",
      "Device Status: " + HealthyStyle + "Healthy" + Reset,
      ""], None)
  {
    assert rec.fields["Index"] == "1" && rec.fields["ModelNumber"] == "X1";
    assert rec.fields["SerialNumber"] == "SN0001ABCDEF12345";
    assert rec.fields["Firmware"] == "1.0" && rec.fields["DeviceStatus"] == "Healthy";
    DriveBlockPrintable(rec);
    ExampleLines();
  }

  /** The example snapshot: the boot drive first, then the example drive under its serial. */
  function ExampleSnapshot(boot: DriveRecord): Snapshot
  {
    [(BootSerial, boot), ("SN0001ABCDEF12345", ExampleDrive())]
  }

  /** Only the example drive's block reaches the screen, after the opening blank line. */
  lemma ExampleScreen(boot: DriveRecord)
    ensures Report(ExampleSnapshot(boot)) == Transcript([""] + DriveBlock(ExampleDrive()).lines, None)
    ensures DriveBlock(ExampleDrive()).lines[1]
         == "Serial Number (SN): SN00" + Wrap(DateStyle, "01AB") + Wrap(CounterStyle, "CDEF") + "12345"
  {
    var rec := ExampleDrive();
    var snapshot := ExampleSnapshot(boot);
    ExampleFields();
    ExampleBlock(rec);
    assert !IsBootDrive("SN0001ABCDEF12345");
    assert snapshot[1..] == [("SN0001ABCDEF12345", rec)];
    assert [("SN0001ABCDEF12345", rec)][1..] == [];
    var block := DriveBlock(rec);
    assert block.lines + [] == block.lines;
    assert ReportDrives(snapshot[1..]) == block;
  }

  /** A missing log is created with the header, then gains the example drive's raw fields in row order. */
  lemma ExampleLog(boot: DriveRecord)
    ensures RunLog(None, ExampleSnapshot(boot)) == (Some([Headers, ["SN0001ABCDEF12345", "X1", "1.0", "Healthy"]]), [])
  {
    var rec := ExampleDrive();
    var snapshot := ExampleSnapshot(boot);
    ExampleFields();
    var row := ["SN0001ABCDEF12345", "X1", "1.0", "Healthy"];
    assert !IsBootDrive("SN0001ABCDEF12345");
    assert snapshot[1..] == [("SN0001ABCDEF12345", rec)];
    assert NonBoot(snapshot) == [("SN0001ABCDEF12345", rec)];
    assert Loggable(rec);
    assert BuildRow(rec) == Success(row);
    RunLogAllLoggable(None, snapshot);
    RunLogAppends(None, snapshot);
    var log := RunLog(None, snapshot).0;
    assert Contents(log)[1..] == [row];
    assert Contents(log)[0] == Headers;
    assert Contents(log) == [Headers] + [row];
    assert [Headers] + [row] == [Headers, row];
    assert log.Some? && log.value == Contents(log);
  }

  /** An unrecognised line draws one warning, then "N" declines. */
  lemma ExamplePrompt()
    ensures Prompt(["maybe", "N"]) == Decided(StayOn, 1)
  {
    assert Lower("maybe") != "y" && Lower("maybe") != "n" by {
      assert |Lower("maybe")| == 5;
    }
    assert Lower("N") == "n";
    assert ["maybe", "N"][1..] == ["N"];
  }

  /**
   The whole run on the example snapshot: the boot drive is neither shown nor
   logged, the other drive is shown highlighted and logged raw, and the
   operator's second line declines the power-off.
   */
  lemma EndToEndExample(boot: DriveRecord)
    ensures
      var run := RunMain(ExampleSnapshot(boot), ExampleSnapshot(boot), None, ["maybe", "N"]);
      && run.screen == Transcript([""] + DriveBlock(ExampleDrive()).lines, None)
      && run.log == Some([Headers, ["SN0001ABCDEF12345", "X1", "1.0", "Healthy"]])
      && run.warnings == []
      && run.prompt == Some(Decided(StayOn, 1))
  {
    ExampleScreen(boot);
    ExampleLog(boot);
    ExamplePrompt();
  }
}
