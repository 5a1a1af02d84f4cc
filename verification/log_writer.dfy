/**
 `DriveDataToLogFile`: create the CSV log with its header row if the file does
 not exist, then append one row of raw fields per non-boot drive.

 The file is its list of CSV rows; `None` is a file that does not exist. CSV
 quoting is not modelled. Each row is written by its own call that opens the
 file in append mode (creating it empty if it is missing) and then builds the
 row inside a `try`: a record missing a field yields a logged warning instead
 of a row, and the remaining drives are still written.
 */
module LogWriter {
  import opened Wrappers
  import opened Inventory

  type LogFile = Option<seq<seq<string>>>

  /** The header row. */
  const Headers: seq<string> := ["Model", "Serial", "Firmware", "Device_Status"]

  /** The record fields a row is built from, in the order the row holds them. */
  const RowFields: seq<string> := ["SerialNumber", "ModelNumber", "Firmware", "DeviceStatus"]

  /** The rows in the file; a missing file has none. */
  function Contents(f: LogFile): seq<seq<string>>
  {
    if f.None? then [] else f.value
  }

  /** `_create_log_file_if_not_exists`: a missing file is created holding the header row. */
  function EnsureLogFile(f: LogFile): (r: LogFile)
    ensures r.Some?
    ensures f.Some? ==> r == f
    ensures f.None? ==> Contents(r) == [Headers]
  {
    if f.None? then Some([Headers]) else f
  }

  /** Creating the log twice is creating it once: never two header rows. */
  lemma EnsureLogFileIdempotent(f: LogFile)
    ensures EnsureLogFile(EnsureLogFile(f)) == EnsureLogFile(f)
    ensures f.None? ==> Contents(EnsureLogFile(EnsureLogFile(f))) == [Headers]
  {
  }

  /** A record the row builder gets through: every field of the row is present. */
  predicate Loggable(rec: DriveRecord)
  {
    forall k :: k in RowFields ==> k in rec.fields
  }

  /** The row the `try` block builds, or the missing key it raises on. */
  function BuildRow(rec: DriveRecord): (r: Result<seq<string>, Fault>)
    ensures r.Success? <==> Loggable(rec)
    ensures r.Success? ==> |r.value| == |RowFields| == |Headers|
    ensures r.Success? ==> forall i :: 0 <= i < |RowFields| ==> r.value[i] == rec.fields[RowFields[i]]
    ensures r.Failure? ==> r.error.MissingKey? && r.error.key in RowFields && r.error.key !in rec.fields
    // The fields are looked up in row order, so the first missing one is reported.
    ensures r == Failure(MissingKey("SerialNumber")) <==> "SerialNumber" !in rec.fields
    ensures r == Failure(MissingKey("ModelNumber")) <==>
      "SerialNumber" in rec.fields && "ModelNumber" !in rec.fields
    ensures r == Failure(MissingKey("Firmware")) <==>
      "SerialNumber" in rec.fields && "ModelNumber" in rec.fields && "Firmware" !in rec.fields
    ensures r == Failure(MissingKey("DeviceStatus")) <==>
      "SerialNumber" in rec.fields && "ModelNumber" in rec.fields && "Firmware" in rec.fields
      && "DeviceStatus" !in rec.fields
  {
    match rec.Get("SerialNumber")
    case None => Failure(MissingKey("SerialNumber"))
    case Some(serial) =>
      match rec.Get("ModelNumber")
      case None => Failure(MissingKey("ModelNumber"))
      case Some(model) =>
        match rec.Get("Firmware")
        case None => Failure(MissingKey("Firmware"))
        case Some(firmware) =>
          match rec.Get("DeviceStatus")
          case None => Failure(MissingKey("DeviceStatus"))
          case Some(status) => Success([serial, model, firmware, status])
  }

  /**
   The row order is not the header order: the first two columns are swapped, so
   a reader going by the header finds the serial under "Model" and the model
   under "Serial".
   */
  lemma RowDisagreesWithHeader(rec: DriveRecord)
    requires Loggable(rec)
    ensures BuildRow(rec).Success?
    ensures Headers[0] == "Model" && BuildRow(rec).value[0] == rec.fields["SerialNumber"]
    ensures Headers[1] == "Serial" && BuildRow(rec).value[1] == rec.fields["ModelNumber"]
    ensures Headers[2] == "Firmware" && BuildRow(rec).value[2] == rec.fields["Firmware"]
    ensures Headers[3] == "Device_Status" && BuildRow(rec).value[3] == rec.fields["DeviceStatus"]
  {
    assert RowFields[0] == "SerialNumber" && RowFields[1] == "ModelNumber";
    assert RowFields[2] == "Firmware" && RowFields[3] == "DeviceStatus";
  }

  /** Appending writes after what is there; a missing file is created first. */
  function AppendRow(f: LogFile, row: seq<string>): (r: LogFile)
    ensures r.Some?
    ensures |Contents(r)| == |Contents(f)| + 1
    ensures Contents(r)[..|Contents(f)|] == Contents(f)
    ensures Contents(r)[|Contents(f)|] == row
  {
    Some(Contents(f) + [row])
  }

  /** `_write_to_log_file`: open for appending, then the row or a warning. */
  function WriteDrive(f: LogFile, rec: DriveRecord): (LogFile, Option<Fault>)
  {
    match BuildRow(rec)
    case Success(row) => (AppendRow(f, row), None)
    case Failure(e) => (Some(Contents(f)), Some(e))
  }

  function Warned(warning: Option<Fault>): seq<Fault>
  {
    if warning.Some? then [warning.value] else []
  }

  /** The loop of `run` after the header step: every non-boot drive in snapshot order. */
  function WriteDrives(f: LogFile, s: Snapshot): (LogFile, seq<Fault>)
    decreases |s|
  {
    if |s| == 0 then (f, [])
    else if IsBootDrive(s[0].0) then WriteDrives(f, s[1..])
    else
      var step := WriteDrive(f, s[0].1);
      var later := WriteDrives(step.0, s[1..]);
      (later.0, Warned(step.1) + later.1)
  }

  /** `DriveDataToLogFile.run`: header step, then the rows. */
  function RunLog(f: LogFile, s: Snapshot): (LogFile, seq<Fault>)
  {
    WriteDrives(EnsureLogFile(f), s)
  }

  /** The row built for each entry, in order. */
  function BuildAll(s: Snapshot): (r: seq<Result<seq<string>, Fault>>)
    ensures |r| == |s|
  {
    if |s| == 0 then [] else [BuildRow(s[0].1)] + BuildAll(s[1..])
  }

  /** Position `i` of `BuildAll(s)` is the row built for entry `i`. */
  lemma {:induction false} BuildAllAt(s: Snapshot, i: nat)
    requires i < |s|
    ensures BuildAll(s)[i] == BuildRow(s[i].1)
    decreases i
  {
    if i > 0 {
      BuildAllAt(s[1..], i - 1);
    }
  }

  /** The successful values, in order. */
  function Oks<R, E>(rs: seq<Result<R, E>>): seq<R>
  {
    if |rs| == 0 then []
    else (if rs[0].Success? then [rs[0].value] else []) + Oks(rs[1..])
  }

  /** The failures, in order. */
  function Errs<R, E>(rs: seq<Result<R, E>>): seq<E>
  {
    if |rs| == 0 then []
    else (if rs[0].Failure? then [rs[0].error] else []) + Errs(rs[1..])
  }

  /** Every result is either a success or a failure: nothing is lost, nothing counted twice. */
  lemma {:induction false} OksErrsPartition<R, E>(rs: seq<Result<R, E>>)
    ensures |Oks(rs)| + |Errs(rs)| == |rs|
    decreases |rs|
  {
    if |rs| > 0 {
      OksErrsPartition(rs[1..]);
    }
  }

  /** With no failure, the successes are every value, position for position. */
  lemma {:induction false} OksAllSuccess<R, E>(rs: seq<Result<R, E>>)
    requires forall i :: 0 <= i < |rs| ==> rs[i].Success?
    ensures |Oks(rs)| == |rs|
    ensures forall i :: 0 <= i < |rs| ==> Oks(rs)[i] == rs[i].value
    ensures Errs(rs) == []
    decreases |rs|
  {
    if |rs| > 0 {
      OksAllSuccess(rs[1..]);
      assert Oks(rs) == [rs[0].value] + Oks(rs[1..]);
    }
  }

  lemma BuildAllCons(e: Entry, rest: Snapshot)
    ensures BuildAll([e] + rest) == [BuildRow(e.1)] + BuildAll(rest)
  {
    assert ([e] + rest)[1..] == rest;
  }

  lemma OksCons<R, E>(r: Result<R, E>, rest: seq<Result<R, E>>)
    ensures Oks([r] + rest) == (if r.Success? then [r.value] else []) + Oks(rest)
    ensures Errs([r] + rest) == (if r.Failure? then [r.error] else []) + Errs(rest)
  {
    assert ([r] + rest)[1..] == rest;
  }

  /** One non-boot drive: its row, if it builds, goes after what is there; its warning, if not, is reported. */
  lemma WriteDriveStep(f: LogFile, rec: DriveRecord)
    ensures Contents(WriteDrive(f, rec).0) == Contents(f) + Oks([BuildRow(rec)])
    ensures Warned(WriteDrive(f, rec).1) == Errs([BuildRow(rec)])
    ensures WriteDrive(f, rec).0.Some?
  {
    OksCons(BuildRow(rec), []);
  }

  /** A non-boot first entry is written, then the rest after it. */
  lemma WriteDrivesCons(f: LogFile, s: Snapshot)
    requires |s| > 0 && !IsBootDrive(s[0].0)
    ensures WriteDrives(f, s).0 == WriteDrives(WriteDrive(f, s[0].1).0, s[1..]).0
  {
  }

  /** The rows due for a snapshot that starts with a non-boot entry: that entry's row, if any, then the rest's. */
  lemma {:induction false} RowsDueCons(s: Snapshot)
    requires |s| > 0 && !IsBootDrive(s[0].0)
    ensures Oks(BuildAll(NonBoot(s))) == Oks([BuildRow(s[0].1)]) + Oks(BuildAll(NonBoot(s[1..])))
    ensures Errs(BuildAll(NonBoot(s))) == Errs([BuildRow(s[0].1)]) + Errs(BuildAll(NonBoot(s[1..])))
  {
    var r := BuildRow(s[0].1);
    assert NonBoot(s) == [s[0]] + NonBoot(s[1..]);
    BuildAllCons(s[0], NonBoot(s[1..]));
    OksCons(r, BuildAll(NonBoot(s[1..])));
    OksCons(r, []);
  }

  /** Writing drive by drive appends, in one go, the rows of the non-boot records that build. */
  lemma {:induction false} WriteDrivesRows(f: LogFile, s: Snapshot)
    ensures Contents(WriteDrives(f, s).0) == Contents(f) + Oks(BuildAll(NonBoot(s)))
    ensures f.Some? ==> WriteDrives(f, s).0.Some?
    ensures NonBoot(s) == [] ==> WriteDrives(f, s).0 == f
    decreases |s|
  {
    if |s| == 0 {
      assert Contents(f) + [] == Contents(f);
    } else if IsBootDrive(s[0].0) {
      WriteDrivesRows(f, s[1..]);
    } else {
      var f1 := WriteDrive(f, s[0].1).0;
      var here := Oks([BuildRow(s[0].1)]);
      var later := Oks(BuildAll(NonBoot(s[1..])));
      WriteDrivesCons(f, s);
      assert NonBoot(s) == [s[0]] + NonBoot(s[1..]);
      WriteDriveStep(f, s[0].1);
      WriteDrivesRows(f1, s[1..]);
      RowsDueCons(s);
      assert Contents(f) + here + later == Contents(f) + (here + later);
    }
  }

  /** Writing drive by drive warns once for each non-boot record that does not build, in order. */
  lemma {:induction false} WriteDrivesWarnings(f: LogFile, s: Snapshot)
    ensures WriteDrives(f, s).1 == Errs(BuildAll(NonBoot(s)))
    decreases |s|
  {
    if |s| > 0 {
      if IsBootDrive(s[0].0) {
        WriteDrivesWarnings(f, s[1..]);
      } else {
        WriteDriveStep(f, s[0].1);
        WriteDrivesWarnings(WriteDrive(f, s[0].1).0, s[1..]);
        RowsDueCons(s);
      }
    }
  }

  /**
   The run leaves an existing log's rows in place, adds the header only to a
   missing log, and appends one row per non-boot record that builds, in
   snapshot order, warning once for each that does not.
   */
  lemma RunLogAppends(f: LogFile, s: Snapshot)
    ensures RunLog(f, s).0.Some?
    ensures Contents(RunLog(f, s).0) == Contents(EnsureLogFile(f)) + Oks(BuildAll(NonBoot(s)))
    ensures Contents(RunLog(f, s).0)[..|Contents(f)|] == Contents(f)
    ensures |Oks(BuildAll(NonBoot(s)))| + |RunLog(f, s).1| == |NonBoot(s)|
  {
    WriteDrivesRows(EnsureLogFile(f), s);
    WriteDrivesWarnings(EnsureLogFile(f), s);
    OksErrsPartition(BuildAll(NonBoot(s)));
  }

  /**
   When every non-boot record has its four fields, exactly one row per
   non-boot drive is appended, each the record's raw fields in row order.
   */
  lemma RunLogAllLoggable(f: LogFile, s: Snapshot)
    requires forall e :: e in NonBoot(s) ==> Loggable(e.1)
    ensures |Contents(RunLog(f, s).0)| == |Contents(EnsureLogFile(f))| + |NonBoot(s)|
    ensures var added := Contents(RunLog(f, s).0)[|Contents(EnsureLogFile(f))|..];
      && |added| == |NonBoot(s)|
      && (forall i :: 0 <= i < |added| ==> BuildRow(NonBoot(s)[i].1) == Success(added[i]))
    ensures RunLog(f, s).1 == []
  {
    var ns := NonBoot(s);
    var all := BuildAll(ns);
    forall i | 0 <= i < |all|
      ensures all[i] == BuildRow(ns[i].1) && all[i].Success?
    {
      BuildAllAt(ns, i);
      assert ns[i] in ns;
    }
    OksAllSuccess(all);
    RunLogAppends(f, s);
    var base := Contents(EnsureLogFile(f));
    assert Contents(RunLog(f, s).0)[|base|..] == Oks(all);
  }

  /** Writing the snapshot is writing its non-boot entries only. */
  lemma {:induction false} WriteDrivesIgnoresBoot(f: LogFile, s: Snapshot)
    ensures WriteDrives(f, s) == WriteDrives(f, NonBoot(s))
    decreases |s|
  {
    if |s| > 0 {
      if IsBootDrive(s[0].0) {
        WriteDrivesIgnoresBoot(f, s[1..]);
      } else {
        WriteDrivesIgnoresBoot(WriteDrive(f, s[0].1).0, s[1..]);
        assert NonBoot(s) == [s[0]] + NonBoot(s[1..]);
        assert ([s[0]] + NonBoot(s[1..]))[1..] == NonBoot(s[1..]);
      }
    }
  }

  /** Wherever the boot drive sits in the snapshot, and whatever its record, the log is the same without it. */
  lemma RunLogBootAnywhere(f: LogFile, a: Snapshot, rec: DriveRecord, b: Snapshot)
    ensures RunLog(f, a + [(BootSerial, rec)] + b) == RunLog(f, a + b)
  {
    WriteDrivesIgnoresBoot(EnsureLogFile(f), a + [(BootSerial, rec)] + b);
    WriteDrivesIgnoresBoot(EnsureLogFile(f), a + b);
    NonBootIgnoresBootEntry(a, rec, b);
  }
}
