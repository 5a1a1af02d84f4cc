/**
 `DriveDataToTerminal._print_drive_data_to_screen`: one blank line, then for
 every non-boot drive its index, highlighted serial, model, firmware and
 coloured health, and a blank separator line.

 The screen is modelled line by line (`print(a, b)` prints `a + " " + b`). A
 missing field or a short serial raises out of the loop: the lines printed
 before it stay on the screen and no later drive is printed.
 */
module TerminalReport {
  import opened Wrappers
  import opened Inventory
  import opened Formatter

  /** The lines printed so far and the exception that ended printing, if any. */
  datatype Transcript = Transcript(lines: seq<string>, fault: Option<Fault>)

  /** Printing `t` and then, unless `t` raised, `u`. */
  function Then(t: Transcript, u: Transcript): Transcript
  {
    if t.fault.Some? then t else Transcript(t.lines + u.lines, u.fault)
  }

  /** A record the printer gets through: every field it reads is present and the serial reaches index 15. */
  predicate Printable(rec: DriveRecord)
  {
    && "Index" in rec.fields
    && "SerialNumber" in rec.fields
    && "ModelNumber" in rec.fields
    && "Firmware" in rec.fields
    && "DeviceStatus" in rec.fields
    && |rec.fields["SerialNumber"]| >= 16
  }

  /**
   The block printed for one drive. The fields are read in print order, so the
   first one that is missing (or a short serial) decides the exception, and
   the lines printed before it are a prefix of the full six-line block.
   */
  function DriveBlock(rec: DriveRecord): (r: Transcript)
    ensures r.fault.None? <==> Printable(rec)
    ensures r.fault == Some(MissingKey("Index")) <==> "Index" !in rec.fields
    ensures r.fault == Some(MissingKey("SerialNumber")) <==>
      "Index" in rec.fields && "SerialNumber" !in rec.fields
    ensures r.fault == Some(IndexOutOfRange) <==>
      "Index" in rec.fields && "SerialNumber" in rec.fields && |rec.fields["SerialNumber"]| < 16
    ensures r.fault == Some(MissingKey("ModelNumber")) <==>
      "Index" in rec.fields && "SerialNumber" in rec.fields && |rec.fields["SerialNumber"]| >= 16
      && "ModelNumber" !in rec.fields
    ensures r.fault == Some(MissingKey("Firmware")) <==>
      "Index" in rec.fields && "SerialNumber" in rec.fields && |rec.fields["SerialNumber"]| >= 16
      && "ModelNumber" in rec.fields && "Firmware" !in rec.fields
    ensures r.fault == Some(MissingKey("DeviceStatus")) <==>
      "Index" in rec.fields && "SerialNumber" in rec.fields && |rec.fields["SerialNumber"]| >= 16
      && "ModelNumber" in rec.fields && "Firmware" in rec.fields && "DeviceStatus" !in rec.fields
    // How far printing got before each exception.
    ensures r.fault == Some(MissingKey("Index")) ==> |r.lines| == 0
    ensures r.fault == Some(MissingKey("SerialNumber")) ==> |r.lines| == 1
    ensures r.fault == Some(IndexOutOfRange) ==> |r.lines| == 1
    ensures r.fault == Some(MissingKey("ModelNumber")) ==> |r.lines| == 2
    ensures r.fault == Some(MissingKey("Firmware")) ==> |r.lines| == 3
    ensures r.fault == Some(MissingKey("DeviceStatus")) ==> |r.lines| == 4
    ensures r.fault.None? ==> |r.lines| == 6 && r.lines[5] == ""
    // Every line that is printed, with or without a later exception, is the full block's line.
    ensures |r.lines| >= 1 ==>
      "Index" in rec.fields && r.lines[0] == "Index: " + rec.fields["Index"]
    ensures |r.lines| >= 2 ==>
      && "SerialNumber" in rec.fields && HighlightSerial(rec.fields["SerialNumber"]).Success?
      && r.lines[1] == "Serial Number (SN): " + HighlightSerial(rec.fields["SerialNumber"]).value
    ensures |r.lines| >= 3 ==>
      "ModelNumber" in rec.fields && r.lines[2] == "Model Number (MN): " + rec.fields["ModelNumber"]
    ensures |r.lines| >= 4 ==>
      "Firmware" in rec.fields && r.lines[3] == "Firmware Version: " + rec.fields["Firmware"]
    ensures |r.lines| >= 5 ==>
      "DeviceStatus" in rec.fields && r.lines[4] == "Device Status: " + FormatHealth(rec.fields["DeviceStatus"])
  {
    match rec.Get("Index")
    case None => Transcript([], Some(MissingKey("Index")))
    case Some(index) =>
      var l0 := "Index: " + index;
      match rec.Get("SerialNumber")
      case None => Transcript([l0], Some(MissingKey("SerialNumber")))
      case Some(serial) =>
        match HighlightSerial(serial)
        case Failure(e) => Transcript([l0], Some(e))
        case Success(highlighted) =>
          var l1 := "Serial Number (SN): " + highlighted;
          match rec.Get("ModelNumber")
          case None => Transcript([l0, l1], Some(MissingKey("ModelNumber")))
          case Some(model) =>
            var l2 := "Model Number (MN): " + model;
            match rec.Get("Firmware")
            case None => Transcript([l0, l1, l2], Some(MissingKey("Firmware")))
            case Some(firmware) =>
              var l3 := "Firmware Version: " + firmware;
              match rec.Get("DeviceStatus")
              case None => Transcript([l0, l1, l2, l3], Some(MissingKey("DeviceStatus")))
              case Some(status) =>
                Transcript([l0, l1, l2, l3, "Device Status: " + FormatHealth(status), ""], None)
  }

  /** A printable record gets the full six-line block. */
  lemma DriveBlockPrintable(rec: DriveRecord)
    requires Printable(rec)
    ensures DriveBlock(rec) == Transcript([
      "Index: " + rec.fields["Index"],
      "Serial Number (SN): " + HighlightSerial(rec.fields["SerialNumber"]).value,
      "Model Number (MN): " + rec.fields["ModelNumber"],
      "Firmware Version: " + rec.fields["Firmware"],
      "Device Status: " + FormatHealth(rec.fields["DeviceStatus"]),
      ""], None)
  {
  }

  /** The loop over the snapshot, skipping the boot drive. */
  function ReportDrives(s: Snapshot): Transcript
  {
    if |s| == 0 then Transcript([], None)
    else if IsBootDrive(s[0].0) then ReportDrives(s[1..])
    else Then(DriveBlock(s[0].1), ReportDrives(s[1..]))
  }

  /** The whole screen output: a blank line, then the drives. */
  function Report(s: Snapshot): Transcript
  {
    Then(Transcript([""], None), ReportDrives(s))
  }

  lemma ThenAssociative(t: Transcript, u: Transcript, v: Transcript)
    ensures Then(Then(t, u), v) == Then(t, Then(u, v))
  {
    if t.fault.None? && u.fault.None? {
      assert t.lines + u.lines + v.lines == t.lines + (u.lines + v.lines);
    }
  }

  /** Reporting a concatenation is reporting the first part and then, unless it raised, the second. */
  lemma {:induction false} ReportDrivesAppend(a: Snapshot, b: Snapshot)
    ensures ReportDrives(a + b) == Then(ReportDrives(a), ReportDrives(b))
    decreases |a|
  {
    if |a| == 0 {
      assert a + b == b;
      assert [] + ReportDrives(b).lines == ReportDrives(b).lines;
    } else {
      assert (a + b)[0] == a[0];
      assert (a + b)[1..] == a[1..] + b;
      ReportDrivesAppend(a[1..], b);
      if !IsBootDrive(a[0].0) {
        ThenAssociative(DriveBlock(a[0].1), ReportDrives(a[1..]), ReportDrives(b));
      }
    }
  }

  /** The report is the report of the filtered snapshot: boot entries contribute nothing. */
  lemma {:induction false} ReportIgnoresBoot(s: Snapshot)
    ensures ReportDrives(s) == ReportDrives(NonBoot(s))
    decreases |s|
  {
    if |s| > 0 {
      ReportIgnoresBoot(s[1..]);
      if !IsBootDrive(s[0].0) {
        assert NonBoot(s) == [s[0]] + NonBoot(s[1..]);
        assert ([s[0]] + NonBoot(s[1..]))[1..] == NonBoot(s[1..]);
      }
    }
  }

  /** Wherever the boot drive sits in the snapshot, and whatever its record, the screen is the same without it. */
  lemma ReportBootAnywhere(a: Snapshot, rec: DriveRecord, b: Snapshot)
    ensures Report(a + [(BootSerial, rec)] + b) == Report(a + b)
  {
    ReportIgnoresBoot(a + [(BootSerial, rec)] + b);
    ReportIgnoresBoot(a + b);
    NonBootIgnoresBootEntry(a, rec, b);
  }

  /**
   The report runs to the end exactly when every non-boot record is printable,
   and then prints six lines per non-boot drive.
   */
  lemma {:induction false} ReportCompletes(s: Snapshot)
    ensures ReportDrives(s).fault.None? <==> forall e :: e in NonBoot(s) ==> Printable(e.1)
    ensures ReportDrives(s).fault.None? ==> |ReportDrives(s).lines| == 6 * |NonBoot(s)|
    decreases |s|
  {
    if |s| > 0 {
      ReportCompletes(s[1..]);
      if !IsBootDrive(s[0].0) {
        assert NonBoot(s) == [s[0]] + NonBoot(s[1..]);
      }
    }
  }

  /** The drive blocks of the given entries, one after another. */
  function BlocksOf(ns: Snapshot): seq<string>
  {
    if |ns| == 0 then [] else DriveBlock(ns[0].1).lines + BlocksOf(ns[1..])
  }

  /** A completed report is the drive blocks of the non-boot entries, in snapshot order. */
  lemma {:induction false} ReportBlocks(s: Snapshot)
    requires ReportDrives(s).fault.None?
    ensures ReportDrives(s).lines == BlocksOf(NonBoot(s))
    decreases |s|
  {
    if |s| > 0 {
      ReportBlocks(s[1..]);
      if !IsBootDrive(s[0].0) {
        var ns := NonBoot(s[1..]);
        assert NonBoot(s) == [s[0]] + ns;
        assert ([s[0]] + ns)[1..] == ns;
      }
    }
  }

  /** The screen starts with a blank line whatever the snapshot holds. */
  lemma ReportStartsBlank(s: Snapshot)
    ensures |Report(s).lines| >= 1 && Report(s).lines[0] == ""
    ensures Report(s).fault == ReportDrives(s).fault
  {
  }
}
