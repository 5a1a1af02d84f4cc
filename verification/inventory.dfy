/**
 The drive inventory reported by the vendor tool, and the boot-drive filter
 that both the terminal report and the log writer apply to it.

 The tool prints one JSON object whose keys are drive identifiers and whose
 values are per-drive objects. Python keeps the keys in insertion order, so the
 snapshot is a sequence of (identifier, record) entries. A record is the
 drive's JSON object: field names to the text of their values.
 */
module Inventory {
  import opened Wrappers

  /** One drive's fields as the tool reports them ("SerialNumber", "Firmware", ...). */
  datatype DriveRecord = DriveRecord(fields: map<string, string>) {
    /** `drive_data[key]`: a missing key raises instead of yielding a value. */
    function Get(key: string): Option<string>
    {
      if key in fields then Some(fields[key]) else None
    }
  }

  /** The exceptions the reporting code can raise on a malformed record. */
  datatype Fault =
    | MissingKey(key: string)   // a record without the looked-up field
    | IndexOutOfRange           // a serial number too short to index position 15

  type Entry = (string, DriveRecord)
  type Snapshot = seq<Entry>

  /** The serial of the system drive, which is never reported. */
  const BootSerial: string := "21314E804991"

  predicate IsBootDrive(id: string)
  {
    id == BootSerial
  }

  /** The entries both report loops act on: every entry whose key is not the boot serial, in order. */
  function NonBoot(s: Snapshot): (r: Snapshot)
    ensures |r| <= |s|
  {
    if |s| == 0 then []
    else if IsBootDrive(s[0].0) then NonBoot(s[1..])
    else [s[0]] + NonBoot(s[1..])
  }

  /** Exactly the entries with a non-boot key survive the filter. */
  lemma {:induction false} NonBootMembers(s: Snapshot)
    ensures forall e :: e in NonBoot(s) <==> e in s && !IsBootDrive(e.0)
    decreases |s|
  {
    if |s| > 0 {
      NonBootMembers(s[1..]);
      assert forall e :: e in s <==> e == s[0] || e in s[1..];
    }
  }

  /** Each non-boot entry survives as often as it occurs, each boot entry never. */
  lemma {:induction false} NonBootCounts(s: Snapshot)
    ensures forall e :: multiset(NonBoot(s))[e] == (if IsBootDrive(e.0) then 0 else multiset(s)[e])
    decreases |s|
  {
    if |s| > 0 {
      NonBootCounts(s[1..]);
      assert s == [s[0]] + s[1..];
      assert multiset(s) == multiset{s[0]} + multiset(s[1..]);
      if !IsBootDrive(s[0].0) {
        assert multiset(NonBoot(s)) == multiset{s[0]} + multiset(NonBoot(s[1..]));
      }
    }
  }

  /** The filter keeps order: filtering a concatenation concatenates the filtered parts. */
  lemma {:induction false} NonBootAppend(a: Snapshot, b: Snapshot)
    ensures NonBoot(a + b) == NonBoot(a) + NonBoot(b)
    decreases |a|
  {
    if |a| == 0 {
      assert a + b == b;
    } else {
      assert (a + b)[0] == a[0];
      assert (a + b)[1..] == a[1..] + b;
      NonBootAppend(a[1..], b);
    }
  }

  /** A boot entry anywhere in the snapshot, whatever its record, changes nothing. */
  lemma NonBootIgnoresBootEntry(a: Snapshot, rec: DriveRecord, b: Snapshot)
    ensures NonBoot(a + [(BootSerial, rec)] + b) == NonBoot(a + b)
  {
    NonBootAppend(a + [(BootSerial, rec)], b);
    NonBootAppend(a, [(BootSerial, rec)]);
    NonBootAppend(a, b);
  }

  /** Filtering twice is filtering once. */
  lemma {:induction false} NonBootIdempotent(s: Snapshot)
    ensures NonBoot(NonBoot(s)) == NonBoot(s)
    decreases |s|
  {
    if |s| > 0 {
      NonBootIdempotent(s[1..]);
    }
  }

  /** The filter looks at the key only: a record carrying the boot serial under another key is kept. */
  lemma FilterIsByKey(id: string, rec: DriveRecord)
    requires !IsBootDrive(id)
    requires rec.Get("SerialNumber") == Some(BootSerial)
    ensures NonBoot([(id, rec)]) == [(id, rec)]
  {
  }
}
