/**
 The two pure formatting rules of `DriveDataToTerminal`: the serial-number
 highlighter and the health-status colouring.

 A serial number is read at fixed offsets (half-open ranges): vendor site
 [0, 2), product [2, 4), year-workweek-day [4, 8), counter [8, 12), capacity
 [12, 15), form factor at 15, case-serial indicator [16, 18). The slices
 follow Python's rules: a bound past the end is clipped to the length, while
 the single index 15 raises when the string is shorter than 16.
 */
module Formatter {
  import opened Wrappers
  import opened Inventory
  import opened Styles

  function Min(a: int, b: int): int
  {
    if a <= b then a else b
  }

  /** Python's `s[lo:hi]` for `0 <= lo <= hi`: bounds past the end are clipped. */
  function Slice(s: string, lo: nat, hi: nat): string
    requires lo <= hi
  {
    s[Min(lo, |s|)..Min(hi, |s|)]
  }

  /**
   The serial with its year-workweek-day segment in the date style and its
   counter in the counter style; anything past position 18 is dropped.
   */
  function HighlightSerial(serial: string): (r: Result<string, Fault>)
    ensures r.Failure? <==> |serial| < 16
    ensures r.Failure? ==> r.error == IndexOutOfRange
    ensures r.Success? ==>
      r.value == serial[..4] + Wrap(DateStyle, serial[4..8]) + Wrap(CounterStyle, serial[8..12])
                 + serial[12..Min(|serial|, 18)]
  {
    if |serial| <= 15 then Failure(IndexOutOfRange)
    else
      var vendorSite := Slice(serial, 0, 2);
      var product := Slice(serial, 2, 4);
      var yearWorkweekDay := Slice(serial, 4, 8);
      var counter := Slice(serial, 8, 12);
      var capacity := Slice(serial, 12, 15);
      var formFactor := [serial[15]];
      var caseSerial := Slice(serial, 16, 18);
      assert serial[..4] == vendorSite + product;
      assert serial[12..Min(|serial|, 18)] == capacity + formFactor + caseSerial;
      Success(vendorSite + product
              + DateStyle + yearWorkweekDay + Reset
              + CounterStyle + counter + Reset
              + capacity + formFactor + caseSerial)
  }

  /** For a full-width serial the output is the serial's first 18 characters with two segments styled. */
  lemma HighlightFullWidth(serial: string)
    requires |serial| >= 18
    ensures HighlightSerial(serial) == Success(
      serial[0..4] + DateStyle + serial[4..8] + Reset
      + CounterStyle + serial[8..12] + Reset + serial[12..18])
  {
    assert Min(|serial|, 18) == 18;
    assert serial[..4] == serial[0..4];
    var h := HighlightSerial(serial).value;
    assert h == serial[0..4] + Wrap(DateStyle, serial[4..8]) + Wrap(CounterStyle, serial[8..12]) + serial[12..18];
    assert h == serial[0..4] + DateStyle + serial[4..8] + Reset
      + CounterStyle + serial[8..12] + Reset + serial[12..18];
  }

  /** On a terminal the highlighted serial reads as the serial cut to 18 characters. */
  lemma HighlightVisible(serial: string)
    requires |serial| >= 16 && NoEscape(serial)
    ensures HighlightSerial(serial).Success?
    ensures Visible(HighlightSerial(serial).value) == serial[..Min(|serial|, 18)]
  {
    MarkersAreMarkers();
    var tail := serial[12..Min(|serial|, 18)];
    var h := HighlightSerial(serial).value;
    assert h == serial[..4] + (Wrap(DateStyle, serial[4..8]) + (Wrap(CounterStyle, serial[8..12]) + tail));
    VisiblePlain(tail, []);
    assert tail + [] == tail;
    VisibleWrap(CounterStyle, serial[8..12], tail);
    VisibleWrap(DateStyle, serial[4..8], Wrap(CounterStyle, serial[8..12]) + tail);
    VisiblePlain(serial[..4], Wrap(DateStyle, serial[4..8]) + (Wrap(CounterStyle, serial[8..12]) + tail));
    assert serial[..4] + (serial[4..8] + (serial[8..12] + tail)) == serial[..Min(|serial|, 18)];
  }

  /** Removing the styles gives back an 18-character serial exactly, a shorter one whole, and a longer one without its tail. */
  lemma HighlightRoundTrip(serial: string)
    requires |serial| >= 16 && NoEscape(serial)
    ensures |serial| <= 18 ==> Visible(HighlightSerial(serial).value) == serial
    ensures |serial| > 18 ==> Visible(HighlightSerial(serial).value) + serial[18..] == serial
  {
    HighlightVisible(serial);
    assert serial[..|serial|] == serial;
  }

  /** The status in the healthy style exactly when it is the literal "Healthy", in the unhealthy style otherwise. */
  function FormatHealth(status: string): (r: string)
    ensures StartsWith(r, HealthyStyle) <==> status == "Healthy"
    ensures StartsWith(r, UnhealthyStyle) <==> status != "Healthy"
    ensures |r| == |HealthyStyle| + |status| + |Reset|
    ensures r[|HealthyStyle|..|r| - |Reset|] == status
    ensures r[|r| - |Reset|..] == Reset
    ensures NoEscape(status) ==> Visible(r) == status
  {
    MarkersDistinct();
    var style := if status == "Healthy" then HealthyStyle else UnhealthyStyle;
    WrapShows(style, status);
    assert |HealthyStyle| == |UnhealthyStyle|;
    Wrap(style, status)
  }

  /** A wrapped text starts with its style, ends with the reset and shows as the text. */
  lemma WrapShows(style: string, text: string)
    requires IsMarker(style)
    ensures StartsWith(Wrap(style, text), style)
    ensures Wrap(style, text)[|style|..|Wrap(style, text)| - |Reset|] == text
    ensures Wrap(style, text)[|Wrap(style, text)| - |Reset|..] == Reset
    ensures NoEscape(text) ==> Visible(Wrap(style, text)) == text
  {
    var w := Wrap(style, text);
    assert w[..|style|] == style;
    assert w[|style|..|w| - |Reset|] == text;
    assert w[|w| - |Reset|..] == Reset;
    if NoEscape(text) {
      VisibleWrap(style, text, []);
      assert w + [] == w;
    }
  }

  /** The comparison is exact and case-sensitive. */
  lemma HealthExamples()
    ensures FormatHealth("Healthy") == HealthyStyle + "Healthy" + Reset
    ensures FormatHealth("healthy") == UnhealthyStyle + "healthy" + Reset
    ensures FormatHealth("") == UnhealthyStyle + Reset
    ensures FormatHealth("Degraded") == UnhealthyStyle + "Degraded" + Reset
    ensures FormatHealth("Failed") == UnhealthyStyle + "Failed" + Reset
  {
  }
}
