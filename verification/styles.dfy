/**
 Terminal text styles of `TerminalTextColorsAndStyles` and the view a terminal
 gives of styled text.

 Every style is an ANSI "select graphic rendition" sequence: the escape
 character, then `[`, parameters, and a closing `m`. A terminal shows none of
 those characters; `Visible` is that view, and the lemmas here say how it
 treats a style marker and ordinary text.
 */
module Styles {

  const Esc: char := '\U{1B}'

  /** Red text, default background, bold: the year-workweek-day segment. */
  const DateStyle: string := [Esc] + "[31;49;1m"
  /** Cyan text, default background, bold: the counter segment. */
  const CounterStyle: string := [Esc] + "[36;49;1m"
  /** White text on green, bold: a healthy drive. */
  const HealthyStyle: string := [Esc] + "[37;42;1m"
  /** White text on red, bold: any other drive status. */
  const UnhealthyStyle: string := [Esc] + "[37;41;1m"
  /** Back to the terminal's default colours and weight. */
  const Reset: string := [Esc] + "[0m"

  /** `text` between a style and the reset that ends it. */
  function Wrap(style: string, text: string): string
  {
    style + text + Reset
  }

  predicate NoEscape(s: string)
  {
    forall i :: 0 <= i < |s| ==> s[i] != Esc
  }

  /** An SGR sequence: escape, then characters none of which is `m`, then `m`. */
  predicate IsMarker(m: string)
  {
    && |m| >= 2
    && m[0] == Esc
    && m[|m| - 1] == 'm'
    && forall i :: 1 <= i < |m| - 1 ==> m[i] != 'm'
  }

  predicate StartsWith(s: string, prefix: string)
  {
    |prefix| <= |s| && s[..|prefix|] == prefix
  }

  /** Drops the rest of an escape sequence: everything up to and including the first `m`. */
  function SkipSequence(s: string): (r: string)
    ensures |r| <= |s|
  {
    if |s| == 0 then []
    else if s[0] == 'm' then s[1..]
    else SkipSequence(s[1..])
  }

  /** What a terminal displays for `s`: every escape sequence removed. */
  function Visible(s: string): string
    decreases |s|
  {
    if |s| == 0 then []
    else if s[0] == Esc then Visible(SkipSequence(s[1..]))
    else [s[0]] + Visible(s[1..])
  }

  lemma MarkersAreMarkers()
    ensures IsMarker(DateStyle) && IsMarker(CounterStyle) && IsMarker(Reset)
    ensures IsMarker(HealthyStyle) && IsMarker(UnhealthyStyle)
  {
  }

  /** The emphasis styles differ from each other and from the reset. */
  lemma MarkersDistinct()
    ensures DateStyle != CounterStyle
    ensures HealthyStyle != UnhealthyStyle
    ensures DateStyle != Reset && CounterStyle != Reset
    ensures HealthyStyle != Reset && UnhealthyStyle != Reset
  {
    assert DateStyle[3] != CounterStyle[3];
    assert HealthyStyle[6] != UnhealthyStyle[6];
    assert |Reset| != |DateStyle|;
  }

  lemma {:induction false} SkipThrough(body: string, rest: string)
    requires |body| >= 1 && body[|body| - 1] == 'm'
    requires forall i :: 0 <= i < |body| - 1 ==> body[i] != 'm'
    ensures SkipSequence(body + rest) == rest
    decreases |body|
  {
    if |body| == 1 {
      assert (body + rest)[1..] == rest;
    } else {
      assert (body + rest)[1..] == body[1..] + rest;
      SkipThrough(body[1..], rest);
    }
  }

  /** A style marker shows nothing. */
  lemma VisibleMarker(m: string, rest: string)
    requires IsMarker(m)
    ensures Visible(m + rest) == Visible(rest)
  {
    assert (m + rest)[0] == Esc;
    assert (m + rest)[1..] == m[1..] + rest;
    SkipThrough(m[1..], rest);
  }

  /** Text without escapes shows as itself. */
  lemma {:induction false} VisiblePlain(a: string, rest: string)
    requires NoEscape(a)
    ensures Visible(a + rest) == a + Visible(rest)
    decreases |a|
  {
    if |a| > 0 {
      assert (a + rest)[0] == a[0];
      assert (a + rest)[1..] == a[1..] + rest;
      VisiblePlain(a[1..], rest);
      assert a == [a[0]] + a[1..];
    } else {
      assert a + rest == rest;
    }
  }

  /** Wrapped text shows as the text alone. */
  lemma VisibleWrap(style: string, text: string, rest: string)
    requires IsMarker(style) && NoEscape(text)
    ensures Visible(Wrap(style, text) + rest) == text + Visible(rest)
  {
    MarkersAreMarkers();
    assert Wrap(style, text) + rest == style + (text + (Reset + rest));
    VisibleMarker(style, text + (Reset + rest));
    VisiblePlain(text, Reset + rest);
    VisibleMarker(Reset, rest);
  }
}
