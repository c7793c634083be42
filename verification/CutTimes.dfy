/** Cut times in MM:SS.mmm notation, and the parser that reads them back. */
module CutTimes {
  import opened Prelude
  import opened Decimal
  import opened Grammar
  import opened Prompts
  import opened Validation
  import opened TimelineLaws

  function Milliseconds(seconds: real): (ms: int)
    ensures ms as real - 0.5 <= seconds * 1000.0 <= ms as real + 0.5
    ensures seconds >= 0.0 ==> ms >= 0
  {
    RoundHalfEven(seconds * 1000.0)
  }

  function FormatCutTime(seconds: real): string
    requires seconds >= 0.0
  {
    var total: nat := Milliseconds(seconds);
    var minutes, remainder := total / 60000, total % 60000;
    Padded(minutes, 2) + ":" + Padded(remainder / 1000, 2) + "." + Padded(remainder % 1000, 3)
  }

  /** Milliseconds of a text in MM:SS.mmm notation. */
  function ParseCutTime(s: string): Option<nat> {
    var n := |s|;
    if n < 9 || s[n - 4] != '.' || s[n - 7] != ':' then None
    else match (Value(s[..n - 7]), Value(s[n - 6..n - 4]), Value(s[n - 3..]))
      case (Some(m), Some(sec), Some(ms)) => if sec < 60 then Some(60000 * m + 1000 * sec + ms) else None
      case _ => None
  }

  /** Parsing the printed cut time gives back the rounded number of milliseconds. */
  lemma CutTimeRoundTrip(seconds: real)
    requires seconds >= 0.0
    ensures ParseCutTime(FormatCutTime(seconds)) == Some(Milliseconds(seconds))
  {
    var total: nat := Milliseconds(seconds);
    var minutes, remainder := total / 60000, total % 60000;
    var whole, ms := remainder / 1000, remainder % 1000;
    PaddedWidth(whole);
    PaddedWidth(ms);
    ValueOfPadded(minutes, 2);
    ValueOfPadded(whole, 2);
    ValueOfPadded(ms, 3);
    hide Padded, Value, Milliseconds;
    Layout(Padded(minutes, 2), Padded(whole, 2), Padded(ms, 3));
  }

  lemma Layout(a: string, b: string, c: string)
    requires |b| == 2 && |c| == 3
    ensures var s, n := a + ":" + b + "." + c, |a| + 7;
      && |s| == n && s[n - 4] == '.' && s[n - 7] == ':'
      && s[..n - 7] == a && s[n - 6..n - 4] == b && s[n - 3..] == c
  {
  }

  /** Two cuts print alike exactly when they round to the same millisecond; printing never
      reverses them, and cuts more than a millisecond apart keep their order strictly. */
  lemma PrintedOrder(x: real, y: real)
    requires 0.0 <= x <= y
    ensures FormatCutTime(x) == FormatCutTime(y) <==> Milliseconds(x) == Milliseconds(y)
    ensures var a, b := ParseCutTime(FormatCutTime(x)), ParseCutTime(FormatCutTime(y));
      a.Some? && b.Some? && a.value <= b.value && (y - x > 0.001 ==> a.value < b.value)
  {
    hide ParseCutTime, Padded;
    CutTimeRoundTrip(x);
    CutTimeRoundTrip(y);
    MillisecondsOrder(x, y);
  }

  lemma MillisecondsOrder(x: real, y: real)
    requires 0.0 <= x <= y
    ensures Milliseconds(x) <= Milliseconds(y)
    ensures y - x > 0.001 ==> Milliseconds(x) < Milliseconds(y)
  {
    RoundMonotone(x * 1000.0, y * 1000.0);
    if y - x > 0.001 { TwoRoundUp(x * 1000.0, y * 1000.0); }
  }

  lemma TwoRoundUp(x: real, y: real)
    requires y - x > 1.0
    ensures RoundHalfEven(x) < RoundHalfEven(y)
  {
    RoundIsNearest(x);
    RoundIsNearest(y);
  }

  /** Exactly one millisecond apart is not enough: half-even rounding merges such a pair. */
  lemma OneMillisecondApartCanPrintAlike()
    ensures FormatCutTime(0.0015) == FormatCutTime(0.0025)
  {
    assert Milliseconds(0.0015) == 2 by { assert (1.5 as real).Floor == 1; }
    assert Milliseconds(0.0025) == 2 by { assert (2.5 as real).Floor == 2; }
  }

  /** Over an accepted prompt the printed cut times follow shot order: never decreasing, and
      strictly increasing between shots more than a millisecond apart. */
  lemma AcceptedCutsPrintInOrder(p: StructuredPrompt, i: nat, j: nat)
    requires Accepted(p) && 1 <= i < j < |p.shots|
    ensures p.shots[i].cutAt.Some? && p.shots[j].cutAt.Some? && 0.0 <= p.shots[i].cutAt.value < p.shots[j].cutAt.value < p.duration
    ensures var a, b := ParseCutTime(FormatCutTime(p.shots[i].cutAt.value)), ParseCutTime(FormatCutTime(p.shots[j].cutAt.value));
      && a.Some? && b.Some? && a.value <= b.value
      && (p.shots[j].cutAt.value - p.shots[i].cutAt.value > 0.001 ==> a.value < b.value)
  {
    hide FormatCutTime, ParseCutTime, Found;
    var k := ShotsTileTheClip(p, 0.0);
    assert StartOf(p, i) < EndOf(p, i) <= StartOf(p, j);
    StartsInside(p, j);
    assert ValidShot(p.shots[i]);
    CutTimeRoundTrip(p.shots[i].cutAt.value);
    CutTimeRoundTrip(p.shots[j].cutAt.value);
    PrintedOrder(p.shots[i].cutAt.value, p.shots[j].cutAt.value);
  }
}
