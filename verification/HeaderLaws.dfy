/** A reader of the alignment header that knows nothing of the renderer: it finds the words that
    name a picture, a shot and a mark, and reads the numbers behind them. */
module HeaderLaws {
  import opened Prelude
  import opened Text
  import opened Decimal
  import opened Grammar
  import opened CutTimes
  import opened Prompts
  import opened Containment
  import opened Render
  import opened Pieces
  import opened RenderLaws

  // ------------------------------------------------------------------ reading

  predicate IsNumeral(c: char) {
    '0' <= c <= '9'
  }

  /** The numerals a text begins with. */
  function Run(s: string): (r: string)
    ensures r <= s && forall c | c in r :: IsNumeral(c)
    ensures |r| < |s| ==> !IsNumeral(s[|r|])
  {
    if s == "" || !IsNumeral(s[0]) then ""
    else
      assert s == [s[0]] + s[1..];
      [s[0]] + Run(s[1..])
  }

  /** The text behind the first occurrence of some words. */
  function After(words: string, s: string): (r: Option<string>)
    ensures r.Some? ==> |r.value| + |words| <= |s|
  {
    match Find(words, s)
    case None => None
    case Some(i) => Some(s[i + |words|..])
  }

  /** A number of seconds with two decimals, in hundredths. */
  function MarkAt(s: string): Option<nat> {
    var n := |Run(s)|;
    if |s| < n + 3 || s[n] != '.' then None
    else match (Value(Run(s)), Value(s[n + 1..n + 3]))
      case (Some(whole), Some(part)) => Some(100 * whole + part)
      case _ => None
  }

  /** A picture, the shot it is from, and the instant of the clip it is aligned with. */
  datatype Anchor = Anchor(picture: nat, shot: nat, hundredths: nat)

  function AnchorOf(picture: Option<nat>, shot: Option<nat>, mark: Option<nat>): seq<Anchor> {
    match (picture, shot, mark)
    case (Some(p), Some(s), Some(m)) => [Anchor(p, s, m)]
    case _ => []
  }

  /** The sentence that gives one mark and then its picture. */
  function MarkThenPicture(s: string): seq<Anchor> {
    match After("video, at ", s)
    case None => []
    case Some(a) =>
      match After("Picture ", a)
      case None => []
      case Some(b) =>
        match After("Shot ", b)
        case None => []
        case Some(c) => AnchorOf(Value(Run(b)), Value(Run(c)), MarkAt(a))
  }

  /** The numbers behind two words and the mark behind a third, and the text from the mark on. */
  function NextNamed(picture: string, shot: string, mark: string, s: string): (r: Option<(seq<Anchor>, string)>)
    ensures r.Some? ==> |r.value.1| + |picture| <= |s|
  {
    match After(picture, s)
    case None => None
    case Some(a) =>
      match After(shot, a)
      case None => None
      case Some(b) =>
        match After(mark, b)
        case None => None
        case Some(c) => Some((AnchorOf(Value(Run(a)), Value(Run(b)), MarkAt(c)), c))
  }

  function NextPicture(s: string): (r: Option<(seq<Anchor>, string)>)
    ensures r.Some? ==> |r.value.1| < |s|
  {
    NextNamed("Picture ", "Shot ", "aligns with the ", s)
  }

  /** The sentence that gives pictures, each with its shot and then its mark. */
  function PicturesThenMarks(s: string): seq<Anchor>
    decreases |s|
  {
    match NextPicture(s)
    case None => []
    case Some((found, rest)) => found + PicturesThenMarks(rest)
  }

  function FirstLine(text: string): string {
    match Find("\n", text)
    case None => text
    case Some(i) => text[..i]
  }

  /** The anchors a wire text states in its first line. */
  function ReadAnchors(text: string): seq<Anchor> {
    var line := FirstLine(text);
    if "For the target video" <= line then MarkThenPicture(line)
    else if "How the reference pictures align" <= line then PicturesThenMarks(line)
    else []
  }

  // -------------------------------------------------------------- reading back

  /** Words that begin with a character the text before them does not hold are found there. */
  lemma AfterFinds(words: string, a: string, b: string)
    requires words != "" && words[0] !in a
    ensures After(words, a + words + b) == Some(b)
  {
    var s := a + words + b;
    assert s[|a|..|a| + |words|] == words;
    forall j: nat | j < |a| ensures !Occurs(words, s, j) {
      if Occurs(words, s, j) { FirstCharacter(words, s, j); }
    }
    FindIsFirst(words, s, |a|);
    assert s[|a| + |words|..] == b;
  }

  lemma FirstCharacter(words: string, s: string, j: nat)
    requires words != "" && Occurs(words, s, j)
    ensures s[j] == words[0]
  {
    assert s[j..j + |words|][0] == s[j];
  }

  lemma AfterMisses(words: string, s: string)
    requires words != "" && words[0] !in s
    ensures After(words, s) == None
  {
    forall j: nat | j <= |s| ensures !Occurs(words, s, j) {
      if Occurs(words, s, j) { FirstCharacter(words, s, j); }
    }
  }

  lemma {:induction false} RunStops(n: string, rest: string)
    requires (forall c | c in n :: IsNumeral(c)) && (rest == "" || !IsNumeral(rest[0]))
    ensures Run(n + rest) == n
  {
    if n == "" {
      assert n + rest == rest;
    } else {
      assert (n + rest)[1..] == n[1..] + rest;
      RunStops(n[1..], rest);
    }
  }

  lemma NumberReads(n: nat, rest: string)
    requires rest == "" || !IsNumeral(rest[0])
    ensures Value(Run(Digits(n) + rest)) == Some(n)
  {
    RunStops(Digits(n), rest);
    ValueOfDigits(n);
  }

  lemma MarkReads(seconds: real, rest: string)
    requires seconds >= 0.0
    ensures RoundHalfEven(seconds * 100.0) >= 0
    ensures MarkAt(FormatMark(seconds) + rest) == Some(RoundHalfEven(seconds * 100.0))
  {
    var h: nat := RoundHalfEven(seconds * 100.0);
    var whole, part := Digits(h / 100), Padded(h % 100, 2);
    var s := FormatMark(seconds) + rest;
    assert s == whole + ("." + part + rest);
    RunStops(whole, "." + part + rest);
    PaddedWidth(h % 100);
    ValueOfDigits(h / 100);
    ValueOfPadded(h % 100, 2);
    assert s[|whole| + 1..|whole| + 3] == part;
  }

  predicate Unnumbered(s: string) {
    s == "" || !IsNumeral(s[0])
  }

  lemma NumeralsHold(n: nat, c: char)
    requires !IsNumeral(c)
    ensures c !in Digits(n)
  {
  }

  lemma MarkHolds(seconds: real, c: char)
    requires seconds >= 0.0 && !IsNumeral(c) && c != '.'
    ensures c !in FormatMark(seconds)
  {
  }

  /** The three words are found where they stand. */
  lemma NamedFound(picture: string, shot: string, mark: string, lead: string, n: string, m: string, rest: string)
    requires picture != "" && shot != "" && mark != "" && picture[0] !in lead && shot[0] !in n && mark[0] !in m
    ensures var c := m + mark + rest;
      var a := n + shot + c;
      NextNamed(picture, shot, mark, lead + picture + a) == Some((AnchorOf(Value(Run(a)), Value(Run(c)), MarkAt(rest)), rest))
  {
    hide MarkAt, Run, Value, AnchorOf;
    var c := m + mark + rest;
    AfterFinds(picture, lead, n + shot + c);
    AfterFinds(shot, n, c);
    AfterFinds(mark, m, rest);
    hide After;
  }

  lemma NamedReads(picture: string, shot: string, mark: string,
                   lead: string, p: nat, between: string, q: nat, upto: string, rest: string)
    requires picture != "" && shot != "" && mark != "" && !IsNumeral(shot[0]) && !IsNumeral(mark[0])
    requires picture[0] !in lead && shot[0] !in between && mark[0] !in upto
    requires Unnumbered(between) && Unnumbered(upto) && between != "" && upto != ""
    ensures var s := lead + picture + (Digits(p) + between + shot + (Digits(q) + upto + mark + rest));
      NextNamed(picture, shot, mark, s) == Some((AnchorOf(Some(p), Some(q), MarkAt(rest)), rest))
  {
    hide MarkAt, Run, Value, Digits, AnchorOf, NextNamed;
    var n, m := Digits(p) + between, Digits(q) + upto;
    NumeralsHold(p, shot[0]);
    NumeralsHold(q, mark[0]);
    NamedFound(picture, shot, mark, lead, n, m, rest);
    assert Value(Run(n + shot + (m + mark + rest))) == Some(p) by {
      NumberBefore(p, between, shot + (m + mark + rest));
      assert n + shot + (m + mark + rest) == n + (shot + (m + mark + rest));
    }
    assert Value(Run(m + mark + rest)) == Some(q) by {
      NumberBefore(q, upto, mark + rest);
      assert m + mark + rest == m + (mark + rest);
    }
  }

  lemma PictureReads(lead: string, p: nat, between: string, q: nat, upto: string, rest: string)
    requires 'P' !in lead && 'S' !in between && 'a' !in upto && Unnumbered(between) && Unnumbered(upto) && between != "" && upto != ""
    ensures var s := lead + "Picture " + (Digits(p) + between + "Shot " + (Digits(q) + upto + "aligns with the " + rest));
      NextPicture(s) == Some((AnchorOf(Some(p), Some(q), MarkAt(rest)), rest))
  {
    hide MarkAt, AnchorOf, Digits, NextNamed;
    NamedReads("Picture ", "Shot ", "aligns with the ", lead, p, between, q, upto, rest);
  }

  lemma NumberBefore(n: nat, stop: string, rest: string)
    requires Unnumbered(stop) && stop != ""
    ensures Value(Run(Digits(n) + stop + rest)) == Some(n)
  {
    assert Digits(n) + stop + rest == Digits(n) + (stop + rest);
    NumberReads(n, stop + rest);
  }

  lemma OpeningReads(lead: string, mark: string, mid: string, p: nat, between: string, q: nat, tail: string)
    requires 'v' !in lead && 'P' !in mark && 'P' !in mid && 'S' !in between && Unnumbered(between) && between != "" && Unnumbered(tail)
    ensures var rest := mid + "Picture " + (Digits(p) + between + "Shot " + (Digits(q) + tail));
      MarkThenPicture(lead + "video, at " + (mark + rest)) == AnchorOf(Some(p), Some(q), MarkAt(mark + rest))
  {
    hide After, MarkAt, Run, Value;
    var c := Digits(q) + tail;
    var b := Digits(p) + between + "Shot " + c;
    var a := mark + (mid + "Picture " + b);
    NumeralsHold(p, 'S');
    AfterFinds("video, at ", lead, a);
    assert a == (mark + mid) + "Picture " + b;
    AfterFinds("Picture ", mark + mid, b);
    AfterFinds("Shot ", Digits(p) + between, c);
    assert b == Digits(p) + (between + "Shot " + c);
    NumberReads(p, between + "Shot " + c);
    NumberReads(q, tail);
  }

  /** Hundredths that state an instant up to the tolerance the renderer asks for. */
  predicate States(hundredths: nat, seconds: real) {
    var off := hundredths as real / 100.0 - seconds;
    -0.000000001 <= off <= 0.000000001
  }

  lemma OneDigit()
    ensures Digits(1) == "1" && Digits(2) == "2" && RoundHalfEven(0.0 * 100.0) == 0
  {
  }

  /** A line that holds no line break and is told from the sections. */
  predicate Opens(line: string, words: string) {
    words <= line && '\n' !in line
  }

  lemma FirstFrameHeader(mark: string)
    requires MarkAt(mark + (INTO_VIDEO + ("<Picture 1> (from " + FULLY_REFERENCED))) == Some(0)
    requires 'P' !in mark && '\n' !in mark
    ensures var header := AT_OPENING + mark + INTO_VIDEO + ("<Picture 1> (from " + FULLY_REFERENCED);
      MarkThenPicture(header) == [Anchor(1, 1, 0)] && Opens(header, "For the target video")
  {
    hide MarkAt, MarkThenPicture;
    OpeningWords();
    IntoWords();
    ReferencedWords();
    hide AT_OPENING, INTO_VIDEO, FULLY_REFERENCED;
    var end := INTO_VIDEO + ("<Picture 1> (from " + FULLY_REFERENCED);
    var mid, between, tail := INTO_VIDEO + "<", "> (from " + "[", "])" + " is fully referenced.";
    Spread(INTO_VIDEO, "<", "Picture ", "1", "> (from ", "[", "Shot ", "])", " is fully referenced.");
    assert end == mid + "Picture " + ("1" + between + "Shot " + ("1" + tail));
    assert AT_OPENING + mark + INTO_VIDEO + ("<Picture 1> (from " + FULLY_REFERENCED) == AT_OPENING + mark + end;
    assert ("For the target " + "video, at ") + mark + end == "For the target " + "video, at " + (mark + end);
    OneDigit();
    OpeningReads("For the target ", mark, mid, 1, between, 1, tail);
  }

  lemma Spread(a: string, l: string, p: string, one: string, f: string, o: string, h: string, c: string, e: string)
    ensures a + ((l + p + one + f) + (o + h + one + c + e)) == (a + l) + p + (one + (f + o) + h + (one + (c + e)))
  {
  }

  lemma OpeningWords()
    ensures AT_OPENING == "For the target " + "video, at " && Opens(AT_OPENING, "For the target video")
  {
  }

  lemma IntoWords()
    ensures 'P' !in INTO_VIDEO && '\n' !in INTO_VIDEO
  {
  }

  lemma ReferencedWords()
    ensures FULLY_REFERENCED == "[" + "Shot " + "1" + "])" + " is fully referenced." && '\n' !in FULLY_REFERENCED
    ensures "<Picture 1> (from " == "<" + "Picture " + "1" + "> (from "
  {
  }

  lemma AlignedWords()
    ensures 'P' !in ALIGNED && Opens(ALIGNED, "How the reference pictures align")
  {
    assert ALIGNED[..32] == "How the reference pictures align";
  }

  lemma NextWords()
    ensures 'P' !in NEXT_MARK && '\n' !in NEXT_MARK
  {
  }

  lemma LastMarkWords()
    ensures 'P' !in LAST_MARK && '\n' !in LAST_MARK
  {
  }

  lemma ClosingWords()
    ensures ") aligns with the " == ") " + "aligns with the " && '\n' !in ") aligns with the "
  {
  }

  lemma FirstWords()
    ensures FIRST_PICTURE == "Picture " + ("1" + " (from " + "Shot " + ("1" + ") " + "aligns with the "))
  {
  }

  lemma FirstIsOneLine()
    ensures '\n' !in FIRST_PICTURE
  {
  }

  lemma SecondWords()
    ensures SECOND_PICTURE == "Picture " + ("2" + " (from " + "Shot ") && '\n' !in SECOND_PICTURE
  {
  }

  lemma LastWords()
    ensures "<Picture 1> (from " + "[Shot " == "<" + "Picture " + ("1" + "> (from [" + "Shot ")
    ensures '\n' !in "<Picture 1> (from " + "[Shot "
  {
  }

  lemma BracketWords()
    ensures "]) aligns with the " == "]) " + "aligns with the " && '\n' !in "]) aligns with the "
  {
  }

  lemma BothFramesHeader(zero: string, final: nat, closing: string)
    requires 'P' !in zero && '\n' !in zero && 'P' !in closing && '\n' !in closing
    ensures var header := ALIGNED + FIRST_PICTURE + zero + NEXT_MARK + SECOND_PICTURE + Digits(final)
                          + ") aligns with the " + closing + LAST_MARK;
      var second := NEXT_MARK + "Picture " + ("2" + " (from " + "Shot " + (Digits(final) + ") " + "aligns with the " + (closing + LAST_MARK)));
      && PicturesThenMarks(header) == AnchorOf(Some(1), Some(1), MarkAt(zero + second)) + AnchorOf(Some(2), Some(final), MarkAt(closing + LAST_MARK))
      && Opens(header, "How the reference pictures align")
  {
    hide MarkAt, AnchorOf, NextPicture, Digits;
    AlignedWords();
    NextWords();
    LastMarkWords();
    ClosingWords();
    FirstWords();
    FirstIsOneLine();
    SecondWords();
    hide ALIGNED, FIRST_PICTURE, NEXT_MARK, SECOND_PICTURE, LAST_MARK;
    OneDigit();
    NumeralsHold(final, '\n');
    var n, last := Digits(final), closing + LAST_MARK;
    var tail := "2" + " (from " + "Shot " + (n + ") " + "aligns with the " + last);
    var second := NEXT_MARK + "Picture " + tail;
    Nested(ALIGNED, "Picture ", "1", " (from ", "Shot ", ") ", "aligns with the ", zero, NEXT_MARK, "2", n, closing, LAST_MARK);
    assert zero + NEXT_MARK + "Picture " + tail == zero + second;
    PictureReads(ALIGNED, 1, " (from ", 1, ") ", zero + second);
    PictureReads(zero + NEXT_MARK, 2, " (from ", final, ") ", last);
    NoPicture(last);
  }

  lemma ThenNone(s: string, found: seq<Anchor>, rest: string)
    requires NextPicture(s) == Some((found, rest)) && PicturesThenMarks(rest) == []
    ensures PicturesThenMarks(s) == found
  {
    hide NextPicture;
    assert found + [] == found;
  }

  lemma NoPicture(s: string)
    requires 'P' !in s
    ensures PicturesThenMarks(s) == []
  {
    AfterMisses("Picture ", s);
  }

  lemma Nested(a: string, p: string, one: string, f: string, h: string, b: string, w: string, z: string, x: string,
               two: string, n: string, m: string, l: string)
    ensures a + (p + (one + f + h + (one + b + w))) + z + x + (p + (two + f + h)) + n + (b + w) + m + l
            == a + p + (one + f + h + (one + b + w + (z + x + p + (two + f + h + (n + b + w + (m + l))))))
  {
  }

  lemma LastFrameHeader(final: nat, closing: string)
    requires 'P' !in closing && '\n' !in closing
    ensures var header := ALIGNED + ("<Picture 1> (from " + "[Shot ") + Digits(final) + "]) aligns with the " + closing + LAST_MARK;
      && PicturesThenMarks(header) == AnchorOf(Some(1), Some(final), MarkAt(closing + LAST_MARK))
      && Opens(header, "How the reference pictures align")
  {
    hide MarkAt, AnchorOf, NextPicture, Digits, PicturesThenMarks, Opens;
    LastFrameOpens(Digits(final), closing);
    AlignedWords();
    LastMarkWords();
    LastWords();
    BracketWords();
    hide ALIGNED, LAST_MARK;
    OneDigit();
    var n, last := Digits(final), closing + LAST_MARK;
    Flattened(ALIGNED, "<", "Picture ", "1", "> (from [", "Shot ", n, "]) ", "aligns with the ", closing, LAST_MARK);
    PictureReads(ALIGNED + "<", 1, "> (from [", final, "]) ", last);
    NoPicture(last);
    ThenNone((ALIGNED + "<") + "Picture " + ("1" + "> (from [" + "Shot " + (n + "]) " + "aligns with the " + last)),
             AnchorOf(Some(1), Some(final), MarkAt(last)), last);
  }

  lemma LastFrameOpens(n: string, closing: string)
    requires '\n' !in closing && forall c | c in n :: IsNumeral(c)
    ensures Opens(ALIGNED + ("<Picture 1> (from " + "[Shot ") + n + "]) aligns with the " + closing + LAST_MARK,
                  "How the reference pictures align")
  {
    AlignedWords();
    LastMarkWords();
    LastWords();
    BracketWords();
    hide ALIGNED, LAST_MARK, Opens;
    var words, from, upto := "How the reference pictures align", "<Picture 1> (from " + "[Shot ", "]) aligns with the ";
    assert '\n' !in n;
    OpensLonger(ALIGNED, from, words);
    OpensLonger(ALIGNED + from, n, words);
    OpensLonger(ALIGNED + from + n, upto, words);
    OpensLonger(ALIGNED + from + n + upto, closing, words);
    OpensLonger(ALIGNED + from + n + upto + closing, LAST_MARK, words);
  }

  lemma OpensLonger(line: string, rest: string, words: string)
    requires Opens(line, words) && '\n' !in rest
    ensures Opens(line + rest, words)
  {
    assert (line + rest)[..|words|] == line[..|words|];
  }

  lemma Flattened(a: string, o: string, p: string, one: string, f: string, h: string, n: string, b: string, w: string, m: string, l: string)
    ensures a + (o + p + (one + f + h)) + n + (b + w) + m + l == (a + o) + p + (one + f + h + (n + b + w + (m + l)))
  {
  }

  lemma FirstLineIs(line: string, rest: string)
    requires '\n' !in line && (rest == "" || rest[0] == '\n')
    ensures FirstLine(line + rest) == line
  {
    var text := line + rest;
    forall j: nat | j < |line| ensures !Occurs("\n", text, j) {
      if Occurs("\n", text, j) { FirstCharacter("\n", text, j); }
    }
    if rest == "" {
      AfterMisses("\n", text);
    } else {
      assert text[|line|..|line| + 1] == "\n";
      FindIsFirst("\n", text, |line|);
    }
  }

  lemma NoAnchors(text: string)
    requires text != "" && text[0] !in {'F', 'H', '\n'}
    ensures ReadAnchors(text) == []
  {
    if Find("\n", text) == Some(0) { FirstCharacter("\n", text, 0); }
  }

  /** The anchors a prompt of its mode is to state. */
  predicate Anchored(p: StructuredPrompt, read: seq<Anchor>)
    requires |p.shots| >= 1
  {
    var final := p.shots[|p.shots| - 1].number;
    match p.mode
    case T2VA => read == []
    case Ref2VA => read == []
    case I2VA => read == [Anchor(1, 1, 0)]
    case FL2VA => |read| == 2 && read[0] == Anchor(1, 1, 0)
                  && read[1].picture == 2 && read[1].shot == final && States(read[1].hundredths, p.duration)
    case L2VA => |read| == 1 && read[0].picture == 1 && read[0].shot == final && States(read[0].hundredths, p.duration)
  }

  /** The first line of the wire text tells the pictures of a keyframe mode, and is read back
      without the renderer: the opening picture in the first shot at zero, the closing one in the
      final shot at the duration. The other modes anchor nothing. */
  lemma HeaderReadsBack(p: StructuredPrompt)
    requires ValidFields(p) && RenderPrompt(p).Ok?
    ensures Anchored(p, ReadAnchors(RenderPrompt(p).value))
  {
    hide RenderPrompt, CallerTextInert, FormatMark, Digits, RoundHalfEven, ReadAnchors, Body, ALIGNED, FIRST_PICTURE, NEXT_MARK,
         SECOND_PICTURE, LAST_MARK, AT_OPENING, INTO_VIDEO, FULLY_REFERENCED, MarkAt, PicturesThenMarks, MarkThenPicture, Opens;
    OneDigit();
    RenderedIs(p);
    var header, body, final := AlignmentHeader(p).value, Body(p).value, p.shots[|p.shots| - 1];
    assert ValidShot(final) && final.number >= 1;
    hide ValidShot;
    BodyBegins(p);
    if p.mode in {T2VA, Ref2VA} {
      NoAnchors(body);
    } else {
      MarksPlain(0.0);
      MarksPlain(p.duration);
      if p.mode == I2VA {
        MarkReads(0.0, INTO_VIDEO + ("<Picture 1> (from " + FULLY_REFERENCED));
        FirstFrameHeader(FormatMark(0.0));
        LineReads(header, body, "For the target video");
      } else if p.mode == FL2VA {
        var n := Digits(final.number);
        MarkReads(0.0, NEXT_MARK + "Picture " + ("2" + " (from " + "Shot " + (n + ") " + "aligns with the " + (FormatMark(p.duration) + LAST_MARK))));
        MarkReads(p.duration, LAST_MARK);
        BothFramesHeader(FormatMark(0.0), final.number, FormatMark(p.duration));
        LineReads(header, body, "How the reference pictures align");
      } else {
        MarkReads(p.duration, LAST_MARK);
        LastFrameHeader(final.number, FormatMark(p.duration));
        LineReads(header, body, "How the reference pictures align");
      }
    }
  }

  lemma MarksPlain(seconds: real)
    requires seconds >= 0.0
    ensures 'P' !in FormatMark(seconds) && '\n' !in FormatMark(seconds)
  {
    MarkHolds(seconds, 'P');
    MarkHolds(seconds, '\n');
  }

  lemma LineReads(header: string, body: string, words: string)
    requires Opens(header, words) && words in {"For the target video", "How the reference pictures align"}
    ensures ReadAnchors(Headed(header, body))
            == if words == "For the target video" then MarkThenPicture(header) else PicturesThenMarks(header)
  {
    hide MarkThenPicture, PicturesThenMarks;
    FirstLineIs(header, SECTION_SEPARATOR + body);
    assert header + SECTION_SEPARATOR + body == header + (SECTION_SEPARATOR + body);
    assert header[0] == words[0];
  }

  lemma BodyBegins(p: StructuredPrompt)
    requires ValidFields(p) && Body(p).Ok?
    ensures Body(p).value != "" && Body(p).value[0] == if p.mode == Ref2VA then 's' else 'i'
  {
    hide ValidShot, ValidDefinition, ValidRetention, Timeline;
  }
}
