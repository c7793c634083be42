/** Reading the dialogue of a rendered prompt back from its wire text. */
module DialogueLaws {
  import opened Prelude
  import opened Text
  import opened Decimal
  import opened Grammar
  import opened Prompts
  import opened CutTimes
  import opened Validation
  import opened Containment
  import opened Render
  import opened Pieces
  import opened RenderLaws
  import opened Scanner

  predicate Quiet(s: string) {
    !Contains(s, DIALOGUE_OPEN)
  }

  predicate IsDelimiter(pat: string) {
    pat == DIALOGUE_OPEN || pat == DIALOGUE_CLOSE
  }

  predicate Lacks(s: string, pat: string) {
    !Contains(s, pat)
  }

  predicate OptionLacks(s: Option<string>, pat: string) {
    s.Some? ==> Lacks(s.value, pat)
  }

  ghost predicate AllLack(parts: seq<string>, pat: string) {
    forall k | 0 <= k < |parts| :: Lacks(parts[k], pat)
  }

  /** The spans of a shot that the service writes outside dialogue delimiters. */
  ghost predicate ShotLacks(shot: Shot, pat: string) {
    && Lacks(shot.description, pat) && OptionLacks(shot.style, pat) && OptionLacks(shot.cutPhrase, pat)
    && (shot.camera.Some? ==> OptionLacks(shot.camera.value.amplitude, pat) && OptionLacks(shot.camera.value.speed, pat))
    && (forall j | 0 <= j < |shot.dialogue| :: Lacks(shot.dialogue[j].identity, pat))
  }

  ghost predicate ShotQuiet(shot: Shot) {
    ShotLacks(shot, DIALOGUE_OPEN)
  }

  /** The free texts of the sections before the shots. */
  ghost predicate ReferenceQuiet(p: StructuredPrompt) {
    && (forall k | 0 <= k < |p.definitions| :: Quiet(p.definitions[k].definition))
    && (p.summary.Some? ==> Quiet(p.summary.value.text))
    && (forall k | 0 <= k < |p.retention| :: Quiet(p.retention[k].scope) && Quiet(p.retention[k].detail))
  }

  /** The sections around the timeline. */
  ghost predicate SectionsQuiet(p: StructuredPrompt) {
    Quiet(p.soundscape) && Quiet(p.music) && ReferenceQuiet(p)
  }

  /** Spans with a closed vocabulary in the full-reference sections. */
  ghost predicate VocabularyQuiet(p: StructuredPrompt) {
    && (p.summary.Some? ==> forall k | 0 <= k < |p.summary.value.taskTypes| :: Quiet(p.summary.value.taskTypes[k]))
    && (forall k | 0 <= k < |p.retention| :: Quiet(p.retention[k].marker))
  }

  ghost predicate ServiceQuiet(p: StructuredPrompt) {
    && (forall i | 0 <= i < |p.shots| :: ShotQuiet(p.shots[i]))
    && SectionsQuiet(p) && VocabularyQuiet(p)
  }

  ghost predicate LineSealed(line: DialogueLine) {
    !Contains(line.language, DIALOGUE_CLOSE)
  }

  /** No language tag closes the dialogue it stands in. */
  ghost predicate LanguagesSealed(p: StructuredPrompt) {
    forall i | 0 <= i < |p.shots| :: forall j | 0 <= j < |p.shots[i].dialogue| :: LineSealed(p.shots[i].dialogue[j])
  }

  // ------------------------------------------------------------ small texts

  predicate Angleless(s: string) {
    '<' !in s
  }

  lemma AnglelessIsQuiet(s: string)
    requires Angleless(s)
    ensures Quiet(s) && NoOpening(s)
  {
    assert DIALOGUE_OPEN[0] == '<';
    if Contains(s, DIALOGUE_OPEN) { ContainsChar(s, DIALOGUE_OPEN); }
  }

  lemma NumeralsAreAngleless(n: nat, width: nat)
    ensures Angleless(Digits(n)) && Angleless(Padded(n, width))
  {
    hide Digits, Padded;
    forall k | 0 <= k < |Digits(n)| ensures Digits(n)[k] != '<' { assert Digits(n)[k] in Digits(n); }
    forall k | 0 <= k < |Padded(n, width)| ensures Padded(n, width)[k] != '<' { assert Padded(n, width)[k] in Padded(n, width); }
  }

  lemma CutTimeIsAngleless(seconds: real)
    requires seconds >= 0.0
    ensures Angleless(FormatCutTime(seconds))
  {
    hide Digits, Padded;
    var total: nat := Milliseconds(seconds);
    NumeralsAreAngleless(total / 60000, 2);
    NumeralsAreAngleless(total % 60000 / 1000, 2);
    NumeralsAreAngleless(total % 60000 % 1000, 3);
  }

  lemma {:induction false} JoinIsAngleless(sep: string, parts: seq<string>)
    requires Angleless(sep) && forall k | 0 <= k < |parts| :: Angleless(parts[k])
    ensures Angleless(Join(sep, parts))
  {
    if |parts| <= 1 {
    } else {
      JoinIsAngleless(sep, parts[1..]);
      assert Angleless(parts[0]);
    }
  }

  lemma SpeakerIdIsAngleless(s: string)
    requires IsSpeakerId(s)
    ensures Angleless(s)
  {
    var parts := Split(s, ',');
    JoinSplit(s, ',');
    forall k | 0 <= k < |parts| ensures Angleless(parts[k]) {
      assert IsSpeaker(parts[k]);
    }
    hide IsSpeaker;
    JoinIsAngleless(",", parts);
  }

  /** A reference label is no delimiter, whatever follows it. */
  lemma LabelHasNoOpening(s: string)
    requires IsLabel(s)
    ensures NoOpening(s) && Lacks(s, DIALOGUE_CLOSE)
  {
    hide LabelOf;
    var k :| 0 <= k < |REFERENCE_LABEL_KINDS| && LabelOf(s, "<" + REFERENCE_LABEL_KINDS[k] + " ");
    var kind := REFERENCE_LABEL_KINDS[k];
    assert Angleless(kind) && kind != "" && kind[0] !in {'d', '/'};
    LabelShape(s, kind);
  }

  lemma LabelShape(s: string, kind: string)
    requires LabelOf(s, "<" + kind + " ") && Angleless(kind) && kind != "" && kind[0] !in {'d', '/'}
    ensures NoOpening(s) && Lacks(s, DIALOGUE_CLOSE)
  {
    var open := "<" + kind + " ";
    var tail := s[|open|..|s| - 1];
    forall i | 1 <= i < |s| ensures s[i] != '<' {
      if i < |open| {
        assert s[i] == open[i];
      } else if i < |s| - 1 {
        assert s[i] == tail[i - |open|];
      }
    }
    assert s[1] == open[1];
    forall i: nat ensures !Occurs(DIALOGUE_CLOSE, s, i) {
      if Occurs(DIALOGUE_CLOSE, s, i) { ClosingShape(s, i); }
    }
  }

  lemma ClosingShape(s: string, i: nat)
    requires Occurs(DIALOGUE_CLOSE, s, i)
    ensures i + 1 < |s| && s[i] == '<' && s[i + 1] == '/'
  {
    OccursAt(DIALOGUE_CLOSE, s, i);
  }

  // ------------------------------------------------------------------ clauses

  lemma LeadQuiet(line: DialogueLine)
    requires ValidLine(line) && Quiet(line.identity)
    ensures Quiet(Lead(line))
  {
    hide Contains, Strip, IsSpeakerId;
    var speaker := "(" + line.speakerId + ")";
    SpeakerIdIsAngleless(line.speakerId);
    AnglelessIsQuiet(speaker);
    if line.identity != "" {
      FreeAcross(DIALOGUE_OPEN, line.identity, " ", speaker);
      if !Quiet(Lead(line)) { StripFree(line.identity + " " + speaker, DIALOGUE_OPEN); }
    }
  }

  lemma LeadYields(line: DialogueLine)
    requires ValidLine(line) && Quiet(line.identity)
    ensures Yields(Lead(line), [])
  {
    hide Contains, Yields, Lead, IsSpeakerId;
    LeadQuiet(line);
    FreeYields(Lead(line));
  }

  lemma SpokenSealed(line: DialogueLine)
    ensures Contains(Spoken(line), DIALOGUE_CLOSE)
            <==> Contains(line.language, DIALOGUE_CLOSE) || Contains(line.text, DIALOGUE_CLOSE)
  {
    hide Contains;
    FreeAcross(DIALOGUE_CLOSE, "[" + line.language, "] ", line.text);
    FreeAcross(DIALOGUE_CLOSE, "", "[", line.language);
    assert "" + "[" + line.language == "[" + line.language;
    assert Spoken(line) == "[" + line.language + "] " + line.text;
    EmptyHolds(DIALOGUE_CLOSE);
  }

  lemma EmptyHolds(pat: string)
    requires pat != ""
    ensures !Contains("", pat)
  {
  }

  lemma InertIsQuiet(v: string)
    requires Inert(v)
    ensures Quiet(v) && !Contains(v, DIALOGUE_CLOSE)
  {
    hide Contains;
    ContainsExactly(v, DIALOGUE_OPEN);
    ContainsExactly(v, DIALOGUE_CLOSE);
    assert FORBIDDEN_MARKERS[0] == DIALOGUE_OPEN && FORBIDDEN_MARKERS[1] == DIALOGUE_CLOSE;
    assert IsMarker(DIALOGUE_OPEN) && IsMarker(DIALOGUE_CLOSE);
    assert IsToken(DIALOGUE_OPEN) && IsToken(DIALOGUE_CLOSE);
  }

  lemma SuffixCloses(s: string, x: seq<string>, lit: string)
    requires Closed(s, x) && NoOpening(lit)
    ensures Closed(s + lit, x)
  {
    hide Scan;
    PlainCloses(lit);
    ClosedThenClosed(s, x, lit, []);
    assert x + [] == x;
  }

  /** A clause yields its line. */
  lemma ClauseYields(line: DialogueLine)
    requires ValidLine(line) && Quiet(line.identity) && LineSealed(line) && Inert(line.text)
    ensures Yields(DialogueClause(line), [Spoken(line)])
  {
    hide Contains, Closed, Yields, Lead, Inert, IsSpeakerId, Spoken;
    LeadYields(line);
    InertIsQuiet(line.text);
    SpokenSealed(line);
    UtteranceCloses(Spoken(line));
    var verb := " " + (if line.voiceover then VOICEOVER_PHRASE else "says") + ": ";
    VerbIsLiteral(line);
    Sealed(Lead(line), [], verb);
    ClosedThenClosed(Lead(line) + verb, [], Utterance(line), [Spoken(line)]);
    var head := Lead(line) + " " + (if line.voiceover then VOICEOVER_PHRASE else "says") + ": ";
    assert Lead(line) + verb == head;
    assert [] + [Spoken(line)] == [Spoken(line)];
    TailCloses(line, head + Utterance(line));
  }

  lemma VerbIsLiteral(line: DialogueLine)
    ensures Literal(" " + (if line.voiceover then VOICEOVER_PHRASE else "says") + ": ")
  {
  }

  lemma TailLiterals()
    ensures Angleless("") && Angleless(LIPS_CLOSED) && Angleless(CONTINUES) && Angleless(CUT_OFF)
    ensures NoOpening("") && NoOpening(LIPS_CLOSED) && NoOpening(CONTINUES) && NoOpening(CUT_OFF)
  {
    AnglelessIsQuiet("");
    AnglelessIsQuiet(LIPS_CLOSED);
    AnglelessIsQuiet(CONTINUES);
    AnglelessIsQuiet(CUT_OFF);
  }

  lemma TailCloses(line: DialogueLine, clause: string)
    requires Closed(clause, [Spoken(line)])
    ensures Yields(clause + (if line.voiceover then LIPS_CLOSED else "")
                   + (if line.continuesAcrossCut then CONTINUES else "")
                   + (if line.truncatedByEnd then CUT_OFF else ""), [Spoken(line)])
  {
    hide Closed, Yields, Spoken, NoOpening;
    var a := if line.voiceover then LIPS_CLOSED else "";
    var b := if line.continuesAcrossCut then CONTINUES else "";
    var c := if line.truncatedByEnd then CUT_OFF else "";
    TailLiterals();
    SuffixCloses(clause, [Spoken(line)], a);
    SuffixCloses(clause + a, [Spoken(line)], b);
    SuffixCloses(clause + a + b, [Spoken(line)], c);
    ClosedYields(clause + a + b + c, [Spoken(line)]);
  }

  // -------------------------------------------------------------------- shots

  lemma AnglelessLacks(s: string, pat: string)
    requires Angleless(s) && IsDelimiter(pat)
    ensures Lacks(s, pat)
  {
    hide Contains;
    assert pat[0] == '<';
    if Contains(s, pat) { ContainsChar(s, pat); }
  }

  /** A text the renderer puts between spans: no character of a delimiter. */
  predicate Neutral(s: string) {
    s != "" && forall c | c in s :: c !in DIALOGUE_CLOSE && c !in DIALOGUE_OPEN
  }

  lemma LacksCat(a: string, sep: string, b: string, pat: string)
    requires Neutral(sep) && IsDelimiter(pat)
    ensures Lacks(a + sep + b, pat) <==> Lacks(a, pat) && Lacks(b, pat)
  {
    hide Contains;
    FreeAcross(pat, a, sep, b);
  }

  lemma {:induction false} JoinLacks(sep: string, parts: seq<string>, pat: string)
    requires Neutral(sep) && IsDelimiter(pat) && AllLack(parts, pat)
    ensures Lacks(Join(sep, parts), pat)
  {
    hide Neutral, Lacks, IsDelimiter;
    if |parts| == 0 {
      AnglelessLacks("", pat);
    } else if |parts| == 1 {
    } else {
      JoinLacks(sep, parts[1..], pat);
      LacksCat(parts[0], sep, Join(sep, parts[1..]), pat);
    }
  }

  lemma NeutralMarks()
    ensures Neutral(" ") && Neutral("\"") && Neutral(".") && Neutral(",")
  {
  }

  /** A span with a mark after it. */
  lemma MarkedLacks(s: string, mark: string, pat: string)
    requires Lacks(s, pat) && Neutral(mark) && IsDelimiter(pat)
    ensures Lacks(s + mark, pat)
  {
    hide Lacks, Neutral, IsDelimiter;
    AnglelessLacks("", pat);
    LacksCat(s, mark, "", pat);
    assert s + mark + "" == s + mark;
  }

  lemma CameraLacks(shot: Shot, pat: string)
    requires ShotLacks(shot, pat) && IsDelimiter(pat) && CameraSentence(shot).Ok?
    ensures Lacks(CameraSentence(shot).value, pat)
  {
    hide Lacks, MotionPhrase, IsDelimiter, Neutral, Join;
    if shot.camera.Some? {
      var c := shot.camera.value;
      AnglelessLacks(MotionPhrase(c.motion).value, pat);
      AnglelessLacks("The camera", pat);
      NeutralMarks();
      var parts := ["The camera", MotionPhrase(c.motion).value] + Modifier(c.amplitude) + Modifier(c.speed);
      JoinLacks(" ", parts, pat);
      MarkedLacks(Join(" ", parts), ".", pat);
    } else {
      AnglelessLacks("", pat);
    }
  }

  lemma ShownLacks(v: string, pat: string)
    requires Inert(v) && IsDelimiter(pat)
    ensures Lacks("\"" + v + "\"", pat)
  {
    hide Contains, Inert, Neutral;
    InertIsQuiet(v);
    NeutralMarks();
    AnglelessLacks("", pat);
    LacksCat("", "\"", v, pat);
    assert "" + "\"" + v == "\"" + v;
    MarkedLacks("\"" + v, "\"", pat);
  }

  lemma ScreenLacks(shot: Shot, pat: string)
    requires IsDelimiter(pat) && forall j | 0 <= j < |shot.onScreenText| :: Inert(shot.onScreenText[j])
    ensures Lacks(ScreenClause(shot), pat)
  {
    hide Lacks, Inert, Neutral, IsDelimiter, Join;
    if shot.onScreenText == [] {
      AnglelessLacks("", pat);
    } else {
      var parts := Quoted(shot.onScreenText);
      forall k | 0 <= k < |parts| ensures Lacks(parts[k], pat) { ShownLacks(shot.onScreenText[k], pat); }
      NeutralMarks();
      JoinLacks(" ", parts, pat);
      AnglelessLacks("On-screen text reads", pat);
      LacksCat("On-screen text reads", " ", Join(" ", parts), pat);
      assert "On-screen text reads" + " " == "On-screen text reads ";
      MarkedLacks("On-screen text reads " + Join(" ", parts), ".", pat);
    }
  }

  lemma OpeningLacks(shot: Shot, isOpening: bool, pat: string)
    requires ValidShot(shot) && (isOpening || shot.cutAt.Some?) && ShotLacks(shot, pat) && IsDelimiter(pat)
    ensures AllLack(Opening(shot, isOpening), pat)
  {
    hide Lacks, IsLabel, ValidLine, Digits, FormatCutTime, Neutral, IsDelimiter;
    NeutralMarks();
    NumeralsAreAngleless(shot.number, 1);
    AnglelessLacks("[Shot " + Digits(shot.number) + "]", pat);
    if isOpening {
      if shot.style.Some? { MarkedLacks(shot.style.value, ",", pat); }
    } else {
      CutTimeIsAngleless(shot.cutAt.value);
      AnglelessLacks("At " + FormatCutTime(shot.cutAt.value) + ",", pat);
    }
  }

  ghost predicate ShotInert(shot: Shot) {
    && (forall j | 0 <= j < |shot.dialogue| :: Inert(shot.dialogue[j].text))
    && (forall j | 0 <= j < |shot.onScreenText| :: Inert(shot.onScreenText[j]))
  }

  ghost predicate ShotSealed(shot: Shot) {
    forall j | 0 <= j < |shot.dialogue| :: LineSealed(shot.dialogue[j])
  }

  function ShotHeadParts(shot: Shot, isOpening: bool, camera: string): seq<string>
    requires ValidShot(shot) && (isOpening || shot.cutAt.Some?)
  {
    Opening(shot, isOpening) + Modifier(Some(camera)) + Modifier(Some(ScreenClause(shot)))
  }

  lemma HeadPartsYield(shot: Shot, isOpening: bool, camera: string)
    requires ValidShot(shot) && (isOpening || shot.cutAt.Some?) && ShotQuiet(shot) && ShotInert(shot)
    requires CameraSentence(shot) == Ok(camera)
    ensures forall k | 0 <= k < |ShotHeadParts(shot, isOpening, camera)| :: Yields(ShotHeadParts(shot, isOpening, camera)[k], [])
  {
    hide Contains, Yields, Inert, Opening, CameraSentence, ScreenClause, ValidShot;
    OpeningLacks(shot, isOpening, DIALOGUE_OPEN);
    CameraLacks(shot, DIALOGUE_OPEN);
    ScreenLacks(shot, DIALOGUE_OPEN);
    var parts := ShotHeadParts(shot, isOpening, camera);
    forall k | 0 <= k < |parts| ensures Yields(parts[k], []) {
      assert parts[k] in Opening(shot, isOpening) || parts[k] in {camera, ScreenClause(shot)};
      FreeYields(parts[k]);
    }
  }

  /** A shot yields its lines in order. */
  lemma ShotYields(shot: Shot, isOpening: bool)
    requires ValidShot(shot) && ShotQuiet(shot) && ShotInert(shot) && ShotSealed(shot)
    requires ShotText(shot, isOpening).Ok?
    ensures Yields(ShotText(shot, isOpening).value, SpokenLines(shot.dialogue))
  {
    hide Contains, Yields, Inert, IsLabel, LineSealed, Opening, CameraSentence, ScreenClause, DialogueClause, Spoken, ValidLine;
    var camera := CameraSentence(shot).value;
    var head := ShotHeadParts(shot, isOpening, camera);
    var spoken := SpokenLines(shot.dialogue);
    var parts, all := head + Clauses(shot.dialogue), Silent(|head|) + Singles(spoken);
    assert parts == ShotParts(shot, isOpening, camera);
    HeadPartsYield(shot, isOpening, camera);
    hide ShotHeadParts;
    forall k | 0 <= k < |parts| ensures Yields(parts[k], all[k]) {
      if k >= |head| { ClauseYields(shot.dialogue[k - |head|]); }
    }
    JoinYields(" ", parts, all);
    FlatCat(Silent(|head|), Singles(spoken));
    FlatSilent(|head|);
    FlatSingles(spoken);
    assert Flat(all) == spoken;
  }

  lemma TimelineYields(p: StructuredPrompt)
    requires ValidFields(p) && Timeline(p).Ok? && CallerTextInert(p) && LanguagesSealed(p)
    requires forall i | 0 <= i < |p.shots| :: ShotQuiet(p.shots[i])
    ensures Yields(Timeline(p).value, SpokenIn(p))
  {
    hide Yields, ShotText, ShotQuiet, LineSealed, Inert, ValidShot;
    var texts := ShotTexts(p.shots, |p.shots|).value;
    ShotTextsExact(p.shots, |p.shots|);
    forall k | 0 <= k < |texts| ensures Yields(texts[k], SpokenShots(p.shots)[k]) {
      ShotYields(p.shots[k], k == 0);
    }
    JoinYields(" ", texts, SpokenShots(p.shots));
  }

  // ------------------------------------------------------------------- header

  lemma NoOpeningIsQuiet(s: string)
    requires NoOpening(s)
    ensures Quiet(s)
  {
    if Contains(s, DIALOGUE_OPEN) {
      var i: nat :| i <= |s| && Occurs(DIALOGUE_OPEN, s, i);
      OpensAt(s, i);
    }
  }

  lemma NoOpeningCat(a: string, b: string)
    requires NoOpening(a) && NoOpening(b)
    ensures NoOpening(a + b)
  {
  }

  lemma MarkIsAngleless(seconds: real)
    requires seconds >= 0.0
    ensures Angleless(FormatMark(seconds))
  {
    hide Digits, Padded;
    var hundredths: nat := RoundHalfEven(seconds * 100.0);
    NumeralsAreAngleless(hundredths / 100, 2);
    NumeralsAreAngleless(hundredths % 100, 2);
  }

  lemma HeaderNoOpening(p: StructuredPrompt)
    requires ValidFields(p) && AlignmentHeader(p).Ok?
    ensures NoOpening(AlignmentHeader(p).value)
  {
    hide Expressible, FormatMark, Digits, NoOpening, Angleless;
    MarkIsAngleless(0.0);
    MarkIsAngleless(p.duration);
    var final := p.shots[|p.shots| - 1];
    assert ValidShot(final);
    hide ValidShot;
    NumeralsAreAngleless(final.number, 1);
    AnglelessIsQuiet(FormatMark(0.0));
    AnglelessIsQuiet(FormatMark(p.duration));
    AnglelessIsQuiet(Digits(final.number));
    HeaderLiterals();
    var zero, mark, n := FormatMark(0.0), FormatMark(p.duration), Digits(final.number);
    if p.mode == I2VA {
      Three(AT_OPENING, zero, INTO_VIDEO);
      NoOpeningCat(AT_OPENING + zero + INTO_VIDEO, "<Picture 1> (from " + FULLY_REFERENCED);
    } else if p.mode == FL2VA {
      Three(ALIGNED, FIRST_PICTURE, zero);
      Three(ALIGNED + FIRST_PICTURE + zero, NEXT_MARK, SECOND_PICTURE);
      Three(ALIGNED + FIRST_PICTURE + zero + NEXT_MARK + SECOND_PICTURE, n, ") aligns with the ");
      Three(ALIGNED + FIRST_PICTURE + zero + NEXT_MARK + SECOND_PICTURE + n + ") aligns with the ", mark, LAST_MARK);
    } else if p.mode == L2VA {
      Three(ALIGNED, "<Picture 1> (from " + "[Shot ", n);
      Three(ALIGNED + ("<Picture 1> (from " + "[Shot ") + n, "]) aligns with the ", mark);
      NoOpeningCat(ALIGNED + ("<Picture 1> (from " + "[Shot ") + n + "]) aligns with the " + mark, LAST_MARK);
    } else {
      assert NoOpening("") by { AnglelessIsQuiet(""); }
    }
  }

  lemma Three(a: string, b: string, c: string)
    requires NoOpening(a) && NoOpening(b) && NoOpening(c)
    ensures NoOpening(a + b + c)
  {
    NoOpeningCat(a, b);
    NoOpeningCat(a + b, c);
  }

  lemma PictureOpens(after: string)
    requires Angleless(after)
    ensures NoOpening("<Picture 1> (from " + after)
  {
    var s := "<Picture 1> (from " + after;
    assert s[1] == 'P' && Angleless("Picture 1> (from ") && s == "<" + "Picture 1> (from " + after;
    forall j | 1 <= j < |s| ensures s[j] != '<' {
      if j < 18 { assert s[j] == "Picture 1> (from "[j - 1]; } else { assert s[j] == after[j - 18]; }
    }
  }

  lemma HeaderLiterals()
    ensures NoOpening(AT_OPENING) && NoOpening(INTO_VIDEO) && NoOpening("<Picture 1> (from " + FULLY_REFERENCED)
    ensures NoOpening("<Picture 1> (from " + "[Shot ") && NoOpening(ALIGNED) && NoOpening(FIRST_PICTURE)
    ensures NoOpening(SECOND_PICTURE) && NoOpening(") aligns with the ") && NoOpening("]) aligns with the ")
    ensures NoOpening(NEXT_MARK) && NoOpening(LAST_MARK)
  {
    hide NoOpening, AT_OPENING, INTO_VIDEO, FULLY_REFERENCED, ALIGNED, FIRST_PICTURE, SECOND_PICTURE, NEXT_MARK, LAST_MARK;
    PictureOpens(FULLY_REFERENCED);
    PictureOpens("[Shot ");
    AnglelessIsQuiet(AT_OPENING);
    AnglelessIsQuiet(INTO_VIDEO);
    AnglelessIsQuiet(ALIGNED);
    AnglelessIsQuiet(FIRST_PICTURE);
    AnglelessIsQuiet(SECOND_PICTURE);
    AnglelessIsQuiet(NEXT_MARK);
    AnglelessIsQuiet(LAST_MARK);
    AnglelessIsQuiet(") aligns with the ");
    AnglelessIsQuiet("]) aligns with the ");
  }

  lemma WholeYields(s: string, x: seq<string>)
    requires Yields(s, x)
    ensures Scan(s) == x
  {
    assert s + "" == s;
    assert Scan(s + "") == x + Scan("");
    EmptyHolds(DIALOGUE_OPEN);
  }

  // -------------------------------------------------------------- round trips

  lemma UnsealedIsLost(p: StructuredPrompt, wire: string)
    requires !LanguagesSealed(p)
    ensures Scan(wire) != SpokenIn(p)
  {
    hide Contains, Scan;
    var i :| 0 <= i < |p.shots| && !(forall j | 0 <= j < |p.shots[i].dialogue| :: LineSealed(p.shots[i].dialogue[j]));
    var j :| 0 <= j < |p.shots[i].dialogue| && !LineSealed(p.shots[i].dialogue[j]);
    var line := p.shots[i].dialogue[j];
    SpokenSealed(line);
    assert SpokenLines(p.shots[i].dialogue)[j] == Spoken(line);
    FlatPoint(SpokenShots(p.shots), i, Spoken(line));
    var k :| 0 <= k < |SpokenIn(p)| && SpokenIn(p)[k] == Spoken(line);
    assert k < |Scan(wire)| ==> !Contains(Scan(wire)[k], DIALOGUE_CLOSE);
  }

  // ---------------------------------------------------------- accepted prompts

  lemma {:induction false} LineDelimitersNone(lines: seq<DialogueLine>, i: nat, n: nat)
    requires n <= |lines| && LineDelimiters(lines, i, n) == []
    ensures forall j | 0 <= j < n :: !Delimited(lines[j].identity)
  {
    hide Delimited, LineField;
    if n == 0 {
    } else {
      LineDelimitersNone(lines, i, n - 1);
    }
  }

  lemma VocabularyLacks(value: Option<string>, values: seq<Plain>, pat: string)
    requires !Outside(value, values) && IsDelimiter(pat)
    ensures OptionLacks(value, pat)
  {
    hide Lacks, IsDelimiter;
    if value.Some? { AnglelessLacks(value.value, pat); }
  }

  /** The checks leave neither delimiter in the spans of a shot. */
  lemma AcceptedShotLacks(p: StructuredPrompt, i: nat, pat: string)
    requires Accepted(p) && i < |p.shots| && IsDelimiter(pat)
    ensures ShotLacks(p.shots[i], pat)
  {
    hide Contains, Clean, ShotField, ValidFields, OptionLacks, Outside, At, Length, IsDelimiter;
    assert i < Length(Delimiters, p) && i < Length(CutPhraseValues, p) && i < Length(StyleOnce, p)
           && i < Length(CameraValues, p) by { LengthIsShots(p); }
    AcceptedAt(p, Delimiters, i);
    AcceptedAt(p, CutPhraseValues, i);
    AcceptedAt(p, StyleOnce, i);
    AcceptedAt(p, CameraValues, i);
    DescriptionsLack(p, i, pat);
    CutPhraseLacks(p, i, pat);
    StyleLacks(p, i, pat);
    CameraVocabularyLacks(p, i, pat);
  }

  lemma LengthIsShots(p: StructuredPrompt)
    ensures Length(Delimiters, p) == Length(CutPhraseValues, p) == Length(StyleOnce, p) == Length(CameraValues, p) == |p.shots|
  {
  }

  lemma DescriptionsLack(p: StructuredPrompt, i: nat, pat: string)
    requires i < |p.shots| && At(Delimiters, p, i) == [] && IsDelimiter(pat)
    ensures Lacks(p.shots[i].description, pat)
    ensures forall j | 0 <= j < |p.shots[i].dialogue| :: Lacks(p.shots[i].dialogue[j].identity, pat)
  {
    hide Contains, ShotField;
    LineDelimitersNone(p.shots[i].dialogue, i, |p.shots[i].dialogue|);
  }

  lemma CutPhraseLacks(p: StructuredPrompt, i: nat, pat: string)
    requires i < |p.shots| && At(CutPhraseValues, p, i) == [] && IsDelimiter(pat)
    ensures OptionLacks(p.shots[i].cutPhrase, pat)
  {
    hide Contains, ShotField, Outside;
    VocabularyLacks(p.shots[i].cutPhrase, CUT_PHRASES, pat);
  }

  lemma CameraVocabularyLacks(p: StructuredPrompt, i: nat, pat: string)
    requires i < |p.shots| && At(CameraValues, p, i) == [] && IsDelimiter(pat)
    ensures var c := p.shots[i].camera; c.Some? ==> OptionLacks(c.value.amplitude, pat) && OptionLacks(c.value.speed, pat)
  {
    hide Contains, ShotField, Outside, MotionPermitted;
    var camera := p.shots[i].camera;
    if camera.Some? {
      VocabularyLacks(camera.value.amplitude, CAMERA_AMPLITUDES, pat);
      VocabularyLacks(camera.value.speed, CAMERA_SPEEDS, pat);
    }
  }

  lemma StyleLacks(p: StructuredPrompt, i: nat, pat: string)
    requires i < |p.shots| && At(StyleOnce, p, i) == [] && IsDelimiter(pat)
    ensures OptionLacks(p.shots[i].style, pat)
  {
    hide Contains, ShotField, Outside;
    if i == 0 { VocabularyLacks(p.shots[0].style, VISUAL_STYLES, pat); }
  }

  lemma AcceptedVocabularyQuiet(p: StructuredPrompt)
    requires Accepted(p)
    ensures VocabularyQuiet(p)
  {
    hide Contains, Clean, ValidFields, RetentionTable;
    if p.mode == Ref2VA {
      var s := p.summary.value;
      forall k | 0 <= k < |s.taskTypes| ensures Quiet(s.taskTypes[k]) {
        AcceptedAt(p, TaskTypeValues, k);
        AnglelessIsQuiet(s.taskTypes[k]);
      }
      forall k | 0 <= k < |p.retention| ensures Quiet(p.retention[k].marker) {
        AcceptedAt(p, RetentionMarkers, k);
        AnglelessIsQuiet(p.retention[k].marker);
      }
    }
  }

  /** In the base modes no check reads the soundscape. */
  lemma {:induction false} SoundscapeUnread(p: StructuredPrompt, q: StructuredPrompt, rule: Rule, n: nat)
    requires p.mode != Ref2VA && q == p.(soundscape := q.soundscape) && Applies(rule, p)
    requires n <= Length(rule, p) && n <= Length(rule, q)
    ensures Collected(rule, p, n) == Collected(rule, q, n)
  {
    hide ShotField, LineDelimiters, Delimited, CameraAt, PreviousCut, Outside;
    if n == 0 {
    } else {
      SoundscapeUnread(p, q, rule, n - 1);
      SameAt(p, q, rule, n - 1);
    }
  }

  lemma SameAt(p: StructuredPrompt, q: StructuredPrompt, rule: Rule, i: nat)
    requires p.mode != Ref2VA && q == p.(soundscape := q.soundscape) && Applies(rule, p)
    requires i < Length(rule, p) && i < Length(rule, q)
    ensures At(rule, p, i) == At(rule, q, i)
  {
    hide ShotField, LineDelimiters, Delimited, PreviousCut, Outside, MotionPermitted, Raise;
  }

  /** One shot that says nothing: its description and its visible texts. */
  function OneShot(description: string, screen: seq<string>): StructuredPrompt {
    StructuredPrompt(T2VA, 5.0, [Shot(1, None, None, Some("Cinematic"), description, None, [], screen, [])],
                     "N/A", "N/A", [], None, [])
  }

  ghost predicate AllInert(texts: seq<string>) {
    forall k | 0 <= k < |texts| :: Inert(texts[k])
  }

  /** Accepted prompts that render and read back exactly do exist: any inert description of
      lawful length, with any inert visible texts, makes one. */
  lemma OneShotIsAccepted(description: string, screen: seq<string>)
    requires Inert(description) && Sized(description, 1, 2000) && AllInert(screen)
    ensures var p := OneShot(description, screen);
      Accepted(p) && RenderPrompt(p).Ok? && SectionsQuiet(p) && LanguagesSealed(p)
  {
    OneShotIsClean(description, screen);
    OneShotIsQuiet(description, screen);
    hide OneShot, Clean, Inert, AllInert;
    AcceptedRendersExactly(OneShot(description, screen));
  }

  lemma OneShotIsQuiet(description: string, screen: seq<string>)
    requires AllInert(screen)
    ensures var p := OneShot(description, screen);
      SectionsQuiet(p) && LanguagesSealed(p) && CallerTextInert(p) && KeyframeExpressible(p)
  {
    hide Contains, Inert;
    AnglelessIsQuiet("N/A");
  }

  lemma OneShotIsClean(description: string, screen: seq<string>)
    requires Inert(description) && Sized(description, 1, 2000)
    ensures var p := OneShot(description, screen); ValidFields(p) && SectionsMatchMode(p) && Clean(p, CHECKS)
  {
    hide Inert, At;
    var p := OneShot(description, screen);
    forall k | 0 <= k < |CHECKS| && Applies(CHECKS[k], p) ensures Found(CHECKS[k], p) == [] {
      OneShotFound(CHECKS[k], description, screen);
    }
  }

  lemma OneShotFound(rule: Rule, description: string, screen: seq<string>)
    requires Inert(description) && Applies(rule, OneShot(description, screen))
    ensures Found(rule, OneShot(description, screen)) == []
  {
    hide Inert, At;
    var p := OneShot(description, screen);
    if rule == SpeakerOrder {
      assert LineMentions([], 0, 0) == [];
      assert Mentions(p.shots, 0) == [];
      assert Mentions(p.shots, 1) == [];
    } else {
      OneShotAt(rule, description, screen);
      assert Collected(rule, p, 1) == Collected(rule, p, 0) + At(rule, p, 0);
    }
  }

  lemma OneShotAt(rule: Rule, description: string, screen: seq<string>)
    requires Inert(description) && Applies(rule, OneShot(description, screen)) && rule != SpeakerOrder
    ensures Length(rule, OneShot(description, screen)) == 1 && At(rule, OneShot(description, screen), 0) == []
  {
    hide ShotField, Inert, Contains;
    assert VISUAL_STYLES[0] == "Cinematic";
    InertIsQuiet(description);
  }
}
