/** A reader of the sections of a wire text that cuts at their titles, from the last one on. */
module SectionLaws {
  import opened Prelude
  import opened Text
  import opened Grammar
  import opened Decimal
  import opened CutTimes
  import opened Prompts
  import opened Containment
  import opened Render
  import opened Pieces
  import opened RenderLaws
  import opened HeaderLaws

  // ------------------------------------------------------------------ reading

  /** Where `words` occurs last in `s`, at `n` at most. */
  function LastAt(words: string, s: string, n: nat): (r: Option<nat>)
    ensures r.Some? ==> r.value <= n && Occurs(words, s, r.value)
    ensures forall j: nat | j <= n && Occurs(words, s, j) :: r.Some? && j <= r.value
  {
    if Occurs(words, s, n) then Some(n) else if n == 0 then None else LastAt(words, s, n - 1)
  }

  /** What stands before and behind the last occurrence. */
  function LastCut(words: string, s: string): Option<(string, string)> {
    match LastAt(words, s, |s|)
    case None => None
    case Some(i) => Some((s[..i], s[i + |words|..]))
  }

  function Title(name: string, gap: string): string {
    name + ":" + gap
  }

  /** The contents of sections with these names, each behind a blank line but the first. */
  function ReadSections(names: seq<string>, gap: string, s: string): Option<seq<string>>
    requires names != []
    decreases |names|
  {
    if |names| == 1 then
      var title := Title(names[0], gap);
      if title <= s then Some([s[|title|..]]) else None
    else
      var n := |names| - 1;
      match LastCut("\n\n" + Title(names[n], gap), s)
      case None => None
      case Some((before, content)) =>
        match ReadSections(names[..n], gap, before)
        case None => None
        case Some(contents) => Some(contents + [content])
  }

  /** A wire text without the header line of a keyframe mode. */
  function WithoutHeader(text: string): string {
    var line := FirstLine(text);
    if ("For the target video" <= line || "How the reference pictures align" <= line) && |line| + 2 <= |text|
    then text[|line| + 2..] else text
  }

  const BASE_NAMES: seq<string> := ["integrated_multimodal_description", "overall_soundscape", "non_diegetic_music"]
  const REFERENCE_NAMES: seq<string> :=
    ["subject_definitions", "summary", "retention_analysis", "detailed_description", "overall_soundscape", "non_diegetic_music"]

  // -------------------------------------------------------------- reading back

  /** The title does not occur again in what it heads. */
  ghost predicate Once(words: string, content: string)
    requires words != ""
  {
    !Contains((words + content)[1..], words)
  }

  lemma Shifted(words: string, a: string, tail: string, j: nat)
    ensures Occurs(words, a + tail, |a| + j) <==> Occurs(words, tail, j)
  {
    if j + |words| <= |tail| { assert (a + tail)[|a| + j..|a| + j + |words|] == tail[j..j + |words|]; }
  }

  lemma CutExactly(words: string, a: string, b: string)
    requires words != ""
    ensures LastCut(words, a + words + b).Some?
    ensures var (before, content) := LastCut(words, a + words + b).value;
      if Once(words, b) then before == a && content == b else |content| < |b|
  {
    var s, tail := a + words + b, words + b;
    assert s == a + tail && tail[..|words|] == words;
    assert Occurs(words, tail, 0);
    Shifted(words, a, tail, 0);
    var i := LastAt(words, s, |s|).value;
    Shifted(words, a, tail, i - |a|);
    if Once(words, b) {
      if i > |a| { Later(words, tail, i - |a|); }
      hide Occurs;
      assert s[..|a|] == a && s[|a| + |words|..] == b;
    } else {
      var k := Again(words, b);
      Shifted(words, a, tail, k);
      hide Occurs;
    }
  }

  lemma Again(words: string, b: string) returns (k: nat)
    requires words != "" && !Once(words, b)
    ensures 0 < k <= |words + b| && Occurs(words, words + b, k)
  {
    var tail := words + b;
    var j: nat :| j <= |tail[1..]| && Occurs(words, tail[1..], j);
    assert tail[1..][j..j + |words|] == tail[j + 1..j + 1 + |words|];
    k := j + 1;
  }

  lemma Later(words: string, s: string, j: nat)
    requires j > 0 && Occurs(words, s, j)
    ensures Contains(s[1..], words)
  {
    assert s[1..][j - 1..j - 1 + |words|] == s[j..j + |words|];
    assert Occurs(words, s[1..], j - 1);
  }

  function Sections(names: seq<string>, gap: string, contents: seq<string>): (r: seq<string>)
    requires |names| == |contents|
    ensures |r| == |names| && forall k | 0 <= k < |r| :: r[k] == Title(names[k], gap) + contents[k]
  {
    seq(|names|, k requires 0 <= k < |names| => Title(names[k], gap) + contents[k])
  }

  ghost predicate TitlesOnce(names: seq<string>, gap: string, contents: seq<string>)
    requires |names| == |contents|
  {
    forall k | 1 <= k < |names| :: Once("\n\n" + Title(names[k], gap), contents[k])
  }

  /** Joined sections read back exactly when no section but the first holds its own title again. */
  lemma {:induction false} SectionsExactly(names: seq<string>, gap: string, contents: seq<string>)
    requires |names| == |contents| && names != []
    ensures ReadSections(names, gap, Join("\n\n", Sections(names, gap, contents))) == Some(contents)
            <==> TitlesOnce(names, gap, contents)
    decreases |names|
  {
    hide Once, LastCut, Title;
    var all := Sections(names, gap, contents);
    if |names| == 1 {
      assert all[0][|Title(names[0], gap)|..] == contents[0];
      assert contents == [contents[0]];
    } else {
      var n := |names| - 1;
      var front, words := Join("\n\n", all[..n]), "\n\n" + Title(names[n], gap);
      assert all == all[..n] + [all[n]];
      JoinAppend("\n\n", all[..n], all[n]);
      assert Join("\n\n", all) == front + words + contents[n];
      assert all[..n] == Sections(names[..n], gap, contents[..n]);
      CutExactly(words, front, contents[n]);
      SectionsExactly(names[..n], gap, contents[..n]);
      assert contents == contents[..n] + [contents[n]];
      LastOnce(names, gap, contents);
      hide TitlesOnce, Sections, Join;
      FrontAndLast(contents, n);
    }
  }

  lemma LastOnce(names: seq<string>, gap: string, contents: seq<string>)
    requires |names| == |contents| && |names| >= 2
    ensures var n := |names| - 1;
      TitlesOnce(names, gap, contents)
      <==> TitlesOnce(names[..n], gap, contents[..n]) && Once("\n\n" + Title(names[n], gap), contents[n])
  {
    hide Once, Title;
  }

  lemma FrontAndLast(contents: seq<string>, n: nat)
    requires |contents| == n + 1
    ensures forall a: seq<string>, b: string :: a + [b] == contents ==> a == contents[..n] && b == contents[n]
  {
    forall a: seq<string>, b: string | a + [b] == contents ensures a == contents[..n] && b == contents[n] {
      assert (a + [b])[..|a|] == a && (a + [b])[|a|] == b;
    }
  }

  // ------------------------------------------------------------------- prompts

  function NamesOf(p: StructuredPrompt): (r: seq<string>)
    ensures |r| == if p.mode == Ref2VA then 6 else 3
  {
    if p.mode == Ref2VA then REFERENCE_NAMES else BASE_NAMES
  }

  function GapOf(p: StructuredPrompt): string {
    if p.mode == Ref2VA then "\n" else " "
  }

  /** What the sections of a prompt are to hold, in order. */
  function ContentsOf(p: StructuredPrompt): (r: seq<string>)
    requires ValidFields(p) && Assembled(p)
    ensures |r| == if p.mode == Ref2VA then 6 else 3
  {
    var timeline := Timeline(p).value;
    if p.mode == Ref2VA then
      [Join("\n", DefinitionLines(p.definitions)),
       "[" + Join(" + ", p.summary.value.taskTypes) + "] " + p.summary.value.text,
       Join("\n", RetentionLines(p.retention)), timeline, p.soundscape, p.music]
    else [timeline, p.soundscape, p.music]
  }

  lemma BaseSections(timeline: string, soundscape: string, music: string)
    ensures Sections(BASE_NAMES, " ", [timeline, soundscape, music])
            == ["integrated_multimodal_description: " + timeline, "overall_soundscape: " + soundscape, "non_diegetic_music: " + music]
  {
    assert Title("integrated_multimodal_description", " ") == "integrated_multimodal_description: ";
    assert Title("overall_soundscape", " ") == "overall_soundscape: ";
    assert Title("non_diegetic_music", " ") == "non_diegetic_music: ";
  }

  lemma ReferenceTitles()
    ensures Title("subject_definitions", "\n") == "subject_definitions:\n" && Title("summary", "\n") == "summary:\n"
    ensures Title("retention_analysis", "\n") == "retention_analysis:\n" && Title("detailed_description", "\n") == "detailed_description:\n"
    ensures Title("overall_soundscape", "\n") == "overall_soundscape:\n" && Title("non_diegetic_music", "\n") == "non_diegetic_music:\n"
  {
  }

  lemma ReferenceSectionsAre(a: string, b: string, c: string, d: string, e: string, f: string)
    ensures Sections(REFERENCE_NAMES, "\n", [a, b, c, d, e, f])
            == ["subject_definitions:\n" + a, "summary:\n" + b, "retention_analysis:\n" + c, "detailed_description:\n" + d,
                "overall_soundscape:\n" + e, "non_diegetic_music:\n" + f]
  {
    ReferenceTitles();
    hide Title;
  }

  lemma BodyIsSections(p: StructuredPrompt)
    requires ValidFields(p) && Assembled(p)
    ensures Body(p).value == Join("\n\n", Sections(NamesOf(p), GapOf(p), ContentsOf(p)))
  {
    hide ValidShot, ValidDefinition, ValidRetention, AlignmentHeader, Join, Timeline;
    if p.mode == Ref2VA {
      var s := p.summary.value;
      var types := Join(" + ", s.taskTypes);
      assert "summary:\n[" + types + "] " + s.text == "summary:\n" + ("[" + types + "] " + s.text) by {
        assert "summary:\n[" == "summary:\n" + "[";
      }
      ReferenceSectionsAre(Join("\n", DefinitionLines(p.definitions)), "[" + types + "] " + s.text,
                           Join("\n", RetentionLines(p.retention)), Timeline(p).value, p.soundscape, p.music);
    } else {
      BaseSections(Timeline(p).value, p.soundscape, p.music);
    }
  }

  lemma HeaderIsLine(p: StructuredPrompt)
    requires ValidFields(p) && AlignmentHeader(p).Ok?
    ensures p.mode in {T2VA, Ref2VA} ==> AlignmentHeader(p).value == ""
    ensures p.mode == I2VA ==> Opens(AlignmentHeader(p).value, "For the target video")
    ensures p.mode in {FL2VA, L2VA} ==> Opens(AlignmentHeader(p).value, "How the reference pictures align")
  {
    hide FormatMark, Digits, RoundHalfEven, ALIGNED, FIRST_PICTURE, NEXT_MARK, SECOND_PICTURE, LAST_MARK, AT_OPENING, INTO_VIDEO,
         FULLY_REFERENCED, MarkAt, PicturesThenMarks, MarkThenPicture, Opens;
    var final := p.shots[|p.shots| - 1];
    assert ValidShot(final) && final.number >= 1;
    hide ValidShot;
    MarksPlain(0.0);
    MarksPlain(p.duration);
    OneDigit();
    if p.mode == I2VA {
      MarkReads(0.0, INTO_VIDEO + ("<Picture 1> (from " + FULLY_REFERENCED));
      FirstFrameHeader(FormatMark(0.0));
    } else if p.mode == FL2VA {
      BothFramesHeader(FormatMark(0.0), final.number, FormatMark(p.duration));
    } else if p.mode == L2VA {
      LastFrameHeader(final.number, FormatMark(p.duration));
    }
  }

  lemma HeaderComesOff(header: string, body: string, words: string)
    requires words in {"For the target video", "How the reference pictures align"} && Opens(header, words)
    ensures WithoutHeader(Headed(header, body)) == body
  {
    FirstLineIs(header, SECTION_SEPARATOR + body);
    var text := Headed(header, body);
    assert text == header + (SECTION_SEPARATOR + body);
    assert text[|header| + 2..] == body;
  }

  lemma NothingComesOff(text: string)
    requires text != "" && text[0] !in {'F', 'H', '\n'}
    ensures WithoutHeader(text) == text
  {
    if Find("\n", text) == Some(0) { FirstCharacter("\n", text, 0); }
  }

  /** The sections of a wire text are told apart by their titles. For every prompt that renders,
      cutting at the last occurrence of each title gives every section its own text, in order, if
      and only if no section but the first holds its own title again. */
  lemma SectionsReadBack(p: StructuredPrompt)
    requires ValidFields(p) && RenderPrompt(p).Ok?
    ensures Assembled(p)
    ensures ReadSections(NamesOf(p), GapOf(p), WithoutHeader(RenderPrompt(p).value)) == Some(ContentsOf(p))
            <==> TitlesOnce(NamesOf(p), GapOf(p), ContentsOf(p))
  {
    hide RenderPrompt, CallerTextInert, Opens, ReadSections, ContentsOf, NamesOf, TitlesOnce, WithoutHeader, Sections;
    RenderedIs(p);
    HeaderIsLine(p);
    BodyBegins(p);
    BodyIsSections(p);
    hide ValidFields, Body, AlignmentHeader;
    var header, body := AlignmentHeader(p).value, Body(p).value;
    if p.mode in {T2VA, Ref2VA} {
      NothingComesOff(body);
    } else {
      HeaderComesOff(header, body, if p.mode == I2VA then "For the target video" else "How the reference pictures align");
    }
    SectionsExactly(NamesOf(p), GapOf(p), ContentsOf(p));
  }

  // ------------------------------------------------------------ lines of a section

  /** A text up to the first occurrence of some words, and the text behind it. */
  function FirstCut(words: string, s: string): Option<(string, string)> {
    match Find(words, s)
    case None => None
    case Some(i) => Some((s[..i], s[i + |words|..]))
  }

  /** A text in round brackets in front, if there is one, and the text behind it. */
  function Bracketed(s: string): (Option<string>, string) {
    if " (" <= s then
      match FirstCut(")", s[2..])
      case None => (None, s)
      case Some((inner, rest)) => (Some(inner), rest)
    else (None, s)
  }

  function ReadDefinition(line: string): Option<ReferenceDefinition> {
    match FirstCut(">", line)
    case None => None
    case Some((tag, rest)) =>
      var (speaker, said) := Bracketed(rest);
      if |said| >= 5 && said[..4] == " is " && said[|said| - 1] == '.'
      then Some(ReferenceDefinition(tag + ">", said[4..|said| - 1], speaker)) else None
  }

  function ReadRetention(line: string): Option<RetentionEntry> {
    match FirstCut(">", line)
    case None => None
    case Some((tag, rest)) =>
      var (scope, said) := Bracketed(rest);
      if |said| < 3 || said[..2] != ": " || said[|said| - 1] != '.' then None
      else match FirstCut(" - ", said[2..|said| - 1])
        case None => None
        case Some((marker, detail)) => Some(RetentionEntry(tag + ">", marker, scope.GetOr(""), detail))
  }

  lemma FirstCutAt(words: string, a: string, b: string)
    requires words != "" && words[0] !in a
    ensures FirstCut(words, a + words + b) == Some((a, b))
  {
    AfterFinds(words, a, b);
    var s := a + words + b;
    var i := Find(words, s).value;
    assert |s[i + |words|..]| == |b|;
    assert s[..|a|] == a;
  }

  lemma LabelEnds(tag: string)
    requires IsLabel(tag)
    ensures tag != "" && tag[|tag| - 1] == '>' && '>' !in tag[..|tag| - 1]
  {
    var k :| 0 <= k < |REFERENCE_LABEL_KINDS| && LabelOf(tag, "<" + REFERENCE_LABEL_KINDS[k] + " ");
    var open := "<" + REFERENCE_LABEL_KINDS[k] + " ";
    assert '>' !in open by { assert REFERENCE_LABEL_KINDS[k] in {"Subject", "Picture", "Video", "Audio"}; }
    var front := tag[..|tag| - 1];
    forall i | 0 <= i < |front| ensures front[i] != '>' {
      if i < |open| { assert front[i] == open[i]; } else { assert front[i] == tag[|open|..|tag| - 1][i - |open|]; }
    }
  }

  lemma TagCut(tag: string, rest: string)
    requires IsLabel(tag)
    ensures FirstCut(">", tag + rest) == Some((tag[..|tag| - 1], rest)) && tag[..|tag| - 1] + ">" == tag
  {
    LabelEnds(tag);
    hide IsLabel;
    var front := tag[..|tag| - 1];
    assert tag == front + ">";
    FirstCutAt(">", front, rest);
    assert tag + rest == front + ">" + rest;
  }

  lemma BracketCut(inner: string, rest: string)
    requires ')' !in inner
    ensures Bracketed(" (" + inner + ")" + rest) == (Some(inner), rest)
  {
    var s := " (" + inner + ")" + rest;
    FirstCutAt(")", inner, rest);
    assert s[2..] == inner + ")" + rest;
  }

  /** However it is worded, a definition line reads back: its label, its speaker and its words. */
  lemma DefinitionReadsBack(d: ReferenceDefinition)
    requires ValidDefinition(d)
    ensures ReadDefinition(DefinitionLine(d)) == Some(d)
  {
    hide IsLabel, FirstCut, Bracketed;
    var said := " is " + d.definition + ".";
    var named := if d.speakerId.Some? then " (" + d.speakerId.value + ")" else "";
    TagCut(d.tag, named + said);
    assert DefinitionLine(d) == d.tag + (named + said) by {
      assert d.tag + named + " is " + d.definition + "." == d.tag + (named + (" is " + d.definition + "."));
    }
    if d.speakerId.Some? {
      assert ')' !in d.speakerId.value by { assert forall k | 1 <= k < |d.speakerId.value| :: d.speakerId.value[k] == d.speakerId.value[1..][k - 1]; }
      BracketCut(d.speakerId.value, said);
    } else {
      assert named + said == said;
      NoBracket(said);
    }
    assert said[..4] == " is " && said[4..|said| - 1] == d.definition;
  }

  lemma NoBracket(said: string)
    requires |said| < 2 || said[1] != '('
    ensures Bracketed(said) == (None, said)
  {
  }

  /** A retention line reads back, label, scope, marker and detail, exactly when its scope closes
      no bracket. */
  lemma RetentionReadsBack(e: RetentionEntry)
    requires ValidRetention(e) && ' ' !in e.marker
    ensures ReadRetention(RetentionLine(e)) == Some(e) <==> ')' !in e.scope
  {
    hide IsLabel, FirstCut, Bracketed;
    var body := e.marker + " - " + e.detail;
    var said := ": " + body + ".";
    var scoped := if e.scope != "" then " (" + e.scope + ")" else "";
    TagCut(e.tag, scoped + said);
    assert RetentionLine(e) == e.tag + (scoped + said) by {
      assert e.tag + scoped + ": " + e.marker + " - " + e.detail + "." == e.tag + (scoped + (": " + (e.marker + " - " + e.detail) + "."));
    }
    FirstCutAt(" - ", e.marker, e.detail);
    assert said[..2] == ": " && said[2..|said| - 1] == body;
    if e.scope == "" {
      assert scoped + said == said;
      NoBracket(said);
    } else if ')' !in e.scope {
      BracketCut(e.scope, said);
    } else {
      ShorterScope(e.scope, said);
    }
  }

  lemma ShorterScope(scope: string, rest: string)
    requires ')' in scope
    ensures var (found, _) := Bracketed(" (" + scope + ")" + rest); found.Some? && |found.value| < |scope|
  {
    var k :| 0 <= k < |scope| && scope[k] == ')';
    var s := " (" + scope + ")" + rest;
    assert s[2..] == scope + ")" + rest && s[2..][k] == ')';
    assert s[2..][k..k + 1] == ")";
    assert Occurs(")", s[2..], k);
  }

  /** The summary section reads back: the task types in front, joined, and the text. */
  lemma SummaryReadsBack(s: PromptSummary)
    requires forall k | 0 <= k < |s.taskTypes| :: ']' !in s.taskTypes[k]
    ensures FirstCut("] ", "[" + Join(" + ", s.taskTypes) + "] " + s.text) == Some(("[" + Join(" + ", s.taskTypes), s.text))
  {
    JoinedLack(" + ", s.taskTypes, ']');
    FirstCutAt("] ", "[" + Join(" + ", s.taskTypes), s.text);
  }

  lemma {:induction false} JoinedLack(sep: string, parts: seq<string>, c: char)
    requires c !in sep && forall k | 0 <= k < |parts| :: c !in parts[k]
    ensures c !in Join(sep, parts)
  {
    if |parts| <= 1 {
    } else {
      JoinedLack(sep, parts[1..], c);
    }
  }
}
