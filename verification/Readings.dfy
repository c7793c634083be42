/** What the reader does with sections of text, section by section: a text utters nothing or
    something, and leaves openings and closings for the texts around it to complete. */
module Readings {
  import opened Prelude
  import opened Text
  import opened Grammar
  import opened Prompts
  import opened Render
  import opened Pieces
  import opened Scanner
  import opened DialogueLaws

  /** Utters nothing by itself; holds an opening delimiter; holds a closing one. */
  datatype Reading = Reading(mute: bool, opens: bool, closes: bool) {
    /** Two texts one after the other. */
    function Then(next: Reading): Reading {
      Reading(mute && next.mute && !(opens && next.closes), opens || next.opens, closes || next.closes)
    }
  }

  const SILENT: Reading := Reading(true, false, false)

  predicate Mute(s: string) {
    Scan(s) == []
  }

  function Of(s: string): Reading {
    Reading(Mute(s), !Quiet(s), Contains(s, DIALOGUE_CLOSE))
  }

  function Together(texts: seq<string>): Reading {
    if texts == [] then SILENT else Of(texts[0]).Then(Together(texts[1..]))
  }

  // -------------------------------------------------- texts between neutral marks

  lemma OpenIsMute(b: string, s: string)
    requires HeadFirm(s) && !Contains(b, DIALOGUE_CLOSE)
    ensures AfterOpen(b + s) == [] <==> !Contains(s, DIALOGUE_CLOSE)
  {
    hide Scan, Contains;
    OpenThen(b, s);
  }

  /** One text, a literal and another text. */
  lemma PairMuteExactly(a: string, lit: string, b: string)
    requires Literal(lit) && HeadFirm(lit) && Angleless(lit)
    ensures Mute(a + lit + b) <==> Mute(a) && Mute(b) && (Quiet(a) || !Contains(b, DIALOGUE_CLOSE))
  {
    hide Scan, Contains, AfterOpen, Find;
    PlainCloses(lit);
    assert a + lit + b == a + (lit + b);
    assert Scan(lit + b) == [] + Scan(b);
    if Quiet(a) {
      FreeYields(a);
      assert Scan(a + (lit + b)) == [] + Scan(lit + b);
      WholeYields(a, []);
    } else {
      var x, y := FirstOpen(a);
      ScanOpened(x, y, lit + b);
      ScanOpened(x, y, "");
      assert a + "" == a && y + "" == y;
      if Find(DIALOGUE_CLOSE, y).Some? {
        OpenThen(y, lit + b);
        OpenThen(y, "");
      } else {
        OpenIsMute(y, lit + b);
        OpenIsMute(y, "");
        EmptyHolds(DIALOGUE_CLOSE);
        ContainsInRest(lit, b, DIALOGUE_CLOSE);
        if !Contains(b, DIALOGUE_CLOSE) { MuteWithoutClose(b); }
      }
    }
  }

  lemma ContainsInRest(lit: string, b: string, pat: string)
    requires Angleless(lit) && pat == DIALOGUE_CLOSE && HeadFirm(lit)
    ensures Contains(lit + b, pat) <==> Contains(b, pat)
  {
    hide Contains, Find;
    forall j: nat | j < |lit| ensures !Occurs(pat, lit + b, j) {
      if Occurs(pat, lit + b, j) {
        ClosingShape(lit + b, j);
      }
    }
    FindSkips(pat, lit, b);
  }

  lemma MuteWithoutClose(s: string)
    requires !Contains(s, DIALOGUE_CLOSE)
    ensures Mute(s)
  {
    hide Contains;
    if Scan(s) != [] {
      var i := Find(DIALOGUE_OPEN, s).value;
      hide Scan;
      ScanFrom(s, i);
      var k := Find(DIALOGUE_CLOSE, s[i + 3..]).value;
      CloseWithin(s, i + 3, k);
      Present(DIALOGUE_CLOSE, s, i + 3 + k);
    }
  }

  /** Across a neutral text nothing is opened or closed that the two sides do not. */
  lemma ReadingCat(a: string, sep: string, b: string)
    requires Neutral(sep)
    ensures Of(a + sep + b) == Of(a).Then(Of(b))
  {
    hide Contains, Scan;
    FreeAcross(DIALOGUE_OPEN, a, sep, b);
    FreeAcross(DIALOGUE_CLOSE, a, sep, b);
    assert '<' in DIALOGUE_OPEN && 'd' in DIALOGUE_OPEN && '>' in DIALOGUE_OPEN && '/' in DIALOGUE_CLOSE;
    assert sep[0] in sep;
    PairMuteExactly(a, sep, b);
  }

  lemma LacksBothIsSilent(s: string)
    requires Lacks(s, DIALOGUE_OPEN) && Lacks(s, DIALOGUE_CLOSE)
    ensures Of(s) == SILENT
  {
    hide Contains;
    MuteWithoutClose(s);
  }

  lemma AnglelessIsSilent(s: string)
    requires Angleless(s)
    ensures Of(s) == SILENT
  {
    hide Lacks, Mute;
    AnglelessLacks(s, DIALOGUE_OPEN);
    AnglelessLacks(s, DIALOGUE_CLOSE);
    LacksBothIsSilent(s);
  }

  /** A text with a neutral mark after it, or a silent title and a mark before it. */
  lemma MarkedReads(s: string, mark: string)
    requires Neutral(mark)
    ensures Of(s + mark) == Of(s)
  {
    hide Of, Neutral;
    ReadingCat(s, mark, "");
    AnglelessIsSilent("");
    assert s + mark + "" == s + mark;
  }

  lemma TitledReads(title: string, mark: string, s: string)
    requires Angleless(title) && Neutral(mark)
    ensures Of(title + mark + s) == Of(s)
  {
    hide Of, Neutral;
    AnglelessIsSilent(title);
    ReadingCat(title, mark, s);
  }

  lemma {:induction false} JoinReads(sep: string, parts: seq<string>)
    requires Neutral(sep)
    ensures Of(Join(sep, parts)) == Together(parts)
  {
    hide Of, Neutral;
    if |parts| == 0 {
      AnglelessIsSilent("");
    } else if |parts| == 1 {
      assert Together(parts[1..]) == SILENT;
    } else {
      JoinReads(sep, parts[1..]);
      ReadingCat(parts[0], sep, Join(sep, parts[1..]));
    }
  }

  lemma {:induction false} TogetherCat(a: seq<string>, b: seq<string>)
    ensures Together(a + b) == Together(a).Then(Together(b))
  {
    hide Of;
    if a == [] {
      assert a + b == b;
    } else {
      assert (a + b)[1..] == a[1..] + b;
      TogetherCat(a[1..], b);
    }
  }

  /** Lines that each read as their fields do read together as all the fields. */
  lemma {:induction false} TogetherFlat(lines: seq<string>, fields: seq<seq<string>>)
    requires |lines| == |fields| && forall k | 0 <= k < |lines| :: Of(lines[k]) == Together(fields[k])
    ensures Together(lines) == Together(Flat(fields))
  {
    hide Of;
    if lines == [] {
    } else {
      assert forall k | 0 <= k < |lines[1..]| :: lines[1..][k] == lines[k + 1] && fields[1..][k] == fields[k + 1];
      TogetherFlat(lines[1..], fields[1..]);
      TogetherCat(fields[0], Flat(fields[1..]));
    }
  }

  // ---------------------------------------------------------------- many texts

  ghost predicate AllQuiet(texts: seq<string>) {
    forall k | 0 <= k < |texts| :: Quiet(texts[k])
  }

  ghost predicate NoneCloses(texts: seq<string>) {
    forall k | 0 <= k < |texts| :: Lacks(texts[k], DIALOGUE_CLOSE)
  }

  /** No text utters anything, and none closes an utterance that an earlier one opens. */
  ghost predicate MuteTogether(texts: seq<string>) {
    && (forall k | 0 <= k < |texts| :: Mute(texts[k]))
    && (forall i, j | 0 <= i < j < |texts| :: Quiet(texts[i]) || Lacks(texts[j], DIALOGUE_CLOSE))
  }

  lemma {:induction false} TogetherExactly(texts: seq<string>)
    ensures Together(texts).mute <==> MuteTogether(texts)
    ensures Together(texts).opens <==> !AllQuiet(texts)
    ensures Together(texts).closes <==> !NoneCloses(texts)
  {
    if texts == [] {
    } else {
      var rest := texts[1..];
      TogetherExactly(rest);
      hide Mute, Quiet, Contains;
      assert forall k | 0 <= k < |rest| :: rest[k] == texts[k + 1];
      assert AllQuiet(texts) <==> Quiet(texts[0]) && AllQuiet(rest);
      assert NoneCloses(texts) <==> Lacks(texts[0], DIALOGUE_CLOSE) && NoneCloses(rest);
      MuteFirst(texts);
    }
  }

  lemma MuteFirst(texts: seq<string>)
    requires texts != []
    ensures MuteTogether(texts)
            <==> Mute(texts[0]) && MuteTogether(texts[1..]) && (Quiet(texts[0]) || NoneCloses(texts[1..]))
  {
    hide Mute, Quiet, Lacks;
    assert forall k | 0 <= k < |texts[1..]| :: texts[1..][k] == texts[k + 1];
  }

  // ------------------------------------------------------ the sections of a prompt

  function DefinitionTexts(ds: seq<ReferenceDefinition>): (r: seq<seq<string>>)
    ensures |r| == |ds| && forall k | 0 <= k < |ds| :: r[k] == [ds[k].definition]
  {
    seq(|ds|, k requires 0 <= k < |ds| => [ds[k].definition])
  }

  function RetentionTexts(es: seq<RetentionEntry>): (r: seq<seq<string>>)
    ensures |r| == |es| && forall k | 0 <= k < |es| :: r[k] == [es[k].scope, es[k].marker, es[k].detail]
  {
    seq(|es|, k requires 0 <= k < |es| => [es[k].scope, es[k].marker, es[k].detail])
  }

  /** The texts before the shots, in the order they are rendered; the base modes have none. */
  function ReferenceTexts(p: StructuredPrompt): seq<string> {
    if p.mode == Ref2VA && p.summary.Some?
    then Flat(DefinitionTexts(p.definitions)) + (p.summary.value.taskTypes + [p.summary.value.text])
         + Flat(RetentionTexts(p.retention))
    else []
  }

  function SoundTexts(p: StructuredPrompt): seq<string> {
    [p.soundscape, p.music]
  }

  lemma NeutralBetween()
    ensures Neutral(" is ") && Neutral(".") && Neutral(": ") && Neutral(" - ") && Neutral(" (") && Neutral(")")
    ensures Neutral("\n") && Neutral(" + ") && Neutral("] ") && Neutral(SECTION_SEPARATOR) && Neutral("[") && Neutral(" ")
  {
  }

  lemma DefinitionReads(d: ReferenceDefinition)
    requires ValidDefinition(d)
    ensures Of(DefinitionLine(d)) == Together([d.definition])
  {
    hide Of, IsLabel, Neutral, IsSpeaker;
    NeutralBetween();
    LabelIsSilent(d.tag);
    var named := d.tag + if d.speakerId.Some? then " (" + d.speakerId.value + ")" else "";
    if d.speakerId.Some? {
      SpeakerIsSilent(d.speakerId.value);
      ReadingCat(d.tag, " (", d.speakerId.value);
      MarkedReads(d.tag + " (" + d.speakerId.value, ")");
      assert named == d.tag + " (" + d.speakerId.value + ")";
    } else {
      assert named == d.tag;
    }
    ReadingCat(named, " is ", d.definition);
    MarkedReads(named + " is " + d.definition, ".");
    OneText(d.definition);
  }

  lemma OneText(s: string)
    ensures Together([s]) == Of(s)
  {
    hide Of;
    assert [s][1..] == [];
  }

  lemma LabelIsSilent(s: string)
    requires IsLabel(s)
    ensures Of(s) == SILENT
  {
    hide Contains, NoOpening, Mute;
    LabelHasNoOpening(s);
    NoOpeningIsQuiet(s);
    LacksBothIsSilent(s);
  }

  lemma SpeakerIsSilent(s: string)
    requires IsSpeaker(s)
    ensures Of(s) == SILENT
  {
    hide Of;
    assert forall k | 1 <= k < |s| :: s[k] == s[1..][k - 1];
    AnglelessIsSilent(s);
  }

  lemma RetentionReads(e: RetentionEntry)
    requires ValidRetention(e)
    ensures Of(RetentionLine(e)) == Together([e.scope, e.marker, e.detail])
  {
    hide Of, IsLabel, Neutral;
    NeutralBetween();
    LabelIsSilent(e.tag);
    AnglelessIsSilent("");
    var head := e.tag + if e.scope != "" then " (" + e.scope + ")" else "";
    if e.scope != "" {
      ReadingCat(e.tag, " (", e.scope);
      MarkedReads(e.tag + " (" + e.scope, ")");
      assert head == e.tag + " (" + e.scope + ")";
    } else {
      assert head == e.tag;
    }
    ReadingCat(head, ": ", e.marker);
    ReadingCat(head + ": " + e.marker, " - ", e.detail);
    MarkedReads(head + ": " + e.marker + " - " + e.detail, ".");
    ThreeTexts(e.scope, e.marker, e.detail);
  }

  lemma ThreeTexts(a: string, b: string, c: string)
    ensures Together([a, b, c]) == Of(a).Then(Of(b)).Then(Of(c))
  {
    hide Of;
    assert [a, b, c][1..] == [b, c] && [b, c][1..] == [c];
    OneText(c);
    assert Together([b, c]) == Of(b).Then(Of(c));
  }

  lemma LinesRead(p: StructuredPrompt)
    requires ValidFields(p)
    ensures Of(Join("\n", DefinitionLines(p.definitions))) == Together(Flat(DefinitionTexts(p.definitions)))
    ensures Of(Join("\n", RetentionLines(p.retention))) == Together(Flat(RetentionTexts(p.retention)))
  {
    hide Of, Neutral, ValidDefinition, ValidShot, ValidRetention, DefinitionLine, RetentionLine, Join, Flat, Together;
    NeutralBetween();
    forall k | 0 <= k < |p.definitions| ensures Of(DefinitionLines(p.definitions)[k]) == Together(DefinitionTexts(p.definitions)[k]) {
      DefinitionReads(p.definitions[k]);
    }
    forall k | 0 <= k < |p.retention| ensures Of(RetentionLines(p.retention)[k]) == Together(RetentionTexts(p.retention)[k]) {
      RetentionReads(p.retention[k]);
    }
    JoinReads("\n", DefinitionLines(p.definitions));
    JoinReads("\n", RetentionLines(p.retention));
    TogetherFlat(DefinitionLines(p.definitions), DefinitionTexts(p.definitions));
    TogetherFlat(RetentionLines(p.retention), RetentionTexts(p.retention));
  }

  /** What comes before the shots in full-reference mode reads as its texts do together. */
  lemma PreambleReads(p: StructuredPrompt, header: string)
    requires ValidFields(p) && p.mode == Ref2VA && p.summary.Some?
    ensures Of(Preamble(p, header)) == Together(ReferenceTexts(p))
  {
    hide Of, Neutral, Angleless, ValidDefinition, ValidShot, ValidRetention, DefinitionLines, RetentionLines, Join, Flat, Together;
    LinesRead(p);
    NeutralBetween();
    var s, sep := p.summary.value, SECTION_SEPARATOR;
    var defined, types, kept := Join("\n", DefinitionLines(p.definitions)), Join(" + ", s.taskTypes), Join("\n", RetentionLines(p.retention));
    var a, b, c := "subject_definitions:\n" + defined, "summary:\n[" + types + "] " + s.text, "retention_analysis:\n" + kept;
    Titles();
    TitleLines();
    TitledReads("subject_definitions:", "\n", defined);
    TitledReads("summary:\n", "[", types);
    TitledReads("retention_analysis:", "\n", kept);
    JoinReads(" + ", s.taskTypes);
    ReadingCat("summary:\n[" + types, "] ", s.text);
    ReadingCat(a, sep, b);
    ReadingCat(a + sep + b, sep, c);
    AnglelessIsSilent("detailed_description:\n");
    ReadingCat(a + sep + b + sep + c, sep, "detailed_description:\n");
    OneText(s.text);
    TogetherCat(s.taskTypes, [s.text]);
    TogetherCat(Flat(DefinitionTexts(p.definitions)), s.taskTypes + [s.text]);
    TogetherCat(Flat(DefinitionTexts(p.definitions)) + (s.taskTypes + [s.text]), Flat(RetentionTexts(p.retention)));
  }

  lemma Titles()
    ensures Angleless("subject_definitions:") && Angleless("retention_analysis:") && Angleless("detailed_description:\n")
    ensures Angleless("summary:\n") && Angleless("overall_soundscape:") && Angleless("non_diegetic_music:")
  {
  }

  lemma TitleLines()
    ensures "subject_definitions:" + "\n" == "subject_definitions:\n" && "retention_analysis:" + "\n" == "retention_analysis:\n"
    ensures "summary:\n" + "[" == "summary:\n["
  {
  }

  /** What comes after the shots reads, behind anything, as its two texts do. */
  lemma SoundTailReads(p: StructuredPrompt, lead: string)
    ensures Of(lead + SoundTail(p)) == Of(lead).Then(Together(SoundTexts(p)))
  {
    hide Of, Neutral, Angleless;
    var gap, sep := if p.mode == Ref2VA then "\n" else " ", SECTION_SEPARATOR;
    NeutralBetween();
    Titles();
    var a, b := "overall_soundscape:" + gap + p.soundscape, "non_diegetic_music:" + gap + p.music;
    TitledReads("overall_soundscape:", gap, p.soundscape);
    TitledReads("non_diegetic_music:", gap, p.music);
    ReadingCat(lead, sep, a);
    ReadingCat(lead + sep + a, sep, b);
    assert lead + SoundTail(p) == lead + sep + a + sep + b;
    assert SoundTexts(p)[1..] == [p.music];
    OneText(p.music);
  }
}
