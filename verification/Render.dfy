/** Rendering a prompt to wire text: alignment header, shots, dialogue and sections. */
module Render {
  import opened Prelude
  import opened Text
  import opened Decimal
  import opened Grammar
  import opened Prompts
  import opened CutTimes
  import opened Containment

  datatype RenderError =
    | CallerSpanCarriesGrammar(field: string, rule: string)
    | Unrenderable(field: string, rule: string)
    | MarkNotExpressible
    | MarkOutsideDuration
    | SpanAltered(field: string)

  const SECTION_SEPARATOR: string := "\n\n"
  const LIPS_CLOSED: Plain := " while their lips" + " remain completely closed."
  const CONTINUES: Plain := " The line continues seamlessly" + " across the cut."
  const CUT_OFF: Plain := " The line is cut off" + " by the end of the video."
  const ALIGNED: Plain := "How the reference pictures align" + " with the target video \U{2014} "
  const AT_OPENING: Plain := "For the target video, at "
  const INTO_VIDEO: Plain := " seconds into the target video, "
  const FIRST_PICTURE: Plain := "Picture 1 (from Shot 1) aligns with the "
  const SECOND_PICTURE: Plain := "Picture 2 (from Shot "
  const NEXT_MARK: Plain := "-second mark of the target video; "
  const LAST_MARK: Plain := "-second mark of the target video."
  const FULLY_REFERENCED: Plain := "[Shot 1])" + " is fully referenced."

  // --------------------------------------------------------------- alignment

  /** A timing mark in exactly two decimal places. */
  function FormatMark(seconds: real): string
    requires seconds >= 0.0
  {
    var hundredths: nat := RoundHalfEven(seconds * 100.0);
    Digits(hundredths / 100) + "." + Padded(hundredths % 100, 2)
  }

  /** Two decimals state the mark, up to the tolerance of the comparison. */
  predicate Expressible(mark: real) {
    var off := RoundHalfEven(mark * 100.0) as real / 100.0 - mark;
    -0.000000001 <= off <= 0.000000001
  }

  function AlignmentHeader(p: StructuredPrompt): Result<string, RenderError>
    requires ValidFields(p)
  {
    if p.mode in {T2VA, Ref2VA} then Ok("") else
    var closing, final := p.duration, p.shots[|p.shots| - 1];
    assert ValidShot(final);
    if !Expressible(closing) then Err(MarkNotExpressible)
    else if final.cutAt.Some? && closing <= final.cutAt.value then Err(MarkOutsideDuration)
    else if p.mode == I2VA then
      Ok(AT_OPENING + FormatMark(0.0) + INTO_VIDEO + ("<Picture 1> (from " + FULLY_REFERENCED))
    else if p.mode == FL2VA then
      Ok(ALIGNED + FIRST_PICTURE + FormatMark(0.0) + NEXT_MARK + SECOND_PICTURE + Digits(final.number)
         + ") aligns with the " + FormatMark(closing) + LAST_MARK)
    else
      Ok(ALIGNED + ("<Picture 1> (from " + "[Shot ") + Digits(final.number) + "]) aligns with the "
         + FormatMark(closing) + LAST_MARK)
  }

  // ------------------------------------------------------------------- shots

  function Modifier(value: Option<string>): seq<string> {
    if value.Some? && value.value != "" then [value.value] else []
  }

  /** The camera sentence of a shot, or the empty text. */
  function CameraSentence(shot: Shot): Result<string, RenderError> {
    match shot.camera
    case None => Ok("")
    case Some(c) =>
      match MotionPhrase(c.motion)
      case None => Err(Unrenderable("camera.motion", "camera_motion_type"))
      case Some(phrase) => Ok(Join(" ", ["The camera", phrase] + Modifier(c.amplitude) + Modifier(c.speed)) + ".")
  }

  function Lead(line: DialogueLine): string {
    var speaker := "(" + line.speakerId + ")";
    if line.identity != "" then Strip(line.identity + " " + speaker) else speaker
  }

  function Spoken(line: DialogueLine): string {
    "[" + line.language + "] " + line.text
  }

  function Utterance(line: DialogueLine): string {
    DIALOGUE_OPEN + Spoken(line) + DIALOGUE_CLOSE
  }

  function DialogueClause(line: DialogueLine): string {
    Lead(line) + " " + (if line.voiceover then VOICEOVER_PHRASE else "says") + ": " + Utterance(line)
    + (if line.voiceover then LIPS_CLOSED else "")
    + (if line.continuesAcrossCut then CONTINUES else "")
    + (if line.truncatedByEnd then CUT_OFF else "")
  }

  method RenderDialogue(line: DialogueLine) returns (clause: string)
    ensures clause == DialogueClause(line)
  {
    hide Strip, Utterance;
    var speaker := "(" + line.speakerId + ")";
    var lead := if line.identity != "" then Strip(line.identity + " " + speaker) else speaker;
    assert lead == Lead(line);
    hide Lead;
    var verb := if line.voiceover then VOICEOVER_PHRASE else "says";
    clause := lead + " " + verb + ": " + Utterance(line);
    ghost var core := clause;
    if line.voiceover { clause := clause + LIPS_CLOSED; }
    assert clause == core + (if line.voiceover then LIPS_CLOSED else "");
    core := clause;
    if line.continuesAcrossCut { clause := clause + CONTINUES; }
    assert clause == core + (if line.continuesAcrossCut then CONTINUES else "");
    core := clause;
    if line.truncatedByEnd { clause := clause + CUT_OFF; }
    assert clause == core + (if line.truncatedByEnd then CUT_OFF else "");
  }

  function Quoted(texts: seq<string>): (r: seq<string>)
    ensures |r| == |texts| && forall k | 0 <= k < |texts| :: r[k] == "\"" + texts[k] + "\""
  {
    seq(|texts|, k requires 0 <= k < |texts| => "\"" + texts[k] + "\"")
  }

  function ScreenClause(shot: Shot): string {
    if shot.onScreenText == [] then "" else "On-screen text reads " + Join(" ", Quoted(shot.onScreenText)) + "."
  }

  function Clauses(lines: seq<DialogueLine>): (r: seq<string>)
    ensures |r| == |lines| && forall k | 0 <= k < |lines| :: r[k] == DialogueClause(lines[k])
  {
    seq(|lines|, k requires 0 <= k < |lines| => DialogueClause(lines[k]))
  }

  /** What opens a shot: its header, then the style, or the cut time and phrase. */
  function Opening(shot: Shot, isOpening: bool): seq<string>
    requires ValidShot(shot) && (isOpening || shot.cutAt.Some?)
  {
    ["[Shot " + Digits(shot.number) + "]"]
    + (if isOpening then (if shot.style.GetOr("") != "" then [shot.style.value + ","] else [])
       else ["At " + FormatCutTime(shot.cutAt.value) + ","] + Modifier(shot.cutPhrase))
    + [shot.description]
  }

  function ShotParts(shot: Shot, isOpening: bool, camera: string): seq<string>
    requires ValidShot(shot) && (isOpening || shot.cutAt.Some?)
  {
    Opening(shot, isOpening) + Modifier(Some(camera)) + Modifier(Some(ScreenClause(shot))) + Clauses(shot.dialogue)
  }

  function ShotText(shot: Shot, isOpening: bool): Result<string, RenderError>
    requires ValidShot(shot)
  {
    if !isOpening && shot.cutAt.None? then Err(Unrenderable("cut_at_seconds", "cut_time"))
    else match CameraSentence(shot)
      case Err(e) => Err(e)
      case Ok(camera) => Ok(Join(" ", ShotParts(shot, isOpening, camera)))
  }

  method RenderShot(shot: Shot, isOpening: bool) returns (r: Result<string, RenderError>)
    requires ValidShot(shot)
    ensures r == ShotText(shot, isOpening)
  {
    hide FormatCutTime, CameraSentence, ScreenClause, DialogueClause, Join, Digits, IsLabel, ValidLine;
    var parts := ["[Shot " + Digits(shot.number) + "]"];
    if isOpening {
      if shot.style.GetOr("") != "" { parts := parts + [shot.style.value + ","]; }
      parts := parts + [shot.description];
    } else {
      if shot.cutAt.None? { return Err(Unrenderable("cut_at_seconds", "cut_time")); }
      parts := parts + ["At " + FormatCutTime(shot.cutAt.value) + ","];
      if shot.cutPhrase.Some? && shot.cutPhrase.value != "" { parts := parts + [shot.cutPhrase.value]; }
      parts := parts + [shot.description];
    }
    assert parts == Opening(shot, isOpening);
    hide Opening;
    var camera := CameraSentence(shot);
    if camera.Err? { return Err(camera.error); }
    if camera.value != "" { parts := parts + [camera.value]; }
    assert parts == Opening(shot, isOpening) + Modifier(Some(camera.value));
    var screen := ScreenClause(shot);
    if screen != "" { parts := parts + [screen]; }
    assert parts == Opening(shot, isOpening) + Modifier(Some(camera.value)) + Modifier(Some(screen));
    hide Modifier;
    ghost var before := parts;
    for j := 0 to |shot.dialogue|
      invariant parts == before + Clauses(shot.dialogue)[..j]
    {
      assert Clauses(shot.dialogue)[..j + 1] == Clauses(shot.dialogue)[..j] + [DialogueClause(shot.dialogue[j])];
      var clause := RenderDialogue(shot.dialogue[j]);
      parts := parts + [clause];
    }
    assert Clauses(shot.dialogue)[..|shot.dialogue|] == Clauses(shot.dialogue);
    assert parts == ShotParts(shot, isOpening, camera.value);
    return Ok(Join(" ", parts));
  }

  /** The texts of the first `n` shots. */
  function ShotTexts(shots: seq<Shot>, n: nat): (r: Result<seq<string>, RenderError>)
    requires n <= |shots| && forall k | 0 <= k < |shots| :: ValidShot(shots[k])
    ensures r.Ok? ==> |r.value| == n
  {
    if n == 0 then Ok([])
    else match ShotTexts(shots, n - 1)
      case Err(e) => Err(e)
      case Ok(texts) =>
        match ShotText(shots[n - 1], n == 1)
        case Err(e) => Err(e)
        case Ok(t) => Ok(texts + [t])
  }

  lemma {:induction false} ShotTextsExact(shots: seq<Shot>, n: nat)
    requires n <= |shots| && forall k | 0 <= k < |shots| :: ValidShot(shots[k])
    ensures var r := ShotTexts(shots, n);
      && (r.Ok? ==> forall k | 0 <= k < n :: ShotText(shots[k], k == 0) == Ok(r.value[k]))
      && (r.Err? ==> exists k | 0 <= k < n :: ShotText(shots[k], k == 0) == Err(r.error))
  {
    hide ShotText, ValidShot;
    if n == 0 {
    } else {
      ShotTextsExact(shots, n - 1);
      assert n == 1 <==> n - 1 == 0;
    }
  }

  function Timeline(p: StructuredPrompt): Result<string, RenderError>
    requires ValidFields(p)
  {
    match ShotTexts(p.shots, |p.shots|)
    case Err(e) => Err(e)
    case Ok(texts) => Ok(Join(" ", texts))
  }

  // ---------------------------------------------------------------- sections

  function DefinitionLine(d: ReferenceDefinition): string {
    d.tag + (if d.speakerId.Some? then " (" + d.speakerId.value + ")" else "") + " is " + d.definition + "."
  }

  function DefinitionLines(ds: seq<ReferenceDefinition>): (r: seq<string>)
    ensures |r| == |ds| && forall k | 0 <= k < |ds| :: r[k] == DefinitionLine(ds[k])
  {
    seq(|ds|, k requires 0 <= k < |ds| => DefinitionLine(ds[k]))
  }

  function RetentionLine(e: RetentionEntry): string {
    e.tag + (if e.scope != "" then " (" + e.scope + ")" else "") + ": " + e.marker + " - " + e.detail + "."
  }

  function RetentionLines(es: seq<RetentionEntry>): (r: seq<string>)
    ensures |r| == |es| && forall k | 0 <= k < |es| :: r[k] == RetentionLine(es[k])
  {
    seq(|es|, k requires 0 <= k < |es| => RetentionLine(es[k]))
  }

  function BaseBody(p: StructuredPrompt, timeline: string): string {
    Join(SECTION_SEPARATOR, [
      "integrated_multimodal_description: " + timeline,
      "overall_soundscape: " + p.soundscape,
      "non_diegetic_music: " + p.music])
  }

  function ReferenceBody(p: StructuredPrompt, summary: PromptSummary, timeline: string): string {
    Join(SECTION_SEPARATOR, [
      "subject_definitions:\n" + Join("\n", DefinitionLines(p.definitions)),
      "summary:\n[" + Join(" + ", summary.taskTypes) + "] " + summary.text,
      "retention_analysis:\n" + Join("\n", RetentionLines(p.retention)),
      "detailed_description:\n" + timeline,
      "overall_soundscape:\n" + p.soundscape,
      "non_diegetic_music:\n" + p.music])
  }

  function Body(p: StructuredPrompt): Result<string, RenderError>
    requires ValidFields(p)
  {
    if p.mode == Ref2VA && p.summary.None? then Err(Unrenderable("summary", "reference_sections"))
    else match Timeline(p)
      case Err(e) => Err(e)
      case Ok(timeline) =>
        Ok(if p.mode == Ref2VA then ReferenceBody(p, p.summary.value, timeline) else BaseBody(p, timeline))
  }

  function Headed(header: string, body: string): string {
    if header != "" then header + SECTION_SEPARATOR + body else body
  }

  /** The complete wire text: contain, render, align, and check every caller text survived. */
  function RenderPrompt(p: StructuredPrompt): Result<string, RenderError>
    requires ValidFields(p)
  {
    var spans := ShotSpans(p.shots, |p.shots|);
    match FirstBreach(spans)
    case Some((field, rule)) => Err(CallerSpanCarriesGrammar(field, rule))
    case None =>
      match Body(p)
      case Err(e) => Err(e)
      case Ok(body) =>
        match AlignmentHeader(p)
        case Err(e) => Err(e)
        case Ok(header) =>
          match FirstAltered(Headed(header, body), spans)
          case Some(field) => Err(SpanAltered(field))
          case None => Ok(Headed(header, body))
  }
}
