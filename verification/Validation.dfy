/** The structural checks a composed prompt passes before it is rendered.

    `Found` specifies each check as the defects of one index after another. The checks that
    accumulate in loops are methods proved against it. */
module Validation {
  import opened Prelude
  import opened Text
  import opened Decimal
  import opened Grammar
  import opened Prompts

  datatype Defect = Defect(rule: string, field: string)

  datatype Rule =
    | OpeningCut | Numbering | CutOrder | CutInside | Delimiters | SpeakerOrder | CameraValues | CutPhraseValues
    | StyleOnce | LabelsResolve | DefinitionsUsed | RetentionMarkers | SpeakersInRetention | TaskTypeValues

  const CHECKS: seq<Rule> := [
    OpeningCut, Numbering, CutOrder, CutInside, Delimiters, SpeakerOrder, CameraValues, CutPhraseValues,
    StyleOnce, LabelsResolve, DefinitionsUsed, RetentionMarkers, SpeakersInRetention, TaskTypeValues
  ]

  function ModesOf(rule: Rule): set<Mode> {
    if rule in {LabelsResolve, DefinitionsUsed, RetentionMarkers, SpeakersInRetention, TaskTypeValues}
    then REFERENCE_MODE else ALL_MODES
  }

  function Raise(c: bool, rule: string, field: string): seq<Defect> {
    if c then [Defect(rule, field)] else []
  }

  function ShotField(i: nat, name: string): string {
    "shots." + Digits(i) + "." + name
  }

  function LineField(i: nat, j: nat, name: string): string {
    "shots." + Digits(i) + ".dialogue." + Digits(j) + "." + name
  }

  function RetentionField(i: nat, name: string): string {
    "retention_analysis." + Digits(i) + "." + name
  }

  // ------------------------------------------------------- per-index defects

  function OpeningCutAt(p: StructuredPrompt, i: nat): seq<Defect>
    requires i < |p.shots|
  {
    var has := p.shots[i].cutAt.Some?;
    Raise(i == 0 && has, "opening_shot_cut_time", "shots.0.cut_at_seconds")
    + Raise(i > 0 && !has, "later_shot_missing_cut_time", ShotField(i, "cut_at_seconds"))
  }

  /** The latest cut declared by the first `n` shots. */
  function PreviousCut(shots: seq<Shot>, n: nat): Option<real>
    requires n <= |shots|
  {
    if n == 0 then None
    else if shots[n - 1].cutAt.Some? then shots[n - 1].cutAt
    else PreviousCut(shots, n - 1)
  }

  function CutOrderAt(p: StructuredPrompt, i: nat): seq<Defect>
    requires i < |p.shots|
  {
    var current, previous := p.shots[i].cutAt, PreviousCut(p.shots, i);
    Raise(current.Some? && previous.Some? && current.value <= previous.value,
          "cut_time_not_increasing", ShotField(i, "cut_at_seconds"))
  }

  predicate Delimited(s: string) {
    Contains(s, DIALOGUE_OPEN) || Contains(s, DIALOGUE_CLOSE)
  }

  function LineDelimiters(lines: seq<DialogueLine>, i: nat, n: nat): seq<Defect>
    requires n <= |lines|
  {
    if n == 0 then []
    else LineDelimiters(lines, i, n - 1)
         + Raise(Delimited(lines[n - 1].identity), "delimiter_unbalanced", LineField(i, n - 1, "identity"))
  }

  function DelimitersAt(p: StructuredPrompt, i: nat): seq<Defect>
    requires i < |p.shots|
  {
    Raise(Delimited(p.shots[i].description), "delimiter_unbalanced", ShotField(i, "description"))
    + LineDelimiters(p.shots[i].dialogue, i, |p.shots[i].dialogue|)
  }

  predicate Outside(value: Option<string>, values: seq<Plain>) {
    value.Some? && value.value !in values
  }

  function CameraAt(p: StructuredPrompt, i: nat): seq<Defect>
    requires i < |p.shots|
  {
    match p.shots[i].camera
    case None => []
    case Some(c) =>
      Raise(!MotionPermitted(c.motion), "camera_motion_unknown", ShotField(i, "camera.motion"))
      + Raise(Outside(c.amplitude, CAMERA_AMPLITUDES), "camera_amplitude_unknown", ShotField(i, "camera.amplitude"))
      + Raise(Outside(c.speed, CAMERA_SPEEDS), "camera_speed_unknown", ShotField(i, "camera.speed"))
  }

  function StyleAt(p: StructuredPrompt, i: nat): seq<Defect>
    requires i < |p.shots|
  {
    var style := p.shots[i].style;
    if i > 0 then Raise(style.Some?, "style_restated", ShotField(i, "style"))
    else Raise(style.None?, "style_not_declared", "shots.0.style")
         + Raise(Outside(style, VISUAL_STYLES), "style_unknown", "shots.0.style")
  }

  predicate Defined(p: StructuredPrompt, tag: string) {
    exists k | 0 <= k < |p.definitions| :: p.definitions[k].tag == tag
  }

  predicate Used(p: StructuredPrompt, tag: string) {
    || (exists i | 0 <= i < |p.shots| :: tag in p.shots[i].labels)
    || (exists k | 0 <= k < |p.retention| :: p.retention[k].tag == tag)
  }

  function Unresolved(p: StructuredPrompt, i: nat, n: nat): seq<Defect>
    requires i < |p.shots| && n <= |p.shots[i].labels|
  {
    if n == 0 then []
    else Unresolved(p, i, n - 1)
         + Raise(!Defined(p, p.shots[i].labels[n - 1]), "reference_label_unresolved", ShotField(i, "labels"))
  }

  function LabelsAt(p: StructuredPrompt, i: nat): seq<Defect>
    requires i < |p.shots| + |p.retention|
  {
    if i < |p.shots| then Unresolved(p, i, |p.shots[i].labels|)
    else
      var k := i - |p.shots|;
      Raise(!Defined(p, p.retention[k].tag), "reference_label_unresolved", RetentionField(k, "label"))
  }

  function RetentionTable(tag: string): seq<Plain> {
    if "<Audio " <= tag then AUDIO_RETENTION_MARKERS else VISUAL_RETENTION_MARKERS
  }

  predicate MentionsSpeaker(t: string) {
    exists i | 0 <= i < |t| - 2 :: t[i] == '(' && t[i + 1] == 'S' && IsDigit(t[i + 2])
  }

  function TaskTypeAt(p: StructuredPrompt, i: nat): seq<Defect> {
    match p.summary
    case None => [Defect("summary_absent", "summary")]
    case Some(s) =>
      if i < |s.taskTypes|
      then Raise(s.taskTypes[i] !in TASK_TYPES, "task_type_unknown", "summary.task_types." + Digits(i))
      else Raise(|Elements(s.taskTypes)| != |s.taskTypes|, "task_type_repeated", "summary.task_types")
  }

  // ------------------------------------------------------------ speaker order

  /** One speaker named by one line. */
  datatype Mention = Mention(field: string, id: string)

  function Tagged(field: string, ids: seq<string>): (r: seq<Mention>)
    ensures |r| == |ids| && forall k | 0 <= k < |ids| :: r[k] == Mention(field, ids[k])
  {
    seq(|ids|, k requires 0 <= k < |ids| => Mention(field, ids[k]))
  }

  function LineMentions(lines: seq<DialogueLine>, i: nat, n: nat): seq<Mention>
    requires n <= |lines|
  {
    if n == 0 then []
    else LineMentions(lines, i, n - 1) + Tagged(LineField(i, n - 1, "speaker_id"), Split(lines[n - 1].speakerId, ','))
  }

  function Mentions(shots: seq<Shot>, n: nat): seq<Mention>
    requires n <= |shots|
  {
    if n == 0 then [] else Mentions(shots, n - 1) + LineMentions(shots[n - 1].dialogue, n - 1, |shots[n - 1].dialogue|)
  }

  function NumberOf(id: string): nat {
    if id == "" then 0 else Value(id[1..]).GetOr(0)
  }

  /** The numbers taken so far, in order of first vocalization. */
  function Assigned(ms: seq<Mention>): seq<nat> {
    if ms == [] then []
    else
      var n := |ms| - 1;
      var before, number := Assigned(ms[..n]), NumberOf(ms[n].id);
      if number in before then before else before + [number]
  }

  function SpeakerDefects(ms: seq<Mention>): seq<Defect> {
    if ms == [] then []
    else
      var n := |ms| - 1;
      var before, number := Assigned(ms[..n]), NumberOf(ms[n].id);
      SpeakerDefects(ms[..n])
      + Raise(number !in before && number != |before| + 1, "speaker_id_not_continuous", ms[n].field)
  }

  // ------------------------------------------------------------- whole checks

  function Length(rule: Rule, p: StructuredPrompt): nat {
    match rule
    case LabelsResolve => |p.shots| + |p.retention|
    case DefinitionsUsed => |p.definitions|
    case RetentionMarkers => |p.retention|
    case SpeakersInRetention => |p.retention|
    case TaskTypeValues => if p.summary.None? then 1 else |p.summary.value.taskTypes| + 1
    case SpeakerOrder => 0
    case _ => |p.shots|
  }

  function At(rule: Rule, p: StructuredPrompt, i: nat): seq<Defect>
    requires i < Length(rule, p)
  {
    match rule
    case OpeningCut => OpeningCutAt(p, i)
    case Numbering => Raise(p.shots[i].number != i + 1, "shot_numbering_not_sequential", ShotField(i, "number"))
    case CutOrder => CutOrderAt(p, i)
    case CutInside =>
      Raise(p.shots[i].cutAt.Some? && p.shots[i].cutAt.value >= p.duration,
            "cut_time_outside_duration", ShotField(i, "cut_at_seconds"))
    case Delimiters => DelimitersAt(p, i)
    case SpeakerOrder => []
    case CameraValues => CameraAt(p, i)
    case CutPhraseValues => Raise(Outside(p.shots[i].cutPhrase, CUT_PHRASES), "cut_phrase_unknown", ShotField(i, "cut_phrase"))
    case StyleOnce => StyleAt(p, i)
    case LabelsResolve => LabelsAt(p, i)
    case DefinitionsUsed =>
      Raise(!Used(p, p.definitions[i].tag), "reference_definition_unused", "subject_definitions." + Digits(i) + ".label")
    case RetentionMarkers =>
      Raise(p.retention[i].marker !in RetentionTable(p.retention[i].tag), "retention_marker_unknown", RetentionField(i, "marker"))
    case SpeakersInRetention =>
      Raise(MentionsSpeaker(p.retention[i].detail) || MentionsSpeaker(p.retention[i].scope),
            "speaker_id_in_retention", RetentionField(i, "detail"))
    case TaskTypeValues => TaskTypeAt(p, i)
  }

  function Collected(rule: Rule, p: StructuredPrompt, n: nat): seq<Defect>
    requires n <= Length(rule, p)
  {
    if n == 0 then [] else Collected(rule, p, n - 1) + At(rule, p, n - 1)
  }

  function Found(rule: Rule, p: StructuredPrompt): seq<Defect> {
    if rule == SpeakerOrder then SpeakerDefects(Mentions(p.shots, |p.shots|))
    else Collected(rule, p, Length(rule, p))
  }

  lemma {:induction false} CollectedNone(rule: Rule, p: StructuredPrompt, n: nat)
    requires n <= Length(rule, p)
    ensures Collected(rule, p, n) == [] <==> forall i | 0 <= i < n :: At(rule, p, i) == []
  {
    hide At, Length;
    if n == 0 {
    } else {
      CollectedNone(rule, p, n - 1);
    }
  }

  // ---------------------------------------------------------- check methods

  method CheckOpeningCut(p: StructuredPrompt) returns (defects: seq<Defect>)
    ensures defects == Found(OpeningCut, p)
  {
    hide ShotField;
    defects := [];
    for i := 0 to |p.shots|
      invariant defects == Collected(OpeningCut, p, i)
    {
      var hasCut := p.shots[i].cutAt.Some?;
      if i == 0 && hasCut {
        defects := defects + [Defect("opening_shot_cut_time", "shots.0.cut_at_seconds")];
      }
      if i > 0 && !hasCut {
        defects := defects + [Defect("later_shot_missing_cut_time", ShotField(i, "cut_at_seconds"))];
      }
    }
  }

  method CheckCutOrder(p: StructuredPrompt) returns (defects: seq<Defect>)
    ensures defects == Found(CutOrder, p)
  {
    hide ShotField;
    defects := [];
    var previous: Option<real> := None;
    for i := 0 to |p.shots|
      invariant defects == Collected(CutOrder, p, i)
      invariant previous == PreviousCut(p.shots, i)
    {
      var current := p.shots[i].cutAt;
      if current.Some? {
        if previous.Some? && current.value <= previous.value {
          defects := defects + [Defect("cut_time_not_increasing", ShotField(i, "cut_at_seconds"))];
        }
        previous := current;
      }
    }
  }

  method CheckDelimiters(p: StructuredPrompt) returns (defects: seq<Defect>)
    ensures defects == Found(Delimiters, p)
  {
    hide ShotField, LineField, Delimited, Collected;
    defects := [];
    CollectedFrom(Delimiters, p);
    for i := 0 to |p.shots|
      invariant defects == Collected(Delimiters, p, i)
    {
      ghost var before := defects;
      var lines := p.shots[i].dialogue;
      if Delimited(p.shots[i].description) {
        defects := defects + [Defect("delimiter_unbalanced", ShotField(i, "description"))];
      }
      ghost var own := Raise(Delimited(p.shots[i].description), "delimiter_unbalanced", ShotField(i, "description"));
      for j := 0 to |lines|
        invariant defects == before + (own + LineDelimiters(lines, i, j))
      {
        if Delimited(lines[j].identity) {
          defects := defects + [Defect("delimiter_unbalanced", LineField(i, j, "identity"))];
        }
      }
      CollectedStep(Delimiters, p, i);
    }
  }

  lemma CollectedStep(rule: Rule, p: StructuredPrompt, i: nat)
    requires i < Length(rule, p)
    ensures Collected(rule, p, i + 1) == Collected(rule, p, i) + At(rule, p, i)
  {
    hide At;
  }

  lemma CollectedFrom(rule: Rule, p: StructuredPrompt)
    ensures Collected(rule, p, 0) == []
  {
  }

  method CheckCamera(p: StructuredPrompt) returns (defects: seq<Defect>)
    ensures defects == Found(CameraValues, p)
  {
    hide ShotField, MotionPermitted, Outside, Collected;
    defects := [];
    CollectedFrom(CameraValues, p);
    for i := 0 to |p.shots|
      invariant defects == Collected(CameraValues, p, i)
    {
      var camera := p.shots[i].camera;
      if camera.Some? {
        var c := camera.value;
        var found: seq<Defect> := [];
        if !MotionPermitted(c.motion) {
          found := found + [Defect("camera_motion_unknown", ShotField(i, "camera.motion"))];
        }
        if Outside(c.amplitude, CAMERA_AMPLITUDES) {
          found := found + [Defect("camera_amplitude_unknown", ShotField(i, "camera.amplitude"))];
        }
        if Outside(c.speed, CAMERA_SPEEDS) {
          found := found + [Defect("camera_speed_unknown", ShotField(i, "camera.speed"))];
        }
        defects := defects + found;
      }
      CollectedStep(CameraValues, p, i);
    }
  }

  method CheckStyle(p: StructuredPrompt) returns (defects: seq<Defect>)
    requires |p.shots| >= 1
    ensures defects == Found(StyleOnce, p)
  {
    hide ShotField;
    var opening := p.shots[0].style;
    defects := [];
    if opening.None? {
      defects := [Defect("style_not_declared", "shots.0.style")];
    } else if opening.value !in VISUAL_STYLES {
      defects := [Defect("style_unknown", "shots.0.style")];
    }
    assert Collected(StyleOnce, p, 1) == [] + StyleAt(p, 0);
    for i := 1 to |p.shots|
      invariant defects == Collected(StyleOnce, p, i)
    {
      if p.shots[i].style.Some? {
        defects := defects + [Defect("style_restated", ShotField(i, "style"))];
      }
    }
  }

  lemma SpeakerStep(before: seq<Mention>, field: string, ids: seq<string>, k: nat)
    requires k < |ids|
    ensures var ms, number := before + Tagged(field, ids)[..k], NumberOf(ids[k]);
      var taken, next := Assigned(ms), before + Tagged(field, ids)[..k + 1];
      && Assigned(next) == (if number in taken then taken else taken + [number])
      && SpeakerDefects(next) == SpeakerDefects(ms)
           + (if number !in taken && number != |taken| + 1 then [Defect("speaker_id_not_continuous", field)] else [])
  {
    hide NumberOf;
    var next := before + Tagged(field, ids)[..k + 1];
    assert next[..|next| - 1] == before + Tagged(field, ids)[..k];
    assert next[|next| - 1] == Mention(field, ids[k]);
  }

  lemma MentionsStep(shots: seq<Shot>, i: nat, j: nat)
    requires i < |shots| && j < |shots[i].dialogue|
    ensures var lines, before := shots[i].dialogue, Mentions(shots, i) + LineMentions(shots[i].dialogue, i, j);
      var added := Tagged(LineField(i, j, "speaker_id"), Split(lines[j].speakerId, ','));
      && before + added[..|added|] == Mentions(shots, i) + LineMentions(lines, i, j + 1)
      && before + added[..0] == before
  {
    hide Split, Mentions, LineField, Tagged;
    var lines := shots[i].dialogue;
    var added := Tagged(LineField(i, j, "speaker_id"), Split(lines[j].speakerId, ','));
    assert added[..|added|] == added;
    assert Mentions(shots, i) + LineMentions(lines, i, j) + added == Mentions(shots, i) + (LineMentions(lines, i, j) + added);
  }

  method CheckSpeakers(p: StructuredPrompt) returns (defects: seq<Defect>)
    ensures defects == Found(SpeakerOrder, p)
  {
    hide NumberOf, Split, Assigned, SpeakerDefects, LineField, Tagged;
    defects := [];
    var taken: seq<nat> := [];
    NothingAssigned();
    for i := 0 to |p.shots|
      invariant taken == Assigned(Mentions(p.shots, i))
      invariant defects == SpeakerDefects(Mentions(p.shots, i))
    {
      var lines := p.shots[i].dialogue;
      assert Mentions(p.shots, i) + LineMentions(lines, i, 0) == Mentions(p.shots, i);
      for j := 0 to |lines|
        invariant taken == Assigned(Mentions(p.shots, i) + LineMentions(lines, i, j))
        invariant defects == SpeakerDefects(Mentions(p.shots, i) + LineMentions(lines, i, j))
      {
        ghost var before := Mentions(p.shots, i) + LineMentions(lines, i, j);
        var ids, field := Split(lines[j].speakerId, ','), LineField(i, j, "speaker_id");
        MentionsStep(p.shots, i, j);
        for k := 0 to |ids|
          invariant taken == Assigned(before + Tagged(field, ids)[..k])
          invariant defects == SpeakerDefects(before + Tagged(field, ids)[..k])
        {
          SpeakerStep(before, field, ids, k);
          var number := NumberOf(ids[k]);
          if number !in taken {
            if number != |taken| + 1 {
              defects := defects + [Defect("speaker_id_not_continuous", field)];
            }
            taken := taken + [number];
          }
        }
      }
    }
  }

  lemma NothingAssigned()
    ensures Assigned([]) == [] && SpeakerDefects([]) == []
  {
  }

  /** One check; the comprehension checks are their own specification. */
  method RunCheck(rule: Rule, p: StructuredPrompt) returns (defects: seq<Defect>)
    requires |p.shots| >= 1
    ensures defects == Found(rule, p)
  {
    match rule
    case OpeningCut => defects := CheckOpeningCut(p);
    case CutOrder => defects := CheckCutOrder(p);
    case Delimiters => defects := CheckDelimiters(p);
    case SpeakerOrder => defects := CheckSpeakers(p);
    case CameraValues => defects := CheckCamera(p);
    case StyleOnce => defects := CheckStyle(p);
    case _ => defects := Found(rule, p);
  }

  // --------------------------------------------------------------- validation

  /** A check that did not run, and why it does not apply. */
  datatype SkippedCheck = SkippedCheck(rule: Rule, reason: string)

  datatype ValidationResult = ValidationResult(defects: seq<Defect>, run: seq<Rule>, skipped: seq<SkippedCheck>)

  predicate Applies(rule: Rule, p: StructuredPrompt) {
    p.mode in ModesOf(rule)
  }

  /** No applicable check finds anything. */
  ghost predicate Clean(p: StructuredPrompt, checks: seq<Rule>) {
    forall k | 0 <= k < |checks| && Applies(checks[k], p) :: Found(checks[k], p) == []
  }

  /** Everything the service's two gates before rendering let through. */
  ghost predicate Accepted(p: StructuredPrompt) {
    ValidFields(p) && SectionsMatchMode(p) && Clean(p, CHECKS)
  }

  function AllFound(p: StructuredPrompt, checks: seq<Rule>, n: nat): seq<Defect>
    requires n <= |checks|
  {
    if n == 0 then []
    else AllFound(p, checks, n - 1) + (if Applies(checks[n - 1], p) then Found(checks[n - 1], p) else [])
  }

  lemma {:induction false} AllFoundNone(p: StructuredPrompt, checks: seq<Rule>, n: nat)
    requires n <= |checks|
    ensures AllFound(p, checks, n) == []
            <==> forall k | 0 <= k < n && Applies(checks[k], p) :: Found(checks[k], p) == []
  {
    hide Found, ModesOf, Applies;
    if n == 0 {
    } else {
      AllFoundNone(p, checks, n - 1);
    }
  }

  lemma AllFoundClean(p: StructuredPrompt, checks: seq<Rule>)
    ensures AllFound(p, checks, |checks|) == [] <==> Clean(p, checks)
  {
    hide Found, ModesOf, Applies;
    AllFoundNone(p, checks, |checks|);
  }

  /** The applicable ones of the first `n` checks, in order. */
  function Ran(p: StructuredPrompt, checks: seq<Rule>, n: nat): seq<Rule>
    requires n <= |checks|
  {
    if n == 0 then [] else Ran(p, checks, n - 1) + (if Applies(checks[n - 1], p) then [checks[n - 1]] else [])
  }

  /** The others, in order, each with its reason. */
  function Skipped(p: StructuredPrompt, checks: seq<Rule>, n: nat): seq<SkippedCheck>
    requires n <= |checks|
  {
    if n == 0 then []
    else Skipped(p, checks, n - 1)
         + (if Applies(checks[n - 1], p) then []
            else [SkippedCheck(checks[n - 1], "not applicable to " + ModeName(p.mode))])
  }

  function RulesOf(skipped: seq<SkippedCheck>): (r: seq<Rule>)
    ensures |r| == |skipped| && forall k | 0 <= k < |skipped| :: r[k] == skipped[k].rule
  {
    seq(|skipped|, k requires 0 <= k < |skipped| => skipped[k].rule)
  }

  /** The two inventories hold every check, each as often as it was given, and tell them apart. */
  lemma InventoriesComplete(p: StructuredPrompt, checks: seq<Rule>, n: nat)
    requires n <= |checks|
    ensures multiset(Ran(p, checks, n)) + multiset(RulesOf(Skipped(p, checks, n))) == multiset(checks[..n])
    ensures (forall r | r in Ran(p, checks, n) :: Applies(r, p))
    ensures forall k | k in Skipped(p, checks, n) :: !Applies(k.rule, p) && k.reason == "not applicable to " + ModeName(p.mode)
  {
    hide Applies, ModeName, Ran, Skipped;
    InventoriesCount(p, checks, n);
    InventoriesApart(p, checks, n);
  }

  lemma {:induction false} InventoriesApart(p: StructuredPrompt, checks: seq<Rule>, n: nat)
    requires n <= |checks|
    ensures (forall r | r in Ran(p, checks, n) :: Applies(r, p))
    ensures forall k | k in Skipped(p, checks, n) :: !Applies(k.rule, p) && k.reason == "not applicable to " + ModeName(p.mode)
  {
    hide Applies, ModeName;
    if n == 0 {
    } else {
      InventoriesApart(p, checks, n - 1);
    }
  }

  lemma {:induction false} InventoriesCount(p: StructuredPrompt, checks: seq<Rule>, n: nat)
    requires n <= |checks|
    ensures multiset(Ran(p, checks, n)) + multiset(RulesOf(Skipped(p, checks, n))) == multiset(checks[..n])
  {
    hide Applies, ModeName, RulesOf, Ran, Skipped;
    InventoriesStep(p, checks, n);
    if n == 0 {
    } else {
      InventoriesCount(p, checks, n - 1);
      CountOne(Ran(p, checks, n - 1), RulesOf(Skipped(p, checks, n - 1)), checks[..n - 1], checks[n - 1]);
      assert checks[..n] == checks[..n - 1] + [checks[n - 1]];
    }
  }

  lemma InventoriesStep(p: StructuredPrompt, checks: seq<Rule>, n: nat)
    requires n <= |checks|
    ensures n == 0 ==> Ran(p, checks, n) == [] && RulesOf(Skipped(p, checks, n)) == []
    ensures n > 0 ==>
      var x, ran, skipped := checks[n - 1], Ran(p, checks, n - 1), RulesOf(Skipped(p, checks, n - 1));
      && Ran(p, checks, n) == (if Applies(x, p) then ran + [x] else ran)
      && RulesOf(Skipped(p, checks, n)) == (if Applies(x, p) then skipped else skipped + [x])
  {
    hide Applies, ModeName;
    if n > 0 {
      OneMoreRule(Skipped(p, checks, n - 1), SkippedCheck(checks[n - 1], "not applicable to " + ModeName(p.mode)));
      assert Applies(checks[n - 1], p) ==> Skipped(p, checks, n) == Skipped(p, checks, n - 1);
      assert !Applies(checks[n - 1], p) ==> Ran(p, checks, n) == Ran(p, checks, n - 1);
    }
  }

  lemma CountOne(a: seq<Rule>, b: seq<Rule>, c: seq<Rule>, x: Rule)
    requires multiset(a) + multiset(b) == multiset(c)
    ensures multiset(a + [x]) + multiset(b) == multiset(c + [x]) == multiset(a) + multiset(b + [x])
  {
  }

  lemma OneMoreRule(skipped: seq<SkippedCheck>, last: SkippedCheck)
    ensures RulesOf(skipped + [last]) == RulesOf(skipped) + [last.rule]
  {
  }

  /** Defects, run and skipped are those of the checks in the order given, and there are no
      defects exactly when every applicable check found none. */
  method ValidatePrompt(p: StructuredPrompt, checks: seq<Rule>) returns (result: ValidationResult)
    requires |p.shots| >= 1
    ensures result.defects == AllFound(p, checks, |checks|)
    ensures result.defects == [] <==> Clean(p, checks)
    ensures result.run == Ran(p, checks, |checks|) && result.skipped == Skipped(p, checks, |checks|)
    ensures multiset(result.run) + multiset(RulesOf(result.skipped)) == multiset(checks)
  {
    hide Found, ModesOf, Applies, Clean;
    var defects: seq<Defect>, run: seq<Rule>, skipped: seq<SkippedCheck> := [], [], [];
    for i := 0 to |checks|
      invariant defects == AllFound(p, checks, i)
      invariant run == Ran(p, checks, i) && skipped == Skipped(p, checks, i)
    {
      if !Applies(checks[i], p) {
        skipped := skipped + [SkippedCheck(checks[i], "not applicable to " + ModeName(p.mode))];
      } else {
        run := run + [checks[i]];
        var found := RunCheck(checks[i], p);
        defects := defects + found;
      }
    }
    assert checks[..|checks|] == checks;
    InventoriesComplete(p, checks, |checks|);
    assert defects == [] <==> Clean(p, checks) by { AllFoundClean(p, checks); }
    return ValidationResult(defects, run, skipped);
  }

  /** Acceptance, or the first defect together with all of them. */
  method RequireValidPrompt(p: StructuredPrompt) returns (r: Result<ValidationResult, (Defect, seq<Defect>)>)
    requires |p.shots| >= 1
    ensures r.Ok? <==> Clean(p, CHECKS)
    ensures r.Err? ==> r.error.1 == AllFound(p, CHECKS, |CHECKS|) && r.error.1 != [] && r.error.0 == r.error.1[0]
  {
    var result := ValidatePrompt(p, CHECKS);
    if result.defects == [] { return Ok(result); }
    return Err((result.defects[0], result.defects));
  }

  /** What acceptance gives for one check and one index. */
  lemma AcceptedAt(p: StructuredPrompt, rule: Rule, i: nat)
    requires Clean(p, CHECKS) && Applies(rule, p) && rule != SpeakerOrder && i < Length(rule, p)
    ensures At(rule, p, i) == []
  {
    hide At, Length;
    CleanRule(p, rule);
    CollectedNone(rule, p, Length(rule, p));
  }

  lemma CleanRule(p: StructuredPrompt, rule: Rule)
    requires Clean(p, CHECKS) && Applies(rule, p)
    ensures Found(rule, p) == []
  {
    hide Found, ModesOf;
    assert exists k :: 0 <= k < |CHECKS| && CHECKS[k] == rule by {
      match rule
      case OpeningCut => assert CHECKS[0] == rule;
      case Numbering => assert CHECKS[1] == rule;
      case CutOrder => assert CHECKS[2] == rule;
      case CutInside => assert CHECKS[3] == rule;
      case Delimiters => assert CHECKS[4] == rule;
      case SpeakerOrder => assert CHECKS[5] == rule;
      case CameraValues => assert CHECKS[6] == rule;
      case CutPhraseValues => assert CHECKS[7] == rule;
      case StyleOnce => assert CHECKS[8] == rule;
      case LabelsResolve => assert CHECKS[9] == rule;
      case DefinitionsUsed => assert CHECKS[10] == rule;
      case RetentionMarkers => assert CHECKS[11] == rule;
      case SpeakersInRetention => assert CHECKS[12] == rule;
      case TaskTypeValues => assert CHECKS[13] == rule;
    }
  }
}
