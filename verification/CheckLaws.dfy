/** What the fourteen checks ask of a prompt, field by field. */
module CheckLaws {
  import opened Prelude
  import opened Text
  import opened Decimal
  import opened Grammar
  import opened Prompts
  import opened Validation
  import opened TimelineLaws
  import opened SpeakerLaws

  // ------------------------------------------------------------ vocabularies

  predicate IsAmplitude(s: string) { s in {"with small amplitude", "with large amplitude"} }

  predicate IsSpeed(s: string) { s in {"at slow speed", "at fast speed"} }

  predicate IsCutPhrase(s: string) {
    || s in {"the camera cuts to", "the shot cuts to", "the shot transitions to"}
    || s in {"the shot changes to", "the shot switches to"}
  }

  predicate IsStyle(s: string) {
    s in {"Cinematic", "live-action", "2D-animated", "3D CG"} || s in {"claymation", "watercolor", "vintage film"}
  }

  predicate IsMotion(s: string) {
    || s in {"Zoom In", "Zoom Out", "Push In", "Pull Out"} || s in {"Pan Left", "Pan Right", "Truck Left", "Truck Right"}
    || s in {"Tilt Up", "Tilt Down", "Pedestal Up", "Pedestal Down"}
    || s in {"Arc Shot", "Tracking Shot", "Static Shot", "Shake Slightly"}
    || s in {"Shake Strongly", "POV", "Roll Clockwise", "Roll Counterclockwise"}
  }

  predicate IsTaskType(s: string) {
    || s in {"keyframe completion", "reference generation", "video editing"}
    || s in {"video continuation", "audio reuse", "audio reference"}
  }

  predicate KeepsAudio(s: string) { s in {"fully_copy", "partially_copy", "reference", "weak_reference"} }

  predicate KeepsVisual(s: string) { s in {"fully_preserved", "partially_preserved", "attribute_transfer", "weak_reference"} }

  predicate MarkerFits(e: RetentionEntry) {
    if "<Audio " <= e.tag then KeepsAudio(e.marker) else KeepsVisual(e.marker)
  }

  lemma Vocabularies(s: string)
    ensures s in CAMERA_AMPLITUDES <==> IsAmplitude(s)
    ensures s in CAMERA_SPEEDS <==> IsSpeed(s)
    ensures s in CUT_PHRASES <==> IsCutPhrase(s)
    ensures s in VISUAL_STYLES <==> IsStyle(s)
    ensures s in TASK_TYPES <==> IsTaskType(s)
    ensures s in AUDIO_RETENTION_MARKERS <==> KeepsAudio(s)
    ensures s in VISUAL_RETENTION_MARKERS <==> KeepsVisual(s)
  {
  }

  predicate Named(table: seq<CameraMotion>, motion: string) {
    exists k | 0 <= k < |table| :: table[k].name == motion
  }

  lemma NamedCat(a: seq<CameraMotion>, b: seq<CameraMotion>, motion: string)
    ensures Named(a + b, motion) <==> Named(a, motion) || Named(b, motion)
  {
    if k :| 0 <= k < |a| && a[k].name == motion { assert (a + b)[k].name == motion; }
    if k :| 0 <= k < |b| && b[k].name == motion { assert (a + b)[|a| + k].name == motion; }
  }

  lemma FourNamed(a: CameraMotion, b: CameraMotion, c: CameraMotion, d: CameraMotion, motion: string)
    ensures Named([a, b, c, d], motion) <==> motion in {a.name, b.name, c.name, d.name}
  {
    var table := [a, b, c, d];
    assert table[0] == a && table[1] == b && table[2] == c && table[3] == d;
  }

  lemma Motions(motion: string)
    ensures MotionPermitted(motion) <==> IsMotion(motion)
  {
    hide Named;
    var f, s, v, w, h := FORWARD_MOTIONS, SIDEWAYS_MOTIONS, VERTICAL_MOTIONS, FOLLOWING_MOTIONS, HANDLING_MOTIONS;
    NamedCat(f + s + v + w, h, motion);
    NamedCat(f + s + v, w, motion);
    NamedCat(f + s, v, motion);
    NamedCat(f, s, motion);
    FourNamed(f[0], f[1], f[2], f[3], motion);
    FourNamed(s[0], s[1], s[2], s[3], motion);
    FourNamed(v[0], v[1], v[2], v[3], motion);
    FourNamed(w[0], w[1], w[2], w[3], motion);
    FourNamed(h[0], h[1], h[2], h[3], motion);
    assert MotionPermitted(motion) <==> Named(CAMERA_MOTIONS, motion) by { NamedIs(motion); }
  }

  lemma NamedIs(motion: string)
    ensures MotionPermitted(motion) <==> Named(CAMERA_MOTIONS, motion)
  {
  }

  // ---------------------------------------------------------------- the shots

  predicate CameraFits(c: CameraDirection) {
    IsMotion(c.motion) && (c.amplitude.Some? ==> IsAmplitude(c.amplitude.value)) && (c.speed.Some? ==> IsSpeed(c.speed.value))
  }

  /** Holds neither dialogue delimiter. */
  predicate Undelimited(s: string) {
    !Contains(s, "<d>") && !Contains(s, "</d>")
  }

  /** Each shot's camera, cut phrase and style come from the tables, the style on the opening shot
      alone, and no delimiter is in what the service wrote of it. */
  ghost predicate ShotPasses(shot: Shot, isOpening: bool) {
    && (shot.camera.Some? ==> CameraFits(shot.camera.value))
    && (shot.cutPhrase.Some? ==> IsCutPhrase(shot.cutPhrase.value))
    && (if isOpening then shot.style.Some? && IsStyle(shot.style.value) else shot.style.None?)
    && Undelimited(shot.description) && forall j | 0 <= j < |shot.dialogue| :: Undelimited(shot.dialogue[j].identity)
  }

  ghost predicate SpeakersPass(p: StructuredPrompt) {
    var firsts := Firsts(Speakers(p.shots, |p.shots|));
    forall k | 0 <= k < |firsts| :: firsts[k] == "S" + Digits(k + 1)
  }

  /** What the checks of every mode ask: cuts in place and rising inside the clip, shots numbered
      from one, speakers numbered as they are first heard, and every shot as above. */
  ghost predicate BasePasses(p: StructuredPrompt) {
    && CutsInPlace(p) && Windows(p)
    && (forall i | 0 <= i < |p.shots| :: p.shots[i].number == i + 1)
    && SpeakersPass(p)
    && forall i | 0 <= i < |p.shots| :: ShotPasses(p.shots[i], i == 0)
  }

  lemma {:induction false} LineDelimitersExactly(lines: seq<DialogueLine>, i: nat, n: nat)
    requires n <= |lines|
    ensures LineDelimiters(lines, i, n) == [] <==> forall j | 0 <= j < n :: !Delimited(lines[j].identity)
  {
    hide Delimited, LineField;
    if n == 0 {
    } else {
      LineDelimitersExactly(lines, i, n - 1);
    }
  }

  lemma CameraPasses(p: StructuredPrompt, i: nat)
    requires i < |p.shots|
    ensures CameraAt(p, i) == [] <==>
      (p.shots[i].camera.Some? ==> CameraFits(p.shots[i].camera.value))
  {
    if p.shots[i].camera.Some? {
      var c := p.shots[i].camera.value;
      Motions(c.motion);
      if c.amplitude.Some? { Vocabularies(c.amplitude.value); }
      if c.speed.Some? { Vocabularies(c.speed.value); }
      hide MotionPermitted, IsMotion, IsAmplitude, IsSpeed, CAMERA_AMPLITUDES, CAMERA_SPEEDS, ShotField;
    }
  }

  lemma StylePasses(p: StructuredPrompt, i: nat)
    requires i < |p.shots|
    ensures StyleAt(p, i) == [] <==>
      if i == 0 then p.shots[i].style.Some? && IsStyle(p.shots[i].style.value) else p.shots[i].style.None?
  {
    if p.shots[i].style.Some? { Vocabularies(p.shots[i].style.value); }
    hide IsStyle, VISUAL_STYLES, ShotField;
  }

  lemma DelimitersPass(p: StructuredPrompt, i: nat)
    requires i < |p.shots|
    ensures DelimitersAt(p, i) == [] <==>
      Undelimited(p.shots[i].description) && forall j | 0 <= j < |p.shots[i].dialogue| :: Undelimited(p.shots[i].dialogue[j].identity)
  {
    LineDelimitersExactly(p.shots[i].dialogue, i, |p.shots[i].dialogue|);
    hide Contains, ShotField, LineDelimiters;
  }

  lemma PhrasePasses(p: StructuredPrompt, i: nat)
    requires i < |p.shots|
    ensures Outside(p.shots[i].cutPhrase, CUT_PHRASES) <==> p.shots[i].cutPhrase.Some? && !IsCutPhrase(p.shots[i].cutPhrase.value)
  {
    if p.shots[i].cutPhrase.Some? { Vocabularies(p.shots[i].cutPhrase.value); }
  }

  lemma FoundInShot(p: StructuredPrompt, i: nat)
    requires i < |p.shots|
    ensures At(Delimiters, p, i) == DelimitersAt(p, i) && At(CameraValues, p, i) == CameraAt(p, i) && At(StyleOnce, p, i) == StyleAt(p, i)
    ensures At(CutPhraseValues, p, i) == [] <==> !Outside(p.shots[i].cutPhrase, CUT_PHRASES)
  {
    hide DelimitersAt, CameraAt, StyleAt, Outside, ShotField, CUT_PHRASES;
  }

  lemma ShotPassesExactly(p: StructuredPrompt, i: nat)
    requires i < |p.shots|
    ensures At(Delimiters, p, i) == [] && At(CameraValues, p, i) == [] && At(CutPhraseValues, p, i) == [] && At(StyleOnce, p, i) == []
            <==> ShotPasses(p.shots[i], i == 0)
  {
    FoundInShot(p, i);
    CameraPasses(p, i);
    StylePasses(p, i);
    DelimitersPass(p, i);
    PhrasePasses(p, i);
    hide At, DelimitersAt, CameraAt, StyleAt, IsMotion, IsAmplitude, IsSpeed, IsStyle, IsCutPhrase, CUT_PHRASES, Undelimited;
  }

  lemma CheckPasses(p: StructuredPrompt, rule: Rule)
    requires rule != SpeakerOrder
    ensures Found(rule, p) == [] <==> forall i: nat | i < Length(rule, p) :: At(rule, p, i) == []
  {
    hide At, Length;
    CollectedNone(rule, p, Length(rule, p));
  }

  lemma SpeakersPassExactly(p: StructuredPrompt)
    requires ValidFields(p)
    ensures Found(SpeakerOrder, p) == [] <==> SpeakersPass(p)
  {
    hide Found, ValidFields, Speakers, Firsts, Digits;
    SpeakersContinuousExactly(p);
    var firsts := Firsts(Speakers(p.shots, |p.shots|));
    if SpeakersPass(p) { assert forall k | 0 <= k < |firsts| :: firsts[k] == Numbered(|firsts|)[k]; }
    if firsts == Numbered(|firsts|) {
      assert forall k | 0 <= k < |firsts| :: firsts[k] == Numbered(|firsts|)[k] == "S" + Digits(k + 1);
    }
  }

  /** The four checks that read one shot at a time. */
  lemma ShotsPassExactly(p: StructuredPrompt)
    ensures Found(Delimiters, p) == [] && Found(CameraValues, p) == [] && Found(CutPhraseValues, p) == [] && Found(StyleOnce, p) == []
            <==> forall i | 0 <= i < |p.shots| :: ShotPasses(p.shots[i], i == 0)
  {
    hide At, Found, ShotPasses;
    ShotLengths(p);
    hide Length;
    CheckPasses(p, Delimiters);
    CheckPasses(p, CameraValues);
    CheckPasses(p, CutPhraseValues);
    CheckPasses(p, StyleOnce);
    forall i: nat | i < |p.shots|
      ensures At(Delimiters, p, i) == [] && At(CameraValues, p, i) == [] && At(CutPhraseValues, p, i) == [] && At(StyleOnce, p, i) == []
              <==> ShotPasses(p.shots[i], i == 0)
    {
      ShotPassesExactly(p, i);
    }
  }

  lemma ShotLengths(p: StructuredPrompt)
    ensures Length(Delimiters, p) == Length(CameraValues, p) == Length(CutPhraseValues, p) == Length(StyleOnce, p) == |p.shots|
  {
  }

  // ------------------------------------------------------- the reference sections

  ghost predicate TagDefined(p: StructuredPrompt, tag: string) {
    exists k :: 0 <= k < |p.definitions| && p.definitions[k].tag == tag
  }

  ghost predicate TagUsed(p: StructuredPrompt, tag: string) {
    || (exists i, j :: 0 <= i < |p.shots| && 0 <= j < |p.shots[i].labels| && p.shots[i].labels[j] == tag)
    || exists k :: 0 <= k < |p.retention| && p.retention[k].tag == tag
  }

  /** Names a speaker in brackets: "(S" and a digit. */
  ghost predicate NamesSpeaker(t: string) {
    exists c, i :: IsDigit(c) && Occurs("(S" + [c], t, i)
  }

  /** What the checks of full-reference mode ask: every label used is defined and every label
      defined is used, each is retained by a marker of its kind and without naming a speaker, and
      the summary has task types of the table, none twice. */
  ghost predicate ReferencePasses(p: StructuredPrompt) {
    && (forall tag :: TagUsed(p, tag) <==> TagDefined(p, tag))
    && (forall k | 0 <= k < |p.retention| :: MarkerFits(p.retention[k]))
    && (forall k | 0 <= k < |p.retention| :: !NamesSpeaker(p.retention[k].detail) && !NamesSpeaker(p.retention[k].scope))
    && p.summary.Some?
    && (forall k | 0 <= k < |p.summary.value.taskTypes| :: IsTaskType(p.summary.value.taskTypes[k]))
    && Distinct(p.summary.value.taskTypes)
  }

  lemma {:induction false} UnresolvedNone(p: StructuredPrompt, i: nat, n: nat)
    requires i < |p.shots| && n <= |p.shots[i].labels|
    ensures Unresolved(p, i, n) == [] <==> forall j | 0 <= j < n :: TagDefined(p, p.shots[i].labels[j])
  {
    hide ShotField;
    if n == 0 {
    } else {
      UnresolvedNone(p, i, n - 1);
    }
  }

  ghost predicate ShotResolves(p: StructuredPrompt, i: nat)
    requires i < |p.shots|
  {
    forall j | 0 <= j < |p.shots[i].labels| :: TagDefined(p, p.shots[i].labels[j])
  }

  lemma LabelsPassExactly(p: StructuredPrompt)
    ensures Found(LabelsResolve, p) == [] <==> forall tag | TagUsed(p, tag) :: TagDefined(p, tag)
  {
    hide At, Found;
    CheckPasses(p, LabelsResolve);
    var n, m := |p.shots|, |p.retention|;
    forall i: nat | i < n ensures At(LabelsResolve, p, i) == [] <==> ShotResolves(p, i) { LabelsOfShot(p, i); }
    forall k: nat | k < m ensures At(LabelsResolve, p, n + k) == [] <==> TagDefined(p, p.retention[k].tag) { LabelOfEntry(p, k); }
    if forall tag | TagUsed(p, tag) :: TagDefined(p, tag) {
      forall i: nat | i < n + m ensures At(LabelsResolve, p, i) == [] {
        if i < n {
          assert forall j | 0 <= j < |p.shots[i].labels| :: TagUsed(p, p.shots[i].labels[j]);
        } else {
          assert TagUsed(p, p.retention[i - n].tag) && i == n + (i - n);
        }
      }
    }
    if forall i: nat | i < n + m :: At(LabelsResolve, p, i) == [] {
      forall tag | TagUsed(p, tag) ensures TagDefined(p, tag) {
        if i, j :| 0 <= i < n && 0 <= j < |p.shots[i].labels| && p.shots[i].labels[j] == tag {
          assert At(LabelsResolve, p, i) == [];
        } else {
          var k: nat :| k < m && p.retention[k].tag == tag;
          assert At(LabelsResolve, p, n + k) == [];
        }
      }
    }
  }

  lemma LabelsOfShot(p: StructuredPrompt, i: nat)
    requires i < |p.shots|
    ensures At(LabelsResolve, p, i) == [] <==> ShotResolves(p, i)
  {
    hide TagDefined;
    UnresolvedNone(p, i, |p.shots[i].labels|);
  }

  lemma LabelOfEntry(p: StructuredPrompt, k: nat)
    requires k < |p.retention|
    ensures At(LabelsResolve, p, |p.shots| + k) == [] <==> TagDefined(p, p.retention[k].tag)
  {
    hide RetentionField;
  }

  lemma UsedIs(p: StructuredPrompt, tag: string)
    ensures Used(p, tag) <==> TagUsed(p, tag)
  {
    if i, j :| 0 <= i < |p.shots| && 0 <= j < |p.shots[i].labels| && p.shots[i].labels[j] == tag {
      assert tag in p.shots[i].labels;
    }
  }

  lemma DefinitionsPassExactly(p: StructuredPrompt)
    ensures Found(DefinitionsUsed, p) == [] <==> forall tag | TagDefined(p, tag) :: TagUsed(p, tag)
  {
    hide Found, Used;
    CheckPasses(p, DefinitionsUsed);
    forall k: nat | k < |p.definitions|
      ensures At(DefinitionsUsed, p, k) == [] <==> TagUsed(p, p.definitions[k].tag)
    {
      UsedIs(p, p.definitions[k].tag);
    }
    hide At, TagUsed;
    if forall tag | TagDefined(p, tag) :: TagUsed(p, tag) {
      assert forall k: nat | k < |p.definitions| :: TagDefined(p, p.definitions[k].tag);
    }
  }

  lemma MarkersPassExactly(p: StructuredPrompt)
    ensures Found(RetentionMarkers, p) == [] <==> forall k | 0 <= k < |p.retention| :: MarkerFits(p.retention[k])
  {
    hide Found;
    CheckPasses(p, RetentionMarkers);
    forall k: nat | k < |p.retention| ensures At(RetentionMarkers, p, k) == [] <==> MarkerFits(p.retention[k]) {
      Vocabularies(p.retention[k].marker);
    }
    hide At, MarkerFits;
  }

  lemma NamesSpeakerExactly(t: string)
    ensures MentionsSpeaker(t) <==> NamesSpeaker(t)
  {
    hide IsDigit;
    if i :| 0 <= i < |t| - 2 && t[i] == '(' && t[i + 1] == 'S' && IsDigit(t[i + 2]) {
      assert t[i..i + 3] == "(S" + [t[i + 2]];
      assert Occurs("(S" + [t[i + 2]], t, i);
    }
    if c, i :| IsDigit(c) && Occurs("(S" + [c], t, i) {
      assert t[i..i + 3] == "(S" + [c];
      assert t[i] == t[i..i + 3][0] && t[i + 1] == t[i..i + 3][1] && t[i + 2] == t[i..i + 3][2];
    }
  }

  lemma SpeakersInRetentionExactly(p: StructuredPrompt)
    ensures Found(SpeakersInRetention, p) == []
            <==> forall k | 0 <= k < |p.retention| :: !NamesSpeaker(p.retention[k].detail) && !NamesSpeaker(p.retention[k].scope)
  {
    hide Found;
    CheckPasses(p, SpeakersInRetention);
    forall k: nat | k < |p.retention|
      ensures At(SpeakersInRetention, p, k) == [] <==> !NamesSpeaker(p.retention[k].detail) && !NamesSpeaker(p.retention[k].scope)
    {
      NamesSpeakerExactly(p.retention[k].detail);
      NamesSpeakerExactly(p.retention[k].scope);
      hide MentionsSpeaker, NamesSpeaker;
    }
    hide At, NamesSpeaker;
  }

  lemma TaskTypesPassExactly(p: StructuredPrompt)
    ensures Found(TaskTypeValues, p) == []
            <==> p.summary.Some? && (forall k | 0 <= k < |p.summary.value.taskTypes| :: IsTaskType(p.summary.value.taskTypes[k]))
                 && Distinct(p.summary.value.taskTypes)
  {
    hide Found;
    CheckPasses(p, TaskTypeValues);
    if p.summary.Some? {
      var types := p.summary.value.taskTypes;
      forall k: nat | k < |types| ensures At(TaskTypeValues, p, k) == [] <==> IsTaskType(types[k]) { Vocabularies(types[k]); }
      DistinctExactly(types);
      assert At(TaskTypeValues, p, |types|) == [] <==> Distinct(types);
      hide At, IsTaskType;
    } else {
      assert At(TaskTypeValues, p, 0) != [];
    }
  }

  // --------------------------------------------------------------- what is named

  lemma {:induction false} CollectedHolds(rule: Rule, p: StructuredPrompt, n: nat, d: Defect)
    requires n <= Length(rule, p)
    ensures d in Collected(rule, p, n) <==> exists i: nat :: i < n && d in At(rule, p, i)
  {
    hide At, Length;
    if n == 0 {
    } else {
      CollectedHolds(rule, p, n - 1, d);
    }
  }

  /** A defect of the i-th shot, or of the i-th entry of a section, of one rule and field. */
  predicate Names(d: Defect, rule: string, section: string, i: nat, field: string) {
    d == Defect(rule, section + Digits(i) + field)
  }

  /** What the checks on single shots name. */
  lemma ShotsNamed(p: StructuredPrompt, d: Defect)
    ensures d in Found(Numbering, p)
            <==> exists i: nat :: i < |p.shots| && p.shots[i].number != i + 1
                   && Names(d, "shot_numbering_not_sequential", "shots.", i, ".number")
    ensures d in Found(CutInside, p)
            <==> exists i: nat :: i < |p.shots| && p.shots[i].cutAt.Some? && p.shots[i].cutAt.value >= p.duration
                   && Names(d, "cut_time_outside_duration", "shots.", i, ".cut_at_seconds")
    ensures d in Found(CutPhraseValues, p)
            <==> exists i: nat :: i < |p.shots| && p.shots[i].cutPhrase.Some? && !IsCutPhrase(p.shots[i].cutPhrase.value)
                   && Names(d, "cut_phrase_unknown", "shots.", i, ".cut_phrase")
  {
    hide Collected, IsCutPhrase, Digits;
    CollectedHolds(Numbering, p, |p.shots|, d);
    CollectedHolds(CutInside, p, |p.shots|, d);
    CollectedHolds(CutPhraseValues, p, |p.shots|, d);
    forall i: nat | i < |p.shots|
      ensures d in At(Numbering, p, i)
              <==> p.shots[i].number != i + 1 && Names(d, "shot_numbering_not_sequential", "shots.", i, ".number")
      ensures d in At(CutInside, p, i)
              <==> p.shots[i].cutAt.Some? && p.shots[i].cutAt.value >= p.duration
                   && Names(d, "cut_time_outside_duration", "shots.", i, ".cut_at_seconds")
      ensures d in At(CutPhraseValues, p, i)
              <==> p.shots[i].cutPhrase.Some? && !IsCutPhrase(p.shots[i].cutPhrase.value)
                   && Names(d, "cut_phrase_unknown", "shots.", i, ".cut_phrase")
    {
      PhrasePasses(p, i);
      Dotted("shots." + Digits(i));
    }
    hide At;
  }

  lemma Dotted(s: string)
    ensures s + "." + "number" == s + ".number" && s + "." + "cut_at_seconds" == s + ".cut_at_seconds"
    ensures s + "." + "cut_phrase" == s + ".cut_phrase" && s + "." + "labels" == s + ".labels" && s + "." + "label" == s + ".label"
    ensures s + "." + "marker" == s + ".marker" && s + "." + "detail" == s + ".detail"
  {
    assert "." + "number" == ".number" && "." + "cut_at_seconds" == ".cut_at_seconds" && "." + "cut_phrase" == ".cut_phrase";
    assert "." + "labels" == ".labels" && "." + "label" == ".label" && "." + "marker" == ".marker" && "." + "detail" == ".detail";
  }

  /** The j-th shot has the latest cut before the i-th. */
  ghost predicate LatestCut(p: StructuredPrompt, j: nat, i: nat)
    requires i < |p.shots|
  {
    j < i && p.shots[j].cutAt.Some? && forall m: nat | j < m < i :: p.shots[m].cutAt.None?
  }

  /** The i-th shot cuts no later than the latest cut before it. */
  ghost predicate CutTooSoon(p: StructuredPrompt, i: nat)
    requires i < |p.shots|
  {
    p.shots[i].cutAt.Some? && exists j: nat :: LatestCut(p, j, i) && p.shots[i].cutAt.value <= p.shots[j].cutAt.value
  }

  lemma {:induction false} PreviousCutIs(p: StructuredPrompt, i: nat, n: nat)
    requires n <= i < |p.shots| && forall m: nat | n <= m < i :: p.shots[m].cutAt.None?
    ensures PreviousCut(p.shots, n).Some? <==> exists j: nat :: LatestCut(p, j, i)
    ensures forall j: nat | LatestCut(p, j, i) :: PreviousCut(p.shots, n) == p.shots[j].cutAt
  {
    if n == 0 {
      assert forall j: nat :: !LatestCut(p, j, i);
    } else if p.shots[n - 1].cutAt.Some? {
      assert LatestCut(p, n - 1, i);
      assert forall j: nat | LatestCut(p, j, i) :: j == n - 1;
    } else {
      PreviousCutIs(p, i, n - 1);
    }
  }

  /** What the checks on cuts and styles name. */
  lemma CutsNamed(p: StructuredPrompt, d: Defect)
    ensures d in Found(OpeningCut, p)
            <==> exists i: nat :: i < |p.shots| &&
                   if i == 0 then p.shots[i].cutAt.Some? && Names(d, "opening_shot_cut_time", "shots.", i, ".cut_at_seconds")
                   else p.shots[i].cutAt.None? && Names(d, "later_shot_missing_cut_time", "shots.", i, ".cut_at_seconds")
    ensures d in Found(CutOrder, p)
            <==> exists i: nat :: i < |p.shots| && CutTooSoon(p, i) && Names(d, "cut_time_not_increasing", "shots.", i, ".cut_at_seconds")
    ensures d in Found(StyleOnce, p)
            <==> exists i: nat :: i < |p.shots| && StyleNamed(p.shots[i].style, i, d)
  {
    hide Collected, At, Names, CutTooSoon, StyleNamed;
    CollectedHolds(OpeningCut, p, |p.shots|, d);
    CollectedHolds(CutOrder, p, |p.shots|, d);
    CollectedHolds(StyleOnce, p, |p.shots|, d);
    forall i: nat | i < |p.shots|
      ensures d in At(OpeningCut, p, i) <==>
        if i == 0 then p.shots[i].cutAt.Some? && Names(d, "opening_shot_cut_time", "shots.", i, ".cut_at_seconds")
        else p.shots[i].cutAt.None? && Names(d, "later_shot_missing_cut_time", "shots.", i, ".cut_at_seconds")
      ensures d in At(CutOrder, p, i) <==> CutTooSoon(p, i) && Names(d, "cut_time_not_increasing", "shots.", i, ".cut_at_seconds")
      ensures d in At(StyleOnce, p, i) <==> StyleNamed(p.shots[i].style, i, d)
    {
      OpeningNamed(p, d, i);
      OrderNamed(p, d, i);
      StyleIsNamed(p, d, i);
    }
  }

  predicate StyleNamed(style: Option<string>, i: nat, d: Defect) {
    || (i == 0 && style.None? && Names(d, "style_not_declared", "shots.", 0, ".style"))
    || (i == 0 && style.Some? && !IsStyle(style.value) && Names(d, "style_unknown", "shots.", 0, ".style"))
    || (i > 0 && style.Some? && Names(d, "style_restated", "shots.", i, ".style"))
  }

  lemma ZeroDotted()
    ensures "shots." + Digits(0) + ".cut_at_seconds" == "shots.0.cut_at_seconds" && "shots." + Digits(0) + ".style" == "shots.0.style"
  {
    assert Digits(0) == "0";
  }

  lemma OpeningNamed(p: StructuredPrompt, d: Defect, i: nat)
    requires i < |p.shots|
    ensures d in At(OpeningCut, p, i) <==>
      if i == 0 then p.shots[i].cutAt.Some? && Names(d, "opening_shot_cut_time", "shots.", i, ".cut_at_seconds")
      else p.shots[i].cutAt.None? && Names(d, "later_shot_missing_cut_time", "shots.", i, ".cut_at_seconds")
  {
    ZeroDotted();
    Dotted("shots." + Digits(i));
    hide Digits;
  }

  lemma OrderNamed(p: StructuredPrompt, d: Defect, i: nat)
    requires i < |p.shots|
    ensures d in At(CutOrder, p, i) <==> CutTooSoon(p, i) && Names(d, "cut_time_not_increasing", "shots.", i, ".cut_at_seconds")
  {
    PreviousCutIs(p, i, i);
    Dotted("shots." + Digits(i));
    hide Digits, LatestCut, PreviousCut;
  }

  lemma StyleIsNamed(p: StructuredPrompt, d: Defect, i: nat)
    requires i < |p.shots|
    ensures d in At(StyleOnce, p, i) <==> StyleNamed(p.shots[i].style, i, d)
  {
    ZeroDotted();
    assert "shots." + Digits(i) + "." + "style" == "shots." + Digits(i) + ".style" by { assert "." + "style" == ".style"; }
    if p.shots[i].style.Some? { Vocabularies(p.shots[i].style.value); }
    hide Digits, IsStyle, VISUAL_STYLES;
  }

  lemma DefinitionNamed(p: StructuredPrompt, d: Defect, i: nat)
    requires i < |p.definitions|
    ensures d in At(DefinitionsUsed, p, i)
            <==> !TagUsed(p, p.definitions[i].tag) && Names(d, "reference_definition_unused", "subject_definitions.", i, ".label")
  {
    UsedIs(p, p.definitions[i].tag);
    hide TagUsed, Used, Digits;
  }

  lemma RetentionNamed(p: StructuredPrompt, d: Defect, i: nat)
    requires i < |p.retention|
    ensures d in At(RetentionMarkers, p, i)
            <==> !MarkerFits(p.retention[i]) && Names(d, "retention_marker_unknown", "retention_analysis.", i, ".marker")
    ensures d in At(SpeakersInRetention, p, i)
            <==> (NamesSpeaker(p.retention[i].detail) || NamesSpeaker(p.retention[i].scope))
                 && Names(d, "speaker_id_in_retention", "retention_analysis.", i, ".detail")
  {
    Vocabularies(p.retention[i].marker);
    NamesSpeakerExactly(p.retention[i].detail);
    NamesSpeakerExactly(p.retention[i].scope);
    Dotted("retention_analysis." + Digits(i));
    hide NamesSpeaker, MentionsSpeaker, Digits;
  }

  /** What the checks of the reference sections name. */
  lemma SectionsNamed(p: StructuredPrompt, d: Defect)
    ensures d in Found(DefinitionsUsed, p)
            <==> exists i: nat :: i < |p.definitions| && !TagUsed(p, p.definitions[i].tag)
                   && Names(d, "reference_definition_unused", "subject_definitions.", i, ".label")
    ensures d in Found(RetentionMarkers, p)
            <==> exists i: nat :: i < |p.retention| && !MarkerFits(p.retention[i])
                   && Names(d, "retention_marker_unknown", "retention_analysis.", i, ".marker")
    ensures d in Found(SpeakersInRetention, p)
            <==> exists i: nat :: i < |p.retention| && (NamesSpeaker(p.retention[i].detail) || NamesSpeaker(p.retention[i].scope))
                   && Names(d, "speaker_id_in_retention", "retention_analysis.", i, ".detail")
  {
    hide Collected, At, Names, TagUsed, MarkerFits, NamesSpeaker;
    CollectedHolds(DefinitionsUsed, p, |p.definitions|, d);
    CollectedHolds(RetentionMarkers, p, |p.retention|, d);
    CollectedHolds(SpeakersInRetention, p, |p.retention|, d);
    forall i: nat | i < |p.definitions|
      ensures d in At(DefinitionsUsed, p, i)
              <==> !TagUsed(p, p.definitions[i].tag) && Names(d, "reference_definition_unused", "subject_definitions.", i, ".label")
    {
      DefinitionNamed(p, d, i);
    }
    forall i: nat | i < |p.retention|
      ensures d in At(RetentionMarkers, p, i)
              <==> !MarkerFits(p.retention[i]) && Names(d, "retention_marker_unknown", "retention_analysis.", i, ".marker")
      ensures d in At(SpeakersInRetention, p, i)
              <==> (NamesSpeaker(p.retention[i].detail) || NamesSpeaker(p.retention[i].scope))
                   && Names(d, "speaker_id_in_retention", "retention_analysis.", i, ".detail")
    {
      RetentionNamed(p, d, i);
    }
  }

  // ------------------------------------------------------------------ acceptance

  /** Acceptance on the fields, all fourteen checks at once: nothing but this is asked of a
      prompt before it is rendered. */
  lemma AcceptedExactly(p: StructuredPrompt)
    ensures Accepted(p) <==> ValidFields(p) && SectionsMatchMode(p) && BasePasses(p) && (p.mode == Ref2VA ==> ReferencePasses(p))
  {
    hide Found, BasePasses, ReferencePasses, SectionsMatchMode;
    if ValidFields(p) {
      BasePassesExactly(p);
      ReferencePassesExactly(p);
      hide ValidFields;
      EachCheck(p);
    }
  }

  ghost predicate BaseFound(p: StructuredPrompt) {
    && Found(OpeningCut, p) == [] && Found(Numbering, p) == [] && Found(CutOrder, p) == [] && Found(CutInside, p) == []
    && Found(Delimiters, p) == [] && Found(SpeakerOrder, p) == [] && Found(CameraValues, p) == []
    && Found(CutPhraseValues, p) == [] && Found(StyleOnce, p) == []
  }

  ghost predicate ReferenceFound(p: StructuredPrompt) {
    && Found(LabelsResolve, p) == [] && Found(DefinitionsUsed, p) == [] && Found(RetentionMarkers, p) == []
    && Found(SpeakersInRetention, p) == [] && Found(TaskTypeValues, p) == []
  }

  lemma AppliesExactly(rule: Rule, p: StructuredPrompt)
    ensures Applies(rule, p)
            <==> p.mode == Ref2VA || rule !in {LabelsResolve, DefinitionsUsed, RetentionMarkers, SpeakersInRetention, TaskTypeValues}
  {
  }

  lemma FoundByRule(p: StructuredPrompt, rule: Rule)
    requires BaseFound(p) && (ReferenceFound(p)
             || rule !in {LabelsResolve, DefinitionsUsed, RetentionMarkers, SpeakersInRetention, TaskTypeValues})
    ensures Found(rule, p) == []
  {
    hide Found;
    match rule
    case OpeningCut => case Numbering => case CutOrder => case CutInside => case Delimiters => case SpeakerOrder =>
    case CameraValues => case CutPhraseValues => case StyleOnce => case LabelsResolve => case DefinitionsUsed =>
    case RetentionMarkers => case SpeakersInRetention => case TaskTypeValues =>
  }

  lemma EachCheck(p: StructuredPrompt)
    ensures Clean(p, CHECKS) <==> BaseFound(p) && (p.mode == Ref2VA ==> ReferenceFound(p))
  {
    hide Found, Applies;
    forall rule ensures Applies(rule, p)
              <==> p.mode == Ref2VA || rule !in {LabelsResolve, DefinitionsUsed, RetentionMarkers, SpeakersInRetention, TaskTypeValues} {
      AppliesExactly(rule, p);
    }
    if Clean(p, CHECKS) {
      forall rule | Applies(rule, p) ensures Found(rule, p) == [] { CleanRule(p, rule); }
      assert Found(OpeningCut, p) == [] && Found(Numbering, p) == [] && Found(CutOrder, p) == [] && Found(CutInside, p) == [];
      assert BaseFound(p);
    }
    hide CHECKS;
    if BaseFound(p) && (p.mode == Ref2VA ==> ReferenceFound(p)) {
      forall rule | Applies(rule, p) ensures Found(rule, p) == [] { FoundByRule(p, rule); }
    }
  }

  lemma BasePassesExactly(p: StructuredPrompt)
    requires ValidFields(p)
    ensures BaseFound(p) <==> BasePasses(p)
  {
    hide Found, Windows, SpeakersPass, ShotPasses, ValidFields;
    PlacesExactly(p);
    if CutsInPlace(p) { WindowsExactly(p); }
    SpeakersPassExactly(p);
    ShotsPassExactly(p);
  }

  lemma ReferencePassesExactly(p: StructuredPrompt)
    ensures ReferenceFound(p) <==> ReferencePasses(p)
  {
    hide Found, TagUsed, TagDefined, MarkerFits, NamesSpeaker, IsTaskType;
    LabelsPassExactly(p);
    DefinitionsPassExactly(p);
    MarkersPassExactly(p);
    SpeakersInRetentionExactly(p);
    TaskTypesPassExactly(p);
  }

  // ---------------------------------------------------- full-reference prompts

  /** One shot that shows one reference, which one entry retains. */
  function OneReference(kind: string, marker: string, description: string): StructuredPrompt {
    var tag := "<" + kind + " 1>";
    StructuredPrompt(Ref2VA, 5.0, [Shot(1, None, None, Some("Cinematic"), description, None, [], [], [tag])], "N/A", "N/A",
                     [ReferenceDefinition(tag, "the lead", None)], Some(PromptSummary(["video editing"], "An edit")),
                     [RetentionEntry(tag, marker, "", "as is")])
  }

  /** Full-reference prompts of each kind are accepted: exactly those whose marker is of the table
      of their kind. */
  lemma OneReferenceAcceptedExactly(kind: string, marker: string, description: string)
    requires kind in {"Subject", "Picture", "Video", "Audio"} && marker != ""
    requires Undelimited(description) && Sized(description, 1, 2000)
    ensures Accepted(OneReference(kind, marker, description))
            <==> if kind == "Audio" then KeepsAudio(marker) else KeepsVisual(marker)
  {
    var p := OneReference(kind, marker, description);
    AcceptedExactly(p);
    TagOfKind(kind);
    hide Accepted, KeepsAudio, KeepsVisual, Undelimited, IsLabel;
    assert ValidFields(p);
    OneReferencePasses(kind, marker, description);
    OneShotPasses(kind, marker, description);
  }

  lemma TagOfKind(kind: string)
    requires kind in {"Subject", "Picture", "Video", "Audio"}
    ensures var tag := "<" + kind + " 1>"; IsLabel(tag) && ("<Audio " <= tag <==> kind == "Audio")
  {
    var tag := "<" + kind + " 1>";
    var k: nat := if kind == "Subject" then 0 else if kind == "Picture" then 1 else if kind == "Video" then 2 else 3;
    assert REFERENCE_LABEL_KINDS[k] == kind;
    var open := "<" + kind + " ";
    assert tag == open + "1>" && tag[|open|..|tag| - 1] == "1";
    assert LabelOf(tag, "<" + REFERENCE_LABEL_KINDS[k] + " ");
    assert tag[1] == kind[0] && "<Audio "[1] == 'A';
    if kind == "Audio" { assert tag[..7] == "<Audio "; }
  }

  lemma OneShotPasses(kind: string, marker: string, description: string)
    requires Undelimited(description)
    ensures BasePasses(OneReference(kind, marker, description))
  {
    var p := OneReference(kind, marker, description);
    assert Speakers(p.shots, 1) == Speakers(p.shots, 0) + LineSpeakers([], 0) == [];
    assert Firsts([]) == [];
    assert IsStyle("Cinematic");
  }

  lemma OneReferencePasses(kind: string, marker: string, description: string)
    requires "<Audio " <= "<" + kind + " 1>" <==> kind == "Audio"
    ensures ReferencePasses(OneReference(kind, marker, description))
            <==> if kind == "Audio" then KeepsAudio(marker) else KeepsVisual(marker)
  {
    hide KeepsAudio, KeepsVisual;
    var p := OneReference(kind, marker, description);
    var tag := p.retention[0].tag;
    assert p.shots[0].labels[0] == tag && p.definitions[0].tag == tag;
    forall t: string ensures TagUsed(p, t) <==> TagDefined(p, t) {
      if TagUsed(p, t) { assert t == tag; }
      if TagDefined(p, t) { assert t == tag && p.retention[0].tag == t; }
    }
    NoSpeakerIn("as is");
    NoSpeakerIn("");
    assert IsTaskType("video editing");
  }

  lemma NoSpeakerIn(t: string)
    requires '(' !in t
    ensures !NamesSpeaker(t)
  {
    hide IsDigit;
    if c, i :| IsDigit(c) && Occurs("(S" + [c], t, i) { BracketIn(t, c, i); }
  }

  lemma BracketIn(t: string, c: char, i: int)
    requires Occurs("(S" + [c], t, i)
    ensures '(' in t
  {
    assert t[i..i + 3] == "(S" + [c];
    assert t[i] == t[i..i + 3][0];
  }
}
