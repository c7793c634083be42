/** Typed structured prompts: their fields, their composition and their speakers. */
module Prompts {
  import opened Prelude
  import opened Text
  import opened Decimal
  import opened Grammar

  datatype CameraDirection = CameraDirection(motion: string, amplitude: Option<string>, speed: Option<string>)

  datatype DialogueLine = DialogueLine(
    speakerId: string, identity: string, language: string, text: string,
    voiceover: bool, continuesAcrossCut: bool, truncatedByEnd: bool)

  datatype Shot = Shot(
    number: int, cutAt: Option<real>, cutPhrase: Option<string>, style: Option<string>, description: string,
    camera: Option<CameraDirection>, dialogue: seq<DialogueLine>, onScreenText: seq<string>, labels: seq<string>)

  datatype ReferenceDefinition = ReferenceDefinition(tag: string, definition: string, speakerId: Option<string>)

  datatype PromptSummary = PromptSummary(taskTypes: seq<string>, text: string)

  datatype RetentionEntry = RetentionEntry(tag: string, marker: string, scope: string, detail: string)

  datatype StructuredPrompt = StructuredPrompt(
    mode: Mode, duration: real, shots: seq<Shot>, soundscape: string, music: string,
    definitions: seq<ReferenceDefinition>, summary: Option<PromptSummary>, retention: seq<RetentionEntry>)

  // ------------------------------------------------------- field constraints

  predicate Sized(s: string, low: nat, high: nat) {
    low <= |s| <= high
  }

  predicate IsNumberTail(s: string) {
    1 <= |s| <= 2 && '1' <= s[0] <= '9' && (|s| == 2 ==> '0' <= s[1] <= '9')
  }

  predicate IsSpeaker(s: string) {
    |s| >= 2 && s[0] == 'S' && IsNumberTail(s[1..])
  }

  /** One speaker, or several that vocalize together. */
  predicate IsSpeakerId(s: string) {
    forall k | 0 <= k < |Split(s, ',')| :: IsSpeaker(Split(s, ',')[k])
  }

  predicate LabelOf(s: string, open: string) {
    open <= s && |s| > |open| && s[|s| - 1] == '>' && IsNumberTail(s[|open|..|s| - 1])
  }

  predicate IsLabel(s: string) {
    exists k | 0 <= k < |REFERENCE_LABEL_KINDS| :: LabelOf(s, "<" + REFERENCE_LABEL_KINDS[k] + " ")
  }

  predicate ValidLine(line: DialogueLine) {
    && IsSpeakerId(line.speakerId) && |line.identity| <= 300
    && Sized(line.language, 1, 40) && Sized(line.text, 1, 1000)
  }

  predicate ValidShot(shot: Shot) {
    && shot.number >= 1 && (shot.cutAt.Some? ==> shot.cutAt.value >= 0.0)
    && Sized(shot.description, 1, 2000)
    && (shot.camera.Some? ==> shot.camera.value.motion != "")
    && (forall k | 0 <= k < |shot.dialogue| :: ValidLine(shot.dialogue[k]))
    && (forall k | 0 <= k < |shot.labels| :: IsLabel(shot.labels[k]))
  }

  predicate ValidDefinition(d: ReferenceDefinition) {
    IsLabel(d.tag) && Sized(d.definition, 1, 600) && (d.speakerId.Some? ==> IsSpeaker(d.speakerId.value))
  }

  predicate ValidRetention(e: RetentionEntry) {
    IsLabel(e.tag) && e.marker != "" && |e.scope| <= 200 && Sized(e.detail, 1, 600)
  }

  predicate ValidSummary(s: PromptSummary) {
    |s.taskTypes| >= 1 && Sized(s.text, 1, 1200)
  }

  /** What construction of a prompt enforces, field by field. */
  predicate ValidFields(p: StructuredPrompt) {
    && 0.0 < p.duration <= 60.0 && |p.shots| >= 1
    && Sized(p.soundscape, 1, 1200) && Sized(p.music, 1, 1200)
    && (forall k | 0 <= k < |p.shots| :: ValidShot(p.shots[k]))
    && (forall k | 0 <= k < |p.definitions| :: ValidDefinition(p.definitions[k]))
    && (p.summary.Some? ==> ValidSummary(p.summary.value))
    && (forall k | 0 <= k < |p.retention| :: ValidRetention(p.retention[k]))
  }

  // -------------------------------------------------------------- composition

  /** A payload key may be missing, null, or carry a value. */
  datatype Field<T> = Missing | Null | Given(value: T) {
    predicate Present() { !Missing? }
  }

  datatype Payload = Payload(
    mode: Field<string>, duration: Field<real>, shots: Field<seq<Shot>>, soundscape: Field<string>,
    music: Field<string>, definitions: Field<seq<ReferenceDefinition>>, summary: Field<PromptSummary>,
    retention: Field<seq<RetentionEntry>>)

  datatype ComposeError = ModeUnknown | SectionSetMismatch(names: set<string>) | FieldInvalid

  predicate NothingIn<T>(f: Field<T>) {
    !f.Given?
  }

  predicate NoneIn<T>(f: Field<seq<T>>) {
    !f.Given? || |f.value| == 0
  }

  const REFERENCE_ONLY: set<string> := {"subject_definitions", "summary", "retention_analysis"}

  function When(c: bool, name: string): set<string> {
    if c then {name} else {}
  }

  /** Required sections that are missing or empty, and forbidden ones that are present. */
  function SectionDefects(mode: Mode, p: Payload): set<string> {
    When(NoneIn(p.shots), "shots")
    + When(NothingIn(p.soundscape), "overall_soundscape")
    + When(NothingIn(p.music), "non_diegetic_music")
    + (if mode == Ref2VA then
         When(NoneIn(p.definitions), "subject_definitions")
         + When(NothingIn(p.summary), "summary")
         + When(NoneIn(p.retention), "retention_analysis")
       else
         When(p.definitions.Present(), "subject_definitions")
         + When(p.summary.Present(), "summary")
         + When(p.retention.Present(), "retention_analysis"))
  }

  function ItemsOf<T>(f: Field<seq<T>>): seq<T> {
    if f.Given? then f.value else []
  }

  function Compose(p: Payload): Result<StructuredPrompt, ComposeError> {
    if !p.mode.Given? || ModeOf(p.mode.value).None? then Err(ModeUnknown) else
    var mode := ModeOf(p.mode.value).value;
    if SectionDefects(mode, p) != {} then Err(SectionSetMismatch(SectionDefects(mode, p)))
    else if !p.duration.Given? then Err(FieldInvalid) else
    assert "shots" !in SectionDefects(mode, p);
    assert "overall_soundscape" !in SectionDefects(mode, p) && "non_diegetic_music" !in SectionDefects(mode, p);
    var prompt := StructuredPrompt(
      mode, p.duration.value, p.shots.value, p.soundscape.value, p.music.value, ItemsOf(p.definitions),
      if p.summary.Given? then Some(p.summary.value) else None, ItemsOf(p.retention));
    if ValidFields(prompt) then Ok(prompt) else Err(FieldInvalid)
  }

  /** The sections a mode fixes: all six, or the three of the base modes. */
  predicate SectionsMatchMode(p: StructuredPrompt) {
    if p.mode == Ref2VA then p.summary.Some? && p.definitions != [] && p.retention != []
    else p.summary.None? && p.definitions == [] && p.retention == []
  }

  /** The payload that carries one prompt's sections and nothing else. */
  function PayloadOf(p: StructuredPrompt): Payload {
    var reference := p.mode == Ref2VA;
    Payload(Given(ModeName(p.mode)), Given(p.duration), Given(p.shots), Given(p.soundscape), Given(p.music),
            if reference then Given(p.definitions) else Missing,
            if reference && p.summary.Some? then Given(p.summary.value) else Missing,
            if reference then Given(p.retention) else Missing)
  }

  // ---------------------------------------------------------------- refusals

  /** The payload keys a mode requires. */
  function Required(mode: Mode): set<string> {
    {"shots", "overall_soundscape", "non_diegetic_music"} + (if mode == Ref2VA then REFERENCE_ONLY else {})
  }

  /** A key that is missing, null or an empty list. */
  predicate Blank(p: Payload, name: string) {
    || (name == "shots" && NoneIn(p.shots))
    || (name == "overall_soundscape" && NothingIn(p.soundscape))
    || (name == "non_diegetic_music" && NothingIn(p.music))
    || (name == "subject_definitions" && NoneIn(p.definitions))
    || (name == "summary" && NothingIn(p.summary))
    || (name == "retention_analysis" && NoneIn(p.retention))
  }

  predicate HasKey(p: Payload, name: string) {
    || (name == "subject_definitions" && p.definitions.Present())
    || (name == "summary" && p.summary.Present())
    || (name == "retention_analysis" && p.retention.Present())
  }

  /** A payload key that keeps a payload from its mode. */
  predicate Misplaced(mode: Mode, p: Payload, name: string) {
    (name in Required(mode) && Blank(p, name)) || (mode != Ref2VA && name in REFERENCE_ONLY && HasKey(p, name))
  }

  lemma DefectsAreMisplaced(mode: Mode, p: Payload, name: string)
    ensures name in SectionDefects(mode, p) <==> Misplaced(mode, p, name)
  {
  }

  /** What composition answers to every payload: an unknown mode before all else, then every
      misplaced section by name, all at once, then the fields. */
  lemma ComposeAnswers(p: Payload)
    ensures Compose(p) == Err(ModeUnknown) <==> !(exists m :: p.mode == Given(ModeName(m)))
    ensures forall m, names | p.mode == Given(ModeName(m)) ::
              Compose(p) == Err(SectionSetMismatch(names))
              <==> names != {} && forall name :: name in names <==> Misplaced(m, p, name)
    ensures forall m | p.mode == Given(ModeName(m)) :: Compose(p).Ok? || Compose(p) == Err(FieldInvalid)
              <==> forall name :: !Misplaced(m, p, name)
  {
    hide Misplaced, SectionDefects;
    forall m | p.mode == Given(ModeName(m))
      ensures ModeOf(p.mode.value) == Some(m)
      ensures forall names :: Compose(p) == Err(SectionSetMismatch(names))
                <==> names != {} && forall name :: name in names <==> Misplaced(m, p, name)
      ensures Compose(p).Ok? || Compose(p) == Err(FieldInvalid) <==> forall name :: !Misplaced(m, p, name)
    {
      ModeOfName(m);
      var found := SectionDefects(m, p);
      forall name ensures name in found <==> Misplaced(m, p, name) { DefectsAreMisplaced(m, p, name); }
      forall names ensures Compose(p) == Err(SectionSetMismatch(names))
                <==> names != {} && forall name :: name in names <==> Misplaced(m, p, name)
      {
        if forall name :: name in names <==> Misplaced(m, p, name) {
          assert names == found;
        }
      }
      if found == {} {
        forall name ensures !Misplaced(m, p, name) { assert name !in found; }
      } else {
        var name :| name in found;
        assert Misplaced(m, p, name);
      }
    }
  }

  lemma ModeOfName(m: Mode)
    ensures ModeOf(ModeName(m)) == Some(m)
  {
  }

  /** A composed prompt holds what its payload gave, key by key, and an absent section is empty. */
  lemma ComposedKeeps(p: Payload)
    requires Compose(p).Ok?
    ensures var q := Compose(p).value;
      && p.mode == Given(ModeName(q.mode)) && p.duration == Given(q.duration) && p.shots == Given(q.shots)
      && p.soundscape == Given(q.soundscape) && p.music == Given(q.music)
      && (if p.definitions.Given? then p.definitions.value == q.definitions else q.definitions == [])
      && (if p.summary.Given? then q.summary == Some(p.summary.value) else q.summary == None)
      && (if p.retention.Given? then p.retention.value == q.retention else q.retention == [])
  {
    var mode := ModeOf(p.mode.value).value;
    assert "shots" !in SectionDefects(mode, p) && "overall_soundscape" !in SectionDefects(mode, p);
    assert "non_diegetic_music" !in SectionDefects(mode, p);
  }

  /** Composition returns exactly the prompts whose fields are valid and whose sections are
      the ones their mode fixes. */
  lemma ComposedExactly(p: StructuredPrompt)
    ensures (exists payload :: Compose(payload) == Ok(p)) <==> ValidFields(p) && SectionsMatchMode(p)
  {
    if payload :| Compose(payload) == Ok(p) {
      assert "subject_definitions" !in SectionDefects(p.mode, payload);
      assert "summary" !in SectionDefects(p.mode, payload);
      assert "retention_analysis" !in SectionDefects(p.mode, payload);
    }
    if ValidFields(p) && SectionsMatchMode(p) {
      assert ModeOf(ModeName(p.mode)) == Some(p.mode);
      assert SectionDefects(p.mode, PayloadOf(p)) == {};
      assert Compose(PayloadOf(p)) == Ok(p);
    }
  }

  // ----------------------------------------------------------------- speakers

  /** First occurrences, in order. */
  function Firsts(ids: seq<string>): (r: seq<string>)
    ensures forall x :: x in r <==> x in ids
    ensures Distinct(r)
  {
    if ids == [] then []
    else
      var n := |ids| - 1;
      var r := Firsts(ids[..n]);
      if ids[n] in r then r else r + [ids[n]]
  }

  /** The speakers of the first `n` lines of a shot. */
  function LineSpeakers(lines: seq<DialogueLine>, n: nat): seq<string>
    requires n <= |lines|
  {
    if n == 0 then [] else LineSpeakers(lines, n - 1) + Split(lines[n - 1].speakerId, ',')
  }

  /** Every speaker of the first `n` shots, in the order they vocalize. */
  function Speakers(shots: seq<Shot>, n: nat): seq<string>
    requires n <= |shots|
  {
    if n == 0 then [] else Speakers(shots, n - 1) + LineSpeakers(shots[n - 1].dialogue, |shots[n - 1].dialogue|)
  }

  lemma FirstsStep(before: seq<string>, ids: seq<string>, k: nat)
    requires k < |ids|
    ensures var seen := Firsts(before + ids[..k]);
      Firsts(before + ids[..k + 1]) == if ids[k] in seen then seen else seen + [ids[k]]
  {
    assert (before + ids[..k + 1])[..|before| + k] == before + ids[..k];
  }

  lemma SpeakersStep(shots: seq<Shot>, i: nat, j: nat)
    requires i < |shots| && j < |shots[i].dialogue|
    ensures var lines, before := shots[i].dialogue, Speakers(shots, i) + LineSpeakers(shots[i].dialogue, j);
      && before + Split(lines[j].speakerId, ',') == Speakers(shots, i) + LineSpeakers(lines, j + 1)
      && before + Split(lines[j].speakerId, ',')[..0] == before
      && Split(lines[j].speakerId, ',')[..|Split(lines[j].speakerId, ',')|] == Split(lines[j].speakerId, ',')
  {
    hide Split, Speakers;
    var lines := shots[i].dialogue;
    assert Speakers(shots, i) + LineSpeakers(lines, j) + Split(lines[j].speakerId, ',')
           == Speakers(shots, i) + (LineSpeakers(lines, j) + Split(lines[j].speakerId, ','));
  }

  method SpeakerIds(shots: seq<Shot>) returns (seen: seq<string>)
    ensures seen == Firsts(Speakers(shots, |shots|))
  {
    hide Firsts, Split;
    seen := [];
    assert Firsts([]) == [] by { FirstsOfNothing(); }
    for i := 0 to |shots|
      invariant seen == Firsts(Speakers(shots, i))
    {
      var lines := shots[i].dialogue;
      assert Speakers(shots, i) + LineSpeakers(lines, 0) == Speakers(shots, i);
      for j := 0 to |lines|
        invariant seen == Firsts(Speakers(shots, i) + LineSpeakers(lines, j))
      {
        var ids := Split(lines[j].speakerId, ',');
        ghost var before := Speakers(shots, i) + LineSpeakers(lines, j);
        SpeakersStep(shots, i, j);
        for k := 0 to |ids|
          invariant seen == Firsts(before + ids[..k])
        {
          FirstsStep(before, ids, k);
          if ids[k] !in seen { seen := seen + [ids[k]]; }
        }
      }
    }
  }

  lemma FirstsOfNothing()
    ensures Firsts([]) == []
  {
  }
}
