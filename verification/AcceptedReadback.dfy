/** When the dialogue of an accepted prompt reads back, asked of its free texts. */
module AcceptedReadback {
  import opened Prelude
  import opened Text
  import opened Grammar
  import opened Decimal
  import opened CutTimes
  import opened Prompts
  import opened Validation
  import opened Containment
  import opened Render
  import opened Pieces
  import opened RenderLaws
  import opened Scanner
  import opened DialogueLaws
  import opened Readings
  import opened ReadbackLaws

  // ------------------------------------------------------ the sound sections

  /** What is asked of the two sound sections: neither utters anything, and the music does not
      close an utterance the soundscape opens. */
  predicate SoundsMute(p: StructuredPrompt) {
    Mute(p.soundscape) && Mute(p.music) && (Quiet(p.soundscape) || !Contains(p.music, DIALOGUE_CLOSE))
  }

  lemma SoundsMuteExactly(p: StructuredPrompt)
    ensures Together(SoundTexts(p)).mute <==> SoundsMute(p)
  {
    hide Scan, Contains;
    TogetherExactly(SoundTexts(p));
    assert SoundTexts(p)[0] == p.soundscape && SoundTexts(p)[1] == p.music;
  }

  /** The text after the shots is mute exactly when the sound sections are. */
  lemma SoundTailExactly(p: StructuredPrompt)
    ensures Mute(SoundTail(p)) <==> SoundsMute(p)
    ensures HeadSafe(SoundTail(p)) && HeadFirm(SoundTail(p))
  {
    SoundHead(p);
    SoundsMuteExactly(p);
    SoundTailReads(p, "");
    AnglelessIsSilent("");
    hide SoundTail, Together, SoundsMute, Mute, HeadSafe, HeadFirm;
    assert "" + SoundTail(p) == SoundTail(p);
  }

  lemma SoundHead(p: StructuredPrompt)
    ensures HeadSafe(SoundTail(p)) && HeadFirm(SoundTail(p))
  {
    assert SoundTail(p)[0] == '\n';
  }

  lemma SoundLiterals(gap: string)
    requires gap in {"\n", " "}
    ensures Angleless(SECTION_SEPARATOR + ("overall_soundscape:" + gap))
    ensures var between := SECTION_SEPARATOR + ("non_diegetic_music:" + gap);
      Angleless(between) && Literal(between) && HeadFirm(between)
  {
    var between := SECTION_SEPARATOR + ("non_diegetic_music:" + gap);
    assert between[0] == '\n';
  }

  // ----------------------------------------------------------- accepted prompts

  /** A text that reads back its lines between a lead and a mute-or-not tail. */
  lemma ReadsAround(lead: string, t: string, tail: string, c: seq<string>)
    requires Yields(t, c) && HeadSafe(tail) && t != "" && HeadFirm(t) && c != []
    ensures Scan(lead + t + tail) == c <==> Quiet(lead) && Mute(tail)
  {
    hide Contains, Find;
    assert Scan(t + tail) == c + Scan(tail);
    assert (t + tail)[0] == t[0];
    assert lead + t + tail == lead + (t + tail);
    hide Scan;
    if Quiet(lead) {
      FreeYields(lead);
      assert Scan(lead + (t + tail)) == [] + Scan(t + tail);
      if c + Scan(tail) == c { assert |c + Scan(tail)| == |c|; } else { assert Scan(tail) != []; }
    } else {
      OpenLeadSpoils(lead, t + tail);
      assert (c + Scan(tail))[0] == c[0];
    }
  }

  /** The text of an accepted shot without dialogue holds neither delimiter. */
  lemma SilentShotLacks(p: StructuredPrompt, i: nat, pat: string)
    requires Accepted(p) && CallerTextInert(p) && i < |p.shots| && p.shots[i].dialogue == [] && IsDelimiter(pat)
    ensures ValidShot(p.shots[i]) && ShotText(p.shots[i], i == 0).Ok? && Lacks(ShotText(p.shots[i], i == 0).value, pat)
  {
    hide Lacks, Clean, Inert, Opening, CameraSentence, ScreenClause, Join, IsLabel, ValidLine, IsDelimiter, Neutral, ShotLacks;
    AcceptedShotRenders(p, i);
    AcceptedShotLacks(p, i, pat);
    var shot := p.shots[i];
    var camera := CameraSentence(shot).value;
    OpeningLacks(shot, i == 0, pat);
    CameraLacks(shot, pat);
    ScreenLacks(shot, pat);
    var parts := ShotParts(shot, i == 0, camera);
    forall k | 0 <= k < |parts| ensures Lacks(parts[k], pat) {
      if k >= |Opening(shot, i == 0)| { assert parts[k] in {camera, ScreenClause(shot)}; }
    }
    NeutralMarks();
    JoinLacks(" ", parts, pat);
  }

  lemma SilentTimelineLacks(p: StructuredPrompt, pat: string)
    requires Accepted(p) && CallerTextInert(p) && SpokenIn(p) == [] && IsDelimiter(pat)
    ensures Timeline(p).Ok? && Lacks(Timeline(p).value, pat)
  {
    hide Lacks, Clean, Join, ShotText, Inert, ValidShot, IsDelimiter, Neutral;
    AcceptedBodyRenders(p);
    ShotTextsExact(p.shots, |p.shots|);
    var texts := ShotTexts(p.shots, |p.shots|).value;
    forall k | 0 <= k < |texts| ensures Lacks(texts[k], pat) {
      if p.shots[k].dialogue != [] {
        var first := Spoken(p.shots[k].dialogue[0]);
        assert SpokenLines(p.shots[k].dialogue)[0] == first;
        FlatPoint(SpokenShots(p.shots), k, first);
      }
      SilentShotLacks(p, k, pat);
    }
    NeutralMarks();
    JoinLacks(" ", texts, pat);
  }

  lemma TimelineHead(p: StructuredPrompt)
    requires ValidFields(p) && Timeline(p).Ok?
    ensures Timeline(p).value != "" && HeadFirm(Timeline(p).value)
  {
    hide FormatCutTime, CameraSentence, ScreenClause, Digits, DialogueClause, ValidShot;
    ShotTextsExact(p.shots, |p.shots|);
    var texts := ShotTexts(p.shots, |p.shots|).value;
    var first := p.shots[0];
    assert ValidShot(first);
    ShotHead(first);
    assert ShotText(first, 0 == 0) == Ok(texts[0]);
    assert Join(" ", texts)[0] == texts[0][0];
  }

  lemma ShotHead(shot: Shot)
    requires ValidShot(shot) && ShotText(shot, true).Ok?
    ensures ShotText(shot, true).value != "" && ShotText(shot, true).value[0] == '['
  {
    hide FormatCutTime, CameraSentence, ScreenClause, Digits, DialogueClause, IsLabel, ValidLine, Modifier;
    var parts := ShotParts(shot, true, CameraSentence(shot).value);
    assert parts[0] == "[Shot " + Digits(shot.number) + "]";
    assert Join(" ", parts)[0] == parts[0][0];
  }

  // ------------------------------------------------- the texts before the shots

  /** In full-reference mode the text before the shots opens no utterance exactly when none of
      its free texts does. */
  lemma PreambleQuietExactly(p: StructuredPrompt, header: string)
    requires ValidFields(p) && VocabularyQuiet(p) && p.mode == Ref2VA && p.summary.Some?
    ensures Quiet(Preamble(p, header)) <==> ReferenceQuiet(p)
  {
    PreambleReads(p, header);
    TogetherExactly(ReferenceTexts(p));
    hide Preamble, Together, Quiet;
    ReferenceTextsQuiet(p);
  }

  lemma {:induction false} FlatQuiet(parts: seq<seq<string>>)
    ensures AllQuiet(Flat(parts)) <==> forall k | 0 <= k < |parts| :: AllQuiet(parts[k])
  {
    hide Quiet;
    if parts == [] {
    } else {
      FlatQuiet(parts[1..]);
      QuietParts(parts[0], Flat(parts[1..]));
      assert forall k | 0 <= k < |parts[1..]| :: parts[1..][k] == parts[k + 1];
      hide AllQuiet;
      assert (forall k | 0 <= k < |parts| :: AllQuiet(parts[k]))
             <==> AllQuiet(parts[0]) && forall k | 0 <= k < |parts[1..]| :: AllQuiet(parts[1..][k]);
    }
  }

  lemma QuietParts(a: seq<string>, b: seq<string>)
    ensures AllQuiet(a + b) <==> AllQuiet(a) && AllQuiet(b)
  {
    hide Quiet;
    assert forall k | 0 <= k < |a| :: (a + b)[k] == a[k];
    assert forall k | 0 <= k < |b| :: (a + b)[|a| + k] == b[k];
  }

  lemma ReferenceTextsQuiet(p: StructuredPrompt)
    requires VocabularyQuiet(p) && p.mode == Ref2VA && p.summary.Some?
    ensures AllQuiet(ReferenceTexts(p)) <==> ReferenceQuiet(p)
  {
    hide Quiet, Flat;
    var s, ds, es := p.summary.value, DefinitionTexts(p.definitions), RetentionTexts(p.retention);
    QuietParts(Flat(ds) + (s.taskTypes + [s.text]), Flat(es));
    QuietParts(Flat(ds), s.taskTypes + [s.text]);
    QuietParts(s.taskTypes, [s.text]);
    FlatQuiet(ds);
    FlatQuiet(es);
    forall k | 0 <= k < |ds| ensures AllQuiet(ds[k]) <==> Quiet(p.definitions[k].definition) {
      assert ds[k][0] == p.definitions[k].definition;
    }
    forall k | 0 <= k < |es| ensures AllQuiet(es[k]) <==> Quiet(p.retention[k].scope) && Quiet(p.retention[k].detail) {
      assert es[k][0] == p.retention[k].scope && es[k][1] == p.retention[k].marker && es[k][2] == p.retention[k].detail;
    }
    assert AllQuiet([s.text]) <==> Quiet(s.text) by { assert [s.text][0] == s.text; }
    assert AllQuiet(s.taskTypes);
  }

  /** The texts around the shots, read together, in every mode. */
  lemma SectionsRead(p: StructuredPrompt)
    requires ValidFields(p) && Assembled(p)
    ensures Quiet(Preamble(p, AlignmentHeader(p).value)) <==> AllQuiet(ReferenceTexts(p))
    ensures Mute(Preamble(p, AlignmentHeader(p).value) + SoundTail(p)) <==> MuteTogether(ReferenceTexts(p) + SoundTexts(p))
  {
    var lead := Preamble(p, AlignmentHeader(p).value);
    if p.mode == Ref2VA {
      PreambleReads(p, AlignmentHeader(p).value);
    } else {
      BasePreambleIsQuiet(p);
      QuietIsMute(lead);
    }
    hide ValidFields, AlignmentHeader, Preamble, SoundTail, SoundTexts, Mute, Contains, MuteTogether, AllQuiet;
    SoundTailReads(p, lead);
    TogetherCat(ReferenceTexts(p), SoundTexts(p));
    TogetherExactly(ReferenceTexts(p));
    TogetherExactly(ReferenceTexts(p) + SoundTexts(p));
  }

  /** For every accepted prompt that renders, whatever its mode, only its free-text sections and
      language tags are left to ask about. With dialogue it reads back exactly if and only if no
      language tag holds the closing delimiter, no text before the shots holds the opening one,
      and the sound sections are mute; without dialogue, if and only if none of the texts around
      the shots utters anything and none closes what an earlier one opens. */
  lemma AcceptedDialogueRoundTrip(p: StructuredPrompt)
    requires Accepted(p) && RenderPrompt(p).Ok?
    ensures Scan(RenderPrompt(p).value) == SpokenIn(p)
            <==> LanguagesSealed(p)
                 && if SpokenIn(p) == [] then MuteTogether(ReferenceTexts(p) + SoundTexts(p))
                    else AllQuiet(ReferenceTexts(p)) && SoundsMute(p)
    ensures p.mode != Ref2VA ==>
      (Scan(RenderPrompt(p).value) == SpokenIn(p) <==> LanguagesSealed(p) && SoundsMute(p))
    ensures p.mode == Ref2VA && SpokenIn(p) != [] ==>
      (Scan(RenderPrompt(p).value) == SpokenIn(p) <==> LanguagesSealed(p) && ReferenceQuiet(p) && SoundsMute(p))
  {
    hide Contains, Clean, ValidFields, RenderPrompt, AlignmentHeader, Scan, SpokenIn, LanguagesSealed, Preamble, SoundTail,
         Yields, CallerTextInert, Body, Timeline, WireOf, SoundsMute, HeadFirm, HeadSafe, ReferenceQuiet, VocabularyQuiet,
         MuteTogether, AllQuiet, Together, ReferenceTexts, SoundTexts;
    RenderedIs(p);
    BodySplits(p);
    SoundTailExactly(p);
    SectionsRead(p);
    TogetherExactly(ReferenceTexts(p));
    AcceptedSections(p);
    var lead, tail, wire := Preamble(p, AlignmentHeader(p).value), SoundTail(p), RenderPrompt(p).value;
    if LanguagesSealed(p) {
      forall i | 0 <= i < |p.shots| ensures ShotQuiet(p.shots[i]) { AcceptedShotLacks(p, i, DIALOGUE_OPEN); }
      TimelineYields(p);
      TimelineHead(p);
      var t := Timeline(p).value;
      if SpokenIn(p) == [] {
        SilentTimelineLacks(p, DIALOGUE_OPEN);
        SilentTimelineLacks(p, DIALOGUE_CLOSE);
        SilentBetween(lead, t, tail);
      } else {
        ReadsAround(lead, t, tail, SpokenIn(p));
      }
    } else {
      UnsealedIsLost(p, wire);
    }
  }

  lemma AcceptedSections(p: StructuredPrompt)
    requires Accepted(p)
    ensures p.mode == Ref2VA ==> (AllQuiet(ReferenceTexts(p)) <==> ReferenceQuiet(p))
    ensures p.mode != Ref2VA ==> ReferenceTexts(p) == [] && AllQuiet(ReferenceTexts(p))
    ensures p.mode != Ref2VA ==> (MuteTogether(ReferenceTexts(p) + SoundTexts(p)) <==> SoundsMute(p))
  {
    AcceptedVocabularyQuiet(p);
    if p.mode == Ref2VA {
      hide Clean, VocabularyQuiet, ValidFields, ReferenceTexts, ReferenceQuiet, AllQuiet;
      ReferenceTextsQuiet(p);
    } else {
      assert ReferenceTexts(p) + SoundTexts(p) == SoundTexts(p);
      SoundsMuteExactly(p);
      TogetherExactly(SoundTexts(p));
    }
  }

  /** In the base modes what comes before the shots is the service's own literal text. */
  lemma BasePreambleIsQuiet(p: StructuredPrompt)
    requires ValidFields(p) && AlignmentHeader(p).Ok? && p.mode != Ref2VA
    ensures Quiet(Preamble(p, AlignmentHeader(p).value))
  {
    hide Contains, ValidFields, AlignmentHeader, NoOpening;
    var header, lead := AlignmentHeader(p).value, Preamble(p, AlignmentHeader(p).value);
    HeaderNoOpening(p);
    assert NoOpening("integrated_multimodal_description: ") by { AnglelessIsQuiet("integrated_multimodal_description: "); }
    assert NoOpening(SECTION_SEPARATOR) by { AnglelessIsQuiet(SECTION_SEPARATOR); }
    if header != "" { Three(header, SECTION_SEPARATOR, "integrated_multimodal_description: "); }
    NoOpeningIsQuiet(lead);
  }

  lemma QuietIsMute(s: string)
    requires Quiet(s)
    ensures Mute(s)
  {
    hide Contains;
  }

  // --------------------------------------------------- quiet service text

  /** For every prompt that renders with no opening delimiter in the spans the service wrote,
      the reader gets back exactly every line as `[language] text` in shot and line order, if
      and only if no language tag holds the closing delimiter. */
  lemma DialogueRoundTrip(p: StructuredPrompt)
    requires ValidFields(p) && RenderPrompt(p).Ok? && ServiceQuiet(p)
    ensures Scan(RenderPrompt(p).value) == SpokenIn(p) <==> LanguagesSealed(p)
  {
    hide Contains, ValidFields, RenderPrompt, AlignmentHeader, Scan, SpokenIn, LanguagesSealed, Preamble, SoundTail, ShotQuiet,
         Yields, CallerTextInert, Body, Timeline, WireOf, SoundsMute, HeadFirm, HeadSafe, ReferenceQuiet, VocabularyQuiet;
    RenderedIs(p);
    BodySplits(p);
    SoundTailExactly(p);
    var lead, t, tail := Preamble(p, AlignmentHeader(p).value), Timeline(p).value, SoundTail(p);
    if LanguagesSealed(p) {
      QuietPreamble(p);
      QuietSounds(p);
      TimelineYields(p);
      TimelineHead(p);
      HeardAfter(lead, t, tail, SpokenIn(p), []);
      assert SpokenIn(p) + [] == SpokenIn(p);
    } else {
      UnsealedIsLost(p, RenderPrompt(p).value);
    }
  }

  lemma QuietPreamble(p: StructuredPrompt)
    requires ValidFields(p) && Assembled(p) && VocabularyQuiet(p) && ReferenceQuiet(p)
    ensures Quiet(Preamble(p, AlignmentHeader(p).value))
  {
    hide Contains, ValidFields, AlignmentHeader, Preamble, VocabularyQuiet, ReferenceQuiet, Timeline;
    if p.mode == Ref2VA {
      PreambleQuietExactly(p, AlignmentHeader(p).value);
    } else {
      BasePreambleIsQuiet(p);
    }
  }

  lemma QuietSounds(p: StructuredPrompt)
    requires Quiet(p.soundscape) && Quiet(p.music)
    ensures SoundsMute(p)
  {
    hide Scan, Contains;
    QuietIsMute(p.soundscape);
    QuietIsMute(p.music);
  }

  // ------------------------------------------- the checks do not suffice

  const OVERHEARD: string := "<d>" + "x" + "</d>"

  /** The checks alone do not give the round trip. Whatever accepted base-mode prompt renders
      and reads back exactly, giving its soundscape the text of an utterance leaves it accepted
      and rendering, and the reader then hears one line that no shot speaks. */
  lemma UncheckedSoundscapeSpeaks(p: StructuredPrompt, q: StructuredPrompt)
    requires Accepted(p) && p.mode != Ref2VA && RenderPrompt(p).Ok? && SectionsQuiet(p) && LanguagesSealed(p)
    requires q == p.(soundscape := OVERHEARD)
    ensures Accepted(q) && RenderPrompt(q).Ok? && SpokenIn(q) == SpokenIn(p)
    ensures Scan(RenderPrompt(q).value) == SpokenIn(q) + ["x"]
  {
    hide Accepted, RenderPrompt, Scan, SpokenShots, Expressible, Inert, ModesOf;
    StaysAccepted(p, q);
    AcceptedRendersExactly(p);
    AcceptedRendersExactly(q);
    hide CallerTextInert;
    SoundscapeHeard(q);
  }

  lemma StaysAccepted(p: StructuredPrompt, q: StructuredPrompt)
    requires Accepted(p) && p.mode != Ref2VA && q == p.(soundscape := OVERHEARD)
    ensures Accepted(q)
  {
    hide At, Length, Mentions, SpeakerDefects, ValidShot, ValidDefinition, ValidRetention, ModesOf;
    forall k | 0 <= k < |CHECKS| && Applies(CHECKS[k], q) ensures Found(CHECKS[k], q) == [] {
      assert Applies(CHECKS[k], p);
      SameLength(p, q, CHECKS[k]);
      if CHECKS[k] != SpeakerOrder { SoundscapeUnread(p, q, CHECKS[k], Length(CHECKS[k], p)); }
    }
  }

  lemma SameLength(p: StructuredPrompt, q: StructuredPrompt, rule: Rule)
    requires q == p.(soundscape := q.soundscape)
    ensures Length(rule, p) == Length(rule, q)
  {
  }

  lemma SoundscapeHeard(q: StructuredPrompt)
    requires Accepted(q) && q.mode != Ref2VA && RenderPrompt(q).Ok? && Quiet(q.music) && LanguagesSealed(q)
    requires q.soundscape == OVERHEARD
    ensures Scan(RenderPrompt(q).value) == SpokenIn(q) + ["x"]
  {
    hide Contains, Clean, LanguagesSealed, SpokenIn, Scan, ValidFields, Yields, Body, RenderPrompt, AlignmentHeader,
         Preamble, SoundTail, Timeline, CallerTextInert, HeadSafe, HeadFirm;
    RenderedIs(q);
    BodySplits(q);
    SoundTailExactly(q);
    forall i | 0 <= i < |q.shots| ensures ShotQuiet(q.shots[i]) { AcceptedShotLacks(q, i, DIALOGUE_OPEN); }
    TimelineYields(q);
    TimelineHead(q);
    BasePreambleIsQuiet(q);
    TailOverheard(q);
    HeardAfter(Preamble(q, AlignmentHeader(q).value), Timeline(q).value, SoundTail(q), SpokenIn(q), ["x"]);
  }

  lemma HeardAfter(lead: string, t: string, tail: string, c: seq<string>, d: seq<string>)
    requires Quiet(lead) && Yields(t, c) && HeadSafe(tail) && Scan(tail) == d && t != "" && HeadFirm(t)
    ensures Scan(lead + t + tail) == c + d
  {
    hide Contains, Scan;
    FreeYields(lead);
    assert lead + t + tail == lead + (t + tail);
    assert (t + tail)[0] == t[0];
    assert Scan(lead + (t + tail)) == [] + Scan(t + tail);
  }

  lemma TailOverheard(q: StructuredPrompt)
    requires q.mode != Ref2VA && q.soundscape == OVERHEARD && Quiet(q.music)
    ensures Scan(SoundTail(q)) == ["x"]
  {
    hide Scan, Contains, Yields, Closed, Angleless, Literal;
    var before, between := SECTION_SEPARATOR + ("overall_soundscape:" + " "), SECTION_SEPARATOR + ("non_diegetic_music:" + " ");
    SoundLiterals(" ");
    assert NoOpening(before) by { AnglelessIsQuiet(before); }
    assert SoundTail(q) == before + (OVERHEARD + (between + q.music));
    OverheardCloses();
    FreeYields(q.music);
    Opened(between, q.music, []) by { LiteralOpens(between); }
    ClosedThenYields(OVERHEARD, ["x"], between + q.music, []);
    Opened(before, OVERHEARD + (between + q.music), ["x"] + []);
    WholeYields(SoundTail(q), ["x"] + []);
  }

  lemma LiteralOpens(s: string)
    requires Literal(s)
    ensures NoOpening(s)
  {
  }

  lemma OverheardCloses()
    ensures Closed(OVERHEARD, ["x"])
  {
    hide Closed;
    assert !Contains("x", DIALOGUE_CLOSE);
    UtteranceCloses("x");
  }
}
