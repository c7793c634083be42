/** What rendering guarantees: which prompts render, and that the verbatim check cannot fail. */
module RenderLaws {
  import opened Prelude
  import opened Text
  import opened Decimal
  import opened Grammar
  import opened Prompts
  import opened Validation
  import opened Containment
  import opened Render
  import opened Pieces

  /** Rendering never alters a caller text: the last check of rendering cannot fail. */
  lemma NothingIsAltered(p: StructuredPrompt)
    requires ValidFields(p) && Assembled(p)
    ensures FirstAltered(WireOf(p), ShotSpans(p.shots, |p.shots|)).None?
  {
    hide Contains, ShotSpans, ValidFields, WireOf, TextOf, TextsIn, SaidIn, WirePieces, Assembled, Renders;
    WireSpells(p);
    var spans := ShotSpans(p.shots, |p.shots|);
    forall k | 0 <= k < |spans| ensures Contains(WireOf(p), spans[k].value) {
      assert spans[k] in spans;
      SpansExactly(p.shots, |p.shots|, spans[k].value);
      SuppliedIsRendered(p, spans[k].value);
      TextIsSpelled(WirePieces(p), spans[k].value);
    }
  }

  lemma SuppliedIsRendered(p: StructuredPrompt, v: string)
    requires exists i | 0 <= i < |p.shots| :: Supplies(p.shots[i], v)
    ensures v in RenderOrder(p)
  {
    var i :| 0 <= i < |p.shots| && Supplies(p.shots[i], v);
    var shot := p.shots[i];
    if j :| 0 <= j < |shot.dialogue| && shot.dialogue[j].text == v {
      assert LineTexts(shot.dialogue)[j] == v;
    }
    assert v in TextsOfShot(shot);
    FlatPoint(ShotsTexts(p.shots), i, v);
  }

  // ----------------------------------------------------------------- totality

  ghost predicate KeyframeExpressible(p: StructuredPrompt) {
    p.mode in {I2VA, FL2VA, L2VA} ==> Expressible(p.duration)
  }

  lemma AcceptedShotRenders(p: StructuredPrompt, i: nat)
    requires Accepted(p) && i < |p.shots|
    ensures ValidShot(p.shots[i]) && ShotText(p.shots[i], i == 0).Ok?
  {
    hide ShotParts, Join, ShotField;
    AcceptedAt(p, OpeningCut, i);
    AcceptedAt(p, CameraValues, i);
    if p.shots[i].camera.Some? {
      PhraseAmongExact(CAMERA_MOTIONS, p.shots[i].camera.value.motion);
    }
  }

  lemma AcceptedBodyRenders(p: StructuredPrompt)
    requires Accepted(p)
    ensures Body(p).Ok?
  {
    hide ShotText, Clean, ValidShot, ReferenceBody, BaseBody;
    forall k | 0 <= k < |p.shots| ensures ShotText(p.shots[k], k == 0).Ok? { AcceptedShotRenders(p, k); }
    ShotTextsExact(p.shots, |p.shots|);
  }

  lemma AcceptedClosesAfterFinalCut(p: StructuredPrompt)
    requires Accepted(p)
    ensures var final := p.shots[|p.shots| - 1]; !(final.cutAt.Some? && p.duration <= final.cutAt.value)
  {
    hide ShotField;
    AcceptedAt(p, CutInside, |p.shots| - 1);
  }

  /** An accepted prompt renders exactly when its caller texts are inert and, in a keyframe
      mode, two decimals state its duration. The other failures of rendering (vocabulary, cut
      time, summary, final cut, altered text) cannot happen. */
  lemma AcceptedRendersExactly(p: StructuredPrompt)
    requires Accepted(p)
    ensures RenderPrompt(p).Ok? <==> CallerTextInert(p) && KeyframeExpressible(p)
    ensures RenderPrompt(p).Err? ==>
              if CallerTextInert(p) then RenderPrompt(p).error == MarkNotExpressible
              else RenderPrompt(p).error.CallerSpanCarriesGrammar?
  {
    hide Clean, CallerTextInert, Expressible, FormatMark, Digits, ShotSpans, Body, ValidShot, Headed;
    PromptContainedExactly(p);
    AcceptedBodyRenders(p);
    AcceptedClosesAfterFinalCut(p);
    if AlignmentHeader(p).Ok? { NothingIsAltered(p); }
  }

  /** For every constructible prompt, accepted or not, the verbatim check is redundant. */
  lemma VerbatimNeverFails(p: StructuredPrompt)
    requires ValidFields(p)
    ensures RenderPrompt(p).Err? ==> !RenderPrompt(p).error.SpanAltered?
  {
    hide ShotSpans, Headed, ValidFields, FirstBreach, FirstAltered, Body, AlignmentHeader;
    BodyErrors(p);
    if Body(p).Ok? && AlignmentHeader(p).Ok? { NothingIsAltered(p); }
  }

  lemma BodyErrors(p: StructuredPrompt)
    requires ValidFields(p)
    ensures Body(p).Err? ==> Body(p).error.Unrenderable?
    ensures AlignmentHeader(p).Err? ==> AlignmentHeader(p).error in {MarkNotExpressible, MarkOutsideDuration}
  {
    hide ShotParts, Join, FormatMark, Digits, Expressible, ReferenceBody, BaseBody, ValidShot;
    ShotTextsExact(p.shots, |p.shots|);
    forall k | 0 <= k < |p.shots| ensures ShotText(p.shots[k], k == 0).Err? ==> ShotText(p.shots[k], k == 0).error.Unrenderable? {}
  }

  /** What a successful rendering is made of. */
  lemma RenderedIs(p: StructuredPrompt)
    requires ValidFields(p) && RenderPrompt(p).Ok?
    ensures CallerTextInert(p) && Assembled(p) && RenderPrompt(p).value == WireOf(p)
  {
    hide ShotSpans, ValidFields, Body, AlignmentHeader, Headed, CallerTextInert;
    PromptContainedExactly(p);
  }
}
