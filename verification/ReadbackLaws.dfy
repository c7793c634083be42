/** When the dialogue of a rendered prompt reads back, exactly. */
module ReadbackLaws {
  import opened Prelude
  import opened Text
  import opened Grammar
  import opened Prompts
  import opened Validation
  import opened Containment
  import opened Render
  import opened Pieces
  import opened RenderLaws
  import opened Scanner
  import opened DialogueLaws

  // ------------------------------------------------------- reading the pieces

  predicate AllSealed(ps: seq<Piece>) {
    forall k | 0 <= k < |ps| && ps[k].Said? :: !Contains(ps[k].Content(), DIALOGUE_CLOSE)
  }

  /** The text between two utterances, or before the first, opens none; the text after the last,
      with `pending` before it, utters nothing. */
  predicate Silences(pending: string, ps: seq<Piece>)
    decreases |ps|
  {
    if ps == [] then Scan(pending) == []
    else if ps[0].Said? then Quiet(pending) && Silences("", ps[1..])
    else Silences(pending + ps[0].Spell(), ps[1..])
  }

  lemma SealedTail(ps: seq<Piece>)
    requires AllSealed(ps) && ps != []
    ensures AllSealed(ps[1..])
  {
    assert forall k | 0 <= k < |ps[1..]| :: ps[1..][k] == ps[k + 1];
  }

  /** An utterance in front is read first. */
  lemma SaidFirst(line: Piece, rest: string)
    requires line.Said? && !Contains(line.Content(), DIALOGUE_CLOSE)
    ensures Scan(line.Spell() + rest) == [line.Content()] + Scan(rest)
    ensures HeadFirm(line.Spell() + rest) && HeadSafe(line.Spell() + rest)
  {
    hide Scan, Contains;
    UtteranceCloses(line.Content());
    assert (line.Spell() + rest)[0] == '<';
  }

  lemma {:induction false} EachIsHeard(pending: string, ps: seq<Piece>)
    requires AllSealed(ps)
    ensures |Scan(pending + TextOf(ps))| >= |SaidIn(ps)|
    decreases |ps|
  {
    hide Scan, Contains, Piece.Spell, Piece.Content;
    if ps == [] {
    } else {
      SealedTail(ps);
      var rest, spelled := TextOf(ps[1..]), ps[0].Spell();
      if ps[0].Said? {
        EachIsHeard("", ps[1..]);
        assert "" + rest == rest;
        SaidFirst(ps[0], rest);
        CountGrows(pending, spelled + rest);
      } else {
        EachIsHeard(pending + spelled, ps[1..]);
        assert pending + spelled + rest == pending + (spelled + rest);
      }
    }
  }

  /** A text of pieces reads back as its utterances exactly when its gaps are silent. */
  lemma {:induction false} ReadsBackExactly(pending: string, ps: seq<Piece>)
    requires AllSealed(ps)
    ensures Scan(pending + TextOf(ps)) == SaidIn(ps) <==> Silences(pending, ps)
    decreases |ps|
  {
    hide Scan, Contains, Piece.Spell, Piece.Content;
    if ps == [] {
      assert pending + "" == pending;
    } else {
      SealedTail(ps);
      var rest, spelled := TextOf(ps[1..]), ps[0].Spell();
      if ps[0].Said? {
        ReadsBackExactly("", ps[1..]);
        assert "" + rest == rest;
        EachIsHeard("", ps[1..]);
        SaidFirst(ps[0], rest);
        var s := spelled + rest;
        if Quiet(pending) {
          FreeYields(pending);
          assert Scan(pending + s) == [] + Scan(s);
          SameFront(ps[0].Content(), Scan(rest), SaidIn(ps[1..]));
        } else {
          OpenLeadSpoils(pending, s);
        }
      } else {
        ReadsBackExactly(pending + spelled, ps[1..]);
        assert pending + spelled + rest == pending + (spelled + rest);
        assert [] + SaidIn(ps[1..]) == SaidIn(ps[1..]);
      }
    }
  }

  lemma SameFront(c: string, x: seq<string>, y: seq<string>)
    ensures [c] + x == [c] + y <==> x == y
  {
    if [c] + x == [c] + y { assert ([c] + x)[1..] == x && ([c] + y)[1..] == y; }
  }

  // ------------------------------------------------------------- sealed tags

  lemma SealedCat(a: seq<Piece>, b: seq<Piece>)
    ensures AllSealed(a + b) <==> AllSealed(a) && AllSealed(b)
  {
    hide Contains;
    if AllSealed(a + b) {
      assert forall k | 0 <= k < |a| :: a[k] == (a + b)[k];
      assert forall k | 0 <= k < |b| :: b[k] == (a + b)[|a| + k];
    }
  }

  lemma {:induction false} JoinPiecesSealed(sep: string, parts: seq<seq<Piece>>)
    ensures AllSealed(JoinPieces(sep, parts)) <==> forall k | 0 <= k < |parts| :: AllSealed(parts[k])
  {
    hide AllSealed;
    if |parts| == 0 {
      NoPieces();
    } else if |parts| == 1 {
    } else {
      JoinPiecesSealed(sep, parts[1..]);
      SealedCat(parts[0] + [Gap(sep)], JoinPieces(sep, parts[1..]));
      SealedCat(parts[0], [Gap(sep)]);
      GapSealed(sep);
      assert forall k | 1 <= k < |parts| :: parts[k] == parts[1..][k - 1];
      assert (forall k | 0 <= k < |parts| :: AllSealed(parts[k]))
             <==> AllSealed(parts[0]) && forall k | 0 <= k < |parts[1..]| :: AllSealed(parts[1..][k]);
    }
  }

  lemma NoPieces()
    ensures AllSealed([])
  {
  }

  lemma GapSealed(t: string)
    ensures AllSealed([Gap(t)])
  {
  }

  lemma HeadSealed(shot: Shot, isOpening: bool, camera: string)
    requires ValidShot(shot) && (isOpening || shot.cutAt.Some?)
    ensures var head := Gaps(Opening(shot, isOpening) + Modifier(Some(camera))) + ScreenPieces(shot);
      forall k | 0 <= k < |head| :: AllSealed(head[k])
  {
    hide ValidShot, Opening, Modifier, ScreenPieces, AllSealed;
    var gaps := Gaps(Opening(shot, isOpening) + Modifier(Some(camera)));
    forall k | 0 <= k < |gaps| ensures AllSealed(gaps[k]) { GapSealed(gaps[k][0].text); }
    forall k | 0 <= k < |ScreenPieces(shot)| ensures AllSealed(ScreenPieces(shot)[k]) { ScreenSealed(shot, k); }
  }

  lemma ClausesSealed(shot: Shot)
    requires ShotInert(shot)
    ensures (forall k | 0 <= k < |Spoke(shot.dialogue)| :: AllSealed(Spoke(shot.dialogue)[k])) <==> ShotSealed(shot)
  {
    hide Inert, AllSealed, Contains, Lead;
    var clauses := Spoke(shot.dialogue);
    forall k | 0 <= k < |clauses| ensures AllSealed(clauses[k]) <==> LineSealed(shot.dialogue[k]) {
      var line, ps := shot.dialogue[k], ClausePieces(shot.dialogue[k]);
      InertIsQuiet(line.text);
      SpokenSealed(line);
      assert ps[1].Content() == Spoken(line);
      FramedSealed(ps[0].text, ps[1], ps[2].text);
    }
    hide ClausePieces;
    if k :| 0 <= k < |shot.dialogue| && !LineSealed(shot.dialogue[k]) { assert !AllSealed(clauses[k]); }
  }

  lemma ShotSealedExactly(shot: Shot, isOpening: bool, camera: string)
    requires ValidShot(shot) && (isOpening || shot.cutAt.Some?) && ShotInert(shot)
    ensures AllSealed(ShotPieces(shot, isOpening, camera)) <==> ShotSealed(shot)
  {
    hide ValidShot, Opening, Modifier, Gaps, Spoke, ScreenPieces, AllSealed, ShotSealed, ShotInert, JoinPieces;
    var head := Gaps(Opening(shot, isOpening) + Modifier(Some(camera))) + ScreenPieces(shot);
    var clauses := Spoke(shot.dialogue);
    HeadSealed(shot, isOpening, camera);
    ClausesSealed(shot);
    JoinPiecesSealed(" ", head + clauses);
    BothSealed(head, clauses);
  }

  lemma BothSealed(a: seq<seq<Piece>>, b: seq<seq<Piece>>)
    ensures (forall k | 0 <= k < |a + b| :: AllSealed((a + b)[k]))
            <==> (forall k | 0 <= k < |a| :: AllSealed(a[k])) && forall k | 0 <= k < |b| :: AllSealed(b[k])
  {
    hide AllSealed;
    assert forall k | 0 <= k < |a| :: (a + b)[k] == a[k];
    assert forall k | 0 <= k < |b| :: (a + b)[|a| + k] == b[k];
  }

  lemma ScreenSealed(shot: Shot, k: nat)
    requires k < |ScreenPieces(shot)|
    ensures AllSealed(ScreenPieces(shot)[k])
  {
    hide AllSealed, JoinPieces;
    var inner := JoinPieces(" ", Shows(shot.onScreenText));
    forall k | 0 <= k < |shot.onScreenText| ensures AllSealed(Shows(shot.onScreenText)[k]) {
      ShownSealed(shot.onScreenText[k]);
    }
    JoinPiecesSealed(" ", Shows(shot.onScreenText));
    SealedCat([Gap("On-screen text reads ")], inner);
    SealedCat([Gap("On-screen text reads ")] + inner, [Gap(".")]);
    GapSealed("On-screen text reads ");
    GapSealed(".");
  }

  lemma ShownSealed(t: string)
    ensures AllSealed([Shown(t)])
  {
  }

  lemma FramedSealed(a: string, said: Piece, z: string)
    requires said.Said?
    ensures AllSealed([Gap(a), said, Gap(z)]) <==> !Contains(said.Content(), DIALOGUE_CLOSE)
  {
    hide Contains, Piece.Content;
    assert [Gap(a), said, Gap(z)][1] == said;
  }

  lemma TimelineSealedExactly(p: StructuredPrompt)
    requires ValidFields(p) && CallerTextInert(p) && forall k: nat | k < |p.shots| :: Renders(p.shots, k)
    ensures AllSealed(JoinPieces(" ", TimelineParts(p.shots))) <==> LanguagesSealed(p)
  {
    hide ValidShot, ShotPieces, JoinPieces, AllSealed, Inert, LineSealed, CameraSentence, ShotParts;
    var parts := TimelineParts(p.shots);
    JoinPiecesSealed(" ", parts);
    forall k | 0 <= k < |p.shots| ensures AllSealed(parts[k]) <==> ShotSealed(p.shots[k]) {
      assert Renders(p.shots, k);
      ShotSealedExactly(p.shots[k], k == 0, CameraSentence(p.shots[k]).value);
    }
    assert LanguagesSealed(p) <==> forall k | 0 <= k < |p.shots| :: ShotSealed(p.shots[k]);
  }

  lemma WireSealedExactly(p: StructuredPrompt)
    requires ValidFields(p) && Assembled(p) && CallerTextInert(p) && forall k: nat | k < |p.shots| :: Renders(p.shots, k)
    ensures AllSealed(WirePieces(p)) <==> LanguagesSealed(p)
  {
    hide ValidFields, AlignmentHeader, LanguagesSealed, Preamble, SoundTail, Renders, AllSealed, CallerTextInert, JoinPieces, Body;
    var a, t, c := [Gap(Preamble(p, AlignmentHeader(p).value))], JoinPieces(" ", TimelineParts(p.shots)), [Gap(SoundTail(p))];
    TimelineSealedExactly(p);
    SealedCat(a, t);
    SealedCat(a + t, c);
    GapSealed(a[0].text);
    GapSealed(c[0].text);
  }

  // --------------------------------------------------------- every prompt

  /** For every prompt that renders, accepted or not: the reader gets back exactly every line as
      `[language] text` in shot and line order if and only if no language tag holds the closing
      delimiter, no text of the service between two utterances or before the first holds the
      opening one, and the text after the last utters nothing. */
  lemma DialogueReadsBackExactly(p: StructuredPrompt)
    requires ValidFields(p) && RenderPrompt(p).Ok?
    ensures Assembled(p) && forall k: nat | k < |p.shots| :: Renders(p.shots, k)
    ensures Scan(RenderPrompt(p).value) == SpokenIn(p) <==> LanguagesSealed(p) && Silences("", WirePieces(p))
  {
    hide ValidFields, RenderPrompt, Scan, SpokenIn, LanguagesSealed, Renders, TextOf, SaidIn, TextsIn, AllSealed, Silences,
         CallerTextInert, WirePieces, RenderOrder, WireOf, Assembled;
    RenderedIs(p);
    WireSpells(p);
    WireSealedExactly(p);
    if LanguagesSealed(p) {
      ReadsBackExactly("", WirePieces(p));
      assert "" + TextOf(WirePieces(p)) == TextOf(WirePieces(p));
    } else {
      UnsealedIsLost(p, RenderPrompt(p).value);
    }
  }
}
