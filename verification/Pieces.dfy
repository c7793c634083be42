/** Wire text in pieces: what the service writes, the lines spoken and the texts shown. */
module Pieces {
  import opened Prelude
  import opened Text
  import opened Grammar
  import opened Decimal
  import opened CutTimes
  import opened Prompts
  import opened Containment
  import opened Render

  /** Wire text as what the service writes, the lines spoken and the texts shown. */
  datatype Piece = Gap(text: string) | Said(language: string, text: string) | Shown(text: string) {
    function Content(): string
      requires Said?
    {
      "[" + language + "] " + text
    }

    function Spell(): string {
      match this
      case Gap(t) => t
      case Said(_, _) => DIALOGUE_OPEN + Content() + DIALOGUE_CLOSE
      case Shown(t) => "\"" + t + "\""
    }

    function Utterances(): seq<string> {
      if Said? then [Content()] else []
    }
  }

  function TextOf(ps: seq<Piece>): string {
    if ps == [] then "" else ps[0].Spell() + TextOf(ps[1..])
  }

  function SaidIn(ps: seq<Piece>): seq<string> {
    if ps == [] then [] else ps[0].Utterances() + SaidIn(ps[1..])
  }

  /** The texts a caller supplied, in the order they are rendered. */
  function TextsIn(ps: seq<Piece>): seq<string> {
    if ps == [] then [] else (if ps[0].Gap? then [] else [ps[0].text]) + TextsIn(ps[1..])
  }

  // ---------------------------------------------------------- building pieces

  lemma PiecesCat(a: seq<Piece>, b: seq<Piece>)
    ensures TextOf(a + b) == TextOf(a) + TextOf(b) && SaidIn(a + b) == SaidIn(a) + SaidIn(b)
    ensures TextsIn(a + b) == TextsIn(a) + TextsIn(b)
  {
    hide TextOf, SaidIn, TextsIn;
    TextOfCat(a, b);
    SaidInCat(a, b);
    TextsInCat(a, b);
  }

  lemma {:induction false} TextOfCat(a: seq<Piece>, b: seq<Piece>)
    ensures TextOf(a + b) == TextOf(a) + TextOf(b)
  {
    hide Piece.Spell;
    if a == [] {
      assert a + b == b;
    } else {
      assert (a + b)[1..] == a[1..] + b;
      TextOfCat(a[1..], b);
    }
  }

  lemma {:induction false} SaidInCat(a: seq<Piece>, b: seq<Piece>)
    ensures SaidIn(a + b) == SaidIn(a) + SaidIn(b)
  {
    hide Piece.Utterances;
    if a == [] {
      assert a + b == b;
    } else {
      assert (a + b)[1..] == a[1..] + b;
      SaidInCat(a[1..], b);
    }
  }

  lemma {:induction false} TextsInCat(a: seq<Piece>, b: seq<Piece>)
    ensures TextsIn(a + b) == TextsIn(a) + TextsIn(b)
  {
    if a == [] {
      assert a + b == b;
    } else {
      assert (a + b)[1..] == a[1..] + b;
      TextsInCat(a[1..], b);
    }
  }

  function JoinPieces(sep: string, parts: seq<seq<Piece>>): seq<Piece> {
    if |parts| == 0 then []
    else if |parts| == 1 then parts[0]
    else parts[0] + [Gap(sep)] + JoinPieces(sep, parts[1..])
  }

  /** Pieces that spell a text, utter some texts and carry some caller texts. */
  ghost predicate Spells(ps: seq<Piece>, text: string, said: seq<string>, texts: seq<string>) {
    TextOf(ps) == text && SaidIn(ps) == said && TextsIn(ps) == texts
  }

  /** Joining pieces joins what they spell and concatenates what they carry. */
  lemma {:induction false} JoinPiecesSpell(sep: string, parts: seq<seq<Piece>>, texts: seq<string>, outs: seq<seq<string>>, ins: seq<seq<string>>)
    requires |parts| == |texts| == |outs| == |ins|
    requires forall k | 0 <= k < |parts| :: Spells(parts[k], texts[k], outs[k], ins[k])
    ensures Spells(JoinPieces(sep, parts), Join(sep, texts), Flat(outs), Flat(ins))
  {
    hide TextOf, SaidIn, TextsIn;
    if |parts| == 0 {
      NothingSpelled();
    } else if |parts| == 1 {
      assert Flat(outs) == outs[0] + Flat([]) == outs[0];
      assert Flat(ins) == ins[0] + Flat([]) == ins[0];
    } else {
      JoinPiecesSpell(sep, parts[1..], texts[1..], outs[1..], ins[1..]);
      PiecesCat(parts[0] + [Gap(sep)], JoinPieces(sep, parts[1..]));
      PiecesCat(parts[0], [Gap(sep)]);
      OneGap(sep);
      assert outs[0] + [] == outs[0] && ins[0] + [] == ins[0];
    }
  }

  lemma NothingSpelled()
    ensures Spells([], "", [], [])
  {
  }

  lemma OneGap(t: string)
    ensures Spells([Gap(t)], t, [], [])
  {
    assert TextOf([]) == "" && t + "" == t;
  }

  lemma OneShown(t: string)
    ensures Spells([Shown(t)], "\"" + t + "\"", [], [t])
  {
    assert TextOf([]) == "" && [Shown(t)][0].Spell() + "" == [Shown(t)][0].Spell();
  }

  // ------------------------------------------------------- the prompt's pieces

  function ClausePieces(line: DialogueLine): seq<Piece> {
    [Gap(Lead(line) + " " + (if line.voiceover then VOICEOVER_PHRASE else "says") + ": "),
     Said(line.language, line.text),
     Gap((if line.voiceover then LIPS_CLOSED else "") + (if line.continuesAcrossCut then CONTINUES else "")
         + (if line.truncatedByEnd then CUT_OFF else ""))]
  }

  lemma FramedSpells(a: string, said: Piece, z: string)
    requires said.Said?
    ensures Spells([Gap(a), said, Gap(z)], a + (said.Spell() + z), [said.Content()], [said.text])
  {
    hide Piece.Content;
    var ps := [Gap(a), said, Gap(z)];
    assert ps[1..] == [said, Gap(z)] && ps[1..][1..] == [Gap(z)];
    OneGap(z);
    assert TextOf(ps) == a + (said.Spell() + TextOf([Gap(z)]));
    assert SaidIn(ps) == [] + ([said.Content()] + ([] + []));
    assert TextsIn(ps) == [] + ([said.text] + ([] + []));
  }

  lemma ClauseSpells(line: DialogueLine)
    ensures Spells(ClausePieces(line), DialogueClause(line), [Spoken(line)], [line.text])
  {
    hide Lead, Spells;
    var ps := ClausePieces(line);
    FramedSpells(ps[0].text, ps[1], ps[2].text);
    assert ps[1].Content() == Spoken(line) && ps[1].Spell() == Utterance(line);
    hide Spoken, Utterance, Piece.Content;
    Regrouped(ps[0].text, Utterance(line), if line.voiceover then LIPS_CLOSED else "",
              if line.continuesAcrossCut then CONTINUES else "", if line.truncatedByEnd then CUT_OFF else "");
  }

  lemma Regrouped(a: string, u: string, x: string, y: string, z: string)
    ensures a + (u + (x + y + z)) == a + u + x + y + z
  {
  }

  function Gaps(parts: seq<string>): (r: seq<seq<Piece>>)
    ensures |r| == |parts| && forall k | 0 <= k < |parts| :: r[k] == [Gap(parts[k])]
  {
    seq(|parts|, k requires 0 <= k < |parts| => [Gap(parts[k])])
  }

  function Spoke(lines: seq<DialogueLine>): (r: seq<seq<Piece>>)
    ensures |r| == |lines| && forall k | 0 <= k < |lines| :: r[k] == ClausePieces(lines[k])
  {
    seq(|lines|, k requires 0 <= k < |lines| => ClausePieces(lines[k]))
  }

  function Shows(texts: seq<string>): (r: seq<seq<Piece>>)
    ensures |r| == |texts| && forall k | 0 <= k < |texts| :: r[k] == [Shown(texts[k])]
  {
    seq(|texts|, k requires 0 <= k < |texts| => [Shown(texts[k])])
  }

  /** The visible-text clause, when a shot has one. */
  function ScreenPieces(shot: Shot): seq<seq<Piece>> {
    if shot.onScreenText == [] then []
    else [[Gap("On-screen text reads ")] + JoinPieces(" ", Shows(shot.onScreenText)) + [Gap(".")]]
  }

  lemma ScreenSpells(shot: Shot)
    requires shot.onScreenText != []
    ensures Spells(ScreenPieces(shot)[0], ScreenClause(shot), [], shot.onScreenText)
  {
    hide TextOf, SaidIn, TextsIn, Join, JoinPieces;
    var texts := shot.onScreenText;
    forall k | 0 <= k < |texts| ensures Spells(Shows(texts)[k], Quoted(texts)[k], Silent(|texts|)[k], Singles(texts)[k]) {
      OneShown(texts[k]);
    }
    JoinPiecesSpell(" ", Shows(texts), Quoted(texts), Silent(|texts|), Singles(texts));
    FlatSingles(texts);
    FlatSilent(|texts|);
    var inner := JoinPieces(" ", Shows(texts));
    PiecesCat([Gap("On-screen text reads ")], inner);
    PiecesCat([Gap("On-screen text reads ")] + inner, [Gap(".")]);
    OneGap("On-screen text reads ");
    OneGap(".");
    assert [] + texts + [] == texts;
  }

  function ShotPieces(shot: Shot, isOpening: bool, camera: string): seq<Piece>
    requires ValidShot(shot) && (isOpening || shot.cutAt.Some?)
  {
    JoinPieces(" ", Gaps(Opening(shot, isOpening) + Modifier(Some(camera))) + ScreenPieces(shot) + Spoke(shot.dialogue))
  }

  function LineTexts(lines: seq<DialogueLine>): (r: seq<string>)
    ensures |r| == |lines| && forall k | 0 <= k < |lines| :: r[k] == lines[k].text
  {
    seq(|lines|, k requires 0 <= k < |lines| => lines[k].text)
  }

  /** A shot's caller texts as they are rendered: those shown, then those spoken. */
  function TextsOfShot(shot: Shot): seq<string> {
    shot.onScreenText + LineTexts(shot.dialogue)
  }

  lemma ShotSpells(shot: Shot, isOpening: bool, camera: string)
    requires ValidShot(shot) && (isOpening || shot.cutAt.Some?)
    ensures Spells(ShotPieces(shot, isOpening, camera), Join(" ", ShotParts(shot, isOpening, camera)),
                   SpokenLines(shot.dialogue), TextsOfShot(shot))
  {
    hide ValidShot, Opening, Modifier, ScreenClause, ClausePieces, DialogueClause, Spoken, Spells, Flat, Join, JoinPieces;
    var head := Opening(shot, isOpening) + Modifier(Some(camera));
    var screen := ScreenPieces(shot);
    var h, n := |head|, |head| + |screen|;
    ScreenModifier(shot);
    var parts, texts := Gaps(head) + screen + Spoke(shot.dialogue), ShotParts(shot, isOpening, camera);
    var shown := ShownAs(shot);
    var outs := Silent(n) + Singles(SpokenLines(shot.dialogue));
    var ins := Silent(h) + shown + Singles(LineTexts(shot.dialogue));
    forall k | 0 <= k < |parts| ensures Spells(parts[k], texts[k], outs[k], ins[k]) {
      if k < h {
        OneGap(head[k]);
      } else if k < n {
        ScreenSpells(shot);
      } else {
        ClauseSpells(shot.dialogue[k - n]);
      }
    }
    JoinPiecesSpell(" ", parts, texts, outs, ins);
    ShotFlats(shot, h, n);
  }

  function ShownAs(shot: Shot): seq<seq<string>> {
    if shot.onScreenText == [] then [] else [shot.onScreenText]
  }

  lemma ShotFlats(shot: Shot, h: nat, n: nat)
    ensures Flat(Silent(n) + Singles(SpokenLines(shot.dialogue))) == SpokenLines(shot.dialogue)
    ensures Flat(Silent(h) + ShownAs(shot) + Singles(LineTexts(shot.dialogue))) == TextsOfShot(shot)
  {
    hide Spoken, Flat;
    FlatCat(Silent(n), Singles(SpokenLines(shot.dialogue)));
    FlatCat(Silent(h), ShownAs(shot));
    FlatCat(Silent(h) + ShownAs(shot), Singles(LineTexts(shot.dialogue)));
    FlatSilent(n);
    FlatSilent(h);
    FlatSingles(SpokenLines(shot.dialogue));
    FlatSingles(LineTexts(shot.dialogue));
    FlatOne(shot.onScreenText);
    assert [] + SpokenLines(shot.dialogue) == SpokenLines(shot.dialogue);
    assert [] + shot.onScreenText == shot.onScreenText;
  }

  lemma ScreenModifier(shot: Shot)
    ensures Modifier(Some(ScreenClause(shot))) == if shot.onScreenText == [] then [] else [ScreenClause(shot)]
    ensures |ScreenPieces(shot)| == |Modifier(Some(ScreenClause(shot)))|
  {
    hide Join, JoinPieces;
  }

  predicate Renders(shots: seq<Shot>, k: nat)
    requires k < |shots|
  {
    ValidShot(shots[k]) && ShotText(shots[k], k == 0).Ok?
  }

  function PiecesAt(shots: seq<Shot>, k: nat): seq<Piece>
    requires k < |shots| && Renders(shots, k)
  {
    ShotPieces(shots[k], k == 0, CameraSentence(shots[k]).value)
  }

  function TimelineParts(shots: seq<Shot>): (r: seq<seq<Piece>>)
    requires forall k: nat | k < |shots| :: Renders(shots, k)
    ensures |r| == |shots|
    ensures forall k: nat | k < |shots| :: r[k] == PiecesAt(shots, k)
  {
    seq(|shots|, k requires 0 <= k < |shots| => PiecesAt(shots, k))
  }

  function ShotsTexts(shots: seq<Shot>): (r: seq<seq<string>>)
    ensures |r| == |shots| && forall k | 0 <= k < |shots| :: r[k] == TextsOfShot(shots[k])
  {
    seq(|shots|, k requires 0 <= k < |shots| => TextsOfShot(shots[k]))
  }

  /** All caller texts of a prompt, mention by mention, as they are rendered. */
  function RenderOrder(p: StructuredPrompt): seq<string> {
    Flat(ShotsTexts(p.shots))
  }

  lemma TimelineSpells(p: StructuredPrompt, texts: seq<string>)
    requires ValidFields(p) && ShotTexts(p.shots, |p.shots|) == Ok(texts)
    ensures forall k: nat | k < |p.shots| :: Renders(p.shots, k)
    ensures Spells(JoinPieces(" ", TimelineParts(p.shots)), Join(" ", texts), SpokenIn(p), RenderOrder(p))
  {
    hide ValidShot, ShotPieces, Spells, Join, JoinPieces, CameraSentence, ShotParts, SpokenLines;
    ShotTextsExact(p.shots, |p.shots|);
    assert forall k: nat | k < |p.shots| :: Renders(p.shots, k);
    var parts := TimelineParts(p.shots);
    forall k | 0 <= k < |p.shots|
      ensures Spells(parts[k], texts[k], SpokenShots(p.shots)[k], ShotsTexts(p.shots)[k])
    {
      ShotSpells(p.shots[k], k == 0, CameraSentence(p.shots[k]).value);
    }
    JoinPiecesSpell(" ", parts, texts, SpokenShots(p.shots), ShotsTexts(p.shots));
  }

  // --------------------------------------------------------- what is spoken

  function SpokenLines(lines: seq<DialogueLine>): (r: seq<string>)
    ensures |r| == |lines| && forall k | 0 <= k < |lines| :: r[k] == Spoken(lines[k])
  {
    seq(|lines|, k requires 0 <= k < |lines| => Spoken(lines[k]))
  }

  function SpokenShots(shots: seq<Shot>): (r: seq<seq<string>>)
    ensures |r| == |shots| && forall k | 0 <= k < |shots| :: r[k] == SpokenLines(shots[k].dialogue)
  {
    seq(|shots|, k requires 0 <= k < |shots| => SpokenLines(shots[k].dialogue))
  }

  /** Every line as `[language] text`, in shot and line order. */
  function SpokenIn(p: StructuredPrompt): seq<string> {
    Flat(SpokenShots(p.shots))
  }

  // --------------------------------------------------------------- whole texts

  /** What the service writes before the shots. */
  function Preamble(p: StructuredPrompt, header: string): string {
    if p.mode == Ref2VA && p.summary.Some? then
      "subject_definitions:\n" + Join("\n", DefinitionLines(p.definitions)) + SECTION_SEPARATOR
      + ("summary:\n[" + Join(" + ", p.summary.value.taskTypes) + "] " + p.summary.value.text) + SECTION_SEPARATOR
      + ("retention_analysis:\n" + Join("\n", RetentionLines(p.retention))) + SECTION_SEPARATOR
      + "detailed_description:\n"
    else Headed(header, "integrated_multimodal_description: ")
  }

  /** What the service writes after them. */
  function SoundTail(p: StructuredPrompt): string {
    var gap := if p.mode == Ref2VA then "\n" else " ";
    SECTION_SEPARATOR + ("overall_soundscape:" + gap + p.soundscape)
    + SECTION_SEPARATOR + ("non_diegetic_music:" + gap + p.music)
  }

  lemma JoinCons(sep: string, a: string, rest: seq<string>)
    requires rest != []
    ensures Join(sep, [a] + rest) == a + sep + Join(sep, rest)
  {
    assert ([a] + rest)[1..] == rest;
  }

  lemma JoinThree(sep: string, a: string, b: string, c: string)
    ensures Join(sep, [a, b, c]) == a + sep + b + sep + c
  {
    assert [a, b, c] == [a] + ([b] + [c]);
    JoinCons(sep, a, [b] + [c]);
    JoinCons(sep, b, [c]);
    assert a + sep + (b + sep + c) == a + sep + b + sep + c;
  }

  lemma JoinSix(sep: string, a: string, b: string, c: string, d: string, e: string, f: string)
    ensures Join(sep, [a, b, c, d, e, f]) == a + sep + b + sep + c + sep + (d + sep + e + sep + f)
  {
    hide Join;
    assert [a, b, c, d, e, f] == [a] + ([b] + ([c] + [d, e, f]));
    JoinCons(sep, a, [b] + ([c] + [d, e, f]));
    JoinCons(sep, b, [c] + [d, e, f]);
    JoinCons(sep, c, [d, e, f]);
    JoinThree(sep, d, e, f);
    var rest := d + sep + e + sep + f;
    assert a + sep + (b + sep + (c + sep + rest)) == a + sep + b + sep + c + sep + rest;
  }

  lemma BodySplits(p: StructuredPrompt)
    requires ValidFields(p) && Assembled(p)
    ensures Timeline(p).Ok?
    ensures WireOf(p) == Preamble(p, AlignmentHeader(p).value) + Timeline(p).value + SoundTail(p)
  {
    hide ValidFields, Timeline, AlignmentHeader, DefinitionLines, RetentionLines, Join;
    var header, timeline := AlignmentHeader(p).value, Timeline(p).value;
    if p.mode == Ref2VA {
      HeaderOfReference(p);
      var s := p.summary.value;
      var a, b := "subject_definitions:\n" + Join("\n", DefinitionLines(p.definitions)),
                  "summary:\n[" + Join(" + ", s.taskTypes) + "] " + s.text;
      var c := "retention_analysis:\n" + Join("\n", RetentionLines(p.retention));
      JoinSix(SECTION_SEPARATOR, a, b, c, "detailed_description:\n" + timeline,
              "overall_soundscape:\n" + p.soundscape, "non_diegetic_music:\n" + p.music);
      ReferenceSplits(a + SECTION_SEPARATOR + b + SECTION_SEPARATOR + c + SECTION_SEPARATOR, timeline, p.soundscape, p.music);
    } else {
      JoinThree(SECTION_SEPARATOR, "integrated_multimodal_description: " + timeline,
                "overall_soundscape: " + p.soundscape, "non_diegetic_music: " + p.music);
      BaseSplits(header, timeline, p.soundscape, p.music);
    }
  }

  lemma HeaderOfReference(p: StructuredPrompt)
    requires ValidFields(p) && p.mode == Ref2VA
    ensures AlignmentHeader(p) == Ok("")
  {
  }

  lemma ReferenceSplits(lead: string, t: string, s: string, m: string)
    ensures lead + ("detailed_description:\n" + t + SECTION_SEPARATOR + ("overall_soundscape:\n" + s)
                    + SECTION_SEPARATOR + ("non_diegetic_music:\n" + m))
            == (lead + "detailed_description:\n") + t
               + (SECTION_SEPARATOR + ("overall_soundscape:" + "\n" + s) + SECTION_SEPARATOR + ("non_diegetic_music:" + "\n" + m))
  {
    assert "overall_soundscape:\n" == "overall_soundscape:" + "\n";
    assert "non_diegetic_music:\n" == "non_diegetic_music:" + "\n";
    Around(lead, "detailed_description:\n", t, SECTION_SEPARATOR, "overall_soundscape:\n" + s, "non_diegetic_music:\n" + m);
  }

  lemma Around(lead: string, label_: string, t: string, sep: string, x: string, y: string)
    ensures lead + (label_ + t + sep + x + sep + y) == (lead + label_) + t + (sep + x + sep + y)
  {
  }

  lemma BaseSplits(header: string, t: string, s: string, m: string)
    ensures Headed(header, "integrated_multimodal_description: " + t + SECTION_SEPARATOR + ("overall_soundscape: " + s)
                           + SECTION_SEPARATOR + ("non_diegetic_music: " + m))
            == Headed(header, "integrated_multimodal_description: ") + t
               + (SECTION_SEPARATOR + ("overall_soundscape:" + " " + s) + SECTION_SEPARATOR + ("non_diegetic_music:" + " " + m))
  {
    assert "overall_soundscape: " == "overall_soundscape:" + " ";
    assert "non_diegetic_music: " == "non_diegetic_music:" + " ";
    var lead := if header != "" then header + SECTION_SEPARATOR else "";
    Around(lead, "integrated_multimodal_description: ", t, SECTION_SEPARATOR, "overall_soundscape: " + s, "non_diegetic_music: " + m);
    assert "" + "integrated_multimodal_description: " == "integrated_multimodal_description: ";
  }

  // ----------------------------------------------------------------- the wire

  predicate Assembled(p: StructuredPrompt)
    requires ValidFields(p)
  {
    Body(p).Ok? && AlignmentHeader(p).Ok?
  }

  /** Header and body of a prompt that has both. */
  function WireOf(p: StructuredPrompt): string
    requires ValidFields(p) && Assembled(p)
  {
    Headed(AlignmentHeader(p).value, Body(p).value)
  }

  function WirePieces(p: StructuredPrompt): seq<Piece>
    requires ValidFields(p) && Assembled(p) && forall k: nat | k < |p.shots| :: Renders(p.shots, k)
  {
    [Gap(Preamble(p, AlignmentHeader(p).value))] + JoinPieces(" ", TimelineParts(p.shots)) + [Gap(SoundTail(p))]
  }

  /** The pieces spell the wire text, in order. */
  lemma WireSpells(p: StructuredPrompt)
    requires ValidFields(p) && Assembled(p)
    ensures forall k: nat | k < |p.shots| :: Renders(p.shots, k)
    ensures Spells(WirePieces(p), WireOf(p), SpokenIn(p), RenderOrder(p))
  {
    hide ValidShot, ValidDefinition, ValidRetention, AlignmentHeader, SpokenIn, Preamble, SoundTail, Renders, TextOf, SaidIn, TextsIn,
         JoinPieces, Body, Join, RenderOrder, Headed;
    BodySplits(p);
    TimelineSpells(p, ShotTexts(p.shots, |p.shots|).value);
    var before, after := Preamble(p, AlignmentHeader(p).value), SoundTail(p);
    var a, t, c := [Gap(before)], JoinPieces(" ", TimelineParts(p.shots)), [Gap(after)];
    PiecesCat(a, t);
    PiecesCat(a + t, c);
    OneGap(before);
    OneGap(after);
    assert [] + SpokenIn(p) + [] == SpokenIn(p) && [] + RenderOrder(p) + [] == RenderOrder(p);
  }

  /** Every caller text is somewhere in what the pieces spell. */
  lemma {:induction false} TextIsSpelled(ps: seq<Piece>, v: string)
    requires v in TextsIn(ps)
    ensures Contains(TextOf(ps), v)
  {
    hide Contains, Piece.Spell;
    if ps == [] {
    } else if !ps[0].Gap? && ps[0].text == v {
      PieceHolds(ps[0]);
      ContainsInside(v, "", ps[0].Spell(), TextOf(ps[1..]));
      assert "" + ps[0].Spell() + TextOf(ps[1..]) == TextOf(ps);
    } else {
      TextIsSpelled(ps[1..], v);
      ContainsInside(v, ps[0].Spell(), TextOf(ps[1..]), "");
      assert ps[0].Spell() + TextOf(ps[1..]) + "" == TextOf(ps);
    }
  }

  lemma PieceHolds(piece: Piece)
    requires !piece.Gap?
    ensures Contains(piece.Spell(), piece.text)
  {
    var v := piece.text;
    var lead := if piece.Shown? then "\"" else DIALOGUE_OPEN + ("[" + piece.language + "] ");
    var rest := if piece.Shown? then "\"" else DIALOGUE_CLOSE;
    assert v[0..|v|] == v;
    assert Occurs(v, v, 0);
    hide Contains;
    WholeHolds(v);
    ContainsInside(v, lead, v, rest);
    assert piece.Spell() == lead + v + rest;
  }

  lemma WholeHolds(v: string)
    ensures Contains(v, v)
  {
    assert v[0..|v|] == v;
    assert Occurs(v, v, 0);
  }
}
