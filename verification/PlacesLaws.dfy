/** Where each caller text stands in the wire text, mention by mention, and that no token of the
    grammar touches it there. */
module PlacesLaws {
  import opened Prelude
  import opened Text
  import opened Grammar
  import opened Decimal
  import opened Prompts
  import opened Validation
  import opened Containment
  import opened Render
  import opened Pieces
  import opened RenderLaws
  import opened DialogueLaws

  // ----------------------------------------------------- what a token looks like

  lemma {:induction false} RunCharacters(t: string, c: char)
    requires SpacesThenDigits(t) && c in t
    ensures IsSpace(c) || IsDecimalDigit(c)
  {
    hide IsDecimalDigit;
    if !IsSpace(t[0]) || c == t[0] {
    } else {
      assert c in t[1..];
      RunCharacters(t[1..], c);
    }
  }

  lemma PlainRun(c: char)
    requires IsSpace(c) || IsDecimalDigit(c)
    ensures c !in {'<', '"', ']', '>', '[', ':'}
  {
  }

  /** What a token looks like where it could touch the text around it. */
  ghost predicate Compact(t: string) {
    && |t| >= 2 && t[0] != ' '
    && (forall k | 0 <= k < |t| :: t[k] != '"')
    && (forall k | 1 <= k < |t| :: t[k] != '<')
    && (forall k | 0 <= k < |t| - 1 :: t[k] != ']')
  }

  lemma BracketingIsCompact(t: string, open: string, close: char)
    requires Bracketing(t, open, close) && close != '"' && close != '<'
    requires |open| >= 1 && open[0] != ' ' && forall k | 0 <= k < |open| :: open[k] !in {'"', ']'} && (k > 0 ==> open[k] != '<')
    ensures Compact(t)
  {
    hide SpacesThenDigits, IsSpace, IsDecimalDigit;
    var run := t[|open|..|t| - 1];
    forall k | |open| <= k < |t| - 1 ensures t[k] !in {'<', '"', ']'} {
      assert t[k] == run[k - |open|];
      RunCharacters(run, t[k]);
      PlainRun(t[k]);
    }
    assert forall k | 0 <= k < |open| :: t[k] == open[k];
  }

  predicate PlainWord(s: string) {
    forall k | 0 <= k < |s| :: 'a' <= s[k] <= 'z' || s[k] == '_' || s[k] == '/' || s[k] == '>' || s[k] == ':'
  }

  lemma MarkerIsCompact(t: string)
    requires IsMarker(t)
    ensures Compact(t)
  {
    assert t in {"<d>", "</d>", "<scenetrans>", "<cutoff>"};
    assert t[0] == '<' && PlainWord(t[1..]);
    forall k | 1 <= k < |t| ensures t[k] !in {'<', '"', ']'} { assert t[k] == t[1..][k - 1]; }
  }

  lemma SectionNamesArePlain(k: nat)
    requires k < |SECTION_NAMES|
    ensures PlainWord(SECTION_NAMES[k]) && |SECTION_NAMES[k]| >= 2
  {
    if k > 0 {
      assert SECTION_NAMES[k] == REFERENCE_SECTIONS[k - 1];
      ReferenceNamesArePlain(k - 1);
    }
  }

  lemma ReferenceNamesArePlain(k: nat)
    requires k < |REFERENCE_SECTIONS|
    ensures PlainWord(REFERENCE_SECTIONS[k]) && |REFERENCE_SECTIONS[k]| >= 2
  {
    if k < 3 {
      assert REFERENCE_SECTIONS[k] in {"subject_definitions", "summary", "retention_analysis"};
    } else {
      assert REFERENCE_SECTIONS[k] in {"detailed_description", "overall_soundscape", "non_diegetic_music"};
    }
  }

  lemma SectionIsCompact(t: string)
    requires IsSectionOpener(t)
    ensures Compact(t)
  {
    var k :| 0 <= k < |SECTION_NAMES| && t == SECTION_NAMES[k] + ":";
    SectionNamesArePlain(k);
    hide SECTION_NAMES;
    forall i | 0 <= i < |t| - 1 ensures t[i] !in {'<', '"', ']', ' '} { assert t[i] == SECTION_NAMES[k][i]; }
  }

  lemma TokenIsCompact(t: string)
    requires IsToken(t)
    ensures Compact(t)
  {
    hide Bracketing, Compact, IsMarker, IsSectionOpener;
    if IsMarker(t) {
      MarkerIsCompact(t);
    } else if IsSectionOpener(t) {
      SectionIsCompact(t);
    } else if IsShotHeader(t) {
      BracketingIsCompact(t, "[Shot", ']');
    } else {
      var k :| 0 <= k < |REFERENCE_LABEL_KINDS| && Bracketing(t, "<" + REFERENCE_LABEL_KINDS[k], '>');
      BracketingIsCompact(t, "<" + REFERENCE_LABEL_KINDS[k], '>');
    }
  }

  /** No token of the text from `i` to `j` touches the part of length `n` at `at`. */
  ghost predicate Untouched(wire: string, at: nat, n: nat) {
    forall i, j | 0 <= i <= j <= |wire| && IsToken(wire[i..j]) :: j <= at || at + n <= i
  }

  lemma SubSlice(s: string, a: nat, b: nat, i: nat, j: nat)
    requires a <= i <= j <= b <= |s|
    ensures s[a..b][i - a..j - a] == s[i..j]
  {
    var whole := s[a..b];
    var part := whole[i - a..j - a];
    assert |part| == j - i && forall k | 0 <= k < j - i :: part[k] == s[i + k];
  }

  lemma CompactWithin(s: string, i: nat, j: nat)
    requires i <= j <= |s| && Compact(s[i..j])
    ensures i + 2 <= j && s[i] != ' '
    ensures forall k | i <= k < j :: s[k] != '"' && (k > i ==> s[k] != '<') && (k < j - 1 ==> s[k] != ']')
  {
    assert forall k | i <= k < j :: s[k] == s[i..j][k - i];
  }

  lemma FrameShields(wire: string, at: nat, v: string, left: string, right: string)
    requires Inert(v) && |left| <= at && at + |v| + |right| <= |wire|
    requires wire[at..at + |v|] == v && wire[at - |left|..at] == left && wire[at + |v|..at + |v| + |right|] == right
    requires (left == "] " && right == DIALOGUE_CLOSE) || (left == "\"" && right == "\"")
    ensures Untouched(wire, at, |v|)
  {
    hide IsToken;
    assert wire[at - 1] == wire[at - |left|..at][|left| - 1] == left[|left| - 1];
    assert wire[at + |v|] == wire[at + |v|..at + |v| + |right|][0] == right[0];
    assert left == "] " ==> wire[at - 2] == wire[at - |left|..at][0] == ']';
    forall i, j | 0 <= i <= j <= |wire| && IsToken(wire[i..j]) ensures j <= at || at + |v| <= i {
      TokenIsCompact(wire[i..j]);
      CompactWithin(wire, i, j);
      if at <= i && j <= at + |v| {
        SubSlice(wire, at, at + |v|, i, j);
      }
    }
  }

  lemma Slices(wire: string, k: nat, left: string, v: string, right: string)
    requires Occurs(left + v + right, wire, k)
    ensures var at := k + |left|;
      && at + |v| + |right| <= |wire|
      && wire[at..at + |v|] == v && wire[at - |left|..at] == left && wire[at + |v|..at + |v| + |right|] == right
  {
    var f := left + v + right;
    var at := k + |left|;
    assert f == wire[k..k + |f|];
    SubSlice(wire, k, k + |f|, at, at + |v|);
    SubSlice(wire, k, k + |f|, k, at);
    SubSlice(wire, k, k + |f|, at + |v|, k + |f|);
    assert f[|left|..|left| + |v|] == v && f[0..|left|] == left && f[|left| + |v|..|f|] == right;
  }

  // ------------------------------------------------------------------- places

  /** How far into a piece its caller text begins. */
  function Inset(piece: Piece): nat {
    match piece
    case Gap(_) => 0
    case Said(language, _) => |DIALOGUE_OPEN + "[" + language + "] "|
    case Shown(_) => 1
  }

  /** Where the caller texts of pieces stand, the first piece beginning at `o`. */
  function Places(ps: seq<Piece>, o: nat): seq<nat> {
    if ps == [] then []
    else (if ps[0].Gap? then [] else [o + Inset(ps[0])]) + Places(ps[1..], o + |ps[0].Spell()|)
  }

  /** The text stands there unchanged, and no token of the grammar touches it. */
  ghost predicate Placed(wire: string, at: nat, v: string) {
    at + |v| <= |wire| && wire[at..at + |v|] == v && Untouched(wire, at, |v|)
  }

  lemma FramePlaced(wire: string, k: nat, left: string, v: string, right: string)
    requires Inert(v) && Occurs(left + v + right, wire, k)
    requires (left == "] " && right == DIALOGUE_CLOSE) || (left == "\"" && right == "\"")
    ensures Placed(wire, k + |left|, v)
  {
    hide Inert, Untouched, Occurs;
    Slices(wire, k, left, v, right);
    FrameShields(wire, k + |left|, v, left, right);
  }

  lemma SaidPlaced(before: string, language: string, v: string, after: string)
    requires Inert(v)
    ensures var line := Said(language, v);
      Placed(before + line.Spell() + after, |before| + Inset(line), v) && Inset(line) + |v| < |line.Spell()|
  {
    hide Inert, Placed, Occurs;
    var lead, frame := DIALOGUE_OPEN + "[" + language, "] " + v + DIALOGUE_CLOSE;
    var spelled := Said(language, v).Spell();
    assert spelled == lead + frame;
    assert before + spelled + after == (before + lead) + frame + after;
    FrameOccurs(before + lead, frame, after);
    FramePlaced(before + spelled + after, |before + lead|, "] ", v, DIALOGUE_CLOSE);
  }

  lemma ShownPlaced(before: string, v: string, after: string)
    requires Inert(v)
    ensures var line := Shown(v);
      Placed(before + line.Spell() + after, |before| + Inset(line), v) && Inset(line) + |v| < |line.Spell()|
  {
    hide Inert, Placed, Occurs;
    FrameOccurs(before, "\"" + v + "\"", after);
    FramePlaced(before + Shown(v).Spell() + after, |before|, "\"", v, "\"");
  }

  lemma PiecePlaced(before: string, piece: Piece, after: string)
    requires !piece.Gap? && Inert(piece.text)
    ensures Placed(before + piece.Spell() + after, |before| + Inset(piece), piece.text)
    ensures Inset(piece) + |piece.text| < |piece.Spell()|
  {
    hide Inert, Placed, Inset, Piece.Spell;
    match piece
    case Said(language, v) => SaidPlaced(before, language, v, after);
    case Shown(v) => ShownPlaced(before, v, after);
  }

  lemma FrameOccurs(a: string, frame: string, b: string)
    ensures Occurs(frame, a + frame + b, |a|)
  {
    assert frame[0..|frame|] == frame;
    OccursInside(frame, a, frame, b, 0);
  }

  /** The places of the second text come after the first text ends. */
  ghost predicate InOrder(places: seq<nat>, texts: seq<string>)
    requires |places| == |texts|
  {
    forall j, k | 0 <= j < k < |places| :: places[j] + |texts[j]| < places[k]
  }

  ghost predicate AllPlaced(wire: string, places: seq<nat>, texts: seq<string>)
    requires |places| == |texts|
  {
    forall k | 0 <= k < |places| :: Placed(wire, places[k], texts[k])
  }

  lemma {:induction false} PlacesHold(before: string, ps: seq<Piece>, after: string)
    requires AllInert(TextsIn(ps))
    ensures |Places(ps, |before|)| == |TextsIn(ps)|
    ensures forall k | 0 <= k < |Places(ps, |before|)| :: Places(ps, |before|)[k] >= |before|
    ensures InOrder(Places(ps, |before|), TextsIn(ps))
    ensures AllPlaced(before + TextOf(ps) + after, Places(ps, |before|), TextsIn(ps))
    decreases |ps|
  {
    hide Inert, Placed, Piece.Spell, Inset, InOrder, AllPlaced;
    if ps == [] {
      NonePlaced(before + TextOf(ps) + after);
    } else {
      var piece, rest := ps[0], ps[1..];
      var spelled := piece.Spell();
      var texts, places, wire := TextsIn(rest), Places(rest, |before + spelled|), before + TextOf(ps) + after;
      InertTail(ps);
      PlacesHold(before + spelled, rest, after);
      assert wire == (before + spelled) + TextOf(rest) + after;
      if piece.Gap? {
        assert [] + places == places && [] + texts == texts;
      } else {
        PiecePlaced(before, piece, TextOf(rest) + after);
        assert before + spelled + (TextOf(rest) + after) == wire;
        FirstInOrder(|before| + Inset(piece), piece.text, places, texts);
        FirstPlaced(wire, |before| + Inset(piece), piece.text, places, texts);
      }
    }
  }

  lemma NonePlaced(wire: string)
    ensures InOrder([], []) && AllPlaced(wire, [], [])
  {
  }

  lemma InertTail(ps: seq<Piece>)
    requires ps != [] && AllInert(TextsIn(ps))
    ensures AllInert(TextsIn(ps[1..])) && (!ps[0].Gap? ==> Inert(ps[0].text))
  {
    hide Inert;
    forall k | 0 <= k < |TextsIn(ps[1..])| ensures Inert(TextsIn(ps[1..])[k]) {
      assert TextsIn(ps[1..])[k] == TextsIn(ps)[if ps[0].Gap? then k else k + 1];
    }
    if !ps[0].Gap? { assert TextsIn(ps)[0] == ps[0].text; }
  }

  lemma FirstPlaced(wire: string, at: nat, v: string, places: seq<nat>, texts: seq<string>)
    requires |places| == |texts| && AllPlaced(wire, places, texts) && Placed(wire, at, v)
    ensures AllPlaced(wire, [at] + places, [v] + texts)
  {
    hide Placed;
  }

  lemma FirstInOrder(at: nat, v: string, places: seq<nat>, texts: seq<string>)
    requires |places| == |texts| && InOrder(places, texts) && forall k | 0 <= k < |places| :: at + |v| < places[k]
    ensures InOrder([at] + places, [v] + texts)
  {
  }

  // ------------------------------------------------------- every mention once

  function Values(spans: seq<Span>): (r: seq<string>)
    ensures |r| == |spans| && forall k | 0 <= k < |spans| :: r[k] == spans[k].value
  {
    seq(|spans|, k requires 0 <= k < |spans| => spans[k].value)
  }

  lemma ValuesCat(a: seq<Span>, b: seq<Span>)
    ensures Values(a + b) == Values(a) + Values(b)
  {
  }

  lemma {:induction false} LineValues(shots: seq<Shot>, i: nat, n: nat)
    requires i < |shots| && n <= |shots[i].dialogue|
    ensures Values(LineSpans(shots, i, n)) == LineTexts(shots[i].dialogue)[..n]
  {
    hide LineField;
    if n == 0 {
    } else {
      LineValues(shots, i, n - 1);
    }
  }

  lemma {:induction false} ScreenValues(shots: seq<Shot>, i: nat, n: nat)
    requires i < |shots| && n <= |shots[i].onScreenText|
    ensures Values(ScreenSpans(shots, i, n)) == shots[i].onScreenText[..n]
  {
    hide ShotField;
    if n == 0 {
    } else {
      ScreenValues(shots, i, n - 1);
    }
  }

  lemma ShotValues(shots: seq<Shot>, i: nat)
    requires i < |shots|
    ensures Values(ShotSpans(shots, i + 1))
            == Values(ShotSpans(shots, i)) + LineTexts(shots[i].dialogue) + shots[i].onScreenText
  {
    hide LineSpans, ScreenSpans, Values, LineTexts;
    var shot := shots[i];
    var a, b, c := ShotSpans(shots, i), LineSpans(shots, i, |shot.dialogue|), ScreenSpans(shots, i, |shot.onScreenText|);
    ValuesCat(a + b, c);
    ValuesCat(a, b);
    LineValues(shots, i, |shot.dialogue|);
    ScreenValues(shots, i, |shot.onScreenText|);
    assert LineTexts(shot.dialogue)[..|shot.dialogue|] == LineTexts(shot.dialogue);
    assert shot.onScreenText[..|shot.onScreenText|] == shot.onScreenText;
  }

  lemma {:induction false} SameMentions(shots: seq<Shot>, n: nat)
    requires n <= |shots|
    ensures multiset(Values(ShotSpans(shots, n))) == multiset(Flat(ShotsTexts(shots)[..n]))
  {
    hide ShotSpans, Values, LineTexts, Flat, ShotsTexts;
    if n == 0 {
      assert Values(ShotSpans(shots, 0)) == [] by { NoValues(shots); }
      assert Flat(ShotsTexts(shots)[..0]) == [] by { NoTexts(shots); }
    } else {
      SameMentions(shots, n - 1);
      ShotValues(shots, n - 1);
      FlatStep(shots, n - 1);
    }
  }

  lemma NoTexts(shots: seq<Shot>)
    ensures Flat(ShotsTexts(shots)[..0]) == []
  {
  }

  lemma FlatStep(shots: seq<Shot>, i: nat)
    requires i < |shots|
    ensures Flat(ShotsTexts(shots)[..i + 1])
            == Flat(ShotsTexts(shots)[..i]) + (shots[i].onScreenText + LineTexts(shots[i].dialogue))
  {
    hide LineTexts;
    var outs := ShotsTexts(shots)[..i + 1];
    assert outs == ShotsTexts(shots)[..i] + [outs[i]] && outs[i] == TextsOfShot(shots[i]);
    FlatCat(ShotsTexts(shots)[..i], [outs[i]]);
    FlatOne(outs[i]);
  }

  lemma NoValues(shots: seq<Shot>)
    ensures Values(ShotSpans(shots, 0)) == []
  {
  }

  lemma RenderOrderInert(p: StructuredPrompt)
    requires CallerTextInert(p)
    ensures AllInert(RenderOrder(p))
  {
    hide Inert;
    forall n | 0 <= n < |RenderOrder(p)| ensures Inert(RenderOrder(p)[n]) {
      FlatFrom(ShotsTexts(p.shots), RenderOrder(p)[n]);
      var k :| 0 <= k < |p.shots| && RenderOrder(p)[n] in TextsOfShot(p.shots[k]);
    }
  }

  /** In every prompt that renders, whatever the service wrote: each mention of a caller text has
      a place of its own, in rendering order and apart from the next, where it stands unchanged
      and no marker, label, shot header or section opener touches it. The mentions are those of
      the spans that containment reads, each as often. */
  lemma EveryMentionIsUntouched(p: StructuredPrompt) returns (places: seq<nat>)
    requires ValidFields(p) && RenderPrompt(p).Ok?
    ensures |places| == |RenderOrder(p)| && InOrder(places, RenderOrder(p)) && AllInert(RenderOrder(p))
    ensures AllPlaced(RenderPrompt(p).value, places, RenderOrder(p))
    ensures multiset(RenderOrder(p)) == multiset(Values(ShotSpans(p.shots, |p.shots|)))
  {
    hide ValidFields, RenderPrompt, TextOf, TextsIn, SaidIn, AllPlaced, InOrder, CallerTextInert, WirePieces, Renders, AllInert,
         ShotSpans, Flat, WireOf, Assembled;
    RenderedIs(p);
    WireSpells(p);
    RenderOrderInert(p);
    PlacesHold("", WirePieces(p), "");
    places := Places(WirePieces(p), 0);
    assert "" + TextOf(WirePieces(p)) + "" == TextOf(WirePieces(p));
    SameMentions(p.shots, |p.shots|);
    assert ShotsTexts(p.shots)[..|p.shots|] == ShotsTexts(p.shots);
  }

  // ------------------------------------------------------- but not only there

  /** The words of a caller need not appear once: for every inert text of lawful length, an
      accepted prompt that renders mentions it once and its wire text holds it twice, since the
      service may write the same words. */
  lemma MentionedOnceFoundTwice(v: string) returns (p: StructuredPrompt, i: nat, j: nat)
    requires Inert(v) && Sized(v, 1, 2000)
    ensures Accepted(p) && RenderPrompt(p).Ok? && RenderOrder(p) == [v]
    ensures Occurs(v, RenderPrompt(p).value, i) && Occurs(v, RenderPrompt(p).value, j) && i + |v| <= j
  {
    hide Inert, Accepted, RenderPrompt, Occurs, AllInert;
    p := OneShot(v, [v]);
    assert AllInert([v]) by { OneInert(v); }
    OneShotIsAccepted(v, [v]);
    OneMention(v);
    i, j := FoundTwice(v);
  }

  lemma OneInert(v: string)
    requires Inert(v)
    ensures AllInert([v])
  {
    hide Inert;
  }

  lemma OneMention(v: string)
    ensures RenderOrder(OneShot(v, [v])) == [v]
  {
    var shots := OneShot(v, [v]).shots;
    assert TextsOfShot(shots[0]) == [v];
    FlatOne([v]);
    assert ShotsTexts(shots) == [[v]];
  }

  lemma FoundTwice(v: string) returns (i: nat, j: nat)
    requires Accepted(OneShot(v, [v])) && RenderPrompt(OneShot(v, [v])).Ok?
    ensures var wire := RenderPrompt(OneShot(v, [v])).value; Occurs(v, wire, i) && Occurs(v, wire, j) && i + |v| <= j
  {
    hide Accepted, RenderPrompt, Occurs, Preamble, SoundTail, Digits, AlignmentHeader;
    var p := OneShot(v, [v]);
    assert ValidFields(p) by { AcceptedIsValid(p); }
    RenderedIs(p);
    BodySplits(p);
    var a, c := Preamble(p, AlignmentHeader(p).value), SoundTail(p);
    var head := "[Shot " + Digits(1) + "]" + " " + "Cinematic," + " ";
    OneTimeline(v);
    var wire := RenderPrompt(p).value;
    var between, last := " On-screen text reads \"", "\"." + c;
    assert wire == a + (head + v + " " + ("On-screen text reads " + ("\"" + v + "\"") + ".")) + c;
    Arranged(a, head, v, c);
    i, j := |a + head|, |a + head + v + between|;
    FrameOccurs(a + head, v, between + v + last);
    FrameOccurs(a + head + v + between, v, last);
  }

  lemma AcceptedIsValid(p: StructuredPrompt)
    requires Accepted(p)
    ensures ValidFields(p)
  {
  }

  lemma Arranged(a: string, head: string, v: string, c: string)
    ensures var between, last := " On-screen text reads \"", "\"." + c;
      var wire := a + (head + v + " " + ("On-screen text reads " + ("\"" + v + "\"") + ".")) + c;
      wire == (a + head) + v + (between + v + last) && wire == (a + head + v + between) + v + last
  {
    assert " " + "On-screen text reads " + "\"" == " On-screen text reads \"";
    Gathered(a, head, v, " ", "On-screen text reads ", "\"", ".", c);
  }

  lemma Gathered(a: string, head: string, v: string, sp: string, lead: string, q: string, dot: string, c: string)
    ensures var between, last := sp + lead + q, q + dot + c;
      var wire := a + (head + v + sp + (lead + (q + v + q) + dot)) + c;
      wire == (a + head) + v + (between + v + last) && wire == (a + head + v + between) + v + last
  {
  }

  lemma OneTimeline(v: string)
    requires ValidFields(OneShot(v, [v]))
    ensures Timeline(OneShot(v, [v]))
            == Ok("[Shot " + Digits(1) + "]" + " " + "Cinematic," + " " + v + " " + ("On-screen text reads " + ("\"" + v + "\"") + "."))
  {
    hide Digits;
    var p := OneShot(v, [v]);
    var shot := p.shots[0];
    assert ScreenClause(shot) == "On-screen text reads " + ("\"" + v + "\"") + ".";
    assert "Cinematic" + "," == "Cinematic,";
    assert Opening(shot, true) == ["[Shot " + Digits(1) + "]", "Cinematic,", v];
    ScreenModifier(shot);
    assert Clauses(shot.dialogue) == [] && Modifier(Some("")) == [];
    assert ShotParts(shot, true, "") == ["[Shot " + Digits(1) + "]", "Cinematic,", v, ScreenClause(shot)];
    JoinFour(" ", "[Shot " + Digits(1) + "]", "Cinematic,", v, ScreenClause(shot));
    ShotTextsExact(p.shots, 1);
    assert ShotTexts(p.shots, 0) == Ok([]);
  }

  lemma JoinFour(sep: string, a: string, b: string, c: string, d: string)
    ensures Join(sep, [a, b, c, d]) == a + sep + b + sep + c + sep + d
  {
    assert [a, b, c, d] == [a] + [b, c, d];
    JoinCons(sep, a, [b, c, d]);
    JoinThree(sep, b, c, d);
    assert a + sep + (b + sep + c + sep + d) == a + sep + b + sep + c + sep + d;
  }
}
