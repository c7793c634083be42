/** Containment: a text a caller supplies is refused when any of it could be read as grammar. */
module Containment {
  import opened Prelude
  import opened Text
  import opened Decimal
  import opened Grammar
  import opened Prompts
  import opened Validation

  predicate HoldsLabel(s: string) {
    exists i, j | 0 <= i <= j <= |s| :: IsReferenceLabel(s[i..j])
  }

  predicate HoldsShotHeader(s: string) {
    exists i, j | 0 <= i <= j <= |s| :: IsShotHeader(s[i..j])
  }

  /** The rule a caller span breaks first, if any. */
  function ContainDefect(value: string): Option<string> {
    if exists k | 0 <= k < |FORBIDDEN_MARKERS| :: Contains(value, FORBIDDEN_MARKERS[k]) then Some("grammar_marker")
    else if HoldsLabel(value) then Some("reference_label")
    else if HoldsShotHeader(value) then Some("shot_header")
    else if exists k | 0 <= k < |value| :: IsControl(value[k]) then Some("control_character")
    else if exists k | 0 <= k < |SECTION_NAMES| :: Contains(value, SECTION_NAMES[k] + ":") then Some("section_opener")
    else None
  }

  /** No part of the text is a token of the grammar, and no character is a control character. */
  ghost predicate Inert(value: string) {
    (forall i, j | 0 <= i <= j <= |value| :: !IsToken(value[i..j])) && forall k | 0 <= k < |value| :: !IsControl(value[k])
  }

  lemma ContainsExactly(s: string, pat: string)
    ensures Contains(s, pat) <==> exists i, j | 0 <= i <= j <= |s| :: s[i..j] == pat
  {
    if Contains(s, pat) {
      var i :| 0 <= i <= |s| && Occurs(pat, s, i);
      assert s[i..i + |pat|] == pat;
    }
    if i, j :| 0 <= i <= j <= |s| && s[i..j] == pat {
      assert Occurs(pat, s, i);
    }
  }

  /** The five containment rules together refuse exactly the texts that are not inert. */
  lemma ContainedExactly(value: string)
    ensures ContainDefect(value).None? <==> Inert(value)
  {
    hide Contains, Bracketing;
    forall k | 0 <= k < |FORBIDDEN_MARKERS| ensures Contains(value, FORBIDDEN_MARKERS[k])
                                                    <==> exists i, j | 0 <= i <= j <= |value| :: value[i..j] == FORBIDDEN_MARKERS[k]
    {
      ContainsExactly(value, FORBIDDEN_MARKERS[k]);
    }
    forall k | 0 <= k < |SECTION_NAMES| ensures Contains(value, SECTION_NAMES[k] + ":")
                                                <==> exists i, j | 0 <= i <= j <= |value| :: value[i..j] == SECTION_NAMES[k] + ":"
    {
      ContainsExactly(value, SECTION_NAMES[k] + ":");
    }
    if ContainDefect(value).None? {
      forall i, j | 0 <= i <= j <= |value| ensures !IsToken(value[i..j]) {}
    } else if !(exists k | 0 <= k < |value| :: IsControl(value[k])) {
      BreachIsToken(value);
    }
  }

  lemma BreachIsToken(value: string)
    requires ContainDefect(value).Some? && forall k | 0 <= k < |value| :: !IsControl(value[k])
    ensures exists i, j | 0 <= i <= j <= |value| :: IsToken(value[i..j])
  {
    hide Contains, Bracketing;
    if k :| 0 <= k < |FORBIDDEN_MARKERS| && Contains(value, FORBIDDEN_MARKERS[k]) {
      ContainsExactly(value, FORBIDDEN_MARKERS[k]);
      var i, j :| 0 <= i <= j <= |value| && value[i..j] == FORBIDDEN_MARKERS[k];
      assert IsToken(value[i..j]);
    } else if HoldsLabel(value) {
      var i, j :| 0 <= i <= j <= |value| && IsReferenceLabel(value[i..j]);
      assert IsToken(value[i..j]);
    } else if HoldsShotHeader(value) {
      var i, j :| 0 <= i <= j <= |value| && IsShotHeader(value[i..j]);
      assert IsToken(value[i..j]);
    } else {
      var k :| 0 <= k < |SECTION_NAMES| && Contains(value, SECTION_NAMES[k] + ":");
      ContainsExactly(value, SECTION_NAMES[k] + ":");
      var i, j :| 0 <= i <= j <= |value| && value[i..j] == SECTION_NAMES[k] + ":";
      assert IsToken(value[i..j]);
    }
  }

  // ------------------------------------------------------------ caller spans

  datatype Span = Span(field: string, value: string)

  function LineSpans(shots: seq<Shot>, i: nat, n: nat): seq<Span>
    requires i < |shots| && n <= |shots[i].dialogue|
  {
    if n == 0 then [] else LineSpans(shots, i, n - 1) + [Span(LineField(i, n - 1, "text"), shots[i].dialogue[n - 1].text)]
  }

  function ScreenSpans(shots: seq<Shot>, i: nat, n: nat): seq<Span>
    requires i < |shots| && n <= |shots[i].onScreenText|
  {
    if n == 0 then []
    else ScreenSpans(shots, i, n - 1) + [Span(ShotField(i, "on_screen_text." + Digits(n - 1)), shots[i].onScreenText[n - 1])]
  }

  function ShotSpans(shots: seq<Shot>, n: nat): seq<Span>
    requires n <= |shots|
  {
    if n == 0 then []
    else ShotSpans(shots, n - 1) + LineSpans(shots, n - 1, |shots[n - 1].dialogue|)
         + ScreenSpans(shots, n - 1, |shots[n - 1].onScreenText|)
  }

  lemma NoSpans(shots: seq<Shot>)
    ensures ShotSpans(shots, 0) == []
  {
  }

  lemma SpansStep(shots: seq<Shot>, i: nat)
    requires i < |shots|
    ensures LineSpans(shots, i, 0) == [] && ScreenSpans(shots, i, 0) == []
    ensures ShotSpans(shots, i + 1)
            == ShotSpans(shots, i) + LineSpans(shots, i, |shots[i].dialogue|) + ScreenSpans(shots, i, |shots[i].onScreenText|)
  {
    hide LineField, ShotField;
  }

  lemma LineStep(shots: seq<Shot>, i: nat, j: nat)
    requires i < |shots| && j < |shots[i].dialogue|
    ensures LineSpans(shots, i, j + 1) == LineSpans(shots, i, j) + [Span(LineField(i, j, "text"), shots[i].dialogue[j].text)]
  {
    hide LineField;
  }

  lemma ScreenStep(shots: seq<Shot>, i: nat, j: nat)
    requires i < |shots| && j < |shots[i].onScreenText|
    ensures ScreenSpans(shots, i, j + 1)
            == ScreenSpans(shots, i, j) + [Span(ShotField(i, "on_screen_text." + Digits(j)), shots[i].onScreenText[j])]
  {
    hide ShotField;
  }

  method CallerSpans(p: StructuredPrompt) returns (spans: seq<Span>)
    ensures spans == ShotSpans(p.shots, |p.shots|)
  {
    hide LineField, ShotField, ShotSpans, LineSpans, ScreenSpans;
    spans := [];
    NoSpans(p.shots);
    for i := 0 to |p.shots|
      invariant spans == ShotSpans(p.shots, i)
    {
      ghost var before := spans;
      SpansStep(p.shots, i);
      var lines, screen := p.shots[i].dialogue, p.shots[i].onScreenText;
      for j := 0 to |lines|
        invariant spans == before + LineSpans(p.shots, i, j)
      {
        LineStep(p.shots, i, j);
        spans := spans + [Span(LineField(i, j, "text"), lines[j].text)];
      }
      ghost var spoken := spans;
      for j := 0 to |screen|
        invariant spans == spoken + ScreenSpans(p.shots, i, j)
      {
        ScreenStep(p.shots, i, j);
        spans := spans + [Span(ShotField(i, "on_screen_text." + Digits(j)), screen[j])];
      }
    }
  }

  /** The first span that is refused, with the rule it breaks. */
  function FirstBreach(spans: seq<Span>): (r: Option<(string, string)>)
    ensures r.None? <==> forall k | 0 <= k < |spans| :: ContainDefect(spans[k].value).None?
  {
    if spans == [] then None
    else match ContainDefect(spans[0].value)
      case Some(rule) => Some((spans[0].field, rule))
      case None =>
        assert forall k | 1 <= k < |spans| :: spans[k] == spans[1..][k - 1];
        FirstBreach(spans[1..])
  }

  function FirstAltered(text: string, spans: seq<Span>): (r: Option<string>)
    ensures r.None? <==> forall k | 0 <= k < |spans| :: Contains(text, spans[k].value)
  {
    if spans == [] then None
    else if !Contains(text, spans[0].value) then Some(spans[0].field)
    else
      assert forall k | 1 <= k < |spans| :: spans[k] == spans[1..][k - 1];
      FirstAltered(text, spans[1..])
  }

  /** A refusal names the first span that is refused and the rule it breaks first. */
  lemma {:induction false} BreachIsFirst(spans: seq<Span>)
    ensures FirstBreach(spans).Some? ==> exists k ::
              && 0 <= k < |spans| && FirstBreach(spans) == Some((spans[k].field, ContainDefect(spans[k].value).GetOr("")))
              && ContainDefect(spans[k].value).Some? && forall j | 0 <= j < k :: ContainDefect(spans[j].value).None?
  {
    hide ContainDefect;
    if FirstBreach(spans).Some? {
      if ContainDefect(spans[0].value).Some? {
        assert FirstBreach(spans) == Some((spans[0].field, ContainDefect(spans[0].value).GetOr("")));
      } else {
        BreachIsFirst(spans[1..]);
        var k :| 0 <= k < |spans[1..]| && FirstBreach(spans[1..]) == Some((spans[1..][k].field, ContainDefect(spans[1..][k].value).GetOr("")))
                 && ContainDefect(spans[1..][k].value).Some? && forall j | 0 <= j < k :: ContainDefect(spans[1..][j].value).None?;
        assert spans[k + 1] == spans[1..][k];
        assert forall j | 1 <= j < k + 1 :: spans[j] == spans[1..][j - 1];
      }
    }
  }

  /** Every caller-controlled text of the prompt is inert. */
  ghost predicate CallerTextInert(p: StructuredPrompt) {
    forall i | 0 <= i < |p.shots| ::
      && (forall j | 0 <= j < |p.shots[i].dialogue| :: Inert(p.shots[i].dialogue[j].text))
      && (forall j | 0 <= j < |p.shots[i].onScreenText| :: Inert(p.shots[i].onScreenText[j]))
  }

  // ------------------------------------------- every span, and nothing else

  lemma {:induction false} LineSpansExactly(shots: seq<Shot>, i: nat, n: nat, v: string)
    requires i < |shots| && n <= |shots[i].dialogue|
    ensures (exists s | s in LineSpans(shots, i, n) :: s.value == v)
            <==> exists j | 0 <= j < n :: shots[i].dialogue[j].text == v
  {
    hide LineField;
    if n == 0 {
    } else {
      LineSpansExactly(shots, i, n - 1, v);
      var last := Span(LineField(i, n - 1, "text"), shots[i].dialogue[n - 1].text);
      assert last in LineSpans(shots, i, n);
      assert forall s | s in LineSpans(shots, i, n - 1) :: s in LineSpans(shots, i, n);
    }
  }

  lemma {:induction false} ScreenSpansExactly(shots: seq<Shot>, i: nat, n: nat, v: string)
    requires i < |shots| && n <= |shots[i].onScreenText|
    ensures (exists s | s in ScreenSpans(shots, i, n) :: s.value == v)
            <==> exists j | 0 <= j < n :: shots[i].onScreenText[j] == v
  {
    hide ShotField;
    if n == 0 {
    } else {
      ScreenSpansExactly(shots, i, n - 1, v);
      var last := Span(ShotField(i, "on_screen_text." + Digits(n - 1)), shots[i].onScreenText[n - 1]);
      assert last in ScreenSpans(shots, i, n);
      assert forall s | s in ScreenSpans(shots, i, n - 1) :: s in ScreenSpans(shots, i, n);
    }
  }

  ghost predicate Supplies(shot: Shot, v: string) {
    || (exists j | 0 <= j < |shot.dialogue| :: shot.dialogue[j].text == v)
    || (exists j | 0 <= j < |shot.onScreenText| :: shot.onScreenText[j] == v)
  }

  /** The spans are exactly the dialogue texts and the on-screen texts of the prompt. */
  lemma {:induction false} SpansExactly(shots: seq<Shot>, n: nat, v: string)
    requires n <= |shots|
    ensures (exists s | s in ShotSpans(shots, n) :: s.value == v) <==> exists i | 0 <= i < n :: Supplies(shots[i], v)
  {
    hide LineField, ShotField, LineSpans, ScreenSpans;
    if n == 0 {
    } else {
      SpansExactly(shots, n - 1, v);
      LineSpansExactly(shots, n - 1, |shots[n - 1].dialogue|, v);
      ScreenSpansExactly(shots, n - 1, |shots[n - 1].onScreenText|, v);
      var a, b, c := ShotSpans(shots, n - 1), LineSpans(shots, n - 1, |shots[n - 1].dialogue|),
                     ScreenSpans(shots, n - 1, |shots[n - 1].onScreenText|);
      assert ShotSpans(shots, n) == a + b + c;
      assert forall s :: s in a + b + c <==> s in a || s in b || s in c;
    }
  }

  /** The prompt passes containment exactly when every caller text is inert. */
  lemma PromptContainedExactly(p: StructuredPrompt)
    ensures FirstBreach(ShotSpans(p.shots, |p.shots|)).None? <==> CallerTextInert(p)
  {
    hide ContainDefect, Inert, ShotSpans;
    var spans := ShotSpans(p.shots, |p.shots|);
    if FirstBreach(spans).None? {
      forall i, v | 0 <= i < |p.shots| && Supplies(p.shots[i], v) ensures Inert(v) {
        SpansExactly(p.shots, |p.shots|, v);
        var s :| s in spans && s.value == v;
        ContainedExactly(v);
      }
      forall i, j | 0 <= i < |p.shots| && 0 <= j < |p.shots[i].dialogue| ensures Inert(p.shots[i].dialogue[j].text) {
        assert Supplies(p.shots[i], p.shots[i].dialogue[j].text);
      }
      forall i, j | 0 <= i < |p.shots| && 0 <= j < |p.shots[i].onScreenText| ensures Inert(p.shots[i].onScreenText[j]) {
        assert Supplies(p.shots[i], p.shots[i].onScreenText[j]);
      }
    }
    if CallerTextInert(p) {
      forall k | 0 <= k < |spans| ensures ContainDefect(spans[k].value).None? {
        assert spans[k] in spans;
        SpansExactly(p.shots, |p.shots|, spans[k].value);
        ContainedExactly(spans[k].value);
      }
    }
  }
}
