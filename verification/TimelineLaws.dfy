/** The timeline checks together: shots tile the clip in playback order. */
module TimelineLaws {
  import opened Prelude
  import opened Grammar
  import opened Prompts
  import opened Validation

  /** Only the opening shot is without a cut time. */
  ghost predicate CutsInPlace(p: StructuredPrompt) {
    forall i | 0 <= i < |p.shots| :: p.shots[i].cutAt.None? <==> i == 0
  }

  function StartOf(p: StructuredPrompt, i: nat): real
    requires i < |p.shots| && CutsInPlace(p)
  {
    if i == 0 then 0.0 else p.shots[i].cutAt.value
  }

  function EndOf(p: StructuredPrompt, i: nat): real
    requires i < |p.shots| && CutsInPlace(p)
  {
    if i + 1 < |p.shots| then StartOf(p, i + 1) else p.duration
  }

  predicate Shows(p: StructuredPrompt, i: nat, t: real)
    requires i < |p.shots| && CutsInPlace(p)
  {
    StartOf(p, i) <= t < EndOf(p, i)
  }

  /** The two checks on single shots hold exactly when cut times are where they belong and
      shots are numbered from one. */
  lemma PlacesExactly(p: StructuredPrompt)
    ensures Found(OpeningCut, p) == [] && Found(Numbering, p) == []
            <==> CutsInPlace(p) && forall i | 0 <= i < |p.shots| :: p.shots[i].number == i + 1
  {
    hide At, Collected;
    CollectedNone(OpeningCut, p, |p.shots|);
    CollectedNone(Numbering, p, |p.shots|);
    forall i | 0 <= i < |p.shots|
      ensures At(OpeningCut, p, i) == [] <==> (p.shots[i].cutAt.None? <==> i == 0)
      ensures At(Numbering, p, i) == [] <==> p.shots[i].number == i + 1
    {
      PlaceAt(p, i);
    }
  }

  lemma PlaceAt(p: StructuredPrompt, i: nat)
    requires i < |p.shots|
    ensures At(OpeningCut, p, i) == [] <==> (p.shots[i].cutAt.None? <==> i == 0)
    ensures At(Numbering, p, i) == [] <==> p.shots[i].number == i + 1
  {
    hide ShotField;
  }

  lemma OrderAt(p: StructuredPrompt, i: nat)
    requires i < |p.shots| && CutsInPlace(p)
    ensures At(CutOrder, p, i) == [] <==> (i >= 2 ==> StartOf(p, i - 1) < StartOf(p, i))
    ensures At(CutInside, p, i) == [] <==> (i >= 1 ==> StartOf(p, i) < p.duration)
  {
    hide ShotField;
    PreviousIsLast(p, i);
  }

  lemma {:induction false} PreviousIsLast(p: StructuredPrompt, n: nat)
    requires n <= |p.shots| && CutsInPlace(p)
    ensures PreviousCut(p.shots, n) == if n <= 1 then None else p.shots[n - 1].cutAt
  {
    if n == 1 { assert p.shots[0].cutAt.None?; }
    if n > 1 { assert p.shots[n - 1].cutAt.Some?; }
  }

  ghost predicate Windows(p: StructuredPrompt)
    requires CutsInPlace(p)
  {
    forall i: nat | 1 <= i < |p.shots| :: StartOf(p, i) < EndOf(p, i)
  }

  lemma {:induction false} StartsInside(p: StructuredPrompt, i: nat)
    requires 1 <= i < |p.shots| && CutsInPlace(p) && Windows(p)
    ensures StartOf(p, i) < p.duration
    decreases |p.shots| - i
  {
    assert StartOf(p, i) < EndOf(p, i);
    if i + 1 >= |p.shots| {
    } else {
      StartsInside(p, i + 1);
    }
  }

  lemma OrderExactly(p: StructuredPrompt)
    requires CutsInPlace(p)
    ensures Found(CutOrder, p) == []
            <==> forall i: nat | 2 <= i < |p.shots| :: StartOf(p, i - 1) < StartOf(p, i)
  {
    hide At, Collected;
    CollectedNone(CutOrder, p, |p.shots|);
    forall i: nat | i < |p.shots|
      ensures At(CutOrder, p, i) == [] <==> (i >= 2 ==> StartOf(p, i - 1) < StartOf(p, i))
    {
      OrderAt(p, i);
    }
    if Found(CutOrder, p) == [] {
      forall i: nat | 2 <= i < |p.shots| ensures StartOf(p, i - 1) < StartOf(p, i) {
        assert At(CutOrder, p, i) == [];
      }
    } else {
      var i :| 0 <= i < |p.shots| && At(CutOrder, p, i) != [];
      assert i >= 2 && !(StartOf(p, i - 1) < StartOf(p, i));
    }
  }

  /** With cut times in place, the order check and the duration check hold together exactly
      when every window after the opening one is non-empty. */
  lemma WindowsExactly(p: StructuredPrompt)
    requires CutsInPlace(p)
    ensures Found(CutOrder, p) == [] && Found(CutInside, p) == [] <==> Windows(p)
  {
    hide At, Collected;
    OrderExactly(p);
    CollectedNone(CutInside, p, |p.shots|);
    forall i: nat | i < |p.shots|
      ensures At(CutInside, p, i) == [] <==> (i >= 1 ==> StartOf(p, i) < p.duration)
    {
      OrderAt(p, i);
    }
    if Windows(p) {
      forall i: nat | 1 <= i < |p.shots| ensures StartOf(p, i) < p.duration { StartsInside(p, i); }
      forall i: nat | 2 <= i < |p.shots| ensures StartOf(p, i - 1) < StartOf(p, i) {
        assert StartOf(p, i - 1) < EndOf(p, i - 1);
      }
    }
    if Found(CutOrder, p) == [] && Found(CutInside, p) == [] {
      forall i: nat | 1 <= i < |p.shots| ensures StartOf(p, i) < EndOf(p, i) {
        assert At(CutInside, p, i) == [];
        if i + 1 < |p.shots| { assert StartOf(p, i + 1 - 1) < StartOf(p, i + 1); }
      }
    }
  }

  lemma {:induction false} Ordered(p: StructuredPrompt, i: nat, j: nat)
    requires i < j < |p.shots| && ValidFields(p) && CutsInPlace(p) && Windows(p)
    ensures EndOf(p, i) <= StartOf(p, j)
    decreases j - i
  {
    if i + 1 >= j {
    } else {
      Ordered(p, i + 1, j);
      assert StartOf(p, i + 1) < EndOf(p, i + 1);
    }
  }

  lemma {:induction false} Covering(p: StructuredPrompt, t: real, n: nat) returns (i: nat)
    requires 1 <= n <= |p.shots| && CutsInPlace(p) && 0.0 <= t
    requires n < |p.shots| ==> t < StartOf(p, n)
    requires n == |p.shots| ==> t < p.duration
    ensures i < n && Shows(p, i, t)
    decreases n
  {
    if n == 1 || StartOf(p, n - 1) <= t { i := n - 1; } else { i := Covering(p, t, n - 1); }
  }

  /** For every accepted prompt each instant of the clip lies in exactly one shot's window,
      windows and shot numbers follow the same order, every window after the opening one is
      non-empty, and the opening one is empty exactly when the first cut is at zero. */
  lemma ShotsTileTheClip(p: StructuredPrompt, t: real) returns (i: nat)
    requires Accepted(p) && 0.0 <= t < p.duration
    ensures CutsInPlace(p) && i < |p.shots|
    ensures forall j: nat | j < |p.shots| :: Shows(p, j, t) <==> j == i
    ensures p.shots[i].number == i + 1
    ensures forall j: nat, k: nat | j < k < |p.shots| :: p.shots[j].number < p.shots[k].number && EndOf(p, j) <= StartOf(p, k)
    ensures forall j: nat | 1 <= j < |p.shots| :: StartOf(p, j) < EndOf(p, j)
    ensures StartOf(p, 0) == EndOf(p, 0) <==> |p.shots| > 1 && p.shots[1].cutAt == Some(0.0)
  {
    hide Found;
    CleanRule(p, OpeningCut);
    CleanRule(p, Numbering);
    CleanRule(p, CutOrder);
    CleanRule(p, CutInside);
    PlacesExactly(p);
    WindowsExactly(p);
    i := Covering(p, t, |p.shots|);
    forall j: nat, k: nat | j < k < |p.shots| ensures EndOf(p, j) <= StartOf(p, k) { Ordered(p, j, k); }
    forall j: nat | j < |p.shots| ensures Shows(p, j, t) <==> j == i {
      if j < i { assert EndOf(p, j) <= StartOf(p, i); }
      if i < j { assert EndOf(p, i) <= StartOf(p, j); }
    }
  }
}
