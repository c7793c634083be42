/** Speaker numbering: two separately written walks over the same lines agree. */
module SpeakerLaws {
  import opened Prelude
  import opened Text
  import opened Decimal
  import opened Grammar
  import opened Prompts
  import opened Validation

  function Ids(ms: seq<Mention>): (r: seq<string>)
    ensures |r| == |ms| && forall k | 0 <= k < |ms| :: r[k] == ms[k].id
  {
    seq(|ms|, k requires 0 <= k < |ms| => ms[k].id)
  }

  lemma {:induction false} LineIds(lines: seq<DialogueLine>, i: nat, n: nat)
    requires n <= |lines|
    ensures Ids(LineMentions(lines, i, n)) == LineSpeakers(lines, n)
  {
    hide LineField, Split;
    if n == 0 {
    } else {
      LineIds(lines, i, n - 1);
    }
  }

  /** The validation walk visits the speakers the numbering walk visits, in the same order. */
  lemma {:induction false} SameWalk(shots: seq<Shot>, n: nat)
    requires n <= |shots|
    ensures Ids(Mentions(shots, n)) == Speakers(shots, n)
  {
    hide Split, LineField, LineMentions, LineSpeakers;
    if n == 0 {
    } else {
      SameWalk(shots, n - 1);
      LineIds(shots[n - 1].dialogue, n - 1, |shots[n - 1].dialogue|);
    }
  }

  // ---------------------------------------------------------------- numerals

  lemma TailValue(s: string)
    requires IsNumberTail(s)
    ensures Value(s) == Some(if |s| == 1 then s[0] as int - '0' as int
                             else 10 * (s[0] as int - '0' as int) + (s[1] as int - '0' as int))
    ensures Value(s).value >= 1
  {
    assert s[..|s| - 1] == if |s| == 1 then "" else [s[0]];
  }

  lemma DigitOf(c: char)
    requires '0' <= c <= '9'
    ensures DIGITS[c as int - '0' as int] == c
  {
  }

  /** A speaker is the decimal numeral of its number. */
  lemma SpeakerIsNumeral(s: string)
    requires IsSpeaker(s)
    ensures s == "S" + Digits(NumberOf(s)) && NumberOf(s) >= 1
  {
    var tail := s[1..];
    TailValue(tail);
    var n := Value(tail).value;
    if |tail| == 1 {
      DigitOf(tail[0]);
      assert Digits(n) == tail;
    } else {
      DigitOf(tail[0]);
      DigitOf(tail[1]);
      assert n / 10 == tail[0] as int - '0' as int && n % 10 == tail[1] as int - '0' as int;
      assert Digits(n / 10) == [tail[0]];
      assert Digits(n) == [tail[0]] + [tail[1]] == tail;
    }
    assert s == [s[0]] + tail;
  }

  // ------------------------------------------------------------------- orders

  ghost predicate AllSpeakers(ids: seq<string>) {
    forall k | 0 <= k < |ids| :: IsSpeaker(ids[k])
  }

  lemma {:induction false} AssignedAreFirsts(ms: seq<Mention>)
    requires AllSpeakers(Ids(ms))
    ensures |Assigned(ms)| == |Firsts(Ids(ms))|
    ensures AllSpeakers(Firsts(Ids(ms)))
    ensures forall k | 0 <= k < |Assigned(ms)| :: Assigned(ms)[k] == NumberOf(Firsts(Ids(ms))[k])
  {
    hide NumberOf, IsSpeaker;
    if ms == [] {
    } else {
      var n := |ms| - 1;
      var front, id := ms[..n], ms[n].id;
      assert Ids(ms)[..n] == Ids(front);
      AssignedAreFirsts(front);
      var firsts, taken := Firsts(Ids(front)), Assigned(front);
      assert Ids(ms)[n] == id;
      assert NumberOf(id) in taken <==> id in firsts by {
        if NumberOf(id) in taken {
          var k :| 0 <= k < |taken| && taken[k] == NumberOf(id);
          assert IsSpeaker(firsts[k]) && IsSpeaker(id);
          SpeakerIsNumeral(firsts[k]);
          SpeakerIsNumeral(id);
        }
      }
    }
  }

  predicate CountsUp(numbers: seq<nat>) {
    forall k | 0 <= k < |numbers| :: numbers[k] == k + 1
  }

  lemma CountsUpStep(numbers: seq<nat>, next: nat)
    ensures CountsUp(numbers + [next]) <==> CountsUp(numbers) && next == |numbers| + 1
  {
    var all := numbers + [next];
    assert all[|numbers|] == next;
    assert forall k | 0 <= k < |numbers| :: all[k] == numbers[k];
  }

  lemma {:induction false} NoDefectExactly(ms: seq<Mention>)
    ensures SpeakerDefects(ms) == [] <==> CountsUp(Assigned(ms))
  {
    hide NumberOf;
    if ms == [] {
    } else {
      var n := |ms| - 1;
      NoDefectExactly(ms[..n]);
      var before := Assigned(ms[..n]);
      CountsUpStep(before, NumberOf(ms[n].id));
    }
  }

  /** S1, S2, ..., Sn. */
  function Numbered(n: nat): (r: seq<string>)
    ensures |r| == n && forall k | 0 <= k < n :: r[k] == "S" + Digits(k + 1)
  {
    seq(n, k requires 0 <= k < n => "S" + Digits(k + 1))
  }

  lemma {:induction false} LineIdsValid(lines: seq<DialogueLine>, n: nat)
    requires n <= |lines| && forall k | 0 <= k < |lines| :: ValidLine(lines[k])
    ensures AllSpeakers(LineSpeakers(lines, n))
  {
    hide IsSpeaker, Split;
    if n == 0 {
    } else {
      LineIdsValid(lines, n - 1);
      assert ValidLine(lines[n - 1]);
    }
  }

  lemma {:induction false} IdsValid(shots: seq<Shot>, n: nat)
    requires n <= |shots| && forall k | 0 <= k < |shots| :: ValidShot(shots[k])
    ensures AllSpeakers(Speakers(shots, n))
  {
    hide IsSpeaker, Split, ValidLine, IsLabel;
    if n == 0 {
    } else {
      IdsValid(shots, n - 1);
      assert ValidShot(shots[n - 1]);
      LineIdsValid(shots[n - 1].dialogue, |shots[n - 1].dialogue|);
    }
  }

  /** For every composed prompt the check reports no defect exactly when the distinct speakers,
      in the order they first vocalize, are S1, S2, ..., Sn. */
  lemma SpeakersContinuousExactly(p: StructuredPrompt)
    requires ValidFields(p)
    ensures var firsts := Firsts(Speakers(p.shots, |p.shots|));
      Found(SpeakerOrder, p) == [] <==> firsts == Numbered(|firsts|)
  {
    hide NumberOf, IsSpeaker, Speakers, Mentions, SpeakerDefects, Assigned, Firsts, IsLabel, ValidLine, Digits;
    var ms := Mentions(p.shots, |p.shots|);
    var firsts := Firsts(Speakers(p.shots, |p.shots|));
    SameWalk(p.shots, |p.shots|);
    IdsValid(p.shots, |p.shots|);
    AssignedAreFirsts(ms);
    NoDefectExactly(ms);
    var taken := Assigned(ms);
    forall k | 0 <= k < |firsts| ensures taken[k] == k + 1 <==> firsts[k] == Numbered(|firsts|)[k] {
      assert IsSpeaker(firsts[k]);
      NumeralOf(firsts[k], k + 1);
    }
    if firsts == Numbered(|firsts|) {
      assert forall k | 0 <= k < |taken| :: taken[k] == k + 1;
    }
    if SpeakerDefects(ms) == [] {
      assert forall k | 0 <= k < |firsts| :: firsts[k] == Numbered(|firsts|)[k];
    }
  }

  lemma NumeralOf(s: string, n: nat)
    requires IsSpeaker(s)
    ensures NumberOf(s) == n <==> s == "S" + Digits(n)
  {
    SpeakerIsNumeral(s);
    if s == "S" + Digits(n) {
      assert s[1..] == Digits(n);
      ValueOfDigits(n);
    }
  }
}
