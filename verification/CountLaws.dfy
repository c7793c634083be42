/** How often a caller text stands in the wire text, against how often it is mentioned. */
module CountLaws {
  import opened Prelude
  import opened Text
  import opened Grammar
  import opened Prompts
  import opened Containment
  import opened Render
  import opened Pieces
  import opened RenderLaws

  // ----------------------------------------------------------------- counting

  /** Where `v` occurs, overlaps included. */
  function Sites(v: string, s: string): set<nat> {
    set i: nat | i <= |s| && Occurs(v, s, i)
  }

  function Count(v: string, s: string): nat {
    |Sites(v, s)|
  }

  /** No occurrence begins in `a` and ends in `b`. */
  ghost predicate Apart(v: string, a: string, b: string) {
    forall i: nat | i < |a| < i + |v| :: !Occurs(v, a + b, i)
  }

  function Shifted(sites: set<nat>, n: nat): set<nat> {
    set i | i in sites :: i + n
  }

  lemma ShiftedHolds(sites: set<nat>, n: nat, j: nat)
    ensures j in Shifted(sites, n) <==> j >= n && j - n in sites
  {
  }

  lemma ShiftedWithout(sites: set<nat>, n: nat, i: nat)
    requires i in sites
    ensures Shifted(sites, n) == Shifted(sites - {i}, n) + {i + n} && i + n !in Shifted(sites - {i}, n)
  {
    forall j: nat ensures j in Shifted(sites, n) <==> j in Shifted(sites - {i}, n) || j == i + n {
      ShiftedHolds(sites, n, j);
      ShiftedHolds(sites - {i}, n, j);
    }
  }

  lemma {:induction false} ShiftedCount(sites: set<nat>, n: nat)
    ensures |Shifted(sites, n)| == |sites|
  {
    if sites == {} {
      assert Shifted(sites, n) == {};
    } else {
      var i :| i in sites;
      ShiftedCount(sites - {i}, n);
      ShiftedWithout(sites, n, i);
    }
  }

  lemma SiteOf(v: string, a: string, b: string, i: nat)
    requires v != ""
    ensures i + |v| <= |a| ==> (Occurs(v, a + b, i) <==> Occurs(v, a, i))
    ensures i >= |a| ==> (Occurs(v, a + b, i) <==> Occurs(v, b, i - |a|))
  {
    if i + |v| <= |a| {
      assert (a + b)[i..i + |v|] == a[i..i + |v|];
    } else if i >= |a| && i + |v| <= |a + b| {
      assert (a + b)[i..i + |v|] == b[i - |a|..i - |a| + |v|];
    }
  }

  function Across(v: string, a: string, b: string): set<nat> {
    set i: nat | i < |a| < i + |v| && Occurs(v, a + b, i)
  }

  lemma SitesCat(v: string, a: string, b: string)
    requires v != ""
    ensures Sites(v, a + b) == Sites(v, a) + Across(v, a, b) + Shifted(Sites(v, b), |a|)
    ensures Sites(v, a) !! Across(v, a, b) && Sites(v, a) + Across(v, a, b) !! Shifted(Sites(v, b), |a|)
  {
    var here, across, there := Sites(v, a), Across(v, a, b), Shifted(Sites(v, b), |a|);
    forall i: nat ensures i in Sites(v, a + b) <==> i in here || i in across || i in there {
      SiteOf(v, a, b, i);
      hide Occurs;
      if i >= |a| { assert i in there <==> i - |a| in Sites(v, b); }
    }
  }

  /** Joined texts hold what each holds, and what runs across. */
  lemma CountCat(v: string, a: string, b: string)
    requires v != ""
    ensures Count(v, a + b) >= Count(v, a) + Count(v, b)
    ensures Count(v, a + b) == Count(v, a) + Count(v, b) <==> Apart(v, a, b)
  {
    SitesCat(v, a, b);
    ShiftedCount(Sites(v, b), |a|);
    AcrossExactly(v, a, b);
    hide Sites, Shifted, Apart, Across;
    assert |Sites(v, a) + Across(v, a, b)| == |Sites(v, a)| + |Across(v, a, b)|;
  }

  lemma AcrossExactly(v: string, a: string, b: string)
    ensures Across(v, a, b) == {} <==> Apart(v, a, b)
  {
    hide Occurs;
    if i: nat :| i < |a| < i + |v| && Occurs(v, a + b, i) { assert i in Across(v, a, b); }
  }

  lemma NoneCounted(v: string, s: string)
    ensures Count(v, s) == 0 <==> !Contains(s, v)
  {
    if Contains(s, v) {
      var i: nat :| i <= |s| && Occurs(v, s, i);
      assert i in Sites(v, s);
    } else {
      assert Sites(v, s) == {};
    }
  }

  /** A text holds itself once. */
  lemma ItselfCounted(v: string, u: string)
    requires v != ""
    ensures var own := if u == v then 1 else 0;
      Count(v, u) >= own && (Count(v, u) == own <==> u == v || !Contains(u, v))
  {
    NoneCounted(v, u);
    if u == v {
      assert Occurs(v, v, 0);
      assert Sites(v, v) == {0};
    }
  }

  // ---------------------------------------------------------------- mentions

  /** What a piece writes around its caller text. */
  function Lead(piece: Piece): string
    requires !piece.Gap?
  {
    if piece.Said? then DIALOGUE_OPEN + "[" + piece.language + "] " else "\""
  }

  function Trail(piece: Piece): string
    requires !piece.Gap?
  {
    if piece.Said? then DIALOGUE_CLOSE else "\""
  }

  lemma SpelledAround(piece: Piece)
    requires !piece.Gap?
    ensures piece.Spell() == Lead(piece) + piece.text + Trail(piece)
  {
    if piece.Said? { Regrouped(DIALOGUE_OPEN, "[", piece.language, "] ", piece.text, DIALOGUE_CLOSE); }
  }

  lemma Regrouped(a: string, b: string, c: string, d: string, u: string, z: string)
    ensures a + (b + c + d + u) + z == (a + b + c + d) + u + z
  {
  }

  /** `v` stands nowhere but where it is mentioned: not in the text between two mentions, not in
      another caller text, not across the ends of either. `pending` is what comes before. */
  ghost predicate Alone(pending: string, ps: seq<Piece>, v: string)
    decreases |ps|
  {
    if ps == [] then !Contains(pending, v)
    else if ps[0].Gap? then Alone(pending + ps[0].text, ps[1..], v)
    else
      var before, u, after := pending + Lead(ps[0]), ps[0].text, Trail(ps[0]);
      && !Contains(before, v) && (u == v || !Contains(u, v))
      && Apart(v, before, u + (after + TextOf(ps[1..]))) && Apart(v, u, after + TextOf(ps[1..]))
      && Alone(after, ps[1..], v)
  }

  function Mentions(v: string, texts: seq<string>): nat {
    multiset(texts)[v]
  }

  lemma MentionsFirst(v: string, u: string, texts: seq<string>)
    ensures Mentions(v, [u] + texts) == Mentions(v, texts) + if u == v then 1 else 0
  {
    assert multiset([u] + texts) == multiset{u} + multiset(texts);
  }

  lemma {:induction false} CountedExactly(pending: string, ps: seq<Piece>, v: string)
    requires v != ""
    ensures Count(v, pending + TextOf(ps)) >= Mentions(v, TextsIn(ps))
    ensures Count(v, pending + TextOf(ps)) == Mentions(v, TextsIn(ps)) <==> Alone(pending, ps, v)
    decreases |ps|
  {
    hide Count, Contains, Apart, Lead, Trail, Piece.Spell, Mentions;
    if ps == [] {
      assert pending + "" == pending;
      NoneCounted(v, pending);
      assert Mentions(v, []) == 0 by { NoMentions(v); }
    } else if ps[0].Gap? {
      CountedExactly(pending + ps[0].text, ps[1..], v);
      GapSpelled(ps[0]);
      assert pending + ps[0].text + TextOf(ps[1..]) == pending + TextOf(ps);
      assert [] + TextsIn(ps[1..]) == TextsIn(ps[1..]);
    } else {
      var before, u, after, rest := pending + Lead(ps[0]), ps[0].text, Trail(ps[0]), TextOf(ps[1..]);
      SpelledAround(ps[0]);
      assert pending + TextOf(ps) == before + (u + (after + rest));
      CountedExactly(after, ps[1..], v);
      CountCat(v, before, u + (after + rest));
      CountCat(v, u, after + rest);
      NoneCounted(v, before);
      ItselfCounted(v, u);
      MentionsFirst(v, u, TextsIn(ps[1..]));
    }
  }

  lemma NoMentions(v: string)
    ensures Mentions(v, []) == 0
  {
  }

  lemma GapSpelled(piece: Piece)
    requires piece.Gap?
    ensures piece.Spell() == piece.text
  {
  }

  /** In every prompt that renders, every text stands in the wire text at least as often as it is
      mentioned, and as often exactly when it stands alone at its mentions. */
  lemma StandsAsMentionedExactly(p: StructuredPrompt, v: string)
    requires ValidFields(p) && RenderPrompt(p).Ok? && v != ""
    ensures Assembled(p) && forall k: nat | k < |p.shots| :: Renders(p.shots, k)
    ensures Count(v, RenderPrompt(p).value) >= Mentions(v, RenderOrder(p))
    ensures Count(v, RenderPrompt(p).value) == Mentions(v, RenderOrder(p)) <==> Alone("", WirePieces(p), v)
  {
    hide ValidFields, RenderPrompt, TextOf, TextsIn, SaidIn, WirePieces, Renders, WireOf, Assembled, Count, Mentions, Alone,
         RenderOrder, CallerTextInert;
    RenderedIs(p);
    WireSpells(p);
    CountedExactly("", WirePieces(p), v);
    assert "" + TextOf(WirePieces(p)) == TextOf(WirePieces(p));
  }

  // ----------------------------------------------- texts without frame characters

  /** Holds none of the characters next to which the renderer puts a caller text. */
  predicate Frameless(v: string) {
    '"' !in v && '<' !in v && ']' !in v
  }

  /** What is written between two mentions, before the first and after the last. */
  function Surroundings(pending: string, ps: seq<Piece>): seq<string>
    decreases |ps|
  {
    if ps == [] then [pending]
    else if ps[0].Gap? then Surroundings(pending + ps[0].text, ps[1..])
    else [pending + Lead(ps[0])] + Surroundings(Trail(ps[0]), ps[1..])
  }

  predicate NoneHolds(texts: seq<string>, v: string) {
    forall k | 0 <= k < |texts| :: !Contains(texts[k], v)
  }

  predicate NoOtherHolds(texts: seq<string>, v: string) {
    forall k | 0 <= k < |texts| :: texts[k] == v || !Contains(texts[k], v)
  }

  /** A spoken line stands behind a space, with which it does not begin `v`. */
  predicate NoneBehindSpace(ps: seq<Piece>, v: string) {
    forall k | 0 <= k < |ps| && ps[k].Said? :: !(v <= " " + ps[k].text)
  }

  lemma AcrossHolds(v: string, a: string, b: string, i: nat)
    requires i < |a| < i + |v| && Occurs(v, a + b, i)
    ensures b != "" && a[|a| - 1] in v && b[0] in v
  {
    assert v == (a + b)[i..i + |v|];
    assert v[|a| - 1 - i] == a[|a| - 1] && v[|a| - i] == b[0];
  }

  /** A text does not run across a character it does not hold. */
  lemma ApartAtChar(v: string, a: string, b: string)
    requires (a != "" && a[|a| - 1] !in v) || (b != "" && b[0] !in v)
    ensures Apart(v, a, b)
  {
    hide Occurs;
    forall i: nat | i < |a| < i + |v| ensures !Occurs(v, a + b, i) {
      if Occurs(v, a + b, i) { AcrossHolds(v, a, b, i); }
    }
  }

  lemma TextEndsApart(piece: Piece, rest: string, v: string)
    requires !piece.Gap? && Frameless(v)
    ensures Apart(v, piece.text, Trail(piece) + rest)
  {
    hide Apart;
    assert (Trail(piece) + rest)[0] in {'<', '"'};
    ApartAtChar(v, piece.text, Trail(piece) + rest);
  }

  /** Behind a character it does not hold and a space, a text runs on only from the space. */
  lemma ApartBehindSpace(v: string, front: string, after: string)
    requires |v| > 1 && front != "" && front[|front| - 1] !in v
    ensures Apart(v, front + " ", after) <==> !(v <= " " + after)
  {
    var whole, n := front + " " + after, |front|;
    assert whole == front + (" " + after);
    ApartAtChar(v, front, " " + after);
    PrefixOccurs(v, front, " " + after);
    hide Occurs;
    forall i: nat | i < n + 1 < i + |v| && Occurs(v, whole, i) ensures i == n {}
  }

  lemma PrefixOccurs(v: string, a: string, b: string)
    ensures v <= b <==> Occurs(v, a + b, |a|)
  {
    assert (a + b)[|a|..] == b;
    if v <= b { assert (a + b)[|a|..|a| + |v|] == b[..|v|]; }
    if Occurs(v, a + b, |a|) { assert (a + b)[|a|..|a| + |v|] == b[..|v|]; }
  }

  /** A text runs into a caller text only from the space before a spoken line. */
  lemma TextBeginsApart(pending: string, piece: Piece, rest: string, v: string)
    requires !piece.Gap? && |v| > 1 && Frameless(v)
    ensures Apart(v, pending + Lead(piece), piece.text + (Trail(piece) + rest))
            <==> !(piece.Said? && v <= " " + piece.text)
  {
    hide Apart;
    var after := piece.text + (Trail(piece) + rest);
    if piece.Shown? {
      ApartAtChar(v, pending + Lead(piece), after);
    } else {
      var front := pending + DIALOGUE_OPEN + "[" + piece.language + "]";
      assert pending + Lead(piece) == front + " ";
      ApartBehindSpace(v, front, after);
      BehindSpace(v, piece.text, rest);
    }
  }

  lemma BehindSpace(v: string, u: string, rest: string)
    requires Frameless(v)
    ensures v <= " " + (u + (DIALOGUE_CLOSE + rest)) <==> v <= " " + u
  {
    var long := " " + (u + (DIALOGUE_CLOSE + rest));
    assert long[|u| + 1] == '<';
    assert long[..|u| + 1] == " " + u;
    LongPrefix(v, long, |u| + 1);
    if v <= " " + u { assert v == (" " + u)[..|v|] == long[..|v|]; }
  }

  lemma LongPrefix(v: string, s: string, n: nat)
    requires n <= |s|
    ensures v <= s ==> v <= s[..n] || (n < |s| && s[n] in v)
  {
    if v <= s && |v| > n { assert v[n] == s[n]; }
  }

  lemma {:induction false} AloneExactly(pending: string, ps: seq<Piece>, v: string)
    requires v != "" && Frameless(v)
    ensures Alone(pending, ps, v)
            <==> NoneHolds(Surroundings(pending, ps), v) && NoOtherHolds(TextsIn(ps), v) && NoneBehindSpace(ps, v)
    decreases |ps|
  {
    hide Contains, Apart, Lead, Trail, Piece.Spell, Frameless;
    assert ps != [] ==> forall k | 0 <= k < |ps[1..]| :: ps[1..][k] == ps[k + 1];
    if ps == [] {
      assert Surroundings(pending, ps)[0] == pending;
    } else if ps[0].Gap? {
      AloneExactly(pending + ps[0].text, ps[1..], v);
      assert [] + TextsIn(ps[1..]) == TextsIn(ps[1..]);
      assert NoneBehindSpace(ps, v) <==> NoneBehindSpace(ps[1..], v);
    } else {
      var before, u, after, rest := pending + Lead(ps[0]), ps[0].text, Trail(ps[0]), TextOf(ps[1..]);
      AloneExactly(after, ps[1..], v);
      TextEndsApart(ps[0], rest, v);
      NoneFirst(before, Surroundings(after, ps[1..]), v);
      NoOtherFirst(u, TextsIn(ps[1..]), v);
      assert NoneBehindSpace(ps, v) <==> NoneBehindSpace(ps[1..], v) && (ps[0].Said? ==> !(v <= " " + u));
      if |v| > 1 {
        TextBeginsApart(pending, ps[0], rest, v);
      } else {
        OneCharacter(pending, ps[0], u + (after + rest), v);
      }
    }
  }

  lemma OneCharacter(pending: string, piece: Piece, b: string, v: string)
    requires !piece.Gap? && |v| == 1
    ensures Apart(v, pending + Lead(piece), b)
    ensures piece.Said? && v <= " " + piece.text ==> Contains(pending + Lead(piece), v)
  {
    if piece.Said? && v <= " " + piece.text {
      var s := pending + Lead(piece);
      assert s[|s| - 1..|s|] == " " == v;
      assert Occurs(v, s, |s| - 1);
    }
  }

  lemma NoneFirst(s: string, rest: seq<string>, v: string)
    ensures NoneHolds([s] + rest, v) <==> !Contains(s, v) && NoneHolds(rest, v)
  {
    hide Contains;
    assert forall k | 0 <= k < |rest| :: ([s] + rest)[k + 1] == rest[k];
    assert ([s] + rest)[0] == s;
  }

  lemma NoOtherFirst(s: string, rest: seq<string>, v: string)
    ensures NoOtherHolds([s] + rest, v) <==> (s == v || !Contains(s, v)) && NoOtherHolds(rest, v)
  {
    hide Contains;
    assert forall k | 0 <= k < |rest| :: ([s] + rest)[k + 1] == rest[k];
    assert ([s] + rest)[0] == s;
  }

  /** For a text without the characters of the frames, the condition on the fields: it stands in
      the wire text exactly as often as it is mentioned if and only if nothing written around the
      mentions holds it, no other caller text does, and no spoken line runs on from the space
      before it. */
  lemma WordsCountExactly(p: StructuredPrompt, v: string)
    requires ValidFields(p) && RenderPrompt(p).Ok? && v != "" && Frameless(v)
    ensures Assembled(p) && forall k: nat | k < |p.shots| :: Renders(p.shots, k)
    ensures Count(v, RenderPrompt(p).value) == Mentions(v, RenderOrder(p))
            <==> NoneHolds(Surroundings("", WirePieces(p)), v) && NoOtherHolds(RenderOrder(p), v)
                 && NoneBehindSpace(WirePieces(p), v)
  {
    hide ValidFields, RenderPrompt, TextOf, TextsIn, SaidIn, WirePieces, Renders, WireOf, Assembled, Count, Mentions, Alone,
         RenderOrder, CallerTextInert, NoneHolds, NoOtherHolds, NoneBehindSpace, Surroundings;
    RenderedIs(p);
    WireSpells(p);
    StandsAsMentionedExactly(p, v);
    AloneExactly("", WirePieces(p), v);
  }
}
