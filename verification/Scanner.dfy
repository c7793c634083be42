/** Reading dialogue back out of wire text, and how the reader sees concatenated text. */
module Scanner {
  import opened Prelude
  import opened Text
  import opened Grammar

  /** Texts between each opening delimiter and the next closing one. */
  function Scan(s: string): (r: seq<string>)
    ensures forall k | 0 <= k < |r| :: !Contains(r[k], DIALOGUE_CLOSE)
    decreases |s|
  {
    match Find(DIALOGUE_OPEN, s)
    case None => []
    case Some(i) =>
      var rest := s[i + |DIALOGUE_OPEN|..];
      match Find(DIALOGUE_CLOSE, rest)
      case None => []
      case Some(j) =>
        FirstIsFree(DIALOGUE_CLOSE, rest, j);
        [rest[..j]] + Scan(rest[j + |DIALOGUE_CLOSE|..])
  }

  lemma OccursAt(pat: string, s: string, j: nat)
    requires Occurs(pat, s, j)
    ensures forall k | 0 <= k < |pat| :: s[j + k] == pat[k]
  {
    forall k | 0 <= k < |pat| ensures s[j + k] == pat[k] { assert s[j..j + |pat|][k] == s[j + k]; }
  }

  lemma ContainsChar(s: string, pat: string)
    requires Contains(s, pat) && pat != ""
    ensures pat[0] in s
  {
    var i :| 0 <= i <= |s| && Occurs(pat, s, i);
    assert s[i..i + |pat|][0] == s[i];
  }

  lemma OccursWithin(pat: string, s: string, n: nat, j: nat)
    requires n <= |s|
    ensures Occurs(pat, s[..n], j) <==> Occurs(pat, s, j) && j + |pat| <= n
  {
    if j + |pat| <= n { assert s[..n][j..j + |pat|] == s[j..j + |pat|]; }
  }

  lemma FirstIsFree(pat: string, s: string, j: nat)
    requires j <= |s| && |pat| > 0 && forall k | 0 <= k < j :: !Occurs(pat, s, k)
    ensures !Contains(s[..j], pat)
  {
    if Contains(s[..j], pat) {
      var k :| 0 <= k <= j && Occurs(pat, s[..j], k);
      OccursWithin(pat, s, j, k);
    }
  }

  lemma FindSkips(pat: string, a: string, b: string)
    requires forall j | 0 <= j < |a| :: !Occurs(pat, a + b, j)
    ensures Find(pat, a + b) == match Find(pat, b) case None => None case Some(i) => Some(|a| + i)
  {
    hide Find;
    var s := a + b;
    forall j | |a| <= j <= |s| ensures Occurs(pat, s, j) <==> Occurs(pat, b, j - |a|) {
      if j + |pat| <= |s| { assert s[j..j + |pat|] == b[j - |a|..j - |a| + |pat|]; }
    }
    match Find(pat, b)
    case None =>
      assert forall i | 0 <= i <= |b| :: !Occurs(pat, b, i);
    case Some(i) =>
      FindIsFirst(pat, s, |a| + i);
  }

  /** Text in which no opening delimiter begins is invisible to the reader. */
  lemma ScanSkips(a: string, b: string)
    requires forall j | 0 <= j < |a| :: !Occurs(DIALOGUE_OPEN, a + b, j)
    ensures Scan(a + b) == Scan(b)
  {
    hide Find, Contains;
    FindSkips(DIALOGUE_OPEN, a, b);
    if Find(DIALOGUE_OPEN, b).Some? {
      var i := Find(DIALOGUE_OPEN, b).value;
      assert (a + b)[|a| + i + 3..] == b[i + 3..];
    }
  }

  // ------------------------------------------------------------- composition

  /** What may follow a span without completing a delimiter the span leaves open. */
  predicate HeadSafe(s: string) {
    s == "" || (s[0] != 'd' && s[0] != '>')
  }

  /** The reader takes `out` from `s`, whatever follows. */
  ghost predicate Closed(s: string, out: seq<string>) {
    forall rest :: Scan(s + rest) == out + Scan(rest)
  }

  /** The reader takes `out` from `s`, whatever head-safe text follows. */
  ghost predicate Yields(s: string, out: seq<string>) {
    forall rest | HeadSafe(rest) :: Scan(s + rest) == out + Scan(rest)
  }

  /** No opening delimiter begins in the text, even one that its continuation completes. */
  predicate NoOpening(s: string) {
    forall j | 0 <= j < |s| && s[j] == '<' :: j + 1 < |s| && s[j + 1] != 'd'
  }

  lemma OpensAt(s: string, j: nat)
    requires Occurs(DIALOGUE_OPEN, s, j)
    ensures j + 1 < |s| && s[j] == '<' && s[j + 1] == 'd'
  {
    assert DIALOGUE_OPEN[0] == '<' && DIALOGUE_OPEN[1] == 'd';
    OccursAt(DIALOGUE_OPEN, s, j);
  }

  lemma PlainCloses(s: string)
    requires NoOpening(s)
    ensures Closed(s, [])
  {
    hide Scan;
    forall rest ensures Scan(s + rest) == [] + Scan(rest) {
      forall j: nat | j < |s| ensures !Occurs(DIALOGUE_OPEN, s + rest, j) {
        if Occurs(DIALOGUE_OPEN, s + rest, j) { OpensAt(s + rest, j); }
      }
      ScanSkips(s, rest);
    }
  }

  /** A span without the opening delimiter yields nothing. */
  lemma FreeYields(s: string)
    requires !Contains(s, DIALOGUE_OPEN)
    ensures Yields(s, [])
  {
    hide Scan;
    forall rest | HeadSafe(rest) ensures Scan(s + rest) == [] + Scan(rest) {
      forall j: nat | j < |s| ensures !Occurs(DIALOGUE_OPEN, s + rest, j) {
        assert (s + rest)[..|s|] == s;
        if Occurs(DIALOGUE_OPEN, s + rest, j) {
          OccursWithin(DIALOGUE_OPEN, s + rest, |s|, j);
          if j + 3 > |s| { HeadInPattern(s, rest, j); }
        }
      }
      ScanSkips(s, rest);
    }
  }

  lemma HeadInPattern(s: string, rest: string, j: nat)
    requires Occurs(DIALOGUE_OPEN, s + rest, j) && j < |s| < j + 3
    ensures rest != "" && rest[0] in {'d', '>'}
  {
    OccursAt(DIALOGUE_OPEN, s + rest, j);
    assert (s + rest)[j + (|s| - j)] == DIALOGUE_OPEN[|s| - j];
  }

  /** An utterance yields its content, whatever follows. */
  lemma UtteranceCloses(content: string)
    requires !Contains(content, DIALOGUE_CLOSE)
    ensures Closed(DIALOGUE_OPEN + content + DIALOGUE_CLOSE, [content])
  {
    var u := DIALOGUE_OPEN + content + DIALOGUE_CLOSE;
    forall rest ensures Scan(u + rest) == [content] + Scan(rest) {
      var s, t := u + rest, content + DIALOGUE_CLOSE + rest;
      assert s[3..] == t && s[..3] == DIALOGUE_OPEN;
      FindIsFirst(DIALOGUE_OPEN, s, 0);
      ClosesAt(content, rest);
      assert t[..|content|] == content && t[|content| + 4..] == rest;
    }
  }

  lemma ClosesAt(content: string, rest: string)
    requires !Contains(content, DIALOGUE_CLOSE)
    ensures Find(DIALOGUE_CLOSE, content + DIALOGUE_CLOSE + rest) == Some(|content|)
  {
    hide Find;
    var t := content + DIALOGUE_CLOSE + rest;
    forall j: nat | j < |content| ensures !Occurs(DIALOGUE_CLOSE, t, j) {
      assert t[..|content|] == content && t[|content|] == '<';
      if Occurs(DIALOGUE_CLOSE, t, j) {
        OccursWithin(DIALOGUE_CLOSE, t, |content|, j);
        if j + 4 > |content| { CloseNeverOverlaps(t, |content|, j); }
      }
    }
    assert t[|content|..|content| + 4] == DIALOGUE_CLOSE;
    FindIsFirst(DIALOGUE_CLOSE, t, |content|);
  }

  lemma CloseNeverOverlaps(t: string, n: nat, j: nat)
    requires Occurs(DIALOGUE_CLOSE, t, j) && j < n < j + 4
    ensures t[n] != '<'
  {
    OccursAt(DIALOGUE_CLOSE, t, j);
    assert t[j + (n - j)] == DIALOGUE_CLOSE[n - j];
  }

  lemma ClosedThenClosed(a: string, x: seq<string>, b: string, y: seq<string>)
    requires Closed(a, x) && Closed(b, y)
    ensures Closed(a + b, x + y)
  {
    hide Scan;
    forall rest ensures Scan(a + b + rest) == x + y + Scan(rest) {
      assert a + b + rest == a + (b + rest);
    }
  }

  lemma ClosedThenYields(a: string, x: seq<string>, b: string, y: seq<string>)
    requires Closed(a, x) && Yields(b, y)
    ensures Yields(a + b, x + y)
  {
    hide Scan;
    forall rest | HeadSafe(rest) ensures Scan(a + b + rest) == x + y + Scan(rest) {
      assert a + b + rest == a + (b + rest);
    }
  }

  lemma YieldsThenClosed(a: string, x: seq<string>, b: string, y: seq<string>)
    requires Yields(a, x) && Closed(b, y) && b != "" && HeadSafe(b)
    ensures Closed(a + b, x + y)
  {
    hide Scan;
    forall rest ensures Scan(a + b + rest) == x + y + Scan(rest) {
      assert a + b + rest == a + (b + rest);
    }
  }

  lemma ClosedYields(a: string, x: seq<string>)
    requires Closed(a, x)
    ensures Yields(a, x)
  {
  }

  /** Literal text the renderer writes between spans. */
  predicate Literal(s: string) {
    s != "" && HeadSafe(s) && NoOpening(s)
  }

  lemma Sealed(a: string, x: seq<string>, lit: string)
    requires Yields(a, x) && Literal(lit)
    ensures Closed(a + lit, x)
  {
    PlainCloses(lit);
    YieldsThenClosed(a, x, lit, []);
    assert x + [] == x;
  }

  lemma Opened(lit: string, b: string, y: seq<string>)
    requires NoOpening(lit) && Yields(b, y)
    ensures Yields(lit + b, y)
  {
    PlainCloses(lit);
    ClosedThenYields(lit, [], b, y);
    assert [] + y == y;
  }

  /** Joining by a literal separator, the reader takes each part's texts in order. */
  lemma {:induction false} JoinYields(sep: string, parts: seq<string>, outs: seq<seq<string>>)
    requires Literal(sep) && |parts| == |outs| && forall k | 0 <= k < |parts| :: Yields(parts[k], outs[k])
    ensures Yields(Join(sep, parts), Flat(outs))
  {
    hide Yields, Scan, Literal;
    if |parts| == 0 {
      NothingYields();
    } else if |parts| == 1 {
      FlatOne(outs[0]);
      assert outs == [outs[0]];
    } else {
      JoinYields(sep, parts[1..], outs[1..]);
      Sealed(parts[0], outs[0], sep);
      ClosedThenYields(parts[0] + sep, outs[0], Join(sep, parts[1..]), Flat(outs[1..]));
    }
  }

  lemma NothingYields()
    ensures Yields("", [])
  {
    PlainCloses("");
    ClosedYields("", []);
  }

  // ---------------------------------------------------------- text left open

  /** What the reader takes once an opening delimiter has been read. */
  function AfterOpen(s: string): seq<string> {
    match Find(DIALOGUE_CLOSE, s)
    case None => []
    case Some(j) => [s[..j]] + Scan(s[j + |DIALOGUE_CLOSE|..])
  }

  /** What may follow a text without completing either delimiter the text leaves open. */
  predicate HeadFirm(s: string) {
    s == "" || s[0] !in {'/', 'd', '>'}
  }

  /** The part of a text after its first opening delimiter. */
  lemma FirstOpen(s: string) returns (a: string, b: string)
    requires Contains(s, DIALOGUE_OPEN)
    ensures s == a + DIALOGUE_OPEN + b && Find(DIALOGUE_OPEN, s) == Some(|a|) && |b| < |s|
  {
    var i := Find(DIALOGUE_OPEN, s).value;
    a, b := s[..i], s[i + |DIALOGUE_OPEN|..];
    assert s == s[..i] + s[i..i + |DIALOGUE_OPEN|] + s[i + |DIALOGUE_OPEN|..];
  }

  lemma FindEarlier(pat: string, s: string, rest: string)
    requires Find(pat, s).Some?
    ensures Find(pat, s + rest) == Find(pat, s)
  {
    hide Find;
    var i := Find(pat, s).value;
    assert (s + rest)[..|s|] == s;
    OccursWithin(pat, s + rest, |s|, i);
    forall j: nat | j < i ensures !Occurs(pat, s + rest, j) {
      OccursWithin(pat, s + rest, |s|, j);
      if Occurs(pat, s + rest, j) { OccursBound(pat, s, i); }
    }
    FindIsFirst(pat, s + rest, i);
  }

  lemma OccursBound(pat: string, s: string, i: nat)
    requires Occurs(pat, s, i)
    ensures i + |pat| <= |s|
  {
  }

  /** A lead that opens an utterance hands what follows to it. */
  lemma ScanOpened(a: string, b: string, s: string)
    requires Find(DIALOGUE_OPEN, a + DIALOGUE_OPEN + b) == Some(|a|)
    ensures Scan(a + DIALOGUE_OPEN + b + s) == AfterOpen(b + s)
  {
    hide Find, Contains, Scan, AfterOpen;
    var lead := a + DIALOGUE_OPEN + b;
    FindEarlier(DIALOGUE_OPEN, lead, s);
    ScanFrom(lead + s, |a|);
    assert (lead + s)[|a| + |DIALOGUE_OPEN|..] == b + s;
  }

  lemma ScanFrom(s: string, i: nat)
    requires Find(DIALOGUE_OPEN, s) == Some(i)
    ensures i + |DIALOGUE_OPEN| <= |s| && Scan(s) == AfterOpen(s[i + |DIALOGUE_OPEN|..])
  {
    hide Find, Contains;
    OccursBound(DIALOGUE_OPEN, s, i);
    var rest := s[i + |DIALOGUE_OPEN|..];
    assert AfterOpen(rest) == match Find(DIALOGUE_CLOSE, rest)
                              case None => []
                              case Some(j) => [rest[..j]] + Scan(rest[j + |DIALOGUE_CLOSE|..]);
  }

  /** An open text is closed within itself, or by what follows it. */
  lemma OpenThen(b: string, s: string)
    requires HeadFirm(s)
    ensures Find(DIALOGUE_CLOSE, b).Some? ==>
              var j := Find(DIALOGUE_CLOSE, b).value;
              j + |DIALOGUE_CLOSE| <= |b| && AfterOpen(b + s) == [b[..j]] + Scan(b[j + |DIALOGUE_CLOSE|..] + s)
    ensures Find(DIALOGUE_CLOSE, b).None? ==>
              AfterOpen(b + s) == if AfterOpen(s) == [] then [] else [b + AfterOpen(s)[0]] + AfterOpen(s)[1..]
  {
    hide Find, Scan, Contains;
    if Find(DIALOGUE_CLOSE, b).Some? {
      var j := Find(DIALOGUE_CLOSE, b).value;
      FindEarlier(DIALOGUE_CLOSE, b, s);
      OccursBound(DIALOGUE_CLOSE, b, j);
      assert (b + s)[..j] == b[..j];
      assert (b + s)[j + |DIALOGUE_CLOSE|..] == b[j + |DIALOGUE_CLOSE|..] + s;
    } else {
      NoCloseAcross(b, s);
      FindSkips(DIALOGUE_CLOSE, b, s);
      if Find(DIALOGUE_CLOSE, s).Some? {
        var j := Find(DIALOGUE_CLOSE, s).value;
        OccursBound(DIALOGUE_CLOSE, s, j);
        assert (b + s)[..|b| + j] == b + s[..j];
        assert (b + s)[|b| + j + |DIALOGUE_CLOSE|..] == s[j + |DIALOGUE_CLOSE|..];
      }
    }
  }

  lemma NoCloseAcross(b: string, s: string)
    requires HeadFirm(s) && !Contains(b, DIALOGUE_CLOSE)
    ensures forall j: nat | j < |b| :: !Occurs(DIALOGUE_CLOSE, b + s, j)
  {
    forall j: nat | j < |b| ensures !Occurs(DIALOGUE_CLOSE, b + s, j) {
      assert (b + s)[..|b|] == b;
      if Occurs(DIALOGUE_CLOSE, b + s, j) {
        OccursWithin(DIALOGUE_CLOSE, b + s, |b|, j);
        if j + 4 > |b| { CloseInHead(b, s, j); }
      }
    }
  }

  lemma CloseInHead(b: string, s: string, j: nat)
    requires Occurs(DIALOGUE_CLOSE, b + s, j) && j < |b| < j + 4
    ensures s != "" && s[0] in {'/', 'd', '>'}
  {
    OccursAt(DIALOGUE_CLOSE, b + s, j);
    assert (b + s)[j + (|b| - j)] == DIALOGUE_CLOSE[|b| - j];
  }

  lemma Delimiters(s: string, i: nat, j: nat)
    requires Occurs(DIALOGUE_OPEN, s, i) && Occurs(DIALOGUE_CLOSE, s, j)
    ensures i + 3 <= j || j + 4 <= i
  {
    OpensAt(s, i);
    OccursAt(DIALOGUE_OPEN, s, i);
    OccursAt(DIALOGUE_CLOSE, s, j);
    assert s[j + 0] == DIALOGUE_CLOSE[0] && s[j + 1] == DIALOGUE_CLOSE[1] && s[j + 2] == DIALOGUE_CLOSE[2]
           && s[j + 3] == DIALOGUE_CLOSE[3];
    assert s[i + 2] == DIALOGUE_OPEN[2];
  }

  lemma CloseFrom(s: string, j: nat)
    requires Find(DIALOGUE_CLOSE, s) == Some(j)
    ensures j + |DIALOGUE_CLOSE| <= |s| && AfterOpen(s) == [s[..j]] + Scan(s[j + |DIALOGUE_CLOSE|..])
  {
    hide Find, Contains, Scan;
    OccursBound(DIALOGUE_CLOSE, s, j);
  }

  lemma FindNoLater(pat: string, s: string, i: nat)
    requires Occurs(pat, s, i)
    ensures Find(pat, s).Some? && Find(pat, s).value <= i
  {
    hide Find;
    assert Contains(s, pat);
  }

  /** Entering a text with an utterance open, the reader takes one more text from it, or as many
      with a longer first one. */
  lemma OpenTakesMore(s: string)
    requires Scan(s) != []
    ensures var x, y := AfterOpen(s), Scan(s);
      |x| == |y| + 1 || (|x| == |y| && |x[0]| > |y[0]|)
  {
    var i := Find(DIALOGUE_OPEN, s).value;
    var k := Find(DIALOGUE_CLOSE, s[i + 3..]).value;
    CloseWithin(s, i + 3, k);
    FindNoLater(DIALOGUE_CLOSE, s, i + 3 + k);
    var j := Find(DIALOGUE_CLOSE, s).value;
    Delimiters(s, i, j);
    if i + 3 <= j { OpenedFirst(s, i, j, k); } else { ClosedFirst(s, i, j); }
  }

  lemma CloseWithin(s: string, from: nat, k: nat)
    requires from <= |s| && Occurs(DIALOGUE_CLOSE, s[from..], k)
    ensures Occurs(DIALOGUE_CLOSE, s, from + k)
  {
    assert s[from..][k..k + 4] == s[from + k..from + k + 4];
  }

  lemma OpenedFirst(s: string, i: nat, j: nat, k: nat)
    requires Find(DIALOGUE_OPEN, s) == Some(i) && Find(DIALOGUE_CLOSE, s) == Some(j) && i + 3 <= j
    requires i + 3 <= |s| && Find(DIALOGUE_CLOSE, s[i + 3..]) == Some(k)
    ensures var x, y := AfterOpen(s), Scan(s);
      y != [] && |x| == |y| && |x[0]| > |y[0]|
  {
    hide Find, Contains, Scan, AfterOpen, Occurs;
    ScanFrom(s, i);
    CloseFrom(s, j);
    CloseFrom(s[i + 3..], k);
    SameClose(s, i + 3, j, k);
    assert s[i + 3..][k + 4..] == s[j + 4..];
  }

  lemma ClosedFirst(s: string, i: nat, j: nat)
    requires Find(DIALOGUE_OPEN, s) == Some(i) && Find(DIALOGUE_CLOSE, s) == Some(j) && j + 4 <= i
    ensures |AfterOpen(s)| == |Scan(s)| + 1
  {
    hide Find, Contains, Scan, AfterOpen;
    CloseFrom(s, j);
    var before, after := s[..j + 4], s[j + 4..];
    assert before + after == s;
    ScanSkips(before, after);
  }

  lemma SameClose(s: string, from: nat, j: nat, k: nat)
    requires from <= j && from <= |s| && Find(DIALOGUE_CLOSE, s) == Some(j) && Find(DIALOGUE_CLOSE, s[from..]) == Some(k)
    ensures from + k == j
  {
    hide Find, Contains, Occurs;
    CloseWithin(s, from, k);
    FindNoLater(DIALOGUE_CLOSE, s, from + k);
    CloseInRest(s, from, j);
    FindNoLater(DIALOGUE_CLOSE, s[from..], j - from);
  }

  lemma CloseInRest(s: string, from: nat, j: nat)
    requires from <= j && from <= |s| && Occurs(DIALOGUE_CLOSE, s, j)
    ensures Occurs(DIALOGUE_CLOSE, s[from..], j - from)
  {
    assert s[from..][j - from..j - from + 4] == s[j..j + 4];
  }

  lemma Present(pat: string, s: string, i: nat)
    requires Occurs(pat, s, i)
    ensures Contains(s, pat)
  {
  }

  /** Text before a text never lowers the number of texts read. */
  lemma {:induction false} CountGrows(lead: string, s: string)
    requires HeadFirm(s)
    ensures |Scan(lead + s)| >= |Scan(s)|
    decreases |lead|
  {
    hide Scan, Find, Contains, AfterOpen;
    if !Contains(lead, DIALOGUE_OPEN) {
      FreeYields(lead);
      assert Scan(lead + s) == [] + Scan(s);
    } else {
      var a, b := FirstOpen(lead);
      ScanOpened(a, b, s);
      OpenThen(b, s);
      if Find(DIALOGUE_CLOSE, b).Some? {
        CountGrows(b[Find(DIALOGUE_CLOSE, b).value + 4..], s);
      } else if Scan(s) != [] {
        OpenTakesMore(s);
      }
    }
  }

  /** A lead that holds an opening delimiter changes what is read from a text that speaks: there
      are more texts, or the first one is longer. */
  lemma OpenLeadSpoils(lead: string, s: string)
    requires Contains(lead, DIALOGUE_OPEN) && HeadFirm(s) && Scan(s) != []
    ensures var x, y := Scan(lead + s), Scan(s);
      |x| > |y| || (|x| == |y| && |x[0]| > |y[0]|)
  {
    hide Scan, Find, Contains, AfterOpen;
    var a, b := FirstOpen(lead);
    ScanOpened(a, b, s);
    OpenThen(b, s);
    OpenTakesMore(s);
    if Find(DIALOGUE_CLOSE, b).Some? { CountGrows(b[Find(DIALOGUE_CLOSE, b).value + 4..], s); }
  }

  /** A lead before a text, with a text between that holds neither delimiter. */
  lemma SilentBetween(lead: string, middle: string, tail: string)
    requires !Contains(middle, DIALOGUE_OPEN) && !Contains(middle, DIALOGUE_CLOSE)
    requires HeadFirm(middle) && HeadFirm(tail) && middle != ""
    ensures Scan(lead + middle + tail) == [] <==> Scan(lead + tail) == []
  {
    hide Scan, Find, Contains, AfterOpen;
    assert lead + middle + tail == lead + (middle + tail);
    FreeYields(middle);
    assert Scan(middle + tail) == [] + Scan(tail);
    if !Contains(lead, DIALOGUE_OPEN) {
      FreeYields(lead);
      assert Scan(lead + tail) == [] + Scan(tail);
      assert Scan(lead + (middle + tail)) == [] + Scan(middle + tail);
    } else {
      var a, b := FirstOpen(lead);
      ScanOpened(a, b, tail);
      ScanOpened(a, b, middle + tail);
      OpenThen(b, tail);
      OpenThen(b, middle + tail);
      OpenThen(middle, tail);
    }
  }

  // ------------------------------------------------------------ free of a text

  /** A separator sharing no character with the text keeps it from arising across. */
  lemma FreeAcross(pat: string, a: string, sep: string, b: string)
    requires sep != "" && pat != "" && forall c | c in sep :: c !in pat
    ensures Contains(a + sep + b, pat) <==> Contains(a, pat) || Contains(b, pat)
  {
    var s := a + sep + b;
    if Contains(a, pat) {
      ContainsInside(pat, "", a, sep + b);
      assert "" + a + (sep + b) == s;
    }
    if Contains(b, pat) {
      ContainsInside(pat, a + sep, b, "");
      assert s + "" == s;
    }
    if Contains(s, pat) {
      var i :| 0 <= i <= |s| && Occurs(pat, s, i);
      OneSide(pat, a, sep, b, i);
    }
  }

  lemma OneSide(pat: string, a: string, sep: string, b: string, i: nat)
    requires sep != "" && pat != "" && forall c | c in sep :: c !in pat
    requires Occurs(pat, a + sep + b, i)
    ensures Contains(a, pat) || Contains(b, pat)
  {
    var s := a + sep + b;
    OccursAt(pat, s, i);
    if i + |pat| <= |a| {
      assert s[..|a|] == a;
      OccursWithin(pat, s, |a|, i);
    } else if i >= |a| + |sep| {
      var k := i - |a| - |sep|;
      assert s[i..i + |pat|] == b[k..k + |pat|];
      assert Occurs(pat, b, k);
    } else {
      var k := if i <= |a| then |a| else i;
      Shared(pat, s, i, k, sep);
    }
  }

  lemma Shared(pat: string, s: string, i: nat, k: nat, sep: string)
    requires Occurs(pat, s, i) && i <= k < i + |pat| && s[k] in sep
    ensures exists c :: c in sep && c in pat
  {
    OccursAt(pat, s, i);
    assert s[i + (k - i)] == pat[k - i];
  }

  lemma BeforeSuffix(s: string, r: string)
    requires |r| <= |s| && r == s[|s| - |r|..]
    ensures s == s[..|s| - |r|] + r
  {
  }

  lemma StripParts(s: string) returns (a: string, b: string)
    ensures s == a + Strip(s) + b
  {
    hide StripLeft, StripRight;
    var left := StripLeft(s);
    BeforeSuffix(s, left);
    a, b := s[..|s| - |left|], left[|Strip(s)|..];
    hide Strip;
    Regroup(a, Strip(s), b, left);
  }

  lemma Regroup(a: string, m: string, b: string, left: string)
    requires m <= left && b == left[|m|..]
    ensures a + left == a + m + b
  {
  }

  lemma StripFree(s: string, pat: string)
    requires Contains(Strip(s), pat)
    ensures Contains(s, pat)
  {
    hide Contains, Strip;
    var a, b := StripParts(s);
    ContainsInside(pat, a, Strip(s), b);
  }
}
