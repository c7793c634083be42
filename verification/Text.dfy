/** Substrings, splitting and joining, over strings of Unicode scalar values. */
module Text {
  import opened Prelude

  predicate Occurs(pat: string, s: string, i: int) {
    0 <= i && i + |pat| <= |s| && s[i..i + |pat|] == pat
  }

  predicate Contains(s: string, pat: string) {
    exists i | 0 <= i <= |s| :: Occurs(pat, s, i)
  }

  predicate EndsWith(s: string, suffix: string) {
    |suffix| <= |s| && s[|s| - |suffix|..] == suffix
  }

  predicate Free(s: string, c: char) {
    c !in s
  }

  /** Python's `str.isspace` set, which `str.strip` and the pattern `\s` use. */
  predicate IsSpace(c: char) {
    var n := c as int;
    || 9 <= n <= 13 || 28 <= n <= 32 || n == 0x85 || n == 0xA0 || n == 0x1680
    || 0x2000 <= n <= 0x200A || n == 0x2028 || n == 0x2029 || n == 0x202F
    || n == 0x205F || n == 0x3000
  }

  function StripLeft(s: string): (r: string)
    ensures |r| <= |s| && r == s[|s| - |r|..]
    ensures r == "" || !IsSpace(r[0])
  {
    if s != "" && IsSpace(s[0]) then StripLeft(s[1..]) else s
  }

  function StripRight(s: string): (r: string)
    ensures r <= s
    ensures r == "" || !IsSpace(r[|r| - 1])
  {
    if s != "" && IsSpace(s[|s| - 1]) then StripRight(s[..|s| - 1]) else s
  }

  function Strip(s: string): string {
    StripRight(StripLeft(s))
  }

  /** Position of the first occurrence of `pat`. */
  function Find(pat: string, s: string): (r: Option<nat>)
    ensures r.None? <==> !Contains(s, pat)
    ensures r.Some? ==> Occurs(pat, s, r.value)
    ensures r.Some? ==> forall j | 0 <= j < r.value :: !Occurs(pat, s, j)
    decreases |s|
  {
    if pat <= s then
      assert Occurs(pat, s, 0);
      Some(0)
    else if s == "" then
      None
    else
      assert forall i | 0 < i <= |s| :: Occurs(pat, s, i) <==> Occurs(pat, s[1..], i - 1);
      assert forall i | 0 <= i <= |s[1..]| :: Occurs(pat, s[1..], i) <==> Occurs(pat, s, i + 1);
      match Find(pat, s[1..])
      case None => None
      case Some(i) => Some(i + 1)
  }

  lemma FindIsFirst(pat: string, s: string, i: nat)
    requires Occurs(pat, s, i)
    requires forall j | 0 <= j < i :: !Occurs(pat, s, j)
    ensures Find(pat, s) == Some(i)
  {
    assert Contains(s, pat);
  }

  lemma OccursInside(pat: string, a: string, m: string, b: string, i: int)
    requires Occurs(pat, m, i)
    ensures Occurs(pat, a + m + b, |a| + i)
  {
    assert (a + m + b)[|a| + i..|a| + i + |pat|] == m[i..i + |pat|];
  }

  lemma ContainsInside(pat: string, a: string, m: string, b: string)
    requires Contains(m, pat)
    ensures Contains(a + m + b, pat)
  {
    var i :| 0 <= i <= |m| && Occurs(pat, m, i);
    OccursInside(pat, a, m, b, i);
  }

  function Join(sep: string, parts: seq<string>): string {
    if |parts| == 0 then ""
    else if |parts| == 1 then parts[0]
    else parts[0] + sep + Join(sep, parts[1..])
  }

  lemma {:induction false} JoinAppend(sep: string, parts: seq<string>, last: string)
    requires |parts| > 0
    ensures Join(sep, parts + [last]) == Join(sep, parts) + sep + last
  {
    if |parts| == 1 {
      assert (parts + [last])[1..] == [last];
    } else {
      assert (parts + [last])[1..] == parts[1..] + [last];
      JoinAppend(sep, parts[1..], last);
      assert Join(sep, parts + [last]) == parts[0] + sep + (Join(sep, parts[1..]) + sep + last);
    }
  }

  /** Python's `str.split(sep)` for a one-character separator. */
  function Split(s: string, sep: char): (r: seq<string>)
    ensures |r| >= 1
  {
    if s == "" then [""]
    else
      var rest := Split(s[1..], sep);
      if s[0] == sep then [""] + rest else [[s[0]] + rest[0]] + rest[1..]
  }

  lemma {:induction false} SplitFree(s: string, sep: char)
    requires Free(s, sep)
    ensures Split(s, sep) == [s]
  {
    if s == "" {
    } else {
      SplitFree(s[1..], sep);
      assert [s[0]] + s[1..] == s;
    }
  }

  lemma {:induction false} SplitHead(head: string, sep: char, tail: string)
    requires Free(head, sep)
    ensures Split(head + [sep] + tail, sep) == [head] + Split(tail, sep)
  {
    var s := head + [sep] + tail;
    if head == "" {
      assert s[1..] == tail;
    } else {
      assert s[1..] == head[1..] + [sep] + tail;
      SplitHead(head[1..], sep, tail);
      var rest := Split(s[1..], sep);
      assert rest == [head[1..]] + Split(tail, sep);
      assert rest[1..] == Split(tail, sep);
      assert [s[0]] + head[1..] == head;
    }
  }

  /** Splitting then joining gives the text back, and no piece holds the separator. */
  lemma {:induction false} JoinSplit(s: string, sep: char)
    ensures Join([sep], Split(s, sep)) == s
    ensures forall part | part in Split(s, sep) :: Free(part, sep)
  {
    if s == "" {
    } else {
      JoinSplit(s[1..], sep);
      var rest := Split(s[1..], sep);
      if s[0] == sep {
        assert ([""] + rest)[1..] == rest;
        assert Join([sep], [""] + rest) == "" + [sep] + s[1..];
        assert s == "" + [sep] + s[1..];
      } else {
        var parts := [[s[0]] + rest[0]] + rest[1..];
        assert s == [s[0]] + s[1..];
        if |rest| == 1 {
          assert s[1..] == rest[0];
        } else {
          assert parts[1..] == rest[1..];
          var tail := Join([sep], rest[1..]);
          assert ([s[0]] + rest[0]) + [sep] + tail == [s[0]] + (rest[0] + [sep] + tail);
        }
        forall part | part in parts ensures Free(part, sep) {
          if part in rest[1..] { assert part in rest; } else { assert rest[0] in rest; }
        }
      }
    }
  }

  // ------------------------------------------------------------ concatenation

  function Flat(outs: seq<seq<string>>): seq<string> {
    if outs == [] then [] else outs[0] + Flat(outs[1..])
  }

  lemma {:induction false} FlatCat(a: seq<seq<string>>, b: seq<seq<string>>)
    ensures Flat(a + b) == Flat(a) + Flat(b)
  {
    if a == [] {
      assert a + b == b;
    } else {
      assert (a + b)[1..] == a[1..] + b;
      FlatCat(a[1..], b);
    }
  }

  lemma FlatOne(texts: seq<string>)
    ensures Flat([texts]) == texts && Flat([]) == []
  {
    assert [texts][1..] == [] && texts + [] == texts;
  }

  /** Nothing, n times. */
  function Silent(n: nat): (r: seq<seq<string>>)
    ensures |r| == n && forall k | 0 <= k < n :: r[k] == []
  {
    seq(n, _ => [])
  }

  lemma {:induction false} FlatSilent(n: nat)
    ensures Flat(Silent(n)) == []
  {
    if n == 0 {
    } else {
      FlatSilent(n - 1);
      assert Silent(n)[1..] == Silent(n - 1);
    }
  }

  function Singles(texts: seq<string>): (r: seq<seq<string>>)
    ensures |r| == |texts| && forall k | 0 <= k < |texts| :: r[k] == [texts[k]]
  {
    seq(|texts|, k requires 0 <= k < |texts| => [texts[k]])
  }

  lemma {:induction false} FlatSingles(texts: seq<string>)
    ensures Flat(Singles(texts)) == texts
  {
    if texts == [] {
    } else {
      FlatSingles(texts[1..]);
      assert Singles(texts)[1..] == Singles(texts[1..]);
      assert texts == [texts[0]] + texts[1..];
    }
  }

  lemma {:induction false} FlatPoint(outs: seq<seq<string>>, k: nat, x: string)
    requires k < |outs| && x in outs[k]
    ensures x in Flat(outs)
  {
    if k == 0 {
    } else {
      FlatPoint(outs[1..], k - 1, x);
    }
  }

  lemma {:induction false} FlatFrom(outs: seq<seq<string>>, x: string)
    requires x in Flat(outs)
    ensures exists k :: 0 <= k < |outs| && x in outs[k]
  {
    if outs == [] {
    } else if x in outs[0] {
    } else {
      FlatFrom(outs[1..], x);
      var k :| 0 <= k < |outs[1..]| && x in outs[1..][k];
      assert x in outs[k + 1];
    }
  }
}
