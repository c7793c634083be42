/** Object keys: attempt namespaces, record identities and provider addressing. */
module Keys {
  import opened Prelude
  import opened Text

  const OUTPUT_PREFIX: string := "outputs/"
  const INPUT_PREFIX: string := "inputs/"
  const COMMIT_MARKER: string := "result.json"

  /** The first three segments of an output key that has a fourth. */
  function AttemptPrefix(key: string): Option<string> {
    if !(OUTPUT_PREFIX <= key) then None
    else
      var parts := Split(key, '/');
      if |parts| < 4 then None else Some(Join("/", parts[..3]) + "/")
  }

  function Namespace(job: string, attempt: string): string {
    OUTPUT_PREFIX + job + "/" + attempt + "/"
  }

  predicate SlashFree(s: string) {
    Free(s, '/')
  }

  ghost predicate IsNamespace(p: string) {
    exists job, attempt :: SlashFree(job) && SlashFree(attempt) && p == Namespace(job, attempt)
  }

  lemma NamespaceSplits(job: string, attempt: string, rest: string)
    requires SlashFree(job) && SlashFree(attempt)
    ensures Split(Namespace(job, attempt) + rest, '/') == ["outputs", job, attempt] + Split(rest, '/')
  {
    var tail1 := attempt + ['/'] + rest;
    var tail0 := job + ['/'] + tail1;
    assert Namespace(job, attempt) + rest == "outputs" + ['/'] + tail0;
    SplitHead("outputs", '/', tail0);
    SplitHead(job, '/', tail1);
    SplitHead(attempt, '/', rest);
  }

  lemma NamespaceIsJoined(job: string, attempt: string)
    ensures Join("/", ["outputs", job, attempt]) + "/" == Namespace(job, attempt)
  {
    assert ["outputs", job, attempt][1..] == [job, attempt];
    assert [job, attempt][1..] == [attempt];
    assert Join("/", [job, attempt]) == job + "/" + attempt;
    assert Namespace(job, attempt) == "outputs" + "/" + (job + "/" + attempt) + "/";
  }

  /** Every key written below a namespace is grouped under that namespace. */
  lemma MemberOfNamespace(job: string, attempt: string, rest: string)
    requires SlashFree(job) && SlashFree(attempt)
    ensures AttemptPrefix(Namespace(job, attempt) + rest) == Some(Namespace(job, attempt))
  {
    NamespaceSplits(job, attempt, rest);
    assert Split(Namespace(job, attempt) + rest, '/')[..3] == ["outputs", job, attempt];
    NamespaceIsJoined(job, attempt);
  }

  lemma JoinSplitAt(sep: string, parts: seq<string>, n: nat)
    requires 0 < n < |parts|
    ensures Join(sep, parts) == Join(sep, parts[..n]) + sep + Join(sep, parts[n..])
  {
    if n == 1 {
      assert parts[..1] == [parts[0]];
    } else {
      JoinSplitAt(sep, parts[1..], n - 1);
      assert parts[1..][..n - 1] == parts[..n][1..];
      assert parts[1..][n - 1..] == parts[n..];
      var inner := Join(sep, parts[..n][1..]);
      var rest := Join(sep, parts[n..]);
      assert parts[0] + sep + (inner + sep + rest) == (parts[0] + sep + inner) + sep + rest;
    }
  }

  lemma GroupedKeyExtendsNamespace(key: string, p: string)
    requires AttemptPrefix(key) == Some(p)
    ensures IsNamespace(p) && p <= key
  {
    var parts := Split(key, '/');
    var job, attempt := parts[1], parts[2];
    FirstSegment(key, parts);
    assert parts[..3] == ["outputs", job, attempt];
    NamespaceIsJoined(job, attempt);
    JoinSplit(key, '/');
    assert job in parts && attempt in parts;
    JoinSplitAt("/", parts, 3);
  }

  /** A key is grouped under `p` exactly when `p` is a namespace the key starts with. */
  lemma AttemptPrefixExact(key: string, p: string)
    ensures AttemptPrefix(key) == Some(p) <==> IsNamespace(p) && p <= key
  {
    if AttemptPrefix(key) == Some(p) {
      GroupedKeyExtendsNamespace(key, p);
    }
    if IsNamespace(p) && p <= key {
      var job, attempt :| SlashFree(job) && SlashFree(attempt) && p == Namespace(job, attempt);
      MemberOfNamespace(job, attempt, key[|p|..]);
      assert key == p + key[|p|..];
    }
  }

  lemma FirstSegment(key: string, parts: seq<string>)
    requires OUTPUT_PREFIX <= key && parts == Split(key, '/')
    ensures parts[0] == "outputs"
  {
    assert key == "outputs" + ['/'] + key[|OUTPUT_PREFIX|..];
    SplitHead("outputs", '/', key[|OUTPUT_PREFIX|..]);
  }

  function MarkerKey(p: string): string {
    p + COMMIT_MARKER
  }

  lemma MarkerKeyInNamespace(p: string)
    requires IsNamespace(p)
    ensures AttemptPrefix(MarkerKey(p)) == Some(p)
    ensures EndsWith(MarkerKey(p), COMMIT_MARKER)
  {
    AttemptPrefixExact(MarkerKey(p), p);
    assert MarkerKey(p)[|p|..] == COMMIT_MARKER;
  }

  /** Job and attempt names taken from the hexadecimal digest of one request. */
  function Identity(digest: string): (string, string)
    requires |digest| == 64
  {
    ("job-" + digest[..32], "attempt-" + digest[32..])
  }

  predicate HexDigest(digest: string) {
    |digest| == 64 && forall c | c in digest :: '0' <= c <= '9' || 'a' <= c <= 'f'
  }

  /** Different digests never share a namespace, and none holds a slash. */
  lemma IdentityNamespace(d: string, e: string)
    requires HexDigest(d) && HexDigest(e)
    ensures SlashFree(Identity(d).0) && SlashFree(Identity(d).1)
    ensures Namespace(Identity(d).0, Identity(d).1) == Namespace(Identity(e).0, Identity(e).1) <==> d == e
  {
    forall c | c in d[..32] || c in d[32..] ensures c != '/' {
      assert c in d;
    }
    var m, n := Namespace(Identity(d).0, Identity(d).1), Namespace(Identity(e).0, Identity(e).1);
    var k := |OUTPUT_PREFIX| + 4;
    assert m[k..k + 32] == d[..32] && n[k..k + 32] == e[..32];
    assert m[k + 41..k + 73] == d[32..] && n[k + 41..k + 73] == e[32..];
    assert d == d[..32] + d[32..] && e == e[..32] + e[32..];
  }

  // ---------------------------------------------------------------- addressing

  predicate PlainCharacters(s: string) {
    forall c | c in s :: c as int >= 32 && c != '\\'
  }

  predicate PlainSegments(s: string) {
    forall part | part in Split(s, '/') :: part !in {"", ".", ".."}
  }

  /** A normalized relative key: what the store accepts as one object name. */
  predicate ValidKey(key: string) {
    && key != "" && key[0] != '/' && key[|key| - 1] != '/'
    && PlainCharacters(key) && PlainSegments(key)
  }

  predicate ValidPrefix(prefix: string) {
    && prefix != "" && prefix[0] != '/' && prefix[|prefix| - 1] == '/'
    && PlainCharacters(prefix) && PlainSegments(prefix[..|prefix| - 1])
  }

  /** Path below the bucket that one key addresses under a credential's base prefix. */
  function Target(base: string, key: string): Option<string> {
    if !ValidKey(key) then None
    else Some(if base <= key then key else base + key)
  }

  function PrefixTarget(base: string, prefix: string): Option<string> {
    if !ValidPrefix(prefix) then None
    else Some(if base <= prefix then prefix else base + prefix)
  }

  /** A listing names each object `prefix + path`. That name addresses the listed object
      exactly when the base prefix does not straddle the two parts of the name. */
  lemma ListedKeyAddressesListedObject(base: string, prefix: string, path: string)
    requires base != "" && ValidPrefix(prefix) && ValidKey(prefix + path)
    ensures Target(base, prefix + path) == Some(PrefixTarget(base, prefix).value + path)
            <==> (base <= prefix || !(base <= prefix + path))
  {
    if base <= prefix {
      assert base <= prefix + path;
    } else if base <= prefix + path {
      assert |base + prefix + path| > |prefix + path|;
    } else {
      assert base + (prefix + path) == (base + prefix) + path;
    }
  }

  /** A base prefix longer than the listed one makes a listed key address another object. */
  lemma ListedKeyCanMissItsObject()
    ensures ValidPrefix("a/") && ValidKey("a/" + "b/x")
    ensures Target("a/b/", "a/" + "b/x") != Some(PrefixTarget("a/b/", "a/").value + "b/x")
  {
    var key := "a/" + "b/x";
    SplitFree("x", '/');
    SplitHead("b", '/', "x");
    SplitHead("a", '/', "b" + ['/'] + "x");
    assert key == "a" + ['/'] + ("b" + ['/'] + "x");
    assert Split(key, '/') == ["a", "b", "x"];
    SplitFree("a", '/');
    assert "a/"[..1] == "a";
    assert ValidPrefix("a/") && ValidKey(key);
    assert "a/b/" <= key;
    ListedKeyAddressesListedObject("a/b/", "a/", "b/x");
  }
}
