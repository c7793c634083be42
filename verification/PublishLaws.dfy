/** How a publication ends that nobody disturbs, decided by its sources and the store before it. */
module PublishLaws {
  import opened Prelude
  import opened Results
  import opened ResultLaws
  import opened Catalog

  datatype Case = Case(cx: CatalogCodec, store: Store, m: ModelSet, sources: map<string, Bytes>) {

    function Key(i: nat): string
      requires i < |m.artifacts|
    {
      m.artifacts[i].key
    }

    /** The local source is there and is what its entry says. */
    predicate Sourced(i: nat)
      requires i < |m.artifacts|
    {
      var e := m.artifacts[i];
      e.name in sources && |sources[e.name]| == e.size && cx.sha(sources[e.name]) == e.sha
    }

    /** What is stored under its key, or was for an earlier entry of that key, is this blob. */
    ghost predicate Agrees(i: nat)
      requires i < |m.artifacts|
    {
      && (Key(i) in store ==> |store[Key(i)].content| == m.artifacts[i].size && store[Key(i)].sha == m.artifacts[i].sha)
      && forall j | 0 <= j < i && Key(j) == Key(i) ::
           m.artifacts[j].size == m.artifacts[i].size && m.artifacts[j].sha == m.artifacts[i].sha
    }

    ghost predicate Sound(i: nat)
      requires i < |m.artifacts|
    {
      Sourced(i) && Agrees(i)
    }

    ghost function Error(i: nat): PublishError
      requires i < |m.artifacts|
    {
      if m.artifacts[i].name !in sources then SourceMissing else if !Sourced(i) then LocalMismatch else BlobConflict
    }

    ghost predicate FailsAt(k: nat) {
      k < |m.artifacts| && !Sound(k) && forall j | 0 <= j < k :: Sound(j)
    }

    /** Nothing but the missing blobs of the first `n` entries was added, each the local source. */
    ghost predicate Stocked(after: Store, n: nat)
      requires n <= |m.artifacts|
    {
      && Extends(store, after)
      && (forall k :: k in after <==> k in store || exists j :: 0 <= j < n && Key(j) == k)
      && forall j | 0 <= j < n && Key(j) !in store :: Held(after, m.artifacts[j]) && cx.sha(after[Key(j)].content) == m.artifacts[j].sha
    }

    /** The first entry of a key that was not stored. */
    predicate Fresh(i: nat)
      requires i < |m.artifacts|
    {
      Key(i) !in store && forall j | 0 <= j < i :: Key(j) != Key(i)
    }

    /** How many of the entries from the i-th on are to be uploaded. */
    function FreshFrom(i: nat): nat
      requires i <= |m.artifacts|
      decreases |m.artifacts| - i
    {
      if i == |m.artifacts| then 0 else (if Fresh(i) then 1 else 0) + FreshFrom(i + 1)
    }

    /** A manifest that is stored already is the one to publish. */
    predicate ManifestFits() {
      cx.ManifestKey(m) in store ==>
        |store[cx.ManifestKey(m)].content| == |cx.canon(m)| && store[cx.ManifestKey(m)].sha == cx.Digest(m)
    }
  }

  ghost predicate Undisturbed(calls: nat -> Call) {
    Untroubled(calls) && Alone(calls)
  }

  lemma NobodyArrives(store: Store, calls: nat -> Call, n: nat)
    requires Undisturbed(calls)
    ensures Arrive(store, calls(n)) == store && calls(n).io.fault == Fine
  {
    assert calls(n).arrivals == map[];
  }

  /** What the head of the i-th blob finds, after the ones before it. */
  lemma HeadFinds(c: Case, s: Store, i: nat)
    requires i < |c.m.artifacts| && c.Stocked(s, i) && forall j | 0 <= j < i :: c.Sound(j)
    ensures c.Key(i) in s ==> (c.Agrees(i) <==> Held(s, c.m.artifacts[i])) && !c.Fresh(i)
    ensures c.Key(i) !in s ==> c.Agrees(i) && c.Fresh(i)
  {
    var key := c.Key(i);
    forall j | 0 <= j < i && c.Key(j) == key
      ensures key in s && |s[key].content| == c.m.artifacts[j].size && s[key].sha == c.m.artifacts[j].sha
    {
      assert c.Sound(j);
      if key in c.store { assert s[key] == c.store[key]; }
    }
    if key in s && key !in c.store {
      var j :| 0 <= j < i && c.Key(j) == key;
    }
  }

  function Put(c: Case, s: Store, i: nat, io: Io): Store
    requires i < |c.m.artifacts| && c.Sourced(i)
  {
    var e := c.m.artifacts[i];
    if e.key in s then s else s[e.key := Object(c.sources[e.name], e.sha, io.version, io.now)]
  }

  lemma KeysAfter(c: Case, s: Store, i: nat, io: Io)
    requires i < |c.m.artifacts| && c.Stocked(s, i) && c.Sourced(i)
    ensures var after := Put(c, s, i, io);
      Extends(c.store, after) && forall k :: k in after <==> k in c.store || exists j :: 0 <= j < i + 1 && c.Key(j) == k
  {
    hide Held;
    var after := Put(c, s, i, io);
    forall k ensures k in after <==> k in c.store || exists j :: 0 <= j < i + 1 && c.Key(j) == k {
      if k in after && k !in c.store && k != c.Key(i) {
        var j :| 0 <= j < i && c.Key(j) == k;
      }
    }
  }

  lemma Furnished(c: Case, s: Store, i: nat, io: Io)
    requires i < |c.m.artifacts| && c.Stocked(s, i) && c.Sound(i) && forall j | 0 <= j < i :: c.Sound(j)
    ensures c.Stocked(Put(c, s, i, io), i + 1)
  {
    HeadFinds(c, s, i);
    var after := Put(c, s, i, io);
    KeysAfter(c, s, i, io);
    forall j | 0 <= j < i + 1 && c.Key(j) !in c.store
      ensures Held(after, c.m.artifacts[j]) && c.cx.sha(after[c.Key(j)].content) == c.m.artifacts[j].sha
    {
      if c.Key(i) in s && j == i {
        var k :| 0 <= k < i && c.Key(k) == c.Key(i);
        assert c.Sound(k);
      }
    }
  }

  /** One blob, nobody disturbing. */
  lemma BlobEnds(c: Case, s: Store, i: nat, calls: nat -> Call, n: nat)
    requires Undisturbed(calls) && i < |c.m.artifacts| && c.m.artifacts[i].name in c.sources
    requires c.Stocked(s, i) && forall j | 0 <= j < i :: c.Sound(j)
    ensures var e := c.m.artifacts[i];
      var (after, r, next) := RunBlob(c.cx.sha, s, c.sources[e.name], e, calls, n);
      && (!c.Sound(i) ==> after == s && r == Err(c.Error(i)))
      && (c.Sound(i) ==> after == Put(c, s, i, calls(n + 1).io) && r == Ok(!c.Fresh(i)))
  {
    HeadFinds(c, s, i);
    NobodyArrives(s, calls, n);
    NobodyArrives(s, calls, n + 1);
  }

  lemma {:induction false} BlobsFrom(c: Case, s: Store, i: nat, calls: nat -> Call, n: nat)
    requires Undisturbed(calls) && i <= |c.m.artifacts|
    requires c.Stocked(s, i) && forall j | 0 <= j < i :: c.Sound(j)
    ensures var (after, counts, _) := RunBlobs(c.cx, s, c.m, c.sources, i, calls, n);
      && ((forall j | 0 <= j < |c.m.artifacts| :: c.Sound(j)) ==>
            c.FreshFrom(i) <= |c.m.artifacts| - i && counts == Ok((|c.m.artifacts| - i - c.FreshFrom(i), c.FreshFrom(i)))
            && c.Stocked(after, |c.m.artifacts|))
      && forall k: nat | c.FailsAt(k) :: counts == Err(c.Error(k)) && c.Stocked(after, k)
    decreases |c.m.artifacts| - i
  {
    hide RunBlob, Case.Stocked, Case.Sound, Case.Fresh, Case.Sourced, Undisturbed;
    if i < |c.m.artifacts| {
      var e := c.m.artifacts[i];
      if e.name in c.sources {
        BlobEnds(c, s, i, calls, n);
        if c.Sound(i) {
          var (after, r, next) := RunBlob(c.cx.sha, s, c.sources[e.name], e, calls, n);
          Furnished(c, s, i, calls(n + 1).io);
          BlobsFrom(c, after, i + 1, calls, next);
        }
      } else {
        Unsourced(c, i);
      }
    }
  }

  lemma Unsourced(c: Case, i: nat)
    requires i < |c.m.artifacts| && c.m.artifacts[i].name !in c.sources
    ensures !c.Sound(i) && c.Error(i) == SourceMissing
  {
  }

  /** How an undisturbed publication ends, and when. It returns exactly when every source is as its
      entry says, what is stored of it already agrees, and so does a stored manifest; the receipt
      counts each missing blob as uploaded and every other entry as reused, and just those blobs
      and the manifest are added. Else it raises what is wrong with the first bad entry, having
      stored the blobs before it and no manifest. */
  lemma PublishEndsExactly(c: Case, calls: nat -> Call)
    requires Undisturbed(calls) && forall e | e in c.m.artifacts :: e.key != c.cx.ManifestKey(c.m)
    ensures var (after, r) := RunPublish(c.cx, c.store, c.m, c.sources, calls);
      var key, n, sound := c.cx.ManifestKey(c.m), |c.m.artifacts|, forall j | 0 <= j < |c.m.artifacts| :: c.Sound(j);
      && (r.Ok? <==> sound && c.ManifestFits())
      && (r.Ok? ==>
            && key in after && c.FreshFrom(0) <= n
            && r.value == Receipt(key, c.cx.Digest(c.m), after[key].version, n - c.FreshFrom(0), c.FreshFrom(0))
            && (key !in c.store ==> after[key].content == c.cx.canon(c.m) && c.Stocked(after - {key}, n))
            && (key in c.store ==> c.Stocked(after, n)))
      && (sound && !c.ManifestFits() ==> r == Err(ManifestVerification) && c.Stocked(after, n))
      && forall k: nat | c.FailsAt(k) :: r == Err(c.Error(k)) && c.Stocked(after, k)
  {
    hide RunBlobs, Case.Stocked, Case.Sound, CatalogCodec.ManifestKey, CatalogCodec.Digest, Undisturbed;
    assert c.Stocked(c.store, 0) by { NothingYet(c); }
    BlobsFrom(c, c.store, 0, calls, 0);
    var (s, counts, n) := RunBlobs(c.cx, c.store, c.m, c.sources, 0, calls, 0);
    if forall j | 0 <= j < |c.m.artifacts| :: c.Sound(j) {
      ManifestEnds(c, s, calls, n, counts.value.0, counts.value.1);
    } else {
      var k := FirstUnsound(c);
    }
  }

  lemma NothingYet(c: Case)
    ensures c.Stocked(c.store, 0)
  {
  }

  lemma FirstUnsound(c: Case) returns (k: nat)
    requires !forall j | 0 <= j < |c.m.artifacts| :: c.Sound(j)
    ensures c.FailsAt(k)
  {
    hide Case.Sound;
    k := 0;
    while c.Sound(k)
      invariant k < |c.m.artifacts| && forall j | 0 <= j < k :: c.Sound(j)
      decreases |c.m.artifacts| - k
    {
      k := k + 1;
    }
  }

  lemma ManifestEnds(c: Case, s: Store, calls: nat -> Call, n: nat, reused: nat, uploaded: nat)
    requires Undisturbed(calls) && c.Stocked(s, |c.m.artifacts|)
    requires forall e | e in c.m.artifacts :: e.key != c.cx.ManifestKey(c.m)
    ensures var (after, r) := RunManifest(c.cx, s, c.m, reused, uploaded, calls, n);
      var key := c.cx.ManifestKey(c.m);
      if !c.ManifestFits() then after == s && r == Err(ManifestVerification)
      else
        && key in after && r == Ok(Receipt(key, c.cx.Digest(c.m), after[key].version, reused, uploaded))
        && if key in c.store then after == s else after[key].content == c.cx.canon(c.m) && after - {key} == s
  {
    hide CatalogCodec.ManifestKey;
    NobodyArrives(s, calls, n);
    NobodyArrives(s, calls, n + 1);
    var key := c.cx.ManifestKey(c.m);
    forall j | 0 <= j < |c.m.artifacts| ensures c.Key(j) != key {
      assert c.m.artifacts[j] in c.m.artifacts;
    }
  }
}
