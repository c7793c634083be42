/** A store call that fails is never passed over: which calls one upload, commit or publication
    makes, and what a fault at any of them comes to. */
module FaultLaws {
  import opened Prelude
  import opened Keys
  import opened Results
  import opened ResultLaws
  import opened SubmitRuns
  import opened Catalog

  // -------------------------------------------------------------------- commit

  /** The calls a commit makes, by number. */
  function CommitCalls(cx: Codec, store: Store, c: Committer, io: nat -> Io, n: nat): set<nat>
    decreases c.Rank()
  {
    if c.phase.Finished? then {}
    else
      var (s, d) := StepCommit(cx, store, c, io(n));
      CommitUnfolds(cx, store, c, io, n);
      {n} + CommitCalls(cx, s, d, io, n + 1)
  }

  /** A commit under way alone: it has not come past its evidence, nor to a marker that is there. */
  ghost predicate Underway(store: Store, c: Committer) {
    && (c.phase.CheckArtifact? ==> c.phase.i < |c.manifest.artifacts|)
    && (c.phase.CheckArtifact? || c.phase.PutMarker? ==> c.manifest.CommitKey() !in store)
    && c.phase != Finished(Raised(StoreFailed))
  }

  ghost predicate FaultAmong(io: nat -> Io, calls: set<nat>) {
    exists j :: j in calls && io(j).fault != Fine
  }

  lemma CommitStepFault(cx: Codec, store: Store, c: Committer, io: Io)
    requires Underway(store, c) && !c.phase.Finished?
    ensures var (s, d) := StepCommit(cx, store, c, io);
      if io.fault != Fine then d.phase == Finished(Raised(StoreFailed)) else Underway(s, d)
  {
    hide Manifest.CommitKey;
  }

  lemma FirstOrLater(io: nat -> Io, n: nat, later: set<nat>)
    ensures FaultAmong(io, {n} + later) <==> io(n).fault != Fine || FaultAmong(io, later)
  {
    if io(n).fault != Fine { assert n in {n} + later; }
    if j :| j in later && io(j).fault != Fine { assert j in {n} + later; }
  }

  /** A commit by itself ends in a store failure exactly when a call it made failed. */
  lemma {:induction false} CommitFaultsExactly(cx: Codec, store: Store, c: Committer, io: nat -> Io, n: nat)
    requires Underway(store, c)
    ensures RunCommit(cx, store, c, io, n).1 == Raised(StoreFailed) <==> FaultAmong(io, CommitCalls(cx, store, c, io, n))
    decreases c.Rank()
  {
    hide StepCommit, Underway, FaultAmong, RunCommit;
    CommitUnfolds(cx, store, c, io, n);
    if c.phase.Finished? {
      assert !FaultAmong(io, {}) by { NoCalls(io); }
      assert c.phase != Finished(Raised(StoreFailed)) by { NotFailed(store, c); }
    } else {
      var (s, d) := StepCommit(cx, store, c, io(n));
      CommitStepFault(cx, store, c, io(n));
      FirstOrLater(io, n, CommitCalls(cx, s, d, io, n + 1));
      if io(n).fault != Fine {
        CommitUnfolds(cx, s, d, io, n + 1);
      } else {
        CommitFaultsExactly(cx, s, d, io, n + 1);
      }
    }
  }

  lemma NoCalls(io: nat -> Io)
    ensures !FaultAmong(io, {})
  {
  }

  lemma NotFailed(store: Store, c: Committer)
    requires Underway(store, c)
    ensures c.phase != Finished(Raised(StoreFailed))
  {
  }

  // -------------------------------------------------------------------- upload

  /** The phase asks the store: a head of a file that is as recorded, or a put. */
  predicate Asks(cx: Codec, u: Uploader) {
    match u.phase
    case HeadArtifact(i) =>
      i < |u.artifacts| && |u.artifacts[i].content| == u.artifacts[i].size && cx.sha(u.artifacts[i].content) == u.artifacts[i].sha
    case PutArtifact(i) => true
    case _ => false
  }

  function UploadCalls(cx: Codec, store: Store, u: Uploader, io: nat -> Io, n: nat): set<nat>
    decreases u.Rank()
  {
    if u.Done() then {}
    else
      var (s, v) := StepUpload(cx, store, u, io(n));
      UploadRankFalls(cx, store, u, io(n));
      (if Asks(cx, u) then {n} else {}) + UploadCalls(cx, s, v, io, n + 1)
  }

  ghost predicate Uploading(store: Store, u: Uploader) {
    && (u.phase.PutArtifact? ==> u.phase.i < |u.artifacts| && u.Key(u.phase.i) !in store)
    && u.phase != UploadRaised(UploadStoreFailed)
  }

  lemma UploadStepFault(cx: Codec, store: Store, u: Uploader, io: Io)
    requires Uploading(store, u) && !u.Done()
    ensures var (s, v) := StepUpload(cx, store, u, io);
      if Asks(cx, u) && io.fault != Fine then v.phase == UploadRaised(UploadStoreFailed) else Uploading(s, v)
  {
    hide RoleKey, ValidIdentifier;
  }

  /** An upload by itself ends in a store failure exactly when a call it made failed. */
  lemma {:induction false} UploadFaultsExactly(cx: Codec, store: Store, u: Uploader, io: nat -> Io, n: nat)
    requires Uploading(store, u)
    ensures RunUpload(cx, store, u, io, n).1.phase == UploadRaised(UploadStoreFailed) <==> FaultAmong(io, UploadCalls(cx, store, u, io, n))
    decreases u.Rank()
  {
    hide StepUpload, FaultAmong, RunUpload, Asks;
    UploadUnfolds(cx, store, u, io, n);
    if u.Done() {
      assert !FaultAmong(io, {}) by { NoCalls(io); }
    } else {
      var (s, v) := StepUpload(cx, store, u, io(n));
      var later := UploadCalls(cx, s, v, io, n + 1);
      UploadRankFalls(cx, store, u, io(n));
      UploadStepFault(cx, store, u, io(n));
      FirstOrLater(io, n, later);
      assert {} + later == later;
      if Asks(cx, u) && io(n).fault != Fine {
        UploadUnfolds(cx, s, v, io, n + 1);
      } else {
        UploadFaultsExactly(cx, s, v, io, n + 1);
      }
    }
  }

  // --------------------------------------------------------------- publication

  ghost predicate FineBetween(calls: nat -> Call, n: nat, next: nat) {
    forall j: nat | n <= j < next :: calls(j).io.fault == Fine
  }

  lemma FewCalls(calls: nat -> Call, n: nat)
    ensures FineBetween(calls, n, n)
    ensures FineBetween(calls, n, n + 1) <==> calls(n).io.fault == Fine
    ensures FineBetween(calls, n, n + 2) <==> calls(n).io.fault == Fine && calls(n + 1).io.fault == Fine
  {
    if calls(n).io.fault == Fine && calls(n + 1).io.fault == Fine {
      forall j: nat | n <= j < n + 2 ensures calls(j).io.fault == Fine {
        if j != n { assert j == n + 1; }
      }
    }
  }

  lemma BlobFaults(sha: Bytes -> string, store: Store, content: Bytes, e: Entry, calls: nat -> Call, n: nat)
    ensures var (_, r, next) := RunBlob(sha, store, content, e, calls, n);
      n <= next <= n + 2 && (!FineBetween(calls, n, next) ==> r == Err(StoreRaised))
  {
    FewCalls(calls, n);
  }

  lemma {:induction false} BlobsFaults(cx: CatalogCodec, store: Store, m: ModelSet, sources: map<string, Bytes>, i: nat, calls: nat -> Call, n: nat)
    requires i <= |m.artifacts|
    ensures var (_, counts, next) := RunBlobs(cx, store, m, sources, i, calls, n);
      n <= next && (!FineBetween(calls, n, next) ==> counts == Err(StoreRaised))
    decreases |m.artifacts| - i
  {
    hide RunBlob, FineBetween;
    FewCalls(calls, n);
    if i < |m.artifacts| && m.artifacts[i].name in sources {
      var e := m.artifacts[i];
      BlobFaults(cx.sha, store, sources[e.name], e, calls, n);
      var (s, r, k) := RunBlob(cx.sha, store, sources[e.name], e, calls, n);
      if r.Ok? {
        BlobsFaults(cx, s, m, sources, i + 1, calls, k);
        BetweenJoins(calls, n, k, RunBlobs(cx, s, m, sources, i + 1, calls, k).2);
      }
    }
  }

  lemma BetweenJoins(calls: nat -> Call, n: nat, k: nat, next: nat)
    requires n <= k <= next
    ensures FineBetween(calls, n, next) <==> FineBetween(calls, n, k) && FineBetween(calls, k, next)
  {
  }

  /** A publication that returns met no fault: of the calls for its blobs none failed, nor the head
      of the manifest, nor its put; and whoever else writes, a fault there is raised as such. */
  lemma PublishFaults(cx: CatalogCodec, store: Store, m: ModelSet, sources: map<string, Bytes>, calls: nat -> Call)
    ensures var (s, counts, n) := RunBlobs(cx, store, m, sources, 0, calls, 0);
      var (after, r) := RunPublish(cx, store, m, sources, calls);
      var head := Arrive(s, calls(n));
      var last := if cx.ManifestKey(m) in head then n + 1 else n + 2;
      && (r.Ok? ==> FineBetween(calls, 0, last))
      && (!FineBetween(calls, 0, n) ==> r == Err(StoreRaised))
      && (counts.Ok? && !FineBetween(calls, n, last) ==> r == Err(StoreRaised))
  {
    hide RunBlobs, CatalogCodec.ManifestKey;
    BlobsFaults(cx, store, m, sources, 0, calls, 0);
    var (s, counts, n) := RunBlobs(cx, store, m, sources, 0, calls, 0);
    var last := if cx.ManifestKey(m) in Arrive(s, calls(n)) then n + 1 else n + 2;
    FewCalls(calls, n);
    BetweenJoins(calls, 0, n, last);
  }

  // ---------------------------------------------------------------- resolution

  lemma {:induction false} ReferencesExactly(store: Store, m: ModelSet, i: nat, calls: nat -> Call)
    requires i <= |m.artifacts| && Untroubled(calls) && Alone(calls)
    ensures CheckReferences(store, m, i, calls)
            == if forall j | i <= j < |m.artifacts| :: Held(store, m.artifacts[j]) then Ok(m) else Err(ReferenceInvalid)
    decreases |m.artifacts| - i
  {
    hide Held;
    if i < |m.artifacts| {
      assert Arrive(store, calls(i + 1)) == store;
      ReferencesExactly(store, m, i + 1, calls);
    }
  }

  /** What an undisturbed resolution answers, in the order it looks: no object, bytes of another
      digest, bytes that are no manifest, a blob that is not held, or the manifest. */
  lemma ResolveEndsExactly(cx: CatalogCodec, store: Store, key: string, digest: string, calls: nat -> Call)
    requires Untroubled(calls) && Alone(calls)
    ensures var r := Resolve(cx, store, key, digest, calls);
      && (r == Err(StoreUnavailable) <==> key !in store)
      && (key in store ==>
            var bytes := store[key].content;
            && (r == Err(IdentityMismatch) <==> cx.sha(bytes) != digest)
            && (r == Err(ManifestInvalid) <==> cx.sha(bytes) == digest && cx.parse(bytes).None?)
            && (r == Err(ReferenceInvalid) <==> cx.sha(bytes) == digest && cx.parse(bytes).Some? && !AllHeld(store, cx.parse(bytes).value))
            && forall m :: r == Ok(m) <==> cx.sha(bytes) == digest && cx.parse(bytes) == Some(m) && AllHeld(store, m))
  {
    hide Held;
    assert Arrive(store, calls(0)) == store;
    if key in store && cx.parse(store[key].content).Some? {
      ReferencesExactly(store, cx.parse(store[key].content).value, 0, calls);
    }
  }
}
