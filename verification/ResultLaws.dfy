/** What one upload and one commit guarantee, whatever the store does. */
module ResultLaws {
  import opened Prelude
  import opened Keys
  import opened Results

  ghost predicate Extends(store: Store, later: Store) {
    forall k | k in store :: k in later && later[k] == store[k]
  }

  ghost predicate AllHold(store: Store, artifacts: seq<RemoteArtifact>) {
    forall i | 0 <= i < |artifacts| :: ArtifactHolds(store, artifacts[i])
  }

  // ---------------------------------------------------------------- commit

  ghost predicate Published(cx: Codec, m: Manifest, store: Store, after: Store) {
    && m.CommitKey() !in store && AllHold(store, m.artifacts)
    && after.Keys == store.Keys + {m.CommitKey()} && Extends(store, after)
    && after[m.CommitKey()].content == cx.canon(m) && after[m.CommitKey()].sha == cx.Digest(m)
  }

  ghost predicate ReadyToPut(store: Store, c: Committer) {
    && (c.phase.CheckArtifact? ==>
          && c.phase.i <= |c.manifest.artifacts|
          && forall j | 0 <= j < c.phase.i :: ArtifactHolds(store, c.manifest.artifacts[j]))
    && (c.phase.PutMarker? ==> AllHold(store, c.manifest.artifacts))
    && (c.phase.Compare? ==> c.manifest.CommitKey() in store)
    && !c.phase.Finished?
  }

  /** A commit, whatever fails around it, leaves the store alone or adds the exact marker
      over artifacts that all hold; it reports success only when the marker with its bytes
      is there, and `Returned(true)` only when this call made it. */
  lemma {:induction false} CommitIsAllOrNothing(cx: Codec, store: Store, c: Committer, io: nat -> Io, n: nat)
    requires ReadyToPut(store, c)
    ensures var (after, outcome) := RunCommit(cx, store, c, io, n);
      && (after == store || Published(cx, c.manifest, store, after))
      && (outcome.Returned? ==> c.manifest.CommitKey() in after
                                && after[c.manifest.CommitKey()].content == cx.canon(c.manifest))
      && (outcome == Returned(true) ==> Published(cx, c.manifest, store, after))
      && (outcome == Returned(false) ==> after == store)
      && outcome != Raised(VerificationFailed)
    decreases c.Rank()
  {
    hide Manifest.CommitKey;
    var (store', c') := StepCommit(cx, store, c, io(n));
    if !c'.phase.Finished? {
      CommitIsAllOrNothing(cx, store', c', io, n + 1);
    } else {
      CommitStops(cx, store, c, io, n);
    }
  }

  function FaultlessOutcome(cx: Codec, store: Store, m: Manifest): CommitOutcome {
    if m.CommitKey() in store then
      if store[m.CommitKey()].content == cx.canon(m) then Returned(false) else Raised(CommitConflict)
    else if forall i | 0 <= i < |m.artifacts| :: ArtifactHolds(store, m.artifacts[i]) then Returned(true)
    else Raised(EvidenceInvalid)
  }

  lemma {:induction false} FaultlessChecks(cx: Codec, store: Store, m: Manifest, i: nat, io: nat -> Io, n: nat)
    requires i <= |m.artifacts| && m.CommitKey() !in store
    requires forall j | 0 <= j < i :: ArtifactHolds(store, m.artifacts[j])
    requires forall j :: io(j).fault == Fine
    ensures RunCommit(cx, store, Committer(m, CheckMarker).Checked(i), io, n).1 == FaultlessOutcome(cx, store, m)
    decreases |m.artifacts| - i
  {
    var c := Committer(m, CheckMarker).Checked(i);
    if i == |m.artifacts| || !ArtifactHolds(store, m.artifacts[i]) {
      CommitStops(cx, store, c, io, n);
    } else {
      FaultlessChecks(cx, store, m, i + 1, io, n + 1);
    }
  }

  /** With no fault the outcome is decided by the store alone: a conflict, an accepted retry,
      missing evidence or a new marker. */
  lemma CommitExact(cx: Codec, store: Store, m: Manifest, io: nat -> Io)
    requires forall j :: io(j).fault == Fine
    ensures RunCommit(cx, store, Committer(m, CheckMarker), io, 0).1 == FaultlessOutcome(cx, store, m)
  {
    if m.CommitKey() in store {
      CommitStops(cx, store, Committer(m, Compare), io, 1);
      assert RunCommit(cx, store, Committer(m, CheckMarker), io, 0)
             == RunCommit(cx, store, Committer(m, Compare), io, 1);
    } else {
      FaultlessChecks(cx, store, m, 0, io, 1);
    }
  }

  // ---------------------------------------------------------------- upload

  /** Evidence for the first artifacts: exact content identity, under the attempt's own key. */
  ghost predicate Evidences(cx: Codec, store: Store, u: Uploader, n: nat) {
    && |u.evidence| == n <= |u.artifacts|
    && forall i | 0 <= i < n ::
         && u.evidence[i].role == u.artifacts[i].role && u.evidence[i].key == u.Key(i)
         && u.evidence[i].size == |u.artifacts[i].content| > 0
         && u.evidence[i].sha == u.artifacts[i].sha == cx.sha(u.artifacts[i].content)
         && ArtifactHolds(store, u.evidence[i])
         && ValidIdentifier(u.evidence[i].version)
  }

  ghost predicate UploadInv(cx: Codec, store: Store, u: Uploader) {
    match u.phase
    case Begin => true
    case HeadArtifact(i) => Evidences(cx, store, u, i) && Elements(Roles(u.artifacts)) == ROLES
    case PutArtifact(i) => Evidences(cx, store, u, i) && i < |u.artifacts| && Elements(Roles(u.artifacts)) == ROLES
                           && |u.artifacts[i].content| == u.artifacts[i].size
                           && u.artifacts[i].sha == cx.sha(u.artifacts[i].content)
    case Uploaded => Evidences(cx, store, u, |u.artifacts|) && Elements(Roles(u.artifacts)) == ROLES
    case UploadRaised(_) => true
  }

  function Roles(artifacts: seq<LocalArtifact>): seq<Role> {
    seq(|artifacts|, i requires 0 <= i < |artifacts| => artifacts[i].role)
  }

  lemma RolesAre(artifacts: seq<LocalArtifact>)
    ensures (set a | a in artifacts :: a.role) == Elements(Roles(artifacts))
  {
    forall r ensures r in (set a | a in artifacts :: a.role) <==> r in Roles(artifacts) {
      if a :| a in artifacts && a.role == r {
        var i :| 0 <= i < |artifacts| && artifacts[i] == a;
        assert Roles(artifacts)[i] == r;
      }
      if r in Roles(artifacts) {
        var i :| 0 <= i < |artifacts| && Roles(artifacts)[i] == r;
        assert artifacts[i] in artifacts;
      }
    }
  }

  lemma EvidenceLasts(cx: Codec, store: Store, later: Store, u: Uploader, n: nat)
    requires Evidences(cx, store, u, n) && Extends(store, later)
    ensures Evidences(cx, later, u, n)
  {
    hide ValidIdentifier, RoleKey;
    forall i | 0 <= i < n ensures ArtifactHolds(later, u.evidence[i]) {
      assert ArtifactHolds(store, u.evidence[i]);
    }
  }

  lemma RecordedKeeps(cx: Codec, store: Store, u: Uploader, i: nat)
    requires Evidences(cx, store, u, i) && i < |u.artifacts| && Elements(Roles(u.artifacts)) == ROLES
    requires u.Key(i) in store && u.artifacts[i].sha == cx.sha(u.artifacts[i].content)
    ensures UploadInv(cx, store, Recorded(u, i, u.artifacts[i].sha, store[u.Key(i)].Meta()))
  {
    hide ValidIdentifier, RoleKey, Roles;
    var v := Recorded(u, i, u.artifacts[i].sha, store[u.Key(i)].Meta());
    if v.phase.HeadArtifact? {
      forall j | 0 <= j < i + 1
        ensures v.evidence[j].role == u.artifacts[j].role && v.evidence[j].key == u.Key(j)
        ensures v.evidence[j].size == |u.artifacts[j].content| > 0
        ensures v.evidence[j].sha == u.artifacts[j].sha == cx.sha(u.artifacts[j].content)
        ensures ArtifactHolds(store, v.evidence[j]) && ValidIdentifier(v.evidence[j].version)
      {
        if j < i { assert v.evidence[j] == u.evidence[j]; }
      }
    }
  }

  lemma UploadStepKeeps(cx: Codec, store: Store, u: Uploader, io: Io)
    requires UploadInv(cx, store, u)
    ensures var (store', u') := StepUpload(cx, store, u, io);
      && Extends(store, store') && UploadInv(cx, store', u')
      && u'.artifacts == u.artifacts && u'.job == u.job && u'.attempt == u.attempt
  {
    hide RoleKey, ValidIdentifier, Roles, Evidences;
    match u.phase
    case Begin =>
      RolesAre(u.artifacts);
      assert Evidences(cx, store, u.(phase := HeadArtifact(0), evidence := []), 0) by {
        NoEvidence(cx, store, u.(phase := HeadArtifact(0)));
      }
    case HeadArtifact(i) =>
      if i < |u.artifacts| {
        if u.Key(i) in store && u.artifacts[i].sha == cx.sha(u.artifacts[i].content) {
          RecordedKeeps(cx, store, u, i);
        }
        SameEvidence(cx, store, u, u.(phase := PutArtifact(i)), i);
      } else {
        EvidenceCount(cx, store, u, i);
        SameEvidence(cx, store, u, u.(phase := Uploaded), i);
      }
    case PutArtifact(i) =>
      var after := AfterPut(store, u.Key(i), u.artifacts[i].content, u.artifacts[i].sha, io);
      EvidenceLasts(cx, store, after, u, i);
      if u.Key(i) in after { RecordedKeeps(cx, after, u, i); }
    case Uploaded =>
    case UploadRaised(_) =>
  }

  lemma NoEvidence(cx: Codec, store: Store, u: Uploader)
    ensures Evidences(cx, store, u.(evidence := []), 0)
  {
  }

  lemma EvidenceCount(cx: Codec, store: Store, u: Uploader, n: nat)
    requires Evidences(cx, store, u, n)
    ensures n <= |u.artifacts|
  {
  }

  lemma SameEvidence(cx: Codec, store: Store, u: Uploader, v: Uploader, n: nat)
    requires Evidences(cx, store, u, n)
    requires v == u.(phase := v.phase)
    ensures Evidences(cx, store, v, n)
  {
    hide ValidIdentifier, RoleKey;
  }

  lemma UploadRankFalls(cx: Codec, store: Store, u: Uploader, io: Io)
    requires !u.Done()
    ensures StepUpload(cx, store, u, io).1.Rank() < u.Rank()
  {
    hide RoleKey, ValidIdentifier;
  }

  /** An upload that returns has every artifact of every role in the store, byte for byte the
      local one, and never changed an object that was there. */
  lemma {:induction false} UploadVerified(cx: Codec, store: Store, u: Uploader, io: nat -> Io, n: nat)
    requires UploadInv(cx, store, u)
    ensures var (after, v) := RunUpload(cx, store, u, io, n);
      && Extends(store, after)
      && v.artifacts == u.artifacts && v.job == u.job && v.attempt == u.attempt
      && UploadInv(cx, after, v) && v.Done()
    decreases u.Rank()
  {
    hide UploadInv, StepUpload, Uploader.Rank, Uploader.Done;
    if u.Done() {
    } else {
      UploadRankFalls(cx, store, u, io(n));
      UploadStepKeeps(cx, store, u, io(n));
      var (store', u') := StepUpload(cx, store, u, io(n));
      UploadVerified(cx, store', u', io, n + 1);
    }
  }

  lemma {:induction false} ReuploadFrom(cx: Codec, later: Store, done: Uploader, i: nat, io: nat -> Io, n: nat)
    requires done.phase == Uploaded && i <= |done.artifacts|
    requires Evidences(cx, later, done, |done.artifacts|)
    requires forall j | 0 <= j < |done.artifacts| :: |done.artifacts[j].content| == done.artifacts[j].size
    requires forall j :: io(j).fault == Fine
    ensures RunUpload(cx, later, done.(phase := HeadArtifact(i), evidence := done.evidence[..i]), io, n)
            == (later, done)
    decreases |done.artifacts| - i
  {
    hide ValidIdentifier, RoleKey;
    var u := done.(phase := HeadArtifact(i), evidence := done.evidence[..i]);
    if i < |done.artifacts| {
      assert done.evidence[i].key == u.Key(i);
      assert ArtifactHolds(later, done.evidence[i]);
      assert done.evidence[..i] + [done.evidence[i]] == done.evidence[..i + 1];
      assert StepUpload(cx, later, u, io(n))
             == (later, done.(phase := HeadArtifact(i + 1), evidence := done.evidence[..i + 1]));
      ReuploadFrom(cx, later, done, i + 1, io, n + 1);
    } else {
      assert done.evidence[..i] == done.evidence;
      UploadStops(cx, later, u, io, n);
    }
  }

  /** Uploading again, on any store that only grew, returns the same evidence and stores nothing. */
  lemma UploadIsIdempotent(cx: Codec, later: Store, done: Uploader, io: nat -> Io)
    requires done.phase == Uploaded && UploadInv(cx, later, done)
    requires forall j | 0 <= j < |done.artifacts| :: |done.artifacts[j].content| == done.artifacts[j].size
    requires forall j :: io(j).fault == Fine
    ensures RunUpload(cx, later, done.(phase := Begin, evidence := []), io, 0) == (later, done)
  {
    RolesAre(done.artifacts);
    ReuploadFrom(cx, later, done, 0, io, 1);
    assert done.evidence[..0] == [];
    assert StepUpload(cx, later, done.(phase := Begin, evidence := []), io(0))
           == (later, done.(phase := HeadArtifact(0), evidence := []));
  }

  /** What an upload returned is exactly the evidence a commit asks for: on any later store
      without the marker, a faultless commit of it succeeds. */
  lemma UploadThenCommit(cx: Codec, later: Store, done: Uploader, m: Manifest, io: nat -> Io)
    requires done.phase == Uploaded && UploadInv(cx, later, done)
    requires m.artifacts == done.evidence && m.CommitKey() !in later
    requires forall j :: io(j).fault == Fine
    ensures RunCommit(cx, later, Committer(m, CheckMarker), io, 0).1 == Returned(true)
    ensures AllHold(later, m.artifacts)
  {
    hide ValidIdentifier;
    CommitExact(cx, later, m, io);
  }
}
