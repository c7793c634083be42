/** The result store, the verified uploader and the publish-last committer.

    Uploader and committer are step machines: one store call a step, so that any number of
    them can be interleaved. The imperative services below run one machine from start to end. */
module Results {
  import opened Prelude
  import opened Text
  import opened Keys

  type Bytes = seq<bv8>

  datatype Metadata = Metadata(size: nat, sha: string, version: string)

  datatype Object = Object(content: Bytes, sha: string, version: string, uploadedAt: int) {
    function Meta(): Metadata {
      Metadata(|content|, sha, version)
    }
  }

  type Store = map<string, Object>

  datatype Role = Video | Workflow | Generation

  const ROLES: set<Role> := {Video, Workflow, Generation}

  function RoleName(role: Role): string {
    match role
    case Video => "video"
    case Workflow => "workflow"
    case Generation => "generation"
  }

  datatype RemoteArtifact = RemoteArtifact(role: Role, key: string, size: nat, sha: string, version: string) {
    predicate Matches(m: Metadata) {
      m.size == size && m.sha == sha && m.version == version
    }
  }

  datatype Manifest = Manifest(
    job: string, attempt: string, workflowDigest: string, modelSet: string,
    requestHash: string, committedAt: int, artifacts: seq<RemoteArtifact>)
  {
    function Prefix(): string {
      Namespace(job, attempt)
    }

    function CommitKey(): string {
      MarkerKey(Prefix())
    }

    /** What construction of a manifest enforces and the commit protocol relies on. */
    ghost predicate WellFormed() {
      && SlashFree(job) && SlashFree(attempt)
      && (set a | a in artifacts :: a.role) == ROLES && |artifacts| == |ROLES|
      && forall a | a in artifacts :: Prefix() <= a.key
    }
  }

  /** Serialization and hashing: library behaviour, any functions of their argument. */
  datatype Codec = Codec(canon: Manifest -> Bytes, sha: Bytes -> string) {
    function Digest(m: Manifest): string {
      sha(canon(m))
    }
  }

  /** A call is answered, is lost before it takes effect, or takes effect and loses its reply. */
  datatype Fault = Fine | LostRequest | LostReply

  /** One store call's circumstances: its fault, the provider's clock and its version label. */
  datatype Io = Io(fault: Fault, now: int, version: string)

  /** Create-if-absent: an existing key is never overwritten, and a put on it raises. */
  function AfterPut(store: Store, key: string, content: Bytes, sha: string, io: Io): Store {
    if io.fault == LostRequest || key in store then store
    else store[key := Object(content, sha, io.version, io.now)]
  }

  predicate PutReturns(store: Store, key: string, io: Io) {
    io.fault == Fine && key !in store
  }

  // ------------------------------------------------------------- committer

  datatype CommitError = CommitConflict | EvidenceInvalid | VerificationFailed | StoreFailed | Died

  datatype CommitOutcome = Returned(created: bool) | Raised(error: CommitError)

  datatype CommitPhase =
    | CheckMarker
    | Compare
    | CheckArtifact(i: nat)
    | PutMarker
    | Finished(outcome: CommitOutcome)

  datatype Committer = Committer(manifest: Manifest, phase: CommitPhase) {
    function Fail(e: CommitError): Committer {
      this.(phase := Finished(Raised(e)))
    }

    function Checked(i: nat): Committer {
      this.(phase := if i < |manifest.artifacts| then CheckArtifact(i) else PutMarker)
    }

    function Rank(): nat {
      match phase
      case CheckMarker => |manifest.artifacts| + 3
      case CheckArtifact(i) => if i < |manifest.artifacts| then |manifest.artifacts| - i + 2 else 2
      case Compare => 1
      case PutMarker => 1
      case Finished(_) => 0
    }
  }

  function ArtifactHolds(store: Store, a: RemoteArtifact): bool {
    a.key in store && a.Matches(store[a.key].Meta())
  }

  function StepCommit(cx: Codec, store: Store, c: Committer, io: Io): (Store, Committer) {
    var key := c.manifest.CommitKey();
    match c.phase
    case Finished(_) => (store, c)
    case CheckMarker =>
      if io.fault != Fine then (store, c.Fail(StoreFailed))
      else if key in store then (store, c.(phase := Compare))
      else (store, c.Checked(0))
    case Compare =>
      if io.fault != Fine then (store, c.Fail(StoreFailed))
      else if key in store && store[key].content == cx.canon(c.manifest)
      then (store, c.(phase := Finished(Returned(false))))
      else (store, c.Fail(CommitConflict))
    case CheckArtifact(i) =>
      if i >= |c.manifest.artifacts| then (store, c.(phase := PutMarker))
      else if io.fault != Fine then (store, c.Fail(StoreFailed))
      else if !ArtifactHolds(store, c.manifest.artifacts[i]) then (store, c.Fail(EvidenceInvalid))
      else (store, c.Checked(i + 1))
    case PutMarker =>
      var content, digest := cx.canon(c.manifest), cx.Digest(c.manifest);
      var after := AfterPut(store, key, content, digest, io);
      if !PutReturns(store, key, io) then (after, c.Fail(StoreFailed))
      else if after[key].Meta().size != |content| || after[key].Meta().sha != digest
      then (after, c.Fail(VerificationFailed))
      else (after, c.(phase := Finished(Returned(true))))
  }

  /** The machine left alone with the store. `io(n)` is met by the n-th call. */
  function RunCommit(cx: Codec, store: Store, c: Committer, io: nat -> Io, n: nat): (Store, CommitOutcome)
    decreases c.Rank()
  {
    if c.phase.Finished? then (store, c.phase.outcome)
    else
      var (store', c') := StepCommit(cx, store, c, io(n));
      RunCommit(cx, store', c', io, n + 1)
  }

  lemma CommitStops(cx: Codec, store: Store, c: Committer, io: nat -> Io, n: nat)
    requires !c.phase.Finished? && StepCommit(cx, store, c, io(n)).1.phase.Finished?
    ensures RunCommit(cx, store, c, io, n)
            == (StepCommit(cx, store, c, io(n)).0, StepCommit(cx, store, c, io(n)).1.phase.outcome)
  {
  }

  class ResultStore {
    var objects: Store

    constructor (initial: Store)
      ensures objects == initial
    {
      objects := initial;
    }

    /** Err when the provider raises. */
    method Head(key: string, io: Io) returns (r: Result<Option<Metadata>, ()>)
      ensures r == if io.fault != Fine then Err(())
                   else Ok(if key in objects then Some(objects[key].Meta()) else None)
    {
      if io.fault != Fine { return Err(()); }
      r := Ok(if key in objects then Some(objects[key].Meta()) else None);
    }

    method Get(key: string, io: Io) returns (r: Result<Option<Bytes>, ()>)
      ensures r == if io.fault != Fine then Err(())
                   else Ok(if key in objects then Some(objects[key].content) else None)
    {
      if io.fault != Fine { return Err(()); }
      r := Ok(if key in objects then Some(objects[key].content) else None);
    }

    method Put(key: string, content: Bytes, sha: string, io: Io) returns (r: Result<Metadata, ()>)
      modifies this
      ensures objects == AfterPut(old(objects), key, content, sha, io)
      ensures r == if PutReturns(old(objects), key, io) then Ok(Metadata(|content|, sha, io.version)) else Err(())
    {
      var answered := PutReturns(objects, key, io);
      objects := AfterPut(objects, key, content, sha, io);
      r := if answered then Ok(Metadata(|content|, sha, io.version)) else Err(());
    }
  }

  class ResultCommitter {
    const store: ResultStore

    constructor (store: ResultStore)
      ensures this.store == store
    {
      this.store := store;
    }

    /** Commit once: a marker that is there must match, a new one comes after its evidence. */
    method Commit(cx: Codec, manifest: Manifest, io: nat -> Io) returns (outcome: CommitOutcome)
      modifies store
      ensures (store.objects, outcome) == RunCommit(cx, old(store.objects), Committer(manifest, CheckMarker), io, 0)
    {
      ghost var all := RunCommit(cx, store.objects, Committer(manifest, CheckMarker), io, 0);
      var content := cx.canon(manifest);
      var marker := store.Head(manifest.CommitKey(), io(0));
      if marker.Err? { return Raised(StoreFailed); }
      if marker.value.Some? {
        assert all == RunCommit(cx, store.objects, Committer(manifest, Compare), io, 1);
        CommitStops(cx, store.objects, Committer(manifest, Compare), io, 1);
        var existing := store.Get(manifest.CommitKey(), io(1));
        if existing.Err? { return Raised(StoreFailed); }
        if existing.value != Some(content) { return Raised(CommitConflict); }
        return Returned(false);
      }
      var i := 0;
      while i < |manifest.artifacts|
        invariant 0 <= i <= |manifest.artifacts|
        invariant all == RunCommit(cx, store.objects, Committer(manifest, CheckMarker).Checked(i), io, i + 1)
      {
        var artifact := manifest.artifacts[i];
        var metadata := store.Head(artifact.key, io(i + 1));
        if metadata.Err? { return Raised(StoreFailed); }
        if metadata.value.None? || !artifact.Matches(metadata.value.value) {
          return Raised(EvidenceInvalid);
        }
        i := i + 1;
      }
      var published := store.Put(manifest.CommitKey(), content, cx.Digest(manifest), io(i + 1));
      if published.Err? { return Raised(StoreFailed); }
      if published.value.size != |content| || published.value.sha != cx.Digest(manifest) {
        return Raised(VerificationFailed);
      }
      return Returned(true);
    }
  }

  // -------------------------------------------------------------- uploader

  /** A local artifact: what was recorded about it, and the bytes its file holds when read. */
  datatype LocalArtifact = LocalArtifact(role: Role, sha: string, size: nat, content: Bytes)

  datatype UploadError = SetIncomplete | LocalDrift | RemoteMismatch | EvidenceRejected | UploadStoreFailed

  datatype UploadPhase =
    | Begin
    | HeadArtifact(i: nat)
    | PutArtifact(i: nat)
    | Uploaded
    | UploadRaised(error: UploadError)

  datatype Uploader = Uploader(
    job: string, attempt: string, artifacts: seq<LocalArtifact>,
    phase: UploadPhase, evidence: seq<RemoteArtifact>)
  {
    function Key(i: nat): string
      requires i < |artifacts|
    {
      RoleKey(job, attempt, artifacts[i].role)
    }

    function Fail(e: UploadError): Uploader {
      this.(phase := UploadRaised(e))
    }

    predicate Done() {
      phase.Uploaded? || phase.UploadRaised?
    }

    function Rank(): nat {
      match phase
      case Begin => 2 * |artifacts| + 2
      case HeadArtifact(i) => if i < |artifacts| then 2 * (|artifacts| - i) + 1 else 1
      case PutArtifact(i) => if i < |artifacts| then 2 * (|artifacts| - i) else 1
      case Uploaded => 0
      case UploadRaised(_) => 0
    }
  }

  function RoleKey(job: string, attempt: string, role: Role): string {
    Namespace(job, attempt) + RoleName(role) + ".bin"
  }

  predicate IsIdentifierStart(c: char) {
    'A' <= c <= 'Z' || 'a' <= c <= 'z' || '0' <= c <= '9'
  }

  predicate ValidIdentifier(s: string) {
    && 1 <= |s| <= 128 && IsIdentifierStart(s[0]) && IsIdentifierStart(s[|s| - 1])
    && forall c | c in s :: IsIdentifierStart(c) || c == '.' || c == '_' || c == '-'
  }

  /** Construction of an evidence record refuses empty content and malformed versions. */
  predicate EvidenceAccepted(size: nat, version: string) {
    size > 0 && ValidIdentifier(version)
  }

  function Recorded(u: Uploader, i: nat, sha: string, m: Metadata): Uploader
    requires i < |u.artifacts|
  {
    var content := u.artifacts[i].content;
    if m.size != |content| || m.sha != sha then u.Fail(RemoteMismatch)
    else if !EvidenceAccepted(|content|, m.version) then u.Fail(EvidenceRejected)
    else u.(phase := HeadArtifact(i + 1),
            evidence := u.evidence + [RemoteArtifact(u.artifacts[i].role, u.Key(i), |content|, sha, m.version)])
  }

  function StepUpload(cx: Codec, store: Store, u: Uploader, io: Io): (Store, Uploader) {
    match u.phase
    case Uploaded => (store, u)
    case UploadRaised(_) => (store, u)
    case Begin =>
      if (set a | a in u.artifacts :: a.role) != ROLES then (store, u.Fail(SetIncomplete))
      else (store, u.(phase := HeadArtifact(0), evidence := []))
    case HeadArtifact(i) =>
      if i >= |u.artifacts| then (store, u.(phase := Uploaded)) else
      var a := u.artifacts[i];
      if |a.content| != a.size || cx.sha(a.content) != a.sha then (store, u.Fail(LocalDrift))
      else if io.fault != Fine then (store, u.Fail(UploadStoreFailed))
      else if u.Key(i) in store then (store, Recorded(u, i, a.sha, store[u.Key(i)].Meta()))
      else (store, u.(phase := PutArtifact(i)))
    case PutArtifact(i) =>
      if i >= |u.artifacts| then (store, u.Fail(UploadStoreFailed)) else
      var a := u.artifacts[i];
      var after := AfterPut(store, u.Key(i), a.content, a.sha, io);
      if !PutReturns(store, u.Key(i), io) then (after, u.Fail(UploadStoreFailed))
      else (after, Recorded(u, i, a.sha, after[u.Key(i)].Meta()))
  }

  /** `io(n)` is met by the n-th step. */
  function RunUpload(cx: Codec, store: Store, u: Uploader, io: nat -> Io, n: nat): (Store, Uploader)
    decreases u.Rank()
  {
    if u.Done() then (store, u)
    else
      var (store', u') := StepUpload(cx, store, u, io(n));
      RunUpload(cx, store', u', io, n + 1)
  }

  lemma UploadStops(cx: Codec, store: Store, u: Uploader, io: nat -> Io, n: nat)
    requires !u.Done() && StepUpload(cx, store, u, io(n)).1.Done()
    ensures RunUpload(cx, store, u, io, n) == StepUpload(cx, store, u, io(n))
  {
  }

  class VerifiedUploader {
    const store: ResultStore

    constructor (store: ResultStore)
      ensures this.store == store
    {
      this.store := store;
    }

    /** One upload: local bytes as recorded, remote objects as local. */
    method Upload(cx: Codec, job: string, attempt: string, artifacts: seq<LocalArtifact>, io: nat -> Io)
      returns (r: Result<seq<RemoteArtifact>, UploadError>)
      modifies store
      ensures var (after, u) := RunUpload(cx, old(store.objects), Uploader(job, attempt, artifacts, Begin, []), io, 0);
        && store.objects == after
        && r == (if u.phase.UploadRaised? then Err(u.phase.error) else Ok(u.evidence))
    {
      ghost var all := RunUpload(cx, store.objects, Uploader(job, attempt, artifacts, Begin, []), io, 0);
      if (set a | a in artifacts :: a.role) != ROLES { return Err(SetIncomplete); }
      var evidence: seq<RemoteArtifact> := [];
      var calls: nat := 1;
      for i := 0 to |artifacts|
        invariant all == RunUpload(cx, store.objects,
                                   Uploader(job, attempt, artifacts, HeadArtifact(i), evidence), io, calls)
      {
        ghost var here := Uploader(job, attempt, artifacts, HeadArtifact(i), evidence);
        var artifact := artifacts[i];
        var digest := cx.sha(artifact.content);
        if |artifact.content| != artifact.size || digest != artifact.sha { return Err(LocalDrift); }
        var key := RoleKey(job, attempt, artifact.role);
        var current := store.Head(key, io(calls));
        calls := calls + 1;
        if current.Err? { return Err(UploadStoreFailed); }
        var metadata: Metadata;
        if current.value.Some? {
          metadata := current.value.value;
        } else {
          assert all == RunUpload(cx, store.objects, here.(phase := PutArtifact(i)), io, calls);
          if StepUpload(cx, store.objects, here.(phase := PutArtifact(i)), io(calls)).1.Done() {
            UploadStops(cx, store.objects, here.(phase := PutArtifact(i)), io, calls);
          }
          var created := store.Put(key, artifact.content, digest, io(calls));
          calls := calls + 1;
          if created.Err? { return Err(UploadStoreFailed); }
          metadata := created.value;
        }
        if metadata.size != |artifact.content| || metadata.sha != digest { return Err(RemoteMismatch); }
        if !EvidenceAccepted(|artifact.content|, metadata.version) { return Err(EvidenceRejected); }
        evidence := evidence + [RemoteArtifact(artifact.role, key, |artifact.content|, digest, metadata.version)];
      }
      return Ok(evidence);
    }
  }
}
