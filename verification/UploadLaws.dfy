/** How a faultless upload ends, decided by the files and the store before it. */
module UploadLaws {
  import opened Prelude
  import opened Keys
  import opened Results
  import opened ResultLaws

  /** Where the object of one role is stored. */
  function WireKey(job: string, attempt: string, role: Role): string {
    "outputs/" + job + "/" + attempt + "/"
    + match role case Video => "video.bin" case Workflow => "workflow.bin" case Generation => "generation.bin"
  }

  lemma WireKeyIs(job: string, attempt: string, role: Role)
    ensures RoleKey(job, attempt, role) == WireKey(job, attempt, role)
  {
    var p := "outputs/" + job + "/" + attempt + "/";
    match role
    case Video => assert p + "video" + ".bin" == p + ("video" + ".bin") && "video" + ".bin" == "video.bin";
    case Workflow => assert p + "workflow" + ".bin" == p + ("workflow" + ".bin") && "workflow" + ".bin" == "workflow.bin";
    case Generation => assert p + "generation" + ".bin" == p + ("generation" + ".bin") && "generation" + ".bin" == "generation.bin";
  }

  /** What one upload is given: the store before it, and whether the labels that the provider
      gives to what it stores are identifiers. */
  datatype Case = Case(cx: Codec, store: Store, job: string, attempt: string, artifacts: seq<LocalArtifact>, named: bool) {

    function Key(i: nat): string
      requires i < |artifacts|
    {
      WireKey(job, attempt, artifacts[i].role)
    }

    /** The file holds the bytes that were recorded. */
    predicate AsRecorded(i: nat)
      requires i < |artifacts|
    {
      |artifacts[i].content| == artifacts[i].size && cx.sha(artifacts[i].content) == artifacts[i].sha
    }

    /** What is stored for its role, or was for an earlier artifact of that role, is this file. */
    ghost predicate Agrees(i: nat)
      requires i < |artifacts|
    {
      && (Key(i) in store ==> |store[Key(i)].content| == artifacts[i].size && store[Key(i)].sha == artifacts[i].sha)
      && forall j | 0 <= j < i && artifacts[j].role == artifacts[i].role ::
           artifacts[j].size == artifacts[i].size && artifacts[j].sha == artifacts[i].sha
    }

    predicate Nameable(i: nat)
      requires i < |artifacts|
    {
      artifacts[i].size > 0 && if Key(i) in store then ValidIdentifier(store[Key(i)].version) else named
    }

    ghost predicate Sound(i: nat)
      requires i < |artifacts|
    {
      AsRecorded(i) && Agrees(i) && Nameable(i)
    }

    ghost function Error(i: nat): UploadError
      requires i < |artifacts| && !Sound(i)
    {
      if !AsRecorded(i) then LocalDrift else if !Agrees(i) then RemoteMismatch else EvidenceRejected
    }

    function Machine(phase: UploadPhase, evidence: seq<RemoteArtifact>): Uploader {
      Uploader(job, attempt, artifacts, phase, evidence)
    }

    predicate Brings(role: Role) {
      exists i | 0 <= i < |artifacts| :: artifacts[i].role == role
    }

    /** Everything of the first artifacts was sound, and the k-th is the first that is not. */
    ghost predicate FailsAt(k: nat) {
      k < |artifacts| && !Sound(k) && forall j | 0 <= j < k :: Sound(j)
    }

    /** Nothing but the missing objects of the first `n` artifacts was added, each the file. */
    ghost predicate Stocked(after: Store, n: nat)
      requires n <= |artifacts|
    {
      && Extends(store, after)
      && (forall k :: k in after <==> k in store || exists j :: 0 <= j < n && Key(j) == k)
      && forall j | 0 <= j < n && Key(j) !in store ::
           && |after[Key(j)].content| == artifacts[j].size && after[Key(j)].sha == artifacts[j].sha
           && cx.sha(after[Key(j)].content) == artifacts[j].sha
           && (ValidIdentifier(after[Key(j)].version) <==> named)
    }

    /** The evidence names the first `n` artifacts, one for each, as they are stored. */
    ghost predicate Told(after: Store, evidence: seq<RemoteArtifact>, n: nat)
      requires n <= |artifacts|
    {
      && |evidence| == n
      && forall j | 0 <= j < n ::
           && Key(j) in after
           && evidence[j] == RemoteArtifact(artifacts[j].role, Key(j), artifacts[j].size, artifacts[j].sha, after[Key(j)].version)
    }
  }

  ghost predicate Faultless(io: nat -> Io, named: bool) {
    forall j :: io(j).fault == Fine && (ValidIdentifier(io(j).version) <==> named)
  }

  lemma KeysDiffer(job: string, attempt: string, a: Role, b: Role)
    ensures WireKey(job, attempt, a) == WireKey(job, attempt, b) <==> a == b
  {
    var n := |"outputs/" + job + "/" + attempt + "/"|;
    assert WireKey(job, attempt, a)[n] == (match a case Video => 'v' case Workflow => 'w' case Generation => 'g');
    assert WireKey(job, attempt, b)[n] == (match b case Video => 'v' case Workflow => 'w' case Generation => 'g');
  }

  /** What the head of the i-th artifact finds, after the ones before it. */
  lemma HeadFinds(c: Case, s: Store, i: nat)
    requires i < |c.artifacts| && c.Stocked(s, i) && forall j | 0 <= j < i :: c.Sound(j)
    ensures c.Key(i) in s ==>
              && (c.Agrees(i) <==> |s[c.Key(i)].content| == c.artifacts[i].size && s[c.Key(i)].sha == c.artifacts[i].sha)
              && (ValidIdentifier(s[c.Key(i)].version)
                  <==> if c.Key(i) in c.store then ValidIdentifier(c.store[c.Key(i)].version) else c.named)
    ensures c.Key(i) !in s ==> c.Key(i) !in c.store && c.Agrees(i)
  {
    hide WireKey, ValidIdentifier;
    var key := c.Key(i);
    forall j | 0 <= j < i ensures c.Key(j) == key <==> c.artifacts[j].role == c.artifacts[i].role {
      KeysDiffer(c.job, c.attempt, c.artifacts[j].role, c.artifacts[i].role);
    }
    forall j | 0 <= j < i && c.artifacts[j].role == c.artifacts[i].role
      ensures key in s && |s[key].content| == c.artifacts[j].size && s[key].sha == c.artifacts[j].sha
    {
      assert c.Sound(j);
      if key in c.store { assert s[key] == c.store[key]; }
    }
    if key in s && key !in c.store {
      var j :| 0 <= j < i && c.Key(j) == key;
    }
  }

  /** What is stored once the i-th artifact is, by `put` if it was not. */
  function Supplied(c: Case, s: Store, i: nat, put: Io): Store
    requires i < |c.artifacts|
  {
    if c.Key(i) in s then s else s[c.Key(i) := Object(c.artifacts[i].content, c.artifacts[i].sha, put.version, put.now)]
  }

  lemma KeysAfter(c: Case, s: Store, i: nat, put: Io)
    requires i < |c.artifacts| && c.Stocked(s, i)
    ensures var after := Supplied(c, s, i, put);
      Extends(c.store, after) && forall k :: k in after <==> k in c.store || exists j :: 0 <= j < i + 1 && c.Key(j) == k
  {
    hide WireKey, ValidIdentifier;
    var after := Supplied(c, s, i, put);
    forall k ensures k in after <==> k in c.store || exists j :: 0 <= j < i + 1 && c.Key(j) == k {
      if k in after && k !in c.store && k != c.Key(i) {
        var j :| 0 <= j < i && c.Key(j) == k;
      }
    }
  }

  /** The j-th object is the file, where it was missing before. */
  ghost predicate Fits(c: Case, after: Store, j: nat)
    requires j < |c.artifacts|
  {
    && c.Key(j) in after && |after[c.Key(j)].content| == c.artifacts[j].size && after[c.Key(j)].sha == c.artifacts[j].sha
    && c.cx.sha(after[c.Key(j)].content) == c.artifacts[j].sha && (ValidIdentifier(after[c.Key(j)].version) <==> c.named)
  }

  lemma FitsAfter(c: Case, s: Store, i: nat, put: Io, j: nat)
    requires i < |c.artifacts| && c.Stocked(s, i) && c.AsRecorded(i) && (ValidIdentifier(put.version) <==> c.named)
    requires c.Agrees(i) && j <= i && c.Key(j) !in c.store
    ensures Fits(c, Supplied(c, s, i, put), j)
  {
    hide WireKey, ValidIdentifier;
    if c.Key(i) in s && j == i {
      var k :| 0 <= k < i && c.Key(k) == c.Key(i);
      KeysDiffer(c.job, c.attempt, c.artifacts[k].role, c.artifacts[i].role);
    } else if j < i {
      assert c.Key(j) in s;
    }
  }

  /** The object of the i-th artifact is there, one way or the other, and it is sound. */
  lemma Furnished(c: Case, s: Store, i: nat, put: Io)
    requires i < |c.artifacts| && c.Stocked(s, i) && c.AsRecorded(i) && (ValidIdentifier(put.version) <==> c.named)
    requires c.Agrees(i)
    ensures c.Stocked(Supplied(c, s, i, put), i + 1)
  {
    KeysAfter(c, s, i, put);
    forall j | 0 <= j < i + 1 && c.Key(j) !in c.store ensures Fits(c, Supplied(c, s, i, put), j) {
      FitsAfter(c, s, i, put, j);
    }
    hide WireKey, ValidIdentifier, Supplied, Case.Agrees, Case.AsRecorded;
  }

  function Entry(c: Case, i: nat, version: string): RemoteArtifact
    requires i < |c.artifacts|
  {
    RemoteArtifact(c.artifacts[i].role, c.Key(i), c.artifacts[i].size, c.artifacts[i].sha, version)
  }

  /** What becomes of an upload whose i-th artifact is stored with this metadata. */
  function Judged(c: Case, evidence: seq<RemoteArtifact>, i: nat, m: Metadata): Uploader
    requires i < |c.artifacts|
  {
    if m.size != c.artifacts[i].size || m.sha != c.artifacts[i].sha then c.Machine(UploadRaised(RemoteMismatch), evidence)
    else if c.artifacts[i].size == 0 || !ValidIdentifier(m.version) then c.Machine(UploadRaised(EvidenceRejected), evidence)
    else c.Machine(HeadArtifact(i + 1), evidence + [Entry(c, i, m.version)])
  }

  /** The one or two calls for the i-th artifact. */
  lemma StepsFor(c: Case, s: Store, evidence: seq<RemoteArtifact>, i: nat, io: Io)
    requires i < |c.artifacts| && io.fault == Fine
    ensures var here, there, key, a := c.Machine(HeadArtifact(i), evidence), c.Machine(PutArtifact(i), evidence), c.Key(i), c.artifacts[i];
      var stored := s[key := Object(a.content, a.sha, io.version, io.now)];
      && (!c.AsRecorded(i) ==> StepUpload(c.cx, s, here, io) == (s, c.Machine(UploadRaised(LocalDrift), evidence)))
      && (c.AsRecorded(i) && key in s ==> StepUpload(c.cx, s, here, io) == (s, Judged(c, evidence, i, s[key].Meta())))
      && (c.AsRecorded(i) && key !in s ==>
            && StepUpload(c.cx, s, here, io) == (s, there)
            && StepUpload(c.cx, s, there, io) == (stored, Judged(c, evidence, i, stored[key].Meta())))
  {
    WireKeyIs(c.job, c.attempt, c.artifacts[i].role);
    hide WireKey, ValidIdentifier, RoleKey;
  }

  lemma LeftJudged(c: Case, s: Store, evidence: seq<RemoteArtifact>, i: nat, put: Io)
    requires i < |c.artifacts| && c.AsRecorded(i) && (ValidIdentifier(put.version) <==> c.named)
    requires c.Stocked(s, i) && c.Told(s, evidence, i) && forall j | 0 <= j < i :: c.Sound(j)
    ensures var after := Supplied(c, s, i, put);
      && c.Key(i) in after
      && var v := Judged(c, evidence, i, after[c.Key(i)].Meta());
         && (!c.Sound(i) ==> v == c.Machine(UploadRaised(c.Error(i)), evidence))
         && (c.Sound(i) ==> v.phase == HeadArtifact(i + 1) && c.Told(after, v.evidence, i + 1))
  {
    HeadFinds(c, s, i);
    hide WireKey, ValidIdentifier, Case.Stocked, Case.Agrees, Extends;
    if c.Sound(i) { ToldMore(c, s, Supplied(c, s, i, put), evidence, i); }
    hide Case.Told;
  }

  lemma ToldMore(c: Case, s: Store, after: Store, evidence: seq<RemoteArtifact>, i: nat)
    requires i < |c.artifacts| && c.Told(s, evidence, i) && Extends(s, after) && c.Key(i) in after
    ensures c.Told(after, evidence + [Entry(c, i, after[c.Key(i)].version)], i + 1)
  {
    hide WireKey;
  }

  /** One artifact: it is recorded, or the upload raises what is wrong with it. */
  lemma UploadOne(c: Case, s: Store, evidence: seq<RemoteArtifact>, i: nat, io: nat -> Io, n: nat)
    returns (after: Store, more: seq<RemoteArtifact>, next: nat)
    requires Faultless(io, c.named) && i < |c.artifacts|
    requires c.Stocked(s, i) && c.Told(s, evidence, i) && forall j | 0 <= j < i :: c.Sound(j)
    ensures c.Stocked(after, if c.AsRecorded(i) && c.Agrees(i) then i + 1 else i)
    ensures !c.Sound(i) ==>
      RunUpload(c.cx, s, c.Machine(HeadArtifact(i), evidence), io, n) == (after, c.Machine(UploadRaised(c.Error(i)), evidence))
    ensures c.Sound(i) ==>
      && c.Told(after, more, i + 1)
      && RunUpload(c.cx, s, c.Machine(HeadArtifact(i), evidence), io, n)
         == RunUpload(c.cx, after, c.Machine(HeadArtifact(i + 1), more), io, next)
  {
    var here, there, key := c.Machine(HeadArtifact(i), evidence), c.Machine(PutArtifact(i), evidence), c.Key(i);
    assert io(n).fault == Fine && io(n + 1).fault == Fine && (ValidIdentifier(io(n + 1).version) <==> c.named);
    StepsFor(c, s, evidence, i, io(n));
    StepsFor(c, s, evidence, i, io(n + 1));
    after, more := if c.AsRecorded(i) then Supplied(c, s, i, io(n + 1)) else s, evidence;
    next := if c.AsRecorded(i) && key !in s then n + 2 else n + 1;
    if c.AsRecorded(i) {
      LeftJudged(c, s, evidence, i, io(n + 1));
      more := Judged(c, evidence, i, after[key].Meta()).evidence;
      HeadFinds(c, s, i);
      if c.Agrees(i) { Furnished(c, s, i, io(n + 1)); }
    }
    hide StepUpload, Judged, Case.Stocked, Case.Told, Case.Agrees, Faultless, WireKey, ValidIdentifier, Case.Nameable;
    if !c.Sound(i) {
      if c.AsRecorded(i) && key !in s {
        UploadStops(c.cx, s, there, io, n + 1);
      } else {
        UploadStops(c.cx, s, here, io, n);
      }
    }
  }

  /** From the i-th artifact on. */
  lemma {:induction false} UploadFrom(c: Case, s: Store, evidence: seq<RemoteArtifact>, i: nat, io: nat -> Io, n: nat)
    requires Faultless(io, c.named) && i <= |c.artifacts|
    requires c.Stocked(s, i) && c.Told(s, evidence, i) && forall j | 0 <= j < i :: c.Sound(j)
    ensures var (after, v) := RunUpload(c.cx, s, c.Machine(HeadArtifact(i), evidence), io, n);
      && ((forall j | 0 <= j < |c.artifacts| :: c.Sound(j)) ==>
            v.phase == Uploaded && c.Stocked(after, |c.artifacts|) && c.Told(after, v.evidence, |c.artifacts|))
      && forall k: nat | c.FailsAt(k) ::
           v.phase == UploadRaised(c.Error(k)) && c.Stocked(after, if c.AsRecorded(k) && c.Agrees(k) then k + 1 else k)
    decreases |c.artifacts| - i
  {
    hide Case.Stocked, Case.Told, Case.Sound, Case.Agrees, Case.AsRecorded, Case.Error, StepUpload, Faultless;
    if i == |c.artifacts| {
      AllUploaded(c, s, evidence, io, n);
    } else {
      var after, more, next := UploadOne(c, s, evidence, i, io, n);
      if c.Sound(i) {
        assert c.Stocked(after, i + 1) by { SoundParts(c, i); }
        UploadFrom(c, after, more, i + 1, io, next);
      }
    }
  }

  lemma SoundParts(c: Case, i: nat)
    requires i < |c.artifacts| && c.Sound(i)
    ensures c.AsRecorded(i) && c.Agrees(i)
  {
  }

  lemma AllUploaded(c: Case, s: Store, evidence: seq<RemoteArtifact>, io: nat -> Io, n: nat)
    ensures RunUpload(c.cx, s, c.Machine(HeadArtifact(|c.artifacts|), evidence), io, n) == (s, c.Machine(Uploaded, evidence))
  {
    UploadStops(c.cx, s, c.Machine(HeadArtifact(|c.artifacts|), evidence), io, n);
  }

  /** How a faultless upload ends, and when: refused at once unless every role is brought;
      otherwise it returns, with one evidence entry an artifact and just the missing objects
      stored, exactly when every artifact is as recorded, not empty, agrees with what is stored
      for its role, and gets an identifier as its version; else it raises what is wrong with the
      first artifact that is not. */
  lemma UploadEndsExactly(c: Case, io: nat -> Io)
    requires Faultless(io, c.named)
    ensures var (after, v) := RunUpload(c.cx, c.store, c.Machine(Begin, []), io, 0);
      && (v.phase == Uploaded <==> (forall r :: c.Brings(r)) && forall j | 0 <= j < |c.artifacts| :: c.Sound(j))
      && (v.phase == Uploaded ==> c.Stocked(after, |c.artifacts|) && c.Told(after, v.evidence, |c.artifacts|))
      && (v.phase == UploadRaised(SetIncomplete) <==> !forall r :: c.Brings(r))
      && (v.phase == UploadRaised(SetIncomplete) ==> after == c.store)
      && forall k: nat | (forall r :: c.Brings(r)) && c.FailsAt(k) ::
           v.phase == UploadRaised(c.Error(k)) && c.Stocked(after, if c.AsRecorded(k) && c.Agrees(k) then k + 1 else k)
  {
    RolesBrought(c);
    hide Case.Stocked, Case.Told, Case.Sound, Case.Error, Faultless, Case.Brings, Case.Agrees, Case.AsRecorded;
    if forall r :: c.Brings(r) {
      NothingYet(c);
      UploadFrom(c, c.store, [], 0, io, 1);
      if !forall j | 0 <= j < |c.artifacts| :: c.Sound(j) {
        var k := FirstUnsound(c);
        assert c.Error(k) != SetIncomplete by { ErrorIsLater(c, k); }
      }
    } else {
      UploadStops(c.cx, c.store, c.Machine(Begin, []), io, 0);
    }
  }

  lemma ErrorIsLater(c: Case, k: nat)
    requires k < |c.artifacts| && !c.Sound(k)
    ensures c.Error(k) != SetIncomplete
  {
  }

  lemma FirstUnsound(c: Case) returns (k: nat)
    requires !forall j | 0 <= j < |c.artifacts| :: c.Sound(j)
    ensures c.FailsAt(k)
  {
    hide Case.Sound;
    k := 0;
    while c.Sound(k)
      invariant k < |c.artifacts| && forall j | 0 <= j < k :: c.Sound(j)
      decreases |c.artifacts| - k
    {
      k := k + 1;
    }
  }

  lemma NothingYet(c: Case)
    ensures c.Stocked(c.store, 0) && c.Told(c.store, [], 0)
  {
  }

  lemma RolesBrought(c: Case)
    ensures (set a | a in c.artifacts :: a.role) == ROLES <==> forall r :: c.Brings(r)
  {
    var found := set a | a in c.artifacts :: a.role;
    forall r: Role ensures r in found <==> c.Brings(r) {
      if r in found {
        var a :| a in c.artifacts && a.role == r;
        var i :| 0 <= i < |c.artifacts| && c.artifacts[i] == a;
      }
      if c.Brings(r) {
        var i :| 0 <= i < |c.artifacts| && c.artifacts[i].role == r;
        assert c.artifacts[i] in c.artifacts;
      }
    }
  }
}
