/** Concurrent submissions of one process: a lock a request, then execute or converge.

    Other processes may add objects at any moment (`Outside`); nothing is deleted. */
module Submission {
  import opened Prelude
  import opened Keys
  import opened Results
  import opened ResultLaws

  /** `request` is the canonical request hash, the key of the process's lock table. */
  datatype Submit = Submit(request: string, phase: Phase)

  datatype Phase =
    | Waiting
    | Heading
    | Generating
    | Uploading(u: Uploader)
    | Committing(c: Committer)
    | Answered(job: string, commitKey: string, created: bool)
    | Failed
  {
    /** Inside the request's critical section. */
    predicate Holding() {
      Heading? || Executing()
    }

    /** Past the marker check: generating, uploading or committing. */
    predicate Executing() {
      Generating? || Uploading? || Committing?
    }
  }

  datatype State = State(store: Store, submits: seq<Submit>, locks: map<string, nat>)

  /** Hash of principal and request, a library function with hexadecimal digests. */
  datatype Identify = Identify(digest: string -> string) {
    ghost predicate Hexadecimal() {
      forall r :: HexDigest(digest(r))
    }

    function Ids(request: string): (string, string)
      requires HexDigest(digest(request))
    {
      Identity(digest(request))
    }

    function CommitKey(request: string): string
      requires HexDigest(digest(request))
    {
      MarkerKey(Namespace(Ids(request).0, Ids(request).1))
    }
  }

  datatype Action =
    | Arrive(request: string)
    | Acquire(i: nat)
    | Head(i: nat, io: Io)
    | Generated(i: nat, artifacts: seq<LocalArtifact>)
    | StepUploading(i: nat, io: Io)
    | Assemble(i: nat, manifest: Manifest)
    | StepCommitting(i: nat, io: Io)
    | Cancel(i: nat)
    | Outside(store: Store)

  ghost predicate Enabled(id: Identify, s: State, a: Action)
    requires id.Hexadecimal()
  {
    match a
    case Arrive(_) => true
    case Acquire(i) => i < |s.submits| && s.submits[i].phase.Waiting? && s.submits[i].request !in s.locks
    case Head(i, _) => i < |s.submits| && s.submits[i].phase.Heading?
    case Generated(i, _) => i < |s.submits| && s.submits[i].phase.Generating?
    case StepUploading(i, _) => i < |s.submits| && s.submits[i].phase.Uploading? && !s.submits[i].phase.u.Done()
    case Assemble(i, m) =>
      && i < |s.submits| && s.submits[i].phase.Uploading? && s.submits[i].phase.u.phase.Uploaded?
      && m.artifacts == s.submits[i].phase.u.evidence
      && (m.job, m.attempt) == id.Ids(s.submits[i].request)
    case StepCommitting(i, _) => i < |s.submits| && s.submits[i].phase.Committing?
    case Cancel(i) => i < |s.submits| && !s.submits[i].phase.Answered? && !s.submits[i].phase.Failed?
    case Outside(store) => Extends(s.store, store)
  }

  /** Leave the critical section with an outcome. */
  function Leave(s: State, i: nat, outcome: Phase): State
    requires i < |s.submits|
  {
    s.(submits := s.submits[i := s.submits[i].(phase := outcome)],
       locks := if s.submits[i].phase.Holding() then s.locks - {s.submits[i].request} else s.locks)
  }

  function Stay(s: State, i: nat, phase: Phase): State
    requires i < |s.submits|
  {
    s.(submits := s.submits[i := s.submits[i].(phase := phase)])
  }

  ghost function Apply(cx: Codec, id: Identify, s: State, a: Action): State
    requires id.Hexadecimal() && Enabled(id, s, a)
  {
    match a
    case Arrive(request) => s.(submits := s.submits + [Submit(request, Waiting)])
    case Acquire(i) => Stay(s, i, Heading).(locks := s.locks[s.submits[i].request := i])
    case Head(i, io) =>
      var request := s.submits[i].request;
      if io.fault != Fine then Leave(s, i, Failed)
      else if id.CommitKey(request) in s.store
      then Leave(s, i, Answered(id.Ids(request).0, id.CommitKey(request), false))
      else Stay(s, i, Generating)
    case Generated(i, artifacts) =>
      var (job, attempt) := id.Ids(s.submits[i].request);
      Stay(s, i, Uploading(Uploader(job, attempt, artifacts, Begin, [])))
    case StepUploading(i, io) =>
      var (store, u) := StepUpload(cx, s.store, s.submits[i].phase.u, io);
      var t := s.(store := store);
      if u.phase.UploadRaised? then Leave(t, i, Failed) else Stay(t, i, Uploading(u))
    case Assemble(i, m) => Stay(s, i, Committing(Committer(m, CheckMarker)))
    case StepCommitting(i, io) =>
      var (store, c) := StepCommit(cx, s.store, s.submits[i].phase.c, io);
      var t, request := s.(store := store), s.submits[i].request;
      if !c.phase.Finished? then Stay(t, i, Committing(c))
      else if c.phase.outcome.Raised? then Leave(t, i, Failed)
      else Leave(t, i, Answered(id.Ids(request).0, id.CommitKey(request), c.phase.outcome.created))
    case Cancel(i) => Leave(s, i, Failed)
    case Outside(store) => s.(store := store)
  }

  // ------------------------------------------------------------- invariant

  ghost predicate Locked(s: State) {
    && (forall i | 0 <= i < |s.submits| && s.submits[i].phase.Holding() ::
          s.submits[i].request in s.locks && s.locks[s.submits[i].request] == i)
    && (forall r | r in s.locks :: s.locks[r] < |s.submits| && s.submits[s.locks[r]].request == r
                                   && s.submits[s.locks[r]].phase.Holding())
  }

  /** A committer works on its own request's key, and an unfinished one. */
  ghost predicate OwnKey(id: Identify, s: State)
    requires id.Hexadecimal()
  {
    forall i | 0 <= i < |s.submits| && s.submits[i].phase.Committing? ::
      && s.submits[i].phase.c.manifest.CommitKey() == id.CommitKey(s.submits[i].request)
      && !s.submits[i].phase.c.phase.Finished?
  }

  ghost predicate AnswersStand(id: Identify, s: State)
    requires id.Hexadecimal()
  {
    forall i | 0 <= i < |s.submits| && s.submits[i].phase.Answered? ::
      && s.submits[i].phase.job == id.Ids(s.submits[i].request).0
      && s.submits[i].phase.commitKey == id.CommitKey(s.submits[i].request)
      && s.submits[i].phase.commitKey in s.store
  }

  ghost predicate OneCreator(s: State) {
    forall i, j | 0 <= i < j < |s.submits| && s.submits[i].phase.Answered? && s.submits[j].phase.Answered?
                  && s.submits[i].phase.created && s.submits[j].phase.created ::
      s.submits[i].phase.commitKey != s.submits[j].phase.commitKey
  }

  ghost predicate Inv(id: Identify, s: State)
    requires id.Hexadecimal()
  {
    Locked(s) && OwnKey(id, s) && AnswersStand(id, s) && OneCreator(s)
  }

  lemma UploadExtends(cx: Codec, store: Store, u: Uploader, io: Io)
    ensures Extends(store, StepUpload(cx, store, u, io).0)
  {
    hide RoleKey, ValidIdentifier;
  }

  lemma CommitExtends(cx: Codec, store: Store, c: Committer, io: Io)
    requires !c.phase.Finished?
    ensures var (after, d) := StepCommit(cx, store, c, io);
      && Extends(store, after) && d.manifest == c.manifest
      && (d.phase.Finished? && d.phase.outcome.Returned? ==> c.manifest.CommitKey() in after)
      && (d.phase == Finished(Returned(true)) ==> c.manifest.CommitKey() !in store)
  {
    hide Manifest.CommitKey;
  }

  lemma AnswersOutlive(id: Identify, s: State, store: Store)
    requires id.Hexadecimal() && Inv(id, s) && Extends(s.store, store)
    ensures Inv(id, s.(store := store))
  {
    hide HexDigest, Identity, MarkerKey, Manifest.CommitKey;
  }

  lemma StayKeeps(id: Identify, s: State, i: nat, phase: Phase)
    requires id.Hexadecimal() && Inv(id, s) && i < |s.submits|
    requires s.submits[i].phase.Holding() && phase.Holding()
    requires phase.Committing? ==> phase.c.manifest.CommitKey() == id.CommitKey(s.submits[i].request)
                                   && !phase.c.phase.Finished?
    ensures Inv(id, Stay(s, i, phase))
  {
    hide HexDigest, Identity, MarkerKey, Manifest.CommitKey;
  }

  lemma FailKeeps(id: Identify, s: State, i: nat)
    requires id.Hexadecimal() && Inv(id, s) && i < |s.submits| && !s.submits[i].phase.Answered?
    ensures Inv(id, Leave(s, i, Failed))
  {
    hide HexDigest, Identity, MarkerKey, Manifest.CommitKey;
  }

  lemma AnswerKeeps(id: Identify, s: State, before: Store, i: nat, created: bool)
    requires id.Hexadecimal() && Inv(id, s) && i < |s.submits| && s.submits[i].phase.Holding()
    requires id.CommitKey(s.submits[i].request) in s.store
    requires AnswersStand(id, s.(store := before))
    requires created ==> id.CommitKey(s.submits[i].request) !in before
    ensures var request := s.submits[i].request;
      Inv(id, Leave(s, i, Answered(id.Ids(request).0, id.CommitKey(request), created)))
  {
    hide HexDigest, Identity, MarkerKey, Manifest.CommitKey;
  }

  lemma ArriveKeeps(id: Identify, s: State, request: string)
    requires id.Hexadecimal() && Inv(id, s)
    ensures Inv(id, s.(submits := s.submits + [Submit(request, Waiting)]))
  {
    hide HexDigest, Identity, MarkerKey, Manifest.CommitKey;
  }

  lemma AcquireKeeps(cx: Codec, id: Identify, s: State, i: nat)
    requires id.Hexadecimal() && Inv(id, s) && Enabled(id, s, Acquire(i))
    ensures Inv(id, Apply(cx, id, s, Acquire(i)))
  {
    hide HexDigest, Identity, MarkerKey, Manifest.CommitKey;
  }

  lemma StepKeeps(cx: Codec, id: Identify, s: State, a: Action)
    requires id.Hexadecimal() && Inv(id, s) && Enabled(id, s, a)
    ensures Inv(id, Apply(cx, id, s, a))
  {
    match a
    case Arrive(request) =>
      hide Inv, HexDigest, Identity;
      ArriveKeeps(id, s, request);
    case Acquire(i) =>
      hide Inv, HexDigest, Identity;
      AcquireKeeps(cx, id, s, i);
    case Head(i, io) =>
      hide Inv, HexDigest, Identity, MarkerKey, Manifest.CommitKey;
      if io.fault != Fine {
        FailKeeps(id, s, i);
      } else if id.CommitKey(s.submits[i].request) in s.store {
        InvParts(id, s);
        AnswerKeeps(id, s, s.store, i, false);
      } else {
        StayKeeps(id, s, i, Generating);
      }
    case Generated(i, artifacts) =>
      hide Inv, HexDigest, Identity, MarkerKey, Manifest.CommitKey;
      StayKeeps(id, s, i, Apply(cx, id, s, a).submits[i].phase);
    case StepUploading(i, io) =>
      hide Inv, HexDigest, Identity, MarkerKey, Manifest.CommitKey, StepUpload;
      UploadExtends(cx, s.store, s.submits[i].phase.u, io);
      var (store, u) := StepUpload(cx, s.store, s.submits[i].phase.u, io);
      AnswersOutlive(id, s, store);
      if u.phase.UploadRaised? { FailKeeps(id, s.(store := store), i); }
      else { StayKeeps(id, s.(store := store), i, Uploading(u)); }
    case Assemble(i, m) =>
      hide Inv, HexDigest, Identity;
      StayKeeps(id, s, i, Committing(Committer(m, CheckMarker)));
    case StepCommitting(i, io) =>
      hide HexDigest, Identity, MarkerKey, Manifest.CommitKey, StepCommit;
      CommittingKeeps(cx, id, s, i, io);
    case Cancel(i) =>
      hide Inv, HexDigest, Identity;
      FailKeeps(id, s, i);
    case Outside(store) =>
      hide Inv, HexDigest, Identity;
      AnswersOutlive(id, s, store);
  }

  lemma InvParts(id: Identify, s: State)
    requires id.Hexadecimal() && Inv(id, s)
    ensures AnswersStand(id, s) && OwnKey(id, s)
  {
  }

  lemma CommittingKeeps(cx: Codec, id: Identify, s: State, i: nat, io: Io)
    requires id.Hexadecimal() && Inv(id, s) && i < |s.submits| && s.submits[i].phase.Committing?
    ensures Enabled(id, s, StepCommitting(i, io)) && Inv(id, Apply(cx, id, s, StepCommitting(i, io)))
  {
    InvParts(id, s);
    hide Inv, HexDigest, Identity, MarkerKey, Manifest.CommitKey, StepCommit, Locked, OneCreator;
    var (store, c) := StepCommit(cx, s.store, s.submits[i].phase.c, io);
    var t := s.(store := store);
    CommitExtends(cx, s.store, s.submits[i].phase.c, io);
    AnswersOutlive(id, s, store);
    if !c.phase.Finished? {
      StayKeeps(id, t, i, Committing(c));
    } else if c.phase.outcome.Raised? {
      FailKeeps(id, t, i);
    } else {
      assert t.(store := s.store) == s;
      AnswerKeeps(id, t, s.store, i, c.phase.outcome.created);
    }
  }

  // ------------------------------------------------------------------ runs

  ghost predicate Runs(cx: Codec, id: Identify, s: State, actions: seq<Action>, t: State)
    requires id.Hexadecimal()
    decreases |actions|
  {
    if actions == [] then s == t
    else Enabled(id, s, actions[0]) && Runs(cx, id, Apply(cx, id, s, actions[0]), actions[1..], t)
  }

  lemma {:induction false} RunKeeps(cx: Codec, id: Identify, s: State, actions: seq<Action>, t: State)
    requires id.Hexadecimal() && Inv(id, s) && Runs(cx, id, s, actions, t)
    ensures Inv(id, t)
    decreases |actions|
  {
    if actions == [] {
    } else {
      StepKeeps(cx, id, s, actions[0]);
      RunKeeps(cx, id, Apply(cx, id, s, actions[0]), actions[1..], t);
    }
  }

  /** Duplicates converge: whatever fails and whoever else writes, two executions of one
      request never overlap, at most one submit creates any marker, and each submit that
      returns names its request's job and commit key, with the marker stored. */
  lemma DuplicatesConverge(cx: Codec, id: Identify, store: Store, actions: seq<Action>, t: State)
    requires id.Hexadecimal() && Runs(cx, id, State(store, [], map[]), actions, t)
    ensures forall i, j | 0 <= i < j < |t.submits| && t.submits[i].request == t.submits[j].request ::
              !(t.submits[i].phase.Executing() && t.submits[j].phase.Executing())
    ensures forall i, j | 0 <= i < j < |t.submits| && t.submits[i].request == t.submits[j].request
                          && t.submits[i].phase.Answered? && t.submits[j].phase.Answered? ::
              && t.submits[i].phase.job == t.submits[j].phase.job
              && t.submits[i].phase.commitKey == t.submits[j].phase.commitKey
              && t.submits[i].phase.commitKey in t.store
              && !(t.submits[i].phase.created && t.submits[j].phase.created)
    ensures forall i | 0 <= i < |t.submits| && t.submits[i].phase.Answered? ::
              && t.submits[i].phase.job == id.Ids(t.submits[i].request).0
              && t.submits[i].phase.commitKey == id.CommitKey(t.submits[i].request)
              && t.submits[i].phase.commitKey in t.store
  {
    hide HexDigest, Identity, MarkerKey, Manifest.CommitKey, Runs;
    RunKeeps(cx, id, State(store, [], map[]), actions, t);
  }

  // --------------------------------------------------- after the marker is stored

  /** Not executing, and not answered by having made the marker. */
  predicate Settling(phase: Phase) {
    !phase.Executing() && (phase.Answered? ==> !phase.created)
  }

  /** A head that finds the marker answers from the store. */
  lemma StoredMarkerAnswers(cx: Codec, id: Identify, s: State, i: nat, io: Io)
    requires id.Hexadecimal() && i < |s.submits| && s.submits[i].phase.Heading? && io.fault == Fine
    requires id.CommitKey(s.submits[i].request) in s.store
    ensures Enabled(id, s, Head(i, io))
    ensures var t := Apply(cx, id, s, Head(i, io));
      t.submits[i].phase.Answered? && !t.submits[i].phase.created && t.store == s.store
  {
  }

  lemma FinishedCommitStays(cx: Codec, store: Store, c: Committer, io: Io)
    requires c.phase.Finished?
    ensures StepCommit(cx, store, c, io) == (store, c)
  {
  }

  lemma StepExtends(cx: Codec, id: Identify, s: State, a: Action)
    requires id.Hexadecimal() && Enabled(id, s, a)
    ensures Extends(s.store, Apply(cx, id, s, a).store)
    ensures |Apply(cx, id, s, a).submits| >= |s.submits|
    ensures forall i | 0 <= i < |s.submits| :: Apply(cx, id, s, a).submits[i].request == s.submits[i].request
  {
    hide HexDigest, Identity, MarkerKey, Manifest.CommitKey, StepUpload, StepCommit;
    match a
    case StepUploading(i, io) => UploadExtends(cx, s.store, s.submits[i].phase.u, io);
    case StepCommitting(i, io) =>
      if s.submits[i].phase.c.phase.Finished? {
        FinishedCommitStays(cx, s.store, s.submits[i].phase.c, io);
      } else {
        CommitExtends(cx, s.store, s.submits[i].phase.c, io);
      }
    case _ =>
  }

  lemma StepSettles(cx: Codec, id: Identify, s: State, a: Action, r: string)
    requires id.Hexadecimal() && Enabled(id, s, a) && id.CommitKey(r) in s.store
    ensures var t := Apply(cx, id, s, a);
      forall i | 0 <= i < |t.submits| && t.submits[i].request == r
                 && (i < |s.submits| ==> Settling(s.submits[i].phase)) :: Settling(t.submits[i].phase)
  {
    hide HexDigest, Identity, MarkerKey, Manifest.CommitKey, StepUpload, StepCommit, Extends;
    if a.Head? && a.io.fault == Fine && s.submits[a.i].request == r {
      StoredMarkerAnswers(cx, id, s, a.i, a.io);
    }
  }

  /** Once the marker of a request is stored, in every run from there each of its submits that
      is not executing by then, or arrives later, never executes, and never answers by having
      made the marker; the marker stays. */
  lemma {:induction false} MarkerSettlesTheRequest(cx: Codec, id: Identify, s: State, actions: seq<Action>, t: State, r: string)
    requires id.Hexadecimal() && Runs(cx, id, s, actions, t) && id.CommitKey(r) in s.store
    ensures id.CommitKey(r) in t.store && t.store[id.CommitKey(r)] == s.store[id.CommitKey(r)]
    ensures |t.submits| >= |s.submits|
    ensures forall i | 0 <= i < |s.submits| :: t.submits[i].request == s.submits[i].request
    ensures forall i | 0 <= i < |t.submits| && t.submits[i].request == r
                       && (i < |s.submits| ==> Settling(s.submits[i].phase)) :: Settling(t.submits[i].phase)
    decreases |actions|
  {
    hide HexDigest, Identity, MarkerKey, Manifest.CommitKey, Apply, Settling, Enabled;
    if actions == [] {
    } else {
      StepExtends(cx, id, s, actions[0]);
      StepSettles(cx, id, s, actions[0], r);
      MarkerSettlesTheRequest(cx, id, Apply(cx, id, s, actions[0]), actions[1..], t, r);
    }
  }

  /** Requests with different digests never share a commit key. */
  lemma RequestsDoNotCollide(id: Identify, r: string, q: string)
    requires id.Hexadecimal()
    ensures id.CommitKey(r) == id.CommitKey(q) <==> id.digest(r) == id.digest(q)
  {
    IdentityNamespace(id.digest(r), id.digest(q));
    var m, n := Namespace(id.Ids(r).0, id.Ids(r).1), Namespace(id.Ids(q).0, id.Ids(q).1);
    hide Identity, HexDigest, Namespace;
    if id.CommitKey(r) == id.CommitKey(q) {
      assert m + COMMIT_MARKER == n + COMMIT_MARKER;
      assert m == MarkerKey(m)[..|MarkerKey(m)| - |COMMIT_MARKER|];
      assert n == MarkerKey(n)[..|MarkerKey(n)| - |COMMIT_MARKER|];
    }
  }
}
