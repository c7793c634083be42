/** What one submit left alone comes to: the service does answer, and when. */
module SubmitRuns {
  import opened Prelude
  import opened Keys
  import opened Results
  import opened ResultLaws
  import opened UploadLaws
  import opened Submission

  lemma {:induction false} Extend(cx: Codec, id: Identify, s: State, actions: seq<Action>, t: State, a: Action)
    requires id.Hexadecimal() && Runs(cx, id, s, actions, t) && Enabled(id, t, a)
    ensures Runs(cx, id, s, actions + [a], Apply(cx, id, t, a))
    decreases |actions|
  {
    hide Apply, Enabled, HexDigest;
    if actions == [] {
      assert ([a] + [])[1..] == [] && actions + [a] == [a];
      assert Runs(cx, id, Apply(cx, id, t, a), [], Apply(cx, id, t, a));
    } else {
      assert (actions + [a])[1..] == actions[1..] + [a];
      Extend(cx, id, Apply(cx, id, s, actions[0]), actions[1..], t, a);
    }
  }

  /** The upload of a submit, call by call. */
  lemma UploadingRun(cx: Codec, id: Identify, s: State, actions: seq<Action>, t: State, i: nat, io: nat -> Io)
    returns (longer: seq<Action>, u: State)
    requires id.Hexadecimal() && Runs(cx, id, s, actions, t) && i < |t.submits|
    requires t.submits[i].phase.Uploading? && !t.submits[i].phase.u.Done()
    ensures Runs(cx, id, s, longer, u)
    ensures var (after, v) := RunUpload(cx, t.store, t.submits[i].phase.u, io, 0);
      u == if v.phase.UploadRaised? then Leave(t.(store := after), i, Failed) else Stay(t.(store := after), i, Uploading(v))
  {
    hide HexDigest, Runs, StepUpload, RunUpload;
    longer, u := actions, t;
    var n: nat, up := 0, t.submits[i].phase.u;
    while !up.Done()
      invariant Runs(cx, id, s, longer, u)
      invariant RunUpload(cx, t.store, t.submits[i].phase.u, io, 0) == RunUpload(cx, u.store, up, io, n)
      invariant u == if up.phase.UploadRaised? then Leave(t.(store := u.store), i, Failed) else Stay(t.(store := u.store), i, Uploading(up))
      decreases up.Rank()
    {
      var a := StepUploading(i, io(n));
      UploadRankFalls(cx, u.store, up, io(n));
      UploadUnfolds(cx, u.store, up, io, n);
      Extend(cx, id, s, longer, u, a);
      up := StepUpload(cx, u.store, up, io(n)).1;
      longer, u := longer + [a], Apply(cx, id, u, a);
      n := n + 1;
    }
    UploadUnfolds(cx, u.store, up, io, n);
    DoneExactly(cx, u.store, up);
  }

  lemma UploadUnfolds(cx: Codec, store: Store, u: Uploader, io: nat -> Io, n: nat)
    ensures RunUpload(cx, store, u, io, n)
            == if u.Done() then (store, u)
               else RunUpload(cx, StepUpload(cx, store, u, io(n)).0, StepUpload(cx, store, u, io(n)).1, io, n + 1)
  {
    hide StepUpload;
    if !u.Done() { UploadRankFalls(cx, store, u, io(n)); }
  }

  lemma DoneExactly(cx: Codec, store: Store, u: Uploader)
    requires u.Done()
    ensures u.phase == Uploaded || u.phase.UploadRaised?
  {
  }

  /** Its commit, call by call. */
  lemma CommittingRun(cx: Codec, id: Identify, s: State, actions: seq<Action>, t: State, i: nat, io: nat -> Io)
    returns (longer: seq<Action>, u: State)
    requires id.Hexadecimal() && Runs(cx, id, s, actions, t) && i < |t.submits|
    requires t.submits[i].phase.Committing? && !t.submits[i].phase.c.phase.Finished?
    ensures Runs(cx, id, s, longer, u)
    ensures var (after, outcome) := RunCommit(cx, t.store, t.submits[i].phase.c, io, 0);
      var request := t.submits[i].request;
      u == Leave(t.(store := after), i, if outcome.Raised? then Failed
                                       else Answered(id.Ids(request).0, id.CommitKey(request), outcome.created))
  {
    hide HexDigest, Runs, StepCommit, RunCommit, Identity, MarkerKey;
    longer, u := actions, t;
    var n: nat, c, request := 0, t.submits[i].phase.c, t.submits[i].request;
    while !c.phase.Finished?
      invariant Runs(cx, id, s, longer, u)
      invariant RunCommit(cx, t.store, t.submits[i].phase.c, io, 0) == RunCommit(cx, u.store, c, io, n)
      invariant !c.phase.Finished? ==> u == Stay(t.(store := u.store), i, Committing(c))
      invariant c.phase.Finished? ==>
        u == Leave(t.(store := u.store), i, if c.phase.outcome.Raised? then Failed
                                            else Answered(id.Ids(request).0, id.CommitKey(request), c.phase.outcome.created))
      decreases c.Rank()
    {
      var a := StepCommitting(i, io(n));
      CommitUnfolds(cx, u.store, c, io, n);
      Extend(cx, id, s, longer, u, a);
      c := StepCommit(cx, u.store, c, io(n)).1;
      longer, u := longer + [a], Apply(cx, id, u, a);
      n := n + 1;
    }
    CommitUnfolds(cx, u.store, c, io, n);
  }

  lemma CommitUnfolds(cx: Codec, store: Store, c: Committer, io: nat -> Io, n: nat)
    ensures RunCommit(cx, store, c, io, n)
            == if c.phase.Finished? then (store, c.phase.outcome)
               else RunCommit(cx, StepCommit(cx, store, c, io(n)).0, StepCommit(cx, store, c, io(n)).1, io, n + 1)
    ensures !c.phase.Finished? ==> StepCommit(cx, store, c, io(n)).1.Rank() < c.Rank()
  {
    hide Manifest.CommitKey;
  }

  /** Everything the upload of a submit needs. */
  ghost predicate Ready(c: Case) {
    (forall r :: c.Brings(r)) && forall j | 0 <= j < |c.artifacts| :: c.Sound(j)
  }

  /** The case of request `r` over the store of `s`, and its submit's number once it arrives. */
  ghost predicate IsCase(c: Case, cx: Codec, id: Identify, s: State, r: string)
    requires id.Hexadecimal()
  {
    c.cx == cx && c.store == s.store && (c.job, c.attempt) == id.Ids(r)
  }

  /** A submit that arrives alone and gets its lock heads the marker; the run so far. */
  lemma Headed(cx: Codec, id: Identify, s: State, r: string, io: Io) returns (actions: seq<Action>, t: State)
    requires id.Hexadecimal() && r !in s.locks && io.fault == Fine
    ensures Runs(cx, id, s, actions, t)
    ensures var i, key := |s.submits|, id.CommitKey(r);
      && t.store == s.store
      && t.submits == s.submits + [Submit(r, if key in s.store then Answered(id.Ids(r).0, key, false) else Generating)]
      && t.locks == if key in s.store then s.locks else s.locks[r := i]
  {
    hide HexDigest, Identity, MarkerKey, Runs;
    var i := |s.submits|;
    NoSteps(cx, id, s);
    Extend(cx, id, s, [], s, Arrive(r));
    actions, t := [] + [Arrive(r)], Apply(cx, id, s, Arrive(r));
    Extend(cx, id, s, actions, t, Acquire(i));
    actions, t := actions + [Acquire(i)], Apply(cx, id, t, Acquire(i));
    Extend(cx, id, s, actions, t, Head(i, io));
    actions, t := actions + [Head(i, io)], Apply(cx, id, t, Head(i, io));
    assert s.locks[r := i] - {r} == s.locks;
  }

  lemma NoSteps(cx: Codec, id: Identify, s: State)
    requires id.Hexadecimal()
    ensures Runs(cx, id, s, [], s)
  {
  }

  /** Evidence of a finished upload holds in its store, and the marker is not among its keys. */
  lemma EvidenceHolds(c: Case, after: Store, evidence: seq<RemoteArtifact>)
    requires c.Stocked(after, |c.artifacts|) && c.Told(after, evidence, |c.artifacts|)
    requires forall j | 0 <= j < |c.artifacts| :: c.Sound(j)
    ensures AllHold(after, evidence)
  {
    hide WireKey;
    forall j | 0 <= j < |evidence| ensures ArtifactHolds(after, evidence[j]) {
      assert c.Sound(j);
      if c.Key(j) in c.store { assert after[c.Key(j)] == c.store[c.Key(j)]; }
    }
  }

  lemma NoRoleIsMarker(job: string, attempt: string, role: Role)
    ensures WireKey(job, attempt, role) != MarkerKey(Namespace(job, attempt))
  {
    WireKeyIs(job, attempt, role);
    var n := |Namespace(job, attempt)|;
    assert MarkerKey(Namespace(job, attempt))[n] == 'r' && RoleKey(job, attempt, role)[n] == RoleName(role)[0];
  }

  lemma MarkerStaysAbsent(c: Case, after: Store, n: nat)
    requires n <= |c.artifacts| && c.Stocked(after, n) && MarkerKey(Namespace(c.job, c.attempt)) !in c.store
    ensures MarkerKey(Namespace(c.job, c.attempt)) !in after
  {
    forall j | 0 <= j < n ensures c.Key(j) != MarkerKey(Namespace(c.job, c.attempt)) {
      NoRoleIsMarker(c.job, c.attempt, c.artifacts[j].role);
    }
  }

  /** The upload of a case, before any commit: finished exactly when the case is fit, and without
      a trace of the marker. */
  lemma UploadSettles(c: Case, io: nat -> Io)
    requires Faultless(io, c.named) && MarkerKey(Namespace(c.job, c.attempt)) !in c.store
    ensures var (after, v) := RunUpload(c.cx, c.store, c.Machine(Begin, []), io, 0);
      && Extends(c.store, after) && MarkerKey(Namespace(c.job, c.attempt)) !in after
      && (v.phase == Uploaded || v.phase.UploadRaised?) && (v.phase == Uploaded <==> Ready(c))
      && (Ready(c) ==> c.Stocked(after, |c.artifacts|) && c.Told(after, v.evidence, |c.artifacts|) && AllHold(after, v.evidence))
  {
    hide RunUpload, Case.Sound, Case.Brings, Case.Stocked, Case.Told, AllHold, Faultless, MarkerKey, Case.AsRecorded, Case.Agrees;
    UploadEndsExactly(c, io);
    UploadVerified(c.cx, c.store, c.Machine(Begin, []), io, 0);
    var (after, v) := RunUpload(c.cx, c.store, c.Machine(Begin, []), io, 0);
    if Ready(c) {
      EvidenceHolds(c, after, v.evidence);
      MarkerStaysAbsent(c, after, |c.artifacts|);
    } else if forall r :: c.Brings(r) {
      var k := FirstUnsound(c);
      MarkerStaysAbsent(c, after, if c.AsRecorded(k) && c.Agrees(k) then k + 1 else k);
    }
    DoneExactly(c.cx, after, v);
  }

  /** Its commit makes the marker. */
  lemma CommitSettles(cx: Codec, store: Store, m: Manifest, io: nat -> Io)
    requires m.CommitKey() !in store && AllHold(store, m.artifacts) && forall j :: io(j).fault == Fine
    ensures var (after, outcome) := RunCommit(cx, store, Committer(m, CheckMarker), io, 0);
      && outcome == CommitOutcome.Returned(true) && Extends(store, after) && m.CommitKey() in after
      && after[m.CommitKey()].content == cx.canon(m) && after - {m.CommitKey()} == store
  {
    hide Manifest.CommitKey, RunCommit;
    CommitExact(cx, store, m, io);
    CommitIsAllOrNothing(cx, store, Committer(m, CheckMarker), io, 0);
  }

  /** The commit key of a request, letter by letter. */
  lemma CommitKeyIs(id: Identify, r: string)
    requires id.Hexadecimal()
    ensures id.CommitKey(r) == "outputs/" + id.Ids(r).0 + "/" + id.Ids(r).1 + "/" + "result.json"
    ensures id.Ids(r) == ("job-" + id.digest(r)[..32], "attempt-" + id.digest(r)[32..])
  {
  }

  /** What one submit left alone comes to, from every state in which its lock is free. A stored
      marker answers it, and nothing is stored. Else, with artifacts that are all fit for upload,
      it answers with the marker it made: the canonical bytes of a manifest over the evidence of
      what is then stored. Else it fails and makes no marker. It lets its lock go in any case. */
  lemma LoneSubmit(cx: Codec, id: Identify, s: State, r: string, c: Case, base: Manifest, io: nat -> Io)
    returns (actions: seq<Action>, t: State, m: Manifest)
    requires id.Hexadecimal() && r !in s.locks && Faultless(io, c.named) && IsCase(c, cx, id, s, r)
    ensures Runs(cx, id, s, actions, t)
    ensures |t.submits| == |s.submits| + 1 && t.submits[..|s.submits|] == s.submits && t.locks == s.locks
    ensures var key, last := id.CommitKey(r), t.submits[|s.submits|];
      && last.request == r && Extends(s.store, t.store)
      && (key in s.store ==> last.phase == Answered(c.job, key, false) && t.store == s.store)
      && (key !in s.store && Ready(c) ==>
            && last.phase == Answered(c.job, key, true)
            && m == base.(job := c.job, attempt := c.attempt, artifacts := m.artifacts)
            && key in t.store && t.store[key].content == cx.canon(m)
            && c.Stocked(t.store - {key}, |c.artifacts|) && c.Told(t.store - {key}, m.artifacts, |c.artifacts|))
      && (key !in s.store && !Ready(c) ==> last.phase == Failed && key !in t.store)
  {
    hide HexDigest, Identity, MarkerKey, Runs, RunUpload, RunCommit, Case.Sound, Case.Brings, Faultless, Case.Stocked,
         Case.Told, Ready, Extends, Manifest.CommitKey, AllHold;
    var i, key := |s.submits|, id.CommitKey(r);
    m := base;
    ExtendsThrough(s.store, s.store, s.store);
    OwnCommitKey(id, r, base.(job := c.job, attempt := c.attempt));
    assert io(0).fault == Fine by { FaultlessFirst(io, c.named); }
    actions, t := Headed(cx, id, s, r, io(0));
    if key !in s.store {
      var a := Generated(i, c.artifacts);
      Extend(cx, id, s, actions, t, a);
      actions, t := actions + [a], Apply(cx, id, t, a);
      assert t.submits[i].phase.u == c.Machine(Begin, []);
      UploadSettles(c, io);
      actions, t := UploadingRun(cx, id, s, actions, t, i, io);
      if Ready(c) {
        m := base.(job := c.job, attempt := c.attempt, artifacts := t.submits[i].phase.u.evidence);
        ghost var before := t.store;
        var b := Assemble(i, m);
        Extend(cx, id, s, actions, t, b);
        actions, t := actions + [b], Apply(cx, id, t, b);
        assert m.CommitKey() == key by { OwnCommitKey(id, r, m); }
        FaultlessFirst(io, c.named);
        CommitSettles(cx, before, m, io);
        actions, t := CommittingRun(cx, id, s, actions, t, i, io);
        ExtendsThrough(s.store, before, t.store);
      }
      assert s.locks[r := i] - {r} == s.locks;
    }
  }

  lemma ExtendsThrough(a: Store, b: Store, c: Store)
    ensures Extends(a, a)
    ensures Extends(a, b) && Extends(b, c) ==> Extends(a, c)
  {
  }

  lemma OwnCommitKey(id: Identify, r: string, m: Manifest)
    requires id.Hexadecimal() && (m.job, m.attempt) == id.Ids(r)
    ensures m.CommitKey() == id.CommitKey(r) == MarkerKey(Namespace(m.job, m.attempt))
  {
  }

  lemma FaultlessFirst(io: nat -> Io, named: bool)
    requires Faultless(io, named)
    ensures io(0).fault == Fine && forall j :: io(j).fault == Fine
  {
  }
}
