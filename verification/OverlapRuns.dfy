/** Runs that lose a live commit: each breaks the exclusion in one delete alone, and shows one
    part of the exclusion to be needed. */
module OverlapRuns {
  import opened Prelude
  import opened Text
  import opened Keys
  import opened Policy
  import opened Retention
  import opened Results
  import opened ResultLaws
  import opened Durability

  // ------------------------------------------------------------ one attempt

  const CONTENT: Bytes := [0]

  function Stored(cx: Codec, at: int): Object {
    Object(CONTENT, cx.sha(CONTENT), "v", at)
  }

  function Artifact(cx: Codec, job: string, attempt: string, role: Role): RemoteArtifact {
    RemoteArtifact(role, RoleKey(job, attempt, role), |CONTENT|, cx.sha(CONTENT), "v")
  }

  function Evidence(cx: Codec, job: string, attempt: string): Manifest {
    Manifest(job, attempt, "w", "m", "r", 0,
      [Artifact(cx, job, attempt, Video), Artifact(cx, job, attempt, Workflow), Artifact(cx, job, attempt, Generation)])
  }

  /** The three role objects, the video dated by itself. */
  function Attempted(cx: Codec, job: string, attempt: string, video: int, others: int): Store {
    map[RoleKey(job, attempt, Video) := Stored(cx, video),
        RoleKey(job, attempt, Workflow) := Stored(cx, others),
        RoleKey(job, attempt, Generation) := Stored(cx, others)]
  }

  lemma RoleKeys(job: string, attempt: string, role: Role)
    requires SlashFree(job) && SlashFree(attempt)
    ensures var p, k := Namespace(job, attempt), RoleKey(job, attempt, role);
      IsNamespace(p) && p <= k && OUTPUT_PREFIX <= k && AttemptPrefix(k) == Some(p) && k != MarkerKey(p)
  {
    var p, k := Namespace(job, attempt), RoleKey(job, attempt, role);
    assert IsNamespace(p);
    assert p <= k && OUTPUT_PREFIX <= p;
    AttemptPrefixExact(k, p);
    RoleKeyIsNoMarker(job, attempt, role, p);
  }

  lemma RoleKeysDiffer(job: string, attempt: string)
    ensures RoleKey(job, attempt, Video) != RoleKey(job, attempt, Workflow)
    ensures RoleKey(job, attempt, Video) != RoleKey(job, attempt, Generation)
    ensures RoleKey(job, attempt, Workflow) != RoleKey(job, attempt, Generation)
  {
    var n := |Namespace(job, attempt)|;
    assert RoleKey(job, attempt, Video)[n] == 'v';
    assert RoleKey(job, attempt, Workflow)[n] == 'w';
    assert RoleKey(job, attempt, Generation)[n] == 'g';
  }

  lemma EvidenceIsWellFormed(cx: Codec, job: string, attempt: string)
    requires SlashFree(job) && SlashFree(attempt)
    ensures Evidence(cx, job, attempt).WellFormed()
  {
    hide RoleKey, SlashFree, AttemptPrefix;
    var m := Evidence(cx, job, attempt);
    assert m.artifacts[0].role == Video && m.artifacts[1].role == Workflow && m.artifacts[2].role == Generation;
    forall a | a in m.artifacts ensures m.Prefix() <= a.key { RoleKeys(job, attempt, a.role); }
    assert |ROLES| == 3 by { assert ROLES == {Video, Workflow} + {Generation}; }
  }

  lemma AttemptMembers(cx: Codec, job: string, attempt: string, video: int, others: int)
    requires SlashFree(job) && SlashFree(attempt) && video <= others
    ensures var store, p := Attempted(cx, job, attempt, video, others), Namespace(job, attempt);
      && Members(Listing(store), p) == store.Keys && Listing(store).Keys == store.Keys
      && Prefixes(Listing(store)) == {p} && Oldest(Listing(store), p) == video
      && MarkerKey(p) !in store && AllHold(store, Evidence(cx, job, attempt).artifacts)
  {
    hide RoleKey, SlashFree, AttemptPrefix, Namespace, MarkerKey;
    var store, p := Attempted(cx, job, attempt, video, others), Namespace(job, attempt);
    RoleKeys(job, attempt, Video);
    RoleKeys(job, attempt, Workflow);
    RoleKeys(job, attempt, Generation);
    RoleKeysDiffer(job, attempt);
    assert RoleKey(job, attempt, Video) in Members(Listing(store), p);
    assert IsOldest(Listing(store), Members(Listing(store), p), video);
  }

  // -------------------------------------------------------------------- runs

  /** One more step of a run. */
  lemma {:induction false} Extend(cx: Codec, policy: LifecyclePolicy, s: State, actions: seq<Action>, t: State, a: Action)
    requires Valid(policy) && Runs(cx, policy, s, actions, t) && Enabled(policy, t, a)
    ensures Runs(cx, policy, s, actions + [a], Apply(cx, t, a))
    ensures Disjoint(cx, policy, s, actions) && Exclusive(t, a) ==> Disjoint(cx, policy, s, actions + [a])
    decreases |actions|
  {
    hide Valid, Exclusive, Apply, MayDelete, Prefixes, Manifest.WellFormed;
    if actions == [] {
      assert ([a] + [])[1..] == [] && actions + [a] == [a];
      assert Runs(cx, policy, Apply(cx, t, a), [], Apply(cx, t, a));
    } else {
      assert (actions + [a])[1..] == actions[1..] + [a];
      Extend(cx, policy, Apply(cx, s, actions[0]), actions[1..], t, a);
    }
  }

  /** A commit run as far as its put: the marker is absent and the evidence holds. */
  lemma CommitAsFarAsPut(cx: Codec, policy: LifecyclePolicy, s: State, actions: seq<Action>, t: State, m: Manifest)
    returns (longer: seq<Action>, u: State)
    requires Valid(policy) && Runs(cx, policy, s, actions, t) && Disjoint(cx, policy, s, actions)
    requires t.committers == [] && m.WellFormed() && |m.artifacts| == 3
    requires m.CommitKey() !in t.store && AllHold(t.store, m.artifacts)
    ensures Runs(cx, policy, s, longer, u) && Disjoint(cx, policy, s, longer)
    ensures u == t.(step := t.step + 5, committers := [Committer(m, PutMarker)])
  {
    hide Valid, Manifest.WellFormed, Manifest.CommitKey, Runs, Disjoint;
    var io := Io(Fine, t.now, "v");
    Extend(cx, policy, s, actions, t, StartCommit(m));
    u := Apply(cx, t, StartCommit(m));
    longer := actions + [StartCommit(m)];
    var k := 0;
    while k < 4
      invariant 0 <= k <= 4
      invariant Runs(cx, policy, s, longer, u) && Disjoint(cx, policy, s, longer)
      invariant u == t.(step := t.step + 1 + k, committers := [Committer(m, PhaseAfter(k))])
    {
      CommitOnce(cx, policy, u, m, k, io);
      Extend(cx, policy, s, longer, u, StepCommitter(0, io));
      u := Apply(cx, u, StepCommitter(0, io));
      longer := longer + [StepCommitter(0, io)];
      k := k + 1;
    }
  }

  function PhaseAfter(k: nat): CommitPhase {
    if k == 0 then CheckMarker else if k < 4 then CheckArtifact(k - 1) else PutMarker
  }

  lemma CommitOnce(cx: Codec, policy: LifecyclePolicy, u: State, m: Manifest, k: nat, io: Io)
    requires Valid(policy) && k < 4 && m.WellFormed() && |m.artifacts| == 3 && io.fault == Fine && io.now == u.now
    requires |u.committers| == 1 && u.committers[0] == Committer(m, PhaseAfter(k))
    requires m.CommitKey() !in u.store && AllHold(u.store, m.artifacts)
    ensures Enabled(policy, u, StepCommitter(0, io)) && Exclusive(u, StepCommitter(0, io))
    ensures Apply(cx, u, StepCommitter(0, io))
            == u.(step := u.step + 1, committers := [Committer(m, PhaseAfter(k + 1))])
  {
    hide Valid, Manifest.WellFormed, Manifest.CommitKey;
    if k > 0 { assert ArtifactHolds(u.store, m.artifacts[k - 1]); }
  }

  /** The put makes the one commit record, no older than anything stored. */
  lemma PutOnce(cx: Codec, policy: LifecyclePolicy, u: State, m: Manifest, io: Io, low: int)
    requires Valid(policy) && m.WellFormed() && io.fault == Fine && io.now == u.now && u.commits == []
    requires |u.committers| == 1 && u.committers[0] == Committer(m, PutMarker)
    requires m.CommitKey() !in u.store && u.now >= low && forall k | k in u.store :: u.store[k].uploadedAt >= low
    ensures var a := StepCommitter(0, io);
      && Enabled(policy, u, a) && Exclusive(u, a) && CreatesMarker(u.store, u.committers[0], io)
      && var v := Apply(cx, u, a);
         && |v.commits| == 1 && v.commits[0].manifest == m && v.commits[0].oldest >= low
         && v.now == u.now && v.sweeps == u.sweeps && v.deletions == u.deletions && |v.committers| == 1
         && v.commits[0].step == u.step && v.committers[0] == Committer(m, Finished(Returned(true)))
         && m.CommitKey() in v.store && v.step == u.step + 1 && Extends(u.store, v.store)
         && v.store.Keys == u.store.Keys + {m.CommitKey()}
  {
    hide Valid, Manifest.WellFormed, Manifest.CommitKey, AttemptPrefix;
    var v := Apply(cx, u, StepCommitter(0, io));
    RecordNames(v.store, u.committers[0], u.step, 0);
    MarkerKeyMember(m);
    var times := Times(v.store);
    assert m.CommitKey() in Members(times, m.Prefix());
    assert IsOldest(times, Members(times, m.Prefix()), v.commits[0].oldest);
    assert forall k | k in times :: times[k] >= low;
  }

  /** A sweep lists. */
  lemma ListNow(cx: Codec, policy: LifecyclePolicy, s: State, actions: seq<Action>, u: State)
    returns (longer: seq<Action>, v: State)
    requires Valid(policy) && Runs(cx, policy, s, actions, u) && Disjoint(cx, policy, s, actions)
    ensures Runs(cx, policy, s, longer, v) && Disjoint(cx, policy, s, longer)
    ensures v == u.(step := u.step + 1, sweeps := u.sweeps + [SweepProc(u.now, u.step, Listing(u.store), map[], map[])])
  {
    hide Valid, Runs, Disjoint, Listing;
    longer, v := actions + [StartSweep(u.now)], Apply(cx, u, StartSweep(u.now));
    Extend(cx, policy, s, actions, u, StartSweep(u.now));
  }

  /** A sweep heads the marker of one namespace. */
  lemma ReadNow(cx: Codec, policy: LifecyclePolicy, s: State, actions: seq<Action>, u: State, w: nat, p: string)
    returns (longer: seq<Action>, v: State)
    requires Valid(policy) && Runs(cx, policy, s, actions, u) && Disjoint(cx, policy, s, actions)
    requires w < |u.sweeps| && p in Prefixes(u.sweeps[w].listing) && p !in u.sweeps[w].classes
    ensures Runs(cx, policy, s, longer, v) && Disjoint(cx, policy, s, longer)
    ensures v == u.(step := u.step + 1,
                    sweeps := u.sweeps[w := u.sweeps[w].(classes := u.sweeps[w].classes[p := MarkerKey(p) in u.store],
                                                         readAt := u.sweeps[w].readAt[p := u.step])])
  {
    hide Valid, Runs, Disjoint, Prefixes, MarkerKey;
    longer, v := actions + [Classify(w, p, false)], Apply(cx, u, Classify(w, p, false));
    Extend(cx, policy, s, actions, u, Classify(w, p, false));
  }

  /** A sweep that listed the attempt and read its marker may delete the video once the class
      it read has expired since the video's date in the listing. */
  lemma VideoIsDue(cx: Codec, policy: LifecyclePolicy, sw: SweepProc, job: string, attempt: string, video: int, others: int)
    requires Valid(policy) && SlashFree(job) && SlashFree(attempt) && video <= others
    requires sw.listing == Listing(Attempted(cx, job, attempt, video, others))
    requires var p := Namespace(job, attempt); p in sw.classes && Expired(policy, ClassFor(sw.classes[p]), video, sw.at)
    ensures MayDelete(policy, sw, RoleKey(job, attempt, Video))
  {
    hide Valid, RoleKey, SlashFree, AttemptPrefix, Namespace, Listing, Expired;
    AttemptMembers(cx, job, attempt, video, others);
    RoleKeys(job, attempt, Video);
  }

  lemma NoSteps(cx: Codec, policy: LifecyclePolicy, s: State)
    requires Valid(policy)
    ensures Runs(cx, policy, s, [], s) && Disjoint(cx, policy, s, [])
  {
  }

  // -------------------------------------- a commit between the read and the delete

  /** A state every step to which the exclusion allows: a commit about to put its marker, and a
      sweep that read the namespace as failed and may delete the video. */
  lemma PendingOverlap(cx: Codec, policy: LifecyclePolicy, job: string, attempt: string)
    returns (s: State, actions: seq<Action>, u: State)
    requires Valid(policy) && SlashFree(job) && SlashFree(attempt)
    ensures Start(s) && Runs(cx, policy, s, actions, u) && Disjoint(cx, policy, s, actions)
    ensures u.commits == [] && |u.committers| == 1 && u.committers[0] == Committer(Evidence(cx, job, attempt), PutMarker)
    ensures |u.sweeps| == 1 && u.now == Period(policy, FailedAttempt) && u.store == Attempted(cx, job, attempt, 0, 0)
    ensures var io := Io(Fine, u.now, "v");
      Enabled(policy, u, StepCommitter(0, io)) && CreatesMarker(u.store, u.committers[0], io)
    ensures Enabled(policy, u, Delete(0, RoleKey(job, attempt, Video), Fine))
  {
    hide Valid, DaysFor, RoleKey, SlashFree, AttemptPrefix, Namespace, MarkerKey, Manifest.WellFormed, Attempted,
         Listing, Prefixes, Runs, Disjoint, AllHold, Evidence, MayDelete, Artifact;
    var p, m := Namespace(job, attempt), Evidence(cx, job, attempt);
    s := State(Period(policy, FailedAttempt), 0, Attempted(cx, job, attempt, 0, 0), [], [], [], [], []);
    NoSteps(cx, policy, s);
    AttemptMembers(cx, job, attempt, 0, 0);
    EvidenceIsWellFormed(cx, job, attempt);
    EvidenceNames(cx, job, attempt);
    actions, u := CommitAsFarAsPut(cx, policy, s, [], s, m);
    actions, u := ListNow(cx, policy, s, actions, u);
    actions, u := ReadNow(cx, policy, s, actions, u, 0, p);
    VideoIsDue(cx, policy, u.sweeps[0], job, attempt, 0, 0);
  }

  lemma EvidenceNames(cx: Codec, job: string, attempt: string)
    ensures var m := Evidence(cx, job, attempt);
      && m.Prefix() == Namespace(job, attempt) && m.CommitKey() == MarkerKey(Namespace(job, attempt))
      && |m.artifacts| == 3 && m.artifacts[0].key == RoleKey(job, attempt, Video)
  {
  }

  /** The exclusion of commits that end after the read: for every policy that keeps failed
      attempts shorter, a run that breaks it in its last delete alone ends with a commit whose
      period is not over and whose attempt is not whole. */
  lemma CommitAfterReadIsLost(cx: Codec, policy: LifecyclePolicy, job: string, attempt: string)
    returns (s: State, actions: seq<Action>, u: State, key: string)
    requires Valid(policy) && SlashFree(job) && SlashFree(attempt)
    requires DaysFor(policy, FailedAttempt) < DaysFor(policy, Deliverable)
    ensures Start(s) && Runs(cx, policy, s, actions, u) && Disjoint(cx, policy, s, actions)
    ensures Enabled(policy, u, Delete(0, key, Fine))
    ensures var t := Apply(cx, u, Delete(0, key, Fine));
      && |t.commits| == 1 && t.now < t.commits[0].oldest + Period(policy, Deliverable) && !Whole(t.commits[0], t.store)
  {
    hide Valid, DaysFor, RoleKey, SlashFree, AttemptPrefix, Namespace, MarkerKey, Manifest.WellFormed,
         Runs, Disjoint, MayDelete, Artifact, Whole, Manifest.Prefix, Manifest.CommitKey;
    var m := Evidence(cx, job, attempt);
    s, actions, u := PendingOverlap(cx, policy, job, attempt);
    EvidenceIsWellFormed(cx, job, attempt);
    EvidenceNames(cx, job, attempt);
    AttemptMembers(cx, job, attempt, 0, 0);
    key := RoleKey(job, attempt, Video);
    var put := StepCommitter(0, Io(Fine, u.now, "v"));
    PeriodIsTheDeclaredOne(policy, FailedAttempt, DaysFor(policy, FailedAttempt));
    PutOnce(cx, policy, u, m, put.io, 0);
    Extend(cx, policy, s, actions, u, put);
    actions, u := actions + [put], Apply(cx, u, put);
    DeleteTakes(cx, u, 0, key);
    MissingArtifact(u.commits[0], Apply(cx, u, Delete(0, key, Fine)).store, 0);
  }

  /** The exclusion of objects that a commit under way has checked: for every such policy, a run
      that breaks it in one delete alone, and whose next step puts the marker, ends with a commit
      that reports success while an artifact it lists is gone. */
  lemma CommitOverDeletionIsHollow(cx: Codec, policy: LifecyclePolicy, job: string, attempt: string)
    returns (s: State, actions: seq<Action>, u: State, key: string)
    requires Valid(policy) && SlashFree(job) && SlashFree(attempt)
    requires DaysFor(policy, FailedAttempt) < DaysFor(policy, Deliverable)
    ensures Start(s) && Runs(cx, policy, s, actions, u) && Disjoint(cx, policy, s, actions)
    ensures Enabled(policy, u, Delete(0, key, Fine)) && u.commits == []
    ensures var v, put := Apply(cx, u, Delete(0, key, Fine)), StepCommitter(0, Io(Fine, u.now, "v"));
      && Enabled(policy, v, put) && Exclusive(v, put)
      && var t := Apply(cx, v, put);
         && |t.commits| == 1 && |t.committers| == 1 && t.committers[0].phase == Finished(Returned(true))
         && t.now < t.commits[0].oldest + Period(policy, Deliverable) && !Whole(t.commits[0], t.store)
  {
    hide Valid, DaysFor, RoleKey, SlashFree, AttemptPrefix, Namespace, MarkerKey, Manifest.WellFormed,
         Runs, Disjoint, MayDelete, Artifact, Whole, Manifest.Prefix, Manifest.CommitKey, CreatesMarker, Exclusive;
    var m := Evidence(cx, job, attempt);
    s, actions, u := PendingOverlap(cx, policy, job, attempt);
    EvidenceIsWellFormed(cx, job, attempt);
    EvidenceNames(cx, job, attempt);
    AttemptMembers(cx, job, attempt, 0, 0);
    RoleKeys(job, attempt, Video);
    key := RoleKey(job, attempt, Video);
    PeriodIsTheDeclaredOne(policy, FailedAttempt, DaysFor(policy, FailedAttempt));
    var v, io := Apply(cx, u, Delete(0, key, Fine)), Io(Fine, u.now, "v");
    PutOnce(cx, policy, v, m, io, 0);
    MissingArtifact(Apply(cx, v, StepCommitter(0, io)).commits[0], Apply(cx, v, StepCommitter(0, io)).store, 0);
  }

  // ------------------------------- a commit after the listing, over what was deleted

  function Local(cx: Codec, role: Role): LocalArtifact {
    LocalArtifact(role, cx.sha(CONTENT), |CONTENT|, CONTENT)
  }

  function Locals(cx: Codec): seq<LocalArtifact> {
    [Local(cx, Video), Local(cx, Workflow), Local(cx, Generation)]
  }

  /** The three calls that bring a missing video back. */
  lemma UploadVideo(cx: Codec, policy: LifecyclePolicy, s: State, actions: seq<Action>, t: State, job: string, attempt: string)
    returns (longer: seq<Action>, u: State)
    requires Valid(policy) && Runs(cx, policy, s, actions, t) && Disjoint(cx, policy, s, actions)
    requires t.uploaders == [] && RoleKey(job, attempt, Video) !in t.store
    ensures Runs(cx, policy, s, longer, u) && Disjoint(cx, policy, s, longer)
    ensures u == t.(step := t.step + 4, store := t.store[RoleKey(job, attempt, Video) := Stored(cx, t.now)], uploaders := u.uploaders)
  {
    hide Valid, Runs, Disjoint, RoleKey, Recorded;
    var io := Io(Fine, t.now, "v");
    var start := StartUpload(job, attempt, Locals(cx));
    Extend(cx, policy, s, actions, t, start);
    longer, u := actions + [start], Apply(cx, t, start);
    assert (set a | a in Locals(cx) :: a.role) == ROLES by { LocalRoles(cx); }
    Extend(cx, policy, s, longer, u, StepUploader(0, io));
    longer, u := longer + [StepUploader(0, io)], Apply(cx, u, StepUploader(0, io));
    assert u.uploaders[0].phase == HeadArtifact(0);
    Extend(cx, policy, s, longer, u, StepUploader(0, io));
    longer, u := longer + [StepUploader(0, io)], Apply(cx, u, StepUploader(0, io));
    assert u.uploaders[0].phase == PutArtifact(0);
    Extend(cx, policy, s, longer, u, StepUploader(0, io));
    longer, u := longer + [StepUploader(0, io)], Apply(cx, u, StepUploader(0, io));
  }

  lemma LocalRoles(cx: Codec)
    ensures (set a | a in Locals(cx) :: a.role) == ROLES
  {
    assert Locals(cx)[0].role == Video && Locals(cx)[1].role == Workflow && Locals(cx)[2].role == Generation;
  }

  /** The state in which one sweep deleted the expired video and another, which listed it, has
      not read the marker yet. */
  lemma VideoDeleted(cx: Codec, policy: LifecyclePolicy, job: string, attempt: string, now: int)
    returns (s: State, actions: seq<Action>, u: State)
    requires Valid(policy) && SlashFree(job) && SlashFree(attempt)
    requires now >= Period(policy, FailedAttempt)
    requires now >= 0
    ensures Start(s) && Runs(cx, policy, s, actions, u) && Disjoint(cx, policy, s, actions)
    ensures u.uploaders == [] && u.committers == [] && u.commits == [] && |u.sweeps| == 2 && u.now == now
    ensures u.sweeps[0].at == now && u.sweeps[0].classes == map[] && u.sweeps[0].readAt == map[]
    ensures u.sweeps[0].listing == Listing(Attempted(cx, job, attempt, 0, now))
    ensures u.store == Attempted(cx, job, attempt, 0, now) - {RoleKey(job, attempt, Video)}
  {
    hide Valid, DaysFor, RoleKey, SlashFree, AttemptPrefix, Namespace, MarkerKey, Attempted, Listing, Prefixes,
         Runs, Disjoint, AllHold, Evidence, MayDelete, Expired;
    var p, key := Namespace(job, attempt), RoleKey(job, attempt, Video);
    s := State(now, 0, Attempted(cx, job, attempt, 0, now), [], [], [], [], []);
    NoSteps(cx, policy, s);
    AttemptMembers(cx, job, attempt, 0, now);
    actions, u := ListNow(cx, policy, s, [], s);
    actions, u := ListNow(cx, policy, s, actions, u);
    actions, u := ReadNow(cx, policy, s, actions, u, 1, p);
    assert Expired(policy, FailedAttempt, 0, now) by { DueAt(policy, FailedAttempt, now); }
    VideoIsDue(cx, policy, u.sweeps[1], job, attempt, 0, now);
    Extend(cx, policy, s, actions, u, Delete(1, key, Fine));
    actions, u := actions + [Delete(1, key, Fine)], Apply(cx, u, Delete(1, key, Fine));
  }

  lemma DueAt(policy: LifecyclePolicy, c: RetainedClass, now: int)
    requires Valid(policy) && now >= Period(policy, c)
    ensures Expired(policy, c, 0, now)
  {
  }

  lemma Restored(cx: Codec, job: string, attempt: string, now: int)
    ensures var key := RoleKey(job, attempt, Video);
      (Attempted(cx, job, attempt, 0, now) - {key})[key := Stored(cx, now)] == Attempted(cx, job, attempt, now, now)
  {
    hide RoleKey;
    RoleKeysDiffer(job, attempt);
  }

  /** The exclusion of commits over a namespace deleted from since the listing: for every policy
      a run that breaks it in its last delete alone, by a marker made before the sweep read
      the marker, ends with a commit whose period is not over and whose attempt is not whole. */
  lemma CommitAfterDeletionIsLost(cx: Codec, policy: LifecyclePolicy, job: string, attempt: string)
    returns (s: State, actions: seq<Action>, u: State, key: string)
    requires Valid(policy) && SlashFree(job) && SlashFree(attempt)
    ensures Start(s) && Runs(cx, policy, s, actions, u) && Disjoint(cx, policy, s, actions)
    ensures Enabled(policy, u, Delete(0, key, Fine))
    ensures |u.commits| == 1 && |u.sweeps| == 2 && var p := Namespace(job, attempt);
      u.commits[0].manifest.Prefix() == p && p in u.sweeps[0].readAt && u.commits[0].step < u.sweeps[0].readAt[p]
    ensures var t := Apply(cx, u, Delete(0, key, Fine));
      && |t.commits| == 1 && t.now < t.commits[0].oldest + Period(policy, Deliverable) && !Whole(t.commits[0], t.store)
  {
    hide Valid, DaysFor, RoleKey, SlashFree, AttemptPrefix, Namespace, MarkerKey, Manifest.WellFormed, Listing, Prefixes,
         Runs, Disjoint, MayDelete, Artifact, Whole, Manifest.Prefix, Manifest.CommitKey, Expired, AllHold, Attempted, Evidence;
    var m, p, now := Evidence(cx, job, attempt), Namespace(job, attempt), Period(policy, FailedAttempt) + Period(policy, Deliverable);
    PeriodIsTheDeclaredOne(policy, FailedAttempt, DaysFor(policy, FailedAttempt));
    PeriodIsTheDeclaredOne(policy, Deliverable, DaysFor(policy, Deliverable));
    EvidenceIsWellFormed(cx, job, attempt);
    EvidenceNames(cx, job, attempt);
    key := RoleKey(job, attempt, Video);
    s, actions, u := VideoDeleted(cx, policy, job, attempt, now);
    actions, u := UploadVideo(cx, policy, s, actions, u, job, attempt);
    Restored(cx, job, attempt, now);
    AttemptMembers(cx, job, attempt, now, now);
    AttemptTimes(cx, job, attempt, now);
    actions, u := CommitAsFarAsPut(cx, policy, s, actions, u, m);
    var put := StepCommitter(0, Io(Fine, now, "v"));
    PutOnce(cx, policy, u, m, put.io, now);
    Extend(cx, policy, s, actions, u, put);
    actions, u := actions + [put], Apply(cx, u, put);
    AttemptMembers(cx, job, attempt, 0, now);
    actions, u := ReadNow(cx, policy, s, actions, u, 0, p);
    assert Expired(policy, Deliverable, 0, now) by { DueAt(policy, Deliverable, now); }
    VideoIsDue(cx, policy, u.sweeps[0], job, attempt, 0, now);
    DeleteTakes(cx, u, 0, key);
    MissingArtifact(u.commits[0], Apply(cx, u, Delete(0, key, Fine)).store, 0);
  }

  lemma AttemptTimes(cx: Codec, job: string, attempt: string, now: int)
    ensures forall k | k in Attempted(cx, job, attempt, now, now) :: Attempted(cx, job, attempt, now, now)[k].uploadedAt == now
  {
  }
}
