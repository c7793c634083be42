/** Runs that interleave any number of uploads, commits and sweeps over one store.

    Every step is one store call, answered or not; a process may die by never stepping again,
    and a committer that dies is closed by `KillCommit`. The order of heads and deletes inside
    a sweep is left open, so each order the reaper could choose is among the runs. */
module Durability {
  import opened Prelude
  import opened Text
  import opened Keys
  import opened Policy
  import opened Retention
  import opened Results
  import opened ResultLaws

  /** `classes[p]`: whether namespace p was read as committed; `readAt[p]`: the step of that. */
  datatype SweepProc = SweepProc(at: int, listedAt: nat, listing: Objects, classes: map<string, bool>, readAt: map<string, nat>)

  /** History: a marker coming into being, with the store as it was at that step. */
  datatype CommitRecord = CommitRecord(manifest: Manifest, held: Store, oldest: int, step: nat, owner: nat)

  /** History: an object of a namespace that was deleted. */
  datatype Deletion = Deletion(prefix: string, step: nat)

  datatype State = State(
    now: int, step: nat, store: Store,
    uploaders: seq<Uploader>, committers: seq<Committer>, sweeps: seq<SweepProc>,
    commits: seq<CommitRecord>, deletions: seq<Deletion>)

  datatype Action =
    | Wait(until: int)
    | StartUpload(job: string, attempt: string, artifacts: seq<LocalArtifact>)
    | StepUploader(i: nat, io: Io)
    | StartCommit(manifest: Manifest)
    | StepCommitter(i: nat, io: Io)
    | KillCommit(i: nat)
    | StartSweep(at: int)
    | Classify(i: nat, prefix: string, unreadable: bool)
    | Delete(i: nat, key: string, fault: Fault)

  function Times(store: Store): Objects {
    map k | k in store :: store[k].uploadedAt
  }

  function Listing(store: Store): Objects {
    map k | k in store && OUTPUT_PREFIX <= k :: store[k].uploadedAt
  }

  /** The deletes a sweep makes: listed keys of attempts its listing shows as expired, once
      every listed attempt has been classified. */
  ghost predicate MayDelete(policy: LifecyclePolicy, sw: SweepProc, key: string)
    requires Valid(policy)
  {
    && key in sw.listing && Prefixes(sw.listing) <= sw.classes.Keys
    && AttemptPrefix(key).Some?
    && var p := AttemptPrefix(key).value;
       && p in sw.classes && Members(sw.listing, p) != {}
       && Expired(policy, ClassFor(sw.classes[p]), Oldest(sw.listing, p), sw.at)
  }

  ghost predicate Enabled(policy: LifecyclePolicy, s: State, a: Action)
    requires Valid(policy)
  {
    match a
    case Wait(until) => s.now <= until
    case StartUpload(_, _, _) => true
    case StepUploader(i, io) => i < |s.uploaders| && io.now == s.now
    case StartCommit(m) => m.WellFormed()
    case StepCommitter(i, io) => i < |s.committers| && io.now == s.now && s.committers[i].manifest.WellFormed()
    case KillCommit(i) => i < |s.committers| && !s.committers[i].phase.Finished?
    case StartSweep(at) => at <= s.now
    case Classify(i, p, _) => i < |s.sweeps| && p in Prefixes(s.sweeps[i].listing) && p !in s.sweeps[i].classes
    case Delete(i, key, _) => i < |s.sweeps| && MayDelete(policy, s.sweeps[i], key)
  }

  predicate CreatesMarker(store: Store, c: Committer, io: Io) {
    c.phase.PutMarker? && c.manifest.CommitKey() !in store && io.fault != LostRequest
  }

  ghost function Record(store: Store, c: Committer, step: nat, i: nat): CommitRecord
    requires c.manifest.CommitKey() in store && c.manifest.WellFormed()
  {
    var p := c.manifest.Prefix();
    MarkerKeyMember(c.manifest);
    assert c.manifest.CommitKey() in Members(Times(store), p);
    CommitRecord(c.manifest, store, Oldest(Times(store), p), step, i)
  }

  ghost function Apply(cx: Codec, s: State, a: Action): State
    requires a.StepCommitter? && a.i < |s.committers| ==> s.committers[a.i].manifest.WellFormed()
  {
    var t := s.(step := s.step + 1);
    match a
    case Wait(until) => t.(now := until)
    case StartUpload(job, attempt, artifacts) =>
      t.(uploaders := s.uploaders + [Uploader(job, attempt, artifacts, Begin, [])])
    case StepUploader(i, io) =>
      if i >= |s.uploaders| then t else
      var (store, u) := StepUpload(cx, s.store, s.uploaders[i], io);
      t.(store := store, uploaders := s.uploaders[i := u])
    case StartCommit(m) => t.(committers := s.committers + [Committer(m, CheckMarker)])
    case StepCommitter(i, io) =>
      if i >= |s.committers| || s.committers[i].phase.Finished? then t else
      var (store, c) := StepCommit(cx, s.store, s.committers[i], io);
      t.(store := store,
         committers := s.committers[i := c],
         commits := s.commits + if CreatesMarker(s.store, s.committers[i], io)
                                then [Record(store, s.committers[i], s.step, i)] else [])
    case KillCommit(i) =>
      if i >= |s.committers| then t else
      t.(committers := s.committers[i := s.committers[i].Fail(Died)])
    case StartSweep(at) => t.(sweeps := s.sweeps + [SweepProc(at, s.step, Listing(s.store), map[], map[])])
    case Classify(i, p, unreadable) =>
      if i >= |s.sweeps| then t else
      var sw := s.sweeps[i];
      t.(sweeps := s.sweeps[i := sw.(classes := sw.classes[p := unreadable || MarkerKey(p) in s.store],
                                     readAt := sw.readAt[p := s.step])])
    case Delete(i, key, fault) =>
      if fault == LostRequest then t else
      t.(store := s.store - {key},
         deletions := s.deletions + if key in s.store && AttemptPrefix(key).Some?
                                    then [Deletion(AttemptPrefix(key).value, s.step)] else [])
  }

  /** Nothing of namespace p was deleted strictly between two steps. */
  ghost predicate Calm(s: State, p: string, from: nat, to: nat) {
    forall d | 0 <= d < |s.deletions| && s.deletions[d].prefix == p ::
      s.deletions[d].step <= from || s.deletions[d].step >= to
  }

  /** A marker made before the sweep listed, or before the sweep read the marker of its
      namespace while nothing of it had been deleted since the listing. */
  ghost predicate Precedes(s: State, made: nat, sw: SweepProc, p: string) {
    made < sw.listedAt || (p in sw.readAt && made < sw.readAt[p] && Calm(s, p, sw.listedAt, made))
  }

  /** A commit call under way has checked the artifact with this key. */
  ghost predicate Relies(c: Committer, key: string) {
    exists n :: 0 <= n < |c.manifest.artifacts| && c.manifest.artifacts[n].key == key
                && (c.phase.PutMarker? || (c.phase.CheckArtifact? && n < c.phase.i))
  }

  /** The key of the marker or of an artifact it lists. */
  ghost predicate Backs(m: Manifest, key: string) {
    key == m.CommitKey() || exists n :: 0 <= n < |m.artifacts| && m.artifacts[n].key == key
  }

  /** The assumption about commits against deletes, at each delete that takes effect: no commit
      call under way has checked the object, and every marker made so far that the object backs
      precedes the sweep. Calls that made no marker, or have not come to the object, are free. */
  ghost predicate Exclusive(s: State, a: Action) {
    a.Delete? && a.i < |s.sweeps| && a.fault != LostRequest ==>
      && (forall j | 0 <= j < |s.committers| :: !Relies(s.committers[j], a.key))
      && (forall i | 0 <= i < |s.commits| && Backs(s.commits[i].manifest, a.key) ::
            Precedes(s, s.commits[i].step, s.sweeps[a.i], s.commits[i].manifest.Prefix()))
  }

  // ------------------------------------------------------------- invariant

  ghost predicate RecordOk(cx: Codec, r: CommitRecord) {
    && r.manifest.WellFormed()
    && r.manifest.CommitKey() in r.held
    && r.held[r.manifest.CommitKey()].content == cx.canon(r.manifest)
    && AllHold(r.held, r.manifest.artifacts)
    && IsOldest(Times(r.held), Members(Times(r.held), r.manifest.Prefix()), r.oldest)
  }

  /** The marker and every listed artifact are stored, exactly as they were at the commit. */
  ghost predicate Whole(r: CommitRecord, store: Store) {
    && r.manifest.CommitKey() in store && r.manifest.CommitKey() in r.held
    && store[r.manifest.CommitKey()] == r.held[r.manifest.CommitKey()]
    && forall i | 0 <= i < |r.manifest.artifacts| ::
         && r.manifest.artifacts[i].key in store && r.manifest.artifacts[i].key in r.held
         && store[r.manifest.artifacts[i].key] == r.held[r.manifest.artifacts[i].key]
  }

  predicate Live(policy: LifecyclePolicy, r: CommitRecord, now: int)
    requires Valid(policy)
  {
    now < r.oldest + Period(policy, Deliverable)
  }

  ghost predicate Owned(cx: Codec, s: State) {
    forall i | 0 <= i < |s.commits| ::
      var r := s.commits[i];
      && RecordOk(cx, r) && r.oldest <= s.now && r.step < s.step
      && r.owner < |s.committers| && s.committers[r.owner].manifest == r.manifest
  }

  ghost predicate NoOlder(s: State) {
    forall i, k | 0 <= i < |s.commits| && k in s.store
                  && AttemptPrefix(k) == Some(s.commits[i].manifest.Prefix())
      :: s.commits[i].oldest <= s.store[k].uploadedAt
  }

  /** The listing of sweep w dates the namespace of commit i no earlier than the commit does. */
  ghost predicate Dates(s: State, w: nat, i: nat)
    requires w < |s.sweeps| && i < |s.commits|
  {
    var p, r := s.commits[i].manifest.Prefix(), s.commits[i];
    forall k | k in s.sweeps[w].listing && AttemptPrefix(k) == Some(p) :: r.oldest <= s.sweeps[w].listing[k]
  }

  ghost predicate ListedNoOlder(s: State) {
    forall w, i | 0 <= w < |s.sweeps| && 0 <= i < |s.commits|
                  && (s.commits[i].step < s.sweeps[w].listedAt
                      || Calm(s, s.commits[i].manifest.Prefix(), s.sweeps[w].listedAt, s.commits[i].step))
      :: Dates(s, w, i)
  }

  /** Until something of a namespace is deleted, what a sweep listed of it is still stored. */
  ghost predicate ListedStands(s: State) {
    forall w, k | 0 <= w < |s.sweeps| && k in s.sweeps[w].listing && AttemptPrefix(k).Some?
                  && Calm(s, AttemptPrefix(k).value, s.sweeps[w].listedAt, s.step)
      :: k in s.store && s.store[k].uploadedAt == s.sweeps[w].listing[k]
  }

  ghost predicate ReadFailedAfter(s: State, w: nat, i: nat)
    requires w < |s.sweeps| && i < |s.commits|
  {
    var sw, p := s.sweeps[w], s.commits[i].manifest.Prefix();
    p in sw.classes && !sw.classes[p] && p in sw.readAt && s.commits[i].step < sw.readAt[p]
  }

  ghost predicate FailedMeansExpired(policy: LifecyclePolicy, s: State)
    requires Valid(policy)
  {
    forall w, i | 0 <= w < |s.sweeps| && 0 <= i < |s.commits| && ReadFailedAfter(s, w, i)
      :: !Live(policy, s.commits[i], s.now)
  }

  ghost predicate SweepPast(s: State, sw: SweepProc) {
    && sw.at <= s.now && sw.listedAt < s.step && sw.readAt.Keys == sw.classes.Keys
    && forall p | p in sw.readAt :: sw.listedAt < sw.readAt[p] < s.step
  }

  ghost predicate SweepsPast(s: State) {
    forall w | 0 <= w < |s.sweeps| :: SweepPast(s, s.sweeps[w])
  }

  ghost predicate EvidenceStands(s: State) {
    forall j | 0 <= j < |s.committers| ::
      && s.committers[j].manifest.WellFormed()
      && (s.committers[j].phase.Finished? || s.committers[j].phase.Compare?
          || ReadyToPut(s.store, s.committers[j]))
  }

  ghost predicate Safe(policy: LifecyclePolicy, s: State)
    requires Valid(policy)
  {
    forall i | 0 <= i < |s.commits| && Live(policy, s.commits[i], s.now) :: Whole(s.commits[i], s.store)
  }

  ghost predicate Inv(cx: Codec, policy: LifecyclePolicy, s: State)
    requires Valid(policy)
  {
    && Owned(cx, s) && NoOlder(s) && ListedNoOlder(s) && ListedStands(s) && FailedMeansExpired(policy, s)
    && SweepsPast(s) && EvidenceStands(s) && Safe(policy, s)
  }

  // --------------------------------------------------------- facts on keys

  lemma MarkerKeyMember(m: Manifest)
    requires m.WellFormed()
    ensures IsNamespace(m.Prefix())
    ensures AttemptPrefix(m.CommitKey()) == Some(m.Prefix())
  {
    assert IsNamespace(m.Prefix());
    MarkerKeyInNamespace(m.Prefix());
  }

  lemma ArtifactKeyMember(m: Manifest, i: nat)
    requires m.WellFormed() && i < |m.artifacts|
    ensures AttemptPrefix(m.artifacts[i].key) == Some(m.Prefix())
  {
    MarkerKeyMember(m);
    AttemptPrefixExact(m.artifacts[i].key, m.Prefix());
  }

  // ------------------------------------------------------------ the steps

  /** The store only gains objects, dated now. */
  ghost predicate Grows(s: State, store: Store) {
    && Extends(s.store, store)
    && forall k | k in store && k !in s.store :: store[k].uploadedAt == s.now
  }

  lemma HoldsLonger(store: Store, later: Store, artifacts: seq<RemoteArtifact>)
    requires Extends(store, later)
    ensures forall i | 0 <= i < |artifacts| && ArtifactHolds(store, artifacts[i]) :: ArtifactHolds(later, artifacts[i])
  {
  }

  lemma GrowthKeeps(cx: Codec, policy: LifecyclePolicy, s: State, store: Store)
    requires Valid(policy) && Inv(cx, policy, s) && Grows(s, store)
    ensures NoOlder(s.(store := store)) && Safe(policy, s.(store := store)) && EvidenceStands(s.(store := store))
  {
    hide AttemptPrefix, Valid, Manifest.CommitKey, Manifest.Prefix, Manifest.WellFormed, RecordOk, Period;
    var t := s.(store := store);
    forall i, k | 0 <= i < |t.commits| && k in t.store && AttemptPrefix(k) == Some(t.commits[i].manifest.Prefix())
      ensures t.commits[i].oldest <= t.store[k].uploadedAt
    {
      assert s.commits[i].oldest <= s.now;
    }
    forall i | 0 <= i < |t.commits| && Live(policy, t.commits[i], t.now) ensures Whole(t.commits[i], t.store) {
      assert Whole(s.commits[i], s.store);
    }
    forall j | 0 <= j < |t.committers|
      ensures t.committers[j].phase.Finished? || t.committers[j].phase.Compare?
              || ReadyToPut(t.store, t.committers[j])
    {
      HoldsLonger(s.store, store, s.committers[j].manifest.artifacts);
    }
  }

  lemma WaitKeeps(cx: Codec, policy: LifecyclePolicy, s: State, until: int)
    requires Valid(policy) && Inv(cx, policy, s) && s.now <= until
    ensures Inv(cx, policy, Apply(cx, s, Wait(until)))
  {
    hide AttemptPrefix, Valid, Manifest.CommitKey, Manifest.Prefix, Manifest.WellFormed, RecordOk, Period, Whole;
    var t := Apply(cx, s, Wait(until));
    forall i | 0 <= i < |t.commits| && Live(policy, t.commits[i], t.now) ensures Whole(t.commits[i], t.store) {
      assert Live(policy, s.commits[i], s.now);
    }
    forall w, i | 0 <= w < |t.sweeps| && 0 <= i < |t.commits| && ReadFailedAfter(t, w, i)
      ensures !Live(policy, t.commits[i], t.now)
    {
      assert ReadFailedAfter(s, w, i);
      assert !Live(policy, s.commits[i], s.now);
    }
    TickKeeps(s, t);
  }

  /** A step that deletes nothing and loses nothing keeps what is known of the listings. */
  lemma TickKeeps(s: State, t: State)
    requires ListedNoOlder(s) && ListedStands(s) && SweepsPast(s)
    requires t.sweeps == s.sweeps && t.commits == s.commits && t.deletions == s.deletions
    requires t.step == s.step + 1 && t.now >= s.now && Extends(s.store, t.store)
    ensures ListedNoOlder(t) && ListedStands(t) && SweepsPast(t)
  {
    hide AttemptPrefix, Manifest.Prefix;
    forall w, i | 0 <= w < |t.sweeps| && 0 <= i < |t.commits|
                  && (t.commits[i].step < t.sweeps[w].listedAt
                      || Calm(t, t.commits[i].manifest.Prefix(), t.sweeps[w].listedAt, t.commits[i].step))
      ensures Dates(t, w, i)
    {
      assert t.commits[i].step < t.sweeps[w].listedAt
             || Calm(s, s.commits[i].manifest.Prefix(), s.sweeps[w].listedAt, s.commits[i].step);
      assert Dates(s, w, i);
    }
    forall w, k | 0 <= w < |t.sweeps| && k in t.sweeps[w].listing && AttemptPrefix(k).Some?
                  && Calm(t, AttemptPrefix(k).value, t.sweeps[w].listedAt, t.step)
      ensures k in t.store && t.store[k].uploadedAt == t.sweeps[w].listing[k]
    {
      assert Calm(s, AttemptPrefix(k).value, s.sweeps[w].listedAt, s.step);
    }
    forall w | 0 <= w < |t.sweeps| ensures SweepPast(t, t.sweeps[w]) { assert SweepPast(s, s.sweeps[w]); }
  }

  lemma UploadGrows(cx: Codec, s: State, i: nat, io: Io)
    requires i < |s.uploaders| && io.now == s.now
    ensures Grows(s, StepUpload(cx, s.store, s.uploaders[i], io).0)
  {
    hide RoleKey, ValidIdentifier;
  }

  lemma UploaderKeeps(cx: Codec, policy: LifecyclePolicy, s: State, i: nat, io: Io)
    requires Valid(policy) && Inv(cx, policy, s) && i < |s.uploaders| && io.now == s.now
    ensures Inv(cx, policy, Apply(cx, s, StepUploader(i, io)))
  {
    hide Valid, Period, AttemptPrefix, RecordOk, Manifest.WellFormed, StepUpload, Whole, ReadyToPut;
    UploadGrows(cx, s, i, io);
    GrowthKeeps(cx, policy, s, StepUpload(cx, s.store, s.uploaders[i], io).0);
    TickKeeps(s, Apply(cx, s, StepUploader(i, io)));
    FailedTick(policy, s, Apply(cx, s, StepUploader(i, io)));
  }

  lemma FailedTick(policy: LifecyclePolicy, s: State, t: State)
    requires Valid(policy) && FailedMeansExpired(policy, s)
    requires t.sweeps == s.sweeps && t.commits == s.commits && t.now == s.now
    ensures FailedMeansExpired(policy, t)
  {
    hide Valid, Live, Manifest.Prefix;
    forall w, i | 0 <= w < |t.sweeps| && 0 <= i < |t.commits| && ReadFailedAfter(t, w, i)
      ensures !Live(policy, t.commits[i], t.now)
    {
      assert ReadFailedAfter(s, w, i);
    }
  }

  lemma StepCommitShape(cx: Codec, store: Store, c: Committer, io: Io)
    requires c.manifest.WellFormed() && (c.phase.Finished? || c.phase.Compare? || ReadyToPut(store, c))
    ensures var (after, d) := StepCommit(cx, store, c, io);
      && d.manifest == c.manifest
      && (d.phase.Finished? || d.phase.Compare? || ReadyToPut(after, d))
      && (if CreatesMarker(store, c, io)
          then after == store[c.manifest.CommitKey() := Object(cx.canon(c.manifest), cx.Digest(c.manifest), io.version, io.now)]
               && AllHold(after, c.manifest.artifacts) && d.phase.Finished?
          else after == store)
  {
    hide Manifest.CommitKey, Manifest.WellFormed;
    HoldsLonger(store, StepCommit(cx, store, c, io).0, c.manifest.artifacts);
  }

  lemma CommitterKeeps(cx: Codec, policy: LifecyclePolicy, s: State, i: nat, io: Io)
    requires Valid(policy) && Inv(cx, policy, s) && i < |s.committers| && io.now == s.now
    requires !CreatesMarker(s.store, s.committers[i], io)
    ensures Inv(cx, policy, Apply(cx, s, StepCommitter(i, io)))
  {
    hide Valid, Period, AttemptPrefix, RecordOk, Manifest.WellFormed, StepCommit, Whole, ReadyToPut, CreatesMarker;
    StepCommitShape(cx, s.store, s.committers[i], io);
    TickKeeps(s, Apply(cx, s, StepCommitter(i, io)));
    FailedTick(policy, s, Apply(cx, s, StepCommitter(i, io)));
  }

  /** Adding a record whose facts hold now to an invariant state. */
  lemma RecordAdds(cx: Codec, policy: LifecyclePolicy, s: State, r: CommitRecord)
    requires Valid(policy) && NoOlder(s) && Safe(policy, s)
    requires Whole(r, s.store)
    requires forall k | k in s.store && AttemptPrefix(k) == Some(r.manifest.Prefix()) :: r.oldest <= s.store[k].uploadedAt
    ensures NoOlder(s.(commits := s.commits + [r])) && Safe(policy, s.(commits := s.commits + [r]))
  {
    hide Valid, Period, AttemptPrefix, Manifest.Prefix, Whole;
    var t := s.(commits := s.commits + [r]);
    forall j, k | 0 <= j < |t.commits| && k in t.store && AttemptPrefix(k) == Some(t.commits[j].manifest.Prefix())
      ensures t.commits[j].oldest <= t.store[k].uploadedAt
    {
      if j < |s.commits| { assert t.commits[j] == s.commits[j]; }
    }
    forall j | 0 <= j < |t.commits| && Live(policy, t.commits[j], t.now) ensures Whole(t.commits[j], t.store) {
      if j < |s.commits| { assert t.commits[j] == s.commits[j]; }
    }
  }

  /** A new marker comes after every sweep's reads so far; what a sweep listed of its namespace
      is still there unless something of it was deleted. */
  lemma SweepsMeetNewRecord(policy: LifecyclePolicy, s: State, t: State, r: CommitRecord)
    requires Valid(policy) && ListedNoOlder(s) && ListedStands(s) && FailedMeansExpired(policy, s) && SweepsPast(s)
    requires r.step == s.step && t.commits == s.commits + [r] && t.sweeps == s.sweeps && t.deletions == s.deletions
    requires t.step == s.step + 1 && t.now == s.now && Extends(s.store, t.store)
    requires forall k | k in t.store && AttemptPrefix(k) == Some(r.manifest.Prefix()) :: r.oldest <= t.store[k].uploadedAt
    ensures ListedNoOlder(t) && ListedStands(t) && FailedMeansExpired(policy, t) && SweepsPast(t)
  {
    hide Valid, Live, AttemptPrefix, Manifest.Prefix;
    TickKeeps(s, t.(commits := s.commits));
    forall w, i | 0 <= w < |t.sweeps| && 0 <= i < |t.commits|
                  && (t.commits[i].step < t.sweeps[w].listedAt
                      || Calm(t, t.commits[i].manifest.Prefix(), t.sweeps[w].listedAt, t.commits[i].step))
      ensures Dates(t, w, i)
    {
      assert SweepPast(s, s.sweeps[w]);
      if i < |s.commits| {
        assert Dates(t.(commits := s.commits), w, i);
      } else {
        var p := r.manifest.Prefix();
        assert Calm(s, p, s.sweeps[w].listedAt, s.step);
        forall k | k in t.sweeps[w].listing && AttemptPrefix(k) == Some(p) ensures r.oldest <= t.sweeps[w].listing[k] {
          assert k in s.store && s.store[k].uploadedAt == s.sweeps[w].listing[k];
        }
      }
    }
    forall w, i | 0 <= w < |t.sweeps| && 0 <= i < |t.commits| && ReadFailedAfter(t, w, i)
      ensures !Live(policy, t.commits[i], t.now)
    {
      assert SweepPast(s, s.sweeps[w]);
      assert i < |s.commits|;
      assert ReadFailedAfter(s, w, i);
    }
    forall w, k | 0 <= w < |t.sweeps| && k in t.sweeps[w].listing && AttemptPrefix(k).Some?
                  && Calm(t, AttemptPrefix(k).value, t.sweeps[w].listedAt, t.step)
      ensures k in t.store && t.store[k].uploadedAt == t.sweeps[w].listing[k]
    {
      assert Calm(t.(commits := s.commits), AttemptPrefix(k).value, t.sweeps[w].listedAt, t.step);
    }
    forall w | 0 <= w < |t.sweeps| ensures SweepPast(t, t.sweeps[w]) {
      assert SweepPast(t.(commits := s.commits), t.sweeps[w]);
    }
  }

  lemma MarkerKeeps(cx: Codec, policy: LifecyclePolicy, s: State, i: nat, io: Io)
    requires Valid(policy) && Inv(cx, policy, s) && i < |s.committers| && io.now == s.now
    requires CreatesMarker(s.store, s.committers[i], io)
    ensures Inv(cx, policy, Apply(cx, s, StepCommitter(i, io)))
  {
    hide Valid, Period, AttemptPrefix, Manifest.WellFormed, StepCommit, ReadyToPut, Manifest.CommitKey,
         Manifest.Prefix, Whole, RecordOk, Live;
    var c, t := s.committers[i], Apply(cx, s, StepCommitter(i, io));
    assert c.manifest.WellFormed() && ReadyToPut(s.store, c) by { PendingEvidence(cx, policy, s, i, io); }
    StepCommitShape(cx, s.store, c, io);
    var r := Record(t.store, c, s.step, i);
    var mid := s.(store := t.store);
    GrowthKeeps(cx, policy, s, t.store);
    NewRecord(cx, s, t.store, c, s.step, i);
    RecordAdds(cx, policy, mid, r);
    SweepsMeetNewRecord(policy, s, t, r);
    assert t == mid.(commits := s.commits + [r], step := s.step + 1, committers := t.committers);
    assert EvidenceStands(mid);
    OwnedAdds(cx, s, t, r, i);
  }

  lemma PendingEvidence(cx: Codec, policy: LifecyclePolicy, s: State, i: nat, io: Io)
    requires Valid(policy) && Inv(cx, policy, s) && i < |s.committers|
    requires CreatesMarker(s.store, s.committers[i], io)
    ensures s.committers[i].manifest.WellFormed() && ReadyToPut(s.store, s.committers[i])
  {
    hide Valid, ReadyToPut, Owned, NoOlder, ListedNoOlder, FailedMeansExpired, Safe, Manifest.WellFormed, Manifest.CommitKey;
  }

  lemma OwnedAdds(cx: Codec, s: State, t: State, r: CommitRecord, i: nat)
    requires Owned(cx, s) && RecordOk(cx, r) && r.oldest <= s.now && r.step == s.step && r.owner == i
    requires i < |s.committers| && |t.committers| == |s.committers| && t.commits == s.commits + [r] && t.step == s.step + 1 && t.now == s.now
    requires forall j | 0 <= j < |s.committers| && j != i :: t.committers[j] == s.committers[j]
    requires t.committers[i].manifest == r.manifest == s.committers[i].manifest
    ensures Owned(cx, t)
  {
    hide RecordOk;
    forall j | 0 <= j < |t.commits|
      ensures var q := t.commits[j];
        && RecordOk(cx, q) && q.oldest <= t.now && q.step < t.step
        && q.owner < |t.committers| && t.committers[q.owner].manifest == q.manifest
    {
      if j < |s.commits| { assert t.commits[j] == s.commits[j]; }
    }
  }

  /** The record of a new marker: it holds the evidence, and nothing in its namespace is older. */
  lemma NewRecord(cx: Codec, s: State, store: Store, c: Committer, step: nat, i: nat)
    requires c.manifest.WellFormed() && c.manifest.CommitKey() in store
    requires store[c.manifest.CommitKey()].content == cx.canon(c.manifest)
    requires store[c.manifest.CommitKey()].uploadedAt == s.now
    requires AllHold(store, c.manifest.artifacts)
    ensures var r := Record(store, c, step, i);
      && RecordOk(cx, r) && Whole(r, store) && r.oldest <= s.now
      && forall k | k in store && AttemptPrefix(k) == Some(r.manifest.Prefix()) :: r.oldest <= store[k].uploadedAt
  {
    hide AttemptPrefix, Manifest.CommitKey, Manifest.Prefix;
    MarkerKeyMember(c.manifest);
    var r, p := Record(store, c, step, i), c.manifest.Prefix();
    assert c.manifest.CommitKey() in Members(Times(store), p);
    forall k | k in store && AttemptPrefix(k) == Some(p) ensures r.oldest <= store[k].uploadedAt {
      assert k in Members(Times(store), p);
    }
    forall j | 0 <= j < |c.manifest.artifacts| ensures c.manifest.artifacts[j].key in store {
      assert ArtifactHolds(store, c.manifest.artifacts[j]);
    }
  }

  lemma OthersKeep(cx: Codec, policy: LifecyclePolicy, s: State, a: Action)
    requires Valid(policy) && Inv(cx, policy, s) && Enabled(policy, s, a)
    requires a.StartUpload? || a.StartCommit? || a.KillCommit? || a.StartSweep?
    ensures Inv(cx, policy, Apply(cx, s, a))
  {
    hide Valid, Period, AttemptPrefix, RecordOk, Manifest.WellFormed, Whole, Manifest.CommitKey, Manifest.Prefix;
    var t := Apply(cx, s, a);
    if a.StartSweep? {
      SweepStarts(policy, s, t);
    } else {
      TickKeeps(s, t);
      FailedTick(policy, s, t);
    }
  }

  lemma SweepStarts(policy: LifecyclePolicy, s: State, t: State)
    requires Valid(policy) && ListedNoOlder(s) && ListedStands(s) && FailedMeansExpired(policy, s) && SweepsPast(s)
    requires NoOlder(s) && forall i | 0 <= i < |s.commits| :: s.commits[i].step < s.step
    requires t == s.(step := s.step + 1, sweeps := t.sweeps) && |t.sweeps| == |s.sweeps| + 1
    requires t.sweeps == s.sweeps + [t.sweeps[|s.sweeps|]]
    requires t.sweeps[|s.sweeps|] == SweepProc(t.sweeps[|s.sweeps|].at, s.step, Listing(s.store), map[], map[])
    requires t.sweeps[|s.sweeps|].at <= s.now
    ensures ListedNoOlder(t) && ListedStands(t) && FailedMeansExpired(policy, t) && SweepsPast(t)
  {
    hide Valid, Live, AttemptPrefix, Manifest.Prefix;
    var mid, n := t.(sweeps := s.sweeps), |s.sweeps|;
    TickKeeps(s, mid);
    FailedTick(policy, s, mid);
    forall w, i | 0 <= w < |t.sweeps| && 0 <= i < |t.commits|
                  && (t.commits[i].step < t.sweeps[w].listedAt
                      || Calm(t, t.commits[i].manifest.Prefix(), t.sweeps[w].listedAt, t.commits[i].step))
      ensures Dates(t, w, i)
    {
      if w < n {
        assert t.commits[i].step < t.sweeps[w].listedAt
               || Calm(mid, mid.commits[i].manifest.Prefix(), mid.sweeps[w].listedAt, mid.commits[i].step);
        assert Dates(mid, w, i);
      } else {
        assert forall k | k in t.sweeps[w].listing :: k in s.store;
      }
    }
    forall w, k | 0 <= w < |t.sweeps| && k in t.sweeps[w].listing && AttemptPrefix(k).Some?
                  && Calm(t, AttemptPrefix(k).value, t.sweeps[w].listedAt, t.step)
      ensures k in t.store && t.store[k].uploadedAt == t.sweeps[w].listing[k]
    {
      if w < n { assert Calm(mid, AttemptPrefix(k).value, mid.sweeps[w].listedAt, mid.step); }
    }
    forall w, i | 0 <= w < |t.sweeps| && 0 <= i < |t.commits| && ReadFailedAfter(t, w, i)
      ensures !Live(policy, t.commits[i], t.now)
    {
      assert ReadFailedAfter(mid, w, i);
    }
    forall w | 0 <= w < |t.sweeps| ensures SweepPast(t, t.sweeps[w]) {
      if w < n { assert SweepPast(mid, mid.sweeps[w]); }
    }
  }

  /** A sweep that reads a namespace as failed after its commit finds the marker gone, which
      the invariant allows only once the deliverable has aged out. */
  lemma ClassifyKeeps(cx: Codec, policy: LifecyclePolicy, s: State, w: nat, p: string, unreadable: bool)
    requires Valid(policy) && Inv(cx, policy, s) && w < |s.sweeps|
    ensures Inv(cx, policy, Apply(cx, s, Classify(w, p, unreadable)))
  {
    hide Valid, Period, AttemptPrefix, RecordOk, Manifest.WellFormed, Manifest.Prefix;
    var t := Apply(cx, s, Classify(w, p, unreadable));
    TickKeeps(s, t.(sweeps := s.sweeps));
    ReadingKeeps(s, t, w);
    forall v, i | 0 <= v < |t.sweeps| && 0 <= i < |t.commits| && ReadFailedAfter(t, v, i)
      ensures !Live(policy, t.commits[i], t.now)
    {
      if v == w && t.commits[i].manifest.Prefix() == p {
        assert !Whole(s.commits[i], s.store);
      } else {
        assert ReadFailedAfter(s, v, i);
      }
    }
    forall v | 0 <= v < |t.sweeps| ensures SweepPast(t, t.sweeps[v]) { assert SweepPast(s, s.sweeps[v]); }
  }

  /** Reading a marker changes nothing a sweep listed. */
  lemma ReadingKeeps(s: State, t: State, w: nat)
    requires w < |s.sweeps| && |t.sweeps| == |s.sweeps|
    requires forall v | 0 <= v < |s.sweeps| :: t.sweeps[v].listing == s.sweeps[v].listing && t.sweeps[v].listedAt == s.sweeps[v].listedAt
    requires ListedNoOlder(t.(sweeps := s.sweeps)) && ListedStands(t.(sweeps := s.sweeps))
    ensures ListedNoOlder(t) && ListedStands(t)
  {
    hide AttemptPrefix, Manifest.Prefix;
    var mid := t.(sweeps := s.sweeps);
    forall v, i | 0 <= v < |t.sweeps| && 0 <= i < |t.commits|
                  && (t.commits[i].step < t.sweeps[v].listedAt
                      || Calm(t, t.commits[i].manifest.Prefix(), t.sweeps[v].listedAt, t.commits[i].step))
      ensures Dates(t, v, i)
    {
      assert t.commits[i].step < t.sweeps[v].listedAt
             || Calm(mid, mid.commits[i].manifest.Prefix(), mid.sweeps[v].listedAt, mid.commits[i].step);
      assert Dates(mid, v, i);
    }
    forall v, k | 0 <= v < |t.sweeps| && k in t.sweeps[v].listing && AttemptPrefix(k).Some?
                  && Calm(t, AttemptPrefix(k).value, t.sweeps[v].listedAt, t.step)
      ensures k in t.store && t.store[k].uploadedAt == t.sweeps[v].listing[k]
    {
      assert Calm(mid, AttemptPrefix(k).value, mid.sweeps[v].listedAt, mid.step);
    }
  }

  /** A delete only touches a namespace none of whose commits so far is still live. */
  lemma DeleteSparesTheLive(cx: Codec, policy: LifecyclePolicy, s: State, w: nat, key: string, i: nat)
    requires Valid(policy) && Inv(cx, policy, s) && w < |s.sweeps| && MayDelete(policy, s.sweeps[w], key)
    requires i < |s.commits| && AttemptPrefix(key) == Some(s.commits[i].manifest.Prefix())
    requires Precedes(s, s.commits[i].step, s.sweeps[w], s.commits[i].manifest.Prefix())
    ensures !Live(policy, s.commits[i], s.now)
  {
    hide Valid, Period, AttemptPrefix, RecordOk, Manifest.WellFormed, Manifest.Prefix, EvidenceStands, Owned, Safe, NoOlder,
         ListedStands, Calm;
    var sw, r, p := s.sweeps[w], s.commits[i], AttemptPrefix(key).value;
    assert SweepPast(s, sw);
    if sw.classes[p] {
      var k :| k in Members(sw.listing, p) && sw.listing[k] == Oldest(sw.listing, p);
      assert Dates(s, w, i);
      assert r.oldest <= sw.listing[k];
    } else {
      assert ReadFailedAfter(s, w, i);
    }
  }

  lemma CalmSooner(s: State, p: string, from: nat, to: nat, end: nat)
    requires Calm(s, p, from, end) && to <= end
    ensures Calm(s, p, from, to)
  {
  }

  lemma BackedBelongs(m: Manifest, key: string)
    requires m.WellFormed() && Backs(m, key)
    ensures AttemptPrefix(key) == Some(m.Prefix())
  {
    MarkerKeyMember(m);
    hide AttemptPrefix, Manifest.CommitKey, Manifest.Prefix, Manifest.WellFormed;
    if n :| 0 <= n < |m.artifacts| && m.artifacts[n].key == key { ArtifactKeyMember(m, n); }
  }

  lemma DeleteKeepsOthers(r: CommitRecord, store: Store, key: string)
    requires Whole(r, store) && !Backs(r.manifest, key)
    ensures Whole(r, store - {key})
  {
    hide Manifest.CommitKey;
  }

  lemma DeleteKeepsEvidence(c: Committer, store: Store, key: string)
    requires !c.phase.Compare? && ReadyToPut(store, c) && !Relies(c, key)
    ensures ReadyToPut(store - {key}, c)
  {
    hide Manifest.CommitKey;
  }

  lemma DeleteKeeps(cx: Codec, policy: LifecyclePolicy, s: State, w: nat, key: string, fault: Fault)
    requires Valid(policy) && Inv(cx, policy, s)
    requires Enabled(policy, s, Delete(w, key, fault)) && Exclusive(s, Delete(w, key, fault))
    ensures Inv(cx, policy, Apply(cx, s, Delete(w, key, fault)))
  {
    hide Valid, Period, AttemptPrefix, Manifest.WellFormed, Manifest.CommitKey, Manifest.Prefix, ReadyToPut, Whole, MayDelete,
         Relies, Backs, Precedes;
    var t := Apply(cx, s, Delete(w, key, fault));
    forall i | 0 <= i < |t.commits| && Live(policy, t.commits[i], t.now) ensures Whole(t.commits[i], t.store) {
      assert Whole(s.commits[i], s.store) && RecordOk(cx, s.commits[i]);
      if fault != LostRequest {
        if Backs(s.commits[i].manifest, key) {
          BackedBelongs(s.commits[i].manifest, key);
          DeleteSparesTheLive(cx, policy, s, w, key, i);
        } else {
          DeleteKeepsOthers(s.commits[i], s.store, key);
        }
      }
    }
    forall j | 0 <= j < |t.committers|
      ensures t.committers[j].manifest.WellFormed()
      ensures t.committers[j].phase.Finished? || t.committers[j].phase.Compare?
              || ReadyToPut(t.store, t.committers[j])
    {
      var c := s.committers[j];
      if !c.phase.Finished? && !c.phase.Compare? && fault != LostRequest {
        assert ReadyToPut(s.store, c);
        DeleteKeepsEvidence(c, s.store, key);
      }
    }
    DeletionKeeps(policy, s, t, key);
  }

  /** A delete is over for every earlier commit, and ends the calm of its namespace. */
  lemma DeletionKeeps(policy: LifecyclePolicy, s: State, t: State, key: string)
    requires Valid(policy) && ListedNoOlder(s) && ListedStands(s) && FailedMeansExpired(policy, s) && SweepsPast(s)
    requires forall i | 0 <= i < |s.commits| :: s.commits[i].step < s.step
    requires t.sweeps == s.sweeps && t.commits == s.commits && t.step == s.step + 1 && t.now == s.now
    requires t.store == s.store || t.store == s.store - {key}
    requires s.deletions <= t.deletions
    requires forall d | |s.deletions| <= d < |t.deletions| :: t.deletions[d].step == s.step
    requires t.store != s.store && AttemptPrefix(key).Some? ==>
               t.deletions == s.deletions + [Deletion(AttemptPrefix(key).value, s.step)]
    ensures ListedNoOlder(t) && ListedStands(t) && FailedMeansExpired(policy, t) && SweepsPast(t)
  {
    hide Valid, Live, AttemptPrefix, Manifest.Prefix;
    FailedTick(policy, s, t);
    forall p, from: nat, to: nat | Calm(t, p, from, to) ensures Calm(s, p, from, to) {
      forall d | 0 <= d < |s.deletions| && s.deletions[d].prefix == p
        ensures s.deletions[d].step <= from || s.deletions[d].step >= to
      {
        assert t.deletions[d] == s.deletions[d];
      }
    }
    if t.store != s.store && AttemptPrefix(key).Some? {
      forall from: nat | from < s.step ensures !Calm(t, AttemptPrefix(key).value, from, t.step) {
        assert t.deletions[|s.deletions|] == Deletion(AttemptPrefix(key).value, s.step);
      }
    }
    forall w, i | 0 <= w < |t.sweeps| && 0 <= i < |t.commits|
                  && (t.commits[i].step < t.sweeps[w].listedAt
                      || Calm(t, t.commits[i].manifest.Prefix(), t.sweeps[w].listedAt, t.commits[i].step))
      ensures Dates(t, w, i)
    {
      assert Dates(s, w, i);
    }
    forall w, k | 0 <= w < |t.sweeps| && k in t.sweeps[w].listing && AttemptPrefix(k).Some?
                  && Calm(t, AttemptPrefix(k).value, t.sweeps[w].listedAt, t.step)
      ensures k in t.store && t.store[k].uploadedAt == t.sweeps[w].listing[k]
    {
      var p, sw := AttemptPrefix(k).value, t.sweeps[w];
      assert SweepPast(s, s.sweeps[w]);
      CalmSooner(s, p, sw.listedAt, s.step, t.step);
      assert k in s.store && s.store[k].uploadedAt == sw.listing[k];
    }
    forall w | 0 <= w < |t.sweeps| ensures SweepPast(t, t.sweeps[w]) { assert SweepPast(s, s.sweeps[w]); }
  }

  lemma StepKeeps(cx: Codec, policy: LifecyclePolicy, s: State, a: Action)
    requires Valid(policy) && Inv(cx, policy, s) && Enabled(policy, s, a) && Exclusive(s, a)
    ensures Inv(cx, policy, Apply(cx, s, a))
  {
    hide Valid, Inv, MayDelete, Exclusive, CreatesMarker, Manifest.WellFormed, Prefixes;
    match a
    case Wait(until) => WaitKeeps(cx, policy, s, until);
    case StepUploader(i, io) => UploaderKeeps(cx, policy, s, i, io);
    case StepCommitter(i, io) =>
      if CreatesMarker(s.store, s.committers[i], io) {
        MarkerKeeps(cx, policy, s, i, io);
      } else {
        CommitterKeeps(cx, policy, s, i, io);
      }
    case Classify(i, p, unreadable) => ClassifyKeeps(cx, policy, s, i, p, unreadable);
    case Delete(i, key, fault) => DeleteKeeps(cx, policy, s, i, key, fault);
    case _ => OthersKeep(cx, policy, s, a);
  }

  // ------------------------------------------------------------------ runs

  ghost predicate Runs(cx: Codec, policy: LifecyclePolicy, s: State, actions: seq<Action>, t: State)
    requires Valid(policy)
    decreases |actions|
  {
    if actions == [] then s == t
    else Enabled(policy, s, actions[0]) && Runs(cx, policy, Apply(cx, s, actions[0]), actions[1..], t)
  }

  /** The exclusion holds at every step of the run. */
  ghost predicate Disjoint(cx: Codec, policy: LifecyclePolicy, s: State, actions: seq<Action>)
    requires Valid(policy)
    decreases |actions|
  {
    actions == []
    || (Exclusive(s, actions[0])
        && (Enabled(policy, s, actions[0]) ==> Disjoint(cx, policy, Apply(cx, s, actions[0]), actions[1..])))
  }

  /** Whatever the store holds, no process is under way and no commit is recorded. */
  predicate Start(s: State) {
    s.uploaders == [] && s.committers == [] && s.sweeps == [] && s.commits == [] && s.deletions == []
  }

  /** Every commit call that reported a new marker has its record. */
  ghost predicate SuccessRecorded(s: State) {
    forall j | 0 <= j < |s.committers| && s.committers[j].phase == Finished(Returned(true)) ::
      exists i :: 0 <= i < |s.commits| && s.commits[i].owner == j
  }

  lemma OnlyPutSucceeds(cx: Codec, store: Store, c: Committer, io: Io)
    requires !c.phase.Finished?
    ensures StepCommit(cx, store, c, io).1.phase == Finished(Returned(true)) ==> CreatesMarker(store, c, io)
  {
    hide Manifest.CommitKey;
  }

  lemma SuccessKeeps(cx: Codec, policy: LifecyclePolicy, s: State, a: Action)
    requires Valid(policy) && SuccessRecorded(s) && Enabled(policy, s, a)
    ensures SuccessRecorded(Apply(cx, s, a))
  {
    hide Valid, MayDelete, Manifest.WellFormed, StepCommit, CreatesMarker, StepUpload, Prefixes, Listing;
    var t := Apply(cx, s, a);
    forall j | 0 <= j < |t.committers| && t.committers[j].phase == Finished(Returned(true))
      ensures exists i :: 0 <= i < |t.commits| && t.commits[i].owner == j
    {
      if j < |s.committers| && s.committers[j].phase == Finished(Returned(true)) {
        var i :| 0 <= i < |s.commits| && s.commits[i].owner == j;
        assert t.commits[i].owner == j;
      } else if a.StepCommitter? && a.i == j && !s.committers[j].phase.Finished? {
        OnlyPutSucceeds(cx, s.store, s.committers[j], a.io);
        assert t.commits[|s.commits|].owner == j;
      }
    }
  }

  lemma {:induction false} RunKeeps(cx: Codec, policy: LifecyclePolicy, s: State, actions: seq<Action>, t: State)
    requires Valid(policy) && Inv(cx, policy, s) && SuccessRecorded(s)
    requires Runs(cx, policy, s, actions, t) && Disjoint(cx, policy, s, actions)
    ensures Inv(cx, policy, t) && SuccessRecorded(t)
    decreases |actions|
  {
    hide Valid, Inv, SuccessRecorded, MayDelete, Manifest.WellFormed, Prefixes, Exclusive, Apply;
    if actions == [] {
    } else {
      StepKeeps(cx, policy, s, actions[0]);
      SuccessKeeps(cx, policy, s, actions[0]);
      RunKeeps(cx, policy, Apply(cx, s, actions[0]), actions[1..], t);
    }
  }

  /** The retention promise over whole runs: from any store, whatever calls fail, whichever
      deletes are refused and wherever processes die, a committed attempt keeps its marker and
      every artifact its marker lists, unchanged, until the deliverable period has passed since
      the oldest upload in its namespace at the commit. */
  lemma CommittedStaysWhole(cx: Codec, policy: LifecyclePolicy, s: State, actions: seq<Action>, t: State)
    requires Valid(policy) && Start(s)
    requires Runs(cx, policy, s, actions, t) && Disjoint(cx, policy, s, actions)
    ensures forall j | 0 <= j < |t.committers| && t.committers[j].phase == Finished(Returned(true)) ::
              exists i :: 0 <= i < |t.commits| && t.commits[i].owner == j
                          && t.commits[i].manifest == t.committers[j].manifest
    ensures forall i | 0 <= i < |t.commits| :: RecordOk(cx, t.commits[i])
    ensures forall i | 0 <= i < |t.commits| && t.now < t.commits[i].oldest + Period(policy, Deliverable) ::
              Whole(t.commits[i], t.store)
  {
    hide Valid, Period, RecordOk, Whole;
    RunKeeps(cx, policy, s, actions, t);
    forall i | 0 <= i < |t.commits| && t.now < t.commits[i].oldest + Period(policy, Deliverable)
      ensures Whole(t.commits[i], t.store)
    {
      assert Live(policy, t.commits[i], t.now);
    }
  }

  lemma RecordNames(store: Store, c: Committer, step: nat, i: nat)
    requires c.manifest.CommitKey() in store && c.manifest.WellFormed()
    ensures Record(store, c, step, i).manifest == c.manifest && Record(store, c, step, i).step == step
  {
    hide AttemptPrefix, Manifest.CommitKey, Manifest.Prefix, Manifest.WellFormed;
  }

  /** The exclusion is needed: a sweep that may still delete one of the artifacts when the
      marker is written leaves a marker whose attempt is no longer whole. */
  lemma OverlapBreaksTheCommit(cx: Codec, policy: LifecyclePolicy, s: State, i: nat, io: Io, w: nat, n: nat)
    requires Valid(policy) && Inv(cx, policy, s)
    requires Enabled(policy, s, StepCommitter(i, io)) && CreatesMarker(s.store, s.committers[i], io)
    requires n < |s.committers[i].manifest.artifacts|
    requires Enabled(policy, s, Delete(w, s.committers[i].manifest.artifacts[n].key, Fine))
    ensures var key := s.committers[i].manifest.artifacts[n].key;
            var t := Apply(cx, Apply(cx, s, StepCommitter(i, io)), Delete(w, key, Fine));
      && |t.commits| == |s.commits| + 1 && t.commits[|s.commits|].manifest == s.committers[i].manifest
      && !Whole(t.commits[|s.commits|], t.store)
      && !Exclusive(Apply(cx, s, StepCommitter(i, io)), Delete(w, key, Fine))
  {
    hide Valid, Inv, CreatesMarker, ReadyToPut, Whole, Exclusive, MayDelete, StepCommit, Apply, Manifest.WellFormed;
    PendingEvidence(cx, policy, s, i, io);
    ListedBefore(cx, policy, s, w);
    CommitThenDelete(cx, s, i, io, w, n);
  }

  lemma CommitThenDelete(cx: Codec, s: State, i: nat, io: Io, w: nat, n: nat)
    requires i < |s.committers| && w < |s.sweeps| && n < |s.committers[i].manifest.artifacts|
    requires s.committers[i].manifest.WellFormed() && ReadyToPut(s.store, s.committers[i])
    requires CreatesMarker(s.store, s.committers[i], io) && SweepPast(s, s.sweeps[w])
    ensures var key := s.committers[i].manifest.artifacts[n].key;
            var t := Apply(cx, Apply(cx, s, StepCommitter(i, io)), Delete(w, key, Fine));
      && |t.commits| == |s.commits| + 1 && t.commits[|s.commits|].manifest == s.committers[i].manifest
      && !Whole(t.commits[|s.commits|], t.store)
      && !Exclusive(Apply(cx, s, StepCommitter(i, io)), Delete(w, key, Fine))
  {
    hide CreatesMarker, ReadyToPut, Whole, Exclusive, StepCommit, Apply, Manifest.WellFormed, AttemptPrefix, Manifest.Prefix;
    var c, key := s.committers[i], s.committers[i].manifest.artifacts[n].key;
    var mid := Apply(cx, s, StepCommitter(i, io));
    MarkerStep(cx, s, i, io);
    NotExclusive(mid, |s.commits|, w, key);
    DeleteTakes(cx, mid, w, key);
    var t := Apply(cx, mid, Delete(w, key, Fine));
    MissingArtifact(t.commits[|s.commits|], t.store, n);
  }

  lemma NotExclusive(s: State, i: nat, w: nat, key: string)
    requires i < |s.commits| && w < |s.sweeps| && s.sweeps[w].listedAt <= s.commits[i].step
    requires forall p | p in s.sweeps[w].readAt :: s.sweeps[w].readAt[p] <= s.commits[i].step
    requires Backs(s.commits[i].manifest, key)
    ensures !Exclusive(s, Delete(w, key, Fine))
  {
    hide Manifest.Prefix, Backs;
  }

  lemma DeleteTakes(cx: Codec, s: State, w: nat, key: string)
    ensures var t := Apply(cx, s, Delete(w, key, Fine));
      t.commits == s.commits && t.store == s.store - {key}
  {
  }

  lemma MissingArtifact(r: CommitRecord, store: Store, n: nat)
    requires n < |r.manifest.artifacts| && r.manifest.artifacts[n].key !in store
    ensures !Whole(r, store)
  {
    hide Manifest.CommitKey;
  }

  lemma ListedBefore(cx: Codec, policy: LifecyclePolicy, s: State, w: nat)
    requires Valid(policy) && Inv(cx, policy, s) && w < |s.sweeps|
    ensures SweepPast(s, s.sweeps[w])
  {
    hide Valid, Owned, ListedStands, NoOlder, ListedNoOlder, FailedMeansExpired, Safe, EvidenceStands;
  }

  lemma MarkerStep(cx: Codec, s: State, i: nat, io: Io)
    requires i < |s.committers| && s.committers[i].manifest.WellFormed()
    requires CreatesMarker(s.store, s.committers[i], io) && ReadyToPut(s.store, s.committers[i])
    ensures var t, c := Apply(cx, s, StepCommitter(i, io)), s.committers[i];
      && |t.commits| == |s.commits| + 1 && t.commits[|s.commits|].manifest == c.manifest
      && t.sweeps == s.sweeps && t.commits[|s.commits|].step == s.step
  {
    StepCommitShape(cx, s.store, s.committers[i], io);
    hide StepCommit, Manifest.CommitKey, ReadyToPut, Manifest.Prefix, AttemptPrefix;
    RecordNames(Apply(cx, s, StepCommitter(i, io)).store, s.committers[i], s.step, i);
  }

  // --------------------------------------------- runs in which nothing is deleted

  /** The markers that were not there from the first. */
  ghost predicate MarkersBacked(first: Store, s: State) {
    forall p | IsNamespace(p) && MarkerKey(p) in s.store && MarkerKey(p) !in first ::
      exists i :: 0 <= i < |s.commits| && s.commits[i].manifest.Prefix() == p && Whole(s.commits[i], s.store)
  }

  ghost predicate ReturnsAgree(cx: Codec, s: State) {
    forall j | 0 <= j < |s.committers| && s.committers[j].phase.Finished? && s.committers[j].phase.outcome.Returned? ::
      && s.committers[j].manifest.CommitKey() in s.store
      && s.store[s.committers[j].manifest.CommitKey()].content == cx.canon(s.committers[j].manifest)
  }

  lemma RoleKeyIsNoMarker(job: string, attempt: string, role: Role, p: string)
    ensures RoleKey(job, attempt, role) != MarkerKey(p)
  {
    var k, m := RoleKey(job, attempt, role), MarkerKey(p);
    assert k[|k| - 2] == ".bin"[2] && m[|m| - 2] == COMMIT_MARKER[9];
  }

  lemma UploadAddsNoMarker(cx: Codec, store: Store, u: Uploader, io: Io, p: string)
    ensures MarkerKey(p) in StepUpload(cx, store, u, io).0 ==> MarkerKey(p) in store
  {
    match u.phase
    case PutArtifact(i) =>
      if i < |u.artifacts| { RoleKeyIsNoMarker(u.job, u.attempt, u.artifacts[i].role, p); }
    case _ =>
  }

  lemma WholeLasts(r: CommitRecord, store: Store, later: Store)
    requires Whole(r, store) && Extends(store, later)
    ensures Whole(r, later)
  {
    hide Manifest.CommitKey;
  }

  lemma BackedByGrowth(first: Store, s: State, t: State)
    requires MarkersBacked(first, s) && Extends(s.store, t.store) && s.commits <= t.commits
    requires forall p | IsNamespace(p) && MarkerKey(p) in t.store && MarkerKey(p) !in s.store ::
      exists i :: 0 <= i < |t.commits| && t.commits[i].manifest.Prefix() == p && Whole(t.commits[i], t.store)
    ensures MarkersBacked(first, t)
  {
    hide IsNamespace, Whole, Manifest.Prefix, MarkerKey;
    forall p | IsNamespace(p) && MarkerKey(p) in t.store && MarkerKey(p) !in first
      ensures exists i :: 0 <= i < |t.commits| && t.commits[i].manifest.Prefix() == p && Whole(t.commits[i], t.store)
    {
      if MarkerKey(p) in s.store {
        var i :| 0 <= i < |s.commits| && s.commits[i].manifest.Prefix() == p && Whole(s.commits[i], s.store);
        WholeLasts(s.commits[i], s.store, t.store);
        assert t.commits[i] == s.commits[i];
      }
    }
  }

  lemma StepKeepsStore(cx: Codec, policy: LifecyclePolicy, s: State, a: Action)
    requires Valid(policy) && Inv(cx, policy, s) && Enabled(policy, s, a) && !a.Delete?
    ensures var t := Apply(cx, s, a);
      Extends(s.store, t.store) && s.commits <= t.commits
  {
    hide Valid, MayDelete, Manifest.WellFormed, StepCommit, StepUpload, Prefixes, Listing, ReadyToPut, Manifest.CommitKey;
    if a.StepUploader? { UploadGrows(cx, s, a.i, a.io); }
    if a.StepCommitter? {
      StepCommitShape(cx, s.store, s.committers[a.i], a.io);
    }
  }

  lemma MarkerNames(m: Manifest, p: string)
    requires IsNamespace(p) && m.CommitKey() == MarkerKey(p)
    ensures m.Prefix() == p
  {
    assert m.Prefix() + COMMIT_MARKER == p + COMMIT_MARKER;
    assert m.CommitKey()[..|m.CommitKey()| - |COMMIT_MARKER|] == m.Prefix();
    assert MarkerKey(p)[..|MarkerKey(p)| - |COMMIT_MARKER|] == p;
  }

  lemma BackedKeeps(cx: Codec, policy: LifecyclePolicy, first: Store, s: State, a: Action)
    requires Valid(policy) && Inv(cx, policy, s) && Enabled(policy, s, a) && !a.Delete? && MarkersBacked(first, s)
    ensures MarkersBacked(first, Apply(cx, s, a))
  {
    StepKeepsStore(cx, policy, s, a);
    hide Valid, MayDelete, Manifest.WellFormed, StepCommit, StepUpload, Prefixes, Listing, MarkersBacked,
         CreatesMarker, IsNamespace, MarkerKey, Manifest.CommitKey, Manifest.Prefix, RecordOk, ReadyToPut;
    var t := Apply(cx, s, a);
    forall p | IsNamespace(p) && MarkerKey(p) in t.store && MarkerKey(p) !in s.store
      ensures exists i :: 0 <= i < |t.commits| && t.commits[i].manifest.Prefix() == p && Whole(t.commits[i], t.store)
    {
      if a.StepUploader? {
        UploadAddsNoMarker(cx, s.store, s.uploaders[a.i], a.io, p);
      } else if a.StepCommitter? {
        var c := s.committers[a.i];
        StepCommitShape(cx, s.store, c, a.io);
        if CreatesMarker(s.store, c, a.io) {
          NewRecord(cx, s, t.store, c, s.step, a.i);
          assert Whole(t.commits[|s.commits|], t.store);
          MarkerNames(c.manifest, p);
        }
      }
    }
    BackedByGrowth(first, s, t);
  }

  lemma ReturnShape(cx: Codec, store: Store, c: Committer, io: Io)
    requires !c.phase.Finished?
    ensures var (after, d) := StepCommit(cx, store, c, io);
      d.phase.Finished? && d.phase.outcome.Returned? ==>
        c.manifest.CommitKey() in after && after[c.manifest.CommitKey()].content == cx.canon(c.manifest)
        && d.manifest == c.manifest
  {
    hide Manifest.CommitKey;
  }

  lemma AgreementKeeps(cx: Codec, policy: LifecyclePolicy, s: State, a: Action)
    requires Valid(policy) && Inv(cx, policy, s) && Enabled(policy, s, a) && !a.Delete? && ReturnsAgree(cx, s)
    ensures ReturnsAgree(cx, Apply(cx, s, a))
  {
    StepKeepsStore(cx, policy, s, a);
    hide Valid, MayDelete, Manifest.WellFormed, StepCommit, StepUpload, Prefixes, Listing, CreatesMarker,
         Manifest.CommitKey, Inv;
    var t := Apply(cx, s, a);
    if a.StepCommitter? && !s.committers[a.i].phase.Finished? {
      ReturnShape(cx, s.store, s.committers[a.i], a.io);
    }
  }

  ghost predicate NoDeletes(actions: seq<Action>) {
    forall i | 0 <= i < |actions| :: !actions[i].Delete?
  }

  lemma {:induction false} UndeletedRunKeeps(cx: Codec, policy: LifecyclePolicy, first: Store, s: State, actions: seq<Action>, t: State)
    requires Valid(policy) && Inv(cx, policy, s) && MarkersBacked(first, s) && ReturnsAgree(cx, s)
    requires Runs(cx, policy, s, actions, t) && NoDeletes(actions)
    ensures Inv(cx, policy, t) && MarkersBacked(first, t) && ReturnsAgree(cx, t)
    decreases |actions|
  {
    hide Valid, Inv, MarkersBacked, ReturnsAgree, MayDelete, Manifest.WellFormed, Prefixes, Apply;
    if actions == [] {
    } else {
      assert Exclusive(s, actions[0]);
      StepKeeps(cx, policy, s, actions[0]);
      BackedKeeps(cx, policy, first, s, actions[0]);
      AgreementKeeps(cx, policy, s, actions[0]);
      assert forall i | 0 <= i < |actions[1..]| :: actions[1..][i] == actions[i + 1];
      UndeletedRunKeeps(cx, policy, first, Apply(cx, s, actions[0]), actions[1..], t);
    }
  }

  /** While nothing is deleted, from any store, in every interleaving and under every failure: a
      marker is added only over artifacts that are all stored with the size, digest and version
      it records, and all commit calls that returned for one key, True or False, had the bytes
      the marker has, whether it was added or there before. */
  lemma MarkersAreBackedAndAgreed(cx: Codec, policy: LifecyclePolicy, s: State, actions: seq<Action>, t: State)
    requires Valid(policy) && Start(s)
    requires Runs(cx, policy, s, actions, t) && NoDeletes(actions)
    ensures forall p | IsNamespace(p) && MarkerKey(p) in t.store && MarkerKey(p) !in s.store ::
      exists i :: 0 <= i < |t.commits| && t.commits[i].manifest.Prefix() == p
                  && t.store[MarkerKey(p)].content == cx.canon(t.commits[i].manifest)
                  && AllHold(t.store, t.commits[i].manifest.artifacts)
    ensures forall j, k | 0 <= j < |t.committers| && 0 <= k < |t.committers|
        && t.committers[j].phase.Finished? && t.committers[j].phase.outcome.Returned?
        && t.committers[k].phase.Finished? && t.committers[k].phase.outcome.Returned?
        && t.committers[j].manifest.CommitKey() == t.committers[k].manifest.CommitKey()
      :: t.committers[j].manifest.CommitKey() in t.store
         && cx.canon(t.committers[j].manifest) == cx.canon(t.committers[k].manifest)
            == t.store[t.committers[j].manifest.CommitKey()].content
  {
    UndeletedRunKeeps(cx, policy, s.store, s, actions, t);
    hide Valid, IsNamespace, MarkerKey, Namespace, Manifest.WellFormed, Runs;
    forall p | IsNamespace(p) && MarkerKey(p) in t.store && MarkerKey(p) !in s.store
      ensures exists i :: 0 <= i < |t.commits| && t.commits[i].manifest.Prefix() == p
                  && t.store[MarkerKey(p)].content == cx.canon(t.commits[i].manifest)
                  && AllHold(t.store, t.commits[i].manifest.artifacts)
    {
      var i :| 0 <= i < |t.commits| && t.commits[i].manifest.Prefix() == p && Whole(t.commits[i], t.store);
      WholeMeansHeld(cx, t.commits[i], t.store);
    }
  }

  lemma WholeMeansHeld(cx: Codec, r: CommitRecord, store: Store)
    requires RecordOk(cx, r) && Whole(r, store)
    ensures AllHold(store, r.manifest.artifacts)
    ensures store[r.manifest.CommitKey()].content == cx.canon(r.manifest)
  {
    hide Manifest.CommitKey, Manifest.Prefix, Manifest.WellFormed, IsOldest;
    forall i | 0 <= i < |r.manifest.artifacts| ensures ArtifactHolds(store, r.manifest.artifacts[i]) {
      assert ArtifactHolds(r.held, r.manifest.artifacts[i]);
    }
  }
}
