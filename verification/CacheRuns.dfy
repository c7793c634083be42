/** Runs that interleave hydrations, leases and evictions over one cache.

    Between two awaits a hydration acts alone: it checks and unlinks in one step, and verifies
    and promotes in one. Its download writes its own partial in between. */
module CacheRuns {
  import opened Prelude
  import opened Cache

  datatype Phase = Waiting | Downloading | Returned(bytes: nat) | Failed

  datatype Task = Task(digest: string, size: nat, name: string, phase: Phase)

  datatype State = State(blobs: Blobs, partials: map<string, Bytes>, leases: map<string, nat>, tasks: seq<Task>)

  datatype Action =
    | Arrive(digest: string, size: nat, name: string)
    | Begin(i: nat)
    | Write(i: nat, content: Bytes)
    | Land(i: nat, ok: bool, now: int)
    | Lease(event: LeaseEvent)
    | Evict(removed: set<string>)

  /** The digest's lock is held. */
  ghost predicate Locked(s: State, digest: string) {
    exists j :: 0 <= j < |s.tasks| && s.tasks[j].digest == digest && s.tasks[j].phase.Downloading?
  }

  ghost predicate Enabled(s: State, a: Action) {
    match a
    case Arrive(_, _, name) => name !in s.partials && forall j | 0 <= j < |s.tasks| :: s.tasks[j].name != name
    case Begin(i) => i < |s.tasks| && s.tasks[i].phase.Waiting? && !Locked(s, s.tasks[i].digest)
    case Write(i, _) => i < |s.tasks| && s.tasks[i].phase.Downloading?
    case Land(i, _, _) => i < |s.tasks| && s.tasks[i].phase.Downloading?
    case Lease(e) => e.Exit? ==> e.digest in s.leases
    case Evict(removed) => forall d | d in removed :: Held(s.leases, d) == 0
  }

  function Stepped(s: State, i: nat, phase: Phase): State
    requires i < |s.tasks|
  {
    s.(tasks := s.tasks[i := s.tasks[i].(phase := phase)])
  }

  ghost function Apply(sha: Bytes -> string, s: State, a: Action): State
    requires Enabled(s, a)
  {
    match a
    case Arrive(digest, size, name) => s.(tasks := s.tasks + [Task(digest, size, name, Waiting)])
    case Begin(i) =>
      var t := s.tasks[i];
      if Verified(s.blobs, sha, t.digest, t.size) then Stepped(s, i, Returned(0))
      else Stepped(s, i, Downloading).(blobs := s.blobs - {t.digest})
    case Write(i, content) => s.(partials := s.partials[s.tasks[i].name := content])
    case Land(i, ok, now) =>
      var t := s.tasks[i];
      var landed := ok && t.name in s.partials && |s.partials[t.name]| == t.size && sha(s.partials[t.name]) == t.digest;
      Stepped(s, i, if landed then Returned(t.size) else Failed).(
        blobs := if landed then s.blobs[t.digest := Blob(s.partials[t.name], now)] else s.blobs,
        partials := s.partials - {t.name})
    case Lease(e) => s.(leases := AfterEvent(s.leases, e))
    case Evict(removed) => s.(blobs := s.blobs - removed)
  }

  ghost predicate Runs(sha: Bytes -> string, s: State, actions: seq<Action>, t: State)
    decreases |actions|
  {
    if actions == [] then s == t
    else Enabled(s, actions[0]) && Runs(sha, Apply(sha, s, actions[0]), actions[1..], t)
  }

  // -------------------------------------------------------- locks and partials

  ghost predicate OneDownload(s: State) {
    forall i, j | 0 <= i < j < |s.tasks| && s.tasks[i].phase.Downloading? && s.tasks[j].phase.Downloading? ::
      s.tasks[i].digest != s.tasks[j].digest
  }

  ghost predicate OwnNames(s: State) {
    forall i, j | 0 <= i < j < |s.tasks| :: s.tasks[i].name != s.tasks[j].name
  }

  ghost predicate Writing(s: State, name: string) {
    exists i :: 0 <= i < |s.tasks| && s.tasks[i].name == name && s.tasks[i].phase.Downloading?
  }

  ghost predicate NoStrays(s: State) {
    forall name | name in s.partials :: Writing(s, name)
  }

  ghost predicate Tidy(s: State) {
    OneDownload(s) && OwnNames(s) && NoStrays(s)
  }

  lemma StraysNowhere(sha: Bytes -> string, s: State, a: Action)
    requires Tidy(s) && Enabled(s, a)
    ensures NoStrays(Apply(sha, s, a))
  {
    var t := Apply(sha, s, a);
    forall name | name in t.partials ensures Writing(t, name) {
      if a.Write? && name == s.tasks[a.i].name {
        assert t.tasks[a.i].name == name;
      } else {
        assert Writing(s, name);
        var j :| 0 <= j < |s.tasks| && s.tasks[j].name == name && s.tasks[j].phase.Downloading?;
        assert t.tasks[j] == s.tasks[j];
      }
    }
  }

  lemma {:induction false} TidyRuns(sha: Bytes -> string, s: State, actions: seq<Action>, t: State)
    requires Tidy(s) && Runs(sha, s, actions, t)
    ensures Tidy(t)
    decreases |actions|
  {
    hide NoStrays;
    if actions == [] {
    } else {
      StraysNowhere(sha, s, actions[0]);
      TidyRuns(sha, Apply(sha, s, actions[0]), actions[1..], t);
    }
  }

  /** From an empty cache, in every run: no two downloads of one digest are ever under way, and
      a partial is there only while its own download is. */
  lemma PartialsBelongToDownloads(sha: Bytes -> string, s: State, actions: seq<Action>, t: State)
    requires s.tasks == [] && s.partials == map[] && Runs(sha, s, actions, t)
    ensures OneDownload(t)
    ensures (forall i | 0 <= i < |t.tasks| :: !t.tasks[i].phase.Downloading?) ==> t.partials == map[]
  {
    TidyRuns(sha, s, actions, t);
    if t.partials != map[] {
      var name :| name in t.partials;
      assert Writing(t, name);
    }
  }

  // ------------------------------------------------------------- what is verified

  /** The step in which a hydration returns leaves its blob verified: on a warm one it brought
      nothing, else its size. */
  ghost predicate ReturnsNow(sha: Bytes -> string, s: State, a: Action, i: nat)
    requires Enabled(s, a)
  {
    var t := Apply(sha, s, a);
    && i < |s.tasks| && !s.tasks[i].phase.Returned? && i < |t.tasks| && t.tasks[i].phase.Returned?
    && Verified(t.blobs, sha, t.tasks[i].digest, t.tasks[i].size)
    && t.tasks[i].phase.bytes == (if a.Begin? then 0 else t.tasks[i].size)
    && (a.Begin? ==> Verified(s.blobs, sha, t.tasks[i].digest, t.tasks[i].size))
  }

  lemma ReturnedLasts(sha: Bytes -> string, s: State, a: Action, i: nat)
    requires Enabled(s, a) && i < |Apply(sha, s, a).tasks| && Apply(sha, s, a).tasks[i].phase.Returned?
    ensures i < |s.tasks|
    ensures if s.tasks[i].phase.Returned? then Apply(sha, s, a).tasks[i] == s.tasks[i] else ReturnsNow(sha, s, a, i)
  {
  }

  /** In every run each hydration that has returned did so in one step of the run, whatever ran
      beside it, and that step left its blob verified. */
  lemma {:induction false} ReturnsVerified(sha: Bytes -> string, s: State, actions: seq<Action>, t: State, i: nat)
    returns (k: nat, u: State)
    requires Runs(sha, s, actions, t) && i < |t.tasks| && t.tasks[i].phase.Returned?
    requires i < |s.tasks| ==> !s.tasks[i].phase.Returned?
    ensures k < |actions| && Runs(sha, s, actions[..k], u) && Enabled(u, actions[k])
    ensures ReturnsNow(sha, u, actions[k], i) && Apply(sha, u, actions[k]).tasks[i] == t.tasks[i]
    ensures Runs(sha, Apply(sha, u, actions[k]), actions[k + 1..], t)
    decreases |actions|
  {
    hide ReturnsNow, Apply;
    var next := Apply(sha, s, actions[0]);
    if i < |next.tasks| && next.tasks[i].phase.Returned? {
      ReturnedLasts(sha, s, actions[0], i);
      ReturnedStays(sha, next, actions[1..], t, i);
      k, u := 0, s;
    } else {
      k, u := ReturnsVerified(sha, next, actions[1..], t, i);
      assert actions[..k + 1][0] == actions[0] && actions[..k + 1][1..] == actions[1..][..k];
      assert actions[1..][k + 1..] == actions[k + 2..];
      k := k + 1;
    }
  }

  lemma {:induction false} ReturnedStays(sha: Bytes -> string, s: State, actions: seq<Action>, t: State, i: nat)
    requires Runs(sha, s, actions, t) && i < |s.tasks| && s.tasks[i].phase.Returned?
    ensures i < |t.tasks| && t.tasks[i] == s.tasks[i]
    decreases |actions|
  {
    if actions == [] {
    } else {
      ReturnedStays(sha, Apply(sha, s, actions[0]), actions[1..], t, i);
    }
  }

  // ------------------------------------------------------------- what a lease keeps

  /** Nothing is there of a digest that is being downloaded. */
  ghost predicate NothingDownloaded(s: State) {
    forall i | 0 <= i < |s.tasks| && s.tasks[i].phase.Downloading? :: s.tasks[i].digest !in s.blobs
  }

  lemma {:induction false} NothingDownloadedRuns(sha: Bytes -> string, s: State, actions: seq<Action>, t: State)
    requires OneDownload(s) && NothingDownloaded(s) && Runs(sha, s, actions, t)
    ensures OneDownload(t) && NothingDownloaded(t)
    decreases |actions|
  {
    if actions == [] {
    } else {
      NothingDownloadedRuns(sha, Apply(sha, s, actions[0]), actions[1..], t);
    }
  }

  ghost predicate LeasedThroughout(sha: Bytes -> string, s: State, actions: seq<Action>, digest: string)
    decreases |actions|
  {
    && Held(s.leases, digest) > 0
    && (actions != [] && Enabled(s, actions[0]) ==> LeasedThroughout(sha, Apply(sha, s, actions[0]), actions[1..], digest))
  }

  ghost predicate VerifiedThroughout(sha: Bytes -> string, s: State, actions: seq<Action>, digest: string, size: nat)
    decreases |actions|
  {
    && Verified(s.blobs, sha, digest, size)
    && (actions != [] && Enabled(s, actions[0]) ==>
          VerifiedThroughout(sha, Apply(sha, s, actions[0]), actions[1..], digest, size))
  }

  /** Whenever a hydration of the digest begins, it names this size. */
  ghost predicate BegunAtSize(sha: Bytes -> string, s: State, actions: seq<Action>, digest: string, size: nat)
    decreases |actions|
  {
    actions != [] && Enabled(s, actions[0]) ==>
      && (actions[0].Begin? && s.tasks[actions[0].i].digest == digest ==> s.tasks[actions[0].i].size == size)
      && BegunAtSize(sha, Apply(sha, s, actions[0]), actions[1..], digest, size)
  }

  /** One step keeps a leased blob verified unless it begins a hydration at another size. */
  lemma LeasedStep(sha: Bytes -> string, s: State, a: Action, digest: string, size: nat)
    requires Enabled(s, a) && NothingDownloaded(s) && Held(s.leases, digest) > 0 && Verified(s.blobs, sha, digest, size)
    ensures Verified(Apply(sha, s, a).blobs, sha, digest, size)
            <==> (a.Begin? && s.tasks[a.i].digest == digest ==> s.tasks[a.i].size == size)
  {
  }

  lemma {:induction false} LeasedStaysFrom(sha: Bytes -> string, s: State, actions: seq<Action>, t: State, digest: string, size: nat)
    requires OneDownload(s) && NothingDownloaded(s) && Runs(sha, s, actions, t)
    requires LeasedThroughout(sha, s, actions, digest) && Verified(s.blobs, sha, digest, size)
    ensures VerifiedThroughout(sha, s, actions, digest, size) <==> BegunAtSize(sha, s, actions, digest, size)
    decreases |actions|
  {
    if actions == [] {
    } else {
      hide Verified, Apply, Enabled, OneDownload, NothingDownloaded;
      var next := Apply(sha, s, actions[0]);
      assert Runs(sha, s, actions[..1], next) by { FirstStep(sha, s, actions); }
      NothingDownloadedRuns(sha, s, actions[..1], next);
      LeasedStep(sha, s, actions[0], digest, size);
      if Verified(next.blobs, sha, digest, size) {
        LeasedStaysFrom(sha, next, actions[1..], t, digest, size);
      }
    }
  }

  lemma FirstStep(sha: Bytes -> string, s: State, actions: seq<Action>)
    requires actions != [] && Enabled(s, actions[0])
    ensures Runs(sha, s, actions[..1], Apply(sha, s, actions[0]))
  {
    assert actions[..1][0] == actions[0] && actions[..1][1..] == [];
  }

  /** Whatever is evicted or hydrated beside it, a verified blob that is leased throughout a run
      is verified throughout it exactly when no hydration of its digest begins at another size.
      From any state that runs reach. */
  lemma LeasedStaysVerified(sha: Bytes -> string, first: State, before: seq<Action>, s: State, actions: seq<Action>,
                            t: State, digest: string, size: nat)
    requires first.tasks == [] && Runs(sha, first, before, s) && Runs(sha, s, actions, t)
    requires LeasedThroughout(sha, s, actions, digest) && Verified(s.blobs, sha, digest, size)
    ensures VerifiedThroughout(sha, s, actions, digest, size) <==> BegunAtSize(sha, s, actions, digest, size)
  {
    NothingDownloadedRuns(sha, first, before, s);
    LeasedStaysFrom(sha, s, actions, t, digest, size);
  }

  lemma {:induction false} Then(sha: Bytes -> string, s: State, actions: seq<Action>, t: State, a: Action)
    requires Runs(sha, s, actions, t) && Enabled(t, a)
    ensures Runs(sha, s, actions + [a], Apply(sha, t, a))
    decreases |actions|
  {
    hide Apply, Enabled;
    if actions == [] {
      assert Runs(sha, Apply(sha, t, a), [], Apply(sha, t, a));
      assert ([a] + [])[1..] == [] && actions + [a] == [a];
    } else {
      assert (actions + [a])[1..] == actions[1..] + [a];
      Then(sha, Apply(sha, s, actions[0]), actions[1..], t, a);
    }
  }

  const EMPTY: State := State(map[], map[], map[], [])

  lemma Warmed(sha: Bytes -> string, content: Bytes) returns (actions: seq<Action>, s: State)
    ensures Runs(sha, EMPTY, actions, s)
    ensures var d := sha(content);
      s == State(map[d := Blob(content, 0)], map[], map[d := 1], [Task(d, |content|, "a", Returned(|content|))])
  {
    hide Runs;
    var d := sha(content);
    var todo := [Arrive(d, |content|, "a"), Begin(0), Write(0, content), Land(0, true, 0), Lease(Enter(d))];
    actions, s := [], EMPTY;
    Nothing(sha, s);
    while |actions| < 5
      invariant |actions| <= 5 && Runs(sha, EMPTY, actions, s)
      invariant |actions| == 0 ==> s == EMPTY
      invariant |actions| == 1 ==> s == State(map[], map[], map[], [Task(d, |content|, "a", Waiting)])
      invariant |actions| == 2 ==> s == State(map[], map[], map[], [Task(d, |content|, "a", Downloading)])
      invariant |actions| == 3 ==> s == State(map[], map["a" := content], map[], [Task(d, |content|, "a", Downloading)])
      invariant |actions| == 4 ==>
        s == State(map[d := Blob(content, 0)], map[], map[], [Task(d, |content|, "a", Returned(|content|))])
      invariant |actions| == 5 ==>
        s == State(map[d := Blob(content, 0)], map[], map[d := 1], [Task(d, |content|, "a", Returned(|content|))])
    {
      var a := todo[|actions|];
      Then(sha, EMPTY, actions, s, a);
      actions, s := actions + [a], Apply(sha, s, a);
    }
  }

  /** The size matters. For every content and every other size, from the empty cache: a blob is
      hydrated and leased, a hydration that names the other size begins, and the blob is gone
      while the lease is still open. */
  lemma LeaseDoesNotShield(sha: Bytes -> string, content: Bytes, other: nat)
    returns (before: seq<Action>, s: State, actions: seq<Action>, t: State)
    requires other != |content|
    ensures Runs(sha, EMPTY, before, s) && Runs(sha, s, actions, t)
    ensures LeasedThroughout(sha, s, actions, sha(content)) && Verified(s.blobs, sha, sha(content), |content|)
    ensures Held(t.leases, sha(content)) > 0 && sha(content) !in t.blobs
  {
    var d := sha(content);
    before, s := Warmed(sha, content);
    hide Runs, LeasedThroughout;
    var late, again := Arrive(d, other, "b"), Begin(1);
    var between := Apply(sha, s, late);
    t := Apply(sha, between, again);
    actions := [late] + [again];
    Nothing(sha, s);
    Then(sha, s, [], s, late);
    assert [] + [late] == [late];
    Then(sha, s, [late], between, again);
    LeasedTwice(sha, s, late, again, d);
  }

  lemma Nothing(sha: Bytes -> string, s: State)
    ensures Runs(sha, s, [], s)
  {
  }

  lemma LeasedTwice(sha: Bytes -> string, s: State, a: Action, b: Action, digest: string)
    requires Enabled(s, a) && Enabled(Apply(sha, s, a), b) && !a.Lease? && !b.Lease? && Held(s.leases, digest) > 0
    ensures LeasedThroughout(sha, s, [a] + [b], digest)
  {
    hide Enabled;
    var u := Apply(sha, s, a);
    assert ([a] + [b])[1..] == [b] && [b][1..] == [];
    assert LeasedThroughout(sha, Apply(sha, u, b), [], digest);
    assert LeasedThroughout(sha, u, [b], digest);
  }
}
