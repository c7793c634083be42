/** The artifact catalog: blobs published first, the manifest last, and pinned resolution.

    Other publishers may add objects before any store call; nothing is overwritten. */
module Catalog {
  import opened Prelude
  import opened Results
  import opened ResultLaws

  datatype Entry = Entry(name: string, key: string, sha: string, size: nat)

  datatype ModelSet = ModelSet(id: string, createdAt: int, provenance: string, license: string, artifacts: seq<Entry>)

  /** Canonical bytes, their parser and the hash: library behaviour. */
  datatype CatalogCodec = CatalogCodec(canon: ModelSet -> Bytes, parse: Bytes -> Option<ModelSet>, sha: Bytes -> string) {
    function Digest(m: ModelSet): string {
      sha(canon(m))
    }

    function ManifestKey(m: ModelSet): string {
      "manifests/sha256/" + Digest(m) + ".json"
    }

    ghost predicate RoundTrips(m: ModelSet) {
      parse(canon(m)) == Some(m)
    }
  }

  /** One store call: its circumstances, and what others added since the call before. */
  datatype Call = Call(io: Io, arrivals: Store)

  function Arrive(store: Store, call: Call): Store {
    call.arrivals + store
  }

  datatype PublishError =
    | SourceMissing | LocalMismatch | BlobConflict | BlobVerification | ManifestVerification | StoreRaised

  datatype Receipt = Receipt(key: string, digest: string, version: string, reused: nat, uploaded: nat)

  predicate Held(store: Store, e: Entry) {
    e.key in store && |store[e.key].content| == e.size && store[e.key].sha == e.sha
  }

  ghost predicate AllHeld(store: Store, m: ModelSet) {
    forall i | 0 <= i < |m.artifacts| :: Held(store, m.artifacts[i])
  }

  /** The head or put of one blob; also the number of the next call. */
  function RunBlob(sha: Bytes -> string, store: Store, content: Bytes, e: Entry, calls: nat -> Call, n: nat)
    : (Store, Result<bool, PublishError>, nat)
  {
    if |content| != e.size || sha(content) != e.sha then (store, Err(LocalMismatch), n) else
    var s := Arrive(store, calls(n));
    if calls(n).io.fault != Fine then (s, Err(StoreRaised), n + 1)
    else if e.key in s then (s, if Held(s, e) then Ok(true) else Err(BlobConflict), n + 1) else
    var t := Arrive(s, calls(n + 1));
    var after := AfterPut(t, e.key, content, e.sha, calls(n + 1).io);
    if !PutReturns(t, e.key, calls(n + 1).io) then (after, Err(StoreRaised), n + 2)
    else if !Held(after, e) then (after, Err(BlobVerification), n + 2)
    else (after, Ok(false), n + 2)
  }

  /** Artifacts from the i-th on; Ok gives how many were reused and uploaded. */
  function RunBlobs(cx: CatalogCodec, store: Store, m: ModelSet, sources: map<string, Bytes>, i: nat, calls: nat -> Call, n: nat)
    : (Store, Result<(nat, nat), PublishError>, nat)
    requires i <= |m.artifacts|
    decreases |m.artifacts| - i
  {
    if i == |m.artifacts| then (store, Ok((0, 0)), n) else
    var e := m.artifacts[i];
    if e.name !in sources then (store, Err(SourceMissing), n) else
    var (s, r, k) := RunBlob(cx.sha, store, sources[e.name], e, calls, n);
    if r.Err? then (s, Err(r.error), k) else
    var (after, counts, next) := RunBlobs(cx, s, m, sources, i + 1, calls, k);
    (after, Credit(counts, r.value), next)
  }

  function Credit(counts: Result<(nat, nat), PublishError>, reused: bool): Result<(nat, nat), PublishError> {
    match counts
    case Err(e) => Err(e)
    case Ok((r, u)) => Ok(if reused then (r + 1, u) else (r, u + 1))
  }

  function RunManifest(cx: CatalogCodec, store: Store, m: ModelSet, reused: nat, uploaded: nat, calls: nat -> Call, n: nat)
    : (Store, Result<Receipt, PublishError>)
  {
    var key, content, digest := cx.ManifestKey(m), cx.canon(m), cx.Digest(m);
    var s := Arrive(store, calls(n));
    if calls(n).io.fault != Fine then (s, Err(StoreRaised)) else
    var t := if key in s then s else Arrive(s, calls(n + 1));
    var after := if key in s then s else AfterPut(t, key, content, digest, calls(n + 1).io);
    if key !in s && !PutReturns(t, key, calls(n + 1).io) then (after, Err(StoreRaised))
    else if |after[key].content| != |content| || after[key].sha != digest then (after, Err(ManifestVerification))
    else (after, Ok(Receipt(key, digest, after[key].version, reused, uploaded)))
  }

  function RunPublish(cx: CatalogCodec, store: Store, m: ModelSet, sources: map<string, Bytes>, calls: nat -> Call)
    : (Store, Result<Receipt, PublishError>)
  {
    var (s, counts, n) := RunBlobs(cx, store, m, sources, 0, calls, 0);
    match counts
    case Err(e) => (s, Err(e))
    case Ok((reused, uploaded)) => RunManifest(cx, s, m, reused, uploaded, calls, n)
  }

  // --------------------------------------------------------------- services

  class ArtifactStore {
    var objects: Store

    constructor (initial: Store)
      ensures objects == initial
    {
      objects := initial;
    }

    method Head(key: string, call: Call) returns (r: Result<Option<Metadata>, ()>)
      modifies this
      ensures objects == Arrive(old(objects), call)
      ensures r == if call.io.fault != Fine then Err(())
                   else Ok(if key in objects then Some(objects[key].Meta()) else None)
    {
      objects := Arrive(objects, call);
      if call.io.fault != Fine { return Err(()); }
      r := Ok(if key in objects then Some(objects[key].Meta()) else None);
    }

    method Put(key: string, content: Bytes, sha: string, call: Call) returns (r: Result<Metadata, ()>)
      modifies this
      ensures var t := Arrive(old(objects), call);
        && objects == AfterPut(t, key, content, sha, call.io)
        && r == if PutReturns(t, key, call.io) then Ok(Metadata(|content|, sha, call.io.version)) else Err(())
    {
      objects := Arrive(objects, call);
      var answered := PutReturns(objects, key, call.io);
      objects := AfterPut(objects, key, content, sha, call.io);
      r := if answered then Ok(Metadata(|content|, sha, call.io.version)) else Err(());
    }
  }

  class ArtifactPublisher {
    const store: ArtifactStore

    constructor (store: ArtifactStore)
      ensures this.store == store
    {
      this.store := store;
    }

    /** One blob: refuse a source that differs from its entry, then find or store the object. */
    method PublishBlob(sha: Bytes -> string, content: Bytes, e: Entry, calls: nat -> Call, n: nat)
      returns (r: Result<bool, PublishError>, next: nat)
      modifies store
      ensures (store.objects, r, next) == RunBlob(sha, old(store.objects), content, e, calls, n)
    {
      var digest := sha(content);
      if |content| != e.size || digest != e.sha { return Err(LocalMismatch), n; }
      var current := store.Head(e.key, calls(n));
      if current.Err? { return Err(StoreRaised), n + 1; }
      if current.value.Some? {
        if current.value.value.size != e.size || current.value.value.sha != e.sha {
          return Err(BlobConflict), n + 1;
        }
        return Ok(true), n + 1;
      }
      var created := store.Put(e.key, content, e.sha, calls(n + 1));
      next := n + 2;
      r := if created.Err? then Err(StoreRaised)
           else if created.value.size != e.size || created.value.sha != e.sha then Err(BlobVerification)
           else Ok(false);
    }

    /** A model set: its blobs in order, and its manifest after the last. */
    method Publish(cx: CatalogCodec, m: ModelSet, sources: map<string, Bytes>, calls: nat -> Call)
      returns (r: Result<Receipt, PublishError>)
      modifies store
      ensures (store.objects, r) == RunPublish(cx, old(store.objects), m, sources, calls)
    {
      hide RunBlob, RunBlobs, RunManifest, Credit, Plus;
      var reused, uploaded, n := 0, 0, 0;
      PlusNothing(RunBlobs(cx, store.objects, m, sources, 0, calls, 0).1);
      ghost var all := RunBlobs(cx, store.objects, m, sources, 0, calls, 0);
      for i := 0 to |m.artifacts|
        invariant reused >= 0 && uploaded >= 0
        invariant var (after, counts, next) := RunBlobs(cx, store.objects, m, sources, i, calls, n);
                    all == (after, Plus(counts, reused, uploaded), next)
      {
        var e := m.artifacts[i];
        BlobsUnfold(cx, store.objects, m, sources, i, calls, n, reused, uploaded);
        if e.name !in sources { return Err(SourceMissing); }
        var stored;
        stored, n := PublishBlob(cx.sha, sources[e.name], e, calls, n);
        if stored.Err? { return Err(stored.error); }
        if stored.value { reused := reused + 1; } else { uploaded := uploaded + 1; }
      }
      BlobsUnfold(cx, store.objects, m, sources, |m.artifacts|, calls, n, reused, uploaded);
      r := PublishManifest(cx, m, reused, uploaded, calls, n);
    }

    method PublishManifest(cx: CatalogCodec, m: ModelSet, reused: nat, uploaded: nat, calls: nat -> Call, n: nat)
      returns (r: Result<Receipt, PublishError>)
      modifies store
      ensures (store.objects, r) == RunManifest(cx, old(store.objects), m, reused, uploaded, calls, n)
    {
      var content, digest, key := cx.canon(m), cx.Digest(m), cx.ManifestKey(m);
      var current := store.Head(key, calls(n));
      if current.Err? { return Err(StoreRaised); }
      var metadata: Metadata;
      if current.value.Some? {
        metadata := current.value.value;
      } else {
        var created := store.Put(key, content, digest, calls(n + 1));
        if created.Err? { return Err(StoreRaised); }
        metadata := created.value;
      }
      if metadata.size != |content| || metadata.sha != digest { return Err(ManifestVerification); }
      return Ok(Receipt(key, digest, metadata.version, reused, uploaded));
    }
  }

  ghost function Plus(counts: Result<(nat, nat), PublishError>, reused: nat, uploaded: nat)
    : Result<(nat, nat), PublishError>
  {
    match counts
    case Err(e) => Err(e)
    case Ok((r, u)) => Ok((r + reused, u + uploaded))
  }

  lemma PlusNothing(counts: Result<(nat, nat), PublishError>)
    ensures Plus(counts, 0, 0) == counts
  {
  }

  /** One round of the publishing loop, with the counts so far carried along. */
  lemma BlobsUnfold(cx: CatalogCodec, store: Store, m: ModelSet, sources: map<string, Bytes>, i: nat, calls: nat -> Call, n: nat,
                    reused: nat, uploaded: nat)
    requires i <= |m.artifacts|
    ensures var (after, counts, next) := RunBlobs(cx, store, m, sources, i, calls, n);
      if i == |m.artifacts| then (after, Plus(counts, reused, uploaded), next) == (store, Ok((reused, uploaded)), n)
      else if m.artifacts[i].name !in sources then (after, Plus(counts, reused, uploaded)) == (store, Err(SourceMissing))
      else
        var (s, r, k) := RunBlob(cx.sha, store, sources[m.artifacts[i].name], m.artifacts[i], calls, n);
        if r.Err? then (after, Plus(counts, reused, uploaded)) == (s, Err(r.error))
        else
          var (a, c, x) := RunBlobs(cx, s, m, sources, i + 1, calls, k);
          after == a && next == x
          && Plus(counts, reused, uploaded) == if r.value then Plus(c, reused + 1, uploaded) else Plus(c, reused, uploaded + 1)
  {
    hide RunBlob;
  }

  // ---------------------------------------------------------------- resolver

  datatype ResolveError = StoreUnavailable | IdentityMismatch | ManifestInvalid | ReferenceInvalid

  function Resolve(cx: CatalogCodec, store: Store, key: string, digest: string, calls: nat -> Call)
    : Result<ModelSet, ResolveError>
  {
    var s := Arrive(store, calls(0));
    if calls(0).io.fault != Fine || key !in s then Err(StoreUnavailable)
    else if cx.sha(s[key].content) != digest then Err(IdentityMismatch)
    else match cx.parse(s[key].content)
      case None => Err(ManifestInvalid)
      case Some(m) => CheckReferences(s, m, 0, calls)
  }

  function CheckReferences(store: Store, m: ModelSet, i: nat, calls: nat -> Call): Result<ModelSet, ResolveError>
    requires i <= |m.artifacts|
    decreases |m.artifacts| - i
  {
    if i == |m.artifacts| then Ok(m) else
    var s := Arrive(store, calls(i + 1));
    if calls(i + 1).io.fault != Fine then Err(StoreUnavailable)
    else if !Held(s, m.artifacts[i]) then Err(ReferenceInvalid)
    else CheckReferences(s, m, i + 1, calls)
  }

  // -------------------------------------------------------------------- laws

  ghost predicate Untroubled(calls: nat -> Call) {
    forall n :: calls(n).io.fault == Fine
  }

  ghost predicate Alone(calls: nat -> Call) {
    forall n :: calls(n).arrivals == map[]
  }

  ghost predicate NeverBrings(calls: nat -> Call, key: string) {
    forall n :: key !in calls(n).arrivals
  }

  /** What a store that hashes what it stores would show. */
  ghost predicate Genuine(sha: Bytes -> string, store: Store) {
    forall k | k in store :: store[k].sha == sha(store[k].content)
  }

  ghost predicate GenuineArrivals(sha: Bytes -> string, calls: nat -> Call) {
    forall n :: Genuine(sha, calls(n).arrivals)
  }

  ghost predicate NoCollision(sha: Bytes -> string, content: Bytes) {
    forall b | sha(b) == sha(content) :: b == content
  }

  lemma BlobLaw(sha: Bytes -> string, store: Store, content: Bytes, e: Entry, calls: nat -> Call, n: nat)
    ensures var (s, r, _) := RunBlob(sha, store, content, e, calls, n);
      && Extends(store, s)
      && (r.Ok? ==> Held(s, e) && |content| == e.size && sha(content) == e.sha)
      && (forall k | k in s && NeverBrings(calls, k) :: k in store || k == e.key)
  {
  }

  lemma BlobStaysGenuine(sha: Bytes -> string, store: Store, content: Bytes, e: Entry, calls: nat -> Call, n: nat)
    requires Genuine(sha, store) && GenuineArrivals(sha, calls)
    ensures Genuine(sha, RunBlob(sha, store, content, e, calls, n).0)
  {
    hide Genuine, Held;
    ArrivalStaysGenuine(sha, store, calls, n);
    ArrivalStaysGenuine(sha, Arrive(store, calls(n)), calls, n + 1);
    if sha(content) == e.sha {
      PutStaysGenuine(sha, Arrive(Arrive(store, calls(n)), calls(n + 1)), e.key, content, calls(n + 1).io);
    }
  }

  lemma ArrivalStaysGenuine(sha: Bytes -> string, store: Store, calls: nat -> Call, n: nat)
    requires Genuine(sha, store) && GenuineArrivals(sha, calls)
    ensures Genuine(sha, Arrive(store, calls(n)))
  {
  }

  lemma PutStaysGenuine(sha: Bytes -> string, store: Store, key: string, content: Bytes, io: Io)
    requires Genuine(sha, store)
    ensures Genuine(sha, AfterPut(store, key, content, sha(content), io))
  {
  }

  /** Publishing blobs only grows the store; on success every blob is there, and each was
      counted as reused or as uploaded. */
  lemma {:induction false} BlobsLaw(cx: CatalogCodec, store: Store, m: ModelSet, sources: map<string, Bytes>,
      i: nat, calls: nat -> Call, n: nat)
    requires i <= |m.artifacts|
    ensures var (s, counts, _) := RunBlobs(cx, store, m, sources, i, calls, n);
      && Extends(store, s)
      && (counts.Ok? ==> counts.value.0 + counts.value.1 == |m.artifacts| - i)
      && (counts.Ok? ==> forall j | i <= j < |m.artifacts| :: Supplied(cx, s, m.artifacts[j], sources))
    decreases |m.artifacts| - i
  {
    hide RunBlob;
    if i == |m.artifacts| || m.artifacts[i].name !in sources {
    } else {
      var e := m.artifacts[i];
      var (s, r, k) := RunBlob(cx.sha, store, sources[e.name], e, calls, n);
      BlobLaw(cx.sha, store, sources[e.name], e, calls, n);
      if r.Ok? { BlobsLaw(cx, s, m, sources, i + 1, calls, k); }
    }
  }

  lemma {:induction false} BlobsStayGenuine(cx: CatalogCodec, store: Store, m: ModelSet, sources: map<string, Bytes>,
      i: nat, calls: nat -> Call, n: nat)
    requires i <= |m.artifacts| && Genuine(cx.sha, store) && GenuineArrivals(cx.sha, calls)
    ensures Genuine(cx.sha, RunBlobs(cx, store, m, sources, i, calls, n).0)
    decreases |m.artifacts| - i
  {
    hide RunBlob, Genuine, GenuineArrivals;
    if i == |m.artifacts| || m.artifacts[i].name !in sources {
    } else {
      var e := m.artifacts[i];
      var (s, r, k) := RunBlob(cx.sha, store, sources[e.name], e, calls, n);
      BlobStaysGenuine(cx.sha, store, sources[e.name], e, calls, n);
      if r.Ok? { BlobsStayGenuine(cx, s, m, sources, i + 1, calls, k); }
    }
  }

  /** Whatever fails, publishing blobs adds no key of its own but those of the blobs. */
  lemma {:induction false} BlobsAddOnly(cx: CatalogCodec, store: Store, m: ModelSet, sources: map<string, Bytes>,
      i: nat, calls: nat -> Call, n: nat)
    requires i <= |m.artifacts|
    ensures forall key | key in RunBlobs(cx, store, m, sources, i, calls, n).0 && NeverBrings(calls, key) ::
              key in store || exists e | e in m.artifacts :: key == e.key
    decreases |m.artifacts| - i
  {
    hide RunBlob, NeverBrings;
    if i == |m.artifacts| || m.artifacts[i].name !in sources {
    } else {
      var e := m.artifacts[i];
      var (s, r, k) := RunBlob(cx.sha, store, sources[e.name], e, calls, n);
      BlobLaw(cx.sha, store, sources[e.name], e, calls, n);
      if r.Ok? { BlobsAddOnly(cx, s, m, sources, i + 1, calls, k); }
    }
  }

  /** The blob is in the store, and the local source is the one it was published from. */
  ghost predicate Supplied(cx: CatalogCodec, store: Store, e: Entry, sources: map<string, Bytes>) {
    Held(store, e) && e.name in sources && |sources[e.name]| == e.size && cx.sha(sources[e.name]) == e.sha
  }

  /** Whatever fails and wherever the publisher dies, a manifest nobody else brought is in
      the store only over blobs that all hold. */
  lemma ManifestIsPublishedLast(cx: CatalogCodec, store: Store, m: ModelSet, sources: map<string, Bytes>, calls: nat -> Call)
    requires cx.ManifestKey(m) !in store && NeverBrings(calls, cx.ManifestKey(m))
    requires forall e | e in m.artifacts :: e.key != cx.ManifestKey(m)
    ensures cx.ManifestKey(m) in RunPublish(cx, store, m, sources, calls).0
            ==> AllHeld(RunPublish(cx, store, m, sources, calls).0, m)
  {
    hide RunBlobs, CatalogCodec.ManifestKey;
    BlobsLaw(cx, store, m, sources, 0, calls, 0);
    BlobsAddOnly(cx, store, m, sources, 0, calls, 0);
  }

  lemma ManifestLaw(cx: CatalogCodec, store: Store, m: ModelSet, reused: nat, uploaded: nat, calls: nat -> Call, n: nat)
    ensures var (after, r) := RunManifest(cx, store, m, reused, uploaded, calls, n);
      && Extends(store, after)
      && (r.Ok? ==> ManifestReceipt(cx, after, m, r.value) && r.value.reused == reused && r.value.uploaded == uploaded)
      && (Genuine(cx.sha, store) && GenuineArrivals(cx.sha, calls) ==> Genuine(cx.sha, after))
  {
    hide CatalogCodec.ManifestKey, Genuine;
    if Genuine(cx.sha, store) && GenuineArrivals(cx.sha, calls) {
      ArrivalStaysGenuine(cx.sha, store, calls, n);
      var s := Arrive(store, calls(n));
      ArrivalStaysGenuine(cx.sha, s, calls, n + 1);
      PutStaysGenuine(cx.sha, Arrive(s, calls(n + 1)), cx.ManifestKey(m), cx.canon(m), calls(n + 1).io);
    }
  }

  ghost predicate ManifestReceipt(cx: CatalogCodec, store: Store, m: ModelSet, r: Receipt) {
    && r.key == cx.ManifestKey(m) && r.digest == cx.Digest(m)
    && r.key in store && store[r.key].sha == r.digest && |store[r.key].content| == |cx.canon(m)|
    && store[r.key].version == r.version
  }

  lemma PublishLaw(cx: CatalogCodec, store: Store, m: ModelSet, sources: map<string, Bytes>, calls: nat -> Call)
    ensures var (after, r) := RunPublish(cx, store, m, sources, calls);
      && Extends(store, after)
      && (r.Ok? ==> Receipted(cx, after, m, sources, r.value))
      && (Genuine(cx.sha, store) && GenuineArrivals(cx.sha, calls) ==> Genuine(cx.sha, after))
  {
    hide RunBlobs, RunManifest, CatalogCodec.ManifestKey;
    BlobsLaw(cx, store, m, sources, 0, calls, 0);
    var (s, counts, n) := RunBlobs(cx, store, m, sources, 0, calls, 0);
    if Genuine(cx.sha, store) && GenuineArrivals(cx.sha, calls) {
      BlobsStayGenuine(cx, store, m, sources, 0, calls, 0);
    }
    if counts.Ok? {
      ManifestLaw(cx, s, m, counts.value.0, counts.value.1, calls, n);
    }
  }

  /** What a receipt stands for. */
  ghost predicate Receipted(cx: CatalogCodec, store: Store, m: ModelSet, sources: map<string, Bytes>, r: Receipt) {
    && ManifestReceipt(cx, store, m, r) && r.reused + r.uploaded == |m.artifacts|
    && forall j | 0 <= j < |m.artifacts| :: Supplied(cx, store, m.artifacts[j], sources)
  }

  lemma {:induction false} ReferencesHold(store: Store, m: ModelSet, i: nat, calls: nat -> Call)
    requires i <= |m.artifacts| && Untroubled(calls)
    requires forall j | i <= j < |m.artifacts| :: Held(store, m.artifacts[j])
    ensures CheckReferences(store, m, i, calls) == Ok(m)
    decreases |m.artifacts| - i
  {
    if i == |m.artifacts| {
    } else {
      ReferencesHold(Arrive(store, calls(i + 1)), m, i + 1, calls);
    }
  }

  lemma {:induction false} ReferencesReturn(store: Store, m: ModelSet, i: nat, calls: nat -> Call)
    requires i <= |m.artifacts|
    ensures CheckReferences(store, m, i, calls) in {Ok(m), Err(StoreUnavailable), Err(ReferenceInvalid)}
    decreases |m.artifacts| - i
  {
    if i == |m.artifacts| {
    } else {
      ReferencesReturn(Arrive(store, calls(i + 1)), m, i + 1, calls);
    }
  }

  /** After a successful publication, at any later time and beside any other publishers, the
      receipt resolves to the same manifest exactly when the bytes stored under it hash to the
      digest and parse to the manifest. Checking the declared digest alone does not give this. */
  lemma ResolvesExactlyWhen(cx: CatalogCodec, store: Store, m: ModelSet, sources: map<string, Bytes>, calls: nat -> Call,
                            later: Store, lookups: nat -> Call)
    requires RunPublish(cx, store, m, sources, calls).1.Ok?
    requires Extends(RunPublish(cx, store, m, sources, calls).0, later) && Untroubled(lookups)
    ensures var r := RunPublish(cx, store, m, sources, calls).1.value;
      && r.key in later
      && (Resolve(cx, later, r.key, r.digest, lookups) == Ok(m)
          <==> cx.sha(later[r.key].content) == r.digest && cx.parse(later[r.key].content) == Some(m))
      && (Resolve(cx, later, r.key, r.digest, lookups) == Err(IdentityMismatch)
          <==> cx.sha(later[r.key].content) != r.digest)
  {
    hide RunPublish, CatalogCodec.ManifestKey;
    PublishLaw(cx, store, m, sources, calls);
    var r := RunPublish(cx, store, m, sources, calls).1.value;
    var s := Arrive(later, lookups(0));
    if cx.parse(later[r.key].content).Some? {
      ReferencesReturn(s, cx.parse(later[r.key].content).value, 0, lookups);
    }
    ReferencesHold(s, m, 0, lookups);
  }

  /** In a store that hashes what it stores, publishing then resolving returns the manifest. */
  lemma PublishThenResolve(cx: CatalogCodec, store: Store, m: ModelSet, sources: map<string, Bytes>, calls: nat -> Call,
                           later: Store, lookups: nat -> Call)
    requires RunPublish(cx, store, m, sources, calls).1.Ok?
    requires Extends(RunPublish(cx, store, m, sources, calls).0, later) && Untroubled(lookups)
    requires Genuine(cx.sha, store) && GenuineArrivals(cx.sha, calls)
    requires cx.RoundTrips(m) && NoCollision(cx.sha, cx.canon(m))
    ensures var r := RunPublish(cx, store, m, sources, calls).1.value;
      && r.reused + r.uploaded == |m.artifacts|
      && Resolve(cx, later, r.key, r.digest, lookups) == Ok(m)
  {
    hide RunPublish, CatalogCodec.ManifestKey, Resolve;
    PublishLaw(cx, store, m, sources, calls);
    ResolvesExactlyWhen(cx, store, m, sources, calls, later, lookups);
  }

  /** Resolution returns only manifests whose blobs were all there when it looked, and in a
      store that hashes what it stores those blobs carry the digests the manifest names. */
  lemma {:induction false} ResolvedReferencesHeld(sha: Bytes -> string, store: Store, m: ModelSet,
      i: nat, calls: nat -> Call, later: Store)
    requires i <= |m.artifacts| && CheckReferences(store, m, i, calls).Ok?
    requires Extends(store, later) && forall n :: Extends(calls(n).arrivals, later)
    ensures forall j | i <= j < |m.artifacts| :: Held(later, m.artifacts[j])
    ensures Genuine(sha, later) ==> forall j | i <= j < |m.artifacts| ::
              m.artifacts[j].key in later && sha(later[m.artifacts[j].key].content) == m.artifacts[j].sha
    decreases |m.artifacts| - i
  {
    if i == |m.artifacts| {
    } else {
      ResolvedReferencesHeld(sha, Arrive(store, calls(i + 1)), m, i + 1, calls, later);
    }
  }

  lemma {:induction false} BlobsReused(cx: CatalogCodec, store: Store, m: ModelSet, sources: map<string, Bytes>,
      i: nat, calls: nat -> Call, n: nat)
    requires i <= |m.artifacts| && Untroubled(calls)
    requires forall j | i <= j < |m.artifacts| :: Supplied(cx, store, m.artifacts[j], sources)
    ensures var (s, counts, _) := RunBlobs(cx, store, m, sources, i, calls, n);
      && counts == Ok((|m.artifacts| - i, 0)) && (Alone(calls) ==> s == store)
    decreases |m.artifacts| - i
  {
    if i == |m.artifacts| {
    } else {
      BlobsReused(cx, Arrive(store, calls(n)), m, sources, i + 1, calls, n + 1);
    }
  }

  /** Publishing again, at any later time, reuses every blob and returns the same receipt
      but for the counts; left alone it does not touch the store. */
  lemma RepublishReusesEverything(cx: CatalogCodec, store: Store, m: ModelSet, sources: map<string, Bytes>, calls: nat -> Call,
                                  later: Store, again: nat -> Call)
    requires RunPublish(cx, store, m, sources, calls).1.Ok?
    requires Extends(RunPublish(cx, store, m, sources, calls).0, later) && Untroubled(again)
    ensures var r := RunPublish(cx, store, m, sources, calls).1.value;
      var (after, second) := RunPublish(cx, later, m, sources, again);
      && second == Ok(r.(reused := |m.artifacts|, uploaded := 0)) && (Alone(again) ==> after == later)
  {
    hide RunBlobs, CatalogCodec.ManifestKey;
    PublishLaw(cx, store, m, sources, calls);
    BlobsReused(cx, later, m, sources, 0, again, 0);
    BlobsLaw(cx, later, m, sources, 0, again, 0);
    var (s, _, n) := RunBlobs(cx, later, m, sources, 0, again, 0);
    ManifestReused(cx, s, m, |m.artifacts|, again, n, RunPublish(cx, store, m, sources, calls).1.value);
  }

  lemma ManifestReused(cx: CatalogCodec, store: Store, m: ModelSet, reused: nat, calls: nat -> Call, n: nat, r: Receipt)
    requires ManifestReceipt(cx, store, m, r) && calls(n).io.fault == Fine
    ensures var (after, second) := RunManifest(cx, store, m, reused, 0, calls, n);
      && second == Ok(r.(reused := reused, uploaded := 0)) && (calls(n).arrivals == map[] ==> after == store)
  {
    hide CatalogCodec.ManifestKey;
  }
}
