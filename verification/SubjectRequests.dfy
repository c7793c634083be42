/** What a data subject can ask for: a second reading of the namespaces the reaper reads. */
module SubjectRequests {
  import opened Prelude
  import opened Text
  import opened Keys
  import opened Policy
  import opened Retention
  import Results

  datatype Field = OutputVideo | Prompt | InputReference

  datatype SubjectRecord = SubjectRecord(job: string, attempt: string, held: seq<Field>, expiresAt: int)

  datatype ErasureReceipt = ErasureReceipt(job: string, erased: seq<Field>, unreachable: seq<Field>) {
    predicate Complete() {
      unreachable == []
    }
  }

  /** `Died`: the process ended part of the way, and no answer was given. */
  datatype RequestError = StoreUnavailable | Died

  function FieldFor(key: string): Field {
    if INPUT_PREFIX <= key then InputReference
    else if EndsWith(key, "generation.bin") then Prompt
    else OutputVideo
  }

  function RecordPrefix(digest: string): string
    requires |digest| == 64
  {
    Namespace(Identity(digest).0, Identity(digest).1)
  }

  function Below(objects: Objects, prefix: string): set<string> {
    set k | k in objects && prefix <= k
  }

  predicate MarkedIn(keys: set<string>) {
    exists k | k in keys :: EndsWith(k, COMMIT_MARKER)
  }

  /** The expiry a subject is told: oldest object plus the period of the class it reads. */
  ghost function ReportedExpiry(objects: Objects, policy: LifecyclePolicy, prefix: string): int
    requires Valid(policy) && Members(objects, prefix) != {}
  {
    Oldest(objects, prefix) + Period(policy, ClassFor(MarkedIn(Members(objects, prefix))))
  }

  predicate AnyMarked(objects: seq<StoredObject>) {
    exists i | 0 <= i < |objects| :: EndsWith(objects[i].key, COMMIT_MARKER)
  }

  /** A record's prefix lists exactly the attempt the reaper groups. */
  lemma BelowIsMembers(objects: Objects, prefix: string)
    requires IsNamespace(prefix)
    ensures Below(objects, prefix) == Members(objects, prefix)
  {
    forall k ensures k in Below(objects, prefix) <==> k in Members(objects, prefix) {
      AttemptPrefixExact(k, prefix);
    }
  }

  lemma ListedBelow(listing: seq<StoredObject>, prefix: string, objects: Objects)
    requires Lists(listing, prefix, objects)
    ensures KeysOf(listing) == Below(objects, prefix) && DistinctKeys(listing)
    ensures AnyMarked(listing) == MarkedIn(Below(objects, prefix))
  {
    forall k ensures k in KeysOf(listing) <==> k in Below(objects, prefix) {
      KeysOfIn(listing, k);
    }
    if AnyMarked(listing) {
      var i :| 0 <= i < |listing| && EndsWith(listing[i].key, COMMIT_MARKER);
      assert listing[i].key in KeysOf(listing);
    }
    if MarkedIn(Below(objects, prefix)) {
      var k :| k in Below(objects, prefix) && EndsWith(k, COMMIT_MARKER);
      assert k in KeysOf(listing);
    }
  }

  lemma ListedOldest(listing: seq<StoredObject>, prefix: string, objects: Objects)
    requires Lists(listing, prefix, objects) && listing != []
    requires Below(objects, prefix) == Members(objects, prefix)
    ensures Members(objects, prefix) != {}
    ensures MinTime(listing) == Oldest(objects, prefix)
  {
    hide AttemptPrefix;
    assert listing[0].key in Below(objects, prefix);
    GroupOldest(listing, objects, prefix);
  }

  lemma RecordPrefixIsNamespace(digest: string)
    requires HexDigest(digest)
    ensures IsNamespace(RecordPrefix(digest))
  {
    IdentityNamespace(digest, digest);
  }

  function Note(fields: seq<Field>, f: Field): seq<Field> {
    if f in fields then fields else fields + [f]
  }

  class SubjectRequestService {
    const store: RetentionStore
    const policy: LifecyclePolicy

    constructor (store: RetentionStore, policy: LifecyclePolicy)
      ensures this.store == store && this.policy == policy
    {
      this.store, this.policy := store, policy;
    }

    /** `authorized` and `reachable` are the answers of the access policy and of the store. */
    method Describe(authorized: bool, digest: string, reachable: bool)
      returns (r: Result<Option<SubjectRecord>, RequestError>)
      requires Valid(policy) && HexDigest(digest)
      ensures !authorized ==> r == Ok(None)
      ensures authorized && !reachable ==> r == Err(StoreUnavailable)
      ensures authorized && reachable ==>
        var p := RecordPrefix(digest);
        && r.Ok? && (r.value.None? <==> Members(store.objects, p) == {})
        && (r.value.Some? ==> r.value.value == SubjectRecord(
              Identity(digest).0, Identity(digest).1, [OutputVideo, Prompt],
              ReportedExpiry(store.objects, policy, p)))
    {
      var prefix := RecordPrefix(digest);
      if !authorized { return Ok(None); }
      if !reachable { return Err(StoreUnavailable); }
      var objects := store.ListObjects(prefix);
      RecordPrefixIsNamespace(digest);
      BelowIsMembers(store.objects, prefix);
      ListedBelow(objects, prefix, store.objects);
      if objects == [] { return Ok(None); }
      ListedOldest(objects, prefix, store.objects);
      var governing := ClassFor(AnyMarked(objects));
      r := Ok(Some(SubjectRecord(Identity(digest).0, Identity(digest).1, [OutputVideo, Prompt],
                                 MinTime(objects) + Period(policy, governing))));
    }

    /** Delete the given keys in order, past refusals; the process may die after any number of
        deletes, which `survives` counts. */
    method DeleteAll(keys: seq<string>, faults: Faults, survives: nat) returns (erased: seq<Field>, unreachable: seq<Field>)
      modifies store
      ensures var done := keys[..Min(survives, |keys|)];
        && store.objects == old(store.objects) - (Elements(done) - faults.refused)
        && (forall f :: f in erased <==> exists k :: k in done && k !in faults.Raising() && FieldFor(k) == f)
        && (forall f :: f in unreachable <==> exists k :: k in done && k in faults.Raising() && FieldFor(k) == f)
      ensures Distinct(erased) && Distinct(unreachable)
    {
      erased, unreachable := [], [];
      for i := 0 to Min(survives, |keys|)
        invariant store.objects == old(store.objects) - (Elements(keys[..i]) - faults.refused)
        invariant forall f :: f in erased <==> exists k :: k in keys[..i] && k !in faults.Raising() && FieldFor(k) == f
        invariant forall f :: f in unreachable <==> exists k :: k in keys[..i] && k in faults.Raising() && FieldFor(k) == f
        invariant Distinct(erased) && Distinct(unreachable)
      {
        hide FieldFor;
        assert keys[..i + 1] == keys[..i] + [keys[i]];
        assert Elements(keys[..i + 1]) == Elements(keys[..i]) + {keys[i]};
        var accepted := store.Delete(keys[i], faults);
        var f := FieldFor(keys[i]);
        if accepted {
          erased := Note(erased, f);
        } else {
          unreachable := Note(unreachable, f);
        }
      }
    }

    /** Erase one record's outputs, marker last, and before them the inputs the principal names.
        A process that dies deletes a first part of that order and answers nothing; one that does
        not leaves exactly what was refused and says so. */
    method Erase(authorized: bool, digest: string, inputKeys: seq<string>, reachable: bool, faults: Faults, survives: nat)
      returns (r: Result<Option<ErasureReceipt>, RequestError>)
      requires HexDigest(digest)
      modifies store
      ensures !authorized ==> r == Ok(None) && store.objects == old(store.objects)
      ensures authorized && !reachable ==> r == Err(StoreUnavailable) && store.objects == old(store.objects)
      ensures authorized && reachable && Members(old(store.objects), RecordPrefix(digest)) == {} ==>
        r == Ok(None) && store.objects == old(store.objects)
      ensures authorized && reachable && Members(old(store.objects), RecordPrefix(digest)) != {} ==>
        var p := RecordPrefix(digest);
        var asked := Members(old(store.objects), p) + Elements(inputKeys);
        && (exists members ::
              && Holds(members, old(store.objects), p)
              && var keys := ErasureOrder(inputKeys, members);
                 store.objects == old(store.objects) - (Elements(keys[..Min(survives, |keys|)]) - faults.refused))
        && (r == Err(Died) <==> survives < |inputKeys| + |Members(old(store.objects), p)|)
        && (r != Err(Died) ==>
              && store.objects == old(store.objects) - (asked - faults.refused)
              && r.Ok? && r.value.Some? && r.value.value.job == Identity(digest).0
              && (r.value.value.Complete() <==> asked !! faults.Raising())
              && Distinct(r.value.value.erased) && Distinct(r.value.value.unreachable)
              && (forall f :: f in r.value.value.erased
                              <==> exists k :: k in asked && k !in faults.Raising() && FieldFor(k) == f)
              && (forall f :: f in r.value.value.unreachable
                              <==> exists k :: k in asked && k in faults.Raising() && FieldFor(k) == f))
    {
      hide FieldFor, Identity, Namespace, Faults.Raising, Min;
      var prefix := RecordPrefix(digest);
      if !authorized { return Ok(None); }
      if !reachable { return Err(StoreUnavailable); }
      var objects := store.ListObjects(prefix);
      RecordPrefixIsNamespace(digest);
      BelowIsMembers(store.objects, prefix);
      ListedBelow(objects, prefix, store.objects);
      if objects == [] { return Ok(None); }
      assert objects[0].key in KeysOf(objects);
      var keys := ErasureOrder(inputKeys, objects);
      ErasureOrderAsks(inputKeys, objects, store.objects, prefix);
      MinIsAll(survives, |keys|);
      var erased, unreachable := DeleteAll(keys, faults, survives);
      if survives < |keys| { return Err(Died); }
      assert keys[..|keys|] == keys;
      NoneUnreachable(keys, unreachable, faults);
      r := Ok(Some(ErasureReceipt(Identity(digest).0, erased, unreachable)));
    }
  }

  function Min(a: nat, b: nat): nat { if a <= b then a else b }

  lemma MinIsAll(a: nat, b: nat)
    ensures Min(a, b) <= b && (a >= b ==> Min(a, b) == b)
  {
  }

  /** A listing of the record, in whatever order. */
  ghost predicate Holds(members: seq<StoredObject>, objects: Objects, p: string) {
    DistinctKeys(members) && KeysOf(members) == Members(objects, p)
  }

  /** Everything an erasure deletes, in order: named inputs, then outputs, the marker last. */
  function ErasureOrder(inputKeys: seq<string>, members: seq<StoredObject>): (keys: seq<string>)
    ensures |keys| == |inputKeys| + |DeleteOrder(members)| && keys[..|inputKeys|] == inputKeys
    ensures forall i | 0 <= i < |DeleteOrder(members)| :: keys[|inputKeys| + i] == DeleteOrder(members)[i].key
  {
    var order := DeleteOrder(members);
    inputKeys + seq(|order|, i requires 0 <= i < |order| => order[i].key)
  }

  lemma ErasureOrderAsks(inputKeys: seq<string>, members: seq<StoredObject>, objects: Objects, p: string)
    requires Holds(members, objects, p)
    ensures var keys := ErasureOrder(inputKeys, members);
      && Elements(keys) == Members(objects, p) + Elements(inputKeys)
      && |keys| == |inputKeys| + |Members(objects, p)|
  {
    hide DeleteOrder;
    DeleteOrderExact(members);
    KeysOfCardinality(DeleteOrder(members));
    AskedKeys(inputKeys, DeleteOrder(members), ErasureOrder(inputKeys, members));
  }

  lemma AskedKeys(inputKeys: seq<string>, order: seq<StoredObject>, keys: seq<string>)
    requires |keys| == |inputKeys| + |order| && keys[..|inputKeys|] == inputKeys
    requires forall i | 0 <= i < |order| :: keys[|inputKeys| + i] == order[i].key
    ensures Elements(keys) == KeysOf(order) + Elements(inputKeys)
  {
    forall k ensures k in keys <==> k in KeysOf(order) || k in inputKeys {
      if k in inputKeys {
        var i :| 0 <= i < |inputKeys| && inputKeys[i] == k;
        assert keys[..|inputKeys|][i] == keys[i];
      }
      if k in KeysOf(order) {
        var i :| 0 <= i < |order| && order[i].key == k;
        assert keys[|inputKeys| + i] == k;
      }
      if k in keys {
        var i :| 0 <= i < |keys| && keys[i] == k;
        if i < |inputKeys| { assert keys[..|inputKeys|][i] == k; }
        else { assert order[i - |inputKeys|].key == k; }
      }
    }
  }

  lemma NoneUnreachable(keys: seq<string>, unreachable: seq<Field>, faults: Faults)
    requires forall f :: f in unreachable <==> exists k :: k in keys && k in faults.Raising() && FieldFor(k) == f
    ensures unreachable == [] <==> Elements(keys) !! faults.Raising()
  {
    hide FieldFor, Faults.Raising;
    if unreachable != [] {
      assert unreachable[0] in unreachable;
    }
    if k :| k in keys && k in faults.Raising() {
      assert FieldFor(k) in unreachable;
    }
  }

  // ------------------------------------------------------ interrupted erasure

  ghost predicate PlainLeft(left: Objects, p: string) {
    exists k :: k in Members(left, p) && !EndsWith(k, COMMIT_MARKER)
  }

  /** What is left after `n` unrefused deletes reads as committed, to the subject and to any
      sweep, while it holds more than keys named like the marker. */
  ghost predicate StillCommitted(objects: Objects, p: string, keys: seq<string>, n: nat)
    requires n <= |keys|
  {
    var left := objects - Elements(keys[..n]);
    PlainLeft(left, p) ==> MarkerKey(p) in left && MarkedIn(Members(left, p)) && forall f :: ClassOf(left, f, p) == Deliverable
  }

  /** The keys named before the i-th are all the record holds but for keys named like the marker. */
  ghost predicate NamedBefore(objects: Objects, p: string, inputKeys: seq<string>, i: nat)
    requires i <= |inputKeys|
  {
    forall k | k in Members(objects, p) && !EndsWith(k, COMMIT_MARKER) :: k in inputKeys[..i]
  }

  lemma MarkerReads(left: Objects, p: string)
    requires IsNamespace(p)
    ensures MarkerKey(p) in left ==> MarkedIn(Members(left, p)) && forall f :: ClassOf(left, f, p) == Deliverable
    ensures MarkerKey(p) !in left ==> exists f :: ClassOf(left, f, p) != Deliverable
  {
    MarkerKeyInNamespace(p);
    hide AttemptPrefix;
    if MarkerKey(p) in left { assert MarkerKey(p) in Members(left, p); }
    if MarkerKey(p) !in left { assert ClassOf(left, NO_FAULTS, p) == FailedAttempt; }
  }

  /** The promise behind deleting the marker last, with the condition it needs: an erasure that
      dies after any number of deletes leaves a record that reads as committed exactly when the
      marker is not among the named inputs, or everything else of the record is named before it. */
  lemma InterruptedErasureExactly(objects: Objects, p: string, members: seq<StoredObject>, inputKeys: seq<string>)
    requires IsNamespace(p) && MarkerKey(p) in objects && Holds(members, objects, p)
    ensures var keys := ErasureOrder(inputKeys, members);
      (forall n: nat | n <= |keys| :: StillCommitted(objects, p, keys, n))
      <==> forall i: nat | i < |inputKeys| && inputKeys[i] == MarkerKey(p) :: NamedBefore(objects, p, inputKeys, i)
  {
    hide DeleteOrder, MarkerKey, AttemptPrefix, ClassOf, EndsWith, IsNamespace;
    var keys := ErasureOrder(inputKeys, members);
    if forall i: nat | i < |inputKeys| && inputKeys[i] == MarkerKey(p) :: NamedBefore(objects, p, inputKeys, i) {
      forall n: nat | n <= |keys| ensures StillCommitted(objects, p, keys, n) {
        var left := objects - Elements(keys[..n]);
        MarkerReads(left, p);
        if PlainLeft(left, p) && MarkerKey(p) !in left {
          MarkerGoesLast(objects, p, members, inputKeys, n);
        }
      }
    } else {
      var i: nat :| i < |inputKeys| && inputKeys[i] == MarkerKey(p) && !NamedBefore(objects, p, inputKeys, i);
      MarkerNamed(objects, p, members, inputKeys, i);
    }
  }

  lemma MarkerNamed(objects: Objects, p: string, members: seq<StoredObject>, inputKeys: seq<string>, i: nat)
    requires IsNamespace(p) && i < |inputKeys| && inputKeys[i] == MarkerKey(p) && !NamedBefore(objects, p, inputKeys, i)
    ensures i + 1 <= |ErasureOrder(inputKeys, members)|
    ensures !StillCommitted(objects, p, ErasureOrder(inputKeys, members), i + 1)
  {
    MarkerKeyInNamespace(p);
    hide DeleteOrder, MarkerKey, AttemptPrefix, ClassOf, EndsWith, IsNamespace;
    var keys := ErasureOrder(inputKeys, members);
    var k :| k in Members(objects, p) && !EndsWith(k, COMMIT_MARKER) && k !in inputKeys[..i];
    var left := objects - Elements(keys[..i + 1]);
    assert keys[..i + 1] == inputKeys[..i] + [MarkerKey(p)] by {
      assert keys[..|inputKeys|][..i + 1] == keys[..i + 1];
      assert inputKeys[..i + 1] == inputKeys[..i] + [inputKeys[i]];
    }
    assert k in left && k in Members(left, p);
    assert MarkerKey(p) in Elements(keys[..i + 1]);
  }

  /** A marker that is gone while a plain key is left was named before it. */
  lemma MarkerGoesLast(objects: Objects, p: string, members: seq<StoredObject>, inputKeys: seq<string>, n: nat)
    requires IsNamespace(p) && MarkerKey(p) in objects && Holds(members, objects, p)
    requires n <= |ErasureOrder(inputKeys, members)|
    requires var left := objects - Elements(ErasureOrder(inputKeys, members)[..n]); PlainLeft(left, p) && MarkerKey(p) !in left
    ensures exists i: nat :: i < |inputKeys| && inputKeys[i] == MarkerKey(p) && !NamedBefore(objects, p, inputKeys, i)
  {
    MarkerKeyInNamespace(p);
    hide DeleteOrder, MarkerKey, AttemptPrefix, EndsWith, IsNamespace;
    var keys := ErasureOrder(inputKeys, members);
    var left := objects - Elements(keys[..n]);
    var k :| k in Members(left, p) && !EndsWith(k, COMMIT_MARKER);
    assert MarkerKey(p) in keys[..n];
    var i: nat :| i < n && keys[i] == MarkerKey(p);
    assert k !in keys[..n];
    if i < |inputKeys| {
      assert keys[..|inputKeys|][i] == inputKeys[i];
      assert forall j | 0 <= j < i :: inputKeys[..i][j] == keys[..|inputKeys|][j] == keys[..n][j];
      assert k !in inputKeys[..i];
    } else {
      PlainFirst(members, inputKeys, n, i);
    }
  }

  /** Once the order has reached a key named like the marker among the outputs, every plain
      output is behind it. */
  lemma PlainFirst(members: seq<StoredObject>, inputKeys: seq<string>, n: nat, i: nat)
    requires DistinctKeys(members) && n <= |ErasureOrder(inputKeys, members)| && |inputKeys| <= i < n
    requires EndsWith(ErasureOrder(inputKeys, members)[i], COMMIT_MARKER)
    ensures forall k | k in KeysOf(members) && !EndsWith(k, COMMIT_MARKER) :: k in ErasureOrder(inputKeys, members)[..n]
  {
    hide DeleteOrder, EndsWith;
    DeleteOrderExact(members);
    var keys, order, m := ErasureOrder(inputKeys, members), DeleteOrder(members), |inputKeys|;
    forall k | k in KeysOf(members) && !EndsWith(k, COMMIT_MARKER) ensures k in keys[..n] {
      assert k in KeysOf(order);
      var j :| 0 <= j < |order| && order[j].key == k;
      assert keys[m + j] == k && keys[m + (i - m)] == order[i - m].key;
      assert j < i - m;
      assert keys[..n][m + j] == k;
    }
  }

  // ------------------------------------------- agreement with the reaper

  /** A namespace an outside write has not confused: nothing but the marker is named like
      the marker, and the marker can be headed. */
  predicate Plain(objects: Objects, faults: Faults, p: string) {
    && MarkerKey(p) !in faults.unreadable
    && forall k | k in Members(objects, p) && EndsWith(k, COMMIT_MARKER) :: k == MarkerKey(p)
  }

  /** On a plain namespace the reported expiry has passed exactly when a sweep then would
      expire the attempt, whatever else the store holds. */
  lemma DescribeAgreesWithSweep(s: Sweep, p: string)
    requires Valid(s.policy) && IsNamespace(p) && Members(s.objects, p) != {}
    requires Plain(s.objects, s.faults, p)
    ensures ReportedExpiry(s.objects, s.policy, p) <= s.at <==> s.Expires(p)
  {
    MarkerKeyInNamespace(p);
    hide AttemptPrefix, Valid, DaysFor, EndsWith;
    if MarkerKey(p) in s.objects { assert MarkerKey(p) in Members(s.objects, p); }
  }

  /** In general the two agree at every instant exactly when they read the same class, or
      classes of the same period. */
  lemma AgreementExact(objects: Objects, faults: Faults, policy: LifecyclePolicy, p: string)
    requires Valid(policy) && Members(objects, p) != {}
    ensures (forall t :: ReportedExpiry(objects, policy, p) <= t <==> Sweep(objects, faults, policy, t, false).Expires(p))
            <==> Period(policy, ClassFor(MarkedIn(Members(objects, p)))) == Period(policy, ClassOf(objects, faults, p))
  {
    hide AttemptPrefix, Valid, DaysFor, MarkedIn, ReadsCommitted;
    var told := ReportedExpiry(objects, policy, p);
    var acted := Oldest(objects, p) + Period(policy, ClassOf(objects, faults, p));
    assert Sweep(objects, faults, policy, told, false).Expires(p) <==> acted <= told;
    assert Sweep(objects, faults, policy, acted, false).Expires(p);
  }

  /** What a subject is told, in declared days: the longer period when some key of the record is
      named like the marker, counted from the oldest of its objects. */
  lemma ReportedInDeclaredDays(objects: Objects, policy: LifecyclePolicy, p: string, kept: int, failed: int)
    requires Valid(policy) && IsNamespace(p) && Members(objects, p) != {}
    requires RetentionRule(Deliverable, kept) in policy.rules && RetentionRule(FailedAttempt, failed) in policy.rules
    ensures var days := if exists k :: k in objects && p <= k && EndsWith(k, "result.json") then kept else failed;
      && (forall k | k in objects && p <= k :: ReportedExpiry(objects, policy, p) <= objects[k] + days * 86_400_000_000)
      && exists k :: k in objects && p <= k && ReportedExpiry(objects, policy, p) == objects[k] + days * 86_400_000_000
  {
    hide Valid, AttemptPrefix, EndsWith;
    forall k ensures k in Members(objects, p) <==> k in objects && p <= k { AttemptPrefixExact(k, p); }
    var marked := MarkedIn(Members(objects, p));
    ExpiresWhenDeclared(policy, ClassFor(marked), if marked then kept else failed, 0, 0);
    assert marked <==> exists k :: k in objects && p <= k && EndsWith(k, "result.json");
  }

  /** How an erasure names what it deleted: a key under the inputs as an input, one of a generation
      record as the prompt, any other as the video. */
  lemma FieldExactly(key: string)
    ensures FieldFor(key) == InputReference <==> "inputs/" <= key
    ensures FieldFor(key) == Prompt <==> !("inputs/" <= key) && EndsWith(key, "generation.bin")
    ensures FieldFor(key) == OutputVideo <==> !("inputs/" <= key) && !EndsWith(key, "generation.bin")
    ensures forall job, attempt, role: Results.Role | SlashFree(job) && SlashFree(attempt) ::
              FieldFor(Results.RoleKey(job, attempt, role)) == if role == Results.Generation then Prompt else OutputVideo
  {
    forall job, attempt, role: Results.Role | SlashFree(job) && SlashFree(attempt)
      ensures FieldFor(Results.RoleKey(job, attempt, role)) == if role == Results.Generation then Prompt else OutputVideo
    {
      RoleField(job, attempt, role);
    }
  }

  lemma RoleField(job: string, attempt: string, role: Results.Role)
    ensures FieldFor(Results.RoleKey(job, attempt, role)) == if role == Results.Generation then Prompt else OutputVideo
  {
    var k, p := Results.RoleKey(job, attempt, role), Namespace(job, attempt);
    assert k[0] == 'o' && "inputs/"[0] == 'i';
    if role == Results.Generation {
      assert Results.RoleName(role) + ".bin" == "generation.bin";
      assert k == p + "generation.bin";
      assert k[|p|..] == "generation.bin";
    } else {
      assert k[|k| - 5] == Results.RoleName(role)[|Results.RoleName(role)| - 1];
      assert "generation.bin"[9] == 'n';
    }
  }

  /** A stray key whose name ends like the marker makes the subject be told the longer
      period while the reaper acts on the shorter one. */
  lemma StrayMarkerNameMisleads(policy: LifecyclePolicy, p: string) returns (objects: Objects)
    requires Valid(policy) && IsNamespace(p)
    requires DaysFor(policy, Deliverable) > DaysFor(policy, FailedAttempt)
    ensures Members(objects, p) != {}
    ensures exists t :: Sweep(objects, NO_FAULTS, policy, t, false).Expires(p)
                        && ReportedExpiry(objects, policy, p) > t
  {
    hide Valid, DaysFor;
    var stray := p + "old-result.json";
    AttemptPrefixExact(stray, p);
    hide AttemptPrefix;
    objects := map[stray := 0];
    assert stray[|p| + 4..] == COMMIT_MARKER;
    assert stray[|p|] == 'o' && MarkerKey(p)[|p|] == 'r';
    assert Members(objects, p) == {stray};
    assert EndsWith(stray, COMMIT_MARKER) && MarkedIn(Members(objects, p));
    assert IsOldest(objects, Members(objects, p), 0);
    assert Sweep(objects, NO_FAULTS, policy, Period(policy, FailedAttempt), false).Expires(p);
  }
}
