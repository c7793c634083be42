/** The output reaper: grouping, classification, dating and marker-last deletion. */
module Retention {
  import opened Prelude
  import opened Text
  import opened Keys
  import opened Ordering
  import opened Policy

  datatype StoredObject = StoredObject(key: string, uploadedAt: int)

  /** What the provider does wrong during one sweep: markers whose head raises, deletes it
      refuses, and deletes that raise although the object is gone. */
  datatype Faults = Faults(unreadable: set<string>, refused: set<string>, unacknowledged: set<string>) {
    /** The deletes that raise. */
    function Raising(): set<string> {
      refused + unacknowledged
    }
  }

  const NO_FAULTS := Faults({}, {}, {})

  datatype Attempt = Attempt(prefix: string, uploadedAt: int, committed: bool, objects: seq<StoredObject>) {
    function Retained(): RetainedClass {
      ClassFor(committed)
    }
  }

  datatype Report = Report(
    evaluated: nat,
    dryRun: bool,
    deleted: map<RetainedClass, nat>,
    skipped: map<RetainedClass, nat>,
    noObjects: seq<RetainedClass>,
    failures: nat)

  /** The classes the reaper owns, in the order of their wire names. */
  const ENFORCED: seq<RetainedClass> := [Deliverable, FailedAttempt, PromptEvidence, Scratch]

  function ClassFor(committed: bool): RetainedClass {
    if committed then Deliverable else FailedAttempt
  }

  type Objects = map<string, int>

  // ------------------------------------------------- what a sweep should do

  function Members(objects: Objects, p: string): set<string> {
    set k | k in objects && AttemptPrefix(k) == Some(p)
  }

  function Prefixes(objects: Objects): set<string> {
    set k | k in objects && AttemptPrefix(k).Some? :: AttemptPrefix(k).value
  }

  ghost predicate IsOldest(objects: Objects, keys: set<string>, t: int) {
    && (exists k :: k in keys && k in objects && objects[k] == t)
    && (forall k | k in keys && k in objects :: t <= objects[k])
  }

  lemma OldestExists(objects: Objects, keys: set<string>)
    requires keys != {} && keys <= objects.Keys
    ensures exists t :: IsOldest(objects, keys, t)
  {
    var k :| k in keys;
    if keys == {k} {
      assert IsOldest(objects, keys, objects[k]);
    } else {
      OldestExists(objects, keys - {k});
      var t :| IsOldest(objects, keys - {k}, t);
      var m := if t <= objects[k] then t else objects[k];
      assert IsOldest(objects, keys, m);
    }
  }

  ghost function Oldest(objects: Objects, p: string): (t: int)
    requires Members(objects, p) != {}
    ensures IsOldest(objects, Members(objects, p), t)
  {
    OldestExists(objects, Members(objects, p));
    var t :| IsOldest(objects, Members(objects, p), t);
    t
  }

  predicate ReadsCommitted(objects: Objects, faults: Faults, p: string) {
    MarkerKey(p) in faults.unreadable || MarkerKey(p) in objects
  }

  function ClassOf(objects: Objects, faults: Faults, p: string): RetainedClass {
    ClassFor(ReadsCommitted(objects, faults, p))
  }

  /** Running totals over some of the namespaces. */
  datatype Totals = Totals(
    deleted: map<RetainedClass, nat>,
    skipped: map<RetainedClass, nat>,
    failures: nat,
    due: set<string>)

  function Bump(m: map<RetainedClass, nat>, c: RetainedClass, n: nat): map<RetainedClass, nat> {
    m[c := (if c in m then m[c] else 0) + n]
  }

  /** One sweep's inputs: what is stored, what fails, the policy and the evaluation time. */
  datatype Sweep = Sweep(objects: Objects, faults: Faults, policy: LifecyclePolicy, at: int, dryRun: bool) {

    ghost predicate Expires(p: string)
      requires Valid(policy)
    {
      Members(objects, p) != {}
      && Expired(policy, ClassOf(objects, faults, p), Oldest(objects, p), at)
    }

    function Raising(): set<string> {
      if dryRun then {} else faults.Raising()
    }

    /** The totals once namespace `p` has been looked at as well. */
    ghost function Fold(t: Totals, p: string): Totals
      requires Valid(policy)
    {
      var c, members := ClassOf(objects, faults, p), Members(objects, p);
      if Expires(p)
      then t.(deleted := Bump(t.deleted, c, |members - Raising()|),
              failures := t.failures + |members * Raising()|,
              due := t.due + members)
      else t.(skipped := Bump(t.skipped, c, 1))
    }

    ghost function Tally(ps: seq<string>): Totals
      requires Valid(policy)
    {
      if ps == [] then Totals(map[], map[], 0, {})
      else Fold(Tally(ps[..|ps| - 1]), ps[|ps| - 1])
    }

    ghost function Total(): Totals
      requires Valid(policy)
    {
      Tally(Sorted(Prefixes(objects)))
    }

    /** The report a sweep owes, over the stored objects alone. */
    ghost function Owed(): Report
      requires Valid(policy)
    {
      var t := Total();
      Report(|Prefixes(objects)|, dryRun, t.deleted, t.skipped,
             Unmatched(t.deleted.Keys + t.skipped.Keys, ENFORCED), t.failures)
    }

    /** What the store holds after the namespaces whose keys are `due` were deleted. */
    function Without(due: set<string>): Objects {
      if dryRun then objects else objects - (due - faults.refused)
    }

    ghost function Remaining(): Objects
      requires Valid(policy)
    {
      Without(Total().due)
    }
  }

  /** Classes of the list no count mentions, in list order. */
  function Unmatched(seen: set<RetainedClass>, classes: seq<RetainedClass>): seq<RetainedClass> {
    if classes == [] then []
    else (if classes[0] in seen then [] else [classes[0]]) + Unmatched(seen, classes[1..])
  }

  // ------------------------------------------------------------------- store

  function AfterDelete(objects: Objects, key: string, faults: Faults): Objects {
    if key in faults.refused then objects else objects - {key}
  }

  /** A listing: every stored object below the prefix, once, in whatever order. */
  ghost predicate Lists(listing: seq<StoredObject>, prefix: string, objects: Objects) {
    && (forall i, j | 0 <= i < j < |listing| :: listing[i].key != listing[j].key)
    && (forall o | o in listing :: o.key in objects && objects[o.key] == o.uploadedAt && prefix <= o.key)
    && (forall k | k in objects && prefix <= k :: StoredObject(k, objects[k]) in listing)
  }

  class RetentionStore {
    var objects: Objects

    constructor (initial: Objects)
      ensures objects == initial
    {
      objects := initial;
    }

    method ListObjects(prefix: string) returns (listing: seq<StoredObject>)
      ensures Lists(listing, prefix, objects)
    {
      listing := [];
      var rest := set k | k in objects && prefix <= k;
      while rest != {}
        invariant rest <= set k | k in objects && prefix <= k
        invariant forall i, j | 0 <= i < j < |listing| :: listing[i].key != listing[j].key
        invariant forall o | o in listing :: o.key in objects && objects[o.key] == o.uploadedAt
                                             && prefix <= o.key && o.key !in rest
        invariant forall k | k in objects && prefix <= k && k !in rest :: StoredObject(k, objects[k]) in listing
        decreases rest
      {
        var k :| k in rest;
        listing := listing + [StoredObject(k, objects[k])];
        rest := rest - {k};
      }
    }

    /** None when the provider cannot answer. */
    method HeadExists(key: string, faults: Faults) returns (found: Option<bool>)
      ensures found == if key in faults.unreadable then None else Some(key in objects)
    {
      found := if key in faults.unreadable then None else Some(key in objects);
    }

    /** Deleting an absent object succeeds. */
    method Delete(key: string, faults: Faults) returns (accepted: bool)
      modifies this
      ensures objects == AfterDelete(old(objects), key, faults)
      ensures accepted == (key !in faults.refused && key !in faults.unacknowledged)
    {
      accepted := key !in faults.refused && key !in faults.unacknowledged;
      if key !in faults.refused { objects := objects - {key}; }
    }
  }

  // -------------------------------------------------------------- the sweep

  /** The listed objects that belong to one namespace, in listing order. */
  function Group(listing: seq<StoredObject>, p: string): seq<StoredObject> {
    if listing == [] then []
    else
      var last := listing[|listing| - 1];
      Group(listing[..|listing| - 1], p) + if AttemptPrefix(last.key) == Some(p) then [last] else []
  }

  function MinTime(objects: seq<StoredObject>): int
    requires |objects| > 0
  {
    if |objects| == 1 then objects[0].uploadedAt
    else
      var rest := MinTime(objects[1..]);
      if objects[0].uploadedAt <= rest then objects[0].uploadedAt else rest
  }

  function Keep(objects: seq<StoredObject>, marker: bool): seq<StoredObject> {
    if objects == [] then []
    else (if EndsWith(objects[0].key, COMMIT_MARKER) == marker then [objects[0]] else [])
         + Keep(objects[1..], marker)
  }

  /** A stable sort on "ends in the marker name": every other key first. */
  function DeleteOrder(objects: seq<StoredObject>): seq<StoredObject> {
    Keep(objects, false) + Keep(objects, true)
  }

  function AfterDeletes(objects: Objects, order: seq<StoredObject>, faults: Faults): Objects {
    if order == [] then objects
    else AfterDelete(AfterDeletes(objects, order[..|order| - 1], faults), order[|order| - 1].key, faults)
  }

  ghost function KeysOf(objects: seq<StoredObject>): set<string> {
    set i | 0 <= i < |objects| :: objects[i].key
  }

  ghost predicate DistinctKeys(objects: seq<StoredObject>) {
    forall i, j | 0 <= i < j < |objects| :: objects[i].key != objects[j].key
  }

  lemma {:induction false} AfterDeletesExact(objects: Objects, order: seq<StoredObject>, faults: Faults)
    ensures AfterDeletes(objects, order, faults) == objects - (KeysOf(order) - faults.refused)
  {
    if order == [] {
    } else {
      var last := |order| - 1;
      AfterDeletesExact(objects, order[..last], faults);
      assert KeysOf(order) == KeysOf(order[..last]) + {order[last].key};
    }
  }

  lemma {:induction false} KeepExact(objects: seq<StoredObject>, marker: bool)
    requires DistinctKeys(objects)
    ensures DistinctKeys(Keep(objects, marker))
    ensures forall o :: o in Keep(objects, marker)
                        <==> o in objects && EndsWith(o.key, COMMIT_MARKER) == marker
  {
    if objects == [] {
    } else {
      KeepExact(objects[1..], marker);
      assert objects == [objects[0]] + objects[1..];
      forall o | o in objects[1..] ensures o.key != objects[0].key {
        var j :| 0 <= j < |objects[1..]| && objects[1..][j] == o;
        assert objects[j + 1] == o;
      }
    }
  }

  /** Deletion visits each object once, and nothing after the first marker-named key is unmarked. */
  lemma DeleteOrderExact(objects: seq<StoredObject>)
    requires DistinctKeys(objects)
    ensures DistinctKeys(DeleteOrder(objects))
    ensures forall o :: o in DeleteOrder(objects) <==> o in objects
    ensures KeysOf(DeleteOrder(objects)) == KeysOf(objects)
    ensures forall i, j | 0 <= i < j < |DeleteOrder(objects)| && EndsWith(DeleteOrder(objects)[i].key, COMMIT_MARKER)
              :: EndsWith(DeleteOrder(objects)[j].key, COMMIT_MARKER)
  {
    KeepExact(objects, false);
    KeepExact(objects, true);
    var order, plain, marked := DeleteOrder(objects), Keep(objects, false), Keep(objects, true);
    forall o ensures o in order <==> o in objects {
      assert o in order <==> o in plain || o in marked;
    }
    forall i, j | 0 <= i < j < |order| ensures order[i].key != order[j].key {
      if i < |plain| && |plain| <= j {
        assert plain[i] in plain && marked[j - |plain|] in marked;
      }
    }
    forall i, j | 0 <= i < j < |order| && EndsWith(order[i].key, COMMIT_MARKER)
      ensures EndsWith(order[j].key, COMMIT_MARKER)
    {
      assert forall n | 0 <= n < |plain| :: order[n] in plain;
      assert forall n | |plain| <= n < |order| :: order[n] in marked;
    }
    forall k ensures k in KeysOf(order) <==> k in KeysOf(objects) {
      if k in KeysOf(order) {
        var i :| 0 <= i < |order| && order[i].key == k;
        assert order[i] in objects;
      }
      if k in KeysOf(objects) {
        var i :| 0 <= i < |objects| && objects[i].key == k;
        assert objects[i] in order;
      }
    }
  }

  lemma {:induction false} GroupExact(listing: seq<StoredObject>, p: string)
    requires DistinctKeys(listing)
    ensures DistinctKeys(Group(listing, p))
    ensures forall o :: o in Group(listing, p) <==> o in listing && AttemptPrefix(o.key) == Some(p)
  {
    if listing == [] {
    } else {
      var n := |listing| - 1;
      GroupExact(listing[..n], p);
      assert listing == listing[..n] + [listing[n]];
      forall o | o in listing[..n] ensures o.key != listing[n].key {
        var j :| 0 <= j < n && listing[j] == o;
      }
    }
  }

  lemma {:induction false} MinTimeExact(objects: seq<StoredObject>)
    requires |objects| > 0
    ensures exists o :: o in objects && o.uploadedAt == MinTime(objects)
    ensures forall o | o in objects :: MinTime(objects) <= o.uploadedAt
  {
    assert objects[0] in objects;
    if |objects| <= 1 {
    } else {
      MinTimeExact(objects[1..]);
      assert objects == [objects[0]] + objects[1..];
      var o :| o in objects[1..] && o.uploadedAt == MinTime(objects[1..]);
      assert o in objects;
    }
  }

  lemma {:induction false} KeysOfCardinality(objects: seq<StoredObject>)
    requires DistinctKeys(objects)
    ensures |KeysOf(objects)| == |objects|
  {
    if objects == [] {
      assert KeysOf(objects) == {};
    } else {
      var n := |objects| - 1;
      KeysOfCardinality(objects[..n]);
      assert KeysOf(objects) == KeysOf(objects[..n]) + {objects[n].key};
      assert objects[n].key !in KeysOf(objects[..n]);
    }
  }

  /** What the grouping loop owes for one namespace. */
  ghost predicate Describes(a: Attempt, objects: Objects, faults: Faults) {
    && Members(objects, a.prefix) != {}
    && a.uploadedAt == Oldest(objects, a.prefix)
    && a.committed == ReadsCommitted(objects, faults, a.prefix)
    && DistinctKeys(a.objects)
    && KeysOf(a.objects) == Members(objects, a.prefix)
  }

  lemma GroupMembers(listing: seq<StoredObject>, objects: Objects, p: string)
    requires Lists(listing, OUTPUT_PREFIX, objects)
    ensures forall k :: k in Members(objects, p) <==> k in objects && StoredObject(k, objects[k]) in Group(listing, p)
    ensures forall o | o in Group(listing, p) :: o.key in Members(objects, p) && objects[o.key] == o.uploadedAt
  {
    GroupExact(listing, p);
    forall k | k in Members(objects, p) ensures StoredObject(k, objects[k]) in listing {
      AttemptPrefixExact(k, p);
    }
  }

  lemma GroupOldest(group: seq<StoredObject>, objects: Objects, p: string)
    requires group != [] && Members(objects, p) != {}
    requires forall k | k in Members(objects, p) :: StoredObject(k, objects[k]) in group
    requires forall o | o in group :: o.key in Members(objects, p) && objects[o.key] == o.uploadedAt
    ensures MinTime(group) == Oldest(objects, p)
  {
    MinTimeExact(group);
    var o :| o in group && o.uploadedAt == MinTime(group);
    var t := Oldest(objects, p);
    var k :| k in Members(objects, p) && objects[k] == t;
    assert StoredObject(k, t) in group;
    assert t <= objects[o.key];
  }

  lemma KeysOfIn(group: seq<StoredObject>, k: string)
    ensures k in KeysOf(group) <==> exists o :: o in group && o.key == k
  {
    if k in KeysOf(group) {
      var i :| 0 <= i < |group| && group[i].key == k;
      assert group[i] in group;
    }
    if o :| o in group && o.key == k {
      var i :| 0 <= i < |group| && group[i] == o;
    }
  }

  lemma GroupDescribes(listing: seq<StoredObject>, objects: Objects, p: string)
    requires Lists(listing, OUTPUT_PREFIX, objects) && Group(listing, p) != []
    ensures DistinctKeys(Group(listing, p))
    ensures KeysOf(Group(listing, p)) == Members(objects, p)
    ensures Members(objects, p) != {}
    ensures MinTime(Group(listing, p)) == Oldest(objects, p)
  {
    GroupExact(listing, p);
    GroupMembers(listing, objects, p);
    var group := Group(listing, p);
    forall k ensures k in KeysOf(group) <==> k in Members(objects, p) {
      KeysOfIn(group, k);
    }
    assert group[0] in group;
    GroupOldest(group, objects, p);
  }

  lemma CountStep(before: set<string>, k: string, raising: set<string>)
    requires k !in before
    ensures |(before + {k}) - raising| == |before - raising| + if k in raising then 0 else 1
    ensures |(before + {k}) * raising| == |before * raising| + if k in raising then 1 else 0
  {
    if k in raising {
      assert (before + {k}) - raising == before - raising;
      assert (before + {k}) * raising == before * raising + {k};
    } else {
      assert (before + {k}) - raising == (before - raising) + {k};
      assert (before + {k}) * raising == before * raising;
    }
  }

  lemma KeysOfStep(order: seq<StoredObject>, i: nat)
    requires DistinctKeys(order) && i < |order|
    ensures KeysOf(order[..i + 1]) == KeysOf(order[..i]) + {order[i].key}
    ensures order[i].key !in KeysOf(order[..i])
  {
  }

  lemma AfterDeletesStep(objects: Objects, order: seq<StoredObject>, i: nat, faults: Faults)
    requires i < |order|
    ensures AfterDeletes(objects, order[..i + 1], faults)
            == AfterDelete(AfterDeletes(objects, order[..i], faults), order[i].key, faults)
  {
    assert order[..i + 1][..i] == order[..i];
  }

  lemma NothingDeleted(objects: Objects, order: seq<StoredObject>, faults: Faults)
    ensures AfterDeletes(objects, order[..0], faults) == objects
    ensures |KeysOf(order[..0]) - faults.Raising()| == 0 && |KeysOf(order[..0]) * faults.Raising()| == 0
  {
    assert KeysOf(order[..0]) == {};
  }

  /** One more delete of an order: what it leaves, and which counter it moves. */
  lemma OrderStep(objects: Objects, order: seq<StoredObject>, i: nat, faults: Faults)
    requires DistinctKeys(order) && i < |order|
    ensures AfterDeletes(objects, order[..i + 1], faults)
            == AfterDelete(AfterDeletes(objects, order[..i], faults), order[i].key, faults)
    ensures var accepted := order[i].key !in faults.refused && order[i].key !in faults.unacknowledged;
      && |KeysOf(order[..i + 1]) - faults.Raising()| == |KeysOf(order[..i]) - faults.Raising()| + (if accepted then 1 else 0)
      && |KeysOf(order[..i + 1]) * faults.Raising()| == |KeysOf(order[..i]) * faults.Raising()| + (if accepted then 0 else 1)
  {
    hide AfterDeletes, AfterDelete, KeysOf;
    KeysOfStep(order, i);
    CountStep(KeysOf(order[..i]), order[i].key, faults.Raising());
    AfterDeletesStep(objects, order, i, faults);
  }

  lemma TallyStep(s: Sweep, ps: seq<string>, i: nat)
    requires Valid(s.policy) && i < |ps|
    ensures s.Tally(ps[..i + 1]) == s.Fold(s.Tally(ps[..i]), ps[i])
  {
    assert ps[..i + 1][..i] == ps[..i];
  }

  /** What looking at one more attempt adds to the totals. */
  lemma SweepStep(s: Sweep, ps: seq<string>, i: nat, a: Attempt)
    requires Valid(s.policy) && i < |ps| && a.prefix == ps[i] && Describes(a, s.objects, s.faults)
    ensures var t, keys, c := s.Tally(ps[..i]), KeysOf(a.objects), a.Retained();
      s.Tally(ps[..i + 1])
      == if !Expired(s.policy, c, a.uploadedAt, s.at) then t.(skipped := Bump(t.skipped, c, 1))
         else t.(deleted := Bump(t.deleted, c, |keys - s.Raising()|),
                 failures := t.failures + |keys * s.Raising()|,
                 due := t.due + keys)
  {
    hide AttemptPrefix, Valid, Expired, Bump, Members, Sweep.Raising, Sweep.Tally;
    TallyStep(s, ps, i);
  }

  /** A dry run counts whole attempts and leaves the store alone. */
  lemma DryStep(s: Sweep, due: set<string>, a: Attempt)
    requires s.dryRun && DistinctKeys(a.objects)
    ensures |KeysOf(a.objects) - s.Raising()| == |a.objects| && |KeysOf(a.objects) * s.Raising()| == 0
    ensures s.Without(due + KeysOf(a.objects)) == s.Without(due)
  {
    KeysOfCardinality(a.objects);
    assert KeysOf(a.objects) - s.Raising() == KeysOf(a.objects);
    assert KeysOf(a.objects) * s.Raising() == {};
  }

  /** A real one leaves what the attempt's deletes leave. */
  lemma DeleteStep(s: Sweep, due: set<string>, a: Attempt)
    requires !s.dryRun && DistinctKeys(a.objects)
    ensures s.Raising() == s.faults.Raising()
    ensures s.Without(due + KeysOf(a.objects))
            == AfterDeletes(s.Without(due), DeleteOrder(a.objects)[..|DeleteOrder(a.objects)|], s.faults)
  {
    WholeDeletion(s.Without(due), a.objects, s.faults);
  }

  class RetentionReconciler {
    const store: RetentionStore

    constructor (store: RetentionStore)
      ensures this.store == store
    {
      this.store := store;
    }

    method Committed(prefix: string, faults: Faults) returns (committed: bool)
      ensures committed == ReadsCommitted(store.objects, faults, prefix)
    {
      var found := store.HeadExists(MarkerKey(prefix), faults);
      committed := found.GetOr(true);
    }

    /** One attempt for each namespace of the listing, in name order. */
    method Attempts(faults: Faults) returns (attempts: seq<Attempt>)
      ensures |attempts| == |Sorted(Prefixes(store.objects))|
      ensures forall i | 0 <= i < |attempts| ::
                && attempts[i].prefix == Sorted(Prefixes(store.objects))[i]
                && Describes(attempts[i], store.objects, faults)
    {
      var listing := store.ListObjects(OUTPUT_PREFIX);
      var grouped := GroupAll(listing, store.objects);
      var prefixes := Sorted(grouped.Keys);
      attempts := [];
      for i := 0 to |prefixes|
        invariant |attempts| == i
        invariant forall j | 0 <= j < i ::
                    attempts[j].prefix == prefixes[j] && Describes(attempts[j], store.objects, faults)
      {
        var p := prefixes[i];
        assert p in grouped;
        var committed := Committed(p, faults);
        GroupDescribes(listing, store.objects, p);
        attempts := attempts + [Attempt(p, MinTime(grouped[p]), committed, grouped[p])];
      }
    }

    method GroupAll(listing: seq<StoredObject>, ghost objects: Objects) returns (grouped: map<string, seq<StoredObject>>)
      requires Lists(listing, OUTPUT_PREFIX, objects)
      ensures grouped.Keys == Prefixes(objects)
      ensures forall p | p in grouped :: grouped[p] == Group(listing, p) && grouped[p] != []
    {
      grouped := map[];
      for i := 0 to |listing|
        invariant forall p :: p in grouped <==> Group(listing[..i], p) != []
        invariant forall p | p in grouped :: grouped[p] == Group(listing[..i], p)
      {
        assert listing[..i + 1][..i] == listing[..i];
        var prefix := AttemptPrefix(listing[i].key);
        if prefix.Some? {
          var members := if prefix.value in grouped then grouped[prefix.value] else [];
          grouped := grouped[prefix.value := members + [listing[i]]];
        }
      }
      assert listing[..|listing|] == listing;
      forall p ensures p in grouped <==> p in Prefixes(objects) {
        GroupMembers(listing, objects, p);
        if p in grouped { assert Group(listing, p)[0] in Group(listing, p); }
        if p in Prefixes(objects) {
          var k :| k in objects && AttemptPrefix(k) == Some(p);
          assert k in Members(objects, p);
        }
      }
    }

    /** Delete one attempt marker-last, past refusals; the process may die after any
        number of deletes, which `survives` counts. */
    method DeleteAttempt(attempt: Attempt, faults: Faults, survives: nat) returns (removed: nat, errors: nat)
      requires DistinctKeys(attempt.objects)
      modifies store
      ensures var order := DeleteOrder(attempt.objects);
              store.objects == AfterDeletes(old(store.objects),
                                            order[..if survives < |order| then survives else |order|], faults)
      ensures survives >= |DeleteOrder(attempt.objects)| ==>
                && removed == |KeysOf(attempt.objects) - faults.Raising()|
                && errors == |KeysOf(attempt.objects) * faults.Raising()|
    {
      hide AfterDeletes, KeysOf, DeleteOrder, DistinctKeys, AfterDelete;
      var order := DeleteOrder(attempt.objects);
      DeleteOrderExact(attempt.objects);
      NothingDeleted(store.objects, order, faults);
      removed, errors := 0, 0;
      var i := 0;
      while i < |order| && i < survives
        invariant 0 <= i <= |order| && i <= survives
        invariant store.objects == AfterDeletes(old(store.objects), order[..i], faults)
        invariant removed == |KeysOf(order[..i]) - faults.Raising()|
        invariant errors == |KeysOf(order[..i]) * faults.Raising()|
      {
        OrderStep(old(store.objects), order, i, faults);
        var accepted := store.Delete(order[i].key, faults);
        if !accepted {
          errors := errors + 1;
          i := i + 1;
          continue;
        }
        removed := removed + 1;
        i := i + 1;
      }
      if survives >= |order| { assert order[..i] == order; }
    }

    /** Sweep once. Report and store are fixed by what was stored and what failed: neither
        the listing order nor the deletion order shows in them. */
    method Run(policy: LifecyclePolicy, evaluatedAt: int, dryRun: bool, faults: Faults) returns (report: Report)
      requires Valid(policy)
      modifies store
      ensures var s := Sweep(old(store.objects), faults, policy, evaluatedAt, dryRun);
              report == s.Owed() && store.objects == s.Remaining()
    {
      hide AttemptPrefix, Valid, Expired, Members, Oldest, ReadsCommitted, Sweep.Expires, Sweep.Fold, Sweep.Tally,
           Sweep.Raising, Sweep.Without, AfterDeletes, DeleteOrder, Bump, Unmatched, KeysOf;
      ghost var s := Sweep(store.objects, faults, policy, evaluatedAt, dryRun);
      ghost var prefixes := Sorted(Prefixes(store.objects));
      var attempts := Attempts(faults);
      var deleted: map<RetainedClass, nat> := map[];
      var skipped: map<RetainedClass, nat> := map[];
      var failures: nat := 0;
      NothingTallied(s);
      for i := 0 to |attempts|
        invariant deleted == s.Tally(prefixes[..i]).deleted
        invariant skipped == s.Tally(prefixes[..i]).skipped
        invariant failures == s.Tally(prefixes[..i]).failures
        invariant store.objects == s.Without(s.Tally(prefixes[..i]).due)
      {
        var attempt := attempts[i];
        SweepStep(s, prefixes, i, attempt);
        var retained := attempt.Retained();
        if !Expired(policy, retained, attempt.uploadedAt, evaluatedAt) {
          skipped := Bump(skipped, retained, 1);
        } else if dryRun {
          DryStep(s, s.Tally(prefixes[..i]).due, attempt);
          deleted := Bump(deleted, retained, |attempt.objects|);
        } else {
          DeleteStep(s, s.Tally(prefixes[..i]).due, attempt);
          var removed, errors := DeleteAttempt(attempt, faults, |DeleteOrder(attempt.objects)|);
          deleted := Bump(deleted, retained, removed);
          failures := failures + errors;
        }
      }
      assert prefixes[..|attempts|] == prefixes;
      SortedCardinality(Prefixes(s.objects));
      report := Report(|attempts|, dryRun, deleted, skipped,
                       Unmatched(deleted.Keys + skipped.Keys, ENFORCED), failures);
    }
  }

  lemma NothingTallied(s: Sweep)
    requires Valid(s.policy)
    ensures s.Tally([]) == Totals(map[], map[], 0, {}) && s.Without({}) == s.objects
  {
    assert s.objects - ({} - s.faults.refused) == s.objects;
  }

  lemma WholeDeletion(objects: Objects, members: seq<StoredObject>, faults: Faults)
    requires DistinctKeys(members)
    ensures AfterDeletes(objects, DeleteOrder(members)[..|DeleteOrder(members)|], faults)
            == objects - (KeysOf(members) - faults.refused)
  {
    var order := DeleteOrder(members);
    assert order[..|order|] == order;
    DeleteOrderExact(members);
    AfterDeletesExact(objects, order, faults);
  }

  lemma SortedCardinality(s: set<string>)
    ensures |Sorted(s)| == |s|
  {
    DistinctCardinality(Sorted(s));
    assert Elements(Sorted(s)) == s;
  }
}
