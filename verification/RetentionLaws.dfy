/** What one sweep accounts for, and what a sweep that dies or is refused leaves behind. */
module RetentionLaws {
  import opened Prelude
  import opened Text
  import opened Keys
  import opened Ordering
  import opened Policy
  import opened Retention

  // -------------------------------------------------------------- accounting

  ghost predicate Looked(s: Sweep, ps: set<string>, k: string) {
    k in s.objects && AttemptPrefix(k).Some? && AttemptPrefix(k).value in ps
  }

  /** Keys of expiring attempts of one class. */
  ghost function Due(s: Sweep, ps: set<string>, c: RetainedClass): set<string>
    requires Valid(s.policy)
  {
    set k | k in s.objects && Looked(s, ps, k) && s.Expires(AttemptPrefix(k).value)
            && ClassOf(s.objects, s.faults, AttemptPrefix(k).value) == c
  }

  ghost function Expiring(s: Sweep, ps: set<string>, c: RetainedClass): set<string>
    requires Valid(s.policy)
  {
    set p | p in ps && s.Expires(p) && ClassOf(s.objects, s.faults, p) == c
  }

  ghost function Kept(s: Sweep, ps: set<string>, c: RetainedClass): set<string>
    requires Valid(s.policy)
  {
    set p | p in ps && !s.Expires(p) && ClassOf(s.objects, s.faults, p) == c
  }

  ghost function Count(m: map<RetainedClass, nat>, c: RetainedClass): nat {
    if c in m then m[c] else 0
  }

  ghost predicate ClassTotalled(s: Sweep, ps: set<string>, t: Totals, c: RetainedClass)
    requires Valid(s.policy)
  {
    && (c in t.deleted <==> Expiring(s, ps, c) != {})
    && (c in t.skipped <==> Kept(s, ps, c) != {})
    && Count(t.deleted, c) == |Due(s, ps, c) - s.Raising()|
    && Count(t.skipped, c) == |Kept(s, ps, c)|
  }

  ghost predicate Totalled(s: Sweep, ps: set<string>, t: Totals)
    requires Valid(s.policy)
  {
    && (forall c :: ClassTotalled(s, ps, t, c))
    && t.due == Due(s, ps, Deliverable) + Due(s, ps, FailedAttempt)
    && t.failures == |t.due * s.Raising()|
  }

  lemma SplitCount(a: set<string>, b: set<string>, r: set<string>)
    requires a !! b
    ensures |(a + b) - r| == |a - r| + |b - r|
    ensures |(a + b) * r| == |a * r| + |b * r|
  {
    assert (a + b) - r == (a - r) + (b - r);
    assert (a + b) * r == (a * r) + (b * r);
  }

  lemma AddOne(a: set<string>, x: string)
    requires x !in a
    ensures |a + {x}| == |a| + 1
  {
  }

  lemma DueAdds(s: Sweep, ps: set<string>, p: string, c: RetainedClass)
    requires Valid(s.policy) && p !in ps
    ensures var more := if s.Expires(p) && ClassOf(s.objects, s.faults, p) == c then Members(s.objects, p) else {};
            Due(s, ps + {p}, c) == Due(s, ps, c) + more
    ensures Due(s, ps, c) !! Members(s.objects, p)
  {
    hide Valid, Split, Join;
  }

  lemma SetsAdd(s: Sweep, ps: set<string>, p: string, c: RetainedClass)
    requires Valid(s.policy) && p !in ps
    ensures Expiring(s, ps + {p}, c)
            == Expiring(s, ps, c) + if s.Expires(p) && ClassOf(s.objects, s.faults, p) == c then {p} else {}
    ensures Kept(s, ps + {p}, c)
            == Kept(s, ps, c) + if !s.Expires(p) && ClassOf(s.objects, s.faults, p) == c then {p} else {}
  {
    hide Valid, AttemptPrefix;
  }

  lemma BumpCounts(m: map<RetainedClass, nat>, c: RetainedClass, n: nat, other: RetainedClass)
    ensures Count(Bump(m, c, n), other) == Count(m, other) + if other == c then n else 0
    ensures other in Bump(m, c, n) <==> other == c || other in m
  {
  }

  lemma FoldDeletes(s: Sweep, t: Totals, p: string)
    requires Valid(s.policy)
    ensures s.Fold(t, p).deleted == if s.Expires(p)
                                    then Bump(t.deleted, ClassOf(s.objects, s.faults, p), |Members(s.objects, p) - s.Raising()|)
                                    else t.deleted
  {
    hide Valid, ClassOf, Members, Bump, Sweep.Expires, Sweep.Raising;
  }

  lemma DeletedClassStep(s: Sweep, ps: set<string>, t: Totals, p: string, c: RetainedClass)
    requires Valid(s.policy) && p !in ps
    requires c in t.deleted <==> Expiring(s, ps, c) != {}
    requires Count(t.deleted, c) == |Due(s, ps, c) - s.Raising()|
    ensures c in s.Fold(t, p).deleted <==> Expiring(s, ps + {p}, c) != {}
    ensures Count(s.Fold(t, p).deleted, c) == |Due(s, ps + {p}, c) - s.Raising()|
  {
    hide Valid, Members, Due, Expiring, Sweep.Expires, ClassOf, Sweep.Raising, Sweep.Fold, Bump, Count;
    var raising, members := s.Raising(), Members(s.objects, p);
    FoldDeletes(s, t, p);
    DueAdds(s, ps, p, c);
    SetsAdd(s, ps, p, c);
    BumpCounts(t.deleted, ClassOf(s.objects, s.faults, p), |members - raising|, c);
    if s.Expires(p) && ClassOf(s.objects, s.faults, p) == c {
      SplitCount(Due(s, ps, c), members, raising);
      assert p in Expiring(s, ps + {p}, c);
    } else {
      assert Due(s, ps + {p}, c) == Due(s, ps, c) && Expiring(s, ps + {p}, c) == Expiring(s, ps, c);
    }
  }

  lemma SkippedClassStep(s: Sweep, ps: set<string>, t: Totals, p: string, c: RetainedClass)
    requires Valid(s.policy) && p !in ps
    requires c in t.skipped <==> Kept(s, ps, c) != {}
    requires Count(t.skipped, c) == |Kept(s, ps, c)|
    ensures c in s.Fold(t, p).skipped <==> Kept(s, ps + {p}, c) != {}
    ensures Count(s.Fold(t, p).skipped, c) == |Kept(s, ps + {p}, c)|
  {
    hide Valid, Members, Kept, Sweep.Expires, ClassOf, Sweep.Raising, Bump, Count;
    SetsAdd(s, ps, p, c);
    NotYetKept(s, ps, p, c);
    BumpCounts(t.skipped, ClassOf(s.objects, s.faults, p), 1, c);
    if !s.Expires(p) && ClassOf(s.objects, s.faults, p) == c {
      AddOne(Kept(s, ps, c), p);
      assert p in Kept(s, ps + {p}, c);
    } else {
      assert Kept(s, ps + {p}, c) == Kept(s, ps, c);
    }
  }

  lemma ClassStep(s: Sweep, ps: set<string>, t: Totals, p: string, c: RetainedClass)
    requires Valid(s.policy) && p !in ps && ClassTotalled(s, ps, t, c)
    ensures ClassTotalled(s, ps + {p}, s.Fold(t, p), c)
  {
    hide Valid, Members, Kept, Due, Expiring, Sweep.Expires, ClassOf, Sweep.Raising, Sweep.Fold, Count;
    DeletedClassStep(s, ps, t, p, c);
    SkippedClassStep(s, ps, t, p, c);
  }

  lemma NotYetKept(s: Sweep, ps: set<string>, p: string, c: RetainedClass)
    requires Valid(s.policy) && p !in ps
    ensures p !in Kept(s, ps, c)
  {
    hide Valid, AttemptPrefix;
  }

  lemma DueUnion(s: Sweep, ps: set<string>, p: string)
    requires Valid(s.policy) && p !in ps
    ensures var due := Due(s, ps, Deliverable) + Due(s, ps, FailedAttempt);
      && due !! Members(s.objects, p)
      && Due(s, ps + {p}, Deliverable) + Due(s, ps + {p}, FailedAttempt)
         == due + if s.Expires(p) then Members(s.objects, p) else {}
  {
    hide Valid, Members, Due, Sweep.Expires, AttemptPrefix;
    DueAdds(s, ps, p, Deliverable);
    DueAdds(s, ps, p, FailedAttempt);
    assert ClassOf(s.objects, s.faults, p) in {Deliverable, FailedAttempt};
    hide ClassOf;
  }

  lemma DueTotalStep(s: Sweep, ps: set<string>, t: Totals, p: string)
    requires Valid(s.policy) && p !in ps && Totalled(s, ps, t)
    ensures var u := s.Fold(t, p);
            && u.due == Due(s, ps + {p}, Deliverable) + Due(s, ps + {p}, FailedAttempt)
            && u.failures == |u.due * s.Raising()|
  {
    hide Valid, Members, Due, ClassTotalled, Sweep.Expires, Sweep.Raising, Bump, AttemptPrefix, ClassOf;
    DueUnion(s, ps, p);
    SplitCount(t.due, Members(s.objects, p), s.Raising());
  }

  lemma EmptyTally(s: Sweep)
    requires Valid(s.policy)
    ensures Totalled(s, {}, s.Tally([]))
  {
    hide Valid, AttemptPrefix;
    forall c ensures Due(s, {}, c) == {} && Expiring(s, {}, c) == {} && Kept(s, {}, c) == {} {}
  }

  lemma TotalStep(s: Sweep, ps: set<string>, t: Totals, p: string)
    requires Valid(s.policy) && p !in ps && Totalled(s, ps, t)
    ensures Totalled(s, ps + {p}, s.Fold(t, p))
  {
    hide Valid, AttemptPrefix, Members, ClassTotalled, Sweep.Fold;
    forall c ensures ClassTotalled(s, ps + {p}, s.Fold(t, p), c) {
      ClassStep(s, ps, t, p, c);
    }
    DueTotalStep(s, ps, t, p);
  }

  lemma ElementsLast(ps: seq<string>)
    requires Distinct(ps) && ps != []
    ensures var n := |ps| - 1;
      Distinct(ps[..n]) && ps[n] !in Elements(ps[..n]) && Elements(ps) == Elements(ps[..n]) + {ps[n]}
  {
    assert ps == ps[..|ps| - 1] + [ps[|ps| - 1]];
  }

  lemma {:induction false} TallyExact(s: Sweep, ps: seq<string>)
    requires Valid(s.policy) && Distinct(ps)
    ensures Totalled(s, Elements(ps), s.Tally(ps))
  {
    hide Valid, Totalled, Sweep.Fold;
    if ps == [] {
      assert Elements(ps) == {};
      EmptyTally(s);
    } else {
      var n := |ps| - 1;
      TallyExact(s, ps[..n]);
      ElementsLast(ps);
      TotalStep(s, Elements(ps[..n]), s.Tally(ps[..n]), ps[n]);
    }
  }

  /** Every key of four or more segments lies in exactly one attempt, and no other key in any. */
  lemma AttemptsPartitionKeys(objects: Objects, k: string)
    requires k in objects
    ensures AttemptPrefix(k).Some? <==> exists p :: p in Prefixes(objects) && k in Members(objects, p)
    ensures forall p, q | k in Members(objects, p) && k in Members(objects, q) :: p == q
    ensures AttemptPrefix(k).Some? <==> OUTPUT_PREFIX <= k && |Split(k, '/')| >= 4
  {
    if AttemptPrefix(k).Some? {
      var p := AttemptPrefix(k).value;
      assert p in Prefixes(objects) && k in Members(objects, p);
    }
  }

  lemma FourParts<T>(whole: set<T>, a: set<T>, b: set<T>, c: set<T>, d: set<T>)
    requires whole == a + b + c + d && a !! b !! c !! d
    ensures |whole| == |a| + |b| + |c| + |d|
  {
    assert |a + b| == |a| + |b|;
    assert |a + b + c| == |a + b| + |c|;
  }

  lemma {:induction false} UnmatchedExact(seen: set<RetainedClass>, classes: seq<RetainedClass>)
    ensures forall c :: c in Unmatched(seen, classes) <==> c in classes && c !in seen
  {
    if classes == [] {
    } else {
      UnmatchedExact(seen, classes[1..]);
      assert classes == [classes[0]] + classes[1..];
    }
  }

  /** The report of a sweep balances: attempts looked at are attempts expired or skipped,
      objects of expired attempts are deleted or failed, class by class, and the classes
      named anywhere in the report are exactly the enforced ones. */
  lemma SweepAccounting(s: Sweep)
    requires Valid(s.policy)
    ensures var r, ps := s.Owed(), Prefixes(s.objects);
      && r.evaluated == |Expiring(s, ps, Deliverable)| + |Expiring(s, ps, FailedAttempt)|
                        + Count(r.skipped, Deliverable) + Count(r.skipped, FailedAttempt)
      && Count(r.deleted, Deliverable) + Count(r.deleted, FailedAttempt) + r.failures
         == |Due(s, ps, Deliverable)| + |Due(s, ps, FailedAttempt)|
      && (forall c :: Count(r.deleted, c) == |Due(s, ps, c) - s.Raising()|)
      && (forall c :: Count(r.skipped, c) == |Kept(s, ps, c)|)
      && (forall c :: c in ENFORCED <==> c in r.noObjects || c in r.deleted || c in r.skipped)
      && (forall c | c in r.noObjects :: c !in r.deleted && c !in r.skipped)
    ensures s.Remaining() == s.Without(Due(s, Prefixes(s.objects), Deliverable) + Due(s, Prefixes(s.objects), FailedAttempt))
  {
    hide Valid, Prefixes, Expiring, Kept, Due, Sweep.Tally, Unmatched, Sweep.Raising, Sweep.Without;
    var ps, t := Prefixes(s.objects), s.Total();
    assert (set p | p in Sorted(ps)) == ps;
    TallyExact(s, Sorted(ps));
    AttemptsSplit(s, ps);
    ObjectsSplit(s, ps, t);
    UnmatchedExact(t.deleted.Keys + t.skipped.Keys, ENFORCED);
    OnlyTwoClasses(s, ps);
    forall c
      ensures Count(t.deleted, c) == |Due(s, ps, c) - s.Raising()| && Count(t.skipped, c) == |Kept(s, ps, c)|
      ensures (c in t.deleted <==> Expiring(s, ps, c) != {}) && (c in t.skipped <==> Kept(s, ps, c) != {})
    {
      assert ClassTotalled(s, ps, t, c);
    }
  }

  lemma OnlyTwoClasses(s: Sweep, ps: set<string>)
    requires Valid(s.policy)
    ensures forall c | Expiring(s, ps, c) != {} || Kept(s, ps, c) != {} :: c in ENFORCED
  {
    hide Valid, AttemptPrefix;
  }

  lemma TwoClasses(s: Sweep, p: string)
    ensures ClassOf(s.objects, s.faults, p) in {Deliverable, FailedAttempt}
  {
  }

  lemma AttemptsSplit(s: Sweep, ps: set<string>)
    requires Valid(s.policy)
    ensures |ps| == |Expiring(s, ps, Deliverable)| + |Expiring(s, ps, FailedAttempt)|
                    + |Kept(s, ps, Deliverable)| + |Kept(s, ps, FailedAttempt)|
  {
    hide Valid, AttemptPrefix, Sweep.Expires;
    forall p ensures ClassOf(s.objects, s.faults, p) in {Deliverable, FailedAttempt} { TwoClasses(s, p); }
    hide ClassOf;
    FourParts(ps, Expiring(s, ps, Deliverable), Expiring(s, ps, FailedAttempt),
              Kept(s, ps, Deliverable), Kept(s, ps, FailedAttempt));
  }

  lemma ObjectsSplit(s: Sweep, ps: set<string>, t: Totals)
    requires Valid(s.policy) && Totalled(s, ps, t)
    ensures Count(t.deleted, Deliverable) + Count(t.deleted, FailedAttempt) + t.failures
            == |Due(s, ps, Deliverable)| + |Due(s, ps, FailedAttempt)|
  {
    var d, f, r := Due(s, ps, Deliverable), Due(s, ps, FailedAttempt), s.Raising();
    assert d !! f by { hide Valid, Split, Join; }
    assert ClassTotalled(s, ps, t, Deliverable) && ClassTotalled(s, ps, t, FailedAttempt);
    SplitCount(d, f, r);
    Halves(d, r);
    Halves(f, r);
  }

  lemma Halves(a: set<string>, r: set<string>)
    ensures |a| == |a - r| + |a * r|
  {
    assert a == (a - r) + (a * r);
  }

  // ---------------------------------------------------------- declared days

  /** Some object under `p` is at least `days` whole days old, in microseconds. */
  ghost predicate Aged(objects: Objects, p: string, days: int, at: int) {
    exists k :: k in objects && p <= k && at - objects[k] >= days * 86_400_000_000
  }

  /** The days an attempt is kept: as a deliverable when its marker is stored or cannot be headed. */
  function KeptFor(s: Sweep, p: string, kept: int, failed: int): int {
    if p + "result.json" in s.objects || p + "result.json" in s.faults.unreadable then kept else failed
  }

  /** A sweep expires exactly the attempts that hold an object as old as the days their class is
      declared at. */
  lemma ExpiresAtDeclaredDays(s: Sweep, p: string, kept: int, failed: int)
    requires Valid(s.policy) && IsNamespace(p)
    requires RetentionRule(Deliverable, kept) in s.policy.rules && RetentionRule(FailedAttempt, failed) in s.policy.rules
    ensures s.Expires(p) <==> Aged(s.objects, p, KeptFor(s, p, kept, failed), s.at)
  {
    hide Valid, AttemptPrefix, Expired;
    var days := KeptFor(s, p, kept, failed);
    forall k ensures k in Members(s.objects, p) <==> k in s.objects && p <= k { AttemptPrefixExact(k, p); }
    if Members(s.objects, p) != {} {
      ExpiresWhenDeclared(s.policy, ClassOf(s.objects, s.faults, p), days, Oldest(s.objects, p), s.at);
    }
  }

  /** What one sweep takes away, of every stored object: it goes exactly when the sweep is no dry
      run, its delete is not refused, and its attempt holds an object as old as declared. */
  lemma SweepRemovesExactly(s: Sweep, k: string, kept: int, failed: int)
    requires Valid(s.policy) && k in s.objects
    requires RetentionRule(Deliverable, kept) in s.policy.rules && RetentionRule(FailedAttempt, failed) in s.policy.rules
    ensures k !in s.Remaining()
            <==> !s.dryRun && k !in s.faults.refused
                 && exists p :: IsNamespace(p) && p <= k && Aged(s.objects, p, KeptFor(s, p, kept, failed), s.at)
    ensures s.Remaining().Keys <= s.objects.Keys && (k in s.Remaining() ==> s.Remaining()[k] == s.objects[k])
  {
    hide Valid, AttemptPrefix, Sweep.Expires, Aged, Sweep.Total, IsNamespace;
    SweepAccounting(s);
    DueExactly(s, k);
    forall p | IsNamespace(p) && p <= k
      ensures AttemptPrefix(k) == Some(p) && (s.Expires(p) <==> Aged(s.objects, p, KeptFor(s, p, kept, failed), s.at))
    {
      AttemptPrefixExact(k, p);
      ExpiresAtDeclaredDays(s, p, kept, failed);
    }
    if AttemptPrefix(k).Some? { AttemptPrefixExact(k, AttemptPrefix(k).value); }
  }

  lemma DueExactly(s: Sweep, k: string)
    requires Valid(s.policy) && k in s.objects
    ensures var ps := Prefixes(s.objects);
      k in Due(s, ps, Deliverable) + Due(s, ps, FailedAttempt)
      <==> AttemptPrefix(k).Some? && s.Expires(AttemptPrefix(k).value)
  {
    hide Valid, AttemptPrefix, Sweep.Expires;
    if AttemptPrefix(k).Some? {
      var p := AttemptPrefix(k).value;
      assert p in Prefixes(s.objects) && k in Members(s.objects, p);
      TwoClasses(s, p);
    }
  }

  // ------------------------------------------------------------------ dry run

  lemma {:induction false} TallyWithoutRefusals(s: Sweep, wet: Sweep, ps: seq<string>)
    requires Valid(s.policy) && s.faults.Raising() == {} && wet == s.(dryRun := false)
    ensures wet.Tally(ps) == s.Tally(ps)
  {
    hide Valid, AttemptPrefix;
    if ps == [] {
    } else {
      var n := |ps| - 1;
      TallyWithoutRefusals(s, wet, ps[..n]);
      assert wet.Expires(ps[n]) == s.Expires(ps[n]);
      assert wet.Raising() == s.Raising() == {};
    }
  }

  /** A dry run deletes nothing and reports what a real sweep no delete of which fails would. */
  lemma DryRunPredicts(s: Sweep)
    requires Valid(s.policy) && s.dryRun
    ensures s.Remaining() == s.objects
    ensures s.faults.Raising() == {} ==> s.(dryRun := false).Owed() == s.Owed().(dryRun := false)
  {
    if s.faults.Raising() == {} {
      TallyWithoutRefusals(s, s.(dryRun := false), Sorted(Prefixes(s.objects)));
    }
  }

  // ---------------------------------------------------------- crash and resume

  /** If the sweep dies after any number of unrefused deletes of a committed attempt, the
      marker outlives every key not named like one, so the resumed sweep, whatever it can
      read, derives the same class from what is left. */
  lemma CrashKeepsTheClass(a: Attempt, objects: Objects, n: nat, later: Faults)
    requires DistinctKeys(a.objects) && KeysOf(a.objects) == Members(objects, a.prefix)
    requires MarkerKey(a.prefix) in objects && IsNamespace(a.prefix)
    requires n <= |DeleteOrder(a.objects)|
    ensures var left := AfterDeletes(objects, DeleteOrder(a.objects)[..n], NO_FAULTS);
      && ((exists k :: k in Members(left, a.prefix) && !EndsWith(k, COMMIT_MARKER)) ==>
            MarkerKey(a.prefix) in left && ClassOf(left, later, a.prefix) == Deliverable)
      && (forall k | k in objects && AttemptPrefix(k) != Some(a.prefix) :: k in left && left[k] == objects[k])
  {
    hide AttemptPrefix;
    var order := DeleteOrder(a.objects);
    var left := AfterDeletes(objects, order[..n], NO_FAULTS);
    AfterDeletesExact(objects, order[..n], NO_FAULTS);
    DeleteOrderExact(a.objects);
    MarkerKeyInNamespace(a.prefix);
    if k :| k in Members(left, a.prefix) && !EndsWith(k, COMMIT_MARKER) {
      assert k in KeysOf(order);
      var j :| 0 <= j < |order| && order[j].key == k;
      assert order[j] !in order[..n];
    }
    assert KeysOf(order[..n]) <= KeysOf(order);
  }

  /** A complete pass over a committed attempt changes its class exactly when the marker
      goes while some other object is refused. */
  lemma RefusalFlipsTheClass(a: Attempt, objects: Objects, faults: Faults)
    requires DistinctKeys(a.objects) && KeysOf(a.objects) == Members(objects, a.prefix)
    requires MarkerKey(a.prefix) in objects && IsNamespace(a.prefix)
    ensures var left := AfterDeletes(objects, DeleteOrder(a.objects), faults);
      (Members(left, a.prefix) != {} && ClassOf(left, NO_FAULTS, a.prefix) == FailedAttempt)
      <==> MarkerKey(a.prefix) !in faults.refused && Members(objects, a.prefix) * faults.refused != {}
  {
    var left := AfterDeletes(objects, DeleteOrder(a.objects), faults);
    AfterDeletesExact(objects, DeleteOrder(a.objects), faults);
    DeleteOrderExact(a.objects);
    MarkerKeyInNamespace(a.prefix);
    hide AttemptPrefix;
    assert Members(left, a.prefix) == Members(objects, a.prefix) * faults.refused;
    assert MarkerKey(a.prefix) in Members(objects, a.prefix);
  }

  /** Deleting objects only ever makes an attempt look younger; its date is unchanged
      exactly when an object of the original date is still there. */
  lemma DeletionRedates(before: Objects, after: Objects, p: string)
    requires Members(after, p) != {} && after.Keys <= before.Keys
    requires forall k | k in after :: after[k] == before[k]
    ensures Members(before, p) != {} && Oldest(before, p) <= Oldest(after, p)
    ensures Oldest(after, p) == Oldest(before, p)
            <==> exists k :: k in Members(after, p) && before[k] == Oldest(before, p)
  {
    hide AttemptPrefix;
    var k :| k in Members(after, p) && after[k] == Oldest(after, p);
    assert k in Members(before, p);
  }

  /** A resumed sweep can keep what the one that died was deleting: the class is the same,
      but the oldest object that dated the attempt is gone. */
  lemma ResumeCanWait(p: string) returns (before: Objects, after: Objects, policy: LifecyclePolicy, t: int)
    requires IsNamespace(p)
    ensures Valid(policy) && after == AfterDelete(before, p + "video.bin", NO_FAULTS)
    ensures Members(after, p) != {}
    ensures ClassOf(after, NO_FAULTS, p) == ClassOf(before, NO_FAULTS, p) == Deliverable
    ensures Sweep(before, NO_FAULTS, policy, t, false).Expires(p)
    ensures !Sweep(after, NO_FAULTS, policy, t, false).Expires(p)
  {
    hide AttemptPrefix, DaysFor, Valid, Declare;
    var video, marker := p + "video.bin", MarkerKey(p);
    policy := LifecyclePolicy("1",
      [RetentionRule(Input, 1), RetentionRule(FailedAttempt, 1), RetentionRule(Scratch, 1),
       RetentionRule(Deliverable, 1), RetentionRule(HiddenVersion, 1), RetentionRule(Multipart, 1),
       RetentionRule(PromptEvidence, 1)]);
    OneDayPolicy(policy);
    assert video[|p|] == 'v' && marker[|p|] == 'r';
    before := map[video := 0, marker := 1];
    after := AfterDelete(before, video, NO_FAULTS);
    t := DAY;
    assert after == map[marker := 1];
    AttemptPrefixExact(video, p);
    AttemptPrefixExact(marker, p);
    assert video in Members(before, p) && marker in Members(before, p) && marker in Members(after, p);
    assert IsOldest(before, Members(before, p), 0);
    assert IsOldest(after, Members(after, p), 1);
    assert Oldest(before, p) == 0 && Oldest(after, p) == 1;
  }

  predicate OneDayRules(rules: seq<RetentionRule>) {
    rules == [RetentionRule(Input, 1), RetentionRule(FailedAttempt, 1), RetentionRule(Scratch, 1),
              RetentionRule(Deliverable, 1), RetentionRule(HiddenVersion, 1), RetentionRule(Multipart, 1),
              RetentionRule(PromptEvidence, 1)]
  }

  lemma OneDayPolicy(policy: LifecyclePolicy)
    requires OneDayRules(policy.rules)
    ensures Valid(policy) && DaysFor(policy, Deliverable) == 1
  {
    var rules := policy.rules;
    assert rules[3] == RetentionRule(Deliverable, 1);
    assert forall i | 0 <= i < |rules| :: rules[i].days == 1;
    OneDayDeclares(rules);
    hide OneDayRules;
    FirstDaysIsDeclared(rules, Deliverable);
  }

  lemma OneDayDeclares(rules: seq<RetentionRule>)
    requires OneDayRules(rules)
    ensures FirstOutOfRange(rules).None? && Covers(rules) && DeclaresOnce(rules)
  {
    assert rules[0].retained == Input && rules[1].retained == FailedAttempt && rules[2].retained == Scratch;
    assert rules[3].retained == Deliverable && rules[4].retained == HiddenVersion;
    assert rules[5].retained == Multipart && rules[6].retained == PromptEvidence;
    assert forall i | 0 <= i < |rules| :: InRange(rules[i].days);
  }
}
