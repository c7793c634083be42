/** The declared retention policy and its projection onto bucket lifecycle rules. */
module Policy {
  import opened Prelude
  import opened Keys
  import opened Ordering

  const MIN_RETAIN_DAYS := 1
  const MAX_RETAIN_DAYS := 3650
  /** One day in the time unit of every timestamp here (microseconds). */
  const DAY: int := 86_400_000_000

  datatype RetainedClass =
    | Input
    | FailedAttempt
    | Scratch
    | Deliverable
    | HiddenVersion
    | Multipart
    | PromptEvidence

  datatype RetentionRule = RetentionRule(retained: RetainedClass, days: int)

  datatype LifecyclePolicy = LifecyclePolicy(version: string, rules: seq<RetentionRule>)

  datatype PolicyError = OutOfRange(retained: RetainedClass) | ClassMissing | ClassDuplicated

  predicate InRange(days: int) {
    MIN_RETAIN_DAYS <= days <= MAX_RETAIN_DAYS
  }

  predicate Declares(rules: seq<RetentionRule>, c: RetainedClass) {
    exists i | 0 <= i < |rules| :: rules[i].retained == c
  }

  predicate Covers(rules: seq<RetentionRule>) {
    && Declares(rules, Input) && Declares(rules, FailedAttempt) && Declares(rules, Scratch)
    && Declares(rules, Deliverable) && Declares(rules, HiddenVersion)
    && Declares(rules, Multipart) && Declares(rules, PromptEvidence)
  }

  predicate DeclaresOnce(rules: seq<RetentionRule>) {
    forall i, j | 0 <= i < j < |rules| :: rules[i].retained != rules[j].retained
  }

  function FirstOutOfRange(rules: seq<RetentionRule>): (r: Option<RetainedClass>)
    ensures r.None? <==> forall i | 0 <= i < |rules| :: InRange(rules[i].days)
  {
    if rules == [] then None
    else if !InRange(rules[0].days) then Some(rules[0].retained)
    else
      assert forall i | 1 <= i < |rules| :: rules[i] == rules[1..][i - 1];
      FirstOutOfRange(rules[1..])
  }

  /** Rules are checked one by one as they are built, then the policy over all of them. */
  function Declare(version: string, rules: seq<RetentionRule>): Result<LifecyclePolicy, PolicyError> {
    match FirstOutOfRange(rules)
    case Some(c) => Err(OutOfRange(c))
    case None =>
      if !Covers(rules) then Err(ClassMissing)
      else if !DeclaresOnce(rules) then Err(ClassDuplicated)
      else Ok(LifecyclePolicy(version, rules))
  }

  predicate Valid(policy: LifecyclePolicy) {
    Declare(policy.version, policy.rules).Ok?
  }

  function FirstDays(rules: seq<RetentionRule>, c: RetainedClass): int
    requires Declares(rules, c)
  {
    if rules[0].retained == c then rules[0].days
    else
      assert forall i | 1 <= i < |rules| :: rules[i] == rules[1..][i - 1];
      assert Declares(rules[1..], c);
      FirstDays(rules[1..], c)
  }

  function DaysFor(policy: LifecyclePolicy, c: RetainedClass): (days: int)
    requires Valid(policy)
  {
    FirstDays(policy.rules, c)
  }

  lemma {:induction false} FirstDaysIsDeclared(rules: seq<RetentionRule>, c: RetainedClass)
    requires Declares(rules, c)
    ensures RetentionRule(c, FirstDays(rules, c)) in rules
  {
    if rules[0].retained == c {
    } else {
      assert forall i | 1 <= i < |rules| :: rules[i] == rules[1..][i - 1];
      FirstDaysIsDeclared(rules[1..], c);
    }
  }

  /** A policy that is accepted gives every class exactly one period, within bounds. */
  lemma PeriodIsTheDeclaredOne(policy: LifecyclePolicy, c: RetainedClass, days: int)
    requires Valid(policy)
    ensures RetentionRule(c, days) in policy.rules <==> DaysFor(policy, c) == days
    ensures InRange(DaysFor(policy, c))
  {
    FirstDaysIsDeclared(policy.rules, c);
    var i :| 0 <= i < |policy.rules| && policy.rules[i] == RetentionRule(c, DaysFor(policy, c));
    if RetentionRule(c, days) in policy.rules {
      var j :| 0 <= j < |policy.rules| && policy.rules[j] == RetentionRule(c, days);
      assert i == j;
    }
  }

  function Period(policy: LifecyclePolicy, c: RetainedClass): int
    requires Valid(policy)
  {
    DaysFor(policy, c) * DAY
  }

  predicate Expired(policy: LifecyclePolicy, c: RetainedClass, createdAt: int, evaluatedAt: int)
    requires Valid(policy)
  {
    evaluatedAt >= createdAt + Period(policy, c)
  }

  /** A class declared at `days` days expires exactly that many whole days, in microseconds,
      after the item was written. */
  lemma ExpiresWhenDeclared(policy: LifecyclePolicy, c: RetainedClass, days: int, createdAt: int, evaluatedAt: int)
    requires Valid(policy) && RetentionRule(c, days) in policy.rules
    ensures Expired(policy, c, createdAt, evaluatedAt) <==> evaluatedAt - createdAt >= days * 86_400_000_000
    ensures Period(policy, c) == days * 86_400_000_000
  {
    hide Valid;
    PeriodIsTheDeclaredOne(policy, c, days);
  }

  /** The seven classes of retained data. */
  const CLASSES: set<RetainedClass> :=
    {Input, FailedAttempt, Scratch, Deliverable, HiddenVersion, Multipart, PromptEvidence}

  /** A declaration is accepted exactly when every rule is within ten years and each of the seven
      classes has one rule; a rule out of range is refused before a missing class, and that
      before a repeated one. */
  lemma DeclaredExactly(version: string, rules: seq<RetentionRule>)
    ensures var r := Declare(version, rules);
      && (r.Ok? <==> (forall i | 0 <= i < |rules| :: 1 <= rules[i].days <= 3650)
                     && (forall c :: Declares(rules, c)) && |rules| == 7)
      && (r.Ok? ==> r.value == LifecyclePolicy(version, rules))
      && (r.Err? && r.error.OutOfRange? <==> exists i :: 0 <= i < |rules| && !(1 <= rules[i].days <= 3650))
      && (r.Err? && r.error.OutOfRange? ==> exists i ::
            && 0 <= i < |rules| && rules[i].retained == r.error.retained && !InRange(rules[i].days)
            && forall j | 0 <= j < i :: InRange(rules[j].days))
      && (r.Err? && !r.error.OutOfRange? ==> (r.error == ClassDuplicated <==> forall c :: Declares(rules, c)))
  {
    FirstOutOfRangeIsFirst(rules);
    CoversAll(rules);
    if Covers(rules) { SevenOnce(rules); }
  }

  lemma {:induction false} FirstOutOfRangeIsFirst(rules: seq<RetentionRule>)
    ensures FirstOutOfRange(rules).Some? ==> exists i ::
              && 0 <= i < |rules| && rules[i].retained == FirstOutOfRange(rules).value && !InRange(rules[i].days)
              && forall j | 0 <= j < i :: InRange(rules[j].days)
  {
    if FirstOutOfRange(rules).Some? {
      if !InRange(rules[0].days) {
        assert rules[0].retained == FirstOutOfRange(rules).value;
      } else {
        FirstOutOfRangeIsFirst(rules[1..]);
        var i :| 0 <= i < |rules[1..]| && rules[1..][i].retained == FirstOutOfRange(rules).value && !InRange(rules[1..][i].days)
                 && forall j | 0 <= j < i :: InRange(rules[1..][j].days);
        assert rules[i + 1] == rules[1..][i];
        assert forall j | 1 <= j < i + 1 :: rules[j] == rules[1..][j - 1];
      }
    }
  }

  lemma CoversAll(rules: seq<RetentionRule>)
    ensures Covers(rules) <==> forall c :: Declares(rules, c)
  {
  }

  function Declared(rules: seq<RetentionRule>): (r: seq<RetainedClass>)
    ensures |r| == |rules| && forall i | 0 <= i < |rules| :: r[i] == rules[i].retained
  {
    seq(|rules|, i requires 0 <= i < |rules| => rules[i].retained)
  }

  lemma SevenClasses()
    ensures |CLASSES| == 7
  {
    var three := {Input, FailedAttempt, Scratch};
    var five := three + {Deliverable} + {HiddenVersion};
    assert |three| == 3;
    assert |five| == 5;
    assert CLASSES == five + {Multipart} + {PromptEvidence};
  }

  lemma SevenOnce(rules: seq<RetentionRule>)
    requires Covers(rules)
    ensures DeclaresOnce(rules) <==> |rules| == 7
  {
    var classes := Declared(rules);
    forall c ensures c in classes {
      assert Declares(rules, c);
      var i :| 0 <= i < |rules| && rules[i].retained == c;
      assert classes[i] == c;
    }
    assert Elements(classes) == CLASSES;
    SevenClasses();
    hide CLASSES;
    DistinctExactly(classes);
  }

  // -------------------------------------------------------------- bucket rules

  const MAX_BUCKET_RULES := 100

  /** Days until an upload is hidden, until a hidden version is erased, and until an unfinished
      large file is cancelled. */
  datatype BucketRule = BucketRule(prefix: string, hiding: Option<int>, erasing: Option<int>, cancelling: Option<int>)

  datatype RetentionError =
    | RuleEmpty(prefix: string)
    | OverlapConflict(prefix: string)
    | RuleBudgetExceeded

  predicate Truthy(days: Option<int>) {
    days.Some? && days.value != 0
  }

  function MakeRule(prefix: string, hiding: Option<int>, erasing: Option<int>, cancelling: Option<int>)
    : Result<BucketRule, RetentionError>
  {
    if Truthy(hiding) || Truthy(erasing) || Truthy(cancelling)
    then Ok(BucketRule(prefix, hiding, erasing, cancelling))
    else Err(RuleEmpty(prefix))
  }

  predicate Overlaps(left: string, right: string) {
    right <= left || left <= right
  }

  predicate Conflicts(a: BucketRule, b: BucketRule) {
    Overlaps(a.prefix, b.prefix) && a.hiding.Some? && b.hiding.Some? && a.hiding != b.hiding
  }

  function ConflictWith(rule: BucketRule, others: seq<BucketRule>): (r: Option<string>)
    ensures r.None? <==> forall j | 0 <= j < |others| :: !Conflicts(rule, others[j])
  {
    if others == [] then None
    else if Conflicts(rule, others[0]) then Some(others[0].prefix)
    else
      assert forall j | 1 <= j < |others| :: others[j] == others[1..][j - 1];
      ConflictWith(rule, others[1..])
  }

  /** Prefix named by the refusal of a rule set, or None when the set is accepted. */
  function FirstConflict(rules: seq<BucketRule>): (r: Option<string>)
    ensures r.None? <==> forall i, j | 0 <= i < j < |rules| :: !Conflicts(rules[i], rules[j])
  {
    if rules == [] then None
    else
      assert forall j | 1 <= j < |rules| :: rules[j] == rules[1..][j - 1];
      match ConflictWith(rules[0], rules[1..])
      case Some(p) =>
        assert exists j | 0 <= j < |rules[1..]| :: Conflicts(rules[0], rules[1..][j]);
        assert exists j | 1 <= j < |rules| :: Conflicts(rules[0], rules[j]);
        Some(p)
      case None => FirstConflict(rules[1..])
  }

  predicate Matches(prefix: string, key: string) {
    prefix <= key
  }

  /** Two prefixes overlap exactly when some object key matches both. */
  lemma OverlapIsACommonKey(left: string, right: string)
    ensures Overlaps(left, right) <==> exists key :: Matches(left, key) && Matches(right, key)
  {
    if right <= left { assert Matches(left, left) && Matches(right, left); }
    if left <= right { assert Matches(left, right) && Matches(right, right); }
    if key :| Matches(left, key) && Matches(right, key) {
      if |left| <= |right| {
        assert left == key[..|left|] == right[..|left|];
      } else {
        assert right == key[..|right|] == left[..|right|];
      }
    }
  }

  function Smaller(a: Option<int>, b: Option<int>): Option<int> {
    if a.None? then b
    else if b.None? then a
    else if a.value <= b.value then a else b
  }

  /** The provider's resolution: the smallest non-null value among matching rules. */
  function HidingDays(rules: seq<BucketRule>, key: string): Option<int> {
    if rules == [] then None
    else
      var rest := HidingDays(rules[1..], key);
      if Matches(rules[0].prefix, key) then Smaller(rules[0].hiding, rest) else rest
  }

  predicate Hides(rule: BucketRule, key: string, days: int) {
    Matches(rule.prefix, key) && rule.hiding == Some(days)
  }

  lemma {:induction false} HidingDaysExact(rules: seq<BucketRule>, key: string)
    ensures HidingDays(rules, key).Some? ==>
              exists i | 0 <= i < |rules| :: Hides(rules[i], key, HidingDays(rules, key).value)
    ensures forall i, days | 0 <= i < |rules| && Hides(rules[i], key, days) ::
              HidingDays(rules, key).Some? && HidingDays(rules, key).value <= days
  {
    if rules == [] {
    } else {
      HidingDaysExact(rules[1..], key);
      assert forall i | 1 <= i < |rules| :: rules[i] == rules[1..][i - 1];
      var r := HidingDays(rules, key);
      if r.Some? {
        if Matches(rules[0].prefix, key) && rules[0].hiding == r {
          assert Hides(rules[0], key, r.value);
        } else {
          var i :| 0 <= i < |rules[1..]| && Hides(rules[1..][i], key, r.value);
          assert Hides(rules[i + 1], key, r.value);
        }
      }
    }
  }

  /** No key sees two different hiding periods, so resolution order is immaterial. */
  ghost predicate Unambiguous(rules: seq<BucketRule>) {
    forall key, i, j, m, n | 0 <= i < |rules| && 0 <= j < |rules|
      && Hides(rules[i], key, m) && Hides(rules[j], key, n) :: m == n
  }

  /** Conflict rejection accepts exactly the sets that are unambiguous for every key. */
  lemma AcceptedExactlyWhenUnambiguous(rules: seq<BucketRule>)
    ensures FirstConflict(rules).None? <==> Unambiguous(rules)
  {
    if FirstConflict(rules).None? {
      forall key, i, j, m, n | 0 <= i < |rules| && 0 <= j < |rules|
        && Hides(rules[i], key, m) && Hides(rules[j], key, n)
        ensures m == n
      {
        OverlapIsACommonKey(rules[i].prefix, rules[j].prefix);
        if i < j { assert !Conflicts(rules[i], rules[j]); }
        if j < i { assert !Conflicts(rules[j], rules[i]); }
      }
    } else {
      var i, j :| 0 <= i < j < |rules| && Conflicts(rules[i], rules[j]);
      OverlapIsACommonKey(rules[i].prefix, rules[j].prefix);
      var key :| Matches(rules[i].prefix, key) && Matches(rules[j].prefix, key);
      assert Hides(rules[i], key, rules[i].hiding.value) && Hides(rules[j], key, rules[j].hiding.value);
    }
  }

  /** In an accepted set each rule that matches a key and hides states the period in force. */
  lemma AcceptedRulesStateThePeriod(rules: seq<BucketRule>, key: string, days: int)
    requires FirstConflict(rules).None?
    ensures HidingDays(rules, key) == Some(days)
            <==> exists i | 0 <= i < |rules| :: Hides(rules[i], key, days)
  {
    AcceptedExactlyWhenUnambiguous(rules);
    HidingDaysExact(rules, key);
  }

  function Project(policy: LifecyclePolicy): Result<seq<BucketRule>, RetentionError>
    requires Valid(policy)
  {
    var inputs := MakeRule(INPUT_PREFIX, Some(DaysFor(policy, Input)), Some(1), None);
    if inputs.Err? then Err(inputs.error) else
    var bucket := MakeRule("", None, Some(DaysFor(policy, HiddenVersion)), Some(DaysFor(policy, Multipart)));
    if bucket.Err? then Err(bucket.error) else
    var rules := [inputs.value, bucket.value];
    match FirstConflict(rules)
    case Some(prefix) => Err(OverlapConflict(prefix))
    case None => if |rules| > MAX_BUCKET_RULES then Err(RuleBudgetExceeded) else Ok(rules)
  }

  /** Every valid policy projects; inputs are hidden on their declared day and no other
      object is ever hidden, committed outputs in particular. */
  lemma ProjectionHidesInputsOnly(policy: LifecyclePolicy, key: string)
    requires Valid(policy)
    ensures Project(policy).Ok?
    ensures HidingDays(Project(policy).value, key)
            == if INPUT_PREFIX <= key then Some(DaysFor(policy, Input)) else None
    ensures OUTPUT_PREFIX <= key ==> HidingDays(Project(policy).value, key).None?
  {
    PeriodIsTheDeclaredOne(policy, Input, DaysFor(policy, Input));
    PeriodIsTheDeclaredOne(policy, HiddenVersion, DaysFor(policy, HiddenVersion));
    var rules := Project(policy).value;
    assert |rules| == 2 && rules[1..][1..] == [] && rules[1..][0] == rules[1];
    assert HidingDays(rules[1..], key) == None;
    assert OUTPUT_PREFIX <= key ==> key[0] == 'o';
    assert INPUT_PREFIX <= key ==> key[0] == 'i';
  }

  /** Each of the three periods every key resolves to: an input is hidden after its declared days
      and erased one day later, everything else is erased after the days of hidden versions, and
      any unfinished upload is cancelled after those of multipart uploads. */
  lemma ProjectionResolves(policy: LifecyclePolicy, key: string, days: int, hidden: int, unfinished: int)
    requires Valid(policy) && RetentionRule(Input, days) in policy.rules
    requires RetentionRule(HiddenVersion, hidden) in policy.rules && RetentionRule(Multipart, unfinished) in policy.rules
    ensures Project(policy).Ok?
    ensures var rules := Project(policy).value;
      && HidingDays(Read(rules, ToHiding), key) == (if "inputs/" <= key then Some(days) else None)
      && HidingDays(Read(rules, ToErasing), key) == Some(if "inputs/" <= key then 1 else hidden)
      && HidingDays(Read(rules, ToCancelling), key) == Some(unfinished)
  {
    PeriodIsTheDeclaredOne(policy, Input, days);
    PeriodIsTheDeclaredOne(policy, HiddenVersion, hidden);
    PeriodIsTheDeclaredOne(policy, Multipart, unfinished);
    assert InRange(days) && InRange(hidden) && InRange(unfinished);
    hide Valid;
    var rules := Project(policy).value;
    assert rules == [BucketRule("inputs/", Some(days), Some(1), None), BucketRule("", None, Some(hidden), Some(unfinished))];
    forall timer: Timer ensures
      HidingDays(Read(rules, timer), key)
      == Smaller(if "inputs/" <= key then DaysOf(rules[0], timer) else None, DaysOf(rules[1], timer)) {
      TwoRules(Read(rules, timer), key);
    }
  }

  lemma TwoRules(rules: seq<BucketRule>, key: string)
    requires |rules| == 2 && rules[1].prefix == ""
    ensures HidingDays(rules, key) == Smaller(if rules[0].prefix <= key then rules[0].hiding else None, rules[1].hiding)
  {
    assert rules[1..][0] == rules[1] && rules[1..][1..] == [];
    assert HidingDays(rules[1..], key) == Smaller(rules[1].hiding, None);
  }

  // --------------------------------------------------------------------- drift

  datatype Drift =
    | NoDrift
    | RulesMissing(prefixes: seq<string>)
    | RulesUnexpected(prefixes: seq<string>)
    | RuleDiverged(prefix: string)

  /** A dictionary keyed by prefix: of rules sharing a prefix the last one stays. */
  function ByPrefix(rules: seq<BucketRule>): map<string, BucketRule> {
    if rules == [] then map[]
    else ByPrefix(rules[..|rules| - 1])[rules[|rules| - 1].prefix := rules[|rules| - 1]]
  }

  function DetectDrift(declared: seq<BucketRule>, inForce: seq<BucketRule>): Drift {
    var want, have := ByPrefix(declared), ByPrefix(inForce);
    if want.Keys - have.Keys != {} then RulesMissing(Sorted(want.Keys - have.Keys))
    else if have.Keys - want.Keys != {} then RulesUnexpected(Sorted(have.Keys - want.Keys))
    else
      var diverged := set p | p in want.Keys && have[p] != want[p];
      if diverged != {} then RuleDiverged(Least(diverged)) else NoDrift
  }

  predicate DistinctPrefixes(rules: seq<BucketRule>) {
    forall i, j | 0 <= i < j < |rules| :: rules[i].prefix != rules[j].prefix
  }

  lemma {:induction false} ByPrefixHolds(rules: seq<BucketRule>)
    ensures forall p | p in ByPrefix(rules) :: ByPrefix(rules)[p] in rules && ByPrefix(rules)[p].prefix == p
    ensures DistinctPrefixes(rules) ==>
              forall r | r in rules :: r.prefix in ByPrefix(rules) && ByPrefix(rules)[r.prefix] == r
  {
    if rules == [] {
    } else {
      var last := |rules| - 1;
      ByPrefixHolds(rules[..last]);
      assert rules == rules[..last] + [rules[last]];
      if DistinctPrefixes(rules) {
        forall r | r in rules
          ensures r.prefix in ByPrefix(rules) && ByPrefix(rules)[r.prefix] == r
        {
          var i :| 0 <= i < |rules| && rules[i] == r;
          if i < last { assert r == rules[..last][i]; }
        }
      }
    }
  }

  /** The last rule of a set that names exactly this prefix. */
  function LastFor(rules: seq<BucketRule>, prefix: string): Option<BucketRule> {
    if rules == [] then None
    else if rules[|rules| - 1].prefix == prefix then Some(rules[|rules| - 1])
    else LastFor(rules[..|rules| - 1], prefix)
  }

  lemma {:induction false} ByPrefixIsLast(rules: seq<BucketRule>, prefix: string)
    ensures prefix in ByPrefix(rules) <==> LastFor(rules, prefix).Some?
    ensures prefix in ByPrefix(rules) ==> LastFor(rules, prefix) == Some(ByPrefix(rules)[prefix])
  {
    if rules == [] {
    } else {
      ByPrefixIsLast(rules[..|rules| - 1], prefix);
    }
  }

  ghost predicate SameLast(a: seq<BucketRule>, b: seq<BucketRule>, prefix: string) {
    LastFor(a, prefix) == LastFor(b, prefix)
  }

  /** No drift is reported exactly when, for every prefix, the last rule of both sides is the
      same; with one rule a prefix on both sides, exactly when both hold the same rules. */
  lemma NoDriftMeansSameRules(declared: seq<BucketRule>, inForce: seq<BucketRule>)
    ensures DetectDrift(declared, inForce).NoDrift? <==> forall p :: SameLast(declared, inForce, p)
    ensures DistinctPrefixes(declared) && DistinctPrefixes(inForce) ==>
              (DetectDrift(declared, inForce).NoDrift? <==> forall r :: r in declared <==> r in inForce)
  {
    NoDriftSamePrefixes(declared, inForce);
    var want, have := ByPrefix(declared), ByPrefix(inForce);
    forall p ensures SameLast(declared, inForce, p) <==> ((p in want <==> p in have) && (p in want ==> want[p] == have[p])) {
      ByPrefixIsLast(declared, p);
      ByPrefixIsLast(inForce, p);
    }
    if want == have {
      assert forall p :: SameLast(declared, inForce, p);
    } else if forall p :: SameLast(declared, inForce, p) {
      assert forall p :: p in want <==> p in have;
      assert forall p | p in want :: want[p] == have[p];
    }
    ByPrefixHolds(declared);
    ByPrefixHolds(inForce);
    if DistinctPrefixes(declared) && DistinctPrefixes(inForce) && forall r :: r in declared <==> r in inForce {
      assert forall p | p in want :: want[p] in inForce && have[p] == want[p];
      assert forall p | p in have :: have[p] in declared;
    }
  }

  lemma NoDriftSamePrefixes(declared: seq<BucketRule>, inForce: seq<BucketRule>)
    ensures DetectDrift(declared, inForce).NoDrift? <==> ByPrefix(declared) == ByPrefix(inForce)
  {
    var want, have := ByPrefix(declared), ByPrefix(inForce);
    if DetectDrift(declared, inForce).NoDrift? {
      assert forall p | p in want :: p !in want.Keys - have.Keys;
      assert forall p | p in have :: p !in have.Keys - want.Keys;
      var diverged := set p | p in want.Keys && have[p] != want[p];
      assert forall p | p in want :: p !in diverged;
    }
  }

  /** What a drift report names: the declared prefixes with no rule in force, else those in force
      with none declared, all of them in order, else the first whose last rules differ. */
  lemma DriftNames(declared: seq<BucketRule>, inForce: seq<BucketRule>, p: string)
    ensures var r := DetectDrift(declared, inForce);
      && (r.RulesMissing? ==>
            && r.prefixes != [] && (p in r.prefixes <==> Names(declared, p) && !Names(inForce, p)) && Ascending(r.prefixes))
      && (r.RulesUnexpected? ==>
            && r.prefixes != [] && (p in r.prefixes <==> Names(inForce, p) && !Names(declared, p)) && Ascending(r.prefixes)
            && (Names(declared, p) ==> Names(inForce, p)))
      && (r.RuleDiverged? ==>
            && (Names(declared, p) <==> Names(inForce, p))
            && !SameLast(declared, inForce, r.prefix) && (Before(p, r.prefix) ==> SameLast(declared, inForce, p)))
      && (r.NoDrift? ==> SameLast(declared, inForce, p))
  {
    var want, have, r := ByPrefix(declared), ByPrefix(inForce), DetectDrift(declared, inForce);
    NamesExactly(declared, p);
    NamesExactly(inForce, p);
    LastNames(declared, p);
    LastNames(inForce, p);
    if r.RulesMissing? {
      SortedListing(want.Keys - have.Keys, r.prefixes);
    } else if r.RulesUnexpected? {
      assert p !in want.Keys - have.Keys;
      SortedListing(have.Keys - want.Keys, r.prefixes);
    } else if r.RuleDiverged? {
      var diverged := set p | p in want.Keys && have[p] != want[p];
      LastNames(declared, r.prefix);
      LastNames(inForce, r.prefix);
      if Before(p, r.prefix) {
        BeforeAsymmetric(p, r.prefix);
        assert p !in diverged;
      }
    } else {
      NoDriftSamePrefixes(declared, inForce);
    }
  }

  ghost predicate Ascending(ps: seq<string>) {
    forall i, j | 0 <= i < j < |ps| :: Before(ps[i], ps[j])
  }

  predicate Names(rules: seq<BucketRule>, p: string) {
    exists i | 0 <= i < |rules| :: rules[i].prefix == p
  }

  lemma LastNames(rules: seq<BucketRule>, p: string)
    ensures LastFor(rules, p) == if p in ByPrefix(rules) then Some(ByPrefix(rules)[p]) else None
  {
    ByPrefixIsLast(rules, p);
  }

  lemma {:induction false} NamesExactly(rules: seq<BucketRule>, p: string)
    ensures p in ByPrefix(rules) <==> Names(rules, p)
  {
    if rules == [] {
    } else {
      var n := |rules| - 1;
      NamesExactly(rules[..n], p);
      assert forall i | 0 <= i < n :: rules[..n][i] == rules[i];
      assert rules[n].prefix == p ==> Names(rules, p);
    }
  }

  lemma SortedListing(s: set<string>, ps: seq<string>)
    requires s != {} && ps == Sorted(s)
    ensures ps != [] && Ascending(ps) && forall x :: x in ps <==> x in s
  {
    var x :| x in s;
    assert x in ps;
  }

  ghost predicate SameHidingAt(a: seq<BucketRule>, b: seq<BucketRule>, key: string) {
    HidingDays(a, key) == HidingDays(b, key)
  }

  /** `a` hides at each rule of `b`'s own prefix no later than that rule says. */
  predicate HidesAsSoon(a: seq<BucketRule>, b: seq<BucketRule>) {
    forall r | r in b && r.hiding.Some? ::
      HidingDays(a, r.prefix).Some? && HidingDays(a, r.prefix).value <= r.hiding.value
  }

  lemma CoveredHidesNoSooner(a: seq<BucketRule>, b: seq<BucketRule>, key: string)
    requires HidesAsSoon(a, b) && HidingDays(b, key).Some?
    ensures HidingDays(a, key).Some? && HidingDays(a, key).value <= HidingDays(b, key).value
  {
    hide HidingDays;
    HidingDaysExact(b, key);
    var i :| 0 <= i < |b| && Hides(b[i], key, HidingDays(b, key).value);
    var r := b[i];
    assert r in b;
    HidingDaysExact(a, r.prefix);
    var j :| 0 <= j < |a| && Hides(a[j], r.prefix, HidingDays(a, r.prefix).value);
    HidingDaysExact(a, key);
    assert Hides(a[j], key, HidingDays(a, r.prefix).value);
  }

  lemma SameHidingCovers(a: seq<BucketRule>, b: seq<BucketRule>)
    requires forall key :: SameHidingAt(a, b, key)
    ensures HidesAsSoon(a, b)
  {
    hide HidingDays;
    forall r | r in b && r.hiding.Some?
      ensures HidingDays(a, r.prefix).Some? && HidingDays(a, r.prefix).value <= r.hiding.value
    {
      assert SameHidingAt(a, b, r.prefix);
      HidingDaysExact(b, r.prefix);
      var i :| 0 <= i < |b| && b[i] == r;
      assert Hides(b[i], r.prefix, r.hiding.value);
    }
  }

  /** Two rule sets hide every key on the same day exactly when neither holds a rule that
      hides sooner than the other does at that rule's prefix. */
  lemma SameHidingExactly(a: seq<BucketRule>, b: seq<BucketRule>)
    ensures (forall key :: SameHidingAt(a, b, key)) <==> HidesAsSoon(a, b) && HidesAsSoon(b, a)
  {
    hide HidingDays, HidesAsSoon;
    if forall key :: SameHidingAt(a, b, key) {
      SameHidingCovers(a, b);
      assert forall key :: SameHidingAt(b, a, key) by {
        forall key ensures SameHidingAt(b, a, key) { assert SameHidingAt(a, b, key); }
      }
      SameHidingCovers(b, a);
    }
    if HidesAsSoon(a, b) && HidesAsSoon(b, a) {
      forall key ensures SameHidingAt(a, b, key) {
        if HidingDays(a, key).Some? { CoveredHidesNoSooner(b, a, key); }
        if HidingDays(b, key).Some? { CoveredHidesNoSooner(a, b, key); }
      }
    }
  }

  lemma MoreRulesCover(more: seq<BucketRule>, few: seq<BucketRule>)
    requires forall r | r in few :: r in more
    ensures HidesAsSoon(more, few)
  {
    hide HidingDays;
    forall r | r in few && r.hiding.Some?
      ensures HidingDays(more, r.prefix).Some? && HidingDays(more, r.prefix).value <= r.hiding.value
    {
      HidingDaysExact(more, r.prefix);
      var i :| 0 <= i < |more| && more[i] == r;
      assert Hides(more[i], r.prefix, r.hiding.value);
    }
  }

  lemma NoDriftHoldsDeclared(declared: seq<BucketRule>, inForce: seq<BucketRule>)
    requires DetectDrift(declared, inForce).NoDrift? && DistinctPrefixes(declared)
    ensures forall r | r in declared :: r in inForce
  {
    NoDriftSamePrefixes(declared, inForce);
    ByPrefixHolds(declared);
    ByPrefixHolds(inForce);
  }

  /** A drift check that passes means every key is hidden on its declared day exactly when no
      rule in force, superseded ones included, hides sooner than declared at its prefix. */
  lemma NoDriftHidesAsDeclaredExactly(declared: seq<BucketRule>, inForce: seq<BucketRule>)
    requires DetectDrift(declared, inForce).NoDrift? && DistinctPrefixes(declared)
    ensures (forall key :: SameHidingAt(declared, inForce, key))
            <==> forall r | r in inForce && r.hiding.Some? ::
                   HidingDays(declared, r.prefix).Some? && HidingDays(declared, r.prefix).value <= r.hiding.value
  {
    hide HidingDays, DetectDrift;
    NoDriftHoldsDeclared(declared, inForce);
    MoreRulesCover(inForce, declared);
    SameHidingExactly(declared, inForce);
  }

  // ---------------------------------------------------- the other two periods

  datatype Timer = ToHiding | ToErasing | ToCancelling

  function DaysOf(r: BucketRule, timer: Timer): Option<int> {
    match timer
    case ToHiding => r.hiding
    case ToErasing => r.erasing
    case ToCancelling => r.cancelling
  }

  /** The rules with one of their periods in the place the resolution reads. */
  function Read(rules: seq<BucketRule>, timer: Timer): (s: seq<BucketRule>)
    ensures |s| == |rules|
    ensures forall i | 0 <= i < |rules| :: s[i] == BucketRule(rules[i].prefix, DaysOf(rules[i], timer), None, None)
  {
    seq(|rules|, i requires 0 <= i < |rules| => BucketRule(rules[i].prefix, DaysOf(rules[i], timer), None, None))
  }

  /** The same for each of a rule's three periods. */
  lemma NoDriftKeepsPeriodsExactly(declared: seq<BucketRule>, inForce: seq<BucketRule>, timer: Timer)
    requires DetectDrift(declared, inForce).NoDrift? && DistinctPrefixes(declared)
    ensures (forall key :: SameHidingAt(Read(declared, timer), Read(inForce, timer), key))
            <==> forall r | r in inForce && DaysOf(r, timer).Some? ::
                   var d := HidingDays(Read(declared, timer), r.prefix);
                   d.Some? && d.value <= DaysOf(r, timer).value
  {
    hide HidingDays, DetectDrift, SameHidingAt;
    var want, have := Read(declared, timer), Read(inForce, timer);
    NoDriftHoldsDeclared(declared, inForce);
    forall q | q in want ensures q in have {
      var i :| 0 <= i < |want| && want[i] == q;
      assert declared[i] in inForce;
      var j :| 0 <= j < |inForce| && inForce[j] == declared[i];
      assert have[j] == q;
    }
    MoreRulesCover(have, want);
    SameHidingExactly(want, have);
    CoversRead(want, inForce, timer);
  }

  lemma CoversRead(want: seq<BucketRule>, inForce: seq<BucketRule>, timer: Timer)
    ensures HidesAsSoon(want, Read(inForce, timer))
            <==> forall r | r in inForce && DaysOf(r, timer).Some? ::
                   var d := HidingDays(want, r.prefix);
                   d.Some? && d.value <= DaysOf(r, timer).value
  {
    hide HidingDays;
    var have := Read(inForce, timer);
    if HidesAsSoon(want, have) {
      forall r | r in inForce && DaysOf(r, timer).Some?
        ensures var d := HidingDays(want, r.prefix); d.Some? && d.value <= DaysOf(r, timer).value
      {
        var j :| 0 <= j < |inForce| && inForce[j] == r;
        assert have[j] in have;
      }
    } else {
      var q :| q in have && q.hiding.Some?
               && !(HidingDays(want, q.prefix).Some? && HidingDays(want, q.prefix).value <= q.hiding.value);
      var j :| 0 <= j < |have| && have[j] == q;
      assert inForce[j] in inForce;
    }
  }

  /** A bucket that carries two rules for one prefix can pass the drift check while the
      smallest-value resolution hides inputs earlier than declared. */
  lemma RepeatedPrefixHidesDrift(policy: LifecyclePolicy)
    requires Valid(policy) && DaysFor(policy, Input) > 1
    ensures Project(policy).Ok?
    ensures var declared := Project(policy).value;
            var inForce := [BucketRule(INPUT_PREFIX, Some(1), None, None)] + declared;
            && DetectDrift(declared, inForce).NoDrift?
            && HidingDays(inForce, INPUT_PREFIX) == Some(1)
            && HidingDays(declared, INPUT_PREFIX) != Some(1)
  {
    ProjectionHidesInputsOnly(policy, INPUT_PREFIX);
    var declared := Project(policy).value;
    var early := BucketRule(INPUT_PREFIX, Some(1), None, None);
    var inForce := [early] + declared;
    assert inForce[1..] == declared;
    assert declared == [declared[0], declared[1]];
    assert inForce == [early, declared[0], declared[1]];
    assert inForce[..2][..1][..0] == [] && declared[..1][..0] == [];
    assert inForce[..2] == [early, declared[0]] && inForce[..2][..1] == [early];
    assert ByPrefix([early]) == map[INPUT_PREFIX := early];
    assert ByPrefix([early, declared[0]]) == map[INPUT_PREFIX := declared[0]];
    assert declared[..1] == [declared[0]];
    assert ByPrefix(declared[..1]) == map[INPUT_PREFIX := declared[0]];
    assert ByPrefix(inForce) == ByPrefix(declared);
  }
}
