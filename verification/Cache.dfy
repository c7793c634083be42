/** The bounded content-addressed cache: leases, eviction and verified hydration. */
module Cache {
  import opened Prelude
  import opened Ordering

  type Bytes = seq<bv8>

  datatype Blob = Blob(content: Bytes, modified: int)

  type Blobs = map<string, Blob>

  // ------------------------------------------------------------------ sizes

  /** Bytes of the named blobs together. */
  function Total(blobs: Blobs, ds: set<string>): nat
    requires ds <= blobs.Keys
    decreases |ds|
  {
    if ds == {} then 0
    else var d := Least(ds); |blobs[d].content| + Total(blobs, ds - {d})
  }

  lemma {:induction false} TotalRemove(blobs: Blobs, ds: set<string>, d: string)
    requires ds <= blobs.Keys && d in ds
    ensures Total(blobs, ds) == |blobs[d].content| + Total(blobs, ds - {d})
    decreases |ds|
  {
    var x := Least(ds);
    if x == d {
    } else {
      TotalRemove(blobs, ds - {x}, d);
      TotalRemove(blobs, ds - {d}, x);
      assert ds - {x} - {d} == ds - {d} - {x};
    }
  }

  lemma {:induction false} TotalSplit(blobs: Blobs, ds: set<string>, es: set<string>)
    requires ds <= blobs.Keys && es <= ds
    ensures Total(blobs, ds) == Total(blobs, es) + Total(blobs, ds - es)
    decreases |es|
  {
    if es == {} {
      assert ds - es == ds;
    } else {
      var d :| d in es;
      TotalRemove(blobs, ds, d);
      TotalRemove(blobs, es, d);
      TotalSplit(blobs, ds - {d}, es - {d});
      assert ds - {d} - (es - {d}) == ds - es;
    }
  }

  lemma {:induction false} TotalSame(a: Blobs, b: Blobs, ds: set<string>)
    requires ds <= a.Keys && ds <= b.Keys && forall d | d in ds :: a[d].content == b[d].content
    ensures Total(a, ds) == Total(b, ds)
    decreases |ds|
  {
    if ds == {} {
    } else {
      TotalSame(a, b, ds - {Least(ds)});
    }
  }

  // ------------------------------------------------------------------ order

  function Insert(blobs: Blobs, d: string, sorted: seq<string>): (r: seq<string>)
    requires d in blobs && forall x | x in sorted :: x in blobs
    ensures forall x :: x in r <==> x == d || x in sorted
  {
    if sorted == [] || blobs[d].modified < blobs[sorted[0]].modified then [d] + sorted
    else
      assert forall x | x in sorted[1..] :: x in sorted;
      [sorted[0]] + Insert(blobs, d, sorted[1..])
  }

  /** A stable sort of a listing by modification time, oldest first. */
  function ByAge(blobs: Blobs, listing: seq<string>): (r: seq<string>)
    requires forall x | x in listing :: x in blobs
    ensures forall x :: x in r <==> x in listing
  {
    if listing == [] then []
    else Insert(blobs, listing[|listing| - 1], ByAge(blobs, listing[..|listing| - 1]))
  }

  ghost predicate Ascending(blobs: Blobs, ds: seq<string>) {
    && (forall x | x in ds :: x in blobs)
    && forall i, j | 0 <= i < j < |ds| :: blobs[ds[i]].modified <= blobs[ds[j]].modified
  }

  lemma {:induction false} InsertSorts(blobs: Blobs, d: string, sorted: seq<string>)
    requires d in blobs && Ascending(blobs, sorted) && Distinct(sorted) && d !in sorted
    ensures Ascending(blobs, Insert(blobs, d, sorted)) && Distinct(Insert(blobs, d, sorted))
  {
    if sorted == [] || blobs[d].modified < blobs[sorted[0]].modified {
      ConsSorts(blobs, d, sorted);
    } else {
      assert forall x | x in sorted[1..] :: x in sorted;
      InsertSorts(blobs, d, sorted[1..]);
      assert sorted[0] !in sorted[1..];
      ConsSorts(blobs, sorted[0], Insert(blobs, d, sorted[1..]));
    }
  }

  lemma ConsSorts(blobs: Blobs, x: string, rest: seq<string>)
    requires x in blobs && Ascending(blobs, rest) && Distinct(rest)
    requires x !in rest && (rest != [] ==> blobs[x].modified <= blobs[rest[0]].modified)
    ensures Ascending(blobs, [x] + rest) && Distinct([x] + rest)
  {
    var all := [x] + rest;
    forall i, j | 0 <= i < j < |all| ensures blobs[all[i]].modified <= blobs[all[j]].modified && all[i] != all[j] {
      assert all[j] == rest[j - 1] && rest[j - 1] in rest;
      if i > 0 { assert all[i] == rest[i - 1]; }
    }
  }

  lemma {:induction false} ByAgeSorts(blobs: Blobs, listing: seq<string>)
    requires (forall x | x in listing :: x in blobs) && Distinct(listing)
    ensures Ascending(blobs, ByAge(blobs, listing)) && Distinct(ByAge(blobs, listing))
  {
    if listing == [] {
    } else {
      var n := |listing| - 1;
      assert forall x | x in listing[..n] :: x in listing;
      ByAgeSorts(blobs, listing[..n]);
      assert listing[n] !in listing[..n];
      InsertSorts(blobs, listing[n], ByAge(blobs, listing[..n]));
    }
  }

  // ----------------------------------------------------------------- leases

  datatype LeaseEvent = Enter(digest: string) | Exit(digest: string)

  function Held(leases: map<string, nat>, d: string): nat {
    if d in leases then leases[d] else 0
  }

  function AfterEvent(leases: map<string, nat>, e: LeaseEvent): map<string, nat> {
    match e
    case Enter(d) => leases[d := Held(leases, d) + 1]
    case Exit(d) => if Held(leases, d) > 1 then leases[d := Held(leases, d) - 1] else leases - {d}
  }

  function AfterEvents(events: seq<LeaseEvent>): map<string, nat> {
    if events == [] then map[]
    else AfterEvent(AfterEvents(events[..|events| - 1]), events[|events| - 1])
  }

  function Open(events: seq<LeaseEvent>, d: string): int {
    if events == [] then 0
    else Open(events[..|events| - 1], d)
         + (if events[|events| - 1] == Enter(d) then 1
            else if events[|events| - 1] == Exit(d) then -1 else 0)
  }

  /** Context managers: every exit closes an enter that is still open. */
  predicate Bracketed(events: seq<LeaseEvent>) {
    events == []
    || (var n := |events| - 1;
        Bracketed(events[..n]) && (events[n].Exit? ==> Open(events[..n], events[n].digest) > 0))
  }

  /** Over any run of bracketed leases, nested or shared, a blob is leased exactly while some
      lease on it is open, and the table keeps no other entry. */
  lemma {:induction false} LeasedWhileOpen(events: seq<LeaseEvent>, d: string)
    requires Bracketed(events)
    ensures Held(AfterEvents(events), d) == Open(events, d)
    ensures d in AfterEvents(events) <==> Open(events, d) > 0
  {
    if events == [] {
    } else {
      var n := |events| - 1;
      LeasedWhileOpen(events[..n], d);
      LeasedWhileOpen(events[..n], events[n].digest);
    }
  }

  // ------------------------------------------------------------------ index

  datatype CapacityError = ExceedsPolicy | NoSafeCandidate

  datatype HydrationError = DownloadFailed | VerificationFailed

  class CacheIndex {
    const capacity: int
    const highWater: int
    var blobs: Blobs
    var partials: map<string, Bytes>
    var leases: map<string, nat>

    ghost predicate Valid()
      reads this
    {
      0 < highWater <= capacity && forall d | d in leases :: leases[d] > 0
    }

    constructor (capacity: int, highWater: int)
      requires 0 < highWater <= capacity
      ensures Valid() && blobs == map[] && partials == map[] && leases == map[]
      ensures this.capacity == capacity && this.highWater == highWater
    {
      this.capacity, this.highWater := capacity, highWater;
      blobs, partials, leases := map[], map[], map[];
    }

    method EnterLease(d: string)
      requires Valid()
      modifies this`leases
      ensures Valid() && leases == AfterEvent(old(leases), Enter(d))
    {
      leases := leases[d := (if d in leases then leases[d] else 0) + 1];
    }

    method ExitLease(d: string)
      requires Valid() && d in leases
      modifies this`leases
      ensures Valid() && leases == AfterEvent(old(leases), Exit(d))
    {
      var remaining := leases[d] - 1;
      if remaining != 0 {
        leases := leases[d := remaining];
      } else {
        leases := leases - {d};
      }
    }

    predicate IsLeased(d: string)
      reads this
    {
      Held(leases, d) > 0
    }

    function Pinned(protected: set<string>): set<string>
      reads this
    {
      set d | d in blobs && (d in protected || IsLeased(d))
    }

    method SizeBytes() returns (used: nat)
      ensures used == Total(blobs, blobs.Keys)
    {
      used := 0;
      var rest := blobs.Keys;
      while rest != {}
        invariant rest <= blobs.Keys
        invariant used + Total(blobs, rest) == Total(blobs, blobs.Keys)
        decreases rest
      {
        var d :| d in rest;
        TotalRemove(blobs, rest, d);
        used := used + |blobs[d].content|;
        rest := rest - {d};
      }
    }

    /** The unpinned blobs, in the order the directory lists them. */
    method ListCandidates(protected: set<string>) returns (listing: seq<string>)
      ensures Distinct(listing) && Elements(listing) == blobs.Keys - Pinned(protected)
      ensures forall x | x in listing :: x in blobs
    {
      listing := [];
      var rest := blobs.Keys;
      while rest != {}
        invariant rest <= blobs.Keys && Distinct(listing) && Elements(listing) !! rest
        invariant Elements(listing) == blobs.Keys - rest - Pinned(protected)
        decreases rest
      {
        var d :| d in rest;
        if d !in protected && !IsLeased(d) {
          assert d !in Elements(listing);
          assert Elements(listing + [d]) == Elements(listing) + {d};
          listing := listing + [d];
        }
        rest := rest - {d};
      }
      assert forall x | x in listing :: x in Elements(listing);
    }

    /** Evict oldest unpinned blobs until `required` more bytes fit below the high-water mark. */
    method EnsureCapacity(required: int, protected: set<string>) returns (r: Result<seq<string>, CapacityError>)
      requires Valid()
      modifies this`blobs
      ensures Valid()
      ensures r.Ok? <==> Total(old(blobs), old(Pinned(protected))) + required <= highWater
      ensures r.Ok? ==> var removed := Elements(r.value);
        && removed <= old(blobs).Keys - old(Pinned(protected)) && blobs == old(blobs) - removed
        && Total(blobs, blobs.Keys) + required <= highWater
        && Distinct(r.value) && Ascending(old(blobs), r.value)
        && (forall d, e | d in removed && e in blobs && e !in old(Pinned(protected)) ::
              old(blobs)[d].modified <= old(blobs)[e].modified)
        && (forall k | 0 <= k < |r.value| ::
              Elements(r.value[..k]) <= old(blobs).Keys
              && Total(old(blobs), old(blobs).Keys - Elements(r.value[..k])) + required > highWater)
      ensures r.Err? ==> (r.error.ExceedsPolicy? <==> required > highWater)
      ensures r.Err? && required > highWater ==> blobs == old(blobs)
      ensures r.Err? && required <= highWater ==>
        blobs.Keys == old(Pinned(protected)) && forall d | d in blobs :: blobs[d] == old(blobs)[d]
    {
      hide Total, ByAge, Insert;
      ghost var before, pinned := blobs, Pinned(protected);
      var used: int := SizeBytes();
      var target := highWater - required;
      TotalSplit(before, before.Keys, pinned);
      if target < 0 { return Err(ExceedsPolicy); }
      var listing := ListCandidates(protected);
      var candidates := ByAge(blobs, listing);
      ByAgeSorts(blobs, listing);
      assert Elements(candidates) == before.Keys - pinned;
      var i := 0;
      while i < |candidates| && used > target
        invariant 0 <= i <= |candidates|
        invariant Elements(candidates[..i]) <= before.Keys - pinned
        invariant blobs == before - Elements(candidates[..i])
        invariant used == Total(before, before.Keys - Elements(candidates[..i]))
        invariant forall k | 0 <= k < i ::
                    Elements(candidates[..k]) <= before.Keys
                    && Total(before, before.Keys - Elements(candidates[..k])) + required > highWater
      {
        var d := candidates[i];
        EvictStep(before, candidates, i, pinned);
        var size := |blobs[d].content|;
        blobs := blobs - {d};
        used := used - size;
        i := i + 1;
      }
      ghost var gone := Elements(candidates[..i]);
      Remainder(before, gone, pinned);
      TotalSame(before, blobs, blobs.Keys);
      if used > target {
        assert candidates[..i] == candidates;
        assert before.Keys - gone == pinned;
        return Err(NoSafeCandidate);
      }
      PrefixFacts(before, candidates, i, pinned);
      return Ok(candidates[..i]);
    }

    /** Warm reuse, or download to a fresh partial, verify and promote. `fetched` is what the
        download leaves in the partial, None when it raises. */
    method Hydrate(sha: Bytes -> string, digest: string, size: nat, name: string, fetched: Option<Bytes>, now: int)
      returns (r: Result<nat, HydrationError>)
      requires Valid() && name !in partials
      modifies this`blobs, this`partials
      ensures Valid() && partials == old(partials)
      ensures blobs - {digest} == old(blobs) - {digest}
      ensures r.Ok? <==> Verified(old(blobs), sha, digest, size)
                         || (fetched.Some? && |fetched.value| == size && sha(fetched.value) == digest)
      ensures r.Ok? ==> Verified(blobs, sha, digest, size)
      ensures r.Ok? && !Verified(old(blobs), sha, digest, size) ==>
                r == Ok(size) && blobs[digest] == Blob(fetched.value, now)
      ensures Verified(old(blobs), sha, digest, size) ==> r == Ok(0) && blobs == old(blobs)
      ensures r.Err? ==> digest !in blobs
    {
      if Verified(blobs, sha, digest, size) { return Ok(0); }
      if digest in blobs { blobs := blobs - {digest}; }
      if fetched.None? { return Err(DownloadFailed); }
      partials := partials[name := fetched.value];
      if |partials[name]| != size || sha(partials[name]) != digest {
        partials := partials - {name};
        return Err(VerificationFailed);
      }
      blobs := blobs[digest := Blob(partials[name], now)];
      partials := partials - {name};
      return Ok(size);
    }
  }

  predicate Verified(blobs: Blobs, sha: Bytes -> string, d: string, size: nat) {
    d in blobs && |blobs[d].content| == size && sha(blobs[d].content) == d
  }

  /** What evicting the next candidate does to the set of evicted blobs and to the bytes left. */
  lemma EvictStep(blobs: Blobs, order: seq<string>, i: nat, pinned: set<string>)
    requires i < |order| && Distinct(order) && Elements(order) == blobs.Keys - pinned
    ensures order[i] in blobs && order[i] !in Elements(order[..i]) && order[i] !in pinned
    ensures Elements(order[..i + 1]) == Elements(order[..i]) + {order[i]}
    ensures Elements(order[..i + 1]) <= blobs.Keys - pinned
    ensures Total(blobs, blobs.Keys - Elements(order[..i]))
            == |blobs[order[i]].content| + Total(blobs, blobs.Keys - Elements(order[..i + 1]))
  {
    var d := order[i];
    assert d in Elements(order);
    assert order[..i + 1] == order[..i] + [d];
    forall x | x in order[..i] ensures x in blobs.Keys - pinned { assert x in Elements(order); }
    TotalRemove(blobs, blobs.Keys - Elements(order[..i]), d);
    assert blobs.Keys - Elements(order[..i]) - {d} == blobs.Keys - Elements(order[..i + 1]);
  }

  lemma Remainder(blobs: Blobs, gone: set<string>, pinned: set<string>)
    requires gone <= blobs.Keys - pinned && pinned <= blobs.Keys
    ensures (blobs - gone).Keys == blobs.Keys - gone
    ensures Total(blobs, blobs.Keys - gone) == Total(blobs, pinned) + Total(blobs, blobs.Keys - gone - pinned)
    ensures gone == blobs.Keys - pinned ==> blobs.Keys - gone == pinned && Total(blobs, blobs.Keys - gone) == Total(blobs, pinned)
  {
    TotalSplit(blobs, blobs.Keys - gone, pinned);
    assert gone == blobs.Keys - pinned ==> blobs.Keys - gone == pinned;
  }

  lemma PrefixFacts(blobs: Blobs, order: seq<string>, n: nat, pinned: set<string>)
    requires n <= |order| && Distinct(order) && Ascending(blobs, order)
    requires Elements(order) == blobs.Keys - pinned
    ensures Distinct(order[..n]) && Ascending(blobs, order[..n])
    ensures forall d, e | d in order[..n] && e in blobs && e !in pinned && e !in order[..n] ::
              blobs[d].modified <= blobs[e].modified
    ensures forall k | 0 <= k <= n :: order[..n][..k] == order[..k]
  {
    forall x | x in order[..n] ensures x in blobs { assert x in order; }
    forall d, e | d in order[..n] && e in blobs && e !in pinned && e !in order[..n]
      ensures blobs[d].modified <= blobs[e].modified
    {
      assert e in Elements(order);
      var i :| 0 <= i < n && order[i] == d;
      var j :| 0 <= j < |order| && order[j] == e;
    }
  }

  /** Where eviction left room for a blob, promoting that blob stays below the high-water mark. */
  lemma EvictionThenHydrationFits(blobs: Blobs, digest: string, blob: Blob, highWater: int)
    requires digest !in blobs && Total(blobs, blobs.Keys) + |blob.content| <= highWater
    ensures Total(blobs[digest := blob], blobs[digest := blob].Keys) <= highWater
  {
    var after := blobs[digest := blob];
    TotalRemove(after, after.Keys, digest);
    assert after.Keys - {digest} == blobs.Keys;
    TotalSame(blobs, after, blobs.Keys);
  }
}
