/** Option and result types shared by every component. */
module Prelude {

  datatype Option<+T> = None | Some(value: T) {
    function GetOr(default: T): T {
      match this
      case Some(v) => v
      case None => default
    }
  }

  datatype Result<+T, +E> = Ok(value: T) | Err(error: E)

  /** Each element of `s` occurs at one position only. */
  ghost predicate Distinct<T(!new)>(s: seq<T>) {
    forall i, j | 0 <= i < j < |s| :: s[i] != s[j]
  }

  function Elements<T(==)>(s: seq<T>): set<T> {
    set x | x in s
  }

  /** The length of a duplicate-free sequence is the size of its element set. */
  lemma {:induction false} DistinctCardinality<T(!new)>(s: seq<T>)
    requires Distinct(s)
    ensures |Elements(s)| == |s|
  {
    if s != [] {
      var n := |s| - 1;
      DistinctCardinality(s[..n]);
      LastElement(s);
    } else {
      assert Elements(s) == {};
    }
  }

  lemma {:induction false} DistinctExactly<T(!new)>(s: seq<T>)
    ensures |Elements(s)| <= |s| && (|Elements(s)| == |s| <==> Distinct(s))
  {
    if s == [] {
      assert Elements(s) == {};
    } else {
      var n := |s| - 1;
      DistinctExactly(s[..n]);
      assert s == s[..n] + [s[n]];
      if s[n] in s[..n] {
        var i :| 0 <= i < n && s[..n][i] == s[n];
        assert s[i] == s[n] && Elements(s) == Elements(s[..n]);
      } else {
        assert Elements(s) == Elements(s[..n]) + {s[n]};
        assert Distinct(s) ==> Distinct(s[..n]);
        if Distinct(s[..n]) {
          forall i, j | 0 <= i < j < |s| ensures s[i] != s[j] {
            if j == n { assert s[i] == s[..n][i]; } else { assert s[..n][i] != s[..n][j]; }
          }
        }
      }
    }
  }

  lemma LastElement<T(!new)>(s: seq<T>)
    requires Distinct(s) && |s| > 0
    ensures Distinct(s[..|s| - 1]) && s[|s| - 1] !in Elements(s[..|s| - 1])
    ensures Elements(s) == Elements(s[..|s| - 1]) + {s[|s| - 1]}
  {
    var n := |s| - 1;
    assert s[n] !in s[..n];
    forall x | x in s ensures x in s[..n] || x == s[n] {
      var i :| 0 <= i < |s| && s[i] == x;
      if i < n { assert s[..n][i] == x; }
    }
  }
}
