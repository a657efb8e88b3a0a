/** Small general-purpose definitions. */
module Common {

  datatype Option<+T> = None | Some(value: T)

  predicate Distinct<T(==)>(s: seq<T>) {
    forall i, j :: 0 <= i < j < |s| ==> s[i] != s[j]
  }

  /** Distinct numbers below n: at most n of them, and n of them are all. */
  lemma {:induction false} Pigeonhole(s: seq<nat>, n: nat)
    requires Distinct(s) && forall a :: 0 <= a < |s| ==> s[a] < n
    ensures |s| <= n
    ensures |s| == n ==> forall i: nat :: i < n ==> i in s
    decreases n
  {
    if s == [] {
    } else {
      assert s[0] < n;
      if p :| 0 <= p < |s| && s[p] == n - 1 {
        var rest := s[..p] + s[p + 1..];
        assert forall a :: 0 <= a < |rest| ==> rest[a] == s[if a < p then a else a + 1];
        Pigeonhole(rest, n - 1);
        assert forall i :: i in rest ==> i in s;
      } else {
        Pigeonhole(s, n - 1);
      }
    }
  }

  /** The first k parts, one after the other. */
  function Concat<T>(parts: seq<seq<T>>, k: nat): seq<T>
    requires k <= |parts|
  {
    if k == 0 then [] else Concat(parts, k - 1) + parts[k - 1]
  }

  lemma {:induction false} ConcatGrow<T>(parts: seq<seq<T>>, k: nat, n: nat)
    requires k <= n <= |parts|
    ensures Concat(parts, k) <= Concat(parts, n)
  {
    if k == n {
    } else {
      ConcatGrow(parts, k, n - 1);
    }
  }

  lemma {:induction false} PrefixIndex<T>(a: seq<T>, b: seq<T>, all: seq<T>, i: nat)
    requires a + b <= all && i < |b|
    ensures |a| + i < |all| && all[|a| + i] == b[i]
  {
    assert all[..|a + b|][|a| + i] == (a + b)[|a| + i];
  }

  lemma {:induction false} ConcatAt<T>(parts: seq<seq<T>>, m: nat, i: nat)
    requires m < |parts| && i < |parts[m]|
    ensures var at := |Concat(parts, m)| + i;
            at < |Concat(parts, |parts|)| && Concat(parts, |parts|)[at] == parts[m][i]
  {
    ConcatGrow(parts, m + 1, |parts|);
    var first := Concat(parts, m + 1);
    assert first[|Concat(parts, m)| + i] == parts[m][i];
  }

  lemma {:induction false} ConcatHead<T>(parts: seq<seq<T>>, k: nat)
    requires 0 < k <= |parts|
    ensures Concat(parts, k) == parts[0] + Concat(parts[1..], k - 1)
  {
    if k > 1 {
      ConcatHead(parts, k - 1);
      assert parts[1..][k - 2] == parts[k - 1];
    } else {
      assert Concat(parts, 1) == [] + parts[0];
    }
  }
}
