/** Facts about sequences that several services share. */
module Seqs {
  function Filter<T>(s: seq<T>, keep: T -> bool): (r: seq<T>)
    ensures |r| <= |s|
    ensures forall x | x in r :: x in s && keep(x)
    ensures forall x | x in s && keep(x) :: x in r
  {
    if s == [] then []
    else if keep(s[0]) then [s[0]] + Filter(s[1..], keep)
    else Filter(s[1..], keep)
  }

  lemma {:induction false} FilterAppend<T>(a: seq<T>, b: seq<T>, keep: T -> bool)
    ensures Filter(a + b, keep) == Filter(a, keep) + Filter(b, keep)
  {
    if a == [] {
      assert a + b == b;
    } else {
      assert (a + b)[1..] == a[1..] + b;
      FilterAppend(a[1..], b, keep);
    }
  }

  lemma {:induction false} FilterCounts<T>(s: seq<T>, keep: T -> bool, x: T)
    ensures multiset(Filter(s, keep))[x] == if keep(x) then multiset(s)[x] else 0
  {
    if s != [] {
      assert s == [s[0]] + s[1..];
      FilterCounts(s[1..], keep, x);
    }
  }

  lemma FilterPermutes<T(!new)>(a: seq<T>, b: seq<T>, keep: T -> bool)
    requires multiset(a) == multiset(b)
    ensures multiset(Filter(a, keep)) == multiset(Filter(b, keep))
  {
    var fa, fb := multiset(Filter(a, keep)), multiset(Filter(b, keep));
    forall x: T ensures fa[x] == fb[x] {
      FilterCounts(a, keep, x);
      FilterCounts(b, keep, x);
    }
  }

  lemma {:induction false} FilterAll<T>(s: seq<T>, keep: T -> bool)
    requires forall x | x in s :: keep(x)
    ensures Filter(s, keep) == s
  {
    if s != [] {
      FilterAll(s[1..], keep);
    }
  }

  lemma {:induction false} FilterNone<T>(s: seq<T>, keep: T -> bool)
    requires forall x | x in s :: !keep(x)
    ensures Filter(s, keep) == []
  {
    if s != [] {
      FilterNone(s[1..], keep);
    }
  }

  lemma {:induction false} FilterSameOn<T>(s: seq<T>, p: T -> bool, q: T -> bool)
    requires forall x | x in s :: p(x) == q(x)
    ensures Filter(s, p) == Filter(s, q)
  {
    if s != [] {
      FilterSameOn(s[1..], p, q);
    }
  }

  /** What survives a filter keeps its relative order, witnessed by positions in the original. */
  lemma {:induction false} FilterInOrder<T>(s: seq<T>, keep: T -> bool, i: nat, j: nat) returns (a: nat, b: nat)
    requires i < j < |Filter(s, keep)|
    ensures a < b < |s| && s[a] == Filter(s, keep)[i] && s[b] == Filter(s, keep)[j]
  {
    if !keep(s[0]) {
      a, b := FilterInOrder(s[1..], keep, i, j);
      a, b := a + 1, b + 1;
    } else if i == 0 {
      assert Filter(s[1..], keep)[j - 1] in s[1..];
      var k :| 0 <= k < |s[1..]| && s[1..][k] == Filter(s[1..], keep)[j - 1];
      a, b := 0, k + 1;
    } else {
      a, b := FilterInOrder(s[1..], keep, i - 1, j - 1);
      a, b := a + 1, b + 1;
    }
  }

  ghost predicate Distinct<T>(s: seq<T>) {
    forall i, j | 0 <= i < j < |s| :: s[i] != s[j]
  }

  lemma {:induction false} DistinctIffCounts<T>(s: seq<T>)
    ensures Distinct(s) <==> forall x | x in s :: multiset(s)[x] == 1
  {
    if s != [] {
      var t := s[1..];
      assert s == [s[0]] + t;
      DistinctIffCounts(t);
      assert s[0] in t <==> multiset(t)[s[0]] > 0;
      if Distinct(s) {
        assert forall i | 0 <= i < |t| :: t[i] == s[i + 1];
      }
      if forall x | x in s :: multiset(s)[x] == 1 {
        assert s[0] in s && s[0] !in t;
        assert forall x | x in t :: x in s;
      }
    }
  }

  lemma DistinctPermutes<T>(a: seq<T>, b: seq<T>)
    requires Distinct(a) && multiset(a) == multiset(b)
    ensures Distinct(b)
  {
    DistinctIffCounts(a);
    DistinctIffCounts(b);
    assert forall x | x in b :: x in multiset(b) && x in a;
  }

  ghost predicate DistinctBy<T>(s: seq<T>, key: T -> int) {
    forall i, j | 0 <= i < j < |s| :: key(s[i]) != key(s[j])
  }

  lemma {:induction false} CountedOnce<T>(s: seq<T>, key: T -> int, x: T)
    requires DistinctBy(s, key)
    requires x in s
    ensures multiset(s)[x] == 1
  {
    assert s == [s[0]] + s[1..];
    if s[0] != x {
      CountedOnce(s[1..], key, x);
    } else {
      assert x !in multiset(s[1..]);
    }
  }

  /** Distinct keys are a property of the collection, not of its order. */
  lemma DistinctByPermutes<T>(a: seq<T>, b: seq<T>, key: T -> int)
    requires DistinctBy(a, key)
    requires multiset(a) == multiset(b)
    ensures DistinctBy(b, key)
  {
    forall i, j | 0 <= i < j < |b| ensures key(b[i]) != key(b[j]) {
      assert b[i] in multiset(a) && b[j] in multiset(a);
      CountedOnce(a, key, b[i]);
      assert b == b[..i] + [b[i]] + b[i + 1..];
      assert b[j] in b[i + 1..] && b[j] in multiset(b[i + 1..]);
    }
  }

  lemma FilterDistinctBy<T>(s: seq<T>, keep: T -> bool, key: T -> int)
    requires DistinctBy(s, key)
    ensures DistinctBy(Filter(s, keep), key)
  {
    forall i, j | 0 <= i < j < |Filter(s, keep)| ensures key(Filter(s, keep)[i]) != key(Filter(s, keep)[j]) {
      var a, b := FilterInOrder(s, keep, i, j);
    }
  }

  /** A filter keeps as many elements as there are positions it accepts. */
  lemma {:induction false} FilterSize<T>(s: seq<T>, keep: T -> bool, positions: set<int>)
    requires forall k :: k in positions <==> 0 <= k < |s| && keep(s[k])
    ensures |Filter(s, keep)| == |positions|
  {
    if s == [] {
      assert forall k :: k !in positions;
    } else {
      var n := |s| - 1;
      var init, before := s[..n], positions - {n};
      FilterSize(init, keep, before);
      assert s == init + [s[n]];
      FilterAppend(init, [s[n]], keep);
      assert positions == if keep(s[n]) then before + {n} else before;
    }
  }
}
