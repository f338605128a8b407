/** Sorting by a comparison function, as `sort.Slice` promises it: a sorted permutation, with no word on ties. */
module Sorting {
  /** The complement of `less`, read as "not after", is a total preorder. */
  ghost predicate StrictWeak<T(!new)>(less: (T, T) -> bool) {
    && (forall x, y :: less(x, y) ==> !less(y, x))
    && (forall x, y, z :: !less(y, x) && !less(z, y) ==> !less(z, x))
  }

  predicate Sorted<T>(s: seq<T>, less: (T, T) -> bool) {
    forall i, j | 0 <= i < j < |s| :: !less(s[j], s[i])
  }

  /** `r` is one of the results a sort of `s` may leave. */
  ghost predicate IsSortOf<T>(r: seq<T>, s: seq<T>, less: (T, T) -> bool) {
    multiset(r) == multiset(s) && Sorted(r, less)
  }

  /** Different elements of `s` never tie. */
  ghost predicate Separates<T>(s: seq<T>, less: (T, T) -> bool) {
    forall x, y | x in s && y in s && x != y :: less(x, y) || less(y, x)
  }

  function Insert<T(!new)>(x: T, s: seq<T>, less: (T, T) -> bool): (r: seq<T>)
    ensures multiset(r) == multiset{x} + multiset(s)
  {
    if s == [] || !less(s[0], x) then
      [x] + s
    else
      assert s == [s[0]] + s[1..];
      [s[0]] + Insert(x, s[1..], less)
  }

  lemma InsertedIsOldOrNew<T(!new)>(x: T, s: seq<T>, less: (T, T) -> bool, j: nat)
    requires j < |Insert(x, s, less)|
    ensures Insert(x, s, less)[j] == x || Insert(x, s, less)[j] in s
  {
    assert Insert(x, s, less)[j] in multiset(Insert(x, s, less));
  }

  lemma {:induction false} InsertSorted<T(!new)>(x: T, s: seq<T>, less: (T, T) -> bool)
    requires StrictWeak(less)
    requires Sorted(s, less)
    ensures Sorted(Insert(x, s, less), less)
  {
    var r := Insert(x, s, less);
    if s != [] && less(s[0], x) {
      var t := Insert(x, s[1..], less);
      InsertSorted(x, s[1..], less);
      assert s == [s[0]] + s[1..] && r == [s[0]] + t;
      forall j | 0 < j < |r| ensures !less(r[j], r[0]) {
        InsertedIsOldOrNew(x, s[1..], less, j - 1);
        assert r[j] == t[j - 1];
      }
    } else if s != [] {
      forall j | 0 < j < |r| ensures !less(r[j], x) {
        assert r[j] == s[j - 1] && !less(s[j - 1], s[0]);
      }
    }
  }

  function Sort<T(!new)>(s: seq<T>, less: (T, T) -> bool): (r: seq<T>)
    requires StrictWeak(less)
    ensures IsSortOf(r, s, less)
  {
    if s == [] then [] else
      assert s == [s[0]] + s[1..];
      InsertSorted(s[0], Sort(s[1..], less), less);
      Insert(s[0], Sort(s[1..], less), less)
  }

  lemma SortedHeads<T(!new)>(a: seq<T>, b: seq<T>, less: (T, T) -> bool)
    requires a != [] && b != []
    requires Separates(a, less)
    requires multiset(a) == multiset(b)
    requires Sorted(a, less) && Sorted(b, less)
    ensures a[0] == b[0]
  {
    assert a[0] in multiset(b) && b[0] in multiset(a);
    var i :| 0 <= i < |a| && a[i] == b[0];
    var j :| 0 <= j < |b| && b[j] == a[0];
    assert 0 < i ==> !less(a[i], a[0]);
    assert 0 < j ==> !less(b[j], b[0]);
  }

  lemma TailStaysSorted<T(!new)>(a: seq<T>, less: (T, T) -> bool)
    requires a != [] && Sorted(a, less)
    ensures Sorted(a[1..], less)
    ensures Separates(a, less) ==> Separates(a[1..], less)
  {
  }

  /** When no two different elements tie there is only one sorted permutation. */
  lemma {:induction false} SortedFormUnique<T(!new)>(a: seq<T>, b: seq<T>, less: (T, T) -> bool)
    requires Separates(a, less)
    requires multiset(a) == multiset(b)
    requires Sorted(a, less) && Sorted(b, less)
    ensures a == b
  {
    hide Separates, Sorted;
    assert |a| == |multiset(a)| == |multiset(b)| == |b|;
    if a != [] {
      SortedHeads(a, b, less);
      TailStaysSorted(a, less);
      TailStaysSorted(b, less);
      assert a == [a[0]] + a[1..] && b == [b[0]] + b[1..];
      assert multiset(a[1..]) == multiset(a) - multiset{a[0]} == multiset(b[1..]);
      SortedFormUnique(a[1..], b[1..], less);
    }
  }
}
