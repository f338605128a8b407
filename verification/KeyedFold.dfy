/**
 Merging a list by key: values with the same key are folded, left to right, into the place where the key
 first appeared. This is the specification the parser's index-map loops meet.
 */
module KeyedFold {
  import opened Seqs

  // ---- Keys in order of first appearance ----

  function Keys<V>(items: seq<V>, key: V -> string): (ks: seq<string>)
    ensures |ks| == |items|
    ensures forall i | 0 <= i < |items| :: ks[i] == key(items[i])
  {
    seq(|items|, i requires 0 <= i < |items| => key(items[i]))
  }

  /** Each string once, where it first appeared. */
  function Dedup(ks: seq<string>): seq<string> {
    if ks == [] then []
    else
      var before, last := Dedup(ks[..|ks| - 1]), ks[|ks| - 1];
      if last in before then before else before + [last]
  }

  lemma {:induction false} DedupElements(ks: seq<string>)
    ensures forall k :: k in Dedup(ks) <==> k in ks
    ensures Distinct(Dedup(ks))
  {
    if ks != [] {
      DedupElements(ks[..|ks| - 1]);
      assert forall k :: k in ks <==> k in ks[..|ks| - 1] || k == ks[|ks| - 1];
    }
  }

  lemma {:induction false} DedupOfDistinct(ks: seq<string>)
    requires Distinct(ks)
    ensures Dedup(ks) == ks
  {
    if ks != [] {
      DedupOfDistinct(ks[..|ks| - 1]);
    }
  }

  /** Removing duplicates early changes nothing. */
  lemma {:induction false} DedupAppend(a: seq<string>, b: seq<string>)
    ensures Dedup(a + b) == Dedup(Dedup(a) + Dedup(b))
  {
    DedupElements(a);
    if b == [] {
      assert a + b == a && Dedup(a) + Dedup(b) == Dedup(a);
      DedupOfDistinct(Dedup(a));
    } else {
      var init, last := b[..|b| - 1], b[|b| - 1];
      assert (a + b)[..|a + b| - 1] == a + init;
      DedupAppend(a, init);
      DedupElements(init);
      DedupElements(a + init);
      if last in init {
        assert Dedup(a) + Dedup(b) == Dedup(a) + Dedup(init);
      } else {
        assert Dedup(a) + Dedup(b) == (Dedup(a) + Dedup(init)) + [last];
        assert (Dedup(a) + Dedup(b))[..|Dedup(a) + Dedup(b)| - 1] == Dedup(a) + Dedup(init);
      }
    }
  }

  // ---- The fold ----

  function Occurrences<V>(items: seq<V>, key: V -> string, k: string): seq<V> {
    Filter(items, (v: V) => key(v) == k)
  }

  /** Left fold of a non-empty list. */
  function FoldMerge<V>(vs: seq<V>, merge: (V, V) -> V): V
    requires vs != []
  {
    if |vs| == 1 then vs[0] else merge(FoldMerge(vs[..|vs| - 1], merge), vs[|vs| - 1])
  }

  lemma {:induction false} KeyOccurs<V>(items: seq<V>, key: V -> string, k: string)
    ensures k in Keys(items, key) <==> Occurrences(items, key, k) != []
  {
    if k in Keys(items, key) {
      var i :| 0 <= i < |items| && Keys(items, key)[i] == k;
      assert items[i] in Occurrences(items, key, k);
    } else {
      forall v | v in items ensures key(v) != k {
        var i :| 0 <= i < |items| && items[i] == v;
        assert Keys(items, key)[i] == key(v);
      }
      FilterNone(items, (v: V) => key(v) == k);
    }
  }

  function FirstKeys<V>(items: seq<V>, key: V -> string): seq<string> {
    Dedup(Keys(items, key))
  }

  lemma FirstKeyOccurs<V>(items: seq<V>, key: V -> string, k: string)
    ensures k in FirstKeys(items, key) <==> Occurrences(items, key, k) != []
  {
    DedupElements(Keys(items, key));
    KeyOccurs(items, key, k);
  }

  /** The merged value of key `k`, if it occurs. */
  ghost predicate IsMergedAt<V>(items: seq<V>, key: V -> string, merge: (V, V) -> V, k: string, v: V) {
    Occurrences(items, key, k) != [] && v == FoldMerge(Occurrences(items, key, k), merge)
  }

  /** One merged value per key, keys in order of first appearance. */
  ghost predicate IsCollapse<V>(items: seq<V>, key: V -> string, merge: (V, V) -> V, out: seq<V>) {
    && |out| == |FirstKeys(items, key)|
    && forall i | 0 <= i < |out| :: IsMergedAt(items, key, merge, FirstKeys(items, key)[i], out[i])
  }

  lemma CollapseUnique<V>(items: seq<V>, key: V -> string, merge: (V, V) -> V, a: seq<V>, b: seq<V>)
    requires IsCollapse(items, key, merge, a) && IsCollapse(items, key, merge, b)
    ensures a == b
  {
    forall i | 0 <= i < |a| ensures a[i] == b[i] {
      assert IsMergedAt(items, key, merge, FirstKeys(items, key)[i], a[i]);
      assert IsMergedAt(items, key, merge, FirstKeys(items, key)[i], b[i]);
    }
  }

  // ---- What one loop iteration does ----

  /** The index map of a list of keys: every key at its position, and nothing else. */
  ghost predicate Indexes(index: map<string, nat>, keys: seq<string>) {
    && (forall i | 0 <= i < |keys| :: keys[i] in index && index[keys[i]] == i)
    && (forall k | k in index :: index[k] < |keys| && keys[index[k]] == k)
  }

  lemma OccurrencesStep<V>(items: seq<V>, key: V -> string, v: V, k: string)
    ensures Occurrences(items + [v], key, k) ==
      if key(v) == k then Occurrences(items, key, k) + [v] else Occurrences(items, key, k)
  {
    FilterAppend(items, [v], (x: V) => key(x) == k);
    assert Occurrences(items, key, k) + [] == Occurrences(items, key, k);
  }

  lemma OccurrencesAppend<V>(x: seq<V>, y: seq<V>, key: V -> string, k: string)
    ensures Occurrences(x + y, key, k) == Occurrences(x, key, k) + Occurrences(y, key, k)
  {
    FilterAppend(x, y, (v: V) => key(v) == k);
  }

  lemma FirstKeysStep<V>(items: seq<V>, key: V -> string, v: V)
    ensures FirstKeys(items + [v], key) ==
      if key(v) in FirstKeys(items, key) then FirstKeys(items, key) else FirstKeys(items, key) + [key(v)]
  {
    assert Keys(items + [v], key)[..|items|] == Keys(items, key);
  }

  lemma {:induction false} FoldStep<V>(vs: seq<V>, v: V, merge: (V, V) -> V)
    requires vs != []
    ensures FoldMerge(vs + [v], merge) == merge(FoldMerge(vs, merge), v)
  {
    assert (vs + [v])[..|vs|] == vs;
  }

  /** A value whose key is known is merged into its place. */
  lemma MergeInPlace<V>(items: seq<V>, key: V -> string, merge: (V, V) -> V, out: seq<V>, v: V, at: nat)
    requires IsCollapse(items, key, merge, out)
    requires at < |out| && FirstKeys(items, key)[at] == key(v)
    ensures IsCollapse(items + [v], key, merge, out[at := merge(out[at], v)])
    ensures FirstKeys(items + [v], key) == FirstKeys(items, key)
  {
    var ks := FirstKeys(items, key);
    FirstKeysStep(items, key, v);
    DedupElements(Keys(items, key));
    var out' := out[at := merge(out[at], v)];
    forall i | 0 <= i < |out'| ensures IsMergedAt(items + [v], key, merge, ks[i], out'[i]) {
      assert IsMergedAt(items, key, merge, ks[i], out[i]);
      OccurrencesStep(items, key, v, ks[i]);
      if i == at {
        FoldStep(Occurrences(items, key, ks[i]), v, merge);
      } else {
        assert ks[i] != ks[at];
      }
    }
  }

  /** A value with a new key goes to the end. */
  lemma AppendNew<V>(items: seq<V>, key: V -> string, merge: (V, V) -> V, out: seq<V>, v: V)
    requires IsCollapse(items, key, merge, out)
    requires key(v) !in FirstKeys(items, key)
    ensures IsCollapse(items + [v], key, merge, out + [v])
    ensures FirstKeys(items + [v], key) == FirstKeys(items, key) + [key(v)]
  {
    var ks := FirstKeys(items, key);
    FirstKeysStep(items, key, v);
    FirstKeyOccurs(items, key, key(v));
    forall i | 0 <= i < |ks| + 1 ensures IsMergedAt(items + [v], key, merge, (ks + [key(v)])[i], (out + [v])[i]) {
      var k := (ks + [key(v)])[i];
      OccurrencesStep(items, key, v, k);
      if i < |ks| {
        assert IsMergedAt(items, key, merge, ks[i], out[i]);
        assert ks[i] in ks;
      }
    }
  }

  // ---- Algebra ----

  ghost predicate Associative<V(!new)>(merge: (V, V) -> V) {
    forall a, b, c :: merge(merge(a, b), c) == merge(a, merge(b, c))
  }

  lemma {:induction false} FoldAppend<V(!new)>(a: seq<V>, b: seq<V>, merge: (V, V) -> V)
    requires Associative(merge)
    requires a != [] && b != []
    ensures FoldMerge(a + b, merge) == merge(FoldMerge(a, merge), FoldMerge(b, merge))
  {
    var init, last := b[..|b| - 1], b[|b| - 1];
    assert (a + b)[..|a + b| - 1] == a + init;
    if init == [] {
      assert a + init == a;
    } else {
      FoldAppend(a, init, merge);
    }
  }

  /** Merging has not moved any value away from its key. */
  ghost predicate KeepsKeys<V>(items: seq<V>, key: V -> string, out: seq<V>) {
    Keys(out, key) == FirstKeys(items, key)
  }

  lemma SingleOccurrence<V>(items: seq<V>, key: V -> string, at: nat)
    requires at < |items| && Distinct(Keys(items, key))
    ensures Occurrences(items, key, key(items[at])) == [items[at]]
  {
    var k := key(items[at]);
    var a, b := items[..at], items[at + 1..];
    assert items == (a + [items[at]]) + b;
    FilterAppend(a + [items[at]], b, (v: V) => key(v) == k);
    OccurrencesStep(a, key, items[at], k);
    assert forall i | 0 <= i < |items| && i != at :: Keys(items, key)[i] != Keys(items, key)[at];
    FilterNone(a, (v: V) => key(v) == k);
    FilterNone(b, (v: V) => key(v) == k);
  }

  /** In a collapsed list a key occurs at most once, with its merged value. */
  lemma CollapsedOccurrence<V>(items: seq<V>, key: V -> string, merge: (V, V) -> V, out: seq<V>, k: string)
    requires IsCollapse(items, key, merge, out) && KeepsKeys(items, key, out)
    ensures Occurrences(out, key, k) ==
      if Occurrences(items, key, k) == [] then [] else [FoldMerge(Occurrences(items, key, k), merge)]
  {
    var ks := FirstKeys(items, key);
    FirstKeyOccurs(items, key, k);
    DedupElements(Keys(items, key));
    if k in ks {
      var at :| 0 <= at < |ks| && ks[at] == k;
      assert IsMergedAt(items, key, merge, ks[at], out[at]);
      assert Keys(out, key)[at] == key(out[at]);
      SingleOccurrence(out, key, at);
    } else {
      KeyOccurs(out, key, k);
    }
  }

  /** Collapsing two parts and then their concatenation is collapsing everything at once. */
  lemma CollapseInParts<V(!new)>(x: seq<V>, y: seq<V>, key: V -> string, merge: (V, V) -> V,
                                 cx: seq<V>, cy: seq<V>, again: seq<V>, once: seq<V>)
    requires Associative(merge)
    requires IsCollapse(x, key, merge, cx) && KeepsKeys(x, key, cx)
    requires IsCollapse(y, key, merge, cy) && KeepsKeys(y, key, cy)
    requires IsCollapse(cx + cy, key, merge, again) && IsCollapse(x + y, key, merge, once)
    ensures again == once
  {
    assert Keys(x + y, key) == Keys(x, key) + Keys(y, key);
    assert Keys(cx + cy, key) == Keys(cx, key) + Keys(cy, key);
    DedupAppend(Keys(x, key), Keys(y, key));
    DedupElements(Keys(x, key));
    DedupElements(Keys(y, key));
    assert FirstKeys(cx + cy, key) == FirstKeys(x + y, key);
    forall i | 0 <= i < |once| ensures again[i] == once[i] {
      var k := FirstKeys(x + y, key)[i];
      assert IsMergedAt(x + y, key, merge, k, once[i]);
      assert IsMergedAt(cx + cy, key, merge, k, again[i]);
      FoldInParts(x, y, key, merge, cx, cy, k);
    }
  }

  lemma FoldInParts<V(!new)>(x: seq<V>, y: seq<V>, key: V -> string, merge: (V, V) -> V,
                             cx: seq<V>, cy: seq<V>, k: string)
    requires Associative(merge)
    requires IsCollapse(x, key, merge, cx) && KeepsKeys(x, key, cx)
    requires IsCollapse(y, key, merge, cy) && KeepsKeys(y, key, cy)
    requires Occurrences(x + y, key, k) != []
    ensures Occurrences(cx + cy, key, k) != []
    ensures FoldMerge(Occurrences(cx + cy, key, k), merge) == FoldMerge(Occurrences(x + y, key, k), merge)
  {
    var ox, oy := Occurrences(x, key, k), Occurrences(y, key, k);
    OccurrencesAppend(x, y, key, k);
    OccurrencesAppend(cx, cy, key, k);
    CollapsedOccurrence(x, key, merge, cx, k);
    CollapsedOccurrence(y, key, merge, cy, k);
    if ox == [] {
      assert ox + oy == oy;
    } else if oy == [] {
      assert ox + oy == ox;
    } else {
      FoldAppend(ox, oy, merge);
    }
  }

  /** A list with one value per key is already collapsed. */
  lemma DistinctIsCollapsed<V>(items: seq<V>, key: V -> string, merge: (V, V) -> V)
    requires Distinct(Keys(items, key))
    ensures IsCollapse(items, key, merge, items)
  {
    var ks := Keys(items, key);
    DedupOfDistinct(ks);
    forall i | 0 <= i < |items| ensures IsMergedAt(items, key, merge, ks[i], items[i]) {
      SingleOccurrence(items, key, i);
    }
  }

  lemma {:induction false} CollapseExists<V>(items: seq<V>, key: V -> string, merge: (V, V) -> V) returns (out: seq<V>)
    ensures IsCollapse(items, key, merge, out)
  {
    if items == [] {
      out := [];
    } else {
      var init, v := items[..|items| - 1], items[|items| - 1];
      out := CollapseExists(init, key, merge);
      assert items == init + [v];
      if key(v) in FirstKeys(init, key) {
        var at: nat :| at < |FirstKeys(init, key)| && FirstKeys(init, key)[at] == key(v);
        MergeInPlace(init, key, merge, out, v, at);
        out := out[at := merge(out[at], v)];
      } else {
        AppendNew(init, key, merge, out, v);
        out := out + [v];
      }
    }
  }

  /** What holds of all values, and survives merging, holds of their fold. */
  lemma {:induction false} FoldInvariant<V(!new)>(vs: seq<V>, merge: (V, V) -> V, ok: V -> bool)
    requires vs != [] && forall v | v in vs :: ok(v)
    requires forall a, b | ok(a) && ok(b) :: ok(merge(a, b))
    ensures ok(FoldMerge(vs, merge))
  {
    if |vs| > 1 {
      FoldInvariant(vs[..|vs| - 1], merge, ok);
    }
  }

  /** Every collapsed value is the fold of values of its key, all of them from the list. */
  lemma CollapsedInvariant<V(!new)>(items: seq<V>, key: V -> string, merge: (V, V) -> V,
                                    out: seq<V>, i: nat, ok: V -> bool)
    requires IsCollapse(items, key, merge, out) && i < |out|
    requires forall v | v in items && key(v) == FirstKeys(items, key)[i] :: ok(v)
    requires forall a, b | ok(a) && ok(b) :: ok(merge(a, b))
    ensures ok(out[i])
  {
    var k := FirstKeys(items, key)[i];
    assert IsMergedAt(items, key, merge, k, out[i]);
    FoldInvariant(Occurrences(items, key, k), merge, ok);
  }
}
