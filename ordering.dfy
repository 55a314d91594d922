/**
 * Python's `sorted(xs, key=...)` over string keys: the order on unicode strings
 * (code point by code point) and the stable sort, computed as the permutation of
 * positions it applies, so that the same permutation can be applied to Page
 * objects and to the values they hold.
 */
module Ordering {

  /** `a <= b` between two Python unicode strings. */
  predicate Below(a: string, b: string) {
    a == [] || (b != [] && (a[0] < b[0] || (a[0] == b[0] && Below(a[1..], b[1..]))))
  }

  lemma {:induction false} BelowReflexive(a: string)
    ensures Below(a, a)
  {
    if a != [] {
      BelowReflexive(a[1..]);
    }
  }

  lemma {:induction false} BelowTotal(a: string, b: string)
    ensures Below(a, b) || Below(b, a)
  {
    if a != [] && b != [] && a[0] == b[0] {
      BelowTotal(a[1..], b[1..]);
    }
  }

  lemma {:induction false} BelowTransitive(a: string, b: string, c: string)
    requires Below(a, b) && Below(b, c)
    ensures Below(a, c)
  {
    if a != [] && b != [] && c != [] && a[0] == b[0] == c[0] {
      BelowTransitive(a[1..], b[1..], c[1..]);
    }
  }

  lemma {:induction false} BelowAntisymmetric(a: string, b: string)
    requires Below(a, b) && Below(b, a)
    ensures a == b
  {
    if a != [] && b != [] {
      BelowAntisymmetric(a[1..], b[1..]);
      assert a == [a[0]] + a[1..] && b == [b[0]] + b[1..];
    }
  }

  /**
   * Position `i` comes before position `j` in a stable sort by `keys`:
   * its key is smaller, or the keys are equal and `i` is the earlier position.
   */
  predicate Precedes(keys: seq<string>, i: nat, j: nat) {
    i < |keys| && j < |keys| && Below(keys[i], keys[j]) && (Below(keys[j], keys[i]) ==> i < j)
  }

  /** `order` lists positions of `keys`, each strictly before the next in the stable order. */
  predicate SortedBy(keys: seq<string>, order: seq<nat>) {
    && (forall p :: 0 <= p < |order| ==> order[p] < |keys|)
    && (forall p, q :: 0 <= p < q < |order| ==> Precedes(keys, order[p], order[q]))
  }

  /** Inserts position `i` before the first position whose key is not smaller than its own. */
  function Insert(keys: seq<string>, i: nat, order: seq<nat>): (r: seq<nat>)
    requires i < |keys|
    requires forall p :: 0 <= p < |order| ==> order[p] < |keys|
    ensures |r| == |order| + 1
    ensures forall p :: 0 <= p < |r| ==> r[p] < |keys|
  {
    if order == [] then [i]
    else if Below(keys[i], keys[order[0]]) then [i] + order
    else [order[0]] + Insert(keys, i, order[1..])
  }

  /** Insertion adds `i` and loses nothing. */
  lemma {:induction false} InsertContents(keys: seq<string>, i: nat, order: seq<nat>)
    requires i < |keys|
    requires forall p :: 0 <= p < |order| ==> order[p] < |keys|
    ensures multiset(Insert(keys, i, order)) == multiset(order) + multiset{i}
  {
    if order != [] && !Below(keys[i], keys[order[0]]) {
      InsertContents(keys, i, order[1..]);
      assert order == [order[0]] + order[1..];
    }
  }

  /** Insertion keeps a lower bound that `i` and every position of `order` respect. */
  lemma {:induction false} InsertAbove(keys: seq<string>, i: nat, order: seq<nat>, lo: nat)
    requires i < |keys|
    requires forall p :: 0 <= p < |order| ==> lo <= order[p] < |keys|
    requires lo <= i
    ensures forall p :: 0 <= p < |order| + 1 ==> lo <= Insert(keys, i, order)[p]
  {
    if order != [] && !Below(keys[i], keys[order[0]]) {
      InsertAbove(keys, i, order[1..], lo);
    }
  }

  /** The stable sort of positions `start`, ..., `|keys| - 1`, by insertion from the back. */
  function SortFrom(keys: seq<string>, start: nat): (order: seq<nat>)
    ensures |order| == if start <= |keys| then |keys| - start else 0
    ensures forall p :: 0 <= p < |order| ==> start <= order[p] < |keys|
    decreases |keys| - start
  {
    if start >= |keys| then []
    else
      var rest := SortFrom(keys, start + 1);
      InsertAbove(keys, start, rest, start);
      Insert(keys, start, rest)
  }

  lemma SortFromStep(keys: seq<string>, start: nat)
    requires start < |keys|
    ensures SortFrom(keys, start) == Insert(keys, start, SortFrom(keys, start + 1))
  {
  }

  /** The sort lists exactly the positions `start`, ..., `|keys| - 1`. */
  lemma {:induction false} SortFromContents(keys: seq<string>, start: nat)
    requires start <= |keys|
    ensures multiset(SortFrom(keys, start)) == multiset(Range(start, |keys|))
    decreases |keys| - start
  {
    if start < |keys| {
      SortFromContents(keys, start + 1);
      SortFromStep(keys, start);
      InsertContents(keys, start, SortFrom(keys, start + 1));
      assert Range(start, |keys|) == [start] + Range(start + 1, |keys|);
    }
  }

  lemma {:induction false} InsertSorted(keys: seq<string>, i: nat, order: seq<nat>)
    requires i < |keys| && SortedBy(keys, order)
    requires forall p :: 0 <= p < |order| ==> i < order[p]
    ensures SortedBy(keys, Insert(keys, i, order))
  {
    var r := Insert(keys, i, order);
    if order == [] {
    } else if Below(keys[i], keys[order[0]]) {
      assert r == [i] + order;
      forall p, q | 0 <= p < q < |r| ensures Precedes(keys, r[p], r[q]) {
        if p == 0 {
          if q > 1 {
            assert Precedes(keys, order[0], order[q - 1]);
            BelowTransitive(keys[i], keys[order[0]], keys[order[q - 1]]);
          }
        } else {
          assert r[p] == order[p - 1] && r[q] == order[q - 1];
        }
      }
    } else {
      var tail := Insert(keys, i, order[1..]);
      assert r == [order[0]] + tail;
      InsertSorted(keys, i, order[1..]);
      InsertContents(keys, i, order[1..]);
      BelowTotal(keys[i], keys[order[0]]);
      assert Precedes(keys, order[0], i);
      forall q | 0 <= q < |tail| ensures Precedes(keys, order[0], tail[q]) {
        assert tail[q] in multiset(order[1..]) + multiset{i};
        if tail[q] != i {
          assert tail[q] in order[1..];
          var k :| 0 <= k < |order[1..]| && order[1..][k] == tail[q];
          assert Precedes(keys, order[0], order[k + 1]);
        }
      }
      SortedCons(keys, order[0], tail);
    }
  }

  lemma SortedCons(keys: seq<string>, x: nat, tail: seq<nat>)
    requires x < |keys| && SortedBy(keys, tail)
    requires forall q :: 0 <= q < |tail| ==> Precedes(keys, x, tail[q])
    ensures SortedBy(keys, [x] + tail)
  {
    var r := [x] + tail;
    forall p, q | 0 <= p < q < |r| ensures Precedes(keys, r[p], r[q]) {
      if p == 0 {
        assert r[q] == tail[q - 1];
      } else {
        assert r[p] == tail[p - 1] && r[q] == tail[q - 1];
      }
    }
  }

  lemma {:induction false} SortFromSorted(keys: seq<string>, start: nat)
    ensures SortedBy(keys, SortFrom(keys, start))
    decreases |keys| - start
  {
    if start < |keys| {
      SortFromSorted(keys, start + 1);
      InsertSorted(keys, start, SortFrom(keys, start + 1));
    }
  }

  /**
   * The order `sorted(range(len(keys)), key=keys.__getitem__)` produces: each position
   * once, keys non-decreasing, and positions with equal keys in their original order.
   */
  function SortedOrder(keys: seq<string>): (order: seq<nat>)
    ensures |order| == |keys|
    ensures forall j: nat :: j in order <==> j < |keys|
    ensures SortedBy(keys, order)
  {
    var order := SortFrom(keys, 0);
    SortFromSorted(keys, 0);
    SortFromContents(keys, 0);
    var all := Range(0, |keys|);
    forall j: nat ensures j in order <==> j < |keys| {
      if j < |keys| {
        assert all[j] == j;
      }
      assert j in order <==> j in multiset(order);
      assert j in all <==> j in multiset(all);
    }
    order
  }

  /** `[xs[i] for i in order]`. */
  function Permute<T>(xs: seq<T>, order: seq<nat>): (r: seq<T>)
    requires forall p :: 0 <= p < |order| ==> order[p] < |xs|
    ensures |r| == |order|
    ensures forall p :: 0 <= p < |order| ==> r[p] == xs[order[p]]
  {
    if order == [] then [] else [xs[order[0]]] + Permute(xs, order[1..])
  }

  /** One more position picks one more element. */
  lemma PermuteSnoc<T>(xs: seq<T>, order: seq<nat>, j: nat)
    requires forall p :: 0 <= p < |order| ==> order[p] < |xs|
    requires j < |xs|
    ensures Permute(xs, order + [j]) == Permute(xs, order) + [xs[j]]
  {
    var a, b := Permute(xs, order + [j]), Permute(xs, order) + [xs[j]];
    forall p | 0 <= p < |a| ensures a[p] == b[p] {
      assert (order + [j])[p] == if p < |order| then order[p] else j;
    }
  }

  /** `sorted(xs, key=...)` where `keys[i]` is the key of `xs[i]`. */
  function SortByKeys<T>(xs: seq<T>, keys: seq<string>): (r: seq<T>)
    requires |keys| == |xs|
    ensures |r| == |xs|
  {
    Permute(xs, SortedOrder(keys))
  }

  /** The keys, read in the sorted order, never decrease. */
  lemma SortedKeysAscend(keys: seq<string>)
    ensures forall p, q :: 0 <= p < q < |keys| ==> Below(SortByKeys(keys, keys)[p], SortByKeys(keys, keys)[q])
  {
    var order := SortedOrder(keys);
    forall p, q | 0 <= p < q < |keys| ensures Below(SortByKeys(keys, keys)[p], SortByKeys(keys, keys)[q]) {
      assert Precedes(keys, order[p], order[q]);
    }
  }

  lemma {:induction false} PermuteInsert<T>(xs: seq<T>, i: nat, order: seq<nat>, keys: seq<string>)
    requires |keys| == |xs| && i < |xs|
    requires forall p :: 0 <= p < |order| ==> order[p] < |xs|
    ensures multiset(Permute(xs, Insert(keys, i, order))) == multiset{xs[i]} + multiset(Permute(xs, order))
  {
    var r := Insert(keys, i, order);
    if order != [] && !Below(keys[i], keys[order[0]]) {
      PermuteInsert(xs, i, order[1..], keys);
    }
  }

  lemma {:induction false} PermuteSortFrom<T>(xs: seq<T>, keys: seq<string>, start: nat)
    requires |keys| == |xs| && start <= |xs|
    ensures multiset(Permute(xs, SortFrom(keys, start))) == multiset(xs[start..])
    decreases |xs| - start
  {
    if start < |xs| {
      var rest := SortFrom(keys, start + 1);
      var order := SortFrom(keys, start);
      SortFromStep(keys, start);
      calc {
        multiset(Permute(xs, order));
        { PermuteInsert(xs, start, rest, keys); }
        multiset{xs[start]} + multiset(Permute(xs, rest));
        { PermuteSortFrom(xs, keys, start + 1); }
        multiset{xs[start]} + multiset(xs[start + 1..]);
        { assert xs[start..] == [xs[start]] + xs[start + 1..]; }
        multiset(xs[start..]);
      }
    }
  }

  /** Sorting rearranges the elements and loses or adds none. */
  lemma SortByKeysPermutes<T>(xs: seq<T>, keys: seq<string>)
    requires |keys| == |xs|
    ensures multiset(SortByKeys(xs, keys)) == multiset(xs)
  {
    PermuteSortFrom(xs, keys, 0);
    assert xs[0..] == xs;
  }

  /** `range(lo, hi)`. */
  function Range(lo: nat, hi: nat): (r: seq<nat>)
    ensures |r| == if lo <= hi then hi - lo else 0
    ensures forall p :: 0 <= p < |r| ==> r[p] == lo + p
    decreases hi - lo
  {
    if lo >= hi then [] else [lo] + Range(lo + 1, hi)
  }

  lemma {:induction false} SortFromOfSorted(keys: seq<string>, start: nat)
    requires forall p, q :: 0 <= p < q < |keys| ==> Below(keys[p], keys[q])
    requires start <= |keys|
    ensures SortFrom(keys, start) == Range(start, |keys|)
    decreases |keys| - start
  {
    if start < |keys| {
      SortFromOfSorted(keys, start + 1);
    }
  }

  /** A stable sort leaves a sequence whose keys already never decrease exactly as it was. */
  lemma SortByKeysOfSorted<T>(xs: seq<T>, keys: seq<string>)
    requires |keys| == |xs|
    requires forall p, q :: 0 <= p < q < |keys| ==> Below(keys[p], keys[q])
    ensures SortByKeys(xs, keys) == xs
  {
    SortFromOfSorted(keys, 0);
  }

  /** `m` is the smallest string of `ks`, strictly below every other one. */
  predicate IsLeast(m: string, ks: set<string>) {
    m in ks && forall x :: x in ks && x != m ==> Below(m, x) && !Below(x, m)
  }

  lemma {:induction false} LeastExists(ks: set<string>)
    requires ks != {}
    ensures exists m :: IsLeast(m, ks)
    decreases |ks|
  {
    var y :| y in ks;
    var others := ks - {y};
    if others == {} {
      assert ks == {y};
      assert IsLeast(y, ks);
    } else {
      LeastExists(others);
      var m :| IsLeast(m, others);
      BelowTotal(y, m);
      if Below(y, m) && !Below(m, y) {
        forall x | x in ks && x != y ensures Below(y, x) && !Below(x, y) {
          if x != m {
            BelowTransitive(y, m, x);
            if Below(x, y) {
              BelowTransitive(m, x, y);
            }
          }
        }
        assert IsLeast(y, ks);
      } else {
        if Below(y, m) {
          BelowAntisymmetric(y, m);
        }
        assert IsLeast(m, ks);
      }
    }
  }

  /** `sorted(keys)` for the keys of a dictionary: each key once (see `SortedKeysAscending` for the order). */
  function SortedKeys(ks: set<string>): (r: seq<string>)
    ensures |r| == |ks|
    ensures forall k :: k in r <==> k in ks
    decreases |ks|
  {
    if ks == {} then []
    else
      LeastExists(ks);
      var m :| IsLeast(m, ks);
      var tail := SortedKeys(ks - {m});
      [m] + tail
  }

  /** Each element strictly below every later one. */
  predicate StrictlyAscending(r: seq<string>) {
    forall i, j :: 0 <= i < j < |r| ==> Below(r[i], r[j]) && r[i] != r[j]
  }

  lemma AscendingCons(m: string, tail: seq<string>)
    requires StrictlyAscending(tail)
    requires forall x :: x in tail ==> Below(m, x) && x != m
    ensures StrictlyAscending([m] + tail)
  {
    var r := [m] + tail;
    forall i, j | 0 <= i < j < |r| ensures Below(r[i], r[j]) && r[i] != r[j] {
      assert r[j] == tail[j - 1] && r[j] in tail;
      if i > 0 {
        assert r[i] == tail[i - 1];
      }
    }
  }

  /** The first key is below all the others, which are the sorted keys of the rest. */
  lemma SortedKeysFirst(ks: set<string>)
    requires ks != {}
    ensures var r := SortedKeys(ks);
      && r == [r[0]] + SortedKeys(ks - {r[0]})
      && forall x :: x in SortedKeys(ks - {r[0]}) ==> Below(r[0], x) && x != r[0]
  {
    var r := SortedKeys(ks);
    assert IsLeast(r[0], ks);
  }

  /** The keys come in strictly ascending order, so none comes twice. */
  lemma {:induction false} SortedKeysAscending(ks: set<string>)
    ensures StrictlyAscending(SortedKeys(ks))
    decreases |ks|
  {
    if ks != {} {
      var m := SortedKeys(ks)[0];
      SortedKeysFirst(ks);
      SortedKeysAscending(ks - {m});
      AscendingCons(m, SortedKeys(ks - {m}));
    }
  }
}
