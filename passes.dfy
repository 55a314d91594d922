/**
 * The two shapes of loop the wiki runs over its pages: computing one value per page
 * where the first failing page stops the loop with its exception, and keeping the pages
 * that pass a test that may itself raise.
 */
module Passes {
  import opened Base

  /** `[f(x) for x in xs]` where each `f(x)` may raise: the first exception, in list order, wins. */
  function Collect<T, U>(xs: seq<T>, f: T -> Result<U>): (r: Result<seq<U>>)
    ensures r.Ok? <==> forall i :: 0 <= i < |xs| ==> f(xs[i]).Ok?
    ensures r.Ok? ==> |r.value| == |xs| && forall i :: 0 <= i < |xs| ==> r.value[i] == f(xs[i]).value
    ensures r.Err? ==> exists i :: 0 <= i < |xs| && f(xs[i]) == Err(r.error) && forall j :: 0 <= j < i ==> f(xs[j]).Ok?
  {
    if xs == [] then Ok([])
    else
      var front := xs[..|xs| - 1];
      var last := xs[|xs| - 1];
      match Collect(front, f)
      case Err(e) =>
        assert forall j :: 0 <= j < |front| ==> front[j] == xs[j];
        Err(e)
      case Ok(ys) =>
        assert forall j :: 0 <= j < |front| ==> front[j] == xs[j];
        match f(last)
        case Err(e) => Err(e)
        case Ok(y) => Ok(ys + [y])
  }

  /** `a` is `b` with some of its elements left out, the rest in their order. */
  predicate Subsequence<T(==)>(a: seq<T>, b: seq<T>) {
    || a == []
    || (&& b != []
        && ((a[|a| - 1] == b[|b| - 1] && Subsequence(a[..|a| - 1], b[..|b| - 1]))
            || Subsequence(a, b[..|b| - 1])))
  }

  /**
   * The loop `for x in xs: if test(x): kept.append(x)` where the test may raise: the
   * first exception, in list order, wins; otherwise only elements that pass are kept
   * (`SelectExactly` adds that all of them are, in their order).
   */
  function Select<T(==)>(xs: seq<T>, test: T -> Result<bool>): (r: Result<seq<T>>)
    ensures r.Ok? <==> forall i :: 0 <= i < |xs| ==> test(xs[i]).Ok?
    ensures r.Ok? ==> forall i :: 0 <= i < |r.value| ==> test(r.value[i]) == Ok(true)
    ensures r.Err? ==> exists i :: 0 <= i < |xs| && test(xs[i]) == Err(r.error) && forall j :: 0 <= j < i ==> test(xs[j]).Ok?
  {
    if xs == [] then Ok([])
    else
      var front := xs[..|xs| - 1];
      var last := xs[|xs| - 1];
      assert forall j :: 0 <= j < |front| ==> front[j] == xs[j];
      match Select(front, test)
      case Err(e) => Err(e)
      case Ok(kept) =>
        match test(last)
        case Err(e) => Err(e)
        case Ok(pass) => if pass then Ok(kept + [last]) else Ok(kept)
  }

  /** What `Select` keeps is the elements that pass, every one of them, in their order. */
  lemma {:induction false} SelectExactly<T>(xs: seq<T>, test: T -> Result<bool>)
    requires Select(xs, test).Ok?
    ensures var kept := Select(xs, test).value;
      && Subsequence(kept, xs)
      && (forall i :: 0 <= i < |kept| ==> kept[i] in xs)
      && (forall i :: 0 <= i < |xs| && test(xs[i]) == Ok(true) ==> xs[i] in kept)
  {
    if xs != [] {
      var front := xs[..|xs| - 1];
      assert forall j :: 0 <= j < |front| ==> front[j] == xs[j];
      SelectExactly(front, test);
      var kept := Select(front, test).value;
      var pass := test(xs[|xs| - 1]).value;
      SelectKeeps(xs, test, kept, pass);
    }
  }

  /** The step of `Select` that decides the last element, once the loop over the front has kept `kept`. */
  lemma SelectKeeps<T>(xs: seq<T>, test: T -> Result<bool>, kept: seq<T>, pass: bool)
    requires xs != [] && test(xs[|xs| - 1]) == Ok(pass)
    requires Subsequence(kept, xs[..|xs| - 1])
    requires forall i :: 0 <= i < |kept| ==> kept[i] in xs[..|xs| - 1]
    requires forall i :: 0 <= i < |xs| - 1 && test(xs[i]) == Ok(true) ==> xs[i] in kept
    ensures var r := if pass then kept + [xs[|xs| - 1]] else kept;
      && Subsequence(r, xs)
      && (forall i :: 0 <= i < |r| ==> r[i] in xs)
      && (forall i :: 0 <= i < |xs| && test(xs[i]) == Ok(true) ==> xs[i] in r)
  {
    var front := xs[..|xs| - 1];
    var r := if pass then kept + [xs[|xs| - 1]] else kept;
    assert forall x :: x in front ==> x in xs;
    if pass {
      assert r[..|r| - 1] == kept;
    }
    forall i | 0 <= i < |xs| && test(xs[i]) == Ok(true)
      ensures xs[i] in r
    {
      if i < |xs| - 1 {
        assert xs[i] == front[i];
      }
    }
  }

  /** A loop that raises within `a` raises the same over `a + b`. */
  lemma CollectErrThen<T, U>(a: seq<T>, b: seq<T>, f: T -> Result<U>)
    requires Collect(a, f).Err?
    ensures Collect(a + b, f) == Collect(a, f)
  {
    assert (a + b)[..|a|] == a;
    CollectPrefixErr(a + b, |a|, f);
  }

  lemma SplitAt<T>(xs: seq<T>, n: nat)
    requires n <= |xs|
    ensures xs[..n] + xs[n..] == xs
  {
  }

  lemma AppendAssoc<T>(x: seq<T>, y: seq<T>, z: seq<T>)
    ensures (x + y) + z == x + (y + z)
  {
  }

  /** Every element of a subsequence is an element of the whole. */
  lemma {:induction false} SubsequenceMembers<T>(a: seq<T>, b: seq<T>)
    requires Subsequence(a, b)
    ensures forall i :: 0 <= i < |a| ==> a[i] in b
    decreases |b|
  {
    if a != [] {
      var front := b[..|b| - 1];
      if a[|a| - 1] == b[|b| - 1] && Subsequence(a[..|a| - 1], front) {
        SubsequenceMembers(a[..|a| - 1], front);
        forall i | 0 <= i < |a| ensures a[i] in b {
          if i < |a| - 1 {
            assert a[i] == a[..|a| - 1][i];
            assert a[i] in front;
          }
        }
      } else {
        SubsequenceMembers(a, front);
      }
    }
  }

  /** Once a prefix of the list raises, the whole loop raises the same exception. */
  lemma {:induction false} CollectPrefixErr<T, U>(xs: seq<T>, n: nat, f: T -> Result<U>)
    requires n <= |xs| && Collect(xs[..n], f).Err?
    ensures Collect(xs, f) == Collect(xs[..n], f)
    decreases |xs|
  {
    if n < |xs| {
      var front := xs[..|xs| - 1];
      assert front[..n] == xs[..n];
      CollectPrefixErr(front, n, f);
    } else {
      assert xs[..n] == xs;
    }
  }

  /** Once a prefix of the list raises, the whole filter raises the same exception. */
  lemma {:induction false} SelectPrefixErr<T>(xs: seq<T>, n: nat, test: T -> Result<bool>)
    requires n <= |xs| && Select(xs[..n], test).Err?
    ensures Select(xs, test) == Select(xs[..n], test)
    decreases |xs|
  {
    if n < |xs| {
      var front := xs[..|xs| - 1];
      assert front[..n] == xs[..n];
      SelectPrefixErr(front, n, test);
    } else {
      assert xs[..n] == xs;
    }
  }

  /** One more pass of the loop of `Collect`: the prefix grows by the value of the next element, or stops at its exception. */
  lemma CollectStep<T, U>(xs: seq<T>, i: nat, f: T -> Result<U>, ys: seq<U>)
    requires i < |xs| && Collect(xs[..i], f) == Ok(ys)
    ensures Collect(xs[..i + 1], f) == match f(xs[i]) case Err(e) => Err(e) case Ok(y) => Ok(ys + [y])
  {
    assert xs[..i + 1][..i] == xs[..i];
  }

  /** One more pass of the loop of `Select`: the next element is kept when it passes, or its exception stops the loop. */
  lemma SelectStep<T>(xs: seq<T>, i: nat, test: T -> Result<bool>, kept: seq<T>)
    requires i < |xs| && Select(xs[..i], test) == Ok(kept)
    ensures Select(xs[..i + 1], test) ==
      match test(xs[i]) case Err(e) => Err(e) case Ok(pass) => Ok(if pass then kept + [xs[i]] else kept)
  {
    assert xs[..i + 1][..i] == xs[..i];
  }

  /** One step of a `Select` loop: the outcome of the test on the next item either ends the whole pass with its error or extends the kept items. */
  lemma SelectNext<T>(xs: seq<T>, i: nat, test: T -> Result<bool>, kept: seq<T>, out: Result<bool>)
    requires i < |xs| && Select(xs[..i], test) == Ok(kept) && out == test(xs[i])
    ensures out.Err? ==> Select(xs, test) == Err(out.error)
    ensures out.Ok? ==> Select(xs[..i + 1], test) == Ok(if out.value then kept + [xs[i]] else kept)
  {
    SelectStep(xs, i, test, kept);
    if out.Err? {
      SelectPrefixErr(xs, i + 1, test);
    }
  }

  lemma CollectOne<T, U>(x: T, f: T -> Result<U>)
    ensures Collect([x], f) == match f(x) case Err(e) => Err(e) case Ok(y) => Ok([y])
  {
    assert [x][..0] == [];
    assert Collect([x][..0], f) == Ok([]);
    if f(x).Ok? {
      assert [] + [f(x).value] == [f(x).value];
    }
  }

  lemma Whole<T>(xs: seq<T>)
    ensures xs[..|xs|] == xs
  {
  }

  /** A loop over `a + b` that raises in neither part collects the values of `a`, then those of `b`. */
  lemma CollectThen<T, U>(a: seq<T>, b: seq<T>, f: T -> Result<U>, x: seq<U>, y: seq<U>)
    requires Collect(a, f) == Ok(x) && Collect(b, f) == Ok(y)
    ensures Collect(a + b, f) == Ok(x + y)
  {
    var ab := a + b;
    assert forall i :: 0 <= i < |ab| ==> f(ab[i]).Ok? by {
      forall i | 0 <= i < |ab| ensures f(ab[i]).Ok? {
        if i < |a| {
          assert ab[i] == a[i];
        } else {
          assert ab[i] == b[i - |a|];
        }
      }
    }
    var r := Collect(ab, f).value;
    var xy := x + y;
    assert |r| == |xy|;
    forall i | 0 <= i < |ab| ensures r[i] == xy[i] {
      if i < |a| {
        assert ab[i] == a[i] && xy[i] == x[i];
      } else {
        var k := i - |a|;
        assert ab[i] == b[k] && xy[i] == y[k];
      }
    }
    assert r == xy;
  }

  /** A loop over `a + b` that gets through `a` raises what the loop over `b` raises. */
  lemma CollectErrAfter<T, U>(a: seq<T>, b: seq<T>, f: T -> Result<U>)
    requires Collect(a, f).Ok? && Collect(b, f).Err?
    ensures Collect(a + b, f) == Collect(b, f)
  {
    var ab := a + b;
    var j :| 0 <= j < |b| && f(b[j]) == Err(Collect(b, f).error) && forall k :: 0 <= k < j ==> f(b[k]).Ok?;
    assert ab[|a| + j] == b[j];
    forall k | 0 <= k < |a| + j ensures f(ab[k]).Ok? {
      if k < |a| {
        assert ab[k] == a[k];
      } else {
        assert ab[k] == b[k - |a|];
      }
    }
    FirstFailure(ab, f, |a| + j);
  }

  /** The error of a pass is the error of the first item that fails. */
  lemma FirstFailure<T, U>(xs: seq<T>, f: T -> Result<U>, i: nat)
    requires i < |xs| && f(xs[i]).Err? && forall k :: 0 <= k < i ==> f(xs[k]).Ok?
    ensures Collect(xs, f) == Err(f(xs[i]).error)
  {
    var r := Collect(xs, f);
    assert r.Err?;
    var n :| 0 <= n < |xs| && f(xs[n]) == Err(r.error) && forall k :: 0 <= k < n ==> f(xs[k]).Ok?;
    if n < i {
      assert false;
    } else if n > i {
      assert false;
    }
  }

  /** Moving one element from the unseen part of a set to the seen part keeps the two a partition of it. */
  lemma MoveOne<T>(done: set<T>, rest: set<T>, whole: set<T>, x: T)
    requires done + rest == whole && done !! rest && x in rest
    ensures (done + {x}) + (rest - {x}) == whole && (done + {x}) !! (rest - {x}) && x !in done
  {
  }
}
