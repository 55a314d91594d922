/**
 * The tag count of `get_tags` in waliki/wiki.py, over the segment sets of the pages:
 * which tags it reports and how often each page is listed under each of them.
 */
module Tagging {
  import opened Base
  import opened Text
  import opened Passes

  /** `set(t.split(','))` */
  function SegmentSet(t: string): set<string> {
    set s | s in Split(t, ',')
  }

  /** How many distinct raw segments of one page strip to `tag`: how often the page is listed under it. */
  function Hits(segs: set<string>, tag: string): nat {
    |Kept(segs, StripsTo(tag))|
  }

  function StripsTo(tag: string): string -> bool {
    (s: string) => Strip(s) == tag
  }

  /** The elements of `xs` that pass `keep`. */
  function Kept<T>(xs: set<T>, keep: T -> bool): set<T> {
    set x | x in xs && keep(x)
  }

  /** `n` copies of the position `i`. */
  function Copies(n: nat, i: nat): (r: seq<nat>)
    ensures |r| == n && forall p :: 0 <= p < n ==> r[p] == i
  {
    if n == 0 then [] else Copies(n - 1, i) + [i]
  }

  /** The positions, in index order, of the pages listed under `tag`, each as often as it hits the tag. */
  function Listed(sets: seq<set<string>>, tag: string): (r: seq<nat>)
    ensures forall p :: 0 <= p < |r| ==> r[p] < |sets|
  {
    if sets == [] then []
    else Listed(sets[..|sets| - 1], tag) + Copies(Hits(sets[|sets| - 1], tag), |sets| - 1)
  }

  /** One more page: its position is listed after all others, once per segment that hits the tag. */
  lemma ListedNext(sets: seq<set<string>>, x: set<string>, tag: string)
    ensures Listed(sets + [x], tag) == Listed(sets, tag) + Copies(Hits(x, tag), |sets|)
  {
    assert (sets + [x])[..|sets|] == sets;
  }

  /**
   * Midway through the segments of the page at position `n`: the positions listed under
   * `tag` once the segments `done` have been seen.
   */
  function Pending(sets: seq<set<string>>, done: set<string>, tag: string, n: nat): (r: seq<nat>)
    ensures forall p :: 0 <= p < |r| ==> r[p] < |sets| || r[p] == n
  {
    Listed(sets, tag) + Copies(Hits(done, tag), n)
  }

  lemma PendingStart(sets: seq<set<string>>, tag: string, n: nat)
    ensures Pending(sets, {}, tag, n) == Listed(sets, tag)
  {
    assert Kept({}, StripsTo(tag)) == {};
  }

  /** One more segment seen: the page is listed once more under the tag it strips to, and nowhere else. */
  lemma PendingAdd(sets: seq<set<string>>, done: set<string>, s: string, tag: string, n: nat)
    requires s !in done
    ensures Pending(sets, done + {s}, tag, n) ==
      if Strip(s) == tag then Pending(sets, done, tag, n) + [n] else Pending(sets, done, tag, n)
  {
    var l, c := Listed(sets, tag), Copies(Hits(done, tag), n);
    if Strip(s) == tag {
      assert Pending(sets, done + {s}, tag, n) == Pending(sets, done, tag, n) + [n] by {
        assert Hits(done + {s}, tag) == Hits(done, tag) + 1 by {
          HitsAdd(done, s, tag);
        }
        assert Copies(Hits(done, tag) + 1, n) == c + [n];
        AppendAssoc(l, c, [n]);
      }
    } else {
      assert Pending(sets, done + {s}, tag, n) == Pending(sets, done, tag, n) by {
        HitsAdd(done, s, tag);
      }
    }
  }

  lemma PendingDone(sets: seq<set<string>>, segs: set<string>, tag: string)
    ensures Pending(sets, segs, tag, |sets|) == Listed(sets + [segs], tag)
  {
    ListedNext(sets, segs, tag);
  }

  /** The stripped, non-empty segments of all pages. */
  function Tagged(sets: seq<set<string>>): set<string> {
    set i, s | 0 <= i < |sets| && s in sets[i] && Strip(s) != "" :: Strip(s)
  }

  /** `get_tags()` over pages with these segment sets: each tag with the positions of the pages listed under it. */
  function Tally(sets: seq<set<string>>): map<string, seq<nat>> {
    map t | t in Tagged(sets) :: Listed(sets, t)
  }

  lemma {:induction false} HitsPositive(segs: set<string>, tag: string)
    ensures Hits(segs, tag) > 0 <==> exists s :: s in segs && Strip(s) == tag
  {
    var hit := Kept(segs, StripsTo(tag));
    if exists s :: s in segs && Strip(s) == tag {
      var s :| s in segs && Strip(s) == tag;
      assert s in hit;
    } else {
      assert hit == {};
    }
  }

  lemma KeptAdd<T>(done: set<T>, x: T, keep: T -> bool)
    requires x !in done
    ensures |Kept(done + {x}, keep)| == |Kept(done, keep)| + if keep(x) then 1 else 0
  {
    if keep(x) {
      assert Kept(done + {x}, keep) == Kept(done, keep) + {x};
    } else {
      assert Kept(done + {x}, keep) == Kept(done, keep);
    }
  }

  /** A page listed under a tag is listed once per distinct raw segment: with one more segment, one more time. */
  lemma HitsAdd(done: set<string>, s: string, tag: string)
    requires s !in done
    ensures Hits(done + {s}, tag) == Hits(done, tag) + if Strip(s) == tag then 1 else 0
  {
    KeptAdd(done, s, StripsTo(tag));
  }

  /** A tag has a non-empty listing exactly when some segment of some page strips to it. */
  lemma {:induction false} ListedNonEmpty(sets: seq<set<string>>, tag: string)
    ensures Listed(sets, tag) != [] <==> exists i, s :: 0 <= i < |sets| && s in sets[i] && Strip(s) == tag
  {
    if sets != [] {
      var n := |sets| - 1;
      ListedNonEmpty(sets[..n], tag);
      HitsPositive(sets[n], tag);
      if exists i, s :: 0 <= i < |sets| && s in sets[i] && Strip(s) == tag {
        var i, s :| 0 <= i < |sets| && s in sets[i] && Strip(s) == tag;
        if i < n {
          assert sets[..n][i] == sets[i];
        }
      }
      if exists i, s :: 0 <= i < n && s in sets[..n][i] && Strip(s) == tag {
        var i, s :| 0 <= i < n && s in sets[..n][i] && Strip(s) == tag;
        assert sets[i] == sets[..n][i];
      }
    }
  }

  /**
   * The tags of `get_tags()` are exactly the non-empty stripped segments, and each one
   * lists at least one page.
   */
  lemma TallyKeys(sets: seq<set<string>>, tag: string)
    ensures tag in Tally(sets) <==> tag != "" && Listed(sets, tag) != []
  {
    ListedNonEmpty(sets, tag);
    if tag != "" && Listed(sets, tag) != [] {
      var i, s :| 0 <= i < |sets| && s in sets[i] && Strip(s) == tag;
      assert tag in Tagged(sets);
    }
  }

  lemma {:induction false} CopiesCount(n: nat, i: nat, j: nat)
    ensures multiset(Copies(n, i))[j] == if j == i then n else 0
  {
    if n > 0 {
      CopiesCount(n - 1, i, j);
      assert Copies(n, i) == Copies(n - 1, i) + [i];
    }
  }

  /**
   * Under each tag, a page is listed exactly as many times as it has distinct raw
   * segments that strip to the tag.
   */
  lemma {:induction false} ListedCount(sets: seq<set<string>>, tag: string, i: nat)
    requires i < |sets|
    ensures multiset(Listed(sets, tag))[i] == Hits(sets[i], tag)
  {
    var n := |sets| - 1;
    var front := sets[..n];
    var last := Copies(Hits(sets[n], tag), n);
    assert Listed(sets, tag) == Listed(front, tag) + last;
    CopiesCount(Hits(sets[n], tag), n, i);
    if i < n {
      ListedCount(front, tag, i);
      assert front[i] == sets[i];
    } else {
      assert n !in multiset(Listed(front, tag));
    }
  }

  /** The pages under each tag come in the order of the index. */
  lemma {:induction false} ListedAscending(sets: seq<set<string>>, tag: string)
    ensures forall p, q :: 0 <= p < q < |Listed(sets, tag)| ==> Listed(sets, tag)[p] <= Listed(sets, tag)[q]
  {
    if sets != [] {
      var n := |sets| - 1;
      var front := Listed(sets[..n], tag);
      ListedAscending(sets[..n], tag);
      var l := Listed(sets, tag);
      assert l == front + Copies(Hits(sets[n], tag), n);
      forall p, q | 0 <= p < q < |l| ensures l[p] <= l[q] {
        var c := Copies(Hits(sets[n], tag), n);
        if q < |front| {
          assert l[p] == front[p] && l[q] == front[q];
          assert front[p] <= front[q];
        } else if p < |front| {
          assert l[p] == front[p] && l[q] == c[q - |front|];
          assert front[p] < n;
          assert c[q - |front|] == n;
        } else {
          assert l[p] == c[p - |front|] && l[q] == c[q - |front|];
        }
      }
    }
  }

  /**
   * The tags of `get_tags()` are exactly the non-empty stripped segments; under each one
   * the pages come in index order, each as many times as it has distinct raw segments
   * that strip to the tag.
   */
  lemma TallyListing(sets: seq<set<string>>, tag: string)
    ensures tag in Tally(sets) <==> tag != "" && exists i, s :: 0 <= i < |sets| && s in sets[i] && Strip(s) == tag
    ensures tag in Tally(sets) ==>
      && Tally(sets)[tag] == Listed(sets, tag)
      && (forall i :: 0 <= i < |sets| ==> multiset(Listed(sets, tag))[i] == Hits(sets[i], tag))
      && (forall p, q :: 0 <= p < q < |Listed(sets, tag)| ==> Listed(sets, tag)[p] <= Listed(sets, tag)[q])
  {
    TallyKeys(sets, tag);
    ListedNonEmpty(sets, tag);
    ListedAscending(sets, tag);
    forall i | 0 <= i < |sets| ensures multiset(Listed(sets, tag))[i] == Hits(sets[i], tag) {
      ListedCount(sets, tag, i);
    }
  }

  /** Two comma-free segments joined by a comma split back into themselves. */
  lemma SplitTwo(x: string, y: string)
    requires ',' !in x && ',' !in y
    ensures Split(x + [','] + y, ',') == [x, y]
  {
    SplitPieceThen(x, ',', y);
    SplitPiece(y, ',');
  }

  /** Three comma-free segments joined by commas split back into themselves. */
  lemma SplitThree(x: string, y: string, z: string)
    requires ',' !in x && ',' !in y && ',' !in z
    ensures Split(x + [','] + y + [','] + z, ',') == [x, y, z]
  {
    assert x + [','] + y + [','] + z == x + [','] + (y + [','] + z);
    SplitPieceThen(x, ',', y + [','] + z);
    SplitTwo(y, z);
  }

  lemma KeptOne<T>(x: T, keep: T -> bool)
    requires keep(x)
    ensures |Kept({x}, keep)| == 1
  {
    assert Kept({x}, keep) == {x};
  }

  /** The tags text `a,a` lists its page once under `a`: its two segments are one element of the set. */
  lemma RepeatedSegmentOnce(tags: string)
    requires tags == "a,a"
    ensures Hits(SegmentSet(tags), "a") == 1
  {
    var c := tags[0];
    var x := [c];
    assert tags == x + [','] + x;
    SplitTwo(x, x);
    assert SegmentSet(tags) == {x};
    StripSpaced(c);
    KeptOne(x, StripsTo(x));
  }

  lemma KeptTwoOfThree<T>(x: T, y: T, z: T, keep: T -> bool)
    requires x != y && x != z && y != z
    requires keep(x) && !keep(y) && keep(z)
    ensures |Kept({x, y, z}, keep)| == 2
  {
    var hit := Kept({x, y, z}, keep);
    assert x in hit && y !in hit && z in hit;
    assert hit == {x, z};
  }

  /** Three distinct segments, two of which strip to `tag`, hit it twice. */
  lemma HitsTwoOfThree(segs: set<string>, x: string, y: string, z: string, tag: string)
    requires segs == {x, y, z} && x != y && x != z && y != z
    requires Strip(x) == tag && Strip(y) != tag && Strip(z) == tag
    ensures Hits(segs, tag) == 2
  {
    KeptTwoOfThree(x, y, z, StripsTo(tag));
  }

  /** Tags text `c, b, c` splits into `c`, ` b` and ` c`. */
  lemma SpacedSegments(tags: string, c: char, b: char)
    requires c != ',' && b != ','
    requires tags == [c, ',', ' ', b, ',', ' ', c]
    ensures SegmentSet(tags) == {[c], [' ', b], [' ', c]}
  {
    var x, y, z := [c], [' ', b], [' ', c];
    assert tags == x + [','] + y + [','] + z;
    SplitThree(x, y, z);
  }

  /** Tags text `c, b, c` for two letters `c` and `b`: `c` and ` c` are two segments that both strip to `c`. */
  lemma SpacedRepeat(tags: string, c: char, b: char)
    requires !IsSpace(c) && !IsSpace(b) && c != b && c != ',' && b != ','
    requires tags == [c, ',', ' ', b, ',', ' ', c]
    ensures Hits(SegmentSet(tags), [c]) == 2
  {
    var x, y, z := [c], [' ', b], [' ', c];
    assert x != y && x != z && y != z && [b] != x by {
      assert |x| == 1 && |y| == 2 && |z| == 2 && y[1] != z[1];
    }
    StripSpaced(c);
    StripSpaced(b);
    SpacedSegments(tags, c, b);
    HitsTwoOfThree(SegmentSet(tags), x, y, z, x);
  }

  /** The tags text `a, b, a` lists its page twice under `a`: `a` and ` a` are distinct segments that strip alike. */
  lemma SpacedSegmentTwice(tags: string)
    requires tags == "a, b, a"
    ensures Hits(SegmentSet(tags), "a") == 2
  {
    SpacedRepeat(tags, 'a', 'b');
  }
}
