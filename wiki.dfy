/**
 * `Wiki` of waliki/wiki.py: the page store rooted at one directory. It finds pages by
 * URL, moves and deletes their files, and walks the whole tree to list, tag and search
 * the pages.
 */
module Wikis {
  import opened Base
  import opened Text
  import opened Ordering
  import opened Store
  import opened Markup
  import opened Pages
  import opened Passes
  import opened Tagging

  /** `path(url)`: the file of the page `url` under `root`, the same path `move` builds. */
  function PagePath(root: string, kind: Kind, url: string): (p: string)
    ensures p == PathJoin(root, url) + Extension(kind)
    ensures EndsWith(p, Extension(kind))
  {
    PathJoinAppend(root, url, Extension(kind));
    PathJoin(root, url + Extension(kind))
  }

  // ---------------------------------------------------------------------------------------------
  // The walk of `index`

  /** A page file the walk comes across: the path it is opened from and the URL it is given. */
  datatype Spot = Spot(path: string, url: string)

  /** A text without a character holds no occurrence of it. */
  lemma Absent(s: string, c: char)
    requires c !in s
    ensures !Contains(s, [c])
  {
    forall j: nat ensures !OccursAt(s, [c], j) {
      if j + 1 <= |s| {
        assert s[j..j + 1] == [s[j]];
      }
    }
  }

  /** `os.path.join(dir, name)` ends with whatever `name` ends with. */
  lemma JoinEndsWith(dir: string, name: string, suffix: string)
    requires EndsWith(name, suffix)
    ensures EndsWith(PathJoin(dir, name), suffix)
  {
    var j := PathJoin(dir, name);
    if !(|name| > 0 && name[0] == '/') {
      var pre := if dir == [] || dir[|dir| - 1] == '/' then dir else dir + "/";
      assert j == pre + name;
      assert j[|j| - |suffix|..] == name[|name| - |suffix|..];
    }
  }

  /**
   * The URL of a page file met under the directories `prefix`: the name without its
   * extension, at top level alone and otherwise joined under the FIRST directory of the
   * prefix only, then with every backslash turned into a slash.
   */
  function UrlOf(kind: Kind, prefix: seq<string>, name: string): (url: string)
    requires EndsWith(name, Extension(kind))
    ensures '\\' !in url
  {
    var stem := name[..|name| - |Extension(kind)|];
    var joined := if prefix == [] then stem else PathJoin(prefix[0], stem);
    ReplaceClears(joined, '\\', "/");
    Replace(joined, "\\", "/")
  }

  /** At top level the URL is the file name without its extension. */
  lemma TopLevelUrl(kind: Kind, name: string)
    requires EndsWith(name, Extension(kind)) && '\\' !in name
    ensures UrlOf(kind, [], name) + Extension(kind) == name
  {
    var stem := name[..|name| - |Extension(kind)|];
    assert '\\' !in stem by {
      assert forall i :: 0 <= i < |stem| ==> stem[i] == name[i];
    }
    Absent(stem, '\\');
    ReplaceAbsent(stem, "\\", "/");
    assert stem + Extension(kind) == name;
  }

  /**
   * At any depth the URL is the first directory, a slash and the file name without its
   * extension: the directories in between are dropped.
   */
  lemma NestedUrl(kind: Kind, prefix: seq<string>, name: string)
    requires EndsWith(name, Extension(kind)) && '\\' !in name && '/' !in name
    requires prefix != [] && ValidName(prefix[0]) && '\\' !in prefix[0]
    ensures UrlOf(kind, prefix, name) + Extension(kind) == prefix[0] + "/" + name
  {
    var stem := name[..|name| - |Extension(kind)|];
    assert stem + Extension(kind) == name;
    assert '\\' !in stem && '/' !in stem by {
      assert forall i :: 0 <= i < |stem| ==> stem[i] == name[i];
    }
    var joined := prefix[0] + "/" + stem;
    JoinPlain(prefix[0], stem);
    Absent(joined, '\\');
    ReplaceAbsent(joined, "\\", "/");
  }

  /**
   * Two page files in different directories under the same first directory get the same URL:
   * `a/x/p` and `a/y/p` both become `a/p`, so `index()` can hold two pages with one URL.
   */
  lemma SharedUrl(kind: Kind)
    ensures var name := "p" + Extension(kind);
      UrlOf(kind, ["a", "x"], name) == UrlOf(kind, ["a", "y"], name) == "a/p"
  {
    var name := "p" + Extension(kind);
    var ext := Extension(kind);
    assert EndsWith(name, ext) by {
      assert name[|name| - |ext|..] == ext;
    }
    assert '\\' !in name && '/' !in name by {
      assert forall i :: 0 <= i < |name| ==> name[i] == 'p' || name[i] in ext;
    }
    NestedUrl(kind, ["a", "x"], name);
    NestedUrl(kind, ["a", "y"], name);
    UrlCancel(UrlOf(kind, ["a", "x"], name), ext);
    UrlCancel(UrlOf(kind, ["a", "y"], name), ext);
  }

  lemma UrlCancel(u: string, ext: string)
    requires u + ext == "a/" + ("p" + ext)
    ensures u == "a/p"
  {
    assert "a/" + ("p" + ext) == "a/p" + ext;
    assert |u| == 3;
    assert u == (u + ext)[..3];
  }

  /** Joining two plain names puts one slash between them, and no backslash appears. */
  lemma JoinPlain(a: string, b: string)
    requires ValidName(a) && '/' !in b && '\\' !in a && '\\' !in b
    ensures PathJoin(a, b) == a + "/" + b && '\\' !in a + "/" + b
  {
    assert a[|a| - 1] in a;
    if |b| > 0 {
      assert b[0] in b;
    }
    var j := a + "/" + b;
    assert forall i :: 0 <= i < |j| ==> j[i] in a || j[i] == '/' || j[i] in b;
  }

  /**
   * The page files `_walk(dir, prefix)` meets in a listing, in listing order: every file
   * whose name ends with the extension, and, in place of each directory, what the walk
   * of that directory meets.
   */
  function Found(kind: Kind, es: seq<Entry>, dir: string, prefix: seq<string>): (spots: seq<Spot>)
    ensures forall i :: 0 <= i < |spots| ==> '\\' !in spots[i].url && EndsWith(spots[i].path, Extension(kind))
    decreases es
  {
    if es == [] then []
    else
      var e := es[|es| - 1];
      var full := PathJoin(dir, e.name);
      Found(kind, es[..|es| - 1], dir, prefix) +
      match e
      case Dir(n, sub) => Found(kind, sub, full, prefix + [n])
      case File(n, _) =>
        if EndsWith(n, Extension(kind)) then
          JoinEndsWith(dir, n, Extension(kind));
          [Spot(full, UrlOf(kind, prefix, n))]
        else []
  }

  /** `Page(spot.path, spot.url, markup=kind)` for each page file the walk meets. */
  function Opening(kind: Kind, env: Env, tree: seq<Entry>): Spot -> Result<Snapshot> {
    (s: Spot) => Opened(kind, env, tree, s.path, s.url)
  }

  /** The pages `_walk(root)` collects, or the first exception listing the root or opening a page raises. */
  function Walked(kind: Kind, env: Env, tree: seq<Entry>, root: string): Result<seq<Snapshot>> {
    match ListDir(tree, root)
    case Err(e) => Err(e)
    case Ok(es) => Collect(Found(kind, es, root, []), Opening(kind, env, tree))
  }

  /** `page.title.lower()`: KeyError without a title, AttributeError for a title that is a list. */
  function TitleKey(env: Env, meta: Meta): Result<string> {
    match Title(meta)
    case Err(e) => Err(e)
    case Ok(Scalar(t)) => Ok(env.lower(t))
    case Ok(Values(_)) => Err(AttributeError)
  }

  function TitleOf(env: Env): Snapshot -> Result<string> {
    (s: Snapshot) => TitleKey(env, s.meta)
  }

  /** What the walk meets at one entry of a listing: the page file itself, or what it meets inside the directory. */
  function FoundOne(kind: Kind, e: Entry, dir: string, prefix: seq<string>): seq<Spot> {
    match e
    case Dir(n, sub) => Found(kind, sub, PathJoin(dir, n), prefix + [n])
    case File(n, _) =>
      if EndsWith(n, Extension(kind)) then [Spot(PathJoin(dir, n), UrlOf(kind, prefix, n))] else []
  }

  lemma FoundStep(kind: Kind, es: seq<Entry>, dir: string, prefix: seq<string>)
    requires es != []
    ensures Found(kind, es, dir, prefix) == Found(kind, es[..|es| - 1], dir, prefix) + FoundOne(kind, es[|es| - 1], dir, prefix)
  {
  }

  /** The walk of the first `i + 1` entries: that of the first `i`, then what entry `i` holds. */
  lemma FoundNext(kind: Kind, es: seq<Entry>, i: nat, dir: string, prefix: seq<string>)
    requires i < |es|
    ensures Found(kind, es[..i + 1], dir, prefix) == Found(kind, es[..i], dir, prefix) + FoundOne(kind, es[i], dir, prefix)
  {
    assert es[..i + 1][..i] == es[..i] && es[..i + 1][i] == es[i];
    FoundStep(kind, es[..i + 1], dir, prefix);
  }

  /** The walk of two listings one after the other meets what the walk of each meets, in turn. */
  lemma {:induction false} FoundAppend(kind: Kind, a: seq<Entry>, b: seq<Entry>, dir: string, prefix: seq<string>)
    ensures Found(kind, a + b, dir, prefix) == Found(kind, a, dir, prefix) + Found(kind, b, dir, prefix)
    decreases |b|
  {
    if b == [] {
      assert a + b == a;
    } else {
      var front, last := b[..|b| - 1], b[|b| - 1];
      var c := a + b;
      assert c[..|c| - 1] == a + front && c[|c| - 1] == last;
      var x, y, z := Found(kind, a, dir, prefix), Found(kind, front, dir, prefix), FoundOne(kind, last, dir, prefix);
      assert Found(kind, c, dir, prefix) == Found(kind, a + front, dir, prefix) + z by {
        FoundStep(kind, c, dir, prefix);
      }
      assert Found(kind, b, dir, prefix) == y + z by {
        FoundStep(kind, b, dir, prefix);
      }
      assert Found(kind, a + front, dir, prefix) == x + y by {
        FoundAppend(kind, a, front, dir, prefix);
      }
      AppendAssoc(x, y, z);
    }
  }

  /** Once opening a page met in the first `n` entries raises, the whole walk raises the same exception. */
  lemma FoundPrefixErr(kind: Kind, es: seq<Entry>, n: nat, dir: string, prefix: seq<string>, f: Spot -> Result<Snapshot>)
    requires n <= |es| && Collect(Found(kind, es[..n], dir, prefix), f).Err?
    ensures Collect(Found(kind, es, dir, prefix), f) == Collect(Found(kind, es[..n], dir, prefix), f)
  {
    var x, y := Found(kind, es[..n], dir, prefix), Found(kind, es[n..], dir, prefix);
    assert Found(kind, es, dir, prefix) == x + y by {
      SplitAt(es, n);
      FoundAppend(kind, es[..n], es[n..], dir, prefix);
    }
    CollectErrThen(x, y, f);
  }

  /** `sorted(pages, key=lambda x: x.title.lower())`: every key is computed first, in list order. */
  function ByTitle(env: Env, snaps: seq<Snapshot>): Result<seq<Snapshot>> {
    match Collect(snaps, TitleOf(env))
    case Err(e) => Err(e)
    case Ok(keys) => Ok(SortByKeys(snaps, keys))
  }

  /** `index()`: the walked pages sorted by their lower-cased titles. */
  function Indexed(kind: Kind, env: Env, tree: seq<Entry>, root: string): Result<seq<Snapshot>> {
    match Walked(kind, env, tree, root)
    case Err(e) => Err(e)
    case Ok(snaps) => ByTitle(env, snaps)
  }

  /** Every page has a string title, and the lower-cased titles never decrease. */
  predicate TitleOrdered(env: Env, snaps: seq<Snapshot>) {
    && (forall i :: 0 <= i < |snaps| ==> TitleKey(env, snaps[i].meta).Ok?)
    && (forall p, q :: 0 <= p < q < |snaps| ==>
          Below(TitleKey(env, snaps[p].meta).value, TitleKey(env, snaps[q].meta).value))
  }

  /** Sorting by title succeeds exactly when every title can be lower-cased, and leaves the titles in order. */
  lemma ByTitleOrdered(env: Env, snaps: seq<Snapshot>)
    requires ByTitle(env, snaps).Ok?
    ensures TitleOrdered(env, ByTitle(env, snaps).value)
    ensures multiset(ByTitle(env, snaps).value) == multiset(snaps)
  {
    var keys := Collect(snaps, TitleOf(env)).value;
    var order := SortedOrder(keys);
    var v := ByTitle(env, snaps).value;
    forall p | 0 <= p < |v| ensures TitleKey(env, v[p].meta) == Ok(keys[order[p]]) {
      assert TitleOf(env)(snaps[order[p]]) == TitleKey(env, v[p].meta);
    }
    forall p, q | 0 <= p < q < |v|
      ensures Below(TitleKey(env, v[p].meta).value, TitleKey(env, v[q].meta).value)
    {
      assert Precedes(keys, order[p], order[q]);
    }
    SortByKeysPermutes(snaps, keys);
  }

  /** `index()` lists the walked pages, each once, in non-decreasing order of lower-cased title. */
  lemma IndexSorted(kind: Kind, env: Env, tree: seq<Entry>, root: string)
    requires Indexed(kind, env, tree, root).Ok?
    ensures TitleOrdered(env, Indexed(kind, env, tree, root).value)
    ensures multiset(Indexed(kind, env, tree, root).value) == multiset(Walked(kind, env, tree, root).value)
  {
    ByTitleOrdered(env, Walked(kind, env, tree, root).value);
  }

  /** `s` is the page file at `s.path` loaded and rendered, for the URL `s.url`. */
  predicate FromFile(kind: Kind, env: Env, tree: seq<Entry>, s: Snapshot) {
    && EndsWith(s.path, Extension(kind)) && '\\' !in s.url
    && Opened(kind, env, tree, s.path, s.url) == Ok(s)
  }

  /** Every page the walk opens comes from a page file it met. */
  lemma WalkedPages(kind: Kind, env: Env, tree: seq<Entry>, root: string)
    requires Walked(kind, env, tree, root).Ok?
    ensures var snaps := Walked(kind, env, tree, root).value;
      forall j :: 0 <= j < |snaps| ==> FromFile(kind, env, tree, snaps[j])
  {
    var spots := Found(kind, ListDir(tree, root).value, root, []);
    var snaps := Walked(kind, env, tree, root).value;
    forall j | 0 <= j < |snaps| ensures FromFile(kind, env, tree, snaps[j]) {
      assert Opening(kind, env, tree)(spots[j]) == Ok(snaps[j]);
    }
  }

  lemma SameFromFile(kind: Kind, env: Env, tree: seq<Entry>, snaps: seq<Snapshot>, v: seq<Snapshot>)
    requires multiset(v) == multiset(snaps)
    requires forall j :: 0 <= j < |snaps| ==> FromFile(kind, env, tree, snaps[j])
    ensures forall i :: 0 <= i < |v| ==> FromFile(kind, env, tree, v[i])
  {
    forall i | 0 <= i < |v| ensures FromFile(kind, env, tree, v[i]) {
      assert v[i] in multiset(snaps);
      var j :| 0 <= j < |snaps| && snaps[j] == v[i];
    }
  }

  /**
   * Every page `index()` lists was opened from a page file the walk met: its path ends with
   * the extension, its URL holds no backslash, and it is that file loaded and rendered.
   */
  lemma IndexPages(kind: Kind, env: Env, tree: seq<Entry>, root: string)
    requires Indexed(kind, env, tree, root).Ok?
    ensures var v := Indexed(kind, env, tree, root).value;
      forall i :: 0 <= i < |v| ==> FromFile(kind, env, tree, v[i])
  {
    IndexSorted(kind, env, tree, root);
    WalkedPages(kind, env, tree, root);
    SameFromFile(kind, env, tree, Walked(kind, env, tree, root).value, Indexed(kind, env, tree, root).value);
  }

  // ---------------------------------------------------------------------------------------------
  // `get_tags`

  /** `set(page.tags.split(','))`: KeyError without tags, AttributeError for tags that are a list. */
  function Segments(meta: Meta): Result<set<string>> {
    match Tags(meta)
    case Err(e) => Err(e)
    case Ok(Scalar(t)) => Ok(SegmentSet(t))
    case Ok(Values(_)) => Err(AttributeError)
  }

  function SegmentsOf(): Snapshot -> Result<set<string>> {
    (s: Snapshot) => Segments(s.meta)
  }

  /**
   * `get_tags()` over the pages of the index: KeyError or AttributeError from the first
   * page whose tags are missing or a list, otherwise each tag with the pages listed under it.
   */
  function TagMap(snaps: seq<Snapshot>): Result<map<string, seq<Snapshot>>> {
    match Collect(snaps, SegmentsOf())
    case Err(e) => Err(e)
    case Ok(sets) => Ok(map t | t in Tally(sets) :: Permute(snaps, Listed(sets, t)))
  }

  /**
   * The tags `get_tags()` reports are exactly the non-empty stripped segments of the pages,
   * and under each one it lists, in index order, every page with such a segment, as many
   * times as the page has distinct raw segments that strip to it.
   */
  lemma TagMapListing(snaps: seq<Snapshot>, tag: string)
    requires TagMap(snaps).Ok?
    ensures var sets := Collect(snaps, SegmentsOf()).value;
      && (tag in TagMap(snaps).value <==>
            tag != "" && exists i, s :: 0 <= i < |sets| && s in sets[i] && Strip(s) == tag)
      && (tag in TagMap(snaps).value ==>
            && TagMap(snaps).value[tag] == Permute(snaps, Listed(sets, tag))
            && (forall i :: 0 <= i < |snaps| ==> multiset(Listed(sets, tag))[i] == Hits(sets[i], tag))
            && (forall p, q :: 0 <= p < q < |Listed(sets, tag)| ==> Listed(sets, tag)[p] <= Listed(sets, tag)[q]))
  {
    var sets := Collect(snaps, SegmentsOf()).value;
    TallyListing(sets, tag);
    var m := TagMap(snaps).value;
    assert m == map t | t in Tally(sets) :: Permute(snaps, Listed(sets, t));
    assert tag in m <==> tag in Tally(sets);
    SegmentsOfPages(snaps);
    assert |sets| == |snaps|;
  }

  /** The segment sets of the pages, one per page, when none of them raises. */
  lemma SegmentsOfPages(snaps: seq<Snapshot>)
    requires Collect(snaps, SegmentsOf()).Ok?
    ensures var sets := Collect(snaps, SegmentsOf()).value;
      forall i :: 0 <= i < |snaps| ==> Segments(snaps[i].meta) == Ok(sets[i])
  {
    var sets := Collect(snaps, SegmentsOf()).value;
    forall i | 0 <= i < |snaps| ensures Segments(snaps[i].meta) == Ok(sets[i]) {
      assert SegmentsOf()(snaps[i]) == Segments(snaps[i].meta);
    }
  }

  /**
   * Midway through the segments `done` of the page at position `n`: the tags with a
   * non-empty listing are the keys, and each lists the items at its pending positions.
   */
  ghost predicate ListsPending<T>(m: map<string, seq<T>>, items: seq<T>, sets: seq<set<string>>, done: set<string>, n: nat)
    requires |sets| == n < |items|
  {
    forall t :: ListsAt(m, items, sets, done, n, t)
  }

  /** `ListsPending` for the one key `t`. */
  ghost predicate ListsAt<T>(m: map<string, seq<T>>, items: seq<T>, sets: seq<set<string>>, done: set<string>, n: nat, t: string)
    requires |sets| == n < |items|
  {
    && (t in m <==> t != "" && Pending(sets, done, t, n) != [])
    && (t in m ==> m[t] == Permute(items, Pending(sets, done, t, n)))
  }

  /** Before the first segment of the page at position `n`, the pending listing is the listing of the pages before it. */
  lemma PendingBegin<T>(m: map<string, seq<T>>, items: seq<T>, sets: seq<set<string>>, n: nat)
    requires |sets| == n < |items|
    requires forall t :: t in m <==> t != "" && Listed(sets, t) != []
    requires forall t :: t in m ==> m[t] == Permute(items, Listed(sets, t))
    ensures ListsPending(m, items, sets, {}, n)
  {
    forall t ensures ListsAt(m, items, sets, {}, n, t) {
      PendingStart(sets, t, n);
    }
  }

  /** After the last segment of the page at position `n`, the pending listing is the listing including that page. */
  lemma PendingEnd<T>(m: map<string, seq<T>>, items: seq<T>, sets: seq<set<string>>, segs: set<string>, n: nat)
    requires |sets| == n < |items|
    requires ListsPending(m, items, sets, segs, n)
    ensures forall t :: t in m <==> t != "" && Listed(sets + [segs], t) != []
    ensures forall t :: t in m ==> m[t] == Permute(items, Listed(sets + [segs], t))
  {
    forall t
      ensures t in m <==> t != "" && Listed(sets + [segs], t) != []
      ensures t in m ==> m[t] == Permute(items, Listed(sets + [segs], t))
    {
      assert ListsAt(m, items, sets, segs, n, t);
      PendingDone(sets, segs, t);
    }
  }

  /**
   * One segment `s` of the page `items[n]` in the inner loop of `get_tags`: a blank
   * segment changes nothing; otherwise the page joins the tag `s` strips to, at the end of
   * its list or as the first entry of a new one.
   */
  lemma TagStep<T>(m: map<string, seq<T>>, items: seq<T>, sets: seq<set<string>>, done: set<string>, n: nat, s: string)
    requires |sets| == n < |items| && s !in done
    requires ListsPending(m, items, sets, done, n)
    ensures var tag := Strip(s);
      ListsPending(
        if tag == "" then m
        else if tag in m && m[tag] != [] then m[tag := m[tag] + [items[n]]]
        else m[tag := [items[n]]],
        items, sets, done + {s}, n)
  {
    var tag := Strip(s);
    var out :=
      if tag == "" then m
      else if tag in m && m[tag] != [] then m[tag := m[tag] + [items[n]]]
      else m[tag := [items[n]]];
    forall t
      ensures ListsAt(out, items, sets, done + {s}, n, t)
    {
      assert ListsAt(m, items, sets, done, n, t);
      PendingAdd(sets, done, s, t, n);
      FileOne(m, items, n, tag, t, Pending(sets, done, t, n), Pending(sets, done + {s}, t, n));
    }
  }

  /**
   * The three-way update of `get_tags` seen from one key `t`: when `m` lists at `t` the
   * items at positions `before`, the updated dictionary lists there the items at `after`,
   * which gains `n` exactly when the page is filed under `t`.
   */
  lemma FileOne<T>(m: map<string, seq<T>>, items: seq<T>, n: nat, tag: string, t: string, before: seq<nat>, after: seq<nat>)
    requires n < |items| && forall p :: 0 <= p < |before| ==> before[p] < |items|
    requires after == if tag == t then before + [n] else before
    requires t in m <==> t != "" && before != []
    requires t in m ==> m[t] == Permute(items, before)
    ensures var out :=
        if tag == "" then m
        else if tag in m && m[tag] != [] then m[tag := m[tag] + [items[n]]]
        else m[tag := [items[n]]];
      && (t in out <==> t != "" && after != [])
      && (t in out ==> out[t] == Permute(items, after))
  {
    if t == tag && tag != "" {
      PermuteSnoc(items, before, n);
      if !(tag in m && m[tag] != []) {
        assert before == [];
        assert before + [n] == [n];
      }
    }
  }

  // ---------------------------------------------------------------------------------------------
  // `index_by_tag` and `search`

  /** `tag in page.tags`: a substring test on a string, a membership test on a list, KeyError without tags. */
  function HasTag(tag: string, meta: Meta): Result<bool> {
    match Tags(meta)
    case Err(e) => Err(e)
    case Ok(Scalar(t)) => Ok(Contains(t, tag))
    case Ok(Values(xs)) => Ok(tag in xs)
  }

  function HasTagOf(tag: string): Snapshot -> Result<bool> {
    (s: Snapshot) => HasTag(tag, s.meta)
  }

  /** `index_by_tag(tag)` over the pages of the index: the tagged ones, sorted by title. */
  function ByTag(env: Env, tag: string, snaps: seq<Snapshot>): Result<seq<Snapshot>> {
    match Select(snaps, HasTagOf(tag))
    case Err(e) => Err(e)
    case Ok(kept) => ByTitle(env, kept)
  }

  /** The pages of a subsequence keep the order of the titles. */
  lemma {:induction false} OrderedSubsequence(env: Env, a: seq<Snapshot>, b: seq<Snapshot>)
    requires Subsequence(a, b) && TitleOrdered(env, b)
    ensures TitleOrdered(env, a)
    decreases |b|
  {
    SubsequenceMembers(a, b);
    if a != [] {
      var front := b[..|b| - 1];
      assert TitleOrdered(env, front) by {
        forall i | 0 <= i < |front| ensures front[i] == b[i] { }
      }
      if a[|a| - 1] == b[|b| - 1] && Subsequence(a[..|a| - 1], front) {
        var head := a[..|a| - 1];
        OrderedSubsequence(env, head, front);
        SubsequenceMembers(head, front);
        forall p, q | 0 <= p < q < |a|
          ensures Below(TitleKey(env, a[p].meta).value, TitleKey(env, a[q].meta).value)
        {
          assert a[p] == head[p];
          if q < |a| - 1 {
            assert a[q] == head[q];
          } else {
            assert a[p] in front;
            var j :| 0 <= j < |front| && front[j] == a[p];
            assert b[j] == a[p];
          }
        }
      } else {
        OrderedSubsequence(env, a, front);
      }
    }
  }

  /**
   * Over the pages of the index, `index_by_tag(tag)` is exactly the tagged pages in index
   * order: they come already sorted by title, and a stable sort leaves them as they are.
   */
  lemma ByTagKeepsIndexOrder(kind: Kind, env: Env, tree: seq<Entry>, root: string, tag: string)
    requires Indexed(kind, env, tree, root).Ok?
    ensures ByTag(env, tag, Indexed(kind, env, tree, root).value) == Select(Indexed(kind, env, tree, root).value, HasTagOf(tag))
  {
    var v := Indexed(kind, env, tree, root).value;
    IndexSorted(kind, env, tree, root);
    var sel := Select(v, HasTagOf(tag));
    if sel.Ok? {
      var kept := sel.value;
      SelectExactly(v, HasTagOf(tag));
      OrderedSubsequence(env, kept, v);
      var keys := Collect(kept, TitleOf(env)).value;
      forall i | 0 <= i < |kept| ensures keys[i] == TitleKey(env, kept[i].meta).value {
        assert TitleOf(env)(kept[i]) == TitleKey(env, kept[i].meta);
      }
      SortByKeysOfSorted(kept, keys);
    }
  }

  /** `getattr(page, attr)` as the text `regex.search` is given, or the exception on the way. */
  function AttrText(s: Snapshot, attr: string): Result<string> {
    if attr == "title" || attr == "tags" then
      match Item(s.meta, attr)
      case Err(e) => Err(e)
      case Ok(Scalar(t)) => Ok(t)
      case Ok(Values(_)) => Err(TypeError)
    else if attr == "body" then
      (match s.body case Some(b) => Ok(b) case None => Err(AttributeError))
    else if attr == "html" || attr == "_html" then
      (match s.html case Some(h) => Ok(h) case None => Err(AttributeError))
    else if attr == "url" then Ok(s.url)
    else if attr == "path" then Ok(s.path)
    else if attr in NotText then Err(TypeError)
    else Err(AttributeError)
  }

  /**
   * Attributes of a page that exist but are not strings, so `regex.search` raises TypeError:
   * the metadata dictionary, the markup object and class, the methods of `Page`, and the
   * instance dictionary, class, absent docstring and weak-reference slot every such object has.
   */
  const NotText: set<string> := {
    "meta", "_meta", "content", "markup",
    "load", "render", "save", "__html__", "delete_cache",
    "__init__", "__repr__", "__getitem__", "__setitem__",
    "__dict__", "__class__", "__doc__", "__weakref__"}

  /**
   * The inner loop of `search` for one page: the attributes in order until one matches
   * (then `break`) or one raises. A page matches exactly when some attribute's text does,
   * and only an exception on the way can tell two orders of the attributes apart.
   */
  function Matched(env: Env, term: string, attrs: seq<string>, s: Snapshot): (r: Result<bool>)
    ensures r == Ok(true) ==> exists i :: 0 <= i < |attrs| && AttrText(s, attrs[i]).Ok? && env.searches(term, AttrText(s, attrs[i]).value)
    ensures r == Ok(false) ==> forall i :: 0 <= i < |attrs| ==> AttrText(s, attrs[i]).Ok? && !env.searches(term, AttrText(s, attrs[i]).value)
    ensures (forall i :: 0 <= i < |attrs| ==> AttrText(s, attrs[i]).Ok?) ==> r.Ok?
  {
    if attrs == [] then Ok(false)
    else
      match AttrText(s, attrs[0])
      case Err(e) => Err(e)
      case Ok(t) =>
        if env.searches(term, t) then Ok(true)
        else
          var r := Matched(env, term, attrs[1..], s);
          assert forall i :: 1 <= i < |attrs| ==> attrs[i] == attrs[1..][i - 1];
          r
  }

  function MatchOf(env: Env, term: string, attrs: seq<string>): Snapshot -> Result<bool> {
    (s: Snapshot) => Matched(env, term, attrs, s)
  }

  /** The text of `attr` is readable and matches. */
  predicate Hit(env: Env, term: string, s: Snapshot, attr: string) {
    AttrText(s, attr).Ok? && env.searches(term, AttrText(s, attr).value)
  }

  lemma MatchedHit(env: Env, term: string, attrs: seq<string>, s: Snapshot, x: string)
    requires forall i :: 0 <= i < |attrs| ==> AttrText(s, attrs[i]).Ok?
    requires x in attrs && Hit(env, term, s, x)
    ensures Matched(env, term, attrs, s) == Ok(true)
  {
    var j :| 0 <= j < |attrs| && attrs[j] == x;
  }

  lemma MatchedMiss(env: Env, term: string, attrs: seq<string>, s: Snapshot)
    requires forall i :: 0 <= i < |attrs| ==> AttrText(s, attrs[i]).Ok? && !Hit(env, term, s, attrs[i])
    ensures Matched(env, term, attrs, s) == Ok(false)
  {
  }

  /** With every attribute readable, the order in which `search` tries them does not change its answer. */
  lemma MatchedAnyOrder(env: Env, term: string, a: seq<string>, b: seq<string>, s: Snapshot)
    requires forall x :: x in a <==> x in b
    requires forall i :: 0 <= i < |a| ==> AttrText(s, a[i]).Ok?
    ensures Matched(env, term, a, s) == Matched(env, term, b, s)
  {
    forall i | 0 <= i < |b| ensures AttrText(s, b[i]).Ok? {
      var x := b[i];
      assert x in a;
      var j :| 0 <= j < |a| && a[j] == x;
    }
    if x :| x in a && Hit(env, term, s, x) {
      MatchedHit(env, term, a, s, x);
      MatchedHit(env, term, b, s, x);
    } else {
      forall i | 0 <= i < |b| ensures !Hit(env, term, s, b[i]) {
        assert b[i] in a;
      }
      MatchedMiss(env, term, a, s);
      MatchedMiss(env, term, b, s);
    }
  }

  /** `search(term, attrs)` over the index: PatternError for a term that does not compile, else the matching pages. */
  function Searched(env: Env, term: string, attrs: seq<string>, snaps: seq<Snapshot>): Result<seq<Snapshot>> {
    if !env.compiles(term) then Err(PatternError) else Select(snaps, MatchOf(env, term, attrs))
  }

  // ---------------------------------------------------------------------------------------------
  // The wiki object

  /** The attributes `search` looks in when it is given none. */
  const SearchAttrs: seq<string> := ["title", "tags", "body"]

  class Wiki {
    const root: string
    const kind: Kind
    const env: Env
    const fs: FileSystem

    /** `Wiki(root, markup=kind)` over the disk `fs`. */
    constructor (root: string, kind: Kind, env: Env, fs: FileSystem)
      ensures this.root == root && this.kind == kind && this.env == env && this.fs == fs
    {
      this.root := root;
      this.kind := kind;
      this.env := env;
      this.fs := fs;
    }

    /** `exists(url)`: something, a file or a directory, is at the path of the page. */
    predicate Has(url: string)
      reads fs
    {
      Store.Exists(fs.tree, PagePath(root, kind, url))
    }

    /** The page objects `ps` hold the states `snaps`, one for one, and belong to this wiki. */
    ghost predicate Holds(ps: seq<Page>, snaps: seq<Snapshot>)
      reads ps
    {
      && |ps| == |snaps|
      && forall i :: 0 <= i < |ps| ==>
           ps[i].View() == snaps[i] && ps[i].kind == kind && ps[i].env == env && ps[i].fs == fs
    }

    lemma HoldsAppend(ps: seq<Page>, snaps: seq<Snapshot>, qs: seq<Page>, more: seq<Snapshot>)
      requires Holds(ps, snaps) && Holds(qs, more)
      ensures Holds(ps + qs, snaps + more)
    {
      forall i | 0 <= i < |ps + qs|
        ensures (ps + qs)[i].View() == (snaps + more)[i]
      {
        if i < |ps| {
          assert (ps + qs)[i] == ps[i] && (snaps + more)[i] == snaps[i];
        } else {
          assert (ps + qs)[i] == qs[i - |ps|] && (snaps + more)[i] == more[i - |ps|];
        }
      }
    }

    /** Keeping the page at position `i` of a matched listing extends a matched listing. */
    lemma HoldsKeep(ps: seq<Page>, snaps: seq<Snapshot>, i: nat, kept: seq<Page>, ks: seq<Snapshot>)
      requires Holds(ps, snaps) && i < |ps| && Holds(kept, ks)
      ensures Holds(kept + [ps[i]], ks + [snaps[i]])
    {
      HoldsAt(ps, snaps, i);
      HoldsAppend(kept, ks, [ps[i]], [snaps[i]]);
    }

    lemma HoldsAt(ps: seq<Page>, snaps: seq<Snapshot>, i: nat)
      requires Holds(ps, snaps) && i < |ps|
      ensures ps[i].View() == snaps[i] && ps[i].meta == snaps[i].meta && Holds([ps[i]], [snaps[i]])
    {
    }

    lemma HoldsPermute(ps: seq<Page>, snaps: seq<Snapshot>, order: seq<nat>)
      requires Holds(ps, snaps)
      requires forall p :: 0 <= p < |order| ==> order[p] < |ps|
      ensures Holds(Permute(ps, order), Permute(snaps, order))
    {
    }

    /** `get(url)`: no page when nothing is at its path; otherwise the page loaded and rendered from it. */
    method Get(url: string) returns (r: Result<Option<Page>>)
      ensures !Has(url) ==> r == Ok(None)
      ensures Has(url) ==>
        var v := Opened(kind, env, fs.tree, PagePath(root, kind, url), url);
        && (r.Ok? <==> v.Ok?)
        && (r.Err? ==> r.error == v.error)
        && (r.Ok? ==> r.value.Some? && fresh(r.value.value) && Holds([r.value.value], [v.value]))
    {
      var path := PathJoin(root, url + Extension(kind));
      if !Has(url) {
        return Ok(None);
      }
      var loaded := Page.Open(path, url, kind, env, fs);
      match loaded
      case Err(e) =>
        r := Err(e);
      case Ok(page) =>
        r := Ok(Some(page));
    }

    /** `get_or_404(url)`: the page, or `abort(404)` when there is none. */
    method GetOr404(url: string) returns (r: Result<Page>)
      ensures !Has(url) ==> r == Err(NotFound)
      ensures Has(url) ==>
        var v := Opened(kind, env, fs.tree, PagePath(root, kind, url), url);
        && (r.Ok? <==> v.Ok?)
        && (r.Err? ==> r.error == v.error)
        && (r.Ok? ==> fresh(r.value) && Holds([r.value], [v.value]))
    {
      var page := Get(url);
      if page.Err? {
        return Err(page.error);
      }
      if page.value.Some? {
        return Ok(page.value.value);
      }
      r := Err(NotFound);
    }

    /** `get_bare(url)`: a new, empty page at the path of `url`, or nothing when something is there already. */
    method GetBare(url: string) returns (r: Option<Page>)
      ensures Has(url) ==> r.None?
      ensures !Has(url) ==>
        && r.Some? && fresh(r.value)
        && Holds([r.value], [Snapshot(PagePath(root, kind, url), url, map[], None, None, None)])
    {
      var path := PagePath(root, kind, url);
      if Has(url) {
        return None;
      }
      var page := new Page.Bare(path, url, kind, env, fs);
      r := Some(page);
    }

    /**
     * `move(url, newurl)`: renames the page file. It fails when there is no page at `url`
     * or something already at `newurl`; moving a page file carries its text over and
     * leaves every other path as it was.
     */
    method Move(url: string, newurl: string) returns (o: Outcome)
      modifies fs
      ensures var moved := MoveEntry(old(fs.tree), PagePath(root, kind, url), PagePath(root, kind, newurl));
        && (o.Pass? <==> moved.Ok?)
        && (o.Pass? ==> fs.tree == moved.value)
        && (o.Fail? ==> o.error == OSError && fs.tree == old(fs.tree))
      ensures var src, dst := Parts(PagePath(root, kind, url)), Parts(PagePath(root, kind, newurl));
        o.Pass? <==>
          && old(Has(url)) && !old(Has(newurl)) && src != [] && dst != []
          && old(NodeAt(fs.tree, Parent(dst))) == DirNode && !IsPrefix(src, dst)
      ensures var src, dst := PagePath(root, kind, url), PagePath(root, kind, newurl);
        o.Pass? && old(Stat(fs.tree, src)).FileNode? ==>
          && Stat(fs.tree, dst) == old(Stat(fs.tree, src))
          && !Has(url)
          && forall q :: q != Parts(src) && q != Parts(dst) ==> NodeAt(fs.tree, q) == old(NodeAt(fs.tree, q))
    {
      var src := PathJoin(root, url) + Extension(kind);
      var dst := PathJoin(root, newurl) + Extension(kind);
      ghost var before := fs.tree;
      o := fs.Rename(src, dst);
      if o.Pass? && Stat(before, src).FileNode? {
        forall q ensures NodeAt(fs.tree, q) ==
          if q == Parts(dst) then Stat(before, src) else if q == Parts(src) then Missing else NodeAt(before, q)
        {
          MoveEntryFrame(before, src, dst, q);
        }
      }
    }

    /**
     * `delete(url)`: False when there is no page, True once its file is removed; removing
     * takes away that one path and leaves every other as it was. A directory in its place
     * makes `os.remove` raise.
     */
    method Delete(url: string) returns (r: Result<bool>)
      modifies fs
      ensures var path := PagePath(root, kind, url);
        var node := old(Stat(fs.tree, path));
        && (node.Missing? ==> r == Ok(false) && fs.tree == old(fs.tree))
        && (node.DirNode? ==> r == Err(OSError) && fs.tree == old(fs.tree))
        && (node.FileNode? ==> r == Ok(true) && fs.tree == RemoveFile(old(fs.tree), path).value)
      ensures r == Ok(true) ==>
        && !Has(url)
        && forall q :: q != Parts(PagePath(root, kind, url)) ==> NodeAt(fs.tree, q) == old(NodeAt(fs.tree, q))
    {
      var path := PagePath(root, kind, url);
      if !Has(url) {
        return Ok(false);
      }
      ghost var before := fs.tree;
      var removed := fs.Remove(path);
      if removed.Fail? {
        return Err(removed.error);
      }
      forall q ensures NodeAt(fs.tree, q) == if q == Parts(path) then Missing else NodeAt(before, q) {
        RemoveFileFrame(before, path, q);
      }
      r := Ok(true);
    }

    /**
     * `_walk(dir, prefix)` over the listing `es` of `dir`: each page file it meets, opened,
     * in listing order; the first exception stops the walk.
     */
    method Walk(es: seq<Entry>, dir: string, prefix: seq<string>) returns (r: Result<seq<Page>>)
      ensures var c := Collect(Found(kind, es, dir, prefix), Opening(kind, env, fs.tree));
        && (r.Ok? <==> c.Ok?)
        && (r.Err? ==> r.error == c.error)
        && (r.Ok? ==> Holds(r.value, c.value))
      decreases es
    {
      ghost var op := Opening(kind, env, fs.tree);
      var pages: seq<Page> := [];
      ghost var snaps: seq<Snapshot> := [];
      for i := 0 to |es|
        invariant Collect(Found(kind, es[..i], dir, prefix), op) == Ok(snaps)
        invariant Holds(pages, snaps)
      {
        var e := es[i];
        ghost var done := Found(kind, es[..i], dir, prefix);
        ghost var met := FoundOne(kind, e, dir, prefix);
        assert Found(kind, es[..i + 1], dir, prefix) == done + met by {
          FoundNext(kind, es, i, dir, prefix);
        }
        var full := PathJoin(dir, e.name);
        var step: Result<seq<Page>>;
        match e {
          case Dir(n, sub) =>
            step := Walk(sub, full, prefix + [n]);
            assert met == Found(kind, sub, full, prefix + [n]);
          case File(_, _) =>
            step := OpenListed(e, dir, prefix);
        }
        assert && (step.Ok? <==> Collect(met, op).Ok?)
               && (step.Err? ==> step.error == Collect(met, op).error)
               && (step.Ok? ==> Holds(step.value, Collect(met, op).value));
        if step.Err? {
          assert Collect(Found(kind, es[..i + 1], dir, prefix), op) == Err(step.error) by {
            CollectErrAfter(done, met, op);
          }
          FoundPrefixErr(kind, es, i + 1, dir, prefix, op);
          return Err(step.error);
        }
        ghost var got := Collect(met, op).value;
        CollectThen(done, met, op, snaps, got);
        HoldsAppend(pages, snaps, step.value, got);
        pages, snaps := pages + step.value, snaps + got;
      }
      Whole(es);
      r := Ok(pages);
    }

    /**
     * A file the walk lists in `dir`: a page opened from it when its name ends with the
     * extension, nothing otherwise.
     */
    method OpenListed(e: Entry, dir: string, prefix: seq<string>) returns (step: Result<seq<Page>>)
      requires e.File?
      ensures var c := Collect(FoundOne(kind, e, dir, prefix), Opening(kind, env, fs.tree));
        && (step.Ok? <==> c.Ok?)
        && (step.Err? ==> step.error == c.error)
        && (step.Ok? ==> Holds(step.value, c.value))
    {
      ghost var op := Opening(kind, env, fs.tree);
      var full := PathJoin(dir, e.name);
      if EndsWith(e.name, Extension(kind)) {
        var url := UrlOf(kind, prefix, e.name);
        var page := Page.Open(full, url, kind, env, fs);
        assert FoundOne(kind, e, dir, prefix) == [Spot(full, url)];
        assert op(Spot(full, url)) == Opened(kind, env, fs.tree, full, url);
        CollectOne(Spot(full, url), op);
        step := if page.Err? then Err(page.error) else Ok([page.value]);
      } else {
        assert FoundOne(kind, e, dir, prefix) == [];
        step := Ok([]);
      }
    }

    /** `sorted(pages, key=lambda x: x.title.lower())` over page objects holding `snaps`. */
    method SortByTitle(pages: seq<Page>, ghost snaps: seq<Snapshot>) returns (r: Result<seq<Page>>)
      requires Holds(pages, snaps)
      ensures var b := ByTitle(env, snaps);
        && (r.Ok? <==> b.Ok?)
        && (r.Err? ==> r.error == b.error)
        && (r.Ok? ==> Holds(r.value, b.value))
    {
      var keys: seq<string> := [];
      for i := 0 to |pages|
        invariant Collect(snaps[..i], TitleOf(env)) == Ok(keys)
      {
        var key := TitleKey(env, pages[i].meta);
        assert TitleOf(env)(snaps[i]) == key;
        CollectStep(snaps, i, TitleOf(env), keys);
        if key.Err? {
          CollectPrefixErr(snaps, i + 1, TitleOf(env));
          return Err(key.error);
        }
        keys := keys + [key.value];
      }
      Whole(snaps);
      HoldsPermute(pages, snaps, SortedOrder(keys));
      r := Ok(SortByKeys(pages, keys));
    }

    /** `index()`: every page of the wiki, sorted by lower-cased title. */
    method Index() returns (r: Result<seq<Page>>)
      ensures var v := Indexed(kind, env, fs.tree, root);
        && (r.Ok? <==> v.Ok?)
        && (r.Err? ==> r.error == v.error)
        && (r.Ok? ==> Holds(r.value, v.value))
    {
      var listing := ListDir(fs.tree, root);
      if listing.Err? {
        return Err(listing.error);
      }
      var walked := Walk(listing.value, root, []);
      if walked.Err? {
        return Err(walked.error);
      }
      r := SortByTitle(walked.value, Walked(kind, env, fs.tree, root).value);
    }

    /**
     * The inner loop of `get_tags` for the page at position `|sets|`, whose raw segments
     * are `segs`: each segment stripped, blanks skipped, the page appended under a tag
     * already listing pages or entered as the first page of a new one. Before, the map
     * lists the pages of the first `|sets|` positions; after, those of one more.
     */
    method TagPage(tags: map<string, seq<Page>>, page: Page, ghost pages: seq<Page>, ghost sets: seq<set<string>>, segs: set<string>)
      returns (out: map<string, seq<Page>>)
      requires |sets| < |pages| && page == pages[|sets|]
      requires forall t :: t in tags <==> t != "" && Listed(sets, t) != []
      requires forall t :: t in tags ==> tags[t] == Permute(pages, Listed(sets, t))
      ensures forall t :: t in out <==> t != "" && Listed(sets + [segs], t) != []
      ensures forall t :: t in out ==> out[t] == Permute(pages, Listed(sets + [segs], t))
    {
      ghost var n := |sets|;
      out := tags;
      var rest := segs;
      ghost var done: set<string> := {};
      PendingBegin(tags, pages, sets, n);
      while rest != {}
        invariant done + rest == segs && done !! rest
        invariant ListsPending(out, pages, sets, done, n)
        decreases rest
      {
        var s :| s in rest;
        var tag := Strip(s);
        MoveOne(done, rest, segs, s);
        TagStep(out, pages, sets, done, n, s);
        if tag == "" {
        } else if tag in out && out[tag] != [] {
          out := out[tag := out[tag] + [page]];
        } else {
          out := out[tag := [page]];
        }
        rest, done := rest - {s}, done + {s};
      }
      PendingEnd(out, pages, sets, segs, n);
    }

    /** The outer loop of `get_tags` over the pages of the index, held by `pages`. */
    method TagIndex(pages: seq<Page>, ghost v: seq<Snapshot>) returns (r: Result<map<string, seq<Page>>>)
      requires Holds(pages, v)
      ensures var m := TagMap(v);
        && (r.Ok? <==> m.Ok?)
        && (r.Err? ==> r.error == m.error)
        && (r.Ok? ==> (forall t :: t in r.value <==> t in m.value) && forall t :: t in r.value ==> Holds(r.value[t], m.value[t]))
    {
      var tags: map<string, seq<Page>> := map[];
      ghost var sets: seq<set<string>> := [];
      for i := 0 to |pages|
        invariant Collect(v[..i], SegmentsOf()) == Ok(sets) && |sets| == i
        invariant forall t :: t in tags <==> t != "" && Listed(sets, t) != []
        invariant forall t :: t in tags ==> tags[t] == Permute(pages, Listed(sets, t))
      {
        HoldsAt(pages, v, i);
        var segs := Segments(pages[i].meta);
        assert SegmentsOf()(v[i]) == segs;
        CollectStep(v, i, SegmentsOf(), sets);
        if segs.Err? {
          CollectPrefixErr(v, i + 1, SegmentsOf());
          return Err(segs.error);
        }
        tags := TagPage(tags, pages[i], pages, sets, segs.value);
        sets := sets + [segs.value];
      }
      Whole(v);
      forall t | t in tags ensures Holds(tags[t], Permute(v, Listed(sets, t))) {
        HoldsPermute(pages, v, Listed(sets, t));
      }
      forall t ensures t in tags <==> t in Tally(sets) {
        TallyKeys(sets, t);
      }
      r := Ok(tags);
    }

    /**
     * `get_tags()`: each tag of the pages of the index with the pages listed under it,
     * as `TagMap` states; KeyError or AttributeError from the first page whose tags are
     * missing or a list.
     */
    method GetTags() returns (r: Result<map<string, seq<Page>>>)
      ensures var v := Indexed(kind, env, fs.tree, root);
        && (v.Err? ==> r == Err(v.error))
        && (v.Ok? ==>
              var m := TagMap(v.value);
              && (r.Ok? <==> m.Ok?)
              && (r.Err? ==> r.error == m.error)
              && (r.Ok? ==> (forall t :: t in r.value <==> t in m.value) && forall t :: t in r.value ==> Holds(r.value[t], m.value[t])))
    {
      var index := Index();
      if index.Err? {
        return Err(index.error);
      }
      r := TagIndex(index.value, Indexed(kind, env, fs.tree, root).value);
    }

    /**
     * `index_by_tag(tag)`: the pages of the index whose tags contain `tag`, sorted by
     * lower-cased title.
     */
    method IndexByTag(tag: string) returns (r: Result<seq<Page>>)
      ensures var v := Indexed(kind, env, fs.tree, root);
        && (v.Err? ==> r == Err(v.error))
        && (v.Ok? ==>
              var b := ByTag(env, tag, v.value);
              && (r.Ok? <==> b.Ok?)
              && (r.Err? ==> r.error == b.error)
              && (r.Ok? ==> Holds(r.value, b.value)))
    {
      var index := Index();
      if index.Err? {
        return Err(index.error);
      }
      var pages := index.value;
      ghost var v := Indexed(kind, env, fs.tree, root).value;
      var tagged: seq<Page> := [];
      ghost var kept: seq<Snapshot> := [];
      for i := 0 to |pages|
        invariant Select(v[..i], HasTagOf(tag)) == Ok(kept)
        invariant Holds(pages, v) && Holds(tagged, kept)
      {
        HoldsAt(pages, v, i);
        var has := HasTag(tag, pages[i].meta);
        assert HasTagOf(tag)(v[i]) == has;
        SelectStep(v, i, HasTagOf(tag), kept);
        if has.Err? {
          SelectPrefixErr(v, i + 1, HasTagOf(tag));
          return Err(has.error);
        }
        if has.value {
          HoldsAppend(tagged, kept, [pages[i]], [v[i]]);
          tagged, kept := tagged + [pages[i]], kept + [v[i]];
        }
      }
      Whole(v);
      r := SortByTitle(tagged, kept);
    }

    /**
     * The inner loop of `search` for one page: the attributes in order, until one
     * matches (`break`) or reading one raises.
     */
    method MatchPage(page: Page, term: string, attrs: seq<string>) returns (m: Result<bool>)
      ensures m == Matched(env, term, attrs, page.View()) == MatchOf(env, term, attrs)(page.View())
    {
      var j := 0;
      while j < |attrs|
        invariant 0 <= j <= |attrs|
        invariant Matched(env, term, attrs, page.View()) == Matched(env, term, attrs[j..], page.View())
      {
        var text := AttrText(page.View(), attrs[j]);
        if text.Err? {
          return Err(text.error);
        }
        if env.searches(term, text.value) {
          return Ok(true);
        }
        assert attrs[j..][1..] == attrs[j + 1..];
        j := j + 1;
      }
      m := Ok(false);
    }

    /** One page of the `search` loop: its outcome ends the selection with its error or extends the kept pages. */
    lemma MatchNext(v: seq<Snapshot>, i: nat, term: string, attrs: seq<string>, kept: seq<Snapshot>, hit: Result<bool>)
      requires i < |v| && Select(v[..i], MatchOf(env, term, attrs)) == Ok(kept)
      requires hit == MatchOf(env, term, attrs)(v[i])
      ensures hit.Err? ==> Select(v, MatchOf(env, term, attrs)) == Err(hit.error)
      ensures hit.Ok? ==> Select(v[..i + 1], MatchOf(env, term, attrs)) == Ok(if hit.value then kept + [v[i]] else kept)
    {
      SelectNext(v, i, MatchOf(env, term, attrs), kept, hit);
    }

    /**
     * `search(term, attrs)`, where `attrs` defaults to `SearchAttrs`: the pages of the
     * index, in index order, where some attribute in `attrs` matches the pattern; the
     * attributes of a page are tried in order and the first match ends them.
     */
    method Search(term: string, attrs: seq<string> := SearchAttrs) returns (r: Result<seq<Page>>)
      ensures var v := Indexed(kind, env, fs.tree, root);
        && (v.Err? ==> r == Err(v.error))
        && (v.Ok? ==>
              var s := Searched(env, term, attrs, v.value);
              && (r.Ok? <==> s.Ok?)
              && (r.Err? ==> r.error == s.error)
              && (r.Ok? ==> Holds(r.value, s.value)))
    {
      var index := Index();
      if index.Err? {
        return Err(index.error);
      }
      var pages := index.value;
      ghost var v := Indexed(kind, env, fs.tree, root).value;
      if !env.compiles(term) {
        return Err(PatternError);
      }
      r := Matching(pages, v, term, attrs);
    }

    /** The outer loop of `search`: the pages, in order, that some attribute matches. */
    method Matching(pages: seq<Page>, ghost v: seq<Snapshot>, term: string, attrs: seq<string>) returns (r: Result<seq<Page>>)
      requires Holds(pages, v)
      ensures var s := Select(v, MatchOf(env, term, attrs));
        && (r.Ok? <==> s.Ok?)
        && (r.Err? ==> r.error == s.error)
        && (r.Ok? ==> Holds(r.value, s.value))
    {
      var matched: seq<Page> := [];
      ghost var kept: seq<Snapshot> := [];
      for i := 0 to |pages|
        invariant Select(v[..i], MatchOf(env, term, attrs)) == Ok(kept)
        invariant Holds(matched, kept)
      {
        HoldsAt(pages, v, i);
        var hit := MatchPage(pages[i], term, attrs);
        MatchNext(v, i, term, attrs, kept, hit);
        if hit.Err? {
          return Err(hit.error);
        }
        if hit.value {
          HoldsKeep(pages, v, i, matched, kept);
          matched, kept := matched + [pages[i]], kept + [v[i]];
        }
      }
      Whole(v);
      r := Ok(matched);
    }
  }
}
