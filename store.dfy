/**
 * The part of the operating system the wiki core touches: a tree of directories
 * and text files, POSIX path strings, and the calls os.path.join, os.path.dirname,
 * os.path.exists, os.path.isdir, os.listdir, open, os.remove, os.rename and
 * os.makedirs. The order of a directory's entries is the order os.listdir reports.
 */
module Store {
  import opened Base
  import opened Text

  datatype Entry = File(name: string, text: string) | Dir(name: string, entries: seq<Entry>)

  /** What a path names, forgetting the listing of a directory. */
  datatype Node = Missing | FileNode(text: string) | DirNode

  // ---------------------------------------------------------------------------------------------
  // Path strings

  /** `os.path.join(a, b)` on POSIX. */
  function PathJoin(a: string, b: string): string {
    if |b| > 0 && b[0] == '/' then b
    else if a == [] || a[|a| - 1] == '/' then a + b
    else a + "/" + b
  }

  /** Appending a suffix that does not start with a slash commutes with joining. */
  lemma PathJoinAppend(a: string, b: string, suffix: string)
    requires suffix != [] && suffix[0] != '/'
    ensures PathJoin(a, b) + suffix == PathJoin(a, b + suffix)
  {
    var slash := |a| > 0 && a[|a| - 1] != '/';
    if b == [] {
      assert b + suffix == suffix;
      if slash {
        assert PathJoin(a, b) == a + "/";
        assert PathJoin(a, suffix) == a + "/" + suffix;
      } else {
        assert PathJoin(a, b) == a;
        assert PathJoin(a, suffix) == a + suffix;
      }
    } else {
      assert (b + suffix)[0] == b[0];
      if b[0] == '/' {
        assert PathJoin(a, b) == b;
        assert PathJoin(a, b + suffix) == b + suffix;
      } else if slash {
        assert PathJoin(a, b) == a + "/" + b;
        assert (a + "/" + b) + suffix == a + "/" + (b + suffix);
      } else {
        assert PathJoin(a, b) == a + b;
        assert (a + b) + suffix == a + (b + suffix);
      }
    }
  }

  /** `p.rstrip('/')` */
  function TrimSlashes(p: string): string {
    if p != [] && p[|p| - 1] == '/' then TrimSlashes(p[..|p| - 1]) else p
  }

  /** `os.path.dirname(p)` on POSIX: everything up to the last slash, without trailing slashes unless all slashes. */
  function Dirname(p: string): string {
    if '/' !in p then []
    else if p[|p| - 1] == '/' then
      var head := p;
      if TrimSlashes(head) == [] then head else TrimSlashes(head)
    else
      Dirname(p[..|p| - 1])
  }

  predicate ValidName(n: string) {
    n != [] && '/' !in n
  }

  function NonEmpty(parts: seq<string>): (r: seq<string>)
    ensures forall i :: 0 <= i < |r| ==> r[i] != [] && r[i] in parts
  {
    if parts == [] then []
    else if parts[0] == [] then NonEmpty(parts[1..])
    else [parts[0]] + NonEmpty(parts[1..])
  }

  /** The names a path walks through: its slash-separated parts, empty ones dropped. */
  function Parts(p: string): (comps: seq<string>)
    ensures forall i :: 0 <= i < |comps| ==> ValidName(comps[i])
  {
    var r := NonEmpty(Split(p, '/'));
    assert forall i :: 0 <= i < |r| ==> r[i] in Split(p, '/');
    r
  }

  // ---------------------------------------------------------------------------------------------
  // Reading the tree

  /** The first entry of a listing with the given name. */
  function Named(es: seq<Entry>, n: string): (r: Option<Entry>)
    ensures r.Some? ==> r.value in es && r.value.name == n
    ensures r.None? ==> forall i :: 0 <= i < |es| ==> es[i].name != n
  {
    if es == [] then None
    else if es[0].name == n then Some(es[0])
    else Named(es[1..], n)
  }

  /** The entry the names `q` lead to from a directory listing; `[]` names the directory itself. */
  function Lookup(es: seq<Entry>, q: seq<string>): Option<Entry>
    decreases |q|
  {
    if q == [] then Some(Dir("", es))
    else match Named(es, q[0])
      case None => None
      case Some(e) =>
        if |q| == 1 then Some(e)
        else if e.Dir? then Lookup(e.entries, q[1..])
        else None
  }

  /**
   * A listing a real file system can hold: every name non-empty and free of `/`, no two
   * entries of one directory with the same name, and the same inside every directory.
   */
  predicate WellFormed(es: seq<Entry>)
    decreases es
  {
    && (forall i :: 0 <= i < |es| ==> ValidName(es[i].name))
    && (forall i, j :: 0 <= i < j < |es| ==> es[i].name != es[j].name)
    && (forall i :: 0 <= i < |es| && es[i].Dir? ==> WellFormed(es[i].entries))
  }

  /**
   * In a well-formed listing each entry is the one its own name looks up, so taking a
   * directory's contents from the listed entry or from a lookup of its path agree.
   */
  lemma {:induction false} NamedListed(es: seq<Entry>, i: nat)
    requires WellFormed(es) && i < |es|
    ensures Named(es, es[i].name) == Some(es[i])
    ensures Lookup(es, [es[i].name]) == Some(es[i])
  {
    if i > 0 {
      assert es[0].name != es[i].name;
      var rest := es[1..];
      assert WellFormed(rest) by {
        forall k | 0 <= k < |rest| ensures ValidName(rest[k].name) && (rest[k].Dir? ==> WellFormed(rest[k].entries)) {
          assert rest[k] == es[k + 1];
        }
        forall k, m | 0 <= k < m < |rest| ensures rest[k].name != rest[m].name {
          assert rest[k] == es[k + 1] && rest[m] == es[m + 1];
        }
      }
      assert rest[i - 1] == es[i];
      NamedListed(rest, i - 1);
    }
  }

  function NodeAt(es: seq<Entry>, q: seq<string>): Node {
    match Lookup(es, q)
    case None => Missing
    case Some(File(_, t)) => FileNode(t)
    case Some(Dir(_, _)) => DirNode
  }

  /** What a path string names; the empty path names nothing. */
  function Stat(tree: seq<Entry>, path: string): Node {
    if path == [] then Missing else NodeAt(tree, Parts(path))
  }

  /** `os.path.exists(path)`. */
  predicate Exists(tree: seq<Entry>, path: string) {
    !Stat(tree, path).Missing?
  }

  /** `open(path, 'rU').read()`: the file's text, its line endings read as "\n". */
  function ReadText(tree: seq<Entry>, path: string): (r: Result<string>)
    ensures r.Ok? <==> Stat(tree, path).FileNode?
    ensures r.Ok? ==> r.value == Universal(Stat(tree, path).text)
  {
    match Stat(tree, path)
    case FileNode(t) => Ok(Universal(t))
    case _ => Err(IOError)
  }

  /** `os.listdir(path)`, as the entries themselves. */
  function ListDir(tree: seq<Entry>, path: string): (r: Result<seq<Entry>>)
    ensures r.Ok? <==> Stat(tree, path) == DirNode
    ensures r.Ok? ==>
      && Lookup(tree, Parts(path)).Some? && Lookup(tree, Parts(path)).value.Dir?
      && r.value == Lookup(tree, Parts(path)).value.entries
  {
    if path == [] then Err(OSError)
    else match Lookup(tree, Parts(path))
      case Some(Dir(_, es)) => Ok(es)
      case _ => Err(OSError)
  }

  // ---------------------------------------------------------------------------------------------
  // Changing the tree

  /** The listing with every entry named `n` replaced by `e`. */
  function ReplaceNamed(es: seq<Entry>, n: string, e: Entry): seq<Entry> {
    if es == [] then []
    else [if es[0].name == n then e else es[0]] + ReplaceNamed(es[1..], n, e)
  }

  /** The listing without the entries named `n`. */
  function Without(es: seq<Entry>, n: string): seq<Entry> {
    if es == [] then []
    else (if es[0].name == n then [] else [es[0]]) + Without(es[1..], n)
  }

  /** The listing with `e` in place of the entry of the same name, or added at its end. */
  function Place(es: seq<Entry>, e: Entry): seq<Entry> {
    if Named(es, e.name).Some? then ReplaceNamed(es, e.name, e) else es + [e]
  }

  datatype Change = Drop(name: string) | Put(entry: Entry)

  function Apply(es: seq<Entry>, c: Change): seq<Entry> {
    match c
    case Drop(n) => Without(es, n)
    case Put(e) => Place(es, e)
  }

  /** The tree with `c` applied to the listing of the directory `dir`, if there is one. */
  function Edit(es: seq<Entry>, dir: seq<string>, c: Change): seq<Entry>
    decreases |dir|
  {
    if dir == [] then Apply(es, c)
    else match Named(es, dir[0])
      case Some(Dir(n, sub)) => ReplaceNamed(es, n, Dir(n, Edit(sub, dir[1..], c)))
      case _ => es
  }

  /** A chain of nested empty directories named `q[0]`, `q[1]`, .... */
  function Chain(q: seq<string>): Entry
    requires q != []
    decreases |q|
  {
    Dir(q[0], if |q| == 1 then [] else [Chain(q[1..])])
  }

  /** The tree with every missing directory along `q` created. */
  function MakeChain(es: seq<Entry>, q: seq<string>): seq<Entry>
    decreases |q|
  {
    if q == [] then es
    else match Named(es, q[0])
      case None => es + [Chain(q)]
      case Some(Dir(n, sub)) => ReplaceNamed(es, n, Dir(n, MakeChain(sub, q[1..])))
      case Some(File(_, _)) => es
  }

  function Parent(q: seq<string>): seq<string>
    requires q != []
  {
    q[..|q| - 1]
  }

  function Last(q: seq<string>): string
    requires q != []
  {
    q[|q| - 1]
  }

  function Renamed(e: Entry, n: string): Entry {
    match e
    case File(_, t) => File(n, t)
    case Dir(_, es) => Dir(n, es)
  }

  predicate IsPrefix(p: seq<string>, q: seq<string>) {
    |p| <= |q| && q[..|p|] == p
  }

  /** Some directory on the way to `q`, or `q` itself, is a file. */
  predicate FileOnWay(es: seq<Entry>, q: seq<string>) {
    exists k :: 0 < k <= |q| && NodeAt(es, q[..k]).FileNode?
  }

  // ---------------------------------------------------------------------------------------------
  // Lemmas about reading after a change

  lemma {:induction false} NamedReplace(es: seq<Entry>, n: string, e: Entry, m: string)
    requires e.name == n
    ensures Named(ReplaceNamed(es, n, e), m) == if m == n then (if Named(es, n).Some? then Some(e) else None) else Named(es, m)
  {
    if es != [] {
      NamedReplace(es[1..], n, e, m);
    }
  }

  lemma {:induction false} NamedWithout(es: seq<Entry>, n: string, m: string)
    ensures Named(Without(es, n), m) == if m == n then None else Named(es, m)
  {
    if es != [] {
      NamedWithout(es[1..], n, m);
      var rest := Without(es[1..], n);
      if es[0].name == n {
        assert Without(es, n) == rest;
      } else {
        assert Without(es, n) == [es[0]] + rest;
        assert Named([es[0]] + rest, m) == if es[0].name == m then Some(es[0]) else Named(rest, m);
      }
    }
  }

  lemma {:induction false} NamedAppend(es: seq<Entry>, e: Entry, m: string)
    ensures Named(es + [e], m) == if Named(es, m).Some? then Named(es, m) else if e.name == m then Some(e) else None
  {
    if es != [] {
      NamedAppend(es[1..], e, m);
      assert (es + [e])[1..] == es[1..] + [e];
    }
  }

  lemma NamedApply(es: seq<Entry>, c: Change, m: string)
    ensures Named(Apply(es, c), m) == match c
      case Drop(n) => if m == n then None else Named(es, m)
      case Put(e) => if m == e.name then Some(e) else Named(es, m)
  {
    match c
    case Drop(n) => NamedWithout(es, n, m);
    case Put(e) =>
      if Named(es, e.name).Some? {
        NamedReplace(es, e.name, e, m);
      } else {
        NamedAppend(es, e, m);
      }
  }

  /** A path looked up in a listing, one name at a time. */
  lemma LookupStep(es: seq<Entry>, q: seq<string>)
    requires q != []
    ensures NodeAt(es, q) == match Named(es, q[0])
      case None => Missing
      case Some(File(_, t)) => if |q| == 1 then FileNode(t) else Missing
      case Some(Dir(_, sub)) => NodeAt(sub, q[1..])
  {
    match Named(es, q[0])
    case None =>
    case Some(File(_, _)) =>
    case Some(Dir(_, sub)) =>
      if |q| == 1 {
        assert q[1..] == [];
      }
  }

  /** Two listings that agree on every name agree on every path. */
  lemma {:induction false} SameNamesSameNodes(es: seq<Entry>, fs: seq<Entry>, q: seq<string>)
    requires forall m :: Named(es, m) == Named(fs, m)
    ensures NodeAt(es, q) == NodeAt(fs, q)
  {
    if q != [] {
      LookupStep(es, q);
      LookupStep(fs, q);
    }
  }

  /** One level of `Edit`: the first directory on the way gets its listing edited further down. */
  lemma EditDown(es: seq<Entry>, dir: seq<string>, c: Change)
    requires dir != [] && Lookup(es, dir).Some? && Lookup(es, dir).value.Dir?
    ensures Named(es, dir[0]).Some? && Named(es, dir[0]).value.Dir?
    ensures var sub := Named(es, dir[0]).value.entries;
      && Edit(es, dir, c) == ReplaceNamed(es, dir[0], Dir(dir[0], Edit(sub, dir[1..], c)))
      && Lookup(sub, dir[1..]).Some? && Lookup(sub, dir[1..]).value.Dir?
      && Lookup(sub, dir[1..]).value.entries == Lookup(es, dir).value.entries
  {
    var sub := Named(es, dir[0]).value.entries;
    if |dir| > 1 {
      assert Lookup(sub, dir[1..]) == Lookup(es, dir);
    }
  }

  /** Replacing directory `n` by one listing `sub` changes only the nodes below `n`. */
  lemma ReplaceDirNodes(es: seq<Entry>, n: string, sub: seq<Entry>, q: seq<string>)
    requires Named(es, n).Some?
    ensures NodeAt(ReplaceNamed(es, n, Dir(n, sub)), q) ==
      if q != [] && q[0] == n then NodeAt(sub, q[1..]) else NodeAt(es, q)
  {
    if q != [] {
      var es' := ReplaceNamed(es, n, Dir(n, sub));
      LookupStep(es, q);
      LookupStep(es', q);
      NamedReplace(es, n, Dir(n, sub), q[0]);
      if |q| == 1 {
        assert q[1..] == [];
      }
    }
  }

  /**
   * Editing the listing of directory `dir` changes only what lies below `dir`,
   * and there it changes it as the edit changes that listing.
   */
  lemma {:induction false} EditFrame(es: seq<Entry>, dir: seq<string>, c: Change, q: seq<string>)
    requires Lookup(es, dir).Some? && Lookup(es, dir).value.Dir?
    ensures NodeAt(Edit(es, dir, c), q) ==
      if IsPrefix(dir, q) then NodeAt(Apply(Lookup(es, dir).value.entries, c), q[|dir|..]) else NodeAt(es, q)
    decreases |dir|
  {
    if dir == [] {
      assert q[0..] == q;
    } else {
      var n := dir[0];
      EditDown(es, dir, c);
      var sub := Named(es, n).value.entries;
      ReplaceDirNodes(es, n, Edit(sub, dir[1..], c), q);
      if q != [] && q[0] == n {
        EditFrame(sub, dir[1..], c, q[1..]);
        LookupStep(es, q);
        if IsPrefix(dir, q) {
          assert IsPrefix(dir[1..], q[1..]);
          assert q[|dir|..] == q[1..][|dir[1..]|..];
        }
      } else {
        assert !IsPrefix(dir, q);
      }
    }
  }

  /** The node at a path of an applied change, one level down. */
  lemma ApplyFrame(es: seq<Entry>, c: Change, q: seq<string>)
    requires q != []
    requires c.Put? ==> c.entry.File?
    ensures NodeAt(Apply(es, c), q) == match c
      case Drop(n) => if q[0] == n then Missing else NodeAt(es, q)
      case Put(e) => if q[0] == e.name then (if |q| == 1 then FileNode(e.text) else Missing) else NodeAt(es, q)
  {
    LookupStep(Apply(es, c), q);
    LookupStep(es, q);
    NamedApply(es, c, q[0]);
  }

  lemma {:induction false} ChainNodes(q: seq<string>, p: seq<string>)
    requires q != []
    ensures NodeAt([Chain(q)], p) == if IsPrefix(p, q) then DirNode else Missing
    decreases |q|
  {
    if p != [] {
      LookupStep([Chain(q)], p);
      if p[0] == q[0] && |q| > 1 {
        ChainNodes(q[1..], p[1..]);
        if IsPrefix(p[1..], q[1..]) {
          assert q[..|p|] == [q[0]] + q[1..][..|p| - 1];
        }
      } else if p[0] == q[0] {
        if |p| > 1 {
          assert NodeAt([], p[1..]) == Missing;
        }
      }
    }
  }

  /** No file on the way to `q` means none on the way below its first directory either. */
  lemma FileOnWayBelow(es: seq<Entry>, q: seq<string>, n: string, sub: seq<Entry>)
    requires q != [] && Named(es, q[0]) == Some(Dir(n, sub)) && !FileOnWay(es, q)
    ensures !FileOnWay(sub, q[1..])
  {
    forall k | 0 < k <= |q[1..]| ensures !NodeAt(sub, q[1..][..k]).FileNode? {
      assert !NodeAt(es, q[..k + 1]).FileNode?;
      LookupStep(es, q[..k + 1]);
      assert q[..k + 1][1..] == q[1..][..k];
    }
  }

  lemma PrefixStep(p: seq<string>, q: seq<string>)
    requires p != [] && q != [] && p[0] == q[0]
    ensures IsPrefix(p, q) <==> IsPrefix(p[1..], q[1..])
  {
    if IsPrefix(p[1..], q[1..]) {
      assert q[..|p|] == [q[0]] + q[1..][..|p| - 1];
    }
    if IsPrefix(p, q) {
      assert q[1..][..|p| - 1] == q[..|p|][1..];
    }
  }

  /** A new chain of directories added to a listing adds exactly the directories along it. */
  lemma ChainAddedNodes(es: seq<Entry>, q: seq<string>, p: seq<string>)
    requires q != [] && p != [] && Named(es, q[0]).None?
    ensures NodeAt(es + [Chain(q)], p) == if IsPrefix(p, q) then DirNode else NodeAt(es, p)
  {
    LookupStep(es, p);
    LookupStep(es + [Chain(q)], p);
    NamedAppend(es, Chain(q), p[0]);
    if p[0] == q[0] {
      ChainNodes(q, p);
      LookupStep([Chain(q)], p);
    } else {
      assert !IsPrefix(p, q);
    }
  }

  /** Creating the missing directories along `q` adds exactly the directories along `q`. */
  lemma {:induction false} MakeChainFrame(es: seq<Entry>, q: seq<string>, p: seq<string>)
    requires !FileOnWay(es, q)
    ensures NodeAt(MakeChain(es, q), p) == if IsPrefix(p, q) then DirNode else NodeAt(es, p)
    decreases |q|
  {
    if q == [] {
    } else if p == [] {
    } else {
      LookupStep(es, q[..1]);
      assert q[..1][0] == q[0];
      match Named(es, q[0])
      case None =>
        ChainAddedNodes(es, q, p);
      case Some(File(_, _)) =>
        assert false;
      case Some(Dir(n, sub)) =>
        ReplaceDirNodes(es, n, MakeChain(sub, q[1..]), p);
        if p[0] == q[0] {
          FileOnWayBelow(es, q, n, sub);
          MakeChainFrame(sub, q[1..], p[1..]);
          LookupStep(es, p);
          PrefixStep(p, q);
        } else {
          assert !IsPrefix(p, q);
        }
    }
  }

  // ---------------------------------------------------------------------------------------------
  // The system calls, as functions on the tree

  /** `os.remove(path)`: the tree without that file, or OSError when `path` names no file. */
  function RemoveFile(tree: seq<Entry>, path: string): (r: Result<seq<Entry>>)
    ensures r.Ok? <==> Stat(tree, path).FileNode?
    ensures r.Err? ==> r.error == OSError
  {
    if !Stat(tree, path).FileNode? then Err(OSError)
    else
      var q := Parts(path);
      Ok(Edit(tree, Parent(q), Drop(Last(q))))
  }

  /**
   * `open(path, 'w')` then writing `text` and closing: the file is created or emptied
   * and overwritten; IOError when the path is empty, names a directory, or its parent
   * is not a directory.
   */
  function WriteFile(tree: seq<Entry>, path: string, text: string): (r: Result<seq<Entry>>)
    ensures r.Ok? <==> path != [] && Parts(path) != [] && !Stat(tree, path).DirNode?
                       && NodeAt(tree, Parent(Parts(path))) == DirNode
    ensures r.Err? ==> r.error == IOError
  {
    if path == [] || Parts(path) == [] || Stat(tree, path).DirNode? then Err(IOError)
    else
      var q := Parts(path);
      if NodeAt(tree, Parent(q)) != DirNode then Err(IOError)
      else Ok(Edit(tree, Parent(q), Put(File(Last(q), text))))
  }

  /**
   * `os.makedirs(path)`: creates the directory and every missing one above it;
   * OSError when the path is empty or already exists, or when a file stands in the way.
   */
  function MakeAllDirs(tree: seq<Entry>, path: string): (r: Result<seq<Entry>>)
    ensures r.Ok? <==> path != [] && Stat(tree, path).Missing? && !FileOnWay(tree, Parts(path))
    ensures r.Err? ==> r.error == OSError
  {
    if path == [] || !Stat(tree, path).Missing? || FileOnWay(tree, Parts(path)) then Err(OSError)
    else Ok(MakeChain(tree, Parts(path)))
  }

  /**
   * `os.rename(src, dst)`: the entry at `src` taken out of its directory and added, under
   * its new name, to the directory of `dst`. OSError when `src` does not exist, when `dst`
   * exists, when the directory of `dst` does not, or when a directory would move into itself.
   */
  function MoveEntry(tree: seq<Entry>, src: string, dst: string): (r: Result<seq<Entry>>)
    ensures r.Ok? <==>
      && src != [] && dst != [] && Parts(src) != [] && Parts(dst) != []
      && Exists(tree, src) && !Exists(tree, dst)
      && NodeAt(tree, Parent(Parts(dst))) == DirNode
      && !IsPrefix(Parts(src), Parts(dst))
    ensures r.Err? ==> r.error == OSError
  {
    var s := Parts(src);
    var d := Parts(dst);
    if src == [] || dst == [] || s == [] || d == [] then Err(OSError)
    else if Stat(tree, src).Missing? || !Stat(tree, dst).Missing? then Err(OSError)
    else if NodeAt(tree, Parent(d)) != DirNode || IsPrefix(s, d) then Err(OSError)
    else
      var e := Lookup(tree, s).value;
      var t := Edit(tree, Parent(s), Drop(Last(s)));
      Ok(Edit(t, Parent(d), Put(Renamed(e, Last(d)))))
  }

  // ---------------------------------------------------------------------------------------------
  // What each call does to the files

  lemma NodeLookup(es: seq<Entry>, q: seq<string>)
    ensures NodeAt(es, q) == DirNode <==> Lookup(es, q).Some? && Lookup(es, q).value.Dir?
  {
  }

  lemma PartsSplit(q: seq<string>)
    requires q != []
    ensures q == Parent(q) + [Last(q)] && IsPrefix(Parent(q), q) && q[|Parent(q)|..] == [Last(q)]
  {
  }

  lemma {:induction false} NodeBelowFile(es: seq<Entry>, q: seq<string>, p: seq<string>)
    requires NodeAt(es, q).FileNode? && IsPrefix(q, p) && p != q
    ensures NodeAt(es, p) == Missing
    decreases |q|
  {
    LookupStep(es, q);
    LookupStep(es, p);
    if |q| > 1 {
      var sub := Named(es, q[0]).value.entries;
      assert p[0] == q[0];
      assert IsPrefix(q[1..], p[1..]);
      NodeBelowFile(sub, q[1..], p[1..]);
    }
  }

  /** `os.remove` takes away exactly the one file and changes nothing else. */
  lemma RemoveFileFrame(tree: seq<Entry>, path: string, p: seq<string>)
    requires RemoveFile(tree, path).Ok?
    ensures NodeAt(RemoveFile(tree, path).value, p) == if p == Parts(path) then Missing else NodeAt(tree, p)
  {
    var q := Parts(path);
    var dir := Parent(q);
    PartsSplit(q);
    ParentOfFileIsDir(tree, q);
    EditFrame(tree, dir, Drop(Last(q)), p);
    if IsPrefix(dir, p) {
      var sub := Lookup(tree, dir).value.entries;
      var rest := p[|dir|..];
      if rest != [] {
        ApplyFrame(sub, Drop(Last(q)), rest);
        ParentFrame(tree, dir, rest);
        assert p == dir + rest;
        if rest[0] == Last(q) {
          if p != q {
            assert IsPrefix(q, p);
            NodeBelowFile(tree, q, p);
          }
        } else {
          assert p != q;
        }
      } else {
        assert p == dir;
      }
    }
  }

  /** The node at `dir + rest`, read from the listing of directory `dir`. */
  lemma {:induction false} ParentFrame(es: seq<Entry>, dir: seq<string>, rest: seq<string>)
    requires Lookup(es, dir).Some? && Lookup(es, dir).value.Dir?
    ensures NodeAt(es, dir + rest) == NodeAt(Lookup(es, dir).value.entries, rest)
    decreases |dir|
  {
    if dir == [] {
      assert dir + rest == rest;
    } else {
      var sub := Named(es, dir[0]).value.entries;
      LookupStep(es, dir + rest);
      assert (dir + rest)[1..] == dir[1..] + rest;
      ParentFrame(sub, dir[1..], rest);
    }
  }

  /** The directory a file lies in is a directory. */
  lemma {:induction false} ParentOfFileIsDir(es: seq<Entry>, q: seq<string>)
    requires NodeAt(es, q).FileNode?
    ensures q != [] && NodeAt(es, Parent(q)) == DirNode
    decreases |q|
  {
    LookupStep(es, q);
    if |q| > 1 {
      var sub := Named(es, q[0]).value.entries;
      ParentOfFileIsDir(sub, q[1..]);
      assert Parent(q) == [q[0]] + Parent(q[1..]);
      LookupStep(es, Parent(q));
    }
  }

  /** Writing a file sets exactly that path to the text written and changes nothing else. */
  lemma WriteFileFrame(tree: seq<Entry>, path: string, text: string, p: seq<string>)
    requires WriteFile(tree, path, text).Ok?
    ensures NodeAt(WriteFile(tree, path, text).value, p) == if p == Parts(path) then FileNode(text) else NodeAt(tree, p)
  {
    PutFileFrame(tree, Parts(path), text, p);
  }

  /** A file just written reads back as its text, with universal newlines. */
  lemma WrittenReads(tree: seq<Entry>, path: string, text: string)
    requires WriteFile(tree, path, text).Ok?
    ensures ReadText(WriteFile(tree, path, text).value, path) == Ok(Universal(text))
  {
    WriteFileFrame(tree, path, text, Parts(path));
  }

  /**
   * Putting a file into the listing of its directory, where no directory of that name
   * stands, sets exactly that path to the file's text.
   */
  lemma PutFileFrame(tree: seq<Entry>, q: seq<string>, text: string, p: seq<string>)
    requires q != [] && NodeAt(tree, Parent(q)) == DirNode && !NodeAt(tree, q).DirNode?
    ensures NodeAt(Edit(tree, Parent(q), Put(File(Last(q), text))), p) == if p == q then FileNode(text) else NodeAt(tree, p)
  {
    var dir := Parent(q);
    PartsSplit(q);
    NodeLookup(tree, dir);
    EditFrame(tree, dir, Put(File(Last(q), text)), p);
    if IsPrefix(dir, p) {
      var sub := Lookup(tree, dir).value.entries;
      var rest := p[|dir|..];
      assert p == dir + rest;
      if rest != [] {
        ApplyFrame(sub, Put(File(Last(q), text)), rest);
        ParentFrame(tree, dir, rest);
        if rest[0] == Last(q) && |rest| > 1 {
          assert IsPrefix(q, p) && p != q;
          ParentFrame(tree, dir, [Last(q)]);
          assert NodeAt(tree, q) == NodeAt(sub, [Last(q)]);
          LookupStep(sub, rest);
          LookupStep(sub, [Last(q)]);
        }
      } else {
        assert p == dir;
      }
    }
  }

  /** `os.makedirs` adds exactly the directories along the path and changes nothing else. */
  lemma MakeAllDirsFrame(tree: seq<Entry>, path: string, p: seq<string>)
    requires MakeAllDirs(tree, path).Ok?
    ensures NodeAt(MakeAllDirs(tree, path).value, p) == if IsPrefix(p, Parts(path)) then DirNode else NodeAt(tree, p)
  {
    MakeChainFrame(tree, Parts(path), p);
  }

  /** Moving a file: the new path holds its text, the old path holds nothing, the rest is unchanged. */
  lemma MoveEntryFrame(tree: seq<Entry>, src: string, dst: string, p: seq<string>)
    requires MoveEntry(tree, src, dst).Ok? && Stat(tree, src).FileNode?
    ensures NodeAt(MoveEntry(tree, src, dst).value, p) ==
      if p == Parts(dst) then Stat(tree, src) else if p == Parts(src) then Missing else NodeAt(tree, p)
  {
    var s := Parts(src);
    var d := Parts(dst);
    var e := Lookup(tree, s).value;
    var t := Edit(tree, Parent(s), Drop(Last(s)));
    assert e.File? && Stat(tree, src) == FileNode(e.text);
    assert Renamed(e, Last(d)) == File(Last(d), e.text);
    // After taking the file out.
    forall p' ensures NodeAt(t, p') == if p' == s then Missing else NodeAt(tree, p') {
      RemoveFileFrame(tree, src, p');
    }
    assert NodeAt(t, Parent(d)) == DirNode;
    assert NodeAt(t, d) == Missing;
    PutFileFrame(t, d, e.text, p);
  }

  // ---------------------------------------------------------------------------------------------
  // The disk as an object

  /** The disk the wiki reads and writes; every call that writes changes `tree` in place. */
  class FileSystem {
    var tree: seq<Entry>

    constructor (tree: seq<Entry>)
      ensures this.tree == tree
    {
      this.tree := tree;
    }

    /** `os.remove(path)` */
    method Remove(path: string) returns (o: Outcome)
      modifies this
      ensures o.Pass? <==> RemoveFile(old(tree), path).Ok?
      ensures o.Pass? ==> tree == RemoveFile(old(tree), path).value
      ensures o.Fail? ==> o.error == OSError && tree == old(tree)
    {
      match RemoveFile(tree, path)
      case Ok(t) =>
        tree := t;
        o := Pass;
      case Err(e) =>
        o := Fail(e);
    }

    /** `with open(path, 'w') as f: f.write(text)` */
    method Write(path: string, text: string) returns (o: Outcome)
      modifies this
      ensures o.Pass? <==> WriteFile(old(tree), path, text).Ok?
      ensures o.Pass? ==> tree == WriteFile(old(tree), path, text).value
      ensures o.Fail? ==> o.error == IOError && tree == old(tree)
    {
      match WriteFile(tree, path, text)
      case Ok(t) =>
        tree := t;
        o := Pass;
      case Err(e) =>
        o := Fail(e);
    }

    /** `os.makedirs(path)` */
    method MakeDirs(path: string) returns (o: Outcome)
      modifies this
      ensures o.Pass? <==> MakeAllDirs(old(tree), path).Ok?
      ensures o.Pass? ==> tree == MakeAllDirs(old(tree), path).value
      ensures o.Fail? ==> o.error == OSError && tree == old(tree)
    {
      match MakeAllDirs(tree, path)
      case Ok(t) =>
        tree := t;
        o := Pass;
      case Err(e) =>
        o := Fail(e);
    }

    /** `os.rename(src, dst)` */
    method Rename(src: string, dst: string) returns (o: Outcome)
      modifies this
      ensures o.Pass? <==> MoveEntry(old(tree), src, dst).Ok?
      ensures o.Pass? ==> tree == MoveEntry(old(tree), src, dst).value
      ensures o.Fail? ==> o.error == OSError && tree == old(tree)
    {
      match MoveEntry(tree, src, dst)
      case Ok(t) =>
        tree := t;
        o := Pass;
      case Err(e) =>
        o := Fail(e);
    }
  }
}
