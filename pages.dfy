/**
 * `Page` of waliki/wiki.py: one wiki document backed by one file. Its metadata, body,
 * HTML and raw content are fields that `load`, `render`, `save` and the item setters
 * overwrite in place.
 */
module Pages {
  import opened Base
  import opened Text
  import opened Ordering
  import opened Store
  import opened Markup
  import opened Passes
  import Escape

  /**
   * A metadata value: a string stored through `page[name] = value` (or the title and
   * tags setters), or the list of strings `process` produces for a key.
   */
  datatype MetaValue = Scalar(text: string) | Values(items: seq<string>)

  type Meta = map<string, MetaValue>

  /**
   * `page[name]`: the sole element of a value of length one, the whole value otherwise,
   * KeyError for a missing key. A string of length one is its own sole element, so a
   * string always reads back unchanged.
   */
  function Item(meta: Meta, name: string): (r: Result<MetaValue>)
    ensures r.Ok? <==> name in meta
    ensures r.Err? ==> r.error == KeyError
    ensures name in meta && meta[name].Scalar? ==> r == Ok(meta[name])
    ensures name in meta && meta[name].Values? && |meta[name].items| == 1 ==> r == Ok(Scalar(meta[name].items[0]))
    ensures name in meta && meta[name].Values? && |meta[name].items| != 1 ==> r == Ok(meta[name])
  {
    if name !in meta then Err(KeyError)
    else match meta[name]
      case Scalar(t) => if |t| == 1 then assert [t[0]] == t; Ok(Scalar([t[0]])) else Ok(Scalar(t))
      case Values(xs) => if |xs| == 1 then Ok(Scalar(xs[0])) else Ok(Values(xs))
  }

  /** The `title` property. */
  function Title(meta: Meta): Result<MetaValue> {
    Item(meta, "title")
  }

  /** The `tags` property. */
  function Tags(meta: Meta): Result<MetaValue> {
    Item(meta, "tags")
  }

  /** The items of a list as `'%s' % value` prints them: each one's `repr`. */
  function Reprs(xs: seq<string>): (r: seq<string>)
    ensures |r| == |xs|
    ensures forall i :: 0 <= i < |xs| ==> r[i] == Escape.Repr(xs[i])
  {
    if xs == [] then [] else [Escape.Repr(xs[0])] + Reprs(xs[1..])
  }

  /** `'%s' % value`: a string as itself, a list of strings as Python 2 prints it. */
  function Str(v: MetaValue): string {
    match v
    case Scalar(t) => t
    case Values(xs) => "[" + Join(Reprs(xs), ", ") + "]"
  }

  /** The metadata of a page after `render`: every list from `process` stored as it is. */
  function FromProcess(m: map<string, seq<string>>): Meta {
    map k | k in m :: Values(m[k])
  }

  // ---------------------------------------------------------------------------------------------
  // What `save` writes

  /** `META_LINE % (key, value)` for one key of the page. */
  function HeaderLine(kind: Kind, meta: Meta, key: string): string
    requires key in meta
  {
    RenderMeta(kind, key, Str(meta[key]))
  }

  /** The header lines of `keys`, one after the other. */
  function MetaBlock(kind: Kind, meta: Meta, keys: seq<string>): string
    requires forall i :: 0 <= i < |keys| ==> keys[i] in meta
  {
    if keys == [] then []
    else MetaBlock(kind, meta, keys[..|keys| - 1]) + HeaderLine(kind, meta, keys[|keys| - 1])
  }

  /** One more key adds its header line at the end of the block. */
  lemma MetaBlockNext(kind: Kind, meta: Meta, keys: seq<string>, i: nat)
    requires i < |keys| && forall j :: 0 <= j < |keys| ==> keys[j] in meta
    ensures MetaBlock(kind, meta, keys[..i + 1]) == MetaBlock(kind, meta, keys[..i]) + HeaderLine(kind, meta, keys[i])
  {
    assert keys[..i + 1][..i] == keys[..i];
  }

  lemma MetaBlockGrows(kind: Kind, meta: Meta, keys: seq<string>, i: nat, text: string, line: string)
    requires i < |keys| && forall j :: 0 <= j < |keys| ==> keys[j] in meta
    requires text == MetaBlock(kind, meta, keys[..i]) && line == HeaderLine(kind, meta, keys[i])
    ensures text + line == MetaBlock(kind, meta, keys[..i + 1])
  {
    MetaBlockNext(kind, meta, keys, i);
  }

  /** The header of a page: one line per key, keys in sorted order. */
  function Header(kind: Kind, meta: Meta): string {
    MetaBlock(kind, meta, SortedKeys(meta.Keys))
  }

  /**
   * The text `save` leaves in the file: the header, a newline, then the body with every
   * "\r\n" replaced by the line separator. A page without a body gets only the header
   * and the newline, written before the missing attribute stops `save`.
   */
  function Written(kind: Kind, meta: Meta, body: Option<string>, sep: string): string {
    Header(kind, meta) + "\n" + (match body case None => "" case Some(b) => Replace(b, "\r\n", sep))
  }

  /** The tree once `save` has created the missing folder of `path`, or OSError from makedirs. */
  function Prepared(tree: seq<Entry>, path: string): Result<seq<Entry>> {
    var folder := Dirname(path);
    if Store.Exists(tree, folder) then Ok(tree) else MakeAllDirs(tree, folder)
  }

  /**
   * The text `load` gives to the markup class: the argument as it is, or, when none or an
   * empty one is given, the file's text read in universal-newline mode.
   */
  function Source(given: Option<string>, tree: seq<Entry>, path: string): (r: Result<string>)
    ensures r.Err? ==> r == Err(IOError) && !Stat(tree, path).FileNode?
    ensures given.Some? && given.value != [] ==> r == Ok(given.value)
    ensures !(given.Some? && given.value != []) ==>
      (r.Ok? <==> Stat(tree, path).FileNode?) && (r.Ok? ==> r.value == Universal(Stat(tree, path).text))
  {
    if given.Some? && given.value != [] then Ok(given.value) else ReadText(tree, path)
  }

  /** What `render` computes: AttributeError before any `load`, otherwise `process` of the loaded text. */
  function Rendering(kind: Kind, env: Env, content: Option<string>): (r: Result<Processed>)
    ensures content.None? ==> r == Err(AttributeError)
    ensures content.Some? ==> r == Process(kind, env, content.value)
  {
    match content
    case None => Err(AttributeError)
    case Some(text) => Process(kind, env, text)
  }

  /** The state of a page object: its path, URL and the fields `load` and `render` set. */
  datatype Snapshot = Snapshot(
    path: string, url: string, meta: Meta, body: Option<string>, html: Option<string>, content: Option<string>)

  /** The page `Page(path, url, markup=kind)` builds from the file at `path`: load, then render. */
  function Opened(kind: Kind, env: Env, tree: seq<Entry>, path: string, url: string): (r: Result<Snapshot>)
    ensures r.Ok? ==> Stat(tree, path).FileNode? && r.value.path == path && r.value.url == url
    ensures r.Ok? ==> r.value.content == Some(Universal(Stat(tree, path).text)) && r.value.body.Some? && r.value.html.Some?
    ensures !Stat(tree, path).FileNode? ==> r == Err(IOError)
    ensures Stat(tree, path).FileNode? ==> var p := Process(kind, env, Universal(Stat(tree, path).text));
      && (r.Ok? <==> p.Ok?)
      && (p.Err? ==> r == Err(p.error))
      && (p.Ok? ==> r.value.meta == FromProcess(p.value.meta) && r.value.body == Some(p.value.body) && r.value.html == Some(p.value.html))
  {
    match ReadText(tree, path)
    case Err(e) => Err(e)
    case Ok(text) =>
      match Process(kind, env, text)
      case Err(e) => Err(e)
      case Ok(p) => Ok(Snapshot(path, url, FromProcess(p.meta), Some(p.body), Some(p.html), Some(text)))
  }

  class Page {
    const path: string
    const url: string
    const kind: Kind
    const env: Env
    const fs: FileSystem
    var meta: Meta
    var body: Option<string>
    var html: Option<string>
    var content: Option<string>

    /** `Page(path, url, new=True, markup=kind)`: empty metadata, and nothing read. */
    constructor Bare(path: string, url: string, kind: Kind, env: Env, fs: FileSystem)
      ensures this.path == path && this.url == url && this.kind == kind && this.env == env && this.fs == fs
      ensures meta == map[] && body.None? && html.None? && content.None?
    {
      this.path := path;
      this.url := url;
      this.kind := kind;
      this.env := env;
      this.fs := fs;
      meta := map[];
      body := None;
      html := None;
      content := None;
    }

    function View(): Snapshot
      reads this
    {
      Snapshot(path, url, meta, body, html, content)
    }

    /** The page holds what `process` returned. */
    predicate Shows(p: Processed)
      reads this
    {
      html == Some(p.html) && body == Some(p.body) && meta == FromProcess(p.meta)
    }

    /** `load(content)` */
    method Load(given: Option<string>) returns (o: Outcome)
      modifies this
      ensures var text := Source(given, fs.tree, path);
        && (o.Pass? <==> text.Ok?)
        && (o.Pass? ==> content == Some(text.value))
        && (o.Fail? ==> o.error == IOError && content == old(content))
      ensures meta == old(meta) && body == old(body) && html == old(html)
    {
      var text := given;
      if text.None? || text.value == [] {
        var read := ReadText(fs.tree, path);
        if read.Err? {
          return Fail(read.error);
        }
        text := Some(read.value);
      }
      content := text;
      o := Pass;
    }

    /** `render()` */
    method Render() returns (o: Outcome)
      modifies this
      ensures content == old(content)
      ensures var r := Rendering(kind, env, content);
        && (r.Err? ==> o == Fail(r.error) && meta == old(meta) && body == old(body) && html == old(html))
        && (r.Ok? ==> o == Pass && Shows(r.value))
    {
      var r := Rendering(kind, env, content);
      if r.Err? {
        return Fail(r.error);
      }
      html, body, meta := Some(r.value.html), Some(r.value.body), FromProcess(r.value.meta);
      o := Pass;
    }

    /** `Page(path, url, markup=kind)`: a page loaded from its file and rendered. */
    static method Open(path: string, url: string, kind: Kind, env: Env, fs: FileSystem) returns (r: Result<Page>)
      ensures var v := Opened(kind, env, fs.tree, path, url);
        && (r.Ok? <==> v.Ok?)
        && (r.Err? ==> r.error == v.error)
        && (r.Ok? ==> fresh(r.value) && r.value.View() == v.value)
      ensures r.Ok? ==> r.value.kind == kind && r.value.env == env && r.value.fs == fs
    {
      var page := new Page.Bare(path, url, kind, env, fs);
      var loaded := page.Load(None);
      if loaded.Fail? {
        return Err(loaded.error);
      }
      var rendered := page.Render();
      if rendered.Fail? {
        return Err(rendered.error);
      }
      r := Ok(page);
    }

    /** `page[name] = value` */
    method SetItem(name: string, value: MetaValue)
      modifies this
      ensures meta == old(meta)[name := value]
      ensures body == old(body) && html == old(html) && content == old(content)
    {
      meta := meta[name := value];
    }

    /** The `title` setter: changes that one entry, and the title then reads back as the string. */
    method SetTitle(value: string)
      modifies this
      ensures meta == old(meta)["title" := Scalar(value)] && Title(meta) == Ok(Scalar(value))
      ensures body == old(body) && html == old(html) && content == old(content)
    {
      SetItem("title", Scalar(value));
    }

    /** The `tags` setter: changes that one entry, and the tags then read back as the string. */
    method SetTags(value: string)
      modifies this
      ensures meta == old(meta)["tags" := Scalar(value)] && Tags(meta) == Ok(Scalar(value))
      ensures body == old(body) && html == old(html) && content == old(content)
    {
      SetItem("tags", Scalar(value));
    }

    /** The header lines `save` writes, one per key in sorted key order. */
    method HeaderText() returns (text: string)
      ensures text == Header(kind, meta)
    {
      var m := meta;
      var keys := SortedKeys(m.Keys);
      assert forall j :: 0 <= j < |keys| ==> keys[j] in m;
      text := "";
      for i := 0 to |keys|
        invariant text == MetaBlock(kind, m, keys[..i])
      {
        var line := HeaderLine(kind, m, keys[i]);
        MetaBlockGrows(kind, m, keys, i, text, line);
        text := text + line;
      }
      assert keys[..|keys|] == keys;
    }

    /** `save(update)` once the folder of the page exists: open, write, close, and reload. */
    method WriteOut(update: bool) returns (o: Outcome)
      modifies this, fs
      ensures WriteFile(old(fs.tree), path, []).Err? ==>
        o == Fail(IOError) && fs.tree == old(fs.tree) && View() == old(View())
      ensures var text := Written(kind, old(meta), old(body), env.linesep);
        WriteFile(old(fs.tree), path, []).Ok? ==>
          && fs.tree == WriteFile(old(fs.tree), path, text).value
          && (old(body).None? ==> o == Fail(AttributeError) && View() == old(View()))
          && (old(body).Some? && !update ==> o == Pass && View() == old(View()))
          && (old(body).Some? && update ==> content == Some(Universal(text)) && Reloaded(o, old(View()), Universal(text)))
    {
      if WriteFile(fs.tree, path, []).Err? {
        return Fail(IOError);
      }
      var text := HeaderText();
      text := text + "\n";
      if body.None? {
        assert text == Written(kind, meta, body, env.linesep);
        var written := fs.Write(path, text);
        return Fail(AttributeError);
      }
      text := text + Replace(body.value, "\r\n", env.linesep);
      var before := fs.tree;
      var written := fs.Write(path, text);
      if !update {
        return Pass;
      }
      WrittenReads(before, path, text);
      var loaded := Load(None);
      assert loaded.Pass?;
      o := Render();
    }

    /** The page after rendering the reloaded `text` again: what `process` returned, or the old fields and its error. */
    predicate Reloaded(o: Outcome, before: Snapshot, text: string)
      reads this
    {
      match Process(kind, env, text)
      case Err(e) => o == Fail(e) && meta == before.meta && body == before.body && html == before.html
      case Ok(p) => o == Pass && Shows(p)
    }

    /**
     * `save(update)`: creates the missing folder, writes the header lines in sorted key
     * order, a newline and the body, then with `update` loads and renders the file again.
     */
    method Save(update: bool) returns (o: Outcome)
      modifies this, fs
      ensures var prep := Prepared(old(fs.tree), path);
        prep.Err? ==> o == Fail(OSError) && fs.tree == old(fs.tree) && View() == old(View())
      ensures var prep := Prepared(old(fs.tree), path);
        prep.Ok? && WriteFile(prep.value, path, []).Err? ==> o == Fail(IOError) && fs.tree == prep.value && View() == old(View())
      ensures var prep := Prepared(old(fs.tree), path);
        var text := Written(kind, old(meta), old(body), env.linesep);
        prep.Ok? && WriteFile(prep.value, path, []).Ok? ==>
          && fs.tree == WriteFile(prep.value, path, text).value
          && (old(body).None? ==> o == Fail(AttributeError) && View() == old(View()))
          && (old(body).Some? && !update ==> o == Pass && View() == old(View()))
          && (old(body).Some? && update ==> content == Some(Universal(text)) && Reloaded(o, old(View()), Universal(text)))
    {
      var folder := Dirname(path);
      if !Store.Exists(fs.tree, folder) {
        var made := fs.MakeDirs(folder);
        if made.Fail? {
          return made;
        }
      }
      o := WriteOut(update);
    }
  }

  // ---------------------------------------------------------------------------------------------
  // Reading back what `save` wrote

  /** No key and no written value of the page holds a newline. */
  predicate LineSafe(meta: Meta) {
    forall k :: k in meta ==> '\n' !in k && '\n' !in Str(meta[k])
  }

  /** The header lines of `keys` without their newlines. */
  function HeaderLines(kind: Kind, meta: Meta, keys: seq<string>): (lines: seq<string>)
    requires forall i :: 0 <= i < |keys| ==> keys[i] in meta
    ensures |lines| == |keys|
    ensures forall i :: 0 <= i < |keys| ==> lines[i] + "\n" == HeaderLine(kind, meta, keys[i])
  {
    if keys == [] then []
    else
      var line := HeaderLine(kind, meta, keys[|keys| - 1]);
      HeaderLines(kind, meta, keys[..|keys| - 1]) + [line[..|line| - 1]]
  }

  /** The last key's line ends the header block and, without its newline, the header lines. */
  lemma LastHeaderLine(kind: Kind, meta: Meta, keys: seq<string>)
    requires keys != [] && forall i :: 0 <= i < |keys| ==> keys[i] in meta
    ensures var n := |keys| - 1; var line := HeaderLine(kind, meta, keys[n]);
      && line == line[..|line| - 1] + "\n"
      && HeaderLines(kind, meta, keys) == HeaderLines(kind, meta, keys[..n]) + [line[..|line| - 1]]
      && MetaBlock(kind, meta, keys) == MetaBlock(kind, meta, keys[..n]) + line
  {
    var lines := HeaderLines(kind, meta, keys);
    assert lines[|keys| - 1] + "\n" == HeaderLine(kind, meta, keys[|keys| - 1]);
  }

  /** The header block is the header lines joined by newlines, with a final newline. */
  lemma {:induction false} MetaBlockLines(kind: Kind, meta: Meta, keys: seq<string>)
    requires keys != [] && forall i :: 0 <= i < |keys| ==> keys[i] in meta
    ensures MetaBlock(kind, meta, keys) == Join(HeaderLines(kind, meta, keys), "\n") + "\n"
  {
    var n := |keys| - 1;
    var line := HeaderLine(kind, meta, keys[n]);
    var last := line[..|line| - 1];
    var front := HeaderLines(kind, meta, keys[..n]);
    LastHeaderLine(kind, meta, keys);
    if n == 0 {
      assert front == [];
      assert Join([last], "\n") == last;
    } else {
      var j := Join(front, "\n");
      assert MetaBlock(kind, meta, keys[..n]) == j + "\n" by {
        MetaBlockLines(kind, meta, keys[..n]);
      }
      assert Join(front + [last], "\n") == (j + "\n") + last by {
        JoinAppend(front, last, "\n");
      }
      AppendAssoc(j + "\n", last, "\n");
    }
  }

  lemma HeaderLineShape(kind: Kind, meta: Meta, key: string)
    requires key in meta && '\n' !in key && '\n' !in Str(meta[key])
    ensures var line := HeaderLine(kind, meta, key); line[..|line| - 1] != [] && '\n' !in line[..|line| - 1]
  {
    var line := HeaderLine(kind, meta, key);
    var v := Str(meta[key]);
    assert line[..|line| - 1] == MetaPrefix(kind) + key + ": " + v;
  }

  /** The header block of `keys`, a newline, then any body: the split falls after the header lines. */
  lemma BlockSplits(kind: Kind, meta: Meta, keys: seq<string>, body: string)
    requires keys != [] && forall i :: 0 <= i < |keys| ==> keys[i] in meta
    requires LineSafe(meta)
    ensures SplitHeader(MetaBlock(kind, meta, keys) + "\n" + body)
         == Ok((Join(HeaderLines(kind, meta, keys), "\n"), body))
  {
    var lines := HeaderLines(kind, meta, keys);
    forall i | 0 <= i < |lines| ensures lines[i] != [] && '\n' !in lines[i] {
      HeaderLineShape(kind, meta, keys[i]);
    }
    var joined := Join(lines, "\n");
    calc {
      MetaBlock(kind, meta, keys) + "\n" + body;
      { MetaBlockLines(kind, meta, keys); }
      (joined + "\n") + "\n" + body;
      { assert (joined + "\n") + "\n" == joined + "\n\n"; }
      joined + "\n\n" + body;
    }
    SplitAfterLines(lines, body);
  }

  /**
   * A page with metadata, saved: splitting the file at its first blank line gives the header
   * lines joined by newlines, and exactly the body as written, even when the body itself
   * holds blank lines.
   */
  lemma SavedSplits(kind: Kind, meta: Meta, body: string, sep: string)
    requires meta != map[] && LineSafe(meta)
    ensures var lines := HeaderLines(kind, meta, SortedKeys(meta.Keys));
      SplitHeader(Written(kind, meta, Some(body), sep)) == Ok((Join(lines, "\n"), Replace(body, "\r\n", sep)))
  {
    var keys := SortedKeys(meta.Keys);
    assert keys != [] by {
      var k :| k in meta;
      assert k in keys;
    }
    BlockSplits(kind, meta, keys, Replace(body, "\r\n", sep));
  }

  /** No key and no written value of the page holds a carriage return. */
  predicate ReturnFree(meta: Meta) {
    forall k :: k in meta ==> '\r' !in k && '\r' !in Str(meta[k])
  }

  /** The header lines of keys and values without a carriage return hold none either. */
  lemma {:induction false} MetaBlockReturnFree(kind: Kind, meta: Meta, keys: seq<string>)
    requires forall i :: 0 <= i < |keys| ==> keys[i] in meta
    requires ReturnFree(meta)
    ensures '\r' !in MetaBlock(kind, meta, keys)
  {
    if keys != [] {
      MetaBlockReturnFree(kind, meta, keys[..|keys| - 1]);
      var k := keys[|keys| - 1];
      assert '\r' !in k && '\r' !in Str(meta[k]);
    }
  }

  /**
   * Reading back what `save` wrote for a page without carriage returns in its header: the
   * header and the newline come back as written, and the body as universal-newline mode
   * reads it.
   */
  lemma ReadWritten(kind: Kind, meta: Meta, body: string, sep: string)
    requires ReturnFree(meta)
    ensures Universal(Written(kind, meta, Some(body), sep))
         == Header(kind, meta) + "\n" + Universal(Replace(body, "\r\n", sep))
  {
    var h := Header(kind, meta) + "\n";
    MetaBlockReturnFree(kind, meta, SortedKeys(meta.Keys));
    UniversalAppend(h, Replace(body, "\r\n", sep));
    UniversalKeeps(h);
  }

  /**
   * A page with metadata, saved and read back in universal-newline mode: splitting at the
   * first blank line gives the header lines joined by newlines, and the body as written
   * and read.
   */
  lemma ReloadSplits(kind: Kind, meta: Meta, body: string, sep: string)
    requires meta != map[] && LineSafe(meta) && ReturnFree(meta)
    ensures var lines := HeaderLines(kind, meta, SortedKeys(meta.Keys));
      SplitHeader(Universal(Written(kind, meta, Some(body), sep)))
        == Ok((Join(lines, "\n"), Universal(Replace(body, "\r\n", sep))))
  {
    NonEmptyKeys(meta);
    ReadWritten(kind, meta, body, sep);
    BlockSplits(kind, meta, SortedKeys(meta.Keys), Universal(Replace(body, "\r\n", sep)));
  }

  /**
   * Saving, loading the file again and processing it gives back the body with its line
   * endings rewritten by `save` and then by the universal-newline reading.
   */
  lemma SaveLoadBody(kind: Kind, env: Env, meta: Meta, body: string, sep: string)
    requires !kind.Plain? && meta != map[] && LineSafe(meta) && ReturnFree(meta)
    ensures var p := Process(kind, env, Universal(Written(kind, meta, Some(body), sep)));
      p.Ok? && p.value.body == Universal(Replace(body, "\r\n", sep))
  {
    ReloadSplits(kind, meta, body, sep);
  }

  /** A body without carriage returns comes back exactly, whatever the line separator. */
  lemma BodyWithoutReturns(body: string, sep: string)
    requires '\r' !in body
    ensures Universal(Replace(body, "\r\n", sep)) == body
  {
    assert !Contains(body, "\r\n") by {
      forall j: nat | j + 2 <= |body| ensures !OccursAt(body, "\r\n", j) {
        assert body[j] != '\r';
      }
    }
    ReplaceAbsent(body, "\r\n", sep);
    UniversalKeeps(body);
  }

  /**
   * A file written with Windows line endings: "x\r\n\r\nb" holds no "\n\n", so `process`
   * of the raw text raises ValueError, but the universal-newline reading "x\n\nb" splits
   * into the header "x" and the body "b".
   */
  lemma WindowsLineEndings(kind: Kind, env: Env)
    requires !kind.Plain?
    ensures Process(kind, env, "x\r\n\r\nb").Err?
    ensures var p := Process(kind, env, Universal("x\r\n\r\nb")); p.Ok? && p.value.body == "b"
  {
    RawUnsplit();
    WindowsRead();
    var read := "x\n\nb";
    assert read == "x" + "\n\n" + "b";
    assert !OccursAt(read, "\n\n", 0);
    SplitHeaderAt(read, "x", "b");
  }

  /** "x\r\n\r\nb" holds no two newlines in a row. */
  lemma RawUnsplit()
    ensures !Contains("x\r\n\r\nb", "\n\n")
  {
    var raw := "x\r\n\r\nb";
    assert raw[0] == 'x' && raw[1] == '\r' && raw[2] == '\n' && raw[3] == '\r' && raw[4] == '\n' && raw[5] == 'b';
    forall j: nat | j + 2 <= |raw| ensures !OccursAt(raw, "\n\n", j) {
      assert raw[j..j + 2] == [raw[j], raw[j + 1]];
    }
  }

  lemma WindowsRead()
    ensures Universal("x\r\n\r\nb") == "x\n\nb"
  {
    var raw := "x\r\n\r\nb";
    assert raw[1..] == "\r\n\r\nb" && raw[1..][2..] == "\r\nb" && raw[1..][2..][2..] == "b";
    assert Universal("b") == "b" by { assert "b"[1..] == []; }
  }

  /**
   * Without metadata the round trip fails: the file is a newline then the body, so `process`
   * splits at the first blank line inside the body. The body "a\n\nb" comes back as "b".
   */
  lemma EmptyMetaLosesBody(kind: Kind, env: Env, sep: string)
    requires !kind.Plain?
    ensures var p := Process(kind, env, Universal(Written(kind, map[], Some("a\n\nb"), sep)));
      p.Ok? && p.value.body == "b" && p.value.body != Universal(Replace("a\n\nb", "\r\n", sep))
  {
    WrittenBare(kind, sep);
    BodyWithoutReturns("a\n\nb", sep);
    UniversalKeeps("\na\n\nb");
    BareSplits();
  }

  /** The bare file "\na\n\nb" splits at its first blank line, inside the body. */
  lemma BareSplits()
    ensures SplitHeader("\na\n\nb") == Ok(("\na", "b"))
  {
    var raw := "\na\n\nb";
    assert raw == "\na" + "\n\n" + "b";
    assert !OccursAt(raw, "\n\n", 0) && !OccursAt(raw, "\n\n", 1) by {
      assert raw[1] == 'a';
    }
    SplitHeaderAt(raw, "\na", "b");
  }

  /** With no metadata the file holds a newline and then the body, here one without "\r\n". */
  lemma WrittenBare(kind: Kind, sep: string)
    ensures Written(kind, map[], Some("a\n\nb"), sep) == "\na\n\nb"
    ensures Replace("a\n\nb", "\r\n", sep) == "a\n\nb"
  {
    var body := "a\n\nb";
    var none: Meta := map[];
    assert SortedKeys(none.Keys) == [];
    forall j: nat ensures !OccursAt(body, "\r\n", j) {
      if j + 2 <= |body| {
        assert body[j] != '\r';
      }
    }
    ReplaceAbsent(body, "\r\n", sep);
  }

  /** Metadata that survives a save and a reload in reStructuredText. */
  predicate Fits(env: Env, meta: Meta) {
    forall k :: k in meta ==> EntryFits(env, k, meta[k])
  }

  /** One key and its string value that survive a save and a reload in reStructuredText. */
  predicate EntryFits(env: Env, k: string, v: MetaValue) {
    KeyFits(env, k) && v.Scalar? && ValueFits(v.text) && '\r' !in k && '\r' !in v.text
  }

  /**
   * Round trip of a reStructuredText page: string values under lower-case, stripped,
   * single-line keys without ": ", themselves stripped and single-line, are read back as
   * the same keys with the same values, and the body comes back with its line endings rewritten.
   * Neither keys nor values may hold "\r", which the reload reads as a line break.
   */
  lemma SaveLoadMeta(env: Env, meta: Meta, body: string, sep: string)
    requires meta != map[] && Fits(env, meta)
    ensures ReadsBack(env, meta, body, sep)
  {
    FitsSafe(env, meta);
    FitsKeys(env, meta);
    SortedKeysAscending(meta.Keys);
    SavedMeta(env, meta, SortedKeys(meta.Keys), body, sep);
  }

  /**
   * Processing what `save` wrote for `meta` and `body` as reStructuredText, read back in
   * universal-newline mode, succeeds, gives back the body with its line endings rewritten,
   * the same keys, and the same value under each key.
   */
  predicate ReadsBack(env: Env, meta: Meta, body: string, sep: string) {
    var p := Process(RestructuredText, env, Universal(Written(RestructuredText, meta, Some(body), sep)));
    && p.Ok? && p.value.body == Universal(Replace(body, "\r\n", sep))
    && p.value.meta.Keys == meta.Keys
    && forall k :: k in meta ==> Item(FromProcess(p.value.meta), k) == Ok(meta[k])
  }

  /** `SaveLoadMeta` with the facts about fitting metadata spelled out over its sorted keys. */
  lemma SavedMeta(env: Env, meta: Meta, keys: seq<string>, body: string, sep: string)
    requires meta != map[] && keys == SortedKeys(meta.Keys) && LineSafe(meta) && ReturnFree(meta)
    requires forall i :: 0 <= i < |keys| ==> keys[i] in meta && meta[keys[i]].Scalar?
    requires forall i :: 0 <= i < |keys| ==> KeyFits(env, keys[i]) && ValueFits(meta[keys[i]].text)
    requires StrictlyAscending(keys)
    ensures ReadsBack(env, meta, body, sep)
  {
    var text := Universal(Written(RestructuredText, meta, Some(body), sep));
    var header := Join(HeaderLines(RestructuredText, meta, keys), "\n");
    var b := Universal(Replace(body, "\r\n", sep));
    var m := MetaOf(env, Split(header, '\n'));
    ReloadSplits(RestructuredText, meta, body, sep);
    ReadsSplit(env, text, header, b);
    NonEmptyKeys(meta);
    BlockMeta(env, meta, keys);
    ItemsBack(meta, keys, m);
  }

  lemma ReadsSplit(env: Env, text: string, header: string, b: string)
    requires SplitHeader(text) == Ok((header, b))
    ensures var p := Process(RestructuredText, env, text);
      p.Ok? && p.value.body == b && p.value.meta == MetaOf(env, Split(header, '\n'))
  {
  }

  lemma NonEmptyKeys(meta: Meta)
    requires meta != map[]
    ensures SortedKeys(meta.Keys) != []
  {
    var k :| k in meta;
    assert k in SortedKeys(meta.Keys);
  }

  /** A parsed header holding each sorted key with its string as sole value reads back as the page's metadata. */
  lemma ItemsBack(meta: Meta, keys: seq<string>, m: map<string, seq<string>>)
    requires keys == SortedKeys(meta.Keys)
    requires forall i :: 0 <= i < |keys| ==> keys[i] in meta && meta[keys[i]].Scalar?
    requires forall k :: k in m <==> k in keys
    requires forall i :: 0 <= i < |keys| ==> m[keys[i]] == [meta[keys[i]].text]
    ensures m.Keys == meta.Keys
    ensures forall k :: k in meta ==> Item(FromProcess(m), k) == Ok(meta[k])
  {
    forall k | k in meta ensures k in m && m[k] == [meta[k].text] {
      assert k in keys;
      var i :| 0 <= i < |keys| && keys[i] == k;
    }
  }

  /** Fitting metadata is line-safe and free of carriage returns. */
  lemma FitsSafe(env: Env, meta: Meta)
    requires Fits(env, meta)
    ensures LineSafe(meta) && ReturnFree(meta)
  {
    forall k | k in meta ensures '\n' !in k && '\n' !in Str(meta[k]) && '\r' !in k && '\r' !in Str(meta[k]) {
      FitsKey(env, meta, k);
      FitsReturnFree(env, meta, k);
    }
  }

  /** The sorted keys of fitting metadata carry fitting string values. */
  lemma FitsKeys(env: Env, meta: Meta)
    requires Fits(env, meta)
    ensures var keys := SortedKeys(meta.Keys);
      && (forall i :: 0 <= i < |keys| ==> keys[i] in meta && meta[keys[i]].Scalar?)
      && (forall i :: 0 <= i < |keys| ==> KeyFits(env, keys[i]) && ValueFits(meta[keys[i]].text))
  {
    var keys := SortedKeys(meta.Keys);
    forall i | 0 <= i < |keys|
      ensures keys[i] in meta && meta[keys[i]].Scalar? && KeyFits(env, keys[i]) && ValueFits(meta[keys[i]].text)
    {
      var k := keys[i];
      assert k in keys;
      FitsKey(env, meta, k);
    }
  }

  /** One key of fitting metadata. */
  lemma FitsKey(env: Env, meta: Meta, k: string)
    requires Fits(env, meta) && k in meta.Keys
    ensures k in meta && meta[k].Scalar? && KeyFits(env, k) && ValueFits(meta[k].text)
  {
    assert EntryFits(env, k, meta[k]);
  }

  /** One key of fitting metadata holds no carriage return, and neither does its value. */
  lemma FitsReturnFree(env: Env, meta: Meta, k: string)
    requires Fits(env, meta) && k in meta
    ensures meta[k].Scalar? && '\r' !in k && '\r' !in meta[k].text
  {
    assert EntryFits(env, k, meta[k]);
  }

  /** The string values of `keys`, in order. */
  function Texts(meta: Meta, keys: seq<string>): (values: seq<string>)
    requires forall i :: 0 <= i < |keys| ==> keys[i] in meta && meta[keys[i]].Scalar?
    ensures |values| == |keys| && forall i :: 0 <= i < |keys| ==> values[i] == meta[keys[i]].text
  {
    seq(|keys|, i requires 0 <= i < |keys| => meta[keys[i]].text)
  }

  /** The header line of a string value is `render_meta` of that very string. */
  lemma HeaderLinesRendered(meta: Meta, keys: seq<string>)
    requires forall i :: 0 <= i < |keys| ==> keys[i] in meta && meta[keys[i]].Scalar?
    ensures var lines := HeaderLines(RestructuredText, meta, keys); var values := Texts(meta, keys);
      forall i :: 0 <= i < |lines| ==> lines[i] + "\n" == RenderMeta(RestructuredText, keys[i], values[i])
  {
  }

  /** The string values of fitting keys fit. */
  lemma TextsFit(env: Env, meta: Meta, keys: seq<string>)
    requires forall i :: 0 <= i < |keys| ==> keys[i] in meta && meta[keys[i]].Scalar?
    requires forall i :: 0 <= i < |keys| ==> KeyFits(env, keys[i]) && ValueFits(meta[keys[i]].text)
    ensures var values := Texts(meta, keys);
      forall i :: 0 <= i < |keys| ==> KeyFits(env, keys[i]) && ValueFits(values[i])
  {
  }

  /** The header lines of distinct fitting keys with string values, parsed: each key with its string as sole value. */
  lemma HeaderLinesMeta(env: Env, meta: Meta, keys: seq<string>)
    requires forall i :: 0 <= i < |keys| ==> keys[i] in meta && meta[keys[i]].Scalar?
    requires forall i :: 0 <= i < |keys| ==> KeyFits(env, keys[i]) && ValueFits(meta[keys[i]].text)
    requires forall i, j :: 0 <= i < j < |keys| ==> keys[i] != keys[j]
    ensures var m := MetaOf(env, HeaderLines(RestructuredText, meta, keys));
      && (forall k :: k in m <==> k in keys)
      && forall i :: 0 <= i < |keys| ==> m[keys[i]] == [meta[keys[i]].text]
  {
    HeaderLinesRendered(meta, keys);
    TextsFit(env, meta, keys);
    MetaOfRendered(env, keys, Texts(meta, keys), HeaderLines(RestructuredText, meta, keys));
  }

  /** The same lines joined by newlines and split again: what `_parse_meta` reads after `save`. */
  lemma BlockMeta(env: Env, meta: Meta, keys: seq<string>)
    requires keys != [] && forall i :: 0 <= i < |keys| ==> keys[i] in meta && meta[keys[i]].Scalar?
    requires forall i :: 0 <= i < |keys| ==> KeyFits(env, keys[i]) && ValueFits(meta[keys[i]].text)
    requires forall i, j :: 0 <= i < j < |keys| ==> keys[i] != keys[j]
    ensures var m := MetaOf(env, Split(Join(HeaderLines(RestructuredText, meta, keys), "\n"), '\n'));
      && (forall k :: k in m <==> k in keys)
      && forall i :: 0 <= i < |keys| ==> m[keys[i]] == [meta[keys[i]].text]
  {
    var lines := HeaderLines(RestructuredText, meta, keys);
    forall i | 0 <= i < |lines| ensures '\n' !in lines[i] {
      HeaderLineShape(RestructuredText, meta, keys[i]);
    }
    SplitJoin(lines, '\n');
    HeaderLinesMeta(env, meta, keys);
  }

  /** The header block depends on the values only through what `'%s' % value` prints. */
  lemma {:induction false} MetaBlockPrinted(kind: Kind, m1: Meta, m2: Meta, keys: seq<string>)
    requires forall i :: 0 <= i < |keys| ==> keys[i] in m1 && keys[i] in m2 && Str(m1[keys[i]]) == Str(m2[keys[i]])
    ensures MetaBlock(kind, m1, keys) == MetaBlock(kind, m2, keys)
  {
    if keys != [] {
      MetaBlockPrinted(kind, m1, m2, keys[..|keys| - 1]);
    }
  }

  /**
   * `'%s' % [item]` for a one-element list: the item's `repr` in brackets, which is
   * `[u'item']` exactly when every character of the item is printable ASCII other than
   * the quote and the backslash.
   */
  lemma ReprOne(item: string)
    ensures Str(Values([item])) == "[" + Escape.Repr(item) + "]"
    ensures Str(Values([item])) == "[u'" + item + "']" <==> Escape.AllPlain(item)
  {
    var r := Escape.Repr(item);
    assert Reprs([item]) == [r];
    assert Join([r], ", ") == r;
    Escape.ReprPlain(item);
    assert "[u'" + item + "']" == "[" + ("u'" + item + "'") + "]";
    Bracketed(r, "u'" + item + "'");
  }

  lemma Bracketed(x: string, y: string)
    ensures "[" + x + "]" == "[" + y + "]" <==> x == y
  {
    if "[" + x + "]" == "[" + y + "]" {
      assert x == ("[" + x + "]")[1..|x| + 1];
      assert y == ("[" + y + "]")[1..|y| + 1];
    }
  }

  /** A list value prints as printable ASCII, so never with a newline or "\r", whatever its items hold. */
  lemma ListPrinted(xs: seq<string>)
    ensures Escape.Printable(Str(Values(xs))) && '\n' !in Str(Values(xs)) && '\r' !in Str(Values(xs))
  {
    var rs := Reprs(xs);
    forall i | 0 <= i < |rs| ensures Escape.Printable(rs[i]) {
      Escape.ReprPrintable(xs[i]);
    }
    Escape.JoinPrintable(rs, ", ");
    var s := Str(Values(xs));
    assert s == "[" + Join(rs, ", ") + "]";
    Escape.PrintableAppend("[", Join(rs, ", "));
    Escape.PrintableAppend("[" + Join(rs, ", "), "]");
    assert '\n' !in s && '\r' !in s by {
      forall i | 0 <= i < |s| ensures s[i] != '\n' && s[i] != '\r' {
        assert Escape.PrintableChar(s[i]);
      }
    }
  }

  /** Saving `{"title": [u'Caf\xe9']}` writes the accented letter as the escape `\xe9`. */
  lemma CafeWritten()
    ensures Str(Values(["Caf\U{e9}"])) == "[u'Caf\\xe9']"
  {
    var shown := "u'Caf\\xe9'";
    assert "[u'Caf\\xe9']" == "[" + shown + "]";
    ReprOne("Caf\U{e9}");
    Escape.ReprCafe();
  }

  /** `save` writes a value and the string it prints as the same file. */
  lemma WrittenPrinted(kind: Kind, meta: Meta, key: string, body: Option<string>, sep: string)
    requires key in meta
    ensures Written(kind, meta, body, sep) == Written(kind, meta[key := Scalar(Str(meta[key]))], body, sep)
  {
    var shown := meta[key := Scalar(Str(meta[key]))];
    assert meta.Keys == shown.Keys;
    MetaBlockPrinted(kind, meta, shown, SortedKeys(meta.Keys));
  }

  /**
   * A list value (as every value read from a file is) is written back by `save` as its
   * Python representation, so the next load reads that representation as a string:
   * `[u'a']` rather than `a`.
   */
  lemma ListValueResaved(env: Env, meta: Meta, key: string, body: string, sep: string)
    requires key in meta && meta[key].Values?
    requires Fits(env, meta[key := Scalar(Str(meta[key]))])
    ensures var p := Process(RestructuredText, env, Universal(Written(RestructuredText, meta, Some(body), sep)));
      p.Ok? && Item(FromProcess(p.value.meta), key) == Ok(Scalar(Str(meta[key])))
  {
    var shown := meta[key := Scalar(Str(meta[key]))];
    var p := Process(RestructuredText, env, Universal(Written(RestructuredText, shown, Some(body), sep)));
    assert p.Ok? && Item(FromProcess(p.value.meta), key) == Ok(shown[key]) by {
      SaveLoadMeta(env, shown, body, sep);
      assert key in shown;
    }
    WrittenPrinted(RestructuredText, meta, key, Some(body), sep);
  }
}
