/**
 * The markup classes of waliki/markup.py as far as the page store depends on them:
 * their file extensions and metadata-line templates, the split of a page text into
 * its metadata header and its body, the reStructuredText metadata parser and the
 * link targets appended for unknown reference names. The HTML renderers themselves
 * are the foreign functions of `Env`.
 */
module Markup {
  import opened Base
  import opened Text

  /** The base class `Markup` (whose NAME is 'Text'), `Markdown` and `RestructuredText`. */
  datatype Kind = Plain | Markdown | RestructuredText

  /** The class attribute EXTENSION. */
  function Extension(kind: Kind): (ext: string)
    ensures |ext| >= 3 && ext[0] == '.' && '/' !in ext
  {
    match kind
    case Plain => ".txt"
    case Markdown => ".md"
    case RestructuredText => ".rst"
  }

  /** The text META_LINE puts before the key. */
  function MetaPrefix(kind: Kind): string {
    if kind.RestructuredText? then ".. " else ""
  }

  /** The class attribute META_LINE: '%s: %s\n', or '.. %s: %s\n' for reStructuredText. */
  function MetaLine(kind: Kind): string {
    MetaPrefix(kind) + ("%s" + (": " + ("%s" + "\n")))
  }

  /** `render_meta(key, value)`: one header line. */
  function RenderMeta(kind: Kind, key: string, value: string): (line: string)
    ensures kind.RestructuredText? ==> line == ".. " + key + ": " + value + "\n"
    ensures !kind.RestructuredText? ==> line == key + ": " + value + "\n"
  {
    FormatTwo(MetaPrefix(kind), ": ", "\n", key, value);
    Format(MetaLine(kind), [key, value])
  }

  // ---------------------------------------------------------------------------------------------
  // The header

  /** `raw.split('\n\n', 1)` unpacked into `meta_lines, body`: split at the first blank line, or ValueError. */
  function SplitHeader(raw: string): (r: Result<(string, string)>)
    ensures r.Err? <==> !Contains(raw, "\n\n")
    ensures r.Err? ==> r.error == ValueError
    ensures r.Ok? ==> raw == r.value.0 + "\n\n" + r.value.1
    ensures r.Ok? ==> forall j: nat :: j < |r.value.0| ==> !OccursAt(raw, "\n\n", j)
  {
    match SplitOnce(raw, "\n\n")
    case None => Err(ValueError)
    case Some(parts) => Ok(parts)
  }

  /** The text up to the first newline: what `.*` matches. */
  function FirstLine(s: string): (r: string)
    ensures |r| <= |s| && r == s[..|r|] && '\n' !in r
    ensures |r| == |s| || s[|r|] == '\n'
  {
    if s == [] || s[0] == '\n' then [] else [s[0]] + FirstLine(s[1..])
  }

  /**
   * `META_RE.match(line)` with META_RE = `^\.\.\s(?P<key>.*?): (?P<value>.*)`: two dots and one
   * whitespace character, then the key up to the first ": " (the lazy group stops at the earliest
   * one, and `.` never crosses a newline), then the value up to the end of the line.
   */
  function MatchMetaLine(line: string): (r: Option<(string, string)>)
    ensures r.Some? ==> |line| >= 3 && line[0] == '.' && line[1] == '.' && IsRegexSpace(line[2])
    ensures r.Some? ==> var rest := line[3..]; var key := r.value.0; var value := r.value.1;
      && '\n' !in key && '\n' !in value
      && |key| + 2 + |value| <= |rest|
      && rest[..|key| + 2 + |value|] == key + ": " + value
      && (|key| + 2 + |value| == |rest| || rest[|key| + 2 + |value|] == '\n')
      && forall j: nat :: j < |key| ==> !OccursAt(rest, ": ", j)
    ensures r.None? && |line| >= 3 && line[0] == '.' && line[1] == '.' && IsRegexSpace(line[2]) ==>
      forall j: nat :: OccursAt(line[3..], ": ", j) ==> '\n' in line[3..][..j]
  {
    if |line| < 3 || line[0] != '.' || line[1] != '.' || !IsRegexSpace(line[2]) then None
    else
      var rest := line[3..];
      match Find(rest, ": ")
      case None => None
      case Some(j) =>
        if '\n' in rest[..j] then
          KeyCrossesLine(rest, j);
          None
        else
          var value := FirstLine(rest[j + 2..]);
          KeyAndValue(rest, j, value);
          Some((rest[..j], value))
  }

  /** A newline before the first `": "` lies before every `": "`. */
  lemma KeyCrossesLine(rest: string, j: nat)
    requires j <= |rest| && '\n' in rest[..j]
    requires forall k :: 0 <= k < j ==> !OccursAt(rest, ": ", k)
    ensures forall k: nat :: OccursAt(rest, ": ", k) ==> '\n' in rest[..k]
  {
    forall k: nat | OccursAt(rest, ": ", k) ensures '\n' in rest[..k] {
      var w :| 0 <= w < j && rest[w] == '\n';
      assert rest[..k][w] == '\n';
    }
  }

  /** The text up to the first `": "`, the separator and the first line after it, as a prefix of `rest`. */
  lemma KeyAndValue(rest: string, j: nat, value: string)
    requires OccursAt(rest, ": ", j) && value == FirstLine(rest[j + 2..])
    ensures |rest[..j]| + 2 + |value| <= |rest|
    ensures rest[..|rest[..j]| + 2 + |value|] == rest[..j] + ": " + value
    ensures |rest[..j]| + 2 + |value| == |rest| || rest[|rest[..j]| + 2 + |value|] == '\n'
  {
    assert rest[j..j + 2] == ": ";
    assert rest[..j + 2 + |value|] == rest[..j] + ": " + value;
  }

  // ---------------------------------------------------------------------------------------------
  // `_parse_meta`

  /**
   * What `_parse_meta` takes from one line: nothing from a whitespace-only line or a line
   * the pattern does not match; otherwise the key lower-cased then stripped, and the value stripped.
   */
  function LineEntry(env: Env, line: string): Option<(string, string)> {
    if Strip(line) == [] then None
    else match MatchMetaLine(line)
      case None => None
      case Some((k, v)) => Some((Strip(env.lower(k)), Strip(v)))
  }

  /** What `_parse_meta` takes from each of the lines. */
  function Entries(env: Env, lines: seq<string>): (es: seq<Option<(string, string)>>)
    ensures |es| == |lines|
    ensures forall i :: 0 <= i < |lines| ==> es[i] == LineEntry(env, lines[i])
  {
    seq(|lines|, i requires 0 <= i < |lines| => LineEntry(env, lines[i]))
  }

  /** The dictionary built from `es` by adding each value to the list of its key, in order. */
  function Accumulate(es: seq<Option<(string, string)>>): map<string, seq<string>> {
    if es == [] then map[]
    else
      var meta := Accumulate(es[..|es| - 1]);
      match es[|es| - 1]
      case None => meta
      case Some((key, value)) =>
        if key in meta then meta[key := meta[key] + [value]] else meta[key := [value]]
  }

  /** The dictionary `_parse_meta` returns for `lines`. */
  function MetaOf(env: Env, lines: seq<string>): map<string, seq<string>> {
    Accumulate(Entries(env, lines))
  }

  /** The values carried under `key`, in order. */
  function ValuesFor(es: seq<Option<(string, string)>>, key: string): seq<string> {
    if es == [] then []
    else
      (match es[0]
       case Some((k, v)) => if k == key then [v] else []
       case None => [])
      + ValuesFor(es[1..], key)
  }

  lemma {:induction false} ValuesForAppend(es: seq<Option<(string, string)>>, e: Option<(string, string)>, key: string)
    ensures ValuesFor(es + [e], key) == ValuesFor(es, key) + ValuesFor([e], key)
  {
    if es != [] {
      ValuesForAppend(es[1..], e, key);
      assert (es + [e])[1..] == es[1..] + [e];
    } else {
      assert es + [e] == [e];
    }
  }

  /**
   * The dictionary holds exactly the keys some entry carries, and under each key the
   * values of the entries carrying it, in order: repeated keys accumulate.
   */
  lemma {:induction false} AccumulateValues(es: seq<Option<(string, string)>>, key: string)
    ensures key in Accumulate(es) <==> ValuesFor(es, key) != []
    ensures key in Accumulate(es) ==> Accumulate(es)[key] == ValuesFor(es, key)
  {
    if es != [] {
      var init := es[..|es| - 1];
      var last := es[|es| - 1];
      AccumulateValues(init, key);
      ValuesForAppend(init, last, key);
      assert init + [last] == es;
      assert [last][1..] == [];
    }
  }

  /** Every key of a parsed dictionary maps to a non-empty list. */
  lemma MetaOfNonEmpty(env: Env, lines: seq<string>)
    ensures forall k :: k in MetaOf(env, lines) ==> MetaOf(env, lines)[k] != []
  {
    forall k | k in MetaOf(env, lines) ensures MetaOf(env, lines)[k] != [] {
      AccumulateValues(Entries(env, lines), k);
    }
  }

  /** `_parse_meta(lines)`: the loop over the lines, appending to the list of a known key. */
  method ParseMeta(env: Env, lines: seq<string>) returns (meta: map<string, seq<string>>)
    ensures meta == MetaOf(env, lines)
  {
    ghost var es := Entries(env, lines);
    meta := map[];
    for i := 0 to |lines|
      invariant meta == Accumulate(es[..i])
    {
      var line := lines[i];
      AccumulateNext(es, i);
      assert es[i] == LineEntry(env, line);
      if Strip(line) == [] {
        continue;
      }
      var m1 := MatchMetaLine(line);
      if m1.Some? {
        var key := Strip(env.lower(m1.value.0));
        var value := Strip(m1.value.1);
        if key in meta {
          meta := meta[key := meta[key] + [value]];
        } else {
          meta := meta[key := [value]];
        }
      }
    }
    assert es[..|lines|] == es;
  }

  /** One more entry: its value joins the list of its key, or starts one. */
  lemma AccumulateNext(es: seq<Option<(string, string)>>, i: nat)
    requires i < |es|
    ensures Accumulate(es[..i + 1]) ==
      match es[i]
      case None => Accumulate(es[..i])
      case Some((key, value)) =>
        var meta := Accumulate(es[..i]);
        if key in meta then meta[key := meta[key] + [value]] else meta[key := [value]]
  {
    assert es[..i + 1][..i] == es[..i];
  }

  /** A key `render_meta` can write so that `_parse_meta` reads it back unchanged. */
  predicate KeyFits(env: Env, key: string) {
    env.lower(key) == key && Strip(key) == key && !Contains(key, ": ") && '\n' !in key
  }

  /** A value `render_meta` can write so that `_parse_meta` reads it back unchanged. */
  predicate ValueFits(value: string) {
    Strip(value) == value && '\n' !in value
  }

  /**
   * A reStructuredText header line read back: with or without its newline, the line
   * `render_meta` writes for a fitting key and value yields exactly that key and value.
   */
  lemma RenderedLineEntry(env: Env, key: string, value: string)
    requires KeyFits(env, key) && ValueFits(value)
    ensures var line := RenderMeta(RestructuredText, key, value);
      LineEntry(env, line) == Some((key, value)) && LineEntry(env, line[..|line| - 1]) == Some((key, value))
  {
    var line := RenderMeta(RestructuredText, key, value);
    var short := line[..|line| - 1];
    assert short == ".. " + key + ": " + value;
    assert line == ".. " + key + ": " + (value + "\n");
    TailEntry(env, key, value, value);
    TailEntry(env, key, value, value + "\n");
  }

  /** The header line for a fitting key and value, followed by `tail`, is read back as that pair. */
  lemma TailEntry(env: Env, key: string, value: string, tail: string)
    requires KeyFits(env, key) && ValueFits(value)
    requires tail == value || tail == value + "\n"
    ensures LineEntry(env, ".. " + key + ": " + tail) == Some((key, value))
  {
    var line := ".. " + key + ": " + tail;
    MatchesRendered(key, value, tail);
    NotBlank(line);
  }

  lemma NotBlank(s: string)
    requires |s| > 0 && s[0] == '.'
    ensures Strip(s) != []
  {
    StripEmpty(s);
  }

  /** No ": " starts inside a key that holds none, even when ": " follows the key. */
  lemma FirstSeparator(key: string, more: string)
    requires !Contains(key, ": ")
    ensures forall j: nat :: j < |key| ==> !OccursAt(key + ": " + more, ": ", j)
  {
    var rest := key + ": " + more;
    forall j: nat | j < |key| ensures !OccursAt(rest, ": ", j) {
      if j + 2 <= |key| {
        assert key[j..j + 2] == rest[j..j + 2];
        assert !OccursAt(key, ": ", j);
      } else {
        assert rest[j + 1] == ':';
      }
    }
  }

  lemma MatchesRendered(key: string, value: string, tail: string)
    requires !Contains(key, ": ") && '\n' !in key && '\n' !in value
    requires tail == value || tail == value + "\n"
    ensures MatchMetaLine(".. " + key + ": " + tail) == Some((key, value))
  {
    var rest := key + ": " + tail;
    var line := ".. " + rest;
    assert line == ".. " + key + ": " + tail;
    assert line[3..] == rest;
    FindsSeparator(key, tail);
    assert rest[..|key|] == key;
    assert rest[|key| + 2..] == tail;
    FirstLineOf(value, tail);
  }

  /** The first `": "` in `key: more` is the one after the key, when the key holds none. */
  lemma FindsSeparator(key: string, more: string)
    requires !Contains(key, ": ")
    ensures Find(key + ": " + more, ": ") == Some(|key|)
  {
    var rest := key + ": " + more;
    FirstSeparator(key, more);
    assert rest[|key|..|key| + 2] == ": ";
    assert OccursAt(rest, ": ", |key|);
  }

  lemma {:induction false} FirstLineOf(value: string, s: string)
    requires '\n' !in value && (s == value || s == value + "\n")
    ensures FirstLine(s) == value
  {
    if value != [] {
      assert s[0] == value[0];
      assert value[0] in value;
      FirstLineOf(value[1..], s[1..]);
      assert value == [value[0]] + value[1..];
    }
  }

  lemma {:induction false} AccumulateDistinct(es: seq<Option<(string, string)>>, keys: seq<string>, values: seq<string>)
    requires |keys| == |values| == |es|
    requires forall i :: 0 <= i < |es| ==> es[i] == Some((keys[i], values[i]))
    requires forall i, j :: 0 <= i < j < |keys| ==> keys[i] != keys[j]
    ensures forall k :: k in Accumulate(es) <==> k in keys
    ensures forall i :: 0 <= i < |keys| ==> Accumulate(es)[keys[i]] == [values[i]]
  {
    if es != [] {
      var n := |es| - 1;
      AccumulateDistinct(es[..n], keys[..n], values[..n]);
      var before := Accumulate(es[..n]);
      assert keys[n] !in before;
      assert Accumulate(es) == before[keys[n] := [values[n]]];
      assert keys == keys[..n] + [keys[n]];
      forall i | 0 <= i < n ensures Accumulate(es)[keys[i]] == [values[i]] {
        assert keys[..n][i] == keys[i] && values[..n][i] == values[i];
      }
    }
  }

  /** A header of rendered lines with distinct fitting keys parses to one key per line. */
  lemma MetaOfRendered(env: Env, keys: seq<string>, values: seq<string>, lines: seq<string>)
    requires |keys| == |values| == |lines|
    requires forall i :: 0 <= i < |lines| ==> KeyFits(env, keys[i]) && ValueFits(values[i])
    requires forall i :: 0 <= i < |lines| ==> lines[i] + "\n" == RenderMeta(RestructuredText, keys[i], values[i])
    requires forall i, j :: 0 <= i < j < |keys| ==> keys[i] != keys[j]
    ensures forall k :: k in MetaOf(env, lines) <==> k in keys
    ensures forall i :: 0 <= i < |keys| ==> MetaOf(env, lines)[keys[i]] == [values[i]]
  {
    var es := Entries(env, lines);
    forall i | 0 <= i < |lines| ensures es[i] == Some((keys[i], values[i])) {
      RenderedLineEntry(env, keys[i], values[i]);
      var line := lines[i] + "\n";
      assert line[..|line| - 1] == lines[i];
    }
    AccumulateDistinct(es, keys, values);
  }

  // ---------------------------------------------------------------------------------------------
  // Link targets for unknown reference names

  /** `'.. _%s: /%s' % (ref, urlify(ref, False))` */
  function AutolinkLine(env: Env, ref: string): (line: string)
    ensures line == ".. _" + ref + ": /" + env.urlify(ref)
  {
    FormatTwo(".. _", ": /", "", ref, env.urlify(ref));
    assert env.urlify(ref) + "" == env.urlify(ref);
    Format(".. _" + ("%s" + (": /" + ("%s" + ""))), [ref, env.urlify(ref)])
  }

  function AutolinkLines(env: Env, refs: seq<string>): (lines: seq<string>)
    ensures |lines| == |refs|
    ensures forall i :: 0 <= i < |refs| ==> lines[i] == AutolinkLine(env, refs[i])
  {
    if refs == [] then [] else [AutolinkLine(env, refs[0])] + AutolinkLines(env, refs[1..])
  }

  /** `get_autolinks(refs)`: a blank line, then one link target per name, joined by newlines. */
  function GetAutolinks(env: Env, refs: seq<string>): string {
    "\n\n" + Join(AutolinkLines(env, refs), "\n")
  }

  /**
   * The text `get_autolinks` appends starts with a blank line, and splitting the rest at
   * newlines gives back one link-target line per name, in the order of the names.
   */
  lemma AutolinksLines(env: Env, refs: seq<string>)
    requires refs != []
    requires forall i :: 0 <= i < |refs| ==> '\n' !in refs[i] && '\n' !in env.urlify(refs[i])
    ensures var s := GetAutolinks(env, refs);
      |s| >= 2 && s[..2] == "\n\n" && Split(s[2..], '\n') == AutolinkLines(env, refs)
  {
    var lines := AutolinkLines(env, refs);
    forall i | 0 <= i < |lines| ensures '\n' !in lines[i] {
      assert lines[i] == ".. _" + refs[i] + ": /" + env.urlify(refs[i]);
    }
    SplitJoin(lines, '\n');
    var s := GetAutolinks(env, refs);
    assert s[2..] == Join(lines, "\n");
  }

  // ---------------------------------------------------------------------------------------------
  // `process`

  datatype Processed = Processed(html: string, body: string, meta: map<string, seq<string>>)

  /** A text that holds no blank line before `header` ends splits after `header`. */
  lemma SplitHeaderAt(raw: string, header: string, body: string)
    requires raw == header + "\n\n" + body
    requires forall j: nat :: j < |header| ==> !OccursAt(raw, "\n\n", j)
    ensures SplitHeader(raw) == Ok((header, body))
  {
    assert raw[|header|..|header| + 2] == "\n\n";
    assert OccursAt(raw, "\n\n", |header|);
    var r := SplitHeader(raw);
    assert r.Ok?;
    var h := r.value.0;
    assert |h| <= |header|;
    assert raw[|h|..|h| + 2] == "\n\n";
    assert OccursAt(raw, "\n\n", |h|);
    assert |h| == |header|;
    assert h == raw[..|h|] == header;
    assert r.value.1 == raw[|h| + 2..] == body;
  }

  /** A header that neither ends with a newline nor holds a blank line, a blank line, then any body. */
  lemma SplitAfterHeader(header: string, body: string)
    requires header == [] || header[|header| - 1] != '\n'
    requires forall j :: 0 <= j < |header| - 1 ==> !(header[j] == '\n' && header[j + 1] == '\n')
    ensures SplitHeader(header + "\n\n" + body) == Ok((header, body))
  {
    var raw := header + "\n\n" + body;
    forall j: nat | j < |header| ensures !OccursAt(raw, "\n\n", j) {
      if j + 1 < |header| {
        assert raw[j] == header[j] && raw[j + 1] == header[j + 1];
      } else {
        assert raw[j] == header[|header| - 1];
      }
    }
    SplitHeaderAt(raw, header, body);
  }

  /** Non-empty single lines joined by newlines, a blank line, then any body: the split falls after the lines. */
  lemma SplitAfterLines(lines: seq<string>, body: string)
    requires |lines| >= 1
    requires forall i :: 0 <= i < |lines| ==> lines[i] != [] && '\n' !in lines[i]
    ensures SplitHeader(Join(lines, "\n") + "\n\n" + body) == Ok((Join(lines, "\n"), body))
  {
    JoinNoBlankLine(lines);
    SplitAfterHeader(Join(lines, "\n"), body);
  }

  /** The HTML of `RestructuredText.process`: rendered again with link targets when names were unknown. */
  function RstHtml(env: Env, raw: string): string {
    var html := env.rstHtml(raw);
    var refs := env.unknownTargets(html);
    if refs != [] then env.rstHtml(raw + GetAutolinks(env, refs)) else html
  }

  /**
   * `Markup(raw).process()`: NotImplementedError for the base class; otherwise the rendered
   * HTML, the body after the first blank line, and the metadata (python-markdown's for
   * Markdown, `_parse_meta` of the header lines for reStructuredText), or ValueError when
   * the text has no blank line.
   */
  function Process(kind: Kind, env: Env, raw: string): (r: Result<Processed>)
    ensures kind.Plain? ==> r == Err(NotImplemented)
    ensures !kind.Plain? ==> (r.Ok? <==> Contains(raw, "\n\n"))
    ensures !kind.Plain? && r.Err? ==> r.error == ValueError
    ensures r.Ok? ==> exists header :: raw == header + "\n\n" + r.value.body && !Contains(header + "\n", "\n\n")
    ensures r.Ok? ==> SplitHeader(raw).Ok? && r.value.body == SplitHeader(raw).value.1
    ensures r.Ok? && kind.Markdown? ==> r.value.html == env.markdownHtml(raw) && r.value.meta == env.markdownMeta(raw)
    ensures r.Ok? && kind.RestructuredText? ==>
      && r.value.html == RstHtml(env, raw)
      && r.value.meta == MetaOf(env, Split(SplitHeader(raw).value.0, '\n'))
    ensures r.Ok? && kind.RestructuredText? ==> forall k :: k in r.value.meta ==> r.value.meta[k] != []
  {
    match kind
    case Plain => Err(NotImplemented)
    case Markdown =>
      (match SplitHeader(raw)
       case Err(e) => Err(e)
       case Ok((header, body)) =>
         HeaderEnd(raw, header);
         Ok(Processed(env.markdownHtml(raw), body, env.markdownMeta(raw))))
    case RestructuredText =>
      (match SplitHeader(raw)
       case Err(e) => Err(e)
       case Ok((header, body)) =>
         HeaderEnd(raw, header);
         var lines := Split(header, '\n');
         MetaOfNonEmpty(env, lines);
         Ok(Processed(RstHtml(env, raw), body, MetaOf(env, lines))))
  }

  /**
   * reStructuredText `process` returns only the keys its header holds: a text that starts
   * with a blank line has an empty header, and its metadata has neither `title` nor `tags`.
   */
  lemma NoHeaderNoKeys(env: Env, body: string)
    ensures var p := Process(RestructuredText, env, "\n\n" + body);
      p.Ok? && p.value.meta == map[] && "title" !in p.value.meta && "tags" !in p.value.meta
  {
    var raw := "\n\n" + body;
    assert raw == "" + "\n\n" + body;
    SplitHeaderAt(raw, "", body);
    assert Split("", '\n') == [""];
    assert Strip("") == [];
    var es := Entries(env, [""]);
    assert es == [None];
    assert es[..0] == [];
    assert Accumulate(es) == map[];
    assert MetaOf(env, Split("", '\n')) == map[];
  }

  /** The header ends at the first blank line: it holds no blank line, not even with the next newline. */
  lemma HeaderEnd(raw: string, header: string)
    requires |header| + 2 <= |raw| && raw[..|header| + 2] == header + "\n\n"
    requires forall j: nat :: j < |header| ==> !OccursAt(raw, "\n\n", j)
    ensures !Contains(header + "\n", "\n\n")
  {
    var h := header + "\n";
    assert forall k :: 0 <= k < |h| ==> h[k] == raw[k];
    forall j: nat ensures !OccursAt(h, "\n\n", j) {
      if OccursAt(h, "\n\n", j) {
        assert j < |header|;
        assert h[j..j + 2] == raw[j..j + 2];
        assert OccursAt(raw, "\n\n", j);
      }
    }
  }
}
