/** The Python string operations the wiki core relies on, on `seq<char>`. */
module Text {
  import opened Base

  /** A character that Python 2's `unicode.strip()` and `unicode.isspace()` treat as whitespace. */
  predicate IsSpace(c: char) {
    || c == ' '
    || ('\t' <= c <= '\r')
    || ('\U{1c}' <= c <= '\U{1f}')
    || c == '\U{85}' || c == '\U{a0}' || c == '\U{1680}' || c == '\U{180e}'
    || ('\U{2000}' <= c <= '\U{200a}')
    || c == '\U{2028}' || c == '\U{2029}' || c == '\U{202f}' || c == '\U{205f}' || c == '\U{3000}'
  }

  /** A character matched by `\s` in a Python 2 pattern compiled without `re.UNICODE`. */
  predicate IsRegexSpace(c: char) {
    c == ' ' || ('\t' <= c <= '\r')
  }

  predicate Blank(s: string) {
    forall i :: 0 <= i < |s| ==> IsSpace(s[i])
  }

  /** `s.lstrip()`: drops the leading whitespace and nothing else. */
  function StripLeft(s: string): (r: string)
    ensures |r| <= |s| && r == s[|s| - |r|..]
    ensures Blank(s[..|s| - |r|])
    ensures r == [] || !IsSpace(r[0])
  {
    if s != [] && IsSpace(s[0]) then
      var r := StripLeft(s[1..]);
      StripLeftStep(s, r);
      r
    else s
  }

  /** A leading whitespace character joins the whitespace `lstrip` drops from the rest. */
  lemma StripLeftStep(s: string, r: string)
    requires s != [] && IsSpace(s[0])
    requires |r| <= |s| - 1 && r == s[1..][|s| - 1 - |r|..] && Blank(s[1..][..|s| - 1 - |r|])
    ensures r == s[|s| - |r|..] && Blank(s[..|s| - |r|])
  {
    var k := |s| - |r|;
    assert s[1..][k - 1..] == s[k..];
    assert forall i :: 1 <= i < k ==> s[..k][i] == s[1..][..k - 1][i - 1];
  }

  /** `s.rstrip()`: drops the trailing whitespace and nothing else. */
  function StripRight(s: string): (r: string)
    ensures |r| <= |s| && r == s[..|r|]
    ensures Blank(s[|r|..])
    ensures r == [] || !IsSpace(r[|r| - 1])
  {
    if s != [] && IsSpace(s[|s| - 1]) then
      var r := StripRight(s[..|s| - 1]);
      StripRightStep(s, r);
      r
    else s
  }

  /** A trailing whitespace character joins the whitespace `rstrip` drops from the rest. */
  lemma StripRightStep(s: string, r: string)
    requires s != [] && IsSpace(s[|s| - 1])
    requires |r| <= |s| - 1 && r == s[..|s| - 1][..|r|] && Blank(s[..|s| - 1][|r|..])
    ensures r == s[..|r|] && Blank(s[|r|..])
  {
    var t := s[|r|..];
    var u := s[..|s| - 1][|r|..];
    assert forall j :: 0 <= j < |u| ==> t[j] == u[j];
  }

  /** `s.strip()`. */
  function Strip(s: string): string {
    StripRight(StripLeft(s))
  }

  /** One character that is not whitespace, alone or after a space, strips to itself. */
  lemma StripSpaced(c: char)
    requires !IsSpace(c)
    ensures Strip([c]) == [c] && Strip([' ', c]) == [c]
  {
    assert StripLeft([c]) == [c];
    assert StripRight([c]) == [c];
    assert [' ', c][1..] == [c];
    assert StripLeft([' ', c]) == StripLeft([c]);
  }

  /** Stripping a text that neither starts nor ends with whitespace leaves it as it is. */
  lemma StripTrimmed(s: string)
    requires s == [] || (!IsSpace(s[0]) && !IsSpace(s[|s| - 1]))
    ensures Strip(s) == s
  {
  }

  /** `s.strip() == ''` holds exactly of the whitespace-only texts. */
  lemma StripEmpty(s: string)
    ensures Strip(s) == [] <==> Blank(s)
  {
    var l := StripLeft(s);
    var k := |s| - |l|;
    if Strip(s) == [] {
      assert Blank(l);
      assert l == [];
      assert s[..k] == s;
    } else {
      var r := Strip(s);
      assert r[0] == l[0] == s[k];
    }
  }

  /** `pat` occurs in `s` starting at index `i`. */
  predicate OccursAt(s: string, pat: string, i: nat) {
    i + |pat| <= |s| && s[i..i + |pat|] == pat
  }

  /** `s.find(pat, start)`, with None for -1. */
  function FindFrom(s: string, pat: string, start: nat): (r: Option<nat>)
    ensures r.Some? ==> start <= r.value && OccursAt(s, pat, r.value)
    ensures r.Some? ==> forall j :: start <= j < r.value ==> !OccursAt(s, pat, j)
    ensures r.None? ==> forall j :: start <= j ==> !OccursAt(s, pat, j)
    decreases |s| - start
  {
    if start + |pat| > |s| then None
    else if OccursAt(s, pat, start) then Some(start)
    else FindFrom(s, pat, start + 1)
  }

  /** `s.find(pat)`: the first occurrence. */
  function Find(s: string, pat: string): Option<nat> {
    FindFrom(s, pat, 0)
  }

  /** `pat in s`. */
  predicate Contains(s: string, pat: string) {
    Find(s, pat).Some?
  }

  /** `s.endswith(suffix)`. */
  predicate EndsWith(s: string, suffix: string) {
    |suffix| <= |s| && s[|s| - |suffix|..] == suffix
  }

  /** `sep.join(parts)`. */
  function Join(parts: seq<string>, sep: string): string {
    if |parts| == 0 then []
    else if |parts| == 1 then parts[0]
    else parts[0] + sep + Join(parts[1..], sep)
  }

  /** `s.split(c)` for a one-character separator. */
  function Split(s: string, c: char): (parts: seq<string>)
    ensures |parts| >= 1
    ensures forall i :: 0 <= i < |parts| ==> c !in parts[i]
    ensures Join(parts, [c]) == s
  {
    if s == [] then [[]]
    else
      var rest := Split(s[1..], c);
      if s[0] == c then [[]] + rest
      else [[s[0]] + rest[0]] + rest[1..]
  }

  lemma {:induction false} SplitPiece(p: string, c: char)
    requires c !in p
    ensures Split(p, c) == [p]
  {
    if p != [] {
      SplitPiece(p[1..], c);
    }
  }

  lemma {:induction false} SplitPieceThen(p: string, c: char, rest: string)
    requires c !in p
    ensures Split(p + [c] + rest, c) == [p] + Split(rest, c)
  {
    var s := p + [c] + rest;
    if p == [] {
      assert s == [c] + rest && s[1..] == rest;
    } else {
      assert s[1..] == p[1..] + [c] + rest;
      var tail := Split(s[1..], c);
      assert tail == [p[1..]] + Split(rest, c) by {
        SplitPieceThen(p[1..], c, rest);
      }
      calc {
        Split(s, c);
        [[s[0]] + tail[0]] + tail[1..];
        { assert [p[0]] + p[1..] == p; }
        [p] + Split(rest, c);
      }
    }
  }

  /** Splitting undoes joining when no part holds the separator. */
  lemma {:induction false} SplitJoin(parts: seq<string>, c: char)
    requires |parts| >= 1
    requires forall i :: 0 <= i < |parts| ==> c !in parts[i]
    ensures Split(Join(parts, [c]), c) == parts
  {
    if |parts| == 1 {
      SplitPiece(parts[0], c);
    } else {
      SplitJoin(parts[1..], c);
      SplitPieceThen(parts[0], c, Join(parts[1..], [c]));
      assert [parts[0]] + parts[1..] == parts;
    }
  }

  /**
   * `s.split(sep, 1)` unpacked into two names: the text before the first
   * occurrence of `sep` and the text after it, or None where Python's unpacking
   * raises ValueError because `sep` does not occur.
   */
  function SplitOnce(s: string, sep: string): (r: Option<(string, string)>)
    ensures r.None? <==> forall j :: !OccursAt(s, sep, j)
    ensures r.Some? ==> s == r.value.0 + sep + r.value.1
    ensures r.Some? ==> forall j: nat :: j < |r.value.0| ==> !OccursAt(s, sep, j)
  {
    match Find(s, sep)
    case None => None
    case Some(i) =>
      assert s == s[..i] + sep + s[i + |sep|..];
      Some((s[..i], s[i + |sep|..]))
  }

  /** `s.replace(pat, rep)`: every occurrence, scanning left to right without overlap. */
  function Replace(s: string, pat: string, rep: string): (r: string)
    requires pat != []
    ensures rep == pat ==> r == s
    decreases |s|
  {
    if |s| < |pat| then s
    else if s[..|pat|] == pat then rep + Replace(s[|pat|..], pat, rep)
    else [s[0]] + Replace(s[1..], pat, rep)
  }

  /** A text without the pattern is left unchanged by `replace`. */
  lemma {:induction false} ReplaceAbsent(s: string, pat: string, rep: string)
    requires pat != [] && !Contains(s, pat)
    ensures Replace(s, pat, rep) == s
  {
    if |s| >= |pat| {
      assert !OccursAt(s, pat, 0);
      assert forall j :: 0 <= j ==> !OccursAt(s[1..], pat, j) by {
        forall j | 0 <= j ensures !OccursAt(s[1..], pat, j) {
          assert !OccursAt(s, pat, j + 1);
          if j + |pat| <= |s[1..]| {
            assert s[1..][j..j + |pat|] == s[j + 1..j + 1 + |pat|];
          }
        }
      }
      ReplaceAbsent(s[1..], pat, rep);
    }
  }

  /**
   * What a file opened in universal-newline mode (`'rU'`) reads as: each "\r\n" and each
   * lone "\r" becomes "\n".
   */
  function Universal(t: string): (r: string)
    ensures '\r' !in r
    ensures |r| <= |t|
    decreases |t|
  {
    if t == [] then []
    else if t[0] != '\r' then [t[0]] + Universal(t[1..])
    else if |t| > 1 && t[1] == '\n' then "\n" + Universal(t[2..])
    else "\n" + Universal(t[1..])
  }

  /** Text without a carriage return reads back unchanged. */
  lemma {:induction false} UniversalKeeps(t: string)
    requires '\r' !in t
    ensures Universal(t) == t
  {
    if t != [] {
      assert t == [t[0]] + t[1..];
      UniversalKeeps(t[1..]);
    }
  }

  /** Reading a text twice in universal-newline mode changes nothing the first reading left. */
  lemma UniversalTwice(t: string)
    ensures Universal(Universal(t)) == Universal(t)
  {
    UniversalKeeps(Universal(t));
  }

  /** Text is read piece by piece, provided the first piece does not end in "\r". */
  lemma {:induction false} UniversalAppend(a: string, b: string)
    requires a == [] || a[|a| - 1] != '\r'
    ensures Universal(a + b) == Universal(a) + Universal(b)
  {
    if a != [] {
      if a[0] != '\r' {
        assert (a + b)[1..] == a[1..] + b;
        UniversalAppend(a[1..], b);
      } else if |a| > 1 && a[1] == '\n' {
        assert (a + b)[2..] == a[2..] + b;
        UniversalAppend(a[2..], b);
      } else {
        assert (a + b)[1] == a[1];
        assert (a + b)[1..] == a[1..] + b;
        UniversalAppend(a[1..], b);
      }
    } else {
      assert a + b == b;
    }
  }

  /** The same reading as two replacements: first of every "\r\n", then of every "\r" left. */
  lemma {:induction false} UniversalReplaces(t: string)
    ensures Universal(t) == Replace(Replace(t, "\r\n", "\n"), "\r", "\n")
  {
    if t == [] {
    } else if t[0] != '\r' {
      var rest := Replace(t[1..], "\r\n", "\n");
      assert Replace(t, "\r\n", "\n") == [t[0]] + rest by {
        if |t| >= 2 {
          assert t[..2] != "\r\n" by { assert t[..2][0] == t[0]; }
        } else {
          assert t[1..] == [];
        }
      }
      assert ([t[0]] + rest)[..1] != "\r" && ([t[0]] + rest)[1..] == rest;
      UniversalReplaces(t[1..]);
    } else if |t| > 1 && t[1] == '\n' {
      assert t[..2] == "\r\n";
      var rest := Replace(t[2..], "\r\n", "\n");
      assert ("\n" + rest)[..1] != "\r" && ("\n" + rest)[1..] == rest;
      UniversalReplaces(t[2..]);
    } else {
      var rest := Replace(t[1..], "\r\n", "\n");
      assert Replace(t, "\r\n", "\n") == "\r" + rest by {
        if |t| >= 2 {
          assert t[..2] != "\r\n" by { assert t[..2][1] == t[1]; }
          assert t == "\r" + t[1..];
        } else {
          assert t == "\r" && t[1..] == [];
        }
      }
      assert ("\r" + rest)[..1] == "\r" && ("\r" + rest)[1..] == rest;
      UniversalReplaces(t[1..]);
    }
  }

  /** The number of `%s` conversions in a format string. */
  function Holes(t: string): nat {
    if |t| < 2 then 0
    else if t[..2] == "%s" then 1 + Holes(t[2..])
    else Holes(t[1..])
  }

  /** `t % tuple(args)` for a format string whose only conversions are `%s`. */
  function Format(t: string, args: seq<string>): string
    requires Holes(t) == |args|
  {
    if |t| < 2 then t
    else if t[..2] == "%s" then args[0] + Format(t[2..], args[1..])
    else [t[0]] + Format(t[1..], args)
  }

  lemma FormatHole(t: string, a: string, args: seq<string>)
    requires Holes(t) == |args|
    ensures Holes("%s" + t) == 1 + |args|
    ensures Format("%s" + t, [a] + args) == a + Format(t, args)
  {
    assert ("%s" + t)[..2] == "%s";
    assert ("%s" + t)[2..] == t;
    assert ([a] + args)[1..] == args;
  }

  lemma FormatChar(c: char, t: string, args: seq<string>)
    requires c != '%' && Holes(t) == |args|
    ensures Holes([c] + t) == |args|
    ensures Format([c] + t, args) == [c] + Format(t, args)
  {
    assert ([c] + t)[1..] == t;
    if t == [] {
      assert [c] + t == [c];
    } else {
      assert ([c] + t)[..2][0] == c;
    }
  }

  /** `replace` with a one-character pattern leaves no occurrence of it when the replacement has none. */
  lemma {:induction false} ReplaceClears(s: string, c: char, rep: string)
    requires c !in rep
    ensures c !in Replace(s, [c], rep)
    decreases |s|
  {
    if |s| >= 1 {
      ReplaceClears(s[1..], c, rep);
    }
  }

  /** Text without conversions formats to itself. */
  lemma {:induction false} FormatPlain(pre: string, t: string, args: seq<string>)
    requires '%' !in pre && Holes(t) == |args|
    ensures Holes(pre + t) == |args|
    ensures Format(pre + t, args) == pre + Format(t, args)
  {
    if pre == [] {
      assert pre + t == t;
    } else {
      var c, rest := pre[0], pre[1..];
      assert c in pre;
      FormatPlain(rest, t, args);
      assert pre + t == [c] + (rest + t);
      FormatChar(c, rest + t, args);
      assert [c] + (rest + Format(t, args)) == pre + Format(t, args);
    }
  }

  /** A template with two `%s` conversions, filled in. */
  lemma FormatTwo(pre: string, mid: string, post: string, a: string, b: string)
    requires '%' !in pre && '%' !in mid && '%' !in post
    ensures Holes(pre + ("%s" + (mid + ("%s" + post)))) == 2
    ensures Format(pre + ("%s" + (mid + ("%s" + post))), [a, b]) == pre + (a + (mid + (b + post)))
  {
    FormatPlain(post, [], []);
    assert post + [] == post;
    var t3 := "%s" + post;
    FormatHole(post, b, []);
    assert [b] + [] == [b];
    var t2 := mid + t3;
    FormatPlain(mid, t3, [b]);
    var t1 := "%s" + t2;
    FormatHole(t2, a, [b]);
    assert [a] + [b] == [a, b];
    FormatPlain(pre, t1, [a, b]);
  }

  lemma {:induction false} JoinAppend(parts: seq<string>, x: string, sep: string)
    requires parts != []
    ensures Join(parts + [x], sep) == Join(parts, sep) + sep + x
  {
    if |parts| == 1 {
      assert parts + [x] == [parts[0], x];
      assert [parts[0], x][1..] == [x];
    } else {
      JoinAppend(parts[1..], x, sep);
      assert (parts + [x])[1..] == parts[1..] + [x];
    }
  }

  /**
   * Non-empty lines without newlines, joined by newlines: the text neither starts nor
   * ends with a newline and never holds two in a row.
   */
  lemma {:induction false} JoinNoBlankLine(parts: seq<string>)
    requires |parts| >= 1
    requires forall i :: 0 <= i < |parts| ==> parts[i] != [] && '\n' !in parts[i]
    ensures var text := Join(parts, "\n");
      && text != [] && text[0] != '\n' && text[|text| - 1] != '\n'
      && forall j :: 0 <= j < |text| - 1 ==> !(text[j] == '\n' && text[j + 1] == '\n')
  {
    var text := Join(parts, "\n");
    var p := parts[0];
    assert p[0] in p && p[|p| - 1] in p;
    if |parts| > 1 {
      JoinNoBlankLine(parts[1..]);
      var rest := Join(parts[1..], "\n");
      assert text == p + "\n" + rest;
      forall j | 0 <= j < |text| - 1 ensures !(text[j] == '\n' && text[j + 1] == '\n') {
        if j < |p| {
          assert text[j] == p[j] && p[j] in p;
        } else if j > |p| {
          assert text[j] == rest[j - |p| - 1] && text[j + 1] == rest[j - |p|];
        }
      }
    } else {
      forall j | 0 <= j < |text| - 1 ensures !(text[j] == '\n' && text[j + 1] == '\n') {
        assert text[j] in p;
      }
    }
  }
}
