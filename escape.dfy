/**
 * Python 2's `repr` of a unicode string, which `'%s' % value` uses for the items of a
 * list: the `u` prefix, a quote, every character that is not printable ASCII written as
 * an escape, and the closing quote.
 */
module Escape {
  import opened Base
  import opened Text

  /** A character that stands for itself inside `repr`: printable ASCII. */
  predicate PrintableChar(c: char) {
    ' ' <= c <= '~'
  }

  predicate Printable(s: string) {
    forall i :: 0 <= i < |s| ==> PrintableChar(s[i])
  }

  /** The lower-case hexadecimal digit of `d`. */
  function HexDigit(d: nat): (c: char)
    requires d < 16
    ensures PrintableChar(c) && c != '\\' && c != '\'' && c != '"'
    ensures DigitValue(c) == Some(d)
  {
    if d < 10 then ('0' as int + d) as char else ('a' as int + d - 10) as char
  }

  /** The value of a hexadecimal digit, either case, or None for any other character. */
  function DigitValue(c: char): Option<nat> {
    if '0' <= c <= '9' then Some(c as int - '0' as int)
    else if 'a' <= c <= 'f' then Some(c as int - 'a' as int + 10)
    else if 'A' <= c <= 'F' then Some(c as int - 'A' as int + 10)
    else None
  }

  function Power16(w: nat): (p: nat)
    ensures p >= 1
  {
    if w == 0 then 1 else 16 * Power16(w - 1)
  }

  /** The last `width` hexadecimal digits of `n`, most significant first, zeros in front. */
  function Hex(n: nat, width: nat): (r: string)
    ensures |r| == width
  {
    if width == 0 then [] else Hex(n / 16, width - 1) + [HexDigit(n % 16)]
  }

  lemma {:induction false} HexPrintable(n: nat, width: nat)
    ensures Printable(Hex(n, width))
  {
    if width > 0 {
      HexPrintable(n / 16, width - 1);
      PrintableAppend(Hex(n / 16, width - 1), [HexDigit(n % 16)]);
    }
  }

  /** The number a string of hexadecimal digits writes, or None if some character is not one. */
  function HexValue(s: string): Option<nat> {
    if s == [] then Some(0)
    else
      match (HexValue(s[..|s| - 1]), DigitValue(s[|s| - 1]))
      case (Some(high), Some(low)) => Some(16 * high + low)
      case _ => None
  }

  /** Reading back `width` digits gives the number, when it fits in them. */
  lemma {:induction false} HexBack(n: nat, width: nat)
    requires n < Power16(width)
    ensures HexValue(Hex(n, width)) == Some(n)
  {
    if width > 0 {
      var h := Hex(n, width);
      assert h[..|h| - 1] == Hex(n / 16, width - 1);
      assert n / 16 < Power16(width - 1);
      HexBack(n / 16, width - 1);
    }
  }

  /** The quote `repr` chooses: `"` when the text holds `'` but no `"`, otherwise `'`. */
  function QuoteFor(s: string): (q: char)
    ensures q == '\'' || q == '"'
  {
    if '\'' in s && '"' !in s then '"' else '\''
  }

  /**
   * How `repr` writes one character inside the quote `q`: the quote and the backslash
   * behind a backslash, characters above U+FFFF as `\U` and eight digits, above U+00FF
   * as `\u` and four, tab, newline and carriage return by name, the other control
   * characters and U+007F to U+00FF as `\x` and two, and printable ASCII as itself.
   */
  function EscapeChar(c: char, q: char): (r: string)
    ensures |r| >= 1
  {
    if c == q || c == '\\' then ['\\', c]
    else if c as int >= 0x10000 then "\\U" + Hex(c as int, 8)
    else if c as int >= 0x100 then "\\u" + Hex(c as int, 4)
    else if c == '\t' then "\\t"
    else if c == '\n' then "\\n"
    else if c == '\r' then "\\r"
    else if !PrintableChar(c) then "\\x" + Hex(c as int, 2)
    else [c]
  }

  /** The characters of `s` escaped one after the other. */
  function Escaped(s: string, q: char): (r: string)
    ensures |r| >= |s|
  {
    if s == [] then [] else EscapeChar(s[0], q) + Escaped(s[1..], q)
  }

  /** `repr(s)` for a unicode string `s`. */
  function Repr(s: string): (r: string) {
    var q := QuoteFor(s);
    "u" + [q] + Escaped(s, q) + [q]
  }

  /** `repr` writes `u`, the quote, the escaped text and the quote again. */
  lemma ReprShape(s: string)
    ensures var r := Repr(s);
      && |r| >= 3 && r[0] == 'u' && r[1] == QuoteFor(s) && r[|r| - 1] == QuoteFor(s)
      && r[2..|r| - 1] == Escaped(s, QuoteFor(s))
  {
    var r := Repr(s);
    assert r[2..|r| - 1] == Escaped(s, QuoteFor(s));
  }

  // ---------------------------------------------------------------------------------------------
  // Reading an escaped text back, as Python's parser of string literals does

  function Prepend(c: char, rest: Option<string>): Option<string> {
    match rest
    case Some(t) => Some([c] + t)
    case None => None
  }

  /** A number that is the code of a character. */
  predicate IsScalar(n: nat) {
    n < 0xD800 || 0xE000 <= n < 0x11_0000
  }

  /** The number of hexadecimal digits after the escape letter `e`, or 0 if `e` takes none. */
  function DigitsAfter(e: char): nat {
    if e == 'x' then 2 else if e == 'u' then 4 else if e == 'U' then 8 else 0
  }

  /**
   * The first character of a unicode literal's text and how many characters write it:
   * an escape of a quote, the backslash, tab, newline or carriage return, `\x`, `\u` or
   * `\U` with their digits, or a character standing for itself; None for a malformed escape.
   */
  function Unit(r: string): (u: Option<(char, nat)>)
    requires r != []
    ensures u.Some? ==> 1 <= u.value.1 <= |r|
  {
    if r[0] != '\\' then Some((r[0], 1))
    else if |r| < 2 then None
    else
      var e := r[1];
      if e == '\\' || e == '\'' || e == '"' then Some((e, 2))
      else if e == 't' then Some(('\t', 2))
      else if e == 'n' then Some(('\n', 2))
      else if e == 'r' then Some(('\r', 2))
      else
        var w := DigitsAfter(e);
        if w == 0 || |r| < 2 + w then None
        else
          match HexValue(r[2..2 + w])
          case Some(n) => if IsScalar(n) then Some((n as char, 2 + w)) else None
          case None => None
  }

  /** The text between the quotes of a unicode literal, unit by unit; None where an escape is malformed. */
  function Unescaped(r: string): Option<string>
    decreases |r|
  {
    if r == [] then Some([])
    else
      match Unit(r)
      case None => None
      case Some((c, k)) => Prepend(c, Unescaped(r[k..]))
  }

  /** Reading one escaped character back, whatever follows it. */
  lemma EscapeCharBack(c: char, q: char, t: string)
    requires q == '\'' || q == '"'
    ensures Unit(EscapeChar(c, q) + t) == Some((c, |EscapeChar(c, q)|))
  {
    var r := EscapeChar(c, q) + t;
    if c == q || c == '\\' {
      assert r[0] == '\\' && r[1] == c;
    } else if c as int >= 0x10000 {
      CodedBack(c, 'U', 8, t);
    } else if c as int >= 0x100 {
      CodedBack(c, 'u', 4, t);
    } else if c == '\t' || c == '\n' || c == '\r' {
      assert r[0] == '\\';
    } else if !PrintableChar(c) {
      CodedBack(c, 'x', 2, t);
    } else {
      assert r[0] == c;
    }
  }

  /** Reading back a character written as an escape letter and its digits. */
  lemma CodedBack(c: char, e: char, w: nat, t: string)
    requires DigitsAfter(e) == w > 0 && c as int < Power16(w)
    ensures Unit(['\\', e] + Hex(c as int, w) + t) == Some((c, 2 + w))
  {
    var r := ['\\', e] + Hex(c as int, w) + t;
    assert r[0] == '\\' && r[1] == e && |r| >= 2 + w;
    assert r[2..2 + w] == Hex(c as int, w);
    HexBack(c as int, w);
    CharCode(c);
  }

  lemma CharCode(c: char)
    ensures IsScalar(c as int) && (c as int) as char == c
  {
  }

  /** Unescaping inverts escaping, for either quote. */
  lemma {:induction false} EscapedBack(s: string, q: char)
    requires q == '\'' || q == '"'
    ensures Unescaped(Escaped(s, q)) == Some(s)
  {
    if s != [] {
      var head, tail := EscapeChar(s[0], q), Escaped(s[1..], q);
      EscapeCharBack(s[0], q, tail);
      assert (head + tail)[|head|..] == tail;
      EscapedBack(s[1..], q);
      assert [s[0]] + s[1..] == s;
    }
  }

  /** Evaluating the literal `repr` writes gives the string back. */
  lemma ReprBack(s: string)
    ensures var r := Repr(s); |r| >= 3 && Unescaped(r[2..|r| - 1]) == Some(s)
  {
    ReprShape(s);
    EscapedBack(s, QuoteFor(s));
  }

  // ---------------------------------------------------------------------------------------------
  // What `repr` writes

  lemma {:induction false} EscapedPrintable(s: string, q: char)
    requires PrintableChar(q)
    ensures Printable(Escaped(s, q))
  {
    if s != [] {
      EscapedPrintable(s[1..], q);
      EscapeCharPrintable(s[0], q);
      PrintableAppend(EscapeChar(s[0], q), Escaped(s[1..], q));
    }
  }

  lemma EscapeCharPrintable(c: char, q: char)
    requires PrintableChar(q)
    ensures Printable(EscapeChar(c, q))
  {
    HexPrintable(c as int, 8);
    HexPrintable(c as int, 4);
    HexPrintable(c as int, 2);
  }

  lemma PrintableAppend(a: string, b: string)
    requires Printable(a) && Printable(b)
    ensures Printable(a + b)
  {
    forall i | 0 <= i < |a + b| ensures PrintableChar((a + b)[i]) {
      if i >= |a| {
        assert (a + b)[i] == b[i - |a|];
      }
    }
  }

  /** `repr` writes only printable ASCII, so no newline and nothing beyond U+007E. */
  lemma ReprPrintable(s: string)
    ensures Printable(Repr(s)) && '\n' !in Repr(s)
  {
    var q := QuoteFor(s);
    EscapedPrintable(s, q);
    ReprShape(s);
    var r := Repr(s);
    forall i | 0 <= i < |r| ensures PrintableChar(r[i]) {
      if 2 <= i < |r| - 1 {
        assert r[i] == r[2..|r| - 1][i - 2];
      }
    }
  }

  /** A character `repr` writes as itself inside single quotes. */
  predicate Plain(c: char) {
    PrintableChar(c) && c != '\'' && c != '\\'
  }

  predicate AllPlain(s: string) {
    forall i :: 0 <= i < |s| ==> Plain(s[i])
  }

  lemma {:induction false} EscapedPlain(s: string)
    requires AllPlain(s)
    ensures Escaped(s, '\'') == s
  {
    if s != [] {
      EscapedPlain(s[1..]);
      assert [s[0]] + s[1..] == s;
    }
  }

  lemma {:induction false} EscapedSelf(s: string)
    requires Escaped(s, '\'') == s
    ensures AllPlain(s)
  {
    if s != [] {
      var head, tail := EscapeChar(s[0], '\''), Escaped(s[1..], '\'');
      assert |head| == 1 && head[0] == s[0] && tail == s[1..] by {
        assert |head| + |tail| == |s| && |tail| >= |s| - 1;
        assert (head + tail)[0] == s[0];
        assert (head + tail)[1..] == s[1..];
      }
      EscapedSelf(s[1..]);
      forall i | 0 <= i < |s| ensures Plain(s[i]) {
        if i > 0 {
          assert s[i] == s[1..][i - 1];
        }
      }
    }
  }

  /** `repr(s)` is `u'` and `s` and `'` exactly when every character of `s` is plain. */
  lemma ReprPlain(s: string)
    ensures Repr(s) == "u'" + s + "'" <==> AllPlain(s)
  {
    var r := Repr(s);
    ReprShape(s);
    if AllPlain(s) {
      assert '\'' !in s by {
        forall i | 0 <= i < |s| ensures s[i] != '\'' {
          assert Plain(s[i]);
        }
      }
      EscapedPlain(s);
    }
    if r == "u'" + s + "'" {
      assert QuoteFor(s) == '\'' by {
        assert r[1] == '\'';
      }
      assert r[2..|r| - 1] == s;
      EscapedSelf(s);
    }
  }

  /** Escaping a concatenation escapes its two parts. */
  lemma {:induction false} EscapedAppend(a: string, b: string, q: char)
    ensures Escaped(a + b, q) == Escaped(a, q) + Escaped(b, q)
  {
    if a == [] {
      assert a + b == b;
    } else {
      assert (a + b)[0] == a[0] && (a + b)[1..] == a[1..] + b;
      EscapedAppend(a[1..], b, q);
    }
  }

  /** The example of U+00E9: `repr(u'Caf\xe9')` writes the accented letter as `\xe9`. */
  lemma ReprCafe()
    ensures Repr("Caf\U{e9}") == "u'Caf\\xe9'"
  {
    EscapedCafe();
    ReprIs("Caf\U{e9}", "Caf\\xe9");
    assert "u" + ['\''] + "Caf\\xe9" + ['\''] == "u'Caf\\xe9'";
  }

  lemma ReprIs(s: string, e: string)
    requires QuoteFor(s) == '\'' && Escaped(s, '\'') == e
    ensures Repr(s) == "u" + ['\''] + e + ['\'']
  {
  }

  lemma EscapedCafe()
    ensures QuoteFor("Caf\U{e9}") == '\'' && Escaped("Caf\U{e9}", '\'') == "Caf\\xe9"
  {
    var s := "Caf\U{e9}";
    assert s == "Caf" + "\U{e9}";
    assert QuoteFor(s) == '\'';
    CafPlain();
    EscapedPlain("Caf");
    EscapedAppend("Caf", "\U{e9}", '\'');
    assert Escaped("\U{e9}", '\'') == "\\xe9" by {
      HexE9();
    }
  }

  lemma CafPlain()
    ensures AllPlain("Caf")
  {
    var s := "Caf";
    assert s[0] == 'C' && s[1] == 'a' && s[2] == 'f';
  }

  lemma HexE9()
    ensures EscapeChar('\U{e9}', '\'') == "\\xe9"
  {
    assert Hex(0xe, 1) == "e";
    assert Hex(0xe9, 2) == "e9";
  }

  /** Joining printable pieces with a printable separator writes no newline. */
  lemma {:induction false} JoinPrintable(parts: seq<string>, sep: string)
    requires Printable(sep) && forall i :: 0 <= i < |parts| ==> Printable(parts[i])
    ensures Printable(Join(parts, sep))
  {
    if |parts| > 1 {
      JoinPrintable(parts[1..], sep);
      var a, b := parts[0] + sep, Join(parts[1..], sep);
      forall i | 0 <= i < |a + b| ensures PrintableChar((a + b)[i]) {
        if i < |parts[0]| {
          assert (a + b)[i] == parts[0][i];
        } else if i < |a| {
          assert (a + b)[i] == sep[i - |parts[0]|];
        } else {
          assert (a + b)[i] == b[i - |a|];
        }
      }
      assert Join(parts, sep) == a + b;
    }
  }
}
