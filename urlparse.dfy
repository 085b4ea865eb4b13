/**
 * What Node's legacy `url.parse` does to its text before it splits off the
 * pathname, the query and the fragment: white space at either end is trimmed,
 * backslashes before the first `?` or `#` become `/`, and the characters that
 * may never stand raw in a URL are percent-escaped.
 */
module UrlParse {
  import opened Strings
  import opened PosixPath
  import Resolver

  /** The white space url.parse trims: space, tab, CR, LF, form feed, no-break space and U+FEFF. */
  predicate UrlSpace(c: char) {
    c == ' ' || c == '\t' || c == '\r' || c == '\n' || c == '\U{000C}' || c == '\U{00A0}' || c == '\U{FEFF}'
  }

  /** The text without its leading white space. */
  function TrimStart(s: string): (r: string)
    ensures |r| <= |s| && r == s[|s| - |r|..]
    ensures forall i :: 0 <= i < |s| - |r| ==> UrlSpace(s[i])
    ensures |r| > 0 ==> !UrlSpace(r[0])
  {
    if |s| > 0 && UrlSpace(s[0]) then TrimStart(s[1..]) else s
  }

  /** The text without its trailing white space. */
  function TrimEnd(s: string): (r: string)
    ensures r <= s
    ensures forall i :: |r| <= i < |s| ==> UrlSpace(s[i])
    ensures |r| > 0 ==> !UrlSpace(r[|r| - 1])
  {
    if |s| > 0 && UrlSpace(s[|s| - 1]) then TrimEnd(s[..|s| - 1]) else s
  }

  /** The text url.parse works on: `s` without white space at either end. */
  function Trim(s: string): (r: string)
    ensures |r| > 0 ==> !UrlSpace(r[0]) && !UrlSpace(r[|r| - 1])
    ensures forall i :: 0 <= i < |r| ==> r[i] in s
    ensures |s| > 0 && !UrlSpace(s[0]) && !UrlSpace(s[|s| - 1]) ==> r == s
  {
    var t := TrimStart(s);
    var r := TrimEnd(t);
    SliceIn(s, |s| - |t|, r);
    r
  }

  lemma SliceIn(s: string, k: nat, r: string)
    requires k <= |s| && r <= s[k..]
    ensures forall i :: 0 <= i < |r| ==> r[i] in s
  {
    forall i | 0 <= i < |r| ensures r[i] in s {
      assert r[i] == s[k + i];
    }
  }

  /** Backslashes in the part before the first `?` or `#` read as `/`; the rest is kept. */
  function RewriteBackslashes(s: string): (r: string)
    ensures '\\' !in s ==> r == s
  {
    var p := Resolver.Pathname(s);
    if '\\' !in s then
      ReplaceAllCharAbsent(p, '\\', "/");
      assert p + s[|p|..] == s;
      ReplaceAllChar(p, '\\', "/") + s[|p|..]
    else ReplaceAllChar(p, '\\', "/") + s[|p|..]
  }

  /** The text url.parse splits: trimmed, then its backslashes rewritten. */
  function Prepare(s: string): string {
    RewriteBackslashes(Trim(s))
  }

  /** A character url.parse always percent-escapes. */
  predicate Unsafe(c: char) {
    c == '\t' || c == '\n' || c == '\r' || c == ' ' || c == '"' || c == '\'' || c == '<' || c == '>'
    || c == '\\' || c == '^' || c == '`' || c == '{' || c == '|' || c == '}'
  }

  /** Text that url.parse neither trims nor escapes anywhere. */
  predicate Plain(s: string) {
    forall i :: 0 <= i < |s| ==> !Unsafe(s[i]) && !UrlSpace(s[i])
  }

  /** A character of a percent-escape that url.parse writes: `%` or an upper-case hex digit. */
  predicate EscapeText(c: char) {
    c == '%' || '0' <= c <= '9' || 'A' <= c <= 'F'
  }

  /** The escape url.parse writes for one character. */
  function EscapeChar(c: char): (r: string)
    ensures Unsafe(c) ==> |r| == 3 && r[0] == '%' && EscapeText(r[1]) && EscapeText(r[2])
    ensures !Unsafe(c) ==> r == [c]
  {
    match c
    case '\t' => "%09"
    case '\n' => "%0A"
    case '\r' => "%0D"
    case ' ' => "%20"
    case '"' => "%22"
    case '\'' => "%27"
    case '<' => "%3C"
    case '>' => "%3E"
    case '\\' => "%5C"
    case '^' => "%5E"
    case '`' => "%60"
    case '{' => "%7B"
    case '|' => "%7C"
    case '}' => "%7D"
    case _ => [c]
  }

  /** url.parse's automatic escaping: every unsafe character replaced by its escape. */
  function AutoEscape(s: string): (r: string)
    ensures |r| >= |s|
  {
    if |s| == 0 then "" else EscapeChar(s[0]) + AutoEscape(s[1..])
  }

  /** The path of a directory with each segment escaped. */
  function EscapePath(p: CleanPath): (r: CleanPath)
    ensures |r| == |p| && forall i :: 0 <= i < |p| ==> r[i] == AutoEscape(p[i])
  {
    if |p| == 0 then []
    else
      EscapeClean(p[0]);
      [AutoEscape(p[0])] + EscapePath(p[1..])
  }

  // ---------------------------------------------------------------------------
  // Properties

  /** Escaping works character by character, so it distributes over concatenation. */
  lemma {:induction false} EscapeConcat(a: string, b: string)
    ensures AutoEscape(a + b) == AutoEscape(a) + AutoEscape(b)
  {
    if |a| > 0 {
      assert (a + b)[0] == a[0] && (a + b)[1..] == a[1..] + b;
      EscapeConcat(a[1..], b);
      assert AutoEscape(a + b) == EscapeChar(a[0]) + AutoEscape(a[1..] + b);
    } else {
      assert a + b == b;
    }
  }

  /** Text without unsafe characters is left as it is, and text that is left as it is has none. */
  lemma {:induction false} EscapeIdentity(s: string)
    ensures AutoEscape(s) == s <==> forall i :: 0 <= i < |s| ==> !Unsafe(s[i])
  {
    if |s| > 0 {
      EscapeIdentity(s[1..]);
      if Unsafe(s[0]) {
        assert AutoEscape(s)[0] == '%';
        assert s[0] != '%';
      } else {
        assert AutoEscape(s) == [s[0]] + AutoEscape(s[1..]);
        assert s == [s[0]] + s[1..];
        forall i | 1 <= i < |s| ensures s[i] == s[1..][i - 1] { }
      }
    }
  }

  /** Escaping brings in no character other than `%` and upper-case hex digits. */
  lemma {:induction false} EscapeExcludes(s: string, c: char)
    requires c !in s && !EscapeText(c)
    ensures c !in AutoEscape(s)
  {
    if |s| > 0 {
      EscapeExcludes(s[1..], c);
    }
  }

  /** The first character of an escaped text is the first character of the text, or `%`. */
  lemma EscapeFirst(s: string)
    requires |s| > 0
    ensures AutoEscape(s)[0] == s[0] || AutoEscape(s)[0] == '%'
  {
  }

  /** A blank in front of the text is trimmed away. */
  lemma TrimLeading(c: char, s: string)
    requires UrlSpace(c)
    ensures Trim([c] + s) == Trim(s)
  {
    assert ([c] + s)[1..] == s;
  }

  /** A blank after the text is trimmed away. */
  lemma {:induction false} TrimTrailing(s: string, c: char)
    requires UrlSpace(c)
    ensures Trim(s + [c]) == Trim(s)
  {
    if |s| == 0 {
      assert TrimStart(s + [c]) == TrimStart([c][1..]);
    } else if UrlSpace(s[0]) {
      assert (s + [c])[1..] == s[1..] + [c];
      TrimTrailing(s[1..], c);
    } else {
      assert TrimStart(s + [c]) == s + [c] && TrimStart(s) == s;
      assert (s + [c])[..|s|] == s;
    }
  }

  /** Plain text is parsed and escaped into itself. */
  lemma PlainPrepared(s: string)
    requires |s| > 0 && Plain(s)
    ensures Prepare(s) == s && AutoEscape(s) == s
  {
    assert Unsafe('\\');
    EscapeIdentity(s);
  }

  /** Escaping a segment leaves it a segment: non-empty, without `/`, and not `.` or `..`. */
  lemma EscapeClean(s: string)
    requires Clean(s)
    ensures Clean(AutoEscape(s))
  {
    EscapeExcludes(s, '/');
    if s[0] != '.' {
      EscapeFirst(s);
    } else {
      var t := s[1..];
      assert AutoEscape(s) == "." + AutoEscape(t);
      if |t| > 0 && t[0] != '.' {
        EscapeFirst(t);
      } else if |t| > 0 {
        assert AutoEscape(t) == "." + AutoEscape(t[1..]);
        assert |t[1..]| > 0 by {
          assert s == ".." + t[1..];
        }
      }
    }
  }

  /** A text joined by a separator without unsafe characters escapes piece by piece. */
  lemma {:induction false} EscapeJoin(p: CleanPath, sep: string)
    requires AutoEscape(sep) == sep
    ensures AutoEscape(Join(p, sep)) == Join(EscapePath(p), sep)
  {
    if |p| > 1 {
      EscapeJoin(p[1..], sep);
      EscapeConcat(p[0] + sep, Join(p[1..], sep));
      EscapeConcat(p[0], sep);
      assert EscapePath(p)[1..] == EscapePath(p[1..]);
    }
  }

  /** Escaping the rendering of a path renders the escaped path. */
  lemma EscapeRender(p: CleanPath)
    ensures AutoEscape(Render(p)) == Render(EscapePath(p))
  {
    EscapeJoin(p, "/");
    EscapeConcat("/", Join(p, "/"));
  }
}
