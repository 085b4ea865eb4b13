/**
 * `url.resolve(dirUrl, fileName)` for the links of a directory listing. Both
 * arguments are parsed first: trimmed, backslashes before the query or fragment
 * turned into `/`, and unsafe characters percent-escaped; a leading `scheme:`
 * makes the name a URL of its own. The name's path
 * then replaces whatever follows the last `/` of the base's path, the name's
 * query and fragment are kept, and `.` and `..` segments are removed as in
 * section 5.2.4 of RFC 3986.
 */
module Links {
  import opened Strings
  import opened PosixPath
  import Resolver
  import UrlParse

  /** Everything of a URL path up to and including its last `/`. */
  function DirectoryPart(p: string): (d: string)
    ensures d <= p && (|d| == 0 || d[|d| - 1] == '/')
    ensures forall i :: |d| <= i < |p| ==> p[i] != '/'
  {
    if |p| == 0 then ""
    else if p[|p| - 1] == '/' then p
    else
      var d := DirectoryPart(p[..|p| - 1]);
      assert p[..|p| - 1][..|d|] == p[..|d|];
      d
  }

  function Pop(out: seq<string>): seq<string> {
    if |out| == 0 then [] else out[..|out| - 1]
  }

  /**
   * remove_dot_segments over the segments after the first: `.` vanishes, `..`
   * drops the last kept segment, and a final `.` or `..` leaves a trailing `/`.
   */
  function RemoveDots(out: seq<string>, segs: seq<string>): seq<string>
    decreases |segs|
  {
    if |segs| == 0 then out
    else
      var s := segs[0];
      if s == "." || s == ".." then
        var kept := if s == "." then out else Pop(out);
        if |segs| == 1 then kept + [""] else RemoveDots(kept, segs[1..])
      else RemoveDots(out + [s], segs[1..])
  }

  /** remove_dot_segments on a `/`-separated path. */
  function RemoveDotSegments(p: string): string {
    var segs := Split(p, '/');
    Join([segs[0]] + RemoveDots([], segs[1..]), "/")
  }

  /** A character of the scheme pattern `[a-z0-9.+-]`, matched without regard to case. */
  predicate SchemeChar(c: char) {
    'a' <= c <= 'z' || 'A' <= c <= 'Z' || '0' <= c <= '9' || c == '.' || c == '+' || c == '-'
  }

  /** The length of the leading run of scheme characters. */
  function SchemeRun(u: string): (k: nat)
    ensures k <= |u| && forall i :: 0 <= i < k ==> SchemeChar(u[i])
    ensures k < |u| ==> !SchemeChar(u[k])
  {
    if |u| == 0 || !SchemeChar(u[0]) then 0 else 1 + SchemeRun(u[1..])
  }

  /** url.parse reads a leading `scheme:` as the URL's protocol. */
  predicate HasScheme(u: string) {
    var k := SchemeRun(u);
    0 < k < |u| && u[k] == ':'
  }

  /** The text before the first `#`. */
  function BeforeHash(s: string): (r: string)
    ensures r <= s && '#' !in r
  {
    if |s| == 0 || s[0] == '#' then "" else [s[0]] + BeforeHash(s[1..])
  }

  /** The query of a URL, with its `?`, or nothing when it has none. */
  function QueryPart(u: string): string {
    var p := Resolver.Pathname(u);
    if |p| < |u| && u[|p|] == '?' then BeforeHash(u[|p|..]) else ""
  }

  /**
   * The resolution once both arguments are parsed: a name path that begins with
   * `/` replaces the base's path; any other name path replaces the base's last
   * segment; a name that is only a query keeps the base's path as it is, and a
   * name that is only a fragment keeps the base's query too. The name's query
   * and fragment `rest` follow the path.
   */
  function ResolveParsed(basePath: string, baseQuery: string, relPath: string, rest: string): string {
    if |relPath| > 0 && relPath[0] == '/' then RemoveDotSegments(relPath) + rest
    else if |relPath| > 0 then RemoveDotSegments(DirectoryPart(basePath) + relPath) + rest
    else if |rest| == 0 then basePath + baseQuery
    else if rest[0] == '?' then basePath + rest
    else RemoveDotSegments(basePath) + baseQuery + rest
  }

  /**
   * `url.resolve(dirUrl, name)`: both arguments are trimmed and their backslashes
   * rewritten; a name with a scheme then stands for itself, escaped; otherwise
   * the escaped name is resolved against the escaped base.
   */
  function ResolveLink(dirUrl: string, name: string): string {
    var rel := UrlParse.Prepare(name);
    if HasScheme(rel) then UrlParse.AutoEscape(rel)
    else
      var base := UrlParse.AutoEscape(UrlParse.Prepare(dirUrl));
      var esc := UrlParse.AutoEscape(rel);
      var relPath := Resolver.Pathname(esc);
      ResolveParsed(Resolver.Pathname(base), QueryPart(base), relPath, esc[|relPath|..])
  }

  /** The URL of a directory whose path is `dirs`, with its trailing `/`. */
  function DirUrl(dirs: CleanPath): (u: string)
    ensures |u| > 0 && u[|u| - 1] == '/'
  {
    if |dirs| == 0 then "/" else Render(dirs) + "/"
  }

  // ---------------------------------------------------------------------------
  // Properties

  /** Segments other than `.` and `..` are kept as they are. */
  lemma {:induction false} RemoveDotsClean(out: seq<string>, segs: seq<string>)
    requires forall i :: 0 <= i < |segs| ==> segs[i] != "." && segs[i] != ".."
    ensures RemoveDots(out, segs) == out + segs
    decreases |segs|
  {
    if |segs| > 0 {
      RemoveDotsClean(out + [segs[0]], segs[1..]);
      assert out + [segs[0]] + segs[1..] == out + segs;
    }
  }

  lemma SplitDirUrl(dirs: CleanPath, name: string)
    requires '/' !in name
    ensures Split(DirUrl(dirs) + name, '/') == [""] + dirs + [name]
  {
    var u := DirUrl(dirs);
    SplitNoSeparator(name, '/');
    if |dirs| == 0 {
      assert u + name == "" + ['/'] + name;
      SplitConcat("", name, '/');
    } else {
      assert u + name == Render(dirs) + ['/'] + name;
      SplitConcat(Render(dirs), name, '/');
      SplitRender(dirs);
    }
  }

  /** A clean segment after a directory URL is kept by the dot removal. */
  lemma PlainSegment(dirs: CleanPath, seg: string)
    requires Clean(seg)
    ensures RemoveDotSegments(DirUrl(dirs) + seg) == DirUrl(dirs) + seg
  {
    var u := DirUrl(dirs);
    var segs := Split(u + seg, '/');
    SplitDirUrl(dirs, seg);
    assert segs[1..] == dirs + [seg];
    RemoveDotsClean([], dirs + [seg]);
    assert [segs[0]] + ([] + (dirs + [seg])) == segs;
    JoinSplit(u + seg, '/');
  }

  /** A directory URL has no dot segment to remove. */
  lemma DirUrlKept(dirs: CleanPath)
    ensures RemoveDotSegments(DirUrl(dirs)) == DirUrl(dirs)
  {
    var u := DirUrl(dirs);
    SplitDirUrl(dirs, "");
    assert u + "" == u;
    var segs := Split(u, '/');
    assert segs[1..] == dirs + [""];
    RemoveDotsClean([], dirs + [""]);
    assert [segs[0]] + ([] + (dirs + [""])) == [""] + dirs + [""];
    JoinParent(dirs);
  }

  /** Escaping a directory URL escapes each of its segments. */
  lemma EscapeDirUrl(dirs: CleanPath)
    ensures UrlParse.AutoEscape(DirUrl(dirs)) == DirUrl(UrlParse.EscapePath(dirs))
  {
    if |dirs| == 0 {
      assert UrlParse.AutoEscape("/") == UrlParse.EscapeChar('/') + UrlParse.AutoEscape("");
    } else {
      UrlParse.EscapeConcat(Render(dirs), "/");
      UrlParse.EscapeRender(dirs);
      assert UrlParse.AutoEscape("/") == UrlParse.EscapeChar('/') + UrlParse.AutoEscape("");
    }
  }

  /** ResolveLink once both arguments are parsed: a base all of it path, and a name without scheme. */
  lemma ParsedArguments(dirUrl: string, name: string, base: string, t: string, n: string)
    requires UrlParse.AutoEscape(UrlParse.Prepare(dirUrl)) == base && Resolver.Pathname(base) == base && QueryPart(base) == ""
    requires UrlParse.Prepare(name) == t && !HasScheme(t) && UrlParse.AutoEscape(t) == n
    ensures var namePath := Resolver.Pathname(n);
      ResolveLink(dirUrl, name) == ResolveParsed(base, "", namePath, n[|namePath|..])
  {
  }

  /**
   * A directory URL without `?`, `#` or backslash is parsed into the URL of the
   * escaped directory, all of it path.
   */
  lemma PreparedDirUrl(dirs: CleanPath)
    requires '?' !in DirUrl(dirs) && '#' !in DirUrl(dirs) && '\\' !in DirUrl(dirs)
    ensures var base := UrlParse.AutoEscape(UrlParse.Prepare(DirUrl(dirs)));
      base == DirUrl(UrlParse.EscapePath(dirs)) && Resolver.Pathname(base) == base && QueryPart(base) == ""
  {
    var u := DirUrl(dirs);
    DirUrlPrepared(dirs);
    EscapeDirUrl(dirs);
    var base := UrlParse.AutoEscape(u);
    UrlParse.EscapeExcludes(u, '?');
    UrlParse.EscapeExcludes(u, '#');
    PathnameWhole(base);
  }

  /**
   * A clean name without backslash whose trimmed text does not begin with `.` is
   * parsed into that text; escaped, it is still a clean segment not beginning with `.`.
   */
  lemma PreparedName(name: string)
    requires Clean(name) && '\\' !in name
    requires var t := UrlParse.Trim(name); |t| > 0 && t[0] != '.'
    ensures var t := UrlParse.Trim(name);
      UrlParse.Prepare(name) == t && Clean(UrlParse.AutoEscape(t)) && UrlParse.AutoEscape(t)[0] != '.'
  {
    var t := UrlParse.Trim(name);
    assert '\\' !in t && '/' !in t;
    UrlParse.EscapeClean(t);
    UrlParse.EscapeFirst(t);
  }

  lemma PrefixExcludes(p: string, s: string, c: char)
    requires p <= s && c !in s
    ensures c !in p
  {
  }

  /**
   * For a listed directory's URL, a name that is listed (trimmed, it does not
   * begin with `.`), holds no backslash and has no scheme links to the escaped
   * URL followed by the escaped, trimmed name.
   */
  lemma LinkInDirectory(dirs: CleanPath, name: string)
    requires '?' !in DirUrl(dirs) && '#' !in DirUrl(dirs) && '\\' !in DirUrl(dirs)
    requires Clean(name) && '\\' !in name
    requires var t := UrlParse.Trim(name); |t| > 0 && t[0] != '.' && !HasScheme(t)
    ensures ResolveLink(DirUrl(dirs), name) == UrlParse.AutoEscape(DirUrl(dirs) + UrlParse.Trim(name))
  {
    var t := UrlParse.Trim(name);
    var esc := UrlParse.EscapePath(dirs);
    PreparedDirUrl(dirs);
    PreparedName(name);
    var n := UrlParse.AutoEscape(t);
    ParsedArguments(DirUrl(dirs), name, DirUrl(esc), t, n);
    var namePath := Resolver.Pathname(n);
    ParsedLink(esc, n, namePath, n[|namePath|..]);
    UrlParse.EscapeConcat(DirUrl(dirs), t);
    EscapeDirUrl(dirs);
  }

  /** When nothing needs trimming or escaping, a listed name links to the directory's URL followed by the name. */
  lemma PlainLinkInDirectory(dirs: CleanPath, name: string)
    requires '?' !in DirUrl(dirs) && '#' !in DirUrl(dirs)
    requires UrlParse.Plain(DirUrl(dirs)) && UrlParse.Plain(name)
    requires Clean(name) && name[0] != '.' && !HasScheme(name)
    ensures ResolveLink(DirUrl(dirs), name) == DirUrl(dirs) + name
  {
    var u := DirUrl(dirs);
    assert UrlParse.Unsafe('\\');
    assert UrlParse.Trim(name) == name;
    LinkInDirectory(dirs, name);
    UrlParse.EscapeIdentity(u + name);
  }

  /** Under `/d/`, the name `a b` links to `/d/a%20b`: its space is escaped. */
  lemma SpaceNameLink(dirs: CleanPath, name: string)
    requires dirs == ["d"] && name == "a b"
    ensures ResolveLink(DirUrl(dirs), name) == "/d/a%20b"
  {
    SpaceNameParsed(name);
    assert DirUrl(dirs) == "/d/";
    LinkInDirectory(dirs, name);
    EscapedSpace(DirUrl(dirs), name);
  }

  lemma SpaceNameParsed(name: string)
    requires name == "a b"
    ensures Clean(name) && '\\' !in name && UrlParse.Trim(name) == name && !HasScheme(name)
  {
    assert SchemeRun(name[1..]) == 0;
  }

  /** Links depend on the arguments only as url.parse prepares them. */
  lemma SamePrepared(dirUrl: string, dirUrl': string, name: string, name': string)
    requires UrlParse.Prepare(dirUrl) == UrlParse.Prepare(dirUrl') && UrlParse.Prepare(name) == UrlParse.Prepare(name')
    ensures ResolveLink(dirUrl, name) == ResolveLink(dirUrl', name')
  {
  }

  /** White space before or after a name does not change its link. */
  lemma BlankAroundName(dirUrl: string, c: char, name: string)
    requires UrlParse.UrlSpace(c)
    ensures ResolveLink(dirUrl, [c] + name) == ResolveLink(dirUrl, name)
    ensures ResolveLink(dirUrl, name + [c]) == ResolveLink(dirUrl, name)
  {
    UrlParse.TrimLeading(c, name);
    SamePrepared(dirUrl, dirUrl, [c] + name, name);
    UrlParse.TrimTrailing(name, c);
    SamePrepared(dirUrl, dirUrl, name + [c], name);
  }

  lemma EscapedSpace(head: string, name: string)
    requires head == "/d/" && name == "a b"
    ensures UrlParse.AutoEscape(head + name) == "/d/a%20b"
  {
    UrlParse.EscapeConcat(head, name);
    UrlParse.EscapeIdentity(head);
    assert UrlParse.AutoEscape(name[2..]) == "b";
    assert UrlParse.AutoEscape(name[1..]) == "%20b";
  }

  lemma ParsedLink(dirs: CleanPath, name: string, namePath: string, relRest: string)
    requires Clean(name) && name[0] != '.'
    requires namePath == Resolver.Pathname(name) && relRest == name[|namePath|..]
    ensures ResolveParsed(DirUrl(dirs), "", namePath, relRest) == DirUrl(dirs) + name
  {
    var u := DirUrl(dirs);
    assert name == namePath + relRest;
    if |namePath| > 0 {
      NamePathLink(dirs, name, namePath, relRest);
      assert ResolveParsed(u, "", namePath, relRest) == RemoveDotSegments(DirectoryPart(u) + namePath) + relRest;
    } else {
      assert relRest == name;
      if relRest[0] == '?' {
        assert ResolveParsed(u, "", namePath, relRest) == u + relRest;
      } else {
        DirUrlKept(dirs);
        assert ResolveParsed(u, "", namePath, relRest) == RemoveDotSegments(u) + "" + relRest;
        assert u + "" + relRest == u + name;
      }
    }
  }

  lemma NamePathLink(dirs: CleanPath, name: string, namePath: string, relRest: string)
    requires Clean(name) && name[0] != '.'
    requires namePath == Resolver.Pathname(name) && |namePath| > 0 && name == namePath + relRest
    ensures namePath[0] != '/'
    ensures RemoveDotSegments(DirectoryPart(DirUrl(dirs)) + namePath) + relRest == DirUrl(dirs) + name
  {
    var u := DirUrl(dirs);
    assert namePath[0] == name[0];
    assert Clean(namePath) by {
      PrefixExcludes(namePath, name, '/');
    }
    PlainSegment(dirs, namePath);
    assert DirectoryPart(u) == u;
    assert u + namePath + relRest == u + name;
  }

  /** For a listed directory's URL without backslashes, `..` links to the parent directory's escaped URL. */
  lemma ParentLink(dirs: CleanPath)
    requires '?' !in DirUrl(dirs) && '#' !in DirUrl(dirs) && '\\' !in DirUrl(dirs)
    requires |dirs| > 0
    ensures ResolveLink(DirUrl(dirs), "..") == UrlParse.AutoEscape(DirUrl(dirs[..|dirs| - 1]))
  {
    ParentOf(dirs, "..");
    ParentParsed(UrlParse.EscapePath(dirs));
    EscapedParent(dirs);
  }

  /** `..` once parsed: the base escaped, the name kept. */
  lemma ParentOf(dirs: CleanPath, dots: string)
    requires '?' !in DirUrl(dirs) && '#' !in DirUrl(dirs) && '\\' !in DirUrl(dirs)
    requires dots == ".."
    ensures ResolveLink(DirUrl(dirs), dots) == ResolveParsed(DirUrl(UrlParse.EscapePath(dirs)), "", dots, "")
  {
    var esc := UrlParse.EscapePath(dirs);
    PreparedDirUrl(dirs);
    DotsParsed(dots);
    PathnameWhole(dots);
    ParsedArguments(DirUrl(dirs), dots, DirUrl(esc), dots, dots);
    assert dots[|dots|..] == "";
  }

  /** Escaping a path and dropping its last segment commute. */
  lemma EscapedParent(dirs: CleanPath)
    requires |dirs| > 0
    ensures var esc := UrlParse.EscapePath(dirs);
      DirUrl(esc[..|esc| - 1]) == UrlParse.AutoEscape(DirUrl(dirs[..|dirs| - 1]))
  {
    var esc := UrlParse.EscapePath(dirs);
    assert esc[..|esc| - 1] == UrlParse.EscapePath(dirs[..|dirs| - 1]);
    EscapeDirUrl(dirs[..|dirs| - 1]);
  }

  lemma DotsParsed(name: string)
    requires name == ".."
    ensures UrlParse.Prepare(name) == name && UrlParse.AutoEscape(name) == name && !HasScheme(name)
  {
    assert name[0] == '.' && name[1] == '.';
    assert UrlParse.Plain(name);
    UrlParse.PlainPrepared(name);
    assert SchemeRun(name[1..][1..]) == 0;
  }

  lemma ParentParsed(dirs: CleanPath)
    requires |dirs| > 0
    ensures ResolveParsed(DirUrl(dirs), "", "..", "") == DirUrl(dirs[..|dirs| - 1])
  {
    var u := DirUrl(dirs);
    assert DirectoryPart(u) == u;
    ParentSegments(dirs);
    JoinParent(dirs[..|dirs| - 1]);
  }

  /**
   * `url.parse` reads a backslash in the base's path as `/`: a directory's path
   * followed by `\\` links names as the directory's URL does.
   */
  lemma BackslashBaseLink(dirs: CleanPath, name: string)
    requires |dirs| > 0 && '?' !in Render(dirs) && '#' !in Render(dirs) && '\\' !in Render(dirs)
    ensures ResolveLink(Render(dirs) + "\\", name) == ResolveLink(DirUrl(dirs), name)
  {
    assert DirUrl(dirs) == Render(dirs) + "/";
    var u := Render(dirs) + "\\";
    var v := DirUrl(dirs);
    BackslashPrepared(dirs, u);
    DirUrlPrepared(dirs);
    SamePrepared(u, v, name, name);
  }

  /** A directory URL without backslash is parsed into itself. */
  lemma DirUrlPrepared(dirs: CleanPath)
    requires '\\' !in DirUrl(dirs)
    ensures UrlParse.Prepare(DirUrl(dirs)) == DirUrl(dirs)
  {
    var v := DirUrl(dirs);
    assert |dirs| > 0 ==> Render(dirs)[0] == '/';
    assert v[0] == '/';
    assert UrlParse.Trim(v) == v;
  }

  lemma BackslashPrepared(dirs: CleanPath, u: string)
    requires |dirs| > 0 && '?' !in Render(dirs) && '#' !in Render(dirs) && '\\' !in Render(dirs)
    requires u == Render(dirs) + "\\"
    ensures UrlParse.Prepare(u) == DirUrl(dirs)
  {
    assert u[0] == '/' && u[|u| - 1] == '\\';
    assert UrlParse.Trim(u) == u;
    TrailingBackslashRewritten(Render(dirs), u);
  }

  lemma TrailingBackslashRewritten(r: string, u: string)
    requires '?' !in r && '#' !in r && '\\' !in r && u == r + "\\"
    ensures UrlParse.RewriteBackslashes(u) == r + "/"
  {
    PathnameWhole(u);
    ReplaceAllCharConcat(r, "\\", '\\', "/");
    ReplaceAllCharAbsent(r, '\\', "/");
    assert ReplaceAllChar("\\", '\\', "/") == "/" + ReplaceAllChar("", '\\', "/");
    assert u[|u|..] == "";
  }

  /** A name that url.parse reads as `scheme:rest`, such as `note:1.txt`, is a link of its own. */
  lemma SchemeNameLink(dirUrl: string, name: string)
    requires name == "note:1.txt"
    ensures HasScheme(name) && ResolveLink(dirUrl, name) == name
  {
    SchemeName(name);
    UrlParse.PlainPrepared(name);
  }

  lemma SchemeName(name: string)
    requires name == "note:1.txt"
    ensures HasScheme(name) && UrlParse.Plain(name)
  {
    assert name[1..][1..][1..][1..][0] == ':';
    assert SchemeRun(name[1..][1..][1..][1..]) == 0;
    assert SchemeRun(name) == 4;
  }

  lemma ParentSegments(dirs: CleanPath)
    requires |dirs| > 0
    ensures var segs := Split(DirUrl(dirs) + "..", '/');
      [segs[0]] + RemoveDots([], segs[1..]) == [""] + dirs[..|dirs| - 1] + [""]
  {
    var segs := Split(DirUrl(dirs) + "..", '/');
    SplitDirUrl(dirs, "..");
    assert segs[1..] == dirs + [".."];
    RemoveDotsPrefix([], dirs, "..");
    assert [] + dirs == dirs;
  }

  lemma JoinParent(parent: CleanPath)
    ensures Join([""] + parent + [""], "/") == DirUrl(parent)
  {
    var kept := [""] + parent + [""];
    if |parent| == 0 {
      assert kept == ["", ""];
      assert Join(kept, "/") == "" + "/" + Join([""], "/");
    } else {
      JoinAppend([""] + parent, "", "/");
      JoinConcat([""], parent, "/");
    }
  }

  /** Dots only act where they stand: clean segments before a final `..` are kept first. */
  lemma {:induction false} RemoveDotsPrefix(out: seq<string>, segs: CleanPath, last: string)
    requires last == ".."
    ensures RemoveDots(out, segs + [last]) == Pop(out + segs) + [""]
    decreases |segs|
  {
    if |segs| == 0 {
      assert segs + [last] == [last];
    } else {
      assert (segs + [last])[0] == segs[0] && (segs + [last])[1..] == segs[1..] + [last];
      RemoveDotsPrefix(out + [segs[0]], segs[1..], last);
      assert out + [segs[0]] + segs[1..] == out + segs;
    }
  }

  lemma {:induction false} PathnameWhole(u: string)
    requires '?' !in u && '#' !in u
    ensures Resolver.Pathname(u) == u
  {
    if |u| > 0 {
      PathnameWhole(u[1..]);
      assert [u[0]] + u[1..] == u;
    }
  }
}
