/**
 * How a request URL becomes the requested path and the file-system path
 * (`getRequestedPath`, `decodePathname` and `getFileFromPath` of dist/utils.js).
 */
module Resolver {
  import opened Outcomes
  import opened Strings
  import Uri
  import opened PosixPath

  /** Whether `process.platform` is `win32`. */
  datatype Platform = Win32 | OtherPlatform

  datatype PathError =
    | UriError                // decodeURIComponent threw a URIError
    | InvalidForwardSlash     // Error('Invalid forward slash character') on win32

  /** `url.parse(u).pathname || ''`: the part of a request target before its query or fragment. */
  function Pathname(u: string): (p: string)
    ensures p <= u && '?' !in p && '#' !in p
    ensures |p| < |u| ==> u[|p|] == '?' || u[|p|] == '#'
  {
    if |u| == 0 || u[0] == '?' || u[0] == '#' then "" else [u[0]] + Pathname(u[1..])
  }

  /** `s.replace(/\\/g, "/")`. */
  function ReplaceBackslashes(s: string): (r: string)
    ensures |r| == |s| && '\\' !in r
    ensures forall i :: 0 <= i < |s| ==> r[i] == if s[i] == '\\' then '/' else s[i]
  {
    seq(|s|, i requires 0 <= i < |s| => if s[i] == '\\' then '/' else s[i])
  }

  /** One piece of the path: decoded, and on win32 refused when the decoding holds a backslash. */
  function DecodePiece(piece: string, platform: Platform): (r: Result<string, PathError>)
    ensures r == Err(InvalidForwardSlash) ==> platform == Win32
    ensures r.Ok? ==> Uri.DecodeComponent(piece) == Ok(r.value)
    ensures r.Ok? && platform == Win32 ==> '\\' !in r.value
    ensures Uri.DecodeComponent(piece).Err? ==> r == Err(UriError)
    ensures Uri.DecodeComponent(piece).Ok? ==>
              (r.Ok? <==> !(platform == Win32 && '\\' in Uri.DecodeComponent(piece).value))
  {
    match Uri.DecodeComponent(piece)
    case Err(_) => Err(UriError)
    case Ok(d) => if platform == Win32 && '\\' in d then Err(InvalidForwardSlash) else Ok(d)
  }

  /** `pieces.map(...)`: the pieces in order, the first that throws deciding the error. */
  function DecodePieces(pieces: seq<string>, platform: Platform): (r: Result<seq<string>, PathError>)
    ensures r.Ok? ==> |r.value| == |pieces|
    ensures r.Ok? ==> forall i :: 0 <= i < |pieces| ==> DecodePiece(pieces[i], platform) == Ok(r.value[i])
    ensures r.Err? ==> exists i :: 0 <= i < |pieces| && DecodePiece(pieces[i], platform) == Err(r.error)
                         && forall j :: 0 <= j < i ==> DecodePiece(pieces[j], platform).Ok?
  {
    if |pieces| == 0 then Ok([])
    else match DecodePiece(pieces[0], platform)
      case Err(e) => Err(e)
      case Ok(d) =>
        match DecodePieces(pieces[1..], platform)
        case Err(e) =>
          ghost var i :| 0 <= i < |pieces[1..]| && DecodePiece(pieces[1..][i], platform) == Err(e)
                         && forall j :: 0 <= j < i ==> DecodePiece(pieces[1..][j], platform).Ok?;
          assert DecodePiece(pieces[i + 1], platform) == Err(e);
          Err(e)
        case Ok(ds) => Ok([d] + ds)
  }

  /** decodePathname: backslashes become `/`, each `/`-separated piece is decoded on its own. */
  function DecodePathname(pathname: string, platform: Platform): Result<string, PathError> {
    match DecodePieces(Split(ReplaceBackslashes(pathname), '/'), platform)
    case Err(e) => Err(e)
    case Ok(decoded) => Ok(Join(decoded, "/"))
  }

  /** getRequestedPath: the whole URL must decode, then only its pathname is used. */
  function GetRequestedPath(requestUrl: string, platform: Platform): Result<string, PathError> {
    if Uri.DecodeComponent(requestUrl).Err? then Err(UriError)
    else DecodePathname(Pathname(requestUrl), platform)
  }

  /** `path.normalize(path.join(wwwRoot, path.relative('/', pathname)))`. */
  function FileForPathname(wwwRoot: CleanPath, cwd: CleanPath, pathname: string): string {
    Normalize(Join2(Render(wwwRoot), RelativeOf(cwd, "/", pathname)))
  }

  /** getFileFromPath. */
  function GetFileFromPath(wwwRoot: CleanPath, cwd: CleanPath, requestUrl: string, platform: Platform): Result<string, PathError> {
    match GetRequestedPath(requestUrl, platform)
    case Err(e) => Err(e)
    case Ok(pathname) => Ok(FileForPathname(wwwRoot, cwd, pathname))
  }

  // ---------------------------------------------------------------------------
  // Properties

  lemma {:induction false} DecodePiecesWithoutPercent(pieces: seq<string>, platform: Platform)
    requires forall i :: 0 <= i < |pieces| ==> '%' !in pieces[i] && '\\' !in pieces[i]
    ensures DecodePieces(pieces, platform) == Ok(pieces)
  {
    if |pieces| > 0 {
      Uri.DecodeWithoutPercent(pieces[0]);
      DecodePiecesWithoutPercent(pieces[1..], platform);
      assert [pieces[0]] + pieces[1..] == pieces;
    }
  }

  /** Without `%` the only change is that backslashes become `/`. */
  lemma DecodeWithoutPercent(pathname: string, platform: Platform)
    requires '%' !in pathname
    ensures DecodePathname(pathname, platform) == Ok(ReplaceBackslashes(pathname))
  {
    var t := ReplaceBackslashes(pathname);
    assert '%' !in t by {
      forall i | 0 <= i < |t| ensures t[i] != '%' {
        assert pathname[i] != '%';
      }
    }
    var pieces := Split(t, '/');
    forall i | 0 <= i < |pieces| ensures '%' !in pieces[i] && '\\' !in pieces[i] {
      SplitPiecesFrom(t, '/', i);
    }
    DecodePiecesWithoutPercent(pieces, platform);
    JoinSplit(t, '/');
  }

  lemma SplitPiecesFrom(s: string, c: char, i: nat)
    requires i < |Split(s, c)|
    ensures forall x :: x in Split(s, c)[i] ==> x in s
  {
    JoinSplit(s, c);
    JoinContainsPart(Split(s, c), [c], i);
  }

  lemma {:induction false} JoinContainsPart(parts: seq<string>, sep: string, i: nat)
    requires i < |parts|
    ensures forall x :: x in parts[i] ==> x in Join(parts, sep)
  {
    if |parts| > 1 {
      if i > 0 {
        JoinContainsPart(parts[1..], sep, i - 1);
      }
      assert Join(parts, sep) == parts[0] + sep + Join(parts[1..], sep);
    }
  }

  /** A pathname without `%` or backslashes comes back unchanged. */
  lemma DecodePlainPathname(pathname: string, platform: Platform)
    requires '%' !in pathname && '\\' !in pathname
    ensures DecodePathname(pathname, platform) == Ok(pathname)
  {
    DecodeWithoutPercent(pathname, platform);
    assert ReplaceBackslashes(pathname) == pathname;
  }

  /** On win32 a decoded pathname never holds a backslash. */
  lemma Win32NoBackslash(pathname: string)
    requires DecodePathname(pathname, Win32).Ok?
    ensures '\\' !in DecodePathname(pathname, Win32).value
  {
    var decoded := DecodePieces(Split(ReplaceBackslashes(pathname), '/'), Win32).value;
    JoinExcludes(decoded, "/", '\\');
  }

  /** Off win32 the forward-slash error cannot happen. */
  lemma NoForwardSlashErrorOffWin32(pathname: string)
    ensures DecodePathname(pathname, OtherPlatform) != Err(InvalidForwardSlash)
  {
  }

  /**
   * On win32 the forward-slash error is raised exactly when some piece decodes to
   * text holding a backslash and every piece before it decodes.
   */
  lemma Win32ForwardSlashError(pathname: string)
    ensures var pieces := Split(ReplaceBackslashes(pathname), '/');
      DecodePathname(pathname, Win32) == Err(InvalidForwardSlash) <==>
      exists i :: 0 <= i < |pieces| && Uri.DecodeComponent(pieces[i]).Ok? && '\\' in Uri.DecodeComponent(pieces[i]).value
                  && forall j :: 0 <= j < i ==> Uri.DecodeComponent(pieces[j]).Ok? && '\\' !in Uri.DecodeComponent(pieces[j]).value
  {
    var pieces := Split(ReplaceBackslashes(pathname), '/');
    var r := DecodePieces(pieces, Win32);
    if exists i :: 0 <= i < |pieces| && Uri.DecodeComponent(pieces[i]).Ok? && '\\' in Uri.DecodeComponent(pieces[i]).value
                  && forall j :: 0 <= j < i ==> Uri.DecodeComponent(pieces[j]).Ok? && '\\' !in Uri.DecodeComponent(pieces[j]).value {
      var i :| 0 <= i < |pieces| && Uri.DecodeComponent(pieces[i]).Ok? && '\\' in Uri.DecodeComponent(pieces[i]).value
                  && forall j :: 0 <= j < i ==> Uri.DecodeComponent(pieces[j]).Ok? && '\\' !in Uri.DecodeComponent(pieces[j]).value;
      FirstFailure(pieces, i);
    }
  }

  /** If piece `i` is refused for a backslash and all before it decode, that refusal is the result. */
  lemma {:induction false} FirstFailure(pieces: seq<string>, i: nat)
    requires i < |pieces|
    requires DecodePiece(pieces[i], Win32) == Err(InvalidForwardSlash)
    requires forall j :: 0 <= j < i ==> DecodePiece(pieces[j], Win32).Ok?
    ensures DecodePieces(pieces, Win32) == Err(InvalidForwardSlash)
  {
    if i > 0 {
      FirstFailure(pieces[1..], i - 1);
    }
  }

  /** The empty request URL requests the empty path. */
  lemma EmptyRequestUrl(platform: Platform)
    ensures GetRequestedPath("", platform) == Ok("")
  {
    DecodePlainPathname("", platform);
  }

  /** A well-formed URL's query and fragment play no part in the requested path. */
  lemma QueryIgnored(path: string, rest: string, c: char, platform: Platform)
    requires c == '?' || c == '#'
    requires '?' !in path && '#' !in path
    requires Uri.DecodeComponent(path + [c] + rest).Ok?
    ensures GetRequestedPath(path + [c] + rest, platform) == DecodePathname(path, platform)
  {
    PathnameStopsAt(path, [c] + rest);
    assert path + [c] + rest == path + ([c] + rest);
  }

  lemma {:induction false} PathnameStopsAt(path: string, tail: string)
    requires '?' !in path && '#' !in path
    requires |tail| > 0 && (tail[0] == '?' || tail[0] == '#')
    ensures Pathname(path + tail) == path
  {
    if |path| > 0 {
      assert (path + tail)[1..] == path[1..] + tail;
      PathnameStopsAt(path[1..], tail);
    } else {
      assert path + tail == tail;
    }
  }

  /** A URL that is not valid percent-encoding as a whole is refused. */
  lemma MalformedUrlRefused(requestUrl: string, platform: Platform)
    requires Uri.DecodeComponent(requestUrl).Err?
    ensures GetRequestedPath(requestUrl, platform) == Err(UriError)
  {
  }

  /**
   * The file path is the root followed by the clean segments of the resolved
   * pathname: `..` is spent against `/` before the root is joined, so the result
   * never leaves the root.
   */
  lemma FileForPathnameBelowRoot(wwwRoot: CleanPath, cwd: CleanPath, pathname: string)
    ensures FileForPathname(wwwRoot, cwd, pathname) == Render(wwwRoot + Resolve(cwd, pathname))
    ensures UnderRoot(wwwRoot, FileForPathname(wwwRoot, cwd, pathname))
  {
    var target := Resolve(cwd, pathname);
    assert Resolve(cwd, "/") == [] by {
      CollapseRender([], []);
      assert Render([]) == "/";
    }
    assert RelativeOf(cwd, "/", pathname) == Join(target, "/") by {
      RelativeBelow([], target);
      assert [] + target == target;
    }
    JoinBelowRoot(wwwRoot, target);
    RenderUnderRoot(wwwRoot, target);
  }

  /** Whatever the request URL, a file path it yields lies within the served root. */
  lemma GetFileFromPathUnderRoot(wwwRoot: CleanPath, cwd: CleanPath, requestUrl: string, platform: Platform)
    requires GetFileFromPath(wwwRoot, cwd, requestUrl, platform).Ok?
    ensures UnderRoot(wwwRoot, GetFileFromPath(wwwRoot, cwd, requestUrl, platform).value)
  {
    FileForPathnameBelowRoot(wwwRoot, cwd, GetRequestedPath(requestUrl, platform).value);
  }
}
