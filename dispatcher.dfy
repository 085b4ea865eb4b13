/**
 * The request handler of `createHttpRequestHandler`: src/index.ts keeps a
 * `firstRequestFlag` so that the first request for `/` serves the root
 * `index.html`; the compiled dist/index.js is the earlier, stateless chain.
 * The handler decides on an action from the stat of the resolved path; the
 * action is then carried out by the middlewares.
 */
module Dispatcher {
  import opened Outcomes
  import opened Strings
  import opened Json
  import opened PosixPath
  import opened Resolver
  import opened Environment
  import Middlewares

  datatype Action =
    | ErrorReply(status: int, content: Json)   // sendError(status, res, content)
    | Redirect(location: string)               // 302 with a `location` header
    | InjectHtml(filePath: string)             // sendHtml(filePath, req, res)
    | ListDirectory(dirPath: string)           // sendDirectoryContents(filePath, req, res)
    | StaticPassthrough                        // staticFileMiddleware(req, res)
    | Rejected(error: PathError)               // getRequestedPath threw

  /** The action and the value of `firstRequestFlag` after the request. */
  datatype Decision = Decision(action: Action, firstRequestFlag: bool)

  /** `req.url || ''`. */
  function RawUrl(url: Option<string>): string {
    if url.Some? then url.value else ""
  }

  /** The status a failed stat answers with. */
  function StatusForCode(code: string): int {
    if code == "ENOENT" || code == "ENOTDIR" then 404
    else if code == "EACCES" then 403
    else 500
  }

  const CannotServe: Json := JObj([Member("error", JStr("Resource requested cannot be served."))])

  /** The branches after the stat succeeded and no index file was served. */
  function ChooseByKind(kind: StatKind, reqPath: string, filePath: string): Action {
    if kind == Directory && !EndsWith(reqPath, "/") then Redirect(reqPath + "/")
    else if kind == Directory then ListDirectory(filePath)
    else if kind == File && EndsWith(filePath, ".html") then InjectHtml(filePath)
    else if kind == File then StaticPassthrough
    else ErrorReply(415, CannotServe)
  }

  /** What src/index.ts's handler does with one request, given the flag before it. */
  function Decide(first: bool, url: Option<string>, wwwDir: CleanPath, cwd: CleanPath, platform: Platform,
                  stat: string -> StatOutcome): Decision
  {
    match GetRequestedPath(RawUrl(url), platform)
    case Err(e) => Decision(Rejected(e), first)
    case Ok(reqPath) =>
      var filePath := FileForPathname(wwwDir, cwd, reqPath);
      match stat(filePath)
      case StatError(code, info) => Decision(ErrorReply(StatusForCode(code), JObj([Member("error", info)])), first)
      case Stat(kind) =>
        if first && reqPath == "/" then
          var indexFilePath := Join2(filePath, "index.html");
          if stat(indexFilePath) == Stat(File) then Decision(InjectHtml(indexFilePath), false)
          else Decision(ChooseByKind(kind, reqPath, filePath), false)
        else Decision(ChooseByKind(kind, reqPath, filePath), first)
  }

  /** The handler of src/index.ts, owning the flag that the first `/` request clears. */
  class RequestHandler {
    const wwwDir: CleanPath
    const cwd: CleanPath
    const platform: Platform
    var firstRequestFlag: bool

    constructor(wwwDir: CleanPath, cwd: CleanPath, platform: Platform)
      ensures this.wwwDir == wwwDir && this.cwd == cwd && this.platform == platform
      ensures firstRequestFlag
    {
      this.wwwDir := wwwDir;
      this.cwd := cwd;
      this.platform := platform;
      firstRequestFlag := true;
    }

    method Handle(url: Option<string>, stat: string -> StatOutcome) returns (a: Action)
      modifies this
      ensures Decision(a, firstRequestFlag) == Decide(old(firstRequestFlag), url, wwwDir, cwd, platform, stat)
    {
      var requested := GetRequestedPath(RawUrl(url), platform);
      if requested.Err? {
        return Rejected(requested.error);
      }
      var reqPath := requested.value;
      var filePath := GetFileFromPath(wwwDir, cwd, RawUrl(url), platform).value;
      var pathStat := stat(filePath);
      if pathStat.StatError? {
        return ErrorReply(StatusForCode(pathStat.code), JObj([Member("error", pathStat.info)]));
      }
      if firstRequestFlag && reqPath == "/" {
        firstRequestFlag := false;
        var indexFilePath := Join2(filePath, "index.html");
        var indexFileStat := stat(indexFilePath);
        if indexFileStat.Stat? && indexFileStat.kind == File {
          return InjectHtml(indexFilePath);
        }
      }
      if pathStat.kind == Directory && !EndsWith(reqPath, "/") {
        return Redirect(reqPath + "/");
      }
      if pathStat.kind == Directory {
        return ListDirectory(filePath);
      }
      if pathStat.kind == File && EndsWith(filePath, ".html") {
        return InjectHtml(filePath);
      }
      if pathStat.kind == File {
        return StaticPassthrough;
      }
      return ErrorReply(415, CannotServe);
    }
  }

  /** The handler of dist/index.js: the same chain without the first-request rule, and no state. */
  function DispatchStateless(url: Option<string>, wwwDir: CleanPath, cwd: CleanPath, platform: Platform,
                             stat: string -> StatOutcome): Action
  {
    match GetRequestedPath(RawUrl(url), platform)
    case Err(e) => Rejected(e)
    case Ok(reqPath) =>
      match GetFileFromPath(wwwDir, cwd, RawUrl(url), platform)
      case Err(e) => Rejected(e)
      case Ok(filePath) =>
        match stat(filePath)
        case StatError(code, info) =>
          if code == "ENOENT" || code == "ENOTDIR" then ErrorReply(404, JObj([Member("error", info)]))
          else if code == "EACCES" then ErrorReply(403, JObj([Member("error", info)]))
          else ErrorReply(500, JObj([Member("error", info)]))
        case Stat(kind) =>
          if kind == Directory && !EndsWith(reqPath, "/") then Redirect(reqPath + "/")
          else if kind == Directory then ListDirectory(filePath)
          else if kind == File && EndsWith(filePath, ".html") then InjectHtml(filePath)
          else if kind == File then StaticPassthrough
          else ErrorReply(415, CannotServe)
  }

  /** What carrying out an action produces: a response or rejection, or the request handed to ecstatic. */
  datatype Handled = Served(outcome: Outcome) | ToStaticServer

  function Perform(action: Action, rev: Middlewares.Revision, fs: FileSystem, url: Option<string>,
                   lrScriptLocation: string, templatePath: string): Handled
  {
    match action
    case ErrorReply(status, content) => Served(Respond(Middlewares.SendError(status, content)))
    case Redirect(location) => Served(Respond(Response(302, [("location", location)], "")))
    case InjectHtml(filePath) => Served(Middlewares.ServeHtml(fs, filePath, lrScriptLocation))
    case ListDirectory(dirPath) => Served(Middlewares.DirListing(rev, fs, templatePath, dirPath, url))
    case StaticPassthrough => ToStaticServer
    case Rejected(_) => Served(Reject)
  }

  // ---------------------------------------------------------------------------
  // Properties

  /** A failed stat of the file path answers 404, 403 or 500 by its code, with the error as body, and keeps the flag. */
  lemma StatErrorStatus(first: bool, url: Option<string>, wwwDir: CleanPath, cwd: CleanPath, platform: Platform,
                        stat: string -> StatOutcome, reqPath: string)
    requires GetRequestedPath(RawUrl(url), platform) == Ok(reqPath)
    requires stat(FileForPathname(wwwDir, cwd, reqPath)).StatError?
    ensures var d := Decide(first, url, wwwDir, cwd, platform, stat);
      var err := stat(FileForPathname(wwwDir, cwd, reqPath));
      d.firstRequestFlag == first &&
      d.action.ErrorReply? && d.action.content == JObj([Member("error", err.info)]) &&
      (d.action.status == 404 <==> err.code == "ENOENT" || err.code == "ENOTDIR") &&
      (d.action.status == 403 <==> err.code == "EACCES") &&
      (d.action.status == 500 <==> err.code != "ENOENT" && err.code != "ENOTDIR" && err.code != "EACCES")
  {
  }

  /** The first `/` request serves the root `index.html` when it stats as a file. */
  lemma FirstRootRequestServesIndex(url: Option<string>, wwwDir: CleanPath, cwd: CleanPath, platform: Platform,
                                    stat: string -> StatOutcome)
    requires GetRequestedPath(RawUrl(url), platform) == Ok("/")
    requires stat(Render(wwwDir)).Stat?
    requires stat(Join2(Render(wwwDir), "index.html")) == Stat(File)
    ensures Decide(true, url, wwwDir, cwd, platform, stat) == Decision(InjectHtml(Join2(Render(wwwDir), "index.html")), false)
  {
    RootFilePath(wwwDir, cwd);
  }

  /** The requested path `/` is the served root itself. */
  lemma RootFilePath(wwwDir: CleanPath, cwd: CleanPath)
    ensures FileForPathname(wwwDir, cwd, "/") == Render(wwwDir)
  {
    FileForPathnameBelowRoot(wwwDir, cwd, "/");
    CollapseRender([], []);
    assert Render([]) == "/";
    assert wwwDir + [] == wwwDir;
  }

  /**
   * The flag is cleared exactly by a request for `/` whose stat succeeded, whether
   * or not `index.html` exists; nothing sets it again.
   */
  lemma FlagClearedExactly(first: bool, url: Option<string>, wwwDir: CleanPath, cwd: CleanPath, platform: Platform,
                           stat: string -> StatOutcome)
    ensures var rp := GetRequestedPath(RawUrl(url), platform);
      Decide(first, url, wwwDir, cwd, platform, stat).firstRequestFlag <==>
        first && !(rp == Ok("/") && stat(FileForPathname(wwwDir, cwd, "/")).Stat?)
  {
  }

  /** Once the flag is down, a request whose stat succeeds goes straight to the kind branches. */
  lemma ClearedFlagFallsThrough(url: Option<string>, wwwDir: CleanPath, cwd: CleanPath, platform: Platform,
                                stat: string -> StatOutcome, reqPath: string, kind: StatKind)
    requires GetRequestedPath(RawUrl(url), platform) == Ok(reqPath)
    requires stat(FileForPathname(wwwDir, cwd, reqPath)) == Stat(kind)
    ensures Decide(false, url, wwwDir, cwd, platform, stat)
            == Decision(ChooseByKind(kind, reqPath, FileForPathname(wwwDir, cwd, reqPath)), false)
  {
  }

  /** A directory asked for without a trailing `/` is redirected to the path with one. */
  lemma DirectoryRedirect(first: bool, url: Option<string>, wwwDir: CleanPath, cwd: CleanPath, platform: Platform,
                          stat: string -> StatOutcome, reqPath: string)
    requires GetRequestedPath(RawUrl(url), platform) == Ok(reqPath)
    requires stat(FileForPathname(wwwDir, cwd, reqPath)) == Stat(Directory)
    requires !EndsWith(reqPath, "/")
    ensures var d := Decide(first, url, wwwDir, cwd, platform, stat);
      d == Decision(Redirect(reqPath + "/"), first) && EndsWith(d.action.location, "/")
  {
    assert reqPath != "/";
    var loc := reqPath + "/";
    assert loc[|loc| - 1..] == "/";
  }

  /** A directory asked for with a trailing `/`, past the first-request rule, is listed. */
  lemma DirectoryListed(first: bool, url: Option<string>, wwwDir: CleanPath, cwd: CleanPath, platform: Platform,
                        stat: string -> StatOutcome, reqPath: string)
    requires GetRequestedPath(RawUrl(url), platform) == Ok(reqPath)
    requires stat(FileForPathname(wwwDir, cwd, reqPath)) == Stat(Directory)
    requires EndsWith(reqPath, "/")
    requires !(first && reqPath == "/" && stat(Join2(Render(wwwDir), "index.html")) == Stat(File))
    ensures Decide(first, url, wwwDir, cwd, platform, stat).action == ListDirectory(FileForPathname(wwwDir, cwd, reqPath))
  {
    if reqPath == "/" {
      RootFilePath(wwwDir, cwd);
    }
  }

  /** Files ending in `.html` get the script injected, other files go to the static server, anything else is a 415. */
  lemma KindBranches(kind: StatKind, reqPath: string, filePath: string)
    requires kind != Directory
    ensures kind == File && EndsWith(filePath, ".html") ==> ChooseByKind(kind, reqPath, filePath) == InjectHtml(filePath)
    ensures kind == File && !EndsWith(filePath, ".html") ==> ChooseByKind(kind, reqPath, filePath) == StaticPassthrough
    ensures kind == OtherKind ==> ChooseByKind(kind, reqPath, filePath) == ErrorReply(415, CannotServe)
  {
  }

  /** dist/index.js decides what src/index.ts decides once its flag is down, and never depends on history. */
  lemma StatelessIsClearedFlag(url: Option<string>, wwwDir: CleanPath, cwd: CleanPath, platform: Platform,
                               stat: string -> StatOutcome)
    ensures Decision(DispatchStateless(url, wwwDir, cwd, platform, stat), false) == Decide(false, url, wwwDir, cwd, platform, stat)
  {
    match GetRequestedPath(RawUrl(url), platform)
    case Err(_) =>
    case Ok(reqPath) =>
      match stat(FileForPathname(wwwDir, cwd, reqPath))
      case StatError(_, _) => StatelessAfterStatError(url, wwwDir, cwd, platform, stat, reqPath);
      case Stat(_) => StatelessAfterStat(url, wwwDir, cwd, platform, stat, reqPath);
  }

  /** A failed stat gets the same error reply from both handlers. */
  lemma StatelessAfterStatError(url: Option<string>, wwwDir: CleanPath, cwd: CleanPath, platform: Platform,
                                stat: string -> StatOutcome, reqPath: string)
    requires GetRequestedPath(RawUrl(url), platform) == Ok(reqPath)
    requires stat(FileForPathname(wwwDir, cwd, reqPath)).StatError?
    ensures Decision(DispatchStateless(url, wwwDir, cwd, platform, stat), false) == Decide(false, url, wwwDir, cwd, platform, stat)
  {
    var failed := stat(FileForPathname(wwwDir, cwd, reqPath));
    assert GetFileFromPath(wwwDir, cwd, RawUrl(url), platform) == Ok(FileForPathname(wwwDir, cwd, reqPath));
    assert DispatchStateless(url, wwwDir, cwd, platform, stat)
        == ErrorReply(StatusForCode(failed.code), JObj([Member("error", failed.info)]));
  }

  /** A successful stat is dispatched on its kind by both handlers alike. */
  lemma StatelessAfterStat(url: Option<string>, wwwDir: CleanPath, cwd: CleanPath, platform: Platform,
                           stat: string -> StatOutcome, reqPath: string)
    requires GetRequestedPath(RawUrl(url), platform) == Ok(reqPath)
    requires stat(FileForPathname(wwwDir, cwd, reqPath)).Stat?
    ensures Decision(DispatchStateless(url, wwwDir, cwd, platform, stat), false) == Decide(false, url, wwwDir, cwd, platform, stat)
  {
    assert GetFileFromPath(wwwDir, cwd, RawUrl(url), platform) == Ok(FileForPathname(wwwDir, cwd, reqPath));
  }

  /** Without the first-request rule `/` is always listed when the root is a directory. */
  lemma StatelessListsRoot(url: Option<string>, wwwDir: CleanPath, cwd: CleanPath, platform: Platform,
                           stat: string -> StatOutcome)
    requires GetRequestedPath(RawUrl(url), platform) == Ok("/")
    requires stat(Render(wwwDir)) == Stat(Directory)
    ensures DispatchStateless(url, wwwDir, cwd, platform, stat) == ListDirectory(Render(wwwDir))
  {
    RootFilePath(wwwDir, cwd);
  }

  /** The root's `index.html` is the root followed by that one segment. */
  lemma IndexBelowRoot(wwwDir: CleanPath)
    ensures Join2(Render(wwwDir), "index.html") == Render(wwwDir + ["index.html"])
  {
    var rel := ["index.html"];
    assert Join(rel, "/") == "index.html";
    CollapseBelowRoot(wwwDir, rel);
    var joined := Render(wwwDir) + "/" + "index.html";
    assert joined[|joined| - 1] == 'l';
    NormalizeNoTrailing(joined, wwwDir + rel);
  }

  /** The paths the kind branches hand on are the file path. */
  lemma ChooseByKindPath(kind: StatKind, reqPath: string, filePath: string)
    ensures var a := ChooseByKind(kind, reqPath, filePath);
      (a.ListDirectory? ==> a.dirPath == filePath) && (a.InjectHtml? ==> a.filePath == filePath)
  {
  }

  predicate HandedOnUnderRoot(wwwDir: CleanPath, a: Action) {
    (a.ListDirectory? ==> UnderRoot(wwwDir, a.dirPath)) && (a.InjectHtml? ==> UnderRoot(wwwDir, a.filePath))
  }

  /** Every path the handler hands on to a middleware lies within the served root. */
  lemma ActionsStayUnderRoot(first: bool, url: Option<string>, wwwDir: CleanPath, cwd: CleanPath, platform: Platform,
                             stat: string -> StatOutcome)
    ensures HandedOnUnderRoot(wwwDir, Decide(first, url, wwwDir, cwd, platform, stat).action)
  {
    var rp := GetRequestedPath(RawUrl(url), platform);
    if rp.Ok? {
      var filePath := FileForPathname(wwwDir, cwd, rp.value);
      if stat(filePath).Stat? {
        if first && rp.value == "/" {
          RootRequestUnderRoot(url, wwwDir, cwd, platform, stat);
        } else {
          OtherRequestUnderRoot(first, url, wwwDir, cwd, platform, stat, rp.value);
        }
      }
    }
  }

  lemma RootRequestUnderRoot(url: Option<string>, wwwDir: CleanPath, cwd: CleanPath, platform: Platform,
                             stat: string -> StatOutcome)
    requires GetRequestedPath(RawUrl(url), platform) == Ok("/")
    requires stat(FileForPathname(wwwDir, cwd, "/")).Stat?
    ensures HandedOnUnderRoot(wwwDir, Decide(true, url, wwwDir, cwd, platform, stat).action)
  {
    RootFilePath(wwwDir, cwd);
    if stat(Join2(Render(wwwDir), "index.html")) == Stat(File) {
      FirstRootRequestServesIndex(url, wwwDir, cwd, platform, stat);
      IndexUnderRoot(wwwDir);
    } else {
      RootWithoutIndexUnderRoot(url, wwwDir, cwd, platform, stat);
    }
  }

  lemma IndexUnderRoot(wwwDir: CleanPath)
    ensures UnderRoot(wwwDir, Join2(Render(wwwDir), "index.html"))
  {
    IndexBelowRoot(wwwDir);
    RenderUnderRoot(wwwDir, ["index.html"]);
  }

  lemma RootWithoutIndexUnderRoot(url: Option<string>, wwwDir: CleanPath, cwd: CleanPath, platform: Platform,
                                  stat: string -> StatOutcome)
    requires GetRequestedPath(RawUrl(url), platform) == Ok("/")
    requires stat(Render(wwwDir)).Stat?
    requires stat(Join2(Render(wwwDir), "index.html")) != Stat(File)
    ensures HandedOnUnderRoot(wwwDir, Decide(true, url, wwwDir, cwd, platform, stat).action)
  {
    var root := Render(wwwDir);
    RootWithoutIndex(url, wwwDir, cwd, platform, stat);
    ChooseByKindPath(stat(root).kind, "/", root);
    RenderUnderRoot(wwwDir, []);
    assert wwwDir + [] == wwwDir;
  }

  /** Without a root `index.html` the first `/` request goes to the kind branches with the root itself. */
  lemma RootWithoutIndex(url: Option<string>, wwwDir: CleanPath, cwd: CleanPath, platform: Platform,
                         stat: string -> StatOutcome)
    requires GetRequestedPath(RawUrl(url), platform) == Ok("/")
    requires stat(Render(wwwDir)).Stat?
    requires stat(Join2(Render(wwwDir), "index.html")) != Stat(File)
    ensures Decide(true, url, wwwDir, cwd, platform, stat)
            == Decision(ChooseByKind(stat(Render(wwwDir)).kind, "/", Render(wwwDir)), false)
  {
    RootFilePath(wwwDir, cwd);
  }

  lemma OtherRequestUnderRoot(first: bool, url: Option<string>, wwwDir: CleanPath, cwd: CleanPath, platform: Platform,
                              stat: string -> StatOutcome, reqPath: string)
    requires GetRequestedPath(RawUrl(url), platform) == Ok(reqPath)
    requires stat(FileForPathname(wwwDir, cwd, reqPath)).Stat?
    requires !(first && reqPath == "/")
    ensures HandedOnUnderRoot(wwwDir, Decide(first, url, wwwDir, cwd, platform, stat).action)
  {
    var filePath := FileForPathname(wwwDir, cwd, reqPath);
    assert Decide(first, url, wwwDir, cwd, platform, stat).action == ChooseByKind(stat(filePath).kind, reqPath, filePath);
    FileForPathnameBelowRoot(wwwDir, cwd, reqPath);
  }

  /** The first `/` request with a root index answers 200 with the index page carrying the reload script. */
  lemma FirstRootRequestResponse(url: Option<string>, wwwDir: CleanPath, cwd: CleanPath, platform: Platform,
                                 rev: Middlewares.Revision, fs: FileSystem, lrScriptLocation: string, templatePath: string)
    requires GetRequestedPath(RawUrl(url), platform) == Ok("/")
    requires fs.stat(Render(wwwDir)).Stat?
    requires fs.stat(Join2(Render(wwwDir), "index.html")) == Stat(File)
    requires fs.readFile(Join2(Render(wwwDir), "index.html")).Ok?
    ensures var page := fs.readFile(Join2(Render(wwwDir), "index.html")).value;
      Perform(Decide(true, url, wwwDir, cwd, platform, fs.stat).action, rev, fs, url, lrScriptLocation, templatePath)
      == Served(Respond(Response(200, Middlewares.HtmlHeaders(), Middlewares.InjectScript(page, lrScriptLocation))))
  {
    FirstRootRequestServesIndex(url, wwwDir, cwd, platform, fs.stat);
  }
}
