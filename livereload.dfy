/**
 * The live-reload side of the server: the address a browser is pointed at, the
 * location of the reload script handed to the HTML middleware, and the paths
 * sent to the reload server when files under the served root change.
 */
module LiveReload {
  import opened Strings
  import opened Numbers
  import opened PosixPath
  import Middlewares

  /** getAddressForBrowser: the wildcard address is shown to a browser as `localhost`. */
  function AddressForBrowser(address: string): (r: string)
    ensures r != "0.0.0.0"
    ensures address == "0.0.0.0" ==> r == "localhost"
    ensures address != "0.0.0.0" ==> r == address
  {
    if address == "0.0.0.0" then "localhost" else address
  }

  const ScriptPath: string := "/livereload.js?snipver=1"

  /**
   * The reload script location createLiveReload returns: src/index.ts shows the
   * address as a browser would use it, dist/index.js uses the raw address.
   */
  function ScriptLocation(rev: Middlewares.Revision, address: string, port: nat): (loc: string)
    ensures EndsWith(loc, ScriptPath)
  {
    var host := if rev == Middlewares.Src then AddressForBrowser(address) else address;
    var loc := host + ":" + Decimal(port) + ScriptPath;
    assert loc[|loc| - |ScriptPath|..] == ScriptPath;
    loc
  }

  /** An address without `$` gives a location without `$`: the injected page is then the literal one. */
  lemma ScriptLocationWithoutDollar(rev: Middlewares.Revision, address: string, port: nat, html: string)
    requires '$' !in address
    ensures '$' !in ScriptLocation(rev, address, port)
    ensures Middlewares.InjectScriptAsWritten(html, ScriptLocation(rev, address, port))
            == Middlewares.InjectScript(html, ScriptLocation(rev, address, port))
  {
    var host := if rev == Middlewares.Src then AddressForBrowser(address) else address;
    assert forall i :: 0 <= i < |"localhost"| ==> "localhost"[i] != '$';
    assert '$' !in host;
    var digits := Decimal(port);
    assert digits == NatDigits(port);
    assert forall i :: 0 <= i < |digits| ==> IsDigit(digits[i]);
    assert '$' !in digits;
    assert forall i :: 0 <= i < |ScriptPath| ==> ScriptPath[i] != '$';
    assert ScriptLocation(rev, address, port) == host + ":" + digits + ScriptPath;
    Middlewares.InjectAgreesWithoutDollar(html, ScriptLocation(rev, address, port));
  }

  /**
   * One entry of the change notification: `'/' + path.relative(wwwDir, changedFile)`,
   * where `path.relative` resolves both arguments against the process's working
   * directory `processCwd`.
   */
  function NotifiedPath(processCwd: CleanPath, wwwDir: CleanPath, changedFile: string): (p: string)
    ensures |p| > 0 && p[0] == '/'
  {
    "/" + RelativeOf(processCwd, Render(wwwDir), changedFile)
  }

  /** The `files` of the notification for the names the watcher reports, resolved against `resolveCwd`. */
  function NotificationPaths(resolveCwd: CleanPath, wwwDir: CleanPath, changed: seq<string>): (r: seq<string>)
    ensures |r| == |changed|
    ensures forall i :: 0 <= i < |r| ==> |r[i]| > 0 && r[i][0] == '/'
  {
    seq(|changed|, i requires 0 <= i < |changed| => NotifiedPath(resolveCwd, wwwDir, changed[i]))
  }

  /**
   * The watcher reports names relative to the served root, so they are resolved
   * against the root: the notification as the reload client expects it.
   */
  function RootNotificationPaths(wwwDir: CleanPath, changed: seq<string>): (r: seq<string>)
    ensures |r| == |changed|
  {
    NotificationPaths(wwwDir, wwwDir, changed)
  }

  // ---------------------------------------------------------------------------
  // Properties

  /** The two revisions agree on the script location except for the wildcard address. */
  lemma ScriptLocationRevisions(address: string, port: nat)
    ensures ScriptLocation(Middlewares.Src, address, port) == ScriptLocation(Middlewares.Dist, address, port)
            <==> address != "0.0.0.0"
  {
    var suffix := ":" + Decimal(port) + ScriptPath;
    LocationParts(Middlewares.Src, address, port, suffix);
    LocationParts(Middlewares.Dist, address, port, suffix);
    AppendCancel(AddressForBrowser(address), address, suffix);
  }

  lemma LocationParts(rev: Middlewares.Revision, address: string, port: nat, suffix: string)
    requires suffix == ":" + Decimal(port) + ScriptPath
    ensures ScriptLocation(rev, address, port) == (if rev == Middlewares.Src then AddressForBrowser(address) else address) + suffix
  {
  }

  lemma AppendCancel(x: string, y: string, s: string)
    ensures x + s == y + s <==> x == y
  {
    if x + s == y + s {
      assert |x| == |y|;
      assert x == (x + s)[..|x|];
      assert y == (y + s)[..|y|];
    }
  }

  lemma {:induction false} DigitRunStops(digits: string, rest: string)
    requires forall i :: 0 <= i < |digits| ==> IsDigit(digits[i])
    requires |rest| > 0 && !IsDigit(rest[0])
    ensures DigitRun(digits + rest) == |digits|
  {
    if |digits| > 0 {
      assert (digits + rest)[1..] == digits[1..] + rest;
      DigitRunStops(digits[1..], rest);
    }
  }

  /** The port can be read back from the script location: the digits after `host:` parse to it. */
  lemma ScriptLocationPort(rev: Middlewares.Revision, address: string, port: nat)
    ensures var host := if rev == Middlewares.Src then AddressForBrowser(address) else address;
      var loc := ScriptLocation(rev, address, port);
      StartsWith(loc, host + ":") && ParseInt(loc[|host| + 1..]) == Num(port)
  {
    var host := if rev == Middlewares.Src then AddressForBrowser(address) else address;
    var loc := ScriptLocation(rev, address, port);
    var digits := NatDigits(port);
    assert Decimal(port) == digits;
    assert loc == (host + ":") + (digits + ScriptPath);
    var t := loc[|host| + 1..];
    assert t == digits + ScriptPath;
    DigitsBeforePath(port, t);
  }

  /** The port's digits followed by the script path parse to the port. */
  lemma DigitsBeforePath(port: nat, t: string)
    requires t == NatDigits(port) + ScriptPath
    ensures ParseInt(t) == Num(port)
  {
    var digits := NatDigits(port);
    assert !IsJsWhiteSpace(t[0]) && t[0] != '-' && t[0] != '+';
    assert SignStripped(SkipWhiteSpace(t)) == t;
    assert ScriptPath[0] == '/';
    DigitRunStops(digits, ScriptPath);
    assert t[..|digits|] == digits;
    DigitsValueOfNatDigits(port);
  }

  /** A path given in absolute form resolves to its own segments, whatever the working directory. */
  lemma ResolveRendered(cwd: CleanPath, p: CleanPath)
    ensures Resolve(cwd, Render(p)) == p
  {
    CollapseRender([], p);
    assert [] + p == p;
  }

  /** Resolved against the root, a clean root-relative name is announced as the URL path of that file. */
  lemma RootRelativeNameAnnounced(wwwDir: CleanPath, segs: CleanPath)
    requires |segs| > 0
    ensures NotifiedPath(wwwDir, wwwDir, Join(segs, "/")) == Render(segs)
  {
    var name := Join(segs, "/");
    ResolveRendered(wwwDir, wwwDir);
    forall i | 0 <= i < |segs| ensures '/' !in segs[i] { }
    SplitJoin(segs, '/');
    assert segs[0][0] != '/' by {
      assert Clean(segs[0]);
      assert segs[0][0] in segs[0];
    }
    JoinStartsWithFirst(segs);
    CollapseClean(wwwDir, segs);
    assert Resolve(wwwDir, name) == wwwDir + segs;
    RelativeBelow(wwwDir, segs);
  }

  lemma JoinStartsWithFirst(segs: seq<string>)
    requires |segs| > 0 && |segs[0]| > 0
    ensures var j := Join(segs, "/"); |j| > 0 && j[0] == segs[0][0]
  {
  }

  /** Every entry of the root-resolved notification is the URL path of the changed file. */
  lemma RootNotificationPathsAnnounced(wwwDir: CleanPath, changed: seq<CleanPath>)
    requires forall i :: 0 <= i < |changed| ==> |changed[i]| > 0
    ensures var r := RootNotificationPaths(wwwDir, seq(|changed|, i requires 0 <= i < |changed| => Join(changed[i], "/")));
      forall i :: 0 <= i < |changed| ==> r[i] == Render(changed[i])
  {
    var names := seq(|changed|, i requires 0 <= i < |changed| => Join(changed[i], "/"));
    forall i | 0 <= i < |changed|
      ensures RootNotificationPaths(wwwDir, names)[i] == Render(changed[i])
    {
      RootRelativeNameAnnounced(wwwDir, changed[i]);
    }
  }

  /** When the server is started in the directory it serves, the notification is the root-resolved one. */
  lemma NotificationAtRootCwd(processCwd: CleanPath, wwwDir: CleanPath, changed: seq<string>)
    requires processCwd == wwwDir
    ensures NotificationPaths(processCwd, wwwDir, changed) == RootNotificationPaths(wwwDir, changed)
  {
  }

  /**
   * Served from a sub-directory of the working directory, a change to the root's
   * `a.html` is announced as `/../a.html` instead of `/a.html`.
   */
  lemma NotificationOutsideCwd(processCwd: CleanPath, wwwDir: CleanPath, changed: seq<string>)
    requires processCwd == ["p"] && wwwDir == ["p", "www"] && changed == ["a.html"]
    ensures NotificationPaths(processCwd, wwwDir, changed) == ["/../a.html"]
    ensures RootNotificationPaths(wwwDir, changed) == ["/a.html"]
  {
    OutsideAsWritten(processCwd, wwwDir, changed);
    OutsideAtRoot(wwwDir, changed);
  }

  lemma OutsideAsWritten(processCwd: CleanPath, wwwDir: CleanPath, changed: seq<string>)
    requires processCwd == ["p"] && wwwDir == ["p", "www"] && changed == ["a.html"]
    ensures NotificationPaths(processCwd, wwwDir, changed) == ["/../a.html"]
  {
    SingleNotification(processCwd, wwwDir, "a.html");
    SubdirNameAsWritten(processCwd, wwwDir, "a.html");
  }

  lemma OutsideAtRoot(wwwDir: CleanPath, changed: seq<string>)
    requires wwwDir == ["p", "www"] && changed == ["a.html"]
    ensures RootNotificationPaths(wwwDir, changed) == ["/a.html"]
  {
    SingleNotification(wwwDir, wwwDir, "a.html");
    SingleName(wwwDir, "a.html");
    assert "/" + "a.html" == "/a.html";
  }

  lemma SingleNotification(resolveCwd: CleanPath, wwwDir: CleanPath, f: string)
    ensures NotificationPaths(resolveCwd, wwwDir, [f]) == [NotifiedPath(resolveCwd, wwwDir, f)]
  {
  }

  lemma SingleName(root: CleanPath, name: string)
    requires Clean(name)
    ensures NotifiedPath(root, root, name) == "/" + name
  {
    var segs: CleanPath := [name];
    assert Join(segs, "/") == name;
    RootRelativeNameAnnounced(root, segs);
  }

  lemma SubdirNameAsWritten(processCwd: CleanPath, wwwDir: CleanPath, name: string)
    requires processCwd == ["p"] && wwwDir == ["p", "www"] && name == "a.html"
    ensures NotifiedPath(processCwd, wwwDir, name) == "/../a.html"
  {
    var file: CleanPath := ["p", "a.html"];
    ResolveRendered(processCwd, wwwDir);
    ResolveName();
    RelativeUp(wwwDir, file);
    assert RelativeOf(processCwd, Render(wwwDir), name) == Relative(wwwDir, file);
    assert "/" + "../a.html" == "/../a.html";
  }

  lemma ResolveName()
    ensures Resolve(["p"], "a.html") == ["p", "a.html"]
  {
    SplitNoSeparator("a.html", '/');
    CollapseClean(["p"], ["a.html"]);
  }

  lemma RelativeUp(root: CleanPath, file: CleanPath)
    requires root == ["p", "www"] && file == ["p", "a.html"]
    ensures Relative(root, file) == "../a.html"
  {
    assert CommonPrefixLength(root[1..], file[1..]) == 0;
    assert CommonPrefixLength(root, file) == 1;
    assert Ups(1) + file[1..] == ["..", "a.html"];
    assert Join(["..", "a.html"], "/") == "../a.html";
  }
}
