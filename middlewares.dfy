/**
 * The response builders of src/middlewares.ts and its compiled earlier revision
 * dist/middlewares.js: `serveHtml` (reload script injection), `serveDirContents`
 * (the directory listing) and `sendError` (a JSON error body).
 */
module Middlewares {
  import opened Outcomes
  import opened Strings
  import opened Json
  import opened PosixPath
  import opened Environment
  import opened Replace
  import opened Sorting
  import opened Links

  /** src/middlewares.ts, or the compiled dist/middlewares.js with its own markup. */
  datatype Revision = Src | Dist

  // ---------------------------------------------------------------------------
  // sendError

  /** sendError: the status, a plain-text content type and `JSON.stringify(content, null, 2)`. */
  function SendError(status: int, content: Json): (r: Response)
    ensures r.status == status && r.headers == [("Content-Type", "text/plain")]
    ensures |r.body| > 0
  {
    Response(status, [("Content-Type", "text/plain")], Stringify(content, ""))
  }

  /** An error object with one string member: its body names the key and quotes the message, which reads back. */
  lemma ErrorMessageBody(status: int, key: string, message: string)
    ensures SendError(status, JObj([Member(key, JStr(message))])).body
            == "{\n  " + Quote(key) + ": " + Quote(message) + "\n}"
    ensures Unquote(Quote(message)) == Some(message)
  {
    SingleMemberText(key, JStr(message));
    UnquoteQuote(message);
  }

  // ---------------------------------------------------------------------------
  // serveHtml

  const BodyClose := "</body>"

  function HtmlHeaders(): seq<(string, string)> {
    [("Content-Type", "text/html")]
  }

  const ScriptOpen := "<script type=\"text/javascript\" "

  /** The script's `src` attribute: the reload location behind a protocol-relative `//`. */
  function ScriptSrc(lrScriptLocation: string): string {
    "src=\"//" + lrScriptLocation + "\""
  }

  const ScriptClose := " charset=\"utf-8\"></script>\n        " + BodyClose

  /** The reload script element, followed by a new line, the indentation and the closing body tag. */
  function ScriptTag(lrScriptLocation: string): (t: string)
    ensures EndsWith(t, BodyClose)
  {
    ScriptOpen + ScriptSrc(lrScriptLocation) + ScriptClose
  }

  /** The first `</body>` becomes the script tag; everything around it is kept. */
  function InjectScript(html: string, lrScriptLocation: string): (r: string)
    ensures !Contains(html, BodyClose) ==> r == html
    ensures forall i: nat :: FirstAt(html, BodyClose, i) ==>
              r == html[..i] + ScriptTag(lrScriptLocation) + html[i + |BodyClose|..]
  {
    ReplaceFirst(html, BodyClose, ScriptTag(lrScriptLocation))
  }

  /** The script's source is the reload location behind a protocol-relative `//`. */
  lemma ScriptSource(lrScriptLocation: string)
    ensures OccursAt(ScriptTag(lrScriptLocation), "src=\"//" + lrScriptLocation + "\"", |ScriptOpen|)
  {
    OccursInMiddle(ScriptOpen, ScriptSrc(lrScriptLocation), ScriptClose);
  }

  /** Injection keeps a closing body tag in the page. */
  lemma InjectKeepsBodyClose(html: string, lrScriptLocation: string, i: nat)
    requires FirstAt(html, BodyClose, i)
    ensures OccursAt(InjectScript(html, lrScriptLocation), BodyClose, i + |ScriptTag(lrScriptLocation)| - |BodyClose|)
  {
    var t := ScriptTag(lrScriptLocation);
    var r := InjectScript(html, lrScriptLocation);
    var k := i + |t| - |BodyClose|;
    assert r == html[..i] + t + html[i + |BodyClose|..];
    assert r[k..k + |BodyClose|] == t[|t| - |BodyClose|..];
  }

  /**
   * `html.replace('</body>', tag)` as JavaScript evaluates it: the tag is a
   * replacement string, so `$` patterns in the location are expanded.
   */
  function InjectScriptAsWritten(html: string, lrScriptLocation: string): string {
    ReplaceFirstAsWritten(html, BodyClose, ScriptTag(lrScriptLocation))
  }

  /** The fixed parts of the script tag hold no `$`. */
  lemma ScriptPartsDollarFree()
    ensures '$' !in ScriptOpen && '$' !in ScriptClose
  {
    assert forall i :: 0 <= i < |ScriptOpen| ==> ScriptOpen[i] != '$';
    assert forall i :: 0 <= i < |ScriptClose| ==> ScriptClose[i] != '$';
  }

  lemma ScriptTagDollarFree(lrScriptLocation: string)
    requires '$' !in lrScriptLocation
    ensures '$' !in ScriptTag(lrScriptLocation)
  {
    ScriptPartsDollarFree();
  }

  /** Without `$` in the location, the page as written is the literal injection. */
  lemma InjectAgreesWithoutDollar(html: string, lrScriptLocation: string)
    requires '$' !in lrScriptLocation
    ensures InjectScriptAsWritten(html, lrScriptLocation) == InjectScript(html, lrScriptLocation)
  {
    ScriptTagDollarFree(lrScriptLocation);
    ReplaceAgreesWithoutDollar(html, BodyClose, ScriptTag(lrScriptLocation));
  }

  /**
   * Where the two differ: for the page `</body>` and the location `$&`, the
   * page as written points the script at `//</body>`, not at `//$&`.
   */
  lemma DollarLocationAsWritten(html: string, lrScriptLocation: string)
    requires html == BodyClose && lrScriptLocation == "$&"
    ensures InjectScriptAsWritten(html, lrScriptLocation) == ScriptTag(BodyClose)
    ensures InjectScript(html, lrScriptLocation) == ScriptTag(lrScriptLocation)
  {
    ReplaceWhole(html, BodyClose, ScriptTag(lrScriptLocation));
    ExpandedTag(lrScriptLocation, BodyClose);
  }

  /** Expanding the tag for the location `$&` puts the matched text where the location stood. */
  lemma ExpandedTag(lrScriptLocation: string, matched: string)
    requires lrScriptLocation == "$&"
    ensures Expand(ScriptTag(lrScriptLocation), matched, "", "") == ScriptTag(matched)
  {
    var head := ScriptOpen + "src=\"//";
    var tail := "\"" + ScriptClose;
    ScriptPartsDollarFree();
    TagParts(lrScriptLocation, head, tail);
    TagParts(matched, head, tail);
    ExpandAfterPlain(head, lrScriptLocation + tail, matched, "", "");
    ExpandDollarAmpersand(lrScriptLocation, tail, matched, "", "");
    ExpandPlain(tail, matched, "", "");
  }

  lemma TagParts(lrScriptLocation: string, head: string, tail: string)
    requires head == ScriptOpen + "src=\"//" && tail == "\"" + ScriptClose
    ensures ScriptTag(lrScriptLocation) == head + (lrScriptLocation + tail)
  {
  }

  /** serveHtml: the page with the script injected, as text/html; a failed read rejects. */
  function ServeHtml(fs: FileSystem, filePath: string, lrScriptLocation: string): Outcome {
    match fs.readFile(filePath)
    case Err(_) => Reject
    case Ok(html) => Respond(Response(200, HtmlHeaders(), InjectScript(html, lrScriptLocation)))
  }

  // ---------------------------------------------------------------------------
  // serveDirContents

  /** A name the listing hides: it begins with `.` (`'.' !== fileName[0]` is false). */
  predicate Hidden(name: string) {
    |name| > 0 && name[0] == '.'
  }

  /** `files.filter(...)`: the names that are not hidden, in their order. */
  function Visible(names: seq<string>): (r: seq<string>)
    ensures forall x :: x in r <==> x in names && !Hidden(x)
    ensures multiset(r) <= multiset(names)
  {
    if |names| == 0 then []
    else
      assert names == [names[0]] + names[1..];
      (if Hidden(names[0]) then [] else [names[0]]) + Visible(names[1..])
  }

  /** The names listed, in order: `..` unless the URL is `/`, then the visible names sorted. */
  function ListedNames(names: seq<string>, dirUrl: string): seq<string> {
    (if dirUrl != "/" then [".."] else []) + SortNames(Visible(names))
  }

  function Marker(isDirectory: bool): string {
    if isDirectory then "d" else "-"
  }

  function LinkClass(isDirectory: bool): string {
    if isDirectory then "directory" else "file"
  }

  /** The start of an entry's link, up to its class. */
  function LinkOpen(isDirectory: bool): string {
    "<a class=\"" + LinkClass(isDirectory)
  }

  /** The rest of an entry's link: the target and the name shown. */
  function LinkRest(dirUrl: string, name: string): string {
    "\" href=\"" + ResolveLink(dirUrl, name) + "\">" + name + "</a>"
  }

  /** The markup of one entry. */
  function Entry(rev: Revision, dirUrl: string, name: string, isDirectory: bool): string {
    var link := LinkOpen(isDirectory) + LinkRest(dirUrl, name);
    match rev
    case Src => Marker(isDirectory) + " " + link
    case Dist => "<span class=\"denote\">" + Marker(isDirectory) + "</span> " + link
  }

  /** `files.map(...).join('<br/>\n')`, entry `i` taking its kind from stat `i`. */
  function EntriesHtml(rev: Revision, dirUrl: string, names: seq<string>, kinds: seq<StatKind>): string
    requires |names| == |kinds|
  {
    Join(seq(|names|, i requires 0 <= i < |names| => Entry(rev, dirUrl, names[i], kinds[i] == Directory)), "<br/>\n")
  }

  /** The style sheet filled into src's template, a rule line or two at a time. */
  const Style: string :=
    StyleHtml + StyleFont + StyleBody + StyleMargin + StyleWidth
    + StyleLinks + StyleColor + StyleDisplay + StyleEnd

  const StyleHtml: string := "\n      html {\n"
  const StyleFont: string := "       font-family: Courier New;\n"
  const StyleBody: string := "      }\n      body {\n"
  const StyleMargin: string := "        margin: 50px auto;\n"
  const StyleWidth: string := "        width: 80%;\n      }\n"
  const StyleLinks: string := "      a, a:visited {\n"
  const StyleColor: string := "        color: #000;\n"
  const StyleDisplay: string := "        display: inline-block;\n"
  const StyleEnd: string := "        margin: 2px 0;\n      }\n      "

  /** The URL with every `/` written as ` / `. */
  function LinkedPath(dirUrl: string): (r: string)
    ensures r == Join(Split(dirUrl, '/'), " / ")
  {
    ReplaceAllCharIsSplitJoin(dirUrl, '/', " / ");
    ReplaceAllChar(dirUrl, '/', " / ")
  }

  /** The placeholder filled first: the style in src, the directory path in dist. */
  function FirstSlot(rev: Revision): string {
    match rev
    case Src => "{style}"
    case Dist => "{directory}"
  }

  function FirstSlotText(rev: Revision, dirPath: string): string {
    match rev
    case Src => Style
    case Dist => dirPath
  }

  /** The template's placeholders filled in turn, each at its first occurrence. */
  function FillTemplate(rev: Revision, template: string, dirPath: string, fileHtml: string, dirUrl: string): string {
    var first := ReplaceFirst(template, FirstSlot(rev), FirstSlotText(rev, dirPath));
    ReplaceFirst(ReplaceFirst(first, "{files}", fileHtml), "{linked-path}", LinkedPath(dirUrl))
  }

  /**
   * The template filled as JavaScript's `replace` does it with string
   * replacements: `$` patterns in the directory path, the entries and the URL
   * are expanded. `FillTemplate` is the literal fill the listing means.
   */
  function FillTemplateAsWritten(rev: Revision, template: string, dirPath: string, fileHtml: string, dirUrl: string): string {
    var first := ReplaceFirstAsWritten(template, FirstSlot(rev), FirstSlotText(rev, dirPath));
    ReplaceFirstAsWritten(ReplaceFirstAsWritten(first, "{files}", fileHtml), "{linked-path}", LinkedPath(dirUrl))
  }

  /** A character in neither the text nor the replacement is not in the result. */
  lemma {:induction false} ReplaceAllCharExcludes(s: string, c: char, rep: string, d: char)
    requires d !in s && d !in rep
    ensures d !in ReplaceAllChar(s, c, rep)
  {
    if |s| > 0 {
      assert d != s[0];
      ReplaceAllCharExcludes(s[1..], c, rep, d);
    }
  }

  /** Without `$` in what is filled in, the page as written is the literal fill. */
  lemma FillTemplateAgreesWithoutDollar(rev: Revision, template: string, dirPath: string, fileHtml: string, dirUrl: string)
    requires rev == Dist ==> '$' !in dirPath
    requires '$' !in fileHtml && '$' !in dirUrl
    ensures FillTemplateAsWritten(rev, template, dirPath, fileHtml, dirUrl) == FillTemplate(rev, template, dirPath, fileHtml, dirUrl)
  {
    var text := FirstSlotText(rev, dirPath);
    if rev == Src {
      StyleHasNoDollar();
    }
    assert '$' !in text;
    ReplaceAgreesWithoutDollar(template, FirstSlot(rev), text);
    var first := ReplaceFirst(template, FirstSlot(rev), text);
    ReplaceAgreesWithoutDollar(first, "{files}", fileHtml);
    ReplaceAllCharExcludes(dirUrl, '/', " / ", '$');
    ReplaceAgreesWithoutDollar(ReplaceFirst(first, "{files}", fileHtml), "{linked-path}", LinkedPath(dirUrl));
  }

  lemma StyleHasNoDollar()
    ensures '$' !in Style
  {
    DollarFreeHead(StyleHtml);
    DollarFreeHead(StyleFont);
    DollarFreeHead(StyleBody);
    DollarFreeMiddle(StyleMargin);
    DollarFreeMiddle(StyleWidth);
    DollarFreeMiddle(StyleLinks);
    DollarFreeTail(StyleColor);
    DollarFreeTail(StyleDisplay);
    DollarFreeTail(StyleEnd);
  }

  /** The first three lines of the style sheet, checked index by index. */
  lemma DollarFreeHead(part: string)
    requires part == StyleHtml || part == StyleFont || part == StyleBody
    ensures '$' !in part
  {
    if part == StyleHtml {
      assert forall i :: 0 <= i < |StyleHtml| ==> StyleHtml[i] != '$';
    } else if part == StyleFont {
      assert forall i :: 0 <= i < |StyleFont| ==> StyleFont[i] != '$';
    } else {
      assert forall i :: 0 <= i < |StyleBody| ==> StyleBody[i] != '$';
    }
  }

  /** The next three lines. */
  lemma DollarFreeMiddle(part: string)
    requires part == StyleMargin || part == StyleWidth || part == StyleLinks
    ensures '$' !in part
  {
    if part == StyleMargin {
      assert forall i :: 0 <= i < |StyleMargin| ==> StyleMargin[i] != '$';
    } else if part == StyleWidth {
      assert forall i :: 0 <= i < |StyleWidth| ==> StyleWidth[i] != '$';
    } else {
      assert forall i :: 0 <= i < |StyleLinks| ==> StyleLinks[i] != '$';
    }
  }

  /** The last three lines. */
  lemma DollarFreeTail(part: string)
    requires part == StyleColor || part == StyleDisplay || part == StyleEnd
    ensures '$' !in part
  {
    if part == StyleColor {
      assert forall i :: 0 <= i < |StyleColor| ==> StyleColor[i] != '$';
    } else if part == StyleDisplay {
      assert forall i :: 0 <= i < |StyleDisplay| ==> StyleDisplay[i] != '$';
    } else {
      assert forall i :: 0 <= i < |StyleEnd| ==> StyleEnd[i] != '$';
    }
  }

  /**
   * Listing the directory `$&` in dist, a template made of the `{directory}`
   * placeholder shows the placeholder again, where the literal fill shows `$&`.
   */
  lemma DollarDirectoryAsWritten(template: string, dirPath: string, fileHtml: string, dirUrl: string)
    requires template == "{directory}" && dirPath == "$&"
    ensures FillTemplateAsWritten(Dist, template, dirPath, fileHtml, dirUrl) == "{directory}"
    ensures FillTemplate(Dist, template, dirPath, fileHtml, dirUrl) == "$&"
  {
    DollarAmpersandRestoresPattern(template, "{directory}", dirPath);
    LaterSlotsAbsent("{directory}", fileHtml, LinkedPath(dirUrl));
    LaterSlotsAbsent("$&", fileHtml, LinkedPath(dirUrl));
  }

  /** A text without the later placeholders passes their fills unchanged. */
  lemma LaterSlotsAbsent(s: string, fileHtml: string, linked: string)
    requires s == "{directory}" || s == "$&"
    ensures ReplaceFirstAsWritten(ReplaceFirstAsWritten(s, "{files}", fileHtml), "{linked-path}", linked) == s
    ensures ReplaceFirst(ReplaceFirst(s, "{files}", fileHtml), "{linked-path}", linked) == s
  {
    NoPlaceholder(s, "{files}", fileHtml);
    NoPlaceholder(s, "{linked-path}", linked);
  }

  /** A text whose only `{` is its first character, followed by another letter than `pat`'s, lacks `pat`. */
  lemma NoPlaceholder(s: string, pat: string, rep: string)
    requires |pat| > 1 && pat[0] == '{'
    requires |s| > 0 ==> '{' !in s[1..] && (s[0] == '{' ==> |s| > 1 && s[1] != pat[1])
    ensures ReplaceFirstAsWritten(s, pat, rep) == s && ReplaceFirst(s, pat, rep) == s
  {
    forall j | 0 <= j <= |s|
      ensures !OccursAt(s, pat, j)
    {
      if j + |pat| <= |s| {
        assert s[j..j + |pat|][0] == s[j] && s[j..j + |pat|][1] == s[j + 1];
        if j > 0 {
          assert s[j] == s[1..][j - 1];
        }
      }
    }
    assert IndexOf(s, pat).None?;
  }

  /** `Promise.all(paths.map(fsStatPr))`: the kinds in order, or nothing when any stat fails. */
  function StatAll(fs: FileSystem, paths: seq<string>): (r: Option<seq<StatKind>>)
    ensures r.Some? ==> |r.value| == |paths| && forall i :: 0 <= i < |paths| ==> fs.stat(paths[i]) == Stat(r.value[i])
    ensures r.None? <==> exists i :: 0 <= i < |paths| && fs.stat(paths[i]).StatError?
  {
    if |paths| == 0 then Some([])
    else match fs.stat(paths[0])
      case StatError(_, _) => None
      case Stat(k) =>
        match StatAll(fs, paths[1..])
        case None =>
          assert exists i :: 1 <= i < |paths| && fs.stat(paths[i]).StatError? by {
            var j :| 0 <= j < |paths[1..]| && fs.stat(paths[1..][j]).StatError?;
            assert fs.stat(paths[j + 1]).StatError?;
          }
          None
        case Some(ks) => Some([k] + ks)
  }

  function ChildPaths(dirPath: string, names: seq<string>): (paths: seq<string>)
    ensures |paths| == |names|
  {
    seq(|names|, i requires 0 <= i < |names| => Join2(dirPath, names[i]))
  }

  /**
   * The stats behind the listed names: one per shown name and, in front when the
   * URL is not `/`, the directory's own stat for `..`.
   */
  function ListingKinds(fs: FileSystem, dirPath: string, shown: seq<string>, dirUrl: string): (r: Option<seq<StatKind>>)
    ensures r.Some? ==> |r.value| == (if dirUrl != "/" then 1 else 0) + |shown|
  {
    match StatAll(fs, ChildPaths(dirPath, shown))
    case None => None
    case Some(ks) =>
      if dirUrl == "/" then Some(ks)
      else match fs.stat(dirPath)
        case StatError(_, _) => None
        case Stat(k) => Some([k] + ks)
  }

  /** The listing page: the entries rendered, joined and filled into the template. */
  function ListingPage(rev: Revision, template: string, dirPath: string, dirUrl: string, names: seq<string>, kinds: seq<StatKind>): Response
    requires |names| == |kinds|
  {
    Response(200, HtmlHeaders(), FillTemplate(rev, template, dirPath, EntriesHtml(rev, dirUrl, names, kinds), dirUrl))
  }

  const NotRight: Json := JObj([Member("err", JStr("Somthing is not right"))])

  /** What serveDirContents answers for the directory at `dirPath`, requested as `dirUrl`. */
  function DirListing(rev: Revision, fs: FileSystem, templatePath: string, dirPath: string, dirUrl: Option<string>): Outcome {
    if dirUrl.None? || dirUrl.value == "" then Respond(SendError(500, NotRight))
    else match fs.readDir(dirPath)
      case Err(e) => Respond(SendError(500, JObj([Member("err", e)])))
      case Ok(names) =>
        match fs.readFile(templatePath)
        case Err(_) => Reject
        case Ok(template) =>
          var url := dirUrl.value;
          match ListingKinds(fs, dirPath, SortNames(Visible(names)), url)
          case None => Reject
          case Some(kinds) => Respond(ListingPage(rev, template, dirPath, url, ListedNames(names, url), kinds))
  }

  /**
   * serveDirContents: `files` is reassigned to the sorted visible names, their
   * stats are gathered, and `..` with the directory's own stat is put in front
   * of both lists.
   */
  method ServeDirContents(rev: Revision, fs: FileSystem, templatePath: string, dirPath: string, dirUrl: Option<string>)
    returns (out: Outcome)
    ensures out == DirListing(rev, fs, templatePath, dirPath, dirUrl)
  {
    if dirUrl.None? || dirUrl.value == "" {
      return Respond(SendError(500, NotRight));
    }
    var url := dirUrl.value;
    var files: seq<string>;
    var read := fs.readDir(dirPath);
    if read.Err? {
      return Respond(SendError(500, JObj([Member("err", read.error)])));
    }
    files := read.value;
    var templateSrc := fs.readFile(templatePath);
    if templateSrc.Err? {
      return Reject;
    }
    files := SortNames(Visible(files));
    ghost var shown := files;
    var stats := StatAll(fs, ChildPaths(dirPath, files));
    if stats.None? {
      return Reject;
    }
    var fileStats := stats.value;
    if url != "/" {
      var dirStat := fs.stat(dirPath);
      if dirStat.StatError? {
        return Reject;
      }
      files := [".."] + files;
      fileStats := [dirStat.kind] + fileStats;
    }
    assert files == ListedNames(read.value, url);
    assert ListingKinds(fs, dirPath, shown, url) == Some(fileStats);
    out := Respond(ListingPage(rev, templateSrc.value, dirPath, url, files, fileStats));
  }

  // ---------------------------------------------------------------------------
  // Properties of the listing

  /** No listed name begins with `.` except a leading `..`. */
  lemma ListedNamesHideDotFiles(names: seq<string>, dirUrl: string)
    ensures var listed := ListedNames(names, dirUrl);
      forall i :: 0 <= i < |listed| && Hidden(listed[i]) ==> i == 0 && listed[i] == ".." && dirUrl != "/"
  {
    var shown := SortNames(Visible(names));
    var prefix := if dirUrl != "/" then [".."] else [];
    ShownNotHidden(names, shown);
    OnlyPrefixHidden(prefix, shown);
  }

  lemma OnlyPrefixHidden(prefix: seq<string>, shown: seq<string>)
    requires prefix == [] || prefix == [".."]
    requires forall i :: 0 <= i < |shown| ==> !Hidden(shown[i])
    ensures var listed := prefix + shown;
      forall i :: 0 <= i < |listed| && Hidden(listed[i]) ==> i == 0 && listed[i] == ".." && prefix == [".."]
  {
    var listed := prefix + shown;
    forall i | |prefix| <= i < |listed|
      ensures !Hidden(listed[i])
    {
      assert listed[i] == shown[i - |prefix|];
    }
  }

  lemma ShownNotHidden(names: seq<string>, shown: seq<string>)
    requires shown == SortNames(Visible(names))
    ensures forall i :: 0 <= i < |shown| ==> !Hidden(shown[i])
  {
    var visible := Visible(names);
    forall i | 0 <= i < |shown|
      ensures !Hidden(shown[i])
    {
      var x := shown[i];
      assert x in multiset(shown);
      assert x in multiset(visible);
      assert x in visible;
    }
  }

  /** `..` heads the list exactly when the URL is not `/`. */
  lemma ParentEntryFirstIff(names: seq<string>, dirUrl: string)
    ensures var listed := ListedNames(names, dirUrl);
      (|listed| > 0 && listed[0] == "..") <==> dirUrl != "/"
  {
    var shown := SortNames(Visible(names));
    if dirUrl == "/" && |shown| > 0 {
      ListedNamesHideDotFiles(names, dirUrl);
      assert Hidden("..");
    }
  }

  /** After the optional `..`, the listed names are the visible names, sorted. */
  lemma ListedNamesSorted(names: seq<string>, dirUrl: string)
    ensures var listed := ListedNames(names, dirUrl);
      var rest := listed[if dirUrl != "/" then 1 else 0..];
      Sorted(rest) && multiset(rest) == multiset(Visible(names))
  {
    var listed := ListedNames(names, dirUrl);
    assert listed[if dirUrl != "/" then 1 else 0..] == SortNames(Visible(names));
  }

  /** The `d`/`-` marker and the link class follow the stat: both say directory, or both say file. */
  lemma EntryMarkup(rev: Revision, dirUrl: string, name: string, isDirectory: bool)
    ensures var e := Entry(rev, dirUrl, name, isDirectory);
      var marker := if isDirectory then "d" else "-";
      var linkStart := "<a class=\"" + (if isDirectory then "directory" else "file");
      match rev
      case Src => StartsWith(e, marker + " " + linkStart)
      case Dist => StartsWith(e, "<span class=\"denote\">" + marker + "</span> " + linkStart)
  {
    var before := match rev
      case Src => Marker(isDirectory) + " "
      case Dist => "<span class=\"denote\">" + Marker(isDirectory) + "</span> ";
    PrefixOfAssociated(before, LinkOpen(isDirectory), LinkRest(dirUrl, name));
  }

  /**
   * Each name listed before the shown names' stats gets its own stat, the
   * `..` entry the directory's own: the two lists stay aligned.
   */
  lemma ListingKindsAlign(fs: FileSystem, dirPath: string, shown: seq<string>, dirUrl: string)
    requires ListingKinds(fs, dirPath, shown, dirUrl).Some?
    ensures var kinds := ListingKinds(fs, dirPath, shown, dirUrl).value;
      var listed := (if dirUrl != "/" then [".."] else []) + shown;
      |kinds| == |listed| &&
      (dirUrl != "/" ==> fs.stat(dirPath) == Stat(kinds[0])) &&
      forall i :: 0 <= i < |listed| && listed[i] != ".." ==> fs.stat(Join2(dirPath, listed[i])) == Stat(kinds[i])
  {
    var ks := StatAll(fs, ChildPaths(dirPath, shown)).value;
    ChildKinds(fs, dirPath, shown, ks);
    var offset := if dirUrl != "/" then 1 else 0;
    var listed := (if dirUrl != "/" then [".."] else []) + shown;
    AlignAfter(listed, ListingKinds(fs, dirPath, shown, dirUrl).value, shown, ks, offset, fs, dirPath);
  }

  lemma ChildKinds(fs: FileSystem, dirPath: string, shown: seq<string>, ks: seq<StatKind>)
    requires StatAll(fs, ChildPaths(dirPath, shown)) == Some(ks)
    ensures forall i :: 0 <= i < |shown| ==> fs.stat(Join2(dirPath, shown[i])) == Stat(ks[i])
  {
    var paths := ChildPaths(dirPath, shown);
    assert forall i :: 0 <= i < |shown| ==> paths[i] == Join2(dirPath, shown[i]);
  }

  lemma AlignAfter(listed: seq<string>, kinds: seq<StatKind>, shown: seq<string>, ks: seq<StatKind>, offset: nat,
                   fs: FileSystem, dirPath: string)
    requires |kinds| == |listed| && offset <= |listed|
    requires listed[offset..] == shown && kinds[offset..] == ks
    requires forall i :: 0 <= i < |shown| ==> fs.stat(Join2(dirPath, shown[i])) == Stat(ks[i])
    ensures forall i :: offset <= i < |listed| ==> fs.stat(Join2(dirPath, listed[i])) == Stat(kinds[i])
  {
    forall i | offset <= i < |listed|
      ensures fs.stat(Join2(dirPath, listed[i])) == Stat(kinds[i])
    {
      assert listed[i] == shown[i - offset] && kinds[i] == ks[i - offset];
    }
  }

  /** A request without a URL gets a 500 saying something is not right. */
  lemma MissingUrlIs500(rev: Revision, fs: FileSystem, templatePath: string, dirPath: string, dirUrl: Option<string>)
    requires dirUrl.None? || dirUrl == Some("")
    ensures DirListing(rev, fs, templatePath, dirPath, dirUrl) == Respond(SendError(500, NotRight))
  {
  }

  /** A failed directory read gets a 500 whose body holds the error. */
  lemma ReadDirErrorIs500(rev: Revision, fs: FileSystem, templatePath: string, dirPath: string, url: string)
    requires url != "" && fs.readDir(dirPath).Err?
    ensures DirListing(rev, fs, templatePath, dirPath, Some(url))
            == Respond(SendError(500, JObj([Member("err", fs.readDir(dirPath).error)])))
  {
  }

  /** A template holding each placeholder once, in order, gets each filled in place (dist markup). */
  lemma FillDistTemplate(a: string, b: string, c: string, e: string, dirPath: string, fileHtml: string, dirUrl: string)
    requires NotFoundBefore(a, "{directory}")
    requires NotFoundBefore(a + dirPath + b, "{files}")
    requires NotFoundBefore(a + dirPath + b + fileHtml + c, "{linked-path}")
    ensures FillTemplate(Dist, a + "{directory}" + b + "{files}" + c + "{linked-path}" + e, dirPath, fileHtml, dirUrl)
            == a + dirPath + b + fileHtml + c + LinkedPath(dirUrl) + e
  {
    FillInTurn(a, "{directory}", dirPath, b, c, e, fileHtml, LinkedPath(dirUrl));
  }

  /** The same for the src template, whose first placeholder is the style block. */
  lemma FillSrcTemplate(a: string, b: string, c: string, e: string, dirPath: string, fileHtml: string, dirUrl: string)
    requires NotFoundBefore(a, "{style}")
    requires NotFoundBefore(a + Style + b, "{files}")
    requires NotFoundBefore(a + Style + b + fileHtml + c, "{linked-path}")
    ensures FillTemplate(Src, a + "{style}" + b + "{files}" + c + "{linked-path}" + e, dirPath, fileHtml, dirUrl)
            == a + Style + b + fileHtml + c + LinkedPath(dirUrl) + e
  {
    FillInTurn(a, "{style}", Style, b, c, e, fileHtml, LinkedPath(dirUrl));
  }

  /** Three placeholders, each first found where the template holds it, filled one after another. */
  lemma FillInTurn(a: string, slot: string, first: string, b: string, c: string, e: string, fileHtml: string, linked: string)
    requires NotFoundBefore(a, slot)
    requires NotFoundBefore(a + first + b, "{files}")
    requires NotFoundBefore(a + first + b + fileHtml + c, "{linked-path}")
    ensures ReplaceFirst(ReplaceFirst(ReplaceFirst(a + slot + b + "{files}" + c + "{linked-path}" + e, slot, first),
              "{files}", fileHtml), "{linked-path}", linked)
            == a + first + b + fileHtml + c + linked + e
  {
    FillFirstSlot(a, slot, first, b, c, e);
    FillFilesSlot(a + first + b, fileHtml, c, e);
    FillStep(a + first + b + fileHtml + c, "{linked-path}", linked, e);
  }

  lemma FillFirstSlot(a: string, slot: string, first: string, b: string, c: string, e: string)
    requires NotFoundBefore(a, slot)
    ensures ReplaceFirst(a + slot + b + "{files}" + c + "{linked-path}" + e, slot, first)
            == a + first + b + "{files}" + c + "{linked-path}" + e
  {
    var rest := b + "{files}" + c + "{linked-path}" + e;
    Regroup(a + slot, b, "{files}", c, "{linked-path}", e);
    Regroup(a + first, b, "{files}", c, "{linked-path}", e);
    FillStep(a, slot, first, rest);
  }

  lemma FillFilesSlot(x: string, fileHtml: string, c: string, e: string)
    requires NotFoundBefore(x, "{files}")
    ensures ReplaceFirst(x + "{files}" + c + "{linked-path}" + e, "{files}", fileHtml)
            == x + fileHtml + c + "{linked-path}" + e
  {
    var rest := c + "{linked-path}" + e;
    Regroup3(x + "{files}", c, "{linked-path}", e);
    Regroup3(x + fileHtml, c, "{linked-path}", e);
    FillStep(x, "{files}", fileHtml, rest);
  }

  lemma Regroup(x: string, b: string, p: string, c: string, q: string, e: string)
    ensures x + b + p + c + q + e == x + (b + p + c + q + e)
  {
  }

  lemma Regroup3(x: string, c: string, q: string, e: string)
    ensures x + c + q + e == x + (c + q + e)
  {
  }

  lemma FillStep(a: string, pat: string, rep: string, rest: string)
    requires NotFoundBefore(a, pat)
    ensures ReplaceFirst(a + pat + rest, pat, rep) == a + rep + rest
  {
    ReplaceAfter(a, pat, rest, rep);
  }
}
