# stencil-dev-server, modelled in Dafny

stencil-dev-server is a small development HTTP server. It serves a directory (the
www root) and injects a live-reload script into every HTML page it sends. It lists
directories. It maps a request URL to a file below the root, and never to a file
above it. It looks for free ports for itself and for the reload server, starting
at the requested ones. It also tells the reload server which files changed.

This project models the decision logic of that server and the pure helpers around
it, and proves properties of the model. It covers two revisions of the source: the
TypeScript sources `src/` and the compiled, earlier `dist/`. The differences between
them are modelled as a `Revision` (middlewares) and as two dispatchers (`Dispatcher`).

Modules, one per concern of the source:

| module | file | what it models |
|---|---|---|
| `Outcomes` | outcomes.dfy | `Option` and `Result`, for JavaScript's `undefined` and for thrown errors |
| `Strings` | strings.dfy | `split`, `join`, `indexOf`, `startsWith`/`endsWith`, global replacement of one character |
| `Numbers` | numbers.dfy | the decimal text of integers and `parseInt(s, 10)` |
| `Json` | json.dfy | `JSON.stringify(v, null, 2)` for the error bodies |
| `Uri` | uri.dfy | `decodeURIComponent` (UTF-8, every malformed escape a URIError) and `encodeURIComponent` as its inverse |
| `PosixPath` | posixpath.dfy | `path.normalize`, `path.join`, `path.resolve`, `path.relative` (POSIX), on segment lists |
| `Resolver` | resolver.dfy | `getRequestedPath`, `decodePathname`, `getFileFromPath` |
| `Options` | options.dfy | `parseOptions` and the server's option table |
| `Ports` | ports.dfy | `isPortTaken` and `findClosestOpenPort` over a probe oracle |
| `Environment` | environment.dfy | the file system as stat/readFile/readdir oracles, and responses |
| `Replace` | replace.dfy | `String.prototype.replace` with a string pattern |
| `Sorting` | sorting.dfy | `Array.prototype.sort()` on names |
| `UrlParse` | urlparse.dfy | what `url.parse` does to its text first: trimming, the backslash rewrite, automatic percent-escaping |
| `Links` | links.dfy | `url.resolve(dirUrl, name)` for listing links |
| `Middlewares` | middlewares.dfy | `sendError`, `serveHtml`, `serveDirContents` |
| `Dispatcher` | dispatcher.dfy | the request handler: `RequestHandler` (src, with `firstRequestFlag`) and `DispatchStateless` (dist) |
| `LiveReload` | livereload.dfy | `getAddressForBrowser`, the reload script location, the change notification paths |

Parameters instead of I/O:

- The file system is a stat oracle, a readFile oracle and a readdir oracle (`Environment.FileSystem`).
- A port probe is an oracle: listening, an error event with a code, or `listen` throwing (`Ports.Probe`).
- `process.platform` is a `Platform`.
- `process.cwd()` is a parameter `cwd`/`processCwd`.
- The served root is a `CleanPath`: the segments of an absolute, normalized path, which is what `path.resolve(options.root)` produces.

The request handler returns an `Action` instead of writing to the response.
`Dispatcher.Perform` then carries the action out through the middlewares.

## Model

| member | source | states |
|---|---|---|
| Dispatcher.Decide | src/index.ts:59-115 | no contract of its own: the src handler's decision for a flag, a URL and a stat oracle, given its meaning by the `Dispatcher` lemmas below |
| Dispatcher.DispatchStateless | dist/index.js:58-93 | no contract of its own: the dist handler's decision, given its meaning by `StatelessIsClearedFlag` and `StatelessListsRoot` |
| Dispatcher.Perform | src/index.ts:87-114 | no contract of its own: an action carried out through `serveHtml`, `serveDirContents`, ecstatic or `sendError`; `FirstRootRequestResponse` states its result for the first `/` request; its listing and injection are the literal ones (see "## Left out") |
| Dispatcher.RequestHandler.constructor | src/index.ts:53-57 | a new handler serves the given root, with `firstRequestFlag` set |
| Dispatcher.RequestHandler.Handle | src/index.ts:59-115 | the action returned and the new flag are what `Decide` gives for the old flag, the URL and the stat oracle; early returns are kept one-for-one |
| Dispatcher.StatErrorStatus | src/index.ts:64-74 | a failed stat answers with an error reply carrying the error: 404 exactly for ENOENT/ENOTDIR, 403 exactly for EACCES, 500 exactly for every other code; the flag is unchanged |
| Dispatcher.FirstRootRequestServesIndex | src/index.ts:76-88 | on the first `/` request, if the root's `index.html` stats as a file, that file is served with injection and the flag is cleared |
| Dispatcher.RootWithoutIndex | src/index.ts:76-89 | on the first `/` request without a root `index.html`, the flag is cleared and the request goes on to the kind branches for the root |
| Dispatcher.FlagClearedExactly | src/index.ts:64-78 | after a request the flag is up exactly when it was up before and the request was not a `/` whose stat succeeded |
| Dispatcher.ClearedFlagFallsThrough | src/index.ts:76-114 | with the flag down, a successful stat goes straight to the kind branches and the flag stays down |
| Dispatcher.DirectoryRedirect | src/index.ts:92-96 | a directory requested without a trailing `/` is a redirect to the request path plus `/`, whose location ends in `/` |
| Dispatcher.DirectoryListed | src/index.ts:99-101 | a directory requested with a trailing `/`, when not served by the first-request rule, is listed |
| Dispatcher.KindBranches | src/index.ts:104-114 | a file ending in `.html` is injected, another file goes to the static server, anything else is a 415 with "Resource requested cannot be served." |
| Dispatcher.ChooseByKindPath | src/index.ts:99-111 | the listing and the injection are given the resolved file path |
| Dispatcher.RootFilePath | src/index.ts:60-61 | the request path `/` resolves to the root itself |
| Dispatcher.IndexBelowRoot | src/index.ts:79 | `path.join(root, 'index.html')` is the root followed by the one segment `index.html` |
| Dispatcher.ActionsStayUnderRoot | src/index.ts:59-111 | for every flag, URL and stat oracle, every path handed to the listing or the injection lies within the root |
| Dispatcher.StatelessIsClearedFlag | dist/index.js:54-93 | the dist handler decides, for every input, what the src handler decides with its flag down: it keeps no state and has no first-request rule |
| Dispatcher.StatelessListsRoot | dist/index.js:76-83 | in the dist handler, `/` is always listed when the root is a directory |
| Dispatcher.FirstRootRequestResponse | src/index.ts:76-89 | the first `/` request with a readable root `index.html` is answered 200, as text/html, with the page and the script injected |
| Resolver.Pathname | dist/utils.js:97-99 | the pathname is a prefix of the URL without `?` or `#`, and ends at the first of them |
| Resolver.GetRequestedPath | dist/utils.js:96-100 | no contract of its own: given its meaning by `EmptyRequestUrl`, `QueryIgnored` and `MalformedUrlRefused` |
| Resolver.DecodePathname | dist/utils.js:107-116 | no contract of its own: given its meaning by `DecodeWithoutPercent`, `DecodePlainPathname`, `Win32NoBackslash`, `NoForwardSlashErrorOffWin32` and `Win32ForwardSlashError` |
| Resolver.FileForPathname | dist/utils.js:104 | no contract of its own: given its meaning by `FileForPathnameBelowRoot` |
| Resolver.GetFileFromPath | dist/utils.js:102-105 | no contract of its own: given its meaning by `GetFileFromPathUnderRoot` |
| Resolver.ReplaceBackslashes | dist/utils.js:108 | every backslash becomes `/`, every other character is kept, and no backslash remains |
| Resolver.DecodePiece | dist/utils.js:109-114 | a piece that `decodeURIComponent` refuses is a URI error; a piece it decodes is accepted, as its decoding, exactly unless the platform is win32 and the decoding holds a backslash, which is the forward-slash error |
| Resolver.DecodePieces | dist/utils.js:109-115 | success decodes every piece in order; failure is the error of the first failing piece |
| Resolver.DecodeWithoutPercent | dist/utils.js:107-116 | a pathname without `%` decodes to itself with backslashes turned into `/` |
| Resolver.DecodePlainPathname | dist/utils.js:107-116 | a pathname without `%` and without backslashes decodes to itself |
| Resolver.Win32NoBackslash | dist/utils.js:108-113 | on win32 a decoded pathname holds no backslash |
| Resolver.NoForwardSlashErrorOffWin32 | dist/utils.js:111-113 | off win32 the forward-slash error never occurs |
| Resolver.Win32ForwardSlashError | dist/utils.js:109-113 | on win32 the forward-slash error occurs if and only if some piece decodes to text with a backslash and every piece before it decodes without one |
| Resolver.EmptyRequestUrl | dist/utils.js:96-100 | the empty URL requests the empty path |
| Resolver.QueryIgnored | dist/utils.js:96-100 | for a URL that decodes as a whole, the query or fragment does not change the requested path |
| Resolver.MalformedUrlRefused | dist/utils.js:98 | a URL that is not valid percent-encoding as a whole is refused with a URIError |
| Resolver.FileForPathnameBelowRoot | dist/utils.js:102-105 | the file path is the root followed by the resolved pathname's clean segments, so it lies within the root |
| Resolver.GetFileFromPathUnderRoot | dist/utils.js:102-105 | every file path `getFileFromPath` yields lies within the root |
| Uri.DecodeComponent | dist/utils.js:110 | no contract of its own: `decodeURIComponent`, given its meaning by `DecodeWithoutPercent`, `DecodeEncode`, `BadEscapeRefused`, `LoneContinuationRefused` and `OverlongRefused` |
| Uri.DecodeWithoutPercent | dist/utils.js:110 | text without `%` decodes to itself |
| Uri.DecodeEncode | dist/utils.js:110 | decoding the encoding of any string gives the string back |
| Uri.BadEscapeRefused | dist/utils.js:110 | a `%` anywhere in the text without two hex digits after it makes decoding a URIError, whatever comes before it |
| Uri.LoneContinuationRefused | dist/utils.js:110 | an escaped continuation octet (`%80` to `%BF`) with no lead octet before it is a URIError |
| Uri.OverlongRefused | dist/utils.js:110 | the lead octets `%C0` and `%C1`, which could only start an overlong encoding, are a URIError |
| Uri.ContinuationExamples | dist/utils.js:110 | `%80` and the overlong NUL `%C0%80` are URIErrors |
| PosixPath.Normalize | dist/utils.js:104 | no contract of its own: `path.normalize`, given its meaning by `NormalizeRender` and `NormalizeIdempotent` |
| PosixPath.Join2 | dist/utils.js:104 | no contract of its own: `path.join` of two paths, given its meaning by `JoinBelowRoot` |
| PosixPath.Resolve | src/index.ts:145 | no contract of its own: `path.resolve` against a working directory, given its meaning by `LiveReload.ResolveRendered` |
| PosixPath.Relative | dist/utils.js:104 | no contract of its own: `path.relative`, given its meaning by `RelativeBelow` |
| PosixPath.NormalizeRender | dist/utils.js:104 | a normalized absolute path is its own normal form |
| PosixPath.NormalizeIdempotent | dist/utils.js:104 | normalizing an absolute path twice gives what normalizing once gives |
| PosixPath.JoinBelowRoot | dist/utils.js:104 | joining clean relative segments to a root and normalizing gives the root followed by those segments |
| PosixPath.RelativeBelow | dist/utils.js:104 | the path of `from + rest` relative to `from` is `rest` joined with `/` |
| PosixPath.RenderUnderRoot | dist/utils.js:104 | the root followed by any clean segments lies within the root |
| Strings.JoinSplit | dist/utils.js:108-115 | splitting on a character and joining with it gives the text back |
| Strings.SplitJoin | dist/utils.js:108-115 | joining pieces free of the separator and splitting again gives the pieces back |
| Strings.ReplaceAllCharIsSplitJoin | src/middlewares.ts:80 | replacing a character everywhere equals splitting on it and joining with the replacement |
| Options.ArgIndex | dist/utils.js:58 | the index found holds the flag and no earlier index does; no index is found exactly when no element is the flag |
| Options.ParseOptions | dist/utils.js:56-75 | the options have exactly the declared keys, and each key holds the value its type reads from argv |
| Options.OptionValue | dist/utils.js:58-72 | no contract of its own: one key's value, given its meaning by `AbsentKeepsDefault`, `BooleanFlagIsTrue`, `NumberFlagReadsNext`, `NumberFlagWithoutValue` and `StringFlagTakesNext` |
| Options.AbsentKeepsDefault | dist/utils.js:59-62 | an option whose flag is absent keeps its default |
| Options.BooleanFlagIsTrue | dist/utils.js:64-66 | a present Boolean option is true |
| Options.NumberFlagReadsNext | dist/utils.js:67-69 | a Number option is the decimal value of the argument after the first flag |
| Options.NumberFlagWithoutValue | dist/utils.js:67-69 | a Number flag with nothing after it is NaN |
| Options.StringFlagTakesNext | dist/utils.js:70-71 | any other option takes the next argument verbatim, or undefined when there is none |
| Options.ServerDefaults | src/index.ts:12-29 | with no arguments the server's options are the process working directory, `0.0.0.0`, 3333 and 35729 |
| Numbers.ParseInt | dist/utils.js:68 | the result is NaN exactly when no digit follows the leading white space and sign; `ParseIntDecimal` reads back decimal text |
| Numbers.ParseIntDecimal | dist/utils.js:68 | `parseInt` reads back the decimal text of any integer |
| Ports.IsPortTaken | src/utils.ts:13-35 | the result is rejected exactly when listening throws, and is "taken" exactly when an error event occurs, whatever its code |
| Ports.EveryErrorIsTaken | src/utils.ts:18-23 | every error event counts as taken, EADDRINUSE or not |
| Ports.FindClosestOpenPort | src/utils.ts:1-11 | a port found is at or above the start, free, and every port from the start up to it is taken; a rejection comes from a probe that threw; running out of fuel means the whole range was taken |
| Ports.FreeStartReturned | src/utils.ts:3-5 | a free start port is returned unchanged |
| Ports.FoundIsLeastFree | dist/utils.js:18-31 | the least free port at or above the start, with every port below it taken, is the one found |
| Ports.MoreFuelSameResult | dist/utils.js:18-31 | a search that ends within some fuel ends the same way with more, so the fuel bound does not change the answer |
| Json.Stringify | src/middlewares.ts:90 | the JSON text is never empty; `UnquoteQuote` and `SingleMemberText` give its strings and objects |
| Json.UnquoteQuote | src/middlewares.ts:90 | the JSON text of any string reads back as that string |
| Json.SingleMemberText | src/middlewares.ts:90 | an object with one member is written as `{`, the indented quoted key, `: `, the value and `}` on three lines |
| Middlewares.SendError | src/middlewares.ts:88-92 | the response has the given status, the single header `Content-Type: text/plain` and a non-empty JSON body |
| Middlewares.ErrorMessageBody | dist/middlewares.js:70-74 | an error with one string member has the JSON body of that member, and its message reads back |
| Middlewares.ScriptTag | src/middlewares.ts:13-14 | the injected text ends with `</body>` |
| Middlewares.ScriptSource | src/middlewares.ts:13 | the script's `src` is `//` followed by the reload location |
| Middlewares.InjectScript | src/middlewares.ts:10-15 | HTML without `</body>` is unchanged; otherwise only the first `</body>` becomes the script tag, and the text before and after it is kept |
| Middlewares.InjectScriptAsWritten | src/middlewares.ts:10-15 | no contract of its own: the page as JavaScript's `replace` builds it, the tag a replacement string; given its meaning by `InjectAgreesWithoutDollar` and `DollarLocationAsWritten` |
| Middlewares.InjectAgreesWithoutDollar | dist/middlewares.js:19-20 | for a location without `$`, the page as written is exactly the literal injection |
| Middlewares.DollarLocationAsWritten | src/middlewares.ts:11-14 | for the page `</body>` and the location `$&`, the page as written holds the tag for `</body>`, where the literal injection holds the tag for `$&` |
| Middlewares.ServeHtml | src/middlewares.ts:7-20 | no contract of its own: a read failure rejects, otherwise 200, text/html and the injected page; `Dispatcher.FirstRootRequestResponse` states it for the first `/` request |
| Middlewares.InjectKeepsBodyClose | dist/middlewares.js:18-20 | after injection the page still holds `</body>`, right after the script |
| Middlewares.Visible | src/middlewares.ts:40 | a name is kept exactly when it was there and does not begin with `.`, and nothing is added |
| Middlewares.LinkedPath | src/middlewares.ts:80 | the linked path is the URL split at `/` and joined with ` / ` |
| Middlewares.StatAll | src/middlewares.ts:43-45 | the stats come in the order of the paths, each the kind its path stats as; there are none exactly when some stat fails |
| Middlewares.ListingKinds | dist/middlewares.js:48-53 | the kinds are one per shown name, plus one in front when the URL is not `/` |
| Middlewares.ListingKindsAlign | dist/middlewares.js:49-53 | names and kinds stay the same length; `..` gets the directory's own stat and every other name its own |
| Middlewares.DirListing | src/middlewares.ts:22-86 | no contract of its own: the listing's outcome, with the entries and the URL filled in literally (see "## Left out"), given its meaning by `ServeDirContents`, `ListedNamesHideDotFiles`, `ParentEntryFirstIff`, `ListedNamesSorted`, `MissingUrlIs500` and `ReadDirErrorIs500` |
| Middlewares.ServeDirContents | src/middlewares.ts:22-86 | the method's outcome, built by reassigning and prepending to `files` and `fileStats`, is the listing `DirListing` describes |
| Middlewares.ListedNamesHideDotFiles | src/middlewares.ts:39-41 | no listed name begins with `.` except the leading `..` of a URL other than `/` |
| Middlewares.ParentEntryFirstIff | src/middlewares.ts:47-51 | `..` heads the list if and only if the URL is not `/` |
| Middlewares.ListedNamesSorted | src/middlewares.ts:39-41 | after the optional `..`, the names are sorted and are a permutation of the visible names |
| Middlewares.EntryMarkup | src/middlewares.ts:53-62 | each entry starts with `d` and class `directory` for a directory and with `-` and class `file` otherwise (inside `<span class="denote">` in dist) |
| Middlewares.MissingUrlIs500 | src/middlewares.ts:26-28 | a missing or empty request URL gets 500 "Somthing is not right" |
| Middlewares.ReadDirErrorIs500 | src/middlewares.ts:29-33 | a failed readdir gets 500 with the error as body |
| Middlewares.FillTemplate | src/middlewares.ts:64-80 | no contract of its own: the template filled literally, given its meaning by `FillSrcTemplate` and `FillDistTemplate` |
| Middlewares.FillTemplateAsWritten | src/middlewares.ts:64-80 | no contract of its own: the template filled as JavaScript's `replace` does it, given its meaning by `FillTemplateAgreesWithoutDollar` and `DollarDirectoryAsWritten` |
| Middlewares.FillSrcTemplate | src/middlewares.ts:64-80 | a template with `{style}`, `{files}` and `{linked-path}` in that order, each first at its place, gets the style, the entries and the linked path there and is otherwise unchanged |
| Middlewares.FillDistTemplate | dist/middlewares.js:60-63 | the same for `{directory}`, which gets the directory path |
| Middlewares.FillTemplateAgreesWithoutDollar | src/middlewares.ts:64-80 | when the entries, the URL and (in dist) the directory path hold no `$`, the page JavaScript's `replace` builds is exactly the literal fill; the style block itself holds no `$` |
| Middlewares.DollarDirectoryAsWritten | dist/middlewares.js:60-61 | listing a directory named `$&` with the template `{directory}`, the page as written shows `{directory}` again, where the literal fill shows `$&` |
| Replace.ReplaceFirst | src/middlewares.ts:79 | without an occurrence the text is unchanged; otherwise the first occurrence is replaced by exactly the replacement |
| Replace.ReplaceFirstAsWritten | src/middlewares.ts:79 | no contract of its own: `replace` with GetSubstitution, given its meaning by `ReplaceAgreesWithoutDollar` and `DollarAmpersandRestoresPattern` |
| Replace.ReplaceAgreesWithoutDollar | src/middlewares.ts:10-15 | for a replacement without `$`, JavaScript's `replace` and the literal replacement agree |
| Replace.ReplaceAfter | src/middlewares.ts:64-80 | a placeholder first found after `a` is replaced in place, leaving `a` and the rest untouched |
| Replace.DollarAmpersandRestoresPattern | src/middlewares.ts:79 | a placeholder replaced by `$&` gives the placeholder back, where the literal replacement gives `$&` |
| Sorting.SortNames | src/middlewares.ts:41 | the result is sorted and is a permutation of the input |
| Sorting.SortIdempotent | src/middlewares.ts:41 | sorting twice gives what sorting once gives |
| UrlParse.TrimStart | src/middlewares.ts:59 | what is dropped is white space, and what is kept is a suffix that starts with no white space |
| UrlParse.TrimEnd | src/middlewares.ts:59 | what is dropped is white space, and what is kept is a prefix that ends with no white space |
| UrlParse.Trim | src/middlewares.ts:59 | the result neither starts nor ends with white space, holds only characters of the text, and is the text itself when neither end is white space |
| UrlParse.RewriteBackslashes | src/middlewares.ts:59 | text without a backslash is kept as it is |
| UrlParse.EscapeChar | src/middlewares.ts:59 | an unsafe character becomes `%` and two upper-case hex digits; every other character stays itself |
| UrlParse.AutoEscape | src/middlewares.ts:59 | the escaped text is at least as long as the text; `EscapeChar`, `EscapeConcat`, `EscapeIdentity` and `EscapeExcludes` give its meaning |
| UrlParse.EscapePath | src/middlewares.ts:59 | the escaped path has one segment per segment, each the escaped segment |
| UrlParse.EscapeConcat | src/middlewares.ts:59 | escaping distributes over concatenation |
| UrlParse.EscapeIdentity | src/middlewares.ts:59 | escaping leaves a text unchanged if and only if it holds no unsafe character |
| UrlParse.EscapeExcludes | src/middlewares.ts:59 | escaping brings in no character other than `%` and upper-case hex digits, so no `/`, `?` or `#` |
| UrlParse.EscapeClean | src/middlewares.ts:59 | an escaped path segment is still a segment: non-empty, without `/`, not `.` or `..` |
| UrlParse.EscapeRender | src/middlewares.ts:59 | escaping a rendered path renders the path of escaped segments |
| UrlParse.TrimLeading | src/middlewares.ts:59 | white space in front of a text is trimmed away |
| UrlParse.TrimTrailing | src/middlewares.ts:59 | white space after a text is trimmed away |
| UrlParse.PlainPrepared | src/middlewares.ts:59 | a non-empty text without unsafe characters or white space is parsed and escaped into itself |
| Links.ResolveLink | src/middlewares.ts:59 | no contract of its own: `url.resolve(dirUrl, fileName)`, given its meaning by the lemmas below |
| Links.LinkInDirectory | src/middlewares.ts:59 | in a directory URL without query, fragment or backslash, a clean name without backslash whose trimmed text does not begin with `.` and has no scheme links to the escaped URL followed by the escaped, trimmed name |
| Links.PlainLinkInDirectory | src/middlewares.ts:59 | when neither the directory URL nor the name needs trimming or escaping, the link is the URL followed by the name |
| Links.SpaceNameLink | src/middlewares.ts:59 | under `/d/`, the name `a b` links to `/d/a%20b` |
| Links.BlankAroundName | src/middlewares.ts:59 | white space before or after a name does not change its link |
| Links.SamePrepared | src/middlewares.ts:59 | two base/name pairs that `url.parse` prepares alike give the same link |
| Links.ParentLink | src/middlewares.ts:59 | in a directory URL without query, fragment or backslash, `..` links to the parent directory's escaped URL |
| Links.BackslashBaseLink | src/middlewares.ts:59 | `url.parse` reads a backslash in the base's path as `/`: a directory's path followed by `\` links every name as the directory's URL does |
| Links.SchemeNameLink | src/middlewares.ts:59 | a name such as `note:1.txt` has a scheme and links to itself |
| LiveReload.AddressForBrowser | src/index.ts:153-155 | `0.0.0.0` becomes `localhost`, every other address is unchanged, and the result is never `0.0.0.0` |
| LiveReload.ScriptLocation | src/index.ts:140 | the location ends in `/livereload.js?snipver=1` |
| LiveReload.ScriptLocationPort | src/index.ts:140 | the location starts with the host and `:`, and the digits after that parse back to the port |
| LiveReload.ScriptLocationWithoutDollar | src/index.ts:140 | an address without `$` gives a location without `$`, and the page as written is then the literal injection |
| LiveReload.ScriptLocationRevisions | dist/index.js:110 | dist's location (the raw address) equals src's exactly when the address is not `0.0.0.0` |
| LiveReload.NotifiedPath | src/index.ts:145 | every notified path starts with `/` |
| LiveReload.NotificationPaths | src/index.ts:144-146 | the notification has one entry per changed file, and every entry starts with `/` |
| LiveReload.RootNotificationPaths | src/index.ts:144-146 | the corrected notification, names resolved against the root, has one entry per changed file |
| LiveReload.RootRelativeNameAnnounced | src/index.ts:144-146 | resolved against the root, a clean root-relative name is announced as `/` followed by the name |
| LiveReload.RootNotificationPathsAnnounced | src/index.ts:144-146 | every entry of the corrected notification is the URL path of its changed file, in order |
| LiveReload.NotificationAtRootCwd | src/index.ts:144-146 | when the process runs in the served root, the notification as written equals the corrected one |
| LiveReload.NotificationOutsideCwd | src/index.ts:144-146 | serving `/p/www` from `/p`, a change to `a.html` is announced as `/../a.html` where `/a.html` is meant |

## Left out

- Sockets, `http.createServer`, `listen`, `opn` and `console` output in `run` are I/O. Only their inputs are modelled: parsed options, found ports, the script location and the request handler.
- tiny-lr and chokidar are external transports. Only the paths handed to `liveReloadServer.changed` are modelled. That chokidar, given `cwd`, reports names relative to the root is an assumption about that library.
- createFileWatcher: only the mapping of a changed name, through `changeCb([filePath])`, is modelled; watcher setup and logging are left out.
- ecstatic is a foreign library. Its part is the opaque `StaticPassthrough` action.
- `fsStatPr`, `fsReadFilePr` and `fsReadDirPr` are oracles. `parseConfigFile` calls `require` on a user file and is not part of this model. The template's own path is a parameter.
- `JSON.stringify` of a Node error object depends on the error's own properties. The stat oracle hands them over as JSON.
- Promise.all rejection: which stat's error rejects a listing promise is not modelled; any failed stat, or a failed template read, is just `Reject`.
- StatAll: the stats run concurrently in the source; the model evaluates them in order, which gives the same result because the oracles are pure.
- The `!templateSrc` branch cannot be reached for a Buffer that was read, so it is not modelled.
- Strings are sequences of Unicode scalar values, where JavaScript strings are UTF-16 code units. `decodeURIComponent` therefore yields scalar values directly, and lone surrogates do not occur.
- Sorting.SortNames: orders by character value, where JavaScript's default sort compares UTF-16 code units; the two agree below U+10000.
- Links.ResolveLink: models `url.resolve` for the listing's bases (a path with an optional query) and names. Both arguments are trimmed of white space, backslashes before the first `?` or `#` are rewritten to `/`, a scheme is detected, and the 14 characters `url.parse` always escapes are percent-escaped; the name's query and fragment are kept. A name with a scheme is taken to be itself, trimmed, rewritten and escaped: `url.parse` lowercasing the scheme and host, host parsing and validation, the slashed schemes (http, https, ftp, gopher, file) and the unescaped `javascript:` scheme are not modelled. A name starting with `//` is read by `url.parse` as a host, and so is a base starting with `//`, since `url.resolve` parses the base with slashes denoting a host; neither is modelled. Node versions before 12 trim with `String.prototype.trim`, which drops more kinds of white space, and also rewrite backslashes in a query that has no `#`; neither is modelled. An empty name cannot come from `readdir` and is not modelled.
- Middlewares.InjectScript: inserts the script tag literally. The source passes the tag to `replace` as a replacement string, so `$` patterns in the reload location would be expanded; `InjectScriptAsWritten` models that, `InjectAgreesWithoutDollar` shows the two agree for a location without `$`, and `LiveReload.ScriptLocationWithoutDollar` shows the location has none when the `--address` option has none, which holds for every host name and IP address.
- Middlewares.ServeHtml: serves the literal injection of `InjectScript`, which equals the page as written exactly as `InjectAgreesWithoutDollar` states.
- Middlewares.FillTemplate: the listing page is the literal fill, the corrected behaviour of the first Findings row. `FillTemplateAsWritten` is the page as written, and it equals the literal fill whenever no `$` is filled in (`FillTemplateAgreesWithoutDollar`).
- Middlewares.FillSrcTemplate: states the literal fill. The page as written expands `$` patterns in the entries and the URL, as the first Findings row describes.
- Middlewares.FillDistTemplate: states the literal fill. The page as written expands `$` patterns in the directory path, the entries and the URL, as the first Findings row describes.
- Middlewares.DirListing: its page is the literal fill of `FillTemplate`, reached through `ListingPage`. The source fills the page with a string replacement, which expands `$` patterns in the entries, the URL and, in dist, the directory path. The two pages are equal when nothing filled in holds a `$` (`FillTemplateAgreesWithoutDollar`); a file named `$&` gives a page that differs (the first Findings row).
- Dispatcher.Perform: its `ListDirectory` branch answers with `DirListing` and its `InjectHtml` branch with `ServeHtml`, so both pages are the literal ones. They equal the pages as written exactly as `FillTemplateAgreesWithoutDollar` and `InjectAgreesWithoutDollar` state.
- Middlewares.ServeDirContents: its page is the literal fill of `FillTemplate`. It equals the page as written exactly as `FillTemplateAgreesWithoutDollar` states.
- Resolver.Pathname: models `url.parse(...).pathname` as the text before the first `?` or `#`. Absolute URLs with a scheme and host, and `url.parse`'s escaping, are not modelled.
- PosixPath: only the POSIX flavour of `path` is modelled. On win32, `path` uses backslashes and drive letters; only `decodePathname`'s own win32 check is modelled.
- Ports.FindClosestOpenPort: the source recurses without bound. The model takes a fuel bound, and `MoreFuelSameResult` shows that extra fuel does not change a result once one is reached. Ports above 65535 are not special-cased, because the source does not check them either.
- Numbers.ParseInt: models decimal `parseInt` on integers only. Results beyond 2^53 lose precision in JavaScript, and `-0` is not distinguished from 0.
- Options.ParseOptions: `reduce` visits keys in insertion order. The model visits them in any order; this is the same result, because each key is written once and depends only on argv.
- The tests under src/__tests__ exercise features that src/ and dist/ do not implement: an html5mode fallback, extra scripts, a reserved URL namespace, SSL, cache headers and `--no-open`. None of these are modelled. Debouncing has only a type declaration and is left out too.

## Findings

| source | as written | input that shows it | evidently intended | confidence | as-written member | corrected member |
|---|---|---|---|---|---|---|
| src/middlewares.ts:79 | `.replace('{files}', fileHtml)` receives a string replacement, so `$&`, `` $` ``, `$'` and `$$` in file names (and in the URL at line 80) are expanded as GetSubstitution patterns of ECMA-262 section 22.1.3.19.1; dist/middlewares.js:61 does the same to the directory path filled into `{directory}` | a directory holding a file named `$&`: the entry text `$&` becomes `{files}` again; in dist, a directory named `$&` shows `{directory}` (`DollarDirectoryAsWritten`) | names, directory path and URL inserted literally | not executed; high, by the ECMAScript rules for `replace` | Middlewares.FillTemplateAsWritten, Middlewares.DollarDirectoryAsWritten | Middlewares.FillTemplate, Middlewares.FillTemplateAgreesWithoutDollar |
| src/index.ts:144-146 | `path.relative(wwwDir, changedFile)` resolves the watcher's root-relative name against the process working directory | process working directory `/p`, `--root /p/www`, change to `/p/www/a.html` reported as `a.html`: announced as `/../a.html` | `/a.html`, the URL path of the changed file | not executed; medium, since it depends on chokidar reporting names relative to `cwd` | LiveReload.NotificationPaths | LiveReload.RootNotificationPaths |
