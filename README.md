# Rails route code lenses, modelled in Dafny

The extension shows a code lens above every action of a Rails controller file.
The lens is labelled `🌐 url | pattern | verb` from the route that serves the
action. When the action's view template exists, the label ends in ` 👁️` and the
lens opens that view. The model covers the core of `src/extension.ts`:

- `parseRoutes`: the `rails routes` dump, filtered to one controller, becomes
  `Route` records.
- `findRouteForAction`: the case-insensitive route matcher.
- `getViewFilePath`: the view-template lookup.
- `RubyMethodCodeLensProvider`: the route cache keyed
  `${workspacePath}:${controller}`, the per-document lens cache and
  `provideCodeLenses`.

Modules, one file each:

- `wrappers.dfy` (`Wrappers`): `Option` and `Result`.
- `jstext.dfy` (`JsText`): the JavaScript string primitives the code relies on,
  written out on `seq<char>`. These are `split('\n')`, `split(/\s+/)`, `endsWith`,
  the classes `\s` and `\w`, the line terminators `.` refuses, and ASCII
  `toLowerCase`.
- `routes.dfy` (`Routes`): `Route`, `parseRoutes` (a method with its loop, proved
  against the function `ParsedRoutes`) and `findRouteForAction`.
- `views.dfy` (`Views`): `getViewFilePath`.
- `lenses.dfy` (`Lenses`): the controller pattern
  `/app\/controllers\/(.*?)_controller\.rb/` (leftmost match, shortest group), the
  action pattern `/def\s+(\w+)/` (leftmost match, whole word), the lens of one line,
  and the line loop of `provideCodeLenses`.
- `provider.dfy` (`Provider`): the provider class. Its fields are the two caches.
  Its methods are proved against the functions `LookupRoutes`, `Provide` and
  `ProvideFor`, which also carry the lemmas about caching.

Inputs the code does not compute are parameters:

- `fetch` stands for `runRailsRoutesCommand`: the grep of the routes file, which
  gives standard output or a rejection.
- `fileExists` stands for the file-system check.

The provider records each `fetch` call and each warning shown in ghost logs.

Exceptions thrown inside the `try` block of `provideCodeLenses`:

- `exec(...)![1]` throws on a `_controller.rb` file name the controller pattern
  does not match. In the model, `ExtractController` is then `None`, and `Provide`
  and `ProvideCodeLenses` return no lenses and show the lens warning.
- The callback of one line throws in two cases. One is the matcher reaching a
  route with no action (`route.action.toLowerCase()` on `undefined`). The other
  is `path.join` given the undefined workspace path of a document outside every
  workspace folder. `LineLens` gives `Result.Err` for these, and `Scan` passes the
  first one on.

What the code does in cases where it is easy to expect otherwise:

- `split(/\s+/)` counts the columns of a row, so a row must start with a name
  column, or with whitespace, to give four or five fields. A row without one,
  such as `GET /posts posts#index`, splits into three fields and is skipped
  (`Routes.ParseThreeFieldRow`).
- When the routes command fails, `getRoutes` caches nothing and returns `[]`.
  `provideCodeLenses` then finds no route for any line and caches the empty lens
  list for the document. Until the editor changes, later calls get that empty
  list from the cache and do not fetch again (`Provider.ProvideAfterFetchFailure`).
- A `_controller.rb` file name that the controller pattern does not match, such as
  one outside `app/controllers/`, is not skipped quietly like other files. It
  throws inside the `try`, so the lens warning is shown.

## Model

| member | source | states |
|---|---|---|
| JsText.SplitOn | src/extension.ts:170 | `split('\n')` gives at least one piece; no piece contains the separator; joining the pieces with it gives the input back |
| JsText.SplitWs | src/extension.ts:173 | `split(/\s+/)` gives at least one token; no token holds `\s`; interior tokens are non-empty; for a non-empty input, the first token is empty exactly when the input starts with `\s`, and the last token is empty when the input ends with `\s`; the empty input gives one empty token |
| JsText.SplitWsRejoins | src/extension.ts:173 | the tokens, interleaved with some non-empty runs of `\s` (one fewer runs than tokens), give the input back |
| JsText.SplitWsLastToken | src/extension.ts:173 | the last token is non-empty when the input ends in anything but `\s` |
| JsText.InterleaveLastToken | src/extension.ts:173 | interleaving with runs of `\s` ends in `\s` when there are two or more tokens and the last is empty |
| JsText.SplitWsFront | src/extension.ts:173 | a first token free of `\s`, followed by a run of `\s`, is split off whole |
| JsText.SplitOnJoin | src/extension.ts:170 | splitting undoes joining, for pieces free of the separator |
| JsText.SplitOnConcat | src/extension.ts:170 | the lines of `a + "\n" + b` are the lines of `a` followed by those of `b` |
| JsText.SplitWsInterleave | src/extension.ts:173-176 | splitting on `/\s+/` undoes interleaving with any non-empty runs of `\s`, for tokens free of `\s` whose interior members are non-empty |
| JsText.Lower | src/extension.ts:191-194 | the result has no ASCII capital; each capital of the input becomes the letter 32 code points above it; every other character is kept |
| Routes.SplitControllerAction | src/extension.ts:177 | the controller is the text before the first `#`; the action is the text between the first and second `#`, and absent when there is no `#` |
| Routes.SplitControllerActionJoin | src/extension.ts:177 | `controller#action` splits back into both halves |
| Routes.ParseLines | src/extension.ts:172-185 | at most one route per line |
| Routes.ParsedRoutes | src/extension.ts:168-187 | at most one route per line of the output |
| Routes.ParseLinesSnoc | src/extension.ts:172-185 | one more line adds its route, if it gives one, at the end |
| Routes.ParseRoutes | src/extension.ts:168-187 | the loop returns the routes of the accepted lines, in line order (`ParsedRoutes`) |
| Routes.ParseFiveFields | src/extension.ts:175-178 | a five-field line gives the route `[_, verb, url, pattern, controller#action]` |
| Routes.ParseFourFields | src/extension.ts:179-183 | a four-field line gives `[_, url, pattern, controller#action]` with an empty verb |
| Routes.ParseOtherFields | src/extension.ts:173-185 | a line with any other number of fields gives no route |
| Routes.ParseEmptyOutput | src/extension.ts:168-187 | empty output gives no routes |
| Routes.ParseThreeFieldRow | src/extension.ts:173-185 | the row `GET /posts posts#index` splits into three fields and gives no route |
| Routes.ParseRowWithVerb | src/extension.ts:173-178 | a dump row `name verb url pattern controller#action`, its columns separated by any runs of `\s`, parses back to exactly those fields |
| Routes.ParseRowWithoutVerb | src/extension.ts:179-183 | a dump row `name url pattern controller#action`, its columns separated by any runs of `\s`, parses back to its fields with an empty verb |
| Routes.ParseLinesConcat | src/extension.ts:172-185 | parsing is line by line: the routes of `a + b` are those of `a`, then those of `b` |
| Routes.ParsedRoutesConcat | src/extension.ts:168-187 | the routes of `a + "\n" + b` are those of `a` followed by those of `b` |
| Routes.IndicesWhere | src/extension.ts:172-185 | the indices returned are in range, increasing, and exactly those of the elements that satisfy the test |
| Routes.AcceptedLines | src/extension.ts:172-185 | the indices of the lines that give a route, in increasing order, and all of them |
| Routes.ParseLinesAccepted | src/extension.ts:172-186 | there is one route per accepted line, and the k-th route is the route of the k-th accepted line |
| Routes.ParsedActionsPresent | src/extension.ts:177-183 | every route has an action when every accepted line's last field holds a `#` |
| Routes.FindRouteForAction | src/extension.ts:189-198 | a route found is the first one the search stops at, and it matches after lower-casing both sides; `Err` means the search reached a route with no action first; "none" holds exactly when every route has an action that does not match |
| Routes.StopsAtUnique | src/extension.ts:190-197 | the search stops at one route only |
| Routes.FindsFirstMatch | src/extension.ts:190-197 | the first matching route, when no earlier route lacks an action, is the one returned |
| Routes.FindIgnoresCase | src/extension.ts:191-196 | inputs that are equal after lower-casing give the same answer |
| Routes.FindTotalWithActions | src/extension.ts:192 | the matcher cannot throw when every route has an action |
| Routes.FindMixedCaseExample | src/extension.ts:191-196 | `("Index", "Posts")` finds the route of `posts#index` |
| Views.ViewBase | src/extension.ts:210 | the base path is `workspacePath/app/views/controller/action` |
| Views.GetViewFilePath | src/extension.ts:209-219 | the result is empty exactly when neither view file exists; the `.html.erb` view wins when it exists; a non-empty result is an existing file and one of the two candidates |
| Lenses.MatchAtParts | src/extension.ts:66 | a match at an offset is `app/controllers/`, a group with no line terminator, then `_controller.rb` |
| Lenses.LazyEnd | src/extension.ts:66 | the lazy group ends at the first `_controller.rb` with no line terminator before it, and is absent when no such end exists |
| Lenses.MatchHere | src/extension.ts:66 | the match at an offset, if there is one, has the shortest group there |
| Lenses.ControllerFrom | src/extension.ts:66 | the group found is that of the leftmost match from the offset, shortest at that position, and is absent exactly when there is no match from the offset |
| Lenses.ExtractController | src/extension.ts:66 | `exec(fileName)[1]` is the leftmost match's shortest group, and is absent exactly when nothing matches |
| Lenses.DefAt | src/extension.ts:70 | a match at an offset exists exactly when one is found, and its group is the whole word after the whitespace |
| Lenses.FirstDefHere | src/extension.ts:70 | a match at the start offset is the leftmost one |
| Lenses.FirstDefLater | src/extension.ts:70 | with no match at an offset, the leftmost match from the next offset is the leftmost from this one |
| Lenses.DefFrom | src/extension.ts:70 | the leftmost match from an offset, and absent exactly when there is none |
| Lenses.DefAction | src/extension.ts:70-72 | an action exists exactly when the line holds `def`, whitespace and a word, and it is the group of the leftmost such match |
| Lenses.Title | src/extension.ts:79 | the label starts with `🌐 url \| ` and ends with ` \| verb` |
| Lenses.LineLens | src/extension.ts:70-89 | a line without a `def` match gets nothing; a lens is placed at its own line; a line whose action has a route throws when the document has no workspace path |
| Lenses.Collect | src/extension.ts:69-93 | the lenses collected are at most one per outcome |
| Lenses.Scan | src/extension.ts:69-93 | the lenses of a scan are at most one per line |
| Lenses.LensForLine | src/extension.ts:70-89 | one line's callback computes that line's outcome (`LineLens`) |
| Lenses.ScanLines | src/extension.ts:69-93 | the loop returns the collected outcomes of all lines, or the first exception (`Scan`) |
| Lenses.CollectErrPersists | src/extension.ts:93 | once a prefix of the lines throws, the scan throws that way |
| Lenses.LensIff | src/extension.ts:70-89 | a line gets a lens exactly when it holds a `def` match, that action has a route and the document has a workspace path |
| Lenses.LensContents | src/extension.ts:75-87 | the lens sits at its line and its label starts with `🌐 url \| pattern \| verb`; it opens the view exactly when a view file exists, and then its label ends in ` 👁️`, its only argument is the path `getViewFilePath` returns for the route, and its tooltip is `navigate to view: controller#action`; otherwise the command is empty |
| Lenses.CollectLenses | src/extension.ts:69-96 | the collected lenses are, in increasing line order, exactly the lenses of the lines |
| Lenses.CollectThrows | src/extension.ts:69-97 | the collection throws exactly when some outcome throws |
| Lenses.ScanLenses | src/extension.ts:69-96 | a successful scan holds, in increasing line order, exactly one lens per line that gets one, and that line's lens |
| Lenses.ScanThrows | src/extension.ts:69-101 | the scan throws exactly when the callback of some line throws |
| Lenses.CollectNone | src/extension.ts:69-96 | outcomes without lenses collect to no lenses |
| Lenses.ScanNoRoutes | src/extension.ts:71-74 | with no routes, no line gets a lens and none throws |
| Provider.WorkspaceText | src/extension.ts:121 | a workspace path prints as itself; the text is `undefined` exactly when there is no workspace or its path is that word |
| Provider.CacheKey | src/extension.ts:121 | the key starts with the workspace text and `:`, and ends with `:` and the controller |
| Provider.IsControllerFile | src/extension.ts:57 | a controller file name is one that ends in `_controller.rb` |
| Provider.ControllerFileOf | src/extension.ts:57 | every name ending in `_controller.rb` is a controller file name |
| Provider.CacheKeyInjective | src/extension.ts:121 | for controller names without `:`, equal keys mean equal workspace text and controller |
| Provider.KeyParts | src/extension.ts:121 | where the workspace, the `:` and the controller sit in a key |
| Provider.CacheKeyCollisions | src/extension.ts:121 | the key joins `a:b` + `c` and `a` + `b:c` alike, and a missing workspace and one called `undefined` alike |
| Provider.LookupThenHit | src/extension.ts:120-131 | after a successful fetch (or a hit), the next lookup of the same key is served from the cache without fetching |
| Provider.LookupRetriesAfterFailure | src/extension.ts:127-136 | a failed fetch shows the warning, returns no routes and leaves the cache as it was, so the next lookup fetches again |
| Provider.LookupRoutes | src/extension.ts:120-137 | a lookup keeps every cached entry and adds at most its own key; it fetches exactly on a miss; a hit returns the cached routes; a successful fetch caches and returns the parsed output; it warns exactly when the fetch fails, and then returns `[]` and leaves the cache as it was |
| Provider.Provide | src/extension.ts:47-101 | at most one fetch and one warning, since a failed fetch leaves no routes and then no line throws; every cached route list is kept; the lens cache is unchanged or gains the returned lenses under the document's URI; a cached document gets its cached lenses with no fetch and no warning |
| Provider.ProvideFor | src/extension.ts:65-101 | it fetches exactly when the route key is not cached; at most one warning; every cached route list is kept; the lens cache is unchanged or gains the returned lenses; the routes warning is shown exactly when the fetch ran and failed |
| Provider.ProvideForCaching | src/extension.ts:65-101 | after the controller is known, the lens cache either gains exactly the returned lenses, or stays unchanged with no lenses and the lens warning |
| Provider.ProvideCaching | src/extension.ts:47-101 | the lens cache changes only for an uncached controller file whose controller is found and where no line throws; a cache hit returns the cached lenses with no other effect; a non-controller file gets no lenses and changes nothing |
| Provider.ProvideTwice | src/extension.ts:51-54 | once a document's lenses are cached, asking again returns the same lenses, fetches nothing and warns nothing |
| Provider.ProvideAfterFetchFailure | src/extension.ts:65-96 | when the routes command fails, the routes warning is shown, no routes are cached and the empty lens list is cached for the document |
| Provider.RubyMethodCodeLensProvider.constructor | src/extension.ts:43-45 | both caches start empty |
| Provider.RubyMethodCodeLensProvider.GetCachedCodeLenses | src/extension.ts:108-110 | the cached lenses of the URI, present exactly when cached |
| Provider.RubyMethodCodeLensProvider.SetCachedCodeLenses | src/extension.ts:112-114 | the cache maps the URI to the lenses and is otherwise unchanged |
| Provider.RubyMethodCodeLensProvider.ClearCachedCodeLenses | src/extension.ts:116-118 | the URI's entry is removed and every other entry is kept |
| Provider.RubyMethodCodeLensProvider.UpdateCodeLenses | src/extension.ts:104-106 | an editor change clears that document's entry only |
| Provider.RubyMethodCodeLensProvider.GetRoutes | src/extension.ts:120-137 | the routes, route cache, fetch log and warning log are those of `LookupRoutes` on the old cache; every cached key was fetched under that key |
| Provider.RubyMethodCodeLensProvider.ProvideCodeLenses | src/extension.ts:47-102 | the lenses, both caches, fetches and warnings are those of `Provide` on the old state; every cached key was fetched |
| Provider.RubyMethodCodeLensProvider.ProvideForController | src/extension.ts:65-101 | the `try` block after the controller is known has the effects of `ProvideFor` |
| Provider.RubyMethodCodeLensProvider.ScanAndCache | src/extension.ts:69-101 | a scan with no exception caches and returns its lenses; one with an exception shows the lens warning, returns `[]` and caches nothing |

## Left out

- `activate`, `deactivate`, the command and event registrations, and the `openView` command: these are VS Code wiring with no logic of their own.
- `updateRailsRoutesCommand` and `runRailsRoutesCommand`: shell processes, outside the model. The second is the `fetch` parameter. The model does not check that its output holds only `controller#` lines.
- `fileExists`: file-system access, modelled as the `fileExists` parameter.
- `console.error` logging, and the text of the exceptions: not modelled. A warning is the fixed message appended to a ghost log.
- The cancellation token: `provideCodeLenses` never reads it.
- Lenses.ScanLines: the source pushes lenses in the order the per-line callbacks finish. That order depends on when each `fileExists` call settles. The model scans the lines in ascending order, as if every call settled at once, so the order of lenses in the returned list is not modelled.
- Lenses.ScanLines: the per-line callbacks run concurrently under `Promise.all`, so a line after the one that throws may still push a lens into the discarded array. The model stops at the first line that throws. Both versions return `[]` and cache nothing.
- Provider.RubyMethodCodeLensProvider.ProvideCodeLenses: two concurrent calls for the same key can both fetch, because there is no deduplication of in-flight requests. The model runs each call to completion.
- JsText.Lower: `toLowerCase` is modelled on ASCII letters only. Non-ASCII case mappings are not modelled.
- Views.ViewBase: `path.join` is modelled as joining with `/`. The normalisation of `..`, repeated separators and platform separators is not modelled.
- `vscode.Range` and `vscode.CodeLens`: a lens is its line and its command, and the range always spans column 0 of that line. The URI is its string form.
- Strings are sequences of Unicode scalar values, not UTF-16 code units. This matters only for characters outside the Basic Multilingual Plane inside routes or file names.
