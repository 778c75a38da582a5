# un-cookies, modelled in Dafny

un-cookies is a browser extension that removes cookie banners and clears cookies. The user
keeps a list of *rulesets* in synced storage. Each ruleset has a name and a schema. The schema
is either inline JSON or a URL, often a GitHub gist. On every page the content script walks
the rulesets. It loads the remote ones and parses each schema into an array of actions. It
then picks the actions that apply to the page's hostname and hands them to the action
executor. The executor runs each action against the page: click, remove, hide, style,
remove a class, clear cookies, add or remove a global style. It chains `onSuccess`/`onError`
on the truthiness of each result and reports how many elements and cookies it removed. The
background script adds those reports into a total shown on the toolbar badge. The popup
previews, adds, updates and deletes rulesets.

The model covers:

- `JsText`, `JsValue`: the JavaScript values and string operations the scripts rely on.
  These are truthiness, property reads, `String(v)`, `Object.entries`, `trim`, `split`,
  `join`, `startsWith`, `endsWith`, `includes`, `substring` and `toString`.
- `ActionParser` (src/action-parser.js): `parseSchema`.
- `RemoteLoader` (src/remote-loader.js): the gist URL rewriter, and the one-hour cache with
  `loadFromUrl`. The cache is a class whose map is updated in place.
- `ActionExecutor` (src/action-executor.js): every handler and the dispatch, in two forms.
  Each is a function from the state before to the state after. Each is also a method of a
  class `ActionExecutor`, which updates its fields and its `Page` in place and is proved to
  end in the state the function gives.
- `Content` (content.js): the per-handler selection rules and the handler loop of
  `runCustomHandlers`, as functions and as methods over the loader and executor objects.
- `Background` (background.js): the message listener that keeps the badge counter, and the
  install-time defaults.
- `Popup` (popup.js): the schema preview, the add/update validation, and the list edits.

The page's selector engine, `JSON.parse`, `fetch` and the clock are parameters. Cookie
writes, clicks, reloads, timer waits and runtime messages are append-only logs.

Three behaviours of the code that are easy to miss, each of which the model follows as
written:

- `parseSchema`'s catch block never reaches its `return []` (src/action-parser.js:19-21).
  `parseSchema` is static, so `this` is the class, which has no `logger`. `this.logger.error`
  at line 20 therefore throws a TypeError. Every schema that is malformed or not an array
  makes `parseSchema` throw: `ActionParser.ParseSchema` returns `Threw`, and the content
  script's catch block skips the handler.
- As a result, the branch for a schema that is an object keyed by domain (content.js:103-118)
  is never reached: whatever `parseSchema` returns is an array. `Content.KeyedSelection`
  models that branch on its own, and `Content.KeyedBranchUnreachable` proves it is dead.
- `_processAction`'s catch block runs `onError` and answers `false`
  (src/action-executor.js:59-65). The exception is a `null` or `undefined` action: reading
  `action.onError` in that catch block throws again, so the promise rejects. The awaiting
  `for…of` in `executeActions` stops there, and so does every enclosing call, before its
  report (src/action-executor.js:12-21). `ActionExecutor.ProcessedRejectsIffNullish` shows
  that this is the only way to reject. The content script's handler loop has the same shape.
  A `null` or `undefined` stored handler throws at `handler.schema` (content.js:44), and its
  catch block throws again at `handler.rulesetName` (content.js:119-121). The pass then ends
  in the outer catch block (content.js:126-128), and no later handler runs
  (`Content.NullishHandlerEndsPass`).

## Model

| member | source | states |
|---|---|---|
| JsText.TrimStartSpec | content.js:47 | `trimStart` leaves a suffix that is empty or starts with non-whitespace, and every character dropped is whitespace |
| JsText.TrimEndSpec | content.js:47 | `trimEnd` leaves a prefix that is empty or ends with non-whitespace, and every character dropped is whitespace |
| JsText.TrimSpec | content.js:47 | `trim` leaves a slice of the text that neither starts nor ends with whitespace |
| JsText.TrimIdempotent | content.js:47-49 | trimming an already trimmed text changes nothing |
| JsText.ContainsIff | src/remote-loader.js:18 | `includes(p)` holds exactly when `p` occurs at some position |
| JsText.Take | popup.js:42 | `substring(0, n)` is a prefix of length `min(n, length)` |
| JsText.IndexOf | src/action-executor.js:248 | the index found holds the separator and no earlier position does |
| JsText.Split | src/action-executor.js:244 | `split` yields at least one piece |
| JsText.SplitJoin | src/action-executor.js:244 | no piece of a split holds the separator, and joining the pieces with it gives the text back |
| JsText.JoinSplit | content.js:80 | splitting a join of separator-free pieces gives the pieces back |
| JsText.SplitHead | src/action-executor.js:248 | `split(d)[0]` is the prefix before the first `d`, and it holds no `d` |
| JsText.NatToString | background.js:10 | `toString` of a non-negative integer is decimal digits denoting it, with no leading zero |
| JsText.NatToStringLength | background.js:10 | one digit exactly below 10, at most two exactly below 100 |
| JsText.IntToString | background.js:18 | a negative integer prints as `-` and the digits of its magnitude |
| JsValue.TruthyIsNotNullish | src/action-executor.js:50-55 | a truthy value is never `null` or `undefined`, so reading a property of a chained action never throws |
| JsValue.Get | content.js:44 | reading a property of anything but an object gives `undefined`; a value found is one the object contains |
| JsValue.Entries | src/action-executor.js:128 | `Object.entries` throws exactly for `null`/`undefined`, and gives one entry per field of an object |
| ActionParser.ParseSchema | src/action-parser.js:9-23 | parsing succeeds exactly when the decoded (or given) value is an array, and yields its items; malformed JSON and non-arrays are rejected |
| ActionParser.NonStringArrayAsIs | src/action-parser.js:12 | a value that is not a string is not decoded: an array is accepted as it is |
| ActionParser.ParseIdempotent | src/action-parser.js:12-18 | the accepted items, handed back in, are accepted unchanged |
| ActionParser.EmptyOnlyForEmptyArray | src/action-parser.js:19-21 | the empty result comes only from an empty array, never from a rejection |
| RemoteLoader.HexRun | src/remote-loader.js:109 | the greedy `[a-f0-9]+` run: all hex, and followed by a non-hex character or the end |
| RemoteLoader.UserMatchAtSound | src/remote-loader.js:108-110 | what the owner/id pattern captures at a position is an id the pattern matches there |
| RemoteLoader.UserMatchAtComplete | src/remote-loader.js:108-110 | wherever the owner/id pattern matches, that id is captured |
| RemoteLoader.DirectMatchAt | src/remote-loader.js:116 | the bare-id pattern matches at a position exactly when the host is followed by hex up to the end |
| RemoteLoader.DirectFormUnique | src/remote-loader.js:116 | the `$`-anchored bare-id pattern can match at one position only |
| RemoteLoader.Leftmost | src/remote-loader.js:108 | `match` without `g` finds the leftmost position where the pattern matches |
| RemoteLoader.GistId | src/remote-loader.js:105-119 | an extracted gist id is a non-empty hex run |
| RemoteLoader.ConvertGistUrl | src/remote-loader.js:98-130 | a URL containing `raw` is kept, and so is one from which no gist id is extracted; any other result is the URL unchanged or the raw prefix, a gist id and `/` |
| RemoteLoader.GistIdUserForm | src/remote-loader.js:108-113 | the leftmost owner/id match gives the id, whatever the bare form says |
| RemoteLoader.GistIdBareForm | src/remote-loader.js:116-119 | with no owner/id match, a bare id at the end of the URL is taken |
| RemoteLoader.GistIdNoForm | src/remote-loader.js:121-124 | with neither form present no id is extracted |
| RemoteLoader.UserFormOfParts | src/remote-loader.js:107-109 | `<prefix>gist.github.com/<owner>/<id>` matches the owner/id form after the prefix |
| RemoteLoader.ConvertExample | src/remote-loader.js:107-127 | `https://gist.github.com/someuser/abc123` becomes `https://gist.githubusercontent.com/raw/abc123/` |
| RemoteLoader.RawUrlOf | src/remote-loader.js:126-129 | once an id is extracted from a URL without `raw`, the result is the raw URL of that id |
| RemoteLoader.RawPrefixHasRaw | src/remote-loader.js:100-102 | every rewritten URL contains `raw`, so rewriting it again keeps it |
| RemoteLoader.Lookup | src/remote-loader.js:60-72 | an entry is served exactly while at most an hour old; an expired entry is deleted and no other entry changes |
| RemoteLoader.Load | src/remote-loader.js:13-53 | a fresh non-empty cached text is returned with no fetch; otherwise the rewritten URL is fetched: the load succeeds exactly when the fetch gives an ok response, with that response's text, stored with the later time; a network failure is rethrown as such, a non-ok response fails with its status text, and a failure leaves the cache as the lookup left it |
| RemoteLoader.RequestUrlIdempotent | src/remote-loader.js:18-20 | the URL requested for a requested URL is itself |
| RemoteLoader.AddThenLookup | src/remote-loader.js:79-84 | a stored entry is served back while under an hour old |
| RemoteLoader.SecondLoadWithinHour | src/remote-loader.js:24-28 | after a load that fetched a non-empty text, any load of the same URL within the hour is a cache hit that changes nothing |
| RemoteLoader.LoadAfterExpiryFetches | src/remote-loader.js:65-68 | an hour after a successful load, the URL is requested again |
| RemoteLoader.LoadAfterClearFetches | src/remote-loader.js:89-91 | after `clearCache` every load is a request |
| RemoteLoader.RemoteLoader.constructor | src/remote-loader.js:2-6 | a new loader has an empty cache and has made no request |
| RemoteLoader.RemoteLoader.GetFromCache | src/remote-loader.js:60-72 | returns and evicts as `Lookup` says |
| RemoteLoader.RemoteLoader.AddToCache | src/remote-loader.js:79-84 | the entry for the URL becomes the text and the time, overwriting any other |
| RemoteLoader.RemoteLoader.ClearCache | src/remote-loader.js:89-91 | the cache is empty afterwards |
| RemoteLoader.RemoteLoader.LoadFromUrl | src/remote-loader.js:13-53 | result, cache and request log are those of `Load` |
| ActionExecutor.Unmatched | src/action-executor.js:173-174 | the elements kept and the elements matched add up to the page |
| ActionExecutor.QueryMembers | src/action-executor.js:171-174 | an element is matched exactly when it is on the page and matches; it is kept exactly when it does not match |
| ActionExecutor.Partition | src/action-executor.js:171-177 | the removal loop keeps exactly the unmatched elements, in order, and counts the matched ones |
| ActionExecutor.Assigned | src/action-executor.js:195-197 | after assigning the style entries, the keys are the old keys plus the key of every entry |
| ActionExecutor.AssignedValues | src/action-executor.js:195-197 | a property no entry names keeps its old value; one that entries name takes the value of the last such entry (`null` as the empty string) |
| ActionExecutor.Declass | src/action-executor.js:203-206 | the loop throws exactly when some element matches and the token is invalid; otherwise every element ends without the token if it matches and unchanged if not |
| ActionExecutor.ClassRemovedThrows | src/action-executor.js:202-207 | a token `classList.remove` rejects, on a page with a match, makes the action answer `false` with the page untouched |
| ActionExecutor.ClearWrites | src/action-executor.js:229-235 | a named clear writes five assignments, each starting with `name=; ` |
| ActionExecutor.CookieNames | src/action-executor.js:244-253 | at most one name per `;`-separated part |
| ActionExecutor.ExpireStep | src/action-executor.js:247-252 | one more part adds its name's write and one count, or nothing when the name is empty |
| ActionExecutor.Declarations | src/action-executor.js:128-130 | one `prop: value;` declaration per style entry |
| ActionExecutor.FirstRuleFor | src/action-executor.js:156-157 | the index found is of the first rule whose selector text is strictly equal to the target; none means no rule is |
| ActionExecutor.ProcessedRejectsIffNullish | src/action-executor.js:37-65 | `_processAction` rejects exactly for a `null`/`undefined` action |
| ActionExecutor.ProcessedChainsOnce | src/action-executor.js:47-58 | after the action, exactly one of `onSuccess` (truthy result) and `onError` (falsy result) runs, if present, and the result is returned |
| ActionExecutor.LogShortCircuits | src/action-executor.js:69-72 | a truthy `log` or `message` answers `true`, so only `onSuccess` can follow |
| ActionExecutor.ExecutedResults | src/action-executor.js:75-107 | only log/message actions and the two global-style actions can answer truthily |
| ActionExecutor.UnknownActionIsFalse | src/action-executor.js:108-110 | an unknown action name answers `false` and changes nothing |
| ActionExecutor.ElementHandlersFail | src/action-executor.js:170-221 | the remove, style, class and click handlers answer a falsy value |
| ActionExecutor.StylesSetFalsy | src/action-executor.js:180-186 | `hide` answers a falsy value |
| ActionExecutor.CookieHandlersFail | src/action-executor.js:223-259 | both cookie handlers answer `undefined` |
| ActionExecutor.ExecutedGrows | src/action-executor.js:68-116 | no single action shrinks a log or lowers a counter |
| ActionExecutor.ProcessedGrows | src/action-executor.js:37-66 | the same holds across a chain of `onSuccess`/`onError` |
| ActionExecutor.RunGrows | src/action-executor.js:4-5 | no call of `executeActions` lowers a counter or takes back a log entry |
| ActionExecutor.EachRunGrows | src/action-executor.js:11-14 | the same holds for the array branch, element after element |
| ActionExecutor.EachProcessedGrows | src/action-executor.js:15-19 | the same holds for an `actions` group, action after action |
| ActionExecutor.RunReports | src/action-executor.js:24-29 | a call that does not reject ends by reporting the non-zero running total |
| ActionExecutor.NestedArrayReportsTwice | src/action-executor.js:10-29 | `[[]]` reports the running total twice, once per level |
| ActionExecutor.InvalidSelectorFails | src/action-executor.js:112-115 | a selector `querySelectorAll` rejects makes the action answer `false`, so `onError` runs and the page is untouched |
| ActionExecutor.RemoveEffect | src/action-executor.js:170-178 | `remove` leaves the unmatched elements of the flat page and raises `elementCount` by the number of matches |
| ActionExecutor.ClearCookieEffect | src/action-executor.js:223-241 | a named clear counts one cookie, whether or not it existed, and appends five writes for that name |
| ActionExecutor.CookieNameShape | src/action-executor.js:248 | a name cleared is non-empty, holds no `;` or `=`, and has no whitespace at either end |
| ActionExecutor.CookieNamesShape | src/action-executor.js:244-249 | every name taken from the parts has that shape |
| ActionExecutor.ClearAllEffect | src/action-executor.js:243-259 | `*` writes and counts once per well-formed name, at most once per part, then messages the background |
| ActionExecutor.FirstRuleForAppend | src/action-executor.js:136-139 | a rule appended for a selector the sheet lacks is the first rule for it |
| ActionExecutor.RemoveGlobalStyleFirst | src/action-executor.js:156-161 | `removeGlobalStyle` deletes the first rule for the target and only that one, and drops the registry entry |
| ActionExecutor.RemoveGlobalStyleAbsent | src/action-executor.js:155-163 | with no rule for the target nothing changes and the answer is `undefined` |
| ActionExecutor.AddThenRemoveGlobalStyle | src/action-executor.js:125-163 | adding a style for a selector the sheet lacks and then removing it restores the sheet and drops the selector from the registry; both answer `true` |
| ActionExecutor.ActionExecutor.constructor | src/action-executor.js:2-8 | zero counters, an empty registry, and an empty sheet when the style element is attached |
| ActionExecutor.ActionExecutor.RemoveElement | src/action-executor.js:170-178 | the page and counters end as `ElementsRemoved` gives |
| ActionExecutor.ActionExecutor.AssignStyles | src/action-executor.js:195-197 | the style map after the entries loop is `Assigned` of the entries |
| ActionExecutor.ActionExecutor.StyleOne | src/action-executor.js:191-198 | one element's style: a truthy property and value, else the `styles` entries, else unchanged |
| ActionExecutor.ActionExecutor.SetStyle | src/action-executor.js:188-200 | the page ends as `StylesSet` gives: every match restyled, nothing else changed |
| ActionExecutor.ActionExecutor.RemoveClass | src/action-executor.js:202-207 | the page ends as `ClassRemoved` gives |
| ActionExecutor.ActionExecutor.ClickElement | src/action-executor.js:209-221 | the first match, if any, is clicked |
| ActionExecutor.FirstMatch | src/action-executor.js:210-213 | a query result is non-empty exactly when some element matches, and its first element is the first matching element in document order |
| ActionExecutor.ClickedFirstMatch | src/action-executor.js:209-221 | with a valid selector, one click is recorded exactly when some element matches; it is the first match in document order, and nothing else on the page changes |
| ActionExecutor.ActionExecutor.ClearCookie | src/action-executor.js:223-241 | five writes appended and one cookie counted |
| ActionExecutor.ActionExecutor.ExpireAll | src/action-executor.js:247-253 | the loop over the parts writes one expiry per non-empty name and counts them |
| ActionExecutor.ActionExecutor.ClearAllCookies | src/action-executor.js:243-259 | the page and counters end as `AllCookiesCleared` gives |
| ActionExecutor.ActionExecutor.AddGlobalStyle | src/action-executor.js:125-149 | sheet, registry and answer are those of `GlobalStyleAdded` |
| ActionExecutor.ActionExecutor.RemoveGlobalStyle | src/action-executor.js:151-168 | the index loop ends as `GlobalStyleRemoved` gives |
| ActionExecutor.ActionExecutor.ExecuteAction | src/action-executor.js:68-116 | the dispatch ends as `ActionExecuted` gives |
| ActionExecutor.ActionExecutor.ProcessAction | src/action-executor.js:37-66 | the delay, action and chain end as `ActionProcessed` gives |
| ActionExecutor.ActionExecutor.Chain | src/action-executor.js:49-65 | the chaining and catch block end as `Chained` gives |
| ActionExecutor.ActionExecutor.Report | src/action-executor.js:24-34 | a non-zero running total is sent to the background |
| ActionExecutor.ActionExecutor.ExecuteActions | src/action-executor.js:10-35 | the recursive walk ends as `ActionsRun` gives |
| Content.LastTwo | content.js:80 | `slice(-2)` keeps the last two pieces, or all when fewer |
| Content.BaseDomainIsSuffix | content.js:80 | the base domain is a suffix of the hostname |
| Content.BaseDomainOfTwoLabels | content.js:80 | a hostname of at most two labels is its own base domain |
| Content.BaseDomainIdempotent | content.js:105 | the base domain of a base domain is itself |
| Content.DomainActionsMembers | content.js:77-82 | an item is kept exactly when its `domain` is the hostname or its base domain |
| Content.DomainActionsConcat | content.js:77-82 | the filter keeps the schema's order |
| Content.SubdomainMatches | content.js:92-96 | a flat ruleset named after a domain runs on each of its subdomains |
| Content.LookalikeDoesNotMatch | content.js:95 | a hostname that merely ends with the name, with no dot before it, does not match |
| Content.Selected | content.js:63-102 | what runs is a non-nullish subset of the parsed items; the handler is skipped exactly when parsing throws or an item is nullish (which items run in each mode: `FlatModeRunsIff`, `DomainModeRunsIff`) |
| Content.DomainModeIgnoresName | content.js:73-89 | in domain mode the ruleset name, `*` included, plays no part |
| Content.FlatModeRunsIff | content.js:90-101 | in flat mode the whole array runs exactly when the name matches |
| Content.DomainModeRunsNonEmpty | content.js:84-89 | domain mode runs only a non-empty list of matching items |
| Content.DomainModeRunsIff | content.js:77-89 | in domain mode something runs exactly when some item's domain is the hostname or its base domain, and what runs is every such item, in schema order |
| Content.ExactKeyWins | content.js:103-117 | in the keyed branch the exact hostname wins and at most one entry runs |
| Content.KeyedBranchUnreachable | content.js:103 | a parsed schema is an array, so the keyed branch is dead |
| Content.FailedHandlerLeavesPage | content.js:44-68 | a failed load, a parse that throws or a nullish handler leaves the page as it was; only a nullish handler ends the pass |
| Content.NullishHandlerEndsPass | content.js:119-128 | a `null`/`undefined` handler ends the pass: the pass over the whole list is the pass over the handlers before it |
| Content.NullFirstRunsNothing | content.js:42-128 | a stored list starting with `null` runs nothing, whatever follows |
| Content.RemoteOnlyFetchesTrimmed | content.js:47-49 | only a remote schema reaches the loader, which requests at most its trimmed URL |
| Content.HandlersRunGrows | content.js:42-125 | counters and logs only grow over a pass |
| Content.RunHandler | content.js:43-124 | one loop body ends as `HandlerStep` gives, and reports an exit from the loop exactly for a nullish handler |
| Content.RunCustomHandlers | content.js:27-128 | the loop runs the handlers in storage order and stops at a nullish one, as `CustomHandlersRun` gives |
| Background.BadgeTextShape | background.js:10 | the badge is `99+` above 99, and the total's one or two digits from 0 to 99 |
| Background.ReceivedEffect | background.js:3-20 | `updateCounter` adds the count, `resetCounter` zeroes the total and shows `0`, both store the real total; other messages change nothing |
| Background.ReceivedKeepsConsistent | background.js:3-20 | stored total, in-memory total and badge text stay in agreement |
| Background.TotalIsSumOfCounts | background.js:4-5 | without a reset the total grows by exactly the counts reported |
| Background.ResetRestarts | background.js:16-19 | after a reset the total is what the following messages report |
| Background.Fetched | background.js:24 | `storage.sync.get(key)` holds the key's stored value, or lacks it |
| Background.FetchedOnlyKey | background.js:34-35 | the fetched object holds no other key |
| Background.DebugModeOverwritten | background.js:34-38 | as written, a stored `debugMode: false` becomes `true` on every install |
| Background.DebugDefaultKeepsChoice | popup.js:125-129 | a stored debug choice is kept; a missing one becomes `true` |
| Background.InstalledKeepsSettings | background.js:23-51 | the install as intended keeps stored rulesets and debug choice, restores a non-zero total, and defaults only missing keys |
| Background.InstalledAsWrittenForcesDebug | background.js:34-38 | the install as written differs from the intended one only in `debugMode`, which it always leaves `true` |
| Background.Background.constructor | background.js:1 | the total starts at 0 |
| Background.Background.OnMessage | background.js:3-21 | the state ends as `Received` gives |
| Background.Background.OnInstalled | background.js:23-52 | the state ends as `InstalledIntended` gives |
| Popup.Clipped | popup.js:74-77 | the text itself when short, else its first `n` characters and `...` |
| Popup.Part | popup.js:57-63 | a field's part is empty exactly when the field is falsy, and otherwise is the key, `: `, the value's text and the separator |
| Popup.Braced | popup.js:56-65 | the preview of the first item is wrapped in braces |
| Popup.BracedEmpty | popup.js:56-65 | the braces are empty exactly when none of `domain`, `action` and `target` is truthy |
| Popup.PreviewBounded | popup.js:40-83 | a remote preview shows the marker and the first 40 characters; any other preview is at most 53 characters |
| Popup.FallbackKeepsBeginning | popup.js:78-81 | a schema that is not JSON, that decodes to `null`, or whose first item is nullish, previews as its own first 50 characters, followed by `...` when it is longer |
| Popup.ItemsTextShape | popup.js:55-69 | the list preview opens with a brace and ends with ` + n more` or the closing brace |
| Popup.SingleValueIsOneItem | popup.js:52 | a single value previews as a one-item array |
| Popup.DefaultTemplatePreview | popup.js:55-65 | the editor's default template previews as `{domain: *, }` |
| Popup.Validated | popup.js:292-305 | a ruleset is accepted exactly when the trimmed name and schema are non-empty and a non-URL schema decodes |
| Popup.AcceptedEntryAgreesWithContent | popup.js:303-310 | an accepted entry is remote to the content script exactly when the popup saw a URL, and an inline one decodes |
| Popup.AcceptedObjectNeverRuns | popup.js:303-305 | a JSON object is accepted, yet the parser rejects it |
| Popup.Spliced | popup.js:27 | `splice(index, 1)` removes the row at the index (counted from the end when negative) and nothing past the end |
| Popup.SplicedRemovesOne | popup.js:27 | deleting a row removes that entry only and keeps the others in order |
| Popup.Assigned | popup.js:338-341 | `list[index] = v`: a negative index changes no element; a large one grows the list |
| Popup.Resolve | popup.js:20 | a name resolves to the innermost scope on the chain that declares it; when none is found, no scope on the chain declares it |
| Popup.EditHandlerScope | popup.js:9-20 | neither `rulesetName` nor `editIndex` is declared on the Edit handler's scope chain |
| Popup.EditHandlerScopeIntended | popup.js:9-20 | an Edit handler nested in the listeners' scope finds both `rulesetName` and `editIndex` there |
| Popup.LoadCallbackScope | popup.js:102-111 | the storage callback's `handlers` resolves to `loadHandlers`' parameter as written, and to the listeners' list as intended |
| Popup.AssignThenLookup | popup.js:338-349 | an assignment made through a scope chain that ends at the window is read back through that chain |
| Popup.AddAfterOpenDropsStored | popup.js:102-111 | as written, `handlers = data.customHandlers` resolves to `loadHandlers`' own parameter, so the listeners' list stays empty and the first ruleset added replaces every stored one |
| Popup.AddAfterOpenKeepsStored | popup.js:307-310 | with the load assigning the listeners' `handlers`, adding keeps every stored ruleset, in order, and appends the new one |
| Popup.UpdateAfterEditAsWritten | popup.js:9-20 | as written, the Edit handler's scope has no `rulesetName` (a ReferenceError at line 13), and `editIndex = index` creates a window property, so the update listener reads -1 and writes to no row |
| Popup.UpdateAfterEditReplaces | popup.js:338-341 | with the Edit handler reaching the listeners' bindings, it finds `rulesetName`, and Update after Edit replaces that row and no other |
| Popup.Popup.constructor | popup.js:193-194 | the list is the one the intended load gives, which is the stored list, and no row is being edited |
| Popup.Popup.Edit | popup.js:9-20 | a row with a non-nullish ruleset becomes the one the update listener edits, as intended; any other row throws at `handler.rulesetName` and changes nothing |
| Popup.Popup.Add | popup.js:292-321 | a valid ruleset is appended and saved; an invalid one changes nothing |
| Popup.Popup.Update | popup.js:323-356 | a valid ruleset replaces the row being edited, is saved, and ends editing |
| Popup.Popup.Delete | popup.js:23-34 | the row is spliced out and the list saved |

## Left out

- The logger (src/logger.js) and every log call: console output only.
- The DOM and CSSOM: selector matching and selector validity are a pair of functions given to
  the executor. `click()`, `location.reload()` and `setTimeout` are entries in logs.
  Selector-text normalisation by `insertRule` is not modelled: a rule keeps the selector text
  it was given.
- The cookie jar: `document.cookie` is a fixed input string. Its writes are logged, but what
  they do to later reads is not modelled.
- Concurrency. The content script does not await `executeActions` (content.js:88, 100, 111,
  116). The `MutationObserver` reruns the pass (content.js:135-142). The model runs one
  sequential pass, each call completing before the next.
- `fetch`, `JSON.parse` and `Date.now()` are parameters. Decoded objects are assumed to have
  distinct keys, since a property read takes the first field with the key. The two clock
  readings for handler `i` are `clock(2 * i)` and `clock(2 * i + 1)`.
- Property names inherited from `Object.prototype`: a property read sees only a value's own
  fields.
- Numbers are integers. A non-numeric `count` in a message, or a non-numeric stored total,
  is not modelled.
- `Background.TotalRestored`: restores a stored total only when it is a number. A truthy
  stored string would be restored as a string by `totalCounter = data.totalCounter`.
- The `onInstalled` storage callbacks run in sequence in the model. The browser runs them in
  no fixed order.
- Popup rendering: `innerHTML`, CodeMirror, the resize drag, the format, gist-URL and cancel
  buttons, `confirm`, `prompt` and `showStatus`. The callbacks also call `renderHandlers()`
  with no argument, which throws in its destructuring; this is not modelled.
- `Popup.Preview`: takes the stored schema as a string. A non-string schema would make
  `startsWith` throw.
- `Popup.Assigned`: holes left by an index past the end are stored as `null`, as
  `chrome.storage` serialises them.
- `Popup.Popup.constructor`, `Popup.Popup.Edit`: state the intended behaviour of the findings
  below (`Loaded`, `ListenerEditIndex`). The behaviour as written is stated by
  `Popup.AddAfterOpenDropsStored` and `Popup.UpdateAfterEditAsWritten`.
- `Background.InstalledKeepsSettings`: states the intended install, with the debug default
  of popup.js:125-129. As written, background.js:34-38 always sets `debugMode` to `true`
  (`Background.InstalledAsWritten`, `Background.InstalledAsWrittenForcesDebug`).
- `Background.Background.OnInstalled`: ends as `InstalledIntended` gives, not as the code
  as written does. `Background.InstalledAsWrittenForcesDebug` states the difference.
- `ActionExecutor.ElementsRemoved`, `ActionExecutor.RemoveEffect`: the page is a flat
  sequence of elements with no tree. `el.remove()` (src/action-executor.js:174)
  detaches an element's whole subtree, but in the model removal never takes descendants. The
  selector oracle does not see removals either, so an unmatched descendant of a removed
  element can still be matched by a later action of the same run.
- `ActionExecutor.GlobalStyleAdded`: `insertRule` is taken to throw exactly when the
  selector is invalid. A style value containing `}`, such as `red } p {`, splits the rule text
  so that `insertRule` throws and the source answers `false`; the model answers `true`.
- `Popup.Clipped`, `JsText.Take`: strings are sequences of code points, while JavaScript's `length` and
  `substring` count UTF-16 code units (popup.js:42-43, 75-81). A text with characters outside
  the Basic Multilingual Plane is cut at a different place than in the source.
- `Popup.Popup.Add`, `Popup.Popup.Update`, `Popup.Popup.Delete`: every write to synced
  storage succeeds. A `chrome.storage.sync.set` over the per-item quota fails, and the
  callbacks (popup.js:29, 312, 343) ignore `runtime.lastError`. Storage then keeps its old
  list while the popup's list has changed.
- Popup scopes: only the bindings the two popup findings turn on are modelled. These are
  the listeners' `handlers`, `editIndex` and `rulesetName`, the two functions' parameters,
  and the window. popup.html is not part of this model, so no window property named
  `rulesetName` is assumed.

## Findings

| source | as written | input that shows it | evidently intended | confidence | as-written member | corrected member |
|---|---|---|---|---|---|---|
| background.js:34-38 | the `debugMode` callback tests `data.totalCounter`, which a `get("debugMode")` result never holds | storage holding `debugMode: false`, then an extension update | set `debugMode` only when it is missing, as popup.js:125-129 does | high, not executed | Background.DebugModeOverwritten | Background.DebugDefaultKeepsChoice |
| popup.js:102-111 | `loadHandlers` assigns the loaded list to its own parameter, so the list the add listener pushes to (popup.js:193) stays empty | storage holding two rulesets; open the popup and add a third | the add appends to the stored list | high, not executed | Popup.AddAfterOpenDropsStored | Popup.AddAfterOpenKeepsStored |
| popup.js:9-20 | the Edit handler sits in the top-level `renderHandlers`, outside the `DOMContentLoaded` callback. Its read of `rulesetName` at line 13 is a ReferenceError, so the Update button is never shown. Even past that, `editIndex = index` at line 20 creates a window property, and the update listener still reads its own -1 (popup.js:194, 338) | one stored ruleset; click Edit | Edit fills the form and shows Update, and Update replaces the edited row | medium (popup.html could define a global `rulesetName`), not executed | Popup.UpdateAfterEditAsWritten | Popup.UpdateAfterEditReplaces |
