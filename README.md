# WEAP whitelist browser — a Dafny model

WEAP is an Electron browser that only shows the websites on an allowlist. This
project models its decision logic and its renderer state, and proves
properties of both:

- **The allowlist policy** (`Allowlist`). A URL is allowed when its hostname
  equals the hostname of an allowed site, or ends with `"."` followed by that
  hostname. The scan over the list stops at its first match. It throws at the
  first entry it reaches that is not an absolute URL.
- **The JavaScript main process** (`MainJs`):
  - the allowlist loaded from the configuration file;
  - the three enforcement points on the main window (`will-navigate`, the
    window-open handler, the network-request filter);
  - the IPC handlers `load-url`, `navigate-back`, `navigate-forward`,
    `reload` and `get-allowed-websites`.

  Every parse error is caught there and counts as "denied".
- **The TypeScript main process** (`MainTs`). Its configuration is read
  from `ALLOWED_WEBSITES` and `APP_NAME`: a comma-separated list, split and
  trimmed, with defaults. It has the request filter with its `file:` and
  `chrome-extension:` exemption, the window-open handler that forwards
  `navigate-to`, and the configuration queries. Nothing in this build catches
  a parse error, so a handler may throw; the model writes that outcome as
  `None`. Because the allowlist scan runs before the protocol test here, an
  unparsable allowlist entry that the scan reaches (no earlier entry matched
  the request's hostname) makes the filter throw even for a local request.
  The model proves it still never cancels one.
- **The tab session of the multi-tab renderer.** It is modelled twice:
  - `TabSession` holds every operation as a function from session to session,
    plus the invariants;
  - `TabRenderer.WeapBrowser` is the class whose methods update the fields in
    place, each proved to produce exactly that function's result.

  The main results:
  - tab ids are `tab-N`, unique and never reused;
  - after any close, or any sequence of operations, the session still has
    tabs and the active id names one of them;
  - closing a tab removes exactly it; when it was the active tab, the active
    role passes to its left neighbour, or to the new first tab when it was
    the leftmost;
  - an unknown id changes nothing;
  - the history buttons mirror the active webview.
- **The single-view renderer** (`SiteRenderer`). It covers the domain
  extraction, the `https://` prefix rule (idempotent), the mutual-containment
  rule for active site buttons, the rendering of the button row, and the go
  button. The main process checks the raw trimmed input *before* the scheme
  is added, so a site typed without a scheme that the URL parser refuses is
  rejected (`GoChecksRawInput`).

The collaborators the core cannot see are parameters:

- **URL parser:** the WHATWG URL parser is a function
  `Parser = string -> Option<UrlRecord>`. `None` means `new URL` throws, and
  `UrlRecord` keeps only `protocol` and `hostname`.
- **Webview history:** each webview's history is an oracle `caps` from a tab
  id to `History(canGoBack, canGoForward)`. A run of several commands is
  given one such oracle per step, because histories change as webviews
  navigate.
- **Effects:** the commands to webviews and windows are logged as sequences
  of effects.
- **Inputs:** environment variables, the configuration file's outcome, the
  selector's value, IPC replies and webview events are method or function
  arguments.

`Wrappers` holds the `Option` type. `Platform` holds the parser, history and
effect types. `JsString` models the string built-ins the core uses:
`startsWith`, `endsWith`, `includes`, one-character `split`, `trim` (the
ECMAScript white-space set) and the decimal rendering of the tab counter.

## Model

| member | source | states |
|---|---|---|
| Allowlist.HostMatchesIff | src/main.js:36 | a hostname matches an allowed hostname iff it equals it or is some prefix, a dot and the allowed hostname; a shared tail without the dot does not match |
| Allowlist.SubdomainExamples | src/main.js:36 | given `example.com`: `example.com` and `sub.example.com` match; `notexample.com`, `example.com.evil.org` and `evil.com` do not |
| Allowlist.ScanFindsMatch | src/main.js:33-38 | the `some` scan answers true iff some entry matches and every entry before it parses |
| Allowlist.ScanThrows | src/main.js:33-38 | the scan throws iff it reaches, past only parsable non-matching entries, an entry that does not parse |
| Allowlist.ScanWellFormed | src/main.js:33-38 | with every entry parsable the scan never throws and answers whether some entry matches |
| Allowlist.IsUrlAllowed | src/main.js:25-43 | an empty URL, an unparsable URL and an empty allowlist are all denied |
| Allowlist.IsUrlAllowedIff | src/main.js:25-43 | allowed iff the URL is non-empty, parses, and a match exists with every earlier entry parsable (any throw is caught as false) |
| Allowlist.IsUrlAllowedWellFormed | src/main.js:28-38 | for a parsable allowlist: allowed iff the URL is non-empty, parses and its hostname matches some entry |
| Allowlist.UnparsableFirstEntryDeniesAll | src/main.js:33-42 | an unparsable first entry makes every URL denied, because the scan throws and the throw is caught |
| Allowlist.HostnameAlone | src/main.js:29-36 | two URLs with the same hostname get the same answer; scheme, port and path play no part |
| Allowlist.ExampleScenarios | src/main.js:25-43 | with `https://example.com` allowed: its pages and subdomains pass; `evil.com`, `notexample.com` and an `ftp` URL on another host are denied |
| JsString.IncludesIff | src/renderer.js:62-63 | `includes` holds iff the needle occurs at some index |
| JsString.IncludesSelf | src/renderer.js:62-63 | every string includes itself |
| JsString.Split | src/main.ts:25 | `split(',')` yields one piece more than there are commas, and no piece contains a comma |
| JsString.JoinSplit | src/main.ts:25 | joining the pieces with the separator gives the original string back |
| JsString.SplitJoin | src/main.ts:25 | separator-free pieces survive a join followed by a split |
| JsString.Trim | src/main.ts:25 | the trimmed string is no longer than the input and neither starts nor ends with white space |
| JsString.TrimInfix | src/main.ts:25 | the trimmed string occurs in the input with only white space before and after it |
| JsString.TrimIdempotent | src/renderer.js:94 | trimming twice equals trimming once |
| JsString.TrimEmptyIff | src/renderer.js:94-95 | the input trims to the empty string iff it is all white space |
| JsString.DecimalInjective | assets/renderer.js:96 | different counter values render as different decimal strings |
| MainJs.ConfiguredWebsites | src/main.js:9-22 | a missing file keeps the list, a read or JSON error empties it, a parsed file supplies its `allowedWebsites` or the empty list |
| MainJs.WillNavigate | src/main.js:63-69 | navigation is prevented iff the URL is denied, and then exactly `navigation-blocked(url)` is sent |
| MainJs.WindowOpen | src/main.js:72-80 | always `deny`; an allowed URL is loaded in the main window, a denied one is reported as blocked |
| MainJs.RequestCancel | src/main.js:83-89 | the request is cancelled iff its URL is denied |
| MainJs.LoadUrl | src/main.js:115-121 | success iff allowed; otherwise the error `URL not in whitelist` |
| MainJs.NavigateBack | src/main.js:123-129 | goes back and returns true iff a window exists and can go back; otherwise does nothing |
| MainJs.NavigateForward | src/main.js:131-137 | goes forward and returns true iff a window exists and can go forward |
| MainJs.Reload | src/main.js:139-145 | reloads and returns true iff a window exists |
| MainJs.EnforcementPointsAgree | src/main.js:63-89 | a denied URL is vetoed, never loaded, cancelled and refused by `load-url`; an allowed URL passes all four |
| MainJs.MainProcess.constructor | src/main.js:5-6 | module load: empty allowlist, no window |
| MainJs.MainProcess.LoadConfig | src/main.js:9-22 | the allowlist becomes the configured list for the file outcome |
| MainJs.MainProcess.CreateWindow | src/main.js:45-48 | loads the configuration, then a window exists |
| MainJs.MainProcess.OnWillNavigate | src/main.js:63-69 | prevents exactly the denied URLs and appends the verdict's effects |
| MainJs.MainProcess.OnWindowOpen | src/main.js:72-80 | returns `deny` and appends the load or blocked effect |
| MainJs.MainProcess.OnBeforeRequest | src/main.js:83-89 | cancel iff the URL is denied by the current allowlist |
| MainJs.MainProcess.HandleGetAllowedWebsites | src/main.js:111-113 | returns the allowlist as loaded |
| MainJs.MainProcess.HandleLoadUrl | src/main.js:115-121 | replies success iff the URL is allowed |
| MainJs.MainProcess.HandleNavigateBack | src/main.js:123-129 | true iff a window exists and can go back; the back effect only then |
| MainJs.MainProcess.HandleNavigateForward | src/main.js:131-137 | true iff a window exists and can go forward; the forward effect only then |
| MainJs.MainProcess.HandleReload | src/main.js:139-145 | true iff a window exists; the reload effect only then |
| MainTs.EnvOr | src/main.ts:23-24 | an unset or empty variable gives the fallback, any other value is used as is |
| MainTs.TrimAll | src/main.ts:25 | one trimmed piece per piece, in order |
| MainTs.LoadConfig | src/main.ts:21-31 | one entry per comma of the source plus one, the source being the variable or, when unset or empty, the defaults; the app name is the variable's non-empty value, and `WEAP Browser` whenever `APP_NAME` is unset or empty, whatever `ALLOWED_WEBSITES` holds |
| MainTs.LoadConfigPieces | src/main.ts:21-31 | the list has one entry per comma-separated piece, in order; the pieces join back to the source; each entry is its piece trimmed, without commas or surrounding white space |
| MainTs.TrimKeepsCommaFree | src/main.ts:25 | trimming a comma-free piece of the split cannot bring a comma back |
| MainTs.LoadConfigDefaults | src/main.ts:23-29 | with both variables unset or empty: `["https://google.com", "https://github.com"]` and `WEAP Browser` |
| MainTs.TwoCleanEntries | src/main.ts:24-25 | two comma-free entries without surrounding white space come out of split-and-trim exactly as written |
| MainTs.RequestFilter | src/main.ts:76-97 | a cancel is only ever answered for a parsable non-local URL; any answer means both the URL and the scan parsed |
| MainTs.RequestFilterWellFormed | src/main.ts:78-95 | for a parsable URL and allowlist the filter answers, and cancels iff the URL is non-local and no entry matches its hostname |
| MainTs.LocalRequestsPass | src/main.ts:87-92 | a `file:` or `chrome-extension:` request is never cancelled, and is let through whenever the allowlist parses |
| MainTs.RequestFiltersAgree | src/main.ts:76-97 | on non-local parsable URLs with a parsable allowlist, this filter and the JavaScript build's filter give the same answer |
| MainTs.WindowOpen | src/main.ts:101-121 | whenever the handler returns, it returns `deny` |
| MainTs.WindowOpenForwards | src/main.ts:104-119 | for a parsable URL and allowlist it answers, and its only effect is `navigate-to(url)` when a main window exists and some entry matches; in every other case, a denied URL included, nothing is sent |
| MainTs.WindowOpenNeverForwardsDenied | src/main.ts:112-119 | a URL the allowlist denies is never forwarded |
| MainTs.WeapApp.constructor | src/main.ts:15-19 | the configuration is loaded from the environment; no main window yet |
| MainTs.WeapApp.CreateMainWindow | src/main.ts:54-65 | a main window exists afterwards |
| MainTs.WeapApp.OnBeforeRequest | src/main.ts:76-97 | answers as the filter does for the configured list; never cancels a local URL |
| MainTs.WeapApp.OnWindowOpen | src/main.ts:101-121 | returns `deny` whenever it returns, and appends exactly the handler's effects |
| MainTs.WeapApp.GetAllowedWebsites | src/main.ts:200-202 | the configured list, unchanged |
| MainTs.WeapApp.GetAppConfig | src/main.ts:204-206 | the configuration, unchanged |
| TabSession.TabIdInjective | assets/renderer.js:96 | different counter values give different tab ids |
| TabSession.FreshTabId | assets/renderer.js:96 | the id of the next tab was never issued before |
| TabSession.IndexOf | assets/renderer.js:211 | `findIndex`: -1 iff no tab has the id, otherwise the first index holding it |
| TabSession.DefaultUrl | assets/renderer.js:97 | the first allowed site when it is non-empty, otherwise `about:blank`; never empty |
| TabSession.RefreshButtons | assets/renderer.js:325-338 | only the two button flags may change; with an active tab on display they are the negated back and forward capabilities of its webview; without one nothing changes |
| TabSession.SwitchTo | assets/renderer.js:185-208 | the id becomes active; tabs, counter and webview log stay; the buttons follow that tab's webview |
| TabSession.NavigateTab | assets/renderer.js:257-262 | only the webview log changes: one `Navigate` for an existing tab, nothing for an unknown id |
| TabSession.CreateTab | assets/renderer.js:95-117 | the counter goes up by one; exactly one `New Tab` record `tab-(N+1)` on the default URL is appended and becomes active; the allowlist and selector stay; the earlier webview log is kept and the new webview is attached right after it |
| TabSession.RemoveTab | assets/renderer.js:214-234 | one tab fewer, the same counter, and a `Detach` appended; closing an inactive tab keeps the active id; closing the active one leaves no active id exactly when no tab is left |
| TabSession.CloseTab | assets/renderer.js:210-240 | an unknown id changes nothing; a known one has its webview detached first, and the session is never left without a tab; the counter never goes down |
| TabSession.CloseActive | assets/renderer.js:242-246 | without an active tab nothing changes; otherwise that tab's webview is detached and a tab remains |
| TabSession.NavigateActive | assets/renderer.js:264-268 | only the webview log changes: one `Navigate` of the active tab when it is on display, nothing otherwise |
| TabSession.NavigateToSelected | assets/renderer.js:248-255 | an empty selection does nothing; any other is navigating the active tab to it |
| TabSession.GoBack | assets/renderer.js:270-277 | only the webview log changes: one `Back` to the active webview when it can go back, nothing otherwise |
| TabSession.GoForward | assets/renderer.js:279-286 | only the webview log changes: one `Forward` to the active webview when it can go forward, nothing otherwise |
| TabSession.Reload | assets/renderer.js:288-295 | only the webview log changes: one `ReloadTab` to the active webview when it exists, nothing otherwise |
| TabSession.SetTitle | assets/renderer.js:297-308 | only the tab records change, each id stays in place, and the first tab with the id gets the title; an unknown id changes nothing |
| TabSession.SetUrl | assets/renderer.js:310-316 | ids stay in place, the first tab with the id gets the url, active id, counter and log stay; an unknown id still refreshes the buttons |
| TabSession.SetLoading | assets/renderer.js:318-323 | only the tab records change, each id stays in place, and the first tab with the id gets the loading flag; an unknown id changes nothing |
| TabSession.OnSurfaceEvent | assets/renderer.js:157-180 | a webview event keeps the ids in place, the active id, the counter, the webview log, the allowlist and the selector |
| TabSession.SiteOptions | assets/renderer.js:27-38 | at most one option per entry; none when the first entry does not parse; otherwise the first option is the first site with its hostname |
| TabSession.Init | assets/renderer.js:11-25 | a rejected request changes nothing; otherwise the list is stored; with an unparsable entry no tab is added; with every entry parsable the selector lists every site and one new active tab opens on the default URL |
| TabSession.InitialValid | assets/renderer.js:2-6 | the constructed session satisfies the invariant |
| TabSession.CreateTabSpec | assets/renderer.js:95-117 | appends exactly one tab `tab-(N+1)` with fresh id, title `New Tab`, the default URL and false flags; makes it active; attaches its webview; navigates only when the URL is not `about:blank`; buttons follow the new webview; keeps the invariant |
| TabSession.CloseUnknownTab | assets/renderer.js:211-212 | closing an id that no tab holds changes nothing |
| TabSession.RemoveTabSpec | assets/renderer.js:214-234 | removal keeps the other tabs in order and the counter; a non-active close keeps the active id; an active close passes it to `tabs[max(0, idx-1)]` of the remaining tabs |
| TabSession.CloseTabRemovesExactly | assets/renderer.js:210-240 | with other tabs present the closed tab alone disappears and order is kept; closing an inactive tab keeps the active one, closing the active one passes the role to its left neighbour or, for the leftmost, to the new first tab; the invariant holds |
| TabSession.CloseOnlyTab | assets/renderer.js:227-239 | closing the only tab leaves exactly one fresh `New Tab` on the default URL, active |
| TabSession.CloseTabKeepsValid | assets/renderer.js:210-240 | after any close the session is valid and non-empty, the active id names a tab, and no previously issued id reappears |
| TabSession.CloseActiveKeepsValid | assets/renderer.js:242-246 | closing the active tab keeps the same guarantees |
| TabSession.SetTitleChangesOnlyTitle | assets/renderer.js:297-308 | only the title of the tab with that id changes; an unknown id changes nothing |
| TabSession.SetLoadingChangesOnlyLoading | assets/renderer.js:318-323 | only the loading flag of the tab with that id changes; an unknown id changes nothing |
| TabSession.SetUrlChangesOnlyUrl | assets/renderer.js:310-316 | only the url of the tab with that id changes, and the buttons are refreshed in every case |
| TabSession.ButtonsMirrorActiveSurface | assets/renderer.js:325-338 | with an active tab, the back and forward disabled flags are the negated capabilities of its webview and nothing else changes |
| TabSession.HistoryCommandsFollowButtons | assets/renderer.js:270-295 | back and forward act iff there is an active tab and the matching refreshed button is enabled, issuing only that command; without an active tab nothing happens |
| TabSession.CreateTabStep | assets/renderer.js:95-117 | creating a tab keeps the invariant and brings back no earlier id |
| TabSession.EventStep | assets/renderer.js:157-180 | a webview event keeps the invariant, the ids and the counter |
| TabSession.ApplyKeepsValid | assets/renderer.js:40-93 | every user, menu and webview command keeps the invariant and a non-empty session, never lowers the counter and never revives an earlier id |
| TabSession.RunKeepsValid | assets/renderer.js:40-93 | after any sequence of commands the session is valid and non-empty, whatever the webviews report at each step |
| TabSession.RunNeverRevives | assets/renderer.js:96 | an issued id that is absent stays absent through any sequence of commands |
| TabSession.ClosedIdNeverReused | assets/renderer.js:210-240 | once a tab is closed, no later tab ever carries its id |
| TabSession.SiteOptionsSpec | assets/renderer.js:27-38 | the selector lists every site with its hostname, in order, when every entry parses; otherwise exactly the entries before the first bad one |
| TabSession.InitCreatesFirstTab | assets/renderer.js:11-25 | with a parsable list, init fills the selector and opens `tab-1`, active, on the default URL: the first site when the list is non-empty and its first entry is not empty, `about:blank` otherwise |
| TabSession.InitFailsWithoutTab | assets/renderer.js:11-25 | a failed list request or an unparsable entry leaves no tab and no active id |
| TabRenderer.WeapBrowser.constructor | assets/renderer.js:2-6 | empty tabs, no active tab, counter zero |
| TabRenderer.WeapBrowser.InitializeUI | assets/renderer.js:27-38 | the loop fills the selector as far as the first unparsable entry, and reports whether every entry parsed |
| TabRenderer.WeapBrowser.Init | assets/renderer.js:11-25 | the new state is the session's init result |
| TabRenderer.WeapBrowser.CreateNewTab | assets/renderer.js:95-117 | the new state is the session's create result, and it is valid |
| TabRenderer.WeapBrowser.SwitchToTab | assets/renderer.js:185-208 | the active id becomes the tab and the buttons are refreshed |
| TabRenderer.WeapBrowser.UpdateNavigationButtons | assets/renderer.js:325-338 | the flags follow the active webview when there is one |
| TabRenderer.WeapBrowser.CloseTab | assets/renderer.js:210-240 | the new state is the session's close result; a valid non-empty session stays so |
| TabRenderer.WeapBrowser.CloseActiveTab | assets/renderer.js:242-246 | closes the active tab, if any, keeping the invariant |
| TabRenderer.WeapBrowser.NavigateTab | assets/renderer.js:257-262 | issues a navigation only when the tab exists |
| TabRenderer.WeapBrowser.NavigateActiveTab | assets/renderer.js:264-268 | navigates the active tab, if any |
| TabRenderer.WeapBrowser.NavigateToSelected | assets/renderer.js:248-255 | navigates the active tab only for a non-empty selection |
| TabRenderer.WeapBrowser.GoBack | assets/renderer.js:270-277 | goes back only when the active webview can |
| TabRenderer.WeapBrowser.GoForward | assets/renderer.js:279-286 | goes forward only when the active webview can |
| TabRenderer.WeapBrowser.Reload | assets/renderer.js:288-295 | reloads the active webview when it exists |
| TabRenderer.WeapBrowser.UpdateTabTitle | assets/renderer.js:297-308 | the session's title update |
| TabRenderer.WeapBrowser.UpdateTabUrl | assets/renderer.js:310-316 | the session's url update with a button refresh |
| TabRenderer.WeapBrowser.UpdateTabLoading | assets/renderer.js:318-323 | the session's loading update |
| TabRenderer.WeapBrowser.HandleSurfaceEvent | assets/renderer.js:157-180 | each webview event reaches the matching update for its own tab |
| SiteRenderer.ExtractDomain | src/renderer.js:36-43 | the hostname when the URL parses, the input unchanged otherwise |
| SiteRenderer.NormalizeScheme | src/renderer.js:51-53 | prefixes `https://` iff the URL starts with neither `http://` nor `https://`; the result always has a web scheme |
| SiteRenderer.NormalizeIdempotent | src/renderer.js:51-53 | normalising twice equals normalising once |
| SiteRenderer.NormalizeKeepsInput | src/renderer.js:51-53 | the input is a suffix of the result, and the result equals the input iff the input already had a web scheme |
| SiteRenderer.ButtonActiveSymmetric | src/renderer.js:61-64 | the active rule is symmetric, holds for equal strings, and means an occurrence of one in the other |
| SiteRenderer.LoadedSiteButtonActive | src/renderer.js:46-70 | loading a site that names its scheme makes its own button active |
| SiteRenderer.GoAction | src/renderer.js:93-103 | ignored iff the trimmed input is empty; loaded iff the main process reports success for the trimmed, un-normalised input |
| SiteRenderer.GoActionCases | src/renderer.js:94-101 | white space alone does nothing; otherwise the site loads iff the allowlist admits the trimmed input |
| SiteRenderer.GoChecksRawInput | src/renderer.js:94-98 | a trimmed input the URL parser refuses is always rejected, before any scheme is added |
| SiteRenderer.SiteView.constructor | src/renderer.js:1-2 | nothing fetched or shown |
| SiteRenderer.SiteView.RenderWebsiteTabs | src/renderer.js:19-33 | one button per site, in order, with its domain as text; only the first is active |
| SiteRenderer.SiteView.LoadWebsite | src/renderer.js:46-70 | the webview and input get the normalised URL; every button is active iff the containment rule pairs its text with the loaded domain; sites and texts are kept |
| SiteRenderer.SiteView.Init | src/renderer.js:5-16 | the list is stored and a button rendered per site with its domain; the first site, if any, is loaded into the webview and the input, and every button is then active iff the containment rule pairs its text with that domain (its own button when it names its scheme); notices stay |
| SiteRenderer.SiteView.OnGo | src/renderer.js:93-103 | blank input changes nothing; a rejection shows the whitelist notice and nothing else; success loads the normalised site into the webview and the input and sets every button's active flag by the containment rule; the list never changes |
| SiteRenderer.SiteView.OnUrlTyped | src/renderer.js:94 | the input holds exactly what the user typed, which the go button then reads |
| SiteRenderer.SiteView.OnDidStopLoading | src/renderer.js:132-135 | the input shows the URL the webview reports |
| SiteRenderer.SiteView.OnDidFailLoad | src/renderer.js:137-143 | a failure notice for every error code except -3 (user cancelled) |
| SiteRenderer.SiteView.OnNavigationBlocked | src/renderer.js:146-148 | a notice naming the blocked URL |

## Left out

- The URL parser: the WHATWG URL Standard is not implemented. Parsing is a function parameter giving the protocol and hostname, or nothing when `new URL` would throw.
- File and environment I/O: reading `configs/config.json`, `fs.existsSync` and `JSON.parse` (src/main.js:9-22) appear only as their outcome (`ConfigFile`). The environment variables appear as `Env`. `electron-store` is never read by the core and is not modelled.
- MainJs.ConfiguredWebsites: a parsed `allowedWebsites` field that is present but not a list of strings is not modelled. The model only distinguishes present from absent or falsy.
- Electron lifecycle and window plumbing are not modelled: `app.whenReady`, `activate`, `window-all-closed`, `BrowserWindow` options, `loadFile`, devtools (src/main.ts:33-72, src/main.js:45-108). The main window is reduced to a flag that records whether it exists.
- The application menu (src/main.ts:125-197) only sends `new-tab`, `close-tab`, `go-back`, `go-forward` and `reload` to the renderer. Those arrive in the model as `TabSession.Command` values.
- The preload bridges (src/preload.js, src/preload.ts) are not modelled. An IPC call is a direct function or method call, and a rejected request appears as `None`.
- The `urls: ['*://*/*']` filter pattern of the JavaScript request filter (src/main.js:83) is not modelled. The model does not decide which requests reach the filter.
- DOM work is not modelled: element creation and removal, `active` and `hidden` class toggling, a tab element's title text, `innerHTML`. The model keeps only what it records: selector options, site buttons, button flags, webview commands and notices. The three-second hiding timer of notifications is not modelled.
- Webview behaviour is not modelled. History capabilities come from the `caps` oracle, and `webview.getURL()` is a method argument. Events are handled one at a time, in the order given. Promise scheduling is left out.
- TabRenderer.WeapBrowser.SwitchToTab: the source assigns `activeTabId` and then throws when no tab element has the id (assets/renderer.js:187-193). The model requires the id to be present, which every caller in the source guarantees.
- TabSession.Init: when `initializeUI` throws, the source also skips `setupEventListeners`, so no button or menu command works afterwards. `RunKeepsValid` is stated for sessions that have a tab, which is where commands are issued.
- Tab counter width: `tabCounter` is an unbounded natural number here. In the source it is a JavaScript Number, and past 2^53 `++this.tabCounter` (assets/renderer.js:96) no longer changes it, so ids would repeat after 2^53 tab creations. `UniqueIds`, `FreshTabId` and `ClosedIdNeverReused` hold only below that bound.
- Tab records' `canGoBack` and `canGoForward` fields are written false at creation and never updated. The model keeps them that way, and the buttons read the webview instead.
- The initial `disabled` state of the back and forward buttons is set in markup that is not part of this model. It starts false here.
- The back, forward and reload buttons of src/renderer.js (lines 113-125) only call the JavaScript main process's IPC handlers, which `MainJs` models. The Enter key (lines 106-110) clicks the go button. `did-start-loading` (lines 128-130) only logs.
- Console logging is not modelled.
