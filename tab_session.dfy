/**
 * The tab session of the multi-tab renderer, as a value: the ordered tabs, the
 * active tab id, the tab counter, the allowlist it was given, the two
 * navigation-button flags, and the commands issued to the tabs' browsing
 * surfaces (webviews). Every operation of the renderer is a function from one
 * session to the next; the class in TabRenderer performs the same steps in
 * place and is proved to agree with these functions.
 */
module TabSession {
  import opened Wrappers
  import opened JsString
  import opened Platform
  import Allowlist

  const BlankUrl: string := "about:blank"
  const NewTabTitle: string := "New Tab"

  /** A tab record. `canGoBack` and `canGoForward` are set to false at creation and never written again. */
  datatype Tab = Tab(id: string, title: string, url: string, canGoBack: bool, canGoForward: bool, isLoading: bool)

  /** What the session asks of the webviews, in order. */
  datatype SurfaceCommand =
    | Attach(tabId: string, src: string)     // a webview created for the tab, loading `src`
    | Detach(tabId: string)                  // the tab's element and webview removed
    | Navigate(tabId: string, url: string)   // `webview.src = url`
    | Back(tabId: string)                    // `webview.goBack()`
    | Forward(tabId: string)                 // `webview.goForward()`
    | ReloadTab(tabId: string)               // `webview.reload()`

  /** An entry of the site selector: the site's URL and, as its text, its hostname. */
  datatype SiteOption = SiteOption(value: string, text: string)

  /** The history each tab's webview reports, by tab id. */
  type Surfaces = string -> History

  datatype Browser = Browser(
    tabs: seq<Tab>,
    activeTabId: Option<string>,
    tabCounter: nat,
    allowedWebsites: seq<string>,
    options: seq<SiteOption>,
    backDisabled: bool,
    forwardDisabled: bool,
    surfaces: seq<SurfaceCommand>)

  /** The state the constructor leaves: no tabs, no active tab, counter zero. */
  function Initial(): Browser {
    Browser([], None, 0, [], [], false, false, [])
  }

  // ---------------------------------------------------------------- tab ids

  /** `` `tab-${n}` `` */
  function TabId(n: nat): string {
    "tab-" + Decimal(n)
  }

  lemma TabIdInjective(a: nat, b: nat)
    ensures TabId(a) == TabId(b) ==> a == b
  {
    if TabId(a) == TabId(b) {
      assert Decimal(a) == TabId(a)[4..];
      assert Decimal(b) == TabId(b)[4..];
      DecimalInjective(a, b);
    }
  }

  /** Every id handed out once the counter has reached `n`: `tab-1` to `tab-n`. */
  function IssuedIds(n: nat): seq<string> {
    seq(n, k requires 0 <= k => TabId(k + 1))
  }

  /** The next id has never been handed out, so no id is reused, even after its tab is closed. */
  lemma FreshTabId(n: nat)
    ensures TabId(n + 1) !in IssuedIds(n)
  {
    forall k | 0 <= k < n ensures IssuedIds(n)[k] != TabId(n + 1) {
      TabIdInjective(k + 1, n + 1);
    }
  }

  lemma IssuedGrows(n: nat, m: nat)
    requires n <= m
    ensures forall x :: x in IssuedIds(n) ==> x in IssuedIds(m)
  {
    forall x | x in IssuedIds(n) ensures x in IssuedIds(m) {
      var k :| 0 <= k < n && IssuedIds(n)[k] == x;
      assert IssuedIds(m)[k] == x;
    }
  }

  // ---------------------------------------------------------------- lookup

  predicate HasTab(tabs: seq<Tab>, id: string) {
    exists k :: 0 <= k < |tabs| && tabs[k].id == id
  }

  /** `tabs.findIndex(tab => tab.id === id)`: the first index holding `id`, or -1. */
  function IndexOf(tabs: seq<Tab>, id: string): (r: int)
    ensures -1 <= r < |tabs|
    ensures r == -1 <==> !HasTab(tabs, id)
    ensures 0 <= r ==> tabs[r].id == id && forall k :: 0 <= k < r ==> tabs[k].id != id
    decreases |tabs|
  {
    if tabs == [] then -1
    else if tabs[0].id == id then 0
    else
      var r := IndexOf(tabs[1..], id);
      assert forall k :: 0 < k < |tabs| ==> tabs[k] == tabs[1..][k - 1];
      if r == -1 then -1 else r + 1
  }

  ghost predicate UniqueIds(tabs: seq<Tab>) {
    forall i, j :: 0 <= i < j < |tabs| ==> tabs[i].id != tabs[j].id
  }

  /** Ids are unique and every one of them has been issued by the counter. */
  ghost predicate WellFormed(b: Browser) {
    && UniqueIds(b.tabs)
    && forall k :: 0 <= k < |b.tabs| ==> b.tabs[k].id in IssuedIds(b.tabCounter)
  }

  /** The session invariant: in addition, there is an active tab exactly when there are tabs, and it is one of them. */
  ghost predicate Valid(b: Browser) {
    && WellFormed(b)
    && (b.tabs == [] <==> b.activeTabId.None?)
    && (b.activeTabId.Some? ==> HasTab(b.tabs, b.activeTabId.value))
  }

  lemma InitialValid()
    ensures Valid(Initial())
  {
  }

  /** Removing the tab at index `i` (`tabs.splice(i, 1)`). */
  lemma RemoveAt(tabs: seq<Tab>, i: nat)
    requires i < |tabs| && UniqueIds(tabs)
    ensures var rest := tabs[..i] + tabs[i + 1..];
      && |rest| == |tabs| - 1
      && (forall k :: 0 <= k < |rest| ==> rest[k] == if k < i then tabs[k] else tabs[k + 1])
      && UniqueIds(rest)
      && (forall x :: HasTab(rest, x) <==> HasTab(tabs, x) && x != tabs[i].id)
  {
    var rest := tabs[..i] + tabs[i + 1..];
    assert forall k :: 0 <= k < |rest| ==> rest[k] == if k < i then tabs[k] else tabs[k + 1];
    forall x ensures HasTab(rest, x) <==> HasTab(tabs, x) && x != tabs[i].id {
      if HasTab(rest, x) {
        var k :| 0 <= k < |rest| && rest[k].id == x;
        assert tabs[if k < i then k else k + 1].id == x;
      }
      if HasTab(tabs, x) && x != tabs[i].id {
        var k :| 0 <= k < |tabs| && tabs[k].id == x;
        assert rest[if k < i then k else k - 1].id == x;
      }
    }
  }

  // ---------------------------------------------------------------- operations

  /** `this.allowedWebsites[0] || 'about:blank'` */
  function DefaultUrl(allowed: seq<string>): (url: string)
    ensures url != ""
    ensures |allowed| > 0 && allowed[0] != "" ==> url == allowed[0]
    ensures |allowed| == 0 || allowed[0] == "" ==> url == BlankUrl
  {
    if |allowed| > 0 && allowed[0] != "" then allowed[0] else BlankUrl
  }

  /** `updateNavigationButtons()`: the button flags follow the active tab's webview, when there is one. */
  function RefreshButtons(b: Browser, caps: Surfaces): (r: Browser)
    ensures r.(backDisabled := b.backDisabled, forwardDisabled := b.forwardDisabled) == b
    ensures HasActive(b) && HasTab(b.tabs, b.activeTabId.value) ==>
      r.backDisabled == !caps(b.activeTabId.value).canGoBack && r.forwardDisabled == !caps(b.activeTabId.value).canGoForward
    ensures !HasActiveSurface(b) ==> r == b
  {
    if HasActive(b) && HasTab(b.tabs, b.activeTabId.value) then
      var h := caps(b.activeTabId.value);
      b.(backDisabled := !h.canGoBack, forwardDisabled := !h.canGoForward)
    else b
  }

  /** The state part of `switchToTab(id)`. */
  function SwitchTo(b: Browser, id: string, caps: Surfaces): (r: Browser)
    ensures r.activeTabId == Some(id)
    ensures r.(backDisabled := b.backDisabled, forwardDisabled := b.forwardDisabled) == b.(activeTabId := Some(id))
    ensures id != "" && HasTab(b.tabs, id) ==> r.backDisabled == !caps(id).canGoBack && r.forwardDisabled == !caps(id).canGoForward
  {
    RefreshButtons(b.(activeTabId := Some(id)), caps)
  }

  /** `navigateTab(id, url)`: sets the webview's source when the tab (and so its webview) exists. */
  function NavigateTab(b: Browser, id: string, url: string): (r: Browser)
    ensures r.(surfaces := b.surfaces) == b
    ensures HasTab(b.tabs, id) ==> r.surfaces == b.surfaces + [Navigate(id, url)]
    ensures !HasTab(b.tabs, id) ==> r == b
  {
    if HasTab(b.tabs, id) then b.(surfaces := b.surfaces + [Navigate(id, url)]) else b
  }

  /** `createNewTab()` */
  function CreateTab(b: Browser, caps: Surfaces): (r: Browser)
    ensures r.tabCounter == b.tabCounter + 1
    ensures r.tabs == b.tabs + [Tab(TabId(b.tabCounter + 1), NewTabTitle, DefaultUrl(b.allowedWebsites), false, false, false)]
    ensures r.activeTabId == Some(TabId(b.tabCounter + 1))
    ensures r.allowedWebsites == b.allowedWebsites && r.options == b.options
    ensures |b.surfaces| < |r.surfaces| && r.surfaces[..|b.surfaces|] == b.surfaces
    ensures r.surfaces[|b.surfaces|] == Attach(TabId(b.tabCounter + 1), DefaultUrl(b.allowedWebsites))
  {
    var id := TabId(b.tabCounter + 1);
    var url := DefaultUrl(b.allowedWebsites);
    var added := b.(tabCounter := b.tabCounter + 1,
                    tabs := b.tabs + [Tab(id, NewTabTitle, url, false, false, false)],
                    surfaces := b.surfaces + [Attach(id, url)]);
    var shown := SwitchTo(added, id, caps);
    if url != BlankUrl then NavigateTab(shown, id, url) else shown
  }

  /**
   * The first part of `closeTab(id)`, once the tab was found at `idx`: the tab
   * and its webview are removed and, if it was the active one, the tab now at
   * `max(0, idx - 1)` becomes active (or none, when no tab is left).
   */
  function RemoveTab(b: Browser, id: string, idx: nat, caps: Surfaces): (r: Browser)
    requires idx < |b.tabs|
    ensures |r.tabs| == |b.tabs| - 1
    ensures r.tabCounter == b.tabCounter && r.allowedWebsites == b.allowedWebsites && r.options == b.options
    ensures r.surfaces == b.surfaces + [Detach(id)]
    ensures b.activeTabId != Some(id) ==> r.activeTabId == b.activeTabId
    ensures b.activeTabId == Some(id) ==> (r.activeTabId.None? <==> r.tabs == [])
  {
    var removed := b.(tabs := b.tabs[..idx] + b.tabs[idx + 1..], surfaces := b.surfaces + [Detach(id)]);
    if b.activeTabId == Some(id) then
      if |removed.tabs| > 0 then SwitchTo(removed, removed.tabs[if idx == 0 then 0 else idx - 1].id, caps)
      else removed.(activeTabId := None)
    else removed
  }

  /** `closeTab(id)`: an unknown id is ignored; closing the last tab opens a new one. */
  function CloseTab(b: Browser, id: string, caps: Surfaces): (r: Browser)
    ensures !HasTab(b.tabs, id) ==> r == b
    ensures HasTab(b.tabs, id) ==> r.tabs != []
    ensures HasTab(b.tabs, id) ==> |b.surfaces| < |r.surfaces| && r.surfaces[|b.surfaces|] == Detach(id)
    ensures b.tabCounter <= r.tabCounter && r.allowedWebsites == b.allowedWebsites
  {
    var idx := IndexOf(b.tabs, id);
    if idx == -1 then b
    else
      var switched := RemoveTab(b, id, idx, caps);
      if |switched.tabs| == 0 then CreateTab(switched, caps) else switched
  }

  /** JavaScript truthiness of `this.activeTabId`. */
  predicate HasActive(b: Browser) {
    b.activeTabId.Some? && b.activeTabId.value != ""
  }

  /** `closeActiveTab()` */
  function CloseActive(b: Browser, caps: Surfaces): (r: Browser)
    ensures !HasActive(b) ==> r == b
    ensures HasActive(b) && HasTab(b.tabs, b.activeTabId.value) ==>
      r.tabs != [] && |b.surfaces| < |r.surfaces| && r.surfaces[|b.surfaces|] == Detach(b.activeTabId.value)
  {
    if HasActive(b) then CloseTab(b, b.activeTabId.value, caps) else b
  }

  /** `navigateActiveTab(url)`, the handler of `navigate-to`. */
  function NavigateActive(b: Browser, url: string): (r: Browser)
    ensures r.(surfaces := b.surfaces) == b
    ensures !HasActiveSurface(b) || !HasActive(b) ==> r == b
    ensures HasActiveSurface(b) && HasActive(b) ==> r.surfaces == b.surfaces + [Navigate(b.activeTabId.value, url)]
  {
    if HasActive(b) then NavigateTab(b, b.activeTabId.value, url) else b
  }

  /** `navigateToSelected()`, given the selector's current value. */
  function NavigateToSelected(b: Browser, selectedUrl: string): (r: Browser)
    ensures selectedUrl == "" ==> r == b
    ensures selectedUrl != "" ==> r == NavigateActive(b, selectedUrl)
  {
    if selectedUrl != "" && HasActive(b) then NavigateTab(b, b.activeTabId.value, selectedUrl) else b
  }

  /** The active tab's webview exists. */
  predicate HasActiveSurface(b: Browser) {
    b.activeTabId.Some? && HasTab(b.tabs, b.activeTabId.value)
  }

  /** `goBack()` */
  function GoBack(b: Browser, caps: Surfaces): (r: Browser)
    ensures r.(surfaces := b.surfaces) == b
    ensures !HasActiveSurface(b) || !caps(b.activeTabId.value).canGoBack ==> r == b
    ensures HasActiveSurface(b) && caps(b.activeTabId.value).canGoBack ==> r.surfaces == b.surfaces + [Back(b.activeTabId.value)]
  {
    if HasActiveSurface(b) && caps(b.activeTabId.value).canGoBack
    then b.(surfaces := b.surfaces + [Back(b.activeTabId.value)])
    else b
  }

  /** `goForward()` */
  function GoForward(b: Browser, caps: Surfaces): (r: Browser)
    ensures r.(surfaces := b.surfaces) == b
    ensures !HasActiveSurface(b) || !caps(b.activeTabId.value).canGoForward ==> r == b
    ensures HasActiveSurface(b) && caps(b.activeTabId.value).canGoForward ==> r.surfaces == b.surfaces + [Forward(b.activeTabId.value)]
  {
    if HasActiveSurface(b) && caps(b.activeTabId.value).canGoForward
    then b.(surfaces := b.surfaces + [Forward(b.activeTabId.value)])
    else b
  }

  /** `reload()` */
  function Reload(b: Browser): (r: Browser)
    ensures r.(surfaces := b.surfaces) == b
    ensures !HasActiveSurface(b) ==> r == b
    ensures HasActiveSurface(b) ==> r.surfaces == b.surfaces + [ReloadTab(b.activeTabId.value)]
  {
    if HasActiveSurface(b) then b.(surfaces := b.surfaces + [ReloadTab(b.activeTabId.value)]) else b
  }

  /** `updateTabTitle(id, title)`: the first tab with that id, if any, gets the title. */
  function SetTitle(b: Browser, id: string, title: string): (r: Browser)
    ensures r.(tabs := b.tabs) == b && SameIds(b.tabs, r.tabs)
    ensures HasTab(b.tabs, id) ==> r.tabs[IndexOf(b.tabs, id)] == b.tabs[IndexOf(b.tabs, id)].(title := title)
    ensures !HasTab(b.tabs, id) ==> r == b
  {
    var i := IndexOf(b.tabs, id);
    if i == -1 then b else b.(tabs := b.tabs[i := b.tabs[i].(title := title)])
  }

  /** `updateTabUrl(id, url)`: records the url, then refreshes the buttons whether or not the tab was found. */
  function SetUrl(b: Browser, id: string, url: string, caps: Surfaces): (r: Browser)
    ensures SameIds(b.tabs, r.tabs)
    ensures r.activeTabId == b.activeTabId && r.tabCounter == b.tabCounter && r.surfaces == b.surfaces
    ensures HasTab(b.tabs, id) ==> r.tabs[IndexOf(b.tabs, id)] == b.tabs[IndexOf(b.tabs, id)].(url := url)
    ensures !HasTab(b.tabs, id) ==> r == RefreshButtons(b, caps)
  {
    var i := IndexOf(b.tabs, id);
    var updated := if i == -1 then b else b.(tabs := b.tabs[i := b.tabs[i].(url := url)]);
    RefreshButtons(updated, caps)
  }

  /** `updateTabLoading(id, isLoading)` */
  function SetLoading(b: Browser, id: string, isLoading: bool): (r: Browser)
    ensures r.(tabs := b.tabs) == b && SameIds(b.tabs, r.tabs)
    ensures HasTab(b.tabs, id) ==> r.tabs[IndexOf(b.tabs, id)] == b.tabs[IndexOf(b.tabs, id)].(isLoading := isLoading)
    ensures !HasTab(b.tabs, id) ==> r == b
  {
    var i := IndexOf(b.tabs, id);
    if i == -1 then b else b.(tabs := b.tabs[i := b.tabs[i].(isLoading := isLoading)])
  }

  /** The webview events each tab listens to. */
  datatype SurfaceEvent =
    | DomReady
    | DidStartLoading
    | DidStopLoading
    | PageTitleUpdated(title: string)
    | DidNavigate(url: string)
    | DidNavigateInPage(url: string)

  /** The listeners registered in `createWebviewElement`, for the tab `id`. */
  function OnSurfaceEvent(b: Browser, id: string, ev: SurfaceEvent, caps: Surfaces): (r: Browser)
    ensures SameIds(b.tabs, r.tabs)
    ensures r.activeTabId == b.activeTabId && r.tabCounter == b.tabCounter && r.surfaces == b.surfaces
    ensures r.allowedWebsites == b.allowedWebsites && r.options == b.options
  {
    match ev
    case DomReady => SetLoading(b, id, false)
    case DidStartLoading => SetLoading(b, id, true)
    case DidStopLoading => SetLoading(b, id, false)
    case PageTitleUpdated(title) => SetTitle(b, id, title)
    case DidNavigate(url) => SetUrl(b, id, url, caps)
    case DidNavigateInPage(url) => SetUrl(b, id, url, caps)
  }

  /**
   * The options `initializeUI` puts in the site selector: one per entry, in
   * order, as far as the first entry that does not parse, where
   * `new URL(website)` throws.
   */
  function SiteOptions(parse: Parser, allowed: seq<string>): (opts: seq<SiteOption>)
    ensures |opts| <= |allowed|
    ensures allowed != [] && parse(allowed[0]).None? ==> opts == []
    ensures opts != [] ==> opts[0] == SiteOption(allowed[0], parse(allowed[0]).value.hostname)
    decreases |allowed|
  {
    if allowed == [] then []
    else match parse(allowed[0])
      case None => []
      case Some(u) => [SiteOption(allowed[0], u.hostname)] + SiteOptions(parse, allowed[1..])
  }

  /**
   * `init()`: `reply` is what `getAllowedWebsites()` resolved to (`None` when
   * it rejected, which is caught and leaves everything as it was). The list is
   * stored and the selector filled; when an entry does not parse the selector
   * stays partly filled, the error is caught, and no tab is created.
   */
  function Init(b: Browser, reply: Option<seq<string>>, parse: Parser, caps: Surfaces): (r: Browser)
    ensures reply.None? ==> r == b
    ensures reply.Some? ==> r.allowedWebsites == reply.value && |r.options| <= |reply.value|
    ensures reply.Some? && !Allowlist.AllParse(parse, reply.value) ==> r.tabs == b.tabs && r.activeTabId == b.activeTabId
    ensures reply.Some? && Allowlist.AllParse(parse, reply.value) ==>
      && |r.options| == |reply.value|
      && r.tabs == b.tabs + [Tab(TabId(b.tabCounter + 1), NewTabTitle, DefaultUrl(reply.value), false, false, false)]
      && r.activeTabId == Some(TabId(b.tabCounter + 1))
  {
    match reply
    case None => b
    case Some(allowed) =>
      SiteOptionsSpec(parse, allowed);
      var shown := b.(allowedWebsites := allowed, options := SiteOptions(parse, allowed));
      if Allowlist.AllParse(parse, allowed) then CreateTab(shown, caps) else shown
  }

  // ---------------------------------------------------------------- properties

  /**
   * `createNewTab` appends one tab with a fresh id and the default fields and
   * makes it active; its webview is created with the default URL, and a
   * navigation is issued unless that URL is the blank placeholder.
   */
  lemma CreateTabSpec(b: Browser, caps: Surfaces)
    requires WellFormed(b)
    ensures var r := CreateTab(b, caps);
      var id := TabId(b.tabCounter + 1);
      var url := DefaultUrl(b.allowedWebsites);
      && Valid(r)
      && id !in IssuedIds(b.tabCounter) && !HasTab(b.tabs, id)
      && r.tabs == b.tabs + [Tab(id, NewTabTitle, url, false, false, false)]
      && r.activeTabId == Some(id)
      && r.tabCounter == b.tabCounter + 1
      && r.allowedWebsites == b.allowedWebsites
      && r.backDisabled == !caps(id).canGoBack && r.forwardDisabled == !caps(id).canGoForward
      && r.surfaces == b.surfaces + [Attach(id, url)] + (if url != BlankUrl then [Navigate(id, url)] else [])
  {
    var id := TabId(b.tabCounter + 1);
    var url := DefaultUrl(b.allowedWebsites);
    var r := CreateTab(b, caps);
    var tabs' := b.tabs + [Tab(id, NewTabTitle, url, false, false, false)];
    FreshTabId(b.tabCounter);
    IssuedGrows(b.tabCounter, b.tabCounter + 1);
    assert IssuedIds(b.tabCounter + 1)[b.tabCounter] == id;
    assert tabs'[|b.tabs|].id == id;
    assert HasTab(tabs', id);
    assert UniqueIds(tabs');
  }

  /** A tab the session does not hold: closing it changes nothing. */
  lemma CloseUnknownTab(b: Browser, id: string, caps: Surfaces)
    requires !HasTab(b.tabs, id)
    ensures CloseTab(b, id, caps) == b
  {
  }

  /**
   * What removing the tab at `idx` leaves: the other tabs in order, the same
   * counter, a `Detach` for its webview, and an active tab that is unchanged
   * unless it was the removed one, which hands over to its left neighbour.
   */
  lemma RemoveTabSpec(b: Browser, id: string, idx: nat, caps: Surfaces)
    requires Valid(b) && idx < |b.tabs| && b.tabs[idx].id == id
    ensures var r := RemoveTab(b, id, idx, caps);
      && WellFormed(r)
      && r.tabs == b.tabs[..idx] + b.tabs[idx + 1..]
      && (forall x :: HasTab(r.tabs, x) <==> HasTab(b.tabs, x) && x != id)
      && r.tabCounter == b.tabCounter
      && r.allowedWebsites == b.allowedWebsites
      && r.surfaces == b.surfaces + [Detach(id)]
      && (r.tabs == [] <==> |b.tabs| == 1)
      && (r.tabs == [] ==> r.activeTabId.None?)
      && (r.tabs != [] ==> Valid(r))
      && (b.activeTabId != Some(id) ==> r.activeTabId == b.activeTabId)
      && (b.activeTabId == Some(id) && r.tabs != [] ==> r.activeTabId == Some(r.tabs[if idx == 0 then 0 else idx - 1].id))
  {
    RemoveAt(b.tabs, idx);
    var rest := b.tabs[..idx] + b.tabs[idx + 1..];
    var r := RemoveTab(b, id, idx, caps);
    assert r.tabs == rest;
    forall k | 0 <= k < |rest| ensures rest[k].id in IssuedIds(b.tabCounter) {
      assert rest[k] == if k < idx then b.tabs[k] else b.tabs[k + 1];
    }
    if |b.tabs| == 1 {
      assert b.activeTabId == Some(id);
    } else if b.activeTabId == Some(id) {
      var j := if idx == 0 then 0 else idx - 1;
      assert HasTab(rest, rest[j].id);
    } else {
      assert HasTab(b.tabs, b.activeTabId.value);
    }
  }

  /**
   * Closing one of several tabs removes exactly it, keeps the others in order,
   * leaves the counter alone, and hands the active role to its left neighbour
   * (or the new first tab) only when the closed tab was active.
   */
  lemma CloseTabRemovesExactly(b: Browser, id: string, caps: Surfaces)
    requires Valid(b) && HasTab(b.tabs, id) && |b.tabs| >= 2
    ensures var i := IndexOf(b.tabs, id);
      var r := CloseTab(b, id, caps);
      && Valid(r)
      && r.tabs == b.tabs[..i] + b.tabs[i + 1..]
      && !HasTab(r.tabs, id)
      && (forall x :: x != id ==> (HasTab(r.tabs, x) <==> HasTab(b.tabs, x)))
      && r.tabCounter == b.tabCounter
      && r.surfaces == b.surfaces + [Detach(id)]
      && (b.activeTabId != Some(id) ==> r.activeTabId == b.activeTabId)
      && (b.activeTabId == Some(id) ==> r.activeTabId == Some(r.tabs[if i == 0 then 0 else i - 1].id))
  {
    var i := IndexOf(b.tabs, id);
    RemoveTabSpec(b, id, i, caps);
    assert CloseTab(b, id, caps) == RemoveTab(b, id, i, caps);
  }

  /** Closing the only tab replaces it by a fresh tab on the default URL. */
  lemma CloseOnlyTab(b: Browser, caps: Surfaces)
    requires Valid(b) && |b.tabs| == 1
    ensures var id := TabId(b.tabCounter + 1);
      var r := CloseTab(b, b.tabs[0].id, caps);
      && Valid(r)
      && r.tabs == [Tab(id, NewTabTitle, DefaultUrl(b.allowedWebsites), false, false, false)]
      && r.activeTabId == Some(id)
      && r.tabCounter == b.tabCounter + 1
      && id != b.tabs[0].id
  {
    var id := b.tabs[0].id;
    assert IndexOf(b.tabs, id) == 0;
    RemoveTabSpec(b, id, 0, caps);
    var cleared := RemoveTab(b, id, 0, caps);
    CreateTabSpec(cleared, caps);
    assert CloseTab(b, id, caps) == CreateTab(cleared, caps);
    assert id in IssuedIds(b.tabCounter);
  }

  /**
   * After `closeTab` on a session that has tabs, the session still has tabs,
   * its invariant holds and the active id names one of them.
   */
  lemma CloseTabKeepsValid(b: Browser, id: string, caps: Surfaces)
    requires Valid(b) && b.tabs != []
    ensures var r := CloseTab(b, id, caps);
      && Valid(r)
      && r.tabs != []
      && r.activeTabId.Some? && HasTab(r.tabs, r.activeTabId.value)
      && b.tabCounter <= r.tabCounter
      && forall x :: x in IssuedIds(b.tabCounter) && HasTab(r.tabs, x) ==> HasTab(b.tabs, x)
  {
    var idx := IndexOf(b.tabs, id);
    if idx != -1 {
      if |b.tabs| == 1 {
        CloseOnlyTab(b, caps);
        FreshTabId(b.tabCounter);
        var r := CloseTab(b, id, caps);
        assert forall x :: HasTab(r.tabs, x) ==> x == TabId(b.tabCounter + 1);
      } else {
        CloseTabRemovesExactly(b, id, caps);
      }
    }
  }

  /** `closeActiveTab` keeps the invariant in the same way. */
  lemma CloseActiveKeepsValid(b: Browser, caps: Surfaces)
    requires Valid(b) && b.tabs != []
    ensures var r := CloseActive(b, caps);
      && Valid(r)
      && r.tabs != []
      && b.tabCounter <= r.tabCounter
      && forall x :: x in IssuedIds(b.tabCounter) && HasTab(r.tabs, x) ==> HasTab(b.tabs, x)
  {
    if HasActive(b) {
      CloseTabKeepsValid(b, b.activeTabId.value, caps);
    }
  }

  /** `after` equals `before` except that the tabs named `id` are replaced through `f`. */
  ghost predicate ChangedOnly(before: seq<Tab>, after: seq<Tab>, id: string, f: Tab -> Tab) {
    && |after| == |before|
    && forall k :: 0 <= k < |before| ==> after[k] == if before[k].id == id then f(before[k]) else before[k]
  }

  /** Same ids at the same positions. */
  ghost predicate SameIds(before: seq<Tab>, after: seq<Tab>) {
    && |after| == |before|
    && forall k :: 0 <= k < |before| ==> after[k].id == before[k].id
  }

  lemma SameIdsSameTabs(before: seq<Tab>, after: seq<Tab>)
    requires SameIds(before, after)
    ensures forall x :: HasTab(after, x) <==> HasTab(before, x)
  {
    forall x ensures HasTab(after, x) <==> HasTab(before, x) {
      if HasTab(before, x) {
        var j :| 0 <= j < |before| && before[j].id == x;
        assert after[j].id == x;
      }
      if HasTab(after, x) {
        var j :| 0 <= j < |after| && after[j].id == x;
        assert before[j].id == x;
      }
    }
  }

  /** Overwriting the record found for `id` by one with the same id: with unique ids it is the only record named `id`. */
  lemma ReplaceFound(b: Browser, id: string, t: Tab)
    requires Valid(b) && HasTab(b.tabs, id) && t.id == id
    ensures var i := IndexOf(b.tabs, id);
      var r := b.(tabs := b.tabs[i := t]);
      && Valid(r)
      && SameIds(b.tabs, r.tabs)
      && (forall k :: 0 <= k < |b.tabs| && b.tabs[k].id == id ==> k == i)
  {
    var i := IndexOf(b.tabs, id);
    var r := b.(tabs := b.tabs[i := t]);
    forall k | 0 <= k < |b.tabs| && k != i ensures b.tabs[k].id != id {
      if k > i { assert b.tabs[i].id != b.tabs[k].id; }
    }
    assert SameIds(b.tabs, r.tabs);
    SameIdsSameTabs(b.tabs, r.tabs);
  }

  /** `updateTabTitle` writes the title of the tab with that id and nothing else; an unknown id changes nothing. */
  lemma SetTitleChangesOnlyTitle(b: Browser, id: string, title: string)
    requires Valid(b)
    ensures var r := SetTitle(b, id, title);
      && Valid(r)
      && SameIds(b.tabs, r.tabs)
      && ChangedOnly(b.tabs, r.tabs, id, (t: Tab) => t.(title := title))
      && r.(tabs := b.tabs) == b
      && (!HasTab(b.tabs, id) ==> r == b)
  {
    var i := IndexOf(b.tabs, id);
    if i != -1 {
      ReplaceFound(b, id, b.tabs[i].(title := title));
    }
  }

  /** `updateTabLoading` writes the loading flag of the tab with that id and nothing else. */
  lemma SetLoadingChangesOnlyLoading(b: Browser, id: string, isLoading: bool)
    requires Valid(b)
    ensures var r := SetLoading(b, id, isLoading);
      && Valid(r)
      && SameIds(b.tabs, r.tabs)
      && ChangedOnly(b.tabs, r.tabs, id, (t: Tab) => t.(isLoading := isLoading))
      && r.(tabs := b.tabs) == b
      && (!HasTab(b.tabs, id) ==> r == b)
  {
    var i := IndexOf(b.tabs, id);
    if i != -1 {
      ReplaceFound(b, id, b.tabs[i].(isLoading := isLoading));
    }
  }

  /**
   * `updateTabUrl` writes the url of the tab with that id and nothing else,
   * then brings the button flags in line with the active webview.
   */
  lemma SetUrlChangesOnlyUrl(b: Browser, id: string, url: string, caps: Surfaces)
    requires Valid(b)
    ensures var r := SetUrl(b, id, url, caps);
      && Valid(r)
      && SameIds(b.tabs, r.tabs)
      && ChangedOnly(b.tabs, r.tabs, id, (t: Tab) => t.(url := url))
      && r.(tabs := b.tabs) == RefreshButtons(b, caps)
  {
    var i := IndexOf(b.tabs, id);
    if i != -1 {
      ReplaceFound(b, id, b.tabs[i].(url := url));
    }
  }

  /** With an active tab, the button flags are the negated history capability of its webview. */
  lemma ButtonsMirrorActiveSurface(b: Browser, caps: Surfaces)
    requires Valid(b) && b.activeTabId.Some?
    ensures var r := RefreshButtons(b, caps);
      && r.backDisabled == !caps(b.activeTabId.value).canGoBack
      && r.forwardDisabled == !caps(b.activeTabId.value).canGoForward
      && r.(backDisabled := b.backDisabled, forwardDisabled := b.forwardDisabled) == b
  {
  }

  /**
   * The back and forward commands act exactly when the matching button is
   * enabled, and then only issue that one command to the active webview.
   */
  lemma HistoryCommandsFollowButtons(b: Browser, caps: Surfaces)
    requires Valid(b)
    ensures var shown := RefreshButtons(b, caps);
      && (GoBack(b, caps) != b <==> b.activeTabId.Some? && !shown.backDisabled)
      && (GoForward(b, caps) != b <==> b.activeTabId.Some? && !shown.forwardDisabled)
      && (GoBack(b, caps) != b ==> GoBack(b, caps) == b.(surfaces := b.surfaces + [Back(b.activeTabId.value)]))
      && (GoForward(b, caps) != b ==> GoForward(b, caps) == b.(surfaces := b.surfaces + [Forward(b.activeTabId.value)]))
      && (b.activeTabId.None? ==> GoBack(b, caps) == b && GoForward(b, caps) == b && Reload(b) == b)
  {
    if GoBack(b, caps) != b {
      assert |GoBack(b, caps).surfaces| == |b.surfaces| + 1;
    }
    if GoForward(b, caps) != b {
      assert |GoForward(b, caps).surfaces| == |b.surfaces| + 1;
    }
    if HasActiveSurface(b) && caps(b.activeTabId.value).canGoBack {
      assert |GoBack(b, caps).surfaces| == |b.surfaces| + 1;
    }
    if HasActiveSurface(b) && caps(b.activeTabId.value).canGoForward {
      assert |GoForward(b, caps).surfaces| == |b.surfaces| + 1;
    }
  }

  // ---------------------------------------------------------------- any sequence of operations

  /** Everything the renderer can be asked to do once it is running. */
  datatype Command =
    | NewTab
    | Close(id: string)
    | CloseActiveTab
    | Switch(id: string)   // a click on a tab: only tabs on display can be clicked
    | NavigateActiveTab(url: string)
    | NavigateSelected(selectedUrl: string)
    | GoBackCommand
    | GoForwardCommand
    | ReloadCommand
    | Event(tabId: string, ev: SurfaceEvent)

  function Apply(b: Browser, c: Command, caps: Surfaces): Browser {
    match c
    case NewTab => CreateTab(b, caps)
    case Close(id) => CloseTab(b, id, caps)
    case CloseActiveTab => CloseActive(b, caps)
    case Switch(id) => if HasTab(b.tabs, id) then SwitchTo(b, id, caps) else b
    case NavigateActiveTab(url) => NavigateActive(b, url)
    case NavigateSelected(url) => NavigateToSelected(b, url)
    case GoBackCommand => GoBack(b, caps)
    case GoForwardCommand => GoForward(b, caps)
    case ReloadCommand => Reload(b)
    case Event(id, ev) => OnSurfaceEvent(b, id, ev, caps)
  }

  /**
   * The commands in order; `caps(k)` is what the webviews report while the
   * `k`-th command runs, since their histories change as they navigate.
   */
  function Run(b: Browser, cs: seq<Command>, caps: nat -> Surfaces): Browser
    decreases |cs|
  {
    if cs == [] then b else Run(Apply(b, cs[0], caps(0)), cs[1..], k => caps(k + 1))
  }

  /** The invariant-keeping facts one command provides, as a relation between the session before and after it. */
  ghost predicate Step(b: Browser, r: Browser) {
    && Valid(r)
    && r.tabs != []
    && b.tabCounter <= r.tabCounter
    && forall x :: x in IssuedIds(b.tabCounter) && HasTab(r.tabs, x) ==> HasTab(b.tabs, x)
  }

  lemma CreateTabStep(b: Browser, caps: Surfaces)
    requires Valid(b)
    ensures Step(b, CreateTab(b, caps))
  {
    CreateTabSpec(b, caps);
    var r := CreateTab(b, caps);
    forall x | x in IssuedIds(b.tabCounter) && HasTab(r.tabs, x) ensures HasTab(b.tabs, x) {
      var k :| 0 <= k < |r.tabs| && r.tabs[k].id == x;
      if k < |b.tabs| {
        assert b.tabs[k].id == x;
      }
    }
  }

  /** Events rewrite one field of one tab: ids, order, counter and active tab stay. */
  lemma EventStep(b: Browser, id: string, ev: SurfaceEvent, caps: Surfaces)
    requires Valid(b) && b.tabs != []
    ensures Step(b, OnSurfaceEvent(b, id, ev, caps))
  {
    match ev {
      case DomReady => SetLoadingChangesOnlyLoading(b, id, false);
      case DidStartLoading => SetLoadingChangesOnlyLoading(b, id, true);
      case DidStopLoading => SetLoadingChangesOnlyLoading(b, id, false);
      case PageTitleUpdated(title) => SetTitleChangesOnlyTitle(b, id, title);
      case DidNavigate(url) => SetUrlChangesOnlyUrl(b, id, url, caps);
      case DidNavigateInPage(url) => SetUrlChangesOnlyUrl(b, id, url, caps);
    }
    SameIdsSameTabs(b.tabs, OnSurfaceEvent(b, id, ev, caps).tabs);
  }

  /**
   * One command keeps the invariant and the session non-empty, never lowers
   * the counter, and never brings back an id issued before it.
   */
  lemma ApplyKeepsValid(b: Browser, c: Command, caps: Surfaces)
    requires Valid(b) && b.tabs != []
    ensures Step(b, Apply(b, c, caps))
  {
    match c
    case NewTab => CreateTabStep(b, caps);
    case Close(id) => CloseTabKeepsValid(b, id, caps);
    case CloseActiveTab => CloseActiveKeepsValid(b, caps);
    case Event(id, ev) => EventStep(b, id, ev, caps);
    case _ =>
  }

  /** After any sequence of operations on a running session, the session is valid and not empty. */
  lemma {:induction false} RunKeepsValid(b: Browser, cs: seq<Command>, caps: nat -> Surfaces)
    requires Valid(b) && b.tabs != []
    ensures Valid(Run(b, cs, caps)) && Run(b, cs, caps).tabs != []
    decreases |cs|
  {
    if cs != [] {
      ApplyKeepsValid(b, cs[0], caps(0));
      RunKeepsValid(Apply(b, cs[0], caps(0)), cs[1..], k => caps(k + 1));
    }
  }

  /** An id that was issued and is no longer held stays gone, whatever happens next. */
  lemma {:induction false} RunNeverRevives(b: Browser, x: string, cs: seq<Command>, caps: nat -> Surfaces)
    requires Valid(b) && b.tabs != []
    requires x in IssuedIds(b.tabCounter) && !HasTab(b.tabs, x)
    ensures !HasTab(Run(b, cs, caps).tabs, x)
    decreases |cs|
  {
    if cs != [] {
      var next := Apply(b, cs[0], caps(0));
      ApplyKeepsValid(b, cs[0], caps(0));
      IssuedGrows(b.tabCounter, next.tabCounter);
      RunNeverRevives(next, x, cs[1..], k => caps(k + 1));
    }
  }

  /** A closed tab's id never comes back: no later tab reuses it. */
  lemma ClosedIdNeverReused(b: Browser, id: string, caps: Surfaces, cs: seq<Command>, later: nat -> Surfaces)
    requires Valid(b) && HasTab(b.tabs, id)
    ensures !HasTab(Run(CloseTab(b, id, caps), cs, later).tabs, id)
  {
    var k :| 0 <= k < |b.tabs| && b.tabs[k].id == id;
    assert id in IssuedIds(b.tabCounter);
    CloseTabKeepsValid(b, id, caps);
    var r := CloseTab(b, id, caps);
    IssuedGrows(b.tabCounter, r.tabCounter);
    if |b.tabs| >= 2 {
      CloseTabRemovesExactly(b, id, caps);
    } else {
      CloseOnlyTab(b, caps);
      assert r.tabs[0].id != id;
    }
    RunNeverRevives(r, id, cs, later);
  }

  /**
   * The selector lists every site, with its hostname as text, when every entry
   * parses; otherwise exactly the sites before the first bad entry.
   */
  lemma {:induction false} SiteOptionsSpec(parse: Parser, allowed: seq<string>)
    ensures var opts := SiteOptions(parse, allowed);
      && |opts| <= |allowed|
      && (forall k :: 0 <= k < |opts| ==>
            parse(allowed[k]).Some? && opts[k] == SiteOption(allowed[k], parse(allowed[k]).value.hostname))
      && (|opts| == |allowed| <==> Allowlist.AllParse(parse, allowed))
      && (|opts| < |allowed| ==> parse(allowed[|opts|]).None?)
    decreases |allowed|
  {
    if allowed != [] && parse(allowed[0]).Some? {
      var tail := allowed[1..];
      SiteOptionsSpec(parse, tail);
      var opts := SiteOptions(parse, allowed);
      assert opts == [SiteOption(allowed[0], parse(allowed[0]).value.hostname)] + SiteOptions(parse, tail);
      forall k | 1 <= k < |opts| ensures allowed[k] == tail[k - 1] && opts[k] == SiteOptions(parse, tail)[k - 1] {
      }
      if Allowlist.AllParse(parse, tail) {
        forall j | 0 <= j < |allowed| ensures parse(allowed[j]).Some? {
          if j > 0 { assert allowed[j] == tail[j - 1]; }
        }
      }
      if Allowlist.AllParse(parse, allowed) {
        forall j | 0 <= j < |tail| ensures parse(tail[j]).Some? {
          assert tail[j] == allowed[j + 1];
        }
      }
    }
  }

  /** Starting the renderer on a parsable allowlist lists every site and opens one fresh tab on the first. */
  lemma InitCreatesFirstTab(allowed: seq<string>, parse: Parser, caps: Surfaces)
    requires Allowlist.AllParse(parse, allowed)
    ensures var r := Init(Initial(), Some(allowed), parse, caps);
      && Valid(r)
      && |r.options| == |allowed|
      && r.tabs == [Tab("tab-1", NewTabTitle, DefaultUrl(allowed), false, false, false)]
      && r.activeTabId == Some("tab-1")
  {
    SiteOptionsSpec(parse, allowed);
    CreateTabSpec(Initial().(allowedWebsites := allowed, options := SiteOptions(parse, allowed)), caps);
    assert TabId(1) == "tab-1";
  }

  /** An allowlist entry that does not parse, or a failed request for the list, leaves the renderer without any tab. */
  lemma InitFailsWithoutTab(reply: Option<seq<string>>, parse: Parser, caps: Surfaces)
    requires reply.None? || !Allowlist.AllParse(parse, reply.value)
    ensures Init(Initial(), reply, parse, caps).tabs == []
    ensures Init(Initial(), reply, parse, caps).activeTabId == None
  {
  }
}
