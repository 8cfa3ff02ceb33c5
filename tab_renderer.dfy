/**
 * The multi-tab renderer object (`WeapBrowser`): its fields are updated in
 * place by each method, as in the source, and every method is proved to
 * leave exactly the session that the matching function of TabSession
 * computes from the old one. The DOM is reduced to what the session records:
 * the selector's options, the two button flags and the commands given to the
 * webviews.
 */
module TabRenderer {
  import opened Wrappers
  import opened Platform
  import Allowlist
  import TabSession

  class WeapBrowser {
    /** `new URL(...)`, used when the selector is filled. */
    const parse: Parser
    var tabs: seq<TabSession.Tab>
    var activeTabId: Option<string>
    var tabCounter: nat
    var allowedWebsites: seq<string>
    var options: seq<TabSession.SiteOption>
    var backDisabled: bool
    var forwardDisabled: bool
    var surfaces: seq<TabSession.SurfaceCommand>

    /** The object's fields as one session value. */
    function State(): TabSession.Browser
      reads this
    {
      TabSession.Browser(tabs, activeTabId, tabCounter, allowedWebsites, options, backDisabled, forwardDisabled, surfaces)
    }

    /** The constructor's own assignments; `init()` is the separate method `Init`. */
    constructor(parse: Parser)
      ensures this.parse == parse
      ensures State() == TabSession.Initial()
      ensures TabSession.Valid(State())
    {
      this.parse := parse;
      tabs := [];
      activeTabId := None;
      tabCounter := 0;
      allowedWebsites := [];
      options := [];
      backDisabled := false;
      forwardDisabled := false;
      surfaces := [];
    }

    /**
     * `initializeUI()`: empties the selector and adds one option per site;
     * `ok` is false when `new URL(website)` throws, and the options added up to
     * then stay.
     */
    method InitializeUI() returns (ok: bool)
      modifies this`options
      ensures ok == Allowlist.AllParse(parse, allowedWebsites)
      ensures options == TabSession.SiteOptions(parse, allowedWebsites)
    {
      options := [];
      var i := 0;
      while i < |allowedWebsites|
        invariant 0 <= i <= |allowedWebsites|
        invariant forall j :: 0 <= j < i ==> parse(allowedWebsites[j]).Some?
        invariant options + TabSession.SiteOptions(parse, allowedWebsites[i..]) == TabSession.SiteOptions(parse, allowedWebsites)
        decreases |allowedWebsites| - i
      {
        var u := parse(allowedWebsites[i]);
        if u.None? {
          assert TabSession.SiteOptions(parse, allowedWebsites[i..]) == [];
          return false;
        }
        assert allowedWebsites[i..][1..] == allowedWebsites[i + 1..];
        options := options + [TabSession.SiteOption(allowedWebsites[i], u.value.hostname)];
        i := i + 1;
      }
      assert allowedWebsites[i..] == [];
      return true;
    }

    /** `init()`, given what the allowlist request resolved to. */
    method Init(reply: Option<seq<string>>, caps: TabSession.Surfaces)
      modifies this
      ensures State() == TabSession.Init(old(State()), reply, parse, caps)
      ensures TabSession.WellFormed(old(State())) ==> TabSession.WellFormed(State())
    {
      if reply.None? {
        return;
      }
      allowedWebsites := reply.value;
      var ok := InitializeUI();
      if !ok {
        return;
      }
      ghost var before := State();
      CreateNewTab(caps);
      if TabSession.WellFormed(before) {
        TabSession.CreateTabSpec(before, caps);
      }
    }

    /** `createNewTab()` */
    method CreateNewTab(caps: TabSession.Surfaces)
      modifies this
      ensures State() == TabSession.CreateTab(old(State()), caps)
      ensures TabSession.WellFormed(old(State())) ==> TabSession.Valid(State()) && tabs != []
    {
      ghost var before := State();
      tabCounter := tabCounter + 1;
      var id := TabSession.TabId(tabCounter);
      var url := TabSession.DefaultUrl(allowedWebsites);
      tabs := tabs + [TabSession.Tab(id, TabSession.NewTabTitle, url, false, false, false)];
      surfaces := surfaces + [TabSession.Attach(id, url)];
      assert tabs[|tabs| - 1].id == id;
      SwitchToTab(id, caps);
      if url != TabSession.BlankUrl {
        NavigateTab(id, url);
      }
      if TabSession.WellFormed(before) {
        TabSession.CreateTabSpec(before, caps);
      }
    }

    /** `switchToTab(id)`: the tab element must exist, or marking it active throws. */
    method SwitchToTab(id: string, caps: TabSession.Surfaces)
      requires TabSession.HasTab(tabs, id)
      modifies this
      ensures State() == TabSession.SwitchTo(old(State()), id, caps)
      ensures TabSession.WellFormed(old(State())) ==> TabSession.Valid(State())
    {
      activeTabId := Some(id);
      UpdateNavigationButtons(caps);
    }

    /** `updateNavigationButtons()` */
    method UpdateNavigationButtons(caps: TabSession.Surfaces)
      modifies this`backDisabled, this`forwardDisabled
      ensures State() == TabSession.RefreshButtons(old(State()), caps)
    {
      if TabSession.HasActive(State()) && TabSession.HasTab(tabs, activeTabId.value) {
        var h := caps(activeTabId.value);
        backDisabled := !h.canGoBack;
        forwardDisabled := !h.canGoForward;
      }
    }

    /** `closeTab(id)` */
    method CloseTab(id: string, caps: TabSession.Surfaces)
      modifies this
      ensures State() == TabSession.CloseTab(old(State()), id, caps)
      ensures TabSession.Valid(old(State())) && old(tabs) != [] ==> TabSession.Valid(State()) && tabs != []
    {
      ghost var before := State();
      var idx := TabSession.IndexOf(tabs, id);
      if idx == -1 {
        return;
      }
      tabs := tabs[..idx] + tabs[idx + 1..];
      surfaces := surfaces + [TabSession.Detach(id)];
      if activeTabId == Some(id) {
        if |tabs| > 0 {
          var next := tabs[if idx == 0 then 0 else idx - 1].id;
          assert TabSession.HasTab(tabs, next);
          SwitchToTab(next, caps);
        } else {
          activeTabId := None;
        }
      }
      assert State() == TabSession.RemoveTab(before, id, idx, caps);
      if |tabs| == 0 {
        CreateNewTab(caps);
      }
      if TabSession.Valid(before) && before.tabs != [] {
        TabSession.CloseTabKeepsValid(before, id, caps);
      }
    }

    /** `closeActiveTab()`, the handler of the `close-tab` menu command. */
    method CloseActiveTab(caps: TabSession.Surfaces)
      modifies this
      ensures State() == TabSession.CloseActive(old(State()), caps)
      ensures TabSession.Valid(old(State())) && old(tabs) != [] ==> TabSession.Valid(State()) && tabs != []
    {
      if TabSession.HasActive(State()) {
        CloseTab(activeTabId.value, caps);
      }
    }

    /** `navigateTab(id, url)` */
    method NavigateTab(id: string, url: string)
      modifies this`surfaces
      ensures State() == TabSession.NavigateTab(old(State()), id, url)
    {
      if TabSession.HasTab(tabs, id) {
        surfaces := surfaces + [TabSession.Navigate(id, url)];
      }
    }

    /** `navigateActiveTab(url)`, the handler of `navigate-to`. */
    method NavigateActiveTab(url: string)
      modifies this`surfaces
      ensures State() == TabSession.NavigateActive(old(State()), url)
    {
      if TabSession.HasActive(State()) {
        NavigateTab(activeTabId.value, url);
      }
    }

    /** `navigateToSelected()`, given the selector's value. */
    method NavigateToSelected(selectedUrl: string)
      modifies this`surfaces
      ensures State() == TabSession.NavigateToSelected(old(State()), selectedUrl)
    {
      if selectedUrl != "" && TabSession.HasActive(State()) {
        NavigateTab(activeTabId.value, selectedUrl);
      }
    }

    /** `goBack()` */
    method GoBack(caps: TabSession.Surfaces)
      modifies this`surfaces
      ensures State() == TabSession.GoBack(old(State()), caps)
    {
      if TabSession.HasActiveSurface(State()) && caps(activeTabId.value).canGoBack {
        surfaces := surfaces + [TabSession.Back(activeTabId.value)];
      }
    }

    /** `goForward()` */
    method GoForward(caps: TabSession.Surfaces)
      modifies this`surfaces
      ensures State() == TabSession.GoForward(old(State()), caps)
    {
      if TabSession.HasActiveSurface(State()) && caps(activeTabId.value).canGoForward {
        surfaces := surfaces + [TabSession.Forward(activeTabId.value)];
      }
    }

    /** `reload()` */
    method Reload()
      modifies this`surfaces
      ensures State() == TabSession.Reload(old(State()))
    {
      if TabSession.HasActiveSurface(State()) {
        surfaces := surfaces + [TabSession.ReloadTab(activeTabId.value)];
      }
    }

    /** `updateTabTitle(id, title)` */
    method UpdateTabTitle(id: string, title: string)
      modifies this`tabs
      ensures State() == TabSession.SetTitle(old(State()), id, title)
    {
      var i := TabSession.IndexOf(tabs, id);
      if i != -1 {
        tabs := tabs[i := tabs[i].(title := title)];
      }
    }

    /** `updateTabUrl(id, url)` */
    method UpdateTabUrl(id: string, url: string, caps: TabSession.Surfaces)
      modifies this`tabs, this`backDisabled, this`forwardDisabled
      ensures State() == TabSession.SetUrl(old(State()), id, url, caps)
    {
      var i := TabSession.IndexOf(tabs, id);
      if i != -1 {
        tabs := tabs[i := tabs[i].(url := url)];
      }
      UpdateNavigationButtons(caps);
    }

    /** `updateTabLoading(id, isLoading)` */
    method UpdateTabLoading(id: string, isLoading: bool)
      modifies this`tabs
      ensures State() == TabSession.SetLoading(old(State()), id, isLoading)
    {
      var i := TabSession.IndexOf(tabs, id);
      if i != -1 {
        tabs := tabs[i := tabs[i].(isLoading := isLoading)];
      }
    }

    /** A webview event of tab `id`, dispatched as the listeners of `createWebviewElement` do. */
    method HandleSurfaceEvent(id: string, ev: TabSession.SurfaceEvent, caps: TabSession.Surfaces)
      modifies this
      ensures State() == TabSession.OnSurfaceEvent(old(State()), id, ev, caps)
    {
      match ev {
        case DomReady => UpdateTabLoading(id, false);
        case DidStartLoading => UpdateTabLoading(id, true);
        case DidStopLoading => UpdateTabLoading(id, false);
        case PageTitleUpdated(title) => UpdateTabTitle(id, title);
        case DidNavigate(url) => UpdateTabUrl(id, url, caps);
        case DidNavigateInPage(url) => UpdateTabUrl(id, url, caps);
      }
    }
  }
}
