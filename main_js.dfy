/**
 * The main process of the plain-JavaScript build: the allowlist loaded from
 * the configuration file, the three enforcement points wired into the main
 * window (`will-navigate`, the window-open handler, the network-request
 * filter) and the IPC handlers the renderer calls.
 */
module MainJs {
  import opened Wrappers
  import opened Platform
  import opened Allowlist

  /** The error text `load-url` reports for a denied URL. */
  const NotInWhitelist: string := "URL not in whitelist"

  /** The reply of `load-url`: `{success: true}` or `{success: false, error}`. */
  datatype LoadReply = LoadReply(success: bool, error: Option<string>)

  /**
   * What reading `configs/config.json` produced: no file, a read or JSON
   * error, or a parsed object whose `allowedWebsites` field is present or not.
   */
  datatype ConfigFile = Missing | Unreadable | Parsed(allowedWebsites: Option<seq<string>>)

  /**
   * The allowlist after `loadConfig`: a missing file keeps the current list,
   * an error empties it, a parsed file supplies its list or the empty list.
   */
  function ConfiguredWebsites(current: seq<string>, file: ConfigFile): (sites: seq<string>)
    ensures file.Missing? ==> sites == current
    ensures file.Unreadable? ==> sites == []
    ensures file.Parsed? && file.allowedWebsites.Some? ==> sites == file.allowedWebsites.value
    ensures file.Parsed? && file.allowedWebsites.None? ==> sites == []
  {
    match file
    case Missing => current
    case Unreadable => []
    case Parsed(list) => if list.Some? then list.value else []
  }

  /** `will-navigate`: a denied URL is vetoed and reported to the renderer; an allowed one passes untouched. */
  function WillNavigate(p: Policy, url: string): (r: NavigationVerdict)
    ensures r.prevented <==> !IsUrlAllowed(p, url)
    ensures r.prevented ==> r.effects == [NavigationBlocked(url)]
    ensures !r.prevented ==> r.effects == []
  {
    if !IsUrlAllowed(p, url) then NavigationVerdict(true, [NavigationBlocked(url)])
    else NavigationVerdict(false, [])
  }

  /**
   * The window-open handler: never opens a window; an allowed URL is loaded
   * into the main window instead, a denied one is reported.
   */
  function WindowOpen(p: Policy, url: string): (r: WindowOpenVerdict)
    ensures r.action == Deny
    ensures IsUrlAllowed(p, url) ==> r.effects == [LoadURL(url)]
    ensures !IsUrlAllowed(p, url) ==> r.effects == [NavigationBlocked(url)]
  {
    WindowOpenVerdict(Deny, if IsUrlAllowed(p, url) then [LoadURL(url)] else [NavigationBlocked(url)])
  }

  /** `onBeforeRequest`: the `cancel` flag handed to the callback. */
  function RequestCancel(p: Policy, url: string): (cancel: bool)
    ensures cancel <==> !IsUrlAllowed(p, url)
  {
    !IsUrlAllowed(p, url)
  }

  /** `load-url`: reports success for an allowed URL and the whitelist error otherwise. */
  function LoadUrl(p: Policy, url: string): (r: LoadReply)
    ensures r.success <==> IsUrlAllowed(p, url)
    ensures r.success ==> r.error == None
    ensures !r.success ==> r.error == Some(NotInWhitelist)
  {
    if IsUrlAllowed(p, url) then LoadReply(true, None) else LoadReply(false, Some(NotInWhitelist))
  }

  /** `navigate-back`: goes back and answers true only when the window exists and has history behind it. */
  function NavigateBack(hasWindow: bool, h: History): (r: HandlerReply)
    ensures r.returned <==> hasWindow && h.canGoBack
    ensures r.returned ==> r.effects == [WentBack]
    ensures !r.returned ==> r.effects == []
  {
    if hasWindow && h.canGoBack then HandlerReply(true, [WentBack]) else HandlerReply(false, [])
  }

  /** `navigate-forward`: goes forward and answers true only when the window exists and has history ahead. */
  function NavigateForward(hasWindow: bool, h: History): (r: HandlerReply)
    ensures r.returned <==> hasWindow && h.canGoForward
    ensures r.returned ==> r.effects == [WentForward]
    ensures !r.returned ==> r.effects == []
  {
    if hasWindow && h.canGoForward then HandlerReply(true, [WentForward]) else HandlerReply(false, [])
  }

  /** `reload`: reloads and answers true exactly when the window exists. */
  function Reload(hasWindow: bool): (r: HandlerReply)
    ensures r.returned <==> hasWindow
    ensures r.returned ==> r.effects == [Reloaded]
    ensures !r.returned ==> r.effects == []
  {
    if hasWindow then HandlerReply(true, [Reloaded]) else HandlerReply(false, [])
  }

  /**
   * The three enforcement points agree: a denied URL is vetoed by
   * `will-navigate`, never loaded by the window-open handler, cancelled by the
   * request filter and refused by `load-url`; an allowed URL passes all four.
   */
  lemma EnforcementPointsAgree(p: Policy, url: string)
    ensures !IsUrlAllowed(p, url) ==>
      && WillNavigate(p, url).prevented
      && NavigationBlocked(url) in WillNavigate(p, url).effects
      && LoadURL(url) !in WindowOpen(p, url).effects
      && NavigationBlocked(url) in WindowOpen(p, url).effects
      && RequestCancel(p, url)
      && LoadUrl(p, url) == LoadReply(false, Some(NotInWhitelist))
    ensures IsUrlAllowed(p, url) ==>
      && !WillNavigate(p, url).prevented
      && WillNavigate(p, url).effects == []
      && WindowOpen(p, url).effects == [LoadURL(url)]
      && !RequestCancel(p, url)
      && LoadUrl(p, url) == LoadReply(true, None)
  {
  }

  /**
   * The module state of the main process: the allowlist (`allowedWebsites`),
   * whether `mainWindow` has been created, and the effects performed on it so far.
   */
  class MainProcess {
    const parse: Parser
    var allowedWebsites: seq<string>
    var hasWindow: bool
    var effects: seq<Effect>

    function CurrentPolicy(): Policy
      reads this
    {
      Policy(parse, allowedWebsites)
    }

    /** Module load: an empty allowlist and no window. */
    constructor(parse: Parser)
      ensures this.parse == parse
      ensures allowedWebsites == [] && !hasWindow && effects == []
    {
      this.parse := parse;
      allowedWebsites := [];
      hasWindow := false;
      effects := [];
    }

    /** `loadConfig()`: assigns the allowlist from the configuration file. */
    method LoadConfig(file: ConfigFile)
      modifies this`allowedWebsites
      ensures allowedWebsites == ConfiguredWebsites(old(allowedWebsites), file)
    {
      match file {
        case Missing =>
        case Unreadable =>
          allowedWebsites := [];
        case Parsed(list) =>
          allowedWebsites := if list.Some? then list.value else [];
      }
    }

    /** `createWindow()`: reloads the configuration, then creates the main window. */
    method CreateWindow(file: ConfigFile)
      modifies this`allowedWebsites, this`hasWindow
      ensures allowedWebsites == ConfiguredWebsites(old(allowedWebsites), file)
      ensures hasWindow
    {
      LoadConfig(file);
      hasWindow := true;
    }

    /** The `will-navigate` callback; the answer is whether `preventDefault()` was called. */
    method OnWillNavigate(url: string) returns (prevented: bool)
      modifies this`effects
      ensures prevented <==> !IsUrlAllowed(CurrentPolicy(), url)
      ensures effects == old(effects) + WillNavigate(CurrentPolicy(), url).effects
    {
      var verdict := WillNavigate(CurrentPolicy(), url);
      prevented := verdict.prevented;
      effects := effects + verdict.effects;
    }

    /** The window-open handler. */
    method OnWindowOpen(url: string) returns (action: WindowAction)
      modifies this`effects
      ensures action == Deny
      ensures effects == old(effects) + WindowOpen(CurrentPolicy(), url).effects
    {
      var verdict := WindowOpen(CurrentPolicy(), url);
      effects := effects + verdict.effects;
      action := verdict.action;
    }

    /** The `onBeforeRequest` filter: the request is cancelled exactly when its URL is denied. */
    method OnBeforeRequest(url: string) returns (cancel: bool)
      ensures cancel <==> !IsUrlAllowed(CurrentPolicy(), url)
    {
      cancel := RequestCancel(CurrentPolicy(), url);
    }

    /** `get-allowed-websites`: the allowlist as loaded. */
    method HandleGetAllowedWebsites() returns (sites: seq<string>)
      ensures sites == allowedWebsites
    {
      sites := allowedWebsites;
    }

    /** `load-url` */
    method HandleLoadUrl(url: string) returns (reply: LoadReply)
      ensures reply.success <==> IsUrlAllowed(CurrentPolicy(), url)
      ensures reply == LoadUrl(CurrentPolicy(), url)
    {
      reply := LoadUrl(CurrentPolicy(), url);
    }

    /** `navigate-back`, with the window's history as reported by its web contents. */
    method HandleNavigateBack(h: History) returns (ok: bool)
      modifies this`effects
      ensures ok <==> hasWindow && h.canGoBack
      ensures effects == old(effects) + NavigateBack(hasWindow, h).effects
    {
      var reply := NavigateBack(hasWindow, h);
      effects := effects + reply.effects;
      ok := reply.returned;
    }

    /** `navigate-forward` */
    method HandleNavigateForward(h: History) returns (ok: bool)
      modifies this`effects
      ensures ok <==> hasWindow && h.canGoForward
      ensures effects == old(effects) + NavigateForward(hasWindow, h).effects
    {
      var reply := NavigateForward(hasWindow, h);
      effects := effects + reply.effects;
      ok := reply.returned;
    }

    /** `reload` */
    method HandleReload() returns (ok: bool)
      modifies this`effects
      ensures ok <==> hasWindow
      ensures effects == old(effects) + Reload(hasWindow).effects
    {
      var reply := Reload(hasWindow);
      effects := effects + reply.effects;
      ok := reply.returned;
    }
  }
}
