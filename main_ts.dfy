/**
 * The main process of the TypeScript build (class `WeapApp`): the
 * configuration read from the environment, the request filter with its exemption
 * for local resources, the window-open handler of every web contents, and the
 * configuration queries. Unlike the JavaScript build nothing here catches a
 * parse error: a handler that meets an unparsable URL throws, which the
 * model writes as `None`.
 */
module MainTs {
  import opened Wrappers
  import opened JsString
  import opened Platform
  import opened Allowlist
  import MainJs

  const DefaultAllowedWebsites: string := "https://google.com,https://github.com"
  const DefaultAppName: string := "WEAP Browser"

  /** The two environment variables the configuration reads; `None` when unset. */
  datatype Env = Env(allowedWebsites: Option<string>, appName: Option<string>)

  datatype AppConfig = AppConfig(allowedWebsites: seq<string>, appName: string)

  /** `process.env.X || fallback`: an unset or empty variable gives the fallback. */
  function EnvOr(v: Option<string>, fallback: string): (r: string)
    ensures v.Some? && v.value != "" ==> r == v.value
    ensures v.None? || v.value == "" ==> r == fallback
  {
    if v.Some? && v.value != "" then v.value else fallback
  }

  /** `list.map(s => s.trim())` */
  function TrimAll(parts: seq<string>): (r: seq<string>)
    ensures |r| == |parts|
    ensures forall k :: 0 <= k < |parts| ==> r[k] == Trim(parts[k])
  {
    seq(|parts|, k requires 0 <= k < |parts| => Trim(parts[k]))
  }

  /** `loadConfig()`: the allowlist is the comma-separated source string, split and trimmed. */
  function LoadConfig(env: Env): (c: AppConfig)
    ensures |c.allowedWebsites| == Count(EnvOr(env.allowedWebsites, DefaultAllowedWebsites), ',') + 1
    ensures c.appName != ""
    ensures env.appName.Some? && env.appName.value != "" ==> c.appName == env.appName.value
    ensures env.appName.None? || env.appName.value == "" ==> c.appName == DefaultAppName
  {
    var source := EnvOr(env.allowedWebsites, DefaultAllowedWebsites);
    AppConfig(TrimAll(Split(source, ',')), EnvOr(env.appName, DefaultAppName))
  }

  /**
   * The configured list has one entry per comma-separated piece of its source,
   * in order: joining the untrimmed pieces gives the source back, and each
   * entry is its piece trimmed, holding no comma and no surrounding white space.
   */
  lemma LoadConfigPieces(env: Env)
    ensures var source := EnvOr(env.allowedWebsites, DefaultAllowedWebsites);
      var sites := LoadConfig(env).allowedWebsites;
      && |sites| == Count(source, ',') + 1
      && Join(Split(source, ','), ',') == source
      && forall k :: 0 <= k < |sites| ==>
           && sites[k] == Trim(Split(source, ',')[k])
           && ',' !in sites[k]
           && (sites[k] != [] ==> !IsWhiteSpace(sites[k][0]) && !IsWhiteSpace(sites[k][|sites[k]| - 1]))
  {
    var source := EnvOr(env.allowedWebsites, DefaultAllowedWebsites);
    JoinSplit(source, ',');
    var pieces := Split(source, ',');
    forall k | 0 <= k < |pieces| ensures ',' !in Trim(pieces[k]) {
      TrimKeepsCommaFree(pieces[k]);
    }
  }

  /** Trimming a piece without a comma leaves a string without a comma. */
  lemma TrimKeepsCommaFree(piece: string)
    requires ',' !in piece
    ensures ',' !in Trim(piece)
  {
    var r := Trim(piece);
    TrimInfix(piece);
    var i: nat :| OccursAt(piece, r, i) && AllWhiteSpace(piece[..i]) && AllWhiteSpace(piece[i + |r|..]);
    forall j | 0 <= j < |r| ensures r[j] != ',' {
      assert r[j] == piece[i + j];
    }
  }

  /** With neither variable set (or both empty), the defaults apply. */
  lemma LoadConfigDefaults(env: Env)
    requires env.allowedWebsites.None? || env.allowedWebsites.value == ""
    requires env.appName.None? || env.appName.value == ""
    ensures LoadConfig(env) == AppConfig(["https://google.com", "https://github.com"], "WEAP Browser")
  {
    var google := "https://google.com";
    var github := "https://github.com";
    DefaultSourceParts();
    DefaultSiteClean(google);
    DefaultSiteClean(github);
    TwoCleanEntries(google, github);
    assert EnvOr(env.allowedWebsites, DefaultAllowedWebsites) == google + [','] + github;
  }

  /** The default source is the two default sites around one comma. */
  lemma DefaultSourceParts()
    ensures DefaultAllowedWebsites == "https://google.com" + [','] + "https://github.com"
  {
  }

  /** Two entries free of commas and surrounding white space come out of the configuration as written. */
  lemma TwoCleanEntries(a: string, b: string)
    requires ',' !in a && ',' !in b
    requires a != [] && !IsWhiteSpace(a[0]) && !IsWhiteSpace(a[|a| - 1])
    requires b != [] && !IsWhiteSpace(b[0]) && !IsWhiteSpace(b[|b| - 1])
    ensures TrimAll(Split(a + [','] + b, ',')) == [a, b]
  {
    SplitAtSeparator(a, ',', b);
    SplitNoSeparator(b, ',');
    TrimUntouched(a);
    TrimUntouched(b);
    assert Split(a + [','] + b, ',') == [a, b];
  }

  /** The default sites hold only letters, `:`, `/` and `.`: no comma, and no white space at either end. */
  lemma DefaultSiteClean(s: string)
    requires s == "https://google.com" || s == "https://github.com"
    ensures ',' !in s
    ensures s != [] && !IsWhiteSpace(s[0]) && !IsWhiteSpace(s[|s| - 1])
  {
    forall k | 0 <= k < |s| ensures s[k] != ',' {
      assert s[k] in "abcdefghijklmnopqrstuvwxyz:/.";
    }
    assert s[0] == 'h' && s[|s| - 1] == 'm';
  }

  /** `file:` and `chrome-extension:` requests are let through whatever the allowlist says. */
  predicate IsLocalProtocol(protocol: string) {
    protocol == "file:" || protocol == "chrome-extension:"
  }

  /**
   * The `onBeforeRequest` filter: `Some(cancel)` when the callback is answered,
   * `None` when the handler throws first. It parses the request URL and scans
   * the allowlist BEFORE looking at the protocol, so either parse error
   * escapes even for a local URL; a local URL is never cancelled.
   */
  function RequestFilter(p: Policy, url: string): (cancel: Option<bool>)
    ensures cancel == Some(true) ==> p.parse(url).Some? && !IsLocalProtocol(p.parse(url).value.protocol)
    ensures cancel.Some? ==> p.parse(url).Some? && Scan(p.parse, p.allowed, p.parse(url).value.hostname).Some?
  {
    match p.parse(url)
    case None => None
    case Some(u) =>
      match Scan(p.parse, p.allowed, u.hostname)
      case None => None
      case Some(isAllowed) => Some(!(IsLocalProtocol(u.protocol) || isAllowed))
  }

  /** For a parsable URL and allowlist the filter always answers, and cancels exactly the non-local URLs no entry admits. */
  lemma RequestFilterWellFormed(p: Policy, url: string)
    requires AllParse(p.parse, p.allowed) && p.parse(url).Some?
    ensures RequestFilter(p, url).Some?
    ensures RequestFilter(p, url) == Some(true) <==>
      !IsLocalProtocol(p.parse(url).value.protocol)
      && !exists i :: 0 <= i < |p.allowed| && MatchesEntry(p.parse, p.allowed[i], p.parse(url).value.hostname)
  {
    ScanWellFormed(p.parse, p.allowed, p.parse(url).value.hostname);
  }

  /** The filter never cancels a local URL, and with a parsable allowlist it always lets one through. */
  lemma LocalRequestsPass(p: Policy, url: string)
    requires p.parse(url).Some? && IsLocalProtocol(p.parse(url).value.protocol)
    ensures RequestFilter(p, url) != Some(true)
    ensures AllParse(p.parse, p.allowed) ==> RequestFilter(p, url) == Some(false)
  {
    if AllParse(p.parse, p.allowed) {
      ScanWellFormed(p.parse, p.allowed, p.parse(url).value.hostname);
    }
  }

  /**
   * The two builds' request filters agree on every non-local, non-empty,
   * parsable URL once every allowlist entry parses.
   */
  lemma RequestFiltersAgree(p: Policy, url: string)
    requires AllParse(p.parse, p.allowed)
    requires url != "" && p.parse(url).Some? && !IsLocalProtocol(p.parse(url).value.protocol)
    ensures RequestFilter(p, url) == Some(MainJs.RequestCancel(p, url))
  {
    ScanWellFormed(p.parse, p.allowed, p.parse(url).value.hostname);
  }

  /**
   * The window-open handler installed on every web contents: when it returns,
   * it returns `deny`; it forwards `navigate-to(url)` to the renderer only for
   * an allowed URL while a main window exists. `None` when it throws.
   */
  function WindowOpen(p: Policy, hasMainWindow: bool, url: string): (r: Option<WindowOpenVerdict>)
    ensures r.Some? ==> r.value.action == Deny
  {
    match p.parse(url)
    case None => None
    case Some(u) =>
      match Scan(p.parse, p.allowed, u.hostname)
      case None => None
      case Some(isAllowed) =>
        Some(WindowOpenVerdict(Deny, if isAllowed && hasMainWindow then [NavigateTo(url)] else []))
  }

  /** What the window-open handler forwards, for a parsable URL and allowlist. */
  lemma WindowOpenForwards(p: Policy, hasMainWindow: bool, url: string)
    requires AllParse(p.parse, p.allowed) && p.parse(url).Some?
    ensures WindowOpen(p, hasMainWindow, url).Some?
    ensures WindowOpen(p, hasMainWindow, url).value.effects ==
      if hasMainWindow && exists i :: 0 <= i < |p.allowed| && MatchesEntry(p.parse, p.allowed[i], p.parse(url).value.hostname)
      then [NavigateTo(url)] else []
  {
    ScanWellFormed(p.parse, p.allowed, p.parse(url).value.hostname);
  }

  /** A URL made to open a window is never forwarded unless the allowlist admits it. */
  lemma WindowOpenNeverForwardsDenied(p: Policy, hasMainWindow: bool, url: string)
    requires url != ""
    requires !IsUrlAllowed(p, url)
    ensures WindowOpen(p, hasMainWindow, url).Some? ==> WindowOpen(p, hasMainWindow, url).value.effects == []
  {
  }

  /** The application object: its configuration and its main window. */
  class WeapApp {
    const parse: Parser
    var config: AppConfig
    var hasMainWindow: bool
    var effects: seq<Effect>

    function CurrentPolicy(): Policy
      reads this
    {
      Policy(parse, config.allowedWebsites)
    }

    /** The constructor loads the configuration; the window comes later. */
    constructor(parse: Parser, env: Env)
      ensures this.parse == parse
      ensures config == LoadConfig(env)
      ensures !hasMainWindow && effects == []
    {
      this.parse := parse;
      config := LoadConfig(env);
      hasMainWindow := false;
      effects := [];
    }

    /** `createMainWindow()` */
    method CreateMainWindow()
      modifies this`hasMainWindow
      ensures hasMainWindow
    {
      hasMainWindow := true;
    }

    /** The request filter installed by `setupSecurity`. */
    method OnBeforeRequest(url: string) returns (cancel: Option<bool>)
      ensures cancel == RequestFilter(CurrentPolicy(), url)
      ensures cancel == Some(true) ==> !IsLocalProtocol(parse(url).value.protocol)
    {
      cancel := RequestFilter(CurrentPolicy(), url);
    }

    /** The window-open handler installed by `setupSecurity`. */
    method OnWindowOpen(url: string) returns (action: Option<WindowAction>)
      modifies this`effects
      ensures action.Some? ==> action.value == Deny
      ensures var r := WindowOpen(CurrentPolicy(), hasMainWindow, url);
        action.Some? == r.Some?
        && effects == old(effects) + (if r.Some? then r.value.effects else [])
    {
      var r := WindowOpen(CurrentPolicy(), hasMainWindow, url);
      if r.Some? {
        effects := effects + r.value.effects;
        action := Some(r.value.action);
      } else {
        action := None;
      }
    }

    /** `get-allowed-websites`: the configured list, unchanged. */
    method GetAllowedWebsites() returns (sites: seq<string>)
      ensures sites == config.allowedWebsites
    {
      sites := config.allowedWebsites;
    }

    /** `get-app-config` */
    method GetAppConfig() returns (c: AppConfig)
      ensures c == config
    {
      c := config;
    }
  }
}
