/**
 * The single-view renderer of the plain-JavaScript build: one webview, a row
 * of site buttons (one per allowed site), a URL input with a go button, and
 * notifications. The button row and the webview are reduced to what they
 * hold: each button's site, text and active flag, the webview's source, the
 * input's value and the notifications shown, in order.
 */
module SiteRenderer {
  import opened Wrappers
  import opened JsString
  import opened Platform
  import opened Allowlist
  import MainJs

  const NotWhitelistedNotice: string := "该网址不在白名单中！"
  const BlockedNoticePrefix: string := "访问被阻止: "
  const LoadFailedNotice: string := "页面加载失败！"
  /** The `did-fail-load` error code of a navigation the user cancelled. */
  const Aborted: int := -3

  /** `extractDomain(url)`: the hostname when the URL parses, the text itself otherwise. */
  function ExtractDomain(parse: Parser, url: string): (d: string)
    ensures parse(url).Some? ==> d == parse(url).value.hostname
    ensures parse(url).None? ==> d == url
  {
    match parse(url)
    case Some(u) => u.hostname
    case None => url
  }

  predicate HasWebScheme(url: string) {
    StartsWith(url, "http://") || StartsWith(url, "https://")
  }

  /** The scheme rule of `loadWebsite`: a URL without `http://` or `https://` gets `https://` in front. */
  function NormalizeScheme(url: string): (r: string)
    ensures HasWebScheme(r)
    ensures HasWebScheme(url) ==> r == url
    ensures !HasWebScheme(url) ==> r == "https://" + url
  {
    if !HasWebScheme(url) then "https://" + url else url
  }

  /** Normalising twice is normalising once. */
  lemma NormalizeIdempotent(url: string)
    ensures NormalizeScheme(NormalizeScheme(url)) == NormalizeScheme(url)
  {
  }

  /** The input survives as the tail of the normalised URL, and only a schemeless URL changes. */
  lemma NormalizeKeepsInput(url: string)
    ensures EndsWith(NormalizeScheme(url), url)
    ensures NormalizeScheme(url) == url <==> HasWebScheme(url)
  {
    var r := NormalizeScheme(url);
    if !HasWebScheme(url) {
      assert r[|r| - |url|..] == url;
      assert |r| == |url| + 8;
    }
  }

  /** The active rule of `loadWebsite`: the loaded domain and the button text, one containing the other. */
  predicate ButtonActive(domain: string, text: string) {
    Includes(domain, text) || Includes(text, domain)
  }

  /** The rule holds in both directions alike, and a button whose text is the domain is always active. */
  lemma ButtonActiveSymmetric(domain: string, text: string)
    ensures ButtonActive(domain, text) == ButtonActive(text, domain)
    ensures ButtonActive(domain, domain)
    ensures ButtonActive(domain, text) <==>
      (exists i: nat :: OccursAt(domain, text, i)) || (exists i: nat :: OccursAt(text, domain, i))
  {
    IncludesSelf(domain);
    IncludesIff(domain, text);
    IncludesIff(text, domain);
  }

  /**
   * Loading an allowed site that names its own scheme lights its own button,
   * since the button text and the loaded domain are the same.
   */
  lemma LoadedSiteButtonActive(parse: Parser, site: string)
    requires HasWebScheme(site)
    ensures ButtonActive(ExtractDomain(parse, NormalizeScheme(site)), ExtractDomain(parse, site))
  {
    IncludesSelf(ExtractDomain(parse, site));
  }

  /** A site button: the site it loads, its text, and whether it carries `active`. */
  datatype SiteButton = SiteButton(site: string, text: string, active: bool)

  /** The outcome of the go button. */
  datatype GoOutcome = Ignored | Load(url: string) | Rejected

  /**
   * The go button: the trimmed input is ignored when empty; otherwise the main
   * process is asked, with the trimmed (not yet normalised) text, and the site
   * is loaded only on success.
   */
  function GoAction(p: Policy, input: string): (o: GoOutcome)
    ensures o.Ignored? <==> Trim(input) == []
    ensures o.Load? <==> Trim(input) != [] && MainJs.LoadUrl(p, Trim(input)).success
    ensures o.Load? ==> o.url == Trim(input)
  {
    var url := Trim(input);
    if url == [] then Ignored
    else if MainJs.LoadUrl(p, url).success then Load(url)
    else Rejected
  }

  /** Input of white space alone does nothing; otherwise the answer follows the allowlist. */
  lemma GoActionCases(p: Policy, input: string)
    ensures GoAction(p, input).Ignored? <==> AllWhiteSpace(input)
    ensures !AllWhiteSpace(input) ==>
      (GoAction(p, input).Load? <==> IsUrlAllowed(p, Trim(input)))
  {
    TrimEmptyIff(input);
  }

  /**
   * The check runs before the scheme is added: a site typed without a scheme
   * that the URL parser refuses is rejected, though its normalised form may be
   * allowed.
   */
  lemma GoChecksRawInput(p: Policy, input: string)
    requires Trim(input) != [] && p.parse(Trim(input)).None?
    ensures GoAction(p, input) == Rejected
  {
  }

  /** The renderer's page state. */
  class SiteView {
    /** `new URL(...)` */
    const parse: Parser
    var allowedWebsites: seq<string>
    var buttons: seq<SiteButton>
    var webviewSrc: string
    var urlInput: string
    var notices: seq<string>

    /** Page load: nothing fetched, nothing shown. */
    constructor(parse: Parser)
      ensures this.parse == parse
      ensures allowedWebsites == [] && buttons == [] && webviewSrc == "" && urlInput == "" && notices == []
    {
      this.parse := parse;
      allowedWebsites := [];
      buttons := [];
      webviewSrc := "";
      urlInput := "";
      notices := [];
    }

    /** `renderWebsiteTabs()`: one button per site, in order, labelled with its domain; only the first is active. */
    method RenderWebsiteTabs()
      modifies this`buttons
      ensures |buttons| == |allowedWebsites|
      ensures forall i :: 0 <= i < |buttons| ==>
        buttons[i] == SiteButton(allowedWebsites[i], ExtractDomain(parse, allowedWebsites[i]), i == 0)
    {
      buttons := [];
      var i := 0;
      while i < |allowedWebsites|
        invariant 0 <= i <= |allowedWebsites|
        invariant |buttons| == i
        invariant forall j :: 0 <= j < i ==>
          buttons[j] == SiteButton(allowedWebsites[j], ExtractDomain(parse, allowedWebsites[j]), j == 0)
      {
        buttons := buttons + [SiteButton(allowedWebsites[i], ExtractDomain(parse, allowedWebsites[i]), i == 0)];
        i := i + 1;
      }
    }

    /**
     * `loadWebsite(url)`: the normalised URL goes to the webview and the input;
     * every button is then active exactly when the rule pairs its text with the
     * loaded domain. Sites and texts stay.
     */
    method LoadWebsite(url: string)
      modifies this`webviewSrc, this`urlInput, this`buttons
      ensures webviewSrc == NormalizeScheme(url) && urlInput == NormalizeScheme(url)
      ensures |buttons| == |old(buttons)|
      ensures forall i :: 0 <= i < |buttons| ==>
        buttons[i] == old(buttons)[i].(active := ButtonActive(ExtractDomain(parse, NormalizeScheme(url)), old(buttons)[i].text))
    {
      var target := NormalizeScheme(url);
      webviewSrc := target;
      urlInput := target;
      var domain := ExtractDomain(parse, target);
      var i := 0;
      while i < |buttons|
        invariant 0 <= i <= |buttons| && |buttons| == |old(buttons)|
        invariant webviewSrc == target && urlInput == target
        invariant forall j :: 0 <= j < i ==> buttons[j] == old(buttons)[j].(active := ButtonActive(domain, old(buttons)[j].text))
        invariant forall j :: i <= j < |buttons| ==> buttons[j] == old(buttons)[j]
      {
        buttons := buttons[i := buttons[i].(active := ButtonActive(domain, buttons[i].text))];
        i := i + 1;
      }
    }

    /**
     * `init()`, given what the allowlist request resolved to (`None`: it
     * rejected and `init` stopped there). The buttons are rendered and the first
     * site, if any, is loaded; a first site that names its scheme ends with its
     * own button active.
     */
    method Init(reply: Option<seq<string>>)
      modifies this`allowedWebsites, this`buttons, this`webviewSrc, this`urlInput
      ensures reply.None? ==> unchanged(this)
      ensures reply.Some? ==> allowedWebsites == reply.value && |buttons| == |reply.value|
      ensures reply.Some? ==> forall i :: 0 <= i < |buttons| ==>
        buttons[i].site == reply.value[i] && buttons[i].text == ExtractDomain(parse, reply.value[i])
      ensures reply.Some? && reply.value == [] ==> webviewSrc == old(webviewSrc) && urlInput == old(urlInput)
      ensures reply.Some? && reply.value != [] ==>
        && webviewSrc == NormalizeScheme(reply.value[0])
        && urlInput == NormalizeScheme(reply.value[0])
        && forall i :: 0 <= i < |buttons| ==>
             buttons[i].active == ButtonActive(ExtractDomain(parse, NormalizeScheme(reply.value[0])), ExtractDomain(parse, reply.value[i]))
      ensures reply.Some? && reply.value != [] && HasWebScheme(reply.value[0]) ==> buttons[0].active
      ensures notices == old(notices)
    {
      if reply.None? {
        return;
      }
      allowedWebsites := reply.value;
      RenderWebsiteTabs();
      if |allowedWebsites| > 0 {
        LoadWebsite(allowedWebsites[0]);
        if HasWebScheme(allowedWebsites[0]) {
          LoadedSiteButtonActive(parse, allowedWebsites[0]);
        }
      }
    }

    /** The go button, answered by the main process holding the policy `p`. */
    method OnGo(p: Policy)
      modifies this`webviewSrc, this`urlInput, this`buttons, this`notices
      ensures allowedWebsites == old(allowedWebsites)
      ensures var o := GoAction(p, old(urlInput));
        && (o.Ignored? ==> unchanged(this))
        && (o.Rejected? ==>
              && notices == old(notices) + [NotWhitelistedNotice]
              && webviewSrc == old(webviewSrc) && buttons == old(buttons) && urlInput == old(urlInput))
        && (o.Load? ==>
              && webviewSrc == NormalizeScheme(o.url) && urlInput == NormalizeScheme(o.url)
              && notices == old(notices) && |buttons| == |old(buttons)|
              && forall i :: 0 <= i < |buttons| ==>
                   buttons[i] == old(buttons)[i].(active := ButtonActive(ExtractDomain(parse, NormalizeScheme(o.url)), old(buttons)[i].text)))
    {
      var o := GoAction(p, urlInput);
      match o {
        case Ignored =>
        case Rejected =>
          notices := notices + [NotWhitelistedNotice];
        case Load(url) =>
          LoadWebsite(url);
      }
    }

    /** The user types into the URL input. */
    method OnUrlTyped(text: string)
      modifies this`urlInput
      ensures urlInput == text
    {
      urlInput := text;
    }

    /** `did-stop-loading`: the input shows the URL the webview reports. */
    method OnDidStopLoading(currentUrl: string)
      modifies this`urlInput
      ensures urlInput == currentUrl
    {
      urlInput := currentUrl;
    }

    /** `did-fail-load`: a notice unless the user cancelled the load. */
    method OnDidFailLoad(errorCode: int)
      modifies this`notices
      ensures errorCode == Aborted ==> notices == old(notices)
      ensures errorCode != Aborted ==> notices == old(notices) + [LoadFailedNotice]
    {
      if errorCode != Aborted {
        notices := notices + [LoadFailedNotice];
      }
    }

    /** `navigation-blocked(url)` from the main process. */
    method OnNavigationBlocked(url: string)
      modifies this`notices
      ensures notices == old(notices) + [BlockedNoticePrefix + url]
    {
      notices := notices + [BlockedNoticePrefix + url];
    }
  }
}
