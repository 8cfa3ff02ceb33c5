/**
 * The allowlist matcher: a URL may load when its hostname equals the
 * hostname of an allowed site or is a dot-separated subdomain of it. Scheme,
 * port and path are ignored.
 */
module Allowlist {
  import opened Wrappers
  import opened JsString
  import opened Platform

  /** The matcher's configuration: the URL parser and the allowed sites, in configured order. */
  datatype Policy = Policy(parse: Parser, allowed: seq<string>)

  /** `hostname === allowedHostname || hostname.endsWith('.' + allowedHostname)` */
  predicate HostMatches(host: string, allowedHost: string) {
    host == allowedHost || EndsWith(host, "." + allowedHost)
  }

  /**
   * A match is the hostname itself or something followed by a dot and the
   * hostname: a shared tail alone is not enough.
   */
  lemma HostMatchesIff(host: string, allowedHost: string)
    ensures HostMatches(host, allowedHost) <==>
      host == allowedHost
      || (|host| > |allowedHost| && host == host[..|host| - |allowedHost| - 1] + "." + allowedHost)
  {
    var n := |host| - |allowedHost| - 1;
    if |host| > |allowedHost| && host == host[..n] + "." + allowedHost {
      assert host[n..] == "." + allowedHost;
    }
    if EndsWith(host, "." + allowedHost) {
      assert host == host[..n] + host[n..];
    }
  }

  /** The examples the matcher is meant for, given `example.com` as the allowed hostname. */
  lemma SubdomainExamples()
    ensures HostMatches("example.com", "example.com")
    ensures HostMatches("sub.example.com", "example.com")
    ensures !HostMatches("notexample.com", "example.com")
    ensures !HostMatches("example.com.evil.org", "example.com")
    ensures !HostMatches("evil.com", "example.com")
  {
    assert "sub.example.com"[|"sub.example.com"| - |".example.com"|..] == ".example.com";
    assert "notexample.com"[|"notexample.com"| - |".example.com"|..][0] == 't';
    assert "example.com.evil.org"[|"example.com.evil.org"| - |".example.com"|..][0] == 'c';
    assert "evil.com" != "example.com";
  }

  /** The entry parses and its hostname admits `host`. */
  predicate MatchesEntry(parse: Parser, entry: string, host: string) {
    parse(entry).Some? && HostMatches(host, parse(entry).value.hostname)
  }

  /** Every entry before index `i` parses. */
  ghost predicate ParsesBefore(parse: Parser, allowed: seq<string>, i: nat)
    requires i <= |allowed|
  {
    forall j :: 0 <= j < i ==> parse(allowed[j]).Some?
  }

  /** Every entry parses (the case in which the scan cannot throw). */
  predicate AllParse(parse: Parser, allowed: seq<string>) {
    forall j :: 0 <= j < |allowed| ==> parse(allowed[j]).Some?
  }

  /** The scan reaches index `i`: every earlier entry parsed and did not match. */
  ghost predicate ReachedAt(parse: Parser, allowed: seq<string>, host: string, i: nat)
    requires i <= |allowed|
  {
    forall j :: 0 <= j < i ==> parse(allowed[j]).Some? && !HostMatches(host, parse(allowed[j]).value.hostname)
  }

  /**
   * `allowed.some(a => HostMatches(host, new URL(a).hostname))`, which stops at
   * the first match and throws at the first entry it reaches that does not
   * parse. `None` stands for the throw.
   */
  function Scan(parse: Parser, allowed: seq<string>, host: string): Option<bool>
    decreases |allowed|
  {
    if allowed == [] then Some(false)
    else match parse(allowed[0])
      case None => None
      case Some(entry) =>
        if HostMatches(host, entry.hostname) then Some(true) else Scan(parse, allowed[1..], host)
  }

  /** The scan answers true exactly when some entry matches and every entry before it parses. */
  lemma {:induction false} ScanFindsMatch(parse: Parser, allowed: seq<string>, host: string)
    ensures Scan(parse, allowed, host) == Some(true) <==>
      exists i :: 0 <= i < |allowed| && ParsesBefore(parse, allowed, i) && MatchesEntry(parse, allowed[i], host)
    decreases |allowed|
  {
    if allowed != [] {
      var tail := allowed[1..];
      ScanFindsMatch(parse, tail, host);
      if MatchesEntry(parse, allowed[0], host) {
        assert ParsesBefore(parse, allowed, 0);
      } else if parse(allowed[0]).None? {
        forall i | 0 < i < |allowed|
          ensures !ParsesBefore(parse, allowed, i)
        {
          assert parse(allowed[0]).None?;
        }
      } else {
        if Scan(parse, tail, host) == Some(true) {
          var i :| 0 <= i < |tail| && ParsesBefore(parse, tail, i) && MatchesEntry(parse, tail[i], host);
          assert tail[i] == allowed[i + 1];
          assert ParsesBefore(parse, allowed, i + 1) by {
            forall j | 0 <= j < i + 1 ensures parse(allowed[j]).Some? {
              if j > 0 { assert allowed[j] == tail[j - 1]; }
            }
          }
        }
        forall i | 0 < i < |allowed| && ParsesBefore(parse, allowed, i) && MatchesEntry(parse, allowed[i], host)
          ensures Scan(parse, tail, host) == Some(true)
        {
          assert allowed[i] == tail[i - 1];
          assert ParsesBefore(parse, tail, i - 1) by {
            forall j | 0 <= j < i - 1 ensures parse(tail[j]).Some? {
              assert tail[j] == allowed[j + 1];
            }
          }
        }
      }
    }
  }

  /** The scan throws exactly when it reaches an entry that does not parse. */
  lemma {:induction false} ScanThrows(parse: Parser, allowed: seq<string>, host: string)
    ensures Scan(parse, allowed, host).None? <==>
      exists i :: 0 <= i < |allowed| && ReachedAt(parse, allowed, host, i) && parse(allowed[i]).None?
    decreases |allowed|
  {
    if allowed != [] {
      var tail := allowed[1..];
      ScanThrows(parse, tail, host);
      if parse(allowed[0]).None? {
        assert ReachedAt(parse, allowed, host, 0);
      } else if MatchesEntry(parse, allowed[0], host) {
        forall i | 0 < i < |allowed|
          ensures !ReachedAt(parse, allowed, host, i)
        {
          assert HostMatches(host, parse(allowed[0]).value.hostname);
        }
      } else {
        if Scan(parse, tail, host).None? {
          var i :| 0 <= i < |tail| && ReachedAt(parse, tail, host, i) && parse(tail[i]).None?;
          assert tail[i] == allowed[i + 1];
          assert ReachedAt(parse, allowed, host, i + 1) by {
            forall j | 0 <= j < i + 1
              ensures parse(allowed[j]).Some? && !HostMatches(host, parse(allowed[j]).value.hostname)
            {
              if j > 0 { assert allowed[j] == tail[j - 1]; }
            }
          }
        }
        forall i | 0 < i < |allowed| && ReachedAt(parse, allowed, host, i) && parse(allowed[i]).None?
          ensures Scan(parse, tail, host).None?
        {
          assert allowed[i] == tail[i - 1];
          assert ReachedAt(parse, tail, host, i - 1) by {
            forall j | 0 <= j < i - 1
              ensures parse(tail[j]).Some? && !HostMatches(host, parse(tail[j]).value.hostname)
            {
              assert tail[j] == allowed[j + 1];
            }
          }
        }
      }
    }
  }

  /** With every entry parsable the scan always answers, and answers whether some entry matches. */
  lemma ScanWellFormed(parse: Parser, allowed: seq<string>, host: string)
    requires AllParse(parse, allowed)
    ensures Scan(parse, allowed, host).Some?
    ensures Scan(parse, allowed, host) == Some(true) <==>
      exists i :: 0 <= i < |allowed| && MatchesEntry(parse, allowed[i], host)
  {
    ScanFindsMatch(parse, allowed, host);
    ScanThrows(parse, allowed, host);
    if exists i :: 0 <= i < |allowed| && MatchesEntry(parse, allowed[i], host) {
      var i :| 0 <= i < |allowed| && MatchesEntry(parse, allowed[i], host);
      assert ParsesBefore(parse, allowed, i);
    }
  }

  /**
   * `isUrlAllowed(url)` of the main process: false for an empty URL, for a URL
   * that does not parse, and for a scan that throws (the exception is caught);
   * otherwise whether the scan finds a matching entry.
   */
  function IsUrlAllowed(p: Policy, url: string): (r: bool)
    ensures url == "" ==> !r
    ensures p.parse(url).None? ==> !r
    ensures p.allowed == [] ==> !r
  {
    if url == "" then false
    else match p.parse(url)
      case None => false
      case Some(u) => Scan(p.parse, p.allowed, u.hostname) == Some(true)
  }

  /** The full characterisation: the URL parses and some entry reached by the scan admits its hostname. */
  lemma IsUrlAllowedIff(p: Policy, url: string)
    ensures IsUrlAllowed(p, url) <==>
      url != "" && p.parse(url).Some?
      && exists i :: 0 <= i < |p.allowed| && ParsesBefore(p.parse, p.allowed, i)
                     && MatchesEntry(p.parse, p.allowed[i], p.parse(url).value.hostname)
  {
    if p.parse(url).Some? {
      ScanFindsMatch(p.parse, p.allowed, p.parse(url).value.hostname);
    }
  }

  /** For a well-formed allowlist: allowed iff the URL parses and its hostname matches some entry. */
  lemma IsUrlAllowedWellFormed(p: Policy, url: string)
    requires AllParse(p.parse, p.allowed)
    ensures IsUrlAllowed(p, url) <==>
      url != "" && p.parse(url).Some?
      && exists i :: 0 <= i < |p.allowed| && MatchesEntry(p.parse, p.allowed[i], p.parse(url).value.hostname)
  {
    if p.parse(url).Some? {
      ScanWellFormed(p.parse, p.allowed, p.parse(url).value.hostname);
    }
  }

  /**
   * A bad entry the scan reaches denies everything behind it: an unparsable
   * first entry denies every URL.
   */
  lemma UnparsableFirstEntryDeniesAll(p: Policy, url: string)
    requires p.allowed != [] && p.parse(p.allowed[0]).None?
    ensures !IsUrlAllowed(p, url)
  {
  }

  /**
   * Only the hostname decides: two URLs with the same hostname get the same
   * answer whatever their scheme, port or path.
   */
  lemma HostnameAlone(p: Policy, u1: string, u2: string)
    requires u1 != "" && u2 != ""
    requires p.parse(u1).Some? && p.parse(u2).Some?
    requires p.parse(u1).value.hostname == p.parse(u2).value.hostname
    ensures IsUrlAllowed(p, u1) == IsUrlAllowed(p, u2)
  {
  }

  /** The allowlist scenarios: one allowed site `https://example.com`. */
  lemma ExampleScenarios(p: Policy)
    requires p.allowed == ["https://example.com"]
    requires p.parse("https://example.com") == Some(UrlRecord("https:", "example.com"))
    requires p.parse("https://example.com/page") == Some(UrlRecord("https:", "example.com"))
    requires p.parse("https://sub.example.com") == Some(UrlRecord("https:", "sub.example.com"))
    requires p.parse("https://evil.com") == Some(UrlRecord("https:", "evil.com"))
    requires p.parse("https://notexample.com") == Some(UrlRecord("https:", "notexample.com"))
    requires p.parse("ftp://x") == Some(UrlRecord("ftp:", "x"))
    ensures IsUrlAllowed(p, "https://example.com/page")
    ensures IsUrlAllowed(p, "https://sub.example.com")
    ensures !IsUrlAllowed(p, "https://evil.com")
    ensures !IsUrlAllowed(p, "https://notexample.com")
    ensures !IsUrlAllowed(p, "ftp://x")
  {
    SubdomainExamples();
    assert !HostMatches("x", "example.com");
    assert p.allowed[1..] == [];
    assert Scan(p.parse, p.allowed, "evil.com") == Some(false);
    assert Scan(p.parse, p.allowed, "notexample.com") == Some(false);
    assert Scan(p.parse, p.allowed, "x") == Some(false);
  }
}
