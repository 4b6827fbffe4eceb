/**
 * `getMetaMaskDeepLink`: the MetaMask mobile app link for the current page,
 * built from the page URL with one leading `http://` or `https://` removed
 * (the pattern `^https?:\/\/`, matched case-sensitively).
 */
module MobileLink {
  import opened JsString

  const DeepLinkBase: string := "https://metamask.app.link/dapp/"
  const Http: string := "http://"
  const Https: string := "https://"

  /** `url.replace(/^https?:\/\//, '')`. */
  function StripScheme(url: string): (r: string)
    ensures |r| <= |url| && url[|url| - |r|..] == r
    ensures var removed := url[..|url| - |r|];
      || (removed == Https && StartsWith(url, Https))
      || (removed == Http && StartsWith(url, Http))
      || (removed == [] && !StartsWith(url, Http) && !StartsWith(url, Https))
  {
    if StartsWith(url, Https) then url[|Https|..]
    else if StartsWith(url, Http) then url[|Http|..]
    else url
  }

  /** The redirect target for a mobile browser without an injected provider. */
  function DeepLink(url: string): (r: string)
    ensures StartsWith(r, DeepLinkBase)
    ensures r[|DeepLinkBase|..] == StripScheme(url)
  {
    DeepLinkBase + StripScheme(url)
  }

  /** The two schemes never both match: a URL starting `https://` does not start `http://`. */
  lemma SchemesExclusive(url: string)
    ensures !(StartsWith(url, Http) && StartsWith(url, Https))
  {
    if StartsWith(url, Https) {
      assert url[4] == url[..|Https|][4] == 's';
      if |Http| <= |url| {
        assert url[..|Http|][4] == url[4];
      }
    }
  }

  /** Whatever follows an `https://` or `http://` prefix is kept verbatim, even another scheme. */
  lemma StripSchemeOfPrefixed(rest: string)
    ensures StripScheme(Https + rest) == rest
    ensures StripScheme(Http + rest) == rest
    ensures DeepLink(Https + rest) == DeepLinkBase + rest
    ensures DeepLink(Http + rest) == DeepLinkBase + rest
  {
    assert (Https + rest)[..|Https|] == Https;
    assert (Http + rest)[..|Http|] == Http;
    SchemesExclusive(Http + rest);
  }

  /** A URL without either lowercase prefix is appended unchanged. */
  lemma DeepLinkOfUnprefixed(url: string)
    requires !StartsWith(url, Http) && !StartsWith(url, Https)
    ensures DeepLink(url) == DeepLinkBase + url
  {
  }

  /** The match is case-sensitive: an upper-case scheme stays in the link. */
  lemma SchemeMatchIsCaseSensitive(rest: string)
    ensures DeepLink("HTTPS://" + rest) == DeepLinkBase + "HTTPS://" + rest
    ensures DeepLink("HTTP://" + rest) == DeepLinkBase + "HTTP://" + rest
  {
    var u, v := "HTTPS://" + rest, "HTTP://" + rest;
    assert u[0] == 'H' && v[0] == 'H';
    assert !StartsWith(u, Https) && !StartsWith(u, Http) by {
      if |Http| <= |u| { assert u[..|Http|][0] == u[0]; }
      if |Https| <= |u| { assert u[..|Https|][0] == u[0]; }
    }
    assert !StartsWith(v, Https) && !StartsWith(v, Http) by {
      if |Http| <= |v| { assert v[..|Http|][0] == v[0]; }
      if |Https| <= |v| { assert v[..|Https|][0] == v[0]; }
    }
  }

  /** Only one prefix is removed: a second scheme after the first stays in the link. */
  lemma StripsOnlyOnce(rest: string)
    ensures DeepLink(Https + Http + rest) == DeepLinkBase + Http + rest
    ensures DeepLink(Https + Https + rest) == DeepLinkBase + Https + rest
    ensures DeepLink(Http + Http + rest) == DeepLinkBase + Http + rest
    ensures DeepLink(Http + Https + rest) == DeepLinkBase + Https + rest
  {
    StripSchemeOfPrefixed(Http + rest);
    StripSchemeOfPrefixed(Https + rest);
    assert Https + Http + rest == Https + (Http + rest);
    assert Https + Https + rest == Https + (Https + rest);
    assert Http + Http + rest == Http + (Http + rest);
    assert Http + Https + rest == Http + (Https + rest);
  }
}
