/** The three OAuth redirect-URL builders and the configuration they read.
    The configuration comes from environment variables read once at start-up;
    a variable that is not set is Python's `None`, which an f-string renders
    as the text `None`. */
module Redirects {
  import opened Basics
  import opened ShopName

  datatype Config = Config(
    secret: Option<string>,               // SHOPIFY_SECRET
    apiKey: Option<string>,               // SHOPIFY_API_KEY
    installRedirectUrl: Option<string>,   // INSTALL_REDIRECT_URL
    dashboardRedirectUrl: Option<string>, // DASHBOARD_REDIRECT_URL
    appName: Option<string>)              // APP_NAME

  /** How an f-string renders an optional configuration value. */
  function Show(v: Option<string>): string {
    match v
    case None => "None"
    case Some(text) => text
  }

  const SCHEME := "https://"

  /** Where the authority of an `https` URL ends; browsers read `\` as `/`. */
  predicate IsAuthorityEnd(c: char) {
    c == '/' || c == '?' || c == '#' || c == '\\'
  }

  /** The longest prefix of `s` without `/`, `?`, `#` or `\`. */
  function UpToAuthorityEnd(s: string): (r: string)
    ensures |r| <= |s| && r == s[..|r|]
    ensures forall i :: 0 <= i < |r| ==> !IsAuthorityEnd(r[i])
    ensures |r| == |s| || IsAuthorityEnd(s[|r|])
  {
    if s == [] || IsAuthorityEnd(s[0]) then "" else [s[0]] + UpToAuthorityEnd(s[1..])
  }

  /** The authority of an `https://` URL: everything between the scheme and
      the first delimiter. It may hold user information (before `@`) and a
      port (after `:`) besides the host. */
  function Authority(url: string): (a: Option<string>)
    ensures a.Some? ==> |SCHEME| + |a.value| <= |url| && url[|SCHEME|..|SCHEME| + |a.value|] == a.value
  {
    if |url| >= |SCHEME| && url[..|SCHEME|] == SCHEME then Some(UpToAuthorityEnd(url[|SCHEME|..])) else None
  }

  /** `host` read as an authority is a host alone: it holds no delimiter,
      no user information and no port. */
  predicate IsBareHost(host: string) {
    forall i :: 0 <= i < |host| ==> !IsAuthorityEnd(host[i]) && host[i] != '@' && host[i] != ':'
  }

  /** A whole shop name without its optional trailing `/` is a bare host. */
  lemma ShopNameIsBareHost(p: string)
    requires IsShopName(p) && p[|p| - 1] != '/'
    ensures IsBareHost(p)
  {
    var n: nat :| IsShopNameWithLabel(p, n);
    forall i | n <= i < |p|
      ensures p[i] == SUFFIX[i - n]
    {
      assert p[n..n + |SUFFIX|][i - n] == p[i];
    }
  }

  /** Reading the authority stops at the first delimiter after a bare host. */
  lemma {:induction false} UpToAuthorityEndOfHost(host: string, c: char, rest: string)
    requires IsBareHost(host) && IsAuthorityEnd(c)
    ensures UpToAuthorityEnd(host + [c] + rest) == host
  {
    if host != [] {
      UpToAuthorityEndOfHost(host[1..], c, rest);
      assert (host + [c] + rest)[1..] == host[1..] + [c] + rest;
      assert [host[0]] + host[1..] == host;
    }
  }

  /** The authority of `https://host/...` is `host` when `host` is a bare host. */
  lemma AuthorityOf(host: string, path: string)
    ensures IsBareHost(host) ==> Authority(SCHEME + host + "/" + path) == Some(host)
  {
    if IsBareHost(host) {
      var url := SCHEME + host + "/" + path;
      assert url[..|SCHEME|] == SCHEME;
      assert url[|SCHEME|..] == host + ['/'] + path;
      UpToAuthorityEndOfHost(host, '/', path);
    }
  }

  // ---------------------------------------------------------------------------
  // generate_install_redirect_url

  /** The query string of the install URL. */
  function InstallQuery(cfg: Config, scopes: seq<string>, nonce: string, accessMode: seq<string>): string {
    var scopesString := Join(",", scopes);
    var accessModeString := Join(",", accessMode);
    "client_id=" + Show(cfg.apiKey) + "&scope=" + scopesString + "&redirect_uri=" + Show(cfg.installRedirectUrl)
      + "&state=" + nonce + "&grant_options[]=" + accessModeString
  }

  /** The shop's OAuth authorize URL: the shop's host, the authorize path and
      the query string. */
  function InstallRedirectUrl(cfg: Config, shop: string, scopes: seq<string>, nonce: string, accessMode: seq<string>): (url: string)
    ensures |SCHEME| + |shop| <= |url| && url[..|SCHEME| + |shop|] == SCHEME + shop
    ensures url[|SCHEME| + |shop|..] == "/admin/oauth/authorize?" + InstallQuery(cfg, scopes, nonce, accessMode)
    ensures IsBareHost(shop) ==> Authority(url) == Some(shop)
  {
    var query := InstallQuery(cfg, scopes, nonce, accessMode);
    var url := SCHEME + shop + "/admin/oauth/authorize?" + query;
    AuthorityOf(shop, "admin/oauth/authorize?" + query);
    Glue(SCHEME + shop, "/", "admin/oauth/authorize?", query);
    assert "/" + "admin/oauth/authorize?" == "/admin/oauth/authorize?";
    url
  }

  /** The five `&`-separated fields of the install URL's query, in order. */
  function InstallQueryFields(cfg: Config, scopes: seq<string>, nonce: string, accessMode: seq<string>): seq<string> {
    [ "client_id=" + Show(cfg.apiKey),
      "scope=" + Join(",", scopes),
      "redirect_uri=" + Show(cfg.installRedirectUrl),
      "state=" + nonce,
      "grant_options[]=" + Join(",", accessMode) ]
  }

  /** Splitting the install URL's query at `&` gives back its five fields
      when no value holds `&`, and splitting the scope and access-mode fields
      at `,` gives back the lists in their original order when no item holds `,`. */
  lemma {:induction false} InstallUrlRoundTrip(cfg: Config, scopes: seq<string>, nonce: string, accessMode: seq<string>)
    requires '&' !in Show(cfg.apiKey) && '&' !in Show(cfg.installRedirectUrl) && '&' !in nonce
    requires forall s :: s in scopes ==> '&' !in s
    requires forall s :: s in accessMode ==> '&' !in s
    ensures Split('&', InstallQuery(cfg, scopes, nonce, accessMode)) == InstallQueryFields(cfg, scopes, nonce, accessMode)
    ensures |scopes| > 0 && (forall s :: s in scopes ==> ',' !in s) ==> Split(',', Join(",", scopes)) == scopes
    ensures |accessMode| > 0 && (forall s :: s in accessMode ==> ',' !in s) ==> Split(',', Join(",", accessMode)) == accessMode
  {
    var fields := InstallQueryFields(cfg, scopes, nonce, accessMode);
    JoinAvoids('&', ",", scopes);
    JoinAvoids('&', ",", accessMode);
    assert forall f :: f in fields ==> '&' !in f by {
      assert fields == [fields[0], fields[1], fields[2], fields[3], fields[4]];
    }
    InstallQueryIsJoin(cfg, scopes, nonce, accessMode);
    SplitJoin('&', fields);
    if |scopes| > 0 && (forall s :: s in scopes ==> ',' !in s) {
      SplitJoin(',', scopes);
    }
    if |accessMode| > 0 && (forall s :: s in accessMode ==> ',' !in s) {
      SplitJoin(',', accessMode);
    }
  }

  lemma InstallQueryIsJoin(cfg: Config, scopes: seq<string>, nonce: string, accessMode: seq<string>)
    ensures Join("&", InstallQueryFields(cfg, scopes, nonce, accessMode)) == InstallQuery(cfg, scopes, nonce, accessMode)
  {
    var a := "client_id=" + Show(cfg.apiKey);
    var b := "scope=" + Join(",", scopes);
    var c := "redirect_uri=" + Show(cfg.installRedirectUrl);
    var d := "state=" + nonce;
    var e := "grant_options[]=" + Join(",", accessMode);
    var s1 := a + "&scope=" + Join(",", scopes);
    var s2 := s1 + "&redirect_uri=" + Show(cfg.installRedirectUrl);
    var s3 := s2 + "&state=" + nonce;
    var s4 := s3 + "&grant_options[]=" + Join(",", accessMode);
    assert Join("&", [a, b]) == s1 by {
      JoinSnoc("&", [a], b);
      assert [a] + [b] == [a, b];
      Glue(a, "&", "scope=", Join(",", scopes));
    }
    assert Join("&", [a, b, c]) == s2 by {
      JoinSnoc("&", [a, b], c);
      assert [a, b] + [c] == [a, b, c];
      Glue(s1, "&", "redirect_uri=", Show(cfg.installRedirectUrl));
    }
    assert Join("&", [a, b, c, d]) == s3 by {
      JoinSnoc("&", [a, b, c], d);
      assert [a, b, c] + [d] == [a, b, c, d];
      Glue(s2, "&", "state=", nonce);
    }
    assert Join("&", [a, b, c, d, e]) == s4 by {
      JoinSnoc("&", [a, b, c, d], e);
      assert [a, b, c, d] + [e] == [a, b, c, d, e];
      Glue(s3, "&", "grant_options[]=", Join(",", accessMode));
    }
    assert InstallQueryFields(cfg, scopes, nonce, accessMode) == [a, b, c, d, e];
    assert InstallQuery(cfg, scopes, nonce, accessMode) == s4;
  }

  lemma Glue(x: string, l1: string, l2: string, y: string)
    ensures x + l1 + (l2 + y) == x + (l1 + l2) + y
  {
  }

  // ---------------------------------------------------------------------------
  // generate_dash_redirect_url

  /** The app's dashboard URL for a shop, carrying the OAuth state. */
  function DashRedirectUrl(cfg: Config, shop: string, nonce: string): (url: string)
    ensures |url| == |Show(cfg.dashboardRedirectUrl) + "/?shop=" + shop| + |"&state=" + nonce|
    ensures url[..|Show(cfg.dashboardRedirectUrl) + "/?shop=" + shop|] == Show(cfg.dashboardRedirectUrl) + "/?shop=" + shop
    ensures url[|Show(cfg.dashboardRedirectUrl) + "/?shop=" + shop|..] == "&state=" + nonce
    ensures '&' !in Show(cfg.dashboardRedirectUrl) && '&' !in shop && '&' !in nonce ==>
      Split('&', url) == [Show(cfg.dashboardRedirectUrl) + "/?shop=" + shop, "state=" + nonce]
  {
    var url := Show(cfg.dashboardRedirectUrl) + "/?shop=" + shop + "&state=" + nonce;
    DashUrlFields(Show(cfg.dashboardRedirectUrl) + "/?shop=" + shop, "state=" + nonce);
    assert url == (Show(cfg.dashboardRedirectUrl) + "/?shop=" + shop) + "&" + ("state=" + nonce);
    url
  }

  lemma DashUrlFields(head: string, tail: string)
    ensures '&' !in head && '&' !in tail ==> Split('&', head + "&" + tail) == [head, tail]
  {
    if '&' !in head && '&' !in tail {
      SplitJoin('&', [head, tail]);
      assert Join("&", [head, tail]) == head + "&" + tail;
    }
  }

  /** The dashboard URL always starts with the configured dashboard address. */
  lemma DashUrlStartsWithDashboard(cfg: Config, shop: string, nonce: string)
    ensures var url := DashRedirectUrl(cfg, shop, nonce);
      |Show(cfg.dashboardRedirectUrl)| < |url| && url[..|Show(cfg.dashboardRedirectUrl)|] == Show(cfg.dashboardRedirectUrl)
  {
  }

  // ---------------------------------------------------------------------------
  // generate_post_install_redirect_url

  /** The shop's admin page for this app. */
  function PostInstallRedirectUrl(cfg: Config, shop: string): (url: string)
    ensures |url| == |SCHEME| + |shop| + |"/admin/apps/" + Show(cfg.appName)|
    ensures url[..|SCHEME| + |shop|] == SCHEME + shop
    ensures url[|SCHEME| + |shop|..] == "/admin/apps/" + Show(cfg.appName)
    ensures IsBareHost(shop) ==> Authority(url) == Some(shop)
  {
    var url := SCHEME + shop + "/admin/apps/" + Show(cfg.appName);
    AuthorityOf(shop, "admin/apps/" + Show(cfg.appName));
    Glue(SCHEME + shop, "/", "admin/apps/", Show(cfg.appName));
    assert "/" + "admin/apps/" == "/admin/apps/";
    url
  }

  /** A redirect for a shop that `is_valid_shop` matched in full, without a
      trailing `/`, goes to that shop. */
  lemma ValidShopRedirectsToShop(cfg: Config, shop: string)
    requires IsShopName(shop) && shop[|shop| - 1] != '/'
    ensures Authority(PostInstallRedirectUrl(cfg, shop)) == Some(shop)
    ensures forall scopes, nonce, accessMode ::
      Authority(InstallRedirectUrl(cfg, shop, scopes, nonce, accessMode)) == Some(shop)
  {
    ShopNameIsBareHost(shop);
  }
}
