/** The request guards `verify_hmac`, `verify_web_call` and
    `verify_webhook_call`. Each decorator is modelled as the decision its
    wrapper takes before (and instead of) running the wrapped view: abort
    with an HTTP status, run the view, or let a Python exception escape
    (Flask then answers 500). HMAC-SHA256, UTF-8 encoding and base64
    decoding are library calls; the model takes them as parameters. */
module Verification {
  import opened Basics
  import opened HexText
  import opened Redirects
  import opened QueryArgs
  import opened ShopName

  /** Exceptions that escape the wrappers. */
  datatype Exception =
    | AttributeError  // `None.encode` when SHOPIFY_SECRET is not set
    | TypeError       // `base64.b64decode(None)` when the webhook header is missing
    | ValueError      // text `base64.b64decode` rejects (bad padding or length, or non-ASCII)

  /** A Python call that either returns a value or raises. */
  datatype Outcome<T> = Returns(value: T) | Raises(error: Exception)

  /** What a wrapper does with a request. */
  datatype Decision = Abort(status: nat) | Delegate | Raise(error: Exception)

  /** The library calls the model does not compute. */
  datatype Crypto = Crypto(
    hmacSha256: (seq<byte>, seq<byte>) -> seq<byte>,  // hmac.new(key, msg, hashlib.sha256).digest()
    utf8: string -> seq<byte>,                         // str.encode('utf-8')
    b64decode: string -> Option<seq<byte>>)            // base64.b64decode; None when it raises

  const SHOP_KEY := "shop"

  /** The raw HMAC-SHA256 of `data` under the shared secret. */
  function Digest(crypto: Crypto, secret: string, data: seq<byte>): seq<byte> {
    crypto.hmacSha256(crypto.utf8(secret), data)
  }

  /** `verify_hmac(data, orig_hmac)`: compares the hex digest with the
      supplied text (`orig_hmac` may be `None`, which never compares equal). */
  function VerifyHmac(secret: Option<string>, crypto: Crypto, data: seq<byte>, orig: Option<string>): (r: Outcome<bool>)
    ensures r.Raises? <==> secret.None?
    ensures r.Raises? ==> r.error == AttributeError
    ensures r == Returns(true) <==>
      secret.Some? && orig.Some? && UnHex(orig.value) == Some(Digest(crypto, secret.value, data))
  {
    if secret.None? then Raises(AttributeError)
    else
      var digest := Digest(crypto, secret.value, data);
      HexEqualsMeansUnHex(digest, orig);
      Returns(orig == Some(Hex(digest)))
  }

  /** Comparing with the hex text of some bytes is reading the text back as hex. */
  lemma HexEqualsMeansUnHex(digest: seq<byte>, orig: Option<string>)
    ensures orig == Some(Hex(digest)) <==> orig.Some? && UnHex(orig.value) == Some(digest)
  {
    UnHexHex(digest);
    if orig.Some? && UnHex(orig.value).Some? {
      HexUnHex(orig.value);
    }
  }

  /** Upper-case hex, or any text that is not lower-case hex, never verifies. */
  lemma NonLowerHexNeverVerifies(secret: Option<string>, crypto: Crypto, data: seq<byte>, orig: string, i: nat)
    requires i < |orig| && !IsLowerHexDigit(orig[i])
    ensures VerifyHmac(secret, crypto, data, Some(orig)) != Returns(true)
  {
    if secret.Some? {
      assert orig != Hex(Digest(crypto, secret.value, data));
    }
  }

  // ---------------------------------------------------------------------------
  // verify_web_call

  /** The wrapper of `verify_web_call`, deciding on the request's query pairs. */
  function VerifyWebCall(cfg: Config, crypto: Crypto, query: seq<Param>): (d: Decision)
    ensures d.Raise? <==> cfg.secret.None?
    ensures d.Raise? ==> d.error == AttributeError
    ensures d.Abort? ==> d.status == 400 || d.status == 401
    ensures d == Abort(401) ==> Get(query, SHOP_KEY).Some? && !IsValidShop(Get(query, SHOP_KEY).value)
  {
    var supplied := Get(query, HMAC_KEY);
    var data := crypto.utf8(Message(query));
    match VerifyHmac(cfg.secret, crypto, data, supplied)
    case Raises(e) => Raise(e)
    case Returns(false) => Abort(400)
    case Returns(true) =>
      var shop := Get(query, SHOP_KEY);
      if shop.Some? && shop.value != "" && !IsValidShop(shop.value) then Abort(401) else Delegate
  }

  /** The `hmac` parameter is authentic: it is the lower-case hex of the
      HMAC of the signed message. */
  ghost predicate Authentic(cfg: Config, crypto: Crypto, query: seq<Param>)
    requires cfg.secret.Some?
  {
    var supplied := Get(query, HMAC_KEY);
    supplied.Some? && UnHex(supplied.value) == Some(Digest(crypto, cfg.secret.value, crypto.utf8(Message(query))))
  }

  /** The order of the checks: a missing secret raises; otherwise a bad
      HMAC gives 400 whatever the shop; otherwise a present, non-empty shop
      that does not start with a shop domain gives 401; otherwise the view runs. */
  lemma WebCallDecision(cfg: Config, crypto: Crypto, query: seq<Param>)
    ensures var d := VerifyWebCall(cfg, crypto, query);
      && (d == Raise(AttributeError) <==> cfg.secret.None?)
      && (d == Abort(400) <==> cfg.secret.Some? && !Authentic(cfg, crypto, query))
      && (d == Abort(401) <==>
            (&& cfg.secret.Some? && Authentic(cfg, crypto, query)
             && Get(query, SHOP_KEY).Some? && Get(query, SHOP_KEY).value != ""
             && !HasShopNamePrefix(Get(query, SHOP_KEY).value)))
      && (d == Delegate <==>
            (&& cfg.secret.Some? && Authentic(cfg, crypto, query)
             && (Get(query, SHOP_KEY).None? || Get(query, SHOP_KEY).value == ""
                 || HasShopNamePrefix(Get(query, SHOP_KEY).value))))
  {
    var shop := Get(query, SHOP_KEY);
    if shop.Some? {
      IsValidShopSpec(shop.value);
    }
  }

  /** An empty `shop` parameter is falsy in Python and skips the shop check,
      although the empty name is not a valid shop. */
  lemma EmptyShopSkipsCheck(cfg: Config, crypto: Crypto, query: seq<Param>)
    requires cfg.secret.Some? && Authentic(cfg, crypto, query)
    requires Get(query, SHOP_KEY) == Some("")
    ensures !IsValidShop("")
    ensures VerifyWebCall(cfg, crypto, query) == Delegate
  {
    WebCallDecision(cfg, crypto, query);
  }

  /** With an authentic HMAC, the shop's domain decides: text appended after
      a shop domain still lets the view run. */
  lemma ShopWithTrailingTextDelegates(cfg: Config, crypto: Crypto, query: seq<Param>, name: string, rest: string)
    requires cfg.secret.Some? && Authentic(cfg, crypto, query)
    requires IsShopName(name) && Get(query, SHOP_KEY) == Some(name + rest)
    ensures VerifyWebCall(cfg, crypto, query) == Delegate
  {
    TrailingTextAccepted(name, rest);
  }

  // ---------------------------------------------------------------------------
  // verify_webhook_call

  /** The wrapper of `verify_webhook_call`, deciding on the
      `X-Shopify-Hmac-Sha256` header (if sent) and the raw body. */
  function VerifyWebhookCall(cfg: Config, crypto: Crypto, header: Option<string>, body: seq<byte>): (d: Decision)
    ensures d.Abort? ==> d.status == 401
    ensures d.Raise? <==> header.None? || crypto.b64decode(header.value).None? || cfg.secret.None?
  {
    match header
    case None => Raise(TypeError)
    case Some(encoded) =>
      match crypto.b64decode(encoded)
      case None => Raise(ValueError)
      case Some(raw) =>
        match VerifyHmac(cfg.secret, crypto, body, Some(Hex(raw)))
        case Raises(e) => Raise(e)
        case Returns(ok) => if ok then Delegate else Abort(401)
  }

  /** A webhook runs its view exactly when the decoded header equals the
      body's HMAC (comparing hex texts is comparing bytes); a mismatch is 401,
      never 400. */
  lemma WebhookDecision(cfg: Config, crypto: Crypto, header: Option<string>, body: seq<byte>)
    ensures var d := VerifyWebhookCall(cfg, crypto, header, body);
      && (header.None? ==> d == Raise(TypeError))
      && (header.Some? && crypto.b64decode(header.value).None? ==> d == Raise(ValueError))
      && (d != Abort(400))
      && (header.Some? && crypto.b64decode(header.value).Some? ==>
            var raw := crypto.b64decode(header.value).value;
            && (cfg.secret.None? ==> d == Raise(AttributeError))
            && (cfg.secret.Some? ==>
                  (d == Delegate <==> Digest(crypto, cfg.secret.value, body) == raw) &&
                  (d == Abort(401) <==> Digest(crypto, cfg.secret.value, body) != raw)))
  {
    if header.Some? && crypto.b64decode(header.value).Some? && cfg.secret.Some? {
      var raw := crypto.b64decode(header.value).value;
      UnHexHex(raw);
    }
  }
}
