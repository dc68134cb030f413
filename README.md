# Shopify app helpers, modelled in Dafny

This project models `flask/helpers.py` of a Flask-based Shopify app:

- the three OAuth redirect-URL builders;
- the request guards `verify_web_call` (query-string HMAC, then shop-domain check) and `verify_webhook_call` (body HMAC against a base64 header), and the comparison `verify_hmac` they share;
- the shop-domain check `is_valid_shop`;
- the order pagination loop of `get_all_orders`.

Modules, one per file:

- `Basics` (`basics.dfy`): `Option`, and `Join` and `Split` on strings.
- `HexText` (`hex.dfy`): bytes and their lower-case hex text.
- `ShopName` (`shop.dfy`): a hand-written matcher for the shop-domain pattern, and a declarative description of the pattern's language.
- `Redirects` (`redirects.dfy`): the configuration and the URL builders.
- `QueryArgs` (`query.dfy`): the query parameters as a werkzeug MultiDict exposes them, and the signed message.
- `Verification` (`verification.dfy`): the guards, each a pure function returning a decision.
- `Orders` (`orders.dfy`): the pagination loop, as a method proved against a recursive specification.

The configuration values (`SHOPIFY_SECRET` and the others) are parameters of type `Option<string>`. An unset variable is Python's `None`:

- an f-string writes it as the text `None`;
- a missing secret makes `SHOPIFY_SECRET.encode` raise `AttributeError`.

HMAC-SHA256, UTF-8 encoding and base64 decoding are function-valued fields of a `Crypto` value. The model does not compute them.

A guard is modelled as the decision its wrapper takes: `Abort(status)`, `Delegate` (run the view), or `Raise(error)` (a Python exception escapes and Flask answers 500).

Points where the code behaves differently from what a plain reading suggests:

- `sorted(get_args)` (line 45) discards its result, so the signed message keeps request order.
- `request.args` is a MultiDict. `get` gives a key's first value, and `items()` gives each key once, with its first value, in order of first appearance. A repeated key is signed once.
- `if shop and …` treats an empty `shop` value as absent, so the shop check is skipped even though the empty name is not a valid shop.
- `re.match` anchors only at the start, so text after a shop domain does not cause rejection.
  A shop such as `a.myshopify.com@evil.com` passes the check, and as an authority it carries user information, so the redirect URLs are only shown to reach the shop when the shop is a bare host (`ValidShopRedirectsToShop`).
- An empty page in `get_all_orders` fails. The empty data frame has no `id` column, so line 96 raises before the length test on line 97, and the orders already fetched are lost.
- A missing webhook header raises `TypeError` in `base64.b64decode(None)`. `base64.b64decode` discards characters outside the base64 alphabet; it raises `ValueError`: `binascii.Error` for malformed base64 (bad padding or length), and a plain `ValueError` for non-ASCII text. The model leaves which headers decode to the `b64decode` parameter, and a header it rejects raises `ValueError`.

## Model

| member | source | states |
|---|---|---|
| `Basics.Join` | flask/helpers.py:26-27 | `','.join`: joining no items gives the empty string; on a non-empty list whose items hold no separator, `Split` undoes it (see `SplitJoin`) |
| `Basics.Split` | flask/helpers.py:26-27 | splitting at a separator gives at least one piece, no piece holds the separator, and joining the pieces back gives the input |
| `Basics.SplitJoin` | flask/helpers.py:26-27 | for a non-empty list whose items hold no separator, splitting the joined text gives back the items in their order (the empty list joins to `""`, which splits into `[""]`) |
| `Basics.JoinAvoids` | flask/helpers.py:26-27 | a character in neither the items nor the separator is not in the joined text |
| `Redirects.InstallQuery` | flask/helpers.py:26-28 | the query string of the install URL, with the comma-joined scopes and access modes; its fields are stated by `InstallUrlRoundTrip` |
| `Redirects.InstallRedirectUrl` | flask/helpers.py:25-29 | the install URL is `https://` and the shop, then `/admin/oauth/authorize?` and the install query; its authority is the shop whenever the shop is a bare host (no `/`, `?`, `#`, `\`, `@` or `:`) |
| `Redirects.InstallUrlRoundTrip` | flask/helpers.py:25-29 | when the API key, the install redirect URL, the nonce, the scopes and the access modes hold no `&`, the install query splits at `&` into exactly `client_id=`, `scope=`, `redirect_uri=`, `state=`, `grant_options[]=` with their values, in that order; a non-empty scope or access-mode list whose items hold no `,` comes back in order from its comma-joined text |
| `Redirects.DashRedirectUrl` | flask/helpers.py:31-33 | the dashboard URL is exactly the dashboard address, `/?shop=` and the shop, then `&state=` and the nonce (prefix, suffix and length); when no part holds `&`, it splits at `&` into those two halves |
| `Redirects.DashUrlStartsWithDashboard` | flask/helpers.py:31-33 | the dashboard URL begins with the configured dashboard address |
| `Redirects.PostInstallRedirectUrl` | flask/helpers.py:35-37 | the post-install URL is exactly `https://` and the shop, then `/admin/apps/` and the app name (prefix, suffix and length); its authority is the shop whenever the shop is a bare host |
| `Redirects.AuthorityOf` | flask/helpers.py:28 | the authority of `https://host/...` is `host` when `host` holds no delimiter, user information or port |
| `Redirects.ShopNameIsBareHost` | flask/helpers.py:84 | a whole shop name without its trailing `/` is a bare host |
| `Redirects.ValidShopRedirectsToShop` | flask/helpers.py:25-37 | for a shop name matched in full without a trailing `/`, the install and post-install URLs have the shop as their authority |
| `QueryArgs.FirstIndex` | flask/helpers.py:44 | the position of a key's first appearance in the request, or the request length if the key is absent |
| `QueryArgs.Get` | flask/helpers.py:44 | `args.get(key)` is None exactly when no pair has the key; otherwise it is the value of the first pair with the key |
| `QueryArgs.Items` | flask/helpers.py:46 | `args.items()`: each key once, at its first appearance, with its first value; its content and order are stated by `SignedPairs` and `SignedOrder` |
| `QueryArgs.Unsigned` | flask/helpers.py:46 | the filter `if key != 'hmac'`, keeping order |
| `QueryArgs.Render` | flask/helpers.py:46 | one text per pair, each the key, `=` and the value; `RenderReadsBack` states how a text reads back |
| `QueryArgs.RenderReadsBack` | flask/helpers.py:46 | a rendered pair whose key holds no `=` splits at `=` into the key first, and the remaining pieces join back into the value |
| `QueryArgs.Message` | flask/helpers.py:45-46 | the signed text: the rendered signed pairs joined by `&`; `MessageSplits` states its pieces |
| `QueryArgs.SignedPairs` | flask/helpers.py:46 | a pair is signed exactly when its key is not `hmac` and its value is the first value the request gives for that key |
| `QueryArgs.SignedOrder` | flask/helpers.py:45-46 | the signed pairs follow the order in which their keys first appear in the request |
| `QueryArgs.HmacNeverSigned` | flask/helpers.py:46 | no `hmac` pair is ever part of the signed pairs |
| `QueryArgs.MessageSplits` | flask/helpers.py:46 | when no key or value holds `&` and at least one pair is signed, the message splits at `&` into the signed pairs written `key=value` |
| `QueryArgs.MessageKeepsRequestOrder` | flask/helpers.py:45-46 | `shop`, `hmac`, `code` in that order sign as `shop=…&code=…`: the message is not sorted |
| `QueryArgs.RepeatedKeySignedOnce` | flask/helpers.py:46 | a key given twice is signed once, with its first value |
| `HexText.Hex` | flask/helpers.py:63 | hex text has two lower-case hex digits per byte |
| `HexText.DigitValue` | flask/helpers.py:79 | a character has a digit value exactly when it is a lower-case hex digit, and the value names that digit |
| `HexText.UnHex` | flask/helpers.py:79 | text that reads back as hex has two characters per byte |
| `HexText.UnHexHex` | flask/helpers.py:63 | reading back the hex text of some bytes gives those bytes |
| `HexText.HexUnHex` | flask/helpers.py:79 | any text that reads back as hex is the hex text of what it reads back to |
| `HexText.HexInjective` | flask/helpers.py:63 | two byte strings have the same hex text exactly when they are equal |
| `Verification.VerifyHmac` | flask/helpers.py:73-79 | a missing secret raises `AttributeError`; otherwise the result is true exactly when the supplied text is the hex form of the HMAC of the data under the secret |
| `Verification.NonLowerHexNeverVerifies` | flask/helpers.py:79 | a supplied digest with an upper-case or non-hex character never verifies |
| `Verification.VerifyWebCall` | flask/helpers.py:40-56 | the wrapper's decision: it raises exactly when the secret is unset (`AttributeError`), aborts only with 400 or 401, and aborts with 401 only for a present shop that `is_valid_shop` rejects; the full decision is `WebCallDecision` |
| `Verification.WebCallDecision` | flask/helpers.py:40-56 | a missing secret raises; otherwise an inauthentic HMAC gives 400 whatever the shop; otherwise a present, non-empty shop that does not start with a shop domain gives 401; otherwise the view runs (each stated as an if-and-only-if) |
| `Verification.EmptyShopSkipsCheck` | flask/helpers.py:51-55 | with an authentic HMAC, an empty `shop` value lets the view run although it is not a valid shop |
| `Verification.ShopWithTrailingTextDelegates` | flask/helpers.py:51-55 | with an authentic HMAC, a shop value that starts with a shop domain lets the view run whatever follows it |
| `Verification.VerifyWebhookCall` | flask/helpers.py:59-70 | the wrapper's decision: it aborts only with 401, and raises exactly when the header is missing or does not decode or the secret is unset; the full decision is `WebhookDecision` |
| `Verification.WebhookDecision` | flask/helpers.py:59-70 | a missing header raises `TypeError` and an undecodable one `ValueError`; the result is never 400; with a secret, the view runs exactly when the decoded header equals the body's HMAC, and the result is 401 exactly when it differs |
| `ShopName.LabelEnd` | flask/helpers.py:84 | the greedy `[a-zA-Z0-9\-]*` run ends at the first character that is not a label character |
| `ShopName.IsValidShop` | flask/helpers.py:82-85 | `is_valid_shop` read as a truth value: the matcher found a match; its meaning is `IsValidShopSpec` |
| `ShopName.MatchShop` | flask/helpers.py:82-85 | a match is a prefix of the input that is a shop name in full |
| `ShopName.MatchShopIsLongest` | flask/helpers.py:84-85 | whenever some prefix is a shop name, the matcher succeeds and its match is at least that long |
| `ShopName.IsValidShopSpec` | flask/helpers.py:82-85 | `is_valid_shop` accepts exactly the strings that have a shop-name prefix: one ASCII letter or digit, any letters, digits or `-`, `.myshopify.com`, and an optional `/` |
| `ShopName.LabelIsFirstNonLabelChar` | flask/helpers.py:84 | a shop name's label ends at the first character after the start that is not a label character |
| `ShopName.TrailingTextAccepted` | flask/helpers.py:85 | text after a shop name does not cause rejection |
| `ShopName.LeadingNonAlnumRejected` | flask/helpers.py:84 | a string starting with `-`, `.` or any other non-alphanumeric is rejected |
| `ShopName.BareSuffixRejected` | flask/helpers.py:84 | `myshopify.com` on its own is rejected |
| `ShopName.AcceptsPlainShop` | flask/helpers.py:84-85 | `foo-bar.myshopify.com` is accepted |
| `ShopName.MatchIncludesTrailingSlash` | flask/helpers.py:84 | the optional `/` is taken greedily |
| `ShopName.RejectsOtherHost` | flask/helpers.py:84 | `foo_bar.evilhost.com` is rejected: `_` ends the label before `.myshopify.com` (a name that merely starts with a shop domain, such as `a.myshopify.com.evil.com`, is accepted; see `TrailingTextAccepted`) |
| `Orders.Crawl` | flask/helpers.py:90-98 | the loop from a cursor within a request budget, step by step; `CrawlTrace` and `TraceCrawl` characterise it |
| `Orders.GetAllOrders` | flask/helpers.py:88-98 | the loop's result is what the page-by-page specification `Crawl` gives from cursor 0 |
| `Orders.CrawlTrace` | flask/helpers.py:90-98 | every finished run is a chain of requests: the first uses cursor 0, each later one the id of the previous page's last order, and every page but the last is full. The last page is short, and the result is all pages concatenated in fetch order, or an error if the last page is empty |
| `Orders.TraceCrawl` | flask/helpers.py:90-98 | conversely, any such chain of requests ending in a short page is what the loop does, given enough requests |
| `Orders.EmptyFirstPageFails` | flask/helpers.py:93-96 | an empty first page fails the fetch |
| `Orders.EmptyPageAfterFullPageFails` | flask/helpers.py:93-97 | an empty page after a full one fails the fetch, losing the orders already read |

## Left out

- HMAC-SHA256, UTF-8 encoding and base64 decoding (lines 63, 74-78) are library calls, taken as functions in `Crypto`. Nothing about forgery resistance is claimed.
- The Flask `request` object and `abort` are modelled as plain inputs and a `Decision`. The query is a list of decoded `(key, value)` pairs, the webhook header an optional string and the body bytes. URL decoding of the query string is not modelled.
- `logging.error` calls (lines 48, 53, 67) have no effect on the decision and are not modelled.
- Loading the environment with `dotenv` and `os.environ` (lines 16-23) is replaced by the `Config` parameter.
- The timing behaviour of the `==` comparison in `verify_hmac` is not modelled.
- The `ShopifyStoreClient` HTTP client is a function from cursor to page. Network errors and the shape of the JSON response are not modelled.
- Orders are an `id` with opaque fields; the pandas data frame is the sequence of orders in fetch order.
- The post-loop conversion of dict-valued columns to JSON text (lines 99-101) is not modelled. The loop only ends after a non-empty short page, since an empty page raises at line 96, so the result always has a first row there.
- Orders.GetAllOrders: the method requires that the loop finishes within some number of requests (a ghost bound), so a client that never sends a short page is not modelled; the source would loop forever on it.
