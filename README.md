# Nostr feed plugin: a verified model of its decision logic

The plugin shows Nostr notes on a WordPress page and lets visitors zap, that
is tip, a note's author over Lightning. Its browser script escapes and
renders notes, keeps the feed free of duplicates, looks up the author's
Lightning address on the relays and builds the NIP-57 zap request. It also
negotiates an invoice with the author's LNURL-pay endpoint through two
WordPress AJAX proxies, then asks the visitor's wallet to pay it. The PHP
side stores the settings, writes the feed element and runs the callback
proxy.

This project models those decisions in Dafny and proves what they promise.
Each module follows one part of the program:

- `Wrappers`, `Strings`, `Json`: `Option`/`Result`. JavaScript and PHP string built-ins: `replace` with a global pattern, `split`/`explode`, `trim`, `toLowerCase`, decimal printing. JSON values with JavaScript truthiness, property access, `<`/`>` and `||`, and PHP `!`, `isset` and `intval`.
- `Content`: `processContent`: HTML escaping, image extraction, linking and line breaks. A global regular-expression replace is modelled as a left-to-right scan.
- `Lnurl`: `getLnurl`: the LUD-16 well-known URL, UTF-8, `btoa`, the URL-safe rewrite and lower-casing.
- `Negotiation`: The guard chain of `getLightningInvoice` over the metadata reply and the callback reply.
- `Profile`: The relay loop of `getProfileFromEvent`, as a method with a `while` loop.
- `Zap`: `parseInt`, the amount prompt, the kind-9734 zap request and its tags, and the whole `handleZap` click, as a method.
- `Feed`: `renderPost` on a posts-container class, the feed of a whole event stream, and the npub and relay filters of `init`.
- `Plugin`: `sanitize`, the lists written by `render_feed`, and `handle_callback_proxy`.
- `Interop`: How the script's requests and the proxy's answers fit together.

Modelling choices that shape the contracts:

- **Outside inputs are values.** A relay's answer, an HTTP reply, the prompt's answer, the clock and the wallet's outcome are passed in.
- **Foreign library calls are function parameters.** This covers `nip19.decode`, `getEventHash`, `getSignature`, `sanitize_textarea_field` and PHP's `json_decode` of the callback body.
- **Numbers are integers.**
- **The amount is checked before `allowsNostr`.** The code (js/nostr-feed.js:196-204) checks the amount range first, so an out-of-range amount is reported even when the endpoint does not support zaps (`Negotiation.AmountCheckedBeforeNostr`).
- **The `lnurl` tag is not the bech32 encoding of LUD-01.** It is `lnurl` followed by lower-cased, unpadded base64url, as the code writes it. Before lower-casing the encoding is proved decodable (`Lnurl.Base64UrlRoundTrip`). After lower-casing two addresses can share a tag (`Lnurl.GetLnurlNotInjective`).
- **Two checks in `handleZap` can never fail.** These are `!authorProfile` and `!lnurl` (js/nostr-feed.js:328-338). The profile search only returns profiles with a truthy `lud16` or `lud06` (`Profile.FoundProfileHasAddress`), so `Zap.HandleZap` asserts both facts instead of modelling the two alerts.
- **The proxy and the script judge `pr` differently.** The proxy accepts any `pr` that is set (nostr-feed.php:243). The script needs it to be truthy (js/nostr-feed.js:237). A callback answering `{"pr": ""}` therefore passes the proxy and is then refused by the script (`Interop.EmptyPaymentRequestRefusedByClient`).

## Model

| member | source | states |
|---|---|---|
| `Content.Escape` | js/nostr-feed.js:145-150 | The escaped text contains no raw `<`, `>`, `"` or `'`. |
| `Content.EscapeInSourceOrderChar` | js/nostr-feed.js:145-150 | Running the five replacements in source order on one character gives that character's entity (`&amp;`, `&lt;`, `&gt;`, `&quot;`, `&#039;`), or the character itself. |
| `Content.EscapeInSourceOrderIsPerChar` | js/nostr-feed.js:145-150 | The five global replacements, `&` first, equal escaping each character on its own. The entities added by one step are never touched by a later one. |
| `Content.UnescapeEscape` | js/nostr-feed.js:145-150 | Decoding the five entities gives the original text back. So no character is escaped twice. |
| `Content.ScanLossless` | js/nostr-feed.js:155-158 | A global replace's walk loses nothing. The matches and the characters between them, in order, make up the input. |
| `Content.MatchedChars` | js/nostr-feed.js:155-158 | Every character of a match is a character of the scanned text. |
| `Content.ImageMatchIsImageUrl` | js/nostr-feed.js:154 | A match of the image pattern starts with `http://` or `https://` in any case. It has no whitespace and ends in `.jpg`, `.jpeg`, `.gif`, `.png` or `.webp` in any case. Backtracking to the last such dot is modelled. |
| `Content.LinkMatchIsLinkUrl` | js/nostr-feed.js:162 | A match of the link pattern is lower-case `http://` or `https://` followed by at least one non-whitespace character. |
| `Content.ScanMatches` | js/nostr-feed.js:154-164 | Every match a scan collects is an image URL for the image pattern and a link URL for the link pattern. |
| `Content.ImagesCutFromEscapedText` | js/nostr-feed.js:153-158 | The images are cut out of the escaped text, left to right, with nothing else lost. Every image is an image URL. |
| `Content.PostImagesAttributeSafe` | js/nostr-feed.js:145-158 | Image URLs come from the escaped text, so none holds a character that could close the `src="..."` attribute. |
| `Content.CutImages` | js/nostr-feed.js:153-158 | The replace loop with its callback: what remains is the text without the matches, and `images` holds the matches in order. |
| `Content.ProcessContent` | js/nostr-feed.js:143-170 | The imperative pipeline computes the specified post body and images, and every image is an image URL. |
| `Lnurl.AddressUrl` | js/nostr-feed.js:407-412 | A URL is built exactly when the string contains `@`. |
| `Lnurl.AddressUrlParts` | js/nostr-feed.js:411-412 | For `name@domain` the URL is `https://domain/.well-known/lnurlp/name`. |
| `Lnurl.AddressUrlIgnoresLaterParts` | js/nostr-feed.js:411-412 | The domain stops at a second `@`, and whatever follows it is ignored. |
| `Lnurl.Utf8Concat` | js/nostr-feed.js:416 | `TextEncoder` encodes a string character by character. |
| `Lnurl.Utf8Ascii` | js/nostr-feed.js:416 | An ASCII string encodes to one byte per character, equal to its code. |
| `Lnurl.Sextets` | js/nostr-feed.js:418 | Base64 cuts `n` bytes into `ceil(4n/3)` six-bit groups. |
| `Lnurl.Digits` | js/nostr-feed.js:418-419 | One digit per group, each from the chosen alphabet. |
| `Lnurl.Btoa` | js/nostr-feed.js:418 | `btoa` output, with its `=` padding, has a length that is a multiple of four. |
| `Lnurl.UrlSafeBtoa` | js/nostr-feed.js:418-421 | Replacing `+` with `-` and `/` with `_`, then deleting `=`, turns standard base64 into unpadded base64url. |
| `Lnurl.Base64UrlRoundTrip` | js/nostr-feed.js:418-421 | Before lower-casing, the encoding is decodable: decoding gives back every byte. |
| `Lnurl.GetLnurl` | js/nostr-feed.js:406-424 | A string without `@` is returned unchanged. Otherwise the result is `lnurl` plus the lower-cased base64url of the UTF-8 well-known URL. |
| `Lnurl.GetLnurlAlphabet` | js/nostr-feed.js:406-424 | For an address, the tag starts with `lnurl` and then uses only `a-z`, `0-9`, `-` and `_`. So it has no `+`, `/`, `=` or capital letter. |
| `Lnurl.AddressTag` | js/nostr-feed.js:411-424 | For an address with one `@`, the tag encodes exactly its well-known URL. |
| `Lnurl.NameCaseCollides` | js/nostr-feed.js:424 | On any ASCII domain without `@` whose length is one more than a multiple of three, the names `G` and `a` give the same tag. On such a domain the name's byte is the last of a base64 group, where `G` and `a` encode as `H` and `h`. |
| `Lnurl.GetLnurlNotInjective` | js/nostr-feed.js:424 | `G@a` and `a@a` give the same tag, so the tag cannot be decoded back to the address. |
| `Negotiation.Message` | js/nostr-feed.js:190-239 | The fixed error texts: exactly the five guard failures with a fixed text have one. |
| `Negotiation.Payload` | js/nostr-feed.js:237 | A proxy envelope's `data` is used only when `success` and `data` are both truthy. |
| `Negotiation.CheckMetadata` | js/nostr-feed.js:185-209 | Each outcome holds exactly when every earlier guard passed and this one failed. The order is: fetch, JSON, null body, callback, amount range, `allowsNostr`, `nostrPubkey`. Success means all passed. An amount error carries the endpoint's own `minSendable` and `maxSendable`. |
| `Negotiation.ReadInvoice` | js/nostr-feed.js:228-242 | A non-ok reply fails with "Failed to get invoice". A reply without truthy `success`, `data` and `data.pr` fails with "No payment request in response". Otherwise the result is exactly `data.pr`. |
| `Negotiation.GetLightningInvoice` | js/nostr-feed.js:172-247 | The endpoint is the address's well-known URL, or none without `@`. A callback request is made exactly when the metadata checks pass. It carries the callback URL, `sats*1000`, the zap request and an empty comment. The result is the first failing check or the callback's invoice. |
| `Negotiation.EncodeUriComponentDecodes` | js/nostr-feed.js:184 | `encodeURIComponent` is undone by percent-decoding, which gives the text's UTF-8 bytes. Its output holds only unreserved characters and `%`, so it cannot end the `url` parameter. |
| `Negotiation.MetadataRequestParameter` | js/nostr-feed.js:177-184 | The metadata request's `url` parameter decodes to the address's well-known URL. Without an `@` it is the text `undefined`. |
| `Negotiation.InvoiceNeedsEveryCheck` | js/nostr-feed.js:189-242 | An invoice is returned only if all four metadata checks and the callback checks passed. It is then a truthy `pr`. |
| `Negotiation.AmountCheckedBeforeNostr` | js/nostr-feed.js:196-204 | An out-of-range amount is reported even by an endpoint without zap support, and no callback request is made. |
| `Negotiation.AmountRangeExample` | js/nostr-feed.js:196-199 | With bounds of 1000 to 100000 sats, 500 sats is refused with both bounds before any request. 5000 sats is sent as 5000000 millisats. |
| `Negotiation.StringBoundsConverted` | js/nostr-feed.js:196-197 | Bounds sent as strings are converted as JavaScript does. A `maxSendable` of `"-5"` refuses every amount above -5, `"0x3e8"` is 1000, and `"Infinity"` lifts the limit. |
| `Json.SignedNumeralNumber` | js/nostr-feed.js:196 | A decimal numeral string converts to its value in a comparison, with a leading `-` or `+` taken as the sign. |
| `Json.OneItemArrayNumber` | js/nostr-feed.js:196 | A one-item array compares as its item, `null` as 0, and a boolean as NaN. |
| `Negotiation.BoundsAreInclusive` | js/nostr-feed.js:197 | With numeric bounds, an amount passes exactly when `min <= msats <= max`. |
| `Negotiation.MissingBoundsAcceptAnyAmount` | js/nostr-feed.js:197 | Comparisons with a missing bound are false, so missing bounds restrict nothing. |
| `Profile.FirstUsable` | js/nostr-feed.js:258-300 | The index of the first relay whose answer is a profile with a truthy `lud16` or `lud06`. Every earlier relay failed or had no address. With no such relay, none did. |
| `Profile.GetProfileFromEvent` | js/nostr-feed.js:249-305 | The loop tries relays in order and returns the first profile with an address after contacting exactly the relays up to it. Otherwise it fails with "No profile with Lightning address found" after contacting them all. |
| `Profile.LaterRelaysIgnored` | js/nostr-feed.js:258-295 | Relays after the first usable one have no influence on the result. |
| `Profile.FoundProfileHasAddress` | js/nostr-feed.js:287-295 | A found profile is an object with a truthy `lud16 \|\| lud06`, so the caller's two later checks cannot fail. |
| `Zap.ParseIntNumeral` | js/nostr-feed.js:347 | `parseInt` reads a decimal numeral back whatever follows it. The next character must not be a digit, and must not turn a lone `0` into a `0x` prefix. |
| `Zap.ParseIntNatToString` | js/nostr-feed.js:347 | The printed millisat amount parses back to itself. |
| `Zap.ParseIntLeadingSpace` | js/nostr-feed.js:347 | Leading whitespace does not change what `parseInt` reads. |
| `Zap.ReadAmount` | js/nostr-feed.js:343-351 | A missing or empty answer cancels silently. An accepted amount is exactly a `parseInt` result above zero. Everything else is refused. |
| `Zap.ReadAmountNumeral` | js/nostr-feed.js:343-351 | A positive decimal numeral is accepted whatever text follows it, e.g. `21 sats`. |
| `Zap.ReadAmountLeadingSpace` | js/nostr-feed.js:343-351 | A leading blank does not change a non-empty answer's reading. |
| `Zap.ReadAmountNegative` | js/nostr-feed.js:347-351 | A minus sign makes every amount invalid, zero included. |
| `Zap.ReadAmountWord` | js/nostr-feed.js:347-351 | An answer starting with a letter is refused. |
| `Zap.ReadAmountHex` | js/nostr-feed.js:347-351 | `0x10` is read as 16 sats. |
| `Zap.ZapTagsContents` | js/nostr-feed.js:365-372 | The tags name the author (`p`) and the note (`e`). The `amount` tag is the decimal string of `sats*1000`. The `relays` tag lists the configured relays in order. The `lnurl` tag is the given tag. |
| `Zap.AmountTagReadsBack` | js/nostr-feed.js:368 | The amount tag parses back to `sats*1000` millisats. |
| `Zap.ZapRequestFields` | js/nostr-feed.js:361-374 | The request has kind 9734, empty content and the sender's key. Its time is the current second, truncated. Its `lnurl` tag is `getLnurl` of the address. |
| `Zap.PreferredAddress` | js/nostr-feed.js:334 | `lud16` is used whenever it is truthy, and `lud06` otherwise. |
| `Zap.Alert` | js/nostr-feed.js:307-403 | A click ends without an alert exactly when the prompt was cancelled. Every failure alert starts with "Failed to send zap: ", followed by the script's own message when the failure has one (no profile, the fixed negotiation errors). The success alert starts with "Zap sent successfully! Amount: ". |
| `Zap.AlertReportsAmount` | js/nostr-feed.js:391 | The text after the success alert's fixed start reads back, through `parseInt`, as the sats sent. |
| `Zap.HandleZap` | js/nostr-feed.js:307-403 | Each notice holds exactly when the click reaches its check and fails it, in the script's order. The order is: WebLN present, Nostr present, `enable`, public key, profile found (after asking every relay), prompt cancelled, amount valid, address a string. A zap request is built exactly when all of these pass, from the preferred address of the first usable profile, with the tags above. It is then hashed, signed and sent to the negotiation. A failed negotiation is reported with its error. An invoice gives "Zap sent" with the amount exactly when the wallet pays, and "payment failed" otherwise. The probes are one per configured relay. |
| `Feed.PostsContainer.constructor` | nostr-feed.php:163 | The container starts empty and valid. |
| `Feed.PostsContainer.RenderPost` | js/nostr-feed.js:92-141 | A known id leaves the container unchanged. A new one puts exactly one post, with its processed content, in front. No id ever appears twice. |
| `Feed.RenderKeepsDistinct` | js/nostr-feed.js:94-140 | One render step keeps the ids distinct. |
| `Feed.FeedDistinct` | js/nostr-feed.js:92-141 | Whatever order the events arrive in, no id is shown twice. |
| `Feed.FeedShowsFirstArrivals` | js/nostr-feed.js:94-140 | The feed shows exactly the ids that arrived, each by the post of the first event carrying it. |
| `Feed.FeedNewestFirst` | js/nostr-feed.js:140 | A post shown above another belongs to an event that first arrived later. |
| `Feed.ClientRelays` | js/nostr-feed.js:13-22 | With a feed element the script uses the element's relay list. Without one it falls back to its three default relays. |
| `Feed.Pubkeys` | js/nostr-feed.js:34-41 | Decoding never yields more authors than npubs. |
| `Feed.PubkeysKeep` | js/nostr-feed.js:34-41 | Every npub that decodes, after trimming, to a truthy value contributes it. |
| `Feed.PubkeysOnly` | js/nostr-feed.js:34-41 | Every author is the truthy result of decoding one of the trimmed npubs. Failures are dropped. |
| `Feed.PubkeysConcat` | js/nostr-feed.js:34-41 | The authors keep the order of the npub list. |
| `Feed.ActiveRelays` | js/nostr-feed.js:45-60 | A relay is active exactly when it is configured and its connection succeeded. |
| `Feed.ActiveRelaysConcat` | js/nostr-feed.js:60 | The active relays keep the configured order. |
| `Feed.Init` | js/nostr-feed.js:26-85 | Without a feed element nothing happens. If no relay connects, the script stops. Otherwise it subscribes on exactly the connected relays, in configured order, with kinds `[1]`, the decoded authors and limit 20. |
| `Feed.PartialFailure` | js/nostr-feed.js:60-65 | One connected relay is enough to subscribe. |
| `Plugin.Sanitize` | nostr-feed.php:121-128 | The saved keys are exactly those of `npub_list` and `relay_list` that were sent, and no other key survives. Each value is the cleaned input. |
| `Plugin.SanitizeIdempotent` | nostr-feed.php:121-128 | With an idempotent cleaner, saving twice equals saving once. |
| `Plugin.LinesShape` | nostr-feed.php:152-159 | There is one entry per line break plus one, empty lines kept. No entry holds `\r` or `\n`. Joining the entries with `\n` gives the text without its `\r`. |
| `Plugin.DefaultRelayTextLines` | nostr-feed.php:143-159 | The admin page's default relay text splits into the same three relays as `render_feed`'s built-in default. |
| `Plugin.RenderFeed` | nostr-feed.php:151-167 | A missing npub list gives no authors, and a missing relay list the three defaults. A present list is split into lines. |
| `Plugin.RenderSanitized` | nostr-feed.php:121-159 | After `sanitize`, the lists come from the cleaned texts, and other keys have no effect. |
| `Plugin.HandleCallbackProxy` | nostr-feed.php:190-249 | "Invalid parameters" comes exactly when the body is falsy or lacks `url`, `amount` or `nostr`, and then no request is made. Otherwise the query carries `url`, `intval(amount)` and `nostr`. A transport error is passed on. A non-200 status names the status and the body. Success comes exactly with status 200 and a truthy body that sets `pr`, which is passed on unchanged. |
| `Plugin.InvalidParametersIgnoreRemote` | nostr-feed.php:197-200 | Bad parameters are refused before any outbound request, so the remote side has no say. |
| `Plugin.StatusErrorParts` | nostr-feed.php:237-240 | The status error holds the status code right after its fixed text and ends with the body. |
| `Plugin.IntvalOfAmount` | nostr-feed.php:203 | `intval` keeps integer amounts and turns `true` into 1. It reads a decimal string as its number, held at `PHP_INT_MAX` when larger. |
| `Interop.ProxyAcceptsRequest` | nostr-feed.php:197-204 | The script's request object passes the proxy's parameter check unchanged. |
| `Interop.NegotiationRequestAccepted` | js/nostr-feed.js:196-223 | Every callback request the script posts is accepted. The amount forwarded to the callback is the zap's millisats. |
| `Interop.ClientReadsProxyReply` | js/nostr-feed.js:234-242 | The script takes an invoice from the proxy exactly when the proxy succeeded with a truthy `pr`. Every proxy error reaches the user as "No payment request in response". |
| `Interop.EmptyPaymentRequestRefusedByClient` | nostr-feed.php:242-248 | A callback answering `{"pr": ""}` passes the proxy but is refused by the script. |
| `Interop.RenderedFeedElement` | nostr-feed.php:157-162 | The script uses the configured relay lines, or, when none are saved, the same three defaults it would use itself. |

## Left out

- Script loading (js/nostr-feed.js:1-10): the `<script>` element and the polling loop that waits for the library.
- Relay transport: WebSockets, subscriptions, `Promise.all`, the five-second timeout and closing connections. Each relay's outcome is an input value: connected or not, or a probe that failed or produced a parsed profile.
- Concurrency: the interleaving of events from several relays is a sequence of events. `Feed.Feed` covers every order.
- Cryptography: `nip19.decode`, `getEventHash` and `getSignature` are function parameters. The relay library (nostr-tools) checks each event's id and signature before the script sees it. The model does not repeat that check. It takes the events it is given as the ones the library delivered.
- Feed.PostsContainer.RenderPost: the duplicate test `querySelector('[data-event-id="' + id + '"]')` (js/nostr-feed.js:94) is modelled as membership of the id among the shown ids. That is exact for the 64-digit hexadecimal ids the relay library delivers. For other ids the CSS selector behaves differently, and this is not modelled. An id with a quote or a line break makes `querySelector` throw, and an id with a CSS escape (`a\62`) matches a different id (`ab`).
- Browser providers and dialogs: the presence of `window.webln` and `window.nostr`, `enable`, `getPublicKey`, `prompt`, `alert`, `sendPayment` and `fetch` are inputs and outcomes.
- Zap.HandleZap: the script asks `getPublicKey` twice, once before the profile search and once when signing. The model uses one answer for both.
- Zap.HandleZap: the `loading` class on the zap button is presentation and is not modelled.
- Zap.HandleZap: an address value that is not a string fails as `AddressNotString`, since `includes` throws on it. An array is the exception: arrays have `includes`, so the script would go on with it.
- Zap.Alert: the text after "Failed to send zap: " is a parameter for failures the script does not word itself. These are errors thrown by the browser, the providers or the engine, and the amount-range error, whose text divides by 1000 in floating point.
- Negotiation.CheckMetadata: bounds are compared as JavaScript converts them: integers, `null`, booleans, strings (trimmed, signed decimal, `0x`/`0o`/`0b`, `Infinity`) and arrays through `join`. Numbers with a fraction or an exponent, as JSON numbers or as strings (`"1.5"`, `"1e3"`), are not modelled. The model treats such strings as NaN, while JavaScript compares their value.
- Zap.ParseInt: the result is exact. `parseInt` rounds to a double above 2^53, and the amount tag prints large numbers in exponent form. Neither is modelled.
- Plugin.IntvalOfAmount: PHP's `intval` of floats and of strings with exponents (`"1e3"`) is not modelled. Strings are read by their leading decimal integer, saturated to the 64-bit range. JSON integers beyond 64 bits, which `json_decode` turns into floats, are kept exact.
- `add_query_arg`, `esc_attr`, `esc_url_raw`, `json_encode` and the HTML attribute round trip of `data-npubs`/`data-relays`: library formatting. The model passes the values themselves.
- Plugin.HandleCallbackProxy: the query holds the decoded values, not their URL encoding. The posted body is decoded with objects as arrays (nostr-feed.php:195), so the zap request `nostr` reaches `add_query_arg` (nostr-feed.php:207-213) as an array. It is sent as bracket parameters (`nostr[kind]=9734`, ...), not as the JSON text LUD-06 callbacks expect.
- WordPress machinery: hooks, the admin page, `register_setting`, `check_ajax_referer`, `wp_remote_get` options and `error_log`.
- `handle_lnurl_proxy` (nostr-feed.php:170-187): a pass-through whose answer is the metadata reply input of `Negotiation.GetLightningInvoice`.
- Dates and HTML: the `toLocaleString` date and the post template in `renderPost`. A post keeps its id, processed content and images.
- Unicode: `toLowerCase` is modelled for ASCII letters only, which is all base64url produces. `\s` and `trim` use JavaScript's whitespace set.
