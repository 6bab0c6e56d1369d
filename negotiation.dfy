/**
 * The guard chain of `getLightningInvoice`: ask the plugin's LNURL proxy for
 * the pay endpoint's metadata (LUD-06 `payRequest`, with the `allowsNostr` and
 * `nostrPubkey` fields NIP-57 adds), check it, post the zap request to the
 * plugin's callback proxy and read the invoice (`pr`) out of its reply.
 *
 * The two HTTP exchanges are inputs: what `fetch` and `response.json()` came
 * back with. The first failing check decides the error, and nothing after it
 * happens; in particular no callback request is made unless every metadata
 * check passed.
 */
module Negotiation {
  import opened Wrappers
  import opened Strings
  import opened Json
  import Lnurl

  /** What one `fetch` plus `response.json()` produced. */
  datatype HttpReply =
    | FetchRejected                          // `fetch` itself threw (network, CORS)
    | Reply(ok: bool, body: Option<Json>)    // status 2xx or not; None when the body is not JSON

  /** Why the negotiation stopped. */
  datatype Failure =
    | NetworkError                             // a rejected `fetch`
    | BodyNotJson                              // `response.json()` threw
    | NullBody                                 // the body is JSON `null`: reading a field of it throws
    | NoCallback                               // 'Invalid LNURL response - no callback URL'
    | AmountOutOfRange(min: Option<Json>, max: Option<Json>)
    | NostrNotSupported                        // 'This Lightning address does not support Nostr zaps'
    | NoNostrPubkey                            // 'Lightning address missing nostrPubkey'
    | InvoiceRequestFailed                     // 'Failed to get invoice'
    | NoPaymentRequest                         // 'No payment request in response'

  /**
   * The text the script's own errors carry; None for the errors the runtime
   * raises and for the amount message, whose bounds are floating-point
   * divisions.
   */
  function Message(f: Failure): (m: Option<string>)
    ensures m.Some? <==> f.NoCallback? || f.NostrNotSupported? || f.NoNostrPubkey? || f.InvoiceRequestFailed? || f.NoPaymentRequest?
  {
    match f
    case NoCallback => Some("Invalid LNURL response - no callback URL")
    case NostrNotSupported => Some("This Lightning address does not support Nostr zaps")
    case NoNostrPubkey => Some("Lightning address missing nostrPubkey")
    case InvoiceRequestFailed => Some("Failed to get invoice")
    case NoPaymentRequest => Some("No payment request in response")
    case _ => None
  }

  /** The JSON body posted to the callback proxy. */
  datatype CallbackRequest = CallbackRequest(url: Json, amount: int, nostr: Json, comment: string)

  /** `JSON.stringify` of the request, as a JSON value. */
  function RequestJson(r: CallbackRequest): Json {
    JObj(map["url" := r.url, "amount" := JNum(r.amount), "nostr" := r.nostr, "comment" := JStr(r.comment)])
  }

  /**
   * What a run of `getLightningInvoice` did: the endpoint it asked the
   * metadata proxy about (None for an address without `@`, which the proxy URL
   * then spells `undefined`), the callback request it posted, if any, and its
   * outcome.
   */
  datatype Negotiation = Negotiation(endpoint: Option<string>, request: Option<CallbackRequest>, result: Result<Json, Failure>)

  // ----- the proxy envelope -----

  /**
   * `body.data` when `body.success && body.data` holds: None when either is
   * falsy. Reading a field of JSON `null` throws, so that case is a failure of
   * its own.
   */
  function Payload(body: Json): (r: Option<Json>)
    requires body != JNull
    ensures r.Some? <==> Truthy(Prop(body, "success")) && Truthy(Prop(body, "data"))
    ensures r.Some? ==> Some(r.value) == Prop(body, "data") && Truthy(r)
  {
    if Truthy(Prop(body, "success")) && Truthy(Prop(body, "data")) then Prop(body, "data") else None
  }

  // ----- the metadata checks, named -----

  /** `data.success && data.data && data.data.callback`. */
  predicate HasCallback(body: Json) {
    body != JNull && Payload(body).Some? && Truthy(Prop(Payload(body).value, "callback"))
  }

  /**
   * `!(msats < minSendable || msats > maxSendable)`: the inclusive range. A
   * bound that is missing or not a number compares false, so it does not
   * restrict the amount.
   */
  predicate InRange(meta: Json, msats: int) {
    !Below(msats, Prop(meta, "minSendable")) && !Above(msats, Prop(meta, "maxSendable"))
  }

  predicate AllowsNostr(meta: Json) {
    Truthy(Prop(meta, "allowsNostr"))
  }

  predicate HasNostrPubkey(meta: Json) {
    Truthy(Prop(meta, "nostrPubkey"))
  }

  /** All four metadata checks pass, in the order the script makes them. */
  predicate MetadataAccepted(body: Json, msats: int) {
    HasCallback(body)
    && InRange(Payload(body).value, msats)
    && AllowsNostr(Payload(body).value)
    && HasNostrPubkey(Payload(body).value)
  }

  // ----- the two phases -----

  /**
   * The metadata checks: the payload (`lnurlData`) when they all pass, else
   * the first failing check's error.
   */
  function CheckMetadata(reply: HttpReply, msats: int): (r: Result<Json, Failure>)
    ensures r.Success? <==> reply.Reply? && reply.body.Some? && MetadataAccepted(reply.body.value, msats)
    ensures r.Success? ==> Some(r.value) == Prop(reply.body.value, "data")
    ensures r == Failure(NetworkError) <==> reply.FetchRejected?
    ensures r == Failure(BodyNotJson) <==> reply.Reply? && reply.body.None?
    ensures r == Failure(NullBody) <==> reply.Reply? && reply.body == Some(JNull)
    ensures r == Failure(NoCallback) <==>
      reply.Reply? && reply.body.Some? && reply.body.value != JNull && !HasCallback(reply.body.value)
    ensures r.Failure? && r.error.AmountOutOfRange? <==>
      reply.Reply? && reply.body.Some? && HasCallback(reply.body.value) && !InRange(Payload(reply.body.value).value, msats)
    ensures r.Failure? && r.error.AmountOutOfRange? ==>
      r.error == AmountOutOfRange(Prop(Payload(reply.body.value).value, "minSendable"), Prop(Payload(reply.body.value).value, "maxSendable"))
    ensures r == Failure(NostrNotSupported) <==>
      reply.Reply? && reply.body.Some? && HasCallback(reply.body.value)
      && InRange(Payload(reply.body.value).value, msats) && !AllowsNostr(Payload(reply.body.value).value)
    ensures r == Failure(NoNostrPubkey) <==>
      reply.Reply? && reply.body.Some? && HasCallback(reply.body.value)
      && InRange(Payload(reply.body.value).value, msats) && AllowsNostr(Payload(reply.body.value).value)
      && !HasNostrPubkey(Payload(reply.body.value).value)
  {
    match reply
    case FetchRejected => Failure(NetworkError)
    case Reply(_, None) => Failure(BodyNotJson)
    case Reply(_, Some(data)) =>
      if data == JNull then Failure(NullBody)
      else if !Truthy(Prop(data, "success")) || !Truthy(Prop(data, "data")) then Failure(NoCallback)
      else
        var meta := Prop(data, "data").value;
        if !Truthy(Prop(meta, "callback")) then Failure(NoCallback)
        else if Below(msats, Prop(meta, "minSendable")) || Above(msats, Prop(meta, "maxSendable")) then
          Failure(AmountOutOfRange(Prop(meta, "minSendable"), Prop(meta, "maxSendable")))
        else if !Truthy(Prop(meta, "allowsNostr")) then Failure(NostrNotSupported)
        else if !Truthy(Prop(meta, "nostrPubkey")) then Failure(NoNostrPubkey)
        else Success(meta)
  }

  /**
   * The callback phase: `data.pr` of the proxy's reply when the reply is ok
   * and `success`, `data` and `data.pr` are all truthy.
   */
  function ReadInvoice(reply: HttpReply): (r: Result<Json, Failure>)
    ensures r.Success? <==>
      reply.Reply? && reply.ok && reply.body.Some? && reply.body.value != JNull
      && Payload(reply.body.value).Some? && Truthy(Prop(Payload(reply.body.value).value, "pr"))
    ensures r.Success? ==> Some(r.value) == Prop(Payload(reply.body.value).value, "pr") && Truthy(Some(r.value))
    ensures r == Failure(InvoiceRequestFailed) <==> reply.Reply? && !reply.ok
    ensures r == Failure(NoPaymentRequest) <==>
      reply.Reply? && reply.ok && reply.body.Some? && reply.body.value != JNull
      && !(Payload(reply.body.value).Some? && Truthy(Prop(Payload(reply.body.value).value, "pr")))
  {
    match reply
    case FetchRejected => Failure(NetworkError)
    case Reply(false, _) => Failure(InvoiceRequestFailed)
    case Reply(true, None) => Failure(BodyNotJson)
    case Reply(true, Some(invoice)) =>
      if invoice == JNull then Failure(NullBody)
      else if !Truthy(Prop(invoice, "success")) || !Truthy(Prop(invoice, "data")) then Failure(NoPaymentRequest)
      else
        var data := Prop(invoice, "data").value;
        if !Truthy(Prop(data, "pr")) then Failure(NoPaymentRequest) else Success(Prop(data, "pr").value)
  }

  /**
   * `getLightningInvoice(lnurl, amount, zapRequest)`, given what the two
   * proxies answer. The callback request is made only when every metadata
   * check passed, and then carries the callback URL, the amount in millisats,
   * the zap request and an empty comment.
   */
  function GetLightningInvoice(lnurl: string, sats: int, zapRequest: Json, metadata: HttpReply, callback: HttpReply): (n: Negotiation)
    ensures n.endpoint == Lnurl.AddressUrl(lnurl)
    ensures n.request.Some? <==> CheckMetadata(metadata, sats * 1000).Success?
    ensures n.request.Some? ==>
      n.request.value.amount == sats * 1000 && n.request.value.nostr == zapRequest && n.request.value.comment == ""
      && Some(n.request.value.url) == Prop(CheckMetadata(metadata, sats * 1000).value, "callback")
    ensures n.request.None? ==> n.result == CheckMetadata(metadata, sats * 1000)
    ensures n.request.Some? ==> n.result == ReadInvoice(callback)
  {
    var endpoint := Lnurl.AddressUrl(lnurl);
    var msats := sats * 1000;
    match CheckMetadata(metadata, msats)
    case Failure(e) => Negotiation(endpoint, None, Failure(e))
    case Success(meta) =>
      var request := CallbackRequest(Prop(meta, "callback").value, msats, zapRequest, "");
      Negotiation(endpoint, Some(request), ReadInvoice(callback))
  }

  // ----- the metadata request's `url` parameter -----

  /** The characters `encodeURIComponent` leaves as they are. */
  predicate UriUnreserved(c: char) {
    ('A' <= c <= 'Z') || ('a' <= c <= 'z') || ('0' <= c <= '9')
    || c == '-' || c == '_' || c == '.' || c == '!' || c == '~' || c == '*' || c == '\'' || c == '(' || c == ')'
  }

  const HexDigits := "0123456789ABCDEF"

  /** One byte as `%` and two upper-case hexadecimal digits. */
  function PercentByte(b: Lnurl.Byte): string {
    ['%', HexDigits[b / 16], HexDigits[b % 16]]
  }

  function PercentBytes(bs: seq<Lnurl.Byte>): string {
    if bs == [] then "" else PercentByte(bs[0]) + PercentBytes(bs[1..])
  }

  /**
   * `encodeURIComponent(s)`: an unreserved character stays, any other is
   * replaced by the percent escapes of its UTF-8 bytes.
   */
  function EncodeUriComponent(s: string): string {
    if s == [] then ""
    else (if UriUnreserved(s[0]) then [s[0]] else PercentBytes(Lnurl.Utf8Char(s[0]))) + EncodeUriComponent(s[1..])
  }

  /** The bytes a percent-encoded text stands for: `%` and two hexadecimal digits is one byte, any other character its own code. */
  function PercentDecode(t: string): seq<Lnurl.Byte> {
    if t == [] then []
    else if |t| >= 3 && t[0] == '%' && DigitValue(t[1]) < 16 && DigitValue(t[2]) < 16 then
      [DigitValue(t[1]) * 16 + DigitValue(t[2])] + PercentDecode(t[3..])
    else [if t[0] as int < 256 then t[0] as int else 0] + PercentDecode(t[1..])
  }

  /** Text that cannot end the query parameter: only unreserved characters and `%`. */
  predicate UriSafe(t: string) {
    forall i :: 0 <= i < |t| ==> UriUnreserved(t[i]) || t[i] == '%'
  }

  lemma HexDigit(d: nat)
    requires d < 16
    ensures DigitValue(HexDigits[d]) == d && UriUnreserved(HexDigits[d])
  {
  }

  lemma DecodeOne(b: Lnurl.Byte, rest: string)
    ensures PercentDecode(PercentByte(b) + rest) == [b] + PercentDecode(rest)
  {
    var t := PercentByte(b) + rest;
    HexDigit(b / 16);
    HexDigit(b % 16);
    assert t[0] == '%' && t[1] == HexDigits[b / 16] && t[2] == HexDigits[b % 16];
    assert t[3..] == rest;
  }

  lemma {:induction false} DecodePercentBytes(bs: seq<Lnurl.Byte>, rest: string)
    ensures PercentDecode(PercentBytes(bs) + rest) == bs + PercentDecode(rest)
  {
    if bs == [] {
      assert PercentBytes(bs) + rest == rest;
    } else {
      var tail := PercentBytes(bs[1..]) + rest;
      calc {
        PercentDecode(PercentBytes(bs) + rest);
        { assert PercentBytes(bs) + rest == PercentByte(bs[0]) + tail; }
        PercentDecode(PercentByte(bs[0]) + tail);
        { DecodeOne(bs[0], tail); }
        [bs[0]] + PercentDecode(tail);
        { DecodePercentBytes(bs[1..], rest); }
        [bs[0]] + (bs[1..] + PercentDecode(rest));
        { assert bs == [bs[0]] + bs[1..]; }
        bs + PercentDecode(rest);
      }
    }
  }

  lemma UriSafeConcat(a: string, b: string)
    requires UriSafe(a) && UriSafe(b)
    ensures UriSafe(a + b)
  {
    assert forall i :: |a| <= i < |a + b| ==> (a + b)[i] == b[i - |a|];
  }

  lemma {:induction false} PercentBytesSafe(bs: seq<Lnurl.Byte>)
    ensures UriSafe(PercentBytes(bs))
  {
    if bs != [] {
      HexDigit(bs[0] / 16);
      HexDigit(bs[0] % 16);
      PercentBytesSafe(bs[1..]);
      UriSafeConcat(PercentByte(bs[0]), PercentBytes(bs[1..]));
    }
  }

  /**
   * The encoding is undone by percent-decoding, which gives the text's UTF-8
   * bytes, and it holds no character that could end the parameter
   * (`&`, `#`, `=`, a space).
   */
  lemma {:induction false} EncodeUriComponentDecodes(s: string)
    ensures PercentDecode(EncodeUriComponent(s)) == Lnurl.Utf8(s)
    ensures UriSafe(EncodeUriComponent(s))
  {
    EncodeDecodes(s);
    EncodeSafe(s);
  }

  lemma {:induction false} EncodeDecodes(s: string)
    ensures PercentDecode(EncodeUriComponent(s)) == Lnurl.Utf8(s)
  {
    if s != [] {
      var rest := EncodeUriComponent(s[1..]);
      EncodeDecodes(s[1..]);
      assert Lnurl.Utf8(s) == Lnurl.Utf8Char(s[0]) + Lnurl.Utf8(s[1..]);
      if UriUnreserved(s[0]) {
        var t := [s[0]] + rest;
        assert t[1..] == rest;
        assert Lnurl.Utf8Char(s[0]) == [s[0] as int];
      } else {
        DecodePercentBytes(Lnurl.Utf8Char(s[0]), rest);
      }
    }
  }

  lemma {:induction false} EncodeSafe(s: string)
    ensures UriSafe(EncodeUriComponent(s))
  {
    if s != [] {
      EncodeSafe(s[1..]);
      if !UriUnreserved(s[0]) {
        PercentBytesSafe(Lnurl.Utf8Char(s[0]));
      }
      var head := if UriUnreserved(s[0]) then [s[0]] else PercentBytes(Lnurl.Utf8Char(s[0]));
      UriSafeConcat(head, EncodeUriComponent(s[1..]));
    }
  }

  /** Text made of unreserved characters is encoded as itself. */
  lemma {:induction false} EncodeUnreserved(s: string)
    requires forall i :: 0 <= i < |s| ==> UriUnreserved(s[i])
    ensures EncodeUriComponent(s) == s
  {
    if s != [] {
      EncodeUnreserved(s[1..]);
    }
  }

  /** `encodeURIComponent(endpoint)`: an endpoint left `undefined` is sent as the text `undefined`. */
  function EndpointParameter(endpoint: Option<string>): string {
    EncodeUriComponent(if endpoint.Some? then endpoint.value else "undefined")
  }

  /**
   * The `url` parameter of the metadata request: for an address it decodes
   * to the well-known URL's bytes and stays inside its parameter; a string
   * without `@` asks the proxy about `undefined`.
   */
  lemma {:induction false} MetadataRequestParameter(lnurl: string, sats: int, zapRequest: Json, metadata: HttpReply, callback: HttpReply)
    ensures var p := EndpointParameter(GetLightningInvoice(lnurl, sats, zapRequest, metadata, callback).endpoint);
      ('@' in lnurl ==> PercentDecode(p) == Lnurl.Utf8(Lnurl.AddressUrl(lnurl).value) && UriSafe(p))
      && ('@' !in lnurl ==> p == "undefined")
  {
    var endpoint := GetLightningInvoice(lnurl, sats, zapRequest, metadata, callback).endpoint;
    if '@' in lnurl {
      EncodeUriComponentDecodes(endpoint.value);
    } else {
      EncodeUnreserved("undefined");
    }
  }

  // ----- properties of the chain -----

  /** An invoice is returned only after all four metadata checks and the callback checks passed. */
  lemma {:induction false} InvoiceNeedsEveryCheck(lnurl: string, sats: int, zapRequest: Json, metadata: HttpReply, callback: HttpReply)
    requires GetLightningInvoice(lnurl, sats, zapRequest, metadata, callback).result.Success?
    ensures metadata.Reply? && metadata.body.Some? && MetadataAccepted(metadata.body.value, sats * 1000)
    ensures callback.Reply? && callback.ok && callback.body.Some?
    ensures var pr := GetLightningInvoice(lnurl, sats, zapRequest, metadata, callback).result.value;
      Truthy(Some(pr)) && Some(pr) == Prop(Payload(callback.body.value).value, "pr")
  {
  }

  /**
   * The amount check comes before the `allowsNostr` check: an endpoint that
   * does not support zaps still reports the amount when the amount is out of
   * range.
   */
  lemma {:induction false} AmountCheckedBeforeNostr(lnurl: string, sats: int, zapRequest: Json, body: Json, callback: HttpReply)
    requires HasCallback(body) && !InRange(Payload(body).value, sats * 1000) && !AllowsNostr(Payload(body).value)
    ensures var n := GetLightningInvoice(lnurl, sats, zapRequest, Reply(true, Some(body)), callback);
      n.request.None? && n.result.Failure? && n.result.error.AmountOutOfRange?
  {
  }

  /** A metadata object with a callback, the given bounds and zap support. */
  function ZapEndpoint(min: int, max: int): Json {
    JObj(map[
      "success" := JBool(true),
      "data" := JObj(map[
        "callback" := JStr("https://example.com/lnurlp/callback"),
        "minSendable" := JNum(min),
        "maxSendable" := JNum(max),
        "allowsNostr" := JBool(true),
        "nostrPubkey" := JStr("9630f464cca6a5147aa8a35f0bcdd3ce485324e732fd39e09233b1d848238f31")])])
  }

  /**
   * With `minSendable` 1000000 and `maxSendable` 100000000 (1000 to 100000
   * sats), 500 sats is refused before any callback request, and 5000 sats goes
   * on to the callback as 5000000 millisats.
   */
  lemma {:induction false} AmountRangeExample(lnurl: string, zapRequest: Json, callback: HttpReply)
    ensures var n := GetLightningInvoice(lnurl, 500, zapRequest, Reply(true, Some(ZapEndpoint(1000000, 100000000))), callback);
      n.request.None? && n.result == Failure(AmountOutOfRange(Some(JNum(1000000)), Some(JNum(100000000))))
    ensures var n := GetLightningInvoice(lnurl, 5000, zapRequest, Reply(true, Some(ZapEndpoint(1000000, 100000000))), callback);
      n.request.Some? && n.request.value.amount == 5000000
  {
    EndpointFields(1000000, 100000000);
  }

  /** The bounds of a zap endpoint's metadata read back, and it names a callback. */
  lemma {:induction false} EndpointFields(min: int, max: int)
    ensures var body := ZapEndpoint(min, max);
      Prop(body, "data").Some?
      && Prop(Prop(body, "data").value, "minSendable") == Some(JNum(min))
      && Prop(Prop(body, "data").value, "maxSendable") == Some(JNum(max))
      && HasCallback(body)
  {
    var body := ZapEndpoint(min, max);
    var meta := Prop(body, "data").value;
    assert Prop(meta, "minSendable") == Some(JNum(min));
    assert Prop(meta, "maxSendable") == Some(JNum(max));
    assert HasCallback(body);
  }

  /** The range is inclusive at both ends. */
  lemma {:induction false} BoundsAreInclusive(meta: Json, min: int, max: int)
    requires Prop(meta, "minSendable") == Some(JNum(min)) && Prop(meta, "maxSendable") == Some(JNum(max))
    ensures forall msats :: InRange(meta, msats) <==> min <= msats <= max
  {
  }

  /**
   * Bounds sent as strings are converted as JavaScript converts them: a
   * signed `maxSendable` of `"-5"` refuses every amount above -5, a
   * hexadecimal `"0x3e8"` is 1000, and `"Infinity"` lifts the limit.
   */
  lemma {:induction false} StringBoundsConverted(meta: Json, msats: int)
    ensures Prop(meta, "maxSendable") == Some(JStr("-5")) && msats > -5 ==> !InRange(meta, msats)
    ensures Prop(meta, "minSendable") == Some(JStr("0x3e8")) && msats < 1000 ==> !InRange(meta, msats)
    ensures Prop(meta, "minSendable").None? && Prop(meta, "maxSendable") == Some(JStr("Infinity")) ==> InRange(meta, msats)
  {
    MinusFive();
    HexThousand();
    InfinityNumber();
  }

  /** A missing bound does not restrict the amount: comparing with `undefined` is false. */
  lemma {:induction false} MissingBoundsAcceptAnyAmount(meta: Json, msats: int)
    requires Prop(meta, "minSendable").None? && Prop(meta, "maxSendable").None?
    ensures InRange(meta, msats)
  {
  }
}
