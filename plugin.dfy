/**
 * The WordPress side: the settings `sanitize` callback, the lists that
 * `render_feed` hands to the script, and the decisions of the AJAX handler
 * `handle_callback_proxy`, which forwards the zap request to the LNURL
 * callback and checks the answer.
 *
 * WordPress itself (`sanitize_textarea_field`, the outbound request,
 * `json_decode` of the callback's body) is passed in: a cleaning function,
 * the remote reply as a value, and a decoding function.
 */
module Plugin {
  import opened Wrappers
  import opened Strings
  import opened Json

  // ----- settings -----

  const NpubListKey := "npub_list"
  const RelayListKey := "relay_list"

  /**
   * `sanitize($input)`: only the two known options survive, each cleaned;
   * an option is kept exactly when the form sent it.
   */
  function Sanitize(input: map<string, string>, clean: string -> string): (output: map<string, string>)
    ensures output.Keys == input.Keys * {NpubListKey, RelayListKey}
    ensures forall k :: k in output ==> output[k] == clean(input[k])
  {
    var withNpubs: map<string, string> :=
      if NpubListKey in input then map[NpubListKey := clean(input[NpubListKey])] else map[];
    if RelayListKey in input then withNpubs[RelayListKey := clean(input[RelayListKey])] else withNpubs
  }

  /** Saving the settings twice changes nothing more, provided the cleaning is itself idempotent. */
  lemma SanitizeIdempotent(input: map<string, string>, clean: string -> string)
    requires forall s :: clean(clean(s)) == clean(s)
    ensures Sanitize(Sanitize(input, clean), clean) == Sanitize(input, clean)
  {
    var once := Sanitize(input, clean);
    var twice := Sanitize(once, clean);
    assert twice.Keys == once.Keys;
    forall k | k in twice ensures twice[k] == once[k] {
      assert once[k] == clean(input[k]);
    }
  }

  // ----- render_feed -----

  /** `explode("\n", str_replace("\r", "", $text))`. */
  function Lines(text: string): seq<string> {
    Split(ReplaceAll(text, '\r', ""), '\n')
  }

  const DefaultRelays: seq<string> := ["wss://relay.damus.io", "wss://relay.nostr.band", "wss://nos.lol"]

  /** What the admin page shows in the relay box while no list is saved. */
  const DefaultRelayText := "wss://relay.damus.io" + "\n" + "wss://relay.nostr.band" + "\n" + "wss://nos.lol"

  lemma {:induction false} CountRemoveOther(s: string, c: char, d: char)
    requires c != d
    ensures Count(ReplaceAll(s, c, ""), d) == Count(s, d)
  {
    if s != [] {
      CountRemoveOther(s[1..], c, d);
      var rest := ReplaceAll(s[1..], c, "");
      if s[0] == c {
        assert ReplaceAll(s, c, "") == rest;
      } else {
        assert ReplaceAll(s, c, "") == [s[0]] + rest;
        assert ([s[0]] + rest)[1..] == rest;
      }
    }
  }

  /**
   * One entry per line break plus one, empty lines included; no entry holds
   * a line break or a carriage return; and joining the entries with line
   * breaks gives the text back without its carriage returns.
   */
  lemma {:induction false} LinesShape(text: string)
    ensures |Lines(text)| == Count(text, '\n') + 1
    ensures forall i :: 0 <= i < |Lines(text)| ==> '\n' !in Lines(text)[i] && '\r' !in Lines(text)[i]
    ensures Join(Lines(text), '\n') == ReplaceAll(text, '\r', "")
  {
    var stripped := ReplaceAll(text, '\r', "");
    RemoveAllSpec(text, '\r');
    CountRemoveOther(text, '\r', '\n');
    SplitPieces(stripped, '\n');
    JoinSplit(stripped, '\n');
    forall i | 0 <= i < |Lines(text)| ensures '\r' !in Lines(text)[i] {
      if '\r' in Lines(text)[i] {
        SplitChars(stripped, '\n', i, '\r');
      }
    }
  }

  /** Three lines without carriage returns or line breaks read back as themselves. */
  lemma {:induction false} ThreeLines(a: string, b: string, c: string)
    requires '\n' !in a && '\n' !in b && '\n' !in c
    requires '\r' !in a && '\r' !in b && '\r' !in c
    ensures Lines(a + "\n" + b + "\n" + c) == [a, b, c]
  {
    var text := a + "\n" + b + "\n" + c;
    assert text == a + ['\n'] + (b + ['\n'] + c);
    assert '\r' !in text;
    ReplaceAllAbsent(text, '\r', "");
    SplitWithout(c, '\n');
    SplitFirst(b, '\n', c);
    SplitFirst(a, '\n', b + ['\n'] + c);
  }

  /** The saved admin default and the built-in default give the same three relays. */
  lemma DefaultRelayTextLines()
    ensures Lines(DefaultRelayText) == DefaultRelays
  {
    ThreeLines("wss://relay.damus.io", "wss://relay.nostr.band", "wss://nos.lol");
  }

  /** The two lists `render_feed` writes into `data-npubs` and `data-relays`. */
  datatype FeedLists = FeedLists(npubs: seq<string>, relays: seq<string>)

  /** `render_feed`: a missing npub list gives no authors, a missing relay list the three defaults. */
  function RenderFeed(options: map<string, string>): (r: FeedLists)
    ensures NpubListKey !in options ==> r.npubs == []
    ensures RelayListKey !in options ==> r.relays == DefaultRelays
    ensures NpubListKey in options ==> r.npubs == Lines(options[NpubListKey])
    ensures RelayListKey in options ==> r.relays == Lines(options[RelayListKey])
  {
    FeedLists(
      if NpubListKey in options then Lines(options[NpubListKey]) else [],
      if RelayListKey in options then Lines(options[RelayListKey]) else DefaultRelays)
  }

  /** Options that went through `sanitize` give lists of the cleaned texts; other keys have no effect. */
  lemma RenderSanitized(input: map<string, string>, clean: string -> string)
    ensures var lists := RenderFeed(Sanitize(input, clean));
      (NpubListKey in input ==> lists.npubs == Lines(clean(input[NpubListKey])))
      && (RelayListKey in input ==> lists.relays == Lines(clean(input[RelayListKey])))
      && (RelayListKey !in input ==> lists.relays == DefaultRelays)
  {
  }

  // ----- handle_callback_proxy -----

  /** What `wp_remote_get` produced. */
  datatype RemoteReply =
    | WpError(message: string)
    | HttpResponse(code: int, body: string)

  /** `wp_send_json_success($data)` or `wp_send_json_error($message)`. */
  datatype ProxyReply =
    | SendSuccess(data: Json)
    | SendError(message: string)

  /** The query arguments added to the callback URL. */
  datatype CallbackQuery = CallbackQuery(url: Json, amount: int, nostr: Json)

  /** What the handler did: the request it made, if any, and its answer. */
  datatype ProxyRun = ProxyRun(query: Option<CallbackQuery>, reply: ProxyReply)

  const InvalidParameters := "Invalid parameters"

  /** The posted body, as decoded into arrays, has the three parameters. */
  predicate ValidParameters(data: Option<Json>) {
    !PhpFalsy(data, true) && PhpIsset(data, "url") && PhpIsset(data, "amount") && PhpIsset(data, "nostr")
  }

  /** The callback's body, as decoded into objects, carries a payment request. */
  predicate HasPaymentRequest(decoded: Option<Json>) {
    !PhpFalsy(decoded, false) && PhpIsset(decoded, "pr")
  }

  function StatusError(code: int, body: string): string {
    "Callback returned status " + IntToString(code) + ": " + body
  }

  function InvalidResponse(body: string): string {
    "Invalid response from callback: " + body
  }

  /**
   * `handle_callback_proxy()`, after the nonce check. `data` is the posted
   * body decoded into arrays (None for PHP's null); `decode` decodes the
   * callback's body into objects.
   */
  function HandleCallbackProxy(data: Option<Json>, remote: RemoteReply, decode: string -> Option<Json>): (run: ProxyRun)
    ensures run.query.None? <==> !ValidParameters(data)
    ensures run.query.None? ==> run.reply == SendError(InvalidParameters)
    ensures run.query.Some? ==>
      var fields := data.value.fields;
      run.query.value == CallbackQuery(fields["url"], Intval(fields["amount"]), fields["nostr"])
    ensures run.reply.SendSuccess? <==>
      ValidParameters(data) && remote.HttpResponse? && remote.code == 200 && HasPaymentRequest(decode(remote.body))
    ensures run.reply.SendSuccess? ==> Some(run.reply.data) == decode(remote.body)
    ensures ValidParameters(data) && remote.WpError? ==> run.reply == SendError(remote.message)
    ensures ValidParameters(data) && remote.HttpResponse? && remote.code != 200 ==>
      run.reply == SendError(StatusError(remote.code, remote.body))
    ensures ValidParameters(data) && remote.HttpResponse? && remote.code == 200 && !HasPaymentRequest(decode(remote.body)) ==>
      run.reply == SendError(InvalidResponse(remote.body))
  {
    if PhpFalsy(data, true) || !PhpIsset(data, "url") || !PhpIsset(data, "amount") || !PhpIsset(data, "nostr") then
      ProxyRun(None, SendError(InvalidParameters))
    else
      var fields := data.value.fields;
      var query := CallbackQuery(fields["url"], Intval(fields["amount"]), fields["nostr"]);
      match remote
      case WpError(message) => ProxyRun(Some(query), SendError(message))
      case HttpResponse(code, body) =>
        if code != 200 then ProxyRun(Some(query), SendError(StatusError(code, body)))
        else
          var decoded := decode(body);
          if PhpFalsy(decoded, false) || !PhpIsset(decoded, "pr") then ProxyRun(Some(query), SendError(InvalidResponse(body)))
          else ProxyRun(Some(query), SendSuccess(decoded.value))
  }

  /** Bad parameters are refused before any outbound request: the remote side has no say in the answer. */
  lemma InvalidParametersIgnoreRemote(data: Option<Json>, r1: RemoteReply, r2: RemoteReply,
                                      d1: string -> Option<Json>, d2: string -> Option<Json>)
    requires !ValidParameters(data)
    ensures HandleCallbackProxy(data, r1, d1) == HandleCallbackProxy(data, r2, d2) == ProxyRun(None, SendError(InvalidParameters))
  {
  }

  /** The status error names the status code right after its fixed text, and ends with the body. */
  lemma {:induction false} StatusErrorParts(code: int, body: string)
    ensures var m := StatusError(code, body);
      var n := |"Callback returned status "|;
      |m| >= n + |IntToString(code)| + 2 + |body|
      && m[n..n + |IntToString(code)|] == IntToString(code)
      && m[|m| - |body|..] == body
  {
    var head := "Callback returned status ";
    var m := head + IntToString(code) + ": " + body;
    assert m == head + (IntToString(code) + (": " + body));
    assert (head + (IntToString(code) + (": " + body)))[|head|..] == IntToString(code) + (": " + body);
  }

  /**
   * The amount is passed through `intval`: a numeric string becomes its
   * number, held at `PHP_INT_MAX` when it is larger, and `true` becomes 1.
   */
  lemma IntvalOfAmount(n: nat)
    ensures Intval(JNum(n)) == n
    ensures Intval(JStr(NatToString(n))) == if n <= PhpIntMax then n else PhpIntMax
    ensures Intval(JBool(true)) == 1
  {
    var s := NatToString(n);
    NumeralLeadingInteger(s);
    NatToStringValue(n);
  }

  /** A string of decimal digits is read whole, then held to the 64-bit range. */
  lemma NumeralLeadingInteger(s: string)
    requires |s| >= 1 && forall i :: 0 <= i < |s| ==> IsDecimalDigit(s[i])
    ensures LeadingInteger(s) == Saturate(NumeralValue(s, 10))
  {
    assert PhpTrimStart(s) == s;
    assert s[0] != '-' && s[0] != '+';
    DigitRunAll(s);
  }

  lemma {:induction false} DigitRunAll(s: string)
    requires forall i :: 0 <= i < |s| ==> IsDecimalDigit(s[i])
    ensures DigitRun(s) == s
  {
    if s != [] {
      DigitRunAll(s[1..]);
    }
  }

  /** The JSON document `wp_send_json_*` writes, with HTTP status 200 in both cases. */
  function ReplyJson(reply: ProxyReply): Json {
    match reply
    case SendSuccess(d) => JObj(map["success" := JBool(true), "data" := d])
    case SendError(m) => JObj(map["success" := JBool(false), "data" := JStr(m)])
  }
}
