/**
 * The zap button (`handleZap`): the provider checks, the author's Lightning
 * address, the amount the user types, the NIP-57 zap request (kind 9734) and
 * its tags, the invoice negotiation and the payment.
 *
 * The browser's providers, the prompt, the clock, the relays, the two proxies
 * and the wallet are inputs; hashing and signing the request are function
 * parameters.
 */
module Zap {
  import opened Wrappers
  import opened Strings
  import opened Json
  import Lnurl
  import Negotiation
  import Profile

  // ----- parseInt -----

  /** The longest prefix of `s` made of digits of `radix`. */
  function RadixRun(s: string, radix: nat): (d: string)
    ensures |d| <= |s| && d == s[..|d|]
    ensures forall i :: 0 <= i < |d| ==> IsDigitIn(d[i], radix)
    ensures |d| < |s| ==> !IsDigitIn(s[|d|], radix)
  {
    if s != [] && IsDigitIn(s[0], radix) then [s[0]] + RadixRun(s[1..], radix) else []
  }

  /**
   * JavaScript `parseInt(s)` with no radix, None for `NaN`: leading
   * whitespace skipped, one optional sign, a `0x` or `0X` prefix switching to
   * hexadecimal, then the longest run of digits; anything after it is ignored.
   */
  function ParseInt(s: string): (r: Option<int>)
  {
    ParseSigned(TrimStart(s))
  }

  /** `parseInt` after the whitespace: sign, prefix, digits. */
  function ParseSigned(t: string): (r: Option<int>)
  {
    var negative := t != [] && t[0] == '-';
    var u := if t != [] && (t[0] == '-' || t[0] == '+') then t[1..] else t;
    var hex := |u| >= 2 && u[0] == '0' && (u[1] == 'x' || u[1] == 'X');
    var radix := if hex then 16 else 10;
    var digits := RadixRun(if hex then u[2..] else u, radix);
    if digits == [] then None
    else
      var v: int := NumeralValue(digits, radix);
      Some(if negative then -v else v)
  }

  lemma {:induction false} RadixRunAll(s: string, radix: nat)
    requires forall i :: 0 <= i < |s| ==> IsDigitIn(s[i], radix)
    ensures RadixRun(s, radix) == s
  {
    if s != [] {
      RadixRunAll(s[1..], radix);
    }
  }

  lemma {:induction false} RadixRunPrefix(s: string, rest: string, radix: nat)
    requires forall i :: 0 <= i < |s| ==> IsDigitIn(s[i], radix)
    requires rest == [] || !IsDigitIn(rest[0], radix)
    ensures RadixRun(s + rest, radix) == s
  {
    if s == [] {
      assert s + rest == rest;
    } else {
      assert (s + rest)[1..] == s[1..] + rest;
      RadixRunPrefix(s[1..], rest, radix);
    }
  }

  /**
   * `parseInt` reads a decimal numeral back, whatever follows it, provided
   * that the next character is not a digit and does not turn a lone `0` into
   * a `0x` prefix.
   */
  lemma {:induction false} ParseIntNumeral(n: nat, rest: string)
    requires rest == [] || (!IsDecimalDigit(rest[0]) && (n != 0 || (rest[0] != 'x' && rest[0] != 'X')))
    ensures ParseInt(NatToString(n) + rest) == Some(n)
  {
    var s := NatToString(n);
    var w := s + rest;
    assert w[0] == s[0];
    assert TrimStart(w) == w;
    if |s| == 1 {
      assert s[0] == '0' ==> n == 0;
    } else {
      assert w[1] == s[1];
    }
    RadixRunPrefix(s, rest, 10);
    NatToStringValue(n);
  }

  /** The amount tag reads back as the millisat amount. */
  lemma ParseIntNatToString(n: nat)
    ensures ParseInt(NatToString(n)) == Some(n)
  {
    ParseIntNumeral(n, "");
    assert NatToString(n) + "" == NatToString(n);
  }

  // ----- the amount -----

  datatype AmountAnswer = Cancelled | InvalidAmount | ValidAmount(sats: nat)

  /**
   * The prompt's answer: no answer or an empty one cancels silently;
   * otherwise it must parse to a number above zero.
   */
  function ReadAmount(answer: Option<string>): (r: AmountAnswer)
    ensures r.Cancelled? <==> answer.None? || answer.value == ""
    ensures r.ValidAmount? ==> ParseInt(answer.value) == Some(r.sats) && r.sats > 0
    ensures r.InvalidAmount? ==> ParseInt(answer.value).None? || ParseInt(answer.value).value <= 0
  {
    match answer
    case None => Cancelled
    case Some(text) =>
      if text == "" then Cancelled
      else
        match ParseInt(text)
        case None => InvalidAmount
        case Some(v) => if v <= 0 then InvalidAmount else ValidAmount(v)
  }

  /** Any positive decimal numeral is accepted as that many sats, whatever text follows it. */
  lemma {:induction false} ReadAmountNumeral(n: nat, rest: string)
    requires n > 0
    requires rest == [] || !IsDecimalDigit(rest[0])
    ensures ReadAmount(Some(NatToString(n) + rest)) == ValidAmount(n)
  {
    ParseIntNumeral(n, rest);
  }

  /** Leading whitespace is skipped, but an answer of blanks only is refused rather than cancelled. */
  lemma {:induction false} ReadAmountLeadingSpace(s: string)
    requires s != ""
    ensures ReadAmount(Some(" " + s)) == ReadAmount(Some(s))
  {
    ParseIntLeadingSpace(s);
  }

  lemma {:induction false} ParseIntLeadingSpace(s: string)
    ensures ParseInt(" " + s) == ParseInt(s)
  {
    assert (" " + s)[1..] == s;
    assert TrimStart(" " + s) == TrimStart(s);
  }

  /** A minus sign makes every amount invalid, zero included. */
  lemma {:induction false} ReadAmountNegative(n: nat)
    ensures ReadAmount(Some("-" + NatToString(n))) == InvalidAmount
  {
    var s := NatToString(n);
    var w := "-" + s;
    assert TrimStart(w) == w;
    assert w[1..] == s;
    RadixRunAll(s, 10);
  }

  /** An answer starting with a letter is refused. */
  lemma {:induction false} ReadAmountWord(s: string)
    requires s != [] && 'a' <= s[0] <= 'z'
    ensures ReadAmount(Some(s)) == InvalidAmount
  {
    assert TrimStart(s) == s;
    assert !IsDigitIn(s[0], 10);
    assert RadixRun(s, 10) == [];
    assert ParseInt(s) == None;
  }

  /** `0x` switches to hexadecimal: `"0x10"` zaps 16 sats. */
  lemma ReadAmountHex()
    ensures ReadAmount(Some("0x10")) == ValidAmount(16)
  {
    assert TrimStart("0x10") == "0x10";
    assert "0x10"[2..] == "10";
    RadixRunAll("10", 16);
    assert NumeralValue("1", 16) == 1;
    assert NumeralValue("10", 16) == 16;
  }

  // ----- the zap request -----

  /** The zap request before it is hashed and signed. */
  datatype ZapRequest = ZapRequest(kind: int, createdAt: int, content: string, tags: seq<seq<string>>, pubkey: string)

  /** The note being zapped: its id and its author. */
  datatype Note = Note(id: string, pubkey: string)

  const ZapRequestKind := 9734

  /** The tags, in the script's order: recipient, note, millisats, relays, lnurl. */
  function ZapTags(note: Note, sats: nat, relays: seq<string>, lnurl: string): seq<seq<string>> {
    [["p", note.pubkey], ["e", note.id], ["amount", NatToString(sats * 1000)], ["relays"] + relays, ["lnurl", lnurl]]
  }

  /** The values of the first tag called `name`. */
  function TagValues(tags: seq<seq<string>>, name: string): (r: Option<seq<string>>)
    ensures r.Some? ==> exists i :: 0 <= i < |tags| && |tags[i]| >= 1 && tags[i][0] == name && r.value == tags[i][1..]
  {
    if tags == [] then None
    else if |tags[0]| >= 1 && tags[0][0] == name then Some(tags[0][1..])
    else match TagValues(tags[1..], name)
      case None => None
      case Some(v) =>
        assert exists i :: 1 <= i < |tags| && |tags[i]| >= 1 && tags[i][0] == name && v == tags[i][1..] by {
          var k :| 0 <= k < |tags[1..]| && |tags[1..][k]| >= 1 && tags[1..][k][0] == name && v == tags[1..][k][1..];
          assert tags[k + 1] == tags[1..][k];
        }
        Some(v)
  }

  /**
   * `Math.floor(Date.now() / 1000)` and the tags: the request always has kind
   * 9734 and empty content.
   */
  function BuildZapRequest(note: Note, sats: nat, relays: seq<string>, address: string, sender: string, nowMillis: int): ZapRequest {
    ZapRequest(ZapRequestKind, nowMillis / 1000, "", ZapTags(note, sats, relays, Lnurl.GetLnurl(address)), sender)
  }

  /**
   * The tags say what NIP-57 asks of them: the author and note zapped, the
   * amount in millisats as a decimal string that reads back as `sats * 1000`,
   * `relays` followed by the configured relays in order, and the lnurl tag.
   */
  lemma {:induction false} ZapTagsContents(note: Note, sats: nat, relays: seq<string>, lnurl: string)
    ensures var t := ZapTags(note, sats, relays, lnurl);
      TagValues(t, "p") == Some([note.pubkey])
      && TagValues(t, "e") == Some([note.id])
      && TagValues(t, "amount") == Some([NatToString(sats * 1000)])
      && TagValues(t, "relays") == Some(relays)
      && TagValues(t, "lnurl") == Some([lnurl])
  {
    var t := ZapTags(note, sats, relays, lnurl);
    var t2 := [["amount", NatToString(sats * 1000)], ["relays"] + relays, ["lnurl", lnurl]];
    assert t[2..] == t2;
    TailTags(NatToString(sats * 1000), relays, lnurl);
    assert TagValues(t, "p") == Some([note.pubkey]);
    assert TagValues(t[1..], "e") == Some([note.id]);
    forall name | name in {"amount", "relays", "lnurl"}
      ensures TagValues(t, name) == TagValues(t2, name)
    {
      assert t[0][0] != name && t[1..][0][0] != name;
      assert t[1..][1..] == t2;
    }
  }

  /** The last three tags of a zap request, each found under its own name. */
  lemma {:induction false} TailTags(amount: string, relays: seq<string>, lnurl: string)
    ensures var t := [["amount", amount], ["relays"] + relays, ["lnurl", lnurl]];
      TagValues(t, "amount") == Some([amount])
      && TagValues(t, "relays") == Some(relays)
      && TagValues(t, "lnurl") == Some([lnurl])
  {
    var t := [["amount", amount], ["relays"] + relays, ["lnurl", lnurl]];
    assert TagValues(t[1..][1..], "lnurl") == Some([lnurl]);
    assert TagValues(t[1..], "relays") == Some(relays);
    assert TagValues(t[1..], "lnurl") == TagValues(t[1..][1..], "lnurl");
    assert TagValues(t, "lnurl") == TagValues(t[1..], "lnurl");
    assert TagValues(t, "relays") == TagValues(t[1..], "relays");
  }

  /** The amount tag of a zap for `sats` reads back, through `parseInt`, as `sats * 1000` millisats. */
  lemma {:induction false} AmountTagReadsBack(note: Note, sats: nat, relays: seq<string>, lnurl: string)
    ensures var amount := TagValues(ZapTags(note, sats, relays, lnurl), "amount");
      amount.Some? && |amount.value| == 1 && ParseInt(amount.value[0]) == Some(sats * 1000)
  {
    ZapTagsContents(note, sats, relays, lnurl);
    ParseIntNatToString(sats * 1000);
  }

  /** The request is stamped with the current second, truncated; its lnurl tag is the address's tag. */
  lemma {:induction false} ZapRequestFields(note: Note, sats: nat, relays: seq<string>, address: string, sender: string, nowMillis: int)
    ensures var z := BuildZapRequest(note, sats, relays, address, sender, nowMillis);
      z.kind == 9734 && z.content == "" && z.pubkey == sender
      && z.createdAt * 1000 <= nowMillis < z.createdAt * 1000 + 1000
      && TagValues(z.tags, "lnurl") == Some([Lnurl.GetLnurl(address)])
  {
    ZapTagsContents(note, sats, relays, Lnurl.GetLnurl(address));
  }

  /** The signed request as `JSON.stringify` sends it. */
  function ZapRequestJson(z: ZapRequest, id: string, sig: string): Json {
    JObj(map[
      "kind" := JNum(z.kind),
      "created_at" := JNum(z.createdAt),
      "content" := JStr(z.content),
      "tags" := JArr(seq(|z.tags|, i requires 0 <= i < |z.tags| =>
        JArr(seq(|z.tags[i]|, j requires 0 <= j < |z.tags[i]| => JStr(z.tags[i][j]))))),
      "pubkey" := JStr(z.pubkey),
      "id" := JStr(id),
      "sig" := JStr(sig)])
  }

  // ----- the whole click -----

  /** `profile.lud16 || profile.lud06`: the `lud16` address wins when both are set. */
  function PreferredAddress(profile: Json): (r: Option<Json>)
    ensures Truthy(Prop(profile, "lud16")) ==> r == Prop(profile, "lud16")
    ensures !Truthy(Prop(profile, "lud16")) ==> r == Prop(profile, "lud06")
  {
    JsOr(Prop(profile, "lud16"), Prop(profile, "lud06"))
  }

  /** Everything outside the script that a click depends on. */
  datatype Environment = Environment(
    hasWebln: bool,                   // `window.webln` is defined
    hasNostr: bool,                   // `window.nostr` is defined
    enableOk: bool,                   // `webln.enable()` resolved
    publicKey: Option<string>,        // `nostr.getPublicKey()`, None when it threw
    probes: seq<Profile.RelayProbe>,  // what each configured relay answered, in the order of `relays`
    answer: Option<string>,           // the prompt's answer, None when cancelled
    nowMillis: int,                   // `Date.now()`
    metadata: Negotiation.HttpReply,  // the LNURL proxy's answer
    callback: Negotiation.HttpReply,  // the callback proxy's answer
    paymentOk: bool)                  // `webln.sendPayment` resolved

  datatype ZapError =
    | EnableRefused
    | NoPublicKey
    | ProfileNotFound            // Profile.NotFound
    | AddressNotString           // the address has no `includes` method
    | InvoiceFailed(f: Negotiation.Failure)
    | PaymentFailed

  /** What the user is told: one of the alerts, or nothing when the prompt was cancelled. */
  datatype Notice =
    | InstallWebln
    | InstallNostr
    | Silent
    | EnterValidAmount
    | ZapSent(sats: nat)
    | ZapFailed(error: ZapError)

  const FailurePrefix := "Failed to send zap: "
  const SentPrefix := "Zap sent successfully! Amount: "

  /**
   * The failures whose `error.message` is one of the script's own texts; the
   * others come from the browser, the providers or the engine.
   */
  function FixedMessage(e: ZapError): Option<string> {
    match e
    case ProfileNotFound => Some(Profile.NotFound)
    case InvoiceFailed(f) => Negotiation.Message(f)
    case _ => None
  }

  /**
   * The `alert` a click ends with, None when it ends without one (the prompt
   * was cancelled). `engineMessage` is the `error.message` of a failure whose
   * text the script does not write itself.
   */
  function Alert(n: Notice, engineMessage: ZapError -> string): (r: Option<string>)
    ensures r.None? <==> n.Silent?
    ensures n.ZapFailed? ==> r.Some? && StartsWith(r.value, FailurePrefix)
    ensures n.ZapFailed? && FixedMessage(n.error).Some? ==> r == Some(FailurePrefix + FixedMessage(n.error).value)
    ensures n.ZapSent? ==> r.Some? && StartsWith(r.value, SentPrefix)
  {
    match n
    case InstallWebln => Some("Please install a WebLN provider (like Alby) to send zaps!")
    case InstallNostr => Some("Please install a Nostr provider (like Alby) to send zaps!")
    case Silent => None
    case EnterValidAmount => Some("Please enter a valid amount")
    case ZapSent(sats) => Some(SentPrefix + NatToString(sats) + " sats")
    case ZapFailed(e) =>
      Some(FailurePrefix + if FixedMessage(e).Some? then FixedMessage(e).value else engineMessage(e))
  }

  /** The success alert shows the amount: the text after its fixed start reads back, through `parseInt`, as the sats sent. */
  lemma {:induction false} AlertReportsAmount(sats: nat, engineMessage: ZapError -> string)
    ensures var a := Alert(ZapSent(sats), engineMessage).value;
      |a| >= |SentPrefix| && ParseInt(a[|SentPrefix|..]) == Some(sats)
  {
    var d := NatToString(sats);
    assert Alert(ZapSent(sats), engineMessage) == Some(SentPrefix + d + " sats");
    AfterPrefix(SentPrefix, d, " sats");
    assert " sats"[0] == ' ';
    ParseIntNumeral(sats, " sats");
  }

  lemma AfterPrefix(p: string, d: string, tail: string)
    ensures |p + d + tail| >= |p| && (p + d + tail)[|p|..] == d + tail
  {
    assert p + d + tail == p + (d + tail);
  }

  datatype SignedZap = SignedZap(request: ZapRequest, id: string, sig: string)

  /** What one click did. */
  datatype ZapRun = ZapRun(
    notice: Notice,
    contacted: nat,                                  // relays asked for the author's profile
    address: Option<string>,                         // the Lightning address used
    zap: Option<SignedZap>,                          // the zap request built
    negotiation: Option<Negotiation.Negotiation>,    // the invoice negotiation
    paid: Option<Json>)                              // the invoice handed to the wallet

  /** The user got as far as the amount prompt: providers present, enabled, key and profile found. */
  predicate ReachesPrompt(env: Environment) {
    env.hasWebln && env.hasNostr && env.enableOk && env.publicKey.Some?
    && Profile.FirstUsable(env.probes).Some?
  }

  /** The Lightning address the author's first usable profile offers. */
  function AuthorAddress(env: Environment): (r: Option<Json>)
    requires Profile.FirstUsable(env.probes).Some?
    ensures r.Some? && Truthy(r)
  {
    Profile.FoundProfileHasAddress(env.probes);
    PreferredAddress(env.probes[Profile.FirstUsable(env.probes).value].profile)
  }

  /** The amount was accepted and the author's address is a string: the zap request gets built. */
  predicate BuildsZap(env: Environment) {
    ReachesPrompt(env) && ReadAmount(env.answer).ValidAmount? && AuthorAddress(env).value.JStr?
  }

  /**
   * `handleZap(event)`. The checks `!authorProfile` and `!lnurl` of the script
   * can never fail, because the profile search only returns profiles with a
   * truthy `lud16` or `lud06`; the method asserts as much.
   */
  method HandleZap(note: Note, relays: seq<string>, env: Environment,
                   hash: ZapRequest -> string, sign: (ZapRequest, string, string) -> string)
    returns (run: ZapRun)
    requires |env.probes| == |relays|
    ensures run.notice == InstallWebln <==> !env.hasWebln
    ensures run.notice == InstallNostr <==> env.hasWebln && !env.hasNostr
    ensures run.notice == ZapFailed(EnableRefused) <==> env.hasWebln && env.hasNostr && !env.enableOk
    ensures run.notice == ZapFailed(NoPublicKey) <==> env.hasWebln && env.hasNostr && env.enableOk && env.publicKey.None?
    ensures run.notice == ZapFailed(ProfileNotFound) <==>
      env.hasWebln && env.hasNostr && env.enableOk && env.publicKey.Some? && Profile.FirstUsable(env.probes).None?
    ensures run.notice == ZapFailed(ProfileNotFound) ==> run.contacted == |env.probes|
    ensures ReachesPrompt(env) ==> run.contacted == Profile.FirstUsable(env.probes).value + 1
    ensures !env.hasWebln || !env.hasNostr || !env.enableOk || env.publicKey.None? ==>
      run.contacted == 0 && run.zap.None? && run.negotiation.None?
    ensures run.notice == Silent <==> ReachesPrompt(env) && ReadAmount(env.answer).Cancelled?
    ensures run.notice == EnterValidAmount <==> ReachesPrompt(env) && ReadAmount(env.answer).InvalidAmount?
    ensures run.notice == ZapFailed(AddressNotString) <==>
      ReachesPrompt(env) && ReadAmount(env.answer).ValidAmount? && !AuthorAddress(env).value.JStr?
    ensures run.zap.Some? <==> BuildsZap(env)
    ensures run.zap.Some? <==> run.negotiation.Some?
    ensures run.zap.Some? ==>
      run.address.Some? && AuthorAddress(env) == Some(JStr(run.address.value))
      && run.zap.value.request == BuildZapRequest(note, ReadAmount(env.answer).sats, relays, run.address.value, env.publicKey.value, env.nowMillis)
      && run.zap.value.id == hash(run.zap.value.request)
      && run.zap.value.sig == sign(run.zap.value.request, run.zap.value.id, env.publicKey.value)
      && run.negotiation.value == Negotiation.GetLightningInvoice(run.address.value, ReadAmount(env.answer).sats,
           ZapRequestJson(run.zap.value.request, run.zap.value.id, run.zap.value.sig), env.metadata, env.callback)
    ensures run.zap.Some? && run.negotiation.value.result.Failure? <==>
      run.notice.ZapFailed? && run.notice.error.InvoiceFailed?
    ensures run.zap.Some? && run.negotiation.value.result.Failure? ==>
      run.notice == ZapFailed(InvoiceFailed(run.negotiation.value.result.error))
    ensures run.notice == ZapFailed(PaymentFailed) <==>
      run.zap.Some? && run.negotiation.value.result.Success? && !env.paymentOk
    ensures run.notice.ZapSent? <==> run.zap.Some? && run.negotiation.value.result.Success? && env.paymentOk
    ensures run.notice.ZapSent? ==> run.notice.sats == ReadAmount(env.answer).sats && run.paid == Some(run.negotiation.value.result.value)
    ensures run.paid.Some? <==> run.notice.ZapSent?
  {
    if !env.hasWebln {
      return ZapRun(InstallWebln, 0, None, None, None, None);
    }
    if !env.hasNostr {
      return ZapRun(InstallNostr, 0, None, None, None, None);
    }
    if !env.enableOk {
      return ZapRun(ZapFailed(EnableRefused), 0, None, None, None, None);
    }
    if env.publicKey.None? {
      return ZapRun(ZapFailed(NoPublicKey), 0, None, None, None, None);
    }
    var pubkey := env.publicKey.value;

    var found, contacted := Profile.GetProfileFromEvent(env.probes);
    if found.Failure? {
      return ZapRun(ZapFailed(ProfileNotFound), contacted, None, None, None, None);
    }
    var profile := found.value;
    assert Truthy(Some(profile));
    var lnurl := PreferredAddress(profile);
    assert Truthy(lnurl);

    var answer := ReadAmount(env.answer);
    if answer.Cancelled? {
      return ZapRun(Silent, contacted, None, None, None, None);
    }
    if answer.InvalidAmount? {
      return ZapRun(EnterValidAmount, contacted, None, None, None, None);
    }
    var sats := answer.sats;

    if !lnurl.value.JStr? {
      return ZapRun(ZapFailed(AddressNotString), contacted, None, None, None, None);
    }
    var address := lnurl.value.s;
    var request := BuildZapRequest(note, sats, relays, address, pubkey, env.nowMillis);
    var id := hash(request);
    var sig := sign(request, id, pubkey);
    var zap := SignedZap(request, id, sig);

    var negotiation := Negotiation.GetLightningInvoice(address, sats, ZapRequestJson(request, id, sig), env.metadata, env.callback);
    if negotiation.result.Failure? {
      return ZapRun(ZapFailed(InvoiceFailed(negotiation.result.error)), contacted, Some(address), Some(zap), Some(negotiation), None);
    }
    if !env.paymentOk {
      return ZapRun(ZapFailed(PaymentFailed), contacted, Some(address), Some(zap), Some(negotiation), None);
    }
    return ZapRun(ZapSent(sats), contacted, Some(address), Some(zap), Some(negotiation), Some(negotiation.result.value));
  }
}
