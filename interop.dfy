/**
 * How the two halves fit together: the script posts its callback request to
 * `handle_callback_proxy` and reads the proxy's JSON answer, and the page
 * that `render_feed` writes is what the script's constructor and `init` read.
 */
module Interop {
  import opened Wrappers
  import opened Json
  import Negotiation
  import Plugin
  import Feed

  /** Decoding a well-formed callback request into arrays gives the same object. */
  lemma {:induction false} ProxyAcceptsRequest(req: Negotiation.CallbackRequest, remote: Plugin.RemoteReply, decode: string -> Option<Json>)
    requires req.url != JNull && req.nostr != JNull
    ensures Plugin.HandleCallbackProxy(Some(Negotiation.RequestJson(req)), remote, decode).query
      == Some(Plugin.CallbackQuery(req.url, req.amount, req.nostr))
  {
    var body := Negotiation.RequestJson(req);
    assert "url" in body.fields;
    assert body.fields != map[];
  }

  /**
   * Every request the script posts passes the proxy's parameter check, and
   * the amount the proxy forwards to the callback is the zap's millisats.
   */
  lemma {:induction false} NegotiationRequestAccepted(lnurl: string, sats: int, zapRequest: Json,
                                                     metadata: Negotiation.HttpReply, callback: Negotiation.HttpReply,
                                                     remote: Plugin.RemoteReply, decode: string -> Option<Json>)
    requires zapRequest != JNull
    ensures var n := Negotiation.GetLightningInvoice(lnurl, sats, zapRequest, metadata, callback);
      n.request.Some? ==>
        Plugin.HandleCallbackProxy(Some(Negotiation.RequestJson(n.request.value)), remote, decode).query
          == Some(Plugin.CallbackQuery(n.request.value.url, sats * 1000, zapRequest))
  {
    var n := Negotiation.GetLightningInvoice(lnurl, sats, zapRequest, metadata, callback);
    if n.request.Some? {
      assert Truthy(Some(n.request.value.url));
      ProxyAcceptsRequest(n.request.value, remote, decode);
    }
  }

  /** The proxy always answers with status 200; the script reads the JSON envelope. */
  function AsClientReply(reply: Plugin.ProxyReply): Negotiation.HttpReply {
    Negotiation.Reply(true, Some(Plugin.ReplyJson(reply)))
  }

  /**
   * The script takes an invoice from the proxy exactly when the proxy
   * succeeded with a truthy body whose `pr` is truthy; every proxy error,
   * whatever its text, reaches the user as "No payment request in response".
   */
  lemma {:induction false} ClientReadsProxyReply(reply: Plugin.ProxyReply)
    ensures var r := Negotiation.ReadInvoice(AsClientReply(reply));
      (r.Success? <==> reply.SendSuccess? && Truthy(Some(reply.data)) && Truthy(Prop(reply.data, "pr")))
      && (r.Success? ==> Some(r.value) == Prop(reply.data, "pr"))
      && (r.Failure? ==> r.error == Negotiation.NoPaymentRequest)
  {
    var body := Plugin.ReplyJson(reply);
    assert Prop(body, "data") == Some(body.fields["data"]);
    assert Prop(body, "success") == Some(body.fields["success"]);
    if reply.SendError? {
      assert !Truthy(Prop(body, "success"));
    }
  }

  /**
   * The proxy and the script disagree on an empty payment request: the proxy
   * only asks that `pr` be set, so `{"pr": ""}` is forwarded as a success,
   * and the script then refuses it.
   */
  lemma {:induction false} EmptyPaymentRequestRefusedByClient(data: Option<Json>, code: int, body: string, decode: string -> Option<Json>)
    requires Plugin.ValidParameters(data)
    requires code == 200 && decode(body) == Some(JObj(map["pr" := JStr("")]))
    ensures Plugin.HandleCallbackProxy(data, Plugin.HttpResponse(code, body), decode).reply == Plugin.SendSuccess(JObj(map["pr" := JStr("")]))
    ensures Negotiation.ReadInvoice(AsClientReply(Plugin.HandleCallbackProxy(data, Plugin.HttpResponse(code, body), decode).reply))
      == Failure(Negotiation.NoPaymentRequest)
  {
    var decoded := JObj(map["pr" := JStr("")]);
    assert "pr" in decoded.fields;
    assert decoded.fields != map[];
    ClientReadsProxyReply(Plugin.SendSuccess(decoded));
  }

  /**
   * The page `render_feed` writes: the script's relay list is the configured
   * one, or, without one, the same three defaults the script would fall back
   * to; its authors come from the npub lines.
   */
  lemma RenderedFeedElement(options: map<string, string>)
    ensures var lists := Plugin.RenderFeed(options);
      Feed.ClientRelays(Some(Feed.FeedElement(lists.npubs, lists.relays)))
        == (if Plugin.RelayListKey in options then Plugin.Lines(options[Plugin.RelayListKey]) else Feed.ClientRelays(None))
  {
  }
}
