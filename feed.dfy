/**
 * The feed: which authors and relays `init` subscribes with, and how
 * `renderPost` adds each incoming note to the posts container, newest on top
 * and never twice.
 *
 * `nip19.decode` is a function parameter (None when it throws); whether a
 * relay connects is a function parameter too. The HTML template, the date and
 * the zap button's click handler are not modelled; a post keeps the id, the
 * processed content and the images.
 */
module Feed {
  import opened Wrappers
  import opened Strings
  import opened Json
  import Content

  /** The fields of a kind-1 note that the feed uses. */
  datatype NostrEvent = NostrEvent(id: string, content: string)

  /** One rendered post: `data-event-id`, the processed content and its images. */
  datatype Post = Post(id: string, html: string, images: seq<string>)

  function PostOf(e: NostrEvent): Post {
    Post(e.id, Content.PostHtml(e.content), Content.PostImages(e.content))
  }

  function Ids(posts: seq<Post>): (ids: seq<string>)
    ensures |ids| == |posts|
    ensures forall i :: 0 <= i < |posts| ==> ids[i] == posts[i].id
  {
    if posts == [] then [] else [posts[0].id] + Ids(posts[1..])
  }

  predicate Distinct(ids: seq<string>) {
    forall i, j :: 0 <= i < j < |ids| ==> ids[i] != ids[j]
  }

  /** What `renderPost` does to the container's posts. */
  function Render(posts: seq<Post>, e: NostrEvent): seq<Post> {
    if e.id in Ids(posts) then posts else [PostOf(e)] + posts
  }

  /** The `.nostr-posts` container. */
  class PostsContainer {
    var posts: seq<Post>

    /** No two posts carry the same event id. */
    predicate Valid()
      reads this
    {
      Distinct(Ids(posts))
    }

    constructor()
      ensures posts == [] && Valid()
    {
      posts := [];
    }

    /**
     * `renderPost(event, container)`: an event whose id is already shown is
     * ignored; otherwise its post goes in front of the first child.
     */
    method RenderPost(event: NostrEvent)
      requires Valid()
      modifies this
      ensures Valid()
      ensures posts == Render(old(posts), event)
      ensures event.id in Ids(old(posts)) ==> posts == old(posts)
      ensures event.id !in Ids(old(posts)) ==> posts == [PostOf(event)] + old(posts)
    {
      if event.id in Ids(posts) {
        return;
      }
      var html, images := Content.ProcessContent(event.content);
      var post := Post(event.id, html, images);
      RenderKeepsDistinct(posts, event);
      posts := [post] + posts;
    }
  }

  lemma {:induction false} RenderKeepsDistinct(posts: seq<Post>, e: NostrEvent)
    requires Distinct(Ids(posts))
    ensures Distinct(Ids(Render(posts, e)))
  {
    if e.id !in Ids(posts) {
      var r := [PostOf(e)] + posts;
      assert r[1..] == posts;
      forall i, j | 0 <= i < j < |r|
        ensures Ids(r)[i] != Ids(r)[j]
      {
        if i == 0 {
          assert Ids(r)[j] == Ids(posts)[j - 1];
        } else {
          assert Ids(r)[i] == Ids(posts)[i - 1] && Ids(r)[j] == Ids(posts)[j - 1];
        }
      }
    }
  }

  /** The container after the events arrived in this order, starting empty. */
  function Feed(events: seq<NostrEvent>): seq<Post> {
    if events == [] then [] else Render(Feed(events[..|events| - 1]), events[|events| - 1])
  }

  function EventIds(events: seq<NostrEvent>): set<string> {
    set i | 0 <= i < |events| :: events[i].id
  }

  /** The index of the first event that carries `id`. */
  function FirstArrival(events: seq<NostrEvent>, id: string): (k: nat)
    requires id in EventIds(events)
    ensures k < |events| && events[k].id == id
    ensures forall j :: 0 <= j < k ==> events[j].id != id
  {
    if events[0].id == id then 0
    else
      assert id in EventIds(events[1..]) by {
        var i :| 0 <= i < |events| && events[i].id == id;
        assert events[1..][i - 1] == events[i];
      }
      FirstArrival(events[1..], id) + 1
  }

  /** However the events arrive, no id is shown twice. */
  lemma {:induction false} FeedDistinct(events: seq<NostrEvent>)
    ensures Distinct(Ids(Feed(events)))
  {
    if events != [] {
      FeedDistinct(events[..|events| - 1]);
      RenderKeepsDistinct(Feed(events[..|events| - 1]), events[|events| - 1]);
    }
  }

  /**
   * The posts show exactly the ids of the events, each by the post of the
   * first event that carried it.
   */
  ghost predicate ShowsFirstArrivals(posts: seq<Post>, events: seq<NostrEvent>) {
    (forall id :: id in Ids(posts) <==> id in EventIds(events))
    && forall i :: 0 <= i < |posts| ==>
      posts[i].id in EventIds(events) && posts[i] == PostOf(events[FirstArrival(events, posts[i].id)])
  }

  /** A post above another belongs to an event that first arrived later. */
  ghost predicate NewestFirst(posts: seq<Post>, events: seq<NostrEvent>) {
    forall i, j :: 0 <= i < j < |posts| ==>
      posts[i].id in EventIds(events) && posts[j].id in EventIds(events)
      && FirstArrival(events, posts[i].id) > FirstArrival(events, posts[j].id)
  }

  lemma {:induction false} EventIdsSnoc(prefix: seq<NostrEvent>, e: NostrEvent)
    ensures EventIds(prefix + [e]) == EventIds(prefix) + {e.id}
  {
    var all := prefix + [e];
    forall id | id in EventIds(all) ensures id in EventIds(prefix) + {e.id} {
      var i :| 0 <= i < |all| && all[i].id == id;
      if i < |prefix| { assert prefix[i] == all[i]; }
    }
    forall id | id in EventIds(prefix) ensures id in EventIds(all) {
      var i :| 0 <= i < |prefix| && prefix[i].id == id;
      assert all[i] == prefix[i];
    }
    assert all[|prefix|] == e;
  }

  lemma {:induction false} FirstArrivalPrefix(prefix: seq<NostrEvent>, e: NostrEvent, id: string)
    requires id in EventIds(prefix)
    ensures id in EventIds(prefix + [e])
    ensures FirstArrival(prefix + [e], id) == FirstArrival(prefix, id)
  {
    var k := FirstArrival(prefix, id);
    var all := prefix + [e];
    assert all[k] == prefix[k];
    assert id in EventIds(all);
    assert forall j :: 0 <= j < k ==> all[j] == prefix[j];
  }

  lemma {:induction false} FirstArrivalLast(prefix: seq<NostrEvent>, e: NostrEvent)
    requires e.id !in EventIds(prefix)
    ensures e.id in EventIds(prefix + [e])
    ensures FirstArrival(prefix + [e], e.id) == |prefix|
  {
    var all := prefix + [e];
    assert all[|prefix|] == e;
    forall j | 0 <= j < |prefix| ensures all[j].id != e.id {
      assert all[j] == prefix[j];
    }
  }

  lemma {:induction false} ShowsSeen(before: seq<Post>, prefix: seq<NostrEvent>, e: NostrEvent)
    requires ShowsFirstArrivals(before, prefix) && e.id in Ids(before)
    ensures ShowsFirstArrivals(before, prefix + [e])
  {
    EventIdsSnoc(prefix, e);
    forall i | 0 <= i < |before|
      ensures before[i].id in EventIds(prefix + [e])
      ensures FirstArrival(prefix + [e], before[i].id) == FirstArrival(prefix, before[i].id)
    {
      FirstArrivalPrefix(prefix, e, before[i].id);
    }
  }

  /** A post shown before the event `e` arrives still shows the first arrival of its id afterwards. */
  lemma {:induction false} ShownPostKept(before: seq<Post>, prefix: seq<NostrEvent>, e: NostrEvent, k: nat)
    requires ShowsFirstArrivals(before, prefix) && k < |before|
    ensures before[k].id in EventIds(prefix + [e])
    ensures before[k] == PostOf((prefix + [e])[FirstArrival(prefix + [e], before[k].id)])
  {
    var first := FirstArrival(prefix, before[k].id);
    FirstArrivalPrefix(prefix, e, before[k].id);
    assert (prefix + [e])[first] == prefix[first];
  }

  lemma {:induction false} ShowsNew(before: seq<Post>, prefix: seq<NostrEvent>, e: NostrEvent)
    requires ShowsFirstArrivals(before, prefix) && e.id !in Ids(before)
    ensures ShowsFirstArrivals([PostOf(e)] + before, prefix + [e])
  {
    var after := [PostOf(e)] + before;
    EventIdsSnoc(prefix, e);
    FirstArrivalLast(prefix, e);
    assert Ids(after) == [e.id] + Ids(before);
    forall i | 0 < i < |after|
      ensures after[i].id in EventIds(prefix + [e])
      ensures after[i] == PostOf((prefix + [e])[FirstArrival(prefix + [e], after[i].id)])
    {
      assert after[i] == before[i - 1];
      ShownPostKept(before, prefix, e, i - 1);
    }
  }

  lemma {:induction false} NewestSeen(before: seq<Post>, prefix: seq<NostrEvent>, e: NostrEvent)
    requires ShowsFirstArrivals(before, prefix) && NewestFirst(before, prefix)
    ensures NewestFirst(before, prefix + [e])
  {
    forall i | 0 <= i < |before|
      ensures before[i].id in EventIds(prefix + [e])
      ensures FirstArrival(prefix + [e], before[i].id) == FirstArrival(prefix, before[i].id)
    {
      FirstArrivalPrefix(prefix, e, before[i].id);
    }
  }

  lemma {:induction false} NewestNew(before: seq<Post>, prefix: seq<NostrEvent>, e: NostrEvent)
    requires forall k :: 0 <= k < |before| ==> before[k].id in EventIds(prefix)
    requires NewestFirst(before, prefix) && e.id !in EventIds(prefix)
    ensures NewestFirst([PostOf(e)] + before, prefix + [e])
  {
    var after := [PostOf(e)] + before;
    var all := prefix + [e];
    FirstArrivalLast(prefix, e);
    forall k | 0 <= k < |before|
      ensures before[k].id in EventIds(all)
      ensures FirstArrival(all, before[k].id) == FirstArrival(prefix, before[k].id) < |prefix|
    {
      FirstArrivalPrefix(prefix, e, before[k].id);
    }
    forall i, j | 0 <= i < j < |after|
      ensures after[i].id in EventIds(all) && after[j].id in EventIds(all)
        && FirstArrival(all, after[i].id) > FirstArrival(all, after[j].id)
    {
      assert after[j] == before[j - 1];
      if i > 0 {
        assert after[i] == before[i - 1];
      }
    }
  }

  /**
   * Every event that arrived is shown, by the post of the first event with
   * its id, and nothing else is shown.
   */
  lemma {:induction false} FeedShowsFirstArrivals(events: seq<NostrEvent>)
    ensures ShowsFirstArrivals(Feed(events), events)
  {
    if events != [] {
      var prefix := events[..|events| - 1];
      var e := events[|events| - 1];
      assert prefix + [e] == events;
      FeedShowsFirstArrivals(prefix);
      if e.id in Ids(Feed(prefix)) {
        ShowsSeen(Feed(prefix), prefix, e);
      } else {
        ShowsNew(Feed(prefix), prefix, e);
      }
    }
  }

  /** Newest on top: a post above another belongs to an event that first arrived later. */
  lemma {:induction false} FeedNewestFirst(events: seq<NostrEvent>)
    ensures NewestFirst(Feed(events), events)
  {
    if events != [] {
      var prefix := events[..|events| - 1];
      var e := events[|events| - 1];
      assert prefix + [e] == events;
      FeedNewestFirst(prefix);
      FeedShowsFirstArrivals(prefix);
      if e.id in Ids(Feed(prefix)) {
        NewestSeen(Feed(prefix), prefix, e);
      } else {
        assert e.id !in EventIds(prefix);
        NewestNew(Feed(prefix), prefix, e);
      }
    }
  }

  // ----- init -----

  /** What the `#nostr-feed` element carries: its `data-npubs` and `data-relays`. */
  datatype FeedElement = FeedElement(npubs: seq<string>, relays: seq<string>)

  const DefaultRelays: seq<string> := ["wss://relay.damus.io", "wss://relay.nostr.band", "wss://nos.lol"]

  /** The constructor's relay list: the element's, or the three defaults without one. */
  function ClientRelays(feed: Option<FeedElement>): (r: seq<string>)
    ensures feed.None? ==> r == DefaultRelays
    ensures feed.Some? ==> r == feed.value.relays
  {
    match feed
    case None => DefaultRelays
    case Some(f) => f.relays
  }

  /**
   * The authors: each npub trimmed and decoded (`decode` gives the result's
   * `data`, None when decoding throws); failures and falsy results dropped.
   */
  function Pubkeys(npubs: seq<string>, decode: string -> Option<Json>): (keys: seq<Json>)
    ensures |keys| <= |npubs|
  {
    if npubs == [] then []
    else
      var d := decode(Trim(npubs[0]));
      if Truthy(d) then [d.value] + Pubkeys(npubs[1..], decode) else Pubkeys(npubs[1..], decode)
  }

  /** Every npub that decodes to a truthy value contributes it to the authors. */
  lemma {:induction false} PubkeysKeep(npubs: seq<string>, decode: string -> Option<Json>, i: nat)
    requires i < |npubs| && Truthy(decode(Trim(npubs[i])))
    ensures decode(Trim(npubs[i])).value in Pubkeys(npubs, decode)
  {
    var d := decode(Trim(npubs[0]));
    var rest := Pubkeys(npubs[1..], decode);
    assert Pubkeys(npubs, decode) == if Truthy(d) then [d.value] + rest else rest;
    if i > 0 {
      assert npubs[1..][i - 1] == npubs[i];
      PubkeysKeep(npubs[1..], decode, i - 1);
      assert decode(Trim(npubs[i])).value in rest;
    }
  }

  /** Every author is the truthy result of decoding one of the npubs. */
  lemma {:induction false} PubkeysOnly(npubs: seq<string>, decode: string -> Option<Json>, k: Json)
    requires k in Pubkeys(npubs, decode)
    ensures Truthy(Some(k))
    ensures exists i :: 0 <= i < |npubs| && decode(Trim(npubs[i])) == Some(k)
  {
    var d := decode(Trim(npubs[0]));
    var rest := Pubkeys(npubs[1..], decode);
    assert Pubkeys(npubs, decode) == if Truthy(d) then [d.value] + rest else rest;
    if Truthy(d) && k == d.value {
      assert decode(Trim(npubs[0])) == Some(k);
    } else {
      PubkeysOnly(npubs[1..], decode, k);
      var i :| 0 <= i < |npubs[1..]| && decode(Trim(npubs[1..][i])) == Some(k);
      assert npubs[i + 1] == npubs[1..][i];
    }
  }

  /** The authors keep the order of the npub list: decoding a list in two parts gives the two results in order. */
  lemma {:induction false} PubkeysConcat(a: seq<string>, b: seq<string>, decode: string -> Option<Json>)
    ensures Pubkeys(a + b, decode) == Pubkeys(a, decode) + Pubkeys(b, decode)
  {
    if a == [] {
      assert a + b == b;
    } else {
      assert (a + b)[0] == a[0];
      assert (a + b)[1..] == a[1..] + b;
      PubkeysConcat(a[1..], b, decode);
    }
  }

  /** The relays whose connection succeeded, in list order. */
  function ActiveRelays(relays: seq<string>, connects: string -> bool): (active: seq<string>)
    ensures |active| <= |relays|
    ensures forall r :: r in active <==> r in relays && connects(r)
  {
    if relays == [] then []
    else
      var rest := ActiveRelays(relays[1..], connects);
      assert forall r :: r in relays <==> r == relays[0] || r in relays[1..];
      if connects(relays[0]) then [relays[0]] + rest else rest
  }

  /** The active relays keep the configured order: a list in two parts gives its two results in order. */
  lemma {:induction false} ActiveRelaysConcat(a: seq<string>, b: seq<string>, connects: string -> bool)
    ensures ActiveRelays(a + b, connects) == ActiveRelays(a, connects) + ActiveRelays(b, connects)
  {
    if a == [] {
      assert a + b == b;
    } else {
      assert (a + b)[0] == a[0];
      assert (a + b)[1..] == a[1..] + b;
      ActiveRelaysConcat(a[1..], b, connects);
    }
  }

  /** The subscription filter: text notes by the authors, twenty at most. */
  datatype Filter = Filter(kinds: seq<int>, authors: seq<Json>, limit: int)

  datatype InitOutcome =
    | NoFeedElement
    | NoRelaysConnected
    | Subscribed(relays: seq<string>, filter: Filter)

  /** `init()`. */
  function Init(feed: Option<FeedElement>, decode: string -> Option<Json>, connects: string -> bool): (r: InitOutcome)
    ensures r == NoFeedElement <==> feed.None?
    ensures r == NoRelaysConnected <==> feed.Some? && forall u :: u in feed.value.relays ==> !connects(u)
    ensures r.Subscribed? ==>
      r.relays != [] && (forall u :: u in r.relays <==> u in feed.value.relays && connects(u))
      && r.relays == ActiveRelays(feed.value.relays, connects)
      && r.filter == Filter([1], Pubkeys(feed.value.npubs, decode), 20)
  {
    match feed
    case None => NoFeedElement
    case Some(f) =>
      var keys := Pubkeys(f.npubs, decode);
      var active := ActiveRelays(f.relays, connects);
      assert |active| > 0 ==> active[0] in active;
      if |active| == 0 then NoRelaysConnected
      else Subscribed(active, Filter([1], keys, 20))
  }

  /** One relay that connects is enough for the feed to subscribe, with the authors that decoded. */
  lemma PartialFailure(feed: FeedElement, decode: string -> Option<Json>, connects: string -> bool, u: string)
    requires u in feed.relays && connects(u)
    ensures Init(Some(feed), decode, connects).Subscribed?
    ensures u in Init(Some(feed), decode, connects).relays
  {
  }
}
