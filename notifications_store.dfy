/**
 * The notification feed store (src/stores/notifications.store.ts): a newest-first feed of
 * at most 100 retained pushes, an unread counter the server has the final say on, a loading
 * flag, an error message, and the private channel currently subscribed to.
 *
 * Remote calls, timestamps and generated ids are parameters.  A rejected call has first
 * passed the HTTP client's error interceptor, so a 401 drops the stored token and leaves for
 * the login page before the store sees it.  The real-time transport is
 * reduced to the ghost `transport` log of leave/subscribe requests.  A `refreshUnread()`
 * the source starts without awaiting it is a separate, later RefreshUnread call here: its
 * reply can only arrive after the action that started it has finished.
 */
module Notifications {
  import opened Wrappers
  import opened Js
  import opened Text
  import ApiErrors
  import NotificationsApi
  import Auth
  import Echo
  import HttpClient
  import opened Browser

  const FeedCapacity := 100
  const ChannelPrefix := "App.Models.User."

  /** NotificationItem (src/api/notifications/types.ts); `type` is `notificationType` here. */
  datatype Item = Item(id: string, notificationType: string, createdAt: Option<string>, readAt: Option<string>, data: Value)

  /** What `notificationsApi.list` resolves with. */
  datatype FeedPage = FeedPage(items: seq<Item>, unread: int)

  /** A request made to the real-time connection. */
  datatype ChannelAction = Leave(channel: string) | Subscribe(channel: string)

  function Min(a: int, b: int): int { if a <= b then a else b }

  /** `echoInstance ?? getEcho() ?? window.Echo` is not null. */
  predicate ConnectionAvailable(echoArg: Option<Echo.EchoConfig>, registry: Echo.EchoRegistry)
    reads registry
    requires registry.Valid()
  {
    echoArg.Some? || registry.GetEcho().Some?
  }

  /** `!item.read_at`: no read timestamp, or an empty one. */
  predicate IsUnread(item: Item) {
    item.readAt.None? || item.readAt.value == ""
  }

  /** `items.some(x => x.id === id)` */
  predicate HasId(items: seq<Item>, id: string) {
    exists k :: 0 <= k < |items| && items[k].id == id
  }

  predicate DistinctIds(items: seq<Item>) {
    forall j, k :: 0 <= j < k < |items| ==> items[j].id != items[k].id
  }

  /** pushIncoming takes an item only when its id is non-empty and not yet in the feed. */
  predicate Accepts(items: seq<Item>, item: Item) {
    item.id != "" && !HasId(items, item.id)
  }

  /**
   * The feed after pushIncoming: an accepted item goes in front, and the feed is cut to
   * its first 100 entries, so the oldest entry is the one evicted.
   */
  function Merge(items: seq<Item>, item: Item): (r: seq<Item>)
    ensures !Accepts(items, item) ==> r == items
    ensures Accepts(items, item) ==>
              && |r| == Min(FeedCapacity, |items| + 1)
              && r[0] == item
              && forall k :: 1 <= k < |r| ==> r[k] == items[k - 1]
  {
    if Accepts(items, item) then ([item] + items)[..Min(FeedCapacity, |items| + 1)] else items
  }

  /** Merging keeps ids pairwise distinct. */
  lemma MergeKeepsDistinct(items: seq<Item>, item: Item)
    requires DistinctIds(items)
    ensures DistinctIds(Merge(items, item))
  {
    var r := Merge(items, item);
    if Accepts(items, item) {
      forall j, k | 0 <= j < k < |r| ensures r[j].id != r[k].id {
        if j == 0 {
          assert r[k] == items[k - 1];
        } else {
          assert r[j] == items[j - 1] && r[k] == items[k - 1];
        }
      }
    }
  }

  /** Pushing the same item again changes nothing. */
  lemma MergeIdempotent(items: seq<Item>, item: Item)
    ensures Merge(Merge(items, item), item) == Merge(items, item)
  {
    var r := Merge(items, item);
    if Accepts(items, item) {
      assert r[0].id == item.id;
      assert HasId(r, item.id);
    }
  }

  /** When the feed is full, the 101st distinct item evicts the oldest one. */
  lemma MergeEvictsOldest(items: seq<Item>, item: Item)
    requires |items| == FeedCapacity && Accepts(items, item)
    ensures Merge(items, item) == [item] + items[..FeedCapacity - 1]
  {
  }

  /** readAllRemote's local update: every unread-by-null item gets the timestamp, the rest are kept. */
  function StampRead(items: seq<Item>, now: string): (r: seq<Item>)
    ensures |r| == |items|
    ensures forall k :: 0 <= k < |r| ==> r[k].readAt.Some?
    ensures forall k :: 0 <= k < |r| ==> items[k].readAt.Some? ==> r[k] == items[k]
    ensures forall k :: 0 <= k < |r| ==> items[k].readAt.None? ==> r[k] == items[k].(readAt := Some(now))
  {
    if items == [] then []
    else
      var x := items[0];
      [x.(readAt := if x.readAt.None? then Some(now) else x.readAt)] + StampRead(items[1..], now)
  }

  /** Stamping keeps the ids and their order. */
  lemma StampReadKeepsIds(items: seq<Item>, now: string)
    ensures forall k :: 0 <= k < |items| ==> StampRead(items, now)[k].id == items[k].id
    ensures DistinctIds(items) ==> DistinctIds(StampRead(items, now))
  {
  }

  /**
   * The store's error message for a failed call: the first truthy one of the server's
   * `message`, the error's own `message`, and the action's fallback text.
   */
  function FailureMessage(e: Value, fallback: string): (r: Value)
    requires fallback != ""
    ensures Truthy(r)
    ensures Truthy(Member(ApiErrors.ResponseData(e), "message")) ==> r == Member(ApiErrors.ResponseData(e), "message")
    ensures !Truthy(Member(ApiErrors.ResponseData(e), "message")) && Truthy(Member(e, "message")) ==> r == Member(e, "message")
    ensures !Truthy(Member(ApiErrors.ResponseData(e), "message")) && !Truthy(Member(e, "message")) ==> r == Str(fallback)
  {
    OrElse(Member(ApiErrors.ResponseData(e), "message"), OrElse(Member(e, "message"), Str(fallback)))
  }

  /** The private channel of a user: "App.Models.User.<id>". */
  function ChannelName(userId: int): (name: string)
    ensures |name| > |ChannelPrefix| && name[..|ChannelPrefix|] == ChannelPrefix
  {
    ChannelPrefix + IntToDecimal(userId)
  }

  /** Different users get different channels. */
  lemma ChannelNameInjective(a: int, b: int)
    requires ChannelName(a) == ChannelName(b)
    ensures a == b
  {
    assert IntToDecimal(a) == ChannelName(a)[|ChannelPrefix|..];
    assert IntToDecimal(b) == ChannelName(b)[|ChannelPrefix|..];
    IntToDecimalInjective(a, b);
  }

  /** The leave request for the old channel, when there is one (`if (this.subscribedChannel)`). */
  function LeaveOld(old_: Option<string>): (r: seq<ChannelAction>)
    ensures old_.Some? && old_.value != "" ==> r == [Leave("private-" + old_.value)]
    ensures old_.None? || old_.value == "" ==> r == []
  {
    if old_.Some? && old_.value != "" then [Leave("private-" + old_.value)] else []
  }

  /**
   * The item the notification handler builds from a pushed payload: the payload's id, or a
   * generated one, as a string; its type or "notification"; the receive time; unread.
   */
  function IncomingItem(payload: Value, generatedId: string, nowIso: string): (r: Item)
    ensures !IsNullish(Member(payload, "id")) ==> r.id == ToJsString(Member(payload, "id"))
    ensures IsNullish(Member(payload, "id")) ==> r.id == generatedId
    ensures !IsNullish(Member(payload, "type")) ==> r.notificationType == ToJsString(Member(payload, "type"))
    ensures IsNullish(Member(payload, "type")) ==> r.notificationType == "notification"
    ensures r.createdAt == Some(nowIso) && r.readAt.None? && IsUnread(r)
    ensures r.data == (if IsNullish(payload) then Obj([]) else payload)
  {
    Item(
      ToJsString(Coalesce(Member(payload, "id"), Str(generatedId))),
      ToJsString(Coalesce(Member(payload, "type"), Str("notification"))),
      Some(nowIso),
      None,
      Coalesce(payload, Obj([])))
  }

  /** A push into an empty feed becomes its only, unread entry. */
  lemma FirstPushIntoEmptyFeed(id: string, kind: string, generatedId: string, nowIso: string)
    requires id != ""
    ensures var payload := Obj([("id", Str(id)), ("type", Str(kind)), ("data", Obj([]))]);
            var item := IncomingItem(payload, generatedId, nowIso);
            Merge([], item) == [Item(id, kind, Some(nowIso), None, payload)] && IsUnread(item)
  {
    var payload := Obj([("id", Str(id)), ("type", Str(kind)), ("data", Obj([]))]);
    assert Member(payload, "id") == Str(id);
    assert "id" != "type" by { assert "id"[0] != "type"[0]; }
    assert payload.fields[1..] == [("type", Str(kind)), ("data", Obj([]))];
    assert Lookup(payload.fields[1..], "type") == Str(kind);
    assert Member(payload, "type") == Str(kind);
  }

  /**
   * A second push of the same item is not counted again: the merged feed no longer accepts
   * it, so the feed stays as it is and the count does not rise.
   */
  lemma DuplicatePushNotCounted(items: seq<Item>, item: Item)
    ensures !Accepts(Merge(items, item), item)
    ensures Merge(Merge(items, item), item) == Merge(items, item)
  {
    if Accepts(items, item) {
      assert Merge(items, item)[0] == item;
    }
  }

  class NotificationsStore {
    var items: seq<Item>
    var unread: int
    var loading: bool
    var error: Option<Value>
    var subscribedChannel: Option<string>
    ghost var transport: seq<ChannelAction>

    constructor ()
      ensures items == [] && unread == 0 && !loading && error.None? && subscribedChannel.None? && transport == []
    {
      items := [];
      unread := 0;
      loading := false;
      error := None;
      subscribedChannel := None;
      transport := [];
    }

    /** refreshUnread: the server's count replaces the badge; a failure is swallowed and keeps it. */
    method RefreshUnread(res: Result<Value, Value>, storage: LocalStorage, location: Location)
      modifies this`unread, storage, location
      ensures res.Failure? ==> unread == old(unread)
      ensures res.Success? ==> unread == NotificationsApi.UnreadCount(res.value)
      ensures res.Failure? && HttpClient.IsUnauthorized(res.error) ==>
                storage.slots == old(storage.slots) - {HttpClient.TokenKey}
                && location.href == (if old(location.pathname) == HttpClient.LoginPath then old(location.href) else HttpClient.LoginPath)
      ensures !(res.Failure? && HttpClient.IsUnauthorized(res.error)) ==> unchanged(storage) && unchanged(location)
    {
      match res {
        case Success(r) =>
          unread := NotificationsApi.UnreadCount(r);
        case Failure(e) =>
          var _ := HttpClient.OnResponseError(e, storage, location);
      }
    }

    /**
     * fetchLatest: the feed and the count are replaced by the server's page.  On failure the
     * feed is emptied (no stale data), the count is kept and the error recorded.
     */
    method FetchLatest(outcome: Result<FeedPage, Value>, storage: LocalStorage, location: Location)
      modifies this`items, this`unread, this`loading, this`error, storage, location
      ensures !loading
      ensures outcome.Success? ==> items == outcome.value.items && unread == outcome.value.unread && error.None?
      ensures outcome.Failure? ==>
                items == [] && unread == old(unread)
                && error == Some(FailureMessage(outcome.error, "Failed to load notifications"))
      ensures outcome.Failure? && HttpClient.IsUnauthorized(outcome.error) ==>
                storage.slots == old(storage.slots) - {HttpClient.TokenKey}
                && location.href == (if old(location.pathname) == HttpClient.LoginPath then old(location.href) else HttpClient.LoginPath)
      ensures !(outcome.Failure? && HttpClient.IsUnauthorized(outcome.error)) ==> unchanged(storage) && unchanged(location)
    {
      loading := true;
      error := None;
      match outcome {
        case Success(page) =>
          items := page.items;
          unread := page.unread;
        case Failure(e) =>
          var _ := HttpClient.OnResponseError(e, storage, location);
          error := Some(FailureMessage(e, "Failed to load notifications"));
          items := [];
      }
      loading := false;
    }

    /**
     * connectIfConfigured: nothing happens without a logged-in user with a truthy id, without
     * a connection, or when that user's channel is already subscribed.  Otherwise the old
     * channel is left first and the user's channel subscribed.  The connection is the one
     * passed in or else the registry's (`window.Echo` is always set to the same instance).
     */
    method ConnectIfConfigured(auth: Auth.AuthStore, echoArg: Option<Echo.EchoConfig>, registry: Echo.EchoRegistry)
      requires registry.Valid()
      modifies this`subscribedChannel, this`transport
      ensures auth.user.None? || auth.user.value.id == 0 || !ConnectionAvailable(echoArg, registry) ==>
                subscribedChannel == old(subscribedChannel) && transport == old(transport)
      ensures auth.user.Some? && auth.user.value.id != 0 && ConnectionAvailable(echoArg, registry) ==>
                var name := ChannelName(auth.user.value.id);
                && (old(subscribedChannel) == Some(name) ==>
                      subscribedChannel == old(subscribedChannel) && transport == old(transport))
                && (old(subscribedChannel) != Some(name) ==>
                      subscribedChannel == Some(name)
                      && transport == old(transport) + LeaveOld(old(subscribedChannel)) + [Subscribe(name)])
    {
      if auth.user.None? || auth.user.value.id == 0 {
        return;
      }
      if !ConnectionAvailable(echoArg, registry) {
        return;
      }
      var channel := ChannelName(auth.user.value.id);
      if subscribedChannel == Some(channel) {
        return;
      }
      transport := transport + LeaveOld(subscribedChannel);
      subscribedChannel := Some(channel);
      transport := transport + [Subscribe(channel)];
    }

    /** The handler registered on the channel: build the item and push it. */
    method ReceiveNotification(payload: Value, generatedId: string, nowIso: string)
      modifies this`items, this`unread
      ensures items == Merge(old(items), IncomingItem(payload, generatedId, nowIso))
      ensures unread == old(unread) + (if Accepts(old(items), IncomingItem(payload, generatedId, nowIso)) then 1 else 0)
    {
      PushIncoming(IncomingItem(payload, generatedId, nowIso));
    }

    /**
     * readAllRemote: after the server accepted, every item without a read timestamp gets
     * `now` and the count drops to 0.  On failure only the error changes.
     */
    method ReadAllRemote(res: Result<Value, Value>, nowIso: string, storage: LocalStorage, location: Location)
      modifies this`items, this`unread, this`error, storage, location
      ensures res.Success? ==> unread == 0 && items == StampRead(old(items), nowIso) && error.None?
      ensures res.Failure? ==>
                items == old(items) && unread == old(unread)
                && error == Some(FailureMessage(res.error, "Failed to mark notifications as read"))
      ensures res.Failure? && HttpClient.IsUnauthorized(res.error) ==>
                storage.slots == old(storage.slots) - {HttpClient.TokenKey}
                && location.href == (if old(location.pathname) == HttpClient.LoginPath then old(location.href) else HttpClient.LoginPath)
      ensures !(res.Failure? && HttpClient.IsUnauthorized(res.error)) ==> unchanged(storage) && unchanged(location)
    {
      error := None;
      match res {
        case Success(_) =>
          unread := 0;
          items := StampRead(items, nowIso);
        case Failure(e) =>
          var _ := HttpClient.OnResponseError(e, storage, location);
          error := Some(FailureMessage(e, "Failed to mark notifications as read"));
      }
    }

    /** pushIncoming: merge the item in and count it when it is unread. */
    method PushIncoming(item: Item)
      modifies this`items, this`unread
      ensures items == Merge(old(items), item)
      ensures unread == old(unread) + (if Accepts(old(items), item) && IsUnread(item) then 1 else 0)
      ensures |items| <= if Accepts(old(items), item) then FeedCapacity else |old(items)|
      ensures DistinctIds(old(items)) ==> DistinctIds(items)
    {
      if item.id == "" {
        return;
      }
      if HasId(items, item.id) {
        return;
      }
      if DistinctIds(items) {
        MergeKeepsDistinct(items, item);
      }
      items := ([item] + items)[..Min(FeedCapacity, |items| + 1)];
      if IsUnread(item) {
        unread := unread + 1;
      }
    }
  }
}
