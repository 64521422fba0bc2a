/**
 * Response shaping of the notifications endpoints (src/api/notifications/notifications.api.ts).
 * The HTTP call itself is not modelled: each function takes the resolved Axios response
 * as a loosely typed value and returns what the wrapper returns.
 */
module NotificationsApi {
  import opened Js

  /** `res?.data ?? res`: the response body, or the response itself when it has no body. */
  function Body(res: Value): (body: Value)
    ensures !IsNullish(Member(res, "data")) ==> body == Member(res, "data")
    ensures IsNullish(Member(res, "data")) ==> body == res
  {
    Coalesce(Member(res, "data"), res)
  }

  /**
   * unwrapBody: takes the body and, when it is an object with a `data` key, returns that
   * inner value (whether or not it has `items`); otherwise the body itself.
   */
  function UnwrapBody(res: Value): (r: Value)
    ensures HasKey(Body(res), "data") ==> r == Member(Body(res), "data")
    ensures !HasKey(Body(res), "data") ==> r == Body(res)
  {
    var body := Body(res);
    if Truthy(body) && IsObjectType(body) && HasKey(body, "data") then
      var inner := Member(body, "data");
      // The source tests for an `items` key here, but both branches return `inner`.
      if Truthy(inner) && IsObjectType(inner) && HasKey(inner, "items") then inner else inner
    else body
  }

  /** `NotificationsResponse` of the wrapper: raw item values and an integer count. */
  datatype ListResult = ListResult(items: seq<Value>, unread: int)

  /** `x ?? 0`, then 0 unless it is a number. */
  function CountOrZero(x: Value): (n: int)
    ensures x.Num? ==> n == x.n
    ensures !x.Num? ==> n == 0
  {
    var unread := Coalesce(x, Num(0));
    if unread.Num? then unread.n else 0
  }

  /** list(): `items` only when the unwrapped body has an array there, `unread` only when it is a number. */
  function List(res: Value): (r: ListResult)
    ensures Member(UnwrapBody(res), "items").Arr? ==> r.items == Member(UnwrapBody(res), "items").elems
    ensures !Member(UnwrapBody(res), "items").Arr? ==> r.items == []
    ensures r.unread == CountOrZero(Member(UnwrapBody(res), "unread"))
  {
    var body := UnwrapBody(res);
    var items := Coalesce(Member(body, "items"), Arr([]));
    ListResult(if items.Arr? then items.elems else [], CountOrZero(Member(body, "unread")))
  }

  /** readAll(): `ok` is true when the body's `ok` is null or absent, else its truthiness. */
  function ReadAll(res: Value): (ok: bool)
    ensures IsNullish(Member(UnwrapBody(res), "ok")) ==> ok
    ensures !IsNullish(Member(UnwrapBody(res), "ok")) ==> ok == Truthy(Member(UnwrapBody(res), "ok"))
  {
    Truthy(Coalesce(Member(UnwrapBody(res), "ok"), Bool(true)))
  }

  /** unreadCount(): the body's `unread` when it is a number, else 0. */
  function UnreadCount(res: Value): (n: int)
    ensures Member(UnwrapBody(res), "unread").Num? ==> n == Member(UnwrapBody(res), "unread").n
    ensures !Member(UnwrapBody(res), "unread").Num? ==> n == 0
  {
    CountOrZero(Member(UnwrapBody(res), "unread"))
  }

  /** Both envelope shapes the server uses are accepted: `{data: {items, unread}}` and a bare `{items, unread}`. */
  lemma EnvelopeShapesAgree(payload: seq<(string, Value)>)
    requires forall k :: 0 <= k < |payload| ==> payload[k].0 != "data"
    ensures var bare := Obj([("data", Obj(payload))]);
            var wrapped := Obj([("data", Obj([("data", Obj(payload))]))]);
            UnwrapBody(bare) == UnwrapBody(wrapped) == Obj(payload)
  {
    var bare := Obj([("data", Obj(payload))]);
    assert !HasKey(Obj(payload), "data");
    assert Body(bare) == Obj(payload);
  }

  /** Only one envelope layer is peeled: a doubly wrapped body keeps its inner `data` layer. */
  lemma OneLayerPeeled(inner: Value)
    requires !IsNullish(inner)
    ensures UnwrapBody(Obj([("data", Obj([("data", Obj([("data", inner)]))]))])) == Obj([("data", inner)])
  {
    var res := Obj([("data", Obj([("data", Obj([("data", inner)]))]))]);
    assert Body(res) == Obj([("data", Obj([("data", inner)]))]);
    assert Body(res).fields[0].0 == "data";
  }
}
