/**
 * Error normalisation (src/api/http/error.ts): a rejected HTTP call, whatever its shape,
 * becomes `{status, message, errors}`.  The rejection is a loosely typed value; an Axios
 * error is an object with `message` and `response: {status, data}`.
 */
module ApiErrors {
  import opened Wrappers
  import opened Js

  /**
   * The normalised error.  `status` is `undefined` when the rejection carried no response;
   * `errors` is `None` when the body had no object-typed `errors` entry.  `message` is
   * whatever value the precedence chain picked (a string in every well-formed case).
   */
  datatype ApiError = ApiError(status: Value, message: Value, errors: Option<Value>)

  /** `e?.response?.data` */
  function ResponseData(e: Value): Value {
    Member(Member(e, "response"), "data")
  }

  /**
   * The base message: the first of `data.message`, `data` itself when it is a string,
   * the error's own `message` and "Request failed" that is neither null nor undefined.
   */
  function BaseMessage(e: Value): (r: Value)
    ensures !IsNullish(r)
    ensures !IsNullish(Member(ResponseData(e), "message")) ==> r == Member(ResponseData(e), "message")
    ensures IsNullish(Member(ResponseData(e), "message")) && ResponseData(e).Str? ==> r == ResponseData(e)
    ensures (IsNullish(Member(ResponseData(e), "message")) && !ResponseData(e).Str?
             && !IsNullish(Member(e, "message"))) ==> r == Member(e, "message")
    ensures (IsNullish(Member(ResponseData(e), "message")) && !ResponseData(e).Str?
             && IsNullish(Member(e, "message"))) ==> r == Str("Request failed")
  {
    var data := ResponseData(e);
    Coalesce(Member(data, "message"),
      Coalesce(if data.Str? then data else Null,
        Coalesce(Member(e, "message"), Str("Request failed"))))
  }

  /** `data?.errors` when it is truthy and of type "object" (an array or a plain object). */
  function FieldErrors(e: Value): (r: Option<Value>)
    ensures r.Some? <==> (Member(ResponseData(e), "errors").Arr? || Member(ResponseData(e), "errors").Obj?)
    ensures r.Some? ==> r.value == Member(ResponseData(e), "errors")
  {
    var x := Member(ResponseData(e), "errors");
    if Truthy(x) && IsObjectType(x) then Some(x) else None
  }

  /**
   * `errors[Object.keys(errors)[0]]?.[0]`, guarded by the key being truthy: `Null` stands for
   * the source's `null` when there is no key or the first key is the empty string.
   */
  function FirstFieldMessage(errors: Value): (r: Value)
    requires errors.Arr? || errors.Obj?
    ensures errors.Obj? && errors.fields != [] && errors.fields[0].0 != "" ==> r == First(errors.fields[0].1)
    ensures errors.Obj? && errors.fields != [] && errors.fields[0].0 == "" ==> r == Null
    ensures errors.Arr? && errors.elems != [] ==> r == First(errors.elems[0])
    ensures (errors.Obj? && errors.fields == []) || (errors.Arr? && errors.elems == []) ==> r == Null
  {
    match errors
    case Obj(f) =>
      if f == [] then Null
      else
        var firstKey := f[0].0;
        if firstKey == "" then Null else First(Lookup(f, firstKey))
    case Arr(a) =>
      // The keys of an array are its indices; the first one is "0".
      if a == [] then Null else First(a[0])
  }

  /** normalizeApiError */
  function NormalizeApiError(e: Value): (r: ApiError)
    ensures r.status == Member(Member(e, "response"), "status")
    ensures r.errors == FieldErrors(e)
    ensures r.errors.None? ==> r.message == BaseMessage(e)
    ensures r.errors.Some? && Truthy(FirstFieldMessage(r.errors.value)) ==>
              r.message == Str(ToJsString(BaseMessage(e)) + ": " + ToJsString(FirstFieldMessage(r.errors.value)))
    ensures r.errors.Some? && !Truthy(FirstFieldMessage(r.errors.value)) ==> r.message == BaseMessage(e)
  {
    var status := Member(Member(e, "response"), "status");
    var base := BaseMessage(e);
    match FieldErrors(e)
    case None => ApiError(status, base, None)
    case Some(errors) =>
      var firstMsg := FirstFieldMessage(errors);
      ApiError(status, if Truthy(firstMsg) then Str(ToJsString(base) + ": " + ToJsString(firstMsg)) else base, Some(errors))
  }

  /**
   * A validation failure (status 422, `{message, errors: {<field>: [<first>, ...]}}`): the
   * server's message followed by the first field's first message.
   */
  lemma ValidationFailureExample(clientMsg: string, serverMsg: string, field: string, first: string, more: seq<Value>)
    requires field != "" && first != ""
    ensures var errors := Obj([(field, Arr([Str(first)] + more))]);
            var e := Obj([("message", Str(clientMsg)),
                          ("response", Obj([("status", Num(422)),
                                            ("data", Obj([("message", Str(serverMsg)), ("errors", errors)]))]))]);
            NormalizeApiError(e) == ApiError(Num(422), Str(serverMsg + ": " + first), Some(errors))
  {
    var errors := Obj([(field, Arr([Str(first)] + more))]);
    var data := Obj([("message", Str(serverMsg)), ("errors", errors)]);
    var response := Obj([("status", Num(422)), ("data", data)]);
    var e := Obj([("message", Str(clientMsg)), ("response", response)]);
    assert "message"[0] != "response"[0] && "status"[0] != "data"[0] && "message"[0] != "errors"[0];
    assert Member(e, "response") == response by { assert Lookup(e.fields[1..], "response") == response; }
    assert ResponseData(e) == data by { assert Lookup(response.fields[1..], "data") == data; }
    assert Member(data, "errors") == errors by { assert Lookup(data.fields[1..], "errors") == errors; }
    assert BaseMessage(e) == Str(serverMsg);
    assert Lookup(errors.fields, field) == Arr([Str(first)] + more);
    assert First(Arr([Str(first)] + more)) == Str(first);
    assert FirstFieldMessage(errors) == Str(first);
  }

  /** `??` keeps an empty server message: it wins over the error's own message. */
  lemma EmptyServerMessageKept()
    ensures var e := Obj([("message", Str("Network Error")),
                          ("response", Obj([("status", Num(500)), ("data", Obj([("message", Str(""))]))]))]);
            NormalizeApiError(e) == ApiError(Num(500), Str(""), None)
  {
  }

  /** A rejection without a response has no status, and falls back to its own message. */
  lemma NoResponseExample(msg: string)
    ensures NormalizeApiError(Obj([("message", Str(msg))])) == ApiError(Undefined, Str(msg), None)
  {
  }
}
