/** The JSON response writer of `server/src/utils/writer.ts`: how
    `writeJson` picks a status code and a payload from loosely typed
    arguments, and what it hands to the response. */
module Writer {

  /** The JavaScript values the writer can be given. `ResponsePayload` is an
      instance of the writer's own class of that name. */
  datatype JsValue =
    | Undefined
    | Null
    | Bool(b: bool)
    | Num(n: real)
    | NaN
    | Infinity(negative: bool)
    | Str(s: string)
    | Arr(items: seq<JsValue>)
    | Obj(props: seq<(string, JsValue)>)
    | ResponsePayload(code: JsValue, payload: JsValue)

  /** JavaScript truthiness. */
  predicate Truthy(v: JsValue) {
    match v
    case Undefined => false
    case Null => false
    case Bool(b) => b
    case Num(n) => n != 0.0
    case NaN => false
    case Infinity(_) => true
    case Str(s) => |s| > 0
    case Arr(_) => true
    case Obj(_) => true
    case ResponsePayload(_, _) => true
  }

  /** `Number.isInteger`. */
  predicate IsInteger(v: JsValue) {
    v.Num? && v.n.Floor as real == v.n
  }

  /** `typeof v === 'object'`. */
  predicate IsObject(v: JsValue) {
    v.Null? || v.Arr? || v.Obj? || v.ResponsePayload?
  }

  /** The test `arg && Number.isInteger(arg)`. */
  predicate TruthyInteger(v: JsValue) {
    Truthy(v) && IsInteger(v)
  }

  function IntegerValue(v: JsValue): (i: int)
    requires IsInteger(v)
  {
    v.n.Floor
  }

  /** `respondWithCode(code, payload)`: `new ResponsePayload(code, payload)`. */
  function RespondWithCode(code: JsValue, payload: JsValue): (r: JsValue)
    ensures r.ResponsePayload? && r.code == code && r.payload == payload
  {
    ResponsePayload(code, payload)
  }

  /** What `response.end` receives: the payload as it is, or
      `JSON.stringify(value, null, 2)` of an object payload. */
  datatype Chunk = Plain(value: JsValue) | Stringified(value: JsValue)

  datatype Reply = Reply(code: int, chunk: Chunk)

  const JsonHeaders: seq<(string, string)> := [("Content-Type", "application/json")]

  /** The reference choice of code and payload: a response payload is
      unwrapped into (payload, code); otherwise the code is the second
      argument if it is a truthy integer, else the first one if it is, else
      200; the payload is the first argument when truthy, else undefined. */
  function Choose(arg1: JsValue, arg2: JsValue): (r: Reply)
    ensures r.code != 0
    ensures r.chunk.Plain? ==> !IsObject(r.chunk.value) && (Truthy(r.chunk.value) || r.chunk.value.Undefined?)
    ensures r.chunk.Stringified? ==> IsObject(r.chunk.value) && Truthy(r.chunk.value) && !r.chunk.value.ResponsePayload?
    decreases arg1
  {
    if arg1.ResponsePayload? then Choose(arg1.payload, arg1.code)
    else
      var code :=
        if TruthyInteger(arg2) then IntegerValue(arg2)
        else if TruthyInteger(arg1) then IntegerValue(arg1)
        else 200;
      var payload := if Truthy(arg1) then arg1 else Undefined;
      Reply(code, if IsObject(payload) then Stringified(payload) else Plain(payload))
  }

  /** What the writer does to the response: `writeHead` and `end`. */
  datatype Event = HeadWritten(status: int, headers: seq<(string, string)>) | Ended(chunk: Chunk)

  /** The Node.js response object, as a log of the calls made on it. */
  class ServerResponse {
    var events: seq<Event>

    constructor ()
      ensures events == []
    {
      events := [];
    }

    method WriteHead(status: int, headers: seq<(string, string)>)
      modifies this
      ensures events == old(events) + [HeadWritten(status, headers)]
    {
      events := events + [HeadWritten(status, headers)];
    }

    method End(chunk: Chunk)
      modifies this
      ensures events == old(events) + [Ended(chunk)]
    {
      events := events + [Ended(chunk)];
    }
  }

  /** `writeJson(response, arg1, arg2)`; an omitted `arg2` is `Undefined`. */
  method WriteJson(response: ServerResponse, arg1: JsValue, arg2: JsValue)
    modifies response
    ensures response.events == old(response.events)
      + [HeadWritten(Choose(arg1, arg2).code, JsonHeaders), Ended(Choose(arg1, arg2).chunk)]
    decreases arg1
  {
    var code: JsValue := Undefined;
    var payload: JsValue := Undefined;

    if arg1.ResponsePayload? {
      WriteJson(response, arg1.payload, arg1.code);
      return;
    }

    if Truthy(arg2) && IsInteger(arg2) {
      code := arg2;
    } else {
      if Truthy(arg1) && IsInteger(arg1) {
        code := arg1;
      }
    }

    if Truthy(code) && Truthy(arg1) {
      payload := arg1;
    } else if Truthy(arg1) {
      payload := arg1;
    }

    if !Truthy(code) {
      code := Num(200.0);
    }

    var chunk := Plain(payload);
    if IsObject(payload) {
      chunk := Stringified(payload);
    }

    ghost var reply := Choose(arg1, arg2);
    assert IsInteger(code) && IntegerValue(code) == reply.code;
    assert chunk == reply.chunk;
    response.WriteHead(IntegerValue(code), JsonHeaders);
    response.End(chunk);
  }

  /** `writeJson(r, respondWithCode(c, p), x)` behaves as `writeJson(r, p, c)`. */
  lemma RespondWithCodeAsArguments(code: JsValue, payload: JsValue, arg2: JsValue)
    ensures Choose(RespondWithCode(code, payload), arg2) == Choose(payload, code)
  {
  }

  /** Of nested response payloads the innermost code is used. */
  lemma NestedPayloadInnerCodeWins(outer: JsValue, inner: JsValue, payload: JsValue, arg2: JsValue)
    ensures Choose(RespondWithCode(outer, RespondWithCode(inner, payload)), arg2) == Choose(payload, inner)
  {
  }

  /** Code precedence: a truthy integer second argument, else a truthy
      integer first argument, else 200 (so a code of 0 falls back to 200). */
  lemma CodePrecedence(arg1: JsValue, arg2: JsValue)
    requires !arg1.ResponsePayload?
    ensures TruthyInteger(arg2) ==> Choose(arg1, arg2).code == IntegerValue(arg2)
    ensures !TruthyInteger(arg2) && TruthyInteger(arg1) ==> Choose(arg1, arg2).code == IntegerValue(arg1)
    ensures !TruthyInteger(arg2) && !TruthyInteger(arg1) ==> Choose(arg1, arg2).code == 200
  {
  }

  /** The payload does not depend on the code: it is the first argument when
      that is truthy and undefined otherwise. */
  lemma PayloadIgnoresCode(arg1: JsValue, arg2: JsValue, other: JsValue)
    requires !arg1.ResponsePayload?
    ensures Choose(arg1, arg2).chunk == Choose(arg1, other).chunk
    ensures Choose(arg1, arg2).chunk.value == if Truthy(arg1) then arg1 else Undefined
  {
  }

  /** `writeJson(r, 404)` sends status 404 with the number 404 as its body. */
  lemma BareCodeIsAlsoPayload()
    ensures Choose(Num(404.0), Undefined) == Reply(404, Plain(Num(404.0)))
  {
  }
}
