/**
 * The serverless scoring endpoint, api/score.ts: an ordered chain of early
 * returns (method, key, parameters) followed by the model call, the parse of
 * its text and a catch-all, each mapped to a status code and a JSON body.
 *
 * The model call and `JSON.parse` are parameters: `reply` is what the SDK call
 * does for this request, `parse` is the JSON parser; `process.env` is `env`.
 */
module ScoreApi {
  import opened Wrappers
  import Decimal

  /** A JSON value as `req.body` and `JSON.parse` produce it. */
  datatype Json =
    | JNull
    | JBool(b: bool)
    | JNum(n: real)
    | JStr(s: string)
    | JArr(items: seq<Json>)
    | JObj(fields: map<string, Json>)

  /** JavaScript truthiness of a value that may be `undefined` (`None`); NaN is not modelled. */
  predicate Truthy(v: Option<Json>)
    ensures Truthy(v) ==> v.Some? && !v.value.JNull?
    ensures v.Some? && v.value.JStr? ==> (Truthy(v) <==> v.value.s != "")
    ensures v.Some? && (v.value.JArr? || v.value.JObj?) ==> Truthy(v)
    ensures v.Some? && v.value.JBool? ==> (Truthy(v) <==> v.value.b)
    ensures v.Some? && v.value.JNum? ==> (Truthy(v) <==> v.value.n != 0.0)
  {
    match v
    case None => false
    case Some(j) =>
      match j
      case JNull => false
      case JBool(b) => b
      case JNum(n) => n != 0.0
      case JStr(s) => s != ""
      case JArr(_) => true
      case JObj(_) => true
  }

  /** The request as the handler reads it: `req.method` and `req.body` (`None` when absent). */
  datatype Request = Request(httpMethod: string, body: Option<Json>)

  /** `process.env.GEMINI_API_KEY` and `process.env.API_KEY`. */
  datatype Env = Env(geminiApiKey: Option<string>, apiKey: Option<string>)

  /** What the SDK call does: answer with a text (`None` for an absent one) or throw an error with a message. */
  datatype Reply = Answer(text: Option<string>) | Throws(message: Option<string>)

  /** What `JSON.parse` does: a value, or a thrown `SyntaxError` with its message. */
  datatype Parsed = Value(value: Json) | SyntaxError(message: string)

  /** `res.status(status).json(body)`. */
  datatype Response = Response(status: nat, body: map<string, Json>)

  /** A non-empty environment string. */
  predicate Set(v: Option<string>) {
    v.Some? && v.value != ""
  }

  /** `process.env.GEMINI_API_KEY || process.env.API_KEY`. */
  function ApiKey(env: Env): (k: Option<string>)
    ensures Set(k) <==> Set(env.geminiApiKey) || Set(env.apiKey)
    ensures Set(env.geminiApiKey) ==> k == env.geminiApiKey
    ensures !Set(env.geminiApiKey) ==> k == env.apiKey
  {
    if Set(env.geminiApiKey) then env.geminiApiKey else env.apiKey
  }

  /** Field `name` of `req.body || {}`, destructured: only an object body has one. */
  function Field(body: Option<Json>, name: string): (v: Option<Json>)
    ensures v.Some? ==> body.Some? && body.value.JObj? && name in body.value.fields
    ensures body.Some? && body.value.JObj? && name in body.value.fields ==> v == Some(body.value.fields[name])
  {
    if Truthy(body) && body.value.JObj? && name in body.value.fields then Some(body.value.fields[name]) else None
  }

  /** The own enumerable properties of a parsed value, as `{ ...scoreData }` copies them. */
  function Spread(v: Json): (m: map<string, Json>)
    ensures v.JObj? ==> m == v.fields
    ensures v.JArr? ==> |m.Keys| == |v.items| && forall i :: 0 <= i < |v.items| ==> Decimal.NatToString(i) in m && m[Decimal.NatToString(i)] == v.items[i]
    ensures v.JStr? ==> |m.Keys| == |v.s| && forall i :: 0 <= i < |v.s| ==> Decimal.NatToString(i) in m && m[Decimal.NatToString(i)] == JStr([v.s[i]])
    ensures v.JNull? || v.JBool? || v.JNum? ==> m == map[]
  {
    match v
    case JObj(fields) => fields
    case JArr(items) => Indexed(items)
    case JStr(s) => Indexed(seq(|s|, i requires 0 <= i < |s| => JStr([s[i]])))
    case _ => map[]
  }

  /** The decimal texts of the indices below `n`. */
  function IndexKeys(n: nat): set<string>
    decreases n
  {
    if n == 0 then {} else IndexKeys(n - 1) + {Decimal.NatToString(n - 1)}
  }

  /** `String(k)` is a key below `n` exactly when `k < n`. */
  lemma {:induction false} InIndexKeys(n: nat, k: nat)
    ensures Decimal.NatToString(k) in IndexKeys(n) <==> k < n
    decreases n
  {
    if n > 0 {
      InIndexKeys(n - 1, k);
      Decimal.NatToStringInjective(k, n - 1);
    }
  }

  /** The map from `String(i)` to the `i`-th value. */
  function Indexed(items: seq<Json>): (m: map<string, Json>)
    ensures m.Keys == IndexKeys(|items|) && |m.Keys| == |items|
    ensures forall i :: 0 <= i < |items| ==> Decimal.NatToString(i) in m && m[Decimal.NatToString(i)] == items[i]
    decreases |items|
  {
    if items == [] then map[]
    else
      var n := |items| - 1;
      var m := Indexed(items[..n]);
      IndexedExtend(items[..n], items[n], m);
      assert items[..n] + [items[n]] == items;
      m[Decimal.NatToString(n) := items[n]]
  }

  /** Adding the next index to the map of a prefix gives the map of the longer sequence. */
  lemma IndexedExtend(prefix: seq<Json>, x: Json, m: map<string, Json>)
    requires m.Keys == IndexKeys(|prefix|) && |m.Keys| == |prefix|
    requires forall i :: 0 <= i < |prefix| ==> Decimal.NatToString(i) in m && m[Decimal.NatToString(i)] == prefix[i]
    ensures var r := m[Decimal.NatToString(|prefix|) := x];
            r.Keys == IndexKeys(|prefix| + 1) && |r.Keys| == |prefix| + 1
            && forall i :: 0 <= i < |prefix| + 1 ==> Decimal.NatToString(i) in r && r[Decimal.NatToString(i)] == (prefix + [x])[i]
  {
    var n := |prefix|;
    var key := Decimal.NatToString(n);
    InIndexKeys(n, n);
    var r := m[key := x];
    assert r.Keys == m.Keys + {key};
    forall i | 0 <= i < n + 1
      ensures Decimal.NatToString(i) in r && r[Decimal.NatToString(i)] == (prefix + [x])[i]
    {
      if i < n {
        InIndexKeys(n, i);
      }
    }
  }

  const ErrorMethod := "M\U{00E9}todo no permitido"
  const ErrorConfig := "Configuraci\U{00F3}n incompleta"
  const DetailsConfig := "La API_KEY no est\U{00E1} configurada en el servidor (Hosting)."
  const ErrorParams := "Faltan par\U{00E1}metros en la petici\U{00F3}n."
  const ErrorCrash := "Error cr\U{00ED}tico en el servidor"
  const UnknownError := "Error desconocido"

  /** The parameter guard: both `prompt` and `responseWord` are truthy. */
  predicate HasParams(body: Option<Json>)
    ensures HasParams(body) ==>
              body.Some? && body.value.JObj? && "prompt" in body.value.fields && "responseWord" in body.value.fields
    ensures body.Some? && body.value.JObj? && "prompt" in body.value.fields && body.value.fields["prompt"] == JStr("") ==>
              !HasParams(body)
    ensures body.Some? && body.value.JObj? && "responseWord" in body.value.fields
            && body.value.fields["responseWord"] == JStr("") ==>
              !HasParams(body)
  {
    Truthy(Field(body, "prompt")) && Truthy(Field(body, "responseWord"))
  }

  /** `error.message || 'Error desconocido'`. */
  function Details(message: Option<string>): (d: string)
    ensures d != ""
    ensures Set(message) ==> d == message.value
    ensures !Set(message) ==> d == UnknownError
  {
    if Set(message) then message.value else UnknownError
  }

  /** The catch branch. */
  function Crash(message: Option<string>): (r: Response)
    ensures r.status == 500 && r.body.Keys == {"error", "details"}
    ensures r.body["error"] == JStr(ErrorCrash)
    ensures Set(message) ==> r.body["details"] == JStr(message.value)
    ensures !Set(message) ==> r.body["details"] == JStr(UnknownError)
  {
    Response(500, map["error" := JStr(ErrorCrash), "details" := JStr(Details(message))])
  }

  /** The handler. */
  function Handle(req: Request, env: Env, reply: Reply, parse: string -> Parsed): (r: Response)
    ensures r.status in {200, 400, 405, 500}
    // 1. the method guard comes first
    ensures r.status == 405 <==> req.httpMethod != "POST"
    ensures req.httpMethod != "POST" ==> r.body == map["error" := JStr(ErrorMethod)]
    // 2. then the key, before the parameters
    ensures req.httpMethod == "POST" && !Set(ApiKey(env)) ==>
              r == Response(500, map["error" := JStr(ErrorConfig), "details" := JStr(DetailsConfig)])
    // 3. then the parameters
    ensures r.status == 400 <==> req.httpMethod == "POST" && Set(ApiKey(env)) && !HasParams(req.body)
    ensures r.status == 400 ==> r.body == map["error" := JStr(ErrorParams)]
    // 4. the model call and the parse of its text
    ensures r.status == 200 <==>
              req.httpMethod == "POST" && Set(ApiKey(env)) && HasParams(req.body)
              && reply.Answer? && parse(TextOrEmpty(reply.text)).Value?
    ensures r.status == 200 ==>
              r.body == Spread(parse(TextOrEmpty(reply.text)).value)["isError" := JBool(false)]
    // 5. anything the call or the parse throws
    ensures req.httpMethod == "POST" && Set(ApiKey(env)) && HasParams(req.body) && reply.Throws? ==>
              r == Crash(reply.message)
    ensures req.httpMethod == "POST" && Set(ApiKey(env)) && HasParams(req.body) && reply.Answer?
            && parse(TextOrEmpty(reply.text)).SyntaxError? ==>
              r == Crash(Some(parse(TextOrEmpty(reply.text)).message))
  {
    if req.httpMethod != "POST" then
      Response(405, map["error" := JStr(ErrorMethod)])
    else if !Set(ApiKey(env)) then
      Response(500, map["error" := JStr(ErrorConfig), "details" := JStr(DetailsConfig)])
    else if !HasParams(req.body) then
      Response(400, map["error" := JStr(ErrorParams)])
    else
      match reply
      case Throws(message) => Crash(message)
      case Answer(text) =>
        match parse(TextOrEmpty(text))
        case SyntaxError(message) => Crash(Some(message))
        case Value(scoreData) => Response(200, Spread(scoreData)["isError" := JBool(false)])
  }

  /** `text || "{}"`. */
  function TextOrEmpty(text: Option<string>): (t: string)
    ensures t != ""
    ensures Set(text) ==> t == text.value
    ensures !Set(text) ==> t == "{}"
  {
    if Set(text) then text.value else "{}"
  }

  /** A non-POST request is answered 405 whatever its body, the environment or the model. */
  lemma MethodDecidesFirst(req1: Request, req2: Request, env1: Env, env2: Env, reply1: Reply, reply2: Reply,
                           parse1: string -> Parsed, parse2: string -> Parsed)
    requires req1.httpMethod != "POST" && req2.httpMethod != "POST"
    ensures Handle(req1, env1, reply1, parse1) == Handle(req2, env2, reply2, parse2)
  {
  }

  /** A POST with no key is refused for the configuration, even when its parameters are missing too. */
  lemma KeyCheckedBeforeParams(body: Option<Json>, env: Env, reply: Reply, parse: string -> Parsed)
    requires !Set(env.geminiApiKey) && !Set(env.apiKey)
    ensures Handle(Request("POST", body), env, reply, parse).status == 500
    ensures Handle(Request("POST", body), env, reply, parse).body["error"] == JStr(ErrorConfig)
  {
  }

  /** A body that is absent, or not an object, never carries the parameters. */
  lemma NoObjectNoParams(body: Option<Json>)
    requires body.None? || !body.value.JObj?
    ensures !HasParams(body)
  {
  }

  /** The success body always says `isError: false`, whatever the payload said, and keeps every other field. */
  lemma SuccessOverridesIsError(req: Request, env: Env, reply: Reply, parse: string -> Parsed)
    requires Handle(req, env, reply, parse).status == 200
    ensures Handle(req, env, reply, parse).body["isError"] == JBool(false)
    ensures var payload := Spread(parse(TextOrEmpty(reply.text)).value);
            forall k :: k in payload && k != "isError" ==> Handle(req, env, reply, parse).body[k] == payload[k]
  {
  }

  /**
   * An empty (or absent) model text is parsed as `"{}"`; with a parser that
   * reads `"{}"` as the empty object the answer is 200 with only `isError: false`.
   */
  lemma EmptyTextIsEmptyObject(req: Request, env: Env, text: Option<string>, parse: string -> Parsed)
    requires req.httpMethod == "POST" && Set(ApiKey(env)) && HasParams(req.body)
    requires !Set(text)
    requires parse("{}") == Value(JObj(map[]))
    ensures Handle(req, env, Answer(text), parse) == Response(200, map["isError" := JBool(false)])
  {
  }

  /** A failure gets a non-empty explanation: the error's message, or the default. */
  lemma CrashHasDetails(message: Option<string>)
    ensures Crash(message).body["details"] != JStr("")
    ensures !Set(message) ==> Crash(message).body["details"] == JStr(UnknownError)
  {
  }
}
