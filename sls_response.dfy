/**
 * How src/slsProducer.ts turns the body of a response into the outcome of its
 * promise. The body is parsed as JSON; a parse failure, a `null` body (reading
 * a property of `null` throws) and a body whose `errorCode` is truthy reject,
 * anything else fulfils with the parsed value. putLogs fulfils on an empty
 * body before parsing; getLogstore parses every body.
 */
module SlsResponse {
  import opened Common

  /** A parsed JSON value. Numbers are kept as reals; JSON has no NaN. */
  datatype Json =
    | JNull
    | JBool(b: bool)
    | JNumber(n: real)
    | JString(s: string)
    | JArray(items: seq<Json>)
    | JObject(fields: map<string, Json>)

  /** JavaScript truthiness of a parsed value. */
  predicate Truthy(j: Json)
  {
    match j
    case JNull => false
    case JBool(b) => b
    case JNumber(n) => n != 0.0
    case JString(s) => |s| > 0
    case JArray(_) => true
    case JObject(_) => true
  }

  /** Reading a property: it throws on `null`, and is undefined unless an object holds it. */
  datatype Access = Throws | Read(value: Option<Json>)

  function Property(j: Json, name: string): (r: Access)
    ensures r.Throws? <==> j.JNull?
    ensures r.Read? && r.value.Some? <==> j.JObject? && name in j.fields
  {
    match j
    case JNull => Throws
    case JObject(fields) => Read(if name in fields then Some(fields[name]) else None)
    case _ => Read(None)
  }

  datatype Reason = ParseError | NullBody | ServiceError(body: Json)

  /** The settled state of a request's promise. `Fulfilled(None)` is `f()` with no argument. */
  datatype Outcome = Fulfilled(value: Option<Json>) | Rejected(reason: Reason)

  /** An object that reports an error: its `errorCode` is present and truthy. */
  predicate ReportsError(j: Json)
  {
    j.JObject? && "errorCode" in j.fields && Truthy(j.fields["errorCode"])
  }

  /** `if (data.errorCode) r(data) else f(data)`, inside the `try`. */
  function Settle(data: Json): Outcome
  {
    match Property(data, "errorCode")
    case Throws => Rejected(NullBody)
    case Read(code) => if code.Some? && Truthy(code.value) then Rejected(ServiceError(data)) else Fulfilled(Some(data))
  }

  /** The `end` handler of getLogstore; `parse` is JSON.parse, None when it throws. */
  function ClassifyGet(body: string, parse: string -> Option<Json>): Outcome
  {
    match parse(body)
    case None => Rejected(ParseError)
    case Some(data) => Settle(data)
  }

  /** The `end` handler of putLogs: an empty body fulfils before anything is parsed. */
  function ClassifyPut(body: string, parse: string -> Option<Json>): Outcome
  {
    if |body| == 0 then Fulfilled(None) else ClassifyGet(body, parse)
  }

  /** A parsed body rejects exactly when it is `null` or reports an error, and otherwise fulfils with itself. */
  lemma SettleCases(data: Json)
    ensures Settle(data) == Rejected(NullBody) <==> data == JNull
    ensures Settle(data) == Rejected(ServiceError(data)) <==> ReportsError(data)
    ensures Settle(data).Fulfilled? <==> data != JNull && !ReportsError(data)
    ensures Settle(data).Fulfilled? ==> Settle(data).value == Some(data)
  {
    var p := Property(data, "errorCode");
    if data.JObject? && "errorCode" in data.fields {
      assert p == Read(Some(data.fields["errorCode"]));
    }
  }

  /** getLogstore rejects exactly on a parse failure, a `null` body, or a reported error. */
  lemma GetRejects(body: string, parse: string -> Option<Json>)
    ensures ClassifyGet(body, parse).Rejected?
            <==> parse(body).None? || parse(body) == Some(JNull) || (parse(body).Some? && ReportsError(parse(body).value))
    ensures ClassifyGet(body, parse).Fulfilled? ==> ClassifyGet(body, parse).value == parse(body)
  {
    if parse(body).Some? {
      SettleCases(parse(body).value);
    }
  }

  /** An empty body: putLogs fulfils, getLogstore rejects since JSON.parse("") throws. */
  lemma EmptyBody(parse: string -> Option<Json>)
    requires parse("") == None
    ensures ClassifyPut("", parse) == Fulfilled(None)
    ensures ClassifyGet("", parse) == Rejected(ParseError)
  {
  }

  /** On a non-empty body both handlers agree. */
  lemma PutAgreesWithGet(body: string, parse: string -> Option<Json>)
    requires |body| > 0
    ensures ClassifyPut(body, parse) == ClassifyGet(body, parse)
  {
  }
}
