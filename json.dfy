/** Option, the conventional Some/None wrapper. */
module Wrappers {
  datatype Option<+T> = None | Some(value: T)
}

/** JSON values as the faucet passes them around: request bodies, downstream
    payloads and the relay's own error bodies. Downstream payloads are opaque
    to the relay, so no schema is imposed. */
module Json {
  import opened Wrappers

  datatype Json =
    | JNull
    | JBool(b: bool)
    | JNumber(n: real)
    | JString(s: string)
    | JArray(items: seq<Json>)
    | JObject(fields: map<string, Json>)

  /** JavaScript truthiness of a JSON value: null, false, 0 and "" are falsy,
      every array and object is truthy. */
  predicate Truthy(v: Json) {
    match v
    case JNull => false
    case JBool(b) => b
    case JNumber(n) => n != 0.0
    case JString(s) => s != ""
    case JArray(_) => true
    case JObject(_) => true
  }

  /** The outcome of reading `value.key` in JavaScript when `value` came from
      JSON, for the keys the faucet reads (`message`, `error`,
      `wallet_address`): reading a property of null throws, and on any other
      value but an object holding the key it is undefined. (Keys such as
      `length` on strings and arrays behave otherwise and are not read.) */
  datatype Property = Throws | Undefined | Defined(value: Json)

  function Get(value: Json, key: string): (p: Property)
    requires key in {"message", "error", "wallet_address"}
    ensures p.Throws? <==> value == JNull
    ensures p.Defined? <==> value.JObject? && key in value.fields
    ensures p.Defined? ==> p.value == value.fields[key]
  {
    match value
    case JNull => Throws
    case JObject(fields) => if key in fields then Defined(fields[key]) else Undefined
    case _ => Undefined
  }

  /** Truthiness of a property read that did not throw (undefined is falsy). */
  predicate PropertyTruthy(p: Property)
    requires !p.Throws?
  {
    p.Defined? && Truthy(p.value)
  }

  /** The body `{ error: message }` that both tiers use for their own errors. */
  function ErrorBody(message: string): (j: Json)
    ensures j.JObject? && j.fields.Keys == {"error"}
    ensures Get(j, "error") == Defined(JString(message))
  {
    JObject(map["error" := JString(message)])
  }

  /** The body `{ wallet_address }` that the client sends to the relay and the
      relay sends downstream. */
  function WalletAddressBody(address: string): (j: Json)
    ensures j.JObject? && j.fields.Keys == {"wallet_address"}
    ensures Get(j, "wallet_address") == Defined(JString(address))
  {
    JObject(map["wallet_address" := JString(address)])
  }
}

/** What a `fetch` followed by `response.json()` can come back with: a
    transport-level failure, or a response whose status is known and whose body
    either parsed as JSON or did not. */
module Fetch {
  import opened Wrappers
  import opened Json

  datatype FetchOutcome =
    | TransportFailure
    | Received(status: int, body: Option<Json>)

  /** `response.ok`: the status lies in 200..299. */
  predicate IsOk(status: int) {
    200 <= status <= 299
  }

  /** An outbound HTTP call as issued: URL, method, Content-Type header and
      JSON body. */
  datatype Request = Request(url: string, httpMethod: string, contentType: string, body: Json)
}
