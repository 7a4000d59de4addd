/** The server-side relay `POST /api/claim-mon` (pages/api/claim-mon.js).
    The outbound `fetch` and its `response.json()` are not executed here: their
    outcome is an input, and the call the relay would issue is part of the
    result, so that "no call was made" is observable. */
module ClaimMon {
  import opened Wrappers
  import opened Json
  import opened Fetch
  import opened Regex

  const MethodNotAllowed := "Method not allowed"
  const InvalidWalletAddress := "Invalid wallet address"
  const FailedToProcess := "Failed to process faucet request"

  /** The downstream token-distribution function, a fixed constant. */
  const ClaimEndpoint := "https://iyppmmnflwqrbezacmaf.supabase.co/functions/v1/claimMon"

  /** `req.body` once it is present: `wallet_address` is either absent
      (undefined) or a string. */
  datatype RequestBody = RequestBody(walletAddress: Option<string>)

  /** `const { wallet_address } = req.body` (line 9) for a body that parsed as
      JSON: destructuring null throws (None, the 500 path); on any other value
      the field is read like a property, so a value without it gives an absent
      address. A `wallet_address` that is present but not a string is outside
      this model. */
  function BodyOf(j: Json): (b: Option<RequestBody>)
    requires j.JObject? && "wallet_address" in j.fields ==> j.fields["wallet_address"].JString?
    ensures b.None? <==> j == JNull
    ensures b.Some? ==> (b.value.walletAddress.Some? <==> j.JObject? && "wallet_address" in j.fields)
    ensures b.Some? && b.value.walletAddress.Some? ==>
              j.fields["wallet_address"] == JString(b.value.walletAddress.value)
  {
    match Get(j, "wallet_address")
    case Throws => None
    case Undefined => Some(RequestBody(None))
    case Defined(v) => Some(RequestBody(Some(v.s)))
  }

  /** The relay reads back exactly the address that `{ wallet_address }` carries. */
  lemma WalletAddressBodyRoundTrip(address: string)
    ensures BodyOf(WalletAddressBody(address)) == Some(RequestBody(Some(address)))
  {
  }

  /** `res.status(status).json(body)`. */
  datatype Reply = Reply(status: int, body: Json)

  /** What one invocation of the handler does: the reply it sends and the
      outbound call it issues, if any. */
  datatype Handled = Handled(reply: Reply, forwarded: Option<Request>)

  /** `/^0x[a-fA-F0-9]{40}$/.test(wallet_address)`. */
  predicate IsValidWalletAddress(s: string)
    ensures IsValidWalletAddress(s) <==> IsAddress(s)
  {
    AddressPatternIff(s);
    FullMatch(AddressPattern, s)
  }

  /** The one outbound call for a validated address. */
  function ClaimCall(address: string): (r: Request)
    ensures r.url == ClaimEndpoint && r.httpMethod == "POST" && r.contentType == "application/json"
    ensures r.body.JObject? && r.body.fields.Keys == {"wallet_address"}
    ensures Get(r.body, "wallet_address") == Defined(JString(address))
  {
    Request(ClaimEndpoint, "POST", "application/json", WalletAddressBody(address))
  }

  /** Forwarding the downstream outcome (lines 28-38): a parsed 2xx body goes
      out as 200, any other parsed body goes out with the downstream status,
      and a transport or parse failure becomes the fixed 500. */
  function Relay(downstream: FetchOutcome): (r: Reply)
    ensures r.status == 200 <==> downstream.Received? && downstream.body.Some? && IsOk(downstream.status)
    ensures downstream.Received? && downstream.body.Some? && !IsOk(downstream.status) ==>
              r == Reply(downstream.status, downstream.body.value)
    ensures downstream.Received? && downstream.body.Some? ==> r.body == downstream.body.value
    ensures downstream.TransportFailure? || downstream.body.None? ==> r == Reply(500, ErrorBody(FailedToProcess))
  {
    match downstream
    case TransportFailure => Reply(500, ErrorBody(FailedToProcess))
    case Received(_, None) => Reply(500, ErrorBody(FailedToProcess))
    case Received(status, Some(data)) =>
      if IsOk(status) then Reply(200, data) else Reply(status, data)
  }

  /** The handler. `body` is `req.body`, None when it is undefined or null;
      destructuring it then throws inside the `try`, so it takes the 500 path.
      `downstream` is what the outbound call would come back with; it is only
      consulted when the call is made. */
  function Handle(httpMethod: string, body: Option<RequestBody>, downstream: FetchOutcome): (h: Handled)
    // Any method but POST: 405, body never inspected, nothing forwarded.
    ensures httpMethod != "POST" ==> h == Handled(Reply(405, ErrorBody(MethodNotAllowed)), None)
    // An absent body: the generic 500, nothing forwarded.
    ensures httpMethod == "POST" && body.None? ==> h == Handled(Reply(500, ErrorBody(FailedToProcess)), None)
    // A missing, empty or malformed address: 400, nothing forwarded.
    ensures httpMethod == "POST" && body.Some? &&
            (body.value.walletAddress.None? || !IsAddress(body.value.walletAddress.value)) ==>
              h == Handled(Reply(400, ErrorBody(InvalidWalletAddress)), None)
    // Exactly one call is made iff the request is a POST carrying a valid address.
    ensures h.forwarded.Some? <==>
              httpMethod == "POST" && body.Some? && body.value.walletAddress.Some? &&
              IsAddress(body.value.walletAddress.value)
    // That call is a JSON POST to the fixed endpoint carrying the address unchanged,
    // and the reply is the downstream outcome relayed.
    ensures h.forwarded.Some? ==>
              h.forwarded.value == ClaimCall(body.value.walletAddress.value) &&
              h.reply == Relay(downstream)
  {
    if httpMethod != "POST" then
      Handled(Reply(405, ErrorBody(MethodNotAllowed)), None)
    else
      match body
      case None => Handled(Reply(500, ErrorBody(FailedToProcess)), None)
      case Some(RequestBody(walletAddress)) =>
        if walletAddress.None? || walletAddress.value == "" || !IsValidWalletAddress(walletAddress.value) then
          Handled(Reply(400, ErrorBody(InvalidWalletAddress)), None)
        else
          Handled(Relay(downstream), Some(ClaimCall(walletAddress.value)))
  }

  /** The relay's reply never depends on the downstream outcome unless the call
      is actually made. */
  lemma NoCallNoDownstreamInfluence(
    httpMethod: string, body: Option<RequestBody>, d1: FetchOutcome, d2: FetchOutcome)
    requires Handle(httpMethod, body, d1).forwarded.None?
    ensures Handle(httpMethod, body, d2) == Handle(httpMethod, body, d1)
  {
  }

  /** A caller cannot tell a local rejection from a downstream reply that
      happens to carry the same status and body: both are passed through. */
  lemma LocalAndUpstreamRejectionsAlike(address: string)
    requires IsAddress(address)
    ensures Handle("POST", Some(RequestBody(Some(address))),
                   Received(400, Some(ErrorBody(InvalidWalletAddress)))).reply
            == Handle("POST", Some(RequestBody(None)), TransportFailure).reply
    ensures Handle("POST", Some(RequestBody(Some(address))),
                   Received(500, Some(ErrorBody(FailedToProcess)))).reply
            == Handle("POST", Some(RequestBody(Some(address))), TransportFailure).reply
  {
  }

  /** The same valid address submitted twice is forwarded twice, identically:
      the relay keeps no record of earlier claims. */
  lemma NoDeduplication(address: string, first: FetchOutcome, second: FetchOutcome)
    requires IsAddress(address)
    ensures Handle("POST", Some(RequestBody(Some(address))), first).forwarded
            == Handle("POST", Some(RequestBody(Some(address))), second).forwarded
            == Some(ClaimCall(address))
  {
  }
}
