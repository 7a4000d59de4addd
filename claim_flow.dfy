/** The page and the relay together: what the user ends up seeing for a claim,
    given what the downstream distribution service does. The relay always
    answers with a JSON body, so the page receives it as a parsed response. */
module ClaimFlow {
  import opened Wrappers
  import opened Json
  import opened Fetch
  import opened Regex
  import opened ClaimMon
  import opened HomePage

  /** The relay's reply as the page's `fetch` sees it. This is an assumption
      about the HTTP hop between the tiers, not a property of either: the
      status and the JSON body are taken to arrive unchanged. */
  function Deliver(reply: Reply): FetchOutcome
  {
    Received(reply.status, Some(reply.body))
  }

  /** The page and the relay accept exactly the same addresses. */
  lemma ClientServerAgree(s: string)
    ensures ValidateEthereumAddress(s) <==> IsValidWalletAddress(s)
  {
  }

  /** The relay's handling of the request the page sends for `address`: its
      method and its body, destructured as the relay destructures it. */
  function HandleSubmitted(address: string, downstream: FetchOutcome): Handled
  {
    var request := SubmitRequest(address);
    Handle(request.httpMethod, BodyOf(request.body), downstream)
  }

  /** The request the page sends for an address it accepted is forwarded by
      the relay with that same address, and the reply is the relayed downstream
      outcome: a submission from the page is never rejected locally. */
  lemma AcceptedAddressIsForwarded(address: string, downstream: FetchOutcome)
    requires ValidateEthereumAddress(address)
    ensures HandleSubmitted(address, downstream) == Handled(Relay(downstream), Some(ClaimCall(address)))
  {
    WalletAddressBodyRoundTrip(address);
  }

  /** The user's final status for a page submission of `address` that the
      relay handled against `downstream`. */
  function Shown(address: string, downstream: FetchOutcome): (t: TransactionStatus)
    requires ValidateEthereumAddress(address)
    ensures t.status == Success <==> downstream.Received? && downstream.body.Some? && IsOk(downstream.status)
  {
    AcceptedAddressIsForwarded(address, downstream);
    StatusFor(Deliver(HandleSubmitted(address, downstream).reply))
  }

  /** A downstream success shows the success text with the downstream body. */
  lemma DownstreamSuccessShown(address: string, status: int, data: Json)
    requires ValidateEthereumAddress(address) && IsOk(status)
    ensures Shown(address, Received(status, Some(data))) ==
            TransactionStatus(Success, JString(SentMessage), Some(data))
  {
  }

  /** A downstream failure that the relay turns into its generic 500 shows the
      relay's own error text, since that body has no `message` field. */
  lemma RelayFailureShown(address: string, downstream: FetchOutcome)
    requires ValidateEthereumAddress(address)
    requires downstream.TransportFailure? || downstream.body.None?
    ensures Shown(address, downstream) == TransactionStatus(Error, JString(FailedToProcess), None)
  {
    var body := ErrorBody(FailedToProcess);
    assert Get(body, "message") == Undefined;
    assert ErrorMessageOf(body) == JString(FailedToProcess);
  }

  /** A downstream rejection whose body names its reason in `error` (such as
      `429 { error: "rate limited" }`) shows that reason. */
  lemma DownstreamRejectionShown(address: string, status: int, reason: string)
    requires ValidateEthereumAddress(address) && !IsOk(status) && reason != ""
    ensures Shown(address, Received(status, Some(ErrorBody(reason)))) ==
            TransactionStatus(Error, JString(reason), None)
  {
    var body := ErrorBody(reason);
    assert Get(body, "message") == Undefined;
    assert ErrorMessageOf(body) == JString(reason);
  }
}
