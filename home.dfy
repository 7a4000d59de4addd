/** The faucet page's form logic (pages/index.js): the address check and the
    submit handler over the React state cells `walletAddress`, `isLoading`,
    `transactionStatus` and `errorMessage`. The `fetch('/api/claim-mon')` call
    and its `response.json()` are not executed: their outcome is an input. */
module HomePage {
  import opened Wrappers
  import opened Json
  import opened Fetch
  import opened Regex

  const InvalidAddressMessage := "Please enter a valid Ethereum wallet address"
  const SentMessage := "Tokens sent successfully!"
  const FallbackMessage := "Failed to send tokens"
  const ConnectionMessage := "An error occurred while connecting to the faucet"

  /** The relay route the form posts to. */
  const ClaimRoute := "/api/claim-mon"

  datatype Kind = Success | Error

  /** The `transactionStatus` record. `message` is whatever JSON value was
      chosen (the fixed texts are strings); `data` is present on success only. */
  datatype TransactionStatus = TransactionStatus(status: Kind, message: Json, data: Option<Json>)

  /** The three cells `handleSubmit` writes, read together. */
  datatype FormState = FormState(isLoading: bool, transactionStatus: Option<TransactionStatus>, errorMessage: string)

  /** `validateEthereumAddress`: `/^0x[a-fA-F0-9]{40}$/.test(address)`. */
  predicate ValidateEthereumAddress(address: string)
    ensures ValidateEthereumAddress(address) <==> IsAddress(address)
  {
    AddressPatternIff(address);
    FullMatch(AddressPattern, address)
  }

  /** The request the form sends for `address`. */
  function SubmitRequest(address: string): (r: Request)
    ensures r.url == ClaimRoute && r.httpMethod == "POST" && r.contentType == "application/json"
    ensures r.body.JObject? && r.body.fields.Keys == {"wallet_address"}
    ensures Get(r.body, "wallet_address") == Defined(JString(address))
  {
    Request(ClaimRoute, "POST", "application/json", WalletAddressBody(address))
  }

  /** `data.message || data.error || 'Failed to send tokens'` for a body that
      is not null (reading a property of null throws instead). The first truthy
      of the two fields is chosen, else the fallback text. */
  function ErrorMessageOf(data: Json): (m: Json)
    requires data != JNull
    ensures Truthy(m)
    ensures PropertyTruthy(Get(data, "message")) ==> m == Get(data, "message").value
    ensures !PropertyTruthy(Get(data, "message")) && PropertyTruthy(Get(data, "error")) ==>
              m == Get(data, "error").value
    ensures !PropertyTruthy(Get(data, "message")) && !PropertyTruthy(Get(data, "error")) ==>
              m == JString(FallbackMessage)
  {
    var message := Get(data, "message");
    var error := Get(data, "error");
    if PropertyTruthy(message) then message.value
    else if PropertyTruthy(error) then error.value
    else JString(FallbackMessage)
  }

  /** The status the `try`/`catch` of `handleSubmit` settles on for an outcome
      of the relay call. */
  function StatusFor(outcome: FetchOutcome): (t: TransactionStatus)
    ensures t.status == Success <==> outcome.Received? && outcome.body.Some? && IsOk(outcome.status)
    ensures t.status == Success ==> t == TransactionStatus(Success, JString(SentMessage), outcome.body)
    ensures t.status == Error ==> t.data.None?
    // a non-ok answer with a body that is not null shows the body's own message
    ensures outcome.Received? && outcome.body.Some? && !IsOk(outcome.status) && outcome.body.value != JNull ==>
              t == TransactionStatus(Error, ErrorMessageOf(outcome.body.value), None)
    // transport failure, parse failure or a non-ok null body end in the catch
    ensures outcome.TransportFailure? || outcome.body.None? ||
            (!IsOk(outcome.status) && outcome.body.value == JNull) ==>
              t == TransactionStatus(Error, JString(ConnectionMessage), None)
    ensures Truthy(t.message)
  {
    match outcome
    case TransportFailure => TransactionStatus(Error, JString(ConnectionMessage), None)
    case Received(_, None) => TransactionStatus(Error, JString(ConnectionMessage), None)
    case Received(status, Some(data)) =>
      if IsOk(status) then TransactionStatus(Success, JString(SentMessage), Some(data))
      else if data == JNull then TransactionStatus(Error, JString(ConnectionMessage), None)
      else TransactionStatus(Error, ErrorMessageOf(data), None)
  }

  /** A request sent by `handleSubmit`, with the form state at the moment it
      left. */
  datatype Sent = Sent(request: Request, stateAtSend: FormState)

  class Home {
    var walletAddress: string
    var isLoading: bool
    var transactionStatus: Option<TransactionStatus>
    var errorMessage: string

    function State(): FormState
      reads this
    {
      FormState(isLoading, transactionStatus, errorMessage)
    }

    /** The initial `useState` values. */
    constructor ()
      ensures walletAddress == "" && State() == FormState(false, None, "")
    {
      walletAddress := "";
      isLoading := false;
      transactionStatus := None;
      errorMessage := "";
    }

    /** The input's `onChange`: the typed text replaces `walletAddress` and
        nothing else. */
    method SetWalletAddress(value: string)
      modifies this`walletAddress
      ensures walletAddress == value
    {
      walletAddress := value;
    }

    /** `handleSubmit`. `outcome` is what the relay call would come back with;
        it is only consulted when a request is sent. */
    method HandleSubmit(outcome: FetchOutcome) returns (sent: Option<Sent>)
      modifies this`isLoading, this`transactionStatus, this`errorMessage
      ensures walletAddress == old(walletAddress)
      // invalid input: only the error message changes and nothing is sent
      ensures !IsAddress(walletAddress) ==>
                sent.None? &&
                State() == FormState(old(isLoading), old(transactionStatus), InvalidAddressMessage)
      // valid input: one request, sent after the reset, carrying the address
      ensures IsAddress(walletAddress) ==>
                sent == Some(Sent(SubmitRequest(walletAddress), FormState(true, None, "")))
      // and whatever the outcome, loading is over and the status reflects it
      ensures IsAddress(walletAddress) ==>
                State() == FormState(false, Some(StatusFor(outcome)), "")
    {
      if !ValidateEthereumAddress(walletAddress) {
        errorMessage := InvalidAddressMessage;
        return None;
      }

      isLoading := true;
      transactionStatus := None;
      errorMessage := "";

      sent := Some(Sent(SubmitRequest(walletAddress), State()));
      match outcome {
        case TransportFailure =>
          transactionStatus := Some(TransactionStatus(Error, JString(ConnectionMessage), None));
        case Received(status, None) =>
          transactionStatus := Some(TransactionStatus(Error, JString(ConnectionMessage), None));
        case Received(status, Some(data)) =>
          if IsOk(status) {
            transactionStatus := Some(TransactionStatus(Success, JString(SentMessage), Some(data)));
          } else {
            var message := Get(data, "message");
            if message.Throws? {
              transactionStatus := Some(TransactionStatus(Error, JString(ConnectionMessage), None));
            } else if PropertyTruthy(message) {
              transactionStatus := Some(TransactionStatus(Error, message.value, None));
            } else {
              var error := Get(data, "error");
              if PropertyTruthy(error) {
                transactionStatus := Some(TransactionStatus(Error, error.value, None));
              } else {
                transactionStatus := Some(TransactionStatus(Error, JString(FallbackMessage), None));
              }
            }
          }
      }
      isLoading := false;
    }
  }
}
