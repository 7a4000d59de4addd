# MonChain faucet: claim relay and claim form

This project models the two pieces of logic in the MonChain test-token faucet:

- **The relay** `POST /api/claim-mon` (`pages/api/claim-mon.js`). It rejects methods other than POST with 405. It checks `wallet_address` against `/^0x[a-fA-F0-9]{40}$/` and answers 400 on failure. Otherwise it forwards one JSON POST to the fixed downstream claim function. A 2xx answer goes back as 200, any other answer keeps its status, and the body is passed through unchanged either way (for numbers that are finite doubles; see "Left out"). Any exception becomes a fixed 500.
- **The claim form** (`pages/index.js`). `validateEthereumAddress` applies the same pattern. `handleSubmit` drives the state cells `isLoading`, `transactionStatus` and `errorMessage`.

Modules:

- `Wrappers`, `Json` and `Fetch` (json.dfy) hold the shared vocabulary. `Json` covers JSON values, JavaScript truthiness and what a property read does (reading a property of `null` throws; a missing key gives `undefined`). `Fetch` describes what a `fetch` plus `response.json()` can return: a transport failure, or a status with a parsed or unparseable body.
- `Regex` (regex.dfy) is the fragment of JavaScript regular expressions that the address pattern uses: anchored, with fixed-count single-character pieces. It holds the pattern itself and the proof that the pattern accepts exactly the closed form: length 42, a lower-case `0x`, then 40 hex digits of either case.
- `ClaimMon` (claim_mon.dfy) holds the relay as a pure function. It returns the reply and the outbound call, if one was made.
- `HomePage` (home.dfy) holds the form as a class `Home` whose fields are the React state cells. `HandleSubmit` is a method over them. `StatusFor` is the pure function that specifies the status the method ends with.
- `ClaimFlow` (claim_flow.dfy) connects the two tiers: it states what the user sees for each downstream outcome.

The network calls are inputs. `ClaimMon.Handle` receives the downstream outcome as a parameter and consults it only when it forwards. `HomePage.Home.HandleSubmit` receives the outcome of its call to the relay in the same way.

Two consequences of the code are easy to miss:

- An undefined or null `req.body` makes the destructuring at `pages/api/claim-mon.js:9` throw inside the `try`, so the answer is 500, not 400.
- A 2xx downstream answer is relayed with status 200 (`pages/api/claim-mon.js:31-32`).

## Model

| member | source | states |
|---|---|---|
| Regex.RepeatMatchesIff | pages/api/claim-mon.js:12 | `t{n}` matches a string iff it has exactly `n` characters and each one matches `t` |
| Regex.AddressPatternIff | pages/api/claim-mon.js:12 | `^0x[a-fA-F0-9]{40}$` accepts a string iff it has length 42, starts with lower-case `0x`, and its other 40 characters are `0-9`, `a-f` or `A-F` |
| Regex.HexRunIff | pages/api/claim-mon.js:12 | `[a-fA-F0-9]{40}` accepts a string iff it is exactly 40 characters, each `0-9`, `a-f` or `A-F` |
| Regex.AddressRejections | pages/api/claim-mon.js:12 | upper-case `0X`, any length other than 42, and any non-hex character after the prefix are all rejected |
| ClaimMon.IsValidWalletAddress | pages/api/claim-mon.js:12 | the relay's pattern test accepts exactly the closed-form addresses |
| ClaimMon.ClaimCall | pages/api/claim-mon.js:17-26 | the outbound call is a POST to the fixed endpoint with a JSON content type, and its body is exactly `{ wallet_address }` holding the address unchanged |
| ClaimMon.BodyOf | pages/api/claim-mon.js:9 | destructuring a null body throws (no request body, the 500 path); a body without `wallet_address` gives an absent address; otherwise the address is the body's string field |
| ClaimMon.WalletAddressBodyRoundTrip | pages/api/claim-mon.js:9 | destructuring the body `{ wallet_address }` gives back exactly the address it was built from |
| ClaimMon.Relay | pages/api/claim-mon.js:28-38 | status 200 iff the downstream body parsed and its status was 2xx; a parsed non-2xx answer keeps its status and body; a parsed body is always passed through verbatim; a transport or parse failure gives exactly 500 `{error: "Failed to process faucet request"}` |
| ClaimMon.Handle | pages/api/claim-mon.js:2-40 | non-POST gives 405 `{error: "Method not allowed"}` with no call; a POST with an absent body gives the generic 500 with no call; a missing, empty or malformed address gives 400 `{error: "Invalid wallet address"}` with no call; exactly one call is made iff the request is a POST with a valid address, and it carries that address, and the reply is the relayed downstream outcome |
| ClaimMon.NoCallNoDownstreamInfluence | pages/api/claim-mon.js:4-14 | when the handler exits before the fetch, its result does not depend on the downstream outcome |
| ClaimMon.LocalAndUpstreamRejectionsAlike | pages/api/claim-mon.js:12-38 | a downstream 400 or 500 carrying the relay's own error body is indistinguishable from the relay's local 400 or 500 |
| ClaimMon.NoDeduplication | pages/api/claim-mon.js:17-26 | the same valid address is forwarded on every submission, with the identical call; there is no per-address limit |
| HomePage.ValidateEthereumAddress | pages/index.js:11-13 | the form's check accepts exactly the closed-form addresses |
| HomePage.SubmitRequest | pages/index.js:28-34 | the form posts JSON to `/api/claim-mon`, and its body is exactly `{ wallet_address }` holding the typed address unchanged |
| HomePage.ErrorMessageOf | pages/index.js:47 | the error text is `data.message` if truthy, else `data.error` if truthy, else "Failed to send tokens"; the result is always truthy |
| HomePage.StatusFor | pages/index.js:27-55 | success iff the response parsed and was ok, and then it carries "Tokens sent successfully!" and the parsed body; a non-ok, non-null body gives an error with the chosen message; a transport failure, a parse failure or a non-ok `null` body (whose property read throws) gives the fixed "An error occurred while connecting to the faucet"; an error never carries data |
| HomePage.Home.constructor | pages/index.js:6-9 | the form starts with an empty address, not loading, no status and no error message |
| HomePage.Home.SetWalletAddress | pages/index.js:101 | typing replaces the address and changes no other cell |
| HomePage.Home.HandleSubmit | pages/index.js:15-59 | for an invalid address nothing is sent, the error message becomes "Please enter a valid Ethereum wallet address" and the other cells are unchanged; for a valid one exactly one request carrying the address is sent while `isLoading` is true, the status is null and the error message is empty; afterwards `isLoading` is false, the error message is empty and the status is `StatusFor` of the outcome; the address is never changed |
| ClaimFlow.ClientServerAgree | pages/index.js:12 | the form and the relay accept exactly the same strings |
| ClaimFlow.AcceptedAddressIsForwarded | pages/index.js:28-34 | for an address the form accepts, the relay handling the form's request (its method, and its body destructured as the relay does) forwards exactly one call carrying that address and replies with the relayed downstream outcome; it never rejects the request locally |
| ClaimFlow.Shown | pages/index.js:38-48 | end to end, the user sees success iff the downstream body parsed and its status was 2xx |
| ClaimFlow.DownstreamSuccessShown | pages/api/claim-mon.js:31-32 | a downstream 2xx shows "Tokens sent successfully!" with the downstream body |
| ClaimFlow.RelayFailureShown | pages/api/claim-mon.js:36-38 | a downstream transport or parse failure shows the relay's "Failed to process faucet request" |
| ClaimFlow.DownstreamRejectionShown | pages/api/claim-mon.js:33-34 | a downstream non-2xx answer `{error: reason}`, such as 429 "rate limited", shows that reason |

## Left out

- The `fetch` calls and `response.json()` parsing are network and library calls. Their results are inputs of type `Fetch.FetchOutcome`. The relay's outbound call is returned as data rather than performed.
- The downstream URL is kept as the constant `ClaimMon.ClaimEndpoint`. The downstream service's own behaviour, including any rate limit it may enforce, is not part of this model.
- The "1 request per wallet per day" notice on the page is static text. No code enforces it, so no limit is modelled.
- `console.error` logging is a side channel without a behavioural contract.
- JSX rendering, styling, the static information panels and the footer's `new Date()` are presentation and a clock read.
- `e.preventDefault()` is UI plumbing. The `disabled={isLoading}` button, which keeps a second submit from starting while one is in flight, is also left out; `HandleSubmit` may be called in any state.
- React's asynchronous state updates and re-rendering are not modelled. Each setter is a field assignment, and the method runs to completion as one step. The form state at the moment the request leaves is returned alongside the request.
- A non-string `wallet_address` in the request body, which `RegExp.test` would coerce to a string, is not modelled. The field is either absent or a string. A `req.body` that is not an object is treated like an absent one only when it is `undefined` or `null`.
- JSON numbers are modelled as unbounded reals. JavaScript parses them into doubles: a literal beyond the double range, such as `1e400`, becomes Infinity, and `res.json` writes it back out as `null`; a literal below the smallest subnormal, such as `1e-400`, becomes 0, which is falsy. The model keeps both as non-zero reals.
- Truthy: agrees with JavaScript only for numbers that are finite doubles, for the reason above.
- Relay: the verbatim pass-through of a parsed downstream body holds only when its numbers are finite doubles; an out-of-range number is sent on as `null`.
- Handle: the same limit on the verbatim pass-through as Relay.
- DownstreamSuccessShown: the same limit on the verbatim pass-through as Relay.
- The HTTP hop from the relay to the form is an abstraction (`ClaimFlow.Deliver`): the relay's status and JSON body are assumed to reach the form's `response.json()` unchanged. It loses data in two places. `res.json` writes non-finite numbers as `null`. A passed-through status that carries no body, such as 304, reaches `response.json()` with nothing to parse.
- Concurrency between requests is not modelled. The relay keeps no shared state.
