# gql client core, modelled in Dafny

A model of the core of a small GraphQL-over-HTTP client written in Go. The
client holds an endpoint, a mutable map of HTTP headers, and a transport
handle. `Execute` encodes a request, POSTs it with every current header,
decodes the JSON envelope `{data, errors}`, writes `data` into the caller's
target, and returns a server-reported `errors` list as its failure.
`ExecuteWithHeaders` adds extra headers for a single call. The server's
errors can be read one at a time or as a single text joined with `", "`.

Modules:

- `Wrappers` (wrappers.dfy): `Option` and `Result`.
- `GqlErrors` (errors.dfy): `Error` and its fields, the error list, and
  `Join` as Go's `strings.Join` defines it. It has the single-error text
  and the combined text, computed by the same loop-then-join as the source.
- `Execution` (execution.dfy): what one `Execute` call does, as pure
  functions. The foreign steps are fields of `Collaborators`: JSON encoding,
  building the HTTP request, the HTTP exchange, decoding the envelope,
  decoding `data` and decoding `errors`. Each step may fail with a `Fault`.
  `Prelude` covers the four steps that short-circuit. `Settle` covers the
  `data`/`errors` outcome. `Run` is the whole call. `Outbound` is the request
  that goes out, if any.
- `GqlClient` (client.dfy): the `Client` class with its fields. Its methods
  change `headers` in place. `Execute` is proved equal to `Run`, and
  `ExecuteWithHeaders` is proved to leave the exact post-state. The caller's
  decode target is a `Target` object. The transport handle is a `Transport`
  object that records each request it sends, so "no request is sent" can be
  observed.

`Execute` and `ExecuteWithHeaders` have two definitions in the source:
gql.go and execute.go. The two copies behave the same, so the behaviour is
modelled once. The rows below cite the methods in gql.go and the lemmas
about `Run` in execute.go.

Two behaviours of the code are worth stating outright:

- After the call, `ExecuteWithHeaders` deletes every extra key. A header it
  overrode is therefore removed, not restored (`ScopedCallRestoresIff`,
  `OverriddenHeaderIsDropped`).
- A present `errors` field is returned as the failure even when it is `[]`
  (`ErrorsBecomeFailure`).

In an envelope, a JSON `null` for `data` or `errors` counts as absent, the
same as Go's nil `*json.RawMessage`.

## Model

| member | source | states |
|---|---|---|
| GqlErrors.ErrorText | gql.go:33-35 | An error's text is exactly its message. Locations, type, path and extensions play no part |
| GqlErrors.SingletonText | gql.go:33-35 | An error's text is exactly its message, and a list holding that one error has the same combined text |
| GqlErrors.Messages | gql.go:48-51 | The collected messages have one entry per error: entry i is error i's message, in list order |
| GqlErrors.CombinedMessage | gql.go:47-53 | The combined text of an empty list is "", and for a one-element list it is that error's message |
| GqlErrors.ErrorsText | gql.go:47-53 | The source's loop collects the messages and then joins them; the result equals the join of all messages with ", " in list order |
| GqlErrors.JoinConcat | gql.go:52 | Joining two non-empty lists gives the join of the first, one separator, then the join of the second |
| GqlErrors.MessagesConcat | gql.go:49-51 | The messages of a concatenation are the concatenation of the messages |
| GqlErrors.CombinedSplit | gql.go:47-53 | Cutting a list at any inner point splits its combined text at one ", ", so nothing is dropped, repeated or reordered |
| GqlErrors.CombinedAppend | gql.go:48-52 | Appending an error to a non-empty list extends the combined text by ", " and that error's message |
| GqlClient.Client.constructor | gql.go:69-75 | Stores the endpoint and the header map unchanged, with a nil map kept as nil, and starts a fresh transport that has sent nothing |
| GqlClient.Client.SetHeader | gql.go:78-80 | Requires a non-nil map. Afterwards the key maps to the value and every other key keeps its value |
| GqlClient.Client.ExecuteWithHeaders | gql.go:83-92 | The inner Execute sees the old headers overridden by the extras, and its error and target write are returned unchanged. Afterwards the headers are the old map minus every extra key |
| GqlClient.ScopedCallRestoresIff | execute.go:13-19 | Merging and then deleting the extras gives the old map minus those keys, which equals the old map exactly when the extras and the existing keys are disjoint |
| GqlClient.OverriddenHeaderIsDropped | execute.go:17-19 | An existing key that an extra header overrode is absent after the call, not restored |
| GqlClient.Client.Execute | gql.go:96-137 | The target and the returned error are those of Run for the current headers. The transport has sent exactly the Outbound request, and a client with a nil header map sends no headers |
| GqlClient.AttachHeaders | gql.go:105-107 | Every client header is set on the outgoing request with its value, and no other key changes |
| GqlClient.Transport.Do | gql.go:108 | Sends the request once, records it, and returns the network's answer |
| Execution.Run | execute.go:25-64 | One Execute call. The target changes only when the prelude succeeded and data was present. Server errors are returned only when errors was present. When nothing was sent, the call fails with a library error and the target is unchanged |
| Execution.Prelude | execute.go:26-46 | The first four steps. They fail whenever no request was sent; on success the envelope is the decoding of the response to the one request sent |
| Execution.Settle | execute.go:48-63 | The data/errors outcome. Without data the target keeps its value. No error is returned exactly when errors is absent and data is absent or decodes cleanly. Server errors come only from a present errors field |
| Execution.Outbound | execute.go:26-37 | At most one request is sent: a POST to the endpoint, carrying every current header and the encoded body. None is sent exactly when encoding or request construction failed |
| Execution.ExecErrorText | gql.go:46-53 | The text a caller reads from the returned error: a library fault's own message, or the combined server messages ("" for an empty list, the message itself for one error) |
| Execution.EncodeFailureStops | execute.go:26-29 | An encoding error is returned as is. Nothing is sent and the target is untouched |
| Execution.RequestFailureStops | execute.go:30-33 | A request-construction error is returned as is. Nothing is sent and the target is untouched |
| Execution.SentRequest | execute.go:30-37 | After encoding and construction succeed, exactly one POST goes to the endpoint with the encoded body and every current header |
| Execution.TransportFailureStops | execute.go:37-40 | A transport error is returned as is and the target is untouched |
| Execution.EnvelopeFailureStops | execute.go:42-46 | An envelope decode error is returned as is and the target is untouched |
| Execution.DataFailureWins | execute.go:48-53 | A failing data decode is returned without looking at errors. The target keeps whatever the decoder wrote |
| Execution.ErrorsBecomeFailure | execute.go:55-62 | A present errors field, even an empty array, is returned as the failure after data has been written to the target |
| Execution.ErrorsDecodeFailureStops | execute.go:55-60 | A failing errors decode is returned as is, after data has been written to the target |
| Execution.NeitherFieldSucceeds | execute.go:63 | With neither data nor errors present, the call succeeds and the target is left alone |
| Execution.SucceedsIff | execute.go:25-64 | No error is returned exactly when the first four steps succeed, errors is absent, and data is absent or decodes cleanly |
| Execution.TargetOnlyFromData | execute.go:48-53 | The target afterwards is the data decoder's output when data was present after a clean prelude, and the old value otherwise |
| Execution.FieldNotFoundScenario | gql.go:127-134 | With an envelope holding only one error, "field not found", the call fails with exactly that text and the target is unchanged |

## Left out

- HTTP transport: `http.NewRequest`, `Client.Do`, status codes and closing the response body. The model reduces them to the fallible `newRequest` and `exchange` steps.
- net/http canonicalises header keys, so two keys that differ only in case collapse on the wire. The model sends the keys as stored.
- JSON encoding and decoding: `json.Marshal`, `json.Unmarshal` and `json.RawMessage` are foreign code. They appear as abstract fallible steps, and raw JSON is kept as opaque bytes. As a result the model does not state the request-body round trip.
- Go ranges over a map in an unspecified order. The model's loops take the keys in an arbitrary order, which gives the same result because the keys are distinct.
- `NewClient` stores the caller's map by reference. The model does not capture that aliasing, so later writes by the caller are not visible through the client and the client's writes are not visible to the caller.
- `Endpoint` is an exported field in Go, but the core never writes it. It is modelled as a constant.
- Concurrent use of one client races on the header map. The model is sequential.
- execute_js.go is not part of this model. It is the wasm-only variant, where results arrive asynchronously through JavaScript callbacks.
- schema.go is not part of this model. It holds only decode-target record types for introspection and has no behaviour.
- generated.go is not part of this model. It wraps one query and returns the decoded authors, and it calls `Execute` with three arguments, which matches neither signature modelled here.
- cmd/gql.go is not part of this model. It is a command-line entry point with a package-level client, and it also calls `Execute` with three arguments.
