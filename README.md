# zkFil node connection layer, modelled in Dafny

This project models the session-orchestration layer of the zkFil fair-exchange node (`zkFil-node/connection.go`). In that layer a seller (Alice) and a buyer (Bob) do four things:

- They negotiate a session over a framed peer channel: Bob sends a request, Alice acks with her session ID and mode code, and Bob echoes the ack.
- Both sides map (mode, sub-mode, OT) tuples to one-byte wire codes and back.
- Alice registers the transaction and dispatches it to one of ten exchange-scheme engine variants. She creates, runs and frees that engine session in a scoped way.
- The peers relay opaque protocol blobs between the channel and local staging files: request, response, receipt, nego request, nego pair and nego ack.

Modules:

- `Types`: Go's machine integers (`uint8`, `uint64`, `int64`), byte strings, the error vocabulary, and `Outcome`/`Result`.
- `ModeTable`: `modeToInt`/`modeFromInt`, their round trip and injectivity, and the atomic-swap quirk. Those codes record no OT flag, so decoding them always gives OT false.
- `Hex`: `%x`, `strconv.ParseUint(s, 16, 64)`, `hex.EncodeToString` and `hex.DecodeString`, with their round trips.
- `Transport`:
  - the peer channel, a class `Node` with inbox, outbox, closed flag and send capacity;
  - the staging area, a class `Disk` with a file map and a set of unwritable paths;
  - the as-written file overlay behind the finding below.
- `Session`: `AliceRcvSessReq`, `preAliceConn`, `preAliceTxAndConn` and `BobCreateSess`, plus an end-to-end negotiation between honest peers.
- `Dispatch`: the record `AliceAcceptTx` builds, the `AliceTxMap` registry, and the ten-way dispatch with its scoped engine session.
- `Relay`: the twelve blob relays, plus end-to-end relays between honest peers.

JSON encoding and decoding are function parameters. Where a property needs the codec to round-trip, it takes that as the hypothesis `Lossless(enc, dec)`. The following are also parameters, so every property holds whatever they do:

- the seller's preparation step (`preAliceTx`);
- persistence (`insertAliceTxToDB`);
- the engine entry points (`AliceNewSessFor*`, `AliceTxFor*`).

Bob's session request carries mode byte 0 (`SendNewSessionRequest(uint8(0), …)`), not his preferred mode code. His preferred tuple travels only inside ExtraInfo.

## Model

| member | source | states |
|---|---|---|
| ModeTable.ModeToInt | zkFil-node/connection.go:456-498 | A tuple encodes exactly when its (mode, sub-mode) pair is listed (three plain sub-modes, four table sub-modes); otherwise the error is "invalid mode"; every code produced is one of the ten wire codes |
| ModeTable.ModeFromInt | zkFil-node/connection.go:500-546 | A byte decodes exactly when it is one of the ten wire codes; otherwise the error carries that byte (`modeFromInt`'s "invalid mode=<byte>" at line 543, which `BobCreateSess` rewraps as "invalid net mode" at lines 784-786); decoded tuples are listed, and OT true comes back only for complaint and VRF |
| ModeTable.WireCodesDistinct | zkFil-node/connection.go:500-546 | The ten wire codes are pairwise distinct (ten elements in the set) |
| ModeTable.EncodeDecode | zkFil-node/connection.go:456-546 | Decoding the code of an encodable tuple gives the tuple back, with OT cleared for the atomic-swap sub-modes |
| ModeTable.EncodeDecodeExact | zkFil-node/connection.go:456-546 | The exact round trip holds if and only if the pair is listed and OT is false or the sub-mode is complaint/VRF |
| ModeTable.DecodeEncode | zkFil-node/connection.go:456-546 | Every wire code decodes, and the decoded tuple re-encodes to the same code |
| ModeTable.EncodeInjective | zkFil-node/connection.go:456-498 | Two encodable tuples share a code if and only if they agree once the ignored OT flag is cleared |
| ModeTable.AtomicSwapIgnoresOt | zkFil-node/connection.go:466-469 | For the atomic-swap sub-modes the code does not depend on the OT flag |
| Hex.DigitChar | zkFil-node/connection.go:799 | `%x` prints lower-case hex digits, and only zero prints as '0' |
| Hex.DigitValue | zkFil-node/connection.go:413 | Every hex digit of either case has a value below 16, and only '0' has value 0 |
| Hex.DigitRoundTrip | zkFil-node/connection.go:799 | Parsing a printed digit gives back its value |
| Hex.DigitCharValue | zkFil-node/connection.go:413 | A lower-case digit is the one printed for its value |
| Hex.FormatHex | zkFil-node/connection.go:799 | `%x` of a session ID is a non-empty lower-case hex string with no leading zero |
| Hex.Accumulate | zkFil-node/connection.go:413 | The digit loop of `ParseUint(s, 16, 64)`, with its cutoff check before each multiplication and its overflow check after each digit, never yields a value of 64 bits or more |
| Hex.AccumulateValue | zkFil-node/connection.go:413 | Continued from a read prefix, the digit loop yields the value of the whole string exactly when all of it is digits and that value fits in 64 bits, and fails otherwise |
| Hex.HexValueMonotone | zkFil-node/connection.go:413 | Appending digits never lowers the value, so a prefix past the cutoff makes the whole string overflow |
| Hex.ParseUint16 | zkFil-node/connection.go:413 | `ParseUint(s, 16, 64)`, as the empty-string check followed by the digit loop, succeeds exactly on non-empty all-hex strings whose value is below 2^64, and then yields that value |
| Hex.HexValueSnoc | zkFil-node/connection.go:413 | Appending a digit multiplies the parsed value by sixteen and adds the digit |
| Hex.FormatHexValue | zkFil-node/connection.go:799 | The string `%x` prints spells its argument |
| Hex.ParseFormatRoundTrip | zkFil-node/connection.go:799 | The ID string Bob renders with `%x` parses back, with `ParseUint(s, 16, 64)`, to the same 64-bit ID |
| Hex.LeadingDigitBound | zkFil-node/connection.go:413 | A digit string that does not start with '0' spells a positive number |
| Hex.FormatHexSnoc | zkFil-node/connection.go:799 | `%x` of a multi-digit number is `%x` of its quotient by 16 followed by the digit of its remainder |
| Hex.FormatParseCanonical | zkFil-node/connection.go:413 | Conversely, a lower-case string without a leading zero is exactly `%x` of the value it parses to |
| Hex.EncodeHexBytes | zkFil-node/connection.go:335 | `hex.EncodeToString` yields two hex digits per byte |
| Hex.DecodeHexString | zkFil-node/connection.go:743 | `hex.DecodeString` succeeds exactly on even-length all-hex strings, giving one byte per two digits |
| Hex.DecodeEncodeBytes | zkFil-node/connection.go:335 | The root Alice prints with `hex.EncodeToString` decodes back to the same bytes |
| Transport.Node.Send | zkFil-node/connection.go:427-429 | A send succeeds exactly when the node is open and the transport can carry the frame; success appends the frame to what the peer receives |
| Transport.Node.Receive | zkFil-node/connection.go:389 | Returns the next frame (none when closed or drained) and consumes it; nothing sent changes |
| Transport.Node.Close | zkFil-node/connection.go:92-97 | Closing marks the node closed and leaves both queues unchanged |
| Transport.RecvBlob | zkFil-node/connection.go:549-552 | A typed receive returns the payload of a blob of the expected kind, and consumes the frame either way |
| Transport.Overlay | zkFil-node/connection.go:554-564 | As written: after open without truncation and one write, the file starts with the new bytes and keeps the old tail beyond them |
| Transport.OverlayKeepsStaleTail | zkFil-node/connection.go:554-564 | As written, writing [1] over a file holding [7,7,7] leaves [1,7,7], not [1] |
| Transport.OverlayExactWhenNotLonger | zkFil-node/connection.go:554-564 | The file holds exactly the new bytes if and only if it was absent or no longer than them |
| Transport.Disk.ReadFile | zkFil-node/connection.go:568-571 | `ioutil.ReadFile` returns the stored content exactly when the file exists, otherwise a read error naming the path |
| Transport.Disk.OpenWrite | zkFil-node/connection.go:554-564 | As written: a path that cannot be opened is a save error naming it with nothing changed; otherwise the file becomes the overlay of the data on what it held, and no other file changes |
| Transport.Disk.WriteFile | zkFil-node/connection.go:554-564 | Corrected save: the file then holds exactly the data, unless it cannot be opened, which is a save error naming the path with nothing changed |
| Session.AliceRcvSessReq | zkFil-node/connection.go:388-408 | Errors, in this order: no request frame; a nonzero session ID (checked before ExtraInfo); undecodable ExtraInfo. Otherwise it returns the request and its parsed extra. It consumes one frame and sends nothing |
| Session.PreAliceConn | zkFil-node/connection.go:410-454 | An unparsable session ID, an unencodable mode or an ack the transport refuses fails with the channel untouched (inbox, outbox and send capacity). Otherwise Alice sends Ack(ID, code, request root, request extra, initiator) and then fails on a missing echo, or on an echo whose ID differs (the error carries both IDs) |
| Session.Negotiated | zkFil-node/connection.go:319-361 | The seller's negotiation outcome, case by case in the source's order: no request, nonzero ID, bad ExtraInfo, preparation refused, unparsable ID, unencodable mode, ack not sent, no echo, echo ID mismatch; otherwise the prepared parameters |
| Session.PreAliceTxAndConn | zkFil-node/connection.go:319-361 | The result is exactly `Negotiated` of the node's state before the call, in both directions: it succeeds if and only if every step succeeds. The whole channel state is given: if the ack went out, the outbox gains exactly that ack, one unit of send capacity is used and up to two frames (the request and the echo, if any) are consumed; otherwise nothing is sent, capacity is unchanged and only the request frame, if any, is consumed. Every failure closes the node; a nonzero request ID is refused with nothing sent. On success the ack sent and the echo received are spelled out |
| Session.BobCreateSess | zkFil-node/connection.go:742-801 | Each failure case (bad root, request not sent, no ack, unknown ack mode, echo not sent) returns an empty session ID and sends only what came before it. On success Bob sends the request (mode byte 0) and the echo, using two units of send capacity (one on the failures after the request went out, none before). He adopts the ack's decoded mode, and his session ID is `%x` of the ack ID, which parses back to that ID |
| Session.NegotiationAgrees | zkFil-node/connection.go:742-801 | With a lossless ExtraInfo codec and seller parameters that convert, `preAliceTxAndConn` run on what `BobCreateSess` sent returns exactly the parameters the preparation step chose, both sides hold session IDs that parse to the same number, and the buyer's mode is the seller's tuple up to the ignored OT flag |
| Dispatch.SelectVariant | zkFil-node/connection.go:124-306 | The dispatch picks a variant exactly for the listed (mode, sub-mode) pairs |
| Dispatch.VariantSurvivesWire | zkFil-node/connection.go:124-306 | The tuple the buyer decodes from the seller's code selects the same variant as the seller's own tuple |
| Dispatch.CodesSelectDistinctVariants | zkFil-node/connection.go:124-306 | Distinct wire codes select distinct variants: codes and engine variants correspond one to one |
| Dispatch.RunScoped | zkFil-node/connection.go:127-160 | One case: the session is created first; the transaction runs exactly once when creation succeeded and never otherwise; a created session is freed exactly once, last |
| Dispatch.DispatchScheme | zkFil-node/connection.go:124-306 | For an unlisted tuple no engine call is made. For a listed tuple the selected variant is used with at most one create and, if created, exactly one free as the last call. The transaction runs exactly once on a created session and never otherwise, and every call names that variant |
| Dispatch.NewRecord | zkFil-node/connection.go:100-111 | The record starts with status START and count 1 and copies the session ID, bulletin, price and mode tuple from the negotiated parameters; it selects a variant exactly when its tuple encodes |
| Dispatch.TxRegistry.Put | zkFil-node/connection.go:116 | The registry maps the session ID to the new record and is otherwise unchanged |
| Dispatch.AliceAcceptTx | zkFil-node/connection.go:77-307 | The node is closed on every path, and its inbox, outbox and send capacity are exactly what the negotiation left, since the engine does not see the node in this model. When `Negotiated` of the initial node state fails, the registry is untouched and no engine call is made. Otherwise the record (status START, count 1) is registered before persistence. A persistence failure makes no engine call; success runs the scoped dispatch with publish path `AliceDir/publish/<root>` and creates exactly one session |
| Relay.ReceiveToFile | zkFil-node/connection.go:548-565 | The shared receive-and-save step, as written: it succeeds exactly when a blob of the expected kind arrives and the file can be opened, and a missing blob is a transport error. On success the file starts with the payload, and holds exactly the payload if and only if it was absent or no longer than it; no other file changes, one frame is consumed and nothing is sent |
| Relay.ReceiveToFileTruncating | zkFil-node/connection.go:548-565 | The corrected receive-and-save: same outcome, and on success the file holds exactly the payload whatever it held before |
| Relay.SendFromFile | zkFil-node/connection.go:567-578 | The shared read-and-send step: it succeeds exactly when the file exists and the channel can carry it, and a missing file is a read error naming it. On success the whole file content goes out as one blob of the given kind |
| Relay.AliceRcvPODReq | zkFil-node/connection.go:548-565 | Bob's transaction request is saved at the request file, overlaying what it held; the channel is only read, and which files are writable does not change |
| Relay.AliceSendPODResp | zkFil-node/connection.go:567-578 | The response file's content is sent as one response blob |
| Relay.AliceRcvPODRecpt | zkFil-node/connection.go:580-608 | A missing receipt or an undecodable envelope returns zero values. Otherwise the signature, price and expiry are returned (also when saving fails), and only the raw receipt bytes are saved, overlaying what the receipt file held; which files are writable does not change |
| Relay.AliceReceiveNegoReq | zkFil-node/connection.go:610-628 | Bob's nego request is saved, overlaying what the file held; the channel is only read, and which files are writable does not change |
| Relay.AliceSendNegoResp | zkFil-node/connection.go:630-650 | The response file is read first, then the request file, and the two are sent in one frame, response first. Either file missing is a read error naming it, with nothing sent |
| Relay.AliceRcvNegoResp | zkFil-node/connection.go:652-671 | Bob's nego ack is saved, overlaying what the file held; the channel is only read, and which files are writable does not change |
| Relay.BobSendPODReq | zkFil-node/connection.go:803-813 | The request file's content is sent as one request blob |
| Relay.BobRcvPODResp | zkFil-node/connection.go:815-833 | Alice's response is saved, overlaying what the file held; the channel is only read, and which files are writable does not change |
| Relay.BobSendPODRecpt | zkFil-node/connection.go:842-858 | The envelope of receipt bytes, signature, price and expiry is encoded and sent as one receipt blob |
| Relay.BobSendNegoReq | zkFil-node/connection.go:860-877 | The nego request file's content is sent as one nego request blob |
| Relay.BobRcvNegoResp | zkFil-node/connection.go:879-911 | The pair's response overlays the response file first and its request then overlays the ack file. A failed first save leaves both files untouched; a failed second save keeps the first. Which files are writable does not change |
| Relay.BobSendNegoResp | zkFil-node/connection.go:914-929 | The nego ack file's content is sent as one nego ack blob |
| Relay.ReceiptRelay | zkFil-node/connection.go:835-858 | With a lossless receipt codec Alice gets back exactly the signature, price and expiry Bob packed, and her new receipt file holds exactly the raw receipt bytes |
| Relay.RequestResponseRelay | zkFil-node/connection.go:803-833 | With distinct request and response files, Bob's staged request reaches Alice's new request file, and Alice's staged response reaches Bob's new response file, byte for byte |
| Relay.StaleRequestFile | zkFil-node/connection.go:548-565 | As written, a request file holding [7,7,7] that receives the request [1] holds [1,7,7]; the corrected save leaves [1] |
| Relay.NegoBlobRelay | zkFil-node/connection.go:860-877 | A nego request or nego ack staged by Bob reaches Alice's file byte for byte |
| Relay.NegoPairRelay | zkFil-node/connection.go:879-911 | Alice's response and fresh request land in Bob's response file and ack file respectively, unswapped |

## Left out

- The rlpx handshake, `AliceStartNode`'s accept loop and goroutines, `AliceNewConn`, `preBobConn` and `buyNewConn`: these are network set-up and concurrency. The model starts from an established `Node`.
- The `pod_net` framing layer is not part of this model. `Node` records frames as values; length prefixes and the wire layout are not modelled.
- The `RecvSessionAck(bool)` argument has no visible semantics here, so the model does not check the initiator flag of a received ack.
- The numeric values of the ten `pod_net.Mode*` constants are not visible. The model uses the placeholders 1 to 10, and every proof relies only on their being distinct, which Go enforces for constant switch cases.
- Mode and sub-mode strings are enums. `OtherMode` and `OtherSubMode` stand for every unlisted string.
- JSON (`json.Marshal`/`json.Unmarshal`) is modelled as codec parameters. Marshalling is treated as total, so its error branches (connection.go:345-351, 755-760, 849-852) are not modelled.
- `preAliceTx`, `insertAliceTxToDB`, `AliceNewSessFor*` and `AliceTxFor*` are opaque parameters. Their engine work, the `converAddr` arguments and the transaction's engine-session fields are not modelled.
- The model assumes the framing layer sends Bob's session request with ID 0: `SendNewSessionRequest` (connection.go:764) passes no ID, and the `pod_net` layer that fills it is not part of this model. `Session.NegotiationAgrees` relies on this.
- `crypto.PubkeyToAddress` and `key.Address.Hex()` are inputs (`bobAddr`, `aliceAddr`), not computed.
- Logging, `recover()` and `wg.Done()` are not modelled.
- Relay.ReceiveToFile: open and write errors are merged into one save error, because the model's file system has no partial writes.
- Relay.ReceiveToFile: the transport's own error texts are merged into one transport error, because their wording is immaterial to the protocol.
- Dispatch.AliceAcceptTx: `AliceTxFor*` is passed the node (connection.go:139 and the other nine cases) and may read and send on it; the model's `runTx` does not see the node, so the node clause covers only the negotiation.
- Dispatch.TxRegistry: each connection runs in its own goroutine (connection.go:63-64) and `AliceTxMap` is written (connection.go:116) without a lock; Go aborts on concurrent map writes, which `recover()` cannot catch. The model is sequential and does not capture this.
- Dispatch.AliceAcceptTx: the outcome of the run is not returned, because the source only logs it.
- Dispatch.AliceAcceptTx: the registry holds the record as built, without the engine-session fields the dispatch sets later. Those fields are not modelled.
- `lib/zk_go/table/complaint/api_test.go` and `lib/zk_core/scheme_atomic_swap_vc_zkp.h` belong to the engine, which is outside this layer.

## Findings

| source | as written | input that shows it | evidently intended | confidence | as-written member | corrected member |
|---|---|---|---|---|---|---|
| zkFil-node/connection.go:554-564 | Received blobs are saved with `os.OpenFile(path, O_WRONLY\|O_CREATE, 0666)` and no `O_TRUNC`, so the write overlays an existing file (the same holds at 595, 617, 660, 822, 890 and 901) | a staging file already holding [7,7,7] receives the blob [1]; it then holds [1,7,7] | the file holds exactly the received blob | medium, not executed | Transport.Overlay, Transport.OverlayKeepsStaleTail, Transport.Disk.OpenWrite, Relay.StaleRequestFile | Transport.Disk.WriteFile, Relay.ReceiveToFileTruncating |
