/** The fair-exchange message relays: each moves one opaque blob between
    the peer channel and a staging file, except the receipt, which travels
    in a JSON envelope with its signature, price and expiry, and the
    negotiation pair, which carries a nego response and a fresh nego
    request in one frame. */
module Relay {
  import opened Types
  import opened Transport
  import opened Session

  /** `ReceiptForConnection`, the receipt envelope. */
  datatype ReceiptForConnection = ReceiptForConnection(
    receiptByte: Bytes, receiptSign: Bytes, price: int64, expireAt: int64)

  // ---------------------------------------------------------------------
  // Receiving a blob into a file, and sending a file as a blob.

  /** The result of receiving a blob of `kind` and saving it at `path`. */
  function StoreOutcome(m: Option<Msg>, kind: BlobKind, path: string, readOnly: set<string>): Outcome
  {
    if BlobOf(m, kind).None? then Fail(TransportFailed)
    else if path in readOnly then Fail(SaveFileFailed(path))
    else Pass
  }

  /** The staging files after that receive, saved as the relays save:
      the payload overlays what the file held. */
  function StoredFiles(files: map<string, Bytes>, m: Option<Msg>, kind: BlobKind, path: string, readOnly: set<string>)
    : map<string, Bytes>
  {
    if StoreOutcome(m, kind, path, readOnly).Pass?
    then files[path := Overlay(Existing(files, path), BlobOf(m, kind).value)]
    else files
  }

  /** Receives one blob of `kind` and saves it at `path` as the relays do,
      without truncation: the file starts with the payload, and holds
      exactly the payload when it was absent or no longer than it. */
  method ReceiveToFile(node: Node, disk: Disk, kind: BlobKind, path: string) returns (r: Outcome)
    modifies node, disk
    ensures var m := Incoming(old(node.inbox), old(node.closed));
      && r == StoreOutcome(m, kind, path, old(disk.readOnly))
      && disk.files == StoredFiles(old(disk.files), m, kind, path, old(disk.readOnly))
    ensures node.inbox == Remaining(old(node.inbox), old(node.closed))
    ensures node.outbox == old(node.outbox) && node.closed == old(node.closed) && node.capacity == old(node.capacity)
    ensures disk.readOnly == old(disk.readOnly)
    ensures r.Pass? ==>
      var payload := BlobOf(Incoming(old(node.inbox), old(node.closed)), kind).value;
      && path in disk.files && |disk.files[path]| >= |payload| && disk.files[path][..|payload|] == payload
      && (disk.files[path] == payload <==> path !in old(disk.files) || |old(disk.files)[path]| <= |payload|)
  {
    var payload := RecvBlob(node, kind);
    if payload.None? {
      return Fail(TransportFailed);
    }
    r := disk.OpenWrite(path, payload.value);
    if r.Pass? {
      OverlayExactWhenNotLonger(Existing(old(disk.files), path), payload.value);
    }
  }

  /** The corrected receive-and-save: with truncation the file holds
      exactly the payload, whatever it held before. */
  method ReceiveToFileTruncating(node: Node, disk: Disk, kind: BlobKind, path: string) returns (r: Outcome)
    modifies node, disk
    ensures var m := Incoming(old(node.inbox), old(node.closed));
      && r == StoreOutcome(m, kind, path, old(disk.readOnly))
      && disk.files == if r.Pass? then old(disk.files)[path := BlobOf(m, kind).value] else old(disk.files)
    ensures node.inbox == Remaining(old(node.inbox), old(node.closed))
    ensures node.outbox == old(node.outbox) && node.closed == old(node.closed) && node.capacity == old(node.capacity)
    ensures disk.readOnly == old(disk.readOnly)
  {
    var payload := RecvBlob(node, kind);
    if payload.None? {
      return Fail(TransportFailed);
    }
    r := disk.WriteFile(path, payload.value);
  }

  /** The result of reading `path` and sending it as one blob. */
  function SendOutcome(files: map<string, Bytes>, path: string, canSend: bool): Outcome
  {
    if path !in files then Fail(ReadFileFailed(path))
    else if !canSend then Fail(TransportFailed)
    else Pass
  }

  /** Reads `path` and sends its whole content as one blob of `kind`. */
  method SendFromFile(node: Node, disk: Disk, kind: BlobKind, path: string) returns (r: Outcome)
    modifies node
    ensures r == SendOutcome(disk.files, path, old(node.CanSend(1)))
    ensures node.outbox == if r.Pass? then old(node.outbox) + [Blob(kind, disk.files[path])] else old(node.outbox)
    ensures node.capacity == if r.Pass? then old(node.capacity) - 1 else old(node.capacity)
    ensures node.inbox == old(node.inbox) && node.closed == old(node.closed)
  {
    var content := disk.ReadFile(path);
    if content.Err? {
      return Fail(content.failure);
    }
    var sent := node.Send(Blob(kind, content.value));
    if !sent {
      return Fail(TransportFailed);
    }
    r := Pass;
  }

  // ---------------------------------------------------------------------
  // The named relays of the seller (Alice) and the buyer (Bob).

  /** `AliceRcvPODReq`: the buyer's request into the request file. */
  method AliceRcvPODReq(node: Node, disk: Disk, requestFile: string) returns (r: Outcome)
    modifies node, disk
    ensures var m := Incoming(old(node.inbox), old(node.closed));
      && r == StoreOutcome(m, TxRequestKind, requestFile, old(disk.readOnly))
      && disk.files == StoredFiles(old(disk.files), m, TxRequestKind, requestFile, old(disk.readOnly))
    ensures node.inbox == Remaining(old(node.inbox), old(node.closed)) && node.outbox == old(node.outbox)
    ensures node.closed == old(node.closed) && node.capacity == old(node.capacity)
    ensures disk.readOnly == old(disk.readOnly)
  {
    r := ReceiveToFile(node, disk, TxRequestKind, requestFile);
  }

  /** `AliceSendPODResp`: the response file to the buyer. */
  method AliceSendPODResp(node: Node, disk: Disk, responseFile: string) returns (r: Outcome)
    modifies node
    ensures r == SendOutcome(disk.files, responseFile, old(node.CanSend(1)))
    ensures node.outbox == if r.Pass? then old(node.outbox) + [Blob(TxResponseKind, disk.files[responseFile])] else old(node.outbox)
    ensures node.inbox == old(node.inbox) && node.closed == old(node.closed)
    ensures node.capacity == if r.Pass? then old(node.capacity) - 1 else old(node.capacity)
  {
    r := SendFromFile(node, disk, TxResponseKind, responseFile);
  }

  /** `AliceRcvPODRecpt`: unwraps the receipt envelope, returns its
      signature, price and expiry, and saves only the raw receipt bytes.
      The three values are already set when saving the file fails. */
  method AliceRcvPODRecpt(node: Node, disk: Disk, receiptFile: string, dec: Bytes -> Option<ReceiptForConnection>)
    returns (receiptSign: Bytes, price: int64, expireAt: int64, r: Outcome)
    modifies node, disk
    ensures node.inbox == Remaining(old(node.inbox), old(node.closed)) && node.outbox == old(node.outbox)
    ensures node.closed == old(node.closed) && node.capacity == old(node.capacity)
    ensures disk.readOnly == old(disk.readOnly)
    ensures var blob := BlobOf(Incoming(old(node.inbox), old(node.closed)), TxReceiptKind);
      if blob.None? then
        r == Fail(TransportFailed) && receiptSign == [] && price == 0 && expireAt == 0
        && disk.files == old(disk.files)
      else if dec(blob.value).None? then
        r == Fail(ParseReceiptFailed) && receiptSign == [] && price == 0 && expireAt == 0
        && disk.files == old(disk.files)
      else
        var env := dec(blob.value).value;
        && receiptSign == env.receiptSign && price == env.price && expireAt == env.expireAt
        && if receiptFile in old(disk.readOnly) then
             r == Fail(SaveFileFailed(receiptFile)) && disk.files == old(disk.files)
           else
             r == Pass
             && disk.files == old(disk.files)[receiptFile := Overlay(Existing(old(disk.files), receiptFile), env.receiptByte)]
  {
    receiptSign, price, expireAt := [], 0, 0;
    var receipt := RecvBlob(node, TxReceiptKind);
    if receipt.None? {
      return receiptSign, price, expireAt, Fail(TransportFailed);
    }
    var receiptConn := dec(receipt.value);
    if receiptConn.None? {
      return receiptSign, price, expireAt, Fail(ParseReceiptFailed);
    }
    price := receiptConn.value.price;
    expireAt := receiptConn.value.expireAt;
    receiptSign := receiptConn.value.receiptSign;
    r := disk.OpenWrite(receiptFile, receiptConn.value.receiptByte);
  }

  /** `AliceReceiveNegoReq`: the buyer's nego request into a file. */
  method AliceReceiveNegoReq(node: Node, disk: Disk, bobNegoRequestFile: string) returns (r: Outcome)
    modifies node, disk
    ensures var m := Incoming(old(node.inbox), old(node.closed));
      && r == StoreOutcome(m, NegoRequestKind, bobNegoRequestFile, old(disk.readOnly))
      && disk.files == StoredFiles(old(disk.files), m, NegoRequestKind, bobNegoRequestFile, old(disk.readOnly))
    ensures node.inbox == Remaining(old(node.inbox), old(node.closed)) && node.outbox == old(node.outbox)
    ensures node.closed == old(node.closed) && node.capacity == old(node.capacity)
    ensures disk.readOnly == old(disk.readOnly)
  {
    r := ReceiveToFile(node, disk, NegoRequestKind, bobNegoRequestFile);
  }

  /** `AliceSendNegoResp`: the nego response and a fresh nego request,
      read from two files, sent together in one frame, response first. */
  method AliceSendNegoResp(node: Node, disk: Disk, negoResponseFile: string, negoRequestFile: string)
    returns (r: Outcome)
    modifies node
    ensures negoResponseFile !in disk.files ==> r == Fail(ReadFileFailed(negoResponseFile))
    ensures negoResponseFile in disk.files && negoRequestFile !in disk.files ==> r == Fail(ReadFileFailed(negoRequestFile))
    ensures negoResponseFile in disk.files && negoRequestFile in disk.files && !old(node.CanSend(1)) ==> r == Fail(TransportFailed)
    ensures r.Pass? <==> negoResponseFile in disk.files && negoRequestFile in disk.files && old(node.CanSend(1))
    ensures node.outbox == if r.Pass? then old(node.outbox) + [NegoPair(disk.files[negoResponseFile], disk.files[negoRequestFile])]
                           else old(node.outbox)
    ensures node.inbox == old(node.inbox) && node.closed == old(node.closed)
    ensures node.capacity == if r.Pass? then old(node.capacity) - 1 else old(node.capacity)
  {
    var txResponse := disk.ReadFile(negoResponseFile);
    if txResponse.Err? {
      return Fail(txResponse.failure);
    }
    var txRequest := disk.ReadFile(negoRequestFile);
    if txRequest.Err? {
      return Fail(txRequest.failure);
    }
    var sent := node.Send(NegoPair(txResponse.value, txRequest.value));
    if !sent {
      return Fail(TransportFailed);
    }
    r := Pass;
  }

  /** `AliceRcvNegoResp`: the buyer's nego ack into a file. */
  method AliceRcvNegoResp(node: Node, disk: Disk, bobNegoResponseFile: string) returns (r: Outcome)
    modifies node, disk
    ensures var m := Incoming(old(node.inbox), old(node.closed));
      && r == StoreOutcome(m, NegoAckKind, bobNegoResponseFile, old(disk.readOnly))
      && disk.files == StoredFiles(old(disk.files), m, NegoAckKind, bobNegoResponseFile, old(disk.readOnly))
    ensures node.inbox == Remaining(old(node.inbox), old(node.closed)) && node.outbox == old(node.outbox)
    ensures node.closed == old(node.closed) && node.capacity == old(node.capacity)
    ensures disk.readOnly == old(disk.readOnly)
  {
    r := ReceiveToFile(node, disk, NegoAckKind, bobNegoResponseFile);
  }

  /** `BobSendPODReq`: the request file to the seller. */
  method BobSendPODReq(node: Node, disk: Disk, requestFile: string) returns (r: Outcome)
    modifies node
    ensures r == SendOutcome(disk.files, requestFile, old(node.CanSend(1)))
    ensures node.outbox == if r.Pass? then old(node.outbox) + [Blob(TxRequestKind, disk.files[requestFile])] else old(node.outbox)
    ensures node.inbox == old(node.inbox) && node.closed == old(node.closed)
    ensures node.capacity == if r.Pass? then old(node.capacity) - 1 else old(node.capacity)
  {
    r := SendFromFile(node, disk, TxRequestKind, requestFile);
  }

  /** `BobRcvPODResp`: the seller's response into the response file. */
  method BobRcvPODResp(node: Node, disk: Disk, responseFile: string) returns (r: Outcome)
    modifies node, disk
    ensures var m := Incoming(old(node.inbox), old(node.closed));
      && r == StoreOutcome(m, TxResponseKind, responseFile, old(disk.readOnly))
      && disk.files == StoredFiles(old(disk.files), m, TxResponseKind, responseFile, old(disk.readOnly))
    ensures node.inbox == Remaining(old(node.inbox), old(node.closed)) && node.outbox == old(node.outbox)
    ensures node.closed == old(node.closed) && node.capacity == old(node.capacity)
    ensures disk.readOnly == old(disk.readOnly)
  {
    r := ReceiveToFile(node, disk, TxResponseKind, responseFile);
  }

  /** `BobSendPODRecpt`: wraps receipt bytes, signature, price and expiry
      in the envelope and sends its encoding. */
  method BobSendPODRecpt(
    node: Node, enc: ReceiptForConnection -> Bytes,
    price: int64, expireAt: int64, receiptByte: Bytes, sign: Bytes)
    returns (r: Outcome)
    modifies node
    ensures r.Pass? <==> old(node.CanSend(1))
    ensures r.Fail? ==> r == Fail(TransportFailed)
    ensures node.outbox == if r.Pass?
      then old(node.outbox) + [Blob(TxReceiptKind, enc(ReceiptForConnection(receiptByte, sign, price, expireAt)))]
      else old(node.outbox)
    ensures node.inbox == old(node.inbox) && node.closed == old(node.closed)
    ensures node.capacity == if r.Pass? then old(node.capacity) - 1 else old(node.capacity)
  {
    var receipt := ReceiptForConnection(receiptByte, sign, price, expireAt);
    var receiptConnBytes := enc(receipt);
    var sent := node.Send(Blob(TxReceiptKind, receiptConnBytes));
    if !sent {
      return Fail(TransportFailed);
    }
    r := Pass;
  }

  /** `BobSendNegoReq`: the nego request file to the seller. */
  method BobSendNegoReq(node: Node, disk: Disk, negoRequestFile: string) returns (r: Outcome)
    modifies node
    ensures r == SendOutcome(disk.files, negoRequestFile, old(node.CanSend(1)))
    ensures node.outbox == if r.Pass? then old(node.outbox) + [Blob(NegoRequestKind, disk.files[negoRequestFile])] else old(node.outbox)
    ensures node.inbox == old(node.inbox) && node.closed == old(node.closed)
    ensures node.capacity == if r.Pass? then old(node.capacity) - 1 else old(node.capacity)
  {
    r := SendFromFile(node, disk, NegoRequestKind, negoRequestFile);
  }

  /** `BobRcvNegoResp`: splits the seller's nego pair, the response into
      one file and the piggybacked request into the ack file; the response
      file is written first. */
  method BobRcvNegoResp(node: Node, disk: Disk, negoResponseFile: string, negoAckFile: string)
    returns (r: Outcome)
    modifies node, disk
    ensures node.inbox == Remaining(old(node.inbox), old(node.closed)) && node.outbox == old(node.outbox)
    ensures node.closed == old(node.closed) && node.capacity == old(node.capacity)
    ensures disk.readOnly == old(disk.readOnly)
    ensures var m := Incoming(old(node.inbox), old(node.closed));
      if m.None? || !m.value.NegoPair? then
        r == Fail(TransportFailed) && disk.files == old(disk.files)
      else if negoResponseFile in old(disk.readOnly) then
        r == Fail(SaveFileFailed(negoResponseFile)) && disk.files == old(disk.files)
      else
        var afterResponse := old(disk.files)[negoResponseFile :=
          Overlay(Existing(old(disk.files), negoResponseFile), m.value.response)];
        if negoAckFile in old(disk.readOnly) then
          r == Fail(SaveFileFailed(negoAckFile)) && disk.files == afterResponse
        else
          r == Pass
          && disk.files == afterResponse[negoAckFile := Overlay(Existing(afterResponse, negoAckFile), m.value.request)]
  {
    var m := node.Receive();
    if m.None? || !m.value.NegoPair? {
      return Fail(TransportFailed);
    }
    r := disk.OpenWrite(negoResponseFile, m.value.response);
    if r.Fail? {
      return;
    }
    r := disk.OpenWrite(negoAckFile, m.value.request);
  }

  /** `BobSendNegoResp`: the buyer's nego ack file to the seller. */
  method BobSendNegoResp(node: Node, disk: Disk, negoResponseFile: string) returns (r: Outcome)
    modifies node
    ensures r == SendOutcome(disk.files, negoResponseFile, old(node.CanSend(1)))
    ensures node.outbox == if r.Pass? then old(node.outbox) + [Blob(NegoAckKind, disk.files[negoResponseFile])] else old(node.outbox)
    ensures node.inbox == old(node.inbox) && node.closed == old(node.closed)
    ensures node.capacity == if r.Pass? then old(node.capacity) - 1 else old(node.capacity)
  {
    r := SendFromFile(node, disk, NegoAckKind, negoResponseFile);
  }

  // ---------------------------------------------------------------------
  // End-to-end relays between an honest buyer and an honest seller.

  /** The receipt envelope round trip: with a lossless codec the seller
      gets back the signature, price and expiry the buyer packed, and its
      receipt file holds exactly the raw receipt bytes. */
  method ReceiptRelay(
    enc: ReceiptForConnection -> Bytes, dec: Bytes -> Option<ReceiptForConnection>,
    price: int64, expireAt: int64, receiptByte: Bytes, sign: Bytes, receiptFile: string)
    returns (gotSign: Bytes, gotPrice: int64, gotExpireAt: int64, stored: Bytes)
    requires Lossless(enc, dec)
    ensures gotSign == sign && gotPrice == price && gotExpireAt == expireAt
    ensures stored == receiptByte
  {
    var bob := new Node([], 1);
    var sent := BobSendPODRecpt(bob, enc, price, expireAt, receiptByte, sign);
    assert sent == Pass;
    var alice := new Node(bob.outbox, 0);
    var aliceDisk := new Disk(map[], {});
    var r;
    gotSign, gotPrice, gotExpireAt, r := AliceRcvPODRecpt(alice, aliceDisk, receiptFile, dec);
    assert r == Pass;
    stored := aliceDisk.files[receiptFile];
  }

  /** The request and response phases: the buyer's staged request reaches
      the seller's new request file, and the seller's staged response
      reaches the buyer's new response file, byte for byte. */
  method RequestResponseRelay(request: Bytes, response: Bytes, requestFile: string, responseFile: string)
    returns (sellerRequest: Bytes, buyerResponse: Bytes)
    requires requestFile != responseFile
    ensures sellerRequest == request && buyerResponse == response
  {
    var bobDisk := new Disk(map[requestFile := request], {});
    var aliceDisk := new Disk(map[responseFile := response], {});
    var bob := new Node([], 1);
    var r := BobSendPODReq(bob, bobDisk, requestFile);
    var alice := new Node(bob.outbox, 1);
    r := AliceRcvPODReq(alice, aliceDisk, requestFile);
    sellerRequest := aliceDisk.files[requestFile];

    r := AliceSendPODResp(alice, aliceDisk, responseFile);
    var bobInbound := new Node(alice.outbox, 0);
    r := BobRcvPODResp(bobInbound, bobDisk, responseFile);
    buyerResponse := bobDisk.files[responseFile];
  }

  /** As written, a request file left over from an earlier, longer request
      keeps its stale tail, while the corrected save holds exactly the
      received request. */
  method StaleRequestFile(requestFile: string) returns (asWritten: Bytes, corrected: Bytes)
    ensures asWritten == [1, 7, 7]
    ensures corrected == [1]
  {
    var disk := new Disk(map[requestFile := [7, 7, 7]], {});
    var alice := new Node([Blob(TxRequestKind, [1])], 0);
    var r := AliceRcvPODReq(alice, disk, requestFile);
    asWritten := disk.files[requestFile];
    assert asWritten == [1] + [7, 7];

    disk := new Disk(map[requestFile := [7, 7, 7]], {});
    alice := new Node([Blob(TxRequestKind, [1])], 0);
    r := ReceiveToFileTruncating(alice, disk, TxRequestKind, requestFile);
    corrected := disk.files[requestFile];
  }

  /** A nego request or a nego ack the buyer staged at `bobFile` reaches
      the seller's file `aliceFile` byte for byte. */
  method NegoBlobRelay(blob: Bytes, ack: bool, bobFile: string, aliceFile: string) returns (sellerGot: Bytes)
    ensures sellerGot == blob
  {
    var bobDisk := new Disk(map[bobFile := blob], {});
    var aliceDisk := new Disk(map[], {});
    var bob := new Node([], 1);
    var r;
    if ack {
      r := BobSendNegoResp(bob, bobDisk, bobFile);
    } else {
      r := BobSendNegoReq(bob, bobDisk, bobFile);
    }
    var alice := new Node(bob.outbox, 0);
    if ack {
      r := AliceRcvNegoResp(alice, aliceDisk, aliceFile);
    } else {
      r := AliceReceiveNegoReq(alice, aliceDisk, aliceFile);
    }
    sellerGot := aliceDisk.files[aliceFile];
  }

  /** The seller's pair: the response and the fresh request read from its
      two staging files arrive in the buyer's response file and ack file
      respectively. */
  method NegoPairRelay(
    response: Bytes, request: Bytes, aliceRespFile: string, aliceReqFile: string,
    bobRespFile: string, bobAckFile: string)
    returns (buyerResponse: Bytes, buyerRequest: Bytes)
    requires aliceRespFile != aliceReqFile && bobRespFile != bobAckFile
    ensures buyerResponse == response && buyerRequest == request
  {
    var aliceDisk := new Disk(map[aliceRespFile := response, aliceReqFile := request], {});
    var bobDisk := new Disk(map[], {});
    var alice := new Node([], 1);
    var r := AliceSendNegoResp(alice, aliceDisk, aliceRespFile, aliceReqFile);
    var bob := new Node(alice.outbox, 0);
    r := BobRcvNegoResp(bob, bobDisk, bobRespFile, bobAckFile);
    buyerResponse := bobDisk.files[bobRespFile];
    buyerRequest := bobDisk.files[bobAckFile];
  }
}
