/** The three-message session negotiation: the responder (Alice, the
    seller) in `AliceRcvSessReq`, `preAliceConn` and `preAliceTxAndConn`,
    the initiator (Bob, the buyer) in `BobCreateSess`. */
module Session {
  import opened Types
  import opened ModeTable
  import opened Hex
  import opened Transport

  /** The `requestExtra` record carried, JSON-encoded, in ExtraInfo. */
  datatype RequestExtra = RequestExtra(price: int64, mode: TopMode, subMode: SubMode, ot: bool)

  /** The published bulletin; only its Merkle root is used here. */
  datatype Bulletin = Bulletin(sigmaMklRoot: string)

  /** `AliceConnParam`: what the seller's preparation step decided. */
  datatype AliceConnParam = AliceConnParam(
    mode: TopMode, subMode: SubMode, ot: bool, unitPrice: int64,
    sessionID: string, bulletin: Bulletin)

  /** A received session request and its parsed ExtraInfo. */
  datatype Received = Received(req: SessionRequest, extra: RequestExtra)

  /** A JSON encoder and decoder pair that round-trips every value. */
  ghost predicate Lossless<T(!new)>(enc: T -> Bytes, dec: Bytes -> Option<T>) {
    forall x :: dec(enc(x)) == Some(x)
  }

  /** `AliceRcvSessReq`: reads the session request, rejects a nonzero ID
      before looking at ExtraInfo, then parses ExtraInfo. */
  method AliceRcvSessReq(node: Node, decExtra: Bytes -> Option<RequestExtra>) returns (r: Result<Received>)
    modifies node
    ensures node.inbox == Remaining(old(node.inbox), old(node.closed))
    ensures node.outbox == old(node.outbox) && node.closed == old(node.closed) && node.capacity == old(node.capacity)
    ensures var m := Incoming(old(node.inbox), old(node.closed));
      if m.None? || !m.value.Request? then r == Err(RecvSessionRequestFailed)
      else if m.value.req.id != 0 then r == Err(SessionIdNotZero)
      else if decExtra(m.value.req.extraInfo).None? then r == Err(ParseExtraInfoFailed)
      else r == Ok(Received(m.value.req, decExtra(m.value.req.extraInfo).value))
  {
    var m := node.Receive();
    if m.None? || !m.value.Request? {
      return Err(RecvSessionRequestFailed);
    }
    var req := m.value.req;
    if req.id != 0 {
      return Err(SessionIdNotZero);
    }
    var re := decExtra(req.extraInfo);
    if re.None? {
      return Err(ParseExtraInfoFailed);
    }
    r := Ok(Received(req, re.value));
  }

  /** `preAliceConn`: converts the session ID and the mode, sends the ack,
      and requires the echoed ack to carry the same ID. */
  method PreAliceConn(node: Node, params: AliceConnParam, req: SessionRequest) returns (r: Outcome)
    modifies node
    ensures node.closed == old(node.closed)
    ensures ParseUint16(params.sessionID).None? ==>
      r == Fail(ConvertSessionIdFailed)
      && node.inbox == old(node.inbox) && node.outbox == old(node.outbox) && node.capacity == old(node.capacity)
    ensures ParseUint16(params.sessionID).Some? && ModeToInt(params.mode, params.subMode, params.ot).Err? ==>
      r == Fail(ConvertModeFailed)
      && node.inbox == old(node.inbox) && node.outbox == old(node.outbox) && node.capacity == old(node.capacity)
    ensures ParseUint16(params.sessionID).Some? && ModeToInt(params.mode, params.subMode, params.ot).Ok? ==>
      var id := ParseUint16(params.sessionID).value;
      var ack := SessionAck(id, ModeToInt(params.mode, params.subMode, params.ot).value,
                            req.sigmaMklRoot, req.extraInfo, true);
      if !old(node.CanSend(1)) then
        r == Fail(SendSessionAckFailed)
        && node.inbox == old(node.inbox) && node.outbox == old(node.outbox) && node.capacity == old(node.capacity)
      else
        && node.outbox == old(node.outbox) + [Ack(ack)]
        && node.capacity == old(node.capacity) - 1
        && node.inbox == Remaining(old(node.inbox), old(node.closed))
        && var m := Incoming(old(node.inbox), old(node.closed));
           if m.None? || !m.value.Ack? then r == Fail(RecvSessionAckFailed)
           else if m.value.ack.id != id then r == Fail(SessionIdMismatch(m.value.ack.id, id))
           else r == Pass
  {
    var sid := ParseUint16(params.sessionID);
    if sid.None? {
      return Fail(ConvertSessionIdFailed);
    }
    var netMode := ModeToInt(params.mode, params.subMode, params.ot);
    if netMode.Err? {
      return Fail(ConvertModeFailed);
    }
    var sent := node.Send(Ack(SessionAck(sid.value, netMode.value, req.sigmaMklRoot, req.extraInfo, true)));
    if !sent {
      return Fail(SendSessionAckFailed);
    }
    var m := node.Receive();
    if m.None? || !m.value.Ack? {
      return Fail(RecvSessionAckFailed);
    }
    if m.value.ack.id != sid.value {
      return Fail(SessionIdMismatch(m.value.ack.id, sid.value));
    }
    r := Pass;
  }

  /** How far `preAliceTxAndConn` gets before it sends the ack: the
      request must arrive with ID 0 and a parsable ExtraInfo, the
      preparation step must accept it, and the session ID and mode it
      chose must convert. On success: the request, the chosen parameters
      and the extra to send back. */
  function Decide(
    inbox: seq<Msg>, closed: bool,
    decExtra: Bytes -> Option<RequestExtra>,
    prepare: (string, RequestExtra) -> Option<(AliceConnParam, RequestExtra)>)
    : Result<(SessionRequest, AliceConnParam, RequestExtra)>
  {
    var m := Incoming(inbox, closed);
    if m.None? || !m.value.Request? then Err(RecvSessionRequestFailed)
    else if m.value.req.id != 0 then Err(SessionIdNotZero)
    else if decExtra(m.value.req.extraInfo).None? then Err(ParseExtraInfoFailed)
    else
      var decided := prepare(EncodeHexBytes(m.value.req.sigmaMklRoot), decExtra(m.value.req.extraInfo).value);
      if decided.None? then Err(PrepareTxFailed)
      else
        var params := decided.value.0;
        if ParseUint16(params.sessionID).None? then Err(ConvertSessionIdFailed)
        else if ModeToInt(params.mode, params.subMode, params.ot).Err? then Err(ConvertModeFailed)
        else Ok((m.value.req, params, decided.value.1))
  }

  /** The ack `preAliceTxAndConn` sends, if it gets that far and the
      transport carries it (`canSend`). */
  function AckSent(
    inbox: seq<Msg>, closed: bool, canSend: bool,
    decExtra: Bytes -> Option<RequestExtra>,
    encExtra: RequestExtra -> Bytes,
    prepare: (string, RequestExtra) -> Option<(AliceConnParam, RequestExtra)>)
    : Option<Msg>
  {
    match Decide(inbox, closed, decExtra, prepare)
    case Err(_) => None
    case Ok((req, params, re)) =>
      if !canSend then None
      else Some(Ack(SessionAck(ParseUint16(params.sessionID).value,
                               ModeToInt(params.mode, params.subMode, params.ot).value,
                               req.sigmaMklRoot, encExtra(re), true)))
  }

  /** What `preAliceTxAndConn` returns for a channel state, case by case:
      the steps of `Decide`, then the ack must go out, and the echo must
      carry the same ID. `canSend` says whether the transport carries the
      ack. */
  function Negotiated(
    inbox: seq<Msg>, closed: bool, canSend: bool,
    decExtra: Bytes -> Option<RequestExtra>,
    prepare: (string, RequestExtra) -> Option<(AliceConnParam, RequestExtra)>)
    : Result<AliceConnParam>
  {
    match Decide(inbox, closed, decExtra, prepare)
    case Err(f) => Err(f)
    case Ok((_, params, _)) =>
      if !canSend then Err(SendSessionAckFailed)
      else
        var id := ParseUint16(params.sessionID).value;
        var echo := Incoming(Remaining(inbox, closed), closed);
        if echo.None? || !echo.value.Ack? then Err(RecvSessionAckFailed)
        else if echo.value.ack.id != id then Err(SessionIdMismatch(echo.value.ack.id, id))
        else Ok(params)
  }

  /** `preAliceTxAndConn` after the handshake: receive the request, let
      the preparation step decide the parameters, re-encode ExtraInfo and
      run `preAliceConn`; every failure closes the node. */
  method PreAliceTxAndConn(
    node: Node,
    decExtra: Bytes -> Option<RequestExtra>,
    encExtra: RequestExtra -> Bytes,
    prepare: (string, RequestExtra) -> Option<(AliceConnParam, RequestExtra)>)
    returns (r: Result<AliceConnParam>)
    modifies node
    ensures r == Negotiated(old(node.inbox), old(node.closed), old(node.CanSend(1)), decExtra, prepare)
    ensures var ack := AckSent(old(node.inbox), old(node.closed), old(node.CanSend(1)), decExtra, encExtra, prepare);
      if ack.None? then
        && node.outbox == old(node.outbox) && node.capacity == old(node.capacity)
        && node.inbox == Remaining(old(node.inbox), old(node.closed))
      else
        && node.outbox == old(node.outbox) + [ack.value] && node.capacity == old(node.capacity) - 1
        && node.inbox == Remaining(Remaining(old(node.inbox), old(node.closed)), old(node.closed))
    ensures r.Err? ==> node.closed
    ensures r.Ok? ==> node.closed == old(node.closed)
    ensures var m := Incoming(old(node.inbox), old(node.closed));
      m.Some? && m.value.Request? && m.value.req.id != 0 ==>
        r == Err(SessionIdNotZero) && node.outbox == old(node.outbox)
    ensures r.Ok? ==>
      var m := Incoming(old(node.inbox), old(node.closed));
      && m.Some? && m.value.Request? && m.value.req.id == 0
      && decExtra(m.value.req.extraInfo).Some?
      && var decided := prepare(EncodeHexBytes(m.value.req.sigmaMklRoot), decExtra(m.value.req.extraInfo).value);
      && decided.Some? && r.value == decided.value.0
      && ParseUint16(r.value.sessionID).Some?
      && ModeToInt(r.value.mode, r.value.subMode, r.value.ot).Ok?
      && node.outbox == old(node.outbox) + [Ack(SessionAck(
           ParseUint16(r.value.sessionID).value,
           ModeToInt(r.value.mode, r.value.subMode, r.value.ot).value,
           m.value.req.sigmaMklRoot, encExtra(decided.value.1), true))]
      && var echo := Incoming(Remaining(old(node.inbox), old(node.closed)), old(node.closed));
      && echo.Some? && echo.value.Ack? && echo.value.ack.id == ParseUint16(r.value.sessionID).value
  {
    var rcv := AliceRcvSessReq(node, decExtra);
    if rcv.Err? {
      node.Close();
      return Err(rcv.failure);
    }
    var req := rcv.value.req;
    var mklroot := EncodeHexBytes(req.sigmaMklRoot);
    var decided := prepare(mklroot, rcv.value.extra);
    if decided.None? {
      node.Close();
      return Err(PrepareTxFailed);
    }
    var params := decided.value.0;
    req := req.(extraInfo := encExtra(decided.value.1));
    var o := PreAliceConn(node, params, req);
    if o.Fail? {
      node.Close();
      return Err(o.failure);
    }
    r := Ok(params);
  }

  /** Go's zero values, which `modeFromInt` returns with its error. */
  const ZeroMode: TxMode := TxMode(OtherMode, OtherSubMode, false)

  /** `BobCreateSess`: sends the request (mode byte 0, ID 0), takes the
      ack's mode as authoritative, echoes the ack's ID and mode, and
      renders the ID with `%x`. */
  method BobCreateSess(
    node: Node, mklroot: string, mode: TopMode, subMode: SubMode, ot: bool, unitPrice: int64,
    encExtra: RequestExtra -> Bytes)
    returns (sessionID: string, agreed: TxMode, r: Outcome)
    modifies node
    ensures node.closed == old(node.closed)
    ensures r.Fail? ==> sessionID == ""
    ensures DecodeHexString(mklroot).None? ==>
      r == Fail(DecodeMerkleRootFailed) && agreed == TxMode(mode, subMode, ot)
      && node.inbox == old(node.inbox) && node.outbox == old(node.outbox) && node.capacity == old(node.capacity)
    ensures DecodeHexString(mklroot).Some? && !old(node.CanSend(1)) ==>
      r == Fail(SendSessionRequestFailed) && agreed == TxMode(mode, subMode, ot)
      && node.inbox == old(node.inbox) && node.outbox == old(node.outbox) && node.capacity == old(node.capacity)
    ensures DecodeHexString(mklroot).Some? && old(node.CanSend(1)) ==>
      var root := DecodeHexString(mklroot).value;
      var request := Request(SessionRequest(0, 0, root, encExtra(RequestExtra(unitPrice, mode, subMode, ot))));
      var m := Incoming(old(node.inbox), old(node.closed));
      && node.inbox == Remaining(old(node.inbox), old(node.closed))
      && if m.None? || !m.value.Ack? then
           r == Fail(RecvSessionAckFailed) && agreed == TxMode(mode, subMode, ot)
           && node.outbox == old(node.outbox) + [request] && node.capacity == old(node.capacity) - 1
         else
           var ack := m.value.ack;
           var echo := Ack(SessionAck(ack.id, ack.mode, root, ack.extraInfo, false));
           if ModeFromInt(ack.mode).Err? then
             r == Fail(InvalidNetMode(ack.mode)) && agreed == ZeroMode
             && node.outbox == old(node.outbox) + [request] && node.capacity == old(node.capacity) - 1
           else
             && agreed == ModeFromInt(ack.mode).value
             && if !old(node.CanSend(2)) then
                  r == Fail(SendSessionAckFailed)
                  && node.outbox == old(node.outbox) + [request] && node.capacity == old(node.capacity) - 1
                else
                  && r == Pass
                  && node.outbox == old(node.outbox) + [request, echo]
                  && node.capacity == old(node.capacity) - 2
                  && sessionID == FormatHex(ack.id as nat)
                  && ParseUint16(sessionID) == Some(ack.id)
  {
    var root := DecodeHexString(mklroot);
    if root.None? {
      return "", TxMode(mode, subMode, ot), Fail(DecodeMerkleRootFailed);
    }
    var extra := RequestExtra(unitPrice, mode, subMode, ot);
    var extraByte := encExtra(extra);
    var sent := node.Send(Request(SessionRequest(0, 0, root.value, extraByte)));
    if !sent {
      return "", TxMode(mode, subMode, ot), Fail(SendSessionRequestFailed);
    }
    var m := node.Receive();
    if m.None? || !m.value.Ack? {
      return "", TxMode(mode, subMode, ot), Fail(RecvSessionAckFailed);
    }
    var ack := m.value.ack;
    var decoded := ModeFromInt(ack.mode);
    if decoded.Err? {
      return "", ZeroMode, Fail(InvalidNetMode(ack.mode));
    }
    agreed := decoded.value;
    var echoed := node.Send(Ack(SessionAck(ack.id, ack.mode, root.value, ack.extraInfo, false)));
    if !echoed {
      return "", agreed, Fail(SendSessionAckFailed);
    }
    sessionID := FormatHex(ack.id as nat);
    ParseFormatRoundTrip(ack.id);
    r := Pass;
  }

  /** A whole negotiation between an honest buyer and an honest seller:
      the buyer's request reaches the seller, whose preparation step
      accepts it; the seller acks with the ID it chose, the buyer echoes
      it, `preAliceTxAndConn` returns exactly the prepared parameters, and
      both sides end with the same session ID and the seller's mode. */
  method NegotiationAgrees(
    root: Bytes, wanted: TxMode, price: int64, params: AliceConnParam, sellerRe: RequestExtra,
    encExtra: RequestExtra -> Bytes, decExtra: Bytes -> Option<RequestExtra>,
    prepare: (string, RequestExtra) -> Option<(AliceConnParam, RequestExtra)>)
    returns (buyerSessionID: string, buyerMode: TxMode, sellerResult: Result<AliceConnParam>)
    requires Lossless(encExtra, decExtra)
    requires prepare(EncodeHexBytes(root), RequestExtra(price, wanted.mode, wanted.subMode, wanted.ot)) == Some((params, sellerRe))
    requires ParseUint16(params.sessionID).Some?
    requires ModeToInt(params.mode, params.subMode, params.ot).Ok?
    ensures sellerResult == Ok(params)
    ensures ParseUint16(buyerSessionID) == ParseUint16(params.sessionID)
    ensures buyerMode == Normalised(TxMode(params.mode, params.subMode, params.ot))
  {
    var id := ParseUint16(params.sessionID).value;
    var code := ModeToInt(params.mode, params.subMode, params.ot).value;
    var sellerAck := Ack(SessionAck(id, code, root, encExtra(sellerRe), true));

    // The buyer reads the seller's ack from its channel.
    var buyer := new Node([sellerAck], 2);
    DecodeEncodeBytes(root);
    var bobOutcome;
    buyerSessionID, buyerMode, bobOutcome := BobCreateSess(
      buyer, EncodeHexBytes(root), wanted.mode, wanted.subMode, wanted.ot, price, encExtra);
    assert bobOutcome == Pass;
    EncodeDecode(TxMode(params.mode, params.subMode, params.ot));

    // Everything the buyer sent reaches the seller.
    var seller := new Node(buyer.outbox, 1);
    sellerResult := PreAliceTxAndConn(seller, decExtra, encExtra, prepare);
    assert seller.outbox == [sellerAck];
  }
}
