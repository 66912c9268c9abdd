/** The seller's transaction dispatch in `AliceAcceptTx`: build the
    transaction record, register it in `AliceTxMap`, persist it, then pick
    one of ten exchange-scheme variants, create its engine session, run the
    transaction on it and free the session on every later exit. */
module Dispatch {
  import opened Types
  import opened ModeTable
  import opened Transport
  import opened Session

  /** The ten engine session kinds, one per field of the Go `Transaction`
      (`PlainOTComplaint`, `PlainComplaint`, ..., `TableVRF`). */
  datatype Variant =
    | PlainOTComplaint | PlainComplaint | PlainAtomicSwap | PlainAtomicSwapVc
    | TableOTComplaint | TableComplaint | TableAtomicSwap | TableAtomicSwapVc
    | TableOTVRF | TableVRF

  /** The variant the dispatch switch selects for a tuple, if any. */
  function SelectVariant(mode: TopMode, subMode: SubMode, ot: bool): (v: Option<Variant>)
    ensures v.Some? <==> Listed(mode, subMode)
  {
    match mode
    case PlainPod =>
      (match subMode
       case Complaint => Some(if ot then PlainOTComplaint else PlainComplaint)
       case AtomicSwap => Some(PlainAtomicSwap)
       case AtomicSwapVc => Some(PlainAtomicSwapVc)
       case _ => None)
    case TablePod =>
      (match subMode
       case Complaint => Some(if ot then TableOTComplaint else TableComplaint)
       case AtomicSwap => Some(TableAtomicSwap)
       case AtomicSwapVc => Some(TableAtomicSwapVc)
       case VrfQuery => Some(if ot then TableOTVRF else TableVRF)
       case OtherSubMode => None)
    case OtherMode => None
  }

  /** The seller dispatches a tuple to the same variant as the tuple the
      buyer decodes from its wire code: the OT flag the atomic-swap codes
      drop was ignored by the dispatch as well. */
  lemma VariantSurvivesWire(t: TxMode)
    requires ModeToInt(t.mode, t.subMode, t.ot).Ok?
    ensures var d := ModeFromInt(ModeToInt(t.mode, t.subMode, t.ot).value);
      d.Ok? && SelectVariant(d.value.mode, d.value.subMode, d.value.ot) == SelectVariant(t.mode, t.subMode, t.ot)
  {
    EncodeDecode(t);
  }

  /** Distinct wire codes select distinct variants: the ten codes and the
      ten engine variants correspond one to one. */
  lemma CodesSelectDistinctVariants(c: uint8, e: uint8)
    requires c in WireCodes && e in WireCodes && c != e
    ensures var tc := ModeFromInt(c).value;
      var te := ModeFromInt(e).value;
      SelectVariant(tc.mode, tc.subMode, tc.ot) != SelectVariant(te.mode, te.subMode, te.ot)
  {
  }

  /** Transaction status; only START is set by the connection layer. */
  datatype TxStatus = Start

  /** The Go `Transaction` record, without its engine-session fields. */
  datatype Transaction = Transaction(
    sessionID: string, status: TxStatus, bobPubKey: Bytes, bobAddr: string,
    bulletin: Bulletin, mode: TopMode, subMode: SubMode, ot: bool,
    unitPrice: int64, aliceAddr: string, count: int)

  /** A call into the exchange-scheme engine. */
  datatype EngineCall =
    | NewSession(variant: Variant, publishPath: string)  // AliceNewSessFor*
    | RunTx(variant: Variant)                            // AliceTxFor*
    | FreeSession(variant: Variant)                      // the deferred AliceSession.Free()

  function CountNew(calls: seq<EngineCall>): nat {
    if calls == [] then 0 else (if calls[0].NewSession? then 1 else 0) + CountNew(calls[1..])
  }

  function CountFree(calls: seq<EngineCall>): nat {
    if calls == [] then 0 else (if calls[0].FreeSession? then 1 else 0) + CountFree(calls[1..])
  }

  function CountRun(calls: seq<EngineCall>): nat {
    if calls == [] then 0 else (if calls[0].RunTx? then 1 else 0) + CountRun(calls[1..])
  }

  /** The counts of a trace of one call. */
  lemma CountSingle(c: EngineCall)
    ensures CountNew([c]) == (if c.NewSession? then 1 else 0)
    ensures CountRun([c]) == (if c.RunTx? then 1 else 0)
    ensures CountFree([c]) == (if c.FreeSession? then 1 else 0)
  {
    assert [c][1..] == [];
  }

  /** Scoped use of one engine session: at most one session is created, it
      comes first, the transaction runs exactly once on a created session
      and never otherwise, and a created session is freed exactly once, as
      the last call. */
  ghost predicate Disciplined(calls: seq<EngineCall>, created: bool) {
    && CountNew(calls) <= 1
    && CountRun(calls) == (if created then 1 else 0)
    && CountFree(calls) == (if created then 1 else 0)
    && (created ==> calls != [] && calls[|calls| - 1].FreeSession?)
    && (forall i :: 0 <= i < |calls| && calls[i].RunTx? ==> created)
    && (forall i :: 0 < i < |calls| ==>
          calls[0].NewSession? && !calls[i].NewSession? && calls[i].variant == calls[0].variant)
  }

  /** What the dispatch does for `tx`: nothing for an unlisted tuple,
      otherwise a disciplined use of the selected variant, running the
      transaction exactly when the session was created. */
  ghost predicate ScopedDispatch(
    tx: Transaction, publishPath: string,
    newSess: (Variant, string) -> bool, runTx: (Variant, Transaction) -> bool,
    calls: seq<EngineCall>, ok: bool)
  {
    match SelectVariant(tx.mode, tx.subMode, tx.ot)
    case None => calls == [] && !ok
    case Some(v) =>
      var created := newSess(v, publishPath);
      && calls != [] && calls[0] == NewSession(v, publishPath)
      && Disciplined(calls, created)
      && (RunTx(v) in calls <==> created)
      && ok == (created && runTx(v, tx))
  }

  /** One case of the switch: create the session, stop if that failed,
      otherwise run the transaction and free the session on the way out. */
  method RunScoped(
    v: Variant, tx: Transaction, publishPath: string,
    newSess: (Variant, string) -> bool, runTx: (Variant, Transaction) -> bool)
    returns (calls: seq<EngineCall>, ok: bool)
    ensures calls != [] && calls[0] == NewSession(v, publishPath)
    ensures Disciplined(calls, newSess(v, publishPath))
    ensures RunTx(v) in calls <==> newSess(v, publishPath)
    ensures ok == (newSess(v, publishPath) && runTx(v, tx))
  {
    calls := [NewSession(v, publishPath)];
    CountSingle(NewSession(v, publishPath));
    if !newSess(v, publishPath) {
      return calls, false;
    }
    calls := calls + [RunTx(v)];
    ok := runTx(v, tx);
    calls := calls + [FreeSession(v)];
    var freed: seq<EngineCall> := [FreeSession(v)];
    CountSingle(FreeSession(v));
    var ran: seq<EngineCall> := [RunTx(v)] + freed;
    assert ran[1..] == freed;
    assert CountNew(ran) == 0 && CountRun(ran) == 1 && CountFree(ran) == 1;
    assert calls == [NewSession(v, publishPath)] + ran;
    assert calls[1..] == ran;
  }

  /** The mode/sub-mode switch of `AliceAcceptTx`. */
  method DispatchScheme(
    tx: Transaction, publishPath: string,
    newSess: (Variant, string) -> bool, runTx: (Variant, Transaction) -> bool)
    returns (calls: seq<EngineCall>, ok: bool)
    ensures ScopedDispatch(tx, publishPath, newSess, runTx, calls, ok)
  {
    calls, ok := [], false;
    if tx.mode == PlainPod {
      match tx.subMode
      case Complaint =>
        if tx.ot {
          calls, ok := RunScoped(PlainOTComplaint, tx, publishPath, newSess, runTx);
        } else {
          calls, ok := RunScoped(PlainComplaint, tx, publishPath, newSess, runTx);
        }
      case AtomicSwap =>
        calls, ok := RunScoped(PlainAtomicSwap, tx, publishPath, newSess, runTx);
      case AtomicSwapVc =>
        calls, ok := RunScoped(PlainAtomicSwapVc, tx, publishPath, newSess, runTx);
      case _ =>
    } else if tx.mode == TablePod {
      match tx.subMode
      case Complaint =>
        if tx.ot {
          calls, ok := RunScoped(TableOTComplaint, tx, publishPath, newSess, runTx);
        } else {
          calls, ok := RunScoped(TableComplaint, tx, publishPath, newSess, runTx);
        }
      case AtomicSwap =>
        calls, ok := RunScoped(TableAtomicSwap, tx, publishPath, newSess, runTx);
      case AtomicSwapVc =>
        calls, ok := RunScoped(TableAtomicSwapVc, tx, publishPath, newSess, runTx);
      case VrfQuery =>
        if tx.ot {
          calls, ok := RunScoped(TableOTVRF, tx, publishPath, newSess, runTx);
        } else {
          calls, ok := RunScoped(TableVRF, tx, publishPath, newSess, runTx);
        }
      case OtherSubMode =>
    }
  }

  /** `AliceTxMap`, the process-wide registry of transactions by session. */
  class TxRegistry {
    var txs: map<string, Transaction>

    constructor ()
      ensures txs == map[]
    {
      txs := map[];
    }

    method Put(tx: Transaction)
      modifies this
      ensures txs == old(txs)[tx.sessionID := tx]
    {
      txs := txs[tx.sessionID := tx];
    }
  }

  /** The record `AliceAcceptTx` builds field by field from the negotiated
      parameters. */
  function NewRecord(p: AliceConnParam, bobPubKey: Bytes, bobAddr: string, aliceAddr: string): (tx: Transaction)
    ensures tx.status == Start && tx.count == 1
    ensures tx.sessionID == p.sessionID && tx.bulletin == p.bulletin && tx.unitPrice == p.unitPrice
    ensures (tx.mode, tx.subMode, tx.ot) == (p.mode, p.subMode, p.ot)
    ensures SelectVariant(tx.mode, tx.subMode, tx.ot).Some? <==> ModeToInt(p.mode, p.subMode, p.ot).Ok?
  {
    Transaction(p.sessionID, Start, bobPubKey, bobAddr, p.bulletin, p.mode, p.subMode, p.ot,
                p.unitPrice, aliceAddr, 1)
  }

  /** `AliceAcceptTx` after the handshake: negotiate, register and persist
      the record, dispatch, and close the node on the way out. The engine,
      the persistence step and the preparation step are parameters. */
  method AliceAcceptTx(
    node: Node, registry: TxRegistry,
    decExtra: Bytes -> Option<RequestExtra>, encExtra: RequestExtra -> Bytes,
    prepare: (string, RequestExtra) -> Option<(AliceConnParam, RequestExtra)>,
    bobPubKey: Bytes, bobAddr: string, aliceAddr: string, aliceDir: string,
    insertDB: Transaction -> bool,
    newSess: (Variant, string) -> bool, runTx: (Variant, Transaction) -> bool)
    returns (calls: seq<EngineCall>)
    modifies node, registry
    ensures node.closed
    ensures var ack := AckSent(old(node.inbox), old(node.closed), old(node.CanSend(1)), decExtra, encExtra, prepare);
      if ack.None? then
        && node.outbox == old(node.outbox) && node.capacity == old(node.capacity)
        && node.inbox == Remaining(old(node.inbox), old(node.closed))
      else
        && node.outbox == old(node.outbox) + [ack.value] && node.capacity == old(node.capacity) - 1
        && node.inbox == Remaining(Remaining(old(node.inbox), old(node.closed)), old(node.closed))
    ensures var n := Negotiated(old(node.inbox), old(node.closed), old(node.CanSend(1)), decExtra, prepare);
      n.Err? ==> registry.txs == old(registry.txs) && calls == []
    ensures var n := Negotiated(old(node.inbox), old(node.closed), old(node.CanSend(1)), decExtra, prepare);
      n.Ok? ==>
      var tx := NewRecord(n.value, bobPubKey, bobAddr, aliceAddr);
      && registry.txs == old(registry.txs)[n.value.sessionID := tx]
      && SelectVariant(tx.mode, tx.subMode, tx.ot).Some?
      && (!insertDB(tx) ==> calls == [])
      && (insertDB(tx) ==> exists ok :: ScopedDispatch(tx, aliceDir + "/publish/" + n.value.bulletin.sigmaMklRoot, newSess, runTx, calls, ok))
      && (insertDB(tx) ==> CountNew(calls) == 1)
  {
    var prepared := PreAliceTxAndConn(node, decExtra, encExtra, prepare);
    if prepared.Err? {
      return [];
    }
    var p := prepared.value;
    var tx := NewRecord(p, bobPubKey, bobAddr, aliceAddr);
    registry.Put(tx);
    if !insertDB(tx) {
      node.Close();
      return [];
    }
    var publishPath := aliceDir + "/publish/" + tx.bulletin.sigmaMklRoot;
    var ok;
    calls, ok := DispatchScheme(tx, publishPath, newSess, runTx);
    node.Close();
  }
}
