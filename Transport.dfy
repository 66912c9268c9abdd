/** The two resources the connection layer drives: the framed message
    channel to the peer (`pod_net.Node`) and the local staging files. */
module Transport {
  import opened Types

  /** Frame kinds that carry one opaque length-prefixed payload. */
  datatype BlobKind = TxRequestKind | TxResponseKind | TxReceiptKind | NegoRequestKind | NegoAckKind

  datatype SessionRequest = SessionRequest(id: uint64, mode: uint8, sigmaMklRoot: Bytes, extraInfo: Bytes)

  datatype SessionAck = SessionAck(id: uint64, mode: uint8, sigmaMklRoot: Bytes, extraInfo: Bytes, isInitiator: bool)

  /** One frame on the channel. `NegoPair` is the piggybacked
      nego-ack + nego-request frame. */
  datatype Msg =
    | Request(req: SessionRequest)
    | Ack(ack: SessionAck)
    | Blob(kind: BlobKind, payload: Bytes)
    | NegoPair(response: Bytes, request: Bytes)

  /** The frame a receive call reads, if any: none once the node is
      closed or the peer has nothing more to send. */
  function Incoming(inbox: seq<Msg>, closed: bool): Option<Msg>
  {
    if closed || inbox == [] then None else Some(inbox[0])
  }

  /** What is left to read after one receive call. */
  function Remaining(inbox: seq<Msg>, closed: bool): seq<Msg>
  {
    if closed || inbox == [] then inbox else inbox[1..]
  }

  /** The payload of a frame read by a receive call expecting `kind`. */
  function BlobOf(m: Option<Msg>, kind: BlobKind): Option<Bytes>
  {
    if m.Some? && m.value.Blob? && m.value.kind == kind then Some(m.value.payload) else None
  }

  /** A peer channel: the frames the peer has sent and not yet been read
      (`inbox`), the frames sent to the peer (`outbox`), whether the node
      was closed, and how many more frames the transport will carry before
      a send fails. */
  class Node {
    var inbox: seq<Msg>
    var outbox: seq<Msg>
    var closed: bool
    var capacity: nat

    constructor (incoming: seq<Msg>, carried: nat)
      ensures inbox == incoming && outbox == [] && !closed && capacity == carried
    {
      inbox := incoming;
      outbox := [];
      closed := false;
      capacity := carried;
    }

    /** Whether the next `sends` frames would all go out. */
    predicate CanSend(sends: nat)
      reads this
    {
      !closed && capacity >= sends
    }

    /** Sends one frame; it reaches the peer unless the node is closed or
        the transport gives out. */
    method Send(m: Msg) returns (ok: bool)
      modifies this
      ensures ok == old(CanSend(1))
      ensures outbox == if ok then old(outbox) + [m] else old(outbox)
      ensures capacity == if ok then old(capacity) - 1 else old(capacity)
      ensures inbox == old(inbox) && closed == old(closed)
    {
      ok := !closed && capacity >= 1;
      if ok {
        outbox := outbox + [m];
        capacity := capacity - 1;
      }
    }

    /** Reads the next frame, consuming it. */
    method Receive() returns (m: Option<Msg>)
      modifies this
      ensures m == Incoming(old(inbox), old(closed))
      ensures inbox == Remaining(old(inbox), old(closed))
      ensures outbox == old(outbox) && closed == old(closed) && capacity == old(capacity)
    {
      m := Incoming(inbox, closed);
      inbox := Remaining(inbox, closed);
    }

    method Close()
      modifies this
      ensures closed
      ensures inbox == old(inbox) && outbox == old(outbox) && capacity == old(capacity)
    {
      closed := true;
    }
  }

  /** Receives one frame of the given blob kind; a frame of another kind is
      a transport error (the frame is consumed). */
  method RecvBlob(node: Node, kind: BlobKind) returns (p: Option<Bytes>)
    modifies node
    ensures p == BlobOf(Incoming(old(node.inbox), old(node.closed)), kind)
    ensures node.inbox == Remaining(old(node.inbox), old(node.closed))
    ensures node.outbox == old(node.outbox) && node.closed == old(node.closed) && node.capacity == old(node.capacity)
  {
    var m := node.Receive();
    p := BlobOf(m, kind);
  }

  /** What a file holds after `os.OpenFile(path, O_WRONLY|O_CREATE)`
      followed by one `Write(data)`: without O_TRUNC the write lands on
      the front of an existing file and a longer old content keeps its
      tail. */
  function Overlay(existing: Option<Bytes>, data: Bytes): (r: Bytes)
    ensures |r| == if existing.Some? && |existing.value| > |data| then |existing.value| else |data|
    ensures r[..|data|] == data
    ensures existing.Some? && |existing.value| > |data| ==> r[|data|..] == existing.value[|data|..]
  {
    if existing.Some? && |existing.value| > |data| then data + existing.value[|data|..] else data
  }

  /** As written, a receipt, request or response file that already holds
      a longer blob is left holding more than the bytes just received. */
  lemma OverlayKeepsStaleTail()
    ensures Overlay(Some([7, 7, 7]), [1]) == [1, 7, 7]
    ensures Overlay(Some([7, 7, 7]), [1]) != [1]
  {
    assert Overlay(Some([7, 7, 7]), [1]) == [1] + [7, 7];
  }

  /** The write stores exactly `data` when the file is new or no longer
      than `data`, which is the case the relays rely on. */
  lemma OverlayExactWhenNotLonger(existing: Option<Bytes>, data: Bytes)
    ensures Overlay(existing, data) == data <==> (existing.None? || |existing.value| <= |data|)
  {
  }

  /** The current content of `path`, if the file exists. */
  function Existing(files: map<string, Bytes>, path: string): Option<Bytes> {
    if path in files then Some(files[path]) else None
  }

  /** The staging area: staged blobs by path, and the paths that cannot be
      opened for writing. */
  class Disk {
    var files: map<string, Bytes>
    var readOnly: set<string>

    constructor (initial: map<string, Bytes>, locked: set<string>)
      ensures files == initial && readOnly == locked
    {
      files := initial;
      readOnly := locked;
    }

    /** `ioutil.ReadFile`. */
    method ReadFile(path: string) returns (r: Result<Bytes>)
      ensures r.Ok? <==> path in files
      ensures r.Ok? ==> r.value == files[path]
      ensures r.Err? ==> r.failure == ReadFileFailed(path)
    {
      if path in files {
        r := Ok(files[path]);
      } else {
        r := Err(ReadFileFailed(path));
      }
    }

    /** As the relays save: `os.OpenFile(path, O_WRONLY|O_CREATE, 0666)`
        and one `Write(data)`, which overlays what the file held. */
    method OpenWrite(path: string, data: Bytes) returns (r: Outcome)
      modifies this
      ensures r == if path in old(readOnly) then Fail(SaveFileFailed(path)) else Pass
      ensures files == if r.Pass? then old(files)[path := Overlay(Existing(old(files), path), data)] else old(files)
      ensures readOnly == old(readOnly)
    {
      if path in readOnly {
        r := Fail(SaveFileFailed(path));
      } else {
        files := files[path := Overlay(Existing(files, path), data)];
        r := Pass;
      }
    }

    /** Corrected save: stores `data` as the whole content of `path` (open
        with create and truncate, then write). */
    method WriteFile(path: string, data: Bytes) returns (r: Outcome)
      modifies this
      ensures r == if path in old(readOnly) then Fail(SaveFileFailed(path)) else Pass
      ensures files == if r.Pass? then old(files)[path := data] else old(files)
      ensures readOnly == old(readOnly)
    {
      if path in readOnly {
        r := Fail(SaveFileFailed(path));
      } else {
        files := files[path := data];
        r := Pass;
      }
    }
  }
}
