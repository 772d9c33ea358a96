/**
 * The remote procedure call of baselib/session.cpp with its retry, over the sockets of
 * transport/strmsock.cpp. The network and the daemon are the environment: for every attempt it says
 * what fails, and the daemon answers every request that reaches it once, in order.
 */
module Rpc {
  import opened Hpi

  type Byte = x: int | 0 <= x < 256

  const MAX_PAYLOAD: nat := 65523
  const RPC_ATTEMPTS: nat := 2
  const MSG_TYPE: int := 1

  datatype Request = Request(id: U32, payload: seq<Byte>)

  /** A reply on the wire; answers is the position in the log of the request it answers. */
  datatype Reply = Reply(kind: int, id: U32, payload: seq<Byte>, answers: nat)

  /**
   * How ReadMsg ends. A failure after the header has set the length to the one the header claimed
   * and put the bytes that came into the buffer.
   */
  datatype ReadResult = ReadOk | FailBeforeHeader | FailAfterHeader(claimed: nat, got: seq<Byte>)

  /** What the environment does during one attempt; kind, id and answer make up the daemon's reply. */
  datatype Attempt = Attempt(domainKnown: bool, connects: bool, writes: bool, reaches: bool, read: ReadResult,
                             kind: int, id: U32, answer: seq<Byte>)

  ghost predicate AttemptOk(a: Attempt) {
    && |a.answer| <= MAX_PAYLOAD
    && (a.read.FailAfterHeader? ==> |a.read.got| <= MAX_PAYLOAD && |a.read.got| < a.read.claimed)
  }

  type Env = env: seq<Attempt> | |env| == RPC_ATTEMPTS && forall i | 0 <= i < |env| :: AttemptOk(env[i])
    witness [IDLE_ATTEMPT, IDLE_ATTEMPT]

  const IDLE_ATTEMPT := Attempt(false, false, false, false, FailBeforeHeader, 0, 0, [])

  /** HpiMarshalFind and HpiMarshalRequest on the caller's parameters. */
  datatype Marshalled = NoSuchApi | CannotMarshal | Bytes(payload: seq<Byte>)

  /** HpiDemarshalReply on the whole buffer: its return code and the result code it decoded. */
  type Demarshal = seq<Byte> -> (int, SaErrorT)

  // ---------------------------------------------------------------- one attempt, as functions

  /** A thread's socket slot, with the replies not yet read, and every request the daemon has received on it so far. */
  datatype Chan = Chan(slot: Option<seq<Reply>>, log: seq<Request>)

  /** The buffer that request and reply share. */
  datatype Buffer = Buffer(data: seq<Byte>, len: nat)

  function Overwrite(data: seq<Byte>, bytes: seq<Byte>): (r: seq<Byte>)
    requires |bytes| <= |data|
    ensures |r| == |data|
  {
    bytes + data[|bytes|..]
  }

  /** cSession::GetSock */
  function Connect(c: Chan, a: Attempt): (r: (Chan, SaErrorT))
    ensures r.1 == SA_OK ==> r.0.slot.Some?
  {
    if c.slot.Some? then (c, SA_OK)
    else if !a.domainKnown then (c, SA_ERR_HPI_INVALID_DOMAIN)
    else if !a.connects then (c, SA_ERR_HPI_NO_RESPONSE)
    else (c.(slot := Some([])), SA_OK)
  }

  /** WriteMsg: a request that reaches the daemon is answered once. A write that reports failure may have arrived. */
  function Write(c: Chan, id: U32, b: Buffer, a: Attempt): (Chan, bool)
    requires c.slot.Some? && |b.data| == MAX_PAYLOAD
  {
    if b.len > MAX_PAYLOAD then (c, false)
    else if a.writes || a.reaches then
      var reply := Reply(a.kind, a.id, a.answer, |c.log|);
      (Chan(Some(c.slot.value + [reply]), c.log + [Request(id, b.data[..b.len])]), a.writes)
    else (c, false)
  }

  /** ReadMsg: the oldest unread reply, or a failure that may spoil the buffer. */
  function Read(c: Chan, b: Buffer, a: Attempt): (Chan, Buffer, Option<Reply>)
    requires c.slot.Some? && c.slot.value != [] && |b.data| == MAX_PAYLOAD && AttemptOk(a)
    requires |c.slot.value[0].payload| <= MAX_PAYLOAD
  {
    match a.read
    case ReadOk =>
      var reply := c.slot.value[0];
      (c.(slot := Some(c.slot.value[1..])), Buffer(Overwrite(b.data, reply.payload), |reply.payload|), Some(reply))
    case FailBeforeHeader => (c, b, None)
    case FailAfterHeader(claimed, got) => (c, Buffer(Overwrite(b.data, got), claimed), None)
  }

  /** Unread replies fit the buffer. */
  ghost predicate ChanOk(c: Chan) {
    c.slot.Some? ==> forall i | 0 <= i < |c.slot.value| :: |c.slot.value[i].payload| <= MAX_PAYLOAD
  }

  datatype Tried = NoSocket(rv: SaErrorT) | Broken(buffer: Buffer) | Got(reply: Reply, buffer: Buffer)

  /** One pass of the retry loop. */
  ghost function Try(c: Chan, id: U32, b: Buffer, a: Attempt): (r: (Chan, Tried))
    requires ChanOk(c) && |b.data| == MAX_PAYLOAD && AttemptOk(a)
    ensures ChanOk(r.0) && (r.1.Broken? ==> |r.1.buffer.data| == MAX_PAYLOAD)
  {
    var (c1, rv) := Connect(c, a);
    if rv != SA_OK then (c1, NoSocket(rv)) else
      var (c2, written) := Write(c1, id, b, a);
      if !written then (c2.(slot := None), Broken(b)) else
        var (c3, b3, reply) := Read(c2, b, a);
        if reply.Some? then (c3, Got(reply.value, b3)) else (c3.(slot := None), Broken(b3))
  }

  /** The verdict on a reply that was read. */
  function Judge(id: U32, reply: Reply, data: seq<Byte>, demarshal: Demarshal): SaErrorT {
    var (cc, rv) := demarshal(data);
    if cc <= 0 || reply.kind != MSG_TYPE || reply.id != id then SA_ERR_HPI_NO_RESPONSE else rv
  }

  /** What a call returned and the reply it read, if any. */
  datatype Outcome = Outcome(rv: SaErrorT, reply: Option<Reply>)

  ghost function Finish(id: U32, t: Tried, demarshal: Demarshal): Outcome
  {
    match t
    case NoSocket(rv) => Outcome(rv, None)
    case Broken(_) => Outcome(SA_ERR_HPI_NO_RESPONSE, None)
    case Got(reply, b) => Outcome(Judge(id, reply, b.data, demarshal), Some(reply))
  }

  ghost predicate BufferOk(b: Buffer) {
    |b.data| == MAX_PAYLOAD && b.len <= MAX_PAYLOAD
  }

  /** The retry loop: a further attempt only after a broken one, with the buffer as that one left it. */
  ghost function Call(c: Chan, id: U32, b: Buffer, env: Env, demarshal: Demarshal): (Chan, Outcome)
    requires ChanOk(c) && |b.data| == MAX_PAYLOAD
  {
    Remaining(c, id, b, env, demarshal, 0)
  }

  // ---------------------------------------------------------------- the method

  /** One thread's socket for one session, with what the daemon has received from it. */
  class SessionSocket {
    var slot: Option<seq<Reply>>
    var log: seq<Request>

    constructor ()
      ensures Contents() == Chan(None, [])
    {
      slot, log := None, [];
    }

    ghost function Contents(): Chan
      reads this
    {
      Chan(slot, log)
    }

    /** cSession::GetSock */
    method GetSock(a: Attempt) returns (rv: SaErrorT)
      modifies this`slot
      ensures (Contents(), rv) == Connect(old(Contents()), a)
    {
      rv := SA_OK;
      if slot.None? {
        if !a.domainKnown { return SA_ERR_HPI_INVALID_DOMAIN; }
        if !a.connects { return SA_ERR_HPI_NO_RESPONSE; }
        slot := Some([]);
      }
    }

    method CloseSock()
      modifies this`slot
      ensures slot == None
    {
      slot := None;
    }

    method WriteMsg(id: U32, data: array<Byte>, len: nat, a: Attempt) returns (ok: bool)
      requires slot.Some? && data.Length == MAX_PAYLOAD
      modifies this
      ensures (Contents(), ok) == Write(old(Contents()), id, Buffer(data[..], len), a)
    {
      if len > MAX_PAYLOAD { return false; }
      assert data[..][..len] == data[..len];
      if a.writes || a.reaches {
        slot := Some(slot.value + [Reply(a.kind, a.id, a.answer, |log|)]);
        log := log + [Request(id, data[..len])];
      }
      ok := a.writes;
    }

    /** Copies bytes to the front of the buffer. */
    method Receive(data: array<Byte>, bytes: seq<Byte>)
      requires |bytes| <= data.Length
      modifies data
      ensures data[..] == Overwrite(old(data[..]), bytes)
    {
      forall i | 0 <= i < |bytes| {
        data[i] := bytes[i];
      }
    }

    method ReadMsg(data: array<Byte>, len0: nat, a: Attempt) returns (reply: Option<Reply>, len: nat)
      requires slot.Some? && slot.value != [] && data.Length == MAX_PAYLOAD && AttemptOk(a)
      requires |slot.value[0].payload| <= MAX_PAYLOAD
      modifies this, data
      ensures (Contents(), Buffer(data[..], len), reply) == Read(old(Contents()), Buffer(old(data[..]), len0), a)
    {
      reply, len := None, len0;
      match a.read
      case ReadOk =>
        reply := Some(slot.value[0]);
        slot := Some(slot.value[1..]);
        Receive(data, reply.value.payload);
        len := |reply.value.payload|;
      case FailBeforeHeader =>
      case FailAfterHeader(claimed, got) =>
        Receive(data, got);
        len := claimed;
    }

    /** The body of the retry loop: a result other than SA_OK ends the call, a reply ends the loop. */
    method AttemptRpc(id: U32, data: array<Byte>, len0: nat, a: Attempt)
      returns (rv: SaErrorT, reply: Option<Reply>, len: nat)
      requires ChanOk(Contents()) && data.Length == MAX_PAYLOAD && AttemptOk(a)
      modifies this, data
      ensures ChanOk(Contents()) && Contents() == Try(old(Contents()), id, Buffer(old(data[..]), len0), a).0
      ensures match Try(old(Contents()), id, Buffer(old(data[..]), len0), a).1
        case NoSocket(code) => rv == code != SA_OK && reply == None
        case Broken(b) => rv == SA_OK && reply == None && Buffer(data[..], len) == b
        case Got(r, b) => rv == SA_OK && reply == Some(r) && Buffer(data[..], len) == b
    {
      reply, len := None, len0;
      rv := GetSock(a);
      if rv != SA_OK { return; }
      var ok := WriteMsg(id, data, len, a);
      if ok {
        reply, len := ReadMsg(data, len, a);
      }
      if reply.None? {
        CloseSock();
      }
    }

    /** cSession::DoRpc */
    method DoRpc(id: U32, request: Marshalled, env: Env, demarshal: Demarshal)
      returns (rv: SaErrorT, reply: Option<Reply>)
      requires ChanOk(Contents()) && (request.Bytes? ==> |request.payload| <= MAX_PAYLOAD)
      modifies this
      ensures ChanOk(Contents())
      ensures match request
        case NoSuchApi => Contents() == old(Contents()) && rv == SA_ERR_HPI_UNSUPPORTED_API && reply == None
        case CannotMarshal => Contents() == old(Contents()) && rv == SA_ERR_HPI_INTERNAL_ERROR && reply == None
        case Bytes(payload) =>
          (Contents(), Outcome(rv, reply)) == Call(old(Contents()), id, FreshBuffer(payload), env, demarshal)
    {
      reply := None;
      if request.NoSuchApi? { return SA_ERR_HPI_UNSUPPORTED_API, None; }
      var data := new Byte[MAX_PAYLOAD](_ => 0);
      if request.CannotMarshal? { return SA_ERR_HPI_INTERNAL_ERROR, None; }
      Receive(data, request.payload);
      var len: nat := |request.payload|;
      ghost var result := Call(Contents(), id, FreshBuffer(request.payload), env, demarshal);
      assert data[..] == FreshBuffer(request.payload).data;

      var attempt: nat := 0;
      while attempt < RPC_ATTEMPTS && reply.None?
        invariant attempt <= RPC_ATTEMPTS && ChanOk(Contents())
        invariant reply.None? ==> result == Remaining(Contents(), id, Buffer(data[..], len), env, demarshal, attempt)
        invariant reply.Some? ==> result == (Contents(), Outcome(Judge(id, reply.value, data[..], demarshal), reply))
        decreases RPC_ATTEMPTS - attempt
      {
        rv, reply, len := AttemptRpc(id, data, len, env[attempt]);
        if rv != SA_OK { return; }
        attempt := attempt + 1;
      }
      if reply.None? { return SA_ERR_HPI_NO_RESPONSE, None; }
      var (cc, code) := demarshal(data[..]);
      if cc <= 0 || reply.value.kind != MSG_TYPE || reply.value.id != id {
        return SA_ERR_HPI_NO_RESPONSE, reply;
      }
      rv := code;
    }
  }

  /** The marshalled request at the front of the buffer; what is behind it is never sent. */
  function FreshBuffer(payload: seq<Byte>): (b: Buffer)
    requires |payload| <= MAX_PAYLOAD
    ensures |b.data| == MAX_PAYLOAD && b.len == |payload| && b.data[..b.len] == payload
  {
    Buffer(payload + seq(MAX_PAYLOAD - |payload|, _ => 0), |payload|)
  }

  /** The outcome of the loop from a given attempt on. */
  ghost function Remaining(c: Chan, id: U32, b: Buffer, env: Env, demarshal: Demarshal, attempt: nat): (Chan, Outcome)
    requires ChanOk(c) && |b.data| == MAX_PAYLOAD && attempt <= RPC_ATTEMPTS
    decreases RPC_ATTEMPTS - attempt
  {
    if attempt == RPC_ATTEMPTS then (c, Outcome(SA_ERR_HPI_NO_RESPONSE, None)) else
      var (c', t) := Try(c, id, b, env[attempt]);
      if t.Broken? then Remaining(c', id, t.buffer, env, demarshal, attempt + 1) else (c', Finish(id, t, demarshal))
  }
}
