/** Every reply a call accepts answers the request that very call wrote, over any history of calls. */
module RpcPairing {
  import opened Hpi
  import opened Rpc

  /** Between calls a thread's socket has no unread reply. */
  ghost predicate Clean(c: Chan) {
    c.slot == None || c.slot == Some([])
  }

  /** The log grew by at most n requests. */
  ghost predicate Grew(log: seq<Request>, log': seq<Request>, n: nat) {
    |log| <= |log'| <= |log| + n && log'[..|log|] == log
  }

  lemma TryPairs(c: Chan, id: U32, b: Buffer, a: Attempt)
    requires Clean(c) && |b.data| == MAX_PAYLOAD && AttemptOk(a)
    ensures var (c', t) := Try(c, id, b, a);
      && Clean(c') && Grew(c.log, c'.log, 1)
      && (t.Got? ==> c'.log == c.log + [Request(id, b.data[..b.len])] && t.reply.answers == |c.log| && c'.slot.Some?
                     && t.buffer.data == Overwrite(b.data, t.reply.payload))
      && (!t.Got? ==> c'.slot == None)
      && (t.Broken? && a.writes && b.len <= MAX_PAYLOAD ==> t.buffer == Spoiled(b, a.read))
      && (t.Broken? && !a.writes ==> t.buffer == b)
  {
    var reply := Reply(a.kind, a.id, a.answer, |c.log|);
    assert ([] + [reply])[1..] == [];
  }

  /** What a failed read leaves in the buffer. */
  ghost function Spoiled(b: Buffer, r: ReadResult): Buffer
    requires r.FailAfterHeader? ==> |r.got| <= |b.data|
  {
    if r.FailAfterHeader? then Buffer(Overwrite(b.data, r.got), r.claimed) else b
  }

  ghost function Verdict(id: U32, reply: Reply, decoded: (int, SaErrorT)): SaErrorT {
    if reply.kind == MSG_TYPE && reply.id == id && decoded.0 > 0 then decoded.1 else SA_ERR_HPI_NO_RESPONSE
  }

  /**
   * The reply, if the call read one, answers the last request the daemon received, which this call
   * wrote; without a reply the call fails and leaves no socket.
   */
  ghost predicate Paired(c: Chan, id: U32, c': Chan, r: Outcome) {
    && Clean(c') && Grew(c.log, c'.log, RPC_ATTEMPTS)
    && (r.reply.Some? ==> |c.log| <= r.reply.value.answers == |c'.log| - 1 && c'.log[r.reply.value.answers].id == id
                          && c'.slot == Some([]))
    && (r.reply.None? ==> c'.slot == None && (r.rv == SA_ERR_HPI_INVALID_DOMAIN || r.rv == SA_ERR_HPI_NO_RESPONSE))
  }

  lemma {:induction false} RemainingPaired(c: Chan, id: U32, b: Buffer, env: Env, demarshal: Demarshal, attempt: nat)
    requires Clean(c) && |b.data| == MAX_PAYLOAD && attempt <= RPC_ATTEMPTS
    requires attempt == RPC_ATTEMPTS ==> c.slot == None
    ensures var (c', r) := Remaining(c, id, b, env, demarshal, attempt);
      Paired(c, id, c', r) && Grew(c.log, c'.log, RPC_ATTEMPTS - attempt)
    decreases RPC_ATTEMPTS - attempt
  {
    if attempt < RPC_ATTEMPTS {
      var (c1, t) := Try(c, id, b, env[attempt]);
      TryPairs(c, id, b, env[attempt]);
      if t.Broken? {
        RemainingPaired(c1, id, t.buffer, env, demarshal, attempt + 1);
      }
    }
  }

  /** What an attempt sends of the buffer; nothing if the length does not fit. */
  ghost function Sent(b: Buffer): Option<seq<Byte>> {
    if b.len <= |b.data| then Some(b.data[..b.len]) else None
  }

  /** The buffer in which a call that reads a reply reads it: a first attempt that failed may have spoiled it. */
  ghost function LastBuffer(payload: seq<Byte>, first: Attempt): (b: Buffer)
    requires |payload| <= MAX_PAYLOAD && AttemptOk(first)
    ensures |b.data| == MAX_PAYLOAD
  {
    if first.writes then Spoiled(FreshBuffer(payload), first.read) else FreshBuffer(payload)
  }

  /** The result is decided by the reply, as read into data. */
  ghost predicate Decided(id: U32, demarshal: Demarshal, data: seq<Byte>, r: Outcome) {
    r.reply.Some? ==>
      && |r.reply.value.payload| <= |data|
      && r.rv == Verdict(id, r.reply.value, demarshal(Overwrite(data, r.reply.value.payload)))
  }

  /** The last attempt, with whatever is in the buffer. */
  lemma SecondAttempt(c: Chan, id: U32, b: Buffer, env: Env, demarshal: Demarshal)
    requires Clean(c) && |b.data| == MAX_PAYLOAD
    ensures var (c', r) := Remaining(c, id, b, env, demarshal, 1);
      && (r.reply.Some? ==> r.reply.value.answers < |c'.log| && Sent(b) == Some(c'.log[r.reply.value.answers].payload)
                            && c'.log[r.reply.value.answers].id == id)
      && Decided(id, demarshal, b.data, r)
  {
    TryPairs(c, id, b, env[1]);
    var (c1, t) := Try(c, id, b, env[1]);
    if t.Broken? {
      assert Remaining(c1, id, t.buffer, env, demarshal, 2).1.reply == None;
    }
  }

  /**
   * One call: at most RPC_ATTEMPTS requests, and an empty slot after a transport failure. A reply read decides the
   * result: the decoded code if type, id and body fit, and otherwise no response.
   */
  lemma CallPaired(c: Chan, id: U32, payload: seq<Byte>, env: Env, demarshal: Demarshal)
    requires Clean(c) && |payload| <= MAX_PAYLOAD
    ensures var (c', r) := Call(c, id, FreshBuffer(payload), env, demarshal);
      Paired(c, id, c', r) && Decided(id, demarshal, LastBuffer(payload, env[0]).data, r)
  {
    var b := FreshBuffer(payload);
    RemainingPaired(c, id, b, env, demarshal, 0);
    TryPairs(c, id, b, env[0]);
    var (c1, t) := Try(c, id, b, env[0]);
    if t.Broken? { SecondAttempt(c1, id, t.buffer, env, demarshal); }
  }

  // ---------------------------------------------------------------- when a call gets a reply

  /** A socket is there already, or can be made. */
  ghost predicate GetsSocket(slot: Option<seq<Reply>>, a: Attempt) {
    slot.Some? || (a.domainKnown && a.connects)
  }

  ghost predicate WritesAndReads(a: Attempt) {
    a.writes && a.read.ReadOk?
  }

  /** The first attempt had a socket, and failed on it. */
  ghost predicate TriesAgain(c: Chan, env: Env) {
    GetsSocket(c.slot, env[0]) && !WritesAndReads(env[0])
  }

  /** The length the first attempt left in the buffer is one that can be written. */
  ghost predicate Fits(first: Attempt) {
    first.writes && first.read.FailAfterHeader? ==> first.read.claimed <= MAX_PAYLOAD
  }

  ghost predicate SecondGetsReply(env: Env) {
    env[1].domainKnown && env[1].connects && Fits(env[0]) && WritesAndReads(env[1])
  }

  ghost predicate GetsReply(c: Chan, env: Env) {
    (GetsSocket(c.slot, env[0]) && WritesAndReads(env[0])) || (TriesAgain(c, env) && SecondGetsReply(env))
  }

  /** The attempt that fails for want of the domain: the first without a socket, or the second. */
  ghost predicate LacksDomain(c: Chan, env: Env) {
    (c.slot.None? && !env[0].domainKnown) || (TriesAgain(c, env) && !env[1].domainKnown)
  }

  /** What the daemon receives of an attempt with the buffer b. */
  ghost function Received(id: U32, b: Buffer, a: Attempt, hasSocket: bool): seq<Request> {
    if hasSocket && b.len <= |b.data| && (a.writes || a.reaches) then [Request(id, b.data[..b.len])] else []
  }

  lemma TryOutcome(c: Chan, id: U32, b: Buffer, a: Attempt)
    requires Clean(c) && |b.data| == MAX_PAYLOAD && AttemptOk(a)
    ensures var (c', t) := Try(c, id, b, a);
      && (t.Got? <==> GetsSocket(c.slot, a) && b.len <= MAX_PAYLOAD && WritesAndReads(a))
      && (t.NoSocket? <==> !GetsSocket(c.slot, a))
      && (t.NoSocket? ==> t.rv == if a.domainKnown then SA_ERR_HPI_NO_RESPONSE else SA_ERR_HPI_INVALID_DOMAIN)
      && c'.log == c.log + Received(id, b, a, GetsSocket(c.slot, a))
  {
  }

  /** The second and last attempt, on a new socket. */
  lemma LastOutcome(c: Chan, id: U32, b: Buffer, env: Env, demarshal: Demarshal)
    requires c.slot == None && |b.data| == MAX_PAYLOAD
    ensures var (c', r) := Remaining(c, id, b, env, demarshal, 1);
      && (r.reply.Some? <==> env[1].domainKnown && env[1].connects && b.len <= MAX_PAYLOAD && WritesAndReads(env[1]))
      && (r.reply.None? ==> r.rv == if env[1].domainKnown then SA_ERR_HPI_NO_RESPONSE else SA_ERR_HPI_INVALID_DOMAIN)
      && c'.log == c.log + Received(id, b, env[1], env[1].domainKnown && env[1].connects)
  {
    TryOutcome(c, id, b, env[1]);
    var (c1, t) := Try(c, id, b, env[1]);
    if t.Broken? {
      assert Remaining(c1, id, t.buffer, env, demarshal, 2) == (c1, Outcome(SA_ERR_HPI_NO_RESPONSE, None));
    }
  }

  /**
   * A call gets a reply if and only if its first attempt gets a socket, writes and reads, or it gets a socket and
   * fails on it and the second attempt connects, still has a length that fits, writes and reads. Without a reply it
   * reports an invalid domain exactly if an attempt that needed a socket found no domain, and otherwise no response.
   */
  lemma ReplyIff(c: Chan, id: U32, payload: seq<Byte>, env: Env, demarshal: Demarshal)
    requires Clean(c) && |payload| <= MAX_PAYLOAD
    ensures var (_, r) := Call(c, id, FreshBuffer(payload), env, demarshal);
      && (r.reply.Some? <==> GetsReply(c, env))
      && (r.reply.None? ==> r.rv == if LacksDomain(c, env) then SA_ERR_HPI_INVALID_DOMAIN else SA_ERR_HPI_NO_RESPONSE)
  {
    var b := FreshBuffer(payload);
    TryOutcome(c, id, b, env[0]);
    TryPairs(c, id, b, env[0]);
    var (c1, t) := Try(c, id, b, env[0]);
    if t.Broken? {
      assert t.buffer == LastBuffer(payload, env[0]);
      LastOutcome(c1, id, t.buffer, env, demarshal);
    }
  }

  /** The daemon receives the request of the first attempt, and after a failure that of the second, and nothing else. */
  lemma ReceivedExactly(c: Chan, id: U32, payload: seq<Byte>, env: Env, demarshal: Demarshal)
    requires Clean(c) && |payload| <= MAX_PAYLOAD
    ensures Call(c, id, FreshBuffer(payload), env, demarshal).0.log
         == c.log + Received(id, FreshBuffer(payload), env[0], GetsSocket(c.slot, env[0]))
            + Received(id, LastBuffer(payload, env[0]), env[1],
                       TriesAgain(c, env) && env[1].domainKnown && env[1].connects)
  {
    var b := FreshBuffer(payload);
    TryOutcome(c, id, b, env[0]);
    TryPairs(c, id, b, env[0]);
    var (c1, t) := Try(c, id, b, env[0]);
    if t.Broken? {
      assert t.buffer == LastBuffer(payload, env[0]);
      LastOutcome(c1, id, t.buffer, env, demarshal);
    }
  }

  // ---------------------------------------------------------------- the shared buffer

  /** The failed read came before any header, or what it left in the buffer is the request again. */
  ghost predicate LeavesIntact(a: Attempt, payload: seq<Byte>) {
    a.writes && a.read.FailAfterHeader? ==> a.read.claimed == |payload| && a.read.got <= payload
  }

  /**
   * Request and reply share one buffer, so the second attempt sends the marshalled request exactly
   * when the first one's read did not get past a header, or got back just what was there.
   */
  lemma RetryIntactIff(c: Chan, id: U32, payload: seq<Byte>, a: Attempt)
    requires Clean(c) && |payload| <= MAX_PAYLOAD && AttemptOk(a)
    requires Try(c, id, FreshBuffer(payload), a).1.Broken?
    ensures Sent(Try(c, id, FreshBuffer(payload), a).1.buffer) == Some(payload) <==> LeavesIntact(a, payload)
  {
    var b := FreshBuffer(payload);
    TryPairs(c, id, b, a);
    if a.writes && a.read.FailAfterHeader? {
      SpoiledIff(b, payload, a.read.claimed, a.read.got);
    }
  }

  lemma SpoiledIff(b: Buffer, payload: seq<Byte>, claimed: nat, got: seq<Byte>)
    requires |b.data| == MAX_PAYLOAD && |payload| <= MAX_PAYLOAD && b.data[..|payload|] == payload
    requires |got| <= MAX_PAYLOAD && |got| < claimed
    ensures Sent(Buffer(Overwrite(b.data, got), claimed)) == Some(payload) <==> claimed == |payload| && got <= payload
  {
    var data := Overwrite(b.data, got);
    if claimed == |payload| {
      assert data[..claimed][..|got|] == got;
      if got <= payload {
        forall i | 0 <= i < claimed ensures data[i] == payload[i] {
          if i >= |got| { assert data[i] == b.data[i] && b.data[..claimed][i] == payload[i]; }
        }
        assert data[..claimed] == payload;
      }
    }
  }

  /**
   * The request a call's reply answers is the one the caller asked for exactly if the first attempt
   * did not spoil the buffer: a second attempt sends what is left there.
   */
  lemma AnswersRequestIff(c: Chan, id: U32, payload: seq<Byte>, env: Env, demarshal: Demarshal)
    requires Clean(c) && |payload| <= MAX_PAYLOAD
    ensures var (c', r) := Call(c, id, FreshBuffer(payload), env, demarshal);
      r.reply.Some? ==> r.reply.value.answers < |c'.log|
                        && (c'.log[r.reply.value.answers] == Request(id, payload) <==> LeavesIntact(env[0], payload))
  {
    var b := FreshBuffer(payload);
    TryPairs(c, id, b, env[0]);
    var (c1, t) := Try(c, id, b, env[0]);
    if t.Broken? {
      RetryIntactIff(c, id, payload, env[0]);
      SecondAttempt(c1, id, t.buffer, env, demarshal);
    }
  }

  /** The first attempt's read fails right behind a header that announces another length than the request has. */
  ghost function SpoilingEnv(id: U32, claimed: nat, answer: seq<Byte>): Env
    requires 0 < claimed && |answer| <= MAX_PAYLOAD
  {
    [Attempt(true, true, true, true, FailAfterHeader(claimed, []), MSG_TYPE, id, answer),
     Attempt(true, true, true, true, ReadOk, MSG_TYPE, id, answer)]
  }

  /** A reply body that always decodes. */
  function AnyBody(data: seq<Byte>): (int, SaErrorT) {
    (1, SA_OK)
  }

  /** A call that succeeds on the reply to a request nobody made. */
  lemma SpoiledRetrySucceeds(id: U32, payload: seq<Byte>, claimed: nat, answer: seq<Byte>)
    requires |payload| <= MAX_PAYLOAD && 0 < claimed <= MAX_PAYLOAD && claimed != |payload| && |answer| <= MAX_PAYLOAD
    ensures var (c', r) := Call(Chan(None, []), id, FreshBuffer(payload), SpoilingEnv(id, claimed, answer), AnyBody);
      r.rv == SA_OK && r.reply.Some? && |c'.log| == 2 && r.reply.value.answers == 1 && c'.log[1] != Request(id, payload)
  {
    var env := SpoilingEnv(id, claimed, answer);
    var c := Chan(None, []);
    var b := FreshBuffer(payload);
    TryPairs(c, id, b, env[0]);
    var (c1, t) := Try(c, id, b, env[0]);
    TryPairs(c1, id, t.buffer, env[1]);
    AnswersRequestIff(c, id, payload, env, AnyBody);
    CallPaired(c, id, payload, env, AnyBody);
  }

  // ---------------------------------------------------------------- histories

  datatype RpcCall = RpcCall(id: U32, payload: seq<Byte>, env: Env)

  ghost predicate CallsOk(calls: seq<RpcCall>) {
    forall i | 0 <= i < |calls| :: |calls[i].payload| <= MAX_PAYLOAD
  }

  /** The channel after the first n calls of a thread on a new session. */
  ghost function After(calls: seq<RpcCall>, demarshal: Demarshal, n: nat): (c: Chan)
    requires CallsOk(calls) && n <= |calls|
    ensures Clean(c)
  {
    if n == 0 then Chan(None, []) else
      var c := After(calls, demarshal, n - 1);
      CallPaired(c, calls[n - 1].id, calls[n - 1].payload, calls[n - 1].env, demarshal);
      Call(c, calls[n - 1].id, FreshBuffer(calls[n - 1].payload), calls[n - 1].env, demarshal).0
  }

  ghost function ResultOf(calls: seq<RpcCall>, demarshal: Demarshal, n: nat): Outcome
    requires CallsOk(calls) && n < |calls|
  {
    Call(After(calls, demarshal, n), calls[n].id, FreshBuffer(calls[n].payload), calls[n].env, demarshal).1
  }

  lemma {:induction false} LogGrows(calls: seq<RpcCall>, demarshal: Demarshal, m: nat, n: nat)
    requires CallsOk(calls) && m <= n <= |calls|
    ensures |After(calls, demarshal, m).log| <= |After(calls, demarshal, n).log|
    decreases n - m
  {
    if m < n {
      LogGrows(calls, demarshal, m, n - 1);
      CallPaired(After(calls, demarshal, n - 1), calls[n - 1].id, calls[n - 1].payload, calls[n - 1].env, demarshal);
    }
  }

  /**
   * Over any history, whatever fails: a call's reply answers a request that call sent, no reply serves
   * two calls, and the request is the one asked for exactly if the first attempt spoiled no buffer.
   */
  lemma HistoryPaired(calls: seq<RpcCall>, demarshal: Demarshal, m: nat, n: nat)
    requires CallsOk(calls) && m <= n < |calls|
    requires ResultOf(calls, demarshal, m).reply.Some? && ResultOf(calls, demarshal, n).reply.Some?
    ensures var x := ResultOf(calls, demarshal, n).reply.value.answers;
      |After(calls, demarshal, n).log| <= x < |After(calls, demarshal, n + 1).log|
      && After(calls, demarshal, n + 1).log[x].id == calls[n].id
      && (After(calls, demarshal, n + 1).log[x] == Request(calls[n].id, calls[n].payload)
          <==> LeavesIntact(calls[n].env[0], calls[n].payload))
    ensures m < n ==>
      ResultOf(calls, demarshal, m).reply.value.answers < ResultOf(calls, demarshal, n).reply.value.answers
  {
    CallPaired(After(calls, demarshal, m), calls[m].id, calls[m].payload, calls[m].env, demarshal);
    CallPaired(After(calls, demarshal, n), calls[n].id, calls[n].payload, calls[n].env, demarshal);
    AnswersRequestIff(After(calls, demarshal, n), calls[n].id, calls[n].payload, calls[n].env, demarshal);
    if m < n { LogGrows(calls, demarshal, m + 1, n); }
  }

  // ---------------------------------------------------------------- unread replies

  /** The invariant is needed: the reply read answers the new request exactly if no reply was left unread. */
  lemma StaleReplyIff(c: Chan, id: U32, b: Buffer, a: Attempt)
    requires c.slot.Some? && ChanOk(c) && BufferOk(b) && AttemptOk(a) && a.writes && a.read.ReadOk?
    requires forall i | 0 <= i < |c.slot.value| :: c.slot.value[i].answers < |c.log|
    ensures var (c', t) := Try(c, id, b, a); t.Got? && (t.reply.answers == |c'.log| - 1 <==> c.slot.value == [])
  {
  }
}
