/** What the calls on sessions return and do, from their first step to their last, in any run. */
module SessionCalls {
  import opened Hpi
  import opened DomainTable
  import opened SessionState
  import opened SessionInvariant
  import opened SessionRuns
  import opened SessionDomains
  import SessionSafety
  import SessionSoundness

  ghost predicate By(e: Step, t: Tid) {
    !e.DomainAdd? && e.t == t
  }

  /** Step i of thread t starts a call that ends in state k, the next in which the thread is idle. */
  ghost predicate CallSpan(ss: seq<State>, es: seq<Step>, t: Tid, i: nat, k: nat) {
    && Run(ss, es) && i < k < |ss| && By(es[i], t) && ss[k].hist.opens <= TWO32
    && (forall n | i < n < k :: t in ss[n].pcs && !ss[n].pcs[t].Idle?)
    && t in ss[k].pcs && ss[k].pcs[t].Idle?
  }

  /** Every answer the thread gets from the daemon between the two positions is rv. */
  ghost predicate RepliesAre(es: seq<Step>, t: Tid, i: nat, n: nat, rv: SaErrorT)
    requires n <= |es|
  {
    forall j | i < j < n && es[j].Reply? && es[j].t == t :: es[j].rv == rv
  }

  ghost predicate NoReply(es: seq<Step>, t: Tid, i: nat, n: nat)
    requires n <= |es|
  {
    forall j | i < j < n :: !(es[j].Reply? && es[j].t == t)
  }

  /** The daemon has answered the call with rv; the entity root is read without it. */
  ghost predicate Answered(es: seq<Step>, t: Tid, call: Call, i: nat, n: nat, rv: SaErrorT)
    requires n <= |es|
  {
    && RepliesAre(es, t, i, n, rv)
    && if call.Root? then rv == SA_OK else exists j :: i < j < n && es[j] == Reply(t, rv)
  }

  // ---------------------------------------------------------------- calls on a session

  /** Where the thread is in its call on session o. */
  ghost predicate Phase(s: State, es: seq<Step>, t: Tid, sid: U32, call: Call, o: Obj, i: nat, n: nat)
    requires n <= |es|
  {
    && t in s.pcs && o in s.hist.bound
    && (o in s.heap.objs ==> s.heap.objs[o].sid == sid)
    && match s.pcs[t]
       case Calling(x, c, _) => x == o && c == call && NoReply(es, t, i, n)
       case Releasing(x, closed, rv) =>
         x == o && (closed <==> call.Close? && rv == SA_OK) && Answered(es, t, call, i, n, rv)
       case _ => false
  }

  /** A step of another thread, or one more position, changes nothing of it. */
  lemma LaterAnswered(es: seq<Step>, t: Tid, call: Call, i: nat, n: nat, rv: SaErrorT)
    requires n < |es| && !(es[n].Reply? && es[n].t == t)
    ensures Answered(es, t, call, i, n, rv) ==> Answered(es, t, call, i, n + 1, rv)
    ensures NoReply(es, t, i, n) ==> NoReply(es, t, i, n + 1)
  {
  }

  lemma NewAnswer(es: seq<Step>, t: Tid, call: Call, i: nat, n: nat, rv: SaErrorT)
    requires i < n < |es| && es[n] == Reply(t, rv) && NoReply(es, t, i, n) && !call.Root?
    ensures Answered(es, t, call, i, n + 1, rv)
  {
  }

  lemma NoAnswerNeeded(es: seq<Step>, t: Tid, i: nat, n: nat)
    requires n < |es| && !(es[n].Reply? && es[n].t == t) && NoReply(es, t, i, n)
    ensures Answered(es, t, Root, i, n + 1, SA_OK)
  {
  }

  /** The session o, if it is alive afterwards, has the id and the domain it had. */
  ghost predicate SameSession(s: State, s': State, o: Obj) {
    o in s'.heap.objs ==>
      o in s.heap.objs && s'.heap.objs[o].sid == s.heap.objs[o].sid && s'.heap.objs[o].did == s.heap.objs[o].did
  }

  lemma ReleaseSame(s: State, e: Step, o: Obj)
    requires Enabled(s, e) && (e.Release? || e.CloseAllNext?)
    ensures SameSession(s, Apply(s, e), o) && Apply(s, e).hist.bound == s.hist.bound
  {
  }

  lemma OthersSame(s: State, e: Step, o: Obj)
    requires Enabled(s, e) && !e.Release? && !e.CloseAllNext? && !e.AddSession? && (e.OpenBegin? ==> o < s.heap.nextObj)
    ensures SameSession(s, Apply(s, e), o) && Apply(s, e).hist.bound == s.hist.bound
  {
  }

  lemma AddSame(s: State, t: Tid, o: Obj)
    requires AllThreadsOk(s) && Enabled(s, AddSession(t)) && o in s.hist.bound
    ensures SameSession(s, Apply(s, AddSession(t)), o) && o in Apply(s, AddSession(t)).hist.bound
  {
    assert ThreadOk(s, t) && Opens(s.pcs[t], s.pcs[t].obj);
  }

  /** A session that was added keeps its id and stays known. */
  lemma BoundKept(s: State, e: Step, o: Obj, sid: U32)
    requires Inv(s) && Enabled(s, e) && o in s.hist.bound && (o in s.heap.objs ==> s.heap.objs[o].sid == sid)
    ensures o in Apply(s, e).hist.bound
    ensures o in Apply(s, e).heap.objs ==> Apply(s, e).heap.objs[o].sid == sid
  {
    if e.AddSession? {
      AddSame(s, e.t, o);
    } else if e.Release? || e.CloseAllNext? {
      ReleaseSame(s, e, o);
    } else {
      OthersSame(s, e, o);
    }
  }

  /** A lookup on a session that is alive finds its domain. */
  lemma LookupFound(s: State, t: Tid, o: Obj)
    requires DomInv(s) && Enabled(s, Lookup(t)) && s.pcs[t].Calling? && s.pcs[t].obj == o && !s.pcs[t].call.Open?
    requires o in s.heap.objs && o in s.hist.bound
    ensures t in LookupStep(s, t).pcs
    ensures LookupStep(s, t).pcs[t] == if s.pcs[t].call.Root? then Releasing(o, false, SA_OK)
                                       else Calling(o, s.pcs[t].call, Some(s.domains[s.heap.objs[o].did]))
  {
  }

  lemma OwnPhase(s: State, es: seq<Step>, t: Tid, sid: U32, call: Call, o: Obj, i: nat, n: nat)
    requires Inv(s) && DomInv(s) && i < n < |es| && By(es[n], t) && Enabled(s, es[n]) && !call.Open?
    requires Phase(s, es, t, sid, call, o, i, n) && Touched(s, es[n]) <= s.heap.objs.Keys
    requires t in Apply(s, es[n]).pcs && !Apply(s, es[n]).pcs[t].Idle?
    ensures Phase(Apply(s, es[n]), es, t, sid, call, o, i, n + 1)
  {
    BoundKept(s, es[n], o, sid);
    match es[n]
    case Lookup(_) =>
      LookupFound(s, t, o);
      LaterAnswered(es, t, call, i, n, SA_OK);
      if call.Root? { NoAnswerNeeded(es, t, i, n); }
    case Reply(_, rv) => NewAnswer(es, t, call, i, n, rv);
    case _ =>
  }

  lemma PhaseStep(s: State, es: seq<Step>, t: Tid, sid: U32, call: Call, o: Obj, i: nat, n: nat)
    requires Inv(s) && DomInv(s) && i < n < |es| && Enabled(s, es[n]) && !call.Open?
    requires Phase(s, es, t, sid, call, o, i, n)
    requires t in Apply(s, es[n]).pcs && !Apply(s, es[n]).pcs[t].Idle? && !Apply(s, es[n]).fault
    ensures Phase(Apply(s, es[n]), es, t, sid, call, o, i, n + 1)
  {
    if By(es[n], t) {
      OwnPhase(s, es, t, sid, call, o, i, n);
    } else {
      SessionSoundness.OneMoves(s, es[n], t);
      BoundKept(s, es[n], o, sid);
      LaterAnswered(es, t, call, i, n, if s.pcs[t].Releasing? then s.pcs[t].rv else SA_OK);
    }
  }

  lemma PhaseStart(s: State, es: seq<Step>, t: Tid, sid: U32, call: Call, i: nat)
    requires Inv(s) && i < |es| && es[i] == Acquire(t, sid, call) && Enabled(s, es[i]) && sid in s.heap.table
    ensures Phase(Apply(s, es[i]), es, t, sid, call, s.heap.table[sid], i, i + 1) && !Apply(s, es[i]).fault
  {
    assert EntryOk(s, sid);
  }

  /** A state that a further step follows is no fault. */
  lemma NotFaulty(ss: seq<State>, es: seq<Step>, n: nat)
    requires Run(ss, es) && n < |es|
    ensures !ss[n].fault
  {
    StepAt(ss, es, n);
  }

  lemma OpensBelow(ss: seq<State>, es: seq<Step>, n: nat, k: nat)
    requires Run(ss, es) && n <= k < |ss| && ss[k].hist.opens <= TWO32
    ensures ss[n].hist.opens <= TWO32
  {
    RunLater(ss, es, n, k);
  }

  lemma {:induction false} InPhase(ss: seq<State>, es: seq<Step>, t: Tid, sid: U32, call: Call, i: nat, k: nat, n: nat)
    requires CallSpan(ss, es, t, i, k) && es[i] == Acquire(t, sid, call) && sid in ss[i].heap.table && i < n < k
    ensures Phase(ss[n], es, t, sid, call, ss[i].heap.table[sid], i, n)
    decreases n
  {
    OpensBelow(ss, es, n - 1, k);
    RunInv(ss, es, n - 1);
    StepAt(ss, es, n - 1);
    if n == i + 1 {
      PhaseStart(ss[i], es, t, sid, call, i);
    } else {
      InPhase(ss, es, t, sid, call, i, k, n - 1);
      RunDomains(ss, es, n - 1);
      NotFaulty(ss, es, n);
      StepAt(ss, es, i);
      PhaseStep(ss[n - 1], es, t, sid, call, ss[i].heap.table[sid], i, n - 1);
    }
  }

  /** What a step changes of closing releases and table: one closing release of o, under sid, or nothing. */
  ghost predicate Closing(s: State, s': State, o: Obj, sid: U32, closes: bool) {
    && (forall x :: Closes(s'.hist, x) == Closes(s.hist, x) + if closes && x == o then 1 else 0)
    && s'.heap.table == if closes then s.heap.table - {sid} else s.heap.table
  }

  lemma InnerStepCloses(s: State, e: Step, o: Obj, sid: U32)
    requires Enabled(s, e) && (e.Acquire? || e.Lookup? || e.Reply?)
    ensures Closing(s, Apply(s, e), o, sid, false)
  {
  }

  lemma LastStep(s: State, e: Step, es: seq<Step>, t: Tid, sid: U32, call: Call, o: Obj, i: nat, n: nat)
    requires Enabled(s, e) && n < |es| && e == es[n] && Phase(s, es, t, sid, call, o, i, n) && !call.Open? && DomInv(s)
    requires t in Apply(s, e).pcs && Apply(s, e).pcs[t].Idle?
    ensures e == Release(t) && s.pcs[t].Releasing? && o in s.heap.objs && Apply(s, e).pcs[t] == Idle(s.pcs[t].rv)
    ensures Closing(s, Apply(s, e), o, sid, s.pcs[t].closed)
    ensures Answered(es, t, call, i, n + 1, s.pcs[t].rv)
  {
    if !By(e, t) { SessionSoundness.OneMoves(s, e, t); }
    LaterAnswered(es, t, call, i, n, s.pcs[t].rv);
  }

  /** The result of a call. */
  ghost function Result(ss: seq<State>, t: Tid, k: nat): SaErrorT
    requires k < |ss| && t in ss[k].pcs && ss[k].pcs[t].Idle?
  {
    ss[k].pcs[t].rv
  }

  /**
   * Every call on an open session, in any run: it returns what the daemon answered; and of its own steps the last one,
   * for a close that the daemon acknowledged, makes one closing release of the session and takes its id out of the
   * table, and no other does anything of the kind.
   */
  lemma CallReturns(ss: seq<State>, es: seq<Step>, t: Tid, sid: U32, call: Call, i: nat, k: nat)
    requires CallSpan(ss, es, t, i, k) && es[i] == Acquire(t, sid, call) && sid in ss[i].heap.table
    ensures var rv, o := Result(ss, t, k), ss[i].heap.table[sid];
      && Answered(es, t, call, i, k, rv)
      && By(es[k - 1], t)
      && forall n | i <= n < k && By(es[n], t) ::
           Closing(ss[n], ss[n + 1], o, sid, n == k - 1 && call.Close? && rv == SA_OK)
  {
    var o := ss[i].heap.table[sid];
    AfterAcquire(ss, es, t, sid, call, i, k);
    InPhase(ss, es, t, sid, call, i, k, k - 1);
    OpensBelow(ss, es, k - 1, k);
    RunDomains(ss, es, k - 1);
    StepAt(ss, es, k - 1);
    LastStep(ss[k - 1], es[k - 1], es, t, sid, call, o, i, k - 1);
    forall n | i <= n < k && By(es[n], t)
      ensures Closing(ss[n], ss[n + 1], o, sid, n == k - 1 && call.Close? && Result(ss, t, k) == SA_OK)
    {
      StepAt(ss, es, n);
      if n < k - 1 { InnerStep(ss, es, t, sid, call, i, k, n); }
    }
  }

  lemma AfterAcquire(ss: seq<State>, es: seq<Step>, t: Tid, sid: U32, call: Call, i: nat, k: nat)
    requires CallSpan(ss, es, t, i, k) && es[i] == Acquire(t, sid, call) && sid in ss[i].heap.table
    ensures i + 1 < k && !call.Open?
  {
    OpensBelow(ss, es, i, k);
    RunInv(ss, es, i);
    StepAt(ss, es, i);
    PhaseStart(ss[i], es, t, sid, call, i);
  }

  lemma InnerStep(ss: seq<State>, es: seq<Step>, t: Tid, sid: U32, call: Call, i: nat, k: nat, n: nat)
    requires CallSpan(ss, es, t, i, k) && es[i] == Acquire(t, sid, call) && sid in ss[i].heap.table
    requires i <= n < k - 1 && By(es[n], t)
    ensures Closing(ss[n], ss[n + 1], ss[i].heap.table[sid], sid, false)
  {
    StepAt(ss, es, n);
    if n > i {
      InPhase(ss, es, t, sid, call, i, k, n);
      NotFaulty(ss, es, n + 1);
    }
    InnerStepCloses(ss[n], es[n], ss[i].heap.table[sid], sid);
  }

  /** A call on a session id that is not in the table is refused at once and changes nothing. */
  lemma CallRefused(s: State, t: Tid, sid: U32, call: Call)
    requires Enabled(s, Acquire(t, sid, call)) && sid !in s.heap.table
    ensures var s' := Apply(s, Acquire(t, sid, call));
      t in s'.pcs && s'.pcs[t] == Idle(SA_ERR_HPI_INVALID_SESSION) && s'.heap == s.heap && s'.hist == s.hist
  {
  }

  /** Each releasing step of ohc_sess_close_all makes one closing release, of the next session of its snapshot. */
  lemma CloseAllCloses(s: State, t: Tid)
    requires Enabled(s, CloseAllNext(t)) && s.pcs[t].todo[0] in s.heap.objs
    ensures var o := s.pcs[t].todo[0];
      Closing(s, Apply(s, CloseAllNext(t)), o, s.heap.objs[o].sid, true)
  {
  }

  /** ohc_sess_close_all always succeeds. */
  lemma CloseAllReturns(ss: seq<State>, es: seq<Step>, t: Tid, order: seq<Obj>, i: nat, k: nat)
    requires CallSpan(ss, es, t, i, k) && es[i] == CloseAllBegin(t, order)
    ensures Result(ss, t, k) == SA_OK
  {
    StepAt(ss, es, i);
    StepAt(ss, es, k - 1);
    OpensBelow(ss, es, i, k);
    RunInv(ss, es, i);
    SessionSafety.SnapshotLive(ss[i]);
    if k > i + 1 {
      InCloseAll(ss, es, t, order, i, k, k - 1);
      if !By(es[k - 1], t) { SessionSoundness.OneMoves(ss[k - 1], es[k - 1], t); }
    }
  }

  lemma {:induction false} InCloseAll(ss: seq<State>, es: seq<Step>, t: Tid, order: seq<Obj>, i: nat, k: nat, n: nat)
    requires CallSpan(ss, es, t, i, k) && es[i] == CloseAllBegin(t, order) && i < n < k
    ensures ss[n].pcs[t].ClosingAll?
    decreases n
  {
    StepAt(ss, es, n - 1);
    if n > i + 1 {
      InCloseAll(ss, es, t, order, i, k, n - 1);
      if !By(es[n - 1], t) { SessionSoundness.OneMoves(ss[n - 1], es[n - 1], t); }
    }
  }

  // ---------------------------------------------------------------- opening a session

  /** Where the thread is in opening session o on domain did. */
  ghost predicate OpenPhase(s: State, es: seq<Step>, t: Tid, did: U32, o: Obj, i: nat, n: nat)
    requires n <= |es|
  {
    && t in s.pcs && Opens(s.pcs[t], o) && o in s.heap.objs && s.heap.objs[o].did == did
    && match s.pcs[t]
       case Calling(_, _, _) => NoReply(es, t, i, n)
       case Adding(_, _) => RepliesAre(es, t, i, n, SA_OK) && exists j :: i < j < n && es[j] == Reply(t, SA_OK)
       case _ => false
  }

  lemma OpenStart(s: State, es: seq<Step>, t: Tid, did: U32, i: nat)
    requires i < |es| && es[i] == OpenBegin(t, did) && Enabled(s, es[i])
    ensures OpenPhase(Apply(s, es[i]), es, t, did, s.heap.nextObj, i, i + 1)
  {
  }

  /** Only who opens or holds a session can destroy it. */
  lemma OnlyOwnersDestroy(s: State, e: Step, o: Obj)
    requires Enabled(s, e) && o in s.heap.objs
    requires !e.DomainAdd? && e.t in s.pcs ==> !Holds(s.pcs[e.t], o) && !Opens(s.pcs[e.t], o)
    ensures o in Apply(s, e).heap.objs
  {
  }

  lemma OpenedByOne(s: State, t: Tid, u: Tid, o: Obj)
    requires AllThreadsOk(s) && t in s.pcs && u in s.pcs && t != u && Opens(s.pcs[t], o)
    ensures !Holds(s.pcs[u], o) && !Opens(s.pcs[u], o)
  {
    assert ThreadOk(s, t) && ThreadOk(s, u);
  }

  /** Nobody else touches a session that is being opened. */
  lemma OpeningKept(s: State, e: Step, t: Tid, o: Obj)
    requires Inv(s) && Enabled(s, e) && !By(e, t) && t in s.pcs && Opens(s.pcs[t], o) && o in s.heap.objs
    ensures o in Apply(s, e).heap.objs && Apply(s, e).heap.objs[o].did == s.heap.objs[o].did
  {
    if !e.DomainAdd? && e.t in s.pcs { OpenedByOne(s, t, e.t, o); }
    OnlyOwnersDestroy(s, e, o);
    OpeningSame(s, e, o);
  }

  lemma OpeningSame(s: State, e: Step, o: Obj)
    requires IdsOk(s) && Enabled(s, e) && o in s.heap.objs
    ensures o in Apply(s, e).heap.objs ==> Apply(s, e).heap.objs[o].did == s.heap.objs[o].did
  {
    if e.AddSession? {
    } else if e.Release? || e.CloseAllNext? {
      ReleaseSame(s, e, o);
    } else {
      OthersSame(s, e, o);
    }
  }

  lemma OpenStep(s: State, es: seq<Step>, t: Tid, did: U32, o: Obj, i: nat, n: nat)
    requires Inv(s) && i < n < |es| && Enabled(s, es[n]) && OpenPhase(s, es, t, did, o, i, n)
    requires t in Apply(s, es[n]).pcs && !Apply(s, es[n]).pcs[t].Idle?
    ensures OpenPhase(Apply(s, es[n]), es, t, did, o, i, n + 1)
  {
    if !By(es[n], t) {
      SessionSoundness.OneMoves(s, es[n], t);
      OpeningKept(s, es[n], t, o);
    }
  }

  lemma {:induction false} InOpenPhase(ss: seq<State>, es: seq<Step>, t: Tid, did: U32, i: nat, k: nat, n: nat)
    requires CallSpan(ss, es, t, i, k) && es[i] == OpenBegin(t, did) && i < n < k
    ensures OpenPhase(ss[n], es, t, did, ss[i].heap.nextObj, i, n)
    decreases n
  {
    OpensBelow(ss, es, n - 1, k);
    RunInv(ss, es, n - 1);
    StepAt(ss, es, n - 1);
    if n == i + 1 {
      OpenStart(ss[i], es, t, did, i);
    } else {
      InOpenPhase(ss, es, t, did, i, k, n - 1);
      OpenStep(ss[n - 1], es, t, did, ss[i].heap.nextObj, i, n - 1);
    }
  }

  /** The session is in the table, under the next id, on the domain asked for. */
  ghost predicate OpenedOn(s: State, s': State, o: Obj, did: U32) {
    && o in s'.heap.objs && s'.heap.objs[o] == Session(0, did, s.heap.nextSid)
    && s'.heap.table == s.heap.table[s.heap.nextSid := o]
  }

  /** Nothing is left of the session. */
  ghost predicate GivenUp(s: State, s': State, o: Obj) {
    s'.heap.objs == s.heap.objs - {o} && s'.heap.table == s.heap.table
  }

  lemma OpenEnd(s: State, es: seq<Step>, t: Tid, did: U32, o: Obj, i: nat, n: nat)
    requires Inv(s) && i < n < |es| && Enabled(s, es[n]) && OpenPhase(s, es, t, did, o, i, n)
    requires t in Apply(s, es[n]).pcs && Apply(s, es[n]).pcs[t].Idle?
    ensures var s' := Apply(s, es[n]); var rv := s'.pcs[t].rv;
      && RepliesAre(es, t, i, n + 1, rv)
      && (rv == SA_OK ==> OpenedOn(s, s', o, did) && exists j :: i < j < n && es[j] == Reply(t, SA_OK))
      && (rv != SA_OK ==> GivenUp(s, s', o))
      && (rv != SA_OK ==> es[n] == Reply(t, rv)
                          || (es[n] == Lookup(t) && did !in s.domains && rv == SA_ERR_HPI_INVALID_DOMAIN))
  {
    if !By(es[n], t) { SessionSoundness.OneMoves(s, es[n], t); }
    assert ThreadOk(s, t) && ObjOk(s, o);
  }

  /**
   * Every ohc_sess_open, in any run: it succeeds exactly if the daemon acknowledges, and then the session is in the
   * table under the next id, unreferenced and on the domain asked for. Otherwise nothing is left of it, and it returns
   * what the daemon answered, or an invalid domain if the domain was not in the table.
   */
  lemma OpenReturns(ss: seq<State>, es: seq<Step>, t: Tid, did: U32, i: nat, k: nat)
    requires CallSpan(ss, es, t, i, k) && es[i] == OpenBegin(t, did)
    ensures var rv, o, s := Result(ss, t, k), ss[i].heap.nextObj, ss[k - 1];
      && RepliesAre(es, t, i, k, rv)
      && (rv == SA_OK <==> exists j :: i < j < k && es[j] == Reply(t, SA_OK))
      && (rv == SA_OK ==> OpenedOn(s, ss[k], o, did))
      && (rv != SA_OK ==> GivenUp(s, ss[k], o))
      && (rv != SA_OK ==> es[k - 1] == Reply(t, rv)
                          || (es[k - 1] == Lookup(t) && did !in s.domains && rv == SA_ERR_HPI_INVALID_DOMAIN))
  {
    StepAt(ss, es, i);
    OpenStart(ss[i], es, t, did, i);
    InOpenPhase(ss, es, t, did, i, k, k - 1);
    OpensBelow(ss, es, k - 1, k);
    RunInv(ss, es, k - 1);
    StepAt(ss, es, k - 1);
    OpenEnd(ss[k - 1], es, t, did, ss[i].heap.nextObj, i, k - 1);
  }
}
