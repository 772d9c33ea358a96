/**
 * When no call ever touches a destroyed session. The counter protocol tolerates one closing release
 * per session; two that overlap a third user destroy the session under that user.
 */
module SessionSafety {
  import opened Hpi
  import opened DomainTable
  import opened SessionState
  import opened SessionInvariant

  // ---------------------------------------------------------------- exactly when a release is safe

  ghost predicate AllRefsLive(s: State) {
    forall t, o | t in s.pcs && Holds(s.pcs[t], o) :: o in s.heap.objs
  }

  /**
   * A release of o leaves every remaining reference alive exactly when nobody is left or the
   * closing releases so far do not outnumber those left.
   */
  lemma UnrefSafeIff(s: State, t: Tid, o: Obj, closed: bool, pc: Pc)
    requires Inv(s) && AllRefsLive(s) && t in s.pcs && o in s.heap.objs && o in s.hist.bound && LetsGo(s.pcs[t], pc, o)
    ensures var s' := UnrefStep(s, t, o, closed, pc);
      AllRefsLive(s') <==> Holders(s'.pcs, o) == {} || Closes(s'.hist, o) <= |Holders(s'.pcs, o)|
  {
    var s' := UnrefStep(s, t, o, closed, pc);
    assert ObjOk(s, o);
    HoldersCount(s.pcs, t, pc, o);
    assert o in s'.heap.objs <==> Closes(s'.hist, o) <= |Holders(s'.pcs, o)|;
    forall u, x | u in s'.pcs && Holds(s'.pcs[u], x)
      ensures if x == o then Holders(s'.pcs, o) != {} else x in s'.heap.objs
    {
      if x == o { assert u in Holders(s'.pcs, o); } else { assert Holds(s.pcs[u], x); }
    }
    if Holders(s'.pcs, o) != {} {
      var u :| u in Holders(s'.pcs, o);
      assert u in s'.pcs && Holds(s'.pcs[u], o);
    }
  }

  // ---------------------------------------------------------------- one closing release per session

  /** The thread is inside ohc_sess_close with a reference, or inside ohc_sess_close_all. */
  ghost predicate ClosingNow(pc: Pc) {
    (pc.Calling? && pc.call.Close?) || (pc.Releasing? && pc.closed) || pc.ClosingAll?
  }

  /** The thread waits for the daemon's answer to a close of o. */
  ghost predicate Asking(pc: Pc, o: Obj) {
    pc.Calling? && pc.call.Close? && pc.obj == o
  }

  /** The daemon has acknowledged the thread's close of o. */
  ghost predicate AckedClose(pc: Pc, o: Obj) {
    pc.Releasing? && pc.closed && pc.obj == o
  }

  /** The thread is going to make a closing release of o. */
  ghost predicate Pending(pc: Pc, o: Obj) {
    AckedClose(pc, o) || (pc.ClosingAll? && o in pc.todo)
  }

  /** The condition on callers: ohc_sess_close_all does not overlap another close. */
  ghost predicate CloseAllAlone(s: State, e: Step)
    requires Enabled(s, e)
  {
    match e
    case CloseAllBegin(_, _) => forall u | u in s.pcs :: !ClosingNow(s.pcs[u])
    case Acquire(_, _, call) => call.Close? ==> forall u | u in s.pcs :: !s.pcs[u].ClosingAll?
    case _ => true
  }

  /** The condition on the daemon: it acknowledges the close of a session once. */
  ghost predicate AckedOnce(s: State, e: Step)
    requires Enabled(s, e)
  {
    match e
    case Reply(t, rv) => s.pcs[t].call.Close? && rv == SA_OK ==> s.pcs[t].obj !in s.hist.acked
    case _ => true
  }

  ghost predicate Disciplined(s: State, e: Step)
    requires Enabled(s, e)
  {
    CloseAllAlone(s, e) && AckedOnce(s, e)
  }

  ghost predicate Exclusive(pcs: map<Tid, Pc>) {
    forall t, u | t in pcs && u in pcs && t != u && pcs[t].ClosingAll? :: !ClosingNow(pcs[u])
  }

  ghost predicate PendingOnce(pcs: map<Tid, Pc>) {
    forall t, u, o | t in pcs && u in pcs && t != u && Pending(pcs[t], o) :: !Pending(pcs[u], o)
  }

  /** A closing release to come is the session's first, and the daemon's answers are accounted for. */
  ghost predicate ThreadSingle(pc: Pc, hist: History) {
    && (forall o | Pending(pc, o) :: Closes(hist, o) == 0)
    && (forall o | AckedClose(pc, o) :: o in hist.acked)
    && (forall o | Asking(pc, o) && Closes(hist, o) > 0 :: o in hist.acked)
  }

  ghost predicate Single(s: State) {
    && Exclusive(s.pcs)
    && PendingOnce(s.pcs)
    && (forall t | t in s.pcs :: ThreadSingle(s.pcs[t], s.hist))
    && (forall o | o in s.hist.closes :: s.hist.closes[o] <= 1)
  }

  /** A destroyed session has been closed and nobody holds it. */
  ghost predicate DestroyedOk(s: State) {
    forall o | o in s.hist.bound && o !in s.heap.objs :: Closes(s.hist, o) == 1 && Holders(s.pcs, o) == {}
  }

  ghost predicate SafeInv(s: State) {
    Inv(s) && Single(s) && DestroyedOk(s) && !s.fault
  }

  lemma InitSafe(s: State)
    requires Init(s)
    ensures SafeInv(s)
  {
    InitInv(s);
  }

  /** An added session is gone exactly when it has been closed and its last holder has released it. */
  lemma DestroyedIff(s: State, o: Obj)
    requires SafeInv(s) && o in s.hist.bound
    ensures o !in s.heap.objs <==> Closes(s.hist, o) == 1 && Holders(s.pcs, o) == {}
    ensures Closes(s.hist, o) <= 1
  {
    if o in s.heap.objs { assert ObjOk(s, o); }
  }

  lemma RefsLive(s: State)
    requires SafeInv(s)
    ensures AllRefsLive(s)
  {
    forall t, o | t in s.pcs && Holds(s.pcs[t], o) ensures o in s.heap.objs {
      assert ThreadOk(s, t);
      assert t in Holders(s.pcs, o);
    }
  }

  /** While every reference is alive, no step touches a destroyed object. */
  lemma LiveNoFault(s: State, e: Step)
    requires Inv(s) && AllRefsLive(s) && !s.fault && Enabled(s, e)
    ensures Touched(s, e) <= s.heap.objs.Keys && !Apply(s, e).fault
  {
    match e
    case OpenBegin(_, _) =>
    case Lookup(t) =>
      assert ThreadOk(s, t);
      if s.pcs[t].Calling? { HoldsOrOpens(s, t); } else { assert Holds(s.pcs[t], s.pcs[t].todo[0]); }
    case Reply(t, _) => HoldsOrOpens(s, t);
    case AddSession(t) => HoldsOrOpens(s, t);
    case Acquire(_, sid, _) => if sid in s.heap.table { assert EntryOk(s, sid); }
    case Release(t) => assert Holds(s.pcs[t], s.pcs[t].obj);
    case CloseAllBegin(t, order) => SnapshotLive(s);
    case CloseAllNext(t) => assert Holds(s.pcs[t], s.pcs[t].todo[0]);
    case DomainAdd(_) =>
  }

  lemma SnapshotLive(s: State)
    requires Inv(s)
    ensures s.heap.table.Values <= s.heap.objs.Keys
  {
    forall o | o in s.heap.table.Values ensures o in s.heap.objs { TableValuesOk(s, o); }
  }

  /** No step touches a destroyed object. */
  lemma NoFault(s: State, e: Step)
    requires SafeInv(s) && Enabled(s, e)
    ensures Touched(s, e) <= s.heap.objs.Keys && !Apply(s, e).fault
  {
    RefsLive(s);
    LiveNoFault(s, e);
  }

  lemma HoldsOrOpens(s: State, t: Tid)
    requires Inv(s) && AllRefsLive(s) && t in s.pcs && (s.pcs[t].Calling? || s.pcs[t].Adding?)
    ensures s.pcs[t].obj in s.heap.objs
  {
    assert ThreadOk(s, t);
    assert Holds(s.pcs[t], s.pcs[t].obj) || Opens(s.pcs[t], s.pcs[t].obj);
  }

  // ---------------------------------------------------------------- the discipline is kept

  /** pc' brings no closing activity that pc did not have. */
  ghost predicate CalmerThan(pc': Pc, pc: Pc) {
    && (ClosingNow(pc') ==> ClosingNow(pc))
    && (pc'.ClosingAll? ==> pc.ClosingAll?)
    && (forall o | Pending(pc', o) :: Pending(pc, o))
    && (forall o | AckedClose(pc', o) :: AckedClose(pc, o))
    && (forall o | Asking(pc', o) :: Asking(pc, o))
  }

  lemma CalmStep(s: State, s': State, t: Tid, pc: Pc)
    requires Single(s) && t in s.pcs && s'.pcs == s.pcs[t := pc] && CalmerThan(pc, s.pcs[t])
    requires s'.hist.closes == s.hist.closes && s.hist.acked <= s'.hist.acked
    ensures Single(s')
  {
    assert ThreadSingle(s.pcs[t], s.hist);
  }

  lemma AckStep(s: State, t: Tid)
    requires Single(s) && Enabled(s, Reply(t, SA_OK)) && s.pcs[t].call.Close? && s.pcs[t].obj !in s.hist.acked
    ensures Single(ReplyStep(s, t, SA_OK))
  {
    var s' := ReplyStep(s, t, SA_OK);
    var o := s.pcs[t].obj;
    assert Asking(s.pcs[t], o) && ClosingNow(s.pcs[t]);
    forall u | u in s'.pcs ensures ThreadSingle(s'.pcs[u], s'.hist) {
      assert ThreadSingle(s.pcs[u], s.hist);
    }
    forall u | u in s.pcs && u != t ensures !Pending(s.pcs[u], o) {
      assert ThreadSingle(s.pcs[u], s.hist);
    }
  }

  lemma AskStep(s: State, s': State, t: Tid, o: Obj)
    requires Single(s) && t in s.pcs && s'.pcs == s.pcs[t := Calling(o, Close, None)] && s'.hist == s.hist
    requires Closes(s.hist, o) == 0 && forall u | u in s.pcs :: !s.pcs[u].ClosingAll?
    ensures Single(s')
  {
  }

  lemma CloseAllStep(s: State, s': State, t: Tid, order: seq<Obj>)
    requires Single(s) && t in s.pcs && s'.pcs == s.pcs[t := ClosingAll([], order, None)] && s'.hist == s.hist
    requires (forall o | o in order :: Closes(s.hist, o) == 0) && forall u | u in s.pcs :: !ClosingNow(s.pcs[u])
    ensures Single(s')
  {
    forall u | u in s'.pcs ensures ThreadSingle(s'.pcs[u], s'.hist) {
      assert ThreadSingle(s.pcs[u], s.hist);
    }
  }

  lemma ClosingReleaseStep(s: State, s': State, t: Tid, o: Obj, pc: Pc)
    requires Single(s) && t in s.pcs && Pending(s.pcs[t], o)
    requires s'.pcs == s.pcs[t := pc] && s'.hist == CountClose(s.hist, o, true)
    requires CalmerThan(pc, s.pcs[t]) && !Pending(pc, o)
    ensures Single(s')
  {
    assert ThreadSingle(s.pcs[t], s.hist);
    forall u | u in s'.pcs ensures ThreadSingle(s'.pcs[u], s'.hist) {
      assert ThreadSingle(s.pcs[u], s.hist);
      if u != t {
        assert !Pending(s.pcs[u], o);
        assert Asking(s.pcs[u], o) ==> ClosingNow(s.pcs[u]);
      }
    }
  }

  lemma UnrefSingle(s: State, t: Tid, o: Obj, closed: bool, pc: Pc)
    requires Single(s) && t in s.pcs && o in s.heap.objs && CalmerThan(pc, s.pcs[t])
    requires closed ==> Pending(s.pcs[t], o) && !Pending(pc, o)
    ensures Single(UnrefStep(s, t, o, closed, pc))
  {
    var s' := UnrefStep(s, t, o, closed, pc);
    if closed {
      ClosingReleaseStep(s, s', t, o, pc);
    } else {
      CalmStep(s, s', t, pc);
    }
  }

  lemma AfterCloseAllCalmer(s: State, t: Tid)
    requires t in s.pcs && ThreadOk(s, t) && s.pcs[t].ClosingAll? && s.pcs[t].todo != []
    ensures var pc := AfterCloseAll(s.pcs[t]); CalmerThan(pc, s.pcs[t]) && !Pending(pc, s.pcs[t].todo[0])
  {
    CloseAllLetsGo(s, t);
    assert forall o | o in s.pcs[t].todo[1..] :: o in s.pcs[t].todo;
    var pc := AfterCloseAll(s.pcs[t]);
    assert forall o :: Pending(pc, o) ==> Holds(pc, o);
  }

  lemma LookupSingle(s: State, t: Tid)
    requires Single(s) && Enabled(s, Lookup(t)) && Touched(s, Lookup(t)) <= s.heap.objs.Keys
    ensures Single(LookupStep(s, t))
  {
    var s' := LookupStep(s, t);
    CalmStep(s, s', t, s'.pcs[t]);
  }

  lemma ReplySingle(s: State, t: Tid, rv: SaErrorT)
    requires Single(s) && Enabled(s, Reply(t, rv)) && Disciplined(s, Reply(t, rv))
    ensures Single(ReplyStep(s, t, rv))
  {
    var s' := ReplyStep(s, t, rv);
    if s.pcs[t].call.Close? && rv == SA_OK { AckStep(s, t); } else { CalmStep(s, s', t, s'.pcs[t]); }
  }

  lemma AcquireSingle(s: State, t: Tid, sid: U32, call: Call)
    requires Inv(s) && Single(s) && t in s.pcs && s.pcs[t].Idle? && sid in s.heap.table
    requires s.heap.table[sid] in s.heap.objs
    requires !call.Open? && (call.Close? ==> forall u | u in s.pcs :: !s.pcs[u].ClosingAll?)
    ensures Single(Acquired(s, t, sid, call))
  {
    var s' := Acquired(s, t, sid, call);
    if call.Close? {
      TableValuesOk(s, s.heap.table[sid]);
      AskStep(s, s', t, s.heap.table[sid]);
    } else {
      CalmStep(s, s', t, s'.pcs[t]);
    }
  }

  lemma CloseAllSingle(s: State, t: Tid, order: seq<Obj>)
    requires Inv(s) && Single(s) && t in s.pcs && s.pcs[t].Idle? && ListsValues(order, s.heap.table)
    requires forall u | u in s.pcs :: !ClosingNow(s.pcs[u])
    ensures Single(CloseAllStarted(s, t, order))
  {
    var s' := CloseAllStarted(s, t, order);
    if order == [] {
      CalmStep(s, s', t, s'.pcs[t]);
    } else {
      forall o | o in order ensures Closes(s.hist, o) == 0 { TableValuesOk(s, o); }
      CloseAllStep(s, s', t, order);
    }
  }

  lemma AcquireStepSingle(s: State, t: Tid, sid: U32, call: Call)
    requires Inv(s) && Single(s) && Enabled(s, Acquire(t, sid, call)) && Disciplined(s, Acquire(t, sid, call))
    ensures Single(Apply(s, Acquire(t, sid, call)))
  {
    if sid in s.heap.table {
      assert EntryOk(s, sid);
      AcquireSingle(s, t, sid, call);
    } else {
      CalmStep(s, Apply(s, Acquire(t, sid, call)), t, Idle(SA_ERR_HPI_INVALID_SESSION));
    }
  }

  lemma CloseAllNextSingle(s: State, t: Tid)
    requires Inv(s) && Single(s) && Enabled(s, CloseAllNext(t)) && s.pcs[t].todo[0] in s.heap.objs
    ensures Single(UnrefStep(s, t, s.pcs[t].todo[0], true, AfterCloseAll(s.pcs[t])))
  {
    assert ThreadOk(s, t);
    AfterCloseAllCalmer(s, t);
    UnrefSingle(s, t, s.pcs[t].todo[0], true, AfterCloseAll(s.pcs[t]));
  }

  /** Steps that close nothing: the caller's part of the discipline is not needed for them. */
  lemma PlainStepSingle(s: State, e: Step)
    requires Single(s) && Enabled(s, e) && Touched(s, e) <= s.heap.objs.Keys
    requires e.OpenBegin? || e.Lookup? || e.AddSession? || e.DomainAdd?
    ensures Single(Apply(s, e))
  {
    match e
    case OpenBegin(t, did) => CalmStep(s, Opened(s, t, did), t, Calling(s.heap.nextObj, Open, None));
    case Lookup(t) => LookupSingle(s, t);
    case AddSession(t) => CalmStep(s, AddStep(s, t), t, Idle(SA_OK));
    case DomainAdd(_) =>
  }

  lemma StepSingle(s: State, e: Step)
    requires Inv(s) && Single(s) && Enabled(s, e) && Disciplined(s, e) && Touched(s, e) <= s.heap.objs.Keys
    ensures Single(Apply(s, e))
  {
    match e
    case Reply(t, rv) => ReplySingle(s, t, rv);
    case Acquire(t, sid, call) => AcquireStepSingle(s, t, sid, call);
    case Release(t) => UnrefSingle(s, t, s.pcs[t].obj, s.pcs[t].closed, Idle(s.pcs[t].rv));
    case CloseAllBegin(t, order) => CloseAllSingle(s, t, order);
    case CloseAllNext(t) => CloseAllNextSingle(s, t);
    case _ => PlainStepSingle(s, e);
  }

  // ---------------------------------------------------------------- who is destroyed when

  /** A release destroys the session exactly if it was, or is, the closing one and nobody else holds it. */
  lemma UnrefDestroys(s: State, t: Tid, o: Obj, closed: bool, pc: Pc)
    requires AllObjsOk(s) && t in s.pcs && o in s.heap.objs && o in s.hist.bound && LetsGo(s.pcs[t], pc, o)
    requires Closes(CountClose(s.hist, o, closed), o) <= 1
    ensures var s' := UnrefStep(s, t, o, closed, pc);
      o !in s'.heap.objs <==> Closes(s'.hist, o) == 1 && Holders(s.pcs, o) == {t}
    ensures Holders(s.pcs, o) == {t} <==> Holders(UnrefStep(s, t, o, closed, pc).pcs, o) == {}
  {
    assert ObjOk(s, o);
    HoldersCount(s.pcs, t, pc, o);
    HoldersUpdate(s.pcs, t, pc, o);
    assert t in Holders(s.pcs, o);
  }

  lemma UnrefDestroyedOk(s: State, t: Tid, o: Obj, closed: bool, pc: Pc)
    requires AllObjsOk(s) && DestroyedOk(s) && t in s.pcs && o in s.heap.objs && o in s.hist.bound
    requires LetsGo(s.pcs[t], pc, o)
    requires Closes(CountClose(s.hist, o, closed), o) <= 1
    ensures DestroyedOk(UnrefStep(s, t, o, closed, pc))
  {
    var s' := UnrefStep(s, t, o, closed, pc);
    UnrefDestroys(s, t, o, closed, pc);
    forall x | x in s'.hist.bound && x !in s'.heap.objs ensures Closes(s'.hist, x) == 1 && Holders(s'.pcs, x) == {} {
      HoldersUpdate(s.pcs, t, pc, x);
    }
  }

  /** The other steps destroy no session that was ever in the table. */
  lemma OthersDestroyNothing(s: State, s': State, t: Tid, pc: Pc)
    requires DestroyedOk(s) && t in s.pcs && s'.pcs == s.pcs[t := pc] && s'.hist.closes == s.hist.closes
    requires forall o | o in s'.hist.bound && o !in s'.heap.objs :: o in s.hist.bound && o !in s.heap.objs
    requires forall o | Holds(pc, o) :: o in s'.heap.objs
    ensures DestroyedOk(s')
  {
    forall o | o in s'.hist.bound && o !in s'.heap.objs ensures Holders(s'.pcs, o) == {} {
      HoldersUpdate(s.pcs, t, pc, o);
    }
  }

  lemma LookupDestroysNothing(s: State, t: Tid)
    requires DestroyedOk(s) && AllRefsLive(s) && Enabled(s, Lookup(t)) && ThreadOk(s, t)
    requires Touched(s, Lookup(t)) <= s.heap.objs.Keys
    ensures DestroyedOk(LookupStep(s, t))
  {
    var s' := LookupStep(s, t);
    assert forall o | Holds(s'.pcs[t], o) :: Holds(s.pcs[t], o);
    OthersDestroyNothing(s, s', t, s'.pcs[t]);
  }

  lemma ReplyDestroysNothing(s: State, t: Tid, rv: SaErrorT)
    requires DestroyedOk(s) && AllRefsLive(s) && Enabled(s, Reply(t, rv)) && ThreadOk(s, t)
    ensures DestroyedOk(ReplyStep(s, t, rv))
  {
    var s' := ReplyStep(s, t, rv);
    assert forall o | Holds(s'.pcs[t], o) :: Holds(s.pcs[t], o);
    OthersDestroyNothing(s, s', t, s'.pcs[t]);
  }

  lemma StepDestroyedOk(s: State, e: Step)
    requires Inv(s) && DestroyedOk(s) && AllRefsLive(s) && Enabled(s, e) && Touched(s, e) <= s.heap.objs.Keys
    requires Single(Apply(s, e))
    ensures DestroyedOk(Apply(s, e))
  {
    match e
    case OpenBegin(t, did) => OthersDestroyNothing(s, Opened(s, t, did), t, Calling(s.heap.nextObj, Open, None));
    case Lookup(t) => assert ThreadOk(s, t); LookupDestroysNothing(s, t);
    case Reply(t, rv) => assert ThreadOk(s, t); ReplyDestroysNothing(s, t, rv);
    case AddSession(t) => OthersDestroyNothing(s, AddStep(s, t), t, Idle(SA_OK));
    case Acquire(t, sid, call) => OthersDestroyNothing(s, Apply(s, e), t, Apply(s, e).pcs[t]);
    case Release(t) =>
      assert ThreadOk(s, t) && Holds(s.pcs[t], s.pcs[t].obj);
      UnrefDestroyedOk(s, t, s.pcs[t].obj, s.pcs[t].closed, Idle(s.pcs[t].rv));
    case CloseAllBegin(t, order) =>
      forall o | o in s.heap.table.Values ensures o in s.heap.objs { TableValuesOk(s, o); }
      OthersDestroyNothing(s, CloseAllStarted(s, t, order), t, CloseAllStarted(s, t, order).pcs[t]);
    case CloseAllNext(t) =>
      assert ThreadOk(s, t) && Holds(s.pcs[t], s.pcs[t].todo[0]);
      CloseAllLetsGo(s, t);
      UnrefDestroyedOk(s, t, s.pcs[t].todo[0], true, AfterCloseAll(s.pcs[t]));
    case DomainAdd(_) =>
  }

  lemma StepSafe(s: State, e: Step)
    requires SafeInv(s) && Enabled(s, e) && Disciplined(s, e) && Apply(s, e).hist.opens <= TWO32
    ensures SafeInv(Apply(s, e))
  {
    NoFault(s, e);
    RefsLive(s);
    StepInv(s, e);
    StepSingle(s, e);
    StepDestroyedOk(s, e);
  }
}
