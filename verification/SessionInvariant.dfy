/** The invariant of every interleaving: each counter is the references held minus the closing releases. */
module SessionInvariant {
  import opened Hpi
  import opened DomainTable
  import opened SessionState

  /** pc is between taking a reference to o and releasing it. */
  ghost predicate Holds(pc: Pc, o: Obj) {
    match pc
    case Idle(_) => false
    case Calling(obj, call, _) => !call.Open? && obj == o
    case Adding(_, _) => false
    case Releasing(obj, _, _) => obj == o
    case ClosingAll(_, todo, _) => o in todo
  }

  /** pc is opening o, which no other thread knows yet. */
  ghost predicate Opens(pc: Pc, o: Obj) {
    (pc.Calling? && pc.call.Open? && pc.obj == o) || (pc.Adding? && pc.obj == o)
  }

  ghost function Holders(pcs: map<Tid, Pc>, o: Obj): set<Tid> {
    set t | t in pcs && Holds(pcs[t], o)
  }

  lemma HoldersUpdate(pcs: map<Tid, Pc>, t: Tid, pc: Pc, o: Obj)
    ensures Holders(pcs[t := pc], o) == if Holds(pc, o) then Holders(pcs, o) + {t} else Holders(pcs, o) - {t}
  {
  }

  /** A step of t changes the number of references to o by what t's program counter gains or loses. */
  lemma HoldersCount(pcs: map<Tid, Pc>, t: Tid, pc: Pc, o: Obj)
    requires t in pcs
    ensures |Holders(pcs[t := pc], o)|
         == |Holders(pcs, o)| + (if Holds(pc, o) then 1 else 0) - (if Holds(pcs[t], o) then 1 else 0)
  {
    HoldersUpdate(pcs, t, pc, o);
    var before := Holders(pcs, o);
    if Holds(pcs[t], o) {
      assert t in before && |before - {t}| == |before| - 1;
      assert before + {t} == before;
    } else {
      assert t !in before && before - {t} == before;
    }
  }

  /** sid has been given to one of the first opens sessions. */
  ghost predicate Issued(sid: U32, opens: nat) {
    1 <= sid <= opens || TWO32 <= opens
  }

  /** A live session that has been in the table. */
  ghost predicate AddedOk(s: State, o: Obj)
    requires o in s.heap.objs
  {
    var x := s.heap.objs[o];
    && 0 <= x.refCnt == |Holders(s.pcs, o)| - Closes(s.hist, o)
    && Issued(x.sid, s.hist.opens)
    && (Closes(s.hist, o) == 0 <==> x.sid in s.heap.table)
    && (x.sid in s.heap.table ==> s.heap.table[x.sid] == o)
  }

  /** A live session whose opening has not finished: one thread is at it. */
  ghost predicate OpeningOk(s: State, o: Obj)
    requires o in s.heap.objs
  {
    && s.heap.objs[o].refCnt == 0
    && o in s.hist.creator && s.hist.creator[o] in s.pcs && Opens(s.pcs[s.hist.creator[o]], o)
  }

  ghost predicate ObjOk(s: State, o: Obj)
    requires o in s.heap.objs
  {
    if o in s.hist.bound then AddedOk(s, o) else OpeningOk(s, o)
  }

  ghost predicate EntryOk(s: State, sid: U32)
    requires sid in s.heap.table
  {
    var o := s.heap.table[sid];
    o in s.heap.objs && o in s.hist.bound && s.heap.objs[o].sid == sid
  }

  /** What a thread refers to: added sessions through references, and at most one session it is opening. */
  ghost predicate ThreadOk(s: State, t: Tid)
    requires t in s.pcs
  {
    var pc := s.pcs[t];
    && (forall o | Holds(pc, o) :: o in s.hist.bound)
    && (forall o | Opens(pc, o) ::
          o in s.heap.objs && o !in s.hist.bound && o in s.hist.creator && s.hist.creator[o] == t)
    && (pc.ClosingAll? ==> Distinct(pc.done + pc.todo) && forall o | o in pc.done :: Closes(s.hist, o) > 0)
  }

  ghost predicate IdsOk(s: State) {
    && (forall o | o in s.heap.objs :: o < s.heap.nextObj)
    && (forall o | o in s.hist.bound :: o < s.heap.nextObj)
    && (forall o | o in s.hist.closes :: o in s.hist.bound)
    && s.heap.nextSid == (1 + s.hist.opens) % TWO32
  }

  ghost predicate AllObjsOk(s: State) {
    forall o | o in s.heap.objs :: ObjOk(s, o)
  }

  ghost predicate AllEntriesOk(s: State) {
    forall sid | sid in s.heap.table :: EntryOk(s, sid)
  }

  ghost predicate AllThreadsOk(s: State) {
    forall t | t in s.pcs :: ThreadOk(s, t)
  }

  ghost predicate Inv(s: State) {
    IdsOk(s) && AllObjsOk(s) && AllEntriesOk(s) && AllThreadsOk(s)
  }

  lemma InitInv(s: State)
    requires Init(s)
    ensures Inv(s)
  {
  }

  // ---------------------------------------------------------------- steps that leave the heap alone

  /** A step of t that touches neither heap nor holdings keeps everybody else's facts. */
  lemma QuietStep(s: State, t: Tid, pc: Pc, acked: set<Obj>)
    requires Inv(s) && t in s.pcs
    requires forall o :: Holds(pc, o) <==> Holds(s.pcs[t], o)
    requires forall o :: Opens(pc, o) <==> Opens(s.pcs[t], o)
    requires pc.ClosingAll? ==> s.pcs[t].ClosingAll? && pc.done == s.pcs[t].done && pc.todo == s.pcs[t].todo
    ensures Inv(SetPc(s.(hist := s.hist.(acked := acked)), t, pc))
  {
    var s' := SetPc(s.(hist := s.hist.(acked := acked)), t, pc);
    forall o | o in s'.heap.objs ensures ObjOk(s', o) {
      HoldersCount(s.pcs, t, pc, o);
      assert ObjOk(s, o);
    }
    forall sid | sid in s'.heap.table ensures EntryOk(s', sid) { assert EntryOk(s, sid); }
    forall u | u in s'.pcs ensures ThreadOk(s', u) { assert ThreadOk(s, u); assert ThreadOk(s, t); }
  }

  /** Giving up an opening removes an object nobody else refers to. */
  lemma AbandonStep(s: State, t: Tid, o: Obj, rv: SaErrorT)
    requires Inv(s) && t in s.pcs && Opens(s.pcs[t], o)
    ensures Inv(Abandon(s, t, o, rv))
  {
    var s' := Abandon(s, t, o, rv);
    assert ThreadOk(s, t);
    forall x | x in s'.heap.objs ensures ObjOk(s', x) {
      HoldersCount(s.pcs, t, Idle(rv), x);
      assert ObjOk(s, x);
    }
    forall sid | sid in s'.heap.table ensures EntryOk(s', sid) { assert EntryOk(s, sid); }
    forall u | u in s'.pcs ensures ThreadOk(s', u) { assert ThreadOk(s, u); }
  }

  // ---------------------------------------------------------------- opening

  ghost function Opened(s: State, t: Tid, did: U32): State {
    var (h, o) := Create(s.heap, did);
    SetPc(s.(heap := h, hist := s.hist.(creator := s.hist.creator[o := t])), t, Calling(o, Open, None))
  }

  lemma OpenBeginKeepsObjs(s: State, t: Tid, did: U32)
    requires IdsOk(s) && AllObjsOk(s) && t in s.pcs && s.pcs[t].Idle?
    ensures AllObjsOk(Opened(s, t, did))
  {
    var s' := Opened(s, t, did);
    forall x | x in s'.heap.objs ensures ObjOk(s', x) {
      HoldersCount(s.pcs, t, s'.pcs[t], x);
      if x != s.heap.nextObj { assert ObjOk(s, x); }
    }
  }

  lemma OpenBeginKeepsRest(s: State, t: Tid, did: U32)
    requires IdsOk(s) && AllEntriesOk(s) && AllThreadsOk(s) && t in s.pcs && s.pcs[t].Idle?
    ensures var s' := Opened(s, t, did); IdsOk(s') && AllEntriesOk(s') && AllThreadsOk(s')
  {
    var s' := Opened(s, t, did);
    forall sid | sid in s'.heap.table ensures EntryOk(s', sid) { assert EntryOk(s, sid); }
    forall u | u in s'.pcs ensures ThreadOk(s', u) { assert ThreadOk(s, u); }
  }

  /** The sid a session gets is new as long as fewer than 2^32 were given out. */
  lemma FreshSid(s: State)
    requires IdsOk(s) && s.hist.opens < TWO32
    ensures !Issued(s.heap.nextSid, s.hist.opens) && Issued(s.heap.nextSid, s.hist.opens + 1)
  {
  }

  /** The session being added is unknown to the table, to the counters and to every other thread. */
  lemma AddedIsNew(s: State, t: Tid)
    requires Inv(s) && Enabled(s, AddSession(t)) && s.hist.opens < TWO32
    ensures var o := s.pcs[t].obj;
      && o in s.heap.objs && o !in s.hist.bound && s.heap.objs[o].refCnt == 0
      && Holders(s.pcs, o) == {} && Closes(s.hist, o) == 0
    ensures s.heap.nextSid !in s.heap.table
  {
    var o := s.pcs[t].obj;
    assert ThreadOk(s, t) && Opens(s.pcs[t], o);
    assert ObjOk(s, o);
    forall u | u in s.pcs ensures !Holds(s.pcs[u], o) { assert ThreadOk(s, u); }
    FreshSid(s);
    forall sid | sid in s.heap.table ensures sid != s.heap.nextSid {
      assert EntryOk(s, sid) && ObjOk(s, s.heap.table[sid]);
    }
  }

  lemma AddSessionKeepsObjs(s: State, t: Tid)
    requires Inv(s) && Enabled(s, AddSession(t)) && s.hist.opens < TWO32 && s.pcs[t].obj in s.heap.objs
    ensures AllObjsOk(AddStep(s, t))
  {
    var s' := AddStep(s, t);
    AddedIsNew(s, t);
    FreshSid(s);
    forall x | x in s'.heap.objs ensures ObjOk(s', x) {
      HoldersCount(s.pcs, t, Idle(SA_OK), x);
      assert ObjOk(s, x);
    }
  }

  lemma AddSessionKeepsEntries(s: State, t: Tid)
    requires AllEntriesOk(s) && IdsOk(s) && Enabled(s, AddSession(t)) && s.pcs[t].obj in s.heap.objs
    requires s.pcs[t].obj !in s.hist.bound && s.heap.nextSid !in s.heap.table
    ensures AllEntriesOk(AddStep(s, t)) && IdsOk(AddStep(s, t))
  {
    var s' := AddStep(s, t);
    forall k | k in s'.heap.table ensures EntryOk(s', k) {
      if k != s.heap.nextSid { assert EntryOk(s, k); }
    }
  }

  lemma AddSessionKeepsThreads(s: State, t: Tid)
    requires AllThreadsOk(s) && Enabled(s, AddSession(t)) && s.pcs[t].obj in s.heap.objs
    ensures AllThreadsOk(AddStep(s, t))
  {
    var s' := AddStep(s, t);
    assert ThreadOk(s, t) && Opens(s.pcs[t], s.pcs[t].obj);
    forall u | u in s'.pcs ensures ThreadOk(s', u) { assert ThreadOk(s, u); }
  }

  // ---------------------------------------------------------------- taking references

  ghost function Acquired(s: State, t: Tid, sid: U32, call: Call): State
    requires sid in s.heap.table && s.heap.table[sid] in s.heap.objs
  {
    SetPc(s.(heap := GetRef(s.heap, sid).0), t, Calling(s.heap.table[sid], call, None))
  }

  lemma AcquireKeepsObjs(s: State, t: Tid, sid: U32, call: Call)
    requires Inv(s) && t in s.pcs && s.pcs[t].Idle? && !call.Open? && sid in s.heap.table
    requires s.heap.table[sid] in s.heap.objs
    ensures AllObjsOk(Acquired(s, t, sid, call))
  {
    var s' := Acquired(s, t, sid, call);
    assert EntryOk(s, sid);
    forall x | x in s'.heap.objs ensures ObjOk(s', x) {
      HoldersCount(s.pcs, t, s'.pcs[t], x);
      assert ObjOk(s, x);
    }
  }

  lemma AcquireKeepsRest(s: State, t: Tid, sid: U32, call: Call)
    requires Inv(s) && t in s.pcs && s.pcs[t].Idle? && !call.Open? && sid in s.heap.table
    requires s.heap.table[sid] in s.heap.objs
    ensures var s' := Acquired(s, t, sid, call); IdsOk(s') && AllEntriesOk(s') && AllThreadsOk(s')
  {
    var s' := Acquired(s, t, sid, call);
    assert EntryOk(s, sid);
    forall k | k in s'.heap.table ensures EntryOk(s', k) { assert EntryOk(s, k); }
    forall u | u in s'.pcs ensures ThreadOk(s', u) { assert ThreadOk(s, u); }
  }

  lemma AcquireInv(s: State, t: Tid, sid: U32, call: Call)
    requires Inv(s) && Enabled(s, Acquire(t, sid, call))
    ensures Inv(Apply(s, Acquire(t, sid, call)))
  {
    if sid in s.heap.table {
      assert EntryOk(s, sid);
      AcquireKeepsObjs(s, t, sid, call);
      AcquireKeepsRest(s, t, sid, call);
    } else {
      QuietStep(s, t, Idle(SA_ERR_HPI_INVALID_SESSION), s.hist.acked);
    }
  }

  lemma TableValuesOk(s: State, o: Obj)
    requires Inv(s) && o in s.heap.table.Values
    ensures o in s.heap.objs && o in s.hist.bound && Closes(s.hist, o) == 0
  {
    var sid :| sid in s.heap.table && s.heap.table[sid] == o;
    assert EntryOk(s, sid) && ObjOk(s, o);
  }

  ghost function CloseAllStarted(s: State, t: Tid, order: seq<Obj>): State {
    SetPc(s.(heap := GetRefAll(s.heap)), t, if order == [] then Idle(SA_OK) else ClosingAll([], order, None))
  }

  lemma CloseAllKeepsObjs(s: State, t: Tid, order: seq<Obj>)
    requires Inv(s) && t in s.pcs && s.pcs[t].Idle? && ListsValues(order, s.heap.table)
    ensures AllObjsOk(CloseAllStarted(s, t, order))
  {
    var s' := CloseAllStarted(s, t, order);
    forall x | x in s'.heap.objs ensures ObjOk(s', x) {
      HoldersCount(s.pcs, t, s'.pcs[t], x);
      assert ObjOk(s, x);
      assert Holds(s'.pcs[t], x) <==> x in s.heap.table.Values;
      if x in s.heap.table.Values { TableValuesOk(s, x); }
    }
  }

  lemma CloseAllKeepsThreads(s: State, t: Tid, order: seq<Obj>)
    requires AllThreadsOk(s) && (forall o | o in s.heap.table.Values :: o in s.hist.bound)
    requires t in s.pcs && s.pcs[t].Idle? && ListsValues(order, s.heap.table)
    ensures AllThreadsOk(CloseAllStarted(s, t, order))
  {
    var s' := CloseAllStarted(s, t, order);
    assert [] + order == order;
    forall u | u in s'.pcs ensures ThreadOk(s', u) {
      assert ThreadOk(s, u);
    }
  }

  lemma CloseAllBeginInv(s: State, t: Tid, order: seq<Obj>)
    requires Inv(s) && Enabled(s, CloseAllBegin(t, order))
    ensures Inv(Apply(s, CloseAllBegin(t, order))) && !Apply(s, CloseAllBegin(t, order)).fault
  {
    forall o | o in s.heap.table.Values ensures o in s.heap.objs && o in s.hist.bound { TableValuesOk(s, o); }
    var s' := CloseAllStarted(s, t, order);
    CloseAllKeepsObjs(s, t, order);
    CloseAllKeepsThreads(s, t, order);
    forall k | k in s'.heap.table ensures EntryOk(s', k) { assert EntryOk(s, k); }
  }

  // ---------------------------------------------------------------- releasing

  /** t gives up its reference to o and nothing else. */
  ghost predicate LetsGo(pc: Pc, pc': Pc, o: Obj) {
    && Holds(pc, o) && !Holds(pc', o)
    && (forall x | x != o :: Holds(pc', x) <==> Holds(pc, x))
    && (forall x :: !Opens(pc', x))
    && (pc'.ClosingAll? ==> pc.ClosingAll? && pc'.done == pc.done + [o] && pc'.done + pc'.todo == pc.done + pc.todo)
  }

  /** The closing release is the only one that touches the table, and it removes its own entry only. */
  lemma UnrefKeepsEntries(s: State, t: Tid, o: Obj, closed: bool, pc: Pc)
    requires Inv(s) && t in s.pcs && o in s.heap.objs && LetsGo(s.pcs[t], pc, o)
    requires pc.ClosingAll? ==> closed
    ensures AllEntriesOk(UnrefStep(s, t, o, closed, pc))
  {
    var s' := UnrefStep(s, t, o, closed, pc);
    assert ThreadOk(s, t) && ObjOk(s, o);
    HoldersCount(s.pcs, t, pc, o);
    forall k | k in s'.heap.table ensures EntryOk(s', k) {
      assert EntryOk(s, k) && ObjOk(s, s.heap.table[k]);
    }
  }

  lemma UnrefKeepsObjs(s: State, t: Tid, o: Obj, closed: bool, pc: Pc)
    requires Inv(s) && t in s.pcs && o in s.heap.objs && LetsGo(s.pcs[t], pc, o)
    ensures AllObjsOk(UnrefStep(s, t, o, closed, pc))
  {
    var s' := UnrefStep(s, t, o, closed, pc);
    assert ThreadOk(s, t) && ObjOk(s, o);
    forall x | x in s'.heap.objs ensures ObjOk(s', x) {
      HoldersCount(s.pcs, t, pc, x);
      assert ObjOk(s, x);
    }
  }

  lemma UnrefKeepsThreads(s: State, t: Tid, o: Obj, closed: bool, pc: Pc)
    requires IdsOk(s) && AllThreadsOk(s) && t in s.pcs && o in s.heap.objs && LetsGo(s.pcs[t], pc, o)
    requires pc.ClosingAll? ==> closed
    ensures AllThreadsOk(UnrefStep(s, t, o, closed, pc)) && IdsOk(UnrefStep(s, t, o, closed, pc))
  {
    var s' := UnrefStep(s, t, o, closed, pc);
    assert ThreadOk(s, t);
    forall u | u in s'.pcs ensures ThreadOk(s', u) {
      assert ThreadOk(s, u);
    }
  }

  lemma CloseAllLetsGo(s: State, t: Tid)
    requires t in s.pcs && ThreadOk(s, t) && s.pcs[t].ClosingAll? && s.pcs[t].todo != []
    ensures LetsGo(s.pcs[t], AfterCloseAll(s.pcs[t]), s.pcs[t].todo[0])
  {
    var pc := s.pcs[t];
    var all := pc.done + pc.todo;
    var o := pc.todo[0];
    var n := |pc.done|;
    assert pc.todo == [o] + pc.todo[1..];
    assert all[n] == o && forall i | 0 < i < |pc.todo| :: pc.todo[i] == all[n + i];
    assert (pc.done + [o]) + pc.todo[1..] == all;
  }

  lemma UnrefInv(s: State, t: Tid, o: Obj, closed: bool, pc: Pc)
    requires Inv(s) && t in s.pcs && o in s.heap.objs && LetsGo(s.pcs[t], pc, o)
    requires pc.ClosingAll? ==> closed
    ensures Inv(UnrefStep(s, t, o, closed, pc))
  {
    UnrefKeepsEntries(s, t, o, closed, pc);
    UnrefKeepsObjs(s, t, o, closed, pc);
    UnrefKeepsThreads(s, t, o, closed, pc);
  }

  lemma ReplyInv(s: State, t: Tid, rv: SaErrorT)
    requires Inv(s) && Enabled(s, Reply(t, rv))
    ensures Inv(ReplyStep(s, t, rv))
  {
    var pc := s.pcs[t];
    var s' := ReplyStep(s, t, rv);
    if pc.call.Open? && rv != SA_OK {
      AbandonStep(s, t, pc.obj, rv);
    } else {
      QuietStep(s, t, s'.pcs[t], s'.hist.acked);
      assert s' == SetPc(s.(hist := s.hist.(acked := s'.hist.acked)), t, s'.pcs[t]);
    }
  }

  lemma LookupInv(s: State, t: Tid)
    requires Inv(s) && Enabled(s, Lookup(t)) && Touched(s, Lookup(t)) <= s.heap.objs.Keys
    ensures Inv(LookupStep(s, t))
  {
    var pc := s.pcs[t];
    var s' := LookupStep(s, t);
    if pc.Calling? && pc.call.Open? && s'.pcs[t].Idle? {
      AbandonStep(s, t, pc.obj, SA_ERR_HPI_INVALID_DOMAIN);
    } else {
      QuietStep(s, t, s'.pcs[t], s.hist.acked);
      assert s' == SetPc(s.(hist := s.hist.(acked := s.hist.acked)), t, s'.pcs[t]);
    }
  }

  lemma SameSessions(s: State, s': State)
    requires Inv(s) && s'.heap == s.heap && s'.pcs == s.pcs && s'.hist == s.hist
    ensures Inv(s')
  {
    forall o | o in s'.heap.objs ensures ObjOk(s', o) { assert ObjOk(s, o); }
    forall k | k in s'.heap.table ensures EntryOk(s', k) { assert EntryOk(s, k); }
    forall u | u in s'.pcs ensures ThreadOk(s', u) { assert ThreadOk(s, u); }
  }

  /** Every step of every thread keeps the invariant, closing releases that overlap included. */
  lemma StepInv(s: State, e: Step)
    requires Inv(s) && Enabled(s, e) && Apply(s, e).hist.opens <= TWO32
    ensures Inv(Apply(s, e))
  {
    if !(Touched(s, e) <= s.heap.objs.Keys) {
      SameSessions(s, Apply(s, e));
    } else {
      match e
      case OpenBegin(t, did) => OpenBeginKeepsObjs(s, t, did); OpenBeginKeepsRest(s, t, did);
      case Lookup(t) => LookupInv(s, t);
      case Reply(t, rv) => ReplyInv(s, t, rv);
      case AddSession(t) =>
        AddedIsNew(s, t);
        AddSessionKeepsObjs(s, t);
        AddSessionKeepsEntries(s, t);
        AddSessionKeepsThreads(s, t);
      case Acquire(t, sid, call) => AcquireInv(s, t, sid, call);
      case Release(t) => UnrefInv(s, t, s.pcs[t].obj, s.pcs[t].closed, Idle(s.pcs[t].rv));
      case CloseAllBegin(t, order) => CloseAllBeginInv(s, t, order);
      case CloseAllNext(t) =>
        assert ThreadOk(s, t);
        CloseAllLetsGo(s, t);
        UnrefInv(s, t, s.pcs[t].todo[0], true, AfterCloseAll(s.pcs[t]));
      case DomainAdd(op) => SameSessions(s, Apply(s, e));
    }
  }
}
