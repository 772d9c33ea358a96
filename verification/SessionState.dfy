/**
 * The session layer of baselib/session.cpp as a state machine. Each region under ohc_lock is one
 * function on the shared heap; a call is a sequence of atomic steps of its thread, with the remote
 * procedure call as a step of its own between the locked ones.
 */
module SessionState {
  import opened Hpi
  import opened DomainTable

  /** The address of a session object; addresses are not reused. */
  type Obj = nat
  type Tid = nat

  datatype Session = Session(refCnt: int, did: U32, sid: U32)

  /** The live objects, the session table, and the two counters. */
  datatype Heap = Heap(objs: map<Obj, Session>, table: map<U32, Obj>, nextSid: U32, nextObj: Obj)

  // ---------------------------------------------------------------- the locked regions

  function Create(h: Heap, did: U32): (Heap, Obj) {
    (h.(objs := h.objs[h.nextObj := Session(0, did, 0)], nextObj := h.nextObj + 1), h.nextObj)
  }

  function Delete(h: Heap, o: Obj): Heap {
    h.(objs := h.objs - {o})
  }

  /** sessions_add */
  function AddToTable(h: Heap, o: Obj): (Heap, U32)
    requires o in h.objs
  {
    var objs := h.objs[o := h.objs[o].(sid := h.nextSid)];
    (Heap(objs, h.table[h.nextSid := o], (h.nextSid + 1) % TWO32, h.nextObj), h.nextSid)
  }

  function Ref(s: Session): Session {
    s.(refCnt := s.refCnt + 1)
  }

  /** sessions_get_ref */
  function GetRef(h: Heap, sid: U32): (Heap, Option<Obj>)
    requires sid in h.table ==> h.table[sid] in h.objs
  {
    if sid in h.table then
      var o := h.table[sid];
      (h.(objs := h.objs[o := Ref(h.objs[o])]), Some(o))
    else (h, None)
  }

  /** sessions_get_ref_all */
  function GetRefAll(h: Heap): Heap {
    h.(objs := map o | o in h.objs :: if o in h.table.Values then Ref(h.objs[o]) else h.objs[o])
  }

  /** sessions_unref: a closing release drops two references and the table entry. */
  function Unref(h: Heap, o: Obj, closed: bool): Heap
    requires o in h.objs
  {
    var cnt := h.objs[o].refCnt - (if closed then 2 else 1);
    h.(objs := if cnt < 0 then h.objs - {o} else h.objs[o := h.objs[o].(refCnt := cnt)],
       table := if closed then h.table - {h.objs[o].sid} else h.table)
  }

  // ---------------------------------------------------------------- calls in progress

  datatype Call = Open | Plain | Close | Root | GetDid

  /**
   * Where a thread is. dc is the domain entry GetSock took from the table and goes on using after
   * it has left the lock; Idle holds the result of the thread's last call.
   */
  datatype Pc =
    | Idle(rv: SaErrorT)
    | Calling(obj: Obj, call: Call, dc: Option<DomainConf>)
    | Adding(obj: Obj, conf: DomainConf)
    | Releasing(obj: Obj, closed: bool, rv: SaErrorT)
    | ClosingAll(done: seq<Obj>, todo: seq<Obj>, dc: Option<DomainConf>)

  /**
   * What has happened so far; no step depends on it.
   * closes counts closing releases, bound records the domain entry a session was opened with,
   * creator who opened it, and acked whose close the daemon has acknowledged.
   */
  datatype History = History(opens: nat, closes: map<Obj, nat>, bound: map<Obj, DomainConf>,
                             creator: map<Obj, Tid>, acked: set<Obj>)

  /** fault: some thread has touched an object that was already destroyed. */
  datatype State = State(heap: Heap, domains: Table, pcs: map<Tid, Pc>, fault: bool, hist: History)

  datatype Step =
    | OpenBegin(t: Tid, did: U32)
    | Lookup(t: Tid)
    | Reply(t: Tid, rv: SaErrorT)
    | AddSession(t: Tid)
    | Acquire(t: Tid, sid: U32, call: Call)
    | Release(t: Tid)
    | CloseAllBegin(t: Tid, order: seq<Obj>)
    | CloseAllNext(t: Tid)
    | DomainAdd(op: AddOp)

  ghost predicate Distinct(os: seq<Obj>) {
    forall i, j | 0 <= i < j < |os| :: os[i] != os[j]
  }

  ghost predicate ListsValues(order: seq<Obj>, table: map<U32, Obj>) {
    Distinct(order) && forall o :: o in order <==> o in table.Values
  }

  ghost predicate Enabled(s: State, e: Step) {
    && !s.fault
    && match e
       case OpenBegin(t, _) => t in s.pcs && s.pcs[t].Idle?
       // GetSock when the thread has no socket for the session, at first or for a further attempt, and GetEntityRoot.
       case Lookup(t) => t in s.pcs && (s.pcs[t].Calling? || s.pcs[t].ClosingAll?)
                         && (s.pcs[t].Calling? ==> !s.pcs[t].call.GetDid?)
                         && (s.pcs[t].ClosingAll? ==> s.pcs[t].todo != [])
       // A new session has no socket, so opening it passes through GetSock.
       case Reply(t, rv) => t in s.pcs && s.pcs[t].Calling? && !s.pcs[t].call.Root?
                            && (s.pcs[t].call.Open? ==> s.pcs[t].dc.Some?)
                            && (s.pcs[t].call.GetDid? ==> rv == SA_OK)
       case AddSession(t) => t in s.pcs && s.pcs[t].Adding?
       case Acquire(t, _, call) => t in s.pcs && s.pcs[t].Idle? && !call.Open?
       case Release(t) => t in s.pcs && s.pcs[t].Releasing?
       case CloseAllBegin(t, order) => t in s.pcs && s.pcs[t].Idle? && ListsValues(order, s.heap.table)
       case CloseAllNext(t) => t in s.pcs && s.pcs[t].ClosingAll? && s.pcs[t].todo != []
       case DomainAdd(_) => true
  }

  /** The objects a step reads or writes. */
  ghost function Touched(s: State, e: Step): set<Obj>
    requires Enabled(s, e)
  {
    match e
    case OpenBegin(_, _) => {}
    case Lookup(t) => if s.pcs[t].Calling? then {s.pcs[t].obj} else {s.pcs[t].todo[0]}
    case Reply(t, _) => {s.pcs[t].obj}
    case AddSession(t) => {s.pcs[t].obj}
    case Acquire(_, sid, _) => if sid in s.heap.table then {s.heap.table[sid]} else {}
    case Release(t) => {s.pcs[t].obj}
    case CloseAllBegin(_, _) => s.heap.table.Values
    case CloseAllNext(t) => {s.pcs[t].todo[0]}
    case DomainAdd(_) => {}
  }

  function Closes(hist: History, o: Obj): nat {
    if o in hist.closes then hist.closes[o] else 0
  }

  function CountClose(hist: History, o: Obj, closed: bool): History {
    if closed then hist.(closes := hist.closes[o := Closes(hist, o) + 1]) else hist
  }

  ghost function Find(t: Table, did: U32): Option<DomainConf> {
    if did in t then Some(t[did]) else None
  }

  ghost function SetPc(s: State, t: Tid, pc: Pc): State {
    s.(pcs := s.pcs[t := pc])
  }

  /** ohc_sess_open gives up: the object was never visible to anybody else. */
  ghost function Abandon(s: State, t: Tid, o: Obj, rv: SaErrorT): State {
    SetPc(s.(heap := Delete(s.heap, o)), t, Idle(rv))
  }

  ghost function LookupStep(s: State, t: Tid): State
    requires Enabled(s, Lookup(t)) && Touched(s, Lookup(t)) <= s.heap.objs.Keys
  {
    var pc := s.pcs[t];
    if pc.ClosingAll? then
      SetPc(s, t, ClosingAll(pc.done, pc.todo, Find(s.domains, s.heap.objs[pc.todo[0]].did)))
    else
      var dc := Find(s.domains, s.heap.objs[pc.obj].did);
      if pc.call.Root? then SetPc(s, t, Releasing(pc.obj, false, if dc.Some? then SA_OK else SA_ERR_HPI_INVALID_DOMAIN))
      else if dc.Some? then SetPc(s, t, Calling(pc.obj, pc.call, dc))
      else if pc.call.Open? then Abandon(s, t, pc.obj, SA_ERR_HPI_INVALID_DOMAIN)
      else SetPc(s, t, Releasing(pc.obj, false, SA_ERR_HPI_INVALID_DOMAIN))
  }

  ghost function ReplyStep(s: State, t: Tid, rv: SaErrorT): State
    requires Enabled(s, Reply(t, rv))
  {
    var pc := s.pcs[t];
    var closed := pc.call.Close? && rv == SA_OK;
    if !pc.call.Open? then
      var acked := if closed then s.hist.acked + {pc.obj} else s.hist.acked;
      SetPc(s.(hist := s.hist.(acked := acked)), t, Releasing(pc.obj, closed, rv))
    else if rv == SA_OK then SetPc(s, t, Adding(pc.obj, pc.dc.value))
    else Abandon(s, t, pc.obj, rv)
  }

  ghost function AddStep(s: State, t: Tid): State
    requires Enabled(s, AddSession(t)) && s.pcs[t].obj in s.heap.objs
  {
    var Adding(o, conf) := s.pcs[t];
    var hist := s.hist.(opens := s.hist.opens + 1, bound := s.hist.bound[o := conf]);
    SetPc(s.(heap := AddToTable(s.heap, o).0, hist := hist), t, Idle(SA_OK))
  }

  ghost function UnrefStep(s: State, t: Tid, o: Obj, closed: bool, pc: Pc): State
    requires o in s.heap.objs
  {
    SetPc(s.(heap := Unref(s.heap, o, closed), hist := CountClose(s.hist, o, closed)), t, pc)
  }

  ghost function AfterCloseAll(pc: Pc): Pc
    requires pc.ClosingAll? && pc.todo != []
  {
    if |pc.todo| == 1 then Idle(SA_OK) else ClosingAll(pc.done + [pc.todo[0]], pc.todo[1..], None)
  }

  ghost function Apply(s: State, e: Step): State
    requires Enabled(s, e)
  {
    if !(Touched(s, e) <= s.heap.objs.Keys) then s.(fault := true) else
      match e
      case OpenBegin(t, did) =>
        var (h, o) := Create(s.heap, did);
        SetPc(s.(heap := h, hist := s.hist.(creator := s.hist.creator[o := t])), t, Calling(o, Open, None))
      case Lookup(t) => LookupStep(s, t)
      case Reply(t, rv) => ReplyStep(s, t, rv)
      case AddSession(t) => AddStep(s, t)
      case Acquire(t, sid, call) =>
        assert sid in s.heap.table ==> s.heap.table[sid] in Touched(s, e);
        var (h, r) := GetRef(s.heap, sid);
        SetPc(s.(heap := h), t, if r.Some? then Calling(r.value, call, None) else Idle(SA_ERR_HPI_INVALID_SESSION))
      case Release(t) => UnrefStep(s, t, s.pcs[t].obj, s.pcs[t].closed, Idle(s.pcs[t].rv))
      case CloseAllBegin(t, order) =>
        SetPc(s.(heap := GetRefAll(s.heap)), t, if order == [] then Idle(SA_OK) else ClosingAll([], order, None))
      case CloseAllNext(t) => UnrefStep(s, t, s.pcs[t].todo[0], true, AfterCloseAll(s.pcs[t]))
      case DomainAdd(op) => s.(domains := Add(s.domains, op).0)
  }

  /** Nothing is open and no call is running; the domain table is whatever initialisation left. */
  ghost predicate Init(s: State) {
    && s.heap == Heap(map[], map[], 1, 0)
    && !s.fault
    && (forall t | t in s.pcs :: s.pcs[t].Idle?)
    && s.hist == History(0, map[], map[], map[], {})
    && WellKeyed(s.domains)
  }
}
