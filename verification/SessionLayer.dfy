/** The mutable session objects and table of baselib/session.cpp, refining the functions of module SessionState. */
module SessionLayer {
  import opened Hpi
  import opened DomainTable
  import opened SessionState
  import ClientConf

  class CSession {
    var refCnt: int
    var did: U32
    var sid: U32
    /** The id the daemon gave the session. */
    var remoteSid: U32

    constructor ()
      ensures Value() == Session(0, UNSPECIFIED_DOMAIN_ID, 0) && remoteSid == 0
    {
      refCnt, did, sid, remoteSid := 0, UNSPECIFIED_DOMAIN_ID, 0, 0;
    }

    ghost function Value(): Session
      reads this
    {
      Session(refCnt, did, sid)
    }

    /** cSession::GetEntityRoot */
    method GetEntityRoot(domains: ClientConf.Domains) returns (rv: SaErrorT, root: Option<EntityPath>)
      modifies domains`lockDepth, domains`sections
      ensures domains.lockDepth == old(domains.lockDepth)
      ensures if did in domains.table then rv == SA_OK && root == Some(domains.table[did].root)
              else rv == SA_ERR_HPI_INVALID_DOMAIN && root == None
    {
      domains.Lock();
      root := None;
      var dc := domains.GetDomainConf(did);
      if dc.Some? {
        root := Some(dc.value.root);
      }
      domains.Unlock();
      rv := if dc.None? then SA_ERR_HPI_INVALID_DOMAIN else SA_OK;
    }

    method AddRef()
      modifies this`refCnt
      ensures refCnt == old(refCnt) + 1
    {
      refCnt := refCnt + 1;
    }

    method Unref()
      modifies this`refCnt
      ensures refCnt == old(refCnt) - 1
    {
      refCnt := refCnt - 1;
    }
  }

  /** Taking a reference and giving it back, with no closing, changes nothing. */
  lemma RefAndRelease(h: Heap, sid: U32)
    requires sid in h.table && h.table[sid] in h.objs && h.objs[h.table[sid]].refCnt >= 0
    ensures SessionState.Unref(SessionState.GetRef(h, sid).0, h.table[sid], false) == h
  {
    var o := h.table[sid];
    assert h.objs[o := Ref(h.objs[o])][o := h.objs[o]] == h.objs;
  }

  /** The objects after an acknowledged close: the session has a reference less, or is gone if it had none. */
  function OneLess(h: Heap, o: Obj): map<Obj, Session>
    requires o in h.objs
  {
    if h.objs[o].refCnt == 0 then h.objs - {o} else h.objs[o := h.objs[o].(refCnt := h.objs[o].refCnt - 1)]
  }

  lemma RefAndClose(h: Heap, sid: U32)
    requires sid in h.table && h.table[sid] in h.objs && h.objs[h.table[sid]].refCnt >= 0
    requires h.objs[h.table[sid]].sid == sid
    ensures SessionState.Unref(SessionState.GetRef(h, sid).0, h.table[sid], true)
         == h.(objs := OneLess(h, h.table[sid]), table := h.table - {sid})
  {
    var o := h.table[sid];
    var s := h.objs[o].(refCnt := h.objs[o].refCnt - 1);
    assert h.objs[o := Ref(h.objs[o])][o := s] == h.objs[o := s];
    assert h.objs[o := Ref(h.objs[o])] - {o} == h.objs - {o};
  }

  /** The process's session objects by address, the table from session ids to addresses, and next_sid. */
  class Sessions {
    var memory: map<Obj, CSession>
    var sessions: map<U32, Obj>
    var nextSid: U32
    var nextObj: Obj

    /** Different addresses are different objects, and new objects get new addresses. */
    ghost predicate Valid()
      reads this
    {
      && (forall a, b | a in memory && b in memory && a != b :: memory[a] != memory[b])
      && (forall a | a in memory :: a < nextObj)
    }

    ghost function Contents(): Heap
      reads this, memory.Values
    {
      Heap(map o | o in memory :: memory[o].Value(), sessions, nextSid, nextObj)
    }

    constructor ()
      ensures Valid() && Contents() == Heap(map[], map[], 1, 0)
    {
      memory, sessions, nextSid, nextObj := map[], map[], 1, 0;
    }

    /** new cSession, with the domain id RpcOpen stores first. */
    method New(did: U32) returns (o: Obj)
      requires Valid()
      modifies this
      ensures Valid() && (Contents(), o) == Create(old(Contents()), did)
      ensures o !in old(memory) && o in memory && fresh(memory[o]) && memory == old(memory)[o := memory[o]]
    {
      o := nextObj;
      var s := new CSession();
      s.did := did;
      ghost var before := Contents();
      memory, nextObj := memory[o := s], nextObj + 1;
      assert Contents().objs == before.objs[o := s.Value()];
    }

    /** ohc_sess_open after a failed RpcOpen. */
    method Discard(o: Obj)
      requires Valid() && o in memory
      modifies this`memory
      ensures Valid() && Contents() == Delete(old(Contents()), o) && memory == old(memory) - {o}
    {
      ghost var before := Contents();
      memory := memory - {o};
      assert Contents().objs == before.objs - {o};
    }

    method Add(o: Obj) returns (sid: U32)
      requires Valid() && o in memory
      modifies this`sessions, this`nextSid, memory[o]
      ensures Valid() && (Contents(), sid) == AddToTable(old(Contents()), o)
      ensures forall a | a in memory :: memory[a].remoteSid == old(memory[a].remoteSid)
    {
      ghost var before := Contents();
      sid := nextSid;
      nextSid := (nextSid + 1) % TWO32;
      memory[o].sid := sid;
      sessions := sessions[sid := o];
      assert Contents().objs == before.objs[o := before.objs[o].(sid := sid)];
    }

    method GetRef(sid: U32) returns (r: Option<Obj>)
      requires Valid() && (sid in sessions ==> sessions[sid] in memory)
      modifies if sid in sessions && sessions[sid] in memory then {memory[sessions[sid]]} else {}
      ensures Valid() && (Contents(), r) == SessionState.GetRef(old(Contents()), sid)
      ensures forall a | a in memory :: memory[a].remoteSid == old(memory[a].remoteSid)
    {
      r := None;
      if sid in sessions {
        ghost var before := Contents();
        memory[sessions[sid]].AddRef();
        r := Some(sessions[sid]);
        assert Contents().objs == before.objs[sessions[sid] := Ref(before.objs[sessions[sid]])];
      }
    }

    method Unref(o: Obj, closed: bool)
      requires Valid() && o in memory
      modifies this`memory, this`sessions, memory[o]
      ensures Valid() && Contents() == SessionState.Unref(old(Contents()), o, closed)
      ensures forall a | a in memory :: a in old(memory) && memory[a] == old(memory)[a]
      ensures forall a | a in memory :: memory[a].remoteSid == old(memory[a].remoteSid)
    {
      ghost var before := Contents();
      var s := memory[o];
      s.Unref();
      if closed {
        s.Unref();
        sessions := sessions - {s.sid};
      }
      if s.refCnt < 0 {
        memory := memory - {o};
      }
      assert Contents().objs == if s.refCnt < 0 then before.objs - {o} else before.objs[o := s.Value()];
    }

    /** Every table entry names a live object that carries the entry's own key. */
    ghost predicate TableOk()
      reads this, memory.Values
    {
      forall sid | sid in sessions :: sessions[sid] in memory && memory[sessions[sid]].sid == sid
    }

    /** What every run keeps between the calls: see CounterIsHoldersMinusCloses. */
    ghost predicate Settled()
      reads this, memory.Values
    {
      Valid() && TableOk() && forall sid | sid in sessions :: memory[sessions[sid]].refCnt >= 0
    }

    /** What the reply to the opening RPC brings. */
    method Opened(o: Obj, remote: U32)
      requires Valid() && o in memory
      modifies memory[o]
      ensures Contents() == old(Contents()) && memory[o].remoteSid == remote
    {
      memory[o].remoteSid := remote;
      assert Contents().objs == old(Contents()).objs;
    }

    /** ohc_sess_open, undisturbed; answer is the result of the RPC and remote the session id it brings. */
    method SessOpen(did: U32, answer: SaErrorT, remote: U32) returns (rv: SaErrorT, sid: U32)
      requires Valid()
      modifies this
      ensures Valid() && rv == answer
      ensures rv != SA_OK ==> memory == old(memory) && sessions == old(sessions) && nextSid == old(nextSid)
      ensures rv == SA_OK ==>
        && sid == old(nextSid) && nextSid == (sid + 1) % TWO32 && sid in sessions
        && sessions[sid] !in old(memory) && sessions[sid] in memory
        && sessions == old(sessions)[sid := sessions[sid]]
        && memory == old(memory)[sessions[sid] := memory[sessions[sid]]]
        && memory[sessions[sid]].Value() == Session(0, did, sid) && memory[sessions[sid]].remoteSid == remote
    {
      sid := 0;
      var o := New(did);
      rv := answer;
      if rv == SA_OK {
        Opened(o, remote);
        sid := Add(o);
        assert memory[o].Value() == Contents().objs[o];
      } else {
        Discard(o);
        assert memory == old(memory);
      }
    }

    /** ohc_sess_rpc, undisturbed: it passes on the daemon's id of the session and leaves everything as it was. */
    method SessRpc(sid: U32, answer: SaErrorT) returns (rv: SaErrorT, remote: Option<U32>)
      requires Settled()
      modifies this`memory, this`sessions, memory.Values
      ensures Valid() && Contents() == old(Contents())
      ensures sid !in sessions ==> rv == SA_ERR_HPI_INVALID_SESSION && remote == None
      ensures sid in sessions ==> rv == answer && remote == Some(old(memory[sessions[sid]].remoteSid))
    {
      var r := GetRef(sid);
      if r.None? { return SA_ERR_HPI_INVALID_SESSION, None; }
      remote := Some(memory[r.value].remoteSid);
      rv := answer;
      RefAndRelease(old(Contents()), sid);
      Unref(r.value, false);
    }

    /**
     * ohc_sess_close, undisturbed: acknowledged, it takes the session out of the table and destroys it if nobody else
     * has a reference; otherwise it leaves everything as it was.
     */
    method SessClose(sid: U32, answer: SaErrorT) returns (rv: SaErrorT, remote: Option<U32>)
      requires Settled()
      modifies this`memory, this`sessions, memory.Values
      ensures Valid()
      ensures sid !in old(sessions) ==> rv == SA_ERR_HPI_INVALID_SESSION && remote == None
      ensures sid in old(sessions) ==> rv == answer && remote == Some(old(memory[sessions[sid]].remoteSid))
      ensures sid !in old(sessions) || answer != SA_OK ==> Contents() == old(Contents())
      ensures sid in old(sessions) && answer == SA_OK ==>
        var o, before := old(sessions)[sid], old(Contents());
        && sessions == old(sessions) - {sid}
        && Contents().objs == OneLess(before, o)
    {
      var r := GetRef(sid);
      if r.None? { return SA_ERR_HPI_INVALID_SESSION, None; }
      remote := Some(memory[r.value].remoteSid);
      rv := answer;
      var o := r.value;
      ghost var before := old(Contents());
      RefAndRelease(before, sid);
      RefAndClose(before, sid);
      Unref(o, rv == SA_OK);
    }

    /** ohc_sess_get_did, undisturbed */
    method SessGetDid(sid: U32) returns (rv: SaErrorT, did: Option<U32>)
      requires Settled()
      modifies this`memory, this`sessions, memory.Values
      ensures Valid() && Contents() == old(Contents())
      ensures sid !in sessions ==> rv == SA_ERR_HPI_INVALID_SESSION && did == None
      ensures sid in sessions ==> rv == SA_OK && did == Some(old(memory[sessions[sid]].did))
    {
      var r := GetRef(sid);
      if r.None? { return SA_ERR_HPI_INVALID_SESSION, None; }
      did := Some(memory[r.value].did);
      RefAndRelease(old(Contents()), sid);
      Unref(r.value, false);
      rv := SA_OK;
    }

    /** ohc_sess_get_entity_root, undisturbed: the entity root of the session's domain as the table has it now. */
    method SessGetEntityRoot(sid: U32, domains: ClientConf.Domains) returns (rv: SaErrorT, root: Option<EntityPath>)
      requires Settled()
      modifies this`memory, this`sessions, memory.Values, domains`lockDepth, domains`sections
      ensures Valid() && Contents() == old(Contents()) && domains.lockDepth == old(domains.lockDepth)
      ensures sid !in sessions ==> rv == SA_ERR_HPI_INVALID_SESSION && root == None
      ensures sid in sessions ==>
        var did := old(memory[sessions[sid]].did);
        if did in domains.table then rv == SA_OK && root == Some(domains.table[did].root)
        else rv == SA_ERR_HPI_INVALID_DOMAIN && root == None
    {
      var r := GetRef(sid);
      if r.None? { return SA_ERR_HPI_INVALID_SESSION, None; }
      rv, root := memory[r.value].GetEntityRoot(domains);
      RefAndRelease(old(Contents()), sid);
      Unref(r.value, false);
    }

    /** dehash_func, but for the list. */
    method RefOne(o: Obj)
      requires Valid() && o in memory
      modifies memory[o]
      ensures forall a | a in memory :: memory[a].Value() == RefIf(old(memory[a].Value()), a == o)
    {
      memory[o].AddRef();
    }

    /** The walk over the hash table, in no particular order. */
    method RefEach() returns (list: seq<Obj>)
      requires Valid() && TableOk()
      modifies memory.Values
      ensures forall a | a in memory :: memory[a].Value() == RefIf(old(memory[a].Value()), a in list)
      ensures ListsValues(list, sessions)
    {
      assert Injective(sessions);
      list := [];
      var rest := sessions.Keys;
      while rest != {}
        invariant rest <= sessions.Keys && Listed(list, sessions, rest)
        invariant forall a | a in memory :: memory[a].Value() == RefIf(old(memory[a].Value()), a in list)
        decreases rest
      {
        var sid :| sid in rest;
        ListOne(list, sessions, rest, sid);
        RefOne(sessions[sid]);
        list, rest := list + [sessions[sid]], rest - {sid};
      }
      AllListed(list, sessions);
    }

    /** sessions_get_ref_all */
    method GetRefAll() returns (list: seq<Obj>)
      requires Valid() && TableOk()
      modifies memory.Values
      ensures Valid() && Contents() == SessionState.GetRefAll(old(Contents()))
      ensures ListsValues(list, sessions)
    {
      list := RefEach();
      assert Contents().objs == SessionState.GetRefAll(old(Contents())).objs;
    }

    /** No call is in flight; what module SessionRuns proves of every disciplined run. */
    ghost predicate Quiet()
      reads this, memory.Values
    {
      Valid() && TableOk() && memory.Keys == sessions.Values && forall a | a in memory :: memory[a].refCnt == 0
    }

    /** ohc_sess_close_all with no other call in flight leaves no session and no entry, whatever the daemon answers. */
    method CloseAll() returns (rv: SaErrorT)
      requires Quiet()
      modifies this`memory, this`sessions, memory.Values
      ensures rv == SA_OK && memory == map[] && sessions == map[]
    {
      var list := GetRefAll();
      ghost var start := Contents();
      CloseEach(list);
      UnrefEachEmpties(start, list);
      assert memory.Keys == Contents().objs.Keys;
      rv := SA_OK;
    }

    /** The loop of ohc_sess_close_all; the result of RpcClose is ignored. */
    method CloseEach(list: seq<Obj>)
      requires Valid() && Unrefable(Contents(), list)
      modifies this`memory, this`sessions, memory.Values
      ensures Valid() && Contents() == UnrefEach(old(Contents()), list)
    {
      assert list[0..] == list;
      var i := 0;
      while i < |list|
        invariant i <= |list| && Valid()
        invariant forall a | a in memory :: a in old(memory) && memory[a] == old(memory)[a]
        invariant Unrefable(Contents(), list[i..])
        invariant UnrefEach(Contents(), list[i..]) == UnrefEach(old(Contents()), list)
      {
        ghost var todo := list[i..];
        assert todo[0] == list[i] && todo[1..] == list[i + 1..];
        UnrefKeepsOthers(Contents(), todo);
        Unref(list[i], true);
        i := i + 1;
      }
      assert list[i..] == [];
    }
  }

  ghost predicate Injective(table: map<U32, Obj>) {
    forall k, l | k in table && l in table && k != l :: table[k] != table[l]
  }

  /** The sessions of all entries but those in rest are listed, each once. */
  ghost predicate Listed(list: seq<Obj>, table: map<U32, Obj>, rest: set<U32>) {
    && Distinct(list)
    && (forall a | a in list :: a in table.Values)
    && forall k | k in table :: table[k] in list <==> k !in rest
  }

  lemma ListOne(list: seq<Obj>, table: map<U32, Obj>, rest: set<U32>, sid: U32)
    requires Injective(table) && Listed(list, table, rest) && sid in rest && sid in table
    ensures table[sid] !in list && Listed(list + [table[sid]], table, rest - {sid})
  {
  }

  lemma AllListed(list: seq<Obj>, table: map<U32, Obj>)
    requires Listed(list, table, {})
    ensures ListsValues(list, table)
  {
    forall a | a in table.Values ensures a in list {
      var k :| k in table && table[k] == a;
    }
  }

  ghost function RefIf(s: Session, referenced: bool): Session {
    if referenced then Ref(s) else s
  }

  ghost predicate Unrefable(h: Heap, list: seq<Obj>) {
    Distinct(list) && forall a | a in list :: a in h.objs
  }

  lemma UnrefKeepsOthers(h: Heap, list: seq<Obj>)
    requires Unrefable(h, list) && list != []
    ensures Unrefable(SessionState.Unref(h, list[0], true), list[1..])
  {
    var rest := list[1..];
    forall a | a in rest ensures a != list[0] && a in h.objs {
      var i :| 0 <= i < |rest| && rest[i] == a;
      assert list[i + 1] == a && a in list;
    }
  }

  /** A closing release of every listed session. */
  ghost function UnrefEach(h: Heap, list: seq<Obj>): Heap
    requires Unrefable(h, list)
    decreases |list|
  {
    if list == [] then h else
      UnrefKeepsOthers(h, list);
      UnrefEach(SessionState.Unref(h, list[0], true), list[1..])
  }

  /** Closing every session once, each held once, empties memory and table. */
  lemma {:induction false} UnrefEachEmpties(h: Heap, list: seq<Obj>)
    requires Unrefable(h, list) && (forall a | a in h.objs :: a in list && h.objs[a].refCnt == 1)
    requires forall sid | sid in h.table :: h.table[sid] in h.objs && h.objs[h.table[sid]].sid == sid
    ensures UnrefEach(h, list).objs == map[] && UnrefEach(h, list).table == map[]
    decreases |list|
  {
    if list == [] {
      assert h.objs.Keys == {} && h.table.Keys == {};
    } else {
      var h' := SessionState.Unref(h, list[0], true);
      UnrefKeepsOthers(h, list);
      forall sid | sid in h'.table ensures h'.table[sid] in h'.objs && h'.objs[h'.table[sid]].sid == sid {
        assert sid in h.table;
      }
      forall a | a in h'.objs ensures a in list[1..] {
        assert a in list && a != list[0];
      }
      UnrefEachEmpties(h', list[1..]);
    }
  }
}
