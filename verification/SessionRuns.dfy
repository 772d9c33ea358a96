/** Properties of whole runs of the session layer: any number of threads, any interleaving. */
module SessionRuns {
  import opened Hpi
  import opened DomainTable
  import opened SessionState
  import opened SessionInvariant
  import opened SessionSafety

  /** Names a position of a run, so that the step there is only looked at where a proof asks for it. */
  ghost function At(i: int): int { i }

  /** The states of a run and the steps between them. */
  ghost predicate Run(ss: seq<State>, es: seq<Step>) {
    && |ss| == |es| + 1
    && Init(ss[0])
    && (forall i {:trigger At(i)} | 0 <= i < |es| :: Enabled(ss[i], es[i]) && ss[i + 1] == Apply(ss[i], es[i]))
  }

  ghost predicate DisciplinedRun(ss: seq<State>, es: seq<Step>) {
    Run(ss, es) && forall i {:trigger At(i)} | 0 <= i < |es| :: Enabled(ss[i], es[i]) && Disciplined(ss[i], es[i])
  }

  lemma StepAt(ss: seq<State>, es: seq<Step>, i: nat)
    requires Run(ss, es) && i < |es|
    ensures Enabled(ss[i], es[i]) && ss[i + 1] == Apply(ss[i], es[i])
  {
    var k := At(i);
    assert k == i;
  }

  lemma DisciplineAt(ss: seq<State>, es: seq<Step>, i: nat)
    requires DisciplinedRun(ss, es) && i < |es|
    ensures Enabled(ss[i], es[i]) && Disciplined(ss[i], es[i])
  {
    var k := At(i);
    assert k == i;
  }

  // ---------------------------------------------------------------- what no step undoes

  /** s' is reached later than s. */
  ghost predicate Later(s: State, s': State) {
    && s.hist.opens <= s'.hist.opens
    && s.heap.nextObj <= s'.heap.nextObj
    && s.domains.Keys <= s'.domains.Keys
    && (forall o | o in s.hist.bound :: o in s'.hist.bound)
    && (forall o :: Closes(s.hist, o) <= Closes(s'.hist, o))
    && (forall o | o < s.heap.nextObj && o !in s.heap.objs :: o !in s'.heap.objs)
    && (forall sid | Issued(sid, s.hist.opens) && sid !in s.heap.table
        && s'.hist.opens <= TWO32 :: sid !in s'.heap.table)
  }

  lemma StepLater(s: State, e: Step)
    requires IdsOk(s) && Enabled(s, e)
    ensures Later(s, Apply(s, e))
  {
    if e.AddSession? && s.hist.opens < TWO32 { FreshSid(s); }
  }

  lemma LaterTransitive(a: State, b: State, c: State)
    requires Later(a, b) && Later(b, c)
    ensures Later(a, c)
  {
    assert forall sid :: Issued(sid, a.hist.opens) ==> Issued(sid, b.hist.opens);
  }

  lemma OpensGrow(ss: seq<State>, es: seq<Step>, i: nat)
    requires Run(ss, es) && i < |es|
    ensures ss[i].hist.opens <= ss[i + 1].hist.opens
  {
    StepAt(ss, es, i);
  }

  lemma StepInvAt(ss: seq<State>, es: seq<Step>, i: nat)
    requires Run(ss, es) && i < |es| && Inv(ss[i]) && ss[i + 1].hist.opens <= TWO32
    ensures Inv(ss[i + 1])
  {
    StepAt(ss, es, i);
    StepInv(ss[i], es[i]);
  }

  /** The counters hold in every state of every run of up to 2^32 opens, disciplined or not. */
  lemma {:induction false} RunInv(ss: seq<State>, es: seq<Step>, i: nat)
    requires Run(ss, es) && i < |ss| && ss[i].hist.opens <= TWO32
    ensures Inv(ss[i])
    decreases i
  {
    if i == 0 {
      InitInv(ss[0]);
    } else {
      OpensGrow(ss, es, i - 1);
      RunInv(ss, es, i - 1);
      StepInvAt(ss, es, i - 1);
    }
  }

  lemma StepLaterAt(ss: seq<State>, es: seq<Step>, i: nat)
    requires Run(ss, es) && i < |es| && ss[i + 1].hist.opens <= TWO32
    ensures Later(ss[i], ss[i + 1])
  {
    OpensGrow(ss, es, i);
    RunInv(ss, es, i);
    StepAt(ss, es, i);
    StepLater(ss[i], es[i]);
  }

  lemma {:induction false} RunLater(ss: seq<State>, es: seq<Step>, i: nat, j: nat)
    requires Run(ss, es) && i <= j < |ss| && ss[j].hist.opens <= TWO32
    ensures Later(ss[i], ss[j])
    decreases j - i
  {
    if i < j {
      OpensGrow(ss, es, j - 1);
      RunLater(ss, es, i, j - 1);
      StepLaterAt(ss, es, j - 1);
      LaterTransitive(ss[i], ss[j - 1], ss[j]);
    }
  }

  /** Each live session's counter is the number of calls holding it minus its closing releases. */
  lemma CounterIsHoldersMinusCloses(ss: seq<State>, es: seq<Step>, i: nat, o: Obj)
    requires Run(ss, es) && i < |ss| && ss[i].hist.opens <= TWO32
    requires o in ss[i].heap.objs && o in ss[i].hist.bound
    ensures ss[i].heap.objs[o].refCnt == |Holders(ss[i].pcs, o)| - Closes(ss[i].hist, o)
  {
    RunInv(ss, es, i);
    assert ObjOk(ss[i], o);
  }

  // ---------------------------------------------------------------- disciplined runs

  lemma StepSafeAt(ss: seq<State>, es: seq<Step>, i: nat)
    requires DisciplinedRun(ss, es) && i < |es| && SafeInv(ss[i]) && ss[i + 1].hist.opens <= TWO32
    ensures SafeInv(ss[i + 1])
  {
    StepAt(ss, es, i);
    DisciplineAt(ss, es, i);
    StepSafe(ss[i], es[i]);
  }

  lemma {:induction false} SafeRun(ss: seq<State>, es: seq<Step>, i: nat)
    requires DisciplinedRun(ss, es) && i < |ss| && ss[i].hist.opens <= TWO32
    ensures SafeInv(ss[i])
    decreases i
  {
    if i == 0 {
      InitSafe(ss[0]);
    } else {
      OpensGrow(ss, es, i - 1);
      SafeRun(ss, es, i - 1);
      StepSafeAt(ss, es, i - 1);
    }
  }

  /**
   * In a disciplined run no call ever touches or holds a destroyed session, and a session is gone
   * exactly when it has been closed and its last holder has released it.
   */
  lemma NeverUsedAfterDestruction(ss: seq<State>, es: seq<Step>, i: nat)
    requires DisciplinedRun(ss, es) && i < |ss| && ss[i].hist.opens <= TWO32
    ensures !ss[i].fault && AllRefsLive(ss[i])
    ensures forall o | o in ss[i].hist.bound ::
      && Closes(ss[i].hist, o) <= 1
      && (o !in ss[i].heap.objs <==> Closes(ss[i].hist, o) == 1 && Holders(ss[i].pcs, o) == {})
  {
    SafeRun(ss, es, i);
    RefsLive(ss[i]);
    forall o | o in ss[i].hist.bound
      ensures Closes(ss[i].hist, o) <= 1
      ensures o !in ss[i].heap.objs <==> Closes(ss[i].hist, o) == 1 && Holders(ss[i].pcs, o) == {}
    {
      DestroyedIff(ss[i], o);
    }
  }

  /**
   * No leak, whatever closes overlap: with no call in flight the live sessions are those in the table,
   * and no counter is off.
   */
  lemma Quiescent(ss: seq<State>, es: seq<Step>, i: nat)
    requires Run(ss, es) && i < |ss| && ss[i].hist.opens <= TWO32
    requires forall t | t in ss[i].pcs :: ss[i].pcs[t].Idle?
    ensures var h := ss[i].heap;
      && h.objs.Keys == h.table.Values
      && (forall o | o in h.objs :: h.objs[o].refCnt == 0)
      && (forall sid | sid in h.table :: h.table[sid] in h.objs && h.objs[h.table[sid]].sid == sid)
  {
    var s := ss[i];
    RunInv(ss, es, i);
    forall o | o in s.heap.objs ensures o in s.heap.table.Values && s.heap.objs[o].refCnt == 0 {
      assert ObjOk(s, o);
      assert Holders(s.pcs, o) == {};
      assert s.heap.table[s.heap.objs[o].sid] == o;
    }
    forall sid | sid in s.heap.table
      ensures s.heap.table[sid] in s.heap.objs && s.heap.objs[s.heap.table[sid]].sid == sid
    {
      assert EntryOk(s, sid);
    }
  }

  // ---------------------------------------------------------------- session ids

  lemma SidAt(ss: seq<State>, es: seq<Step>, i: nat)
    requires Run(ss, es) && i < |ss| && ss[i].hist.opens <= TWO32
    ensures ss[i].heap.nextSid == (1 + ss[i].hist.opens) % TWO32
  {
    RunInv(ss, es, i);
  }

  lemma AddCounted(ss: seq<State>, es: seq<Step>, i: nat)
    requires Run(ss, es) && i < |es| && es[i].AddSession? && !ss[i + 1].fault
    ensures ss[i + 1].hist.opens == ss[i].hist.opens + 1
  {
    StepAt(ss, es, i);
  }

  /** Session ids are handed out in increasing order and none is given twice in 2^32 opens. */
  lemma SidsNeverRepeat(ss: seq<State>, es: seq<Step>, i: nat, j: nat)
    requires Run(ss, es) && i < j < |es| && es[i].AddSession? && es[j].AddSession?
    requires !ss[i + 1].fault && ss[j].hist.opens < TWO32
    ensures ss[i].heap.nextSid != ss[j].heap.nextSid
    ensures ss[j].hist.opens < TWO32 - 1 ==> ss[i].heap.nextSid < ss[j].heap.nextSid
  {
    RunLater(ss, es, i + 1, j);
    AddCounted(ss, es, i);
    SidAt(ss, es, i);
    SidAt(ss, es, j);
  }

  /** A closing release takes the session's own entry out of the table. */
  lemma ClosingReleaseRemoves(s: State, t: Tid, o: Obj, pc: Pc)
    requires Inv(s) && o in s.heap.objs && o in s.hist.bound
    ensures var s' := UnrefStep(s, t, o, true, pc);
      && s.heap.objs[o].sid !in s'.heap.table && o !in s'.heap.table.Values && Issued(s.heap.objs[o].sid, s'.hist.opens)
      && (forall sid | sid in s.heap.table && s.heap.table[sid] != o ::
            sid in s'.heap.table && s'.heap.table[sid] == s.heap.table[sid])
      && (forall x | x in s.heap.objs && x != o :: x in s'.heap.objs && s'.heap.objs[x] == s.heap.objs[x])
  {
    assert ObjOk(s, o);
    forall sid | sid in s.heap.table
        && s.heap.table[sid] == o ensures sid == s.heap.objs[o].sid { assert EntryOk(s, sid); }
  }

  /** Once a session id has been given out and is not in the table, every later call with it is refused. */
  lemma RemovedSidIsRefused(ss: seq<State>, es: seq<Step>, i: nat, j: nat, sid: U32)
    requires Run(ss, es) && i <= j < |es| && ss[j].hist.opens <= TWO32
    requires Issued(sid, ss[i].hist.opens) && sid !in ss[i].heap.table
    requires es[j].Acquire? && es[j].sid == sid
    ensures es[j].t in ss[j + 1].pcs && ss[j + 1].pcs[es[j].t] == Idle(SA_ERR_HPI_INVALID_SESSION)
    ensures ss[j + 1].heap == ss[j].heap
  {
    RunLater(ss, es, i, j);
    StepAt(ss, es, j);
  }

  // ---------------------------------------------------------------- ohc_sess_close_all

  /** While thread t works through its snapshot, the part done is removed and the whole stays the snapshot. */
  ghost predicate Working(s: State, t: Tid, order: seq<Obj>) {
    && t in s.pcs
    && (s.pcs[t].ClosingAll? ==> s.pcs[t].done + s.pcs[t].todo == order)
    && (!s.pcs[t].ClosingAll? ==> forall o | o in order :: Closes(s.hist, o) > 0)
  }

  ghost predicate OwnStep(e: Step, t: Tid) {
    (e.Lookup? && e.t == t) || (e.CloseAllNext? && e.t == t)
  }

  lemma OthersKeepPc(s: State, e: Step, t: Tid)
    requires Enabled(s, e) && t in s.pcs && s.pcs[t].ClosingAll? && !OwnStep(e, t)
    ensures t in Apply(s, e).pcs && Apply(s, e).pcs[t] == s.pcs[t]
  {
  }

  lemma WorkingStep(s: State, e: Step, t: Tid, order: seq<Obj>)
    requires Inv(s) && Enabled(s, e) && Working(s, t, order) && s.pcs[t].ClosingAll?
    ensures Working(Apply(s, e), t, order)
  {
    assert ThreadOk(s, t);
    var pc, s' := s.pcs[t], Apply(s, e);
    if OwnStep(e, t) && e.CloseAllNext? && !s'.fault {
      assert pc.todo == [pc.todo[0]] + pc.todo[1..];
      assert (pc.done + [pc.todo[0]]) + pc.todo[1..] == order;
      if |pc.todo| == 1 {
        forall o | o in order ensures Closes(s'.hist, o) > 0 { assert o in pc.done || o == pc.todo[0]; }
      }
    } else if !OwnStep(e, t) {
      OthersKeepPc(s, e, t);
    }
  }

  /** Thread t is in close_all from i + 1 on and out of it at k. */
  ghost predicate CloseAllSpan(ss: seq<State>, es: seq<Step>, t: Tid, order: seq<Obj>, i: nat, k: nat) {
    && i < k < |ss| && i < |es| && es[i] == CloseAllBegin(t, order)
    && (forall m | i < m < k :: t in ss[m].pcs && ss[m].pcs[t].ClosingAll?)
    && t in ss[k].pcs && !ss[k].pcs[t].ClosingAll?
  }

  lemma CloseAllStartAt(ss: seq<State>, es: seq<Step>, t: Tid, order: seq<Obj>, i: nat)
    requires Run(ss, es) && i < |es| && es[i] == CloseAllBegin(t, order) && Inv(ss[i])
    ensures Working(ss[i + 1], t, order)
  {
    StepAt(ss, es, i);
    CloseAllBeginInv(ss[i], t, order);
    assert [] + order == order;
  }

  lemma WorkingStepAt(ss: seq<State>, es: seq<Step>, t: Tid, order: seq<Obj>, i: nat)
    requires Run(ss, es) && i < |es| && Inv(ss[i]) && Working(ss[i], t, order) && ss[i].pcs[t].ClosingAll?
    ensures Working(ss[i + 1], t, order)
  {
    StepAt(ss, es, i);
    WorkingStep(ss[i], es[i], t, order);
  }

  lemma {:induction false} CloseAllProgress(ss: seq<State>, es: seq<Step>, t: Tid, order: seq<Obj>, i: nat, m: nat)
    requires Run(ss, es) && i < m < |ss| && i < |es| && es[i] == CloseAllBegin(t, order) && ss[m].hist.opens <= TWO32
    requires forall n | i < n < m :: t in ss[n].pcs && ss[n].pcs[t].ClosingAll?
    ensures Working(ss[m], t, order)
    decreases m
  {
    OpensGrow(ss, es, m - 1);
    RunInv(ss, es, m - 1);
    if m == i + 1 {
      CloseAllStartAt(ss, es, t, order, i);
    } else {
      CloseAllProgress(ss, es, t, order, i, m - 1);
      WorkingStepAt(ss, es, t, order, m - 1);
    }
  }

  lemma SnapshotListed(ss: seq<State>, es: seq<Step>, t: Tid, order: seq<Obj>, i: nat)
    requires Run(ss, es) && i < |es| && es[i] == CloseAllBegin(t, order)
    ensures ListsValues(order, ss[i].heap.table)
  {
    StepAt(ss, es, i);
  }

  /**
   * When ohc_sess_close_all returns, every session that was in the table at its snapshot has had a
   * closing release and is out of the table for the rest of the run. This needs no discipline.
   */
  lemma CloseAllRemovesSnapshot(ss: seq<State>, es: seq<Step>, t: Tid, order: seq<Obj>, i: nat, k: nat, j: nat, o: Obj)
    requires Run(ss, es) && CloseAllSpan(ss, es, t, order, i, k) && k <= j < |ss| && ss[j].hist.opens <= TWO32
    requires o in ss[i].heap.table.Values
    ensures Closes(ss[j].hist, o) > 0 && o !in ss[j].heap.table.Values
  {
    RunLater(ss, es, k, j);
    CloseAllProgress(ss, es, t, order, i, k);
    SnapshotListed(ss, es, t, order, i);
    RunInv(ss, es, j);
    if o in ss[j].heap.table.Values { TableValuesOk(ss[j], o); }
  }

  /** A releasing step of close_all changes no session and no entry but those of the session it releases. */
  lemma CloseAllNextTouches(s: State, t: Tid)
    requires Inv(s) && Enabled(s, CloseAllNext(t))
    ensures var s', o := Apply(s, CloseAllNext(t)), s.pcs[t].todo[0];
      && (forall sid | sid in s.heap.table && s.heap.table[sid] != o ::
            sid in s'.heap.table && s'.heap.table[sid] == s.heap.table[sid])
      && (forall x | x in s.heap.objs && x != o :: x in s'.heap.objs && s'.heap.objs[x] == s.heap.objs[x])
  {
    var o := s.pcs[t].todo[0];
    if o in s.heap.objs {
      assert ThreadOk(s, t) && Holds(s.pcs[t], o);
      ClosingReleaseRemoves(s, t, o, AfterCloseAll(s.pcs[t]));
    }
  }

  /** The snapshot holds no session that is added, or opened, after it. */
  lemma SnapshotIsOlder(ss: seq<State>, es: seq<Step>, t: Tid, order: seq<Obj>, i: nat, o: Obj)
    requires Run(ss, es) && i < |es| && es[i] == CloseAllBegin(t, order) && ss[i].hist.opens <= TWO32
    requires o !in ss[i].hist.bound || ss[i].heap.nextObj <= o
    ensures o !in order
  {
    SnapshotListed(ss, es, t, order, i);
    RunInv(ss, es, i);
    if o in ss[i].heap.table.Values { TableValuesOk(ss[i], o); }
  }

  /**
   * Over the whole of ohc_sess_close_all, from its snapshot to its return, none of its releases touches
   * a session that is not in the snapshot, nor its entry; so none that was opened since.
   */
  lemma CloseAllTouchesOnlySnapshot(ss: seq<State>, es: seq<Step>, t: Tid, order: seq<Obj>, i: nat, m: nat, o: Obj)
    requires Run(ss, es) && i < m < |es| && es[i] == CloseAllBegin(t, order) && ss[m].hist.opens <= TWO32
    requires forall n | i < n <= m :: t in ss[n].pcs && ss[n].pcs[t].ClosingAll?
    requires es[m] == CloseAllNext(t) && o !in ss[i].heap.table.Values
    ensures o in ss[m].heap.objs ==> o in ss[m + 1].heap.objs && ss[m + 1].heap.objs[o] == ss[m].heap.objs[o]
    ensures forall sid | sid in ss[m].heap.table && ss[m].heap.table[sid] == o ::
              sid in ss[m + 1].heap.table && ss[m + 1].heap.table[sid] == o
  {
    CloseAllProgress(ss, es, t, order, i, m);
    SnapshotListed(ss, es, t, order, i);
    RunInv(ss, es, m);
    StepAt(ss, es, m);
    assert ss[m].pcs[t].todo[0] in order;
    CloseAllNextTouches(ss[m], t);
  }

  /** Step e is a closing release of o by t. */
  ghost predicate ClosingRelease(s: State, e: Step, t: Tid, o: Obj) {
    t in s.pcs
    && ((e == Release(t) && s.pcs[t].Releasing? && s.pcs[t].closed && s.pcs[t].obj == o)
        || (e == CloseAllNext(t) && s.pcs[t].ClosingAll? && s.pcs[t].todo != [] && s.pcs[t].todo[0] == o))
  }

  lemma ClosingReleaseOut(s: State, e: Step, t: Tid, o: Obj)
    requires Inv(s) && Enabled(s, e) && ClosingRelease(s, e, t, o) && o in s.heap.objs
    ensures o !in Apply(s, e).heap.table.Values && Apply(s, e).pcs.Keys == s.pcs.Keys
    ensures forall u | u in s.pcs && u != t :: Apply(s, e).pcs[u] == s.pcs[u]
  {
    assert ThreadOk(s, t) && Holds(s.pcs[t], o);
    ClosingReleaseRemoves(s, t, o, Apply(s, e).pcs[t]);
  }
}
