/**
 * The two conditions of module SessionSafety are needed: without either one a session can be destroyed
 * while a call uses it. A disciplined run stands beside the two that fail.
 */
module SessionOverlap {
  import opened Hpi
  import opened DomainTable
  import opened SessionState
  import opened SessionInvariant
  import opened SessionSafety
  import opened SessionRuns

  /** The step meets those of the two conditions that are asked for. */
  ghost predicate Obeys(s: State, e: Step, alone: bool, once: bool)
    requires Enabled(s, e)
  {
    (alone ==> CloseAllAlone(s, e)) && (once ==> AckedOnce(s, e))
  }

  ghost predicate ObeyingRun(ss: seq<State>, es: seq<Step>, alone: bool, once: bool) {
    && Run(ss, es)
    && forall i {:trigger At(i)} | 0 <= i < |es| :: Enabled(ss[i], es[i]) && Obeys(ss[i], es[i], alone, once)
  }

  lemma ObeysAt(ss: seq<State>, es: seq<Step>, alone: bool, once: bool, i: nat)
    requires ObeyingRun(ss, es, alone, once) && i < |es|
    ensures Enabled(ss[i], es[i]) && Obeys(ss[i], es[i], alone, once)
  {
    var k := At(i);
    assert k == i;
  }

  lemma ObeyingBoth(ss: seq<State>, es: seq<Step>)
    requires ObeyingRun(ss, es, true, true)
    ensures DisciplinedRun(ss, es)
  {
    forall i | 0 <= i < |es| ensures Enabled(ss[i], es[i]) && Disciplined(ss[i], es[i]) {
      ObeysAt(ss, es, true, true, i);
    }
  }

  lemma Extend(ss: seq<State>, es: seq<Step>, alone: bool, once: bool, e: Step)
    returns (ss': seq<State>, es': seq<Step>)
    requires ObeyingRun(ss, es, alone, once) && Enabled(ss[|es|], e) && Obeys(ss[|es|], e, alone, once)
    ensures ObeyingRun(ss', es', alone, once)
    ensures |es'| == |es| + 1 && ss'[|es'|] == Apply(ss[|es|], e) && ss'[|es|] == ss[|es|]
  {
    ss', es' := ss + [Apply(ss[|es|], e)], es + [e];
    forall i | 0 <= i < |es'|
      ensures Enabled(ss'[i], es'[i]) && Obeys(ss'[i], es'[i], alone, once) && ss'[i + 1] == Apply(ss'[i], es'[i])
    {
      if i < |es| {
        StepAt(ss, es, i);
        ObeysAt(ss, es, alone, once, i);
        assert ss'[i] == ss[i] && ss'[i + 1] == ss[i + 1] && es'[i] == es[i];
      }
    }
  }

  /** Three idle threads and a configured default domain. */
  ghost function Start(domains: Table): State {
    State(Heap(map[], map[], 1, 0), domains, map[0 := Idle(0), 1 := Idle(0), 2 := Idle(0)], false,
          History(0, map[], map[], map[], {}))
  }

  /** Session 1 is open, with counter cnt. */
  ghost function Opened1(cnt: int): Heap {
    Heap(map[0 := Session(cnt, 0, 1)], map[1 := 0], 2, 1)
  }

  /** Thread 0 opens session 1. */
  lemma OneSessionOpen(domains: Table, alone: bool, once: bool) returns (ss: seq<State>, es: seq<Step>)
    requires WellKeyed(domains) && 0 in domains
    ensures ObeyingRun(ss, es, alone, once)
    ensures var s := ss[|es|];
      && s.heap == Opened1(0) && !s.fault && s.hist.acked == {}
      && s.pcs == map[0 := Idle(SA_OK), 1 := Idle(0), 2 := Idle(0)]
  {
    ss, es := [Start(domains)], [];
    ss, es := Extend(ss, es, alone, once, OpenBegin(0, 0));
    ss, es := Extend(ss, es, alone, once, Lookup(0));
    ss, es := Extend(ss, es, alone, once, Reply(0, SA_OK));
    ss, es := Extend(ss, es, alone, once, AddSession(0));
  }

  /** Thread 1 starts an ordinary call on the open session, and then thread 2 a close. */
  lemma CallAndClose(domains: Table, alone: bool, once: bool) returns (ss: seq<State>, es: seq<Step>)
    requires WellKeyed(domains) && 0 in domains
    ensures ObeyingRun(ss, es, alone, once)
    ensures var s := ss[|es|];
      && s.heap == Opened1(2) && !s.fault && s.hist.acked == {}
      && s.pcs == map[0 := Idle(SA_OK), 1 := Calling(0, Plain, None), 2 := Calling(0, Close, None)]
  {
    ss, es := OneSessionOpen(domains, alone, once);
    ss, es := Extend(ss, es, alone, once, Acquire(1, 1, Plain));
    assert ss[|es|].heap.objs == map[0 := Session(1, 0, 1)];
    ss, es := Extend(ss, es, alone, once, Acquire(2, 1, Close));
    assert ss[|es|].heap.objs == map[0 := Session(2, 0, 1)];
  }

  /** The daemon acknowledges thread 2's close and the thread releases. */
  lemma CloseDone(ss0: seq<State>, es0: seq<Step>, alone: bool, once: bool) returns (ss: seq<State>, es: seq<Step>)
    requires ObeyingRun(ss0, es0, alone, once)
    requires var s := ss0[|es0|];
      && s.heap == Opened1(3) && !s.fault && s.hist.acked == {}
      && 2 in s.pcs && s.pcs[2] == Calling(0, Close, None)
    ensures ObeyingRun(ss, es, alone, once)
    ensures var s := ss[|es|];
      && s.heap == Heap(map[0 := Session(1, 0, 1)], map[], 2, 1) && !s.fault && s.hist.acked == {0}
      && s.pcs == ss0[|es0|].pcs[2 := Idle(SA_OK)]
  {
    ss, es := Extend(ss0, es0, alone, once, Reply(2, SA_OK));
    ss, es := Extend(ss, es, alone, once, Release(2));
    assert ss[|es|].heap.objs == map[0 := Session(1, 0, 1)];
    assert ss[|es|].heap.table == map[];
  }

  /**
   * An acknowledged close overlaps a close_all, the daemon acknowledging no session twice: the session is
   * destroyed under thread 1, whose next access is to freed memory.
   */
  lemma OverlappingClosesDestroyInUse(domains: Table) returns (ss: seq<State>, es: seq<Step>)
    requires WellKeyed(domains) && 0 in domains
    ensures ObeyingRun(ss, es, false, true) && |es| > 0 && !AllRefsLive(ss[|es| - 1]) && ss[|es|].fault
  {
    ss, es := CallAndClose(domains, false, true);
    assert ss[|es|].heap.table == map[1 := 0] && ss[|es|].heap.table[1] == 0;
    assert ListsValues([0], ss[|es|].heap.table);
    ss, es := Extend(ss, es, false, true, CloseAllBegin(0, [0]));
    assert ss[|es|].heap.objs == map[0 := Session(3, 0, 1)];
    ss, es := CloseDone(ss, es, false, true);
    ss, es := Extend(ss, es, false, true, CloseAllNext(0));
    var s := ss[|es|];
    assert s.heap.objs == map[];
    assert 1 in s.pcs && Holds(s.pcs[1], 0);
    ss, es := Extend(ss, es, false, true, Reply(1, SA_OK));
  }

  /** Without any close_all, two overlapping closes of one session that the daemon both acknowledges do the same. */
  lemma DoubleAcknowledgeDestroysInUse(domains: Table) returns (ss: seq<State>, es: seq<Step>)
    requires WellKeyed(domains) && 0 in domains
    ensures ObeyingRun(ss, es, true, false) && |es| > 0 && !AllRefsLive(ss[|es| - 1]) && ss[|es|].fault
  {
    ss, es := CallAndClose(domains, true, false);
    ss, es := Extend(ss, es, true, false, Acquire(0, 1, Close));
    assert ss[|es|].heap.objs == map[0 := Session(3, 0, 1)];
    ss, es := CloseDone(ss, es, true, false);
    ss, es := Extend(ss, es, true, false, Reply(0, SA_OK));
    ss, es := Extend(ss, es, true, false, Release(0));
    var s := ss[|es|];
    assert s.heap.objs == map[];
    assert 1 in s.pcs && Holds(s.pcs[1], 0);
    ss, es := Extend(ss, es, true, false, Reply(1, SA_OK));
  }

  /** Both conditions met: a session closed in use is out of the table at once and lives until thread 1 releases it. */
  lemma DisciplinedCloseInUse(domains: Table) returns (ss: seq<State>, es: seq<Step>)
    requires WellKeyed(domains) && 0 in domains
    ensures DisciplinedRun(ss, es) && |es| > 1
    ensures var s := ss[|es| - 1];
            s.heap.table == map[] && s.heap.objs.Keys == {0} && 1 in s.pcs && s.pcs[1].Releasing?
    ensures ss[|es|].heap.objs == map[] && !ss[|es|].fault
  {
    ss, es := CallAndClose(domains, true, true);
    ss, es := Extend(ss, es, true, true, Reply(2, SA_OK));
    ss, es := Extend(ss, es, true, true, Release(2));
    assert ss[|es|].heap.objs == map[0 := Session(0, 0, 1)];
    ss, es := Extend(ss, es, true, true, Reply(1, SA_OK));
    ss, es := Extend(ss, es, true, true, Release(1));
    ObeyingBoth(ss, es);
    assert ss[|es|].heap.objs == map[];
  }
}
