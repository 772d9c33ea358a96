/**
 * The session layer relies on the domain table: it reads a domain entry after leaving the lock, and
 * looks a session's domain up again in every call. When that is sound, exactly.
 */
module SessionDomains {
  import opened Hpi
  import opened DomainTable
  import opened SessionState
  import opened SessionInvariant
  import opened SessionSafety
  import opened SessionRuns
  import SessionOverlap

  /** The domain did is in the table, and conf is an entry of that domain. */
  ghost predicate ConfOk(t: Table, did: U32, conf: DomainConf) {
    did in t && conf.did == did
  }

  /** The entry a thread uses outside the lock. */
  ghost function InUse(pc: Pc): Option<(Obj, DomainConf)> {
    match pc
    case Calling(o, _, Some(dc)) => Some((o, dc))
    case Adding(o, conf) => Some((o, conf))
    case ClosingAll(_, todo, Some(dc)) => if todo == [] then None else Some((todo[0], dc))
    case _ => None
  }

  ghost predicate PcConfOk(s: State, pc: Pc) {
    match InUse(pc)
    case Some((o, dc)) => o in s.heap.objs ==> ConfOk(s.domains, s.heap.objs[o].did, dc)
    case None => true
  }

  ghost predicate DomInv(s: State) {
    && WellKeyed(s.domains)
    && (forall o | o in s.heap.objs && o in s.hist.bound :: ConfOk(s.domains, s.heap.objs[o].did, s.hist.bound[o]))
    && (forall t | t in s.pcs :: PcConfOk(s, s.pcs[t]))
  }

  // ---------------------------------------------------------------- what a step does to sessions

  /** Sessions keep their domain, and new ones are not yet bound. */
  ghost predicate Quiet(s: State, s': State) {
    && s'.domains == s.domains && s'.hist.bound == s.hist.bound
    && (forall o | o in s'.heap.objs && o in s.heap.objs :: s'.heap.objs[o].did == s.heap.objs[o].did)
    && (forall o | o in s'.heap.objs && o !in s.heap.objs :: s.heap.nextObj <= o)
  }

  /** Only thread t moves. */
  ghost predicate Moves(s: State, s': State, t: Tid) {
    t in s.pcs && t in s'.pcs && s'.pcs == s.pcs[t := s'.pcs[t]]
  }

  lemma StepQuiet(s: State, e: Step)
    requires IdsOk(s) && Enabled(s, e) && Touched(s, e) <= s.heap.objs.Keys && !e.AddSession? && !e.DomainAdd?
    ensures Quiet(s, Apply(s, e)) && Moves(s, Apply(s, e), e.t)
  {
  }

  /** Whoever uses an entry outside the lock does so for a session that exists or existed. */
  lemma InUseKnown(s: State, t: Tid)
    requires Inv(s) && t in s.pcs && InUse(s.pcs[t]).Some?
    ensures InUse(s.pcs[t]).value.0 < s.heap.nextObj
  {
    assert ThreadOk(s, t);
    var o := InUse(s.pcs[t]).value.0;
    assert Holds(s.pcs[t], o) || Opens(s.pcs[t], o);
  }

  /** The entry a thread starts to use is the one the table has under the session's domain id. */
  lemma OwnEntry(s: State, e: Step)
    requires DomInv(s) && Enabled(s, e) && Touched(s, e) <= s.heap.objs.Keys && !e.AddSession? && !e.DomainAdd?
    ensures e.t in Apply(s, e).pcs && PcConfOk(Apply(s, e), Apply(s, e).pcs[e.t])
  {
    assert PcConfOk(s, s.pcs[e.t]);
  }

  lemma QuietKeeps(s: State, s': State, t: Tid)
    requires Inv(s) && DomInv(s) && Quiet(s, s') && Moves(s, s', t) && PcConfOk(s', s'.pcs[t])
    ensures DomInv(s')
  {
    forall u | u in s'.pcs && u != t ensures PcConfOk(s', s'.pcs[u]) {
      assert PcConfOk(s, s.pcs[u]);
      if InUse(s.pcs[u]).Some? { InUseKnown(s, u); }
    }
  }

  lemma AddSessionKeeps(s: State, t: Tid)
    requires DomInv(s) && Enabled(s, AddSession(t)) && s.pcs[t].obj in s.heap.objs
    ensures DomInv(AddStep(s, t))
  {
    var s' := AddStep(s, t);
    assert PcConfOk(s, s.pcs[t]);
    forall u | u in s'.pcs ensures PcConfOk(s', s'.pcs[u]) { assert PcConfOk(s, s.pcs[u]); }
  }

  lemma DomainAddKeeps(s: State, op: AddOp)
    requires DomInv(s)
    ensures DomInv(s.(domains := Add(s.domains, op).0))
  {
    var s' := s.(domains := Add(s.domains, op).0);
    AddExtendsIff(s.domains, op);
    forall t | t in s'.pcs ensures PcConfOk(s', s'.pcs[t]) { assert PcConfOk(s, s.pcs[t]); }
  }

  lemma FaultKeeps(s: State)
    requires DomInv(s)
    ensures DomInv(s.(fault := true))
  {
    forall t | t in s.pcs ensures PcConfOk(s.(fault := true), s.pcs[t]) { assert PcConfOk(s, s.pcs[t]); }
  }

  lemma StepKeepsDomains(s: State, e: Step)
    requires Inv(s) && DomInv(s) && Enabled(s, e)
    ensures DomInv(Apply(s, e))
  {
    if !(Touched(s, e) <= s.heap.objs.Keys) {
      FaultKeeps(s);
    } else if e.AddSession? {
      AddSessionKeeps(s, e.t);
    } else if e.DomainAdd? {
      DomainAddKeeps(s, e.op);
    } else {
      StepQuiet(s, e);
      OwnEntry(s, e);
      QuietKeeps(s, Apply(s, e), e.t);
    }
  }

  lemma {:induction false} RunDomains(ss: seq<State>, es: seq<Step>, i: nat)
    requires Run(ss, es) && i < |ss| && ss[i].hist.opens <= TWO32
    ensures DomInv(ss[i])
    decreases i
  {
    if i > 0 {
      OpensGrow(ss, es, i - 1);
      RunDomains(ss, es, i - 1);
      RunInv(ss, es, i - 1);
      StepAt(ss, es, i - 1);
      StepKeepsDomains(ss[i - 1], es[i - 1]);
    }
  }

  /** ohc_sess_get_entity_root never reports an invalid domain for a session it found. */
  lemma EntityRootFound(ss: seq<State>, es: seq<Step>, i: nat, t: Tid)
    requires Run(ss, es) && i < |es| && ss[i].hist.opens <= TWO32 && es[i] == Lookup(t) && !ss[i + 1].fault
    requires t in ss[i].pcs && ss[i].pcs[t].Calling? && ss[i].pcs[t].call.Root?
    ensures t in ss[i + 1].pcs && ss[i + 1].pcs[t] == Releasing(ss[i].pcs[t].obj, false, SA_OK)
  {
    StepAt(ss, es, i);
    RunInv(ss, es, i);
    RunDomains(ss, es, i);
    assert ThreadOk(ss[i], t) && Holds(ss[i].pcs[t], ss[i].pcs[t].obj);
  }

  // ---------------------------------------------------------------- entries in use outside the lock

  /** The thread uses an entry of domain d. */
  ghost predicate Uses(pc: Pc, d: U32) {
    InUse(pc).Some? && InUse(pc).value.1.did == d
  }

  /** Whoever uses an entry of domain d uses the one the table has. */
  ghost predicate UseOk(s: State, d: U32) {
    forall t | t in s.pcs && Uses(s.pcs[t], d) :: d in s.domains && s.domains[d] == InUse(s.pcs[t]).value.1
  }

  /** The step replaces the entry of domain d while a thread uses it. */
  ghost predicate ReplacesInUse(s: State, e: Step, d: U32) {
    && e.DomainAdd? && Replaces(s.domains, e.op, d)
    && exists t :: t in s.pcs && Uses(s.pcs[t], d)
  }

  lemma OthersKeepUse(s: State, e: Step, d: U32)
    requires WellKeyed(s.domains) && UseOk(s, d) && Enabled(s, e) && !e.DomainAdd?
    ensures UseOk(Apply(s, e), d)
  {
    var s' := Apply(s, e);
    forall t | t in s'.pcs && Uses(s'.pcs[t], d) ensures d in s'.domains && s'.domains[d] == InUse(s'.pcs[t]).value.1 {
      if t in s.pcs && Uses(s.pcs[t], d) { assert s.domains[d] == InUse(s.pcs[t]).value.1; }
    }
  }

  lemma AddUseIff(s: State, op: AddOp, d: U32)
    requires WellKeyed(s.domains) && UseOk(s, d)
    ensures UseOk(s.(domains := Add(s.domains, op).0), d) <==> !ReplacesInUse(s, DomainAdd(op), d)
  {
    var s' := s.(domains := Add(s.domains, op).0);
    if exists t :: t in s.pcs && Uses(s.pcs[t], d) {
      var t :| t in s.pcs && Uses(s.pcs[t], d);
      assert d in s.domains;
      AddReplacesIff(s.domains, op, d);
      assert t in s'.pcs && Uses(s'.pcs[t], d);
    }
  }

  lemma UseStepIff(s: State, e: Step, d: U32)
    requires WellKeyed(s.domains) && UseOk(s, d) && Enabled(s, e)
    ensures UseOk(Apply(s, e), d) <==> !ReplacesInUse(s, e, d)
  {
    if e.DomainAdd? { AddUseIff(s, e.op, d); } else { OthersKeepUse(s, e, d); }
  }

  lemma {:induction false} RunKeyed(ss: seq<State>, es: seq<Step>, i: nat)
    requires Run(ss, es) && i < |ss|
    ensures WellKeyed(ss[i].domains)
    decreases i
  {
    if i > 0 {
      RunKeyed(ss, es, i - 1);
      StepAt(ss, es, i - 1);
      if es[i - 1].DomainAdd? { AddExtendsIff(ss[i - 1].domains, es[i - 1].op); }
    }
  }

  lemma UseStepAt(ss: seq<State>, es: seq<Step>, i: nat, d: U32)
    requires Run(ss, es) && i < |es| && UseOk(ss[i], d)
    ensures UseOk(ss[i + 1], d) <==> !ReplacesInUse(ss[i], es[i], d)
  {
    StepAt(ss, es, i);
    RunKeyed(ss, es, i);
    UseStepIff(ss[i], es[i], d);
  }

  /**
   * Of any run and any domain: every entry of that domain that GetSock goes on reading after it has unlocked is the
   * table's entry all the time, if and only if no add replaces the domain's entry while it is in use. For a domain
   * other than 1 that never happens.
   */
  lemma {:induction false} UnlockedEntryStaysValid(ss: seq<State>, es: seq<Step>, n: nat, d: U32)
    requires Run(ss, es) && n < |ss|
    ensures (forall i | 0 <= i <= n :: UseOk(ss[i], d)) <==> (forall i | 0 <= i < n :: !ReplacesInUse(ss[i], es[i], d))
    ensures d != 1 ==> forall i | 0 <= i <= n :: UseOk(ss[i], d)
    decreases n
  {
    if n == 0 {
    } else {
      UnlockedEntryStaysValid(ss, es, n - 1, d);
      if UseOk(ss[n - 1], d) { UseStepAt(ss, es, n - 1, d); }
    }
  }

  // ---------------------------------------------------------------- entries of open sessions

  /** Every added session on domain d that is still alive has the entry it was opened with. */
  ghost predicate SessionsOk(s: State, d: U32) {
    forall o | o in s.heap.objs && o in s.hist.bound && s.heap.objs[o].did == d ::
      d in s.domains && s.domains[d] == s.hist.bound[o]
  }

  ghost predicate OnDomain(s: State, o: Obj, d: U32) {
    o in s.heap.objs && o in s.hist.bound && s.heap.objs[o].did == d
  }

  /** The step replaces the entry of domain d while a thread uses it or a session is open on it. */
  ghost predicate ReplacesEntry(s: State, e: Step, d: U32) {
    && e.DomainAdd? && Replaces(s.domains, e.op, d)
    && ((exists t :: t in s.pcs && Uses(s.pcs[t], d)) || (exists o :: OnDomain(s, o, d)))
  }

  lemma OthersKeepSessions(s: State, e: Step, d: U32)
    requires IdsOk(s) && DomInv(s) && UseOk(s, d) && SessionsOk(s, d) && Enabled(s, e) && !e.DomainAdd?
    ensures SessionsOk(Apply(s, e), d)
  {
    if Touched(s, e) <= s.heap.objs.Keys {
      if e.AddSession? {
        assert PcConfOk(s, s.pcs[e.t]);
        assert InUse(s.pcs[e.t]) == Some((s.pcs[e.t].obj, s.pcs[e.t].conf));
      } else {
        StepQuiet(s, e);
      }
    }
  }

  lemma AddSessionsIff(s: State, op: AddOp, d: U32)
    requires WellKeyed(s.domains) && SessionsOk(s, d)
    ensures SessionsOk(s.(domains := Add(s.domains, op).0), d)
       <==> !(Replaces(s.domains, op, d) && exists o :: OnDomain(s, o, d))
  {
    var s' := s.(domains := Add(s.domains, op).0);
    if exists o :: OnDomain(s, o, d) {
      var o :| OnDomain(s, o, d);
      assert d in s.domains;
      AddReplacesIff(s.domains, op, d);
      assert OnDomain(s', o, d);
    } else {
      forall o | o in s'.heap.objs && o in s'.hist.bound ensures s'.heap.objs[o].did != d {
        assert !OnDomain(s, o, d);
      }
    }
  }

  ghost predicate EntriesOk(s: State, d: U32) {
    UseOk(s, d) && SessionsOk(s, d)
  }

  lemma EntriesStepIff(s: State, e: Step, d: U32)
    requires Inv(s) && DomInv(s) && EntriesOk(s, d) && Enabled(s, e)
    ensures EntriesOk(Apply(s, e), d) <==> !ReplacesEntry(s, e, d)
  {
    UseStepIff(s, e, d);
    if e.DomainAdd? { AddSessionsIff(s, e.op, d); } else { OthersKeepSessions(s, e, d); }
  }

  lemma EntriesStepAt(ss: seq<State>, es: seq<Step>, i: nat, d: U32)
    requires Run(ss, es) && i < |es| && ss[i].hist.opens <= TWO32 && EntriesOk(ss[i], d)
    ensures EntriesOk(ss[i + 1], d) <==> !ReplacesEntry(ss[i], es[i], d)
  {
    StepAt(ss, es, i);
    RunInv(ss, es, i);
    RunDomains(ss, es, i);
    EntriesStepIff(ss[i], es[i], d);
  }

  /**
   * Of any run and any domain: every open session on it keeps the host, port and entity root it was opened with, and
   * every entry of it in use is the table's, if and only if no add replaces the domain's entry meanwhile.
   */
  lemma {:induction false} EntriesKeptIff(ss: seq<State>, es: seq<Step>, n: nat, d: U32)
    requires Run(ss, es) && n < |ss| && ss[n].hist.opens <= TWO32
    ensures (forall i | 0 <= i <= n :: EntriesOk(ss[i], d))
       <==> (forall i | 0 <= i < n :: !ReplacesEntry(ss[i], es[i], d))
    decreases n
  {
    if n == 0 {
    } else {
      OpensGrow(ss, es, n - 1);
      EntriesKeptIff(ss, es, n - 1, d);
      if EntriesOk(ss[n - 1], d) { EntriesStepAt(ss, es, n - 1, d); }
    }
  }

  /**
   * Every open session's domain is in the table for the rest of the run, whatever is added. It keeps the entry it was
   * opened with, always on a domain other than 1, and on domain 1 as long as no add replaces that entry.
   */
  lemma OpenSessionsKeepDomain(ss: seq<State>, es: seq<Step>, i: nat, sid: U32)
    requires Run(ss, es) && i < |ss| && ss[i].hist.opens <= TWO32 && sid in ss[i].heap.table
    ensures var s := ss[i]; var o := s.heap.table[sid];
      && o in s.heap.objs && o in s.hist.bound && s.heap.objs[o].did in s.domains
      && (s.heap.objs[o].did != 1 || (forall k | 0 <= k < i :: !ReplacesEntry(ss[k], es[k], 1))
          ==> s.domains[s.heap.objs[o].did] == s.hist.bound[o])
  {
    RunInv(ss, es, i);
    assert EntryOk(ss[i], sid);
    RunDomains(ss, es, i);
    EntriesKeptIff(ss, es, i, ss[i].heap.objs[ss[i].heap.table[sid]].did);
  }

  // ---------------------------------------------------------------- where it fails

  /** Thread 0 has connected to domain 1 to open a session on it, and still uses the domain's entry. */
  lemma DomainOneInUse(domains: Table) returns (ss: seq<State>, es: seq<Step>)
    requires WellKeyed(domains) && 1 in domains
    ensures SessionOverlap.ObeyingRun(ss, es, true, true)
    ensures var s := ss[|es|];
      && s.heap == Heap(map[0 := Session(0, 1, 0)], map[], 1, 1) && !s.fault && s.domains == domains
      && 0 in s.pcs && s.pcs[0] == Calling(0, Open, Some(domains[1])) && s.hist.bound == map[]
  {
    ss, es := [SessionOverlap.Start(domains)], [];
    ss, es := SessionOverlap.Extend(ss, es, true, true, OpenBegin(0, 1));
    ss, es := SessionOverlap.Extend(ss, es, true, true, Lookup(0));
  }

  /**
   * With a domain of 2^31 or above configured, an automatic add replaces the entry of domain 1 while a thread that
   * has left the lock goes on reading it.
   */
  lemma EntryReplacedInUse(domains: Table, op: AddOp) returns (ss: seq<State>, es: seq<Step>)
    requires WellKeyed(domains) && 1 in domains && !Small(domains)
    requires op.Auto? && Requested(op, 1) != domains[1]
    ensures DisciplinedRun(ss, es) && !ss[|es|].fault && !UseOk(ss[|es|], 1)
  {
    ss, es := DomainOneInUse(domains);
    var s := ss[|es|];
    assert 0 in s.pcs && Uses(s.pcs[0], 1);
    AddReplacesIff(domains, op, 1);
    ss, es := SessionOverlap.Extend(ss, es, true, true, DomainAdd(op));
    assert Uses(ss[|es|].pcs[0], 1);
    SessionOverlap.ObeyingBoth(ss, es);
  }

  /** The same under a session that is open on domain 1. */
  lemma EntryReplacedUnderSession(domains: Table, op: AddOp) returns (ss: seq<State>, es: seq<Step>)
    requires WellKeyed(domains) && 1 in domains && !Small(domains)
    requires op.Auto? && Requested(op, 1) != domains[1]
    ensures DisciplinedRun(ss, es)
    ensures var s := ss[|es|];
      && 1 in s.heap.table && s.heap.table[1] in s.heap.objs && s.heap.table[1] in s.hist.bound
      && s.heap.objs[s.heap.table[1]].did == 1 && 1 in s.domains
      && s.domains[1] != s.hist.bound[s.heap.table[1]]
  {
    ss, es := DomainOneInUse(domains);
    ss, es := SessionOverlap.Extend(ss, es, true, true, Reply(0, SA_OK));
    ss, es := SessionOverlap.Extend(ss, es, true, true, AddSession(0));
    AddReplacesIff(domains, op, 1);
    ss, es := SessionOverlap.Extend(ss, es, true, true, DomainAdd(op));
    SessionOverlap.ObeyingBoth(ss, es);
  }
}
