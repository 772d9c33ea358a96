/** The exact condition under which a run of the session layer is safe, disciplined or not. */
module SessionSoundness {
  import opened Hpi
  import opened SessionState
  import opened SessionInvariant
  import opened SessionSafety
  import opened SessionRuns

  /** The release leaves nobody holding the session, or no more closing releases than holders. */
  ghost predicate SafeCount(s: State, o: Obj) {
    Holders(s.pcs, o) == {} || Closes(s.hist, o) <= |Holders(s.pcs, o)|
  }

  ghost predicate ReleaseSafe(s: State, e: Step) {
    Enabled(s, e) ==>
      match e
      case Release(t) => SafeCount(Apply(s, e), s.pcs[t].obj)
      case CloseAllNext(t) => SafeCount(Apply(s, e), s.pcs[t].todo[0])
      case _ => true
  }

  ghost predicate Sound(s: State) {
    AllRefsLive(s) && !s.fault
  }

  /** A step that is no release destroys no session that some thread holds. */
  lemma HeldSurvives(s: State, e: Step, u: Tid, o: Obj)
    requires Inv(s) && AllRefsLive(s) && Enabled(s, e) && Touched(s, e) <= s.heap.objs.Keys
    requires !e.Release? && !e.CloseAllNext? && u in s.pcs && Holds(s.pcs[u], o)
    ensures o in Apply(s, e).heap.objs
  {
    assert o in s.heap.objs;
    assert ThreadOk(s, u);
    if e.Lookup? || e.Reply? { assert ThreadOk(s, e.t); }
  }

  /** What the step's own thread holds afterwards it held before, or it took it from the table. */
  lemma OwnReference(s: State, e: Step, o: Obj)
    requires Enabled(s, e) && Touched(s, e) <= s.heap.objs.Keys
    requires !e.Release? && !e.CloseAllNext? && !e.DomainAdd?
    requires e.t in Apply(s, e).pcs && Holds(Apply(s, e).pcs[e.t], o)
    ensures e.t in s.pcs
    ensures Holds(s.pcs[e.t], o) || (o in s.heap.table.Values && Apply(s, e).heap.objs.Keys == s.heap.objs.Keys)
  {
  }

  lemma NewRefLive(s: State, e: Step, t: Tid, o: Obj)
    requires Inv(s) && AllRefsLive(s) && Enabled(s, e) && Touched(s, e) <= s.heap.objs.Keys
    requires !e.Release? && !e.CloseAllNext? && t in Apply(s, e).pcs && Holds(Apply(s, e).pcs[t], o)
    ensures o in Apply(s, e).heap.objs
  {
    if !e.DomainAdd? && t == e.t { OwnReference(s, e, o); }
    if t in s.pcs && Holds(s.pcs[t], o) { HeldSurvives(s, e, t, o); } else { SnapshotLive(s); }
  }

  /** A step that is no release leaves every reference alive. */
  lemma OthersKeepRefs(s: State, e: Step)
    requires Inv(s) && AllRefsLive(s) && Enabled(s, e) && Touched(s, e) <= s.heap.objs.Keys
    requires !e.Release? && !e.CloseAllNext?
    ensures AllRefsLive(Apply(s, e))
  {
    forall t, o | t in Apply(s, e).pcs && Holds(Apply(s, e).pcs[t], o) ensures o in Apply(s, e).heap.objs {
      NewRefLive(s, e, t, o);
    }
  }

  lemma StepSoundIff(s: State, e: Step)
    requires Inv(s) && Sound(s) && Enabled(s, e)
    ensures Sound(Apply(s, e)) <==> ReleaseSafe(s, e)
  {
    LiveNoFault(s, e);
    match e
    case Release(t) =>
      assert ThreadOk(s, t) && Holds(s.pcs[t], s.pcs[t].obj);
      UnrefSafeIff(s, t, s.pcs[t].obj, s.pcs[t].closed, Idle(s.pcs[t].rv));
    case CloseAllNext(t) =>
      assert ThreadOk(s, t) && Holds(s.pcs[t], s.pcs[t].todo[0]);
      CloseAllLetsGo(s, t);
      UnrefSafeIff(s, t, s.pcs[t].todo[0], true, AfterCloseAll(s.pcs[t]));
    case _ => OthersKeepRefs(s, e);
  }

  lemma StepSoundIffAt(ss: seq<State>, es: seq<Step>, i: nat)
    requires Run(ss, es) && i < |es| && ss[i].hist.opens <= TWO32 && Sound(ss[i])
    ensures Sound(ss[i + 1]) <==> ReleaseSafe(ss[i], es[i])
  {
    StepAt(ss, es, i);
    RunInv(ss, es, i);
    StepSoundIff(ss[i], es[i]);
  }

  /**
   * Of any run, disciplined or not: every reference is alive in every state, and nothing destroyed is
   * touched, if and only if no release leaves a session with holders but more closing releases than holders.
   */
  lemma {:induction false} RunSoundIff(ss: seq<State>, es: seq<Step>, n: nat)
    requires Run(ss, es) && n < |ss| && ss[n].hist.opens <= TWO32
    ensures (forall i | 0 <= i <= n :: Sound(ss[i])) <==> (forall i | 0 <= i < n :: ReleaseSafe(ss[i], es[i]))
    decreases n
  {
    if n == 0 {
    } else {
      OpensGrow(ss, es, n - 1);
      RunSoundIff(ss, es, n - 1);
      if Sound(ss[n - 1]) { StepSoundIffAt(ss, es, n - 1); }
    }
  }

  // ---------------------------------------------------------------- what soundness gives

  /** Step e is the release of o by its only holder t. */
  ghost predicate LastRelease(s: State, e: Step, t: Tid, o: Obj) {
    && Holders(s.pcs, o) == {t}
    && t in s.pcs
    && ((e == Release(t) && s.pcs[t].Releasing? && s.pcs[t].obj == o)
        || (e == CloseAllNext(t) && s.pcs[t].ClosingAll? && s.pcs[t].todo != [] && s.pcs[t].todo[0] == o))
  }

  lemma OnlyUnrefDestroys(s: State, e: Step, o: Obj)
    requires AllThreadsOk(s) && Enabled(s, e) && o in s.hist.bound && o in s.heap.objs && o !in Apply(s, e).heap.objs
    ensures e.Release? || e.CloseAllNext?
    ensures e.Release? ==> s.pcs[e.t].obj == o
    ensures e.CloseAllNext? ==> s.pcs[e.t].todo[0] == o
  {
    forall t | t in s.pcs ensures !Opens(s.pcs[t], o) { assert ThreadOk(s, t); }
  }

  lemma DestroyedByLast(s: State, t: Tid, o: Obj, pc: Pc, s': State)
    requires t in s.pcs && LetsGo(s.pcs[t], pc, o) && s'.pcs == s.pcs[t := pc]
    requires AllRefsLive(s') && o !in s'.heap.objs
    ensures Holders(s.pcs, o) == {t}
  {
    assert forall u | u in s'.pcs :: !Holds(s'.pcs[u], o);
    forall u | u in s.pcs ensures Holds(s.pcs[u], o) <==> u == t {
      assert u != t ==> s'.pcs[u] == s.pcs[u];
    }
  }

  lemma DestroyingStep(s: State, e: Step, o: Obj)
    requires Inv(s) && Sound(s) && Enabled(s, e) && Sound(Apply(s, e))
    requires o in s.hist.bound && o in s.heap.objs && o !in Apply(s, e).heap.objs
    ensures LastRelease(s, e, e.t, o)
  {
    OnlyUnrefDestroys(s, e, o);
    LiveNoFault(s, e);
    assert ThreadOk(s, e.t);
    if e.CloseAllNext? { CloseAllLetsGo(s, e.t); }
    DestroyedByLast(s, e.t, o, Apply(s, e).pcs[e.t], Apply(s, e));
  }

  /** In a sound run the one step that destroys a session is the release by its last holder, and it happens once. */
  lemma DestroyedOnceByLastHolder(ss: seq<State>, es: seq<Step>, i: nat, j: nat, o: Obj)
    requires Run(ss, es) && i < |es| && i < j < |ss| && ss[j].hist.opens <= TWO32
    requires Sound(ss[i]) && Sound(ss[i + 1])
    requires o in ss[i].hist.bound && o in ss[i].heap.objs && o !in ss[i + 1].heap.objs
    ensures exists t :: LastRelease(ss[i], es[i], t, o)
    ensures o !in ss[j].heap.objs
  {
    RunLater(ss, es, i + 1, j);
    OpensGrow(ss, es, i);
    RunInv(ss, es, i);
    StepLaterAt(ss, es, i);
    assert o < ss[i + 1].heap.nextObj;
    StepAt(ss, es, i);
    DestroyingStep(ss[i], es[i], o);
  }

  /**
   * A session some other thread still uses is removed from the table at once by a closing release, of ohc_sess_close
   * or of ohc_sess_close_all, but destroyed only at that thread's release: if the closing release is safe.
   */
  lemma InUseSurvivesClose(ss: seq<State>, es: seq<Step>, i: nat, t: Tid, u: Tid, o: Obj)
    requires Run(ss, es) && i < |es| && ss[i].hist.opens <= TWO32
    requires Sound(ss[i]) && ReleaseSafe(ss[i], es[i])
    requires ClosingRelease(ss[i], es[i], t, o) && u in ss[i].pcs && u != t && Holds(ss[i].pcs[u], o)
    ensures o !in ss[i + 1].heap.table.Values && o in ss[i + 1].heap.objs
  {
    StepSoundIffAt(ss, es, i);
    RunInv(ss, es, i);
    StepAt(ss, es, i);
    assert o in ss[i].heap.objs;
    ClosingReleaseOut(ss[i], es[i], t, o);
    assert u in ss[i + 1].pcs && Holds(ss[i + 1].pcs[u], o);
  }

  /** Disciplined runs are sound. */
  lemma DisciplinedSound(ss: seq<State>, es: seq<Step>, n: nat)
    requires DisciplinedRun(ss, es) && n < |ss| && ss[n].hist.opens <= TWO32
    ensures Sound(ss[n]) && forall i | 0 <= i < n :: ReleaseSafe(ss[i], es[i])
  {
    forall i: nat | i <= n ensures Sound(ss[i]) {
      RunLater(ss, es, i, n);
      NeverUsedAfterDestruction(ss, es, i);
    }
    RunSoundIff(ss, es, n);
  }

  // ---------------------------------------------------------------- runs that end idle

  /** Some call holds the session although it has had two closing releases. */
  ghost predicate HeldTwiceClosed(s: State, o: Obj) {
    o in s.hist.bound && Closes(s.hist, o) >= 2 && Holders(s.pcs, o) != {}
  }

  ghost predicate NoneHeldTwice(s: State) {
    forall o :: !HeldTwiceClosed(s, o)
  }

  /** All threads but the step's own stay where they are. */
  lemma OneMoves(s: State, e: Step, u: Tid)
    requires Enabled(s, e) && u in s.pcs && (e.DomainAdd? || u != e.t)
    ensures u in Apply(s, e).pcs && Apply(s, e).pcs[u] == s.pcs[u]
  {
  }

  lemma SoundMany(s: State, o: Obj)
    requires Inv(s) && Sound(s) && HeldTwiceClosed(s, o)
    ensures |Holders(s.pcs, o)| >= 2
  {
    var t :| t in Holders(s.pcs, o);
    assert Holds(s.pcs[t], o);
    assert ObjOk(s, o);
  }

  lemma AnotherHolder(s: State, o: Obj, t: Tid) returns (u: Tid)
    requires |Holders(s.pcs, o)| >= 2
    ensures u != t && u in s.pcs && Holds(s.pcs[u], o)
  {
    var rest := Holders(s.pcs, o) - {t};
    assert Holders(s.pcs, o) <= rest + {t};
    assert rest != {} by {
      if rest == {} { assert Holders(s.pcs, o) <= {t}; SubsetSize(Holders(s.pcs, o), {t}); }
    }
    u :| u in rest;
  }

  lemma {:induction false} SubsetSize(a: set<Tid>, b: set<Tid>)
    requires a <= b
    ensures |a| <= |b|
  {
    assert b == a + (b - a);
  }

  lemma HeldTwiceStays(s: State, e: Step, o: Obj)
    requires Inv(s) && Sound(s) && Enabled(s, e) && HeldTwiceClosed(s, o)
    ensures HeldTwiceClosed(Apply(s, e), o)
  {
    SoundMany(s, o);
    var u := AnotherHolder(s, o, if e.DomainAdd? then 0 else e.t);
    OneMoves(s, e, u);
    StepLater(s, e);
    assert u in Holders(Apply(s, e).pcs, o);
  }

  lemma {:induction false} HeldTwiceToEnd(ss: seq<State>, es: seq<Step>, k: nat, n: nat, o: Obj)
    requires Run(ss, es) && k <= n < |ss| && ss[n].hist.opens <= TWO32 && HeldTwiceClosed(ss[k], o)
    requires forall i | 0 <= i <= n :: Sound(ss[i])
    ensures HeldTwiceClosed(ss[n], o)
    decreases n
  {
    if k < n {
      OpensGrow(ss, es, n - 1);
      HeldTwiceToEnd(ss, es, k, n - 1, o);
      RunInv(ss, es, n - 1);
      StepAt(ss, es, n - 1);
      HeldTwiceStays(ss[n - 1], es[n - 1], o);
    }
  }

  /** An unsafe release leaves a session held although it has had two closing releases. */
  lemma UnsafeHeldTwice(s: State, e: Step)
    requires Inv(s) && Sound(s) && Enabled(s, e) && !ReleaseSafe(s, e)
    ensures !NoneHeldTwice(Apply(s, e))
  {
    LiveNoFault(s, e);
    var o := if e.Release? then s.pcs[e.t].obj else s.pcs[e.t].todo[0];
    assert ThreadOk(s, e.t) && Holds(s.pcs[e.t], o);
    HoldersPositive(Apply(s, e), o);
    assert HeldTwiceClosed(Apply(s, e), o);
  }

  lemma UnsafeHeldTwiceAt(ss: seq<State>, es: seq<Step>, i: nat)
    requires Run(ss, es) && i < |es| && ss[i].hist.opens <= TWO32 && Sound(ss[i]) && !ReleaseSafe(ss[i], es[i])
    ensures !NoneHeldTwice(ss[i + 1])
  {
    StepAt(ss, es, i);
    RunInv(ss, es, i);
    UnsafeHeldTwice(ss[i], es[i]);
  }

  lemma HoldersPositive(s: State, o: Obj)
    ensures Holders(s.pcs, o) != {} ==> |Holders(s.pcs, o)| >= 1
  {
  }

  /**
   * Of any run that ends with no call in flight: it is sound if and only if no call ever holds a session that has had
   * two closing releases. The first half holds of every run.
   */
  lemma IdleRunSoundIff(ss: seq<State>, es: seq<Step>, n: nat)
    requires Run(ss, es) && n < |ss| && ss[n].hist.opens <= TWO32
    requires forall t | t in ss[n].pcs :: ss[n].pcs[t].Idle?
    ensures (forall i | 0 <= i <= n :: Sound(ss[i])) <==> (forall i | 0 <= i <= n :: NoneHeldTwice(ss[i]))
  {
    if forall i | 0 <= i <= n :: Sound(ss[i]) {
      forall i | 0 <= i <= n ensures NoneHeldTwice(ss[i]) {
        forall o | HeldTwiceClosed(ss[i], o) ensures HeldTwiceClosed(ss[n], o) { HeldTwiceToEnd(ss, es, i, n, o); }
      }
    }
    if forall i | 0 <= i <= n :: NoneHeldTwice(ss[i]) { NeverHeldTwiceSound(ss, es, n); }
  }

  lemma {:induction false} NeverHeldTwiceSound(ss: seq<State>, es: seq<Step>, n: nat)
    requires Run(ss, es) && n < |ss| && ss[n].hist.opens <= TWO32
    requires forall i | 0 <= i <= n :: NoneHeldTwice(ss[i])
    ensures forall i | 0 <= i <= n :: Sound(ss[i])
    decreases n
  {
    if n > 0 {
      OpensGrow(ss, es, n - 1);
      NeverHeldTwiceSound(ss, es, n - 1);
      StepSoundIffAt(ss, es, n - 1);
      if !ReleaseSafe(ss[n - 1], es[n - 1]) { UnsafeHeldTwiceAt(ss, es, n - 1); }
    }
  }
}
