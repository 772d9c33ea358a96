/** The threshold client can undo every run if and only if no sensor can be changed under two names. */
module ThresholdAliases {
  import opened Hpi
  import opened Thresholds
  import opened ThresholdUndo

  /** If the daemon accepts the writes of every undo, the run and a last undo leave the device as it was. */
  ghost predicate Restores(s0: State, cmds: seq<Cmd>, accepts: set<Pos>) {
    (forall c | c in cmds + [Undo(accepts)] :: UndoAccepted(s0, c))
    ==> Run(s0, cmds + [Undo(accepts)]).device == s0.device
  }

  ghost predicate Trustworthy(s0: State) {
    forall cmds, accepts :: Restores(s0, cmds, accepts)
  }

  ghost predicate Before(p: Pos, q: Pos) {
    p.i < q.i || (p.i == q.i && p.j < q.j)
  }

  // ---------------------------------------------------------------- undo of two marked records of one sensor

  /** The record at q is the last marked one. */
  ghost predicate LastMarked(s: State, q: Pos) {
    forall r | Has(s, r) && Before(q, r) :: !At(s, r).modified
  }

  /** Undo has still to write t through the record at q. */
  ghost predicate ToWrite(s: State, q: Pos, k: Key, t: Thres) {
    && Has(s, q) && At(s, q).modified && At(s, q).thresholds == t && KeyAt(s, q) == k && k in s.device
    && LastMarked(s, q)
  }

  ghost predicate WrittenLast(s: State, q: Pos, k: Key, t: Thres) {
    && k in s.device && s.device[k] == t
    && !(Has(s, q) && At(s, q).modified) && LastMarked(s, q)
  }

  lemma UndoAtBefore(s: State, p: Pos, accepted: bool, q: Pos, k: Key, t: Thres)
    requires ToWrite(s, q, k, t) && Before(p, q)
    ensures ToWrite(UndoAt(s, p, accepted), q, k, t)
  {
    var u := UndoAt(s, p, accepted);
    if Has(s, p) && At(s, p).modified {
      var r := At(s, p).(modified := false);
      PutSame(s, p, r, q);
      forall x | Has(u, x) && Before(q, x) ensures !At(u, x).modified { PutSame(s, p, r, x); }
    }
  }

  lemma UndoAtLast(s: State, q: Pos, k: Key, t: Thres)
    requires ToWrite(s, q, k, t)
    ensures WrittenLast(UndoAt(s, q, true), q, k, t)
  {
    var u := UndoAt(s, q, true);
    var r := At(s, q).(modified := false);
    PutSame(s, q, r, q);
    forall x | Has(u, x) && Before(q, x) ensures !At(u, x).modified { PutSame(s, q, r, x); }
  }

  lemma {:induction false} RowSweep(s: State, i: nat, j: nat, accepts: set<Pos>, q: Pos, k: Key, t: Thres)
    requires ToWrite(s, q, k, t) && q in accepts && i <= q.i
    ensures var u := UndoRow(s, i, j, accepts);
      if q.i == i && q.j < j then WrittenLast(u, q, k, t) else ToWrite(u, q, k, t)
  {
    if j > 0 {
      RowSweep(s, i, j - 1, accepts, q, k, t);
      var u, p := UndoRow(s, i, j - 1, accepts), Pos(i, j - 1);
      if p == q {
        UndoAtLast(u, q, k, t);
      } else if Before(p, q) {
        UndoAtBefore(u, p, p in accepts, q, k, t);
      }
    }
  }

  lemma {:induction false} RowBehind(s: State, i: nat, j: nat, accepts: set<Pos>, q: Pos)
    requires LastMarked(s, q) && q.i < i
    ensures UndoRow(s, i, j, accepts) == s
  {
    if j > 0 { RowBehind(s, i, j - 1, accepts, q); }
  }

  lemma {:induction false} RowsSweep(s: State, i: nat, accepts: set<Pos>, q: Pos, k: Key, t: Thres)
    requires ToWrite(s, q, k, t) && q in accepts
    ensures var u := UndoRows(s, i, accepts);
      if q.i < i then WrittenLast(u, q, k, t) else ToWrite(u, q, k, t)
  {
    if i > 0 {
      RowsSweep(s, i - 1, accepts, q, k, t);
      var u := UndoRows(s, i - 1, accepts);
      if q.i < i - 1 {
        if i <= |u.rpts| { RowBehind(u, i - 1, |u.rpts[i - 1].rdrs|, accepts, q); }
      } else if i <= |u.rpts| {
        RowSweep(u, i - 1, |u.rpts[i - 1].rdrs|, accepts, q, k, t);
      }
    }
  }

  // ---------------------------------------------------------------- one change through each of two names

  /** A confirmed and accepted change of the sensor at p. */
  ghost function Change(s: State, p: Pos, which: ThresType, v: Value): Cmd
    requires Has(s, p)
  {
    Modify(s.rpts[p.i].entryId, At(s, p).num, true, Some(which), Some(v), true, true)
  }

  /** The state after a first change of the sensor at p. */
  lemma ChangeMarks(s0: State, s: State, p: Pos, which: ThresType, v: Value)
    requires Reached(s, p) && !At(s, p).isValue && KeyAt(s, p) in s.device
    requires Has(s0, p) && s0.rpts[p.i].entryId == s.rpts[p.i].entryId && At(s0, p).num == At(s, p).num
    ensures var u, k := Step(s, Change(s0, p, which, v)), KeyAt(s, p);
      && u.device == s.device[k := Edited(s.device[k], which, v)]
      && (forall q :: SameAt(s, u, q))
      && (forall q | Has(s, q) && q != p :: At(u, q) == At(s, q))
      && At(u, p) == At(s, p).(isValue := true, modified := true, thresholds := s.device[k])
  {
    ReachedTarget(s, p);
    var k := KeyAt(s, p);
    var seen := At(s, p).(isValue := true, thresholds := s.device[k]);
    var s1 := Put(s, p, seen);
    assert Seen(s, p) == s1;
    PutSame(s, p, seen, p);
    var u := Step(s, Change(s0, p, which, v));
    var w := Written(s1, k, Edited(s.device[k], which, v), true);
    assert u == Put(w, p, seen.(modified := true));
    forall q ensures SameAt(s, u, q) && (Has(s, q) && q != p ==> At(u, q) == At(s, q)) {
      PutSame(s, p, seen, q);
      assert SameAt(s1, w, q);
      PutSame(w, p, seen.(modified := true), q);
    }
    PutSame(w, p, seen.(modified := true), p);
  }

  /** The two changes leave two marked records, the second with the first one's change as its saved value. */
  lemma ChangesMark(s0: State, p: Pos, q: Pos, which: ThresType, v: Value)
    requires Fresh(s0) && Reached(s0, p) && Reached(s0, q) && Before(p, q)
    requires KeyAt(s0, p) == KeyAt(s0, q) && KeyAt(s0, p) in s0.device
    ensures var k := KeyAt(s0, p);
      var s2 := Step(Step(s0, Change(s0, p, which, v)), Change(s0, q, which, v));
      ToWrite(s2, q, k, Edited(s0.device[k], which, v)) && |s2.rpts| == |s0.rpts|
  {
    var k := KeyAt(s0, p);
    var s1 := Step(s0, Change(s0, p, which, v));
    ChangeMarks(s0, s0, p, which, v);
    assert SameAt(s0, s1, q) && SameAt(s0, s1, p);
    ChangeMarks(s0, s1, q, which, v);
    var s2 := Step(s1, Change(s0, q, which, v));
    assert SameAt(s1, s2, q);
    forall r | Has(s2, r) && Before(q, r) ensures !At(s2, r).modified {
      assert SameAt(s1, s2, r) && SameAt(s0, s1, r);
    }
  }

  ghost function AllPositions(s: State): set<Pos> {
    set i, j | 0 <= i < |s.rpts| && 0 <= j < |s.rpts[i].rdrs| :: Pos(i, j)
  }

  /** One change through each name, and undo: the device keeps the first change. */
  lemma FirstChangeStays(s0: State, p: Pos, q: Pos, which: ThresType, v: Value, accepts: set<Pos>)
    requires Fresh(s0) && Reached(s0, p) && Reached(s0, q) && Before(p, q) && q in accepts
    requires KeyAt(s0, p) == KeyAt(s0, q) && KeyAt(s0, p) in s0.device
    ensures var k := KeyAt(s0, p);
      var u := Run(s0, [Change(s0, p, which, v), Change(s0, q, which, v)] + [Undo(accepts)]);
      k in u.device && u.device[k] == Edited(s0.device[k], which, v)
  {
    var k := KeyAt(s0, p);
    var c, d := Change(s0, p, which, v), Change(s0, q, which, v);
    ChangesMark(s0, p, q, which, v);
    RunSnoc(s0, [], c);
    RunSnoc(s0, [c], d);
    assert [] + [c] == [c] && [c] + [d] == [c, d];
    RunSnoc(s0, [c, d], Undo(accepts));
    RowsSweep(Step(Step(s0, c), d), |s0.rpts|, accepts, q, k, Edited(s0.device[k], which, v));
  }

  lemma AllAccepted(s0: State, p: Pos, q: Pos, which: ThresType, v: Value)
    requires Has(s0, p) && Has(s0, q)
    ensures var cmds := [Change(s0, p, which, v), Change(s0, q, which, v)];
      forall c | c in cmds + [Undo(AllPositions(s0))] :: UndoAccepted(s0, c)
  {
  }

  /**
   * If a sensor with a supported threshold can be changed under two names, undo does not restore it: the second
   * record's saved thresholds are those the change made through the first one left.
   */
  lemma AliasesSpoilUndo(s0: State, p: Pos, q: Pos, which: ThresType)
    requires Fresh(s0) && Reached(s0, p) && Reached(s0, q) && Before(p, q)
    requires KeyAt(s0, p) == KeyAt(s0, q) && KeyAt(s0, p) in s0.device
    requires s0.device[KeyAt(s0, p)].Field(which).isSupported
    ensures exists cmds, accepts :: !Restores(s0, cmds, accepts)
  {
    var t := s0.device[KeyAt(s0, p)];
    var v := t.Field(which).value + 1.0;
    assert Edited(t, which, v).Field(which) != t.Field(which);
    AllAccepted(s0, p, q, which, v);
    FirstChangeStays(s0, p, q, which, v, AllPositions(s0));
    assert !Restores(s0, [Change(s0, p, which, v), Change(s0, q, which, v)], AllPositions(s0));
  }

  /**
   * Undo can be relied on, whatever commands are given and as long as the daemon accepts its writes, if and only if
   * no two sensors that commands can name are one sensor of the device with a supported threshold.
   */
  lemma TrustworthyIff(s0: State)
    requires Fresh(s0)
    ensures Trustworthy(s0) <==> Distinct(s0)
  {
    if Distinct(s0) {
      forall cmds, accepts ensures Restores(s0, cmds, accepts) {
        if forall c | c in cmds + [Undo(accepts)] :: UndoAccepted(s0, c) { UndoRestores(s0, cmds, accepts); }
      }
    } else {
      var p, q :| Reached(s0, p) && Reached(s0, q) && p != q
                  && KeyAt(s0, p) == KeyAt(s0, q) && !Fixed(s0, KeyAt(s0, p));
      var which: ThresType :| s0.device[KeyAt(s0, p)].Field(which).isSupported;
      if Before(p, q) { AliasesSpoilUndo(s0, p, q, which); } else { AliasesSpoilUndo(s0, q, p, which); }
    }
  }
}
