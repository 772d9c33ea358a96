/** What undo restores, over every sequence of commands and every pattern of refusals. */
module ThresholdUndo {
  import opened Hpi
  import opened Thresholds

  /** A sensor a command can name: the searches of the program find it, for its resource and number. */
  ghost predicate Reached(s: State, p: Pos) {
    && Has(s, p) && At(s, p).isSensor
    && (forall i | 0 <= i < p.i :: s.rpts[i].entryId != s.rpts[p.i].entryId)
    && (forall j | 0 <= j < p.j :: !(s.rpts[p.i].rdrs[j].isSensor && s.rpts[p.i].rdrs[j].num == At(s, p).num))
  }

  lemma TargetReached(s: State, id: U32, num: U32)
    ensures Target(s, id, num).Some? ==> Reached(s, Target(s, id, num).value)
  {
    FindRptFirst(s.rpts, id, 0);
    var i := FindRpt(s.rpts, id, 0);
    if i.Some? { FindSensorFirst(s.rpts[i.value].rdrs, num, 0); }
  }

  lemma ReachedTarget(s: State, p: Pos)
    requires Reached(s, p)
    ensures Target(s, s.rpts[p.i].entryId, At(s, p).num) == Some(p)
  {
    FindRptFirst(s.rpts, s.rpts[p.i].entryId, 0);
    FindSensorFirst(s.rpts[p.i].rdrs, At(s, p).num, 0);
  }

  /** No change has an effect on the sensor k: it is not there, or supports no threshold. */
  ghost predicate Fixed(s: State, k: Key) {
    k in s.device ==> forall w: ThresType :: !s.device[k].Field(w).isSupported
  }

  lemma FixedEdit(t: Thres, which: ThresType, v: Value)
    requires forall w: ThresType :: !t.Field(w).isSupported
    ensures Edited(t, which, v) == t
  {
    assert !t.Field(which).isSupported;
  }

  /** No two sensors that commands can name are the same sensor of the device, unless changes have no effect on it. */
  ghost predicate Distinct(s: State) {
    forall p, q | Reached(s, p) && Reached(s, q) && p != q && KeyAt(s, p) == KeyAt(s, q) :: Fixed(s, KeyAt(s, p))
  }

  /** The client has read and changed nothing yet. */
  ghost predicate Fresh(s: State) {
    forall p | Has(s, p) :: !At(s, p).isValue && !At(s, p).modified
  }

  ghost predicate IsSensorKey(s: State, k: Key) {
    exists p :: Reached(s, p) && KeyAt(s, p) == k
  }

  ghost predicate SameAt(s: State, t: State, p: Pos) {
    && Has(s, p) == Has(t, p) && Reached(s, p) == Reached(t, p)
    && (Has(s, p) ==> KeyAt(s, p) == KeyAt(t, p) && s.rpts[p.i].entryId == t.rpts[p.i].entryId)
  }

  /** The record at p: what is saved is what the device had in s0, and nothing is changed before it is saved. */
  ghost predicate KeptAt(s0: State, s: State, p: Pos) {
    && SameAt(s0, s, p)
    && (Has(s, p) ==>
          var r, k := At(s, p), KeyAt(s, p);
          && (r.modified ==> r.isValue)
          && (r.isValue ==> Reached(s, p) && k in s0.device && r.thresholds == s0.device[k])
          && (Reached(s, p) && !r.isValue && k in s0.device ==> k in s.device && s.device[k] == s0.device[k]))
  }

  ghost predicate ForeignKept(s0: State, s: State) {
    && s.device.Keys == s0.device.Keys
    && forall k | k in s0.device && (!IsSensorKey(s0, k) || Fixed(s0, k)) :: s.device[k] == s0.device[k]
  }

  ghost predicate Kept(s0: State, s: State) {
    && |s.rpts| == |s0.rpts|
    && ForeignKept(s0, s)
    && forall p :: KeptAt(s0, s, p)
  }

  /** From s to t neither the record at p nor the thresholds of its sensor change. */
  ghost predicate Untouched(s: State, t: State, p: Pos) {
    && Has(s, p) && Has(t, p) && At(t, p) == At(s, p) && KeyAt(t, p) == KeyAt(s, p)
    && s.device.Keys == t.device.Keys
    && (KeyAt(s, p) in s.device ==> t.device[KeyAt(s, p)] == s.device[KeyAt(s, p)])
  }

  /** The thresholds the sensor at p has once undo has passed it. */
  ghost function Restored(s: State, p: Pos, accepted: bool): Thres
    requires Has(s, p) && KeyAt(s, p) in s.device
  {
    if At(s, p).modified && accepted then At(s, p).thresholds else s.device[KeyAt(s, p)]
  }

  ghost predicate Undone(s: State, t: State, p: Pos, accepted: bool) {
    && Has(s, p) && Has(t, p) && At(t, p) == At(s, p).(modified := false) && KeyAt(t, p) == KeyAt(s, p)
    && s.device.Keys == t.device.Keys
    && (KeyAt(s, p) in s.device ==> t.device[KeyAt(s, p)] == Restored(s, p, accepted))
  }

  // ---------------------------------------------------------------- single steps

  /** A new record with the old number leaves the shape alone. */
  lemma PutSame(s: State, p: Pos, r: Rdr, q: Pos)
    requires Has(s, p) && r.isSensor == At(s, p).isSensor && r.num == At(s, p).num
    ensures SameAt(s, Put(s, p, r), q)
    ensures Has(s, q) ==> At(Put(s, p, r), q) == if q == p then r else At(s, q)
  {
    var t := Put(s, p, r);
    assert forall i | 0 <= i < |s.rpts| :: t.rpts[i].entryId == s.rpts[i].entryId;
    if Has(s, q) {
      var a, b := s.rpts[q.i].rdrs, t.rpts[q.i].rdrs;
      assert forall j | 0 <= j < |a| :: b[j].isSensor == a[j].isSensor && b[j].num == a[j].num;
      if Reached(s, q) {
        assert Reached(t, q);
      } else if a[q.j].isSensor {
        if i :| 0 <= i < q.i && s.rpts[i].entryId == s.rpts[q.i].entryId {
          assert t.rpts[i].entryId == t.rpts[q.i].entryId;
        } else {
          var j :| 0 <= j < q.j && a[j].isSensor && a[j].num == a[q.j].num;
          assert b[j].isSensor && b[j].num == b[q.j].num;
        }
      }
    }
  }

  /** Writing to the sensor at p and its record leaves every other sensor alone. */
  lemma WriteKept(s0: State, s: State, p: Pos, device: map<Key, Thres>, r: Rdr, sent: seq<Write>)
    requires Kept(s0, s) && Distinct(s0) && Reached(s, p)
    requires device.Keys == s.device.Keys
    requires forall k | k in device && (k != KeyAt(s, p) || Fixed(s0, k)) :: device[k] == s.device[k]
    requires r.isSensor && r.num == At(s, p).num
    requires r.isValue && KeyAt(s, p) in s0.device && r.thresholds == s0.device[KeyAt(s, p)]
    ensures Kept(s0, Put(s, p, r).(device := device, sent := sent))
    ensures forall q | Reached(s, q) && q != p :: Untouched(s, Put(s, p, r).(device := device, sent := sent), q)
  {
    var u, t := Put(s, p, r), Put(s, p, r).(device := device, sent := sent);
    assert KeptAt(s0, s, p);
    assert IsSensorKey(s0, KeyAt(s, p)) by { assert Reached(s0, p); }
    forall q ensures KeptAt(s0, t, q) && (Reached(s, q) && q != p ==> Untouched(s, t, q)) {
      PutSame(s, p, r, q);
      assert Reached(u, q) == Reached(t, q);
      WriteKeptAt(s0, s, t, p, q);
    }
  }

  lemma WriteKeptAt(s0: State, s: State, t: State, p: Pos, q: Pos)
    requires Kept(s0, s) && Distinct(s0) && Reached(s, p) && SameAt(s, t, q)
    requires t.device.Keys == s.device.Keys
    requires forall k | k in t.device && (k != KeyAt(s, p) || Fixed(s0, k)) :: t.device[k] == s.device[k]
    requires Has(s, q) && q != p ==> At(t, q) == At(s, q)
    requires q == p ==> At(t, p).isValue && KeyAt(s, p) in s0.device && At(t, p).thresholds == s0.device[KeyAt(s, p)]
    ensures KeptAt(s0, t, q) && (Reached(s, q) && q != p ==> Untouched(s, t, q))
  {
    assert KeptAt(s0, s, q) && KeptAt(s0, s, p);
    if Reached(s, q) && q != p && KeyAt(s, q) == KeyAt(s, p) {
      assert Reached(s0, q) && Reached(s0, p) && KeyAt(s0, q) == KeyAt(s0, p);
      assert Fixed(s0, KeyAt(s, p));
    }
  }

  lemma SeenKept(s0: State, s: State, p: Pos)
    requires Kept(s0, s) && Distinct(s0) && Reached(s, p) && KeyAt(s, p) in s.device
    ensures Kept(s0, Seen(s, p)) && Reached(Seen(s, p), p) && At(Seen(s, p), p).isValue
    ensures KeyAt(Seen(s, p), p) == KeyAt(s, p) && Seen(s, p).device == s.device
    ensures At(Seen(s, p), p).modified == At(s, p).modified
    ensures forall q | Reached(s, q) && q != p :: Untouched(s, Seen(s, p), q)
  {
    if !At(s, p).isValue {
      assert KeptAt(s0, s, p);
      WriteKept(s0, s, p, s.device, At(s, p).(isValue := true, thresholds := s.device[KeyAt(s, p)]), s.sent);
    }
  }

  lemma AcceptedKept(s0: State, s: State, p: Pos, which: ThresType, v: Value)
    requires Kept(s0, s) && Distinct(s0) && Reached(s, p) && KeyAt(s, p) in s.device && At(s, p).isValue
    ensures var t := Changed(s, p, which, v, true);
      Kept(s0, t) && Has(t, p) && At(t, p).modified && forall q | Reached(s, q) && q != p :: Untouched(s, t, q)
  {
    assert KeptAt(s0, s, p);
    var k := KeyAt(s, p);
    if Fixed(s0, k) { FixedEdit(s.device[k], which, v); }
    var device, r := s.device[k := Edited(s.device[k], which, v)], At(s, p).(modified := true);
    var sent := s.sent + [Write(k, Edited(s.device[k], which, v))];
    assert Changed(s, p, which, v, true) == Put(s, p, r).(device := device, sent := sent);
    WriteKept(s0, s, p, device, r, sent);
    PutSame(s, p, r, p);
  }

  lemma SentKept(s0: State, s: State, sent: seq<Write>)
    requires Kept(s0, s)
    ensures Kept(s0, s.(sent := sent)) && forall q | Reached(s, q) :: Untouched(s, s.(sent := sent), q)
  {
    var t := s.(sent := sent);
    forall q ensures KeptAt(s0, t, q) {
      assert KeptAt(s0, s, q);
      assert Reached(s, q) == Reached(t, q);
    }
  }

  lemma ChangedKept(s0: State, s: State, p: Pos, which: ThresType, v: Value, accepted: bool)
    requires Kept(s0, s) && Distinct(s0) && Reached(s, p) && KeyAt(s, p) in s.device && At(s, p).isValue
    ensures Kept(s0, Changed(s, p, which, v, accepted))
    ensures forall q | Reached(s, q) && q != p :: Untouched(s, Changed(s, p, which, v, accepted), q)
    ensures var t := Changed(s, p, which, v, accepted);
            if accepted then Has(t, p) && At(t, p).modified else t.rpts == s.rpts && t.device == s.device
  {
    if accepted {
      AcceptedKept(s0, s, p, which, v);
    } else {
      SentKept(s0, s, Changed(s, p, which, v, false).sent);
    }
  }

  lemma UndoAtKept(s0: State, s: State, p: Pos, accepted: bool)
    requires Kept(s0, s) && Distinct(s0)
    ensures Kept(s0, UndoAt(s, p, accepted))
    ensures forall q | Reached(s, q) && q != p :: Untouched(s, UndoAt(s, p, accepted), q)
    ensures Reached(s, p) ==> Undone(s, UndoAt(s, p, accepted), p, accepted)
  {
    assert KeptAt(s0, s, p);
    if Has(s, p) && At(s, p).modified {
      var t := UndoAt(s, p, accepted);
      WriteKept(s0, s, p, t.device, At(s, p).(modified := false), t.sent);
    }
  }

  // ---------------------------------------------------------------- undo

  lemma SameReached(s0: State, s: State, t: State, q: Pos)
    requires Kept(s0, s) && Kept(s0, t) && Reached(s, q)
    ensures Reached(t, q) && KeyAt(t, q) == KeyAt(s, q)
  {
    assert KeptAt(s0, s, q) && KeptAt(s0, t, q);
  }

  lemma UntouchedTwice(s: State, t: State, u: State, q: Pos)
    requires Untouched(s, t, q) && Untouched(t, u, q)
    ensures Untouched(s, u, q)
  {
  }

  lemma UndoneBefore(s: State, t: State, u: State, q: Pos, accepted: bool)
    requires Undone(s, t, q, accepted) && Untouched(t, u, q)
    ensures Undone(s, u, q, accepted)
  {
  }

  lemma UndoneAfter(s: State, t: State, u: State, q: Pos, accepted: bool)
    requires Untouched(s, t, q) && Undone(t, u, q, accepted)
    ensures Undone(s, u, q, accepted)
  {
  }

  lemma {:induction false} RowEffect(s0: State, s: State, i: nat, j: nat, accepts: set<Pos>)
    requires Kept(s0, s) && Distinct(s0)
    ensures Kept(s0, UndoRow(s, i, j, accepts))
    ensures forall q | Reached(s, q) ::
              if q.i == i && q.j < j then Undone(s, UndoRow(s, i, j, accepts), q, q in accepts)
              else Untouched(s, UndoRow(s, i, j, accepts), q)
  {
    if j > 0 {
      RowEffect(s0, s, i, j - 1, accepts);
      var t, p := UndoRow(s, i, j - 1, accepts), Pos(i, j - 1);
      var u := UndoAt(t, p, p in accepts);
      UndoAtKept(s0, t, p, p in accepts);
      forall q | Reached(s, q)
        ensures if q.i == i && q.j < j then Undone(s, u, q, q in accepts) else Untouched(s, u, q)
      {
        SameReached(s0, s, t, q);
        if q == p {
          UndoneAfter(s, t, u, q, q in accepts);
        } else if q.i == i && q.j < j {
          UndoneBefore(s, t, u, q, q in accepts);
        } else {
          UntouchedTwice(s, t, u, q);
        }
      }
    }
  }

  lemma {:induction false} RowsEffect(s0: State, s: State, i: nat, accepts: set<Pos>)
    requires Kept(s0, s) && Distinct(s0) && i <= |s.rpts|
    ensures Kept(s0, UndoRows(s, i, accepts))
    ensures forall q | Reached(s, q) ::
              if q.i < i then Undone(s, UndoRows(s, i, accepts), q, q in accepts)
              else Untouched(s, UndoRows(s, i, accepts), q)
  {
    if i > 0 {
      RowsEffect(s0, s, i - 1, accepts);
      var t := UndoRows(s, i - 1, accepts);
      var n := |t.rpts[i - 1].rdrs|;
      var u := UndoRow(t, i - 1, n, accepts);
      RowEffect(s0, t, i - 1, n, accepts);
      forall q | Reached(s, q) ensures if q.i < i then Undone(s, u, q, q in accepts) else Untouched(s, u, q) {
        SameReached(s0, s, t, q);
        if q.i == i - 1 {
          UndoneAfter(s, t, u, q, q in accepts);
        } else if q.i < i {
          UndoneBefore(s, t, u, q, q in accepts);
        } else {
          UntouchedTwice(s, t, u, q);
        }
      }
    }
  }

  /** Undo writes back whatever is marked as changed, leaves every other sensor alone, and clears every mark. */
  lemma UndoEffect(s0: State, s: State, accepts: set<Pos>)
    requires Kept(s0, s) && Distinct(s0)
    ensures Kept(s0, Step(s, Undo(accepts)))
    ensures forall q | Reached(s, q) :: Undone(s, Step(s, Undo(accepts)), q, q in accepts)
    ensures forall q | Has(s, q) :: Has(Step(s, Undo(accepts)), q) && !At(Step(s, Undo(accepts)), q).modified
  {
    RowsEffect(s0, s, |s.rpts|, accepts);
    var t := Step(s, Undo(accepts));
    forall q | Has(s, q) ensures Has(t, q) && !At(t, q).modified {
      assert KeptAt(s0, s, q) && KeptAt(s0, t, q);
      assert Reached(s, q) ==> Undone(s, t, q, q in accepts);
    }
  }

  // ---------------------------------------------------------------- whole runs

  lemma StepKept(s0: State, s: State, c: Cmd)
    requires Kept(s0, s) && Distinct(s0)
    ensures Kept(s0, Step(s, c))
  {
    if c.Undo? {
      UndoEffect(s0, s, c.accepts);
    } else {
      var p := Readable(s, c.id, c.num, c.read);
      TargetReached(s, c.id, c.num);
      if p.Some? {
        SeenKept(s0, s, p.value);
        if c.Modify? && c.which.Some? && c.value.Some? && c.confirmed {
          ChangedKept(s0, Seen(s, p.value), p.value, c.which.value, c.value.value, c.write);
        }
      }
    }
  }

  /** Whatever the daemon refuses, what the client has saved is what the sensor had at the start of the run. */
  lemma {:induction false} SavedIsOriginal(s0: State, cmds: seq<Cmd>)
    requires Fresh(s0) && Distinct(s0)
    ensures Kept(s0, Run(s0, cmds))
  {
    if cmds == [] {
    } else {
      SavedIsOriginal(s0, cmds[..|cmds| - 1]);
      StepKept(s0, Run(s0, cmds[..|cmds| - 1]), cmds[|cmds| - 1]);
    }
  }

  ghost predicate AsAtFirst(s0: State, s: State, p: Pos)
    requires Reached(s, p) && KeyAt(s, p) in s0.device && KeyAt(s, p) in s.device
  {
    s.device[KeyAt(s, p)] == s0.device[KeyAt(s, p)]
  }

  /** The sensor at p is as it was, or it is marked as changed and the daemon takes the write. */
  ghost predicate Recoverable(s0: State, s: State, p: Pos, accepts: set<Pos>) {
    Reached(s, p) && KeyAt(s, p) in s0.device && KeyAt(s, p) in s.device
    ==> AsAtFirst(s0, s, p) || (At(s, p).modified && p in accepts)
  }

  lemma UndoRestoresAt(s0: State, s: State, t: State, p: Pos, accepts: set<Pos>)
    requires KeptAt(s0, s, p) && Reached(s, p) && KeyAt(s, p) in s0.device && KeyAt(s, p) in s.device
    requires Undone(s, t, p, p in accepts)
    ensures t.device[KeyAt(s, p)] == s0.device[KeyAt(s, p)] <==> Recoverable(s0, s, p, accepts)
  {
  }

  lemma RunSnoc(s0: State, cmds: seq<Cmd>, c: Cmd)
    ensures Run(s0, cmds + [c]) == Step(Run(s0, cmds), c)
  {
    assert (cmds + [c])[..|cmds|] == cmds;
  }

  lemma UndoRestoresOnlyIf(s0: State, s: State, accepts: set<Pos>)
    requires Kept(s0, s) && Distinct(s0) && Step(s, Undo(accepts)).device == s0.device
    ensures forall p :: Recoverable(s0, s, p, accepts)
  {
    UndoEffect(s0, s, accepts);
    forall p ensures Recoverable(s0, s, p, accepts) {
      assert KeptAt(s0, s, p);
      if Reached(s, p) && KeyAt(s, p) in s0.device {
        UndoRestoresAt(s0, s, Step(s, Undo(accepts)), p, accepts);
      }
    }
  }

  lemma UndoRestoresIfAll(s0: State, s: State, accepts: set<Pos>)
    requires Kept(s0, s) && Distinct(s0) && forall p :: Recoverable(s0, s, p, accepts)
    ensures Step(s, Undo(accepts)).device == s0.device
  {
    var t := Step(s, Undo(accepts));
    UndoEffect(s0, s, accepts);
    forall k | k in s0.device ensures t.device[k] == s0.device[k] {
      if IsSensorKey(s0, k) {
        var p :| Reached(s0, p) && KeyAt(s0, p) == k;
        assert KeptAt(s0, s, p) && Recoverable(s0, s, p, accepts);
        UndoRestoresAt(s0, s, t, p, accepts);
      }
    }
    assert t.device == s0.device;
  }

  /**
   * Undo after any run, with any refusals before or during it: the device is as at the start if and only if every
   * sensor is recoverable.
   */
  lemma UndoRestoresIff(s0: State, cmds: seq<Cmd>, accepts: set<Pos>)
    requires Fresh(s0) && Distinct(s0)
    ensures Run(s0, cmds + [Undo(accepts)]).device == s0.device
            <==> forall p :: Recoverable(s0, Run(s0, cmds), p, accepts)
  {
    RunSnoc(s0, cmds, Undo(accepts));
    SavedIsOriginal(s0, cmds);
    var s := Run(s0, cmds);
    if Step(s, Undo(accepts)).device == s0.device { UndoRestoresOnlyIf(s0, s, accepts); }
    if forall p :: Recoverable(s0, s, p, accepts) { UndoRestoresIfAll(s0, s, accepts); }
  }

  // ---------------------------------------------------------------- accepted undo writes

  /** Every undo of cmds has all its writes accepted. */
  ghost predicate UndoAccepted(s: State, c: Cmd) {
    c.Undo? ==> forall p | Reached(s, p) :: p in c.accepts
  }

  /** A sensor that is not marked as changed is as it was. */
  ghost predicate MarkedIfChanged(s0: State, s: State) {
    forall p | Reached(s, p) && KeyAt(s, p) in s0.device && KeyAt(s, p) in s.device && !At(s, p).modified ::
      AsAtFirst(s0, s, p)
  }

  lemma StepMarks(s0: State, s: State, c: Cmd)
    requires Kept(s0, s) && Distinct(s0) && MarkedIfChanged(s0, s) && UndoAccepted(s0, c)
    ensures MarkedIfChanged(s0, Step(s, c))
  {
    StepKept(s0, s, c);
    var t := Step(s, c);
    forall q | Reached(t, q) && KeyAt(t, q) in s0.device && KeyAt(t, q) in t.device && !At(t, q).modified
      ensures AsAtFirst(s0, t, q)
    {
      assert KeptAt(s0, t, q) && KeptAt(s0, s, q);
      assert Reached(s, q) && Reached(s0, q);
      if c.Undo? {
        UndoEffect(s0, s, c.accepts);
        assert Undone(s, t, q, q in c.accepts);
      } else {
        ReadOrChange(s0, s, c, q);
      }
    }
  }

  /** From s to t the sensor at q is not changed, or it is marked afterwards. */
  ghost predicate MarkedOrSame(s: State, t: State, q: Pos)
    requires Has(s, q) && Has(t, q) && s.device.Keys == t.device.Keys
  {
    At(t, q).modified || (!At(s, q).modified
                          && (KeyAt(s, q) in s.device ==> t.device[KeyAt(s, q)] == s.device[KeyAt(s, q)]))
  }

  lemma ChangeMarked(s0: State, s: State, p: Pos, which: ThresType, v: Value, accepted: bool, q: Pos)
    requires Kept(s0, s) && Distinct(s0) && Reached(s, p) && KeyAt(s, p) in s.device && At(s, p).isValue
    requires Reached(s, q)
    ensures var t := Changed(s, p, which, v, accepted);
      Has(t, q) && KeyAt(t, q) == KeyAt(s, q) && t.device.Keys == s.device.Keys && MarkedOrSame(s, t, q)
  {
    ChangedKept(s0, s, p, which, v, accepted);
    var t := Changed(s, p, which, v, accepted);
    assert KeptAt(s0, s, q) && KeptAt(s0, t, q);
    if q != p { assert Untouched(s, t, q); }
  }

  lemma SeenSame(s0: State, s: State, p: Pos, q: Pos)
    requires Kept(s0, s) && Distinct(s0) && Reached(s, p) && KeyAt(s, p) in s.device && Reached(s, q)
    ensures var t := Seen(s, p);
      Reached(t, q) && KeyAt(t, q) == KeyAt(s, q) && t.device == s.device && At(t, q).modified == At(s, q).modified
  {
    SeenKept(s0, s, p);
    assert KeptAt(s0, s, q) && KeptAt(s0, Seen(s, p), q);
    if q != p { assert Untouched(s, Seen(s, p), q); }
  }

  /** Show and modify touch one sensor, and mark it if they change it. */
  lemma ReadOrChange(s0: State, s: State, c: Cmd, q: Pos)
    requires Kept(s0, s) && Distinct(s0) && !c.Undo? && Reached(s, q)
    ensures var t := Step(s, c);
      Has(t, q) && KeyAt(t, q) == KeyAt(s, q) && t.device.Keys == s.device.Keys && MarkedOrSame(s, t, q)
    ensures c.Show? ==> At(Step(s, c), q).modified == At(s, q).modified && Step(s, c).device == s.device
  {
    var p := Readable(s, c.id, c.num, c.read);
    TargetReached(s, c.id, c.num);
    if p.Some? {
      SeenSame(s0, s, p.value, q);
      SeenKept(s0, s, p.value);
      if c.Modify? && c.which.Some? && c.value.Some? && c.confirmed {
        ChangeMarked(s0, Seen(s, p.value), p.value, c.which.value, c.value.value, c.write, q);
      }
    }
  }

  lemma {:induction false} RunMarks(s0: State, cmds: seq<Cmd>)
    requires Fresh(s0) && Distinct(s0) && forall c | c in cmds :: UndoAccepted(s0, c)
    ensures Kept(s0, Run(s0, cmds)) && MarkedIfChanged(s0, Run(s0, cmds))
  {
    SavedIsOriginal(s0, cmds);
    if cmds == [] {
    } else {
      var init, last := cmds[..|cmds| - 1], cmds[|cmds| - 1];
      RunMarks(s0, init);
      assert UndoAccepted(s0, last);
      StepMarks(s0, Run(s0, init), last);
    }
  }

  /** If the daemon accepts the writes of every undo, a run that ends with undo leaves the device as it was. */
  lemma UndoRestores(s0: State, cmds: seq<Cmd>, accepts: set<Pos>)
    requires Fresh(s0) && Distinct(s0)
    requires forall c | c in cmds + [Undo(accepts)] :: UndoAccepted(s0, c)
    ensures Run(s0, cmds + [Undo(accepts)]).device == s0.device
  {
    assert forall c | c in cmds :: c in cmds + [Undo(accepts)];
    assert UndoAccepted(s0, Undo(accepts)) by { assert Undo(accepts) in cmds + [Undo(accepts)]; }
    RunMarks(s0, cmds);
    var s := Run(s0, cmds);
    forall p ensures Recoverable(s0, s, p, accepts) {
      assert KeptAt(s0, s, p);
      if Reached(s, p) { assert Reached(s0, p); }
    }
    UndoRestoresIff(s0, cmds, accepts);
  }

  // ---------------------------------------------------------------- nothing left to undo

  ghost predicate NoneMarked(s: State) {
    forall p | Has(s, p) :: !At(s, p).modified
  }

  lemma {:induction false} IdleRow(s: State, i: nat, j: nat, accepts: set<Pos>)
    requires NoneMarked(s)
    ensures UndoRow(s, i, j, accepts) == s
  {
    if j > 0 { IdleRow(s, i, j - 1, accepts); }
  }

  lemma {:induction false} IdleRows(s: State, i: nat, accepts: set<Pos>)
    requires NoneMarked(s)
    ensures UndoRows(s, i, accepts) == s
  {
    if i > 0 {
      IdleRows(s, i - 1, accepts);
      if i <= |s.rpts| { IdleRow(s, i - 1, |s.rpts[i - 1].rdrs|, accepts); }
    }
  }

  lemma ShowKeepsMarks(s0: State, s: State, c: Cmd)
    requires Kept(s0, s) && Distinct(s0) && c.Show? && NoneMarked(s)
    ensures NoneMarked(Step(s, c)) && Step(s, c).device == s.device && Step(s, c).sent == s.sent
  {
    var t := Step(s, c);
    StepKept(s0, s, c);
    forall p | Has(t, p) ensures !At(t, p).modified {
      assert KeptAt(s0, s, p) && KeptAt(s0, t, p);
      if Reached(s, p) { ReadOrChange(s0, s, c, p); }
    }
  }

  /**
   * Once undo has run, and until the next change, no undo sends anything: an undo whose write was refused is not made
   * up for later.
   */
  lemma {:induction false} UndoOnlyOnce(s0: State, before: seq<Cmd>, accepts: set<Pos>, after: seq<Cmd>)
    requires Fresh(s0) && Distinct(s0) && forall c | c in after :: !c.Modify?
    ensures var s, t := Run(s0, before + [Undo(accepts)]), Run(s0, before + [Undo(accepts)] + after);
            NoneMarked(t) && t.device == s.device && t.sent == s.sent
  {
    var cmds := before + [Undo(accepts)];
    if after == [] {
      assert cmds + after == cmds && cmds[..|before|] == before;
      SavedIsOriginal(s0, before);
      UndoEffect(s0, Run(s0, before), accepts);
      SavedIsOriginal(s0, cmds);
      var s, t := Run(s0, before), Run(s0, cmds);
      forall p | Has(t, p) ensures !At(t, p).modified { assert KeptAt(s0, s, p) && KeptAt(s0, t, p); }
    } else {
      var init, last := after[..|after| - 1], after[|after| - 1];
      UndoOnlyOnce(s0, before, accepts, init);
      assert (cmds + after)[..|cmds + after| - 1] == cmds + init;
      var s := Run(s0, cmds + init);
      SavedIsOriginal(s0, cmds + init);
      assert last in after;
      if last.Undo? { IdleRows(s, |s.rpts|, last.accepts); } else { ShowKeepsMarks(s0, s, last); }
    }
  }
}
