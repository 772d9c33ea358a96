/** What a modification of the threshold client writes, and what the device holds between two undos. */
module ThresholdChanges {
  import opened Hpi
  import opened Thresholds
  import opened ThresholdUndo

  /** The sensor a modification is for; nothing unless the sensor is found and the daemon gives its thresholds. */
  ghost function Subject(s: State, c: Cmd): Option<Key>
    requires c.Modify?
  {
    var p := Target(s, c.id, c.num);
    if p.Some? && c.read && KeyAt(s, p.value) in s.device then Some(KeyAt(s, p.value)) else None
  }

  /** The user gives a type and a value, and confirms. */
  ghost predicate Entered(c: Cmd)
    requires c.Modify?
  {
    c.which.Some? && c.value.Some? && c.confirmed
  }

  /** The thresholds t with the one named which set to v where it is supported, and all others as they are. */
  ghost predicate IsEdit(t: Thres, u: Thres, which: ThresType, v: Value) {
    forall w: ThresType :: u.Field(w) == if w == which && t.Field(w).isSupported then Reading(true, v) else t.Field(w)
  }

  /** Of two states, the second differs only in the thresholds of sensor k, and there only by the edit. */
  ghost predicate OnlyEdited(s: State, t: State, k: Key, which: ThresType, v: Value) {
    && t.device.Keys == s.device.Keys && k in s.device
    && IsEdit(s.device[k], t.device[k], which, v)
    && forall x | x in s.device && x != k :: t.device[x] == s.device[x]
  }

  lemma ChangedWrites(s: State, p: Pos, which: ThresType, v: Value, accepted: bool)
    requires Has(s, p) && KeyAt(s, p) in s.device
    ensures var t, k := Changed(s, p, which, v, accepted), KeyAt(s, p);
      && (accepted ==> OnlyEdited(s, t, k, which, v))
      && (!accepted ==> t.device == s.device)
      && |t.sent| == |s.sent| + 1 && t.sent[..|s.sent|] == s.sent
      && t.sent[|s.sent|].key == k && IsEdit(s.device[k], t.sent[|s.sent|].thresholds, which, v)
  {
  }

  /**
   * A modification sends one request if the sensor can be read and the user has entered it all, and else none: for
   * that sensor, with what the device holds now but for the one threshold. Accepted, exactly that becomes of the
   * device; refused or not sent, nothing does.
   */
  lemma ModifyWrites(s: State, c: Cmd)
    requires c.Modify?
    ensures var t := Step(s, c);
      if Subject(s, c).Some? && Entered(c) then
        var k := Subject(s, c).value;
        && (c.write ==> OnlyEdited(s, t, k, c.which.value, c.value.value))
        && (!c.write ==> t.device == s.device)
        && |t.sent| == |s.sent| + 1 && t.sent[..|s.sent|] == s.sent
        && t.sent[|s.sent|].key == k && IsEdit(s.device[k], t.sent[|s.sent|].thresholds, c.which.value, c.value.value)
      else t.device == s.device && t.sent == s.sent
  {
    var p := Readable(s, c.id, c.num, c.read);
    if p.Some? {
      SeenWritesNothing(s, p.value);
      if Entered(c) { ChangedWrites(Seen(s, p.value), p.value, c.which.value, c.value.value, c.write); }
    }
  }

  lemma SeenWritesNothing(s: State, p: Pos)
    requires Has(s, p) && KeyAt(s, p) in s.device
    ensures var t := Seen(s, p);
      t.device == s.device && t.sent == s.sent && Has(t, p) && KeyAt(t, p) == KeyAt(s, p)
  {
    if !At(s, p).isValue {
      PutSame(s, p, At(s, p).(isValue := true, thresholds := s.device[KeyAt(s, p)]), p);
    }
  }

  /** The client's record after a modification: what was saved first stays saved, and only acceptance marks it. */
  lemma ModifyMarks(s: State, c: Cmd, q: Pos)
    requires c.Modify? && Subject(s, c).Some? && Has(s, q)
    ensures var t, p := Step(s, c), Target(s, c.id, c.num).value;
      && Has(t, q) && KeyAt(t, q) == KeyAt(s, q)
      && (q != p ==> At(t, q) == At(s, q))
      && (q == p ==>
            && At(t, p).isValue
            && At(t, p).thresholds == (if At(s, p).isValue then At(s, p).thresholds else s.device[KeyAt(s, p)])
            && (At(t, p).modified <==> At(s, p).modified || (Entered(c) && c.write)))
  {
    var p := Readable(s, c.id, c.num, c.read).value;
    var u := Seen(s, p);
    if !At(s, p).isValue {
      var r := At(s, p).(isValue := true, thresholds := s.device[KeyAt(s, p)]);
      PutSame(s, p, r, p);
      PutSame(s, p, r, q);
    }
    if Entered(c) && c.write {
      PutSame(u, p, At(u, p).(modified := true), p);
      PutSame(u, p, At(u, p).(modified := true), q);
    }
  }

  /** Showing a sensor writes nothing. */
  lemma ShowWrites(s: State, c: Cmd)
    requires c.Show?
    ensures Step(s, c).device == s.device && Step(s, c).sent == s.sent
  {
  }

  // ---------------------------------------------------------------- between two undos

  /** The command is an accepted modification of the threshold which of sensor k. */
  ghost predicate Sets(s: State, c: Cmd, k: Key, which: ThresType) {
    c.Modify? && Subject(s, c) == Some(k) && Entered(c) && c.which.value == which && c.write
  }

  ghost predicate Supports(s: State, k: Key, which: ThresType) {
    k in s.device && s.device[k].Field(which).isSupported
  }

  lemma OthersKeepThreshold(s: State, c: Cmd, k: Key, which: ThresType)
    requires !c.Undo? && !Sets(s, c, k, which) && k in s.device
    ensures k in Step(s, c).device && Step(s, c).device[k].Field(which) == s.device[k].Field(which)
  {
    if c.Modify? { ModifyWrites(s, c); } else { ShowWrites(s, c); }
  }

  /** The m-th command is the last modification of the threshold, and no undo follows it. */
  ghost predicate LastSet(s0: State, cmds: seq<Cmd>, m: nat, k: Key, which: ThresType) {
    && m < |cmds| && Sets(Run(s0, cmds[..m]), cmds[m], k, which)
    && forall n | m < n < |cmds| :: !cmds[n].Undo? && !Sets(Run(s0, cmds[..n]), cmds[n], k, which)
  }

  /** Since the last undo, a supported threshold holds the value of the last accepted modification of it. */
  lemma {:induction false} HoldsLastValue(s0: State, cmds: seq<Cmd>, m: nat, k: Key, which: ThresType)
    requires LastSet(s0, cmds, m, k, which) && Supports(Run(s0, cmds[..m]), k, which)
    ensures k in Run(s0, cmds).device && Run(s0, cmds).device[k].Field(which) == Reading(true, cmds[m].value.value)
    decreases |cmds|
  {
    var n := |cmds| - 1;
    var init := cmds[..n];
    if m == n {
      ModifyWrites(Run(s0, init), cmds[n]);
    } else {
      assert init[..m] == cmds[..m];
      forall i | m < i < n ensures !init[i].Undo? && !Sets(Run(s0, init[..i]), init[i], k, which) {
        assert init[..i] == cmds[..i];
      }
      HoldsLastValue(s0, init, m, k, which);
      OthersKeepThreshold(Run(s0, init), cmds[n], k, which);
    }
  }
}
