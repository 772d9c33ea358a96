/**
 * The threshold client of clients/hpithres.c: what it keeps about every sensor, and what undo does with it.
 * The commands carry what the user and the daemon answer; everything else is computed as in the source.
 */
module Thresholds {
  import opened Hpi

  type Value = real

  /** SaHpiSensorReadingT: a value means something only where it is supported. */
  datatype Reading = Reading(isSupported: bool, value: Value)

  datatype ThresType = LowerCrit | LowerMajor | LowerMinor | UpperCrit | UpperMajor | UpperMinor | PosHyst | NegHyst

  datatype Thres = Thres(lowCritical: Reading, lowMajor: Reading, lowMinor: Reading,
                         upCritical: Reading, upMajor: Reading, upMinor: Reading,
                         posHysteresis: Reading, negHysteresis: Reading)
  {
    function Field(t: ThresType): Reading {
      match t
      case LowerCrit => lowCritical
      case LowerMajor => lowMajor
      case LowerMinor => lowMinor
      case UpperCrit => upCritical
      case UpperMajor => upMajor
      case UpperMinor => upMinor
      case PosHyst => posHysteresis
      case NegHyst => negHysteresis
    }
  }

  /** set_thres_value */
  function SetValue(r: Reading, v: Value): Reading {
    if r.isSupported then r.(value := v) else r
  }

  /** The switch of mod_sen. */
  function Edited(t: Thres, which: ThresType, v: Value): (r: Thres)
    ensures forall w: ThresType ::
              r.Field(w) == if w == which && t.Field(w).isSupported then Reading(true, v) else t.Field(w)
  {
    match which
    case LowerCrit => t.(lowCritical := SetValue(t.lowCritical, v))
    case LowerMajor => t.(lowMajor := SetValue(t.lowMajor, v))
    case LowerMinor => t.(lowMinor := SetValue(t.lowMinor, v))
    case UpperCrit => t.(upCritical := SetValue(t.upCritical, v))
    case UpperMajor => t.(upMajor := SetValue(t.upMajor, v))
    case UpperMinor => t.(upMinor := SetValue(t.upMinor, v))
    case PosHyst => t.(posHysteresis := SetValue(t.posHysteresis, v))
    case NegHyst => t.(negHysteresis := SetValue(t.negHysteresis, v))
  }

  /** Rdr_t: one record, with the thresholds first read (if isValue) and whether they were changed since. */
  datatype Rdr = Rdr(isSensor: bool, num: U32, isValue: bool, modified: bool, thresholds: Thres)
  /** Rpt_t */
  datatype Rpt = Rpt(entryId: U32, resourceId: U32, rdrs: seq<Rdr>)
  /** What the device knows a sensor by. */
  datatype Key = Key(resourceId: U32, num: U32)
  /** Where the client keeps a record. */
  datatype Pos = Pos(i: nat, j: nat)

  /** A request sent to the daemon to set thresholds. */
  datatype Write = Write(key: Key, thresholds: Thres)

  /** The client's records, what the sensors are set to, and every request to set them so far. */
  datatype State = State(rpts: seq<Rpt>, device: map<Key, Thres>, sent: seq<Write>)

  predicate Has(s: State, p: Pos) {
    p.i < |s.rpts| && p.j < |s.rpts[p.i].rdrs|
  }

  function At(s: State, p: Pos): Rdr
    requires Has(s, p)
  {
    s.rpts[p.i].rdrs[p.j]
  }

  function KeyAt(s: State, p: Pos): Key
    requires Has(s, p)
  {
    Key(s.rpts[p.i].resourceId, At(s, p).num)
  }

  function Put(s: State, p: Pos, r: Rdr): State
    requires Has(s, p)
  {
    s.(rpts := s.rpts[p.i := s.rpts[p.i].(rdrs := s.rpts[p.i].rdrs[p.j := r])])
  }

  /** saHpiSensorThresholdsSet: the daemon takes the new thresholds, or nothing changes. */
  function Written(s: State, k: Key, t: Thres, accepted: bool): State {
    s.(device := if accepted && k in s.device then s.device[k := t] else s.device, sent := s.sent + [Write(k, t)])
  }

  // ---------------------------------------------------------------- looking up a sensor

  function FindRpt(rpts: seq<Rpt>, id: U32, from: nat): Option<nat>
    decreases |rpts| - from
  {
    if from >= |rpts| then None else if rpts[from].entryId == id then Some(from) else FindRpt(rpts, id, from + 1)
  }

  function FindSensor(rdrs: seq<Rdr>, num: U32, from: nat): Option<nat>
    decreases |rdrs| - from
  {
    if from >= |rdrs| then None
    else if rdrs[from].isSensor && rdrs[from].num == num then Some(from)
    else FindSensor(rdrs, num, from + 1)
  }

  lemma {:induction false} FindRptFirst(rpts: seq<Rpt>, id: U32, from: nat)
    ensures match FindRpt(rpts, id, from)
            case None => forall k | from <= k < |rpts| :: rpts[k].entryId != id
            case Some(i) => from <= i < |rpts| && rpts[i].entryId == id
                            && forall k | from <= k < i :: rpts[k].entryId != id
    decreases |rpts| - from
  {
    if from < |rpts| { FindRptFirst(rpts, id, from + 1); }
  }

  lemma {:induction false} FindSensorFirst(rdrs: seq<Rdr>, num: U32, from: nat)
    ensures match FindSensor(rdrs, num, from)
            case None => forall k | from <= k < |rdrs| :: !(rdrs[k].isSensor && rdrs[k].num == num)
            case Some(j) => from <= j < |rdrs| && rdrs[j].isSensor && rdrs[j].num == num
                            && forall k | from <= k < j :: !(rdrs[k].isSensor && rdrs[k].num == num)
    decreases |rdrs| - from
  {
    if from < |rdrs| { FindSensorFirst(rdrs, num, from + 1); }
  }

  function Target(s: State, id: U32, num: U32): (p: Option<Pos>)
    ensures p.Some? ==> Has(s, p.value) && At(s, p.value).isSensor
  {
    FindRptFirst(s.rpts, id, 0);
    var i := FindRpt(s.rpts, id, 0);
    if i.None? then None else
    FindSensorFirst(s.rpts[i.value].rdrs, num, 0);
    var j := FindSensor(s.rpts[i.value].rdrs, num, 0);
    if j.None? then None else Some(Pos(i.value, j.value))
  }

  // ---------------------------------------------------------------- the commands

  /** Reading a sensor's thresholds: the first ones read are kept. */
  function Seen(s: State, p: Pos): State
    requires Has(s, p) && KeyAt(s, p) in s.device
  {
    if At(s, p).isValue then s else Put(s, p, At(s, p).(isValue := true, thresholds := s.device[KeyAt(s, p)]))
  }

  /** A confirmed change. */
  function Changed(s: State, p: Pos, which: ThresType, v: Value, accepted: bool): State
    requires Has(s, p) && KeyAt(s, p) in s.device
  {
    var k := KeyAt(s, p);
    var t := Written(s, k, Edited(s.device[k], which, v), accepted);
    if accepted then Put(t, p, At(t, p).(modified := true)) else t
  }

  /** One round of undo's inner loop; what the daemon answers is not looked at. */
  function UndoAt(s: State, p: Pos, accepted: bool): State {
    if Has(s, p) && At(s, p).modified then
      Put(Written(s, KeyAt(s, p), At(s, p).thresholds, accepted), p, At(s, p).(modified := false))
    else s
  }

  /** undo, up to record j of resource i. */
  function UndoRow(s: State, i: nat, j: nat, accepts: set<Pos>): State {
    if j == 0 then s else UndoAt(UndoRow(s, i, j - 1, accepts), Pos(i, j - 1), Pos(i, j - 1) in accepts)
  }

  function UndoRows(s: State, i: nat, accepts: set<Pos>): State {
    if i == 0 then s else
    var t := UndoRows(s, i - 1, accepts);
    if i <= |t.rpts| then UndoRow(t, i - 1, |t.rpts[i - 1].rdrs|, accepts) else t
  }

  /**
   * A command with the answers it meets: read and write say whether the daemon obliges, which, value and confirmed
   * what the user enters, accepts which writes of an undo the daemon accepts.
   */
  datatype Cmd =
    | Show(id: U32, num: U32, read: bool)
    | Modify(id: U32, num: U32, read: bool, which: Option<ThresType>, value: Option<Value>,
             confirmed: bool, write: bool)
    | Undo(accepts: set<Pos>)

  /** The sensor a command names, if it is known and the daemon gives its thresholds. */
  function Readable(s: State, id: U32, num: U32, read: bool): (p: Option<Pos>)
    ensures p.Some? ==> Has(s, p.value) && At(s, p.value).isSensor && KeyAt(s, p.value) in s.device
  {
    var p := Target(s, id, num);
    if p.Some? && read && KeyAt(s, p.value) in s.device then p else None
  }

  function Step(s: State, c: Cmd): State {
    match c
    case Show(id, num, read) =>
      var p := Readable(s, id, num, read);
      if p.Some? then Seen(s, p.value) else s
    case Modify(id, num, read, which, value, confirmed, write) =>
      var p := Readable(s, id, num, read);
      if p.None? then s else
      var t := Seen(s, p.value);
      if which.Some? && value.Some? && confirmed then Changed(t, p.value, which.value, value.value, write) else t
    case Undo(accepts) => UndoRows(s, |s.rpts|, accepts)
  }

  function Run(s: State, cmds: seq<Cmd>): State {
    if cmds == [] then s else Step(Run(s, cmds[..|cmds| - 1]), cmds[|cmds| - 1])
  }

  // ---------------------------------------------------------------- the program

  class Client {
    var rpts: seq<Rpt>
    /** The other side: what the sensors are set to, and what was asked of it. */
    var device: map<Key, Thres>
    ghost var sent: seq<Write>

    ghost function S(): State
      reads this
    {
      State(rpts, device, sent)
    }

    method FindRptById(id: U32) returns (r: Option<nat>)
      ensures r == FindRpt(rpts, id, 0)
    {
      var i: nat := 0;
      while i < |rpts|
        invariant FindRpt(rpts, id, 0) == FindRpt(rpts, id, i)
      {
        if rpts[i].entryId == id { return Some(i); }
        i := i + 1;
      }
      r := None;
    }

    method FindSensorByNum(rpt: Rpt, num: U32) returns (r: Option<nat>)
      ensures r == FindSensor(rpt.rdrs, num, 0)
    {
      var i: nat := 0;
      while i < |rpt.rdrs|
        invariant FindSensor(rpt.rdrs, num, 0) == FindSensor(rpt.rdrs, num, i)
      {
        if rpt.rdrs[i].isSensor {
          if rpt.rdrs[i].num == num { return Some(i); }
        }
        i := i + 1;
      }
      r := None;
    }

    method PutRdr(p: Pos, r: Rdr)
      requires Has(S(), p)
      modifies this`rpts
      ensures S() == Put(old(S()), p, r)
    {
      var rpt := rpts[p.i];
      rpts := rpts[p.i := rpt.(rdrs := rpt.rdrs[p.j := r])];
    }

    /** saHpiSensorThresholdsGet: nothing if the daemon refuses or has no such sensor. */
    method Get(k: Key, obliges: bool) returns (t: Option<Thres>)
      ensures t == if obliges && k in device then Some(device[k]) else None
    {
      t := if obliges && k in device then Some(device[k]) else None;
    }

    method Set(k: Key, t: Thres, accepts: bool) returns (ok: bool)
      modifies this`device, this`sent
      ensures S() == Written(old(S()), k, t, accepts) && (ok <==> accepts && k in old(device))
    {
      sent := sent + [Write(k, t)];
      ok := accepts && k in device;
      if ok { device := device[k := t]; }
    }

    /** show_thresholds */
    method ShowThresholds(p: Pos, read: bool) returns (t: Option<Thres>)
      requires Has(S(), p)
      modifies this`rpts
      ensures t == if read && KeyAt(old(S()), p) in device then Some(device[KeyAt(old(S()), p)]) else None
      ensures S() == if t.Some? then Seen(old(S()), p) else old(S())
    {
      var rdr := rpts[p.i].rdrs[p.j];
      t := Get(Key(rpts[p.i].resourceId, rdr.num), read);
      if t.Some? && !rdr.isValue {
        PutRdr(p, rdr.(thresholds := t.value, isValue := true));
      }
    }

    /** show_sens with both numbers given */
    method ShowSens(id: U32, num: U32, read: bool)
      modifies this`rpts
      ensures S() == Step(old(S()), Show(id, num, read))
    {
      var i := FindRptById(id);
      if i.None? { return; }
      FindRptFirst(rpts, id, 0);
      var j := FindSensorByNum(rpts[i.value], num);
      if j.None? { return; }
      FindSensorFirst(rpts[i.value].rdrs, num, 0);
      var _ := ShowThresholds(Pos(i.value, j.value), read);
    }

    /** mod_sen */
    method ModSen(id: U32, num: U32, read: bool, which: Option<ThresType>, value: Option<Value>,
                  confirmed: bool, write: bool)
      modifies this
      ensures S() == Step(old(S()), Modify(id, num, read, which, value, confirmed, write))
    {
      var i := FindRptById(id);
      if i.None? { return; }
      FindRptFirst(rpts, id, 0);
      var j := FindSensorByNum(rpts[i.value], num);
      if j.None? { return; }
      FindSensorFirst(rpts[i.value].rdrs, num, 0);
      var p := Pos(i.value, j.value);
      var thres := ShowThresholds(p, read);
      if thres.None? || which.None? || value.None? { return; }
      var edited := Edited(thres.value, which.value, value.value);
      if !confirmed { return; }
      var rdr := rpts[p.i].rdrs[p.j];
      var ok := Set(Key(rpts[p.i].resourceId, rdr.num), edited, write);
      if ok { PutRdr(p, rdr.(modified := true)); }
    }

    /** The inner loop of undo. */
    method UndoResource(i: nat, accepts: set<Pos>)
      requires i < |rpts|
      modifies this
      ensures S() == UndoRow(old(S()), i, |old(rpts[i].rdrs)|, accepts)
      ensures |rpts| == |old(rpts)|
    {
      var j: nat := 0;
      while j < |rpts[i].rdrs|
        invariant |rpts| == |old(rpts)| && j <= |rpts[i].rdrs| == |old(rpts[i].rdrs)|
        invariant S() == UndoRow(old(S()), i, j, accepts)
        decreases |old(rpts[i].rdrs)| - j
      {
        var rdr := rpts[i].rdrs[j];
        if rdr.modified {
          var _ := Set(Key(rpts[i].resourceId, rdr.num), rdr.thresholds, Pos(i, j) in accepts);
          PutRdr(Pos(i, j), rdr.(modified := false));
        }
        j := j + 1;
      }
    }

    /** undo */
    method Undo(accepts: set<Pos>)
      modifies this
      ensures S() == Step(old(S()), Cmd.Undo(accepts))
    {
      var i: nat := 0;
      while i < |rpts|
        invariant i <= |rpts| == |old(rpts)|
        invariant S() == UndoRows(old(S()), i, accepts)
        decreases |old(rpts)| - i
      {
        UndoResource(i, accepts);
        i := i + 1;
      }
    }
  }
}
