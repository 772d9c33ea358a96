/** The domain table of baselib/conf.c: ordered keys, the gap-filling id allocator and the entry cursor. */
module DomainTable {
  import opened Hpi

  datatype DomainConf = DomainConf(did: U32, host: string, port: U16, root: EntityPath)

  /** Keyed by did; the key points into the value, so an entry always carries its own id. */
  type Table = map<U32, DomainConf>

  ghost predicate WellKeyed(t: Table) {
    forall d <- t :: t[d].did == d
  }

  /** No id has its top bit set, so compare_keys agrees with the unsigned order. */
  ghost predicate Small(t: Table) {
    forall d <- t :: d < TWO31
  }

  // ---------------------------------------------------------------- sorted keys

  ghost predicate IsLeastKey(k: U32, keys: set<U32>) {
    k in keys && forall x | x in keys :: Signed(k) <= Signed(x)
  }

  lemma {:induction false} LeastKeyExists(keys: set<U32>)
    requires keys != {}
    ensures exists k :: IsLeastKey(k, keys)
  {
    var k :| k in keys;
    var rest := keys - {k};
    if rest == {} {
      assert keys == {k};
      assert IsLeastKey(k, keys);
    } else {
      LeastKeyExists(rest);
      var m :| IsLeastKey(m, rest);
      assert keys == rest + {k};
      assert IsLeastKey(if Signed(k) <= Signed(m) then k else m, keys);
    }
  }

  function LeastKey(keys: set<U32>): (k: U32)
    requires keys != {}
    ensures IsLeastKey(k, keys)
  {
    LeastKeyExists(keys);
    var k :| k in keys && forall x | x in keys :: Signed(k) <= Signed(x);
    k
  }

  ghost predicate Ascending(ks: seq<U32>) {
    forall i, j | 0 <= i < j < |ks| :: Signed(ks[i]) < Signed(ks[j])
  }

  /** ks lists exactly the ids in keys. */
  ghost predicate Lists(ks: seq<U32>, keys: set<U32>) {
    && |ks| == |keys|
    && (forall i | 0 <= i < |ks| :: ks[i] in keys)
    && (forall k | k in keys :: k in ks)
  }

  lemma ConsLists(k: U32, rest: seq<U32>, keys: set<U32>)
    requires IsLeastKey(k, keys)
    requires Lists(rest, keys - {k}) && Ascending(rest)
    ensures Lists([k] + rest, keys) && Ascending([k] + rest)
  {
    var ks := [k] + rest;
    forall i, j | 0 <= i < j < |ks| ensures Signed(ks[i]) < Signed(ks[j]) {
      assert ks[j] == rest[j - 1];
      assert ks[j] in keys - {k};
      if i > 0 { assert ks[i] == rest[i - 1]; }
    }
    forall x | x in keys ensures x in ks {
      if x != k { assert x in rest; }
    }
  }

  /** The key list of ohc_domains after g_list_sort with compare_keys. */
  function SortedKeys(keys: set<U32>): (ks: seq<U32>)
    ensures Lists(ks, keys) && Ascending(ks)
  {
    if keys == {} then [] else
      var k := LeastKey(keys);
      var rest := SortedKeys(keys - {k});
      ConsLists(k, rest, keys);
      [k] + rest
  }

  // ---------------------------------------------------------------- allocator

  ghost predicate IsLeastFree(keys: set<U32>, n: nat) {
    0 < n && n !in keys && forall m: nat | 0 < m < n :: m in keys
  }

  lemma LeastFreeUnique(keys: set<U32>, m: nat, n: nat)
    requires IsLeastFree(keys, m) && IsLeastFree(keys, n)
    ensures m == n
  {
  }

  ghost function Positive(keys: set<U32>): set<U32> {
    set k | k in keys && 0 < k
  }

  /** Pigeonhole: an initial run of positive ids is no longer than the set it lies in. */
  lemma {:induction false} RunFits(keys: set<U32>, n: nat)
    requires forall m: nat | 0 < m <= n :: m in keys
    ensures n <= |Positive(keys)|
  {
    if n > 0 {
      assert n in keys;
      var top: U32 := n;
      RunFits(keys - {top}, n - 1);
      assert Positive(keys - {top}) == Positive(keys) - {top};
    }
  }

  /** The least positive id not in use; it exceeds the number of positive ids by at most one. */
  ghost function LeastFree(keys: set<U32>): (n: nat)
    ensures IsLeastFree(keys, n)
    ensures n <= |Positive(keys)| + 1
  {
    LeastFreeFrom(keys, 1)
  }

  ghost function LeastFreeFrom(keys: set<U32>, n: nat): (r: nat)
    requires 0 < n && forall m: nat | 0 < m < n :: m in keys
    ensures IsLeastFree(keys, r)
    ensures r <= |Positive(keys)| + 1
    decreases |Positive(keys)| + 1 - n
  {
    RunFits(keys, n - 1);
    if n in keys then
      RunFits(keys, n);
      LeastFreeFrom(keys, n + 1)
    else n
  }

  /**
   * The id ohc_add_domain_conf picks. An id with its top bit set sorts first, opens a "gap" right
   * after 0 and makes the allocator pick 1 whatever else is in the table.
   */
  ghost function NewDomainId(keys: set<U32>): (n: U32)
    ensures n != 0
    ensures (exists k :: k in keys && TWO31 <= k) ==> n == 1
    ensures (forall k <- keys :: k < TWO31) ==> IsLeastFree(keys, n) && n <= TWO31
  {
    if exists k :: k in keys && TWO31 <= k then 1 else
      var n := LeastFree(keys);
      assert TWO31 !in keys;
      n
  }

  /**
   * The picked id is unused, and is the least unused positive id, exactly when no id has its top bit
   * set or id 1 is still free. Otherwise the allocator returns 1 and overwrites domain 1.
   */
  lemma NewDomainIdFreshIff(keys: set<U32>)
    ensures NewDomainId(keys) !in keys <==> (forall k | k in keys :: k < TWO31) || 1 !in keys
    ensures IsLeastFree(keys, NewDomainId(keys)) <==> (forall k | k in keys :: k < TWO31) || 1 !in keys
  {
  }

  lemma {:induction false} RangeFits(keys: set<U32>, n: nat)
    requires forall k | k in keys :: 0 < k <= n
    ensures |keys| <= n
  {
    if keys != {} {
      var k :| k in keys;
      if n in keys {
        var top: U32 := n;
        RangeFits(keys - {top}, n - 1);
      } else {
        RangeFits(keys, n - 1);
      }
    }
  }

  /** The new id is below 2^31 as well, exactly if there is room for one more such id or an id of 2^31 or above. */
  lemma NewDomainIdStaysSmall(t: Table)
    ensures NewDomainId(t.Keys) < TWO31 <==> !Small(t) || |Positive(t.Keys)| <= TWO31 - 2
  {
    if Small(t) {
      var n := NewDomainId(t.Keys);
      LeastFreeUnique(t.Keys, n, LeastFree(t.Keys));
      if n < TWO31 {
        assert n !in Positive(t.Keys);
        RangeFits(Positive(t.Keys) + {n}, TWO31 - 1);
      }
    } else {
      var high :| high in t && TWO31 <= high;
      assert high in t.Keys;
    }
  }

  /** The failing case is reachable: the configuration file may name domain 2^31. */
  lemma AllocatorRebindsDomainOne()
    ensures var keys: set<U32> := {0, 1, TWO31}; NewDomainId(keys) in keys
  {
    var keys: set<U32> := {0, 1, TWO31};
    assert TWO31 in keys;
  }

  // ---------------------------------------------------------------- the two add operations

  datatype AddOp =
    | Auto(host: string, port: U16, root: EntityPath)
    | ById(did: U32, host: string, port: U16, root: EntityPath)

  datatype AddResult = AddResult(rv: SaErrorT, did: U32)

  ghost predicate ReservedId(did: U32) {
    did == UNSPECIFIED_DOMAIN_ID || did == DEFAULT_DOMAIN_ID
  }

  /** One whole add: its check and its insertion lie in one critical section. */
  ghost function Add(t: Table, op: AddOp): (Table, AddResult)
  {
    match op
    case Auto(host, port, root) =>
      var did := NewDomainId(t.Keys);
      (t[did := DomainConf(did, Clip(host), port, root)], AddResult(SA_OK, did))
    case ById(did, host, port, root) =>
      if ReservedId(did) then (t, AddResult(SA_ERR_HPI_INVALID_PARAMS, did))
      else if did in t then (t, AddResult(SA_ERR_HPI_DUPLICATE, did))
      else (t[did := DomainConf(did, Clip(host), port, root)], AddResult(SA_OK, did))
  }

  ghost predicate Extends(t: Table, t': Table) {
    forall d | d in t :: d in t' && t'[d] == t[d]
  }

  /** The table entry an add asks for. */
  ghost function Requested(op: AddOp, did: U32): DomainConf {
    DomainConf(did, Clip(op.host), op.port, op.root)
  }

  /** An add by id: a reserved id is an invalid parameter, a used one a duplicate, and any other is added. */
  lemma AddByIdAnswers(t: Table, op: AddOp)
    requires op.ById?
    ensures var rv := Add(t, op).1.rv;
      && (op.did == 0 || op.did == 0xFFFF_FFFF ==> rv == SA_ERR_HPI_INVALID_PARAMS)
      && (op.did != 0 && op.did != 0xFFFF_FFFF && op.did in t ==> rv == SA_ERR_HPI_DUPLICATE)
      && (op.did != 0 && op.did != 0xFFFF_FFFF && op.did !in t ==> rv == SA_OK)
      && (rv != SA_OK ==> Add(t, op).0 == t) && Add(t, op).1.did == op.did
  {
  }

  /** A successful add leaves the entry asked for, with the very host if it has at most 255 characters. */
  lemma AddStores(t: Table, op: AddOp)
    requires Add(t, op).1.rv == SA_OK && |op.host| <= 255
    ensures var did := Add(t, op).1.did;
      did in Add(t, op).0 && Add(t, op).0[did] == DomainConf(did, op.host, op.port, op.root)
  {
  }

  /** An add that overwrites no entry; by AddExtendsIff, any but an automatic one that picks id 1 while that is used. */
  ghost predicate OverwritesNothing(t: Table, op: AddOp) {
    op.ById? || Small(t) || 1 !in t
  }

  /** An add keeps every entry exactly when it is not an automatic add that picks a used id. */
  lemma AddExtendsIff(t: Table, op: AddOp)
    requires WellKeyed(t)
    ensures WellKeyed(Add(t, op).0) && t.Keys <= Add(t, op).0.Keys
    ensures OverwritesNothing(t, op) ==> Extends(t, Add(t, op).0)
    ensures Add(t, op).1.rv == SA_OK ==> (Add(t, op).1.did !in t <==> OverwritesNothing(t, op))
    ensures !OverwritesNothing(t, op) ==>
      Add(t, op).0 == t[1 := DomainConf(1, Clip(op.host), op.port, op.root)]
  {
    NewDomainIdFreshIff(t.Keys);
  }

  /** The add puts another entry in the place of that of d. */
  ghost predicate Replaces(t: Table, op: AddOp, d: U32) {
    d == 1 && !OverwritesNothing(t, op) && Requested(op, 1) != t[1]
  }

  /** The entry an add changes is that of domain 1, and only if the add overwrites it with another. */
  lemma AddReplacesIff(t: Table, op: AddOp, d: U32)
    requires WellKeyed(t) && d in t
    ensures d in Add(t, op).0
    ensures Add(t, op).0[d] != t[d] <==> Replaces(t, op, d)
  {
    AddExtendsIff(t, op);
  }

  /** The tables and results of a run: the adds of all threads in the order they took the lock. */
  ghost function AddRun(t: Table, ops: seq<AddOp>): (r: (Table, seq<AddResult>))
    ensures |r.1| == |ops|
    decreases |ops|
  {
    if ops == [] then (t, []) else
      var (t1, r) := Add(t, ops[0]);
      var (t', rs) := AddRun(t1, ops[1..]);
      (t', [r] + rs)
  }

  /** No add of the run overwrites an entry. */
  ghost predicate NeverOverwrites(t: Table, ops: seq<AddOp>)
    decreases |ops|
  {
    ops != [] ==> OverwritesNothing(t, ops[0]) && NeverOverwrites(Add(t, ops[0]).0, ops[1..])
  }

  /** Every successful add took an unused id and finds its own entry at the end. */
  ghost predicate WinsKept(t: Table, ops: seq<AddOp>, t': Table, rs: seq<AddResult>)
    requires |rs| == |ops|
  {
    forall i | 0 <= i < |rs| && rs[i].rv == SA_OK ::
      rs[i].did !in t && rs[i].did in t' && t'[rs[i].did] == Requested(ops[i], rs[i].did)
  }

  /** Successful adds get different ids. */
  ghost predicate WinsDiffer(rs: seq<AddResult>) {
    forall i, j | 0 <= i < j < |rs| && rs[i].rv == SA_OK && rs[j].rv == SA_OK :: rs[i].did != rs[j].did
  }

  ghost predicate Won(rs: seq<AddResult>, d: U32) {
    exists i :: 0 <= i < |rs| && rs[i] == AddResult(SA_OK, d)
  }

  /** Nothing is in the table that was not there before or added by a successful call. */
  ghost predicate OnlyWins(t: Table, t': Table, rs: seq<AddResult>) {
    forall d | d in t' :: d in t || Won(rs, d)
  }

  /** An id asked for by some thread ends up in the table. */
  ghost predicate AskedPresent(ops: seq<AddOp>, t': Table) {
    forall i | 0 <= i < |ops| && ops[i].ById? && !ReservedId(ops[i].did) :: ops[i].did in t'
  }

  /** Every interleaving of adds none of which overwrites an entry. */
  lemma {:induction false} AddRunSafe(t: Table, ops: seq<AddOp>)
    requires WellKeyed(t) && NeverOverwrites(t, ops)
    ensures var (t', rs) := AddRun(t, ops);
      Extends(t, t') && WinsKept(t, ops, t', rs) && WinsDiffer(rs) && OnlyWins(t, t', rs) && AskedPresent(ops, t')
    decreases |ops|
  {
    if ops != [] {
      var (t1, r) := Add(t, ops[0]);
      var (t', rs) := AddRun(t1, ops[1..]);
      AddExtendsIff(t, ops[0]);
      NewDomainIdFreshIff(t.Keys);
      AddRunSafe(t1, ops[1..]);
      ConsWins(t, ops, t1, r, t', rs);
      ConsPresent(t, ops, t1, r, t', rs);
    }
  }

  lemma ConsWins(t: Table, ops: seq<AddOp>, t1: Table, r: AddResult, t': Table, rs: seq<AddResult>)
    requires ops != [] && |rs| == |ops| - 1 && (t1, r) == Add(t, ops[0]) && t.Keys <= t1.Keys && Extends(t1, t')
    requires r.rv == SA_OK ==> r.did !in t
    requires WinsKept(t1, ops[1..], t', rs) && WinsDiffer(rs)
    ensures WinsKept(t, ops, t', [r] + rs) && WinsDiffer([r] + rs)
  {
    var all := [r] + rs;
    forall i | 0 <= i < |all| && all[i].rv == SA_OK
      ensures all[i].did !in t && all[i].did in t' && t'[all[i].did] == Requested(ops[i], all[i].did)
      ensures 0 < i && r.rv == SA_OK ==> r.did != all[i].did
    {
      if i > 0 { assert all[i] == rs[i - 1] && ops[i] == ops[1..][i - 1]; }
    }
    forall i, j | 0 <= i < j < |all| && all[i].rv == SA_OK && all[j].rv == SA_OK ensures all[i].did != all[j].did {
      assert all[j] == rs[j - 1];
      if i > 0 { assert all[i] == rs[i - 1]; }
    }
  }

  lemma ConsPresent(t: Table, ops: seq<AddOp>, t1: Table, r: AddResult, t': Table, rs: seq<AddResult>)
    requires ops != [] && |rs| == |ops| - 1 && (t1, r) == Add(t, ops[0]) && Extends(t1, t')
    requires OnlyWins(t1, t', rs) && AskedPresent(ops[1..], t')
    ensures OnlyWins(t, t', [r] + rs) && AskedPresent(ops, t')
  {
    var all := [r] + rs;
    forall d | d in t' && d !in t ensures Won(all, d) {
      if d in t1 {
        assert all[0] == AddResult(SA_OK, d);
      } else {
        var i :| 0 <= i < |rs| && rs[i] == AddResult(SA_OK, d);
        assert all[i + 1] == AddResult(SA_OK, d);
      }
    }
    forall i | 0 <= i < |ops| && ops[i].ById? && !ReservedId(ops[i].did) ensures ops[i].did in t' {
      if i > 0 { assert ops[i] == ops[1..][i - 1]; }
    }
  }

  lemma TailWins(t: Table, ops: seq<AddOp>, t1: Table, r: AddResult, t': Table, rs: seq<AddResult>)
    requires ops != [] && |rs| == |ops| - 1 && (t1, r) == Add(t, ops[0])
    requires WinsKept(t, ops, t', [r] + rs) && WinsDiffer([r] + rs)
    ensures WinsKept(t1, ops[1..], t', rs) && WinsDiffer(rs)
  {
    var all := [r] + rs;
    forall i | 0 <= i < |rs| && rs[i].rv == SA_OK
      ensures rs[i].did !in t1 && rs[i].did in t' && t'[rs[i].did] == Requested(ops[1..][i], rs[i].did)
    {
      assert all[i + 1] == rs[i] && ops[i + 1] == ops[1..][i] && all[0] == r;
    }
    forall i, j | 0 <= i < j < |rs| && rs[i].rv == SA_OK && rs[j].rv == SA_OK ensures rs[i].did != rs[j].did {
      assert all[i + 1] == rs[i] && all[j + 1] == rs[j];
    }
  }

  /**
   * Of every interleaving of adds: all successful calls have unused ids of their own, and keep their
   * entries, exactly when no automatic add meets both a used id 1 and an id of 2^31 or above.
   */
  lemma {:induction false} AddRunSafeIff(t: Table, ops: seq<AddOp>)
    requires WellKeyed(t)
    ensures WinsKept(t, ops, AddRun(t, ops).0, AddRun(t, ops).1) && WinsDiffer(AddRun(t, ops).1)
       <==> NeverOverwrites(t, ops)
    decreases |ops|
  {
    if NeverOverwrites(t, ops) {
      AddRunSafe(t, ops);
    } else {
      var (t1, r) := Add(t, ops[0]);
      var (t', rs) := AddRun(t1, ops[1..]);
      AddExtendsIff(t, ops[0]);
      if OverwritesNothing(t, ops[0]) {
        AddRunSafeIff(t1, ops[1..]);
        if WinsKept(t, ops, t', [r] + rs) && WinsDiffer([r] + rs) { TailWins(t, ops, t1, r, t', rs); }
      } else {
        NewDomainIdFreshIff(t.Keys);
        assert ([r] + rs)[0] == AddResult(SA_OK, 1);
      }
    }
  }

  ghost predicate WonOnlyAt(rs: seq<AddResult>, d: U32, i: nat) {
    i < |rs| && rs[i] == AddResult(SA_OK, d) && forall j | 0 <= j < |rs| && rs[j] == AddResult(SA_OK, d) :: j == i
  }

  /** The i-th call succeeds with d. */
  ghost predicate WinsAt(rs: seq<AddResult>, d: U32, i: nat) {
    i < |rs| && rs[i] == AddResult(SA_OK, d)
  }

  /** An add takes a used id only if it overwrites domain 1. */
  lemma TakesUsed(t: Table, op: AddOp, d: U32)
    requires WellKeyed(t) && Add(t, op).1 == AddResult(SA_OK, d)
    ensures d in t <==> !OverwritesNothing(t, op)
    ensures d in t ==> d == 1
  {
    AddExtendsIff(t, op);
    NewDomainIdFreshIff(t.Keys);
  }

  lemma {:induction false} UsedNotWon(t: Table, ops: seq<AddOp>, d: U32, j: nat)
    requires WellKeyed(t) && d in t && d != 1
    ensures !WinsAt(AddRun(t, ops).1, d, j)
    decreases |ops|
  {
    if ops != [] {
      var (t1, r) := Add(t, ops[0]);
      AddExtendsIff(t, ops[0]);
      if r == AddResult(SA_OK, d) { TakesUsed(t, ops[0], d); }
      if j > 0 { UsedNotWon(t1, ops[1..], d, j - 1); }
    }
  }

  /** No id but 1 is given twice, whatever is in the table. */
  lemma {:induction false} WonOnce(t: Table, ops: seq<AddOp>, d: U32, i: nat, j: nat)
    requires WellKeyed(t) && d != 1 && i < j && WinsAt(AddRun(t, ops).1, d, i)
    ensures !WinsAt(AddRun(t, ops).1, d, j)
    decreases |ops|
  {
    var (t1, r) := Add(t, ops[0]);
    AddExtendsIff(t, ops[0]);
    if i == 0 { UsedNotWon(t1, ops[1..], d, j - 1); } else { WonOnce(t1, ops[1..], d, i - 1, j - 1); }
  }

  /** Somebody gets an unused id that is asked for. */
  lemma {:induction false} SomebodyWins(t: Table, ops: seq<AddOp>, k: nat) returns (i: nat)
    requires WellKeyed(t) && k < |ops| && ops[k].ById? && !ReservedId(ops[k].did) && ops[k].did !in t
    ensures WinsAt(AddRun(t, ops).1, ops[k].did, i)
    decreases |ops|
  {
    var (t1, r) := Add(t, ops[0]);
    AddExtendsIff(t, ops[0]);
    if r == AddResult(SA_OK, ops[k].did) {
      i := 0;
    } else {
      i := SomebodyWins(t1, ops[1..], k - 1);
      i := i + 1;
    }
  }

  /** In a run that overwrites domain 1, an add wins id 1 when it is already used. */
  lemma {:induction false} OverwriteWins(t: Table, ops: seq<AddOp>) returns (j: nat)
    requires WellKeyed(t) && 1 in t && !NeverOverwrites(t, ops)
    ensures WinsAt(AddRun(t, ops).1, 1, j)
    decreases |ops|
  {
    AddExtendsIff(t, ops[0]);
    if OverwritesNothing(t, ops[0]) {
      j := OverwriteWins(Add(t, ops[0]).0, ops[1..]);
      j := j + 1;
    } else {
      NewDomainIdFreshIff(t.Keys);
      j := 0;
    }
  }

  lemma {:induction false} OneWonTwice(t: Table, ops: seq<AddOp>) returns (i: nat, j: nat)
    requires WellKeyed(t) && 1 !in t && !NeverOverwrites(t, ops)
    ensures i < j && WinsAt(AddRun(t, ops).1, 1, i) && WinsAt(AddRun(t, ops).1, 1, j)
    decreases |ops|
  {
    var (t1, r) := Add(t, ops[0]);
    AddExtendsIff(t, ops[0]);
    if 1 in t1 {
      i := 0;
      j := OverwriteWins(t1, ops[1..]);
      j := j + 1;
    } else {
      i, j := OneWonTwice(t1, ops[1..]);
      i, j := i + 1, j + 1;
    }
  }

  ghost predicate OneWinner(rs: seq<AddResult>, d: U32) {
    exists i: nat :: WonOnlyAt(rs, d, i)
  }

  lemma OnlyAt(rs: seq<AddResult>, d: U32, i: nat)
    requires WinsAt(rs, d, i) && forall j: nat | j != i :: !WinsAt(rs, d, j)
    ensures OneWinner(rs, d)
  {
    forall j | 0 <= j < |rs| && rs[j] == AddResult(SA_OK, d) ensures j == i { assert WinsAt(rs, d, j); }
    assert WonOnlyAt(rs, d, i);
  }

  lemma OthersLose(t: Table, ops: seq<AddOp>, d: U32, i: nat)
    requires WellKeyed(t) && d != 1 && WinsAt(AddRun(t, ops).1, d, i)
    ensures forall j: nat | j != i :: !WinsAt(AddRun(t, ops).1, d, j)
  {
    forall j: nat | j > i ensures !WinsAt(AddRun(t, ops).1, d, j) { WonOnce(t, ops, d, i, j); }
    forall j: nat | j < i && WinsAt(AddRun(t, ops).1, d, j) ensures false { WonOnce(t, ops, d, j, i); }
  }

  /**
   * Of all the adds that compete for one unused id exactly one gets it: always, for an id other than 1, and for id 1
   * exactly if no add of the run overwrites domain 1.
   */
  lemma ExactlyOneWins(t: Table, ops: seq<AddOp>, k: nat)
    requires WellKeyed(t)
    requires k < |ops| && ops[k].ById? && !ReservedId(ops[k].did) && ops[k].did !in t
    ensures OneWinner(AddRun(t, ops).1, ops[k].did) <==> ops[k].did != 1 || NeverOverwrites(t, ops)
  {
    var rs, d := AddRun(t, ops).1, ops[k].did;
    var i := SomebodyWins(t, ops, k);
    if d != 1 {
      OthersLose(t, ops, d, i);
      OnlyAt(rs, d, i);
    } else if NeverOverwrites(t, ops) {
      AddRunSafe(t, ops);
      OnlyAt(rs, d, i);
    } else {
      var a, b := OneWonTwice(t, ops);
      assert forall x | WonOnlyAt(rs, d, x) :: a == x && b == x;
    }
  }

  // ---------------------------------------------------------------- the entry cursor

  ghost function Above(keys: set<U32>, did: U32): set<U32> {
    set k | k in keys && Signed(did) < Signed(k)
  }

  /** The id of the entry that follows did, or LAST_ENTRY. The search starts from -1, so below that it ends at once. */
  ghost function NextEntryId(keys: set<U32>, did: U32): U32
    requires did in keys
  {
    if Signed(did) < -1 || Above(keys, did) == {} then LAST_ENTRY else LeastKey(Above(keys, did))
  }

  /** ohc_get_next_domain_conf: the entry addressed by entryId and the id of the next one. */
  ghost function Cursor(t: Table, entryId: U32): (Option<DomainConf>, U32)
    requires t.Keys != {}
  {
    var did := if entryId == FIRST_ENTRY then LeastKey(t.Keys) else entryId;
    if did in t then (Some(t[did]), NextEntryId(t.Keys, did)) else (None, LAST_ENTRY)
  }

  /** oHpiDomainEntryGet: the result code, the next id and the entry, reported under the id that was asked for. */
  ghost function EntryGet(t: Table, entryId: U32): (SaErrorT, U32, Option<DomainConf>)
    requires t.Keys != {}
  {
    match Cursor(t, entryId)
    case (None, next) => (SA_ERR_HPI_NOT_PRESENT, next, None)
    case (Some(dc), next) =>
      if |dc.host| < MAX_TEXT_BUFFER_LENGTH then (SA_OK, next, Some(dc.(did := entryId)))
      else (SA_ERR_HPI_INVALID_PARAMS, next, None)
  }

  /** The entry id a caller holds after n calls that each pass on the id returned by the one before. */
  ghost function CursorAt(t: Table, n: nat): U32
    requires t.Keys != {}
  {
    if n == 0 then FIRST_ENTRY else EntryGet(t, CursorAt(t, n - 1)).1
  }

  /** The n-th call succeeds and returns the entry of the domain whose id was passed in. */
  ghost predicate ReportsAt(t: Table, n: nat)
    requires t.Keys != {}
  {
    var id := CursorAt(t, n);
    id in t && EntryGet(t, id).0 == SA_OK && EntryGet(t, id).2 == Some(t[id])
  }

  ghost predicate Visited(t: Table, d: U32)
    requires t.Keys != {}
  {
    exists i: nat :: i < |t| && CursorAt(t, i) == d
  }

  /**
   * What include/oHpi.h promises of oHpiDomainEntryGet: |t| successful calls return every entry once,
   * in ascending order and under its own id, and then the end marker.
   */
  ghost predicate EnumeratesAll(t: Table)
    requires t.Keys != {}
  {
    && (forall i: nat | i < |t| :: ReportsAt(t, i))
    && (forall i: nat, j: nat | i < j < |t| :: CursorAt(t, i) < CursorAt(t, j))
    && (forall d | d in t :: Visited(t, d))
    && CursorAt(t, |t|) == LAST_ENTRY
  }

  /** Every host fits the text buffer it is reported in. */
  ghost predicate ShortHosts(t: Table) {
    forall d | d in t :: |t[d].host| < MAX_TEXT_BUFFER_LENGTH
  }

  lemma SortedStartsAtZero(t: Table)
    requires Small(t) && DEFAULT_DOMAIN_ID in t
    ensures LeastKey(t.Keys) == 0
  {
  }

  /** After the i-th id in signed order comes the (i+1)-th. */
  lemma NextInOrder(keys: set<U32>, ks: seq<U32>, i: nat)
    requires Lists(ks, keys) && Ascending(ks) && i < |ks| && -1 <= Signed(ks[i])
    ensures NextEntryId(keys, ks[i]) == if i + 1 < |ks| then ks[i + 1] else LAST_ENTRY
  {
    var above := Above(keys, ks[i]);
    forall k | k in above ensures exists j :: i < j < |ks| && ks[j] == k {
      var j :| 0 <= j < |ks| && ks[j] == k;
    }
    if i + 1 < |ks| {
      assert ks[i + 1] in above;
      var k := LeastKey(above);
      var j :| i < j < |ks| && ks[j] == k;
    }
  }

  lemma FirstIsZero(t: Table, ks: seq<U32>)
    requires Small(t) && DEFAULT_DOMAIN_ID in t && Lists(ks, t.Keys) && Ascending(ks)
    ensures ks != [] && ks[0] == 0
  {
    var j :| 0 <= j < |ks| && ks[j] == 0;
    assert ks[0] in t.Keys;
  }

  lemma CursorAtKey(t: Table, ks: seq<U32>, i: nat)
    requires Small(t) && DEFAULT_DOMAIN_ID in t && Lists(ks, t.Keys) && Ascending(ks) && i < |ks|
    ensures ks[i] in t && Cursor(t, ks[i]) == (Some(t[ks[i]]), if i + 1 < |ks| then ks[i + 1] else LAST_ENTRY)
  {
    assert ks[i] in t.Keys;
    SortedStartsAtZero(t);
    NextInOrder(t.Keys, ks, i);
  }

  /** Each key in ks is followed by the next one, and the last by the end marker. */
  ghost predicate Chained(t: Table, ks: seq<U32>)
    requires t.Keys != {}
  {
    forall i | 0 <= i < |ks| :: Cursor(t, ks[i]).1 == if i + 1 < |ks| then ks[i + 1] else LAST_ENTRY
  }

  lemma {:induction false} CursorFollowsOrder(t: Table, ks: seq<U32>, i: nat)
    requires t.Keys != {} && Chained(t, ks) && i <= |ks| && ks != [] && ks[0] == FIRST_ENTRY
    ensures CursorAt(t, i) == if i < |ks| then ks[i] else LAST_ENTRY
  {
    if i > 0 {
      CursorFollowsOrder(t, ks, i - 1);
      assert CursorAt(t, i - 1) == ks[i - 1];
    }
  }

  /** The ids handed out are those of ks in turn, and then the end marker. */
  ghost predicate Follows(t: Table, ks: seq<U32>)
    requires t.Keys != {}
  {
    forall i: nat | i <= |ks| :: CursorAt(t, i) == if i < |ks| then ks[i] else LAST_ENTRY
  }

  lemma FollowsAll(t: Table, ks: seq<U32>)
    requires WellKeyed(t) && Small(t) && ShortHosts(t)
    requires DEFAULT_DOMAIN_ID in t && Lists(ks, t.Keys) && Ascending(ks) && Follows(t, ks)
    ensures EnumeratesAll(t)
  {
    forall i: nat | i < |t| ensures ReportsAt(t, i) {
      CursorAtKey(t, ks, i);
      assert CursorAt(t, i) == ks[i];
    }
    forall i: nat, j: nat | i < j < |t| ensures CursorAt(t, i) < CursorAt(t, j) {
      assert ks[i] in t.Keys && ks[j] in t.Keys && Signed(ks[i]) < Signed(ks[j]);
    }
    forall d | d in t ensures Visited(t, d) {
      var i :| 0 <= i < |ks| && ks[i] == d;
      assert CursorAt(t, i) == d;
    }
  }

  lemma EnumeratesSmall(t: Table, ks: seq<U32>)
    requires WellKeyed(t) && Small(t) && ShortHosts(t)
    requires DEFAULT_DOMAIN_ID in t && Lists(ks, t.Keys) && Ascending(ks)
    ensures EnumeratesAll(t)
  {
    FirstIsZero(t, ks);
    forall i | 0 <= i < |ks| ensures Cursor(t, ks[i]).1 == if i + 1 < |ks| then ks[i + 1] else LAST_ENTRY {
      CursorAtKey(t, ks, i);
    }
    forall i: nat | i <= |ks| ensures CursorAt(t, i) == if i < |ks| then ks[i] else LAST_ENTRY {
      CursorFollowsOrder(t, ks, i);
    }
    FollowsAll(t, ks);
  }

  /** An id with its top bit set sorts first, and the first call returns its entry under id 0. */
  lemma FirstEntryMisnamed(t: Table)
    requires WellKeyed(t) && DEFAULT_DOMAIN_ID in t && !Small(t)
    ensures Cursor(t, FIRST_ENTRY).0 != Some(t[0])
  {
    var high :| high in t && TWO31 <= high;
    var first := LeastKey(t.Keys);
    assert Signed(first) <= Signed(high) < 0;
    assert t[first].did == first && t[0].did == 0;
  }

  /** The least such id is never the one asked for: after the first call the enumeration ends or starts over. */
  lemma HighIdMissed(t: Table)
    requires DEFAULT_DOMAIN_ID in t && !Small(t)
    ensures !EnumeratesAll(t)
  {
    var high :| high in t && TWO31 <= high;
    var first := LeastKey(t.Keys);
    assert Signed(first) <= Signed(high) < 0;
    TwoEntries(t, high);
    assert CursorAt(t, 0) == 0;
    if first == LAST_ENTRY {
      assert 0 in Above(t.Keys, first);
      assert CursorAt(t, 1) == 0;
    } else {
      assert CursorAt(t, 1) == LAST_ENTRY;
      if |t| == 2 {
        forall i: nat | i < |t| ensures CursorAt(t, i) != first { assert i == 0 || i == 1; }
      } else {
        assert !(CursorAt(t, 1) < CursorAt(t, 2));
      }
    }
  }

  lemma TwoEntries(t: Table, d: U32)
    requires 0 in t && d in t && d != 0
    ensures |t| >= 2
  {
    var two: set<U32> := {0, d};
    assert |t.Keys - two| + |two| == |t.Keys|;
  }

  /**
   * With the default domain in the table, the enumeration keeps its promise exactly when every id is
   * below 2^31 and every host has fewer than 255 characters.
   */
  lemma EnumeratesAllIff(t: Table)
    requires WellKeyed(t) && DEFAULT_DOMAIN_ID in t
    ensures EnumeratesAll(t) <==> Small(t) && ShortHosts(t)
  {
    if Small(t) && ShortHosts(t) {
      EnumeratesSmall(t, SortedKeys(t.Keys));
    } else if !Small(t) {
      HighIdMissed(t);
    } else {
      var d :| d in t && |t[d].host| >= MAX_TEXT_BUFFER_LENGTH;
      LongHostUnreported(t, d);
    }
  }

  lemma LongHostUnreported(t: Table, d: U32)
    requires d in t && |t[d].host| >= MAX_TEXT_BUFFER_LENGTH
    ensures !EnumeratesAll(t)
  {
    if Visited(t, d) {
      var i: nat :| i < |t| && CursorAt(t, i) == d;
      assert !ReportsAt(t, i);
    }
  }

  /** Any add of a host of 255 characters or more that succeeds makes the enumeration fail on that entry. */
  lemma LongHostAdded(t: Table, op: AddOp)
    requires |op.host| >= MAX_TEXT_BUFFER_LENGTH && Add(t, op).1.rv == SA_OK
    ensures Add(t, op).0.Keys != {} && !EnumeratesAll(Add(t, op).0)
  {
    var d := Add(t, op).1.did;
    assert d in Add(t, op).0;
    LongHostUnreported(Add(t, op).0, d);
  }

  /**
   * What oHpiDomainEntryGet answers for any id but the first-entry one: not present exactly for an id not in the
   * table, an invalid parameter exactly for a host that does not fit, and otherwise the entry of that id.
   */
  lemma EntryGetAnswers(t: Table, entryId: U32)
    requires WellKeyed(t) && t.Keys != {} && entryId != FIRST_ENTRY
    ensures var (rv, _, entry) := EntryGet(t, entryId);
      && (rv == SA_ERR_HPI_NOT_PRESENT <==> entryId !in t)
      && (rv == SA_ERR_HPI_INVALID_PARAMS <==> entryId in t && |t[entryId].host| >= MAX_TEXT_BUFFER_LENGTH)
      && (rv == SA_OK <==> entryId in t && |t[entryId].host| < MAX_TEXT_BUFFER_LENGTH)
      && entry == if rv == SA_OK then Some(t[entryId]) else None
  {
  }

  /**
   * The end marker is refused as not present exactly when no domain has it for an id, and with the code the header
   * promises exactly when one has and its host does not fit.
   */
  lemma LastEntryIff(t: Table)
    requires t.Keys != {}
    ensures EntryGet(t, LAST_ENTRY).0 == SA_ERR_HPI_NOT_PRESENT <==> LAST_ENTRY !in t
    ensures EntryGet(t, LAST_ENTRY).0 == SA_ERR_HPI_INVALID_PARAMS
       <==> LAST_ENTRY in t && |t[LAST_ENTRY].host| >= MAX_TEXT_BUFFER_LENGTH
  {
  }
}
