/** The arrays of clients/hpithres.c, grown one slot at a time while the daemon's entries are followed. */
module EntryLists {
  import opened Hpi

  /** What the daemon answers for an entry id; for an id it has no answer for, it reports an error. */
  datatype Answer<T> = Answer(entry: T, next: U32)
  type Daemon<T> = map<U32, Answer<T>>

  predicate Stops<T>(daemon: Daemon<T>, id: U32) {
    id == LAST_ENTRY || id !in daemon
  }

  /** ids are the entries the daemon leads through from id on. */
  ghost predicate Chain<T>(daemon: Daemon<T>, id: U32, ids: seq<U32>)
    decreases |ids|
  {
    if ids == [] then Stops(daemon, id)
    else !Stops(daemon, id) && ids[0] == id && Chain(daemon, daemon[id].next, ids[1..])
  }

  ghost function Entries<T>(daemon: Daemon<T>, ids: seq<U32>): seq<T>
    requires forall id | id in ids :: id in daemon
  {
    seq(|ids|, k requires 0 <= k < |ids| => assert ids[k] in ids; daemon[ids[k]].entry)
  }

  /** resize_array; zero stands for an item of zero bytes. Growing an empty array by nothing gives none. */
  method ResizeArray<T>(ar: array?<T>, lastNum: nat, addNum: nat, zero: T) returns (r: array?<T>, newNum: nat)
    requires lastNum > 0 ==> ar != null && ar.Length >= lastNum
    ensures newNum == lastNum + addNum
    ensures r == null <==> newNum == 0
    ensures r != null ==> fresh(r) && r.Length == newNum
    ensures r != null ==> r[..] == (if lastNum > 0 then ar[..lastNum] else []) + seq(addNum, _ => zero)
  {
    newNum := lastNum + addNum;
    if newNum == 0 { return null, newNum; }
    r := new T[newNum](_ => zero);
    var i := 0;
    while i < lastNum
      invariant i <= lastNum && (lastNum > 0 ==> r[..i] == ar[..i])
      invariant forall k | i <= k < newNum :: r[k] == zero
    {
      r[i] := ar[i];
      i := i + 1;
    }
    assert r[..] == r[..lastNum] + r[lastNum..];
    assert r[lastNum..] == seq(addNum, _ => zero);
  }

  /** Where k answers lead from id. */
  ghost function Walk<T>(daemon: Daemon<T>, id: U32, k: nat): U32
    decreases k
  {
    if k == 0 || Stops(daemon, id) then id else Walk(daemon, daemon[id].next, k - 1)
  }

  lemma {:induction false} ChainSplit<T>(daemon: Daemon<T>, id: U32, ids: seq<U32>, k: nat)
    requires Chain(daemon, id, ids) && k <= |ids|
    ensures Chain(daemon, Walk(daemon, id, k), ids[k..])
    ensures k < |ids| ==> ids[k] == Walk(daemon, id, k) && ids[k] in daemon
    decreases k
  {
    if k == 0 {
      assert ids[0..] == ids;
    } else {
      ChainSplit(daemon, daemon[id].next, ids[1..], k - 1);
      assert ids[1..][k - 1..] == ids[k..];
    }
  }

  lemma ChainKnown<T>(daemon: Daemon<T>, id: U32, ids: seq<U32>)
    requires Chain(daemon, id, ids)
    ensures forall k | k in ids :: k in daemon
  {
    forall k | 0 <= k < |ids| ensures ids[k] in daemon { ChainSplit(daemon, id, ids, k); }
  }

  /** get_rpts and get_rdrs: the array ends up as the entries of the chain, in their order. */
  method GetEntries<T>(daemon: Daemon<T>, zero: T, ghost ids: seq<U32>) returns (ar: array?<T>, num: nat)
    requires Chain(daemon, FIRST_ENTRY, ids)
    ensures forall id | id in ids :: id in daemon
    ensures num == |ids| && (ar == null <==> ids == [])
    ensures ar != null ==> ar[..] == Entries(daemon, ids)
  {
    ChainKnown(daemon, FIRST_ENTRY, ids);
    ar, num := null, 0;
    var id: U32 := FIRST_ENTRY;
    while id != LAST_ENTRY
      invariant num <= |ids| && (ar == null <==> num == 0)
      invariant ar != null ==> fresh(ar) && ar[..] == Entries(daemon, ids)[..num]
      invariant Chain(daemon, id, ids[num..])
      decreases |ids| - num
    {
      if id !in daemon { break; }
      var answer := daemon[id];
      var n := num;
      ar, num := ResizeArray(ar, num, 1, zero);
      ar[n] := answer.entry;
      assert ids[n..][0] == ids[n] && ids[n..][1..] == ids[num..];
      assert ar[..n] == Entries(daemon, ids)[..n];
      assert ar[..] == ar[..n] + [answer.entry];
      id := answer.next;
    }
  }

  // ---------------------------------------------------------------- when the loop ends

  lemma {:induction false} ChainUnique<T>(daemon: Daemon<T>, id: U32, a: seq<U32>, b: seq<U32>)
    requires Chain(daemon, id, a) && Chain(daemon, id, b)
    ensures a == b
    decreases |a|
  {
    if a != [] {
      ChainUnique(daemon, daemon[id].next, a[1..], b[1..]);
      assert a == [a[0]] + a[1..] && b == [b[0]] + b[1..];
    }
  }

  /** A chain that ends passes through no entry twice. */
  lemma ChainDistinct<T>(daemon: Daemon<T>, id: U32, ids: seq<U32>)
    requires Chain(daemon, id, ids)
    ensures forall j, k | 0 <= j < k < |ids| :: ids[j] != ids[k]
  {
    forall j, k | 0 <= j < k < |ids| ensures ids[j] != ids[k] {
      ChainSplit(daemon, id, ids, j);
      ChainSplit(daemon, id, ids, k);
      if ids[j] == ids[k] {
        ChainUnique(daemon, ids[j], ids[j..], ids[k..]);
        assert false;
      }
    }
  }

  lemma {:induction false} DistinctBounded(ids: seq<U32>, known: set<U32>)
    requires forall j, k | 0 <= j < k < |ids| :: ids[j] != ids[k]
    requires forall k | 0 <= k < |ids| :: ids[k] in known
    ensures |ids| <= |known|
    decreases |ids|
  {
    if ids != [] {
      var n := |ids| - 1;
      DistinctBounded(ids[..n], known - {ids[n]});
      assert |known - {ids[n]}| == |known| - 1;
    }
  }

  lemma {:induction false} WalkChain<T>(daemon: Daemon<T>, id: U32, ids: seq<U32>, n: nat)
    requires Chain(daemon, id, ids) && |ids| <= n
    ensures Stops(daemon, Walk(daemon, id, n))
    decreases n
  {
    if ids != [] { WalkChain(daemon, daemon[id].next, ids[1..], n - 1); }
  }

  lemma {:induction false} ChainOfWalk<T>(daemon: Daemon<T>, id: U32, n: nat) returns (ids: seq<U32>)
    requires Stops(daemon, Walk(daemon, id, n))
    ensures Chain(daemon, id, ids)
    decreases n
  {
    if Stops(daemon, id) {
      ids := [];
    } else {
      var rest := ChainOfWalk(daemon, daemon[id].next, n - 1);
      ids := [id] + rest;
      assert ids[1..] == rest;
    }
  }

  ghost predicate Ends<T>(daemon: Daemon<T>, id: U32) {
    exists ids: seq<U32> :: Chain(daemon, id, ids)
  }

  lemma ChainBounded<T>(daemon: Daemon<T>, id: U32, ids: seq<U32>)
    requires Chain(daemon, id, ids)
    ensures |ids| <= |daemon|
  {
    ChainDistinct(daemon, id, ids);
    ChainKnown(daemon, id, ids);
    DistinctBounded(ids, daemon.Keys);
    assert |daemon.Keys| == |daemon|;
  }

  /** The loops end if and only if the daemon has led to a stop after as many answers as it has entries. */
  lemma EndsIff<T>(daemon: Daemon<T>, id: U32)
    ensures Ends(daemon, id) <==> Stops(daemon, Walk(daemon, id, |daemon|))
  {
    if Ends(daemon, id) {
      var ids: seq<U32> :| Chain(daemon, id, ids);
      ChainBounded(daemon, id, ids);
      WalkChain(daemon, id, ids, |daemon|);
    }
    if Stops(daemon, Walk(daemon, id, |daemon|)) {
      var ids := ChainOfWalk(daemon, id, |daemon|);
      assert Chain(daemon, id, ids);
    }
  }
}
