/** Appending and comparing entity paths in place, as cpp/oSaHpiEntityPath.cpp does. */
module EntityPaths {
  import opened Hpi

  predicate IsRoot(e: Entity) {
    e.kind == ENT_ROOT
  }

  /** The first ROOT entry is at n, or there is none and n is the end. */
  ghost predicate Ends(p: seq<Entity>, n: nat) {
    n <= |p| && (n < |p| ==> IsRoot(p[n])) && forall i | 0 <= i < n :: !IsRoot(p[i])
  }

  lemma {:induction false} EndExists(p: seq<Entity>)
    ensures exists n: nat :: Ends(p, n)
  {
    if p == [] || IsRoot(p[0]) {
      assert Ends(p, 0);
    } else {
      EndExists(p[1..]);
      var n: nat :| Ends(p[1..], n);
      assert Ends(p, n + 1);
    }
  }

  /** Number of entries before the first ROOT entry, or all of them. */
  ghost function Length(p: seq<Entity>): (n: nat)
    ensures Ends(p, n)
  {
    EndExists(p);
    var n: nat :| Ends(p, n);
    n
  }

  lemma LengthUnique(p: seq<Entity>, n: nat)
    requires Ends(p, n)
    ensures n == Length(p)
  {
  }

  /** The entries that name the entity. */
  ghost function Names(p: seq<Entity>): seq<Entity> {
    p[..Length(p)]
  }

  /** The entries that count: the names and the terminator, if there is one. */
  ghost function Canon(p: seq<Entity>): seq<Entity> {
    if Length(p) < |p| then p[..Length(p) + 1] else p
  }

  ghost function Truncate(p: seq<Entity>, n: nat): seq<Entity> {
    if |p| <= n then p else p[..n]
  }

  /** What append leaves in an array: d's names, then a up to its terminator, then whatever was there. */
  ghost function Appended(d: seq<Entity>, a: seq<Entity>): seq<Entity>
    requires |a| <= |d|
  {
    var r := Truncate(Names(d) + Canon(a), |d|);
    r + d[|r|..]
  }

  /** Names(d) repeated; what append makes of a path appended to itself. */
  ghost predicate IsPeriodic(r: seq<Entity>, d: seq<Entity>) {
    var n := Length(d);
    && |r| == |d|
    && (if n == 0 then r == d else r[..n] == d[..n] && forall i | n <= i < |r| :: r[i] == r[i - n])
  }

  method LengthOf(p: array<Entity>) returns (i: nat)
    ensures i == Length(p[..])
  {
    i := 0;
    while i < p.Length
      invariant i <= p.Length && forall k | 0 <= k < i :: !IsRoot(p[k])
    {
      if IsRoot(p[i]) { break; }
      i := i + 1;
    }
    LengthUnique(p[..], i);
  }

  /** oSaHpiEntityPath::append; true reports an error. A path may be appended to itself. */
  method Append(dest: array?<Entity>, app: array?<Entity>) returns (err: bool)
    requires dest != null && app != null ==> dest.Length == app.Length
    modifies if dest != null then {dest} else {}
    ensures err <==> dest == null
    ensures dest != null && app == null ==> dest[..] == old(dest[..])
    ensures dest != null && app != null && app != dest ==> dest[..] == Appended(old(dest[..]), app[..])
    ensures dest != null && app == dest ==> IsPeriodic(dest[..], old(dest[..]))
  {
    if dest == null { return true; }
    err := false;
    if app == null { return; }
    var n := LengthOf(dest);
    ghost var d, a := dest[..], app[..];
    var i, j := n, 0;
    while i < dest.Length
      invariant n <= i <= dest.Length && j == i - n
      invariant forall k | 0 <= k < n || i <= k < dest.Length :: dest[k] == d[k]
      invariant forall k | n <= k < i :: dest[k] == if app == dest then dest[k - n] else a[k - n]
      invariant app != dest ==> app[..] == a && forall k | 0 <= k < j :: !IsRoot(a[k])
      invariant app == dest ==> (n == 0 ==> i == n) && forall k | 0 <= k < i :: !IsRoot(dest[k])
    {
      dest[i] := app[j];
      if IsRoot(app[j]) {
        if app != dest { AppendStopped(d, a, dest[..], n, i); }
        return;
      }
      i, j := i + 1, j + 1;
    }
    if app != dest { AppendFull(d, a, dest[..], n); }
  }

  lemma AppendStopped(d: seq<Entity>, a: seq<Entity>, r: seq<Entity>, n: nat, i: nat)
    requires |r| == |d| == |a| && n == Length(d) <= i < |d|
    requires forall k | 0 <= k < n || i < k < |r| :: r[k] == d[k]
    requires forall k | n <= k <= i :: r[k] == a[k - n]
    requires IsRoot(a[i - n]) && forall k | 0 <= k < i - n :: !IsRoot(a[k])
    ensures r == Appended(d, a)
  {
    LengthUnique(a, i - n);
    var all := d[..n] + a[..i + 1 - n];
    assert all == Names(d) + Canon(a);
    assert r == all + d[i + 1..];
  }

  lemma AppendFull(d: seq<Entity>, a: seq<Entity>, r: seq<Entity>, n: nat)
    requires |r| == |d| == |a| && n == Length(d)
    requires forall k | 0 <= k < n :: r[k] == d[k]
    requires forall k | n <= k < |r| :: r[k] == a[k - n]
    requires forall k | 0 <= k < |d| - n :: !IsRoot(a[k])
    ensures r == Appended(d, a)
  {
    var m := |d| - n;
    assert |Canon(a)| >= m;
    assert Canon(a)[..m] == a[..m];
    var all := Names(d) + Canon(a);
    assert all[..|d|] == d[..n] + Canon(a)[..m];
    assert r == d[..n] + a[..m];
    assert Truncate(all, |d|) == all[..|d|];
  }

  /** oSaHpiEntityPath::compare */
  method Compare(ep1: array?<Entity>, ep2: array?<Entity>) returns (equal: bool)
    requires ep1 != null && ep2 != null ==> ep1.Length == ep2.Length
    ensures equal <==> ep1 != null && ep2 != null && Canon(ep1[..]) == Canon(ep2[..])
  {
    if ep1 == null || ep2 == null { return false; }
    var i := LengthOf(ep1);
    if i < ep1.Length { i := i + 1; }
    var j := LengthOf(ep2);
    if j < ep2.Length { j := j + 1; }
    assert Canon(ep1[..]) == ep1[..i] && Canon(ep2[..]) == ep2[..j];
    if i != j { return false; }
    i := 0;
    while i < j
      invariant i <= j && forall k | 0 <= k < i :: ep1[k] == ep2[k]
    {
      if ep1[i].kind != ep2[i].kind || ep1[i].location != ep2[i].location {
        assert ep1[..j][i] != ep2[..j][i];
        return false;
      }
      i := i + 1;
    }
    assert ep1[..j] == ep2[..j];
    equal := true;
  }

  // ---------------------------------------------------------------- laws

  /** compare's relation. */
  ghost predicate Same(p: seq<Entity>, q: seq<Entity>) {
    Canon(p) == Canon(q)
  }

  lemma CanonNames(p: seq<Entity>)
    ensures Names(Canon(p)) == Names(p) && Canon(Canon(p)) == Canon(p) && Length(Canon(p)) == Length(p)
  {
    LengthUnique(Canon(p), Length(p));
  }

  /** What counts of the result is d's names followed by what counts of a, cut to the array. */
  lemma AppendedCanon(d: seq<Entity>, a: seq<Entity>)
    requires |a| == |d|
    ensures |Appended(d, a)| == |d| && Canon(Appended(d, a)) == Truncate(Names(d) + Canon(a), |d|)
  {
    var n := Length(d);
    var r := Appended(d, a);
    var cut := Truncate(Names(d) + Canon(a), |d|);
    if n + Length(a) < |d| {
      LengthUnique(r, n + Length(a));
    } else {
      assert forall i | 0 <= i < |d| :: r[i] == (Names(d) + Canon(a))[i];
      LengthUnique(r, |d|);
    }
    assert Canon(r) == cut;
  }

  /** The names of the result are the names of both, cut to the array. */
  lemma AppendedNames(d: seq<Entity>, a: seq<Entity>)
    requires |a| == |d|
    ensures Names(Appended(d, a)) == Truncate(Names(d) + Names(a), |d|)
  {
    AppendedCanon(d, a);
    var r := Appended(d, a);
    var n := Length(d) + Length(a);
    LengthUnique(r, if n < |d| then n else |d|);
  }

  /** Paths that compare equal give results that compare equal. */
  lemma AppendRespectsSame(d: seq<Entity>, d': seq<Entity>, a: seq<Entity>, a': seq<Entity>)
    requires |d| == |d'| == |a| == |a'| && Same(d, d') && Same(a, a')
    ensures Same(Appended(d, a), Appended(d', a'))
  {
    CanonNames(d);
    CanonNames(d');
    AppendedCanon(d, a);
    AppendedCanon(d', a');
  }

  /** Appending is associative, also when the result is cut. */
  lemma AppendAssociative(a: seq<Entity>, b: seq<Entity>, c: seq<Entity>)
    requires |a| == |b| == |c|
    ensures Same(Appended(Appended(a, b), c), Appended(a, Appended(b, c)))
  {
    AppendedCanon(a, b);
    AppendedNames(a, b);
    AppendedCanon(b, c);
    AppendedCanon(Appended(a, b), c);
    AppendedCanon(a, Appended(b, c));
    var x, y, z := Names(a), Names(b), Canon(c);
    TruncateAssociative(x, y, z, |a|);
  }

  lemma TruncateAssociative(x: seq<Entity>, y: seq<Entity>, z: seq<Entity>, n: nat)
    requires |x| <= n
    ensures Truncate(Truncate(x + y, n) + z, n) == Truncate(x + Truncate(y + z, n), n)
  {
    assert (x + y) + z == x + (y + z);
    assert |x + y| >= n ==> Truncate(Truncate(x + y, n) + z, n) == (x + y)[..n];
    assert |x + y| >= n ==> Truncate(x + Truncate(y + z, n), n) == (x + y)[..n];
  }

  /** Appending to a path that is only a terminator gives the appended path. */
  lemma RootIsLeftIdentity(d: seq<Entity>, a: seq<Entity>)
    requires |d| == |a| > 0 && IsRoot(d[0])
    ensures Same(Appended(d, a), a)
  {
    AppendedCanon(d, a);
    assert Names(d) + Canon(a) == Canon(a);
  }

  /**
   * Appending only a terminator copies the terminator's location too, so it is neutral exactly when
   * the path has no terminator or one with that very location.
   */
  lemma RootIsRightIdentityIff(d: seq<Entity>, a: seq<Entity>)
    requires |d| == |a| > 0 && IsRoot(a[0])
    ensures Same(Appended(d, a), d) <==> Length(d) == |d| || d[Length(d)].location == a[0].location
  {
    AppendedCanon(d, a);
    var x, y := Names(d) + [a[0]], Names(d);
    assert Canon(a) == [a[0]];
    if Length(d) < |d| {
      var end := d[Length(d)];
      assert Canon(Appended(d, a)) == y + [a[0]];
      assert Canon(d) == y + [end];
      LastDiffers(y, a[0], end);
      TerminatorsEqualIff(a[0], end);
    } else {
      assert x[..|d|] == d;
    }
  }

  lemma LastDiffers(x: seq<Entity>, e: Entity, f: Entity)
    ensures x + [e] == x + [f] <==> e == f
  {
    assert (x + [e])[|x|] == e && (x + [f])[|x|] == f;
  }

  lemma TerminatorsEqualIff(e: Entity, f: Entity)
    requires IsRoot(e) && IsRoot(f)
    ensures e == f <==> e.location == f.location
  {
  }

  /** A fixed root can be taken off again: different paths under it stay different as long as they fit. */
  lemma AppendInjective(root: seq<Entity>, p: seq<Entity>, q: seq<Entity>)
    requires |root| == |p| == |q|
    requires Length(root) + Length(p) < |root| && Length(root) + Length(q) < |root|
    ensures Same(Appended(root, p), Appended(root, q)) <==> Same(p, q)
  {
    AppendedCanon(root, p);
    AppendedCanon(root, q);
    var x := Names(root);
    assert (x + Canon(p))[|x|..] == Canon(p) && (x + Canon(q))[|x|..] == Canon(q);
  }

  /** Appending a path to itself doubles it only when it has no names or there is no room behind the double. */
  lemma SelfAppendIff(d: seq<Entity>, r: seq<Entity>)
    requires d != [] && IsPeriodic(r, d)
    ensures Same(r, Appended(d, d)) <==> Length(d) == 0 || 2 * Length(d) >= |d|
  {
    AppendedCanon(d, d);
    var cut := Truncate(Names(d) + Canon(d), |d|);
    if Length(d) == 0 {
      assert r == d && cut == Canon(d);
    } else {
      PeriodicHasNoRoot(d, r, |r|);
      LengthUnique(r, |r|);
      if 2 * Length(d) >= |d| {
        DoubleFills(d, r);
      } else {
        assert cut[2 * Length(d)] == d[Length(d)];
      }
    }
  }

  lemma DoubleFills(d: seq<Entity>, r: seq<Entity>)
    requires IsPeriodic(r, d) && 0 < Length(d) && 2 * Length(d) >= |d|
    ensures Truncate(Names(d) + Canon(d), |d|) == r
  {
    var all := Names(d) + Canon(d);
    forall i | 0 <= i < |d| ensures all[i] == r[i] {
      PeriodicAt(r, d, i);
      if i >= Length(d) { PeriodicAt(r, d, i - Length(d)); }
    }
    assert |all| >= |d|;
  }

  lemma PeriodicAt(r: seq<Entity>, d: seq<Entity>, i: nat)
    requires IsPeriodic(r, d) && Length(d) > 0 && i < |r|
    ensures r[i] == if i < Length(d) then d[i] else r[i - Length(d)]
  {
  }

  lemma {:induction false} PeriodicHasNoRoot(d: seq<Entity>, r: seq<Entity>, k: nat)
    requires IsPeriodic(r, d) && Length(d) > 0 && k <= |r|
    ensures forall i | 0 <= i < k :: !IsRoot(r[i])
  {
    if k > 0 {
      PeriodicHasNoRoot(d, r, k - 1);
      PeriodicAt(r, d, k - 1);
    }
  }
}
