/**
Does it matter in which order the user volumes are scanned? The rounds wait for sources, but neither
for keys nor for overlapping regions, and the final pass waits for nothing.
*/
module RestoreOrder {
  import opened Wrappers
  import opened VolumeRestore

  ghost predicate DistinctNames(pool: set<UserVolume>) {
    forall u, v :: u in pool && v in pool && u.name == v.name ==> u == v
  }

  /** Overlapping is mutual, and no volume overlaps itself. */
  ghost predicate MutualRivals(pool: set<UserVolume>) {
    forall u, v :: u in pool && v in pool && u.name in Rivals(v) ==> u != v && v.name in Rivals(u)
  }

  /** A scan lists every volume once, in some order. */
  ghost predicate Scans(scan: seq<UserVolume>, pool: set<UserVolume>) { multiset(scan) == multiset(pool) }

  function NamesOf(vols: seq<UserVolume>): set<string> { set v | v in vols :: v.name }

  predicate Within(vols: seq<UserVolume>, pool: set<UserVolume>) { forall v :: v in vols ==> v in pool }

  // ---------------------------------------------------------------- what can be restored at all

  /** An attempt to restore `v` is due, and succeeds. */
  predicate Fits(v: UserVolume, names: set<string>) { Ready(v, names) && Attaches(v, names) }

  /** Restoring the volumes of `d` one after the other succeeds each time. */
  predicate Brings(start: set<string>, d: seq<UserVolume>)
    decreases |d|
  {
    d == [] || (var n := |d| - 1; Brings(start, d[..n]) && Fits(d[n], start + NamesOf(d[..n])))
  }

  /** In some order `v` can be restored with its source in place. */
  ghost predicate Restorable(start: set<string>, pool: set<UserVolume>, v: UserVolume) {
    exists d :: Brings(start, d) && Within(d, pool) && v in d
  }

  ghost function Reach(start: set<string>, pool: set<UserVolume>): set<string> {
    start + set v | v in pool && Restorable(start, pool, v) :: v.name
  }

  /** The sources of the last volume of `c`, down to one that is ready at the start. */
  predicate Chain(start: set<string>, pool: set<UserVolume>, c: seq<UserVolume>)
    decreases |c|
  {
    c != [] &&
    var n := |c| - 1;
    && c[n] in pool
    && if n == 0 then Ready(c[n], start)
       else !Ready(c[n], start) && c[n].base.value == c[n - 1].name && Chain(start, pool, c[..n])
  }

  predicate EndsIn(c: seq<UserVolume>, v: UserVolume) { c != [] && c[|c| - 1] == v }

  /** The key of `v`, if it has one, is in place at the start or on a volume of its chain of sources. */
  ghost predicate KeyInPlace(start: set<string>, pool: set<UserVolume>, v: UserVolume) {
    v.key.Some? && v.key.value !in start ==>
      exists c :: Chain(start, pool, c) && EndsIn(c, v) && v.key.value in NamesOf(c[..|c| - 1])
  }

  ghost predicate KeysInPlace(start: set<string>, pool: set<UserVolume>) {
    forall v :: v in pool && Restorable(start, pool, v) ==> KeyInPlace(start, pool, v)
  }

  ghost predicate NoOverlap(start: set<string>, pool: set<UserVolume>) {
    forall u, v :: u in pool && v in pool && Restorable(start, pool, u) && Restorable(start, pool, v) ==>
      u.name !in Rivals(v)
  }

  // ---------------------------------------------------------------- small facts

  lemma NamesOfSnoc(d: seq<UserVolume>, v: UserVolume)
    ensures NamesOf(d + [v]) == NamesOf(d) + {v.name}
  {
    assert forall x :: x in d + [v] <==> x in d || x == v;
    assert v in d + [v];
    forall x | x in d ensures x.name in NamesOf(d + [v]) { assert x in d + [v]; }
  }

  lemma BringsOneMore(start: set<string>, d: seq<UserVolume>, v: UserVolume)
    requires Brings(start, d) && Fits(v, start + NamesOf(d))
    ensures Brings(start, d + [v])
  {
    assert (d + [v])[..|d|] == d;
  }

  lemma {:induction false} PrefixBrings(start: set<string>, d: seq<UserVolume>, k: nat)
    requires Brings(start, d) && k <= |d|
    ensures Brings(start, d[..k])
    decreases |d|
  {
    if k < |d| {
      var front := d[..|d| - 1];
      PrefixBrings(start, front, k);
      assert front[..k] == d[..k];
    } else {
      assert d[..k] == d;
    }
  }

  lemma FitsInTurn(start: set<string>, d: seq<UserVolume>, k: nat)
    requires Brings(start, d) && k < |d|
    ensures Brings(start, d[..k]) && Brings(start, d[..k + 1]) && Fits(d[k], start + NamesOf(d[..k]))
  {
    PrefixBrings(start, d, k);
    PrefixBrings(start, d, k + 1);
    var e := d[..k + 1];
    assert e[..k] == d[..k] && e[k] == d[k];
  }

  lemma NamesOfPrefix(d: seq<UserVolume>, k: nat)
    requires k <= |d|
    ensures NamesOf(d[..k]) <= NamesOf(d)
  {
    forall x | x in d[..k] ensures x in d {}
  }

  /** What is restorable opens on its own account and does not clash with the start. */
  lemma RestorableFits(start: set<string>, pool: set<UserVolume>, v: UserVolume) returns (d: seq<UserVolume>)
    requires Restorable(start, pool, v)
    ensures Brings(start, d) && Within(d, pool) && EndsIn(d, v) && Fits(v, start + NamesOf(d[..|d| - 1]))
    ensures v in pool && v.opens && v.name != "" && v.name !in start && Rivals(v) !! start
  {
    var e :| Brings(start, e) && Within(e, pool) && v in e;
    var k :| 0 <= k < |e| && e[k] == v;
    FitsInTurn(start, e, k);
    d := e[..k + 1];
    assert d[..k] == e[..k];
  }

  lemma BroughtIsRestorable(start: set<string>, pool: set<UserVolume>, d: seq<UserVolume>)
    requires Brings(start, d) && Within(d, pool)
    ensures start + NamesOf(d) <= Reach(start, pool)
    ensures forall v :: v in d ==> Restorable(start, pool, v)
  {
  }

  // ---------------------------------------------------------------- the rounds bring what they reach

  lemma {:induction false} RoundBrings(start: set<string>, pool: set<UserVolume>, d: seq<UserVolume>,
                                       pending: seq<UserVolume>)
    returns (d': seq<UserVolume>)
    requires Brings(start, d) && Within(d, pool) && Within(pending, pool)
    ensures Brings(start, d') && Within(d', pool)
    ensures Round(start + NamesOf(d), pending).0 == start + NamesOf(d')
    ensures Within(Round(start + NamesOf(d), pending).1, pool)
    decreases |pending|
  {
    d' := d;
    if pending != [] {
      var v, names := pending[0], start + NamesOf(d);
      if Fits(v, names) {
        BringsOneMore(start, d, v);
        NamesOfSnoc(d, v);
        assert start + NamesOf(d + [v]) == Attempt(names, v);
        d' := RoundBrings(start, pool, d + [v], pending[1..]);
      } else {
        d' := RoundBrings(start, pool, d, pending[1..]);
      }
    }
  }

  lemma {:induction false} RoundsBring(start: set<string>, pool: set<UserVolume>, d: seq<UserVolume>,
                                       pending: seq<UserVolume>)
    returns (d': seq<UserVolume>)
    requires Brings(start, d) && Within(d, pool) && Within(pending, pool)
    ensures Brings(start, d') && Within(d', pool)
    ensures Rounds(start + NamesOf(d), pending).0 == start + NamesOf(d')
    decreases |pending|
  {
    var r := Round(start + NamesOf(d), pending);
    d' := RoundBrings(start, pool, d, pending);
    if r.1 != [] && |r.1| != |pending| { d' := RoundsBring(start, pool, d', r.1); }
  }

  /** In every scan, whatever its order, the rounds restore only what is restorable. */
  lemma RoundsWithinReach(start: set<string>, pool: set<UserVolume>, scan: seq<UserVolume>)
    requires Within(scan, pool)
    ensures start <= Rounds(start, scan).0 <= Reach(start, pool)
  {
    assert start + NamesOf([]) == start;
    var d := RoundsBring(start, pool, [], scan);
    BroughtIsRestorable(start, pool, d);
  }

  // ---------------------------------------------------------------- keys in place and no overlap

  lemma FindBrought(pool: set<UserVolume>, d: seq<UserVolume>, u: UserVolume) returns (j: nat)
    requires DistinctNames(pool) && Within(d, pool) && u in pool && u.name in NamesOf(d)
    ensures j < |d| && d[j] == u
  {
    var w :| w in d && w.name == u.name;
    assert w in pool;
    j :| 0 <= j < |d| && d[j] == w;
  }

  /** The source on a chain was brought, and was ready when it was. */
  lemma SourceBrought(start: set<string>, pool: set<UserVolume>, c: seq<UserVolume>, d: seq<UserVolume>)
    returns (c': seq<UserVolume>, d': seq<UserVolume>)
    requires DistinctNames(pool) && Chain(start, pool, c) && |c| > 1 && Brings(start, d) && Within(d, pool)
    requires Ready(c[|c| - 1], start + NamesOf(d))
    ensures c' == c[..|c| - 1] && Chain(start, pool, c')
    ensures Brings(start, d') && Within(d', pool) && Ready(c'[|c'| - 1], start + NamesOf(d'))
    ensures NamesOf(d') <= NamesOf(d) && c'[|c'| - 1].name in NamesOf(d)
  {
    var n := |c| - 1;
    c' := c[..n];
    assert c'[n - 1] == c[n - 1];
    var j := FindBrought(pool, d, c[n - 1]);
    FitsInTurn(start, d, j);
    NamesOfPrefix(d, j);
    d' := d[..j];
  }

  lemma {:induction false} ChainBrought(start: set<string>, pool: set<UserVolume>, c: seq<UserVolume>,
                                        d: seq<UserVolume>)
    requires DistinctNames(pool) && Chain(start, pool, c) && Brings(start, d) && Within(d, pool)
    requires Ready(c[|c| - 1], start + NamesOf(d))
    ensures NamesOf(c[..|c| - 1]) <= NamesOf(d)
    decreases |c|
  {
    if |c| > 1 {
      var c', d' := SourceBrought(start, pool, c, d);
      ChainBrought(start, pool, c', d');
      NamesOfFront(c');
    }
  }

  lemma NamesOfFront(c: seq<UserVolume>)
    requires c != []
    ensures NamesOf(c) == NamesOf(c[..|c| - 1]) + {c[|c| - 1].name}
  {
    NamesOfSnoc(c[..|c| - 1], c[|c| - 1]);
    assert c == c[..|c| - 1] + [c[|c| - 1]];
  }

  lemma KeyIsThere(start: set<string>, pool: set<UserVolume>, d: seq<UserVolume>, v: UserVolume)
    requires DistinctNames(pool) && KeyInPlace(start, pool, v) && Brings(start, d) && Within(d, pool)
    requires Ready(v, start + NamesOf(d)) && v.key.Some?
    ensures v.key.value in start + NamesOf(d)
  {
    if v.key.value !in start {
      var c :| Chain(start, pool, c) && EndsIn(c, v) && v.key.value in NamesOf(c[..|c| - 1]);
      ChainBrought(start, pool, c, d);
    }
  }

  lemma NoRivalIsThere(start: set<string>, pool: set<UserVolume>, d: seq<UserVolume>, v: UserVolume)
    requires NoOverlap(start, pool) && Brings(start, d) && Within(d, pool) && Restorable(start, pool, v)
    ensures Rivals(v) !! start + NamesOf(d)
  {
    var own := RestorableFits(start, pool, v);
    BroughtIsRestorable(start, pool, d);
    forall u | u in d ensures u.name !in Rivals(v) { assert u in pool && Restorable(start, pool, u); }
  }

  lemma NeedsAreThere(v: UserVolume, names: set<string>)
    requires Ready(v, names) && (v.key.Some? ==> v.key.value in names)
    ensures Needs(v) <= names
  {
  }

  /** Then whatever is restorable is restored as soon as its source is in place. */
  lemma FitsWhenReady(start: set<string>, pool: set<UserVolume>, d: seq<UserVolume>, v: UserVolume)
    requires DistinctNames(pool) && KeyInPlace(start, pool, v) && NoOverlap(start, pool)
    requires Brings(start, d) && Within(d, pool) && Restorable(start, pool, v)
    requires Ready(v, start + NamesOf(d))
    ensures v.name in start + NamesOf(d) || Attaches(v, start + NamesOf(d))
  {
    var own := RestorableFits(start, pool, v);
    if v.key.Some? { KeyIsThere(start, pool, d, v); }
    NeedsAreThere(v, start + NamesOf(d));
    NoRivalIsThere(start, pool, d, v);
  }

  lemma {:induction false} RoundSettles(start: set<string>, pool: set<UserVolume>, d: seq<UserVolume>,
                                        pending: seq<UserVolume>)
    requires DistinctNames(pool) && KeysInPlace(start, pool) && NoOverlap(start, pool)
    requires Brings(start, d) && Within(d, pool) && Within(pending, pool)
    ensures var r := Round(start + NamesOf(d), pending);
      forall v :: v in pending && Restorable(start, pool, v) ==> v.name in r.0 || v in r.1
    decreases |pending|
  {
    if pending != [] {
      var v, names := pending[0], start + NamesOf(d);
      assert pending == [v] + pending[1..];
      if Ready(v, names) && Restorable(start, pool, v) { FitsWhenReady(start, pool, d, v); }
      RoundGrows(Attempt(names, v), pending[1..]);
      if Fits(v, names) {
        BringsOneMore(start, d, v);
        NamesOfSnoc(d, v);
        assert start + NamesOf(d + [v]) == Attempt(names, v);
        RoundSettles(start, pool, d + [v], pending[1..]);
      } else {
        RoundSettles(start, pool, d, pending[1..]);
      }
    }
  }

  lemma {:induction false} RoundsSettle(start: set<string>, pool: set<UserVolume>, d: seq<UserVolume>,
                                        pending: seq<UserVolume>)
    requires DistinctNames(pool) && KeysInPlace(start, pool) && NoOverlap(start, pool)
    requires Brings(start, d) && Within(d, pool) && Within(pending, pool)
    ensures var r := Rounds(start + NamesOf(d), pending);
      forall v :: v in pending && Restorable(start, pool, v) ==> v.name in r.0 || v in r.1
    decreases |pending|
  {
    var r := Round(start + NamesOf(d), pending);
    RoundSettles(start, pool, d, pending);
    if r.1 != [] && |r.1| != |pending| {
      var d' := RoundBrings(start, pool, d, pending);
      RoundsGrow(r.0, r.1);
      RoundsSettle(start, pool, d', r.1);
    }
  }

  lemma {:induction false} StuckMembers(uvs: seq<UserVolume>, names: set<string>)
    ensures forall v :: v in Stuck(uvs, names) <==> v in uvs && !Ready(v, names)
    decreases |uvs|
  {
    if uvs != [] { StuckMembers(uvs[1..], names); }
  }

  lemma ScanMembers(scan: seq<UserVolume>, pool: set<UserVolume>)
    requires Scans(scan, pool)
    ensures forall v :: v in scan <==> v in pool
  {
    forall v ensures v in scan <==> v in pool {
      assert v in scan <==> v in multiset(scan);
      assert v in pool <==> v in multiset(pool);
    }
  }

  lemma {:induction false} NothingIsMissing(start: set<string>, scan: seq<UserVolume>, d: seq<UserVolume>)
    requires Brings(start, d) && start <= Rounds(start, scan).0
    requires forall v :: v in d ==> v in scan && (v.name in Rounds(start, scan).0 || v in Rounds(start, scan).1)
    ensures NamesOf(d) <= Rounds(start, scan).0
    decreases |d|
  {
    if d != [] {
      var n, names := |d| - 1, Rounds(start, scan).0;
      NothingIsMissing(start, scan, d[..n]);
      assert d == d[..n] + [d[n]];
      NamesOfSnoc(d[..n], d[n]);
      RoundsLeaveStuck(start, scan);
      StuckMembers(scan, names);
      assert Ready(d[n], names);
      assert d[n] in d;
    }
  }

  /** With all keys in place and no overlap, the rounds restore everything restorable, in every scan. */
  lemma RoundsReachAll(start: set<string>, pool: set<UserVolume>, scan: seq<UserVolume>)
    requires DistinctNames(pool) && Scans(scan, pool) && KeysInPlace(start, pool) && NoOverlap(start, pool)
    ensures Rounds(start, scan).0 == Reach(start, pool)
  {
    ScanMembers(scan, pool);
    RoundsWithinReach(start, pool, scan);
    assert start + NamesOf([]) == start;
    RoundsSettle(start, pool, [], scan);
    forall v | v in pool && Restorable(start, pool, v) ensures v.name in Rounds(start, scan).0 {
      var d := RestorableFits(start, pool, v);
      BroughtIsRestorable(start, pool, d);
      NothingIsMissing(start, scan, d);
    }
  }

  // ---------------------------------------------------------------- scans that begin with chosen volumes

  lemma {:induction false} Listing(m: multiset<UserVolume>) returns (s: seq<UserVolume>)
    ensures multiset(s) == m
    decreases |m|
  {
    if m == multiset{} {
      s := [];
    } else {
      var v :| v in m;
      var rest := Listing(m - multiset{v});
      s := [v] + rest;
    }
  }

  lemma ScanFrom(pool: set<UserVolume>, d: seq<UserVolume>) returns (rest: seq<UserVolume>)
    requires multiset(d) <= multiset(pool)
    ensures Scans(d + rest, pool) && Within(rest, pool)
    ensures forall v :: v in rest ==> v !in d
  {
    rest := Listing(multiset(pool) - multiset(d));
    assert multiset(d + rest) == multiset(d) + multiset(rest);
    ScanMembers(d + rest, pool);
    forall v | v in rest ensures v in pool && v !in d {
      assert v in d + rest;
      assert multiset(rest)[v] > 0 && multiset(pool)[v] <= 1;
    }
  }

  lemma OneMoreOnce(pool: set<UserVolume>, d: seq<UserVolume>, v: UserVolume)
    requires multiset(d) <= multiset(pool) && v in pool && v !in d
    ensures multiset(d + [v]) <= multiset(pool)
  {
    assert multiset(d)[v] == 0 && multiset(d + [v]) == multiset(d) + multiset{v};
  }

  lemma {:induction false} BringsOnce(start: set<string>, pool: set<UserVolume>, d: seq<UserVolume>)
    requires Brings(start, d) && Within(d, pool)
    ensures multiset(d) <= multiset(pool)
    decreases |d|
  {
    if d != [] {
      var n := |d| - 1;
      BringsOnce(start, pool, d[..n]);
      OneMoreOnce(pool, d[..n], d[n]);
      assert d == d[..n] + [d[n]];
    }
  }

  lemma {:induction false} RoundConcat(names: set<string>, a: seq<UserVolume>, b: seq<UserVolume>)
    ensures var r := Round(names, a);
      Round(names, a + b) == (Round(r.0, b).0, r.1 + Round(r.0, b).1)
    decreases |a|
  {
    if a == [] {
      assert a + b == b && [] + Round(names, b).1 == Round(names, b).1;
    } else {
      assert (a + b)[1..] == a[1..] + b;
      if Ready(a[0], names) {
        RoundConcat(Attempt(names, a[0]), a[1..], b);
      } else {
        RoundConcat(names, a[1..], b);
        var r := Round(names, a[1..]);
        assert [a[0]] + (r.1 + Round(r.0, b).1) == ([a[0]] + r.1) + Round(r.0, b).1;
      }
    }
  }

  lemma RoundOfOne(names: set<string>, v: UserVolume)
    ensures Round(names, [v]) == if Ready(v, names) then (Attempt(names, v), []) else (names, [v])
  {
    assert [v][1..] == [];
    assert [v] + [] == [v];
  }

  lemma OneMoreInRound(start: set<string>, c: seq<UserVolume>)
    requires c != []
    ensures var n := |c| - 1; var r := Round(start, c[..n]);
      Round(start, c) == if Ready(c[n], r.0) then (Attempt(r.0, c[n]), r.1) else (r.0, r.1 + [c[n]])
  {
    var n := |c| - 1;
    assert c == c[..n] + [c[n]];
    RoundConcat(start, c[..n], [c[n]]);
    RoundOfOne(Round(start, c[..n]).0, c[n]);
    assert Round(start, c[..n]).1 + [] == Round(start, c[..n]).1;
  }

  lemma {:induction false} RoundOfBrought(start: set<string>, d: seq<UserVolume>)
    requires Brings(start, d)
    ensures Round(start, d) == (start + NamesOf(d), [])
    decreases |d|
  {
    if d != [] {
      var n := |d| - 1;
      RoundOfBrought(start, d[..n]);
      OneMoreInRound(start, d);
      NamesOfFront(d);
      assert start + NamesOf(d) == start + NamesOf(d[..n]) + {d[n].name};
    } else {
      assert start + NamesOf(d) == start;
    }
  }

  lemma {:induction false} AttemptsGrow(names: set<string>, vols: seq<UserVolume>)
    ensures names <= AttemptAll(names, vols)
    decreases |vols|
  {
    if vols != [] { AttemptsGrow(Attempt(names, vols[0]), vols[1..]); }
  }

  lemma RestoredGrows(names: set<string>, pending: seq<UserVolume>)
    ensures names <= Round(names, pending).0 <= Rounds(names, pending).0 <= Restored(names, pending)
  {
    var r := Round(names, pending);
    RoundGrows(names, pending);
    RoundsGrow(r.0, r.1);
    AttemptsGrow(Rounds(names, pending).0, Rounds(names, pending).1);
  }

  /** Scanned in the order in which they can be restored, they are. */
  lemma ScanBringing(start: set<string>, pool: set<UserVolume>, d: seq<UserVolume>) returns (scan: seq<UserVolume>)
    requires Brings(start, d) && Within(d, pool)
    ensures Scans(scan, pool) && NamesOf(d) <= Rounds(start, scan).0 <= Restored(start, scan)
  {
    BringsOnce(start, pool, d);
    var rest := ScanFrom(pool, d);
    scan := d + rest;
    RoundOfBrought(start, d);
    RoundConcat(start, d, rest);
    RoundGrows(start + NamesOf(d), rest);
    RestoredGrows(start, scan);
  }

  lemma {:induction false} StaysOut(names: set<string>, vols: seq<UserVolume>, name: string)
    requires name !in names && forall v :: v in vols ==> v.name != name
    ensures name !in AttemptAll(names, vols) && name !in Round(names, vols).0
    ensures forall v :: v in Round(names, vols).1 ==> v.name != name
    decreases |vols|
  {
    if vols != [] {
      assert vols[0] in vols;
      StaysOut(Attempt(names, vols[0]), vols[1..], name);
      StaysOut(names, vols[1..], name);
    }
  }

  lemma {:induction false} NeverEnters(names: set<string>, pending: seq<UserVolume>, name: string)
    requires name !in names && forall v :: v in pending ==> v.name != name
    ensures name !in Restored(names, pending)
    decreases |pending|
  {
    var r := Round(names, pending);
    StaysOut(names, pending, name);
    if r.1 == [] || |r.1| == |pending| {
      StaysOut(r.0, r.1, name);
    } else {
      NeverEnters(r.0, r.1, name);
    }
  }

  /** What the first round has attempted in vain never comes back. */
  lemma SpentStaysOut(start: set<string>, pool: set<UserVolume>, c: seq<UserVolume>, rest: seq<UserVolume>,
                      x: UserVolume)
    requires DistinctNames(pool) && Within(c, pool) && Within(rest, pool) && x in pool && x !in rest
    requires x.name !in Round(start, c).0 && x !in Round(start, c).1 && Within(Round(start, c).1, pool)
    ensures x.name !in Restored(start, c + rest)
  {
    var r := Round(start, c);
    RoundConcat(start, c, rest);
    StaysOut(r.0, rest, x.name);
    var s := Round(start, c + rest);
    forall v | v in s.1 ensures v.name != x.name {
      assert v in r.1 || v in Round(r.0, rest).1;
    }
    if s.1 == [] || |s.1| == |c + rest| {
      StaysOut(s.0, s.1, x.name);
    } else {
      NeverEnters(s.0, s.1, x.name);
    }
  }

  // ---------------------------------------------------------------- a key that is not in place

  lemma PrefixMultiset(d: seq<UserVolume>, k: nat)
    requires k <= |d|
    ensures multiset(d[..k]) <= multiset(d)
  {
    assert d == d[..k] + d[k..];
  }

  /** The source of the last volume was brought before it. */
  lemma SourceAmong(start: set<string>, d: seq<UserVolume>) returns (d': seq<UserVolume>)
    requires Brings(start, d) && d != [] && !Ready(d[|d| - 1], start)
    ensures d' != [] && Brings(start, d') && |d'| < |d| && d' <= d
    ensures d'[|d'| - 1].name == d[|d| - 1].base.value && multiset(d') <= multiset(d[..|d| - 1])
  {
    var n := |d| - 1;
    var u :| u in d[..n] && u.name == d[n].base.value;
    var j :| 0 <= j < n && d[j] == u;
    FitsInTurn(start, d, j);
    d' := d[..j + 1];
    PrefixMultiset(d[..n], j + 1);
    assert d[..n][..j + 1] == d';
  }

  lemma ChainSnoc(start: set<string>, pool: set<UserVolume>, c: seq<UserVolume>, v: UserVolume)
    requires Chain(start, pool, c) && v in pool && !Ready(v, start) && v.base.value == c[|c| - 1].name
    ensures Chain(start, pool, c + [v]) && multiset(c + [v]) == multiset(c) + multiset{v}
  {
    assert (c + [v])[..|c|] == c;
  }

  /** The chain of sources of what can be restored. */
  lemma {:induction false} ChainOf(start: set<string>, pool: set<UserVolume>, d: seq<UserVolume>)
    returns (c: seq<UserVolume>)
    requires Brings(start, d) && Within(d, pool) && d != []
    ensures Chain(start, pool, c) && EndsIn(c, d[|d| - 1]) && multiset(c) <= multiset(d)
    decreases |d|
  {
    var n := |d| - 1;
    assert d == d[..n] + [d[n]];
    if Ready(d[n], start) {
      c := [d[n]];
    } else {
      var d' := SourceAmong(start, d);
      var c' := ChainOf(start, pool, d');
      ChainSnoc(start, pool, c', d[n]);
      c := c' + [d[n]];
    }
  }

  /** `x` was attempted in vain. */
  predicate Spent(x: UserVolume, r: (set<string>, seq<UserVolume>)) { x.name !in r.0 && x !in r.1 }

  lemma SpentStays(start: set<string>, pool: set<UserVolume>, c: seq<UserVolume>, x: UserVolume)
    requires DistinctNames(pool) && Within(c, pool) && c != [] && x in pool && x != c[|c| - 1]
    requires Spent(x, Round(start, c[..|c| - 1]))
    ensures Spent(x, Round(start, c))
  {
    OneMoreInRound(start, c);
    assert c[|c| - 1] in c;
  }

  lemma AllBroughtOrSpent(start: set<string>, pool: set<UserVolume>, c: seq<UserVolume>)
    requires DistinctNames(pool) && Within(c, pool) && c != [] && Brings(start, c[..|c| - 1])
    requires c[|c| - 1] !in c[..|c| - 1] && c[|c| - 1].name !in start
    requires Ready(c[|c| - 1], start + NamesOf(c[..|c| - 1]))
    ensures Brings(start, c) || Spent(c[|c| - 1], Round(start, c))
  {
    var n := |c| - 1;
    OneMoreInRound(start, c);
    RoundOfBrought(start, c[..n]);
    forall u | u in c[..n] ensures u.name != c[n].name { assert u in pool && c[n] in pool; }
  }

  /** One round over a chain brings all of it, or leaves one of its volumes attempted in vain. */
  lemma {:induction false} RoundOfChain(start: set<string>, pool: set<UserVolume>, c: seq<UserVolume>)
    returns (x: UserVolume)
    requires DistinctNames(pool) && Chain(start, pool, c) && Within(c, pool) && multiset(c) <= multiset(pool)
    requires forall v :: v in c ==> v.name !in start
    ensures Brings(start, c) || (x in c && Spent(x, Round(start, c)))
    decreases |c|
  {
    var n := |c| - 1;
    x := c[n];
    assert c == c[..n] + [x];
    assert multiset(c)[x] <= 1;
    if n == 0 {
      AllBroughtOrSpent(start, pool, c);
    } else {
      var y := RoundOfChain(start, pool, c[..n]);
      if Brings(start, c[..n]) {
        assert c[n - 1] in c[..n];
        AllBroughtOrSpent(start, pool, c);
      } else {
        SpentStays(start, pool, c, y);
        x := y;
      }
    }
  }

  /** A restorable volume whose key is not in place: some scan loses it, or one of its sources, for good. */
  lemma ScanLosing(start: set<string>, pool: set<UserVolume>, v: UserVolume)
    returns (scan: seq<UserVolume>, x: UserVolume)
    requires DistinctNames(pool) && Restorable(start, pool, v) && !KeyInPlace(start, pool, v)
    ensures Scans(scan, pool) && Restorable(start, pool, x) && x in pool && x.name !in Restored(start, scan)
  {
    var d := RestorableFits(start, pool, v);
    var c := ChainOf(start, pool, d);
    BringsOnce(start, pool, d);
    BroughtIsRestorable(start, pool, d);
    forall u | u in c ensures u in d { assert multiset(c)[u] > 0; }
    forall u | u in c ensures u.name !in start { var e := RestorableFits(start, pool, u); }
    x := RoundOfChain(start, pool, c);
    KeyNotOnChain(start, pool, c, v);
    var rest := ScanFrom(pool, c);
    scan := c + rest;
    LeftWithin(start, pool, c);
    SpentStaysOut(start, pool, c, rest, x);
  }

  lemma KeyNotOnChain(start: set<string>, pool: set<UserVolume>, c: seq<UserVolume>, v: UserVolume)
    requires Chain(start, pool, c) && EndsIn(c, v) && !KeyInPlace(start, pool, v)
    ensures !Brings(start, c)
  {
    assert v.key.value !in start + NamesOf(c[..|c| - 1]);
  }

  lemma LeftWithin(start: set<string>, pool: set<UserVolume>, pending: seq<UserVolume>)
    requires Within(pending, pool)
    ensures Within(Round(start, pending).1, pool)
  {
    assert start + NamesOf([]) == start;
    var d := RoundBrings(start, pool, [], pending);
  }

  // ---------------------------------------------------------------- overlapping regions

  /** No restored volume overlaps with anything in the set. */
  ghost predicate Exclusive(start: set<string>, pool: set<UserVolume>, names: set<string>) {
    forall v :: v in pool && v.name in names && v.name !in start ==> Rivals(v) !! names
  }

  lemma AttemptKeepsExclusive(start: set<string>, pool: set<UserVolume>, names: set<string>, w: UserVolume)
    requires DistinctNames(pool) && MutualRivals(pool) && Exclusive(start, pool, names) && w in pool
    ensures Exclusive(start, pool, Attempt(names, w))
  {
    if Attaches(w, names) {
      forall v | v in pool && v.name in names + {w.name} && v.name !in start ensures Rivals(v) !! names + {w.name} {
        assert w.name !in Rivals(v);
        assert v.name == w.name ==> v == w;
      }
    }
  }

  lemma {:induction false} AttemptsKeepExclusive(start: set<string>, pool: set<UserVolume>, names: set<string>,
                                                 vols: seq<UserVolume>)
    requires DistinctNames(pool) && MutualRivals(pool) && Exclusive(start, pool, names) && Within(vols, pool)
    ensures Exclusive(start, pool, AttemptAll(names, vols))
    decreases |vols|
  {
    if vols != [] {
      AttemptKeepsExclusive(start, pool, names, vols[0]);
      AttemptsKeepExclusive(start, pool, Attempt(names, vols[0]), vols[1..]);
    }
  }

  lemma {:induction false} BroughtIsExclusive(start: set<string>, pool: set<UserVolume>, d: seq<UserVolume>)
    requires DistinctNames(pool) && MutualRivals(pool) && Brings(start, d) && Within(d, pool)
    ensures Exclusive(start, pool, start + NamesOf(d))
    decreases |d|
  {
    if d != [] {
      var n := |d| - 1;
      BroughtIsExclusive(start, pool, d[..n]);
      AttemptKeepsExclusive(start, pool, start + NamesOf(d[..n]), d[n]);
      NamesOfFront(d);
      assert start + NamesOf(d) == Attempt(start + NamesOf(d[..n]), d[n]);
    }
  }

  /** In no scan are two overlapping volumes restored. */
  lemma RestoredIsExclusive(start: set<string>, pool: set<UserVolume>, scan: seq<UserVolume>)
    requires DistinctNames(pool) && MutualRivals(pool) && Within(scan, pool)
    ensures Exclusive(start, pool, Restored(start, scan))
  {
    assert start + NamesOf([]) == start;
    var d := RoundsBring(start, pool, [], scan);
    BroughtIsExclusive(start, pool, d);
    RoundsLeaveStuck(start, scan);
    StuckMembers(scan, Rounds(start, scan).0);
    AttemptsKeepExclusive(start, pool, Rounds(start, scan).0, Rounds(start, scan).1);
  }

  // ---------------------------------------------------------------- the final pass

  /** `v` is stuck after the rounds, and could be restored next to the names if its needs were met. */
  predicate Waits(v: UserVolume, names: set<string>) {
    !Ready(v, names) && v.opens && v.name != "" && v.name !in names && Rivals(v) !! names
  }

  /** The names of the volumes that open without the source they wait for. */
  function Loners(vols: seq<UserVolume>, names: set<string>): set<string> {
    set v | v in vols && Waits(v, names) && Needs(v) <= names :: v.name
  }

  function LonersIn(pool: set<UserVolume>, names: set<string>): set<string> {
    set v | v in pool && Waits(v, names) && Needs(v) <= names :: v.name
  }

  /** `w` is stuck and needs something that only the final pass brings. */
  predicate Races(w: UserVolume, pool: set<UserVolume>, names: set<string>) {
    Waits(w, names) && !(Needs(w) <= names) && Needs(w) <= names + LonersIn(pool, names)
  }

  lemma LonersOfOne(tried: seq<UserVolume>, w: UserVolume, names: set<string>)
    ensures Loners(tried + [w], names) ==
            Loners(tried, names) + if Waits(w, names) && Needs(w) <= names then {w.name} else {}
  {
    assert forall v :: v in tried + [w] <==> v in tried || v == w;
    if Waits(w, names) && Needs(w) <= names { assert w in tried + [w]; }
    forall v | v in tried && Waits(v, names) && Needs(v) <= names ensures v.name in Loners(tried + [w], names) {
      assert v in tried + [w];
    }
  }

  lemma LonersAre(vols: seq<UserVolume>, pool: set<UserVolume>, names: set<string>)
    requires Within(vols, pool)
    ensures Loners(vols, names) <= LonersIn(pool, names)
  {
  }

  lemma LonerOrNot(names: set<string>, pool: set<UserVolume>, tried: seq<UserVolume>, w: UserVolume)
    requires Within(tried, pool) && !Races(w, pool, names) && !Ready(w, names)
    ensures Attempt(names + Loners(tried, names), w) == names + Loners(tried + [w], names)
  {
    LonersAre(tried, pool, names);
    LonersOfOne(tried, w, names);
    var now := names + Loners(tried, names);
    if Attaches(w, now) {
      assert Waits(w, names);
      assert Needs(w) <= names;
    }
    if Waits(w, names) && Needs(w) <= names {
      assert !Nested(w);
      assert w.name in now || Attaches(w, now);
    }
  }

  /** Without a race the final pass adds exactly the loners. */
  lemma {:induction false} FinalPassWithoutRace(names: set<string>, pool: set<UserVolume>, tried: seq<UserVolume>,
                                                rest: seq<UserVolume>)
    requires Within(tried, pool)
    requires forall v :: v in rest ==> v in pool && !Ready(v, names) && !Races(v, pool, names)
    ensures AttemptAll(names + Loners(tried, names), rest) == names + Loners(tried + rest, names)
    decreases |rest|
  {
    if rest == [] {
      assert tried + rest == tried;
    } else {
      assert rest[0] in rest;
      LonerOrNot(names, pool, tried, rest[0]);
      assert tried + rest == (tried + [rest[0]]) + rest[1..];
      FinalPassWithoutRace(names, pool, tried + [rest[0]], rest[1..]);
    }
  }

  lemma {:induction false} AttemptsConcat(names: set<string>, a: seq<UserVolume>, b: seq<UserVolume>)
    ensures AttemptAll(names, a + b) == AttemptAll(AttemptAll(names, a), b)
    decreases |a|
  {
    if a == [] {
      assert a + b == b;
    } else {
      assert (a + b)[1..] == a[1..] + b;
      AttemptsConcat(Attempt(names, a[0]), a[1..], b);
    }
  }

  lemma {:induction false} StuckConcat(a: seq<UserVolume>, b: seq<UserVolume>, names: set<string>)
    ensures Stuck(a + b, names) == Stuck(a, names) + Stuck(b, names)
    decreases |a|
  {
    if a == [] {
      assert a + b == b;
    } else {
      assert (a + b)[1..] == a[1..] + b;
      StuckConcat(a[1..], b, names);
    }
  }

  lemma {:induction false} AllStuck(vols: seq<UserVolume>, names: set<string>)
    requires forall v :: v in vols ==> !Ready(v, names)
    ensures Stuck(vols, names) == vols
    decreases |vols|
  {
    if vols != [] {
      assert vols[0] in vols;
      AllStuck(vols[1..], names);
    }
  }

  /** The final pass over a scan whose first volumes are all stuck. */
  lemma FinalPassFrom(start: set<string>, d: seq<UserVolume>, rest: seq<UserVolume>, names: set<string>)
    requires Rounds(start, d + rest).0 == names && forall v :: v in d ==> !Ready(v, names)
    ensures Restored(start, d + rest) == AttemptAll(AttemptAll(names, d), Stuck(rest, names))
  {
    RoundsLeaveStuck(start, d + rest);
    StuckConcat(d, rest, names);
    AllStuck(d, names);
    AttemptsConcat(names, d, Stuck(rest, names));
  }

  /** Scanned first, a racing volume comes too early. */
  lemma RacerFirst(start: set<string>, pool: set<UserVolume>, names: set<string>, w: UserVolume)
    returns (scan: seq<UserVolume>)
    requires DistinctNames(pool) && w in pool && Races(w, pool, names)
    requires forall s :: Scans(s, pool) ==> Rounds(start, s).0 == names
    ensures Scans(scan, pool) && w.name !in Restored(start, scan)
  {
    assert multiset([w]) == multiset{w};
    var rest := ScanFrom(pool, [w]);
    scan := [w] + rest;
    FinalPassFrom(start, [w], rest, names);
    AttemptsConcat(names, [w], []);
    assert AttemptAll(names, [w]) == names;
    StuckMembers(rest, names);
    forall v | v in Stuck(rest, names) ensures v.name != w.name { assert v in pool; }
    StaysOut(names, Stuck(rest, names), w.name);
  }

  lemma RacerAfterLoners(pool: set<UserVolume>, names: set<string>, w: UserVolume)
    requires DistinctNames(pool) && MutualRivals(pool) && w in pool && Races(w, pool, names)
    ensures Attaches(w, names + LonersIn(pool, names))
  {
    forall v | v in pool && Waits(v, names) && Needs(v) <= names ensures v.name != w.name && v.name !in Rivals(w) {
      assert v != w && Rivals(v) == {};
    }
  }

  lemma RacerAmongAttempts(pool: set<UserVolume>, names: set<string>, q: seq<UserVolume>, w: UserVolume,
                           rest: seq<UserVolume>)
    requires DistinctNames(pool) && MutualRivals(pool) && w in pool && Races(w, pool, names)
    requires forall v :: v in q <==> v in pool && Waits(v, names) && Needs(v) <= names
    ensures w.name in AttemptAll(AttemptAll(names, q + [w]), rest)
  {
    LonersFirst(pool, names, q);
    AttemptsConcat(names, q, [w]);
    RacerAfterLoners(pool, names, w);
    assert [w][1..] == [];
    AttemptsGrow(AttemptAll(names, q + [w]), rest);
  }

  /** The loners, each once. */
  lemma ListLoners(pool: set<UserVolume>, names: set<string>, w: UserVolume) returns (q: seq<UserVolume>)
    requires w in pool && Races(w, pool, names)
    ensures forall v :: v in q <==> v in pool && Waits(v, names) && Needs(v) <= names
    ensures multiset(q + [w]) <= multiset(pool)
  {
    var loners := set v | v in pool && Waits(v, names) && Needs(v) <= names;
    q := Listing(multiset(loners));
    ScanMembers(q, loners);
    OneMoreOnce(pool, q, w);
  }

  /** Scanned after the loners it comes in time. */
  lemma RacerLast(start: set<string>, pool: set<UserVolume>, names: set<string>, w: UserVolume)
    returns (scan: seq<UserVolume>)
    requires DistinctNames(pool) && MutualRivals(pool) && w in pool && Races(w, pool, names)
    requires forall s :: Scans(s, pool) ==> Rounds(start, s).0 == names
    ensures Scans(scan, pool) && w.name in Restored(start, scan)
  {
    var q := ListLoners(pool, names, w);
    var d := q + [w];
    var rest := ScanFrom(pool, d);
    scan := d + rest;
    RacerAmongAttempts(pool, names, q, w, Stuck(rest, names));
    forall v | v in d ensures !Ready(v, names) { assert v in q || v == w; }
    FinalPassFrom(start, d, rest, names);
  }

  lemma LonersFirst(pool: set<UserVolume>, names: set<string>, q: seq<UserVolume>)
    requires forall v :: v in q <==> v in pool && Waits(v, names) && Needs(v) <= names
    ensures AttemptAll(names, q) == names + LonersIn(pool, names)
  {
    assert names + Loners([], names) == names && [] + q == q;
    FinalPassWithoutRace(names, pool, [], q);
    assert Loners(q, names) == LonersIn(pool, names);
  }

  lemma LonersOfStuck(stuck: seq<UserVolume>, pool: set<UserVolume>, names: set<string>)
    requires forall v :: v in stuck <==> v in pool && !Ready(v, names)
    ensures Loners(stuck, names) == LonersIn(pool, names)
  {
  }

  lemma StuckWithoutRace(stuck: seq<UserVolume>, pool: set<UserVolume>, names: set<string>)
    requires forall v :: v in stuck <==> v in pool && !Ready(v, names)
    requires forall w :: w in pool ==> !Races(w, pool, names)
    ensures AttemptAll(names, stuck) == names + LonersIn(pool, names)
  {
    assert names + Loners([], names) == names && [] + stuck == stuck;
    FinalPassWithoutRace(names, pool, [], stuck);
    LonersOfStuck(stuck, pool, names);
  }

  lemma RestoredWithoutRace(start: set<string>, pool: set<UserVolume>, names: set<string>, scan: seq<UserVolume>)
    requires Scans(scan, pool) && Rounds(start, scan).0 == names && forall w :: w in pool ==> !Races(w, pool, names)
    ensures Restored(start, scan) == names + LonersIn(pool, names)
  {
    RoundsLeaveStuck(start, scan);
    StuckMembers(scan, names);
    ScanMembers(scan, pool);
    StuckWithoutRace(Stuck(scan, names), pool, names);
  }

  // ---------------------------------------------------------------- the order matters, or it does not

  ghost predicate AlwaysReached(start: set<string>, pool: set<UserVolume>) {
    forall scan :: Scans(scan, pool) ==> Rounds(start, scan).0 == Reach(start, pool)
  }

  ghost predicate SameInEveryOrder(start: set<string>, pool: set<UserVolume>) {
    forall a, b :: Scans(a, pool) && Scans(b, pool) ==> Restored(start, a) == Restored(start, b)
  }

  lemma OverlapShows(start: set<string>, pool: set<UserVolume>, u: UserVolume, v: UserVolume)
    requires DistinctNames(pool) && MutualRivals(pool) && u in pool && v in pool && u.name in Rivals(v)
    requires Restorable(start, pool, u) && Restorable(start, pool, v)
    ensures !SameInEveryOrder(start, pool) && !AlwaysReached(start, pool)
  {
    var d := RestorableFits(start, pool, u);
    var e := RestorableFits(start, pool, v);
    var a := ScanBringing(start, pool, d);
    var b := ScanBringing(start, pool, e);
    ScanMembers(a, pool);
    RestoredIsExclusive(start, pool, a);
    assert u in d && v in e;
    assert u.name in Restored(start, a) && v.name in Restored(start, b);
    assert v.name !in Restored(start, a);
    assert v.name in Reach(start, pool);
  }

  lemma MissingKeyShows(start: set<string>, pool: set<UserVolume>, v: UserVolume)
    requires DistinctNames(pool) && v in pool && Restorable(start, pool, v) && !KeyInPlace(start, pool, v)
    ensures !SameInEveryOrder(start, pool) && !AlwaysReached(start, pool)
  {
    var b, x := ScanLosing(start, pool, v);
    var d := RestorableFits(start, pool, x);
    var a := ScanBringing(start, pool, d);
    assert x in d;
    assert x.name in Restored(start, a);
    RestoredGrows(start, b);
    assert x.name in Reach(start, pool);
  }

  /** The rounds restore everything restorable, whatever the order of the scan, exactly if every
      restorable volume has its key in place at the start or on its own chain of sources, and no two
      restorable volumes overlap. */
  lemma RoundsReachAllIff(start: set<string>, pool: set<UserVolume>)
    requires DistinctNames(pool) && MutualRivals(pool)
    ensures AlwaysReached(start, pool) <==> KeysInPlace(start, pool) && NoOverlap(start, pool)
  {
    if !KeysInPlace(start, pool) {
      var v :| v in pool && Restorable(start, pool, v) && !KeyInPlace(start, pool, v);
      MissingKeyShows(start, pool, v);
    } else if !NoOverlap(start, pool) {
      var u, v :| u in pool && v in pool && Restorable(start, pool, u) && Restorable(start, pool, v) &&
                  u.name in Rivals(v);
      OverlapShows(start, pool, u, v);
    } else {
      forall scan | Scans(scan, pool) ensures Rounds(start, scan).0 == Reach(start, pool) {
        RoundsReachAll(start, pool, scan);
      }
    }
  }

  /** All scans of the same volumes restore the same set exactly if the rounds always restore everything
      restorable and nothing races in the final pass. */
  lemma ScanOrderIff(start: set<string>, pool: set<UserVolume>)
    requires DistinctNames(pool) && MutualRivals(pool)
    ensures SameInEveryOrder(start, pool) <==>
              && KeysInPlace(start, pool) && NoOverlap(start, pool)
              && forall w :: w in pool ==> !Races(w, pool, Reach(start, pool))
  {
    var names := Reach(start, pool);
    RoundsReachAllIff(start, pool);
    if !KeysInPlace(start, pool) {
      var v :| v in pool && Restorable(start, pool, v) && !KeyInPlace(start, pool, v);
      MissingKeyShows(start, pool, v);
    } else if !NoOverlap(start, pool) {
      var u, v :| u in pool && v in pool && Restorable(start, pool, u) && Restorable(start, pool, v) &&
                  u.name in Rivals(v);
      OverlapShows(start, pool, u, v);
    } else if w :| w in pool && Races(w, pool, names) {
      var a := RacerFirst(start, pool, names, w);
      var b := RacerLast(start, pool, names, w);
    } else {
      forall a, b | Scans(a, pool) && Scans(b, pool) ensures Restored(start, a) == Restored(start, b) {
        RestoredWithoutRace(start, pool, names, a);
        RestoredWithoutRace(start, pool, names, b);
      }
    }
  }

  // ---------------------------------------------------------------- without overlaps: the least closed set

  /** A set of names is closed if it holds every volume that opens and has its source and its key in it. */
  ghost predicate Closed(start: set<string>, pool: set<UserVolume>, names: set<string>) {
    start <= names &&
    forall v :: v in pool && v.opens && v.name != "" && Ready(v, names) && Needs(v) <= names ==> v.name in names
  }

  lemma {:induction false} BroughtIsInClosed(start: set<string>, pool: set<UserVolume>, d: seq<UserVolume>,
                                             names: set<string>)
    requires Brings(start, d) && Within(d, pool) && Closed(start, pool, names)
    ensures NamesOf(d) <= names
    decreases |d|
  {
    if d != [] {
      var n := |d| - 1;
      BroughtIsInClosed(start, pool, d[..n], names);
      NamesOfFront(d);
    }
  }

  /** What two orders bring, one order brings. */
  lemma {:induction false} Join(start: set<string>, pool: set<UserVolume>, d: seq<UserVolume>, e: seq<UserVolume>)
    returns (f: seq<UserVolume>)
    requires NoOverlap(start, pool) && Brings(start, d) && Brings(start, e) && Within(d, pool) && Within(e, pool)
    ensures Brings(start, f) && Within(f, pool) && NamesOf(d) + NamesOf(e) <= start + NamesOf(f)
    decreases |e|
  {
    f := d;
    if e != [] {
      var n := |e| - 1;
      var v := e[n];
      f := Join(start, pool, d, e[..n]);
      NamesOfFront(e);
      if v.name !in start + NamesOf(f) {
        BroughtIsRestorable(start, pool, e);
        NoRivalIsThere(start, pool, f, v);
        BringsOneMore(start, f, v);
        NamesOfSnoc(f, v);
        f := f + [v];
      }
    }
  }

  lemma BringsTo(start: set<string>, pool: set<UserVolume>, name: string) returns (d: seq<UserVolume>)
    requires name in Reach(start, pool)
    ensures Brings(start, d) && Within(d, pool) && name in start + NamesOf(d)
  {
    d := [];
    if name !in start {
      var u :| u in pool && Restorable(start, pool, u) && u.name == name;
      d := RestorableFits(start, pool, u);
      assert u in d;
    }
  }

  lemma ReachHolds(start: set<string>, pool: set<UserVolume>, v: UserVolume)
    requires NoOverlap(start, pool) && v in pool && v.opens && v.name != "" && Rivals(v) == {}
    requires Ready(v, Reach(start, pool)) && Needs(v) <= Reach(start, pool)
    ensures v.name in Reach(start, pool)
  {
    var d, e := [], [];
    if v.base.Some? { d := BringsTo(start, pool, v.base.value); }
    if v.key.Some? { e := BringsTo(start, pool, v.key.value); }
    var f := Join(start, pool, d, e);
    NeedsAreThere(v, start + NamesOf(f));
    if v.name !in start + NamesOf(f) {
      BringsOneMore(start, f, v);
      assert v in f + [v];
      BroughtIsRestorable(start, pool, f + [v]);
    } else {
      BroughtIsRestorable(start, pool, f);
    }
  }

  /** Where no volumes overlap, what is restorable is the least closed set. */
  lemma ReachIsLeastClosed(start: set<string>, pool: set<UserVolume>)
    requires forall v :: v in pool ==> Rivals(v) == {}
    ensures Closed(start, pool, Reach(start, pool))
    ensures forall names :: Closed(start, pool, names) ==> Reach(start, pool) <= names
  {
    forall v | v in pool && v.opens && v.name != "" && Ready(v, Reach(start, pool)) && Needs(v) <= Reach(start, pool)
      ensures v.name in Reach(start, pool)
    {
      ReachHolds(start, pool, v);
    }
    forall names, v | Closed(start, pool, names) && v in pool && Restorable(start, pool, v) ensures v.name in names {
      var d := RestorableFits(start, pool, v);
      BroughtIsInClosed(start, pool, d, names);
      assert v in d;
    }
  }

  // ---------------------------------------------------------------- pairs that show it

  lemma RestoredPair(start: set<string>, u: UserVolume, w: UserVolume)
    ensures Ready(u, start) && Ready(w, start) ==>
              Restored(start, [u, w]) == Attempt(Attempt(start, u), w)
    ensures !Ready(u, start) && !Ready(w, start) ==>
              Restored(start, [u, w]) == Attempt(Attempt(start, u), w)
  {
    assert [u, w][1..] == [w] && [w][1..] == [];
    assert AttemptAll(start, [u, w]) == AttemptAll(Attempt(start, u), [w]);
    assert AttemptAll(Attempt(start, u), [w]) == AttemptAll(Attempt(Attempt(start, u), w), []);
    RoundOfOne(start, w);
    RoundOfOne(Attempt(start, u), w);
    assert [u] + [w] == [u, w];
  }

  /** Two volumes that both find their sources at the start, the key of one on the other. Scanned after
      its key volume the encrypted one comes back, scanned before it it does not. */
  lemma KeyScannedLast(main: string, keys: UserVolume, data: UserVolume)
    requires keys.base == data.base == Some(main) && keys.key == None && data.key == Some(keys.name)
    requires keys.opens && data.opens && keys.rivals == data.rivals == {}
    requires main != keys.name && main != data.name && keys.name != data.name && keys.name != "" && data.name != ""
    ensures Restored({main}, [keys, data]) == {main, keys.name, data.name}
    ensures Restored({main}, [data, keys]) == {main, keys.name}
  {
    RestoredPair({main}, keys, data);
    RestoredPair({main}, data, keys);
  }

  /** Of two overlapping volumes the one scanned first comes back. */
  lemma FirstOfOverlapping(main: string, u: UserVolume, v: UserVolume)
    requires u.base == v.base == Some(main) && u.key == v.key == None && u.opens && v.opens && u.wraps && v.wraps
    requires u.rivals == {v.name} && v.rivals == {u.name}
    requires main != u.name && main != v.name && u.name != v.name && u.name != "" && v.name != ""
    ensures Restored({main}, [u, v]) == {main, u.name}
  {
    RestoredPair({main}, u, v);
  }

  /** A stuck volume that opens without its missing source, and one on it that does not: scanned in
      this order both are restored, in the other order only the first. */
  lemma RacingPair(u: UserVolume, w: UserVolume)
    requires u.name != "" && w.name != "" && u.name != w.name && u.key == w.key == None && u.opens && w.opens
    requires u.base.Some? && u.base.value != u.name && u.base.value != w.name && !u.wraps
    requires w.base == Some(u.name) && w.wraps && w.rivals == {}
    ensures Restored({}, [u, w]) == {u.name, w.name}
    ensures Restored({}, [w, u]) == {u.name}
  {
    RestoredPair({}, u, w);
    RestoredPair({}, w, u);
  }
}
