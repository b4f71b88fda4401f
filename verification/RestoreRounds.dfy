/**
What a given scan restores in its rounds. A volume has its turn in the round after that of its source,
or in the same round if the scan lists its source first.
*/
module RestoreRounds {
  import opened Wrappers
  import opened VolumeRestore
  import opened RestoreOrder
  import opened StableSort

  /** How often along a chain of sources the scan lists a source behind the volume that needs it. */
  ghost function Turns(scan: seq<UserVolume>, c: seq<UserVolume>): nat
    decreases |c|
  {
    if |c| <= 1 then 0
    else
      var n := |c| - 1;
      Turns(scan, c[..n]) + if Before(scan, c[n - 1], c[n]) then 0 else 1
  }

  ghost predicate Rooted(start: set<string>, pool: set<UserVolume>, v: UserVolume) {
    exists c :: Chain(start, pool, c) && EndsIn(c, v)
  }

  /** The number of the round in which `v` has its turn. */
  ghost function Level(start: set<string>, pool: set<UserVolume>, scan: seq<UserVolume>, v: UserVolume): nat
    requires Rooted(start, pool, v)
  {
    var c :| Chain(start, pool, c) && EndsIn(c, v);
    Turns(scan, c)
  }

  /** `k` has its turn before `v`. */
  ghost predicate Earlier(start: set<string>, pool: set<UserVolume>, scan: seq<UserVolume>, k: UserVolume,
                          v: UserVolume) {
    && Rooted(start, pool, k) && Rooted(start, pool, v)
    && (|| Level(start, pool, scan, k) < Level(start, pool, scan, v)
        || (Level(start, pool, scan, k) == Level(start, pool, scan, v) && Before(scan, k, v)))
  }

  /** The key of `v`, if it has one, is in place at the start or on a volume whose turn is earlier. */
  ghost predicate InTime(start: set<string>, pool: set<UserVolume>, scan: seq<UserVolume>, v: UserVolume) {
    v.key.Some? && v.key.value !in start ==>
      exists k :: k in pool && k.name == v.key.value && Earlier(start, pool, scan, k, v)
  }

  // ---------------------------------------------------------------- chains and levels

  lemma {:induction false} OneChain(start: set<string>, pool: set<UserVolume>, c: seq<UserVolume>, e: seq<UserVolume>)
    requires DistinctNames(pool) && Chain(start, pool, c) && Chain(start, pool, e) && c[|c| - 1] == e[|e| - 1]
    ensures c == e
    decreases |c|
  {
    var n, m := |c| - 1, |e| - 1;
    if n > 0 {
      assert m > 0;
      assert c[n - 1] in pool && e[m - 1] in pool;
      OneChain(start, pool, c[..n], e[..m]);
    }
    assert c == c[..n] + [c[n]] && e == e[..m] + [e[m]];
  }

  lemma LevelOf(start: set<string>, pool: set<UserVolume>, scan: seq<UserVolume>, c: seq<UserVolume>)
    requires DistinctNames(pool) && Chain(start, pool, c)
    ensures Rooted(start, pool, c[|c| - 1]) && Level(start, pool, scan, c[|c| - 1]) == Turns(scan, c)
  {
    var v := c[|c| - 1];
    assert EndsIn(c, v);
    var e :| Chain(start, pool, e) && EndsIn(e, v) && Level(start, pool, scan, v) == Turns(scan, e);
    assert EndsIn(e, v);
    assert e[|e| - 1] == v;
    OneChain(start, pool, c, e);
  }

  /** The level of a volume is that of its source, or one more. */
  lemma LevelStep(start: set<string>, pool: set<UserVolume>, scan: seq<UserVolume>, v: UserVolume)
    returns (u: UserVolume)
    requires DistinctNames(pool) && Rooted(start, pool, v) && !Ready(v, start)
    ensures u in pool && v.base == Some(u.name) && Rooted(start, pool, u)
    ensures Level(start, pool, scan, v) == Level(start, pool, scan, u) + if Before(scan, u, v) then 0 else 1
  {
    var c :| Chain(start, pool, c) && EndsIn(c, v);
    var n := |c| - 1;
    u := c[n - 1];
    LevelOf(start, pool, scan, c);
    LevelOf(start, pool, scan, c[..n]);
    assert c[..n][n - 1] == u;
  }

  lemma RestorableIsRooted(start: set<string>, pool: set<UserVolume>, v: UserVolume)
    requires Restorable(start, pool, v)
    ensures Rooted(start, pool, v)
  {
    var d := RestorableFits(start, pool, v);
    var c := ChainOf(start, pool, d);
  }

  /** What a restorable volume needs is restorable. */
  lemma NeededIsRestorable(start: set<string>, pool: set<UserVolume>, v: UserVolume, u: UserVolume)
    requires DistinctNames(pool) && Restorable(start, pool, v) && u in pool && u.name !in start
    requires v.base == Some(u.name) || v.key == Some(u.name)
    ensures Restorable(start, pool, u)
  {
    var d := RestorableFits(start, pool, v);
    var before := d[..|d| - 1];
    FitsInTurn(start, d, |d| - 1);
    var j := FindBrought(pool, before, u);
    BroughtIsRestorable(start, pool, before);
  }

  // ---------------------------------------------------------------- one round

  /** `v` is restorable, and had its turn before round `r`, or in round `r` among those `done`. */
  ghost predicate Had(start: set<string>, pool: set<UserVolume>, scan: seq<UserVolume>, r: nat, done: seq<UserVolume>,
                      v: UserVolume) {
    && Restorable(start, pool, v) && Rooted(start, pool, v)
    && (Level(start, pool, scan, v) < r || (Level(start, pool, scan, v) == r && v in done))
  }

  /** The volumes stand in the order of the scan. */
  ghost predicate Listed(scan: seq<UserVolume>, vols: seq<UserVolume>) {
    forall i, j :: 0 <= i < j < |vols| ==> Before(scan, vols[i], vols[j])
  }

  /** Next to the start, the names are those of the restorable volumes that had their turn. */
  ghost predicate Settled(start: set<string>, pool: set<UserVolume>, scan: seq<UserVolume>, r: nat,
                          done: seq<UserVolume>, names: set<string>) {
    forall v :: v in pool && v.name !in start ==> (v.name in names <==> Had(start, pool, scan, r, done, v))
  }

  /** Round `r` deals with the volumes of the list: of the restorable ones, those that had no turn before. */
  ghost predicate OnList(start: set<string>, pool: set<UserVolume>, scan: seq<UserVolume>, r: nat,
                         list: seq<UserVolume>) {
    && Within(list, pool) && Listed(scan, list)
    && forall v :: v in pool && Restorable(start, pool, v) ==> (v in list <==> !Had(start, pool, scan, r, [], v))
  }

  /** Round `r` has dealt with `done`, and `rest` is ahead of it. */
  ghost predicate Midway(start: set<string>, pool: set<UserVolume>, scan: seq<UserVolume>, r: nat,
                         done: seq<UserVolume>, rest: seq<UserVolume>, names: set<string>) {
    Settled(start, pool, scan, r, done, names) && OnList(start, pool, scan, r, done + rest)
  }

  /** The volume in front of `rest`, if it is restorable, has not had its turn yet, and no other volume
      that the round dealt with has its name. */
  lemma NotYet(start: set<string>, pool: set<UserVolume>, scan: seq<UserVolume>, r: nat,
               done: seq<UserVolume>, rest: seq<UserVolume>, names: set<string>)
    requires DistinctNames(pool) && Unique(scan) && Midway(start, pool, scan, r, done, rest, names) && rest != []
    requires Restorable(start, pool, rest[0])
    ensures rest[0] in pool && Rooted(start, pool, rest[0]) && Level(start, pool, scan, rest[0]) >= r
    ensures rest[0].name !in names
    ensures forall u :: u in done ==> Before(scan, u, rest[0]) && !Before(scan, rest[0], u)
  {
    var v := rest[0];
    assert (done + rest)[|done|] == v;
    RestorableIsRooted(start, pool, v);
    var own := RestorableFits(start, pool, v);
    forall u | u in done ensures Before(scan, u, v) && !Before(scan, v, u) {
      var i :| 0 <= i < |done| && done[i] == u;
      assert (done + rest)[i] == u;
      BeforeOnce(scan, u, v);
    }
    if v in done { BeforeOnce(scan, v, v); }
  }

  lemma HadIsIn(start: set<string>, pool: set<UserVolume>, scan: seq<UserVolume>, r: nat,
                done: seq<UserVolume>, rest: seq<UserVolume>, names: set<string>, u: UserVolume)
    requires DistinctNames(pool) && Midway(start, pool, scan, r, done, rest, names) && u in pool && u.name !in start
    ensures u.name in names <==> Had(start, pool, scan, r, done, u)
  {
  }

  /** For the volume in front whose turn it is, the others have had theirs exactly if it was earlier. */
  lemma HadIffEarlier(start: set<string>, pool: set<UserVolume>, scan: seq<UserVolume>, r: nat,
                      done: seq<UserVolume>, rest: seq<UserVolume>, names: set<string>, u: UserVolume)
    requires DistinctNames(pool) && Unique(scan) && Midway(start, pool, scan, r, done, rest, names) && rest != []
    requires Restorable(start, pool, rest[0]) && Rooted(start, pool, rest[0])
    requires Level(start, pool, scan, rest[0]) == r && Restorable(start, pool, u) && u in pool
    ensures Had(start, pool, scan, r, done, u) <==> Earlier(start, pool, scan, u, rest[0])
  {
    var v := rest[0];
    NotYet(start, pool, scan, r, done, rest, names);
    RestorableIsRooted(start, pool, u);
    if Level(start, pool, scan, u) == r && Before(scan, u, v) && u !in done {
      var j :| 0 <= j < |done + rest| && (done + rest)[j] == u;
      assert (done + rest)[|done|] == v;
      BeforeOnce(scan, u, v);
    }
  }

  /** While its turn is still to come in a later round, its source has not had its own. */
  lemma SourceNotHad(start: set<string>, pool: set<UserVolume>, scan: seq<UserVolume>, r: nat,
                     done: seq<UserVolume>, rest: seq<UserVolume>, names: set<string>, u: UserVolume)
    requires DistinctNames(pool) && Unique(scan) && Midway(start, pool, scan, r, done, rest, names) && rest != []
    requires Restorable(start, pool, rest[0]) && Rooted(start, pool, rest[0]) && Rooted(start, pool, u)
    requires var level := Level(start, pool, scan, rest[0]);
      r < level == Level(start, pool, scan, u) + if Before(scan, u, rest[0]) then 0 else 1
    ensures !Had(start, pool, scan, r, done, u)
  {
    NotYet(start, pool, scan, r, done, rest, names);
  }

  /** In round `r` exactly the volumes of level `r` have their source in place. */
  lemma TurnIsLevel(start: set<string>, pool: set<UserVolume>, scan: seq<UserVolume>, r: nat,
                    done: seq<UserVolume>, rest: seq<UserVolume>, names: set<string>)
    requires DistinctNames(pool) && Unique(scan) && Midway(start, pool, scan, r, done, rest, names) && rest != []
    requires Restorable(start, pool, rest[0]) && Rooted(start, pool, rest[0]) && start <= names
    ensures Ready(rest[0], names) <==> Level(start, pool, scan, rest[0]) == r
  {
    var v := rest[0];
    NotYet(start, pool, scan, r, done, rest, names);
    if Ready(v, start) {
      assert Chain(start, pool, [v]);
      LevelOf(start, pool, scan, [v]);
    } else {
      var u := LevelStep(start, pool, scan, v);
      NeededIsRestorable(start, pool, v, u);
      HadIsIn(start, pool, scan, r, done, rest, names, u);
      if Level(start, pool, scan, v) == r {
        HadIffEarlier(start, pool, scan, r, done, rest, names, u);
      } else {
        SourceNotHad(start, pool, scan, r, done, rest, names, u);
      }
    }
  }

  /** When it is its turn, its key is in place exactly if it is in time. */
  lemma KeyIsInTime(start: set<string>, pool: set<UserVolume>, scan: seq<UserVolume>, r: nat,
                    done: seq<UserVolume>, rest: seq<UserVolume>, names: set<string>)
    requires DistinctNames(pool) && Unique(scan) && Midway(start, pool, scan, r, done, rest, names) && rest != []
    requires Restorable(start, pool, rest[0]) && Rooted(start, pool, rest[0]) && start <= names
    requires Level(start, pool, scan, rest[0]) == r && rest[0].key.Some?
    ensures rest[0].key.value in names <==> InTime(start, pool, scan, rest[0])
  {
    var v := rest[0];
    if v.key.value !in start {
      forall k | k in pool && k.name == v.key.value
        ensures k.name in names <==> Earlier(start, pool, scan, k, v)
      {
        NeededIsRestorable(start, pool, v, k);
        HadIsIn(start, pool, scan, r, done, rest, names, k);
        HadIffEarlier(start, pool, scan, r, done, rest, names, k);
      }
      var d := RestorableFits(start, pool, v);
      var k :| k in d[..|d| - 1] && k.name == v.key.value;
      assert k in pool;
    }
  }

  /** The round goes on past the volume in front. */
  lemma Onwards(start: set<string>, pool: set<UserVolume>, scan: seq<UserVolume>, r: nat,
                done: seq<UserVolume>, rest: seq<UserVolume>, names: set<string>, names': set<string>)
    requires DistinctNames(pool) && Midway(start, pool, scan, r, done, rest, names) && rest != []
    requires names <= names' <= names + {rest[0].name}
    requires var v := rest[0];
      if Restorable(start, pool, v) && Rooted(start, pool, v) && Level(start, pool, scan, v) == r
      then v.name in names' else names' == names
    ensures Midway(start, pool, scan, r, done + [rest[0]], rest[1..], names')
  {
    var v := rest[0];
    assert done + rest == (done + [v]) + rest[1..];
    assert v in done + rest;
    forall u | u in pool && u.name !in start
      ensures Had(start, pool, scan, r, done + [v], u) <==> u.name in names'
    {
      HadIsIn(start, pool, scan, r, done, rest, names, u);
    }
  }

  /** An attempt adds a restorable volume whose turn it is and whose key is in time, and nothing else. */
  lemma AttemptInTurn(start: set<string>, pool: set<UserVolume>, scan: seq<UserVolume>, r: nat,
                      done: seq<UserVolume>, rest: seq<UserVolume>, d: seq<UserVolume>)
    requires DistinctNames(pool) && NoOverlap(start, pool) && Unique(scan) && Brings(start, d) && Within(d, pool)
    requires Midway(start, pool, scan, r, done, rest, start + NamesOf(d)) && rest != []
    ensures var v, names := rest[0], start + NamesOf(d);
      Fits(v, names) <==> Restorable(start, pool, v) && Rooted(start, pool, v) && Level(start, pool, scan, v) == r
                          && InTime(start, pool, scan, v)
  {
    var v, names := rest[0], start + NamesOf(d);
    assert (done + rest)[|done|] == v;
    if Restorable(start, pool, v) {
      NotYet(start, pool, scan, r, done, rest, names);
      TurnIsLevel(start, pool, scan, r, done, rest, names);
      if Level(start, pool, scan, v) == r {
        if v.key.Some? { KeyIsInTime(start, pool, scan, r, done, rest, names); }
        if InTime(start, pool, scan, v) { NeedsAreThere(v, names); }
        NoRivalIsThere(start, pool, d, v);
        var own := RestorableFits(start, pool, v);
      }
    } else if Fits(v, names) {
      FitIsRestorable(start, pool, d, v);
    }
  }

  lemma FitIsRestorable(start: set<string>, pool: set<UserVolume>, d: seq<UserVolume>, v: UserVolume)
    requires Brings(start, d) && Within(d, pool) && v in pool && Fits(v, start + NamesOf(d))
    ensures Restorable(start, pool, v)
  {
    BringsOneMore(start, d, v);
    BroughtIsRestorable(start, pool, d + [v]);
    assert v in d + [v];
  }

  lemma InFrontOnce(scan: seq<UserVolume>, done: seq<UserVolume>, rest: seq<UserVolume>)
    requires Unique(scan) && rest != []
    requires Listed(scan, done + rest)
    ensures rest[0] !in rest[1..]
  {
    if rest[0] in rest[1..] {
      var j :| 0 <= j < |rest[1..]| && rest[1..][j] == rest[0];
      assert (done + rest)[|done|] == rest[0] && (done + rest)[|done| + 1 + j] == rest[0];
      BeforeOnce(scan, rest[0], rest[0]);
    }
  }

  /** Whether round `r` has dealt with the volumes of `rest` as their levels and keys say. */
  ghost predicate InTurn(start: set<string>, pool: set<UserVolume>, scan: seq<UserVolume>, r: nat,
                         rest: seq<UserVolume>, next: seq<UserVolume>) {
    && (forall v :: v in next ==> v in rest)
    && forall v :: v in rest && Restorable(start, pool, v) && Rooted(start, pool, v) ==>
         if Level(start, pool, scan, v) == r then InTime(start, pool, scan, v) && v !in next else v in next
  }

  /** `x` was attempted without its key, and will not be attempted again. */
  ghost predicate Lost(start: set<string>, pool: set<UserVolume>, scan: seq<UserVolume>, x: UserVolume,
                       after: (set<string>, seq<UserVolume>)) {
    x in pool && Restorable(start, pool, x) && !InTime(start, pool, scan, x) && Spent(x, after)
  }

  lemma LostInFront(start: set<string>, pool: set<UserVolume>, scan: seq<UserVolume>, names: set<string>,
                    rest: seq<UserVolume>)
    requires DistinctNames(pool) && Within(rest, pool) && rest != [] && rest[0] !in rest[1..]
    requires Restorable(start, pool, rest[0]) && !InTime(start, pool, scan, rest[0])
    requires Ready(rest[0], names) && !Attaches(rest[0], names) && rest[0].name !in names
    ensures Lost(start, pool, scan, rest[0], Round(names, rest))
  {
    var v := rest[0];
    assert v in rest;
    forall u | u in rest[1..] ensures u.name != v.name { assert u in rest; }
    StaysOut(names, rest[1..], v.name);
  }

  /** The volume in front does not get lost. */
  ghost predicate Passes(start: set<string>, pool: set<UserVolume>, scan: seq<UserVolume>, r: nat,
                         v: UserVolume, names: set<string>) {
    Restorable(start, pool, v) && Rooted(start, pool, v) ==>
      && (Ready(v, names) <==> Level(start, pool, scan, v) == r)
      && (Ready(v, names) ==> InTime(start, pool, scan, v))
  }

  lemma BringOrNot(start: set<string>, pool: set<UserVolume>, d: seq<UserVolume>, v: UserVolume)
    returns (e: seq<UserVolume>)
    requires Brings(start, d) && Within(d, pool) && v in pool
    ensures Brings(start, e) && Within(e, pool)
    ensures start + NamesOf(e) == start + NamesOf(d) + if Fits(v, start + NamesOf(d)) then {v.name} else {}
  {
    e := d;
    if Fits(v, start + NamesOf(d)) {
      BringsOneMore(start, d, v);
      NamesOfSnoc(d, v);
      e := d + [v];
    }
  }

  lemma PassOnwards(start: set<string>, pool: set<UserVolume>, scan: seq<UserVolume>, r: nat,
                    done: seq<UserVolume>, rest: seq<UserVolume>, d: seq<UserVolume>, names': set<string>)
    requires DistinctNames(pool) && NoOverlap(start, pool) && Unique(scan) && Brings(start, d) && Within(d, pool)
    requires Midway(start, pool, scan, r, done, rest, start + NamesOf(d)) && rest != []
    requires Passes(start, pool, scan, r, rest[0], start + NamesOf(d))
    requires names' == start + NamesOf(d) + if Fits(rest[0], start + NamesOf(d)) then {rest[0].name} else {}
    ensures Midway(start, pool, scan, r, done + [rest[0]], rest[1..], names')
  {
    AttemptInTurn(start, pool, scan, r, done, rest, d);
    Onwards(start, pool, scan, r, done, rest, start + NamesOf(d), names');
  }

  lemma PassInTurn(start: set<string>, pool: set<UserVolume>, scan: seq<UserVolume>, r: nat,
                   done: seq<UserVolume>, rest: seq<UserVolume>, d: seq<UserVolume>)
    returns (e: seq<UserVolume>)
    requires DistinctNames(pool) && NoOverlap(start, pool) && Unique(scan) && Brings(start, d) && Within(d, pool)
    requires Midway(start, pool, scan, r, done, rest, start + NamesOf(d)) && rest != []
    requires Passes(start, pool, scan, r, rest[0], start + NamesOf(d))
    ensures var v, names := rest[0], start + NamesOf(d);
      && Brings(start, e) && Within(e, pool)
      && start + NamesOf(e) == (if Ready(v, names) then Attempt(names, v) else names)
      && Midway(start, pool, scan, r, done + [v], rest[1..], start + NamesOf(e))
  {
    assert rest[0] in pool by { assert (done + rest)[|done|] == rest[0]; }
    e := BringOrNot(start, pool, d, rest[0]);
    PassOnwards(start, pool, scan, r, done, rest, d, start + NamesOf(e));
  }

  lemma LoseInTurn(start: set<string>, pool: set<UserVolume>, scan: seq<UserVolume>, r: nat,
                   done: seq<UserVolume>, rest: seq<UserVolume>, d: seq<UserVolume>)
    requires DistinctNames(pool) && NoOverlap(start, pool) && Unique(scan) && Brings(start, d) && Within(d, pool)
    requires Midway(start, pool, scan, r, done, rest, start + NamesOf(d)) && rest != []
    requires !Passes(start, pool, scan, r, rest[0], start + NamesOf(d))
    ensures Lost(start, pool, scan, rest[0], Round(start + NamesOf(d), rest))
  {
    var names := start + NamesOf(d);
    InFrontOnce(scan, done, rest);
    NotYet(start, pool, scan, r, done, rest, names);
    TurnIsLevel(start, pool, scan, r, done, rest, names);
    AttemptInTurn(start, pool, scan, r, done, rest, d);
    forall u | u in rest ensures u in pool { assert u in done + rest; }
    LostInFront(start, pool, scan, names, rest);
  }

  /** What a round comes to: it followed the levels and the keys, or a volume got lost. */
  ghost predicate Outcome(start: set<string>, pool: set<UserVolume>, scan: seq<UserVolume>, r: nat,
                          done: seq<UserVolume>,
                          rest: seq<UserVolume>, after: (set<string>, seq<UserVolume>), lost: Option<UserVolume>) {
    match lost
    case None => Midway(start, pool, scan, r, done + rest, [], after.0) && InTurn(start, pool, scan, r, rest, after.1)
    case Some(x) => x in rest && Lost(start, pool, scan, x, after)
  }

  lemma OneMoreInTurn(start: set<string>, pool: set<UserVolume>, scan: seq<UserVolume>, r: nat, done: seq<UserVolume>,
                      rest: seq<UserVolume>, names: set<string>, lost: Option<UserVolume>)
    requires rest != [] && rest[0] !in rest[1..] && Passes(start, pool, scan, r, rest[0], names)
    requires var names' := if Ready(rest[0], names) then Attempt(names, rest[0]) else names;
      Outcome(start, pool, scan, r, done + [rest[0]], rest[1..], Round(names', rest[1..]), lost)
    ensures Outcome(start, pool, scan, r, done, rest, Round(names, rest), lost)
  {
    assert rest == [rest[0]] + rest[1..];
    assert done + rest == done + [rest[0]] + rest[1..];
  }

  /** A round either follows the levels and the keys, or loses a volume whose key is not in time. */
  lemma {:induction false} RoundInTurn(start: set<string>, pool: set<UserVolume>, scan: seq<UserVolume>, r: nat,
                                       done: seq<UserVolume>, rest: seq<UserVolume>, d: seq<UserVolume>)
    returns (lost: Option<UserVolume>)
    requires DistinctNames(pool) && NoOverlap(start, pool) && Unique(scan) && Brings(start, d) && Within(d, pool)
    requires Midway(start, pool, scan, r, done, rest, start + NamesOf(d))
    ensures Outcome(start, pool, scan, r, done, rest, Round(start + NamesOf(d), rest), lost)
    decreases |rest|
  {
    lost := None;
    if rest == [] {
      assert done + rest == done && [] == rest;
    } else {
      var names := start + NamesOf(d);
      if Passes(start, pool, scan, r, rest[0], names) {
        InFrontOnce(scan, done, rest);
        var e := PassInTurn(start, pool, scan, r, done, rest, d);
        lost := RoundInTurn(start, pool, scan, r, done + [rest[0]], rest[1..], e);
        OneMoreInTurn(start, pool, scan, r, done, rest, names, lost);
      } else {
        LoseInTurn(start, pool, scan, r, done, rest, d);
        lost := Some(rest[0]);
      }
    }
  }

  // ---------------------------------------------------------------- all rounds

  lemma {:induction false} RoundKeepsOrder(scan: seq<UserVolume>, names: set<string>, pending: seq<UserVolume>)
    requires Listed(scan, pending)
    ensures Listed(scan, Round(names, pending).1) && forall v :: v in Round(names, pending).1 ==> v in pending
    decreases |pending|
  {
    if pending != [] {
      var rest := pending[1..];
      assert pending == [pending[0]] + rest;
      RoundKeepsOrder(scan, Attempt(names, pending[0]), rest);
      RoundKeepsOrder(scan, names, rest);
      forall u | u in rest ensures Before(scan, pending[0], u) {
        var j :| 0 <= j < |rest| && rest[j] == u;
        assert pending[j + 1] == u;
      }
    }
  }

  lemma NextHad(start: set<string>, pool: set<UserVolume>, scan: seq<UserVolume>, r: nat, list: seq<UserVolume>,
                v: UserVolume)
    requires OnList(start, pool, scan, r, list) && v in pool
    ensures Had(start, pool, scan, r + 1, [], v) <==> Had(start, pool, scan, r, list, v)
  {
  }

  lemma NextRound(start: set<string>, pool: set<UserVolume>, scan: seq<UserVolume>, r: nat,
                  names: set<string>, pending: seq<UserVolume>)
    requires OnList(start, pool, scan, r, pending)
    requires Outcome(start, pool, scan, r, [], pending, Round(names, pending), None)
    ensures Midway(start, pool, scan, r + 1, [], Round(names, pending).1, Round(names, pending).0)
  {
    var next := Round(names, pending).1;
    assert [] + pending == pending && [] + next == next;
    RoundKeepsOrder(scan, names, pending);
    forall v | v in pool
      ensures Had(start, pool, scan, r + 1, [], v) <==> Had(start, pool, scan, r, pending, v)
      ensures Restorable(start, pool, v) ==> (v in next <==> !Had(start, pool, scan, r + 1, [], v))
    {
      NextHad(start, pool, scan, r, pending, v);
      if Restorable(start, pool, v) { RestorableIsRooted(start, pool, v); }
    }
  }

  /** What is lost stays lost in the rounds to come. */
  lemma LostStays(start: set<string>, pool: set<UserVolume>, scan: seq<UserVolume>, x: UserVolume,
                  names: set<string>, pending: seq<UserVolume>)
    requires DistinctNames(pool) && Within(pending, pool) && Lost(start, pool, scan, x, (names, pending))
    ensures Lost(start, pool, scan, x, Rounds(names, pending))
  {
    forall v | v in pending ensures v.name != x.name { assert v in pool; }
    NeverEnters(names, pending, x.name);
    RestoredGrows(names, pending);
    RoundsLeaveStuck(names, pending);
    StuckMembers(pending, Rounds(names, pending).0);
  }

  /** What all rounds come to. */
  ghost predicate AllInTurn(start: set<string>, pool: set<UserVolume>, scan: seq<UserVolume>, pending: seq<UserVolume>,
                            after: (set<string>, seq<UserVolume>), lost: Option<UserVolume>) {
    match lost
    case None =>
      forall v :: v in pending && Restorable(start, pool, v) ==>
        (InTime(start, pool, scan, v) && v.name in after.0) || v in after.1
    case Some(x) => Lost(start, pool, scan, x, after)
  }

  lemma FirstRoundThenRest(start: set<string>, pool: set<UserVolume>, scan: seq<UserVolume>, r: nat, names: set<string>,
                           pending: seq<UserVolume>, after: (set<string>, seq<UserVolume>), lost: Option<UserVolume>)
    requires Outcome(start, pool, scan, r, [], pending, Round(names, pending), None) && Within(pending, pool)
    requires Round(names, pending).0 <= after.0
    requires AllInTurn(start, pool, scan, Round(names, pending).1, after, lost)
    ensures AllInTurn(start, pool, scan, pending, after, lost)
  {
    assert [] + pending == pending;
    forall v | v in pending && Restorable(start, pool, v) && v !in Round(names, pending).1
      ensures InTime(start, pool, scan, v) && v.name in after.0
    {
      RestorableIsRooted(start, pool, v);
      var d := RestorableFits(start, pool, v);
      assert Had(start, pool, scan, r, pending, v);
    }
  }

  lemma {:induction false} RoundsInTurn(start: set<string>, pool: set<UserVolume>, scan: seq<UserVolume>, r: nat,
                                        pending: seq<UserVolume>, d: seq<UserVolume>)
    returns (lost: Option<UserVolume>)
    requires DistinctNames(pool) && NoOverlap(start, pool) && Unique(scan) && Brings(start, d) && Within(d, pool)
    requires Midway(start, pool, scan, r, [], pending, start + NamesOf(d))
    ensures AllInTurn(start, pool, scan, pending, Rounds(start + NamesOf(d), pending), lost)
    decreases |pending|
  {
    var names := start + NamesOf(d);
    var after := Round(names, pending);
    assert [] + pending == pending;
    lost := RoundInTurn(start, pool, scan, r, [], pending, d);
    var d' := RoundBrings(start, pool, d, pending);
    if lost.Some? {
      if after.1 != [] && |after.1| != |pending| { LostStays(start, pool, scan, lost.value, after.0, after.1); }
    } else if after.1 != [] && |after.1| != |pending| {
      NextRound(start, pool, scan, r, names, pending);
      lost := RoundsInTurn(start, pool, scan, r + 1, after.1, d');
      RoundsGrow(after.0, after.1);
      FirstRoundThenRest(start, pool, scan, r, names, pending, Rounds(names, pending), lost);
    } else {
      FirstRoundThenRest(start, pool, scan, r, names, pending, after, None);
    }
  }

  lemma ScanIsUnique(scan: seq<UserVolume>, pool: set<UserVolume>)
    requires Scans(scan, pool)
    ensures Unique(scan)
  {
    forall i, j | 0 <= i < j < |scan| ensures scan[i] != scan[j] {
      assert scan == scan[..j] + [scan[j]] + scan[j + 1..];
      assert scan[i] in scan[..j];
      assert multiset(scan)[scan[j]] <= 1;
    }
  }

  lemma FirstRound(start: set<string>, pool: set<UserVolume>, scan: seq<UserVolume>)
    requires Scans(scan, pool)
    ensures Midway(start, pool, scan, 0, [], scan, start)
  {
    ScanMembers(scan, pool);
    assert [] + scan == scan;
    forall i, j | 0 <= i < j < |scan| ensures Before(scan, scan[i], scan[j]) {}
  }

  /** The rounds restore everything restorable only if nothing restorable overlaps. */
  lemma AllReachedNoOverlap(start: set<string>, pool: set<UserVolume>, scan: seq<UserVolume>)
    requires DistinctNames(pool) && MutualRivals(pool) && Scans(scan, pool)
    requires Rounds(start, scan).0 == Reach(start, pool)
    ensures NoOverlap(start, pool)
  {
    ScanMembers(scan, pool);
    assert start + NamesOf([]) == start;
    var d := RoundsBring(start, pool, [], scan);
    BroughtIsExclusive(start, pool, d);
    forall u, v | u in pool && v in pool && Restorable(start, pool, u) && Restorable(start, pool, v)
      ensures u.name !in Rivals(v)
    {
      var e := RestorableFits(start, pool, v);
      assert u.name in Reach(start, pool) && v.name in Reach(start, pool);
    }
  }

  /** A scan restores everything restorable in its rounds exactly if no two restorable volumes overlap
      and the key of each is in place at the start or on a volume whose turn is earlier. */
  lemma ScanReachesAllIff(start: set<string>, pool: set<UserVolume>, scan: seq<UserVolume>)
    requires DistinctNames(pool) && MutualRivals(pool) && Scans(scan, pool)
    ensures Rounds(start, scan).0 == Reach(start, pool) <==>
              && NoOverlap(start, pool)
              && forall v :: v in pool && Restorable(start, pool, v) ==> InTime(start, pool, scan, v)
  {
    if Rounds(start, scan).0 == Reach(start, pool) { AllReachedNoOverlap(start, pool, scan); }
    if NoOverlap(start, pool) {
      ScanIsUnique(scan, pool);
      FirstRound(start, pool, scan);
      assert start + NamesOf([]) == start;
      var lost := RoundsInTurn(start, pool, scan, 0, scan, []);
      if lost.Some? {
        assert lost.value.name in Reach(start, pool);
      } else {
        AllOrStuck(start, pool, scan);
      }
    }
  }

  lemma AllOrStuck(start: set<string>, pool: set<UserVolume>, scan: seq<UserVolume>)
    requires Scans(scan, pool) && AllInTurn(start, pool, scan, scan, Rounds(start, scan), None)
    ensures Rounds(start, scan).0 == Reach(start, pool)
    ensures forall v :: v in pool && Restorable(start, pool, v) ==> InTime(start, pool, scan, v)
  {
    ScanMembers(scan, pool);
    RoundsWithinReach(start, pool, scan);
    RoundsLeaveStuck(start, scan);
    StuckMembers(scan, Rounds(start, scan).0);
    forall v | v in pool && Restorable(start, pool, v)
      ensures v.name in Rounds(start, scan).0 && InTime(start, pool, scan, v)
    {
      var d := RestorableFits(start, pool, v);
      BroughtIsRestorable(start, pool, d);
      NothingIsMissing(start, scan, d);
      NamesOfPrefix(d, |d| - 1);
      assert Ready(v, Rounds(start, scan).0);
    }
  }
}
