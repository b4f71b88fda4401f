/**
Restoring user volumes at start-up. A nested volume needs its source volume in the set first, so
the volumes are taken in rounds; what no round can reach is attempted once at the end.

The rounds wait for sources only. An encrypted volume also needs the volume that its key lives on,
and an attempt that fails for lack of it is not repeated.
*/
module VolumeRestore {
  import opened Wrappers
  import opened Text

  /** A stored user volume. `base` is the source volume its target names, if the target is nested;
      `wraps` tells whether its type is a wrapper type, the others ignore the source. `key` is the
      volume its secret lives on, if it has one. `rivals` are the user volumes off its own chain of
      sources that claim an overlapping region of the same disk. `opens` is everything else that
      decides whether its backend can be built. */
  datatype UserVolume = UserVolume(name: string, base: Option<string>, key: Option<string>, wraps: bool,
                                   rivals: set<string>, opens: bool)

  /** Trims slashes at both ends. */
  function TrimSlashes(s: string): string
    decreases |s|
  {
    if s != [] && s[0] == '/' then TrimSlashes(s[1..])
    else if s != [] && s[|s| - 1] == '/' then TrimSlashes(s[..|s| - 1])
    else s
  }

  /** The source volume of a nested target `<volume>/<path>`. */
  function ParseNestedTarget(target: string): Option<string> {
    var t := TrimSpace(target);
    var i := Find(t, '/');
    if i == 0 || |t| <= i + 1 || TrimSlashes(t[i + 1..]) == "" then None else Some(t[..i])
  }

  /** `v` becomes an enclosure on its source. */
  predicate Nested(v: UserVolume) { v.wraps && v.base.Some? }

  /** The volumes that have to be in the set for an attempt to succeed. */
  function Needs(v: UserVolume): set<string> {
    (if Nested(v) then {v.base.value} else {}) + (if v.key.Some? then {v.key.value} else {})
  }

  /** The volumes that must not be. */
  function Rivals(v: UserVolume): set<string> { if Nested(v) then v.rivals else {} }

  /** The source of `v`, if its target names one, is among the names. This is all a round waits for. */
  predicate Ready(v: UserVolume, names: set<string>) {
    v.base.Some? ==> v.base.value in names
  }

  /** An attempt to restore `v` next to the given volumes succeeds. */
  predicate Attaches(v: UserVolume, names: set<string>) {
    v.opens && v.name != "" && v.name !in names && Needs(v) <= names && Rivals(v) !! names
  }

  function Attempt(names: set<string>, v: UserVolume): set<string> {
    if Attaches(v, names) then names + {v.name} else names
  }

  /** The names after attempting the volumes one after the other. */
  function AttemptAll(names: set<string>, vols: seq<UserVolume>): set<string>
    decreases |vols|
  {
    if vols == [] then names else AttemptAll(Attempt(names, vols[0]), vols[1..])
  }

  /** The names after one round, and the volumes it leaves for later. */
  function Round(names: set<string>, pending: seq<UserVolume>): (r: (set<string>, seq<UserVolume>))
    ensures |r.1| <= |pending|
    decreases |pending|
  {
    if pending == [] then (names, [])
    else if Ready(pending[0], names) then Round(Attempt(names, pending[0]), pending[1..])
    else
      var r := Round(names, pending[1..]);
      (r.0, [pending[0]] + r.1)
  }

  /** The same after all rounds: until nothing is left or a round attempts nothing. */
  function Rounds(names: set<string>, pending: seq<UserVolume>): (set<string>, seq<UserVolume>)
    decreases |pending|
  {
    var r := Round(names, pending);
    if r.1 == [] || |r.1| == |pending| then r else Rounds(r.0, r.1)
  }

  /** What restoring the volumes of a scan leaves in the set. */
  function Restored(start: set<string>, uvs: seq<UserVolume>): set<string> {
    var r := Rounds(start, uvs);
    AttemptAll(r.0, r.1)
  }

  /** The volumes whose source is not among the names, in order. */
  function Stuck(uvs: seq<UserVolume>, names: set<string>): seq<UserVolume>
    decreases |uvs|
  {
    if uvs == [] then []
    else if Ready(uvs[0], names) then Stuck(uvs[1..], names)
    else [uvs[0]] + Stuck(uvs[1..], names)
  }

  // ---------------------------------------------------------------- the set and the worklist

  /** The registry's set of volumes, with a record of the restoring attempts: all of them, and those
      made while the source was missing. */
  class VolumeSet {
    var volumes: seq<string>
    ghost var attempted: multiset<UserVolume>
    ghost var premature: multiset<UserVolume>
    ghost var names: set<string>

    ghost predicate Valid()
      reads this
    {
      forall n :: n in names <==> n in volumes
    }

    constructor (volumes: seq<string>)
      ensures Valid() && this.volumes == volumes && attempted == premature == multiset{}
    {
      this.volumes, attempted, premature := volumes, multiset{}, multiset{};
      names := set n | n in volumes;
    }

    method ByName(name: string) returns (found: bool)
      requires Valid()
      ensures found <==> name in names
    {
      var i := 0;
      while i < |volumes|
        invariant 0 <= i <= |volumes| && name !in volumes[..i]
      {
        if volumes[i] == name { return true; }
        i := i + 1;
      }
      return false;
    }

    /** Whether no volume of the set claims an overlapping region. */
    method FootprintIsFree(v: UserVolume) returns (free: bool)
      requires Valid()
      ensures free <==> v.rivals !! names
    {
      var i := 0;
      while i < |volumes|
        invariant 0 <= i <= |volumes| && forall n :: n in volumes[..i] ==> n !in v.rivals
      {
        if volumes[i] in v.rivals { return false; }
        i := i + 1;
      }
      return true;
    }

    method AddExternalVolume(name: string) returns (ok: bool)
      requires Valid()
      modifies this`volumes, this`names
      ensures Valid()
      ensures ok <==> name != "" && name !in old(names)
      ensures volumes == if ok then old(volumes) + [name] else old(volumes)
      ensures names == if ok then old(names) + {name} else old(names)
    {
      if name == "" { return false; }
      var dup := ByName(name);
      if dup { return false; }
      volumes := volumes + [name];
      names := names + {name};
      return true;
    }

    method RestoreOne(v: UserVolume) returns (ok: bool)
      requires Valid()
      modifies this
      ensures Valid()
      ensures attempted == old(attempted) + multiset{v}
      ensures premature == old(premature) + if Ready(v, old(names)) then multiset{} else multiset{v}
      ensures ok <==> Attaches(v, old(names))
      ensures names == Attempt(old(names), v)
    {
      attempted := attempted + multiset{v};
      premature := premature + if Ready(v, names) then multiset{} else multiset{v};
      if v.wraps && v.base.Some? {
        var found := ByName(v.base.value);
        if !found { return false; }
        var free := FootprintIsFree(v);
        if !free { return false; }
      }
      if v.key.Some? {
        var found := ByName(v.key.value);
        if !found { return false; }
      }
      if !v.opens { return false; }
      ok := AddExternalVolume(v.name);
    }
  }

  /** One round: attempts what is ready, leaves the rest for later. */
  method RestoreReadyRound(vset: VolumeSet, pending: seq<UserVolume>) returns (next: seq<UserVolume>, progress: bool)
    requires vset.Valid()
    modifies vset
    ensures vset.Valid() && (vset.names, next) == Round(old(vset.names), pending)
    ensures vset.attempted + multiset(next) == old(vset.attempted) + multiset(pending)
    ensures vset.premature == old(vset.premature)
    ensures progress <==> |next| < |pending|
  {
    next, progress := [], false;
    ghost var tried := multiset{};
    var i := 0;
    NoneThrough(vset.names, pending);
    while i < |pending|
      invariant 0 <= i && vset.Valid() && vset.premature == old(vset.premature)
      invariant Underway(old(vset.names), pending, i, vset.names, next, tried)
      invariant vset.attempted == old(vset.attempted) + tried
      invariant progress <==> |next| < i
    {
      OneFurther(old(vset.names), pending, i, vset.names, next, tried);
      tried := if Ready(pending[i], vset.names) then tried + multiset{pending[i]} else tried;
      next, progress := TakeOrDefer(vset, pending[i], next, progress);
      i := i + 1;
    }
    AllThrough(old(vset.names), pending, vset.names, next, tried, old(vset.attempted));
  }

  /** The first `i` volumes of a round that began with `start` have been tried or put off. */
  ghost predicate Underway(start: set<string>, pending: seq<UserVolume>, i: nat,
                           names: set<string>, next: seq<UserVolume>, tried: multiset<UserVolume>) {
    && |next| <= i <= |pending|
    && RoundWith(names, pending[i..], next) == Round(start, pending)
    && tried + multiset(next) == multiset(pending[..i])
  }

  lemma OneFurther(start: set<string>, pending: seq<UserVolume>, i: nat,
                   names: set<string>, next: seq<UserVolume>, tried: multiset<UserVolume>)
    requires Underway(start, pending, i, names, next, tried) && i < |pending|
    ensures var v := pending[i];
      if Ready(v, names) then Underway(start, pending, i + 1, Attempt(names, v), next, tried + multiset{v})
      else Underway(start, pending, i + 1, names, next + [v], tried)
  {
    assert pending[..i + 1] == pending[..i] + [pending[i]];
    assert pending[i..][1..] == pending[i + 1..];
    RoundFrom(names, pending[i..], next);
  }

  lemma NoneThrough(start: set<string>, pending: seq<UserVolume>)
    ensures Underway(start, pending, 0, start, [], multiset{})
  {
    assert pending[0..] == pending;
    RoundFrom(start, pending, []);
  }

  lemma AllThrough(start: set<string>, pending: seq<UserVolume>, names: set<string>, next: seq<UserVolume>,
                   tried: multiset<UserVolume>, earlier: multiset<UserVolume>)
    requires Underway(start, pending, |pending|, names, next, tried)
    ensures (names, next) == Round(start, pending)
    ensures earlier + tried + multiset(next) == earlier + multiset(pending)
  {
    assert pending[..|pending|] == pending;
    RoundFrom(names, [], next);
  }

  /** The body of the round's loop. */
  method TakeOrDefer(vset: VolumeSet, v: UserVolume, next: seq<UserVolume>, progress: bool)
    returns (next': seq<UserVolume>, progress': bool)
    requires vset.Valid()
    modifies vset
    ensures vset.Valid() && vset.premature == old(vset.premature)
    ensures vset.names == if Ready(v, old(vset.names)) then Attempt(old(vset.names), v) else old(vset.names)
    ensures next' == if Ready(v, old(vset.names)) then next else next + [v]
    ensures vset.attempted == old(vset.attempted) + if Ready(v, old(vset.names)) then multiset{v} else multiset{}
    ensures progress' == (progress || Ready(v, old(vset.names)))
  {
    if v.base.Some? {
      var ready := vset.ByName(v.base.value);
      if !ready { return next + [v], progress; }
    }
    var ok := vset.RestoreOne(v);
    return next, true;
  }

  /** The round's outcome when `next` was put off earlier. */
  function RoundWith(names: set<string>, rest: seq<UserVolume>, next: seq<UserVolume>): (set<string>, seq<UserVolume>) {
    var r := Round(names, rest);
    (r.0, next + r.1)
  }

  lemma RoundFrom(names: set<string>, rest: seq<UserVolume>, next: seq<UserVolume>)
    ensures next == [] ==> RoundWith(names, rest, next) == Round(names, rest)
    ensures rest == [] ==> RoundWith(names, rest, next) == (names, next)
    ensures rest != [] && Ready(rest[0], names) ==>
              RoundWith(names, rest, next) == RoundWith(Attempt(names, rest[0]), rest[1..], next)
    ensures rest != [] && !Ready(rest[0], names) ==>
              RoundWith(names, rest, next) == RoundWith(names, rest[1..], next + [rest[0]])
  {
    var r := Round(names, rest);
    assert [] + r.1 == r.1;
    if rest == [] {
      assert next + [] == next;
    } else if !Ready(rest[0], names) {
      var tail := Round(names, rest[1..]).1;
      assert next + ([rest[0]] + tail) == (next + [rest[0]]) + tail;
    }
  }

  /** Every volume is attempted exactly once, none before its source except in the final pass, which
      takes what the rounds leave stuck, in scan order. */
  method RestoreUserVolumes(vset: VolumeSet, uvs: seq<UserVolume>)
    requires vset.Valid() && vset.attempted == vset.premature == multiset{}
    modifies vset
    ensures vset.Valid() && vset.names == Restored(old(vset.names), uvs)
    ensures vset.attempted == multiset(uvs)
    ensures vset.premature <= multiset(Stuck(uvs, Rounds(old(vset.names), uvs).0))
  {
    var pending := uvs;
    ghost var start := vset.names;
    RoundsLeaveStuck(start, uvs);
    while true
      invariant vset.Valid() && Rounds(vset.names, pending) == Rounds(start, uvs)
      invariant vset.attempted + multiset(pending) == multiset(uvs)
      invariant vset.premature == multiset{}
      decreases |pending|
    {
      var next, progress := RestoreReadyRound(vset, pending);
      if |next| == 0 { return; }
      if !progress {
        FinalPass(vset, next);
        return;
      }
      pending := next;
    }
  }

  /** The last pass over what no round could reach. */
  method FinalPass(vset: VolumeSet, next: seq<UserVolume>)
    requires vset.Valid()
    modifies vset
    ensures vset.Valid()
    ensures vset.attempted == old(vset.attempted) + multiset(next)
    ensures vset.premature <= old(vset.premature) + multiset(next)
    ensures vset.names == AttemptAll(old(vset.names), next)
  {
    var i := 0;
    assert next[i..] == next && next[..i] == [];
    while i < |next|
      invariant 0 <= i <= |next| && vset.Valid()
      invariant vset.attempted == old(vset.attempted) + multiset(next[..i])
      invariant vset.premature <= old(vset.premature) + multiset(next[..i])
      invariant AttemptAll(vset.names, next[i..]) == AttemptAll(old(vset.names), next)
    {
      assert next[i..] == [next[i]] + next[i + 1..];
      assert next[..i + 1] == next[..i] + [next[i]];
      var ok := vset.RestoreOne(next[i]);
      i := i + 1;
    }
    assert next[..i] == next;
  }

  // ---------------------------------------------------------------- what the rounds leave

  lemma {:induction false} RoundGrows(names: set<string>, pending: seq<UserVolume>)
    ensures names <= Round(names, pending).0
    decreases |pending|
  {
    if pending != [] {
      RoundGrows(Attempt(names, pending[0]), pending[1..]);
      RoundGrows(names, pending[1..]);
    }
  }

  /** A round drops only what stays ready. */
  lemma {:induction false} RoundKeepsStuck(names: set<string>, pending: seq<UserVolume>, larger: set<string>)
    requires Round(names, pending).0 <= larger
    ensures Stuck(pending, larger) == Stuck(Round(names, pending).1, larger)
    decreases |pending|
  {
    if pending != [] {
      RoundGrows(names, pending);
      if Ready(pending[0], names) {
        RoundKeepsStuck(Attempt(names, pending[0]), pending[1..], larger);
      } else {
        var rest := Round(names, pending[1..]).1;
        RoundKeepsStuck(names, pending[1..], larger);
        assert ([pending[0]] + rest)[1..] == rest;
      }
    }
  }

  /** A round that attempts nothing leaves everything as it is, and nothing in it is ready. */
  lemma {:induction false} IdleRound(names: set<string>, pending: seq<UserVolume>)
    requires |Round(names, pending).1| == |pending|
    ensures Round(names, pending) == (names, pending) && Stuck(pending, names) == pending
    decreases |pending|
  {
    if pending != [] {
      assert !Ready(pending[0], names);
      IdleRound(names, pending[1..]);
      assert pending == [pending[0]] + pending[1..];
    }
  }

  lemma {:induction false} RoundsGrow(names: set<string>, pending: seq<UserVolume>)
    ensures names <= Rounds(names, pending).0
    decreases |pending|
  {
    var r := Round(names, pending);
    RoundGrows(names, pending);
    if r.1 != [] && |r.1| != |pending| { RoundsGrow(r.0, r.1); }
  }

  /** What is left after the rounds is what then lacks its source. */
  lemma {:induction false} RoundsLeaveStuck(names: set<string>, pending: seq<UserVolume>)
    ensures Rounds(names, pending).1 == Stuck(pending, Rounds(names, pending).0)
    decreases |pending|
  {
    var r := Round(names, pending);
    if r.1 == [] {
      RoundKeepsStuck(names, pending, r.0);
    } else if |r.1| == |pending| {
      IdleRound(names, pending);
    } else {
      RoundsGrow(r.0, r.1);
      RoundKeepsStuck(names, pending, Rounds(r.0, r.1).0);
      RoundsLeaveStuck(r.0, r.1);
    }
  }

  lemma {:induction false} TrimmedSlashes(s: string)
    ensures TrimSlashes(s) == "" <==> forall k :: 0 <= k < |s| ==> s[k] == '/'
    decreases |s|
  {
    if s != [] && s[0] == '/' {
      TrimmedSlashes(s[1..]);
      assert forall k :: 0 < k < |s| ==> s[k] == s[1..][k - 1];
    } else if s != [] && s[|s| - 1] == '/' {
      TrimmedSlashes(s[..|s| - 1]);
      assert forall k :: 0 <= k < |s| - 1 ==> s[k] == s[..|s| - 1][k];
    }
  }

  /** A target is nested exactly if it is, apart from white space around it, a volume without slashes,
      a slash, and something that does not consist of slashes only; then it names that volume. */
  lemma NestedTargetIff(target: string, vol: string)
    ensures ParseNestedTarget(target) == Some(vol) <==>
              vol != "" && '/' !in vol &&
              exists path :: TrimSpace(target) == vol + "/" + path && (exists k :: 0 <= k < |path| && path[k] != '/')
  {
    var t := TrimSpace(target);
    var i := Find(t, '/');
    if i + 1 < |t| {
      TrimmedSlashes(t[i + 1..]);
      assert t == t[..i] + "/" + t[i + 1..];
    }
    if path :| t == vol + "/" + path && (exists k :: 0 <= k < |path| && path[k] != '/') {
      if '/' !in vol {
        FindAfter(vol, '/', path);
        assert t == vol + ['/'] + path && t[|vol| + 1..] == path && t[..|vol|] == vol;
      }
    }
  }
}
