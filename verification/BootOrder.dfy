/**
The boot order of the encrypted volumes: first the secretdata volumes whose key does not live on an
enclosure, then the enclosures, sources before what encloses them, then the remaining secretdata
volumes. The first volume that cannot be built ends the boot.
*/
module BootOrder {
  import opened Wrappers
  import opened StableSort

  datatype Kind = Local | Secretdata | Other

  /** A configured volume. An enclosure names its `source`. `key` is the volume that the secret URL
      names explicitly; there is none if the URL is missing, invalid, or points at the default bucket
      of an owner, which does not exist while booting. `sound` is false when anything else about the
      construction fails. */
  datatype Volume = Volume(name: string, kind: Kind, source: Option<string>, key: Option<string>, sound: bool)

  /** The volumes in their order of declaration; `layoutOk` is false when the claims of the
      enclosures conflict. */
  datatype Config = Config(volumes: seq<Volume>, layoutOk: bool)

  const MAX_NESTING: nat := 8

  function ByName(volumes: seq<Volume>, name: string): (v: Option<Volume>)
    ensures v.Some? ==> v.value in volumes && v.value.name == name
    ensures v.None? ==> forall w :: w in volumes ==> w.name != name
    decreases |volumes|
  {
    if volumes == [] then None else if volumes[0].name == name then Some(volumes[0]) else ByName(volumes[1..], name)
  }

  ghost predicate Distinct(volumes: seq<Volume>) {
    forall i, j :: 0 <= i < j < |volumes| ==> volumes[i].name != volumes[j].name
  }

  predicate IsDeclared(v: Volume) { v.source.Some? }

  /** The key lives on an enclosure, as far as the configuration tells. */
  predicate RefsEnclosure(volumes: seq<Volume>, v: Volume) {
    v.key.Some? && ByName(volumes, v.key.value).Some? && IsDeclared(ByName(volumes, v.key.value).value)
  }

  /** A source is available when its root is open or its back end is in place. */
  predicate SourceReady(volumes: seq<Volume>, attached: set<string>, name: string) {
    ByName(volumes, name).Some? && (ByName(volumes, name).value.kind.Local? || name in attached)
  }

  /** What building the back end of a volume needs at that moment. */
  predicate Builds(volumes: seq<Volume>, attached: set<string>, v: Volume) {
    && v.sound
    && (v.source.Some? ==> SourceReady(volumes, attached, v.source.value))
    && (v.kind.Secretdata? ==> v.key.Some? && v.key.value in attached)
  }

  // ---------------------------------------------------------------- the order of the enclosures

  /** How many enclosures lie below an enclosure, if no more than allowed; a cycle has no answer. */
  function Depth(volumes: seq<Volume>, v: Volume, fuel: nat): Option<nat>
    requires IsDeclared(v)
    decreases fuel
  {
    var below := ByName(volumes, v.source.value);
    if below.None? || !IsDeclared(below.value) then Some(0)
    else if fuel == 0 then None
    else
      var d := Depth(volumes, below.value, fuel - 1);
      if d.None? then None else Some(d.value + 1)
  }

  function DepthOf(volumes: seq<Volume>, v: Volume): nat {
    if IsDeclared(v) && Depth(volumes, v, MAX_NESTING - 1).Some? then Depth(volumes, v, MAX_NESTING - 1).value else 0
  }

  function Shallower(volumes: seq<Volume>): (Volume, Volume) -> bool {
    (a, b) => DepthOf(volumes, a) < DepthOf(volumes, b)
  }

  function Select(volumes: seq<Volume>, keep: Volume -> bool): (r: seq<Volume>)
    ensures forall v :: v in r <==> v in volumes && keep(v)
    decreases |volumes|
  {
    if volumes == [] then []
    else (if keep(volumes[0]) then [volumes[0]] else []) + Select(volumes[1..], keep)
  }

  predicate WellDeclared(volumes: seq<Volume>, v: Volume) {
    IsDeclared(v) ==>
      v.source != Some(v.name) && ByName(volumes, v.source.value).Some? && Depth(volumes, v, MAX_NESTING - 1).Some?
  }

  /** The enclosures, sources first, or nothing if a declaration is not acceptable. */
  function Parse(config: Config): Option<seq<Volume>> {
    var volumes := config.volumes;
    if config.layoutOk && forall v :: v in volumes ==> WellDeclared(volumes, v)
    then Some(Sorted(Shallower(volumes), Select(volumes, (v: Volume) => IsDeclared(v))))
    else None
  }

  // ---------------------------------------------------------------- the boot

  /** The back ends in place, the volumes that a construction was attempted for, in order, and
      whether all of them succeeded. */
  datatype Progress = Progress(attached: set<string>, attempts: seq<string>, ok: bool)

  function Attach(volumes: seq<Volume>, p: Progress, v: Volume): Progress {
    if !p.ok || v.name in p.attached then p
    else if Builds(volumes, p.attached, v) then Progress(p.attached + {v.name}, p.attempts + [v.name], true)
    else Progress(p.attached, p.attempts + [v.name], false)
  }

  function AttachEach(volumes: seq<Volume>, p: Progress, todo: seq<Volume>): Progress
    decreases |todo|
  {
    if todo == [] then p else AttachEach(volumes, Attach(volumes, p, todo[0]), todo[1..])
  }

  /** The volumes of one of the two secretdata rounds. */
  function Round(volumes: seq<Volume>, afterEnclosures: bool): seq<Volume> {
    Select(volumes, InRound(volumes, afterEnclosures))
  }

  function InRound(volumes: seq<Volume>, afterEnclosures: bool): Volume -> bool {
    (v: Volume) => v.kind.Secretdata? && !IsDeclared(v) && RefsEnclosure(volumes, v) == afterEnclosures
  }

  function Boot(config: Config, attached: set<string>): Progress {
    var first := AttachEach(config.volumes, Progress(attached, [], true), Round(config.volumes, false));
    if !first.ok then first
    else if Parse(config).None? then first.(ok := false)
    else
      var second := AttachEach(config.volumes, first, Parse(config).value);
      AttachEach(config.volumes, second, Round(config.volumes, true))
  }

  class VolumeSet {
    const config: Config
    var attached: set<string>
    var attempts: seq<string>

    constructor (config: Config, attached: set<string>)
      ensures this.config == config && this.attached == attached && attempts == []
    {
      this.config, this.attached, attempts := config, attached, [];
    }

    ghost function Now(ok: bool): Progress reads this { Progress(attached, attempts, ok) }

    method AttachOne(v: Volume) returns (ok: bool)
      modifies this
      ensures Now(ok) == Attach(config.volumes, old(Now(true)), v)
    {
      if v.name in attached { return true; }
      attempts := attempts + [v.name];
      if !Builds(config.volumes, attached, v) { return false; }
      attached := attached + {v.name};
      return true;
    }

    /** One round over all volumes, skipping what is in place, what is an enclosure and what belongs
        to the other round. */
    method AttachSecretdataVolumes(afterEnclosures: bool) returns (ok: bool)
      modifies this
      ensures Now(ok) == AttachEach(config.volumes, old(Now(true)), Round(config.volumes, afterEnclosures))
    {
      var volumes := config.volumes;
      ghost var keep := InRound(volumes, afterEnclosures);
      ghost var result := AttachEach(volumes, Now(true), Select(volumes, keep));
      var i := 0;
      while i < |volumes|
        invariant 0 <= i <= |volumes|
        invariant AttachEach(volumes, Now(true), Select(volumes[i..], keep)) == result
      {
        var v := volumes[i];
        ghost var rest := Select(volumes[i + 1..], keep);
        AttachNext(volumes, Now(true), i, keep);
        if v.kind.Secretdata? && v.name !in attached && !IsDeclared(v) && RefsEnclosure(volumes, v) == afterEnclosures {
          ok := AttachOne(v);
          if !ok {
            AttachNone(volumes, Now(false), rest);
            return false;
          }
        }
        i := i + 1;
      }
      return true;
    }

    method AttachAll() returns (ok: bool)
      modifies this
      ensures Parse(config).None? ==> !ok && Now(true) == old(Now(true))
      ensures Parse(config).Some? ==> Now(ok) == AttachEach(config.volumes, old(Now(true)), Parse(config).value)
    {
      var decls := Parse(config);
      if decls.None? { return false; }
      var todo := decls.value;
      var i := 0;
      while i < |todo|
        invariant 0 <= i <= |todo|
        invariant AttachEach(config.volumes, Now(true), todo[i..]) == AttachEach(config.volumes, old(Now(true)), todo)
      {
        assert todo[i..][0] == todo[i] && todo[i..][1..] == todo[i + 1..];
        ok := AttachOne(todo[i]);
        if !ok {
          AttachNone(config.volumes, Now(false), todo[i + 1..]);
          return false;
        }
        i := i + 1;
      }
      return true;
    }

    /** The steps in their order; each error ends the boot. */
    method BootVolumes() returns (ok: bool)
      requires attempts == []
      modifies this
      ensures Now(ok) == Boot(config, old(attached))
    {
      ok := AttachSecretdataVolumes(false);
      if !ok { return false; }
      ok := AttachAll();
      if !ok {
        if Parse(config).Some? { AttachNone(config.volumes, Now(false), Round(config.volumes, true)); }
        return false;
      }
      ok := AttachSecretdataVolumes(true);
    }
  }

  lemma SelectFirst(volumes: seq<Volume>, i: nat, keep: Volume -> bool)
    requires i < |volumes|
    ensures keep(volumes[i]) ==> Select(volumes[i..], keep) == [volumes[i]] + Select(volumes[i + 1..], keep)
    ensures !keep(volumes[i]) ==> Select(volumes[i..], keep) == Select(volumes[i + 1..], keep)
  {
    assert volumes[i..][0] == volumes[i] && volumes[i..][1..] == volumes[i + 1..];
    assert [] + Select(volumes[i + 1..], keep) == Select(volumes[i + 1..], keep);
  }

  lemma AttachFirst(volumes: seq<Volume>, p: Progress, v: Volume, rest: seq<Volume>)
    ensures AttachEach(volumes, p, [v] + rest) == AttachEach(volumes, Attach(volumes, p, v), rest)
  {
    assert ([v] + rest)[1..] == rest;
  }

  /** One volume further in a round. */
  lemma AttachNext(volumes: seq<Volume>, p: Progress, i: nat, keep: Volume -> bool)
    requires i < |volumes|
    ensures var v, rest := volumes[i], Select(volumes[i + 1..], keep);
      AttachEach(volumes, p, Select(volumes[i..], keep)) ==
      AttachEach(volumes, if keep(v) && v.name !in p.attached then Attach(volumes, p, v) else p, rest)
  {
    SelectFirst(volumes, i, keep);
    AttachFirst(volumes, p, volumes[i], Select(volumes[i + 1..], keep));
  }

  lemma {:induction false} AttachNone(volumes: seq<Volume>, p: Progress, todo: seq<Volume>)
    requires !p.ok
    ensures AttachEach(volumes, p, todo) == p
    decreases |todo|
  {
    if todo != [] { AttachNone(volumes, p, todo[1..]); }
  }

  // ---------------------------------------------------------------- soundness

  function SetOf(names: seq<string>): set<string> { set x | x in names }

  function Names(todo: seq<Volume>): set<string> { set v | v in todo :: v.name }

  lemma {:induction false} ByNameIs(volumes: seq<Volume>, v: Volume)
    requires Distinct(volumes) && v in volumes
    ensures ByName(volumes, v.name) == Some(v)
    decreases |volumes|
  {
    if volumes[0] != v {
      var i :| 0 <= i < |volumes| && volumes[i] == v;
      assert volumes[0].name != volumes[i].name;
      assert volumes[1..][i - 1] == v;
      ByNameIs(volumes[1..], v);
    }
  }

  /** The k-th construction had what it needs from the back ends in place at the start and from the
      volumes constructed before it. */
  ghost predicate BuiltAt(volumes: seq<Volume>, attached0: set<string>, attempts: seq<string>, k: nat)
    requires k < |attempts|
  {
    ByName(volumes, attempts[k]).Some? &&
    Builds(volumes, attached0 + SetOf(attempts[..k]), ByName(volumes, attempts[k]).value)
  }

  /** Nothing was attempted twice or without need. */
  ghost predicate AttemptedOnce(attached0: set<string>, attempts: seq<string>) {
    && (forall k, l :: 0 <= k < l < |attempts| ==> attempts[k] != attempts[l])
    && (forall k :: 0 <= k < |attempts| ==> attempts[k] !in attached0)
  }

  ghost predicate AllBuilt(volumes: seq<Volume>, attached0: set<string>, attempts: seq<string>, n: int)
    requires n <= |attempts|
  {
    forall k :: 0 <= k < n ==> BuiltAt(volumes, attached0, attempts, k)
  }

  /** Everything attempted was attempted once and built, except that a failed boot may have failed at
      its last attempt. */
  ghost predicate Sound(volumes: seq<Volume>, attached0: set<string>, p: Progress) {
    && AttemptedOnce(attached0, p.attempts)
    && AllBuilt(volumes, attached0, p.attempts, |p.attempts| - 1)
    && (p.ok ==> AllBuilt(volumes, attached0, p.attempts, |p.attempts|) && p.attached == attached0 + SetOf(p.attempts))
  }

  lemma OneMoreAttempt(attached0: set<string>, attempts: seq<string>, name: string)
    requires AttemptedOnce(attached0, attempts) && name !in attached0 && name !in SetOf(attempts)
    ensures AttemptedOnce(attached0, attempts + [name])
  {
    forall k | 0 <= k < |attempts| ensures attempts[k] != name { assert attempts[k] in SetOf(attempts); }
  }

  /** A further attempt changes nothing about the earlier ones. */
  lemma AllBuiltOfLonger(volumes: seq<Volume>, attached0: set<string>, attempts: seq<string>, name: string)
    requires AllBuilt(volumes, attached0, attempts, |attempts|)
    ensures AllBuilt(volumes, attached0, attempts + [name], |attempts|)
  {
    var longer := attempts + [name];
    forall k | 0 <= k < |attempts| ensures BuiltAt(volumes, attached0, longer, k) {
      assert BuiltAt(volumes, attached0, attempts, k);
      assert longer[..k] == attempts[..k];
    }
  }

  lemma BuiltAtEnd(volumes: seq<Volume>, attached0: set<string>, attempts: seq<string>, v: Volume)
    requires Distinct(volumes) && v in volumes && Builds(volumes, attached0 + SetOf(attempts), v)
    ensures BuiltAt(volumes, attached0, attempts + [v.name], |attempts|)
  {
    ByNameIs(volumes, v);
    assert (attempts + [v.name])[..|attempts|] == attempts;
  }

  lemma SetOfSnoc(names: seq<string>, name: string)
    ensures SetOf(names + [name]) == SetOf(names) + {name}
  {
  }

  lemma AttachIsSound(volumes: seq<Volume>, attached0: set<string>, p: Progress, v: Volume)
    requires Distinct(volumes) && v in volumes && Sound(volumes, attached0, p)
    ensures Sound(volumes, attached0, Attach(volumes, p, v))
  {
    if p.ok && v.name !in p.attached {
      OneMoreAttempt(attached0, p.attempts, v.name);
      AllBuiltOfLonger(volumes, attached0, p.attempts, v.name);
      SetOfSnoc(p.attempts, v.name);
      if Builds(volumes, p.attached, v) { BuiltAtEnd(volumes, attached0, p.attempts, v); }
    }
  }

  lemma {:induction false} EachIsSound(volumes: seq<Volume>, attached0: set<string>, p: Progress, todo: seq<Volume>)
    requires Distinct(volumes) && Sound(volumes, attached0, p) && forall v :: v in todo ==> v in volumes
    ensures Sound(volumes, attached0, AttachEach(volumes, p, todo))
    decreases |todo|
  {
    if todo != [] {
      AttachIsSound(volumes, attached0, p, todo[0]);
      EachIsSound(volumes, attached0, Attach(volumes, p, todo[0]), todo[1..]);
    }
  }

  lemma {:induction false} EachAttaches(volumes: seq<Volume>, p: Progress, todo: seq<Volume>)
    ensures var r := AttachEach(volumes, p, todo);
      && p.attached <= r.attached <= p.attached + Names(todo)
      && (r.ok ==> p.ok && r.attached == p.attached + Names(todo))
    decreases |todo|
  {
    if todo != [] {
      EachAttaches(volumes, Attach(volumes, p, todo[0]), todo[1..]);
      assert Names(todo) == {todo[0].name} + Names(todo[1..]);
    }
  }

  /** The volumes that the boot has to put in place. */
  predicate Deferred(v: Volume) { v.kind.Secretdata? || IsDeclared(v) }

  lemma DeclaredInOrder(config: Config)
    requires Parse(config).Some?
    ensures forall v :: v in Parse(config).value <==> v in config.volumes && IsDeclared(v)
  {
    SortedIsPermutation(Shallower(config.volumes), Select(config.volumes, (v: Volume) => IsDeclared(v)));
  }

  function Plan(config: Config): seq<Volume>
    requires Parse(config).Some?
  {
    Round(config.volumes, false) + Parse(config).value + Round(config.volumes, true)
  }

  lemma PlanIsDeferred(config: Config, v: Volume)
    requires Parse(config).Some?
    ensures v in Plan(config) <==> v in config.volumes && Deferred(v)
  {
    DeclaredInOrder(config);
  }

  lemma {:induction false} EachConcat(volumes: seq<Volume>, p: Progress, a: seq<Volume>, b: seq<Volume>)
    ensures AttachEach(volumes, p, a + b) == AttachEach(volumes, AttachEach(volumes, p, a), b)
    decreases |a|
  {
    if a == [] {
      assert a + b == b;
    } else {
      assert (a + b)[1..] == a[1..] + b;
      EachConcat(volumes, Attach(volumes, p, a[0]), a[1..], b);
    }
  }

  /** The four steps are one pass over one plan. */
  lemma BootFollowsPlan(config: Config, attached0: set<string>)
    requires Parse(config).Some?
    ensures Boot(config, attached0) == AttachEach(config.volumes, Progress(attached0, [], true), Plan(config))
  {
    var volumes := config.volumes;
    var start := Progress(attached0, [], true);
    var first := AttachEach(volumes, start, Round(volumes, false));
    EachConcat(volumes, start, Round(volumes, false) + Parse(config).value, Round(volumes, true));
    EachConcat(volumes, start, Round(volumes, false), Parse(config).value);
    if !first.ok {
      AttachNone(volumes, first, Parse(config).value);
      AttachNone(volumes, first, Round(volumes, true));
    }
  }

  /** Every volume is attempted at most once, successful or not, and each but a last failing one
      after its source and its key were in place. */
  lemma BootIsSound(config: Config, attached0: set<string>)
    requires Distinct(config.volumes)
    ensures Sound(config.volumes, attached0, Boot(config, attached0))
  {
    var volumes := config.volumes;
    var start := Progress(attached0, [], true);
    assert attached0 + SetOf([]) == attached0;
    if Parse(config).Some? {
      BootFollowsPlan(config, attached0);
      forall v | v in Plan(config) ensures v in volumes { PlanIsDeferred(config, v); }
      EachIsSound(volumes, attached0, start, Plan(config));
    } else {
      EachIsSound(volumes, attached0, start, Round(volumes, false));
    }
  }

  /** A successful boot has attempted exactly the deferred volumes that were not in place before. */
  lemma BootCovers(config: Config, attached0: set<string>, v: Volume)
    requires Distinct(config.volumes) && v in config.volumes && Boot(config, attached0).ok
    ensures v.name in Boot(config, attached0).attempts <==> Deferred(v) && v.name !in attached0
    ensures Deferred(v) ==> v.name in Boot(config, attached0).attached
  {
    var r := Boot(config, attached0);
    BootFollowsPlan(config, attached0);
    BootIsSound(config, attached0);
    EachAttaches(config.volumes, Progress(attached0, [], true), Plan(config));
    PlanIsDeferred(config, v);
    assert v.name in r.attempts <==> v.name in SetOf(r.attempts);
    if v.name in Names(Plan(config)) {
      var w :| w in Plan(config) && w.name == v.name;
      PlanIsDeferred(config, w);
      ByNameIs(config.volumes, v);
      ByNameIs(config.volumes, w);
    }
  }

  // ---------------------------------------------------------------- the order of the plan

  /** The step a deferred volume belongs to. */
  function Step(volumes: seq<Volume>, v: Volume): nat {
    if IsDeclared(v) then 1 else if RefsEnclosure(volumes, v) then 2 else 0
  }

  /** The boot comes to `x` before it comes to `v`: in an earlier step, or as a shallower enclosure, or
      otherwise by its place in the declaration. */
  ghost predicate StandsAhead(volumes: seq<Volume>, x: Volume, v: Volume) {
    Deferred(x) &&
    if Step(volumes, x) != Step(volumes, v) then Step(volumes, x) < Step(volumes, v)
    else if IsDeclared(x) && DepthOf(volumes, x) != DepthOf(volumes, v) then DepthOf(volumes, x) < DepthOf(volumes, v)
    else Before(volumes, x, v)
  }

  lemma DistinctIsUnique(volumes: seq<Volume>)
    requires Distinct(volumes)
    ensures Unique(volumes)
  {
  }

  lemma SomeoneStandsAhead(volumes: seq<Volume>, x: Volume, v: Volume)
    requires x in volumes && v in volumes && x != v && Deferred(x) && Deferred(v)
    ensures StandsAhead(volumes, x, v) || StandsAhead(volumes, v, x)
  {
    var i :| 0 <= i < |volumes| && volumes[i] == x;
    var j :| 0 <= j < |volumes| && volumes[j] == v;
    assert Before(volumes, x, v) || Before(volumes, v, x);
  }

  lemma {:induction false} SelectKeepsBefore(volumes: seq<Volume>, keep: Volume -> bool, x: Volume, v: Volume)
    requires Before(volumes, x, v) && keep(x) && keep(v)
    ensures Before(Select(volumes, keep), x, v)
    decreases |volumes|
  {
    var i, j :| 0 <= i < j < |volumes| && volumes[i] == x && volumes[j] == v;
    var rest := Select(volumes[1..], keep);
    assert volumes[1..][j - 1] == v;
    if i == 0 {
      var k :| 0 <= k < |rest| && rest[k] == v;
      assert Select(volumes, keep)[0] == x && Select(volumes, keep)[k + 1] == v;
    } else {
      assert volumes[1..][i - 1] == x;
      SelectKeepsBefore(volumes[1..], keep, x, v);
      var front := if keep(volumes[0]) then [volumes[0]] else [];
      BeforeWithin(front, rest, [], x, v);
      assert front + rest + [] == Select(volumes, keep);
    }
  }

  lemma {:induction false} SelectKeepsUnique(volumes: seq<Volume>, keep: Volume -> bool)
    requires Unique(volumes)
    ensures Unique(Select(volumes, keep))
    decreases |volumes|
  {
    if volumes != [] {
      SelectKeepsUnique(volumes[1..], keep);
      assert volumes[0] !in volumes[1..];
    }
  }

  lemma PlanIsUnique(config: Config)
    requires Distinct(config.volumes) && Parse(config).Some?
    ensures Unique(Plan(config))
  {
    var volumes := config.volumes;
    DistinctIsUnique(volumes);
    SelectKeepsUnique(volumes, InRound(volumes, false));
    SelectKeepsUnique(volumes, InRound(volumes, true));
    SelectKeepsUnique(volumes, (v: Volume) => IsDeclared(v));
    SortedKeepsUnique(Shallower(volumes), Select(volumes, (v: Volume) => IsDeclared(v)));
    DeclaredInOrder(config);
    UniqueParts(Round(volumes, false), Parse(config).value, Round(volumes, true));
  }

  lemma UniqueParts(a: seq<Volume>, b: seq<Volume>, c: seq<Volume>)
    requires Unique(a) && Unique(b) && Unique(c)
    requires forall v :: !(v in a && v in b) && !(v in b && v in c) && !(v in a && v in c)
    ensures Unique(a + b + c)
  {
    var s := a + b + c;
    forall i, j | 0 <= i < j < |s| ensures s[i] != s[j] {
      assert s[i] in a || s[i] in b || s[i] in c;
      assert i < |a| ==> s[i] == a[i];
      assert |a| <= i < |a| + |b| ==> s[i] == b[i - |a|];
      assert |a| + |b| <= i ==> s[i] == c[i - |a| - |b|];
    }
  }

  lemma ShallowerIsStrictWeak(volumes: seq<Volume>)
    ensures StrictWeak(Shallower(volumes))
  {
  }

  lemma DeclaredStandAhead(config: Config, x: Volume, v: Volume)
    requires Parse(config).Some? && x in config.volumes && v in config.volumes && IsDeclared(x) && IsDeclared(v)
    requires StandsAhead(config.volumes, x, v)
    ensures Before(Parse(config).value, x, v)
  {
    var volumes := config.volumes;
    var keep := (v: Volume) => IsDeclared(v);
    var s := Select(volumes, keep);
    ShallowerIsStrictWeak(volumes);
    if DepthOf(volumes, x) < DepthOf(volumes, v) {
      SortedPutsLessBefore(Shallower(volumes), s, x, v);
    } else {
      SelectKeepsBefore(volumes, keep, x, v);
      var i, j :| 0 <= i < j < |s| && s[i] == x && s[j] == v;
      SortedKeepsBefore(Shallower(volumes), s, i, j);
    }
  }

  /** The plan follows the order: from part to part, */
  lemma PlanOrderAcross(config: Config, x: Volume, v: Volume)
    requires Parse(config).Some? && x in config.volumes && v in config.volumes && Deferred(v)
    requires StandsAhead(config.volumes, x, v) && Step(config.volumes, x) < Step(config.volumes, v)
    ensures Before(Plan(config), x, v)
  {
    DeclaredInOrder(config);
    AcrossParts(Round(config.volumes, false), Parse(config).value, Round(config.volumes, true), x, v);
  }

  /** within the enclosures, */
  lemma PlanOrderDeclared(config: Config, x: Volume, v: Volume)
    requires Parse(config).Some? && x in config.volumes && v in config.volumes && IsDeclared(v)
    requires StandsAhead(config.volumes, x, v) && Step(config.volumes, x) == Step(config.volumes, v)
    ensures Before(Plan(config), x, v)
  {
    DeclaredStandAhead(config, x, v);
    BeforeWithin(Round(config.volumes, false), Parse(config).value, Round(config.volumes, true), x, v);
  }

  /** and within a round of encrypted volumes. */
  lemma PlanOrderInRound(config: Config, x: Volume, v: Volume)
    requires Parse(config).Some? && x in config.volumes && v in config.volumes && Deferred(v) && !IsDeclared(v)
    requires StandsAhead(config.volumes, x, v) && Step(config.volumes, x) == Step(config.volumes, v)
    ensures Before(Plan(config), x, v)
  {
    var volumes, late := config.volumes, RefsEnclosure(config.volumes, v);
    var a, b, c := Round(volumes, false), Parse(config).value, Round(volumes, true);
    SelectKeepsBefore(volumes, InRound(volumes, late), x, v);
    if late {
      BeforeWithin(a + b, c, [], x, v);
      assert (a + b) + c + [] == a + b + c;
    } else {
      BeforeWithin([], a, b + c, x, v);
      assert [] + a + (b + c) == a + b + c;
    }
  }

  lemma PlanOrder(config: Config, x: Volume, v: Volume)
    requires Parse(config).Some? && x in config.volumes && v in config.volumes && Deferred(v)
    requires StandsAhead(config.volumes, x, v)
    ensures Before(Plan(config), x, v)
  {
    if Step(config.volumes, x) < Step(config.volumes, v) {
      PlanOrderAcross(config, x, v);
    } else if IsDeclared(v) {
      PlanOrderDeclared(config, x, v);
    } else {
      PlanOrderInRound(config, x, v);
    }
  }

  lemma AcrossParts(a: seq<Volume>, b: seq<Volume>, c: seq<Volume>, x: Volume, v: Volume)
    requires (x in a && (v in b || v in c)) || (x in b && v in c)
    ensures Before(a + b + c, x, v)
  {
    var s := a + b + c;
    if x in a {
      var i :| 0 <= i < |a| && a[i] == x;
      assert s[i] == x;
      if v in b {
        var j :| 0 <= j < |b| && b[j] == v;
        assert s[|a| + j] == v;
      } else {
        var j :| 0 <= j < |c| && c[j] == v;
        assert s[|a| + |b| + j] == v;
      }
    } else {
      var i :| 0 <= i < |b| && b[i] == x;
      var j :| 0 <= j < |c| && c[j] == v;
      assert s[|a| + i] == x && s[|a| + |b| + j] == v;
    }
  }

  /** The names put in place before the boot comes to a volume are those that stand ahead of it. */
  lemma AheadOnPlan(config: Config, k: nat, name: string)
    requires Distinct(config.volumes) && Parse(config).Some? && k < |Plan(config)|
    ensures name in Names(Plan(config)[..k]) <==>
              ByName(config.volumes, name).Some? &&
              StandsAhead(config.volumes, ByName(config.volumes, name).value, Plan(config)[k])
  {
    var volumes, plan := config.volumes, Plan(config);
    var v := plan[k];
    PlanIsUnique(config);
    PlanIsDeferred(config, v);
    if name in Names(plan[..k]) {
      var w :| w in plan[..k] && w.name == name;
      var i :| 0 <= i < k && plan[i] == w;
      PlanIsDeferred(config, w);
      ByNameIs(volumes, w);
      SomeoneStandsAhead(volumes, w, v);
      if StandsAhead(volumes, v, w) {
        PlanOrder(config, v, w);
        BeforeOnce(plan, v, w);
      }
    }
    if ByName(volumes, name).Some? && StandsAhead(volumes, ByName(volumes, name).value, v) {
      AheadIsOnPlan(config, k, ByName(volumes, name).value);
    }
  }

  lemma AheadIsOnPlan(config: Config, k: nat, x: Volume)
    requires Parse(config).Some? && k < |Plan(config)| && Unique(Plan(config))
    requires x in config.volumes && StandsAhead(config.volumes, x, Plan(config)[k])
    ensures x in Plan(config)[..k]
  {
    var plan := Plan(config);
    PlanIsDeferred(config, plan[k]);
    PlanOrder(config, x, plan[k]);
    var i, j :| 0 <= i < j < |plan| && plan[i] == x && plan[j] == plan[k];
    assert j == k;
    assert plan[..k][i] == x;
  }

  // ---------------------------------------------------------------- when the boot succeeds

  ghost predicate DistinctNames(todo: seq<Volume>) {
    forall i, j :: 0 <= i < j < |todo| ==> todo[i].name != todo[j].name
  }

  /** Each volume of a list that is not in place has what it needs from what was in place before the
      list and from those ahead of it. */
  ghost predicate AllFindNeeds(volumes: seq<Volume>, attached: set<string>, todo: seq<Volume>) {
    forall k :: 0 <= k < |todo| ==> FindsNeeds(volumes, attached, todo, k)
  }

  predicate FindsNeeds(volumes: seq<Volume>, attached: set<string>, todo: seq<Volume>, k: nat)
    requires k < |todo|
  {
    todo[k].name !in attached ==> Builds(volumes, attached + Names(todo[..k]), todo[k])
  }

  /** A list goes through exactly if all of its volumes find what they need. */
  lemma {:induction false} EachGoesThroughIff(volumes: seq<Volume>, p: Progress, todo: seq<Volume>)
    requires p.ok && DistinctNames(todo)
    ensures AttachEach(volumes, p, todo).ok <==> AllFindNeeds(volumes, p.attached, todo)
    decreases |todo|
  {
    if todo != [] {
      var q := Attach(volumes, p, todo[0]);
      assert Names(todo[..0]) == {} && p.attached + {} == p.attached;
      if !q.ok {
        AttachNone(volumes, q, todo[1..]);
        assert !FindsNeeds(volumes, p.attached, todo, 0);
      } else {
        EachGoesThroughIff(volumes, q, todo[1..]);
        forall k | 0 <= k < |todo| - 1
          ensures FindsNeeds(volumes, q.attached, todo[1..], k) <==> FindsNeeds(volumes, p.attached, todo, k + 1)
        {
          assert todo[..k + 1] == [todo[0]] + todo[1..][..k];
          assert q.attached + Names(todo[1..][..k]) == p.attached + Names(todo[..k + 1]);
        }
        assert FindsNeeds(volumes, p.attached, todo, 0);
        if AllFindNeeds(volumes, q.attached, todo[1..]) {
          forall k | 0 <= k < |todo| ensures FindsNeeds(volumes, p.attached, todo, k) {
            if k > 0 { assert FindsNeeds(volumes, q.attached, todo[1..], k - 1); }
          }
        }
        if AllFindNeeds(volumes, p.attached, todo) {
          forall k | 0 <= k < |todo[1..]| ensures FindsNeeds(volumes, q.attached, todo[1..], k) {
            assert FindsNeeds(volumes, p.attached, todo, k + 1);
          }
        }
      }
    }
  }

  /** A back end of that name is in place at the start or stands ahead of `v`. */
  ghost predicate Provided(volumes: seq<Volume>, attached0: set<string>, name: string, v: Volume) {
    name in attached0 || (ByName(volumes, name).Some? && StandsAhead(volumes, ByName(volumes, name).value, v))
  }

  /** The volume can be built when the boot comes to it. */
  ghost predicate InTime(volumes: seq<Volume>, attached0: set<string>, v: Volume) {
    && v.sound
    && (v.source.Some? ==>
          ByName(volumes, v.source.value).Some? &&
          (ByName(volumes, v.source.value).value.kind.Local? || Provided(volumes, attached0, v.source.value, v)))
    && (v.kind.Secretdata? ==> v.key.Some? && Provided(volumes, attached0, v.key.value, v))
  }

  lemma InTimeOnPlan(config: Config, attached0: set<string>, k: nat)
    requires Distinct(config.volumes) && Parse(config).Some? && k < |Plan(config)|
    ensures InTime(config.volumes, attached0, Plan(config)[k]) <==>
            Builds(config.volumes, attached0 + Names(Plan(config)[..k]), Plan(config)[k])
  {
    var v := Plan(config)[k];
    if v.source.Some? { AheadOnPlan(config, k, v.source.value); }
    if v.key.Some? { AheadOnPlan(config, k, v.key.value); }
  }

  /** A configuration boots exactly if its declarations are acceptable and every deferred volume that
      is not in place is sound, with its source a local root, in place or ahead of it, and with its
      key in place or ahead of it. */
  lemma BootSucceedsIff(config: Config, attached0: set<string>)
    requires Distinct(config.volumes)
    ensures Boot(config, attached0).ok <==>
              Parse(config).Some? &&
              forall v :: v in config.volumes && Deferred(v) && v.name !in attached0 ==>
                InTime(config.volumes, attached0, v)
  {
    if Parse(config).Some? {
      var volumes, plan := config.volumes, Plan(config);
      BootFollowsPlan(config, attached0);
      PlanIsUnique(config);
      forall i, j | 0 <= i < j < |plan| ensures plan[i].name != plan[j].name {
        PlanIsDeferred(config, plan[i]);
        PlanIsDeferred(config, plan[j]);
        ByNameIs(volumes, plan[i]);
        ByNameIs(volumes, plan[j]);
      }
      EachGoesThroughIff(volumes, Progress(attached0, [], true), plan);
      PlanInTime(config, attached0);
    }
  }

  lemma PlanInTime(config: Config, attached0: set<string>)
    requires Distinct(config.volumes) && Parse(config).Some?
    ensures AllFindNeeds(config.volumes, attached0, Plan(config)) <==>
              forall v :: v in config.volumes && Deferred(v) && v.name !in attached0 ==>
                InTime(config.volumes, attached0, v)
  {
    var volumes, plan := config.volumes, Plan(config);
    if AllFindNeeds(volumes, attached0, plan) {
      forall v | v in volumes && Deferred(v) && v.name !in attached0 ensures InTime(volumes, attached0, v) {
        PlanIsDeferred(config, v);
        var k :| 0 <= k < |plan| && plan[k] == v;
        assert FindsNeeds(volumes, attached0, plan, k);
        InTimeOnPlan(config, attached0, k);
      }
    }
    if forall v :: v in volumes && Deferred(v) && v.name !in attached0 ==> InTime(volumes, attached0, v) {
      forall k | 0 <= k < |plan| ensures FindsNeeds(volumes, attached0, plan, k) {
        PlanIsDeferred(config, plan[k]);
        InTimeOnPlan(config, attached0, k);
      }
    }
  }

  // ---------------------------------------------------------------- the two ways to be too early

  /** An enclosure on a secretdata volume whose own key lives on an enclosure. */
  predicate IsEntangled(volumes: seq<Volume>, attached0: set<string>, d: Volume) {
    && IsDeclared(d) && d.name !in attached0
    && ByName(volumes, d.source.value).Some?
    && var s := ByName(volumes, d.source.value).value;
       s.kind.Secretdata? && !IsDeclared(s) && s.name !in attached0 && RefsEnclosure(volumes, s)
  }

  /** An encrypted enclosure whose key lives on an enclosure that does not stand ahead of it: a deeper
      one, or one of its own depth that is not declared earlier. */
  ghost predicate HasLateKey(volumes: seq<Volume>, attached0: set<string>, d: Volume) {
    && IsDeclared(d) && d.name !in attached0 && d.kind.Secretdata?
    && RefsEnclosure(volumes, d) && d.key.value !in attached0
    && !StandsAhead(volumes, ByName(volumes, d.key.value).value, d)
  }

  /** Nothing else is wrong with a volume: it is sound, its source is a local root, in place, an
      enclosure or a secretdata volume, and its key is in place or on an enclosure. */
  predicate Bootable(volumes: seq<Volume>, attached0: set<string>, v: Volume) {
    && v.sound
    && (v.source.Some? ==>
          ByName(volumes, v.source.value).Some? &&
          var s := ByName(volumes, v.source.value).value; s.kind.Local? || s.name in attached0 || Deferred(s))
    && (v.kind.Secretdata? ==> v.key.Some? && (v.key.value in attached0 || RefsEnclosure(volumes, v)))
  }

  lemma InTimeUnless(config: Config, attached0: set<string>, v: Volume)
    requires Parse(config).Some? && v in config.volumes && Deferred(v) && v.name !in attached0
    requires Bootable(config.volumes, attached0, v)
    ensures InTime(config.volumes, attached0, v) <==>
              !IsEntangled(config.volumes, attached0, v) && !HasLateKey(config.volumes, attached0, v)
  {
    var volumes := config.volumes;
    if IsDeclared(v) {
      var s := ByName(volumes, v.source.value).value;
      if IsDeclared(s) { SourceIsShallower(config, v); }
    }
  }

  /** With nothing else wrong, a configuration fails to boot exactly if it is entangled or has a key
      that comes too late. */
  lemma BootFailsOnlyByOrder(config: Config, attached0: set<string>)
    requires Distinct(config.volumes) && Parse(config).Some?
    requires forall v :: v in config.volumes && Deferred(v) && v.name !in attached0 ==>
               Bootable(config.volumes, attached0, v)
    ensures !Boot(config, attached0).ok <==>
              exists d :: d in config.volumes &&
                          (IsEntangled(config.volumes, attached0, d) || HasLateKey(config.volumes, attached0, d))
  {
    var volumes := config.volumes;
    BootSucceedsIff(config, attached0);
    forall v | v in volumes && Deferred(v) && v.name !in attached0
      ensures InTime(volumes, attached0, v) <==>
                !IsEntangled(volumes, attached0, v) && !HasLateKey(volumes, attached0, v)
    {
      InTimeUnless(config, attached0, v);
    }
  }

  /** A key that comes too late makes every boot fail, whatever else is in the configuration. */
  lemma LateKeyFails(config: Config, attached0: set<string>, d: Volume)
    requires Distinct(config.volumes) && d in config.volumes && HasLateKey(config.volumes, attached0, d)
    ensures !Boot(config, attached0).ok
  {
    BootSucceedsIff(config, attached0);
    assert !InTime(config.volumes, attached0, d);
  }

  /** A local volume, an enclosure on it that holds keys, and an encrypted one whose key is there. */
  predicate KeyBeside(main: Volume, keys: Volume, data: Volume) {
    && main.name != keys.name && keys.name != data.name && main.name != data.name
    && main.kind.Local? && main.source.None?
    && keys.kind.Other? && keys.source == Some(main.name) && keys.sound
    && data.kind.Secretdata? && data.source == Some(main.name) && data.key == Some(keys.name) && data.sound
  }

  /** Of two enclosures on one volume the order of declaration decides: with the one that holds the
      key first the boot succeeds. */
  lemma KeyDeclaredFirstBoots(main: Volume, keys: Volume, data: Volume)
    requires KeyBeside(main, keys, data)
    ensures Boot(Config([main, keys, data], true), {}).ok
  {
    var volumes := [main, keys, data];
    NamesOfThree(main, keys, data);
    assert volumes[1] == keys && volumes[2] == data && Before(volumes, keys, data);
    assert InTime(volumes, {}, keys) && InTime(volumes, {}, data);
    BootSucceedsIff(Config(volumes, true), {});
  }

  /** And with the encrypted one first it fails, although nothing is entangled. */
  lemma KeyDeclaredLastFails(main: Volume, keys: Volume, data: Volume)
    requires KeyBeside(main, keys, data)
    ensures !Boot(Config([main, data, keys], true), {}).ok
    ensures forall d :: d in [main, data, keys] ==> !IsEntangled([main, data, keys], {}, d)
    ensures DepthOf([main, data, keys], data) == DepthOf([main, data, keys], keys)
  {
    var volumes := [main, data, keys];
    NamesOfThree(main, data, keys);
    assert volumes[1] == data && volumes[2] == keys && !Before(volumes, keys, data);
    LateKeyFails(Config(volumes, true), {}, data);
  }

  lemma NamesOfThree(a: Volume, b: Volume, c: Volume)
    requires a.name != b.name && b.name != c.name && a.name != c.name
    ensures var s := [a, b, c];
      Distinct(s) && ByName(s, a.name) == Some(a) && ByName(s, b.name) == Some(b) && ByName(s, c.name) == Some(c)
  {
    var s := [a, b, c];
    assert s[1..] == [b, c] && [b, c][1..] == [c];
  }

  /** Sources are shallower than what encloses them. */
  lemma SourceIsShallower(config: Config, d: Volume)
    requires Parse(config).Some? && d in config.volumes && IsDeclared(d)
    requires var s := ByName(config.volumes, d.source.value); s.Some? && IsDeclared(s.value)
    ensures DepthOf(config.volumes, ByName(config.volumes, d.source.value).value) < DepthOf(config.volumes, d)
  {
    var volumes := config.volumes;
    var s := ByName(volumes, d.source.value).value;
    assert WellDeclared(volumes, d) && WellDeclared(volumes, s);
    FuelDoesNotMatter(volumes, s, MAX_NESTING - 2, MAX_NESTING - 1);
  }

  /** So in the order of the enclosures they come first. */
  lemma SourceIsAhead(config: Config, k: nat)
    requires Parse(config).Some? && k < |Parse(config).value|
    requires IsDeclared(Parse(config).value[k])
    requires var s := ByName(config.volumes, Parse(config).value[k].source.value); s.Some? && IsDeclared(s.value)
    ensures ByName(config.volumes, Parse(config).value[k].source.value).value in Parse(config).value[..k]
  {
    var volumes, decls := config.volumes, Parse(config).value;
    var d := decls[k];
    var s := ByName(volumes, d.source.value).value;
    DeclaredInOrder(config);
    SourceIsShallower(config, d);
    SortedIsStable(Shallower(volumes), Select(volumes, (v: Volume) => IsDeclared(v)));
    LessIsAhead(Shallower(volumes), decls, k, s);
  }

  lemma {:induction false} FuelDoesNotMatter(volumes: seq<Volume>, v: Volume, less: nat, more: nat)
    requires IsDeclared(v) && less <= more && Depth(volumes, v, less).Some?
    ensures Depth(volumes, v, more) == Depth(volumes, v, less)
    decreases less
  {
    var below := ByName(volumes, v.source.value);
    if below.Some? && IsDeclared(below.value) { FuelDoesNotMatter(volumes, below.value, less - 1, more - 1); }
  }

  // ---------------------------------------------------------------- what is acceptable, and when it comes

  /** `w` is the enclosure that `v` encloses. */
  predicate Encloses(volumes: seq<Volume>, v: Volume, w: Volume) {
    w in volumes && v.source == Some(w.name) && w.source.Some?
  }

  /** An enclosure, the one it encloses, and so on, down to one that encloses none. */
  ghost predicate Nesting(volumes: seq<Volume>, c: seq<Volume>) {
    && c != [] && c[0].source.Some?
    && (forall i :: 0 <= i < |c| - 1 ==> Encloses(volumes, c[i], c[i + 1]))
    && forall w :: w in volumes ==> !Encloses(volumes, c[|c| - 1], w)
  }

  lemma BelowIs(volumes: seq<Volume>, v: Volume, w: Volume)
    requires Distinct(volumes) && v.source.Some? && Encloses(volumes, v, w)
    ensures ByName(volumes, v.source.value) == Some(w)
  {
    ByNameIs(volumes, w);
  }

  lemma {:induction false} NestingHasDepth(volumes: seq<Volume>, c: seq<Volume>, fuel: nat)
    requires Distinct(volumes) && Nesting(volumes, c)
    ensures Depth(volumes, c[0], fuel) == if |c| - 1 <= fuel then Some(|c| - 1) else None
    decreases |c|
  {
    if |c| > 1 {
      assert Encloses(volumes, c[0], c[1]);
      BelowIs(volumes, c[0], c[1]);
      var rest := c[1..];
      forall i | 0 <= i < |rest| - 1 ensures Encloses(volumes, rest[i], rest[i + 1]) {
        assert Encloses(volumes, c[i + 1], c[i + 2]);
      }
      if fuel > 0 { NestingHasDepth(volumes, rest, fuel - 1); }
    }
  }

  lemma {:induction false} NestingOf(volumes: seq<Volume>, v: Volume, fuel: nat) returns (c: seq<Volume>)
    requires Distinct(volumes) && v.source.Some? && Depth(volumes, v, fuel).Some?
    ensures Nesting(volumes, c) && c[0] == v && |c| == Depth(volumes, v, fuel).value + 1
    decreases fuel
  {
    var below := ByName(volumes, v.source.value);
    if below.None? || !IsDeclared(below.value) {
      c := [v];
      forall w | w in volumes ensures !Encloses(volumes, v, w) {
        if Encloses(volumes, v, w) { BelowIs(volumes, v, w); }
      }
    } else {
      var rest := NestingOf(volumes, below.value, fuel - 1);
      c := [v] + rest;
      forall i | 0 <= i < |c| - 1 ensures Encloses(volumes, c[i], c[i + 1]) {
        if i > 0 { assert Encloses(volumes, rest[i - 1], rest[i]); }
      }
    }
  }

  /** The declarations are acceptable exactly if the claims do not conflict and every enclosure names a
      configured source other than itself and starts a nesting of at most eight enclosures. */
  lemma AcceptableIff(config: Config)
    requires Distinct(config.volumes)
    ensures Parse(config).Some? <==>
              && config.layoutOk
              && forall v :: v in config.volumes && v.source.Some? ==>
                   && v.source != Some(v.name) && (exists w :: w in config.volumes && v.source == Some(w.name))
                   && exists c :: Nesting(config.volumes, c) && c[0] == v && |c| <= MAX_NESTING
  {
    var volumes := config.volumes;
    forall v | v in volumes && v.source.Some?
      ensures WellDeclared(volumes, v) <==>
                && v.source != Some(v.name) && (exists w :: w in volumes && v.source == Some(w.name))
                && exists c :: Nesting(volumes, c) && c[0] == v && |c| <= MAX_NESTING
    {
      if c :| Nesting(volumes, c) && c[0] == v && |c| <= MAX_NESTING {
        NestingHasDepth(volumes, c, MAX_NESTING - 1);
      }
      if Depth(volumes, v, MAX_NESTING - 1).Some? {
        var c := NestingOf(volumes, v, MAX_NESTING - 1);
        NestingHasDepth(volumes, c, MAX_NESTING - 1);
      }
    }
  }

  /** The depth by which enclosures are sorted is the number of enclosures below. */
  lemma DepthIsNesting(volumes: seq<Volume>, c: seq<Volume>)
    requires Distinct(volumes) && Nesting(volumes, c) && |c| <= MAX_NESTING
    ensures DepthOf(volumes, c[0]) == |c| - 1
  {
    NestingHasDepth(volumes, c, MAX_NESTING - 1);
  }

  /** The late round takes the encrypted volumes whose key lives on an enclosure, the early one the
      others, and neither takes an enclosure. */
  lemma RoundsTake(volumes: seq<Volume>, late: bool, v: Volume)
    requires Distinct(volumes)
    ensures v in Round(volumes, late) <==>
              && v in volumes && v.kind.Secretdata? && v.source.None?
              && (late <==> exists w :: w in volumes && v.key == Some(w.name) && w.source.Some?)
  {
    if w :| w in volumes && v.key == Some(w.name) && w.source.Some? { ByNameIs(volumes, w); }
  }
}
