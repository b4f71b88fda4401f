/**
The credential file, replaced by way of a temporary file, fsync and rename, in plain text or
encrypted. A save may fail or its process may die at every system call, and the machine may lose
power between any two events.
*/
module CredentialFile {
  import opened Wrappers
  import opened Bytes
  import Text

  type Blob = seq<Byte>

  datatype Key = Key(ak: string, id: string, secret: Blob)

  type Keys = seq<Key>

  // ---------------------------------------------------------------- what a file means

  /** The JSON form of a key list. */
  datatype Codec = Codec(marshal: Keys -> Option<Blob>, unmarshal: Blob -> Option<Keys>)

  /** Byte-level encryption; the nonce is a parameter. */
  datatype Secure = Plain | Secure(encrypt: (Blob, Blob) -> Option<Blob>, decrypt: Blob -> Option<Blob>)

  datatype LoadError = ReadFailed | NotMigrated | Tampered | Corrupt

  const BRACE: Byte := 0x7b

  /** `"keys"` with its quotes. */
  const KEYS_FIELD: Blob := [0x22, 0x6b, 0x65, 0x79, 0x73, 0x22]

  predicate LooksLikePlaintext(data: Blob) { data != [] && data[0] == BRACE && Text.Contains(data, KEYS_FIELD) }

  /** An opening brace first, and the quoted word somewhere. */
  lemma PlaintextLooks(data: Blob)
    ensures LooksLikePlaintext(data) <==>
              exists before, after :: data == before + [0x22, 0x6b, 0x65, 0x79, 0x73, 0x22] + after && 0x7b == data[0]
  {
    if LooksLikePlaintext(data) {
      var i :| 0 <= i <= |data| && Text.PartAt(data, KEYS_FIELD, i);
      assert data == data[..i] + [0x22, 0x6b, 0x65, 0x79, 0x73, 0x22] + data[i + 6..];
    }
    if before, after :| data == before + [0x22, 0x6b, 0x65, 0x79, 0x73, 0x22] + after && 0x7b == data[0] {
      assert Text.PartAt(data, KEYS_FIELD, |before|);
    }
  }

  ghost predicate Faithful(codec: Codec, secure: Secure) {
    && (forall k :: codec.marshal(k).Some? ==> codec.unmarshal(codec.marshal(k).value) == Some(k))
    && (forall k :: codec.marshal(k).Some? ==> LooksLikePlaintext(codec.marshal(k).value))
    && (secure.Secure? ==> forall n, d ::
          secure.encrypt(n, d).Some? ==> secure.decrypt(secure.encrypt(n, d).value) == Some(d))
  }

  /** The bytes a save puts on disk, unless serialising or encrypting fails. */
  function DiskForm(codec: Codec, secure: Secure, nonce: Blob, keys: Keys): Option<Blob> {
    var data := codec.marshal(keys);
    if data.None? then None else if secure.Plain? then data else secure.encrypt(nonce, data.value)
  }

  /** What loading a file gives; a missing file is an empty list. */
  function Decode(codec: Codec, secure: Secure, file: Option<Blob>): Result<Keys, LoadError> {
    if file.None? then Ok([])
    else
      var plain := if secure.Plain? then file else secure.decrypt(file.value);
      if plain.None? then Err(if LooksLikePlaintext(file.value) then NotMigrated else Tampered)
      else
        var keys := codec.unmarshal(plain.value);
        if keys.None? then Err(Corrupt) else Ok(keys.value)
  }

  lemma DecodeOfDiskForm(codec: Codec, secure: Secure, nonce: Blob, keys: Keys)
    requires Faithful(codec, secure) && DiskForm(codec, secure, nonce, keys).Some?
    ensures Decode(codec, secure, DiskForm(codec, secure, nonce, keys)) == Ok(keys)
  {
  }

  // ---------------------------------------------------------------- the file system

  /** A file whose content did not reach the disk may hold anything after a power cut. */
  datatype File = File(content: Blob, synced: bool)

  /** `versions` is what the name has stood for, newest last; a power cut may bring back every
      version since the newest one whose directory entry is known to be durable. `litter` counts
      temporary files left behind. */
  datatype State = State(versions: seq<Option<File>>, durable: nat, litter: nat)

  ghost predicate WellFormed(s: State) { s.durable < |s.versions| }

  function Visible(s: State): Option<File>
    requires s.versions != []
  {
    s.versions[|s.versions| - 1]
  }

  function Content(file: Option<File>): Option<Blob> { if file.None? then None else Some(file.value.content) }

  datatype Fate = Works | Fails | Dies

  /** How the six system calls of a replacement end. `landed` tells whether a rename in which the
      process dies took place. */
  datatype Fates = Fates(create: Fate, write: Fate, sync: Fate, close: Fate, rename: Fate, landed: bool, cleanup: Fate)

  datatype Outcome = Saved | Failed | Died

  predicate Prepared(f: Fates) { f.create.Works? && f.write.Works? && f.sync.Works? && f.close.Works? }

  predicate Renamed(f: Fates) { Prepared(f) && (f.rename.Works? || (f.rename.Dies? && f.landed)) }

  /** The first call that does not work decides. */
  function Verdict(f: Fates): Outcome {
    if f.create.Fails? then Failed
    else
      var first := if !f.create.Works? then f.create else if !f.write.Works? then f.write
                   else if !f.sync.Works? then f.sync else if !f.close.Works? then f.close else f.rename;
      if first.Dies? || f.cleanup.Dies? then Died else if first.Works? then Saved else Failed
  }

  predicate LeavesLitter(f: Fates) {
    f.create.Works? && !Renamed(f) && (Verdict(f).Died? || f.cleanup.Fails?)
  }

  /** The effect of one replacement: all or nothing. */
  function Replace(s: State, data: Blob, f: Fates): State {
    State(if Renamed(f) then s.versions + [Some(File(data, true))] else s.versions,
          s.durable,
          if LeavesLitter(f) then s.litter + 1 else s.litter)
  }

  /** The last `back` versions are lost, as far as they were not durable. */
  function PowerCut(s: State, back: nat, garbage: Blob): State
    requires WellFormed(s)
  {
    var n := if |s.versions| - back > s.durable then |s.versions| - back else s.durable + 1;
    var file := s.versions[n - 1];
    var found := if file.Some? && !file.value.synced then Some(File(garbage, true)) else file;
    s.(versions := s.versions[..n - 1] + [found])
  }

  // ---------------------------------------------------------------- runs

  datatype Event =
    | Save(keys: Keys, nonce: Blob, fates: Fates)
    | Cut(back: nat, garbage: Blob)
    | Flush                                        // the system wrote the directory to disk

  function Next(codec: Codec, secure: Secure, s: State, e: Event): (t: State)
    requires WellFormed(s)
    ensures WellFormed(t)
  {
    match e
    case Save(keys, nonce, f) =>
      var data := DiskForm(codec, secure, nonce, keys);
      if data.None? then s else Replace(s, data.value, f)
    case Cut(back, garbage) => PowerCut(s, back, garbage)
    case Flush => s.(durable := |s.versions| - 1)
  }

  function Exec(codec: Codec, secure: Secure, s: State, run: seq<Event>): (t: State)
    requires WellFormed(s)
    ensures WellFormed(t)
    decreases |run|
  {
    if run == [] then s else Exec(codec, secure, Next(codec, secure, s, run[0]), run[1..])
  }

  function Loaded(codec: Codec, secure: Secure, s: State): Result<Keys, LoadError>
    requires WellFormed(s)
  {
    Decode(codec, secure, Content(Visible(s)))
  }

  /** Every version was complete on disk before it got its name, and holds the named list. */
  ghost predicate Holds(codec: Codec, secure: Secure, s: State, lists: seq<Keys>) {
    WellFormed(s) && |lists| == |s.versions| &&
    forall i :: 0 <= i < |lists| ==>
      && (s.versions[i].Some? ==> s.versions[i].value.synced)
      && Decode(codec, secure, Content(s.versions[i])) == Ok(lists[i])
  }

  /** The lists a run puts under the name, beside those that were there. */
  function Lists(codec: Codec, secure: Secure, s: State, lists: seq<Keys>, e: Event): (after: seq<Keys>)
    requires WellFormed(s) && |lists| == |s.versions|
  {
    match e
    case Save(keys, nonce, f) =>
      if DiskForm(codec, secure, nonce, keys).Some? && Renamed(f) then lists + [keys] else lists
    case Cut(back, garbage) => lists[..|PowerCut(s, back, garbage).versions|]
    case Flush => lists
  }

  lemma NextHolds(codec: Codec, secure: Secure, s: State, lists: seq<Keys>, e: Event)
    requires Faithful(codec, secure) && Holds(codec, secure, s, lists)
    ensures Holds(codec, secure, Next(codec, secure, s, e), Lists(codec, secure, s, lists, e))
  {
    if e.Save? && DiskForm(codec, secure, e.nonce, e.keys).Some? {
      DecodeOfDiskForm(codec, secure, e.nonce, e.keys);
    }
  }

  /** The save took place: its list can be written, and the rename happened. */
  predicate Takes(codec: Codec, secure: Secure, e: Event) {
    e.Save? && DiskForm(codec, secure, e.nonce, e.keys).Some? && Renamed(e.fates)
  }

  /** The program was told that the save worked. */
  predicate Reported(codec: Codec, secure: Secure, e: Event) {
    e.Save? && DiskForm(codec, secure, e.nonce, e.keys).Some? && Verdict(e.fates).Saved?
  }

  /** The save worked, or its process died in it. */
  predicate ReportedOrInFlight(codec: Codec, secure: Secure, e: Event) {
    e.Save? && DiskForm(codec, secure, e.nonce, e.keys).Some? && !Verdict(e.fates).Failed?
  }

  predicate NoCuts(run: seq<Event>) { forall i :: 0 <= i < |run| ==> !run[i].Cut? }

  /** The list of the last save that took place. */
  function LastTaken(codec: Codec, secure: Secure, start: Keys, run: seq<Event>): Keys
    decreases |run|
  {
    if run == [] then start
    else if Takes(codec, secure, run[|run| - 1]) then run[|run| - 1].keys
    else LastTaken(codec, secure, start, run[..|run| - 1])
  }

  /** The list is that of save number `n`, which worked or was in flight when its process died, or the
      one from before the run, and no later save was reported to have worked. */
  predicate LastReportedOrInFlight(codec: Codec, secure: Secure, start: Keys, run: seq<Event>, keys: Keys, n: nat) {
    && n <= |run|
    && (if n == 0 then keys == start else ReportedOrInFlight(codec, secure, run[n - 1]) && keys == run[n - 1].keys)
    && forall i :: n <= i < |run| ==> !Reported(codec, secure, run[i])
  }

  lemma {:induction false} LastTakenIsLast(codec: Codec, secure: Secure, start: Keys, run: seq<Event>) returns (n: nat)
    ensures LastReportedOrInFlight(codec, secure, start, run, LastTaken(codec, secure, start, run), n)
    decreases |run|
  {
    if run == [] {
      n := 0;
    } else if Takes(codec, secure, run[|run| - 1]) {
      n := |run|;
    } else {
      n := LastTakenIsLast(codec, secure, start, run[..|run| - 1]);
    }
  }

  lemma {:induction false} ExecSnoc(codec: Codec, secure: Secure, s: State, run: seq<Event>, e: Event)
    requires WellFormed(s)
    ensures Exec(codec, secure, s, run + [e]) == Next(codec, secure, Exec(codec, secure, s, run), e)
    decreases |run|
  {
    if run == [] {
      assert [e][1..] == [];
    } else {
      assert (run + [e])[1..] == run[1..] + [e];
      ExecSnoc(codec, secure, Next(codec, secure, s, run[0]), run[1..], e);
    }
  }

  lemma {:induction false} RunHoldsLast(codec: Codec, secure: Secure, s: State, lists: seq<Keys>, run: seq<Event>)
    returns (after: seq<Keys>)
    requires Faithful(codec, secure) && Holds(codec, secure, s, lists) && NoCuts(run)
    ensures Holds(codec, secure, Exec(codec, secure, s, run), after)
    ensures after[|after| - 1] == LastTaken(codec, secure, lists[|lists| - 1], run)
    decreases |run|
  {
    if run == [] {
      after := lists;
    } else {
      var n := |run| - 1;
      after := RunHoldsLast(codec, secure, s, lists, run[..n]);
      var t := Exec(codec, secure, s, run[..n]);
      NextHolds(codec, secure, t, after, run[n]);
      assert run == run[..n] + [run[n]];
      ExecSnoc(codec, secure, s, run[..n], run[n]);
      after := Lists(codec, secure, t, after, run[n]);
    }
  }

  /** After every run of saves that fail or die at any system call, without a power cut, loading
      succeeds and gives exactly the list of the last save that took place. That is the last one
      reported to have worked, or one that was in flight since when its process died. */
  lemma LoadAfterRun(codec: Codec, secure: Secure, s: State, lists: seq<Keys>, run: seq<Event>)
    requires Faithful(codec, secure) && Holds(codec, secure, s, lists) && NoCuts(run)
    ensures var start := lists[|lists| - 1]; var keys := LastTaken(codec, secure, start, run);
      && Loaded(codec, secure, Exec(codec, secure, s, run)) == Ok(keys)
      && exists n :: LastReportedOrInFlight(codec, secure, start, run, keys, n)
  {
    var after := RunHoldsLast(codec, secure, s, lists, run);
    var n := LastTakenIsLast(codec, secure, lists[|lists| - 1], run);
  }

  /** Some save of the run that worked or was in flight wrote the list. */
  predicate Wrote(codec: Codec, secure: Secure, run: seq<Event>, keys: Keys) {
    exists i :: 0 <= i < |run| && ReportedOrInFlight(codec, secure, run[i]) && run[i].keys == keys
  }

  /** Durable versions stay, whatever happens; what comes after them comes from the run. */
  lemma {:induction false} DurableStays(codec: Codec, secure: Secure, s: State, lists: seq<Keys>, run: seq<Event>,
                                        base: nat)
    returns (after: seq<Keys>)
    requires Faithful(codec, secure) && Holds(codec, secure, s, lists) && base <= s.durable + 1
    ensures Holds(codec, secure, Exec(codec, secure, s, run), after) && base <= |after|
    ensures after[..base] == lists[..base]
    ensures forall k :: base <= k < |after| ==> after[k] in lists[base..] || Wrote(codec, secure, run, after[k])
    decreases |run|
  {
    if run == [] {
      after := lists;
    } else {
      var e := run[0];
      NextHolds(codec, secure, s, lists, e);
      var more := Lists(codec, secure, s, lists, e);
      after := DurableStays(codec, secure, Next(codec, secure, s, e), more, run[1..], base);
      forall k | base <= k < |after| ensures after[k] in lists[base..] || Wrote(codec, secure, run, after[k]) {
        if Wrote(codec, secure, run[1..], after[k]) {
          var i :| 0 <= i < |run[1..]| && ReportedOrInFlight(codec, secure, run[1..][i]) &&
                   run[1..][i].keys == after[k];
          assert run[i + 1] == run[1..][i];
        } else {
          OneMoreList(codec, secure, s, lists, run, base, after[k]);
        }
      }
    }
  }

  lemma OneMoreList(codec: Codec, secure: Secure, s: State, lists: seq<Keys>, run: seq<Event>, base: nat, keys: Keys)
    requires WellFormed(s) && |lists| == |s.versions| && run != [] && base <= s.durable + 1
    requires keys in Lists(codec, secure, s, lists, run[0])[base..]
    ensures keys in lists[base..] || Wrote(codec, secure, run, keys)
  {
    var more := Lists(codec, secure, s, lists, run[0]);
    var k :| base <= k < |more| && more[k] == keys;
    if k < |lists| {
      assert lists[base..][k - base] == keys;
    } else {
      assert ReportedOrInFlight(codec, secure, run[0]) && run[0].keys == keys;
    }
  }

  lemma HoldsLoads(codec: Codec, secure: Secure, s: State, lists: seq<Keys>)
    requires Holds(codec, secure, s, lists)
    ensures lists != [] && Loaded(codec, secure, s) == Ok(lists[|lists| - 1])
  {
  }

  lemma LastOfDurable(codec: Codec, secure: Secure, flushed: State, lists: seq<Keys>, run: seq<Event>)
    returns (keys: Keys)
    requires Faithful(codec, secure) && Holds(codec, secure, flushed, lists) && flushed.durable == |lists| - 1
    ensures Loaded(codec, secure, Exec(codec, secure, flushed, run)) == Ok(keys)
    ensures keys == lists[|lists| - 1] || Wrote(codec, secure, run, keys)
  {
    var last := DurableStays(codec, secure, flushed, lists, run, |lists|);
    HoldsLoads(codec, secure, Exec(codec, secure, flushed, run), last);
    keys := last[|last| - 1];
    if |last| == |lists| { assert last[..|lists|][|lists| - 1] == lists[|lists| - 1]; }
  }

  /** With power cuts anywhere loading still succeeds, and what it gives is no older than what was
      newest when the directory was last known to be on disk. */
  lemma LoadAfterCuts(codec: Codec, secure: Secure, s: State, lists: seq<Keys>, before: seq<Event>, after: seq<Event>)
    requires Faithful(codec, secure) && Holds(codec, secure, s, lists)
    ensures var flushed := Exec(codec, secure, s, before + [Flush]);
      var r := Loaded(codec, secure, Exec(codec, secure, flushed, after));
      r.Ok? && (r == Loaded(codec, secure, Exec(codec, secure, s, before)) || Wrote(codec, secure, after, r.value))
  {
    var held := DurableStays(codec, secure, s, lists, before, 0);
    var t := Exec(codec, secure, s, before);
    HoldsLoads(codec, secure, t, held);
    ExecSnoc(codec, secure, s, before, Flush);
    NextHolds(codec, secure, t, held, Flush);
    var keys := LastOfDurable(codec, secure, Next(codec, secure, t, Flush), held, after);
  }

  /** What one event does to what is loaded next. */
  lemma LoadAfterEvent(codec: Codec, secure: Secure, s: State, lists: seq<Keys>, e: Event)
    requires Faithful(codec, secure) && Holds(codec, secure, s, lists)
    ensures var before := Loaded(codec, secure, s); var r := Loaded(codec, secure, Next(codec, secure, s, e));
      && (e.Flush? ==> r == before)
      && (e.Cut? ==> exists i :: s.durable <= i < |lists| && r == Ok(lists[i]))
      && (e.Save? ==>
            if DiskForm(codec, secure, e.nonce, e.keys).None? || Verdict(e.fates).Failed? then r == before
            else if Verdict(e.fates).Saved? then r == Ok(e.keys)
            else r == before || r == Ok(e.keys))
  {
    NextHolds(codec, secure, s, lists, e);
    var after := Lists(codec, secure, s, lists, e);
    if e.Cut? { assert after[|after| - 1] == lists[|after| - 1]; }
  }

  /** Flushes and saves that do not take place leave the versions alone; the newest is durable from the
      first flush on. */
  lemma {:induction false} IdleKeepsVersions(codec: Codec, secure: Secure, s: State, rest: seq<Event>)
    requires WellFormed(s)
    requires forall i :: 0 <= i < |rest| ==> rest[i].Flush? || (rest[i].Save? && !Takes(codec, secure, rest[i]))
    ensures var t := Exec(codec, secure, s, rest);
      && t.versions == s.versions
      && t.durable == if exists i :: 0 <= i < |rest| && rest[i].Flush? then |s.versions| - 1 else s.durable
    decreases |rest|
  {
    if rest != [] {
      IdleKeepsVersions(codec, secure, Next(codec, secure, s, rest[0]), rest[1..]);
      assert forall i :: 0 <= i < |rest[1..]| ==> rest[1..][i] == rest[i + 1];
      if i :| 0 <= i < |rest| && rest[i].Flush? {
        if i > 0 { assert rest[1..][i - 1].Flush?; }
      }
    }
  }

  lemma FlushedSurvives(codec: Codec, secure: Secure, t: State, keys: Keys)
    requires WellFormed(t) && Loaded(codec, secure, t) == Ok(keys) && t.durable == |t.versions| - 1
    requires Visible(t).Some? ==> Visible(t).value.synced
    ensures forall back, garbage :: Loaded(codec, secure, PowerCut(t, back, garbage)) == Ok(keys)
  {
    forall back, garbage ensures PowerCut(t, back, garbage) == t { CutOfDurable(t, back, garbage); }
  }

  lemma UnflushedDoesNot(codec: Codec, secure: Secure, s: State, lists: seq<Keys>, t: State)
    requires Holds(codec, secure, s, lists) && WellFormed(t)
    requires s.durable == t.durable && |t.versions| == |s.versions| + 1 && t.versions[..|s.versions|] == s.versions
    ensures Loaded(codec, secure, PowerCut(t, 1, [])) == Ok(lists[|lists| - 1])
  {
    HoldsLoads(codec, secure, s, lists);
    CutOfNewest(s, t);
    LoadedByVersions(codec, secure, PowerCut(t, 1, []), s);
  }

  /** A save that worked survives every power cut exactly if the directory was flushed since, as long
      as no other save took place. */
  lemma SurvivesIffFlushed(codec: Codec, secure: Secure, s: State, lists: seq<Keys>, e: Event, rest: seq<Event>)
    requires Faithful(codec, secure) && Holds(codec, secure, s, lists)
    requires Reported(codec, secure, e) && e.keys != lists[|lists| - 1]
    requires forall i :: 0 <= i < |rest| ==> rest[i].Flush? || (rest[i].Save? && !Takes(codec, secure, rest[i]))
    ensures var t := Exec(codec, secure, Next(codec, secure, s, e), rest);
      (forall back, garbage :: Loaded(codec, secure, PowerCut(t, back, garbage)) == Ok(e.keys))
      <==> exists i :: 0 <= i < |rest| && rest[i].Flush?
  {
    var u := Next(codec, secure, s, e);
    NextHolds(codec, secure, s, lists, e);
    HoldsLoads(codec, secure, u, Lists(codec, secure, s, lists, e));
    IdleKeepsVersions(codec, secure, u, rest);
    var t := Exec(codec, secure, u, rest);
    LoadedByVersions(codec, secure, t, u);
    if exists i :: 0 <= i < |rest| && rest[i].Flush? {
      FlushedSurvives(codec, secure, t, e.keys);
    } else {
      UnflushedDoesNot(codec, secure, s, lists, t);
    }
  }

  lemma LoadedByVersions(codec: Codec, secure: Secure, s: State, t: State)
    requires WellFormed(s) && WellFormed(t) && s.versions == t.versions
    ensures Loaded(codec, secure, s) == Loaded(codec, secure, t)
  {
  }

  /** A durable version on disk stays. */
  lemma CutOfDurable(s: State, back: nat, garbage: Blob)
    requires WellFormed(s) && s.durable == |s.versions| - 1 && (Visible(s).Some? ==> Visible(s).value.synced)
    ensures PowerCut(s, back, garbage) == s
  {
    assert s.versions == s.versions[..s.durable] + [s.versions[s.durable]];
  }

  lemma CutOfNewest(s: State, t: State)
    requires WellFormed(s) && WellFormed(t) && s.durable == t.durable && |t.versions| == |s.versions| + 1
    requires t.versions[..|s.versions|] == s.versions && (Visible(s).Some? ==> Visible(s).value.synced)
    ensures PowerCut(t, 1, []).versions == s.versions
  {
    var n := |s.versions|;
    assert t.versions[..n - 1] == s.versions[..n - 1] && t.versions[n - 1] == s.versions[n - 1];
    assert s.versions == s.versions[..n - 1] + [s.versions[n - 1]];
  }

  lemma TwoEvents(codec: Codec, secure: Secure, s: State, first: Event, second: Event)
    requires WellFormed(s)
    ensures Exec(codec, secure, s, [first, second]) == Next(codec, secure, Next(codec, secure, s, first), second)
  {
    var t := Next(codec, secure, s, first);
    assert [first, second][1..] == [second];
    assert Exec(codec, secure, t, [second]) == Exec(codec, secure, Next(codec, secure, t, second), [second][1..]);
  }

  /** The directory is not synced after the rename: a power cut right after a save that reported
      success can undo it completely. */
  lemma SavedCanBeUndone(codec: Codec, secure: Secure, s: State, lists: seq<Keys>, keys: Keys, nonce: Blob, f: Fates)
    requires Holds(codec, secure, s, lists) && Verdict(f).Saved? && DiskForm(codec, secure, nonce, keys).Some?
    ensures Exec(codec, secure, s, [Save(keys, nonce, f), Cut(1, [])]) == s
  {
    var t := Next(codec, secure, s, Save(keys, nonce, f));
    var n := |s.versions|;
    assert s.versions == s.versions[..n - 1] + [s.versions[n - 1]];
    assert t.versions[..n - 1] == s.versions[..n - 1];
    assert PowerCut(t, 1, []) == s;
    TwoEvents(codec, secure, s, Save(keys, nonce, f), Cut(1, []));
  }

  // ---------------------------------------------------------------- the stores as code

  /** The directory that holds the credential file and its temporary files. */
  class Directory {
    var versions: seq<Option<File>>
    var durable: nat
    var temps: map<nat, File>
    var nextName: nat

    ghost predicate Valid() reads this { durable < |versions| && forall t :: t in temps ==> t < nextName }

    ghost function View(): State reads this { State(versions, durable, |temps|) }

    constructor (file: Option<Blob>)
      ensures Valid() && View() == State([if file.None? then None else Some(File(file.value, true))], 0, 0)
    {
      versions := [if file.None? then None else Some(File(file.value, true))];
      durable, temps, nextName := 0, map[], 0;
    }

    method CreateTemp(fate: Fate) returns (name: nat)
      requires Valid()
      modifies this
      ensures Valid() && versions == old(versions) && durable == old(durable)
      ensures name !in old(temps)
      ensures temps == if fate.Works? then old(temps)[name := File([], false)] else old(temps)
    {
      name := nextName;
      if fate.Works? {
        temps := temps[name := File([], false)];
        nextName := nextName + 1;
      }
    }

    /** A write that does not work may have written any part of the data. */
    method WriteTemp(name: nat, data: Blob, part: nat, fate: Fate)
      requires Valid() && name in temps
      modifies this
      ensures Valid() && versions == old(versions) && durable == old(durable)
      ensures name in temps && temps.Keys == old(temps).Keys && !temps[name].synced
      ensures fate.Works? ==> temps[name].content == data
      ensures temps - {name} == old(temps) - {name}
    {
      var written := if fate.Works? then data else data[..if part <= |data| then part else |data|];
      temps := temps[name := File(written, false)];
    }

    method SyncTemp(name: nat, fate: Fate)
      requires Valid() && name in temps
      modifies this
      ensures Valid() && versions == old(versions) && durable == old(durable)
      ensures name in temps && temps.Keys == old(temps).Keys && temps - {name} == old(temps) - {name}
      ensures temps[name] == File(old(temps)[name].content, fate.Works? || old(temps)[name].synced)
    {
      if fate.Works? { temps := temps[name := File(temps[name].content, true)]; }
    }

    method Rename(name: nat, fate: Fate, landed: bool)
      requires Valid() && name in temps
      modifies this
      ensures Valid() && durable == old(durable)
      ensures if fate.Works? || (fate.Dies? && landed) then
                versions == old(versions) + [Some(old(temps)[name])] && temps == old(temps) - {name}
              else
                versions == old(versions) && temps == old(temps)
    {
      if fate.Works? || (fate.Dies? && landed) {
        versions := versions + [Some(temps[name])];
        temps := temps - {name};
      }
    }

    method Remove(name: nat, fate: Fate)
      requires Valid()
      modifies this
      ensures Valid() && versions == old(versions) && durable == old(durable)
      ensures temps == if fate.Works? then old(temps) - {name} else old(temps)
    {
      if fate.Works? { temps := temps - {name}; }
    }

    /** Between the creation of the temporary file and the deferred removal. */
    method FillAndRename(name: nat, data: Blob, part: nat, f: Fates) returns (outcome: Outcome)
      requires Valid() && name in temps && f.create.Works?
      modifies this
      ensures Valid() && durable == old(durable)
      ensures Renamed(f) ==> versions == old(versions) + [Some(File(data, true))] && temps == old(temps) - {name}
      ensures !Renamed(f) ==> versions == old(versions) && name in temps && temps - {name} == old(temps) - {name}
      ensures outcome == Verdict(f.(cleanup := Works))
    {
      ghost var others := temps - {name};
      WriteTemp(name, data, part, f.write);
      if f.write.Dies? { return Died; }
      if f.write.Fails? { return Failed; }
      SyncTemp(name, f.sync);
      if f.sync.Dies? { return Died; }
      if f.sync.Fails? { return Failed; }
      if f.close.Dies? { return Died; }
      if f.close.Fails? { return Failed; }
      Rename(name, f.rename, f.landed);
      if f.rename.Dies? { return Died; }
      if f.rename.Fails? { return Failed; }
      return Saved;
    }

    /** The same with the deferred removal. */
    method FillRenameRemove(name: nat, data: Blob, part: nat, f: Fates) returns (outcome: Outcome)
      requires Valid() && name in temps && f.create.Works?
      modifies this
      ensures Valid() && durable == old(durable) && temps - {name} == old(temps) - {name}
      ensures versions == if Renamed(f) then old(versions) + [Some(File(data, true))] else old(versions)
      ensures name in temps <==> LeavesLitter(f)
      ensures outcome == Verdict(f)
    {
      outcome := FillAndRename(name, data, part, f);
      if outcome.Died? { return; }
      Remove(name, f.cleanup);
      if f.cleanup.Dies? { return Died; }
    }

    /** Temporary file, write, fsync, close, rename; whatever happens, the removal is deferred. */
    method ReplaceFile(data: Blob, part: nat, f: Fates) returns (outcome: Outcome)
      requires Valid()
      modifies this
      ensures Valid() && outcome == Verdict(f) && View() == Replace(old(View()), data, f)
    {
      var name := CreateTemp(f.create);
      if f.create.Dies? { return Died; }
      if f.create.Fails? { return Failed; }
      assert temps - {name} == old(temps);
      outcome := FillRenameRemove(name, data, part, f);
      AllButOne(temps, name, old(temps));
    }

    lemma AllButOne(m: map<nat, File>, name: nat, others: map<nat, File>)
      requires m - {name} == others
      ensures |m| == |others| + if name in m then 1 else 0
    {
      assert name in m ==> m.Keys == others.Keys + {name};
      assert name !in m ==> m.Keys == others.Keys;
      assert |m.Keys| == |m| && |others.Keys| == |others|;
    }
  }

  class EncryptingStorer {
    const dir: Directory
    const codec: Codec
    const secure: Secure

    constructor (dir: Directory, codec: Codec, secure: Secure)
      ensures this.dir == dir && this.codec == codec && this.secure == secure
    {
      this.dir, this.codec, this.secure := dir, codec, secure;
    }

    /** Fails without touching the file when the list cannot be serialised or encrypted. */
    method Save(keys: Keys, nonce: Blob, part: nat, f: Fates) returns (outcome: Outcome)
      requires dir.Valid()
      modifies dir
      ensures dir.Valid() && dir.View() == Next(codec, secure, old(dir.View()), Event.Save(keys, nonce, f))
      ensures outcome == if DiskForm(codec, secure, nonce, keys).None? then Failed else Verdict(f)
    {
      var data := codec.marshal(keys);
      if data.None? { return Failed; }
      if secure.Secure? {
        data := secure.encrypt(nonce, data.value);
        if data.None? { return Failed; }
      }
      outcome := dir.ReplaceFile(data.value, part, f);
    }

    method Load(readOk: bool) returns (r: Result<Keys, LoadError>)
      requires dir.Valid()
      ensures r == if readOk then Loaded(codec, secure, dir.View()) else Err(ReadFailed)
    {
      if !readOk { return Err(ReadFailed); }
      var file := dir.versions[|dir.versions| - 1];
      if file.None? { return Ok([]); }
      var data := Some(file.value.content);
      if secure.Secure? {
        data := secure.decrypt(file.value.content);
        if data.None? {
          return Err(if LooksLikePlaintext(file.value.content) then NotMigrated else Tampered);
        }
      }
      var keys := codec.unmarshal(data.value);
      return if keys.None? then Err(Corrupt) else Ok(keys.value);
    }
  }

  class CredentialStore {
    const dir: Directory
    const codec: Codec

    constructor (dir: Directory, codec: Codec)
      ensures this.dir == dir && this.codec == codec
    {
      this.dir, this.codec := dir, codec;
    }

    /** The same file as a plain encrypting store would leave. */
    method Save(keys: Keys, part: nat, f: Fates) returns (outcome: Outcome)
      requires dir.Valid()
      modifies dir
      ensures dir.Valid() && dir.View() == Next(codec, Plain, old(dir.View()), Event.Save(keys, [], f))
      ensures outcome == if codec.marshal(keys).None? then Failed else Verdict(f)
    {
      var data := codec.marshal(keys);
      if data.None? { return Failed; }
      outcome := dir.ReplaceFile(data.value, part, f);
    }

    /** And what such a store left is read the same. */
    method Load(readOk: bool) returns (r: Result<Keys, LoadError>)
      requires dir.Valid()
      ensures r == if readOk then Loaded(codec, Plain, dir.View()) else Err(ReadFailed)
    {
      if !readOk { return Err(ReadFailed); }
      var file := dir.versions[|dir.versions| - 1];
      if file.None? { return Ok([]); }
      var keys := codec.unmarshal(file.value.content);
      return if keys.None? then Err(Corrupt) else Ok(keys.value);
    }
  }
}
