/**
The account store's master key: any number of processes start at once, and each reads the key or
creates it inside a section guarded by an exclusively created lock file. A waiter past its deadline
removes the lock file; a process may crash anywhere and leave the lock file behind.

The key file is written in one of two ways. Next to an assembled volume root it is truncated and then
copied in place, so a failure or a crash can leave any part of the key. Without a volume root it is
replaced by a rename.
*/
module CreateOnceKey {
  import opened Wrappers
  import opened Bytes

  /** What one call returns: the key, or some error. */
  type Answer = Option<string>

  const KEY_DIGITS: nat := 64

  datatype Pc =
    | Opening               // about to create the lock file exclusively
    | Waiting               // found the lock file; before its deadline it sleeps and tries again
    | Reading               // owns the section; about to read the key
    | Creating              // there was none; about to draw 32 random bytes
    | Writing(key: string)  // about to rename the key into place, or to open and truncate the key file
    | Copying(key: string, n: nat) // in place: `n` digits copied; about to copy the next, or to close
    | Restricting(key: string) // written; about to set its permissions
    | Leaving(answer: Answer)  // about to remove the lock file
    | Done(answer: Answer)
    | Crashed

  /** `key` is the content of the key file, `inPlace` the way it is written. `drawn` counts the keys
      generated, `lost` those that never got to the disk as a whole. */
  datatype State = State(inPlace: bool, lock: bool, key: Option<string>, procs: seq<Pc>, drawn: nat, lost: nat)

  function Init(inPlace: bool, key: Option<string>): State { State(inPlace, false, key, [], 0, 0) }

  datatype Action =
    | Arrive
    | Advance(proc: nat, ok: bool, random: seq<Byte>) // its next action; `ok` is false when the system call fails
    | TakeOver(proc: nat)                             // past its deadline: removes the lock file, tries again
    | Crash(proc: nat)

  predicate InSection(pc: Pc) {
    pc.Reading? || pc.Creating? || pc.Writing? || pc.Copying? || pc.Restricting? || pc.Leaving?
  }

  function WithProc(s: State, i: nat, pc: Pc): State
    requires i < |s.procs|
  {
    s.(procs := s.procs[i := pc])
  }

  /** Reading: a missing file leads to creation, an empty file and a failed read are errors. */
  function AfterRead(key: Option<string>, ok: bool): Pc {
    if !ok then Leaving(None)
    else if key.None? then Creating
    else Leaving(if key.value == "" then None else key)
  }

  /** The file after one digit was written at a position; a gap reads as zeros. */
  function WriteAt(key: Option<string>, n: nat, c: char): string {
    var was := if key.None? then "" else key.value;
    if n < |was| then was[n := c] else was + Zeros(n - |was|) + [c]
  }

  function Zeros(n: nat): string { if n == 0 then "" else Zeros(n - 1) + ['\0'] }

  lemma WriteAtEnd(k: string, n: nat)
    requires n < |k|
    ensures WriteAt(Some(k[..n]), n, k[n]) == k[..n + 1]
  {
    assert Zeros(0) == "" && k[..n] + "" == k[..n];
  }

  /** Whether the process holds a drawn key that is not on disk as a whole. */
  function Unfinished(pc: Pc): nat {
    if pc.Writing? || (pc.Copying? && pc.n < |pc.key|) then 1 else 0
  }

  function Step(s: State, i: nat, ok: bool, random: seq<Byte>): State
    requires i < |s.procs|
  {
    match s.procs[i]
    case Opening =>
      if s.lock then WithProc(s, i, Waiting)
      else if ok then WithProc(s, i, Reading).(lock := true)
      else WithProc(s, i, Done(None))
    case Waiting => WithProc(s, i, Opening)
    case Reading => WithProc(s, i, AfterRead(s.key, ok))
    case Creating =>
      if ok && |random| == 32 then WithProc(s, i, Writing(Hex(random))).(drawn := s.drawn + 1)
      else WithProc(s, i, Leaving(None))
    case Writing(k) =>
      if !ok then WithProc(s, i, Leaving(None)).(lost := s.lost + 1)
      else if s.inPlace then WithProc(s, i, Copying(k, 0)).(key := Some(""))
      else WithProc(s, i, Restricting(k)).(key := Some(k))
    case Copying(k, n) =>
      if !ok then WithProc(s, i, Leaving(None)).(lost := s.lost + Unfinished(s.procs[i]))
      else if n < |k| then WithProc(s, i, Copying(k, n + 1)).(key := Some(WriteAt(s.key, n, k[n])))
      else WithProc(s, i, Restricting(k))
    case Restricting(k) => WithProc(s, i, Leaving(if ok then Some(k) else None))
    case Leaving(answer) => WithProc(s, i, Done(answer)).(lock := s.lock && !ok)
    case _ => s
  }

  function Next(s: State, a: Action): State {
    match a
    case Arrive => s.(procs := s.procs + [Opening])
    case Advance(i, ok, random) => if i < |s.procs| then Step(s, i, ok, random) else s
    case TakeOver(i) =>
      if i < |s.procs| && s.procs[i].Waiting? then WithProc(s, i, Opening).(lock := false) else s
    case Crash(i) =>
      if i < |s.procs| && !s.procs[i].Done? then
        WithProc(s, i, Crashed).(lost := s.lost + Unfinished(s.procs[i]))
      else s
  }

  function Exec(s: State, run: seq<Action>): State
    decreases |run|
  {
    if run == [] then s else Exec(Next(s, run[0]), run[1..])
  }

  // ---------------------------------------------------------------- exclusion

  ghost predicate NobodyInside(s: State) {
    forall i :: 0 <= i < |s.procs| ==> !InSection(s.procs[i])
  }

  /** The deadline heuristic was right each time: a lock file is only removed after the process that
      created it crashed or failed to remove it, never under a process inside the section. */
  ghost predicate Timely(s: State, run: seq<Action>)
    decreases |run|
  {
    run != [] ==>
      (run[0].TakeOver? && Next(s, run[0]) != s ==> NobodyInside(s)) && Timely(Next(s, run[0]), run[1..])
  }

  ghost predicate PcOk(pc: Pc, s: State) {
    match pc
    case Creating => s.key.None?
    case Writing(k) => s.key.None? && |k| == KEY_DIGITS
    case Copying(k, n) => s.inPlace && |k| == KEY_DIGITS && n <= |k| && s.key == Some(k[..n])
    case Restricting(k) => s.key == Some(k) && |k| == KEY_DIGITS
    case Leaving(answer) => AnswerOk(answer, s)
    case Done(answer) => AnswerOk(answer, s)
    case _ => true
  }

  ghost predicate AnswerOk(answer: Answer, s: State) {
    answer.Some? ==> s.key == answer && answer.value != ""
  }

  predicate Answered(pc: Pc) { (pc.Leaving? || pc.Done?) && pc.answer.Some? }

  predicate Puts(pc: Pc) { pc.Writing? || pc.Copying? }

  ghost predicate OneInside(s: State) {
    forall i, j :: 0 <= i < |s.procs| && 0 <= j < |s.procs| && InSection(s.procs[i]) && InSection(s.procs[j]) ==> i == j
  }

  ghost predicate SomeonePuts(s: State) { exists i :: 0 <= i < |s.procs| && Puts(s.procs[i]) }

  ghost predicate SomeoneHolds(s: State) { exists i :: 0 <= i < |s.procs| && Unfinished(s.procs[i]) == 1 }

  /** While the key file is being put there, nobody has an answer, and there was no key before. */
  ghost predicate PuttingOk(s: State, key0: Option<string>) {
    && (key0.Some? ==> s.key == key0 && forall i :: 0 <= i < |s.procs| ==> !Puts(s.procs[i]))
    && forall i, j :: 0 <= i < |s.procs| && 0 <= j < |s.procs| && Puts(s.procs[i]) ==> !Answered(s.procs[j])
  }

  ghost predicate Inv(s: State, key0: Option<string>) {
    && OneInside(s)
    && (!s.lock ==> NobodyInside(s))
    && (forall i :: 0 <= i < |s.procs| ==> PcOk(s.procs[i], s))
    && PuttingOk(s, key0)
  }

  lemma StepKeepsSection(s: State, key0: Option<string>, i: nat, ok: bool, random: seq<Byte>)
    requires Inv(s, key0) && i < |s.procs|
    ensures OneInside(Step(s, i, ok, random)) && (!Step(s, i, ok, random).lock ==> NobodyInside(Step(s, i, ok, random)))
  {
  }

  lemma OwnPcOk(s: State, i: nat, ok: bool, random: seq<Byte>)
    requires i < |s.procs| && PcOk(s.procs[i], s)
    ensures PcOk(Step(s, i, ok, random).procs[i], Step(s, i, ok, random))
  {
    if s.procs[i].Copying? {
      var k, n := s.procs[i].key, s.procs[i].n;
      if n < |k| { WriteAtEnd(k, n); } else { assert k[..n] == k; }
    }
  }

  /** Only a process that puts the key there changes it. */
  lemma KeyChanges(s: State, i: nat, ok: bool, random: seq<Byte>)
    requires i < |s.procs| && !Puts(s.procs[i])
    ensures Step(s, i, ok, random).key == s.key
  {
  }

  lemma StepKeepsPcs(s: State, key0: Option<string>, i: nat, ok: bool, random: seq<Byte>)
    requires Inv(s, key0) && i < |s.procs|
    ensures forall j :: 0 <= j < |s.procs| ==> PcOk(Step(s, i, ok, random).procs[j], Step(s, i, ok, random))
  {
    var t := Step(s, i, ok, random);
    OwnPcOk(s, i, ok, random);
    if !Puts(s.procs[i]) { KeyChanges(s, i, ok, random); }
    forall j | 0 <= j < |s.procs| ensures PcOk(t.procs[j], t) {
      if j != i { assert t.procs[j] == s.procs[j] && PcOk(s.procs[j], s); }
    }
  }

  lemma StepKeepsPutting(s: State, key0: Option<string>, i: nat, ok: bool, random: seq<Byte>)
    requires Inv(s, key0) && i < |s.procs|
    ensures PuttingOk(Step(s, i, ok, random), key0)
  {
    var t := Step(s, i, ok, random);
    assert PcOk(s.procs[i], s);
    if !Puts(s.procs[i]) { KeyChanges(s, i, ok, random); }
    forall j | 0 <= j < |t.procs| && Puts(t.procs[i]) ensures !Answered(t.procs[j]) {
      if j != i { assert PcOk(s.procs[j], s); }
    }
  }

  /** Arriving, crashing and removing a stale lock file leave the key alone. */
  lemma OthersKeepInv(s: State, key0: Option<string>, a: Action)
    requires Inv(s, key0) && !a.Advance? && (a.TakeOver? && Next(s, a) != s ==> NobodyInside(s))
    ensures Inv(Next(s, a), key0)
  {
    var t := Next(s, a);
    assert t.key == s.key && t.inPlace == s.inPlace && |s.procs| <= |t.procs|;
    forall j | 0 <= j < |t.procs|
      ensures PcOk(t.procs[j], t) && (InSection(t.procs[j]) ==> j < |s.procs| && t.procs[j] == s.procs[j])
    {
      if j < |s.procs| { assert PcOk(s.procs[j], s); }
    }
  }

  lemma NextKeepsInv(s: State, key0: Option<string>, a: Action)
    requires Inv(s, key0) && (a.TakeOver? && Next(s, a) != s ==> NobodyInside(s))
    ensures Inv(Next(s, a), key0)
  {
    if a.Advance? {
      if a.proc < |s.procs| {
        StepKeepsSection(s, key0, a.proc, a.ok, a.random);
        StepKeepsPcs(s, key0, a.proc, a.ok, a.random);
        StepKeepsPutting(s, key0, a.proc, a.ok, a.random);
      }
    } else {
      OthersKeepInv(s, key0, a);
    }
  }

  lemma {:induction false} ExecKeepsInv(s: State, key0: Option<string>, run: seq<Action>)
    requires Inv(s, key0) && Timely(s, run)
    ensures Inv(Exec(s, run), key0)
    decreases |run|
  {
    if run != [] {
      NextKeepsInv(s, key0, run[0]);
      ExecKeepsInv(Next(s, run[0]), key0, run[1..]);
    }
  }

  /** Every drawn key is lost, still on its way, or on disk as a whole. */
  ghost predicate DrawnOk(s: State, key0: Option<string>) {
    s.drawn == s.lost + (if SomeoneHolds(s) then 1 else 0) + (if key0.None? && IsWhole(s.key) then 1 else 0)
  }

  predicate IsWhole(key: Option<string>) { key.Some? && |key.value| == KEY_DIGITS }

  /** Someone holds an unfinished key after process `i` acted exactly if `i` does, or somebody else did. */
  lemma HoldersOf(s: State, t: State, i: nat)
    requires i < |s.procs| == |t.procs| && t.procs == s.procs[i := t.procs[i]]
    ensures Unfinished(t.procs[i]) == 1 ==> SomeoneHolds(t)
    ensures Unfinished(s.procs[i]) == 1 ==> SomeoneHolds(s)
    ensures (forall j :: 0 <= j < |s.procs| && j != i ==> !InSection(s.procs[j])) ==>
              (SomeoneHolds(s) <==> Unfinished(s.procs[i]) == 1) && (SomeoneHolds(t) <==> Unfinished(t.procs[i]) == 1)
    ensures Unfinished(s.procs[i]) == Unfinished(t.procs[i]) ==> SomeoneHolds(s) == SomeoneHolds(t)
  {
    if SomeoneHolds(s) {
      var j :| 0 <= j < |s.procs| && Unfinished(s.procs[j]) == 1;
      assert j != i ==> Unfinished(t.procs[j]) == 1;
    }
    if SomeoneHolds(t) {
      var j :| 0 <= j < |t.procs| && Unfinished(t.procs[j]) == 1;
      assert j != i ==> Unfinished(s.procs[j]) == 1;
    }
  }

  lemma PuttingKeepsDrawn(s: State, key0: Option<string>, i: nat, ok: bool, random: seq<Byte>)
    requires Inv(s, key0) && DrawnOk(s, key0) && i < |s.procs| && Puts(s.procs[i])
    ensures DrawnOk(Step(s, i, ok, random), key0)
  {
    assert PcOk(s.procs[i], s);
    OwnPcOk(s, i, ok, random);
    HoldersOf(s, Step(s, i, ok, random), i);
  }

  lemma OtherwiseKeepsDrawn(s: State, key0: Option<string>, i: nat, ok: bool, random: seq<Byte>)
    requires Inv(s, key0) && DrawnOk(s, key0) && i < |s.procs| && !Puts(s.procs[i])
    ensures DrawnOk(Step(s, i, ok, random), key0)
  {
    assert PcOk(s.procs[i], s);
    KeyChanges(s, i, ok, random);
    HoldersOf(s, Step(s, i, ok, random), i);
  }

  lemma StepKeepsDrawn(s: State, key0: Option<string>, i: nat, ok: bool, random: seq<Byte>)
    requires Inv(s, key0) && DrawnOk(s, key0) && i < |s.procs|
    ensures DrawnOk(Step(s, i, ok, random), key0)
  {
    if Puts(s.procs[i]) {
      PuttingKeepsDrawn(s, key0, i, ok, random);
    } else {
      OtherwiseKeepsDrawn(s, key0, i, ok, random);
    }
  }

  lemma NextKeepsDrawn(s: State, key0: Option<string>, a: Action)
    requires Inv(s, key0) && DrawnOk(s, key0)
    ensures DrawnOk(Next(s, a), key0)
  {
    var t := Next(s, a);
    match a {
      case Arrive =>
        forall j | 0 <= j < |s.procs| ensures t.procs[j] == s.procs[j] {}
        if SomeoneHolds(s) {
          var j :| 0 <= j < |s.procs| && Unfinished(s.procs[j]) == 1;
          assert Unfinished(t.procs[j]) == 1;
        }
      case Advance(i, ok, random) => if i < |s.procs| { StepKeepsDrawn(s, key0, i, ok, random); }
      case TakeOver(i) => if t != s { HoldersOf(s, t, i); }
      case Crash(i) => if t != s { HoldersOf(s, t, i); }
    }
  }

  lemma {:induction false} ExecKeepsDrawn(s: State, key0: Option<string>, run: seq<Action>)
    requires Inv(s, key0) && DrawnOk(s, key0) && Timely(s, run)
    ensures DrawnOk(Exec(s, run), key0)
    decreases |run|
  {
    if run != [] {
      NextKeepsInv(s, key0, run[0]);
      NextKeepsDrawn(s, key0, run[0]);
      ExecKeepsDrawn(Next(s, run[0]), key0, run[1..]);
    }
  }

  /** In every timely run, with crashes and failing system calls anywhere, and whichever way the key
      file is written: at most one process is inside, an existing key is kept, all drawn keys but one
      are lost or never got to the disk as a whole, and whoever succeeds returns the key on disk. */
  lemma CreatedOnce(inPlace: bool, key0: Option<string>, run: seq<Action>)
    requires Timely(Init(inPlace, key0), run)
    ensures var s := Exec(Init(inPlace, key0), run);
      && OneInside(s)
      && (key0.Some? ==> s.key == key0)
      && s.lost <= s.drawn <= s.lost + 1
      && (forall i :: 0 <= i < |s.procs| && s.procs[i].Done? && s.procs[i].answer.Some? ==> s.procs[i].answer == s.key)
  {
    assert !SomeoneHolds(Init(inPlace, key0));
    ExecKeepsInv(Init(inPlace, key0), key0, run);
    ExecKeepsDrawn(Init(inPlace, key0), key0, run);
    var s := Exec(Init(inPlace, key0), run);
    forall i | 0 <= i < |s.procs| && s.procs[i].Done? && s.procs[i].answer.Some? ensures s.procs[i].answer == s.key {
      assert PcOk(s.procs[i], s);
    }
    forall i | 0 <= i < |s.procs| && Unfinished(s.procs[i]) == 1 ensures !IsWhole(s.key) { assert PcOk(s.procs[i], s); }
  }

  /** A key on disk that nobody is putting there stays as it is. */
  lemma {:induction false} KeyIsStable(s: State, key0: Option<string>, run: seq<Action>)
    requires Inv(s, key0) && Timely(s, run) && s.key.Some? && !SomeonePuts(s)
    ensures Exec(s, run).key == s.key && !SomeonePuts(Exec(s, run))
    decreases |run|
  {
    if run != [] {
      NextKeepsInv(s, key0, run[0]);
      NobodyStartsPutting(s, run[0]);
      KeyIsStable(Next(s, run[0]), key0, run[1..]);
    }
  }

  lemma NobodyStartsPutting(s: State, a: Action)
    requires s.key.Some? && !SomeonePuts(s) && forall i :: 0 <= i < |s.procs| ==> PcOk(s.procs[i], s)
    ensures Next(s, a).key == s.key && !SomeonePuts(Next(s, a))
  {
    var t := Next(s, a);
    if a.Advance? && a.proc < |s.procs| {
      assert !Puts(s.procs[a.proc]) && PcOk(s.procs[a.proc], s);
      KeyChanges(s, a.proc, a.ok, a.random);
    }
    forall i | 0 <= i < |t.procs| ensures !Puts(t.procs[i]) {
      if i < |s.procs| { assert !Puts(s.procs[i]); }
    }
  }

  lemma {:induction false} ExecConcat(s: State, r0: seq<Action>, r1: seq<Action>)
    ensures Exec(s, r0 + r1) == Exec(Exec(s, r0), r1)
    ensures Timely(s, r0 + r1) <==> Timely(s, r0) && Timely(Exec(s, r0), r1)
    decreases |r0|
  {
    if r0 == [] {
      assert r0 + r1 == r1;
    } else {
      assert (r0 + r1)[1..] == r0[1..] + r1;
      ExecConcat(Next(s, r0[0]), r0[1..], r1);
    }
  }

  /** An answer is the key on disk, and nobody is putting another one there. */
  lemma AnswerIsSettled(s: State, key0: Option<string>, i: nat)
    requires Inv(s, key0) && i < |s.procs| && Answered(s.procs[i])
    ensures s.key == s.procs[i].answer && s.key.value != "" && !SomeonePuts(s)
  {
    assert PcOk(s.procs[i], s);
  }

  /** Any two successful callers of a timely run hold the same bytes, however far apart they return. */
  lemma SameBytes(inPlace: bool, key0: Option<string>, run: seq<Action>, more: seq<Action>, i: nat, j: nat)
    requires Timely(Init(inPlace, key0), run + more)
    requires var s := Exec(Init(inPlace, key0), run); i < |s.procs| && s.procs[i].Done? && s.procs[i].answer.Some?
    requires var t := Exec(Init(inPlace, key0), run + more);
      j < |t.procs| && t.procs[j].Done? && t.procs[j].answer.Some?
    ensures Exec(Init(inPlace, key0), run).procs[i].answer == Exec(Init(inPlace, key0), run + more).procs[j].answer
  {
    var s := Exec(Init(inPlace, key0), run);
    ExecConcat(Init(inPlace, key0), run, more);
    ExecKeepsInv(Init(inPlace, key0), key0, run);
    ExecKeepsInv(s, key0, more);
    AnswerIsSettled(s, key0, i);
    KeyIsStable(s, key0, more);
    AnswerIsSettled(Exec(s, more), key0, j);
  }

  // ---------------------------------------------------------------- whole and torn keys

  /** The action ends a copy before its last digit: the copying fails, or its process crashes. */
  predicate TearsNow(s: State, a: Action) {
    (a.Crash? || (a.Advance? && !a.ok)) && a.proc < |s.procs| &&
    s.procs[a.proc].Copying? && s.procs[a.proc].n < |s.procs[a.proc].key|
  }

  predicate Tears(s: State, run: seq<Action>)
    decreases |run|
  {
    run != [] && (TearsNow(s, run[0]) || Tears(Next(s, run[0]), run[1..]))
  }

  /** The key file is torn if a copy was; otherwise what is there and settled is whole. */
  ghost predicate WholeOk(s: State, torn: bool) {
    && (torn ==> s.key.Some? && !IsWhole(s.key) && !SomeonePuts(s))
    && (!torn && s.key.Some? && !SomeonePuts(s) ==> IsWhole(s.key))
  }

  lemma SettledIsWhole(s: State, torn: bool, a: Action)
    requires Inv(s, None) && WholeOk(s, torn) && !SomeonePuts(s)
    ensures WholeOk(Next(s, a), torn) && !TearsNow(s, a)
  {
    if s.key.Some? { NobodyStartsPutting(s, a); }
    if a.Advance? && a.proc < |s.procs| {
      assert !Puts(s.procs[a.proc]);
      KeyChanges(s, a.proc, a.ok, a.random);
    }
  }

  lemma OwnPutIsWhole(s: State, a: Action, i: nat)
    requires Inv(s, None) && i < |s.procs| && Puts(s.procs[i]) && PcOk(s.procs[i], s)
    requires Inv(Next(s, a), None) && Next(s, a) != s && !a.Arrive? && a.proc == i
    ensures WholeOk(Next(s, a), TearsNow(s, a))
  {
    var t := Next(s, a);
    forall j | 0 <= j < |t.procs| && j != i ensures !Puts(t.procs[j]) {
      assert t.procs[j] == s.procs[j] && !InSection(s.procs[j]);
    }
    if Puts(t.procs[i]) { assert SomeonePuts(t); }
    assert PcOk(t.procs[i], t);
  }

  lemma PuttingIsWhole(s: State, a: Action, i: nat)
    requires Inv(s, None) && WholeOk(s, false) && i < |s.procs| && Puts(s.procs[i])
    requires Inv(Next(s, a), None)
    ensures WholeOk(Next(s, a), TearsNow(s, a))
  {
    var t := Next(s, a);
    assert PcOk(s.procs[i], s);
    if t != s && !a.Arrive? && a.proc == i {
      OwnPutIsWhole(s, a, i);
    } else {
      assert t.procs[i] == s.procs[i] && SomeonePuts(t);
    }
  }

  lemma NextKeepsWhole(s: State, torn: bool, a: Action)
    requires Inv(s, None) && WholeOk(s, torn) && (a.TakeOver? && Next(s, a) != s ==> NobodyInside(s))
    ensures WholeOk(Next(s, a), torn || TearsNow(s, a))
  {
    NextKeepsInv(s, None, a);
    if SomeonePuts(s) {
      var i :| 0 <= i < |s.procs| && Puts(s.procs[i]);
      PuttingIsWhole(s, a, i);
    } else {
      SettledIsWhole(s, torn, a);
    }
  }

  lemma {:induction false} ExecKeepsWhole(s: State, torn: bool, run: seq<Action>)
    requires Inv(s, None) && WholeOk(s, torn) && Timely(s, run)
    ensures WholeOk(Exec(s, run), torn || Tears(s, run))
    decreases |run|
  {
    if run != [] {
      NextKeepsInv(s, None, run[0]);
      NextKeepsWhole(s, torn, run[0]);
      ExecKeepsWhole(Next(s, run[0]), torn || TearsNow(s, run[0]), run[1..]);
    }
  }

  /** A caller of a timely run that started without a key gets a key of 64 digits exactly if no copy was
      cut short. Otherwise it gets the part that was left behind. */
  lemma WholeKeyIff(inPlace: bool, run: seq<Action>, i: nat)
    requires Timely(Init(inPlace, None), run)
    requires var s := Exec(Init(inPlace, None), run); i < |s.procs| && s.procs[i].Done? && s.procs[i].answer.Some?
    ensures |Exec(Init(inPlace, None), run).procs[i].answer.value| == KEY_DIGITS <==> !Tears(Init(inPlace, None), run)
  {
    ExecKeepsInv(Init(inPlace, None), None, run);
    ExecKeepsWhole(Init(inPlace, None), false, run);
    AnswerIsSettled(Exec(Init(inPlace, None), run), None, i);
  }

  /** A rename leaves no parts. */
  lemma {:induction false} RenameNeverTears(s: State, key0: Option<string>, run: seq<Action>)
    requires Inv(s, key0) && Timely(s, run) && !s.inPlace
    ensures !Tears(s, run)
    decreases |run|
  {
    if run != [] {
      var a := run[0];
      if !a.Arrive? && a.proc < |s.procs| { assert PcOk(s.procs[a.proc], s); }
      NextKeepsInv(s, key0, a);
      RenameNeverTears(Next(s, a), key0, run[1..]);
    }
  }

  // ---------------------------------------------------------------- what can happen

  /** Removing the lock file and entering keeps exclusion exactly when nobody was inside. */
  lemma TakeoverIsSafeIffStale(s: State, key0: Option<string>, i: nat)
    requires Inv(s, key0) && i < |s.procs| && s.procs[i].Waiting?
    ensures OneInside(Exec(s, [TakeOver(i), Advance(i, true, [])])) <==> NobodyInside(s)
  {
    var t := Next(s, TakeOver(i));
    var u := Next(t, Advance(i, true, []));
    assert Exec(s, [TakeOver(i), Advance(i, true, [])]) == u by {
      assert [TakeOver(i), Advance(i, true, [])][1..] == [Advance(i, true, [])];
      assert Exec(t, [Advance(i, true, [])]) == Exec(u, [Advance(i, true, [])][1..]);
    }
    assert u.procs[i] == Reading;
    if j :| 0 <= j < |s.procs| && InSection(s.procs[j]) {
      assert u.procs[j] == s.procs[j];
    }
  }

  /** Nobody removes the lock file. */
  predicate Calm(run: seq<Action>) { forall i :: 0 <= i < |run| ==> !run[i].TakeOver? }

  lemma {:induction false} CalmIsTimely(s: State, run: seq<Action>)
    requires Calm(run)
    ensures Timely(s, run)
    decreases |run|
  {
    if run != [] { CalmIsTimely(Next(s, run[0]), run[1..]); }
  }

  ghost predicate Reachable(start: State, s: State, calm: bool) {
    exists run :: Exec(start, run) == s && (calm ==> Calm(run))
  }

  lemma Reach(start: State, s: State, calm: bool, a: Action) returns (t: State)
    requires Reachable(start, s, calm) && (calm ==> !a.TakeOver?)
    ensures t == Next(s, a) && Reachable(start, t, calm)
  {
    t := Next(s, a);
    var run :| Exec(start, run) == s && (calm ==> Calm(run));
    ExecConcat(start, run, [a]);
    assert Exec(s, [a]) == Exec(t, [a][1..]) == t;
    assert Exec(start, run + [a]) == t;
  }

  /** The first process is about to write its key; a second one waits. */
  lemma FirstIsInside(inPlace: bool, calm: bool) returns (s: State)
    ensures Reachable(Init(inPlace, None), s, calm) && s == State(inPlace, true, None, [Reading, Waiting], 0, 0)
  {
    var start := Init(inPlace, None);
    assert Exec(start, []) == start;
    s := Reach(start, start, calm, Arrive);
    s := Reach(start, s, calm, Arrive);
    assert s.procs == [Opening, Opening];
    s := Reach(start, s, calm, Advance(0, true, []));
    s := Reach(start, s, calm, Advance(1, true, []));
    assert s.procs == [Reading, Waiting];
  }

  lemma FirstIsWriting(inPlace: bool, calm: bool, r0: seq<Byte>) returns (s: State)
    requires |r0| == 32
    ensures Reachable(Init(inPlace, None), s, calm)
    ensures s == State(inPlace, true, None, [Writing(Hex(r0)), Waiting], 1, 0)
  {
    var start := Init(inPlace, None);
    s := FirstIsInside(inPlace, calm);
    s := Reach(start, s, calm, Advance(0, true, []));
    s := Reach(start, s, calm, Advance(0, true, r0));
    assert s.procs == [Writing(Hex(r0)), Waiting];
  }

  lemma {:induction false} CopySome(start: State, k: string, n: nat, s0: State) returns (s: State)
    requires Reachable(start, s0, true) && s0 == State(true, true, None, [Writing(k), Waiting], 1, 0) && n <= |k|
    ensures Reachable(start, s, true) && s == State(true, true, Some(k[..n]), [Copying(k, n), Waiting], 1, 0)
    decreases n
  {
    if n == 0 {
      s := Reach(start, s0, true, Advance(0, true, []));
      assert s.procs == [Copying(k, 0), Waiting] && k[..0] == "";
    } else {
      s := CopySome(start, k, n - 1, s0);
      s := Reach(start, s, true, Advance(0, true, []));
      WriteAtEnd(k, n - 1);
      assert s.procs == [Copying(k, n), Waiting];
    }
  }

  /** In place, a copy that fails part of the way leaves that part behind, and a caller that nobody
      hurried returns it as the key, in a timely run. */
  lemma ShortKeyIsReturned(r0: seq<Byte>, n: nat) returns (s: State, run: seq<Action>)
    requires |r0| == 32 && 0 < n < KEY_DIGITS
    ensures Exec(Init(true, None), run) == s && Calm(run) && Timely(Init(true, None), run)
    ensures s.procs == [Done(None), Done(Some(Hex(r0)[..n]))] && s.key == Some(Hex(r0)[..n])
  {
    var start, k := Init(true, None), Hex(r0);
    s := FirstIsWriting(true, true, r0);
    s := CopySome(start, k, n, s);
    s := Reach(start, s, true, Advance(0, false, []));
    s := Reach(start, s, true, Advance(0, true, []));
    assert s.procs == [Done(None), Waiting] && !s.lock && s.key == Some(k[..n]);
    s := Reach(start, s, true, Advance(1, true, []));
    s := Reach(start, s, true, Advance(1, true, []));
    assert s.procs == [Done(None), Reading];
    s := Reach(start, s, true, Advance(1, true, []));
    s := Reach(start, s, true, Advance(1, true, []));
    assert s.procs == [Done(None), Done(Some(k[..n]))];
    run :| Exec(start, run) == s && Calm(run);
    CalmIsTimely(start, run);
  }

  // ---------------------------------------------------------------- undisturbed callers

  /** No crash, no failed call and no removal of the lock file. */
  predicate Undisturbed(run: seq<Action>) { forall i :: 0 <= i < |run| ==> Smooth(run[i]) }

  predicate Smooth(a: Action) { a.Arrive? || (a.Advance? && a.ok && |a.random| == 32) }

  ghost predicate SomeoneInside(s: State) { exists i :: 0 <= i < |s.procs| && InSection(s.procs[i]) }

  ghost predicate SmoothInv(s: State, key0: Option<string>) { Inv(s, key0) && NothingWrong(s) }

  ghost predicate NothingWrong(s: State) {
    && (s.lock ==> SomeoneInside(s))
    && (forall i :: 0 <= i < |s.procs| ==> !s.procs[i].Crashed?)
    && (forall i :: 0 <= i < |s.procs| && (s.procs[i].Leaving? || s.procs[i].Done?) ==> Answered(s.procs[i]))
    && (s.key.Some? && !SomeonePuts(s) ==> s.key.value != "")
  }

  lemma SmoothStepAnswers(s: State, key0: Option<string>, i: nat, random: seq<Byte>)
    requires SmoothInv(s, key0) && i < |s.procs| && |random| == 32
    ensures var pc := Step(s, i, true, random).procs[i];
      !pc.Crashed? && (pc.Leaving? || pc.Done? ==> Answered(pc))
  {
    if s.procs[i].Reading? { assert !SomeonePuts(s); }
  }

  /** The lock file is there exactly while someone is inside. */
  lemma SmoothStepLocks(s: State, key0: Option<string>, i: nat, random: seq<Byte>)
    requires SmoothInv(s, key0) && i < |s.procs| && |random| == 32
    ensures var t := Step(s, i, true, random); t.lock ==> SomeoneInside(t)
  {
    var t := Step(s, i, true, random);
    if t.lock && !InSection(t.procs[i]) {
      var j :| 0 <= j < |s.procs| && InSection(s.procs[j]);
      assert t.procs[j] == s.procs[j];
    } else if t.lock {
      assert InSection(t.procs[i]);
    }
  }

  lemma SmoothStepFills(s: State, key0: Option<string>, i: nat, random: seq<Byte>)
    requires SmoothInv(s, key0) && i < |s.procs| && |random| == 32
    ensures var t := Step(s, i, true, random); t.key.Some? && !SomeonePuts(t) ==> t.key.value != ""
  {
    var t := Step(s, i, true, random);
    assert PcOk(s.procs[i], s);
    OwnPcOk(s, i, true, random);
    if Puts(t.procs[i]) {
      assert SomeonePuts(t);
    } else if !Puts(s.procs[i]) {
      KeyChanges(s, i, true, random);
      if j :| 0 <= j < |s.procs| && Puts(s.procs[j]) { assert t.procs[j] == s.procs[j] && SomeonePuts(t); }
    }
  }

  lemma SmoothStep(s: State, key0: Option<string>, i: nat, random: seq<Byte>)
    requires SmoothInv(s, key0) && i < |s.procs| && |random| == 32
    ensures NothingWrong(Step(s, i, true, random))
  {
    var t := Step(s, i, true, random);
    SmoothStepAnswers(s, key0, i, random);
    SmoothStepLocks(s, key0, i, random);
    SmoothStepFills(s, key0, i, random);
    forall j | 0 <= j < |s.procs| && j != i ensures t.procs[j] == s.procs[j] {}
  }

  lemma SmoothArrival(s: State, key0: Option<string>)
    requires SmoothInv(s, key0)
    ensures NothingWrong(Next(s, Arrive))
  {
    var t := Next(s, Arrive);
    forall j | 0 <= j < |s.procs| ensures t.procs[j] == s.procs[j] {}
    if j :| 0 <= j < |s.procs| && InSection(s.procs[j]) { assert InSection(t.procs[j]); }
    if j :| 0 <= j < |s.procs| && Puts(s.procs[j]) { assert Puts(t.procs[j]); }
  }

  lemma SmoothKeepsInv(s: State, key0: Option<string>, a: Action)
    requires SmoothInv(s, key0) && Smooth(a)
    ensures SmoothInv(Next(s, a), key0)
  {
    NextKeepsInv(s, key0, a);
    if a.Arrive? {
      SmoothArrival(s, key0);
    } else if a.proc < |s.procs| {
      SmoothStep(s, key0, a.proc, a.random);
    }
  }

  lemma {:induction false} SmoothRun(s: State, key0: Option<string>, run: seq<Action>)
    requires SmoothInv(s, key0) && Undisturbed(run)
    ensures SmoothInv(Exec(s, run), key0) && !Tears(s, run)
    decreases |run|
  {
    if run != [] {
      assert Smooth(run[0]);
      SmoothKeepsInv(s, key0, run[0]);
      SmoothRun(Next(s, run[0]), key0, run[1..]);
    }
  }

  /** If nothing goes wrong, every caller that has finished returned the key on disk, which is the one
      that was there, or one of 64 digits. An empty key file is the only thing that can be in the way. */
  lemma EveryoneGetsTheKey(inPlace: bool, key0: Option<string>, run: seq<Action>, i: nat)
    requires Undisturbed(run) && key0 != Some("")
    requires var s := Exec(Init(inPlace, key0), run); i < |s.procs| && s.procs[i].Done?
    ensures var s := Exec(Init(inPlace, key0), run);
      && s.key.Some? && s.procs[i].answer == s.key
      && if key0.Some? then s.key == key0 else |s.key.value| == KEY_DIGITS
  {
    var start := Init(inPlace, key0);
    SmoothRun(start, key0, run);
    AnswerIsSettled(Exec(start, run), key0, i);
    CalmIsTimely(start, run);
    if key0.None? { WholeKeyIff(inPlace, run, i); }
  }

  /** What a process has yet to do at most, apart from waiting. */
  function Left(pc: Pc): nat {
    match pc
    case Opening => KEY_DIGITS + 7
    case Waiting => KEY_DIGITS + 7
    case Reading => KEY_DIGITS + 6
    case Creating => KEY_DIGITS + 5
    case Writing(k) => |k| + 4
    case Copying(k, n) => if n <= |k| then |k| - n + 3 else 3
    case Restricting(k) => 2
    case Leaving(answer) => 1
    case _ => 0
  }

  function WorkLeft(procs: seq<Pc>): nat
    decreases |procs|
  {
    if procs == [] then 0 else Left(procs[0]) + WorkLeft(procs[1..])
  }

  lemma {:induction false} WorkOfUpdate(procs: seq<Pc>, i: nat, pc: Pc)
    requires i < |procs|
    ensures WorkLeft(procs[i := pc]) + Left(procs[i]) == WorkLeft(procs) + Left(pc)
    decreases |procs|
  {
    if i == 0 {
      assert procs[0 := pc][1..] == procs[1..];
    } else {
      assert procs[i := pc][1..] == procs[1..][i - 1 := pc];
      WorkOfUpdate(procs[1..], i - 1, pc);
    }
  }

  /** The process can go on: it is inside, or about to open while nobody is. */
  predicate Moves(s: State, i: nat) {
    i < |s.procs| && (InSection(s.procs[i]) || (s.procs[i].Opening? && !s.lock))
  }

  predicate AllDone(s: State) { forall i :: 0 <= i < |s.procs| ==> s.procs[i].Done? }

  /** An undisturbed step is one of waiting, or leaves less to do. */
  lemma MovesAreBounded(s: State, key0: Option<string>, i: nat, random: seq<Byte>)
    requires SmoothInv(s, key0) && i < |s.procs| && |random| == 32
    ensures var t := Step(s, i, true, random);
      if Moves(s, i) then WorkLeft(t.procs) < WorkLeft(s.procs) else WorkLeft(t.procs) == WorkLeft(s.procs)
  {
    var t := Step(s, i, true, random);
    assert PcOk(s.procs[i], s);
    OwnPcOk(s, i, true, random);
    WorkOfUpdate(s.procs, i, t.procs[i]);
    assert t.procs == s.procs[i := t.procs[i]];
  }

  /** Until all have finished somebody can go on, at most after waking up. */
  lemma SomebodyMoves(s: State, key0: Option<string>)
    requires SmoothInv(s, key0) && !AllDone(s)
    ensures exists i :: 0 <= i < |s.procs| && (Moves(s, i) || (s.procs[i].Waiting? && Moves(Step(s, i, true, []), i)))
  {
    if s.lock {
      var i :| 0 <= i < |s.procs| && InSection(s.procs[i]);
      assert Moves(s, i);
    } else {
      var i :| 0 <= i < |s.procs| && !s.procs[i].Done?;
      assert s.procs[i].Opening? || s.procs[i].Waiting?;
    }
  }

  lemma OneAction(s: State, a: Action)
    ensures Exec(s, [a]) == Next(s, a)
  {
    assert Exec(Next(s, a), [a][1..]) == Next(s, a);
  }

  lemma MoveOnce(s: State, key0: Option<string>, i: nat, random: seq<Byte>) returns (run: seq<Action>)
    requires SmoothInv(s, key0) && |random| == 32 && Moves(s, i)
    ensures Undisturbed(run) && SmoothInv(Exec(s, run), key0)
    ensures WorkLeft(Exec(s, run).procs) < WorkLeft(s.procs) && |Exec(s, run).procs| == |s.procs|
  {
    run := [Advance(i, true, random)];
    OneAction(s, run[0]);
    SmoothKeepsInv(s, key0, run[0]);
    MovesAreBounded(s, key0, i, random);
  }

  /** One or two actions of some process, with which less is left to do. */
  lemma MoveOn(s: State, key0: Option<string>, random: seq<Byte>) returns (run: seq<Action>)
    requires SmoothInv(s, key0) && |random| == 32 && !AllDone(s)
    ensures Undisturbed(run) && SmoothInv(Exec(s, run), key0)
    ensures WorkLeft(Exec(s, run).procs) < WorkLeft(s.procs) && |Exec(s, run).procs| == |s.procs|
  {
    SomebodyMoves(s, key0);
    var i :| 0 <= i < |s.procs| && (Moves(s, i) || (s.procs[i].Waiting? && Moves(Step(s, i, true, []), i)));
    if Moves(s, i) {
      run := MoveOnce(s, key0, i, random);
    } else {
      var wake := Advance(i, true, random);
      SmoothKeepsInv(s, key0, wake);
      WorkOfUpdate(s.procs, i, Opening);
      var more := MoveOnce(Next(s, wake), key0, i, random);
      OneAction(s, wake);
      ExecConcat(s, [wake], more);
      run := [wake] + more;
    }
  }

  /** From every state of an undisturbed run all callers can finish. */
  lemma {:induction false} EveryoneCanFinish(s: State, key0: Option<string>, random: seq<Byte>)
    returns (run: seq<Action>)
    requires SmoothInv(s, key0) && |random| == 32
    ensures Undisturbed(run) && AllDone(Exec(s, run)) && |Exec(s, run).procs| == |s.procs|
    decreases WorkLeft(s.procs)
  {
    run := [];
    if !AllDone(s) {
      var first := MoveOn(s, key0, random);
      var more := EveryoneCanFinish(Exec(s, first), key0, random);
      ExecConcat(s, first, more);
      run := first + more;
    }
  }

  /** In an undisturbed run nobody is ever stuck: until all have finished, somebody can go on. */
  lemma NobodyIsStuck(inPlace: bool, key0: Option<string>, run: seq<Action>)
    requires Undisturbed(run) && key0 != Some("")
    ensures var s := Exec(Init(inPlace, key0), run);
      AllDone(s) ||
      exists i :: 0 <= i < |s.procs| && (Moves(s, i) || (s.procs[i].Waiting? && Moves(Step(s, i, true, []), i)))
  {
    SmoothRun(Init(inPlace, key0), key0, run);
    if !AllDone(Exec(Init(inPlace, key0), run)) { SomebodyMoves(Exec(Init(inPlace, key0), run), key0); }
  }

  lemma UndisturbedConcat(a: seq<Action>, b: seq<Action>)
    requires Undisturbed(a) && Undisturbed(b)
    ensures Undisturbed(a + b)
  {
    forall i | 0 <= i < |a + b| ensures Smooth((a + b)[i]) {
      assert (a + b)[i] == if i < |a| then a[i] else b[i - |a|];
    }
  }

  /** All callers have finished, with the key that is on disk. */
  predicate AllHoldTheKey(s: State) {
    forall i :: 0 <= i < |s.procs| ==> s.procs[i].Done? && s.key.Some? && s.procs[i].answer == s.key
  }

  /** Every undisturbed run goes on, undisturbed, to an end where all its callers have the key. */
  lemma EveryoneEndsWithTheKey(inPlace: bool, key0: Option<string>, run: seq<Action>, random: seq<Byte>)
    returns (more: seq<Action>)
    requires Undisturbed(run) && key0 != Some("") && |random| == 32
    ensures Undisturbed(run + more) && AllHoldTheKey(Exec(Init(inPlace, key0), run + more))
    ensures |Exec(Init(inPlace, key0), run + more).procs| == |Exec(Init(inPlace, key0), run).procs|
  {
    var start := Init(inPlace, key0);
    SmoothRun(start, key0, run);
    more := EveryoneCanFinish(Exec(start, run), key0, random);
    ExecConcat(start, run, more);
    UndisturbedConcat(run, more);
    FinishedHoldTheKey(inPlace, key0, run + more);
  }

  lemma FinishedHoldTheKey(inPlace: bool, key0: Option<string>, run: seq<Action>)
    requires Undisturbed(run) && key0 != Some("") && AllDone(Exec(Init(inPlace, key0), run))
    ensures AllHoldTheKey(Exec(Init(inPlace, key0), run))
  {
    var s := Exec(Init(inPlace, key0), run);
    forall i | 0 <= i < |s.procs| ensures s.procs[i].Done? && s.key.Some? && s.procs[i].answer == s.key {
      EveryoneGetsTheKey(inPlace, key0, run, i);
    }
  }

  lemma SecondHasWritten(r0: seq<Byte>, r1: seq<Byte>) returns (s: State)
    requires |r0| == |r1| == 32
    ensures Reachable(Init(false, None), s, false)
    ensures s == State(false, true, Some(Hex(r1)), [Writing(Hex(r0)), Leaving(Some(Hex(r1)))], 2, 0)
  {
    var start := Init(false, None);
    s := FirstIsWriting(false, false, r0);
    s := Reach(start, s, false, TakeOver(1));
    assert s.procs == [Writing(Hex(r0)), Opening];
    s := Reach(start, s, false, Advance(1, true, []));
    s := Reach(start, s, false, Advance(1, true, []));
    assert s.procs == [Writing(Hex(r0)), Creating];
    s := Reach(start, s, false, Advance(1, true, r1));
    assert s.procs == [Writing(Hex(r0)), Writing(Hex(r1))];
    s := Reach(start, s, false, Advance(1, true, []));
    s := Reach(start, s, false, Advance(1, true, []));
    assert s.procs == [Writing(Hex(r0)), Leaving(Some(Hex(r1)))];
  }

  /** Without timeliness the keys split, even with renames: two callers return different keys, and
      only one of the two keys is on disk. */
  lemma KeysCanSplit(r0: seq<Byte>, r1: seq<Byte>) returns (s: State)
    requires |r0| == |r1| == 32 && r0 != r1
    ensures Reachable(Init(false, None), s, false)
    ensures s.procs == [Done(Some(Hex(r0))), Done(Some(Hex(r1)))]
    ensures s.key == Some(Hex(r0)) && Hex(r0) != Hex(r1)
  {
    var start := Init(false, None);
    if Hex(r0) == Hex(r1) { HexIsInjective(r0, r1); }
    s := SecondHasWritten(r0, r1);
    s := Reach(start, s, false, Advance(0, true, []));
    s := Reach(start, s, false, Advance(0, true, []));
    assert s.procs == [Leaving(Some(Hex(r0))), Leaving(Some(Hex(r1)))] && s.key == Some(Hex(r0));
    s := Reach(start, s, false, Advance(0, true, []));
    s := Reach(start, s, false, Advance(1, true, []));
    assert s.procs == [Done(Some(Hex(r0))), Done(Some(Hex(r1)))];
  }

  // ---------------------------------------------------------------- the calls as code

  /** The actions in `env` that are not those of process `me`. */
  function Others(env: seq<Action>, me: nat): seq<Action>
    decreases |env|
  {
    if env == [] then []
    else if !env[0].Arrive? && env[0].proc == me then Others(env[1..], me)
    else [env[0]] + Others(env[1..], me)
  }

  lemma {:induction false} OthersAreAll(env: seq<Action>, me: nat)
    requires forall i :: 0 <= i < |env| ==> env[i].Arrive? || env[i].proc != me
    ensures Others(env, me) == env
    decreases |env|
  {
    if env != [] {
      OthersAreAll(env[1..], me);
      assert env == [env[0]] + env[1..];
    }
  }

  lemma StepLeavesMe(s: State, i: nat, ok: bool, random: seq<Byte>, me: nat)
    requires i < |s.procs| && me < |s.procs| && i != me
    ensures |Step(s, i, ok, random).procs| == |s.procs| && Step(s, i, ok, random).procs[me] == s.procs[me]
  {
  }

  lemma NextLeavesMe(s: State, a: Action, me: nat)
    requires me < |s.procs| && (a.Arrive? || a.proc != me)
    ensures me < |Next(s, a).procs| && Next(s, a).procs[me] == s.procs[me]
  {
    if a.Advance? && a.proc < |s.procs| { StepLeavesMe(s, a.proc, a.ok, a.random, me); }
  }

  lemma {:induction false} OthersLeaveMe(s: State, env: seq<Action>, me: nat)
    requires me < |s.procs|
    ensures var t := Exec(s, Others(env, me)); me < |t.procs| && t.procs[me] == s.procs[me]
    decreases |env|
  {
    if env != [] {
      if !env[0].Arrive? && env[0].proc == me {
        OthersLeaveMe(s, env[1..], me);
      } else {
        NextLeavesMe(s, env[0], me);
        OthersLeaveMe(Next(s, env[0]), env[1..], me);
        assert ([env[0]] + Others(env[1..], me))[1..] == Others(env[1..], me);
      }
    }
  }

  lemma OneMore(start: State, trace: seq<Action>, a: Action)
    ensures Exec(start, trace + [a]) == Next(Exec(start, trace), a)
  {
    ExecConcat(start, trace, [a]);
    var s := Exec(start, trace);
    assert Exec(s, [a]) == Exec(Next(s, a), [a][1..]);
  }

  lemma NextKeepsMode(s: State, a: Action)
    ensures Next(s, a).inPlace == s.inPlace
  {
  }

  /** One call: its process, what the others do before its n-th action, whether its n-th action succeeds
      if it is a system call, whether its deadline has passed by then, and the bytes it draws. */
  datatype Call = Call(me: nat, env: nat -> seq<Action>, ok: nat -> bool, expired: nat -> bool, random: seq<Byte>)

  /** The call has returned, or has polled as often as it is told. */
  predicate Stopped(pc: Pc, polls: nat) {
    pc.Done? || pc.Crashed? || ((pc.Opening? || pc.Waiting?) && polls == 0)
  }

  function Rank(pc: Pc): nat { if pc.Opening? then KEY_DIGITS + 8 else Left(pc) }

  function OwnAction(pc: Pc, c: Call, n: nat): Action {
    if pc.Waiting? && c.expired(n) then TakeOver(c.me) else Advance(c.me, c.ok(n), c.random)
  }

  function PollsAfter(pc: Pc, polls: nat): nat { if pc.Waiting? && 0 < polls then polls - 1 else polls }

  lemma StepIsTaken(s: State, i: nat, ok: bool, random: seq<Byte>)
    requires i < |s.procs| && !s.procs[i].Waiting? && !s.procs[i].Done? && !s.procs[i].Crashed?
    ensures |Step(s, i, ok, random).procs| == |s.procs|
    ensures Rank(Step(s, i, ok, random).procs[i]) < Rank(s.procs[i])
  {
  }

  lemma ActionIsTaken(s: State, c: Call, n: nat, polls: nat)
    requires c.me < |s.procs| && !Stopped(s.procs[c.me], polls)
    ensures var pc, t := s.procs[c.me], Next(s, OwnAction(s.procs[c.me], c, n));
      && c.me < |t.procs|
      && (PollsAfter(pc, polls) < polls || (PollsAfter(pc, polls) == polls && Rank(t.procs[c.me]) < Rank(pc)))
  {
    if !s.procs[c.me].Waiting? { StepIsTaken(s, c.me, c.ok(n), c.random); }
  }

  /** The state in which the call returns, or stops polling. */
  ghost function Played(s: State, c: Call, n: nat, polls: nat): State
    requires c.me < |s.procs|
    decreases polls, Rank(s.procs[c.me])
  {
    var pc := s.procs[c.me];
    if Stopped(pc, polls) then s
    else
      OthersLeaveMe(s, c.env(n), c.me);
      var t := Exec(s, Others(c.env(n), c.me));
      ActionIsTaken(t, c, n, polls);
      Played(Next(t, OwnAction(pc, c, n)), c, n + 1, PollsAfter(pc, polls))
  }

  lemma PlayedOut(s: State, c: Call, n: nat, polls: nat)
    requires c.me < |s.procs| && Stopped(s.procs[c.me], polls)
    ensures Played(s, c, n, polls) == s
  {
  }

  /** One action of the call, after what the others do before it. */
  lemma PlayOne(s: State, t: State, u: State, c: Call, a: Action, n: nat, polls: nat)
    requires c.me < |s.procs| && !Stopped(s.procs[c.me], polls)
    requires t == Exec(s, Others(c.env(n), c.me)) && u == Next(t, a)
    requires IsOwn(a, s.procs[c.me], c, n)
    ensures c.me < |u.procs|
    ensures Played(u, c, n + 1, PollsAfter(s.procs[c.me], polls)) == Played(s, c, n, polls)
  {
    OthersLeaveMe(s, c.env(n), c.me);
    ActionIsTaken(t, c, n, polls);
    assert u == Next(t, OwnAction(s.procs[c.me], c, n));
  }

  predicate IsOwn(a: Action, pc: Pc, c: Call, n: nat) {
    && (a.Advance? || a.TakeOver?) && a.proc == c.me
    && if pc.Waiting? then a.TakeOver? <==> c.expired(n)
       else a.Advance? && a.ok == c.ok(n) && (pc.Creating? ==> a.random == c.random)
  }

  /** The key file that a process about to leave has seen in a timely run stays as it is. */
  lemma SettledStays(inPlace: bool, key0: Option<string>, before: seq<Action>, after: seq<Action>, me: nat)
    requires Timely(Init(inPlace, key0), before + after)
    requires var s := Exec(Init(inPlace, key0), before); s.key.Some? && me < |s.procs| && s.procs[me].Leaving?
    ensures Exec(Init(inPlace, key0), before + after).key == Exec(Init(inPlace, key0), before).key
  {
    ExecConcat(Init(inPlace, key0), before, after);
    ExecKeepsInv(Init(inPlace, key0), key0, before);
    KeyIsStable(Exec(Init(inPlace, key0), before), key0, after);
  }

  /** The shared directory. */
  class SecretDir {
    const inPlace: bool
    const key0: Option<string>
    var lock: bool
    var key: Option<string>
    var procs: seq<Pc>
    var drawn: nat
    var lost: nat
    ghost var trace: seq<Action>

    ghost function View(): State reads this { State(inPlace, lock, key, procs, drawn, lost) }

    ghost predicate Valid() reads this { View() == Exec(Init(inPlace, key0), trace) }

    ghost predicate At(me: nat, pc: Pc) reads this { me < |procs| && procs[me] == pc }

    /** Every removal so far met a stale lock file. */
    ghost predicate TimelySoFar() reads this { Timely(Init(inPlace, key0), trace) }

    constructor (inPlace: bool, key0: Option<string>)
      ensures Valid() && View() == Init(inPlace, key0) && this.key0 == key0 && this.inPlace == inPlace
    {
      this.inPlace, this.key0 := inPlace, key0;
      lock, key, procs, drawn, lost, trace := false, key0, [], 0, 0, [];
    }

    ghost method Record(a: Action)
      requires Valid()
      modifies this`trace
      ensures trace == old(trace) + [a] && Exec(Init(inPlace, key0), trace) == Next(View(), a)
    {
      OneMore(Init(inPlace, key0), trace, a);
      trace := trace + [a];
    }

    /** Somebody else's action. */
    method Apply(a: Action)
      requires Valid()
      modifies this
      ensures Valid() && trace == old(trace) + [a] && View() == Next(old(View()), a)
    {
      Record(a);
      var t := Next(State(inPlace, lock, key, procs, drawn, lost), a);
      NextKeepsMode(View(), a);
      lock, key, procs, drawn, lost := t.lock, t.key, t.procs, t.drawn, t.lost;
    }

    method Interfere(env: seq<Action>, me: nat)
      requires Valid() && me < |procs|
      modifies this
      ensures Valid() && old(trace) <= trace && View() == Exec(old(View()), Others(env, me))
      ensures At(me, old(procs[me]))
    {
      ghost var start := View();
      OthersLeaveMe(start, env, me);
      var k := 0;
      while k < |env|
        invariant 0 <= k <= |env| && Valid() && old(trace) <= trace
        invariant Exec(View(), Others(env[k..], me)) == Exec(start, Others(env, me))
      {
        assert env[k..][1..] == env[k + 1..];
        if env[k].Arrive? || env[k].proc != me {
          assert ([env[k]] + Others(env[k + 1..], me))[1..] == Others(env[k + 1..], me);
          Apply(env[k]);
        }
        k := k + 1;
      }
    }

    method Arriving() returns (me: nat)
      requires Valid()
      modifies this
      ensures View() == Next(old(View()), Arrive)
      ensures Valid() && trace == old(trace) + [Arrive] && me == |old(procs)| && At(me, Opening)
    {
      Record(Arrive);
      me := |procs|;
      procs := procs + [Opening];
    }

    /** The exclusive creation of the lock file, or the discovery that it exists. */
    method OpenLock(me: nat, ok: bool)
      requires Valid() && At(me, Opening)
      modifies this
      ensures View() == Next(old(View()), Advance(me, ok, []))
      ensures Valid() && trace == old(trace) + [Advance(me, ok, [])]
      ensures At(me, if old(lock) then Waiting else if ok then Reading else Done(None))
      ensures key == old(key) && (At(me, Reading) ==> lock)
    {
      Record(Advance(me, ok, []));
      if lock {
        procs := procs[me := Waiting];
      } else if ok {
        lock := true;
        procs := procs[me := Reading];
      } else {
        procs := procs[me := Done(None)];
      }
    }

    method Sleep(me: nat)
      requires Valid() && At(me, Waiting)
      modifies this
      ensures View() == Next(old(View()), Advance(me, true, []))
      ensures Valid() && trace == old(trace) + [Advance(me, true, [])] && At(me, Opening)
      ensures lock == old(lock) && key == old(key)
    {
      Record(Advance(me, true, []));
      procs := procs[me := Opening];
    }

    method RemoveStale(me: nat)
      requires Valid() && At(me, Waiting)
      modifies this
      ensures View() == Next(old(View()), TakeOver(me))
      ensures Valid() && trace == old(trace) + [TakeOver(me)] && At(me, Opening) && !lock
    {
      Record(TakeOver(me));
      lock := false;
      procs := procs[me := Opening];
    }

    method ReadKey(me: nat, ok: bool) returns (found: Option<string>, missing: bool)
      requires Valid() && At(me, Reading)
      modifies this
      ensures View() == Next(old(View()), Advance(me, ok, []))
      ensures Valid() && trace == old(trace) + [Advance(me, ok, [])] && key == old(key)
      ensures missing <==> ok && key.None?
      ensures found.Some? <==> ok && key.Some? && key.value != ""
      ensures found.Some? ==> found == key
      ensures At(me, if missing then Creating else Leaving(found))
    {
      Record(Advance(me, ok, []));
      missing := ok && key.None?;
      found := if ok && key != Some("") then key else None;
      procs := procs[me := if missing then Creating else Leaving(found)];
    }

    method DrawKey(me: nat, ok: bool, random: seq<Byte>) returns (drew: bool)
      requires Valid() && At(me, Creating)
      modifies this
      ensures View() == Next(old(View()), Advance(me, ok, random))
      ensures Valid() && trace == old(trace) + [Advance(me, ok, random)] && key == old(key)
      ensures drew == (ok && |random| == 32)
      ensures At(me, if drew then Writing(Hex(random)) else Leaving(None))
    {
      Record(Advance(me, ok, random));
      drew := ok && |random| == 32;
      if drew { drawn := drawn + 1; }
      procs := procs[me := if drew then Writing(Hex(random)) else Leaving(None)];
    }

    /** Renames the key into place, or opens and truncates the key file. */
    method PutKey(me: nat, ok: bool, k: string)
      requires Valid() && At(me, Writing(k))
      modifies this
      ensures View() == Next(old(View()), Advance(me, ok, []))
      ensures Valid() && trace == old(trace) + [Advance(me, ok, [])]
      ensures At(me, if !ok then Leaving(None) else if inPlace then Copying(k, 0) else Restricting(k))
      ensures key == if !ok then old(key) else if inPlace then Some("") else Some(k)
    {
      Record(Advance(me, ok, []));
      if !ok {
        lost := lost + 1;
        procs := procs[me := Leaving(None)];
      } else if inPlace {
        key := Some("");
        procs := procs[me := Copying(k, 0)];
      } else {
        key := Some(k);
        procs := procs[me := Restricting(k)];
      }
    }

    /** Copies the next digit, or closes the file after the last. */
    method CopyDigit(me: nat, ok: bool, k: string, n: nat)
      requires Valid() && At(me, Copying(k, n))
      modifies this
      ensures View() == Next(old(View()), Advance(me, ok, []))
      ensures Valid() && trace == old(trace) + [Advance(me, ok, [])]
      ensures At(me, if !ok then Leaving(None) else if n < |k| then Copying(k, n + 1) else Restricting(k))
      ensures key == if ok && n < |k| then Some(WriteAt(old(key), n, k[n])) else old(key)
    {
      Record(Advance(me, ok, []));
      if !ok {
        if n < |k| { lost := lost + 1; }
        procs := procs[me := Leaving(None)];
      } else if n < |k| {
        key := Some(WriteAt(key, n, k[n]));
        procs := procs[me := Copying(k, n + 1)];
      } else {
        procs := procs[me := Restricting(k)];
      }
    }

    /** The copy in place, which others can interrupt after every digit. */
    method CopyKey(c: Call, k: string, n: nat, ghost polls: nat) returns (done: bool, m: nat)
      requires Valid() && At(c.me, Copying(k, 0))
      modifies this
      ensures Valid() && old(trace) <= trace && At(c.me, if done then Restricting(k) else Leaving(None))
      ensures Played(View(), c, m, polls) == Played(old(View()), c, n, polls)
      ensures (forall i :: c.ok(i)) ==> done
    {
      ghost var end, before := Played(View(), c, n, polls), trace;
      var d, ok := 0, true;
      m := n;
      while ok && d <= |k|
        invariant CopyUnderway(c, k, d, ok, m, polls, end, before)
        decreases |k| - d
      {
        ok := NextDigit(c, k, d, m, polls);
        m, d := m + 1, d + 1;
      }
      done := ok;
    }

    /** `d` digits were dealt with, or the file was closed after the last; the copy goes on while it is `ok`. */
    ghost predicate CopyUnderway(c: Call, k: string, d: nat, ok: bool, n: nat, polls: nat, end: State,
                                 before: seq<Action>)
      reads this
    {
      && Valid() && before <= trace && OnTheWay(c, n, polls, end) && d <= |k| + 1
      && At(c.me, if !ok then Leaving(None) else if d <= |k| then Copying(k, d) else Restricting(k))
      && (!ok ==> exists i :: !c.ok(i))
    }

    method NextDigit(c: Call, k: string, d: nat, n: nat, ghost polls: nat) returns (ok: bool)
      requires Valid() && At(c.me, Copying(k, d))
      modifies this
      ensures Valid() && old(trace) <= trace && ok == c.ok(n)
      ensures At(c.me, if !ok then Leaving(None) else if d < |k| then Copying(k, d + 1) else Restricting(k))
      ensures Played(View(), c, n + 1, polls) == Played(old(View()), c, n, polls)
    {
      ok := c.ok(n);
      ghost var s := View();
      Interfere(c.env(n), c.me);
      assert old(trace) <= trace;
      ghost var t := View();
      CopyDigit(c.me, ok, k, d);
      assert old(trace) <= trace;
      PlayOne(s, t, View(), c, Advance(c.me, ok, []), n, polls);
    }

    /** The write of the key, in one of the two ways. A write that is done in a timely run has left the
        whole key on disk. */
    method WriteKey(c: Call, k: string, n: nat, ghost polls: nat) returns (done: bool, m: nat)
      requires Valid() && At(c.me, Writing(k))
      modifies this
      ensures Valid() && old(trace) <= trace && At(c.me, if done then Restricting(k) else Leaving(None))
      ensures Played(View(), c, m, polls) == Played(old(View()), c, n, polls)
      ensures done && TimelySoFar() ==> key == Some(k) && |k| == KEY_DIGITS
      ensures !done && !inPlace ==> !c.ok(n)
      ensures (forall i :: c.ok(i)) ==> done
    {
      ghost var s := View();
      Interfere(c.env(n), c.me);
      assert old(trace) <= trace;
      ghost var t := View();
      PutKey(c.me, c.ok(n), k);
      assert old(trace) <= trace;
      PlayOne(s, t, View(), c, Advance(c.me, c.ok(n), []), n, polls);
      done, m := c.ok(n), n + 1;
      if done && inPlace {
        done, m := CopyKey(c, k, m, polls);
        assert old(trace) <= trace;
      }
      if done { WrittenIsOnDisk(c.me); }
    }

    method Restrict(me: nat, ok: bool, k: string)
      requires Valid() && At(me, Restricting(k))
      modifies this
      ensures View() == Next(old(View()), Advance(me, ok, []))
      ensures Valid() && trace == old(trace) + [Advance(me, ok, [])] && key == old(key)
      ensures At(me, Leaving(if ok then Some(k) else None))
    {
      Record(Advance(me, ok, []));
      procs := procs[me := Leaving(if ok then Some(k) else None)];
    }

    method RemoveLock(me: nat, ok: bool, answer: Answer)
      requires Valid() && At(me, Leaving(answer))
      modifies this
      ensures View() == Next(old(View()), Advance(me, ok, []))
      ensures Valid() && trace == old(trace) + [Advance(me, ok, [])] && At(me, Done(answer))
      ensures key == old(key) && (ok ==> !lock)
    {
      Record(Advance(me, ok, []));
      lock := lock && !ok;
      procs := procs[me := Done(answer)];
    }

    /** The section's body: read, and create what is not there. */
    method ReadOrCreate(c: Call, n: nat, ghost polls: nat) returns (answer: Answer, m: nat)
      requires Valid() && At(c.me, Reading)
      modifies this
      ensures Valid() && old(trace) <= trace && At(c.me, Leaving(answer))
      ensures Played(View(), c, m, polls) == Played(old(View()), c, n, polls)
      ensures answer.Some? && TimelySoFar() ==> key == answer && answer.value != ""
      ensures Smoothly(c) ==> answer.Some? || key == Some("")
    {
      ghost var s := View();
      Interfere(c.env(n), c.me);
      assert old(trace) <= trace;
      ghost var t := View();
      var missing;
      answer, missing := ReadKey(c.me, c.ok(n));
      assert old(trace) <= trace;
      PlayOne(s, t, View(), c, Advance(c.me, c.ok(n), []), n, polls);
      m := n + 1;
      if !missing {
        AnswerIsOnDisk(c.me);
        return;
      }
      answer, m := CreateKey(c, m, polls);
      AnswerIsOnDisk(c.me);
    }

    /** Nothing that the call does fails. */
    ghost predicate Smoothly(c: Call) { (forall i :: c.ok(i)) && |c.random| == 32 }

    method CreateKey(c: Call, n: nat, ghost polls: nat) returns (answer: Answer, m: nat)
      requires Valid() && At(c.me, Creating)
      modifies this
      ensures Valid() && old(trace) <= trace && At(c.me, Leaving(answer))
      ensures Played(View(), c, m, polls) == Played(old(View()), c, n, polls)
      ensures answer.Some? ==> |c.random| == 32 && answer.value == Hex(c.random)
      ensures Smoothly(c) ==> answer.Some?
    {
      ghost var s := View();
      Interfere(c.env(n), c.me);
      assert old(trace) <= trace;
      ghost var t := View();
      var drew := DrawKey(c.me, c.ok(n), c.random);
      assert old(trace) <= trace;
      PlayOne(s, t, View(), c, Advance(c.me, c.ok(n), c.random), n, polls);
      m := n + 1;
      if !drew { return None, m; }
      answer, m := WriteAndRestrict(c, Hex(c.random), m, polls);
    }

    method WriteAndRestrict(c: Call, k: string, n: nat, ghost polls: nat) returns (answer: Answer, m: nat)
      requires Valid() && At(c.me, Writing(k))
      modifies this
      ensures Valid() && old(trace) <= trace && At(c.me, Leaving(answer)) && (answer.Some? ==> answer.value == k)
      ensures Played(View(), c, m, polls) == Played(old(View()), c, n, polls)
      ensures (forall i :: c.ok(i)) ==> answer.Some?
    {
      var done;
      done, m := WriteKey(c, k, n, polls);
      assert old(trace) <= trace;
      if !done { return None, m; }
      ghost var s := View();
      Interfere(c.env(m), c.me);
      assert old(trace) <= trace;
      ghost var t := View();
      Restrict(c.me, c.ok(m), k);
      assert old(trace) <= trace;
      PlayOne(s, t, View(), c, Advance(c.me, c.ok(m), []), m, polls);
      answer := if c.ok(m) then Some(k) else None;
      m := m + 1;
    }

    /** The deferred removal of the lock file, with which the call is over. */
    method Leave(c: Call, answer: Answer, n: nat, ghost polls: nat)
      requires Valid() && At(c.me, Leaving(answer))
      modifies this
      ensures Valid() && old(trace) <= trace && At(c.me, Done(answer)) && (c.ok(n) ==> !lock)
      ensures View() == Played(old(View()), c, n, polls)
      ensures answer.Some? && TimelySoFar() ==> key == answer && answer.value != ""
      ensures old(key) == Some("") && TimelySoFar() ==> key == Some("")
      ensures TimelySoFar() && key0.Some? && answer.Some? ==> answer == key0
    {
      ghost var s, before := View(), trace;
      Interfere(c.env(n), c.me);
      assert old(trace) <= trace;
      ghost var t := View();
      RemoveLock(c.me, c.ok(n), answer);
      assert old(trace) <= trace;
      PlayOne(s, t, View(), c, Advance(c.me, c.ok(n), []), n, polls);
      PlayedOut(View(), c, n + 1, polls);
      assert trace == before + trace[|before|..];
      if TimelySoFar() && s.key == Some("") { SettledStays(inPlace, key0, before, trace[|before|..], c.me); }
      DoneIsOnDisk(c.me);
    }

    /** The retry loop. The result is that of the call's process, and the lock file is gone unless removing
        it failed. A key returned in a timely run is the one on disk; and if none of its system calls fails,
        the call returns one, unless an empty key file is in the way. The call may wait for as long as it
        is polled. */
    method MasterKey(env: nat -> seq<Action>, ok: nat -> bool, expired: nat -> bool, random: seq<Byte>, polls: nat)
      returns (answer: Answer, returned: bool)
      requires Valid()
      modifies this
      ensures Valid() && old(trace) <= trace
      ensures var c := Call(|old(procs)|, env, ok, expired, random);
        && View() == Played(Next(old(View()), Arrive), c, 0, polls)
        && At(c.me, if returned then Done(answer) else Opening)
        && (returned && Smoothly(c) ==> !lock)
        && (returned && Smoothly(c) && TimelySoFar() ==> answer.Some? || key == Some(""))
      ensures returned && answer.Some? && TimelySoFar() ==> key == answer && answer.value != ""
      ensures returned && answer.Some? && TimelySoFar() && key0.Some? ==> answer == key0
    {
      var me := Arriving();
      var c := Call(me, env, ok, expired, random);
      answer, returned := PollAll(c, polls, Played(View(), c, 0, polls), trace);
    }

    method PollAll(c: Call, polls: nat, ghost end: State, ghost before: seq<Action>)
      returns (answer: Answer, returned: bool)
      requires Polling(c, 0, polls, end, before)
      modifies this
      ensures if returned then Over(c, answer, end, before)
              else Valid() && before <= trace && At(c.me, Opening) && View() == end
    {
      var n, left := 0, polls;
      answer, returned := None, false;
      while 0 < left && !returned
        invariant if returned then Over(c, answer, end, before) else Polling(c, n, left, end, before)
        decreases left
      {
        answer, returned, n := Poll(c, n, left, end, before);
        left := left - 1;
      }
      if !returned { PollingEnds(c, n, end, before); }
    }

    /** The call is about to open the lock file, on its way to the state `end`. */
    ghost predicate Polling(c: Call, n: nat, polls: nat, end: State, before: seq<Action>) reads this {
      Valid() && before <= trace && At(c.me, Opening) && OnTheWay(c, n, polls, end)
    }

    lemma PollingEnds(c: Call, n: nat, end: State, before: seq<Action>)
      requires Polling(c, n, 0, end, before)
      ensures View() == end
    {
      PlayedOut(View(), c, n, 0);
    }

    ghost predicate Over(c: Call, answer: Answer, end: State, before: seq<Action>) reads this {
      Valid() && before <= trace && At(c.me, Done(answer)) && View() == end && ReturnOk(c, answer)
    }

    /** What is left of the call leads to the state `end`. */
    ghost predicate OnTheWay(c: Call, n: nat, polls: nat, end: State) reads this {
      c.me < |procs| && Played(View(), c, n, polls) == end
    }

    /** What a returned call promises. */
    ghost predicate ReturnOk(c: Call, answer: Answer) reads this {
      && (Smoothly(c) ==> !lock && (TimelySoFar() ==> answer.Some? || key == Some("")))
      && (answer.Some? && TimelySoFar() ==> key == answer && answer.value != "" && (key0.Some? ==> answer == key0))
    }

    /** One turn of the loop. */
    method Poll(c: Call, n: nat, ghost polls: nat, ghost end: State, ghost before: seq<Action>)
      returns (answer: Answer, returned: bool, m: nat)
      requires Polling(c, n, polls, end, before) && 0 < polls
      modifies this
      ensures if returned then Over(c, answer, end, before) else Polling(c, m, polls - 1, end, before)
    {
      m := TryToOpen(c, n, polls);
      assert old(trace) <= trace;
      if procs[c.me] == Reading {
        answer := Inside(c, m, polls);
        return answer, true, m;
      }
      if procs[c.me] == Waiting {
        m := WaitABit(c, m, polls);
        return None, false, m;
      }
      PlayedOut(View(), c, m, polls);
      return None, true, m;
    }

    /** The section, from the lock file's creation to its removal. */
    method Inside(c: Call, n: nat, ghost polls: nat) returns (answer: Answer)
      requires Valid() && At(c.me, Reading)
      modifies this
      ensures Valid() && old(trace) <= trace && At(c.me, Done(answer))
      ensures View() == Played(old(View()), c, n, polls)
      ensures ReturnOk(c, answer)
    {
      var m;
      answer, m := ReadOrCreate(c, n, polls);
      assert old(trace) <= trace;
      Leave(c, answer, m, polls);
    }

    method TryToOpen(c: Call, n: nat, ghost polls: nat) returns (m: nat)
      requires Valid() && At(c.me, Opening) && 0 < polls
      modifies this
      ensures Valid() && old(trace) <= trace && c.me < |procs|
      ensures procs[c.me] == Waiting || procs[c.me] == Reading || (procs[c.me] == Done(None) && !c.ok(n))
      ensures Played(View(), c, m, polls) == Played(old(View()), c, n, polls)
    {
      ghost var s := View();
      Interfere(c.env(n), c.me);
      assert old(trace) <= trace;
      ghost var t := View();
      OpenLock(c.me, c.ok(n));
      assert old(trace) <= trace;
      PlayOne(s, t, View(), c, Advance(c.me, c.ok(n), []), n, polls);
      m := n + 1;
    }

    method WaitABit(c: Call, n: nat, ghost polls: nat) returns (m: nat)
      requires Valid() && At(c.me, Waiting) && 0 < polls
      modifies this
      ensures Valid() && old(trace) <= trace && At(c.me, Opening)
      ensures Played(View(), c, m, polls - 1) == Played(old(View()), c, n, polls)
    {
      ghost var s := View();
      Interfere(c.env(n), c.me);
      assert old(trace) <= trace;
      ghost var t := View();
      if c.expired(n) {
        RemoveStale(c.me);
        PlayOne(s, t, View(), c, TakeOver(c.me), n, polls);
      } else {
        Sleep(c.me);
        PlayOne(s, t, View(), c, Advance(c.me, true, []), n, polls);
      }
      assert old(trace) <= trace;
      m := n + 1;
    }

    lemma WrittenIsOnDisk(me: nat)
      requires Valid() && me < |procs| && procs[me].Restricting?
      ensures TimelySoFar() ==> key == Some(procs[me].key) && |procs[me].key| == KEY_DIGITS
    {
      if TimelySoFar() {
        ExecKeepsInv(Init(inPlace, key0), key0, trace);
        assert PcOk(procs[me], View());
      }
    }

    lemma AnswerIsOnDisk(me: nat)
      requires Valid() && me < |procs| && procs[me].Leaving?
      ensures procs[me].answer.Some? && TimelySoFar() ==> key == procs[me].answer && key.value != ""
    {
      if TimelySoFar() {
        ExecKeepsInv(Init(inPlace, key0), key0, trace);
        if procs[me].answer.Some? { AnswerIsSettled(View(), key0, me); }
      }
    }

    lemma DoneIsOnDisk(me: nat)
      requires Valid() && me < |procs| && procs[me].Done?
      ensures procs[me].answer.Some? && TimelySoFar() ==> key == procs[me].answer && key.value != ""
      ensures TimelySoFar() && key0.Some? ==> key == key0
    {
      if TimelySoFar() {
        ExecKeepsInv(Init(inPlace, key0), key0, trace);
        if procs[me].answer.Some? { AnswerIsSettled(View(), key0, me); }
      }
    }
  }
}
