/**
The debounced save merger: `Mark`, the timer callback, `Flush` and `Close` race over two
atomic counters and a mutex-guarded timer reference.

Every call in progress and every timer is a process of the step system below. A process takes
one atomic action at a time: one atomic load, store or add, one critical section, or one call
of the holder's write function. Any number of goroutines may call any operation at any moment.
*/
module SaveMerger {
  import opened Wrappers

  /** Who runs `flushOnce`. `floor` is the dirty generation at the moment of the call. */
  datatype Who =
    | FlushCall(floor: nat)
    | CloseCall(floor: nat)
    | Callback(retrying: bool)

  /** The next atomic action of a process. */
  datatype Pc =
    | MarkCalled                      // about to add to `dirty`
    | MarkAdded                       // added; about to enter the critical section
    | Armed                           // a timer that has not expired
    | Fired                           // its callback runs; about to enter the critical section
    | Called(who: Who)                // Flush or Close; about to enter the critical section
    | Loading(who: Who)               // flushOnce: about to load `dirty`
    | Checking(who: Who, gen: nat)    // about to compare with `saved`
    | Writing(who: Who, gen: nat)     // about to call write
    | Storing(who: Who, gen: nat)     // write succeeded; about to store `saved`
    | Finished                        // Mark returned, timer stopped, callback ended
    | ReturnedNil(who: Who)           // Flush or Close ran flushOnce and returned nil
    | ReturnedErr(who: Who)           // Flush or Close returned the write error
    | ReturnedClosed(who: Who)        // Flush or Close found the merger closed

  /** `disk` is the generation captured by the last successful write; `gaveUp` is the newest
      generation whose flush ended with a write error. Neither exists in the program. */
  datatype State = State(dirty: nat, saved: nat, timer: Option<nat>, closed: bool,
                         procs: seq<Pc>, disk: nat, gaveUp: nat)

  const Init := State(0, 0, None, false, [], 0, 0)

  datatype Action =
    | CallMark
    | CallFlush
    | CallClose
    | Advance(proc: nat, writeOk: bool)

  function Floor(who: Who): nat {
    match who
    case FlushCall(f) => f
    case CloseCall(f) => f
    case Callback(_) => 0
  }

  function Max(a: nat, b: nat): nat { if a < b then b else a }

  function WithProc(s: State, i: nat, pc: Pc): State
    requires i < |s.procs|
  {
    s.(procs := s.procs[i := pc])
  }

  /** `m.timer.Stop(); m.timer = nil`: stopping has no effect on a callback already started. */
  function StopTimer(s: State): State {
    if s.timer.Some? && s.timer.value < |s.procs| && s.procs[s.timer.value].Armed?
    then s.(timer := None, procs := s.procs[s.timer.value := Finished])
    else s.(timer := None)
  }

  /** The critical section of `Mark`. */
  function MarkSection(s: State, i: nat): State
    requires i < |s.procs|
  {
    var t := WithProc(s, i, Finished);
    if s.closed || s.timer.Some? then t
    else t.(timer := Some(|t.procs|), procs := t.procs + [Armed])
  }

  /** The critical section of `Flush` and `Close`. */
  function FlushSection(s: State, i: nat, who: Who): State
    requires i < |s.procs| && !s.procs[i].Armed?
  {
    if s.closed then WithProc(s, i, ReturnedClosed(who))
    else WithProc(StopTimer(s.(closed := who.CloseCall?)), i, Loading(who))
  }

  /** The comparison in `flushOnce`, and its early return. */
  function CheckStep(s: State, i: nat, who: Who, gen: nat): State
    requires i < |s.procs|
  {
    if gen <= s.saved then WithProc(s, i, EndNil(who)) else WithProc(s, i, Writing(who, gen))
  }

  function EndNil(who: Who): Pc {
    if who.Callback? then Finished else ReturnedNil(who)
  }

  /** The call of write: it snapshots and persists everything marked so far, or fails and leaves
      the disk alone. A callback whose first attempt fails runs flushOnce once more. */
  function WriteStep(s: State, i: nat, who: Who, gen: nat, ok: bool): State
    requires i < |s.procs|
  {
    if ok then WithProc(s, i, Storing(who, gen)).(disk := s.dirty)
    else if who == Callback(false) then WithProc(s, i, Loading(Callback(true)))
    else WithProc(s, i, if who.Callback? then Finished else ReturnedErr(who))
         .(gaveUp := Max(s.gaveUp, gen))
  }

  /** One atomic action of process `i`; a process that has ended does nothing. */
  function StepProc(s: State, i: nat, ok: bool): State
    requires i < |s.procs|
  {
    match s.procs[i]
    case MarkCalled => WithProc(s, i, MarkAdded).(dirty := s.dirty + 1)
    case MarkAdded => MarkSection(s, i)
    case Armed => WithProc(s, i, Fired)
    case Fired =>
      WithProc(s, i, if s.closed then Finished else Loading(Callback(false))).(timer := None)
    case Called(who) => FlushSection(s, i, who)
    case Loading(who) => WithProc(s, i, Checking(who, s.dirty))
    case Checking(who, gen) => CheckStep(s, i, who, gen)
    case Writing(who, gen) => WriteStep(s, i, who, gen, ok)
    case Storing(who, gen) => WithProc(s, i, EndNil(who)).(saved := gen)
    case _ => s
  }

  function Next(s: State, a: Action): State {
    match a
    case CallMark => s.(procs := s.procs + [MarkCalled])
    case CallFlush => s.(procs := s.procs + [Called(FlushCall(s.dirty))])
    case CallClose => s.(procs := s.procs + [Called(CloseCall(s.dirty))])
    case Advance(i, ok) => if i < |s.procs| then StepProc(s, i, ok) else s
  }

  /** The state after a run; every interleaving of every set of calls is such a run. */
  function Exec(s: State, run: seq<Action>): State
    decreases |run|
  {
    if run == [] then s else Exec(Next(s, run[0]), run[1..])
  }

  // ---------------------------------------------------------------- the invariant

  ghost predicate PcOk(pc: Pc, dirty: nat, disk: nat) {
    match pc
    case Called(who) => Floor(who) <= dirty && !who.Callback?
    case Loading(who) => Floor(who) <= dirty
    case Checking(who, gen) => Floor(who) <= gen <= dirty
    case Writing(who, gen) => Floor(who) <= gen <= dirty
    case Storing(who, gen) => Floor(who) <= gen <= disk
    case ReturnedNil(who) => Floor(who) <= disk && !who.Callback?
    case _ => true
  }

  /** The process will, on its own, put generation `dirty` on disk unless its writes fail: it is
      a Mark about to look at the timer, a live timer or callback, or a flush that has not yet
      read the counter or has read its current value. */
  predicate WillCover(pc: Pc, dirty: nat) {
    match pc
    case MarkAdded => true
    case Armed => true
    case Fired => true
    case Loading(_) => true
    case Checking(_, gen) => gen == dirty
    case Writing(_, gen) => gen == dirty
    case _ => false
  }

  ghost predicate SomeoneCovers(s: State) {
    exists i :: 0 <= i < |s.procs| && WillCover(s.procs[i], s.dirty)
  }

  /** The generation on disk lies between the two counters although `saved` is not monotone. */
  ghost predicate Ordered(s: State) {
    s.saved <= s.disk <= s.dirty
  }

  ghost predicate TimerLive(s: State) {
    s.timer.Some? ==>
      s.timer.value < |s.procs| && (s.procs[s.timer.value].Armed? || s.procs[s.timer.value].Fired?)
  }

  ghost predicate NoLostWakeup(s: State) {
    !s.closed && s.disk < s.dirty && s.gaveUp < s.dirty ==> SomeoneCovers(s)
  }

  ghost predicate Inv(s: State) {
    && Ordered(s)
    && TimerLive(s)
    && (forall i :: 0 <= i < |s.procs| ==> PcOk(s.procs[i], s.dirty, s.disk))
    && NoLostWakeup(s)
  }

  /** Counters only grow, except `saved`. */
  lemma StepGrows(s: State, i: nat, ok: bool)
    requires Inv(s) && i < |s.procs|
    ensures var t := StepProc(s, i, ok);
      s.dirty <= t.dirty && s.disk <= t.disk && s.gaveUp <= t.gaveUp && (s.closed ==> t.closed) && Ordered(t)
  {
    assert PcOk(s.procs[i], s.dirty, s.disk);
  }

  lemma FlushFrame(s: State, i: nat, who: Who)
    requires i < |s.procs| && !s.procs[i].Armed?
    ensures var t := FlushSection(s, i, who);
      && |t.procs| == |s.procs|
      && (forall k :: 0 <= k < |s.procs| && k != i ==>
            t.procs[k] == s.procs[k] || (t.procs[k] == Finished && s.procs[k].Armed? && t.procs[i].Loading?))
  {
  }

  /** The processes a step of process `i` can touch: itself, the stopped timer, a new timer. */
  lemma StepFrame(s: State, i: nat, ok: bool)
    requires i < |s.procs|
    ensures var t := StepProc(s, i, ok);
      && |s.procs| <= |t.procs|
      && (forall k :: 0 <= k < |s.procs| && k != i ==>
            t.procs[k] == s.procs[k] || (t.procs[k] == Finished && s.procs[k].Armed? && t.procs[i].Loading?))
      && (forall k :: |s.procs| <= k < |t.procs| ==> t.procs[k] == Armed)
  {
    var t, pc := StepProc(s, i, ok), s.procs[i];
    if pc.Called? {
      FlushFrame(s, i, pc.who);
    } else if !pc.MarkAdded? {
      assert t.procs == s.procs[i := t.procs[i]];
    }
  }

  lemma StepOwnPc(s: State, i: nat, ok: bool)
    requires Inv(s) && i < |s.procs|
    ensures var t := StepProc(s, i, ok);
      i < |t.procs| && PcOk(t.procs[i], t.dirty, t.disk)
  {
    var pc := s.procs[i];
    assert PcOk(pc, s.dirty, s.disk);
    if pc.Called? {
      assert StepProc(s, i, ok) == FlushSection(s, i, pc.who);
    }
  }

  lemma StepKeepsTimerLive(s: State, i: nat, ok: bool)
    requires TimerLive(s) && i < |s.procs|
    ensures TimerLive(StepProc(s, i, ok))
  {
    var t := StepProc(s, i, ok);
    StepFrame(s, i, ok);
    if s.procs[i].Armed? || s.procs[i].Fired? {
    } else if s.timer.Some? {
      assert s.timer.value != i;
    }
  }

  /** The process that steps covers the newest generation afterwards, or did not before, or
      covers it by arming or finding a timer, or has put it on disk or given up on it. */
  lemma StepKeepsWakeup(s: State, i: nat, ok: bool)
    requires Inv(s) && i < |s.procs|
    ensures NoLostWakeup(StepProc(s, i, ok))
  {
    var t := StepProc(s, i, ok);
    StepFrame(s, i, ok);
    assert PcOk(s.procs[i], s.dirty, s.disk);
    if !t.closed && t.disk < t.dirty && t.gaveUp < t.dirty && !WillCover(t.procs[i], t.dirty) {
      if s.procs[i].MarkAdded? {
        var k := if s.timer.Some? then s.timer.value else |s.procs|;
        assert WillCover(t.procs[k], t.dirty);
      } else {
        var j :| 0 <= j < |s.procs| && WillCover(s.procs[j], s.dirty);
        assert WillCover(t.procs[j], t.dirty);
      }
    }
  }

  lemma StepKeepsInv(s: State, i: nat, ok: bool)
    requires Inv(s) && i < |s.procs|
    ensures Inv(StepProc(s, i, ok))
  {
    var t := StepProc(s, i, ok);
    StepGrows(s, i, ok);
    StepFrame(s, i, ok);
    StepOwnPc(s, i, ok);
    StepKeepsTimerLive(s, i, ok);
    StepKeepsWakeup(s, i, ok);
    forall k | 0 <= k < |t.procs| ensures PcOk(t.procs[k], t.dirty, t.disk) {
      if k < |s.procs| { assert PcOk(s.procs[k], s.dirty, s.disk); }
    }
  }

  lemma NextKeepsInv(s: State, a: Action)
    requires Inv(s)
    ensures Inv(Next(s, a)) && s.disk <= Next(s, a).disk && s.dirty <= Next(s, a).dirty
  {
    var t := Next(s, a);
    if a.Advance? {
      if a.proc < |s.procs| {
        StepKeepsInv(s, a.proc, a.writeOk);
        StepGrows(s, a.proc, a.writeOk);
      }
    } else if SomeoneCovers(s) {
      var i :| 0 <= i < |s.procs| && WillCover(s.procs[i], s.dirty);
      assert WillCover(t.procs[i], t.dirty);
    }
  }

  // ---------------------------------------------------------------- whole runs

  lemma {:induction false} ExecConcat(s: State, r0: seq<Action>, r1: seq<Action>)
    ensures Exec(s, r0 + r1) == Exec(Exec(s, r0), r1)
    decreases |r0|
  {
    if r0 == [] {
      assert r0 + r1 == r1;
    } else {
      assert (r0 + r1)[1..] == r0[1..] + r1;
      ExecConcat(Next(s, r0[0]), r0[1..], r1);
    }
  }

  lemma {:induction false} ExecKeepsInv(s: State, run: seq<Action>)
    requires Inv(s)
    ensures Inv(Exec(s, run)) && s.disk <= Exec(s, run).disk && s.dirty <= Exec(s, run).dirty
    decreases |run|
  {
    if run != [] {
      NextKeepsInv(s, run[0]);
      ExecKeepsInv(Next(s, run[0]), run[1..]);
    }
  }

  /** In every reachable state the disk lies between the counters, and a mark that is neither on
      disk nor given up on still has a process that will cover it, unless the merger is closed. */
  lemma RunsAreSafe(run: seq<Action>)
    ensures var s := Exec(Init, run);
      && s.saved <= s.disk <= s.dirty
      && (!s.closed && s.disk < s.dirty && s.gaveUp < s.dirty ==> SomeoneCovers(s))
  {
    ExecKeepsInv(Init, run);
  }

  /** The process is at some action of a Flush or Close call made with `who`. */
  predicate Serves(pc: Pc, who: Who) {
    match pc
    case Called(w) => w == who
    case Loading(w) => w == who
    case Checking(w, _) => w == who
    case Writing(w, _) => w == who
    case Storing(w, _) => w == who
    case ReturnedNil(w) => w == who
    case ReturnedErr(w) => w == who
    case ReturnedClosed(w) => w == who
    case _ => false
  }

  lemma {:induction false} ExecKeepsCall(s: State, run: seq<Action>, i: nat, who: Who)
    requires i < |s.procs| && !who.Callback? && Serves(s.procs[i], who)
    ensures i < |Exec(s, run).procs| && Serves(Exec(s, run).procs[i], who)
    decreases |run|
  {
    if run != [] {
      if run[0].Advance? && run[0].proc < |s.procs| {
        StepFrame(s, run[0].proc, run[0].writeOk);
      }
      ExecKeepsCall(Next(s, run[0]), run[1..], i, who);
    }
  }

  /** A Flush or first Close that ran to its nil return has put every mark counted before the
      call on disk, whatever else ran before, during and after it. */
  lemma NilReturnIsDurable(before: seq<Action>, call: Action, after: seq<Action>)
    requires call == CallFlush || call == CallClose
    ensures var s := Exec(Init, before);
      var t := Exec(s, [call] + after);
      && Exec(Init, before + [call] + after) == t
      && |s.procs| < |t.procs|
      && (t.procs[|s.procs|].ReturnedNil? ==> s.dirty <= t.disk)
  {
    var s := Exec(Init, before);
    var t := Exec(s, [call] + after);
    ExecConcat(Init, before, [call] + after);
    assert before + [call] + after == before + ([call] + after);
    var u := Next(s, call);
    assert t == Exec(u, after) by { assert ([call] + after)[1..] == after; }
    var who := if call.CallFlush? then FlushCall(s.dirty) else CloseCall(s.dirty);
    ExecKeepsCall(u, after, |s.procs|, who);
    ExecKeepsInv(Init, before);
    NextKeepsInv(s, call);
    ExecKeepsInv(u, after);
    assert PcOk(t.procs[|s.procs|], t.dirty, t.disk);
  }

  // ---------------------------------------------------------------- every run drains

  /** An upper bound on the actions a process, and the timer it may arm, still takes. */
  function Work(pc: Pc): nat {
    match pc
    case MarkCalled => 11
    case MarkAdded => 10
    case Armed => 9
    case Fired => 8
    case Called(_) => 8
    case Loading(who) => if who == Callback(false) then 7 else 4
    case Checking(who, _) => if who == Callback(false) then 6 else 3
    case Writing(who, _) => if who == Callback(false) then 5 else 2
    case Storing(_, _) => 1
    case _ => 0
  }

  function TotalWork(procs: seq<Pc>): nat {
    if procs == [] then 0 else TotalWork(procs[..|procs| - 1]) + Work(procs[|procs| - 1])
  }

  lemma {:induction false} TotalWorkUpdate(procs: seq<Pc>, i: nat, pc: Pc)
    requires i < |procs|
    ensures TotalWork(procs[i := pc]) == TotalWork(procs) - Work(procs[i]) + Work(pc)
    decreases |procs|
  {
    var n := |procs| - 1;
    if i < n {
      assert procs[i := pc][..n] == procs[..n][i := pc];
      TotalWorkUpdate(procs[..n], i, pc);
    } else {
      assert procs[i := pc][..n] == procs[..n];
    }
  }

  lemma {:induction false} NoWorkLeft(procs: seq<Pc>, i: nat)
    requires TotalWork(procs) == 0 && i < |procs|
    ensures Work(procs[i]) == 0
    decreases |procs|
  {
    if i < |procs| - 1 { NoWorkLeft(procs[..|procs| - 1], i); }
  }

  lemma StepWorks(s: State, i: nat, ok: bool)
    requires Inv(s) && i < |s.procs| && Work(s.procs[i]) > 0
    ensures TotalWork(StepProc(s, i, ok).procs) < TotalWork(s.procs)
  {
    var pc := s.procs[i];
    assert PcOk(pc, s.dirty, s.disk);
    if pc.MarkAdded? {
      TotalWorkUpdate(s.procs, i, Finished);
      var q := s.procs[i := Finished] + [Armed];
      assert q[..|q| - 1] == s.procs[i := Finished];
    } else if pc.Called? {
      StopWorks(s, i, pc.who);
    } else {
      StepTouchesOne(s, i, ok);
      TotalWorkUpdate(s.procs, i, StepProc(s, i, ok).procs[i]);
    }
  }

  lemma StepTouchesOne(s: State, i: nat, ok: bool)
    requires i < |s.procs| && Work(s.procs[i]) > 0 && !s.procs[i].MarkAdded? && !s.procs[i].Called?
    ensures var t := StepProc(s, i, ok);
      |t.procs| == |s.procs| && t.procs == s.procs[i := t.procs[i]] && Work(t.procs[i]) < Work(s.procs[i])
  {
  }

  lemma StopWorks(s: State, i: nat, who: Who)
    requires i < |s.procs| && s.procs[i] == Called(who) && !who.Callback?
    ensures TotalWork(FlushSection(s, i, who).procs) < TotalWork(s.procs)
  {
    if s.closed {
      TotalWorkUpdate(s.procs, i, ReturnedClosed(who));
    } else {
      var t := StopTimer(s.(closed := who.CloseCall?));
      if t.procs != s.procs { TotalWorkUpdate(s.procs, s.timer.value, Finished); }
      TotalWorkUpdate(t.procs, i, Loading(who));
    }
  }

  /** The run makes no new call and every action of it is by a process that had one to take. */
  ghost predicate Draining(s: State, run: seq<Action>)
    decreases |run|
  {
    run == [] ||
    (run[0].Advance? && run[0].proc < |s.procs| && Work(s.procs[run[0].proc]) > 0
     && Draining(Next(s, run[0]), run[1..]))
  }

  /** With no new calls the pending processes end within a bounded number of actions. */
  lemma {:induction false} DrainIsBounded(s: State, run: seq<Action>)
    requires Inv(s) && Draining(s, run)
    ensures |run| + TotalWork(Exec(s, run).procs) <= TotalWork(s.procs)
    decreases |run|
  {
    if run != [] {
      StepWorks(s, run[0].proc, run[0].writeOk);
      NextKeepsInv(s, run[0]);
      DrainIsBounded(Next(s, run[0]), run[1..]);
    }
  }

  /** Only a write error makes a flush give up. */
  lemma {:induction false} GoodWritesGiveNothingUp(s: State, run: seq<Action>)
    requires Inv(s) && forall k :: 0 <= k < |run| && run[k].Advance? ==> run[k].writeOk
    ensures Exec(s, run).gaveUp == s.gaveUp
    decreases |run|
  {
    if run != [] {
      NextKeepsInv(s, run[0]);
      assert Next(s, run[0]).gaveUp == s.gaveUp;
      GoodWritesGiveNothingUp(Next(s, run[0]), run[1..]);
    }
  }

  /** From any reachable state of an open merger whose newest mark was not given up on: let every
      process finish, in any order, with writes that succeed. Then everything marked is on disk. */
  lemma MarksReachDisk(before: seq<Action>, drain: seq<Action>)
    requires var s := Exec(Init, before); Draining(s, drain) && s.gaveUp < s.dirty
    requires forall k :: 0 <= k < |drain| ==> drain[k].Advance? && drain[k].writeOk
    ensures var s := Exec(Init, before);
      var t := Exec(s, drain);
      |drain| <= TotalWork(s.procs) && (TotalWork(t.procs) == 0 && !t.closed ==> t.disk == t.dirty)
  {
    var s := Exec(Init, before);
    var t := Exec(s, drain);
    ExecKeepsInv(Init, before);
    ExecKeepsInv(s, drain);
    DrainIsBounded(s, drain);
    GoodWritesGiveNothingUp(s, drain);
    if TotalWork(t.procs) == 0 && !t.closed && t.disk < t.dirty {
      var i :| 0 <= i < |t.procs| && WillCover(t.procs[i], t.dirty);
      NoWorkLeft(t.procs, i);
    }
  }

  // ---------------------------------------------------------------- what is not promised

  ghost predicate Reachable(s: State) {
    exists run :: Exec(Init, run) == s
  }

  lemma Reach(s: State, a: Action) returns (t: State)
    requires Reachable(s)
    ensures t == Next(s, a) && Reachable(t)
  {
    t := Next(s, a);
    var run :| Exec(Init, run) == s;
    ExecConcat(Init, run, [a]);
    assert Exec(s, [a]) == Exec(t, [a][1..]) == t;
    assert Exec(Init, run + [a]) == t;
  }

  /** A mark, armed timer and flush that has written the mark but not yet recorded it. */
  lemma UnrecordedWrite() returns (s: State)
    ensures Reachable(s)
    ensures s == State(1, 0, None, false, [Finished, Finished, Storing(FlushCall(1), 1)], 1, 0)
  {
    assert Exec(Init, []) == Init;
    s := Reach(Init, CallMark);
    s := Reach(s, Advance(0, true));
    s := Reach(s, Advance(0, true));
    assert s == State(1, 0, Some(1), false, [Finished, Armed], 0, 0);
    s := Reach(s, CallFlush);
    s := Reach(s, Advance(2, true));
    s := Reach(s, Advance(2, true));
    assert s == State(1, 0, None, false, [Finished, Finished, Checking(FlushCall(1), 1)], 0, 0);
    s := Reach(s, Advance(2, true));
    s := Reach(s, Advance(2, true));
  }

  /** `saved` is not monotone: a flush that loaded an older generation may store it last. */
  lemma SavedCanRegress()
    ensures exists s, i: nat :: Reachable(s) && i < |s.procs| && StepProc(s, i, true).saved < s.saved
  {
    var s := UnrecordedWrite();
    var late := Storing(FlushCall(1), 1);
    s := Reach(s, CallMark);
    s := Reach(s, Advance(3, true));
    s := Reach(s, CallFlush);
    assert s == State(2, 0, None, false, [Finished, Finished, late, MarkAdded, Called(FlushCall(2))], 1, 0);
    s := Reach(s, Advance(4, true));
    s := Reach(s, Advance(4, true));
    s := Reach(s, Advance(4, true));
    assert s == State(2, 0, None, false, [Finished, Finished, late, MarkAdded, Writing(FlushCall(2), 2)], 1, 0);
    s := Reach(s, Advance(4, true));
    s := Reach(s, Advance(4, true));
    assert s.saved == 2 && s.procs[2] == late;
    assert StepProc(s, 2, true).saved < s.saved;
  }

  /** A callback that passed its closed check and is about to write. */
  lemma LateCallback() returns (s: State)
    ensures Reachable(s)
    ensures s == State(1, 0, None, false, [Finished, Writing(Callback(false), 1)], 0, 0)
  {
    assert Exec(Init, []) == Init;
    s := Reach(Init, CallMark);
    s := Reach(s, Advance(0, true));
    s := Reach(s, Advance(0, true));
    assert s == State(1, 0, Some(1), false, [Finished, Armed], 0, 0);
    s := Reach(s, Advance(1, true));
    s := Reach(s, Advance(1, true));
    s := Reach(s, Advance(1, true));
    s := Reach(s, Advance(1, true));
  }

  /** A callback that passed its closed check still writes after Close has returned, so the
      comment that nothing is persisted after closing does not hold. */
  lemma WriteCanFollowClose()
    ensures exists s, i: nat, c: nat ::
              Reachable(s) && i < |s.procs| && c < |s.procs| &&
              s.procs[c].ReturnedNil? && s.closed && s.disk < StepProc(s, i, true).disk
  {
    var s := LateCallback();
    var late := Writing(Callback(false), 1);
    s := Reach(s, CallClose);
    s := Reach(s, Advance(2, true));
    s := Reach(s, Advance(2, true));
    assert s == State(1, 0, None, true, [Finished, late, Checking(CloseCall(1), 1)], 0, 0);
    s := Reach(s, Advance(2, true));
    s := Reach(s, Advance(2, true));
    s := Reach(s, Advance(2, true));
    assert s == State(1, 1, None, true, [Finished, late, ReturnedNil(CloseCall(1))], 1, 0);
    s := Reach(s, CallMark);
    s := Reach(s, Advance(3, true));
    assert s.procs[2].ReturnedNil? && s.procs[1] == late;
    assert s.disk < StepProc(s, 1, true).disk;
  }

  // ---------------------------------------------------------------- what is written after closing

  /** A flush under way that has not settled that it need not write: it has yet to load the counter, is
      about to write, or compares a generation that is newer than the recorded one or than one about to
      be recorded. */
  ghost predicate MayWrite(s: State, i: nat)
    requires i < |s.procs|
  {
    match s.procs[i]
    case Loading(_) => true
    case Writing(_, _) => true
    case Checking(_, gen) => s.saved < gen || AboutToRegress(s, gen)
    case _ => false
  }

  ghost predicate AboutToRegress(s: State, gen: nat) {
    exists j :: 0 <= j < |s.procs| && s.procs[j].Storing? && s.procs[j].gen < gen
  }

  ghost predicate Quiet(s: State) { s.closed && forall i :: 0 <= i < |s.procs| ==> !MayWrite(s, i) }

  lemma StepKeepsQuiet(s: State, i: nat, ok: bool)
    requires Quiet(s) && i < |s.procs|
    ensures var t := StepProc(s, i, ok); Quiet(t) && t.disk == s.disk
  {
    var t := StepProc(s, i, ok);
    assert !MayWrite(s, i);
    assert |t.procs| == |s.procs| && forall k :: 0 <= k < |s.procs| && k != i ==> t.procs[k] == s.procs[k];
    forall k | 0 <= k < |t.procs| ensures !MayWrite(t, k) {
      if k != i && t.procs[k].Checking? {
        assert !MayWrite(s, k);
        var gen := t.procs[k].gen;
        assert s.procs[i].Storing? ==> gen <= s.procs[i].gen;
        forall j | 0 <= j < |t.procs| && t.procs[j].Storing? ensures gen <= t.procs[j].gen {
          assert s.procs[j] == t.procs[j];
        }
      }
      if k != i { assert !MayWrite(s, k); }
    }
  }

  lemma NextKeepsQuiet(s: State, a: Action)
    requires Quiet(s)
    ensures Quiet(Next(s, a)) && Next(s, a).disk == s.disk
  {
    var t := Next(s, a);
    if a.Advance? {
      if a.proc < |s.procs| { StepKeepsQuiet(s, a.proc, a.writeOk); }
    } else {
      forall k | 0 <= k < |t.procs| ensures !MayWrite(t, k) {
        if k < |s.procs| {
          assert !MayWrite(s, k);
          if t.procs[k].Checking? {
            forall j | 0 <= j < |t.procs| && t.procs[j].Storing? ensures t.procs[k].gen <= t.procs[j].gen {
              assert s.procs[j] == t.procs[j];
            }
          }
        }
      }
    }
  }

  lemma {:induction false} QuietStaysQuiet(s: State, run: seq<Action>)
    requires Quiet(s)
    ensures Exec(s, run).disk == s.disk
    decreases |run|
  {
    if run != [] {
      NextKeepsQuiet(s, run[0]);
      QuietStaysQuiet(Next(s, run[0]), run[1..]);
    }
  }

  lemma Prepend(s: State, a: Action, run: seq<Action>)
    ensures Exec(s, [a] + run) == Exec(Next(s, a), run)
  {
    assert ([a] + run)[1..] == run;
  }

  /** A process about to write gets something new to disk if a mark comes first. */
  lemma WritingWrites(s: State, i: nat) returns (run: seq<Action>)
    requires Inv(s) && i < |s.procs| && s.procs[i].Writing?
    ensures s.disk < Exec(s, run).disk
  {
    var n := |s.procs|;
    var u := Next(s, CallMark);
    var v := Next(u, Advance(n, true));
    assert v.procs[i] == s.procs[i] && v.dirty == s.dirty + 1;
    var w := Next(v, Advance(i, true));
    assert w.disk == v.dirty;
    Prepend(v, Advance(i, true), []);
    Prepend(u, Advance(n, true), [Advance(i, true)] + []);
    run := [CallMark] + ([Advance(n, true)] + ([Advance(i, true)] + []));
    Prepend(s, CallMark, [Advance(n, true)] + ([Advance(i, true)] + []));
  }

  lemma CheckingWrites(s: State, i: nat) returns (run: seq<Action>)
    requires Inv(s) && i < |s.procs| && s.procs[i].Checking? && s.saved < s.procs[i].gen
    ensures s.disk < Exec(s, run).disk
  {
    var t := Next(s, Advance(i, true));
    NextKeepsInv(s, Advance(i, true));
    run := WritingWrites(t, i);
    Prepend(s, Advance(i, true), run);
    run := [Advance(i, true)] + run;
  }

  lemma RegressingWrites(s: State, i: nat, j: nat) returns (run: seq<Action>)
    requires Inv(s) && i < |s.procs| && j < |s.procs| && s.procs[i].Checking? && s.procs[j].Storing?
    requires s.procs[j].gen < s.procs[i].gen
    ensures s.disk < Exec(s, run).disk
  {
    var t := Next(s, Advance(j, true));
    NextKeepsInv(s, Advance(j, true));
    assert t.procs[i] == s.procs[i];
    run := CheckingWrites(t, i);
    Prepend(s, Advance(j, true), run);
    run := [Advance(j, true)] + run;
  }

  lemma LoadingWrites(s: State, i: nat) returns (run: seq<Action>)
    requires Inv(s) && i < |s.procs| && s.procs[i].Loading?
    ensures s.disk < Exec(s, run).disk
  {
    var n := |s.procs|;
    var u := Next(s, CallMark);
    var v := Next(u, Advance(n, true));
    var w := Next(v, Advance(i, true));
    NextKeepsInv(s, CallMark);
    NextKeepsInv(u, Advance(n, true));
    NextKeepsInv(v, Advance(i, true));
    assert v.procs[i] == s.procs[i] && v.dirty == s.dirty + 1 && v.saved == s.saved;
    run := CheckingWrites(w, i);
    Prepend(v, Advance(i, true), run);
    Prepend(u, Advance(n, true), [Advance(i, true)] + run);
    Prepend(s, CallMark, [Advance(n, true)] + ([Advance(i, true)] + run));
    run := [CallMark] + ([Advance(n, true)] + ([Advance(i, true)] + run));
  }

  /** The comment promises that nothing is persisted once the merger is closed. From a closed state of
      any run that holds exactly if no flush under way may still write. */
  lemma WritesAfterCloseIff(before: seq<Action>)
    requires Exec(Init, before).closed
    ensures var s := Exec(Init, before);
      (exists after :: s.disk != Exec(s, after).disk) <==> exists i :: 0 <= i < |s.procs| && MayWrite(s, i)
  {
    var s := Exec(Init, before);
    ExecKeepsInv(Init, before);
    if i :| 0 <= i < |s.procs| && MayWrite(s, i) {
      var run;
      if s.procs[i].Loading? {
        run := LoadingWrites(s, i);
      } else if s.procs[i].Writing? {
        run := WritingWrites(s, i);
      } else if s.saved < s.procs[i].gen {
        run := CheckingWrites(s, i);
      } else {
        var j :| 0 <= j < |s.procs| && s.procs[j].Storing? && s.procs[j].gen < s.procs[i].gen;
        run := RegressingWrites(s, i, j);
      }
      assert s.disk != Exec(s, run).disk;
    } else {
      forall after ensures s.disk == Exec(s, after).disk { QuietStaysQuiet(s, after); }
    }
  }

  // ---------------------------------------------------------------- the object itself

  /** The run without the actions of process `me`. */
  function Others(run: seq<Action>, me: nat): seq<Action>
    decreases |run|
  {
    if run == [] then []
    else if run[0].Advance? && run[0].proc == me then Others(run[1..], me)
    else [run[0]] + Others(run[1..], me)
  }

  lemma {:induction false} StaysClosed(s: State, run: seq<Action>)
    requires s.closed
    ensures Exec(s, run).closed
    decreases |run|
  {
    if run != [] { StaysClosed(Next(s, run[0]), run[1..]); }
  }

  lemma {:induction false} OthersAreAll(run: seq<Action>, me: nat)
    requires forall i :: 0 <= i < |run| ==> !(run[i].Advance? && run[i].proc == me)
    ensures Others(run, me) == run
    decreases |run|
  {
    if run != [] {
      OthersAreAll(run[1..], me);
      assert run == [run[0]] + run[1..];
    }
  }

  /** No process but `me` changes the action `me` is at; only a timer is stopped from outside. */
  lemma {:induction false} OthersLeaveMe(s: State, run: seq<Action>, me: nat)
    requires me < |s.procs| && !s.procs[me].Armed?
    ensures me < |Exec(s, Others(run, me)).procs| && Exec(s, Others(run, me)).procs[me] == s.procs[me]
    decreases |run|
  {
    if run != [] {
      if run[0].Advance? && run[0].proc == me {
        OthersLeaveMe(s, run[1..], me);
      } else {
        var t := Next(s, run[0]);
        if run[0].Advance? && run[0].proc < |s.procs| { StepFrame(s, run[0].proc, run[0].writeOk); }
        assert ([run[0]] + Others(run[1..], me))[1..] == Others(run[1..], me);
        OthersLeaveMe(t, run[1..], me);
      }
    }
  }

  /** One more action of a run from the initial state. */
  lemma OneMore(trace: seq<Action>, a: Action)
    ensures var s := Exec(Init, trace);
      var t := Next(s, a);
      Exec(Init, trace + [a]) == t && Inv(s) && Inv(t) && s.dirty <= t.dirty && s.disk <= t.disk
  {
    ExecConcat(Init, trace, [a]);
    var s := Exec(Init, trace);
    assert Exec(s, [a]) == Exec(Next(s, a), [a][1..]) == Next(s, a);
    ExecKeepsInv(Init, trace);
    NextKeepsInv(s, a);
  }

  /** Where Flush and Close end with an answer. */
  function Answer(who: Who, err: bool, wasClosed: bool): Pc {
    if wasClosed then ReturnedClosed(who) else if err then ReturnedErr(who) else ReturnedNil(who)
  }

  /** The actions a call in progress has left at most. */
  function StepsLeft(pc: Pc): nat {
    match pc
    case MarkCalled => 2
    case MarkAdded => 1
    case Armed => 9
    case Fired => 8
    case Called(_) => 8
    case Loading(who) => if who == Callback(false) then 7 else 4
    case Checking(who, _) => if who == Callback(false) then 6 else 3
    case Writing(who, _) => if who == Callback(false) then 5 else 2
    case Storing(_, _) => 1
    case _ => 0
  }

  lemma StepIsTaken(s: State, i: nat, ok: bool)
    requires i < |s.procs| && 0 < StepsLeft(s.procs[i])
    ensures i < |StepProc(s, i, ok).procs| && StepsLeft(StepProc(s, i, ok).procs[i]) < StepsLeft(s.procs[i])
    ensures !StepProc(s, i, ok).procs[i].Armed? && !StepProc(s, i, ok).procs[i].MarkCalled?
  {
    if s.procs[i].Called? { FlushFrame(s, i, s.procs[i].who); }
  }

  /** The state in which the call `me` returns, when other processes do `env(n)` before its n-th action,
      and a write at its n-th action succeeds if `ok(n)`. */
  ghost function Played(s: State, me: nat, env: nat -> seq<Action>, ok: nat -> bool, n: nat): State
    requires me < |s.procs| && !s.procs[me].Armed?
    decreases StepsLeft(s.procs[me])
  {
    if StepsLeft(s.procs[me]) == 0 then s
    else
      OthersLeaveMe(s, env(n), me);
      var t := Exec(s, Others(env(n), me));
      StepIsTaken(t, me, ok(n));
      Played(StepProc(t, me, ok(n)), me, env, ok, n + 1)
  }

  function Always(n: nat): bool { true }

  lemma PlayedOut(s: State, me: nat, env: nat -> seq<Action>, ok: nat -> bool, n: nat)
    requires me < |s.procs| && StepsLeft(s.procs[me]) == 0
    ensures Played(s, me, env, ok, n) == s
  {
  }

  /** One action of the call, after what the others do before it. */
  lemma PlayOne(s: State, t: State, u: State, me: nat, env: nat -> seq<Action>, ok: nat -> bool, n: nat, wrote: bool)
    requires me < |s.procs| && 0 < StepsLeft(s.procs[me]) && !s.procs[me].Armed?
    requires t == Exec(s, Others(env(n), me)) && me < |t.procs| && u == StepProc(t, me, wrote)
    requires t.procs[me].Writing? ==> wrote == ok(n)
    ensures me < |u.procs| && !u.procs[me].Armed? && Played(u, me, env, ok, n + 1) == Played(s, me, env, ok, n)
  {
    OthersLeaveMe(s, env(n), me);
    StepIsTaken(t, me, ok(n));
    assert u == StepProc(t, me, ok(n));
  }

  /** The fields of the program's `Merger`, and what the runtime keeps for it: the processes and
      the disk. The atomic methods are the program's atomic operations and critical sections; the
      four operations are built from them in the order of the program. Wherever another goroutine
      may run, the caller of the model says which actions other processes take there, so every
      interleaving is an execution of this class, and every execution is a run from `Init`. */
  class Merger {
    var dirty: nat
    var saved: nat
    var timer: Option<nat>
    var closed: bool
    var procs: seq<Pc>
    var disk: nat
    var gaveUp: nat
    ghost var trace: seq<Action>

    ghost function View(): State reads this {
      State(dirty, saved, timer, closed, procs, disk, gaveUp)
    }

    ghost predicate Valid() reads this { View() == Exec(Init, trace) }

    /** The process is at the given action. */
    ghost predicate At(me: nat, pc: Pc) reads this { me < |procs| && procs[me] == pc }

    constructor ()
      ensures Valid() && View() == Init
    {
      dirty, saved, timer, closed := 0, 0, None, false;
      procs, disk, gaveUp := [], 0, 0;
      trace := [];
    }

    method Begin(call: Action) returns (me: nat)
      requires Valid() && !call.Advance?
      modifies this
      ensures Valid() && trace == old(trace) + [call] && View() == Next(old(View()), call)
      ensures me == |old(procs)| < |procs|
    {
      OneMore(trace, call);
      trace := trace + [call];
      me := |procs|;
      procs := procs + [match call
                        case CallMark => MarkCalled
                        case CallFlush => Called(FlushCall(dirty))
                        case CallClose => Called(CloseCall(dirty))
                        case Advance(_, _) => Finished];
    }

    /** Other processes run while `me` is between two of its atomic actions. */
    method Interfere(env: seq<Action>, me: nat)
      requires Valid() && me < |procs| && !procs[me].Armed?
      modifies this
      ensures Valid() && trace == old(trace) + Others(env, me) && View() == Exec(old(View()), Others(env, me))
      ensures At(me, old(procs[me]))
      ensures old(dirty) <= dirty && old(disk) <= disk && (old(closed) ==> closed)
    {
      ghost var start, run := View(), Others(env, me);
      OthersLeaveMe(start, env, me);
      if closed { StaysClosed(start, run); }
      ExecConcat(Init, trace, run);
      ExecKeepsInv(Init, trace);
      ExecKeepsInv(start, run);
      trace := trace + run;
      OthersAct(env, me, Exec(start, run));
    }

    /** The fields follow the actions of the others, one after the other. */
    method OthersAct(env: seq<Action>, me: nat, ghost end: State)
      requires Exec(View(), Others(env, me)) == end
      modifies this`dirty, this`saved, this`timer, this`closed, this`procs, this`disk, this`gaveUp
      ensures View() == end
    {
      var k := 0;
      assert env[k..] == env;
      while k < |env|
        invariant 0 <= k <= |env| && Exec(View(), Others(env[k..], me)) == end
      {
        assert env[k..][1..] == env[k + 1..];
        if !(env[k].Advance? && env[k].proc == me) {
          assert ([env[k]] + Others(env[k + 1..], me))[1..] == Others(env[k + 1..], me);
          var t := Next(State(dirty, saved, timer, closed, procs, disk, gaveUp), env[k]);
          dirty, saved, timer, closed := t.dirty, t.saved, t.timer, t.closed;
          procs, disk, gaveUp := t.procs, t.disk, t.gaveUp;
        }
        k := k + 1;
      }
    }

    method AddDirty(me: nat)
      requires Valid() && At(me, MarkCalled)
      modifies this
      ensures Valid() && View() == StepProc(old(View()), me, true)
      ensures trace == old(trace) + [Advance(me, true)] && At(me, MarkAdded)
      ensures dirty == old(dirty) + 1
    {
      OneMore(trace, Advance(me, true));
      trace := trace + [Advance(me, true)];
      dirty := dirty + 1;
      procs := procs[me := MarkAdded];
    }

    /** The critical section of Mark. */
    method EnsureTimer(me: nat)
      requires Valid() && At(me, MarkAdded)
      modifies this
      ensures Valid() && View() == StepProc(old(View()), me, true)
      ensures trace == old(trace) + [Advance(me, true)] && At(me, Finished)
      ensures !closed ==> timer.Some? && timer.value < |procs|
      ensures !closed ==> procs[timer.value].Armed? || procs[timer.value].Fired?
      ensures dirty == old(dirty) && disk == old(disk)
    {
      OneMore(trace, Advance(me, true));
      trace := trace + [Advance(me, true)];
      procs := procs[me := Finished];
      if closed || timer.Some? { return; }
      timer := Some(|procs|);
      procs := procs + [Armed];
    }

    /** The critical section of Flush and Close: a closed merger is left alone, otherwise the timer
        is stopped and forgotten. */
    method DropTimer(me: nat, who: Who) returns (wasClosed: bool)
      requires Valid() && At(me, Called(who))
      modifies this
      ensures Valid() && View() == StepProc(old(View()), me, true)
      ensures trace == old(trace) + [Advance(me, true)] && wasClosed == old(closed)
      ensures At(me, if wasClosed then ReturnedClosed(who) else Loading(who))
      ensures closed == (wasClosed || who.CloseCall?) && (!wasClosed ==> timer == None)
      ensures dirty == old(dirty) && disk == old(disk)
    {
      OneMore(trace, Advance(me, true));
      trace := trace + [Advance(me, true)];
      wasClosed := closed;
      if closed {
        procs := procs[me := ReturnedClosed(who)];
        return;
      }
      closed := who.CloseCall?;
      if timer.Some? {
        if procs[timer.value].Armed? { procs := procs[timer.value := Finished]; }
        timer := None;
      }
      procs := procs[me := Loading(who)];
    }

    /** The critical section of the timer callback. */
    method TakeTimer(me: nat) returns (wasClosed: bool)
      requires Valid() && At(me, Fired)
      modifies this
      ensures Valid() && View() == StepProc(old(View()), me, true)
      ensures trace == old(trace) + [Advance(me, true)] && wasClosed == closed == old(closed)
      ensures timer == None && At(me, if wasClosed then Finished else Loading(Callback(false)))
      ensures dirty == old(dirty) && disk == old(disk)
    {
      OneMore(trace, Advance(me, true));
      trace := trace + [Advance(me, true)];
      timer := None;
      wasClosed := closed;
      procs := procs[me := if wasClosed then Finished else Loading(Callback(false))];
    }

    method LoadDirty(me: nat, who: Who) returns (gen: nat)
      requires Valid() && At(me, Loading(who))
      modifies this
      ensures Valid() && View() == StepProc(old(View()), me, true)
      ensures trace == old(trace) + [Advance(me, true)] && At(me, Checking(who, gen))
      ensures gen == dirty == old(dirty) && disk == old(disk)
    {
      OneMore(trace, Advance(me, true));
      trace := trace + [Advance(me, true)];
      gen := dirty;
      procs := procs[me := Checking(who, gen)];
    }

    /** Loads `saved` and compares; an up-to-date caller is done, and its generation is on disk. */
    method CheckSaved(me: nat, who: Who, gen: nat) returns (upToDate: bool)
      requires Valid() && At(me, Checking(who, gen))
      modifies this
      ensures Valid() && View() == StepProc(old(View()), me, true)
      ensures trace == old(trace) + [Advance(me, true)]
      ensures At(me, if upToDate then EndNil(who) else Writing(who, gen))
      ensures upToDate ==> gen <= disk
      ensures dirty == old(dirty) && disk == old(disk)
    {
      OneMore(trace, Advance(me, true));
      trace := trace + [Advance(me, true)];
      upToDate := gen <= saved;
      procs := procs[me := if upToDate then EndNil(who) else Writing(who, gen)];
    }

    method Write(me: nat, who: Who, gen: nat, ok: bool)
      requires Valid() && At(me, Writing(who, gen))
      modifies this
      ensures Valid() && View() == StepProc(old(View()), me, ok)
      ensures trace == old(trace) + [Advance(me, ok)]
      ensures ok ==> At(me, Storing(who, gen)) && gen <= disk
      ensures !ok && who == Callback(false) ==> At(me, Loading(Callback(true))) && gaveUp == old(gaveUp)
      ensures !ok && who != Callback(false) ==>
                At(me, if who.Callback? then Finished else ReturnedErr(who)) && gen <= gaveUp
      ensures dirty == old(dirty) && old(disk) <= disk
    {
      OneMore(trace, Advance(me, ok));
      assert PcOk(procs[me], dirty, disk);
      trace := trace + [Advance(me, ok)];
      if ok {
        disk := dirty;
        procs := procs[me := Storing(who, gen)];
      } else if who == Callback(false) {
        procs := procs[me := Loading(Callback(true))];
      } else {
        procs := procs[me := if who.Callback? then Finished else ReturnedErr(who)];
        gaveUp := Max(gaveUp, gen);
      }
    }

    method StoreSaved(me: nat, who: Who, gen: nat)
      requires Valid() && At(me, Storing(who, gen))
      modifies this
      ensures Valid() && View() == StepProc(old(View()), me, true)
      ensures trace == old(trace) + [Advance(me, true)]
      ensures At(me, EndNil(who)) && saved == gen <= disk
      ensures dirty == old(dirty) && disk == old(disk)
    {
      OneMore(trace, Advance(me, true));
      assert PcOk(procs[me], dirty, disk);
      trace := trace + [Advance(me, true)];
      saved := gen;
      procs := procs[me := EndNil(who)];
    }

    /** `env(n)` is what other processes do before the n-th action of the call, and `ok(n)` tells whether
        a write that is its n-th action succeeds. */
    method Mark(env: nat -> seq<Action>)
      requires Valid()
      modifies this
      ensures Valid() && old(trace) <= trace && old(dirty) < dirty && At(|old(procs)|, Finished)
      ensures View() == Played(Next(old(View()), CallMark), |old(procs)|, env, Always, 0)
      ensures !closed ==> timer.Some? && timer.value < |procs|
      ensures !closed ==> procs[timer.value].Armed? || procs[timer.value].Fired?
    {
      var me := Begin(CallMark);
      ghost var end := Played(View(), me, env, Always, 0);
      ghost var s := View();
      Interfere(env(0), me);
      ghost var t := View();
      AddDirty(me);
      PlayOne(s, t, View(), me, env, Always, 0, true);
      Marked(me, env, end);
    }

    /** The critical section of Mark, with which it returns. */
    method Marked(me: nat, env: nat -> seq<Action>, ghost end: State)
      requires Valid() && At(me, MarkAdded) && Played(View(), me, env, Always, 1) == end
      modifies this
      ensures Valid() && old(trace) <= trace && old(dirty) <= dirty && At(me, Finished) && View() == end
      ensures !closed ==> timer.Some? && timer.value < |procs|
      ensures !closed ==> procs[timer.value].Armed? || procs[timer.value].Fired?
    {
      ghost var s := View();
      Interfere(env(1), me);
      assert old(trace) <= trace;
      ghost var t := View();
      EnsureTimer(me);
      PlayOne(s, t, View(), me, env, Always, 1, true);
      PlayedOut(View(), me, env, Always, 2);
    }

    /** Writes at most once; a nil result means that everything counted so far is on disk. `m` is the
        number of the call's next action. */
    method FlushOnce(me: nat, who: Who, env: nat -> seq<Action>, ok: nat -> bool, n: nat)
      returns (err: bool, ghost m: nat)
      requires Valid() && At(me, Loading(who))
      modifies this
      ensures Valid() && old(trace) <= trace && old(dirty) <= dirty && old(disk) <= disk
      ensures old(closed) ==> closed
      ensures me < |procs| && !procs[me].Armed?
      ensures Played(View(), me, env, ok, m) == Played(old(View()), me, env, ok, n)
      ensures !err ==> At(me, EndNil(who)) && old(dirty) <= disk
      ensures err && who == Callback(false) ==> At(me, Loading(Callback(true))) && m == n + 3
      ensures err && who != Callback(false) ==> At(me, if who.Callback? then Finished else ReturnedErr(who))
      ensures err && who != Callback(false) ==> old(dirty) <= gaveUp
      ensures err ==> !ok(n + 2)
    {
      ghost var s0 := View();
      Interfere(env(n), me);
      ghost var s1 := View();
      var gen := LoadDirty(me, who);
      PlayOne(s0, s1, View(), me, env, ok, n, true);
      err, m := WriteIfNewer(me, who, gen, env, ok, n + 1);
    }

    /** The comparison and, for a newer generation, the write. */
    method WriteIfNewer(me: nat, who: Who, gen: nat, env: nat -> seq<Action>, ok: nat -> bool, n: nat)
      returns (err: bool, ghost m: nat)
      requires Valid() && At(me, Checking(who, gen))
      modifies this
      ensures Valid() && old(trace) <= trace && old(dirty) <= dirty && old(disk) <= disk
      ensures old(closed) ==> closed
      ensures me < |procs| && !procs[me].Armed?
      ensures Played(View(), me, env, ok, m) == Played(old(View()), me, env, ok, n)
      ensures !err ==> At(me, EndNil(who)) && gen <= disk
      ensures err && who == Callback(false) ==> At(me, Loading(Callback(true))) && m == n + 2
      ensures err && who != Callback(false) ==>
                At(me, if who.Callback? then Finished else ReturnedErr(who)) && gen <= gaveUp
      ensures err ==> !ok(n + 1)
    {
      ghost var s0 := View();
      Interfere(env(n), me);
      assert old(trace) <= trace;
      ghost var s1 := View();
      var upToDate := CheckSaved(me, who, gen);
      assert old(trace) <= trace;
      PlayOne(s0, s1, View(), me, env, ok, n, true);
      if upToDate { return false, n + 1; }
      err, m := WriteAndStore(me, who, gen, env, ok, n + 1);
    }

    method WriteAndStore(me: nat, who: Who, gen: nat, env: nat -> seq<Action>, ok: nat -> bool, n: nat)
      returns (err: bool, ghost m: nat)
      requires Valid() && At(me, Writing(who, gen))
      modifies this
      ensures Valid() && old(trace) <= trace && old(dirty) <= dirty && old(disk) <= disk
      ensures old(closed) ==> closed
      ensures me < |procs| && !procs[me].Armed?
      ensures Played(View(), me, env, ok, m) == Played(old(View()), me, env, ok, n)
      ensures !err ==> At(me, EndNil(who)) && gen <= disk
      ensures err && who == Callback(false) ==> At(me, Loading(Callback(true))) && m == n + 1
      ensures err && who != Callback(false) ==>
                At(me, if who.Callback? then Finished else ReturnedErr(who)) && gen <= gaveUp
      ensures err <==> !ok(n)
    {
      ghost var s0 := View();
      Interfere(env(n), me);
      assert old(trace) <= trace;
      ghost var s1 := View();
      Write(me, who, gen, ok(n));
      assert old(trace) <= trace;
      PlayOne(s0, s1, View(), me, env, ok, n, ok(n));
      if !ok(n) { return true, n + 1; }
      ghost var s2 := View();
      Interfere(env(n + 1), me);
      assert old(trace) <= trace;
      ghost var s3 := View();
      StoreSaved(me, who, gen);
      PlayOne(s2, s3, View(), me, env, ok, n + 1, true);
      return false, n + 2;
    }

    /** The timer callback: two attempts, unless the merger is closed. */
    method FlushPending(me: nat, env: nat -> seq<Action>, ok: nat -> bool)
      requires Valid() && At(me, Fired)
      modifies this
      ensures Valid() && old(trace) <= trace && At(me, Finished)
      ensures View() == Played(old(View()), me, env, ok, 0)
      ensures closed || old(dirty) <= disk || (!ok(3) && !ok(6) && old(dirty) <= gaveUp)
    {
      ghost var s0 := View();
      Interfere(env(0), me);
      ghost var s1 := View();
      var wasClosed := TakeTimer(me);
      PlayOne(s0, s1, View(), me, env, ok, 0, true);
      if wasClosed {
        PlayedOut(View(), me, env, ok, 1);
        return;
      }
      assert old(trace) <= trace;
      FlushTwice(me, env, ok);
    }

    /** The first attempt and, after a write error, the second. */
    method FlushTwice(me: nat, env: nat -> seq<Action>, ok: nat -> bool)
      requires Valid() && At(me, Loading(Callback(false)))
      modifies this
      ensures Valid() && old(trace) <= trace && At(me, Finished)
      ensures View() == Played(old(View()), me, env, ok, 1)
      ensures old(dirty) <= disk || (!ok(3) && !ok(6) && old(dirty) <= gaveUp)
    {
      var err, m := FlushOnce(me, Callback(false), env, ok, 1);
      assert old(trace) <= trace;
      if err {
        FlushAgain(me, env, ok);
        assert old(trace) <= trace;
      } else {
        PlayedOut(View(), me, env, ok, m);
      }
    }

    method FlushAgain(me: nat, env: nat -> seq<Action>, ok: nat -> bool)
      requires Valid() && At(me, Loading(Callback(true)))
      modifies this
      ensures Valid() && old(trace) <= trace && At(me, Finished) && View() == Played(old(View()), me, env, ok, 4)
      ensures old(dirty) <= disk || (!ok(6) && old(dirty) <= gaveUp)
    {
      var err, m := FlushOnce(me, Callback(true), env, ok, 4);
      PlayedOut(View(), me, env, ok, m);
    }

    /** What Flush and Close have in common. */
    method FlushCalled(me: nat, who: Who, env: nat -> seq<Action>, ok: nat -> bool) returns (err: bool, wasClosed: bool)
      requires Valid() && At(me, Called(who)) && !who.Callback?
      modifies this
      ensures Valid() && old(trace) <= trace
      ensures View() == Played(old(View()), me, env, ok, 0)
      ensures At(me, Answer(who, err, wasClosed)) && !(err && wasClosed)
      ensures wasClosed || who.CloseCall? ==> closed
      ensures !err && !wasClosed ==> old(dirty) <= disk
      ensures err ==> !ok(3) && old(dirty) <= gaveUp
    {
      ghost var s0 := View();
      Interfere(env(0), me);
      ghost var s1 := View();
      wasClosed := DropTimer(me, who);
      PlayOne(s0, s1, View(), me, env, ok, 0, true);
      if wasClosed {
        PlayedOut(View(), me, env, ok, 1);
        return false, true;
      }
      assert old(trace) <= trace;
      err := FlushAndEnd(me, who, env, ok);
    }

    method FlushAndEnd(me: nat, who: Who, env: nat -> seq<Action>, ok: nat -> bool) returns (err: bool)
      requires Valid() && At(me, Loading(who)) && !who.Callback?
      modifies this
      ensures Valid() && old(trace) <= trace && (old(closed) ==> closed)
      ensures View() == Played(old(View()), me, env, ok, 1)
      ensures At(me, Answer(who, err, false))
      ensures !err ==> old(dirty) <= disk
      ensures err ==> !ok(3) && old(dirty) <= gaveUp
    {
      ghost var m;
      err, m := FlushOnce(me, who, env, ok, 1);
      PlayedOut(View(), me, env, ok, m);
    }

    /** The answer is that of the call's own process. A nil result from an open merger means that every
        mark counted before the call is on disk. */
    method Flush(env: nat -> seq<Action>, ok: nat -> bool) returns (err: bool, wasClosed: bool)
      requires Valid()
      modifies this
      ensures Valid() && old(trace) <= trace
      ensures View() == Played(Next(old(View()), CallFlush), |old(procs)|, env, ok, 0)
      ensures At(|old(procs)|, Answer(FlushCall(old(dirty)), err, wasClosed)) && !(err && wasClosed)
      ensures wasClosed ==> closed
      ensures !err && !wasClosed ==> old(dirty) <= disk
      ensures err ==> !ok(3) && old(dirty) <= gaveUp
    {
      var who := FlushCall(dirty);
      var me := Begin(CallFlush);
      err, wasClosed := FlushCalled(me, who, env, ok);
    }

    /** The same for Close, which leaves the merger closed. */
    method Close(env: nat -> seq<Action>, ok: nat -> bool) returns (err: bool, wasClosed: bool)
      requires Valid()
      modifies this
      ensures Valid() && old(trace) <= trace && closed
      ensures View() == Played(Next(old(View()), CallClose), |old(procs)|, env, ok, 0)
      ensures At(|old(procs)|, Answer(CloseCall(old(dirty)), err, wasClosed)) && !(err && wasClosed)
      ensures !err && !wasClosed ==> old(dirty) <= disk
      ensures err ==> !ok(3) && old(dirty) <= gaveUp
    {
      var who := CloseCall(dirty);
      var me := Begin(CallClose);
      err, wasClosed := FlushCalled(me, who, env, ok);
    }
  }
}
