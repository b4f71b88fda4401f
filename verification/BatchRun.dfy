/**
The concurrent batch executor. One goroutine per operation queues for a slot of a semaphore,
checks for cancellation once more, executes, counts, and stores the result in its own place of the
output. All interleavings of the goroutines, the spawning loop and cancellation are runs of the
step system below.
*/
module BatchRun {
  import opened Wrappers
  import opened OpResults

  /** What executing one operation leads to. */
  datatype Outcome = Returned(res: OpResult) | Panicked(message: string)

  /** The operations, the requested number of workers, and what executing an operation leads to
      after the operations already executed, in that order. */
  datatype Job = Job(ops: seq<string>, workers: int, exec: (seq<string>, string) -> Outcome)

  const MSG_SKIPPED := "Skipped（任务已取消）"

  function Skipped(raw: string): OpResult { OpResult(raw, false, MSG_SKIPPED) }

  /** A panic becomes a failure of its own operation. */
  function ResultOf(raw: string, o: Outcome): OpResult {
    match o
    case Returned(res) => res
    case Panicked(m) => OpResult(raw, false, "panic: " + m)
  }

  /** The semaphore's capacity after clamping. */
  function Limit(job: Job): int {
    var w := if job.workers <= 1 then 1 else job.workers;
    var c := if |job.ops| < w then |job.ops| else w;
    if c < 1 then 1 else c
  }

  /** The next action of the goroutine of one operation. */
  datatype Pc =
    | Unspawned
    | Queued                   // waiting for a slot
    | Holding                  // has a slot; about to check for cancellation again
    | Running                  // executing
    | Ended(res: OpResult)     // about to count a failure
    | Counted(res: OpResult)   // about to count itself as done
    | Storing(res: OpResult)   // about to store the result
    | Leaving                  // about to free the slot
    | Gone

  /** The goroutine, what its execution led to if it executed, its place in the output, and how
      often that place was written. */
  datatype Cell = Cell(pc: Pc, ran: Option<Outcome>, out: Option<OpResult>, writes: nat)

  datatype Report = Report(total: nat, done: nat, failed: nat)

  /** `history` is the operations executed so far, by index, in order. */
  datatype State = State(cells: seq<Cell>, spawned: nat, cancelled: bool, slots: nat, done: nat, failed: nat,
                         history: seq<nat>, report: Option<Report>)

  function Init(job: Job): State {
    State(seq(|job.ops|, i => Cell(Unspawned, None, None, 0)), 0, false, 0, 0, 0, [], None)
  }

  datatype Action =
    | Cancel
    | Spawn             // the main loop's next operation
    | GiveUp(i: nat)    // a queued operation notices the cancellation
    | Advance(i: nat)   // the next action of a goroutine; acquiring needs a free slot
    | Finish            // everything has ended: the final report

  function WithCell(s: State, i: nat, c: Cell): State
    requires i < |s.cells|
  {
    s.(cells := s.cells[i := c])
  }

  function Write(c: Cell, res: OpResult): Cell { c.(out := Some(res), writes := c.writes + 1) }

  predicate AllGone(s: State) { forall i :: 0 <= i < |s.cells| ==> s.cells[i].pc == Gone }

  function Raws(job: Job, history: seq<nat>): seq<string> {
    seq(|history|, k requires 0 <= k < |history| => if history[k] < |job.ops| then job.ops[history[k]] else "")
  }

  /** One action of goroutine `i`; one that cannot act does nothing. */
  function Step(job: Job, s: State, i: nat): State
    requires i < |s.cells| == |job.ops|
  {
    var c := s.cells[i];
    match c.pc
    case Queued =>
      if s.slots < Limit(job) then WithCell(s, i, c.(pc := Holding)).(slots := s.slots + 1) else s
    case Holding =>
      WithCell(s, i, if s.cancelled then Write(c.(pc := Leaving), Skipped(job.ops[i])) else c.(pc := Running))
    case Running =>
      var o := job.exec(Raws(job, s.history), job.ops[i]);
      WithCell(s, i, c.(pc := Ended(ResultOf(job.ops[i], o)), ran := Some(o))).(history := s.history + [i])
    case Ended(res) =>
      WithCell(s, i, c.(pc := Counted(res))).(failed := if res.success then s.failed else s.failed + 1)
    case Counted(res) => WithCell(s, i, c.(pc := Storing(res))).(done := s.done + 1)
    case Storing(res) => WithCell(s, i, Write(c.(pc := Leaving), res))
    case Leaving => WithCell(s, i, c.(pc := Gone)).(slots := if s.slots == 0 then 0 else s.slots - 1)
    case _ => s
  }

  function Next(job: Job, s: State, a: Action): State
    requires |s.cells| == |job.ops|
  {
    match a
    case Cancel => s.(cancelled := true)
    case Spawn =>
      if s.spawned < |s.cells| then
        var c := s.cells[s.spawned];
        WithCell(s, s.spawned,
                 if s.cancelled then Write(c.(pc := Gone), Skipped(job.ops[s.spawned])) else c.(pc := Queued))
        .(spawned := s.spawned + 1)
      else s
    case GiveUp(i) =>
      if i < |s.cells| && s.cells[i].pc == Queued && s.cancelled
      then WithCell(s, i, Write(s.cells[i].(pc := Gone), Skipped(job.ops[i])))
      else s
    case Advance(i) => if i < |s.cells| then Step(job, s, i) else s
    case Finish =>
      if s.spawned == |s.cells| && AllGone(s) && s.cells != []
      then s.(report := Some(Report(|s.cells|, s.done, s.failed)))
      else s
  }

  function Exec(job: Job, s: State, run: seq<Action>): (t: State)
    requires |s.cells| == |job.ops|
    ensures |t.cells| == |s.cells|
    decreases |run|
  {
    if run == [] then s else Exec(job, Next(job, s, run[0]), run[1..])
  }

  // ---------------------------------------------------------------- counting

  datatype Measure = InSlot | Executing | DoneOps | FailedOps | ExecutedOps | SkippedOps | WorkLeft

  /** What one operation contributes to a count. */
  function Weight(m: Measure, c: Cell): nat {
    var executed := c.ran.Some?;
    match m
    case InSlot => if c.pc.Unspawned? || c.pc.Queued? || c.pc.Gone? then 0 else 1
    case Executing => if c.pc.Running? then 1 else 0
    case DoneOps => if executed && (c.pc.Storing? || c.pc.Leaving? || c.pc.Gone?) then 1 else 0
    case FailedOps =>
      if executed && !ResultOf("", c.ran.value).success && !c.pc.Ended? then 1 else 0
    case ExecutedOps => if executed then 1 else 0
    case SkippedOps => if !executed && c.out.Some? then 1 else 0
    case WorkLeft => ActionsLeft(c.pc)
  }

  /** How many actions lie at most between here and the end of the goroutine. */
  function ActionsLeft(pc: Pc): nat {
    match pc
    case Unspawned => 8
    case Queued => 7
    case Holding => 6
    case Running => 5
    case Ended(_) => 4
    case Counted(_) => 3
    case Storing(_) => 2
    case Leaving => 1
    case Gone => 0
  }

  function Total(m: Measure, cells: seq<Cell>): nat
    decreases |cells|
  {
    if cells == [] then 0 else Total(m, cells[..|cells| - 1]) + Weight(m, cells[|cells| - 1])
  }

  lemma {:induction false} TotalUpdate(m: Measure, cells: seq<Cell>, i: nat, c: Cell)
    requires i < |cells|
    ensures Total(m, cells[i := c]) == Total(m, cells) - Weight(m, cells[i]) + Weight(m, c)
    ensures Weight(m, cells[i]) <= Total(m, cells)
    decreases |cells|
  {
    var n := |cells| - 1;
    if i < n {
      assert cells[i := c][..n] == cells[..n][i := c];
      TotalUpdate(m, cells[..n], i, c);
    } else {
      assert cells[i := c][..n] == cells[..n];
    }
  }

  lemma {:induction false} TotalOfNone(m: Measure, cells: seq<Cell>)
    requires forall i :: 0 <= i < |cells| ==> Weight(m, cells[i]) == 0
    ensures Total(m, cells) == 0
    decreases |cells|
  {
    if cells != [] { TotalOfNone(m, cells[..|cells| - 1]); }
  }

  // ---------------------------------------------------------------- the invariant

  /** What is known of goroutine `i` from where it is. Its place in the output is written once, by
      itself or by the spawning loop, with its own result or with its own skip. */
  ghost predicate CellOk(raw: string, c: Cell, isSpawned: bool, cancelled: bool) {
    match c.pc
    case Unspawned => !isSpawned && Fresh(c)
    case Queued => isSpawned && Fresh(c)
    case Holding => isSpawned && Fresh(c)
    case Running => isSpawned && Fresh(c)
    case Ended(res) => isSpawned && Executed(raw, c, res)
    case Counted(res) => isSpawned && Executed(raw, c, res)
    case Storing(res) => isSpawned && Executed(raw, c, res)
    case Leaving => isSpawned && Written(raw, c, cancelled)
    case Gone => isSpawned && Written(raw, c, cancelled)
  }

  ghost predicate Fresh(c: Cell) { c.ran == None && c.out == None && c.writes == 0 }

  ghost predicate Executed(raw: string, c: Cell, res: OpResult) {
    c.ran.Some? && res == ResultOf(raw, c.ran.value) && c.out == None && c.writes == 0
  }

  ghost predicate Written(raw: string, c: Cell, cancelled: bool) {
    c.writes == 1 && c.out == Some(if c.ran.Some? then ResultOf(raw, c.ran.value) else Skipped(raw)) &&
    (c.ran.None? ==> cancelled)
  }

  ghost predicate CellsOk(job: Job, s: State) {
    |s.cells| == |job.ops| && s.spawned <= |s.cells| &&
    forall i :: 0 <= i < |s.cells| ==> CellOk(job.ops[i], s.cells[i], i < s.spawned, s.cancelled)
  }

  ghost predicate CountersOk(job: Job, s: State) {
    && s.slots == Total(InSlot, s.cells) <= Limit(job)
    && s.done == Total(DoneOps, s.cells)
    && s.failed == Total(FailedOps, s.cells)
  }

  /** The executed operations, each once, each after the ones before it. */
  ghost predicate HistoryOk(job: Job, s: State)
    requires |s.cells| == |job.ops|
  {
    && (forall k :: 0 <= k < |s.history| ==> s.history[k] < |s.cells|)
    && (forall k, l :: 0 <= k < l < |s.history| ==> s.history[k] != s.history[l])
    && (forall i :: 0 <= i < |s.cells| && s.cells[i].ran.Some? ==> i in s.history)
    && (forall k :: 0 <= k < |s.history| ==> RanAt(job, s, k))
  }

  ghost predicate RanAt(job: Job, s: State, k: nat)
    requires k < |s.history| && |s.cells| == |job.ops|
  {
    var i := s.history[k];
    i < |s.cells| && s.cells[i].ran == Some(job.exec(Raws(job, s.history[..k]), job.ops[i]))
  }

  ghost predicate ReportOk(s: State) {
    s.report.Some? ==>
      && AllGone(s) && s.spawned == |s.cells|
      && s.report.value == Report(|s.cells|, s.done, s.failed)
  }

  ghost predicate Inv(job: Job, s: State) {
    CellsOk(job, s) && CountersOk(job, s) && HistoryOk(job, s) && ReportOk(s)
  }

  lemma InitInv(job: Job)
    ensures Inv(job, Init(job))
  {
    var s := Init(job);
    forall m | m != WorkLeft ensures Total(m, s.cells) == 0 { TotalOfNone(m, s.cells); }
  }

  lemma StepCells(job: Job, s: State, i: nat)
    requires CellsOk(job, s) && i < |s.cells|
    ensures CellsOk(job, Step(job, s, i))
  {
    var t := Step(job, s, i);
    assert CellOk(job.ops[i], s.cells[i], i < s.spawned, s.cancelled);
    assert CellOk(job.ops[i], t.cells[i], i < s.spawned, s.cancelled);
  }

  lemma StepFrame(job: Job, s: State, i: nat)
    requires i < |s.cells| == |job.ops|
    ensures var t := Step(job, s, i);
      && |t.cells| == |s.cells| && t.cells == s.cells[i := t.cells[i]]
      && t.spawned == s.spawned && t.report == s.report && t.cancelled == s.cancelled
      && (s.cells[i].pc == Gone ==> t == s)
  {
  }

  /** How one step changes the contributions of its own cell and the counters. */
  lemma StepWeights(job: Job, s: State, i: nat)
    requires i < |s.cells| == |job.ops| && CellOk(job.ops[i], s.cells[i], i < s.spawned, s.cancelled)
    requires s.cells[i].pc.Leaving? ==> 0 < s.slots
    ensures var t := Step(job, s, i);
      && t.slots - s.slots == Weight(InSlot, t.cells[i]) - Weight(InSlot, s.cells[i])
      && t.done - s.done == Weight(DoneOps, t.cells[i]) - Weight(DoneOps, s.cells[i])
      && t.failed - s.failed == Weight(FailedOps, t.cells[i]) - Weight(FailedOps, s.cells[i])
      && (s.slots <= Limit(job) ==> t.slots <= Limit(job))
  {
  }

  lemma StepCounts(job: Job, s: State, i: nat)
    requires CellsOk(job, s) && CountersOk(job, s) && i < |s.cells|
    ensures CountersOk(job, Step(job, s, i))
  {
    var t := Step(job, s, i);
    TotalUpdate(InSlot, s.cells, i, t.cells[i]);
    TotalUpdate(DoneOps, s.cells, i, t.cells[i]);
    TotalUpdate(FailedOps, s.cells, i, t.cells[i]);
    StepFrame(job, s, i);
    StepWeights(job, s, i);
  }

  /** Executing appends the operation to the history; nothing else touches it. */
  lemma StepHistory(job: Job, s: State, i: nat)
    requires CellsOk(job, s) && HistoryOk(job, s) && i < |s.cells|
    ensures HistoryOk(job, Step(job, s, i))
  {
    var t := Step(job, s, i);
    StepFrame(job, s, i);
    assert CellOk(job.ops[i], s.cells[i], i < s.spawned, s.cancelled);
    if s.cells[i].pc.Running? {
      RunHistory(job, s, i);
    } else {
      SameHistory(job, s, t);
    }
  }

  lemma SameHistory(job: Job, s: State, t: State)
    requires |s.cells| == |t.cells| == |job.ops| && HistoryOk(job, s) && t.history == s.history
    requires forall k :: 0 <= k < |s.cells| ==> t.cells[k].ran == s.cells[k].ran
    ensures HistoryOk(job, t)
  {
    forall k | 0 <= k < |t.history| ensures RanAt(job, t, k) { assert RanAt(job, s, k); }
  }

  lemma RunHistory(job: Job, s: State, i: nat)
    requires CellsOk(job, s) && HistoryOk(job, s) && i < |s.cells| && s.cells[i].pc.Running? && s.cells[i].ran.None?
    ensures HistoryOk(job, Step(job, s, i))
  {
    var t := Step(job, s, i);
    var h := s.history;
    assert t.history == h + [i];
    forall k | 0 <= k < |h| ensures h[k] != i { assert RanAt(job, s, k); }
    forall k | 0 <= k < |t.history| ensures RanAt(job, t, k) {
      if k < |h| {
        assert RanAt(job, s, k);
        assert t.history[..k] == h[..k];
      } else {
        assert t.history[..k] == h;
      }
    }
    forall k | 0 <= k < |t.cells| && t.cells[k].ran.Some? ensures k in t.history {
      assert t.history[|h|] == i;
    }
  }

  lemma StepKeepsInv(job: Job, s: State, i: nat)
    requires Inv(job, s) && i < |s.cells|
    ensures Inv(job, Step(job, s, i))
  {
    StepFrame(job, s, i);
    StepCells(job, s, i);
    StepCounts(job, s, i);
    StepHistory(job, s, i);
  }

  /** Spawning and giving up: a goroutine starts to queue, or ends without having executed. */
  lemma SkipOrQueue(job: Job, s: State, i: nat, c: Cell, spawned: nat)
    requires Inv(job, s) && i < |s.cells| && s.report.None?
    requires spawned == s.spawned || (spawned == s.spawned + 1 && i == s.spawned)
    requires s.cells[i].pc.Unspawned? || s.cells[i].pc.Queued?
    requires c.pc.Queued? || c.pc.Gone?
    requires CellOk(job.ops[i], c, i < spawned, s.cancelled) && c.ran.None? && s.cells[i].ran.None?
    ensures Inv(job, WithCell(s, i, c).(spawned := spawned))
  {
    var t := WithCell(s, i, c).(spawned := spawned);
    TotalUpdate(InSlot, s.cells, i, c);
    TotalUpdate(DoneOps, s.cells, i, c);
    TotalUpdate(FailedOps, s.cells, i, c);
    SameHistory(job, s, t);
    forall k | 0 <= k < |t.cells| ensures CellOk(job.ops[k], t.cells[k], k < t.spawned, t.cancelled) {
      if k != i { assert CellOk(job.ops[k], s.cells[k], k < s.spawned, s.cancelled); }
    }
  }

  lemma SpawnKeepsInv(job: Job, s: State)
    requires Inv(job, s)
    ensures Inv(job, Next(job, s, Spawn))
  {
    if s.spawned < |s.cells| {
      var i := s.spawned;
      assert CellOk(job.ops[i], s.cells[i], i < s.spawned, s.cancelled);
      SkipOrQueue(job, s, i, Next(job, s, Spawn).cells[i], s.spawned + 1);
    }
  }

  lemma GiveUpKeepsInv(job: Job, s: State, i: nat)
    requires Inv(job, s)
    ensures Inv(job, Next(job, s, GiveUp(i)))
  {
    var t := Next(job, s, GiveUp(i));
    if t != s {
      assert CellOk(job.ops[i], s.cells[i], i < s.spawned, s.cancelled);
      SkipOrQueue(job, s, i, t.cells[i], s.spawned);
    }
  }

  lemma NextKeepsInv(job: Job, s: State, a: Action)
    requires Inv(job, s)
    ensures Inv(job, Next(job, s, a))
  {
    match a {
      case Advance(i) => if i < |s.cells| { StepKeepsInv(job, s, i); }
      case Spawn => SpawnKeepsInv(job, s);
      case GiveUp(i) => GiveUpKeepsInv(job, s, i);
      case Cancel =>
        SameHistory(job, s, Next(job, s, a));
        forall k | 0 <= k < |s.cells| ensures CellOk(job.ops[k], s.cells[k], k < s.spawned, true) {
          assert CellOk(job.ops[k], s.cells[k], k < s.spawned, s.cancelled);
        }
      case Finish =>
        SameHistory(job, s, Next(job, s, a));
    }
  }

  lemma {:induction false} ExecKeepsInv(job: Job, s: State, run: seq<Action>)
    requires Inv(job, s)
    ensures Inv(job, Exec(job, s, run))
    decreases |run|
  {
    if run != [] {
      NextKeepsInv(job, s, run[0]);
      ExecKeepsInv(job, Next(job, s, run[0]), run[1..]);
    }
  }

  // ---------------------------------------------------------------- every run

  lemma {:induction false} TotalAtMost(m: Measure, m': Measure, cells: seq<Cell>)
    requires forall i :: 0 <= i < |cells| ==> Weight(m, cells[i]) <= Weight(m', cells[i])
    ensures Total(m, cells) <= Total(m', cells)
    decreases |cells|
  {
    if cells != [] { TotalAtMost(m, m', cells[..|cells| - 1]); }
  }

  /** At any moment of any run at most max(1, min(workers, operations)) operations execute. */
  lemma ConcurrencyBound(job: Job, run: seq<Action>)
    ensures |Exec(job, Init(job), run).cells| == |job.ops|
    ensures Total(Executing, Exec(job, Init(job), run).cells) <= Limit(job)
    ensures var m := if job.workers < |job.ops| then job.workers else |job.ops|; Limit(job) == if m < 1 then 1 else m
  {
    InitInv(job);
    ExecKeepsInv(job, Init(job), run);
    TotalAtMost(Executing, InSlot, Exec(job, Init(job), run).cells);
  }

  lemma {:induction false} ExecutedOrSkipped(cells: seq<Cell>)
    requires forall i :: 0 <= i < |cells| ==> cells[i].out.Some?
    ensures Total(ExecutedOps, cells) + Total(SkippedOps, cells) == |cells|
    decreases |cells|
  {
    if cells != [] { ExecutedOrSkipped(cells[..|cells| - 1]); }
  }

  /** The operations whose execution did not succeed. */
  function FailedRuns(job: Job, cells: seq<Cell>): nat
    decreases |cells|
  {
    if cells == [] then 0
    else
      var n := |cells| - 1;
      FailedRuns(job, cells[..n]) +
      if n < |job.ops| && cells[n].ran.Some? && !ResultOf(job.ops[n], cells[n].ran.value).success then 1 else 0
  }

  lemma {:induction false} FailuresCounted(job: Job, cells: seq<Cell>)
    requires |cells| <= |job.ops| && forall i :: 0 <= i < |cells| ==> cells[i].pc == Gone
    ensures Total(FailedOps, cells) == FailedRuns(job, cells)
    decreases |cells|
  {
    if cells != [] { FailuresCounted(job, cells[..|cells| - 1]); }
  }

  /** When the executor returns, every place of the output was written exactly once, with the result
      of its own operation or with its skip, and the final report counts what was executed. */
  lemma ReturnIsComplete(job: Job, run: seq<Action>)
    requires Exec(job, Init(job), run).report.Some?
    ensures var s := Exec(job, Init(job), run);
      && |s.cells| == |job.ops|
      && (forall i :: 0 <= i < |s.cells| ==>
            s.cells[i].writes == 1 &&
            s.cells[i].out == Some(if s.cells[i].ran.Some? then ResultOf(job.ops[i], s.cells[i].ran.value)
                                   else Skipped(job.ops[i])))
      && (!s.cancelled ==> forall i :: 0 <= i < |s.cells| ==> s.cells[i].ran.Some?)
      && Total(ExecutedOps, s.cells) + Total(SkippedOps, s.cells) == |job.ops|
      && s.report.value == Report(|job.ops|, Total(ExecutedOps, s.cells), FailedRuns(job, s.cells))
  {
    InitInv(job);
    ExecKeepsInv(job, Init(job), run);
    var s := Exec(job, Init(job), run);
    forall i | 0 <= i < |s.cells| ensures s.cells[i].pc == Gone && Written(job.ops[i], s.cells[i], s.cancelled) {
      assert CellOk(job.ops[i], s.cells[i], i < s.spawned, s.cancelled);
    }
    TotalAtMost(DoneOps, ExecutedOps, s.cells);
    TotalAtMost(ExecutedOps, DoneOps, s.cells);
    ExecutedOrSkipped(s.cells);
    FailuresCounted(job, s.cells);
  }

  // ---------------------------------------------------------------- every batch ends

  /** An action of the spawning loop or of a goroutine that does something. */
  ghost predicate Effective(job: Job, s: State, a: Action)
    requires |s.cells| == |job.ops|
  {
    !a.Cancel? && !a.Finish? && Next(job, s, a) != s
  }

  lemma EffectiveWorks(job: Job, s: State, a: Action)
    requires |s.cells| == |job.ops| && s.spawned <= |s.cells| && Effective(job, s, a)
    requires s.spawned < |s.cells| ==> s.cells[s.spawned].pc.Unspawned?
    ensures Total(WorkLeft, Next(job, s, a).cells) < Total(WorkLeft, s.cells)
  {
    var i := if a.Spawn? then s.spawned else a.i;
    OneGoroutineActs(job, s, a, i);
    TotalUpdate(WorkLeft, s.cells, i, Next(job, s, a).cells[i]);
  }

  lemma OneGoroutineActs(job: Job, s: State, a: Action, i: nat)
    requires |s.cells| == |job.ops| && Effective(job, s, a) && i == if a == Spawn then s.spawned else a.i
    requires s.spawned < |s.cells| ==> s.cells[s.spawned].pc.Unspawned?
    ensures i < |s.cells| && Next(job, s, a).cells == s.cells[i := Next(job, s, a).cells[i]]
    ensures ActionsLeft(Next(job, s, a).cells[i].pc) < ActionsLeft(s.cells[i].pc)
  {
    if a.Advance? { StepFrame(job, s, i); }
  }

  ghost predicate AllEffective(job: Job, s: State, run: seq<Action>)
    requires |s.cells| == |job.ops|
    decreases |run|
  {
    run == [] || (Effective(job, s, run[0]) && AllEffective(job, Next(job, s, run[0]), run[1..]))
  }

  lemma NextToSpawn(job: Job, s: State)
    requires Inv(job, s)
    ensures s.spawned < |s.cells| ==> s.cells[s.spawned].pc.Unspawned?
  {
    if s.spawned < |s.cells| {
      assert CellOk(job.ops[s.spawned], s.cells[s.spawned], false, s.cancelled);
    }
  }

  /** Only a bounded number of actions that do something remain, in any order. */
  lemma {:induction false} DrainIsBounded(job: Job, s: State, run: seq<Action>)
    requires Inv(job, s) && AllEffective(job, s, run)
    ensures |run| + Total(WorkLeft, Exec(job, s, run).cells) <= Total(WorkLeft, s.cells)
    decreases |run|
  {
    if run != [] {
      NextToSpawn(job, s);
      EffectiveWorks(job, s, run[0]);
      NextKeepsInv(job, s, run[0]);
      DrainIsBounded(job, Next(job, s, run[0]), run[1..]);
    }
  }

  lemma {:induction false} SomeoneHoldsSlot(cells: seq<Cell>) returns (i: nat)
    requires Total(InSlot, cells) > 0
    ensures i < |cells| && Weight(InSlot, cells[i]) == 1
    decreases |cells|
  {
    var n := |cells| - 1;
    if Weight(InSlot, cells[n]) == 1 { i := n; } else { i := SomeoneHoldsSlot(cells[..n]); }
  }

  /** Until everything has ended somebody can act: a goroutine that waits for a slot waits for one that
      can move on. */
  lemma NoDeadlock(job: Job, s: State) returns (a: Action)
    requires Inv(job, s) && !(s.spawned == |s.cells| && AllGone(s))
    ensures Effective(job, s, a)
  {
    if s.spawned < |s.cells| {
      a := Spawn;
    } else {
      var i :| 0 <= i < |s.cells| && s.cells[i].pc != Gone;
      assert CellOk(job.ops[i], s.cells[i], i < s.spawned, s.cancelled);
      if s.cells[i].pc.Queued? && s.slots == Limit(job) { i := SomeoneHoldsSlot(s.cells); }
      assert CellOk(job.ops[i], s.cells[i], i < s.spawned, s.cancelled);
      a := Advance(i);
      assert Step(job, s, i).cells[i].pc != s.cells[i].pc;
    }
  }

  ghost predicate NobodyActs(job: Job, s: State)
    requires |s.cells| == |job.ops|
  {
    forall a :: !Effective(job, s, a)
  }

  lemma NobodyActsAtTheEnd(job: Job, s: State)
    requires Inv(job, s) && NobodyActs(job, s)
    ensures s.spawned == |s.cells| && AllGone(s)
  {
    if !(s.spawned == |s.cells| && AllGone(s)) { var a := NoDeadlock(job, s); }
  }

  /** So a batch that is scheduled until nobody can act is over, from every reachable state, cancelled
      or not: all goroutines have ended, and the final report follows. */
  lemma DrainedIsComplete(job: Job, s: State, drain: seq<Action>)
    requires job.ops != [] && Inv(job, s)
    requires AllEffective(job, s, drain) && NobodyActs(job, Exec(job, s, drain))
    ensures |drain| <= Total(WorkLeft, s.cells)
    ensures AllGone(Exec(job, s, drain)) && Next(job, Exec(job, s, drain), Finish).report.Some?
  {
    ExecKeepsInv(job, s, drain);
    DrainIsBounded(job, s, drain);
    NobodyActsAtTheEnd(job, Exec(job, s, drain));
  }

  // ---------------------------------------------------------------- which outputs are possible

  ghost predicate Permutation(order: seq<nat>, n: nat) {
    && |order| == n
    && (forall k :: 0 <= k < |order| ==> order[k] < n)
    && (forall k, l :: 0 <= k < l < |order| ==> order[k] != order[l])
    && (forall i :: 0 <= i < n ==> i in order)
  }

  /** The result of the operation that comes `k`-th when the operations execute in this order. */
  function ResultInOrder(job: Job, order: seq<nat>, k: nat): OpResult
    requires k < |order| && order[k] < |job.ops|
  {
    ResultOf(job.ops[order[k]], job.exec(Raws(job, order[..k]), job.ops[order[k]]))
  }

  ghost predicate Complete(s: State) { s.report.Some? && !s.cancelled }

  ghost predicate Outputs(job: Job, s: State, order: seq<nat>) {
    |s.cells| == |job.ops| && Permutation(order, |job.ops|) &&
    forall k :: 0 <= k < |order| ==> s.cells[order[k]].out == Some(ResultInOrder(job, order, k))
  }

  lemma {:induction false} DistinctBelow(order: seq<nat>, n: nat)
    requires forall k :: 0 <= k < |order| ==> order[k] < n
    requires forall k, l :: 0 <= k < l < |order| ==> order[k] != order[l]
    ensures |order| <= n
    decreases n
  {
    if order == [] {
    } else if order[0] < n && n - 1 in order {
      var p :| 0 <= p < |order| && order[p] == n - 1;
      var rest := order[..p] + order[p + 1..];
      DistinctBelow(rest, n - 1);
    } else {
      DistinctBelow(order, n - 1);
    }
  }

  lemma {:induction false} CoversAtLeast(order: seq<nat>, n: nat)
    requires forall i :: 0 <= i < n ==> i in order
    ensures n <= |order|
    decreases n
  {
    if 0 < n {
      assert n - 1 in order;
      var p :| 0 <= p < |order| && order[p] == n - 1;
      var rest := order[..p] + order[p + 1..];
      forall i | 0 <= i < n - 1 ensures i in rest {
        assert i in order;
        var q :| 0 <= q < |order| && order[q] == i;
        assert rest[if q < p then q else q - 1] == i;
      }
      CoversAtLeast(rest, n - 1);
    }
  }

  /** An uncancelled run outputs the results of executing in the order of its history. */
  lemma RunFollowsItsOrder(job: Job, run: seq<Action>)
    requires Complete(Exec(job, Init(job), run))
    ensures Outputs(job, Exec(job, Init(job), run), Exec(job, Init(job), run).history)
  {
    InitInv(job);
    ExecKeepsInv(job, Init(job), run);
    ReturnIsComplete(job, run);
    var s := Exec(job, Init(job), run);
    DistinctBelow(s.history, |job.ops|);
    CoversAtLeast(s.history, |job.ops|);
    forall k | 0 <= k < |s.history| ensures s.cells[s.history[k]].out == Some(ResultInOrder(job, s.history, k)) {
      assert RanAt(job, s, k);
    }
  }

  lemma {:induction false} ExecConcat(job: Job, s: State, r0: seq<Action>, r1: seq<Action>)
    requires |s.cells| == |job.ops|
    ensures |Exec(job, s, r0).cells| == |job.ops|
    ensures Exec(job, s, r0 + r1) == Exec(job, Exec(job, s, r0), r1)
    decreases |r0|
  {
    if r0 == [] {
      assert r0 + r1 == r1;
    } else {
      assert (r0 + r1)[1..] == r0[1..] + r1;
      ExecConcat(job, Next(job, s, r0[0]), r0[1..], r1);
    }
  }

  /** A state reached by some run. */
  ghost predicate Reachable(job: Job, s: State) {
    exists run :: Exec(job, Init(job), run) == s
  }

  lemma Reach(job: Job, s: State, a: Action) returns (t: State)
    requires Reachable(job, s) && |s.cells| == |job.ops|
    ensures t == Next(job, s, a) && Reachable(job, t)
  {
    t := Next(job, s, a);
    var run :| Exec(job, Init(job), run) == s;
    ExecConcat(job, Init(job), run, [a]);
    assert Exec(job, s, [a]) == Exec(job, t, [a][1..]) == t;
    assert Exec(job, Init(job), run + [a]) == t;
  }

  /** All goroutines queue, except those whose operations were executed in the given order. */
  ghost predicate Lined(job: Job, s: State, order: seq<nat>) {
    && |s.cells| == |job.ops| && s.spawned == |s.cells| && !s.cancelled && s.slots == 0 && s.report.None?
    && s.history == order
    && forall i :: 0 <= i < |s.cells| ==> s.cells[i].pc == if i in order then Gone else Queued
  }

  lemma {:induction false} SpawnAll(job: Job, n: nat) returns (s: State)
    requires n <= |job.ops|
    ensures Reachable(job, s) && |s.cells| == |job.ops| && s.spawned == n
    ensures !s.cancelled && s.slots == 0 && s.report.None? && s.history == []
    ensures forall i :: 0 <= i < |s.cells| ==> s.cells[i].pc == if i < n then Queued else Unspawned
    decreases n
  {
    if n == 0 {
      s := Init(job);
      assert Exec(job, Init(job), []) == s;
    } else {
      s := SpawnAll(job, n - 1);
      s := Reach(job, s, Spawn);
    }
  }

  /** One goroutine gets the only slot in use and executes. */
  lemma ExecuteOne(job: Job, s: State, order: seq<nat>, i: nat) returns (t: State)
    requires Reachable(job, s) && Lined(job, s, order) && i < |job.ops| && i !in order
    ensures Reachable(job, t) && |t.cells| == |s.cells| && t.cells == s.cells[i := t.cells[i]] && t.cells[i].pc.Ended?
    ensures t.spawned == s.spawned && !t.cancelled && t.slots == 1 && t.report.None? && t.history == order + [i]
  {
    t := Reach(job, s, Advance(i));
    assert t.cells[i].pc == Holding && t.slots == 1;
    t := Reach(job, t, Advance(i));
    assert t.cells[i].pc == Running;
    t := Reach(job, t, Advance(i));
  }

  /** It runs from its queue to its end while the others wait. */
  lemma RunOne(job: Job, s: State, order: seq<nat>, i: nat) returns (t: State)
    requires Reachable(job, s) && Lined(job, s, order) && i < |job.ops| && i !in order
    ensures Reachable(job, t) && Lined(job, t, order + [i])
  {
    t := ExecuteOne(job, s, order, i);
    t := Reach(job, t, Advance(i));
    assert t.cells[i].pc.Counted?;
    t := Reach(job, t, Advance(i));
    assert t.cells[i].pc.Storing?;
    t := Reach(job, t, Advance(i));
    assert t.cells[i].pc.Leaving?;
    t := Reach(job, t, Advance(i));
    assert t.cells[i].pc.Gone?;
    forall k | 0 <= k < |t.cells| ensures t.cells[k].pc == if k in order + [i] then Gone else Queued {
      assert k != i ==> t.cells[k] == s.cells[k];
    }
  }

  lemma {:induction false} RunInOrder(job: Job, order: seq<nat>, n: nat) returns (s: State)
    requires Permutation(order, |job.ops|) && n <= |order|
    ensures Reachable(job, s) && Lined(job, s, order[..n])
    decreases n
  {
    if n == 0 {
      s := SpawnAll(job, |job.ops|);
    } else {
      s := RunInOrder(job, order, n - 1);
      s := RunOne(job, s, order[..n - 1], order[n - 1]);
      assert order[..n] == order[..n - 1] + [order[n - 1]];
    }
  }

  /** Every order is the history of some uncancelled run, with any number of workers. */
  lemma EveryOrderHappens(job: Job, order: seq<nat>)
    requires Permutation(order, |job.ops|) && order != []
    ensures exists run :: Complete(Exec(job, Init(job), run)) && Exec(job, Init(job), run).history == order
  {
    var s := RunInOrder(job, order, |order|);
    assert order[..|order|] == order;
    s := Reach(job, s, Finish);
    var run :| Exec(job, Init(job), run) == s;
    assert Complete(Exec(job, Init(job), run));
  }

  /** 0, 1, 2 and so on. */
  function FileOrder(n: nat): (order: seq<nat>)
    ensures |order| == n && forall k :: 0 <= k < n ==> order[k] == k
  {
    seq(n, k => k)
  }

  /** Every uncancelled run outputs what executing line by line would. */
  ghost predicate SerialEquivalent(job: Job) {
    forall run :: Complete(Exec(job, Init(job), run)) ==>
      Outputs(job, Exec(job, Init(job), run), FileOrder(|job.ops|))
  }

  /** In whatever order the operations execute, each has the result it has line by line. */
  ghost predicate OrderInsensitive(job: Job) {
    forall order :: Permutation(order, |job.ops|) ==> AgreesWithFile(job, order)
  }

  ghost predicate AgreesWithFile(job: Job, order: seq<nat>)
    requires Permutation(order, |job.ops|)
  {
    forall k :: 0 <= k < |order| ==> ResultInOrder(job, order, k) == ResultInOrder(job, FileOrder(|job.ops|), order[k])
  }

  /** The comment promises that one worker is byte for byte the same as line by line. Whatever the
      number of workers, that holds exactly when the operations are insensitive to their order. */
  lemma SerialEquivalence(job: Job)
    requires job.ops != []
    ensures SerialEquivalent(job) <==> OrderInsensitive(job)
  {
    if OrderInsensitive(job) {
      forall run | Complete(Exec(job, Init(job), run))
        ensures Outputs(job, Exec(job, Init(job), run), FileOrder(|job.ops|))
      {
        RunFollowsItsOrder(job, run);
        AgreeingOutputs(job, Exec(job, Init(job), run), Exec(job, Init(job), run).history);
      }
    }
    if SerialEquivalent(job) {
      forall order | Permutation(order, |job.ops|) ensures AgreesWithFile(job, order) {
        EveryOrderHappens(job, order);
        var run :| Complete(Exec(job, Init(job), run)) && Exec(job, Init(job), run).history == order;
        RunFollowsItsOrder(job, run);
        SameOutputs(job, Exec(job, Init(job), run), order);
      }
    }
  }

  lemma FileOrderIsPermutation(n: nat)
    ensures Permutation(FileOrder(n), n)
  {
    forall i | 0 <= i < n ensures i in FileOrder(n) { assert FileOrder(n)[i] == i; }
  }

  lemma AgreeingOutputs(job: Job, s: State, order: seq<nat>)
    requires Outputs(job, s, order) && AgreesWithFile(job, order)
    ensures Outputs(job, s, FileOrder(|job.ops|))
  {
    var file := FileOrder(|job.ops|);
    FileOrderIsPermutation(|job.ops|);
    forall i | 0 <= i < |file| ensures s.cells[file[i]].out == Some(ResultInOrder(job, file, i)) {
      assert i in order;
      var k :| 0 <= k < |order| && order[k] == i;
    }
  }

  lemma SameOutputs(job: Job, s: State, order: seq<nat>)
    requires Outputs(job, s, order) && Outputs(job, s, FileOrder(|job.ops|))
    ensures AgreesWithFile(job, order)
  {
    var file := FileOrder(|job.ops|);
    forall k | 0 <= k < |order| ensures ResultInOrder(job, order, k) == ResultInOrder(job, file, order[k]) {
      assert s.cells[file[order[k]]].out == Some(ResultInOrder(job, file, order[k]));
    }
  }
}
