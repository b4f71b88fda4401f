/** The two trigger loops: scheduled sync and scheduled backup. */
module CronLoop {
  import opened Wrappers
  import opened CronSearch

  /** What the environment does in one turn of a loop. */
  datatype Turn = Turn(
    cancelled: bool,        // the context is cancelled when the turn begins
    now: int,               // the clock read at the start of the turn
    fails: bool,            // a run started in this turn fails
    end: int,               // when the turn, with any run, is over
    cancelledAfter: bool)   // the context is cancelled by then

  /** The clock does not go back, a sleep is not cut short, and cancellation is for good. */
  ghost predicate Orderly(turns: seq<Turn>, from: int) {
    forall i :: 0 <= i < |turns| ==> InOrder(turns, from, i)
  }

  /** When turn `i` may begin, and whether the context is cancelled for good by then. */
  function EndBefore(turns: seq<Turn>, from: int, i: nat): int
    requires i <= |turns|
  {
    if i == 0 then from else turns[i - 1].end
  }

  predicate CancelledBefore(turns: seq<Turn>, i: nat)
    requires i <= |turns|
  {
    0 < i && turns[i - 1].cancelledAfter
  }

  ghost predicate InOrder(turns: seq<Turn>, from: int, i: nat)
    requires i < |turns|
  {
    EndBefore(turns, from, i) <= turns[i].now <= turns[i].end &&
    (CancelledBefore(turns, i) ==> turns[i].cancelled)
  }

  /** One run of the trigger: when it was due, when it began and when it was over. */
  datatype Run = Run(due: int, start: int, end: int)

  /** Which of the two loops. They differ when a run fails because of cancellation: the backup
      loop then keeps its next instant. */
  datatype Kind = Sync | Backup

  /** A run is due at a match and starts no earlier; the next one is due at the first match after
      its start, and waits for it to end. */
  ghost predicate RunOk(e: CronExpr, runs: seq<Run>, k: nat)
    requires k < |runs|
  {
    && Matches(e, runs[k].due) && runs[k].due <= runs[k].start <= runs[k].end
    && (0 < k ==> Follows(e, runs[k - 1], runs[k]))
  }

  ghost predicate Follows(e: CronExpr, r: Run, next: Run) {
    r.end <= next.start && IsNext(e, r.start, next.due)
  }

  ghost predicate Serial(e: CronExpr, runs: seq<Run>) {
    forall k :: 0 <= k < |runs| ==> RunOk(e, runs, k)
  }

  lemma AddRun(e: CronExpr, runs: seq<Run>, r: Run)
    requires Serial(e, runs) && Matches(e, r.due) && r.due <= r.start <= r.end
    requires runs != [] ==> Follows(e, runs[|runs| - 1], r)
    ensures Serial(e, runs + [r])
  {
    forall k | 0 <= k < |runs| + 1 ensures RunOk(e, runs + [r], k) {
      if k < |runs| { assert RunOk(e, runs, k); }
    }
  }

  lemma NextMatches(e: CronExpr, t: int, u: int)
    requires IsNext(e, t, u)
    ensures Matches(e, u)
  {
  }

  class TriggerLoop {
    const e: CronExpr
    const kind: Kind
    var next: int
    var stopping: bool   // the last run failed because of cancellation
    var runs: seq<Run>

    ghost predicate Valid()
      reads this
    {
      && Satisfiable(e) && Serial(e, runs)
      && Matches(e, next)
      && (!stopping && runs != [] ==> IsNext(e, runs[|runs| - 1].start, next))
    }

    constructor (e: CronExpr, kind: Kind, next: int)
      requires Satisfiable(e) && Matches(e, next)
      ensures Valid() && this.e == e && this.kind == kind && this.next == next && runs == [] && !stopping
    {
      this.e, this.kind, this.next := e, kind, next;
      stopping, runs := false, [];
    }

    /** The last run is over by `t`. */
    ghost predicate IdleAt(t: int)
      reads this
    {
      runs != [] ==> runs[|runs| - 1].end <= t
    }

    /** Runs the trigger if it is due and computes the next instant; there always is one. */
    method RunDue(turn: Turn) returns (err: bool)
      requires Valid() && !stopping && IdleAt(turn.now) && turn.now <= turn.end
      modifies this
      ensures Valid() && !err && IdleAt(turn.end)
      ensures turn.now < old(next) ==> next == old(next) && runs == old(runs) && !stopping
      ensures old(next) <= turn.now ==> runs == old(runs) + [Run(old(next), turn.now, turn.end)]
      ensures old(next) <= turn.now && !stopping ==> IsNext(e, turn.now, next)
      ensures !stopping ==> turn.now < next
      ensures stopping <==> old(next) <= turn.now && kind == Backup && turn.fails && turn.cancelledAfter
      ensures DueAfter(e, kind, turn, old(next), next) && runs == old(runs) + RunOf(turn, old(next))
    {
      if turn.now < next { return false; }
      AddRun(e, runs, Run(next, turn.now, turn.end));
      runs := runs + [Run(next, turn.now, turn.end)];
      if kind == Backup && turn.fails && turn.cancelledAfter {
        stopping := true;
        return false;
      }
      var found := NextAfter(e, turn.now);
      if found.None? { return true; }
      next := found.value;
      NextMatches(e, turn.now, next);
      NextIsAMinuteAhead(e, turn.now, next);
      return false;
    }

    /** The loop, for as many turns as it gets: it is left without an error, and exactly before the first
        turn in which the context is cancelled. `dues[i]` is the instant due when turn `i` begins: if it has
        come the turn starts exactly one run, otherwise none. Whenever the loop goes to sleep, the next
        instant is still ahead. */
    method Loop(turns: seq<Turn>, ghost from: int) returns (err: bool, ghost taken: nat, ghost dues: seq<int>)
      requires Valid() && !stopping && IdleAt(from) && Orderly(turns, from)
      modifies this
      ensures Valid() && !err && taken <= |turns|
      ensures Chronicle(e, kind, turns, dues, taken) && dues[0] == old(next) && dues[taken] == next
      ensures taken < |turns| ==> turns[taken].cancelled
      ensures runs == old(runs) + Started(turns, dues, taken)
      ensures 0 < taken && !stopping ==> turns[taken - 1].now < next
    {
      ghost var start, due := runs, next;
      var i := 0;
      dues := [next];
      while i < |turns|
        invariant 0 <= i && Underway(turns, from, i, dues, start, due)
      {
        if turns[i].cancelled { return false, i, dues; }
        err, dues := TakeTurn(turns, from, i, dues, start, due);
        i := i + 1;
      }
      return false, i, dues;
    }

    /** `i` turns have been taken since the loop began with the runs `start` and the instant `due`. */
    ghost predicate Underway(turns: seq<Turn>, from: int, i: nat, dues: seq<int>, start: seq<Run>, due: int)
      reads this
    {
      && Chronicle(e, kind, turns, dues, i) && dues[0] == due && dues[i] == next
      && runs == start + Started(turns, dues, i)
      && Valid() && IdleAt(EndBefore(turns, from, i))
      && (stopping ==> CancelledBefore(turns, i))
      && (0 < i && !stopping ==> turns[i - 1].now < next)
    }

    /** The loop's body. */
    method TakeTurn(turns: seq<Turn>, ghost from: int, i: nat, ghost dues: seq<int>, ghost start: seq<Run>,
                    ghost due: int)
      returns (err: bool, ghost dues': seq<int>)
      requires Underway(turns, from, i, dues, start, due) && Orderly(turns, from) && i < |turns| && !turns[i].cancelled
      modifies this
      ensures !err && Underway(turns, from, i + 1, dues', start, due)
    {
      assert InOrder(turns, from, i);
      err := RunDue(turns[i]);
      TurnTaken(e, kind, turns, dues, i, next, start);
      dues' := dues + [next];
    }
  }

  /** What is due after a turn: the first match after its start if it ran the trigger, unless the backup
      gave up because of cancellation, and otherwise what was due before. */
  ghost predicate DueAfter(e: CronExpr, kind: Kind, turn: Turn, due: int, next: int) {
    if due <= turn.now && !(kind == Backup && turn.fails && turn.cancelledAfter) then IsNext(e, turn.now, next)
    else next == due
  }

  /** `taken` turns were taken, none of them cancelled; `dues[i]` was due when turn `i` began. */
  ghost predicate Chronicle(e: CronExpr, kind: Kind, turns: seq<Turn>, dues: seq<int>, taken: nat) {
    taken <= |turns| && |dues| == taken + 1 &&
    forall k :: 0 <= k < taken ==> !turns[k].cancelled && DueAfter(e, kind, turns[k], dues[k], dues[k + 1])
  }

  /** The runs started in the first `k` turns, each due when its turn came. */
  function Started(turns: seq<Turn>, dues: seq<int>, k: nat): (runs: seq<Run>)
    requires k <= |turns| && k <= |dues|
  {
    if k == 0 then [] else Started(turns, dues, k - 1) + RunOf(turns[k - 1], dues[k - 1])
  }

  function RunOf(turn: Turn, due: int): seq<Run> {
    if due <= turn.now then [Run(due, turn.now, turn.end)] else []
  }

  lemma {:induction false} StartedSame(turns: seq<Turn>, dues: seq<int>, due: int, k: nat)
    requires k <= |turns| && k <= |dues|
    ensures Started(turns, dues + [due], k) == Started(turns, dues, k)
  {
    if 0 < k { StartedSame(turns, dues, due, k - 1); }
  }

  lemma TurnTaken(e: CronExpr, kind: Kind, turns: seq<Turn>, dues: seq<int>, i: nat, due: int, before: seq<Run>)
    requires i < |turns| && Chronicle(e, kind, turns, dues, i) && !turns[i].cancelled
    requires DueAfter(e, kind, turns[i], dues[i], due)
    ensures Chronicle(e, kind, turns, dues + [due], i + 1)
    ensures before + Started(turns, dues + [due], i + 1) == before + Started(turns, dues, i) + RunOf(turns[i], dues[i])
  {
    StartedSame(turns, dues, due, i);
  }

  // ---------------------------------------------------------------- scheduling never stacks

  lemma NextIsAMinuteAhead(e: CronExpr, t: int, u: int)
    requires IsNext(e, t, u)
    ensures t + MINUTE <= u
  {
  }

  lemma RunAfterRun(e: CronExpr, runs: seq<Run>, k: nat)
    requires Serial(e, runs) && 0 < k < |runs|
    ensures runs[k - 1].start + MINUTE <= runs[k].due <= runs[k].start <= runs[k].end
    ensures runs[k - 1].start <= runs[k - 1].end <= runs[k].start
  {
    assert RunOk(e, runs, k) && RunOk(e, runs, k - 1);
    NextIsAMinuteAhead(e, runs[k - 1].start, runs[k].due);
  }

  /** Runs begin at least a minute apart, so a stretch of time holds at most one more run than it
      has minutes, however many instants were due in it. */
  lemma {:induction false} StartsApart(e: CronExpr, runs: seq<Run>, i: nat, j: nat)
    requires Serial(e, runs) && i <= j < |runs|
    ensures runs[i].start + (j - i) * MINUTE <= runs[j].start
    decreases j - i
  {
    if i < j {
      StartsApart(e, runs, i, j - 1);
      RunAfterRun(e, runs, j);
    }
  }

  /** Of all the instants that come due while a run is in progress at most one is caught up with:
      the run after the catch-up is due after the catch-up began. No two runs overlap. */
  lemma {:induction false} OneCatchUp(e: CronExpr, runs: seq<Run>, i: nat, j: nat)
    requires Serial(e, runs) && i < j < |runs|
    ensures runs[i].end <= runs[j].start
    ensures runs[i].start < runs[j].due && (i + 1 < j ==> runs[i].end < runs[j].due)
    decreases j
  {
    RunAfterRun(e, runs, j);
    if i + 1 < j {
      RunAfterRun(e, runs, j - 1);
      OneCatchUp(e, runs, i, j - 1);
    }
  }
}
