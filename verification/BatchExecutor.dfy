/**
The executor as code: one method for the spawning loop and one for a worker, over the shared
counters, semaphore and output array. Between two atomic actions of a method any other goroutine may
act; `env(n)` is what the others do at the n-th such point.
*/
module BatchExecutor {
  import opened Wrappers
  import opened OpResults
  import opened BatchRun

  /** The actions in `env` that are not those of goroutine `me`. */
  function Others(env: seq<Action>, me: nat): seq<Action>
    decreases |env|
  {
    if env == [] then []
    else if env[0] == Advance(me) || env[0] == GiveUp(me) then Others(env[1..], me)
    else [env[0]] + Others(env[1..], me)
  }

  /** The actions in `env` that are not those of the spawning loop. */
  function Workers(env: seq<Action>): seq<Action>
    decreases |env|
  {
    if env == [] then []
    else if env[0] == Spawn || env[0] == Finish then Workers(env[1..])
    else [env[0]] + Workers(env[1..])
  }

  lemma {:induction false} OthersAreAll(env: seq<Action>, me: nat)
    ensures Advance(me) !in env && GiveUp(me) !in env ==> Others(env, me) == env
    ensures Spawn !in env && Finish !in env ==> Workers(env) == env
    decreases |env|
  {
    if env != [] {
      OthersAreAll(env[1..], me);
      assert env == [env[0]] + env[1..];
    }
  }

  lemma {:induction false} OthersLeaveMe(job: Job, s: State, env: seq<Action>, me: nat)
    requires |s.cells| == |job.ops| && me < s.spawned <= |s.cells|
    ensures var t := Exec(job, s, Others(env, me));
      |t.cells| == |job.ops| && me < t.spawned <= |t.cells| && t.cells[me] == s.cells[me]
    decreases |env|
  {
    if env != [] {
      if env[0] == Advance(me) || env[0] == GiveUp(me) {
        OthersLeaveMe(job, s, env[1..], me);
      } else {
        var t := Next(job, s, env[0]);
        assert t.cells[me] == s.cells[me];
        OthersLeaveMe(job, t, env[1..], me);
        assert ([env[0]] + Others(env[1..], me))[1..] == Others(env[1..], me);
      }
    }
  }

  /** Without the spawning loop nothing is spawned and nothing is reported. */
  lemma {:induction false} WorkersDoNotSpawn(job: Job, s: State, env: seq<Action>)
    requires |s.cells| == |job.ops|
    ensures var t := Exec(job, s, Workers(env));
      && |t.cells| == |job.ops| && t.spawned == s.spawned && t.report == s.report
      && (s.cancelled ==> t.cancelled)
    decreases |env|
  {
    if env != [] {
      if env[0] == Spawn || env[0] == Finish {
        WorkersDoNotSpawn(job, s, env[1..]);
      } else {
        WorkersDoNotSpawn(job, Next(job, s, env[0]), env[1..]);
        assert ([env[0]] + Workers(env[1..]))[1..] == Workers(env[1..]);
      }
    }
  }

  lemma OneMore(job: Job, trace: seq<Action>, a: Action)
    ensures |Exec(job, Init(job), trace).cells| == |job.ops|
    ensures Exec(job, Init(job), trace + [a]) == Next(job, Exec(job, Init(job), trace), a)
  {
    ExecConcat(job, Init(job), trace, [a]);
    var s := Exec(job, Init(job), trace);
    assert Exec(job, s, [a]) == Exec(job, Next(job, s, a), [a][1..]);
  }

  lemma NextKeepsShape(job: Job, s: State, a: Action)
    requires |s.cells| == |job.ops| && s.spawned <= |s.cells|
    ensures |Next(job, s, a).cells| == |s.cells| && Next(job, s, a).spawned <= |s.cells|
  {
  }

  datatype Wait = Acquired | Gave | StillWaiting

  // ---------------------------------------------------------------- a call under interference

  /** A queued goroutine finds neither a free slot nor a cancellation. */
  predicate Blocked(job: Job, s: State, me: nat)
    requires me < |s.cells|
  {
    s.cells[me].pc.Queued? && Limit(job) <= s.slots && !s.cancelled
  }

  /** The next action of a goroutine that is not blocked; with both, a slot and a cancellation, the
      runtime chooses. */
  function OwnAction(job: Job, s: State, me: nat, preferSlot: bool): Action
    requires me < |s.cells|
  {
    if s.cells[me].pc.Queued? && s.cancelled && !(s.slots < Limit(job) && preferSlot) then GiveUp(me) else Advance(me)
  }

  lemma ActionIsTaken(job: Job, s: State, me: nat, preferSlot: bool)
    requires |s.cells| == |job.ops| && me < |s.cells| && !s.cells[me].pc.Unspawned? && !s.cells[me].pc.Gone?
    requires !Blocked(job, s, me)
    ensures var t := Next(job, s, OwnAction(job, s, me, preferSlot));
      && ActionsLeft(t.cells[me].pc) < ActionsLeft(s.cells[me].pc) && !t.cells[me].pc.Unspawned?
      && t.spawned == s.spawned
  {
  }

  /** The state in which goroutine `me` ends, or runs out of patience for a slot, when the others do
      `env(n)` after its n-th look or action. */
  ghost function Worked(job: Job, s: State, me: nat, env: nat -> seq<Action>, preferSlot: bool, n: nat, patience: nat)
    : State
    requires |s.cells| == |job.ops| && me < s.spawned <= |s.cells| && !s.cells[me].pc.Unspawned?
    decreases patience, ActionsLeft(s.cells[me].pc)
  {
    if s.cells[me].pc.Gone? || (Blocked(job, s, me) && patience == 0) then s
    else if Blocked(job, s, me) then
      OthersLeaveMe(job, s, env(n), me);
      Worked(job, Exec(job, s, Others(env(n), me)), me, env, preferSlot, n + 1, patience - 1)
    else
      ActionIsTaken(job, s, me, preferSlot);
      var t := Next(job, s, OwnAction(job, s, me, preferSlot));
      if t.cells[me].pc.Gone? then t
      else
        OthersLeaveMe(job, t, env(n), me);
        Worked(job, Exec(job, t, Others(env(n), me)), me, env, preferSlot, n + 1, patience)
  }

  /** The state when everything has been spawned and `env(n)` was done before the n-th turn. */
  ghost function Launched(job: Job, s: State, env: nat -> seq<Action>, n: nat): (t: State)
    requires |s.cells| == |job.ops|
    ensures |t.cells| == |job.ops|
    decreases |job.ops| - n
  {
    if |job.ops| <= n then s
    else Launched(job, Next(job, Exec(job, s, Workers(env(n))), Spawn), env, n + 1)
  }

  /** The state in which all goroutines have ended, or the patience for it. */
  ghost function Awaited(job: Job, s: State, env: nat -> seq<Action>, n: nat, patience: nat): (t: State)
    requires |s.cells| == |job.ops|
    ensures |t.cells| == |job.ops|
    decreases patience
  {
    if AllGone(s) || patience == 0 then s
    else Awaited(job, Exec(job, s, Workers(env(n))), env, n + 1, patience - 1)
  }

  class Executor {
    const job: Job
    const out: array<Option<OpResult>>
    var cells: seq<Cell>
    var spawned: nat
    var cancelled: bool
    var slots: nat
    var done: nat
    var failed: nat
    var history: seq<nat>
    var report: Option<Report>
    ghost var trace: seq<Action>

    ghost function View(): State reads this {
      State(cells, spawned, cancelled, slots, done, failed, history, report)
    }

    ghost predicate Valid() reads this, out {
      && View() == Exec(job, Init(job), trace)
      && |cells| == |job.ops| == out.Length && spawned <= |cells|
      && forall i :: 0 <= i < out.Length ==> out[i] == cells[i].out
    }

    /** Goroutine `me` is at the given action. */
    ghost predicate At(me: nat, pc: Pc) reads this {
      me < |cells| && me < spawned && cells[me].pc == pc
    }

    constructor (job: Job)
      ensures Valid() && View() == Init(job) && this.job == job && fresh(out)
    {
      this.job := job;
      out := new Option<OpResult>[|job.ops|](_ => None);
      cells := seq(|job.ops|, i => Cell(Unspawned, None, None, 0));
      spawned, cancelled, slots, done, failed := 0, false, 0, 0, 0;
      history, report, trace := [], None, [];
    }

    ghost method Record(a: Action)
      requires Valid()
      modifies this`trace
      ensures trace == old(trace) + [a] && Exec(job, Init(job), trace) == Next(job, View(), a)
    {
      OneMore(job, trace, a);
      trace := trace + [a];
    }

    /** Somebody else's action. */
    method Apply(a: Action)
      requires Valid()
      modifies this, out
      ensures Valid() && trace == old(trace) + [a] && View() == Next(job, old(View()), a)
    {
      Record(a);
      var t := Next(job, State(cells, spawned, cancelled, slots, done, failed, history, report), a);
      NextKeepsShape(job, View(), a);
      cells, spawned, cancelled, slots := t.cells, t.spawned, t.cancelled, t.slots;
      done, failed, history, report := t.done, t.failed, t.history, t.report;
      forall i | 0 <= i < out.Length { out[i] := t.cells[i].out; }
    }

    /** The others act while worker `me` is between two of its actions. */
    method Interfere(env: seq<Action>, me: nat)
      requires Valid() && me < spawned <= |cells|
      modifies this, out
      ensures Valid() && old(trace) <= trace && View() == Exec(job, old(View()), Others(env, me))
      ensures me < spawned <= |cells| && cells[me] == old(cells[me])
    {
      ghost var start := View();
      OthersLeaveMe(job, start, env, me);
      var k := 0;
      while k < |env|
        invariant 0 <= k <= |env| && Valid() && old(trace) <= trace
        invariant Exec(job, View(), Others(env[k..], me)) == Exec(job, start, Others(env, me))
      {
        assert env[k..][1..] == env[k + 1..];
        if env[k] != Advance(me) && env[k] != GiveUp(me) {
          assert ([env[k]] + Others(env[k + 1..], me))[1..] == Others(env[k + 1..], me);
          Apply(env[k]);
        }
        k := k + 1;
      }
    }

    /** The workers act while the spawning loop is between two of its actions. */
    method Background(env: seq<Action>)
      requires Valid()
      modifies this, out
      ensures Valid() && old(trace) <= trace
      ensures View() == Exec(job, old(View()), Workers(env))
      ensures spawned == old(spawned) && report == old(report)
      ensures old(cancelled) ==> cancelled
    {
      ghost var start := View();
      WorkersDoNotSpawn(job, start, env);
      var k := 0;
      while k < |env|
        invariant 0 <= k <= |env| && Valid() && old(trace) <= trace
        invariant Exec(job, View(), Workers(env[k..])) == Exec(job, start, Workers(env))
      {
        assert env[k..][1..] == env[k + 1..];
        if env[k] != Spawn && env[k] != Finish {
          assert ([env[k]] + Workers(env[k + 1..]))[1..] == Workers(env[k + 1..]);
          Apply(env[k]);
        }
        k := k + 1;
      }
    }

    /** The select at the head of the worker: a free slot is taken, a cancellation skips, and with
        neither the goroutine keeps waiting. With both, the runtime chooses (`preferSlot`). */
    method SelectSlot(me: nat, raw: string, preferSlot: bool) returns (w: Wait)
      requires Valid() && At(me, Queued) && raw == job.ops[me]
      modifies this, out
      ensures Valid() && old(trace) <= trace && spawned == old(spawned)
      ensures w.StillWaiting? <==> Blocked(job, old(View()), me)
      ensures !w.StillWaiting? ==> View() == Next(job, old(View()), OwnAction(job, old(View()), me, preferSlot))
      ensures w.Acquired? ==> At(me, Holding) && 0 < slots <= Limit(job)
      ensures w.Gave? ==> At(me, Gone) && cancelled && out[me] == Some(Skipped(raw))
      ensures w.StillWaiting? ==> View() == old(View()) && slots >= Limit(job) && !cancelled
    {
      var c := cells[me];
      if slots < Limit(job) && (preferSlot || !cancelled) {
        Record(Advance(me));
        cells := cells[me := c.(pc := Holding)];
        slots := slots + 1;
        w := Acquired;
      } else if cancelled {
        Record(GiveUp(me));
        var skipped := OpResult(raw, false, MSG_SKIPPED);
        cells := cells[me := c.(pc := Gone, out := Some(skipped), writes := c.writes + 1)];
        out[me] := Some(skipped);
        w := Gave;
      } else {
        w := StillWaiting;
      }
    }

    /** The second look at the cancellation, with the slot in hand. */
    method CheckAgain(me: nat, raw: string) returns (skip: bool)
      requires Valid() && At(me, Holding) && raw == job.ops[me]
      modifies this, out
      ensures Valid() && old(trace) <= trace && spawned == old(spawned)
      ensures View() == Next(job, old(View()), Advance(me))
      ensures skip == old(cancelled) == cancelled
      ensures At(me, if skip then Leaving else Running)
      ensures skip ==> out[me] == Some(Skipped(raw)) && cells[me].ran == old(cells[me].ran)
      ensures !skip ==> cells[me] == old(cells[me]).(pc := Running)
    {
      Record(Advance(me));
      var c := cells[me];
      skip := cancelled;
      if skip {
        var skipped := OpResult(raw, false, MSG_SKIPPED);
        cells := cells[me := c.(pc := Leaving, out := Some(skipped), writes := c.writes + 1)];
        out[me] := Some(skipped);
      } else {
        cells := cells[me := c.(pc := Running)];
      }
    }

    /** Executing, with a panic caught and turned into the operation's failure. */
    method OperationSafe(me: nat, raw: string) returns (res: OpResult)
      requires Valid() && At(me, Running) && raw == job.ops[me]
      modifies this, out
      ensures Valid() && old(trace) <= trace && spawned == old(spawned)
      ensures View() == Next(job, old(View()), Advance(me))
      ensures At(me, Ended(res)) && history == old(history) + [me]
      ensures cells[me].ran.Some? && cells[me].ran.value == job.exec(Raws(job, old(history)), raw)
      ensures cells[me].ran.value.Returned? ==> res == cells[me].ran.value.res
      ensures cells[me].ran.value.Panicked? ==> res.name == raw && !res.success
    {
      Record(Advance(me));
      var outcome := job.exec(Raws(job, history), raw);
      match outcome {
        case Returned(r) => res := r;
        case Panicked(m) => res := OpResult(raw, false, "panic: " + m);
      }
      cells := cells[me := cells[me].(pc := Ended(res), ran := Some(outcome))];
      history := history + [me];
    }

    method CountFailure(me: nat, res: OpResult)
      requires Valid() && At(me, Ended(res))
      modifies this, out
      ensures Valid() && old(trace) <= trace && spawned == old(spawned)
      ensures View() == Next(job, old(View()), Advance(me))
      ensures cells[me] == old(cells[me]).(pc := Counted(res)) && At(me, Counted(res))
      ensures failed == old(failed) + if res.success then 0 else 1
    {
      Record(Advance(me));
      cells := cells[me := cells[me].(pc := Counted(res))];
      if !res.success { failed := failed + 1; }
    }

    method CountDone(me: nat, res: OpResult)
      requires Valid() && At(me, Counted(res))
      modifies this, out
      ensures Valid() && old(trace) <= trace && spawned == old(spawned)
      ensures View() == Next(job, old(View()), Advance(me))
      ensures cells[me] == old(cells[me]).(pc := Storing(res)) && At(me, Storing(res)) && done == old(done) + 1
    {
      Record(Advance(me));
      cells := cells[me := cells[me].(pc := Storing(res))];
      done := done + 1;
    }

    method StoreResult(me: nat, res: OpResult)
      requires Valid() && At(me, Storing(res))
      modifies this, out
      ensures Valid() && old(trace) <= trace && spawned == old(spawned)
      ensures View() == Next(job, old(View()), Advance(me))
      ensures At(me, Leaving) && out[me] == Some(res) && cells[me].ran == old(cells[me].ran)
      ensures forall k :: 0 <= k < out.Length && k != me ==> out[k] == old(out[k])
    {
      Record(Advance(me));
      cells := cells[me := Write(cells[me].(pc := Leaving), res)];
      out[me] := Some(res);
    }

    /** The deferred release: the slot given back is one that is taken. */
    method Release(me: nat)
      requires Valid() && At(me, Leaving)
      modifies this, out
      ensures Valid() && old(trace) <= trace && spawned == old(spawned)
      ensures View() == Next(job, old(View()), Advance(me))
      ensures cells[me] == old(cells[me]).(pc := Gone) && At(me, Gone) && slots == old(slots) - 1
      ensures out[me] == old(out[me])
    {
      InitInv(job);
      ExecKeepsInv(job, Init(job), trace);
      TotalUpdate(InSlot, cells, me, cells[me]);
      Record(Advance(me));
      cells := cells[me := cells[me].(pc := Gone)];
      slots := slots - 1;
    }

    /** What is left of the goroutine's work leads to the state `end`. */
    ghost predicate LeadsTo(me: nat, env: nat -> seq<Action>, preferSlot: bool, n: nat, patience: nat, end: State)
      reads this
    {
      && |cells| == |job.ops| && me < spawned <= |cells| && !cells[me].pc.Unspawned?
      && Worked(job, View(), me, env, preferSlot, n, patience) == end
    }

    lemma FirstAction(me: nat, env: nat -> seq<Action>, preferSlot: bool, n: nat, patience: nat, end: State)
      requires LeadsTo(me, env, preferSlot, n, patience, end) && !Blocked(job, View(), me) && !cells[me].pc.Gone?
      ensures Acted(me, env, preferSlot, n, patience, Next(job, View(), OwnAction(job, View(), me, preferSlot)), end)
    {
      ActionIsTaken(job, View(), me, preferSlot);
      var t := Next(job, View(), OwnAction(job, View(), me, preferSlot));
      if !t.cells[me].pc.Gone? { OthersLeaveMe(job, t, env(n), me); }
    }

    /** `t` is the state after an action of the goroutine on its way to `end`. */
    ghost predicate Acted(me: nat, env: nat -> seq<Action>, preferSlot: bool, n: nat, patience: nat, t: State,
                          end: State) {
      && |t.cells| == |job.ops| && me < t.spawned <= |t.cells| && !t.cells[me].pc.Unspawned?
      && if t.cells[me].pc.Gone? then end == t
         else
           var u := Exec(job, t, Others(env(n), me));
           me < u.spawned <= |u.cells| && !u.cells[me].pc.Unspawned? &&
           end == Worked(job, u, me, env, preferSlot, n + 1, patience)
    }

    /** The others act, after an action of the goroutine. */
    method Pause(me: nat, env: nat -> seq<Action>, ghost preferSlot: bool, n: nat, ghost patience: nat,
                 ghost end: State)
      requires Valid() && me < spawned && !cells[me].pc.Gone?
      requires Acted(me, env, preferSlot, n, patience, View(), end)
      modifies this, out
      ensures Valid() && old(trace) <= trace && At(me, old(cells[me].pc)) && cells[me] == old(cells[me])
      ensures LeadsTo(me, env, preferSlot, n + 1, patience, end)
    {
      Interfere(env(n), me);
    }

    /** The goroutine of one operation. When it ends, its place holds its own result, or its skip if
        the batch was cancelled before it executed. It does not end while nobody frees a slot. */
    method Worker(me: nat, raw: string, env: nat -> seq<Action>, patience: nat, preferSlot: bool) returns (ended: bool)
      requires Valid() && At(me, Queued) && raw == job.ops[me]
      modifies this, out
      ensures Valid() && old(trace) <= trace
      ensures View() == Worked(job, old(View()), me, env, preferSlot, 0, patience)
      ensures ended <==> At(me, Gone)
      ensures ended ==> Written(raw, cells[me], cancelled) && out[me] == cells[me].out
    {
      ghost var end := Worked(job, View(), me, env, preferSlot, 0, patience);
      var n, left := 0, patience;
      while 0 < left && Limit(job) <= slots && !cancelled
        invariant Valid() && old(trace) <= trace && At(me, Queued)
        invariant LeadsTo(me, env, preferSlot, n, left, end)
      {
        LookAgain(me, env, preferSlot, n, left, end);
        assert old(trace) <= trace;
        n, left := n + 1, left - 1;
      }
      ended := WorkerTurn(me, raw, env, preferSlot, n, left, end);
      if ended { GoneIsWritten(me); }
    }

    /** Neither a slot nor a cancellation: the goroutine waits while the others act. */
    method LookAgain(me: nat, env: nat -> seq<Action>, ghost preferSlot: bool, n: nat, ghost patience: nat,
                     ghost end: State)
      requires Valid() && At(me, Queued) && Blocked(job, View(), me) && 0 < patience
      requires LeadsTo(me, env, preferSlot, n, patience, end)
      modifies this, out
      ensures Valid() && old(trace) <= trace && At(me, Queued) && LeadsTo(me, env, preferSlot, n + 1, patience - 1, end)
    {
      Interfere(env(n), me);
    }

    /** The select and, if it got a slot, the rest. */
    method WorkerTurn(me: nat, raw: string, env: nat -> seq<Action>, preferSlot: bool, n: nat, ghost patience: nat,
                      ghost end: State) returns (ended: bool)
      requires Valid() && At(me, Queued) && raw == job.ops[me] && LeadsTo(me, env, preferSlot, n, patience, end)
      requires Blocked(job, View(), me) ==> patience == 0
      modifies this, out
      ensures Valid() && old(trace) <= trace && View() == end && (ended <==> At(me, Gone))
    {
      if !(Limit(job) <= slots && !cancelled) { FirstAction(me, env, preferSlot, n, patience, end); }
      var w := SelectSlot(me, raw, preferSlot);
      assert old(trace) <= trace;
      if w.Acquired? {
        Pause(me, env, preferSlot, n, patience, end);
        assert old(trace) <= trace;
        HoldSlot(me, raw, env, preferSlot, n + 1, patience, end);
        assert old(trace) <= trace;
      }
      ended := !w.StillWaiting?;
    }

    /** From the acquired slot to its release. */
    method HoldSlot(me: nat, raw: string, env: nat -> seq<Action>, preferSlot: bool, n: nat, ghost patience: nat,
                    ghost end: State)
      requires Valid() && At(me, Holding) && raw == job.ops[me] && LeadsTo(me, env, preferSlot, n, patience, end)
      modifies this, out
      ensures Valid() && old(trace) <= trace && At(me, Gone) && View() == end
    {
      FirstAction(me, env, preferSlot, n, patience, end);
      var skip := CheckAgain(me, raw);
      assert old(trace) <= trace;
      Pause(me, env, preferSlot, n, patience, end);
      assert old(trace) <= trace;
      var m := n + 1;
      if !skip {
        m := Execute(me, raw, env, preferSlot, m, patience, end);
        assert old(trace) <= trace;
      }
      FirstAction(me, env, preferSlot, m, patience, end);
      Release(me);
    }

    /** From the execution to the stored result. */
    method Execute(me: nat, raw: string, env: nat -> seq<Action>, ghost preferSlot: bool, n: nat, ghost patience: nat,
                   ghost end: State) returns (m: nat)
      requires Valid() && At(me, Running) && raw == job.ops[me] && LeadsTo(me, env, preferSlot, n, patience, end)
      modifies this, out
      ensures Valid() && old(trace) <= trace && At(me, Leaving) && LeadsTo(me, env, preferSlot, m, patience, end)
      ensures cells[me].ran.Some? && out[me] == Some(ResultOf(raw, cells[me].ran.value))
    {
      FirstAction(me, env, preferSlot, n, patience, end);
      var res := OperationSafe(me, raw);
      assert old(trace) <= trace;
      Pause(me, env, preferSlot, n, patience, end);
      assert old(trace) <= trace;
      m := Account(me, res, env, preferSlot, n + 1, patience, end);
      assert old(trace) <= trace;
      LeavingIsWritten(me);
    }

    /** A failure is counted, the operation is counted as done, the result is stored. */
    method Account(me: nat, res: OpResult, env: nat -> seq<Action>, ghost preferSlot: bool, n: nat, ghost patience: nat,
                   ghost end: State) returns (m: nat)
      requires Valid() && At(me, Ended(res)) && LeadsTo(me, env, preferSlot, n, patience, end)
      modifies this, out
      ensures Valid() && old(trace) <= trace && At(me, Leaving) && LeadsTo(me, env, preferSlot, m, patience, end)
      ensures cells[me].ran == old(cells[me].ran)
    {
      FirstAction(me, env, preferSlot, n, patience, end);
      CountFailure(me, res);
      assert old(trace) <= trace;
      Pause(me, env, preferSlot, n, patience, end);
      assert old(trace) <= trace;
      FirstAction(me, env, preferSlot, n + 1, patience, end);
      CountDone(me, res);
      assert old(trace) <= trace;
      Pause(me, env, preferSlot, n + 1, patience, end);
      assert old(trace) <= trace;
      FirstAction(me, env, preferSlot, n + 2, patience, end);
      StoreResult(me, res);
      assert old(trace) <= trace;
      Pause(me, env, preferSlot, n + 2, patience, end);
      m := n + 3;
    }

    lemma GoneIsWritten(me: nat)
      requires Valid() && me < |cells| && cells[me].pc.Gone?
      ensures Written(job.ops[me], cells[me], cancelled) && out[me] == cells[me].out
    {
      InitInv(job);
      ExecKeepsInv(job, Init(job), trace);
      assert CellOk(job.ops[me], cells[me], me < spawned, cancelled);
    }

    lemma LeavingIsWritten(me: nat)
      requires Valid() && me < |cells| && cells[me].pc.Leaving?
      ensures Written(job.ops[me], cells[me], cancelled) && out[me] == cells[me].out
    {
      InitInv(job);
      ExecKeepsInv(job, Init(job), trace);
      assert CellOk(job.ops[me], cells[me], me < spawned, cancelled);
    }

    /** One turn of the spawning loop. */
    method SpawnOrSkip(i: nat, raw: string)
      requires Valid() && i == spawned < |cells| && raw == job.ops[i]
      modifies this, out
      ensures Valid() && old(trace) <= trace && spawned == i + 1 && report == old(report)
      ensures View() == Next(job, old(View()), Spawn)
      ensures cancelled == old(cancelled)
      ensures cancelled ==> At(i, Gone) && out[i] == Some(Skipped(raw))
      ensures !cancelled ==> At(i, Queued) && cells[i] == old(cells[i]).(pc := Queued)
      ensures forall k :: 0 <= k < out.Length && k != i ==> out[k] == old(out[k])
    {
      Record(Spawn);
      var c := cells[i];
      spawned := spawned + 1;
      if cancelled {
        var skipped := OpResult(raw, false, MSG_SKIPPED);
        cells := cells[i := c.(pc := Gone, out := Some(skipped), writes := c.writes + 1)];
        out[i] := Some(skipped);
      } else {
        cells := cells[i := c.(pc := Queued)];
      }
    }

    /** The whole batch: spawn, wait for all goroutines, report. When it returns, every place of the
        output was written once, by the operation it belongs to, and the report is exact. It returns
        exactly if the goroutines end while it waits. */
    method RunBatchConcurrent(env: nat -> seq<Action>, patience: nat) returns (returned: bool)
      requires Valid() && trace == []
      modifies this, out
      ensures Valid()
      ensures var waited := Awaited(job, Launched(job, Init(job), env, 0), env, |job.ops|, patience);
        && (returned <==> AllGone(waited))
        && View() == if returned then Next(job, waited, Finish) else waited
      ensures returned && |job.ops| > 0 ==>
                report == Some(Report(|job.ops|, Total(ExecutedOps, cells), FailedRuns(job, cells)))
      ensures returned ==> Total(ExecutedOps, cells) + Total(SkippedOps, cells) == |job.ops|
      ensures returned ==>
                forall i :: 0 <= i < out.Length ==>
                    cells[i].pc.Gone? && Written(job.ops[i], cells[i], cancelled) && out[i] == cells[i].out
    {
      if |job.ops| == 0 { return true; }
      SpawnAll(env);
      returned := AwaitAll(env, patience);
      if returned { Conclude(); }
    }

    /** Waiting for the goroutines to end. */
    method AwaitAll(env: nat -> seq<Action>, patience: nat) returns (all: bool)
      requires Valid() && spawned == |job.ops| && report == None
      modifies this, out
      ensures Valid() && spawned == |job.ops| && report == None && (all <==> AllGone(View()))
      ensures View() == Awaited(job, old(View()), env, |job.ops|, patience)
    {
      ghost var end := Awaited(job, View(), env, |job.ops|, patience);
      var n: nat, left: nat := |job.ops|, patience;
      while 0 < left && exists k :: 0 <= k < |cells| && !cells[k].pc.Gone?
        invariant Valid() && spawned == |job.ops| && report == None
        invariant Awaited(job, View(), env, n, left) == end
      {
        Background(env(n));
        n, left := n + 1, left - 1;
      }
      return forall k :: 0 <= k < |cells| ==> cells[k].pc.Gone?;
    }

    /** The loop that starts the goroutines. */
    method SpawnAll(env: nat -> seq<Action>)
      requires Valid() && trace == []
      modifies this, out
      ensures Valid() && spawned == |job.ops| && report == None && View() == Launched(job, Init(job), env, 0)
    {
      var i := 0;
      while i < |job.ops|
        invariant Valid() && i == spawned <= |job.ops| && report == None
        invariant Launched(job, View(), env, i) == Launched(job, Init(job), env, 0)
      {
        Background(env(i));
        SpawnOrSkip(i, job.ops[i]);
        i := i + 1;
      }
    }

    /** The final report, when all goroutines have ended. */
    method Conclude()
      requires Valid() && spawned == |job.ops| > 0 && AllGone(View())
      modifies this
      ensures Valid() && View() == Next(job, old(View()), Finish)
      ensures report == Some(Report(|job.ops|, Total(ExecutedOps, cells), FailedRuns(job, cells)))
      ensures Total(ExecutedOps, cells) + Total(SkippedOps, cells) == |job.ops|
      ensures forall i :: 0 <= i < out.Length ==>
                cells[i].pc.Gone? && Written(job.ops[i], cells[i], cancelled) && out[i] == cells[i].out
    {
      ghost var before := View();
      Record(Finish);
      report := Some(Report(|cells|, done, failed));
      assert View() == Next(job, before, Finish);
      ReturnIsComplete(job, trace);
      forall k | 0 <= k < |cells|
        ensures cells[k].pc.Gone? && Written(job.ops[k], cells[k], cancelled) && out[k] == cells[k].out
      {
        GoneIsWritten(k);
      }
    }
  }
}
