/**
The batch delete and batch rename commands send only some of their items to the server, in one
request, and spread the answers over all items again.
*/
module BatchScatter {
  import opened Wrappers
  import opened OpResults

  /** One entry of the server's answer. */
  datatype Answer = Answer(success: bool, message: string)

  const MSG_UNRESOLVED := "路径解析失败"
  const MSG_MISSING := "服务端未返回结果"
  const MSG_OK := "OK"
  const MSG_DELETE_FAILED := "删除失败"
  const MSG_RENAME_FAILED := "重命名失败"
  const MSG_NO_CHECKSUM := "远端文件 checksum 为空"
  const MSG_STAT_FAILED := "stat 失败: "

  // ---------------------------------------------------------------- the indices

  /** The requests of the items that have one, in order. */
  function Requests<R>(wanted: seq<Option<R>>): seq<R>
    decreases |wanted|
  {
    if wanted == [] then []
    else
      var n := |wanted| - 1;
      Requests(wanted[..n]) + if wanted[n].Some? then [wanted[n].value] else []
  }

  /** The index of an item's request: how many items before it have one; -1 without a request. */
  function IndexOf<R>(wanted: seq<Option<R>>, i: nat): int
    requires i < |wanted|
  {
    if wanted[i].Some? then |Requests(wanted[..i])| else -1
  }

  function Indices<R>(wanted: seq<Option<R>>): seq<int> {
    seq(|wanted|, i requires 0 <= i < |wanted| => IndexOf(wanted, i))
  }

  lemma {:induction false} RequestsGrow<R>(wanted: seq<Option<R>>, i: nat, j: nat)
    requires i <= j <= |wanted|
    ensures Requests(wanted[..i]) <= Requests(wanted[..j])
    decreases j
  {
    if i < j {
      assert wanted[..j][..j - 1] == wanted[..j - 1];
      RequestsGrow(wanted, i, j - 1);
    }
  }

  /** Each item with a request finds its own request at its index. */
  lemma IndexFindsRequest<R>(wanted: seq<Option<R>>, i: nat)
    requires i < |wanted| && wanted[i].Some?
    ensures 0 <= IndexOf(wanted, i) < |Requests(wanted)|
    ensures Requests(wanted)[IndexOf(wanted, i)] == wanted[i].value
  {
    assert wanted[..i + 1][..i] == wanted[..i];
    RequestsGrow(wanted, i + 1, |wanted|);
    assert wanted[..|wanted|] == wanted;
  }

  lemma IndicesIncrease<R>(wanted: seq<Option<R>>, i: nat, j: nat)
    requires i < j < |wanted| && wanted[i].Some? && wanted[j].Some?
    ensures IndexOf(wanted, i) < IndexOf(wanted, j)
  {
    assert wanted[..i + 1][..i] == wanted[..i];
    RequestsGrow(wanted, i + 1, j);
  }

  /** Each request belongs to exactly one item. */
  lemma {:induction false} OwnerOf<R>(wanted: seq<Option<R>>, k: nat) returns (i: nat)
    requires k < |Requests(wanted)|
    ensures i < |wanted| && wanted[i].Some? && IndexOf(wanted, i) == k
    ensures forall j: nat :: j < |wanted| && j != i && wanted[j].Some? ==> IndexOf(wanted, j) != k
    decreases |wanted|
  {
    var n := |wanted| - 1;
    if wanted[n].Some? && k == |Requests(wanted[..n])| {
      i := n;
    } else {
      i := OwnerOf(wanted[..n], k);
      assert wanted[..n][..i] == wanted[..i];
    }
    forall j: nat | j < |wanted| && j != i && wanted[j].Some? ensures IndexOf(wanted, j) != k {
      if j < i { IndicesIncrease(wanted, j, i); } else { IndicesIncrease(wanted, i, j); }
    }
  }

  // ---------------------------------------------------------------- spreading the answers

  /** The outcome of an item: its own answer, a default message where the server sent none, a missing
      answer, or what is reported for an item that was never sent. */
  function ResultFor(name: string, idx: int, answers: seq<Answer>, unsent: string, failed: string): OpResult {
    if idx < 0 then OpResult(name, false, unsent)
    else if idx >= |answers| then OpResult(name, false, MSG_MISSING)
    else
      var a := answers[idx];
      OpResult(name, a.success, if a.message != "" then a.message else if a.success then MSG_OK else failed)
  }

  /** The same, step by step. */
  method TakeAnswer(name: string, idx: int, answers: seq<Answer>, unsent: string, failed: string) returns (r: OpResult)
    ensures r == ResultFor(name, idx, answers, unsent, failed)
  {
    if idx < 0 { return OpResult(name, false, unsent); }
    if idx >= |answers| { return OpResult(name, false, MSG_MISSING); }
    var a := answers[idx];
    var message := a.message;
    if message == "" {
      if a.success { message := MSG_OK; } else { message := failed; }
    }
    return OpResult(name, a.success, message);
  }

  function CountSuccess(results: seq<OpResult>): nat
    decreases |results|
  {
    if results == [] then 0
    else CountSuccess(results[..|results| - 1]) + if results[|results| - 1].success then 1 else 0
  }

  function CountAnswers(answers: seq<Answer>): nat
    decreases |answers|
  {
    if answers == [] then 0
    else CountAnswers(answers[..|answers| - 1]) + if answers[|answers| - 1].success then 1 else 0
  }

  predicate Spread<R>(wanted: seq<Option<R>>, results: seq<OpResult>, answers: seq<Answer>) {
    |results| == |wanted| && forall i :: 0 <= i < |wanted| ==>
      results[i].success == (0 <= IndexOf(wanted, i) < |answers| && answers[IndexOf(wanted, i)].success)
  }

  /** Successes are neither lost nor invented: as many items succeed as the server answered with
      success, answers beyond the request not counted. */
  lemma {:induction false} SuccessesAreConserved<R>(wanted: seq<Option<R>>, results: seq<OpResult>,
                                                    answers: seq<Answer>)
    requires Spread(wanted, results, answers)
    ensures var n := |Requests(wanted)|;
      CountSuccess(results) == CountAnswers(if |answers| < n then answers else answers[..n])
    decreases |wanted|
  {
    if wanted != [] {
      var m := |wanted| - 1;
      assert Spread(wanted[..m], results[..m], answers) by {
        forall i | 0 <= i < m ensures IndexOf(wanted[..m], i) == IndexOf(wanted, i) {
          assert wanted[..m][..i] == wanted[..i];
        }
      }
      SuccessesAreConserved(wanted[..m], results[..m], answers);
      var n := |Requests(wanted[..m])|;
      assert results[m].success == (0 <= IndexOf(wanted, m) < |answers| && answers[IndexOf(wanted, m)].success);
      assert wanted[m].Some? ==> IndexOf(wanted, m) == n;
      if n < |answers| {
        assert answers[..n + 1][..n] == answers[..n];
      } else if n == |answers| {
        assert answers[..n] == answers;
      }
    } else {
      assert answers[..0] == [];
    }
  }

  // ---------------------------------------------------------------- batch delete

  datatype DeleteItem = DeleteItem(orig: string, remote: string)

  function DeleteRequests(items: seq<DeleteItem>): seq<Option<string>> {
    seq(|items|, i requires 0 <= i < |items| => if items[i].remote == "" then None else Some(items[i].remote))
  }

  /** `resolve` gives the remote path, or nothing for a path that does not resolve. */
  method ResolveBatchDeleteItems(args: seq<string>, resolve: string -> string)
    returns (items: seq<DeleteItem>, indices: seq<int>, files: seq<string>)
    ensures |items| == |args| && forall i :: 0 <= i < |args| ==> items[i] == DeleteItem(args[i], resolve(args[i]))
    ensures files == Requests(DeleteRequests(items)) && indices == Indices(DeleteRequests(items))
  {
    items := [];
    var i := 0;
    while i < |args|
      invariant 0 <= i == |items| <= |args|
      invariant forall k :: 0 <= k < i ==> items[k] == DeleteItem(args[k], resolve(args[k]))
    {
      items := items + [DeleteItem(args[i], resolve(args[i]))];
      i := i + 1;
    }
    files, indices := [], [];
    ghost var wanted := DeleteRequests(items);
    i := 0;
    while i < |items|
      invariant 0 <= i == |indices| <= |items|
      invariant files == Requests(wanted[..i])
      invariant forall k :: 0 <= k < i ==> indices[k] == IndexOf(wanted, k)
    {
      assert wanted[..i + 1][..i] == wanted[..i];
      if items[i].remote == "" {
        indices := indices + [-1];
      } else {
        indices := indices + [|files|];
        files := files + [items[i].remote];
      }
      i := i + 1;
    }
    assert wanted[..i] == wanted;
  }

  /** Asks the server once, unless there is nothing to ask, and spreads its answer. */
  method MapBatchDeleteResults(items: seq<DeleteItem>, indices: seq<int>, files: seq<string>,
                               server: seq<string> -> Result<seq<Answer>, string>) returns (results: seq<OpResult>)
    requires files == Requests(DeleteRequests(items)) && indices == Indices(DeleteRequests(items))
    ensures |results| == |items|
    ensures files == [] ==> forall i :: 0 <= i < |items| ==>
              results[i] == OpResult(items[i].orig, false, MSG_UNRESOLVED)
    ensures files != [] && server(files).Err? ==>
              forall i :: 0 <= i < |items| ==> results[i] == OpResult(items[i].orig, false, server(files).error)
    ensures files != [] && server(files).Ok? ==>
              Spread(DeleteRequests(items), results, server(files).value) &&
              forall i :: 0 <= i < |items| ==>
                results[i] ==
                ResultFor(items[i].orig, indices[i], server(files).value, MSG_UNRESOLVED, MSG_DELETE_FAILED)
  {
    results := [];
    var answer := if files == [] then Err(MSG_UNRESOLVED) else server(files);
    var i := 0;
    while i < |items|
      invariant 0 <= i == |results| <= |items|
      invariant forall k :: 0 <= k < i ==>
                  results[k] == if answer.Err? then OpResult(items[k].orig, false, answer.error)
                                else ResultFor(items[k].orig, indices[k], answer.value, MSG_UNRESOLVED,
                                               MSG_DELETE_FAILED)
    {
      var r;
      if answer.Err? {
        r := OpResult(items[i].orig, false, answer.error);
      } else {
        r := TakeAnswer(items[i].orig, indices[i], answer.value, MSG_UNRESOLVED, MSG_DELETE_FAILED);
      }
      results := results + [r];
      i := i + 1;
    }
  }

  // ---------------------------------------------------------------- batch rename

  datatype RenamePair = RenamePair(src: string, dst: string)

  datatype RenameOp = RenameOp(src: string, dst: string, checksum: string)

  /** What asking for a file's data gave: an error, nothing, or a checksum that may be empty. */
  datatype Stat = StatError(error: string) | NoInfo | Info(checksum: string)

  function Flatten(pairs: seq<RenamePair>): seq<string>
    decreases |pairs|
  {
    if pairs == [] then [] else Flatten(pairs[..|pairs| - 1]) + [pairs[|pairs| - 1].src, pairs[|pairs| - 1].dst]
  }

  /** The arguments, two by two. */
  method BuildRenamePairs(args: seq<string>) returns (pairs: seq<RenamePair>)
    requires |args| % 2 == 0
    ensures 2 * |pairs| == |args| && Flatten(pairs) == args
  {
    pairs := [];
    var i := 0;
    while i < |args|
      invariant 0 <= i <= |args| && i % 2 == 0 && 2 * |pairs| == i
      invariant Flatten(pairs) == args[..i]
    {
      var more := pairs + [RenamePair(args[i], args[i + 1])];
      assert more[..|more| - 1] == pairs;
      pairs := more;
      i := i + 2;
    }
  }

  function RenameRequests(pairs: seq<RenamePair>, stats: seq<Stat>): seq<Option<RenameOp>>
    requires |stats| == |pairs|
  {
    seq(|pairs|, i requires 0 <= i < |pairs| =>
      if stats[i].Info? && stats[i].checksum != ""
      then Some(RenameOp(pairs[i].src, pairs[i].dst, stats[i].checksum)) else None)
  }

  function RenameFailure(stat: Stat, apiError: string): string {
    match stat
    case StatError(e) => MSG_STAT_FAILED + e
    case NoInfo => MSG_NO_CHECKSUM
    case Info(c) => if c == "" then MSG_NO_CHECKSUM else apiError
  }

  method FailureMessage(stat: Stat, apiError: string) returns (message: string)
    ensures message == RenameFailure(stat, apiError)
  {
    if stat.StatError? { return MSG_STAT_FAILED + stat.error; }
    if stat.NoInfo? || stat.checksum == "" { return MSG_NO_CHECKSUM; }
    return apiError;
  }

  function RenameName(p: RenamePair): string { p.src + " -> " + p.dst }

  method BuildRenameOps(pairs: seq<RenamePair>, stats: seq<Stat>) returns (ops: seq<RenameOp>, indices: seq<int>)
    requires |stats| == |pairs|
    ensures ops == Requests(RenameRequests(pairs, stats)) && indices == Indices(RenameRequests(pairs, stats))
  {
    ops, indices := [], [];
    ghost var wanted := RenameRequests(pairs, stats);
    var i := 0;
    while i < |pairs|
      invariant 0 <= i == |indices| <= |pairs|
      invariant ops == Requests(wanted[..i])
      invariant forall k :: 0 <= k < i ==> indices[k] == IndexOf(wanted, k)
    {
      assert wanted[..i + 1][..i] == wanted[..i];
      if !stats[i].Info? || stats[i].checksum == "" {
        indices := indices + [-1];
      } else {
        indices := indices + [|ops|];
        ops := ops + [RenameOp(pairs[i].src, pairs[i].dst, stats[i].checksum)];
      }
      i := i + 1;
    }
    assert wanted[..i] == wanted;
  }

  method MapBatchRenameResults(pairs: seq<RenamePair>, stats: seq<Stat>, indices: seq<int>, ops: seq<RenameOp>,
                               server: seq<RenameOp> -> Result<seq<Answer>, string>) returns (results: seq<OpResult>)
    requires |stats| == |pairs|
    requires ops == Requests(RenameRequests(pairs, stats)) && indices == Indices(RenameRequests(pairs, stats))
    ensures |results| == |pairs|
    ensures ops == [] || server(ops).Err? ==>
              forall i :: 0 <= i < |pairs| ==>
                results[i] == OpResult(RenameName(pairs[i]), false,
                                       RenameFailure(stats[i], if ops == [] then "" else server(ops).error))
    ensures ops != [] && server(ops).Ok? ==>
              Spread(RenameRequests(pairs, stats), results, server(ops).value) &&
              forall i :: 0 <= i < |pairs| ==>
                results[i] == ResultFor(RenameName(pairs[i]), indices[i], server(ops).value,
                                        RenameFailure(stats[i], ""), MSG_RENAME_FAILED)
  {
    results := [];
    var answer := if ops == [] then Err("") else server(ops);
    var i := 0;
    while i < |pairs|
      invariant 0 <= i == |results| <= |pairs|
      invariant forall k :: 0 <= k < i ==>
                  results[k] == if answer.Err?
                                then OpResult(RenameName(pairs[k]), false, RenameFailure(stats[k], answer.error))
                                else ResultFor(RenameName(pairs[k]), indices[k], answer.value,
                                               RenameFailure(stats[k], ""), MSG_RENAME_FAILED)
    {
      var name := pairs[i].src + " -> " + pairs[i].dst;
      var r;
      if answer.Err? {
        var message := FailureMessage(stats[i], answer.error);
        r := OpResult(name, false, message);
      } else {
        var message := FailureMessage(stats[i], "");
        r := TakeAnswer(name, indices[i], answer.value, message, MSG_RENAME_FAILED);
      }
      results := results + [r];
      i := i + 1;
    }
  }
}
