/**
The tree printer: a directory is listed, its entries are sorted in place and drawn one to a line,
directories followed by what is below them.
*/
module Tree {
  import opened StableSort

  /** An entry of a remote directory and, for a directory, what listing it gives. */
  datatype Node = File(name: string) | Dir(name: string, listing: Listing)

  datatype Listing = Failed | Listed(nodes: seq<Node>)

  // ---------------------------------------------------------------- the order of display

  /** Character by character, a proper prefix first. */
  predicate StringLess(a: string, b: string)
    decreases |a|
  {
    if b == "" then false
    else if a == "" then true
    else if a[0] != b[0] then a[0] < b[0]
    else StringLess(a[1..], b[1..])
  }

  /** Directories first, then by folded name. `lower` is the case folding. */
  predicate TreeLess(lower: string -> string, a: Node, b: Node) {
    if a.Dir? != b.Dir? then a.Dir? else StringLess(lower(a.name), lower(b.name))
  }

  function Less(lower: string -> string): (Node, Node) -> bool { (a, b) => TreeLess(lower, a, b) }

  lemma {:induction false} StringLessIsStrict(a: string, b: string)
    ensures !(StringLess(a, b) && StringLess(b, a))
    ensures !StringLess(a, b) && !StringLess(b, a) ==> a == b
    decreases |a|
  {
    if a != "" && b != "" && a[0] == b[0] {
      StringLessIsStrict(a[1..], b[1..]);
      assert a == [a[0]] + a[1..] && b == [b[0]] + b[1..];
    }
  }

  lemma {:induction false} StringLessSplits(a: string, b: string, c: string)
    requires StringLess(a, c)
    ensures StringLess(a, b) || StringLess(b, c)
    decreases |a|
  {
    if a != "" && b != "" && a[0] == b[0] == c[0] { StringLessSplits(a[1..], b[1..], c[1..]); }
  }

  /** The display order is a strict weak order, and equivalent entries are of one kind and fold to
      the same name. */
  lemma TreeLessIsStrictWeak(lower: string -> string)
    ensures StrictWeak(Less(lower))
    ensures forall a, b :: Equivalent(Less(lower), a, b) <==> a.Dir? == b.Dir? && lower(a.name) == lower(b.name)
  {
    forall a, b | Less(lower)(a, b) ensures !Less(lower)(b, a) { StringLessIsStrict(lower(a.name), lower(b.name)); }
    forall a, b, c | Less(lower)(a, c) ensures Less(lower)(a, b) || Less(lower)(b, c) {
      if StringLess(lower(a.name), lower(c.name)) { StringLessSplits(lower(a.name), lower(b.name), lower(c.name)); }
    }
    forall a, b ensures Equivalent(Less(lower), a, b) <==> a.Dir? == b.Dir? && lower(a.name) == lower(b.name) {
      StringLessIsStrict(lower(a.name), lower(b.name));
      StringLessIsStrict(lower(b.name), lower(b.name));
    }
  }

  /** `a` is the beginning of `b`, or smaller at the first place where they differ. */
  ghost predicate Alphabetical(a: string, b: string) { a <= b || exists k :: Differs(a, b, k) && a[k] < b[k] }

  /** `k` is the first place where the two differ. */
  predicate Differs(a: string, b: string, k: int) { 0 <= k < |a| && k < |b| && a[..k] == b[..k] && a[k] != b[k] }

  /** Directories stand before files, and entries of one kind in the order of their folded names. */
  ghost predicate InDisplayOrder(lower: string -> string, nodes: seq<Node>) {
    forall i, j :: 0 <= i < j < |nodes| ==> MayPrecede(lower, nodes[i], nodes[j])
  }

  ghost predicate MayPrecede(lower: string -> string, a: Node, b: Node) {
    && (b.Dir? ==> a.Dir?)
    && (a.Dir? == b.Dir? ==> Alphabetical(lower(a.name), lower(b.name)))
  }

  lemma {:induction false} LessIsAlphabetical(a: string, b: string)
    ensures !StringLess(b, a) <==> Alphabetical(a, b)
    decreases |a|
  {
    if a == "" {
      assert a <= b;
    } else if b != "" && a[0] == b[0] {
      LessIsAlphabetical(a[1..], b[1..]);
      AlphabeticalTail(a, b);
    } else if b != "" {
      assert a[..0] == b[..0] && Differs(a, b, 0);
      forall k | Differs(a, b, k) ensures k == 0 || a[0] == b[0] { SameUntil(a, b, k); }
    }
  }

  lemma SameUntil(a: string, b: string, k: int)
    requires Differs(a, b, k)
    ensures k == 0 || a[0] == b[0]
  {
    if 0 < k { assert a[..k][0] == b[..k][0]; }
  }

  lemma AlphabeticalTail(a: string, b: string)
    requires a != "" && b != "" && a[0] == b[0]
    ensures Alphabetical(a, b) <==> Alphabetical(a[1..], b[1..])
  {
    var s, t := a[1..], b[1..];
    assert a == [a[0]] + s && b == [b[0]] + t;
    assert a <= b <==> s <= t;
    forall k ensures Differs(s, t, k) ==> Differs(a, b, k + 1) {
      if Differs(s, t, k) { assert a[..k + 1] == [a[0]] + s[..k] && b[..k + 1] == [b[0]] + t[..k]; }
    }
    forall k ensures Differs(a, b, k) ==> 0 < k && Differs(s, t, k - 1) {
      if Differs(a, b, k) { assert s[..k - 1] == a[..k][1..] && t[..k - 1] == b[..k][1..]; }
    }
    if Alphabetical(a, b) && !(a <= b) {
      var k :| Differs(a, b, k) && a[k] < b[k];
      assert Differs(s, t, k - 1) && s[k - 1] < t[k - 1];
    }
    if Alphabetical(s, t) && !(s <= t) {
      var k :| Differs(s, t, k) && s[k] < t[k];
      assert Differs(a, b, k + 1) && a[k + 1] < b[k + 1];
    }
  }

  lemma OrderedIsDisplayOrder(lower: string -> string, nodes: seq<Node>)
    ensures Ordered(Less(lower), nodes) <==> InDisplayOrder(lower, nodes)
  {
    forall i, j | 0 <= i < j < |nodes|
      ensures !Less(lower)(nodes[j], nodes[i]) <==> MayPrecede(lower, nodes[i], nodes[j])
    {
      LessIsAlphabetical(lower(nodes[i].name), lower(nodes[j].name));
    }
  }

  /** The entries of one kind and one folded name, in order. */
  ghost function Namesakes(lower: string -> string, nodes: seq<Node>, isDir: bool, folded: string): seq<Node>
    decreases |nodes|
  {
    if nodes == [] then []
    else
      var n := |nodes| - 1;
      Namesakes(lower, nodes[..n], isDir, folded) +
      if nodes[n].Dir? == isDir && lower(nodes[n].name) == folded then [nodes[n]] else []
  }

  lemma {:induction false} ClassIsNamesakes(lower: string -> string, nodes: seq<Node>, c: Node)
    ensures Class(Less(lower), nodes, c) == Namesakes(lower, nodes, c.Dir?, lower(c.name))
    decreases |nodes|
  {
    if nodes != [] {
      TreeLessIsStrictWeak(lower);
      ClassIsNamesakes(lower, nodes[..|nodes| - 1], c);
    }
  }

  /** Sorts a listing in place. The result is a permutation in display order in which entries of one
      kind and one folded name keep their order, and there is only one such permutation. */
  method SortTreeEntries(entries: array<Node>, lower: string -> string)
    modifies entries
    ensures InDisplayOrder(lower, entries[..]) && multiset(entries[..]) == multiset(old(entries[..]))
    ensures forall c: Node :: Namesakes(lower, entries[..], c.Dir?, lower(c.name)) ==
                              Namesakes(lower, old(entries[..]), c.Dir?, lower(c.name))
    ensures entries[..] == Sorted(Less(lower), old(entries[..]))
  {
    ghost var was := entries[..];
    InsertionSort(entries, Less(lower));
    TreeLessIsStrictWeak(lower);
    SortedIsStable(Less(lower), was);
    SortedIsPermutation(Less(lower), was);
    OrderedIsDisplayOrder(lower, entries[..]);
    forall c: Node
      ensures Namesakes(lower, entries[..], c.Dir?, lower(c.name)) == Namesakes(lower, was, c.Dir?, lower(c.name))
    {
      ClassIsNamesakes(lower, entries[..], c);
      ClassIsNamesakes(lower, was, c);
    }
  }

  // ---------------------------------------------------------------- what is visible

  function Shown(nodes: seq<Node>, dirsOnly: bool): (r: seq<Node>)
    ensures forall x :: x in r ==> x in nodes
    decreases |nodes|
  {
    if nodes == [] then []
    else Shown(nodes[..|nodes| - 1], dirsOnly) +
         (if dirsOnly && nodes[|nodes| - 1].File? then [] else [nodes[|nodes| - 1]])
  }

  /** The remaining depth below a directory, 0 meaning no limit. */
  function Deeper(depth: int): int { if depth > 1 then depth - 1 else 0 }

  function Display(lower: string -> string, nodes: seq<Node>, dirsOnly: bool): (r: seq<Node>)
    ensures forall x :: x in r ==> x in nodes
  {
    SortedIsPermutation(Less(lower), nodes);
    Shown(Sorted(Less(lower), nodes), dirsOnly)
  }

  /** The entries that a listing shows, sorted, down to the given depth. */
  function Visible(lower: string -> string, listing: Listing, depth: int, dirsOnly: bool): Listing
    decreases listing
  {
    match listing
    case Failed => Failed
    case Listed(nodes) =>
      var shown := Display(lower, nodes, dirsOnly);
      Listed(seq(|shown|, i requires 0 <= i < |shown| =>
        assert shown[i] in nodes;
        VisibleNode(lower, shown[i], depth, dirsOnly)))
  }

  function VisibleNode(lower: string -> string, node: Node, depth: int, dirsOnly: bool): Node
    decreases node
  {
    match node
    case File(_) => node
    case Dir(name, listing) =>
      Dir(name, if depth == 1 then Listed([]) else Visible(lower, listing, Deeper(depth), dirsOnly))
  }

  ghost predicate AllInDisplayOrder(lower: string -> string, listing: Listing)
    decreases listing
  {
    listing.Listed? ==>
      InDisplayOrder(lower, listing.nodes) &&
      forall x :: x in listing.nodes && x.Dir? ==> AllInDisplayOrder(lower, x.listing)
  }

  lemma {:induction false} ShownInOrder(lower: string -> string, nodes: seq<Node>, dirsOnly: bool)
    requires InDisplayOrder(lower, nodes)
    ensures InDisplayOrder(lower, Shown(nodes, dirsOnly))
    decreases |nodes|
  {
    if nodes != [] {
      var n := |nodes| - 1;
      ShownInOrder(lower, nodes[..n], dirsOnly);
      forall x | x in nodes[..n] ensures MayPrecede(lower, x, nodes[n]) {
        var i :| 0 <= i < n && nodes[i] == x;
      }
    }
  }

  /** Whatever the options, every directory is shown in display order. */
  lemma {:induction false} VisibleInOrder(lower: string -> string, listing: Listing, depth: int, dirsOnly: bool)
    ensures AllInDisplayOrder(lower, Visible(lower, listing, depth, dirsOnly))
    decreases listing
  {
    if listing.Listed? {
      var nodes, shown := listing.nodes, Display(lower, listing.nodes, dirsOnly);
      var visible := Visible(lower, listing, depth, dirsOnly).nodes;
      TreeLessIsStrictWeak(lower);
      SortedIsStable(Less(lower), nodes);
      OrderedIsDisplayOrder(lower, Sorted(Less(lower), nodes));
      ShownInOrder(lower, Sorted(Less(lower), nodes), dirsOnly);
      SortedIsPermutation(Less(lower), nodes);
      forall i | 0 <= i < |visible|
        ensures visible[i].Dir? == shown[i].Dir? && visible[i].name == shown[i].name
        ensures visible[i].Dir? ==> AllInDisplayOrder(lower, visible[i].listing)
      {
        assert shown[i] in nodes && visible[i] == VisibleNode(lower, shown[i], depth, dirsOnly);
        if shown[i].Dir? && depth != 1 { VisibleInOrder(lower, shown[i].listing, Deeper(depth), dirsOnly); }
      }
    }
  }

  // ---------------------------------------------------------------- drawing

  const BRANCH := "├── "
  const LAST_BRANCH := "└── "
  const BAR := "│   "
  const BLANK := "    "

  /** The lines written, the numbers counted, and whether every listing succeeded. */
  datatype Output = Output(lines: seq<string>, dirs: nat, files: nat, ok: bool)

  const NOTHING := Output([], 0, 0, true)

  /** After a failed listing nothing more is written. */
  function Then(a: Output, b: Output): Output {
    if !a.ok then a else Output(a.lines + b.lines, a.dirs + b.dirs, a.files + b.files, b.ok)
  }

  function Label(node: Node): string { if node.Dir? then node.name + "/" else node.name }

  function Render(nodes: seq<Node>, prefix: string): Output
    decreases nodes
  {
    if nodes == [] then NOTHING
    else Then(RenderNode(nodes[0], prefix, |nodes| == 1), Render(nodes[1..], prefix))
  }

  function RenderNode(node: Node, prefix: string, last: bool): Output
    decreases node
  {
    var line := prefix + (if last then LAST_BRANCH else BRANCH) + Label(node);
    match node
    case File(_) => Output([line], 0, 1, true)
    case Dir(_, listing) =>
      Then(Output([line], 1, 0, true), RenderListing(listing, prefix + if last then BLANK else BAR))
  }

  function RenderListing(listing: Listing, prefix: string): Output
    decreases listing
  {
    match listing
    case Failed => Output([], 0, 0, false)
    case Listed(nodes) => Render(nodes, prefix)
  }

  class Printer {
    var lines: seq<string>
    var dirs: nat
    var files: nat

    constructor ()
      ensures lines == [] && dirs == 0 && files == 0
    {
      lines, dirs, files := [], 0, 0;
    }

    ghost function Written(ok: bool): Output reads this { Output(lines, dirs, files, ok) }

    /** Lists, sorts, filters and draws one directory and everything below it. */
    method WalkTree(lower: string -> string, listing: Listing, prefix: string, depth: int, dirsOnly: bool)
      returns (ok: bool)
      modifies this
      ensures Written(ok) == Then(old(Written(true)), RenderListing(Visible(lower, listing, depth, dirsOnly), prefix))
      decreases listing, 2
    {
      if listing.Failed? { return false; }
      var nodes := listing.nodes;
      var entries := new Node[|nodes|](i requires 0 <= i < |nodes| => nodes[i]);
      assert entries[..] == nodes;
      SortTreeEntries(entries, lower);
      var shown := FilterTreeEntries(entries[..], dirsOnly);
      assert shown == Display(lower, nodes, dirsOnly);
      ok := RenderShown(lower, listing, shown, prefix, depth, dirsOnly);
    }

    /** The loop over what is shown of a listing. */
    method RenderShown(lower: string -> string, ghost listing: Listing, shown: seq<Node>, prefix: string, depth: int,
                       dirsOnly: bool) returns (ok: bool)
      requires listing.Listed? && shown == Display(lower, listing.nodes, dirsOnly)
      modifies this
      ensures Written(ok) == Then(old(Written(true)), Render(Visible(lower, listing, depth, dirsOnly).nodes, prefix))
      decreases listing, 1
    {
      ghost var visible := Visible(lower, listing, depth, dirsOnly).nodes;
      ghost var end := Then(Written(true), Render(visible, prefix));
      assert |visible| == |shown| && visible[0..] == visible;
      var i := 0;
      while i < |shown|
        invariant 0 <= i <= |shown| && Drawing(visible, i, prefix, end)
      {
        ok := DrawNext(lower, listing, shown[i], visible, i, prefix, depth, dirsOnly, end, i == |shown| - 1);
        if !ok { return false; }
        i := i + 1;
      }
      assert visible[i..] == [];
      return true;
    }

    /** The body of the loop. */
    method DrawNext(lower: string -> string, ghost listing: Listing, x: Node, ghost visible: seq<Node>, ghost i: nat,
                    prefix: string, depth: int, dirsOnly: bool, ghost end: Output, last: bool) returns (ok: bool)
      requires listing.Listed? && x in listing.nodes && Drawing(visible, i, prefix, end)
      requires i < |visible| && visible[i] == VisibleNode(lower, x, depth, dirsOnly) && last == (i == |visible| - 1)
      modifies this
      ensures if ok then Drawing(visible, i + 1, prefix, end) else Written(false) == end
      decreases listing, 0
    {
      RenderNext(Written(true), visible, i, prefix);
      ok := RenderTreeEntry(lower, x, prefix, last, depth, dirsOnly);
    }

    /** With the entries from `i` on, what is written becomes `end`. */
    ghost predicate Drawing(visible: seq<Node>, i: nat, prefix: string, end: Output) reads this {
      i <= |visible| && Then(Written(true), Render(visible[i..], prefix)) == end
    }

    /** Draws one entry, counts it, and walks into a directory unless this is the last level. */
    method RenderTreeEntry(lower: string -> string, e: Node, prefix: string, last: bool, depth: int, dirsOnly: bool)
      returns (ok: bool)
      modifies this
      ensures Written(ok) == Then(old(Written(true)), RenderNode(VisibleNode(lower, e, depth, dirsOnly), prefix, last))
      decreases e, 0
    {
      var branch, nextPrefix := BRANCH, prefix + BAR;
      if last { branch, nextPrefix := LAST_BRANCH, prefix + BLANK; }
      var name := e.name;
      if e.Dir? { name := name + "/"; }
      ghost var start, drawn := Written(true), VisibleNode(lower, e, depth, dirsOnly);
      var line := prefix + branch + name;
      assert Label(drawn) == name;
      lines := lines + [line];
      if !e.Dir? {
        files := files + 1;
        return true;
      }
      dirs := dirs + 1;
      ghost var own := Output([line], 1, 0, true);
      assert Written(true) == Then(start, own);
      ThenAgain(start, own, RenderListing(drawn.listing, nextPrefix));
      assert RenderNode(drawn, prefix, last) == Then(own, RenderListing(drawn.listing, nextPrefix));
      if depth == 1 {
        assert RenderListing(drawn.listing, nextPrefix) == NOTHING;
        return true;
      }
      var next := 0;
      if depth > 1 { next := depth - 1; }
      ok := WalkTree(lower, e.listing, nextPrefix, next, dirsOnly);
    }
  }

  method FilterTreeEntries(entries: seq<Node>, dirsOnly: bool) returns (out: seq<Node>)
    ensures out == Shown(entries, dirsOnly)
  {
    if !dirsOnly {
      AllShown(entries);
      return entries;
    }
    out := [];
    var i := 0;
    while i < |entries|
      invariant 0 <= i <= |entries| && out == Shown(entries[..i], true)
    {
      assert entries[..i + 1][..i] == entries[..i];
      if entries[i].Dir? { out := out + [entries[i]]; }
      i := i + 1;
    }
    assert entries[..i] == entries;
  }

  lemma {:induction false} AllShown(nodes: seq<Node>)
    ensures Shown(nodes, false) == nodes
    decreases |nodes|
  {
    if nodes != [] { AllShown(nodes[..|nodes| - 1]); }
  }

  /** What is drawn from entry `i` on is that entry and then the rest. */
  lemma RenderNext(before: Output, nodes: seq<Node>, i: nat, prefix: string)
    requires i < |nodes|
    ensures Then(before, Render(nodes[i..], prefix)) ==
            Then(Then(before, RenderNode(nodes[i], prefix, i == |nodes| - 1)), Render(nodes[i + 1..], prefix))
  {
    assert nodes[i..][0] == nodes[i] && nodes[i..][1..] == nodes[i + 1..];
    ThenAgain(before, RenderNode(nodes[i], prefix, i == |nodes| - 1), Render(nodes[i + 1..], prefix));
  }

  lemma ThenAgain(a: Output, b: Output, c: Output)
    ensures Then(Then(a, b), c) == Then(a, Then(b, c))
  {
    if a.ok && b.ok { assert a.lines + (b.lines + c.lines) == a.lines + b.lines + c.lines; }
  }
}
