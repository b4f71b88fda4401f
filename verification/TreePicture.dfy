/**
What the printed tree says. The preorder list of the entries, each with its level, is the reference:
the drawing is determined by it, and it can be read back from the drawing.
*/
module TreePicture {
  import opened Wrappers
  import opened Text
  import opened StableSort
  import opened Tree

  datatype Item = Item(level: nat, name: string, isDir: bool)

  function Below(node: Node): seq<Node> {
    if node.Dir? && node.listing.Listed? then node.listing.nodes else []
  }

  /** The entries of a tree in preorder. */
  function Items(nodes: seq<Node>, level: nat): (items: seq<Item>)
    ensures nodes != [] ==> items != [] && items[0] == Item(level, nodes[0].name, nodes[0].Dir?)
    ensures forall i :: 0 <= i < |items| ==> items[i].level >= level
    decreases nodes
  {
    if nodes == [] then []
    else [Item(level, nodes[0].name, nodes[0].Dir?)] + ItemsBelow(nodes[0], level + 1) + Items(nodes[1..], level)
  }

  function ItemsBelow(node: Node, level: nat): (items: seq<Item>)
    ensures forall i :: 0 <= i < |items| ==> items[i].level >= level
    decreases node
  {
    if node.Dir? && node.listing.Listed? then Items(node.listing.nodes, level) else []
  }

  predicate AllListed(nodes: seq<Node>)
    decreases nodes
  {
    nodes != [] ==>
      (nodes[0].Dir? ==> nodes[0].listing.Listed? && AllListed(nodes[0].listing.nodes)) && AllListed(nodes[1..])
  }

  // ---------------------------------------------------------------- the drawing

  /** After this entry another one follows at the level, under the same parents. `rest` is what
      follows the entry in the preorder. */
  predicate Continues(rest: seq<Item>, level: nat)
    decreases |rest|
  {
    rest != [] && if rest[0].level <= level then rest[0].level == level else Continues(rest[1..], level)
  }

  /** A bar in each column of a parent that has another entry to come. */
  function Bars(rest: seq<Item>, start: nat, end: nat): string
    requires start <= end
    decreases end - start
  {
    if start == end then "" else (if Continues(rest, start) then BAR else BLANK) + Bars(rest, start + 1, end)
  }

  function ItemLabel(item: Item): string { if item.isDir then item.name + "/" else item.name }

  function DrawnLine(item: Item, rest: seq<Item>): string {
    Bars(rest, 0, item.level) + (if Continues(rest, item.level) then BRANCH else LAST_BRANCH) + ItemLabel(item)
  }

  function Drawn(items: seq<Item>): seq<string>
    decreases |items|
  {
    if items == [] then [] else [DrawnLine(items[0], items[1..])] + Drawn(items[1..])
  }

  function CountDirs(items: seq<Item>): nat
    decreases |items|
  {
    if items == [] then 0 else (if items[0].isDir then 1 else 0) + CountDirs(items[1..])
  }

  lemma {:induction false} ContinuesPast(deep: seq<Item>, rest: seq<Item>, level: nat)
    requires forall i :: 0 <= i < |deep| ==> deep[i].level > level
    ensures Continues(deep + rest, level) == Continues(rest, level)
    decreases |deep|
  {
    if deep == [] {
      assert deep + rest == rest;
    } else {
      assert (deep + rest)[1..] == deep[1..] + rest;
      ContinuesPast(deep[1..], rest, level);
    }
  }

  lemma {:induction false} BarsPast(deep: seq<Item>, rest: seq<Item>, start: nat, end: nat)
    requires start <= end && forall i :: 0 <= i < |deep| ==> deep[i].level >= end
    ensures Bars(deep + rest, start, end) == Bars(rest, start, end)
    decreases end - start
  {
    if start < end {
      ContinuesPast(deep, rest, start);
      BarsPast(deep, rest, start + 1, end);
    }
  }

  lemma {:induction false} BarsOneMore(rest: seq<Item>, start: nat, end: nat)
    requires start <= end
    ensures Bars(rest, start, end + 1) == Bars(rest, start, end) + if Continues(rest, end) then BAR else BLANK
    decreases end - start
  {
    var column := if Continues(rest, start) then BAR else BLANK;
    if start == end {
      assert Bars(rest, start + 1, end + 1) == "";
    } else {
      var middle, last := Bars(rest, start + 1, end), if Continues(rest, end) then BAR else BLANK;
      BarsOneMore(rest, start + 1, end);
      assert Bars(rest, start, end + 1) == column + (middle + last);
      assert column + (middle + last) == (column + middle) + last;
    }
  }

  lemma {:induction false} DirsOfConcat(a: seq<Item>, b: seq<Item>)
    ensures CountDirs(a + b) == CountDirs(a) + CountDirs(b)
    decreases |a|
  {
    if a == [] {
      assert a + b == b;
    } else {
      assert (a + b)[1..] == a[1..] + b;
      DirsOfConcat(a[1..], b);
    }
  }

  ghost predicate Closes(tail: seq<Item>, level: nat) { tail == [] || tail[0].level < level }

  /** What follows an entry in the preorder: what is below it, what is beside it, the rest. */
  lemma AfterFirst(nodes: seq<Node>, level: nat, tail: seq<Item>)
    requires nodes != [] && Closes(tail, level)
    ensures var beside := Items(nodes[1..], level) + tail; var below := ItemsBelow(nodes[0], level + 1);
      && Items(nodes, level) + tail == [Item(level, nodes[0].name, nodes[0].Dir?)] + (below + beside)
      && Closes(beside, level + 1)
      && Continues(beside, level) == (|nodes| > 1)
  {
    var first := Item(level, nodes[0].name, nodes[0].Dir?);
    var others := Items(nodes[1..], level);
    var below := ItemsBelow(nodes[0], level + 1);
    assert Items(nodes, level) == [first] + below + others;
    Regroup([first], below, others, tail);
    if |nodes| == 1 {
      assert others + tail == tail;
    } else {
      assert (others + tail)[0] == others[0];
    }
  }

  lemma ColumnsOfFirst(node: Node, more: seq<Node>, level: nat, tail: seq<Item>)
    ensures var beside := Items(more, level) + tail; var below := ItemsBelow(node, level + 1);
      && Continues(below + beside, level) == Continues(beside, level)
      && Bars(below + beside, 0, level) == Bars(tail, 0, level)
      && Bars(beside, 0, level + 1) == Bars(tail, 0, level) + if Continues(beside, level) then BAR else BLANK
  {
    var beside := Items(more, level) + tail;
    var below := ItemsBelow(node, level + 1);
    ContinuesPast(below, beside, level);
    BarsPast(below, beside, 0, level);
    BarsPast(Items(more, level), tail, 0, level);
    BarsOneMore(beside, 0, level);
  }

  /** The printer draws exactly the picture of the preorder. */
  lemma {:induction false} RenderIsDrawn(nodes: seq<Node>, level: nat, tail: seq<Item>)
    requires AllListed(nodes) && Closes(tail, level)
    ensures var r := Render(nodes, Bars(tail, 0, level));
      r.ok && r.lines + Drawn(tail) == Drawn(Items(nodes, level) + tail)
    decreases nodes
  {
    if nodes == [] {
      assert Items(nodes, level) + tail == tail;
    } else {
      var beside := Items(nodes[1..], level) + tail;
      AfterFirst(nodes, level, tail);
      ColumnsOfFirst(nodes[0], nodes[1..], level, tail);
      if nodes[0].Dir? {
        RenderIsDrawn(nodes[0].listing.nodes, level + 1, beside);
      } else {
        assert ItemsBelow(nodes[0], level + 1) + beside == beside;
      }
      RenderIsDrawn(nodes[1..], level, tail);
      JoinDrawings(nodes, level, tail, beside);
    }
  }

  lemma JoinDrawings(nodes: seq<Node>, level: nat, tail: seq<Item>, beside: seq<Item>)
    requires nodes != [] && AllListed(nodes) && Closes(tail, level) && beside == Items(nodes[1..], level) + tail
    requires var under := Render(Below(nodes[0]), Bars(beside, 0, level + 1));
      under.ok && under.lines + Drawn(beside) == Drawn(ItemsBelow(nodes[0], level + 1) + beside)
    requires var others := Render(nodes[1..], Bars(tail, 0, level));
      others.ok && others.lines + Drawn(tail) == Drawn(beside)
    ensures var r := Render(nodes, Bars(tail, 0, level));
      r.ok && r.lines + Drawn(tail) == Drawn(Items(nodes, level) + tail)
  {
    var prefix := Bars(tail, 0, level);
    var below := ItemsBelow(nodes[0], level + 1);
    var under := Render(Below(nodes[0]), Bars(beside, 0, level + 1));
    var line := DrawnLine(Item(level, nodes[0].name, nodes[0].Dir?), below + beside);
    AfterFirst(nodes, level, tail);
    ColumnsOfFirst(nodes[0], nodes[1..], level, tail);
    FirstIsDrawn(nodes, level, below, beside, prefix, under);
    Regroup([line], under.lines, Render(nodes[1..], prefix).lines, Drawn(tail));
  }

  /** The closing line counts the entries drawn. */
  lemma {:induction false} RenderCounts(nodes: seq<Node>, prefix: string, level: nat)
    requires AllListed(nodes)
    ensures var r := Render(nodes, prefix);
      r.ok && r.dirs == CountDirs(Items(nodes, level)) && r.dirs + r.files == |Items(nodes, level)| == |r.lines|
    decreases nodes
  {
    if nodes != [] {
      var first, below := Item(level, nodes[0].name, nodes[0].Dir?), ItemsBelow(nodes[0], level + 1);
      if nodes[0].Dir? {
        RenderCounts(nodes[0].listing.nodes, prefix + if |nodes| == 1 then BLANK else BAR, level + 1);
      }
      RenderCounts(nodes[1..], prefix, level);
      NodeIsDrawn(nodes[0], prefix, |nodes| == 1,
                  prefix + (if |nodes| == 1 then LAST_BRANCH else BRANCH) + Label(nodes[0]));
      DirsOfConcat([first] + below, Items(nodes[1..], level));
      DirsOfConcat([first], below);
    }
  }

  lemma FirstIsDrawn(nodes: seq<Node>, level: nat, below: seq<Item>, beside: seq<Item>, prefix: string, under: Output)
    requires nodes != [] && (nodes[0].Dir? ==> nodes[0].listing.Listed?)
    requires Continues(below + beside, level) == (|nodes| > 1) && Bars(below + beside, 0, level) == prefix
    requires under == Render(Below(nodes[0]), prefix + if |nodes| == 1 then BLANK else BAR) && under.ok
    requires Render(nodes[1..], prefix).ok
    ensures var first := Item(level, nodes[0].name, nodes[0].Dir?);
      var r := Render(nodes, prefix); var others := Render(nodes[1..], prefix);
      && r.ok && r.lines == [DrawnLine(first, below + beside)] + under.lines + others.lines
      && Drawn([first] + (below + beside)) == [DrawnLine(first, below + beside)] + Drawn(below + beside)
  {
    var first := Item(level, nodes[0].name, nodes[0].Dir?);
    assert ([first] + (below + beside))[1..] == below + beside;
    NodeIsDrawn(nodes[0], prefix, |nodes| == 1, DrawnLine(first, below + beside));
  }

  lemma Regroup<T>(a: seq<T>, b: seq<T>, c: seq<T>, d: seq<T>)
    ensures a + b + c + d == a + (b + (c + d))
  {
  }

  lemma NodeIsDrawn(node: Node, prefix: string, last: bool, line: string)
    requires node.Dir? ==> node.listing.Listed?
    requires line == prefix + (if last then LAST_BRANCH else BRANCH) + Label(node)
    ensures var r := RenderNode(node, prefix, last);
      var under := Render(Below(node), prefix + if last then BLANK else BAR);
      && r.ok == under.ok && (r.ok ==> r.lines == [line] + under.lines)
      && (r.ok ==> r.dirs == under.dirs + if node.Dir? then 1 else 0)
      && (r.ok ==> r.files == under.files + if node.Dir? then 0 else 1)
  {
    if node.File? { assert Render(Below(node), prefix + if last then BLANK else BAR) == NOTHING; }
  }

  // ---------------------------------------------------------------- reading the drawing

  function ReadLine(line: string, level: nat): Option<Item>
    decreases |line|
  {
    if |line| < 4 then None
    else if line[..4] == BAR || line[..4] == BLANK then ReadLine(line[4..], level + 1)
    else if line[..4] == BRANCH || line[..4] == LAST_BRANCH then Some(ReadLabel(line[4..], level))
    else None
  }

  function ReadLabel(text: string, level: nat): Item {
    if text != "" && text[|text| - 1] == '/' then Item(level, text[..|text| - 1], true) else Item(level, text, false)
  }

  function ReadLines(lines: seq<string>): Option<seq<Item>>
    decreases |lines|
  {
    if lines == [] then Some([])
    else
      var first, rest := ReadLine(lines[0], 0), ReadLines(lines[1..]);
      if first.None? || rest.None? then None else Some([first.value] + rest.value)
  }

  /** The entries from this level on, and what follows them at lower levels. */
  function Build(items: seq<Item>, level: nat): (r: (seq<Node>, seq<Item>))
    ensures |r.1| <= |items|
    decreases |items|
  {
    if items == [] || items[0].level < level then ([], items)
    else if items[0].isDir then
      var below := Build(items[1..], level + 1);
      var beside := Build(below.1, level);
      ([Dir(items[0].name, Listed(below.0))] + beside.0, beside.1)
    else
      var beside := Build(items[1..], level);
      ([File(items[0].name)] + beside.0, beside.1)
  }

  /** No file name looks like a directory. */
  predicate Readable(items: seq<Item>) { forall i :: 0 <= i < |items| ==> ReadableItem(items[i]) }

  predicate ReadableItem(item: Item) { item.isDir || item.name == "" || item.name[|item.name| - 1] != '/' }

  lemma ReadUnit(unit: string, bars: string, s: string, level: nat)
    requires unit == BAR || unit == BLANK
    ensures ReadLine(unit + bars + s, level) == ReadLine(bars + s, level + 1)
  {
    assert unit + bars + s == unit + (bars + s);
    assert (unit + (bars + s))[..4] == unit && (unit + (bars + s))[4..] == bars + s;
  }

  lemma {:induction false} ReadBars(rest: seq<Item>, start: nat, end: nat, s: string, level: nat)
    requires start <= end
    ensures ReadLine(Bars(rest, start, end) + s, level) == ReadLine(s, level + (end - start))
    decreases end - start
  {
    if start == end {
      assert Bars(rest, start, end) + s == s;
    } else {
      var unit, bars := if Continues(rest, start) then BAR else BLANK, Bars(rest, start + 1, end);
      ReadBars(rest, start + 1, end, s, level + 1);
      assert Bars(rest, start, end) == unit + bars;
      ReadUnit(unit, bars, s, level);
      assert level + 1 + (end - (start + 1)) == level + (end - start);
    }
  }

  lemma ReadBranch(branch: string, text: string, level: nat)
    requires branch == BRANCH || branch == LAST_BRANCH
    ensures ReadLine(branch + text, level) == Some(ReadLabel(text, level))
  {
    assert (branch + text)[..4] == branch && (branch + text)[4..] == text;
    assert branch[0] != BAR[0] && branch[0] != BLANK[0];
  }

  lemma ReadItemLabel(item: Item)
    requires ReadableItem(item)
    ensures ReadLabel(ItemLabel(item), item.level) == item
  {
    if item.isDir { assert ItemLabel(item)[..|item.name|] == item.name; }
  }

  lemma ReadDrawnLine(item: Item, rest: seq<Item>)
    requires ReadableItem(item)
    ensures ReadLine(DrawnLine(item, rest), 0) == Some(item)
  {
    var branch := if Continues(rest, item.level) then BRANCH else LAST_BRANCH;
    var s := branch + ItemLabel(item);
    assert DrawnLine(item, rest) == Bars(rest, 0, item.level) + s;
    ReadBars(rest, 0, item.level, s, 0);
    ReadBranch(branch, ItemLabel(item), item.level);
    ReadItemLabel(item);
  }

  lemma ReadMore(line: string, lines: seq<string>, item: Item, items: seq<Item>)
    requires ReadLine(line, 0) == Some(item) && ReadLines(lines) == Some(items)
    ensures ReadLines([line] + lines) == Some([item] + items)
  {
    assert ([line] + lines)[1..] == lines;
  }

  lemma {:induction false} ReadDrawn(items: seq<Item>)
    requires Readable(items)
    ensures ReadLines(Drawn(items)) == Some(items)
    decreases |items|
  {
    if items != [] {
      ReadDrawnLine(items[0], items[1..]);
      ReadDrawn(items[1..]);
      ReadMore(DrawnLine(items[0], items[1..]), Drawn(items[1..]), items[0], items[1..]);
      assert items == [items[0]] + items[1..];
    }
  }

  lemma BuildNothing(level: nat, tail: seq<Item>)
    requires Closes(tail, level)
    ensures Build(tail, level) == ([], tail)
  {
  }

  lemma BuildFirst(node: Node, level: nat, after: seq<Item>, beside: seq<Item>, others: seq<Node>, tail: seq<Item>)
    requires Build(beside, level) == (others, tail)
    requires if node.Dir? then node.listing.Listed? && Build(after, level + 1) == (node.listing.nodes, beside)
             else after == beside
    ensures Build([Item(level, node.name, node.Dir?)] + after, level) == ([node] + others, tail)
  {
    var items := [Item(level, node.name, node.Dir?)] + after;
    assert items[1..] == after && items[0] == Item(level, node.name, node.Dir?);
  }

  lemma {:induction false} BuildItems(nodes: seq<Node>, level: nat, tail: seq<Item>)
    requires AllListed(nodes) && Closes(tail, level)
    ensures Build(Items(nodes, level) + tail, level) == (nodes, tail)
    decreases nodes
  {
    if nodes == [] {
      assert Items(nodes, level) + tail == tail;
      BuildNothing(level, tail);
    } else {
      var beside := Items(nodes[1..], level) + tail;
      AfterFirst(nodes, level, tail);
      BuildItems(nodes[1..], level, tail);
      BuildBelow(nodes[0], level, beside);
      BuildFirst(nodes[0], level, ItemsBelow(nodes[0], level + 1) + beside, beside, nodes[1..], tail);
      assert nodes == [nodes[0]] + nodes[1..];
    }
  }

  lemma {:induction false} BuildBelow(node: Node, level: nat, beside: seq<Item>)
    requires node.Dir? ==> node.listing.Listed? && AllListed(node.listing.nodes)
    requires Closes(beside, level + 1)
    ensures var after := ItemsBelow(node, level + 1) + beside;
      if node.Dir? then Build(after, level + 1) == (node.listing.nodes, beside) else after == beside
    decreases node
  {
    if node.Dir? { BuildItems(node.listing.nodes, level + 1, beside); }
  }

  /** Reading the drawing gives back exactly the tree that was drawn. */
  lemma DrawingReadsBack(nodes: seq<Node>)
    requires AllListed(nodes) && Readable(Items(nodes, 0))
    ensures var items := ReadLines(Render(nodes, "").lines);
      items == Some(Items(nodes, 0)) && Build(items.value, 0).0 == nodes
  {
    RenderIsDrawn(nodes, 0, []);
    assert Items(nodes, 0) + [] == Items(nodes, 0);
    assert Render(nodes, "").lines + Drawn([]) == Render(nodes, "").lines;
    ReadDrawn(Items(nodes, 0));
    BuildItems(nodes, 0, []);
  }

  /** The printed text, a line end after every line, reads back too as long as no name holds one. */
  lemma TextReadsBack(nodes: seq<Node>)
    requires AllListed(nodes) && Readable(Items(nodes, 0))
    requires var lines := Render(nodes, "").lines; forall i :: 0 <= i < |lines| ==> '\n' !in lines[i]
    ensures var printed := Split(Join(Render(nodes, "").lines + [""], '\n'), '\n');
      var items := ReadLines(printed[..|printed| - 1]);
      items.Some? && Build(items.value, 0).0 == nodes
  {
    DrawingReadsBack(nodes);
    LinesOfText(Render(nodes, "").lines);
  }

  lemma LinesOfText(lines: seq<string>)
    requires forall i :: 0 <= i < |lines| ==> '\n' !in lines[i]
    ensures var printed := Split(Join(lines + [""], '\n'), '\n'); printed[..|printed| - 1] == lines
  {
    SplitOfJoin(lines + [""], '\n');
    assert (lines + [""])[..|lines|] == lines;
  }

  /** A drawing that was not cut short is of a tree whose listings all succeeded. */
  lemma {:induction false} CompleteIsListed(nodes: seq<Node>, prefix: string)
    requires Render(nodes, prefix).ok
    ensures AllListed(nodes)
    decreases nodes
  {
    if nodes != [] {
      var node, last := nodes[0], |nodes| == 1;
      assert RenderNode(node, prefix, last).ok && Render(nodes[1..], prefix).ok;
      if node.Dir? {
        assert RenderListing(node.listing, prefix + if last then BLANK else BAR).ok;
        CompleteIsListed(node.listing.nodes, prefix + if last then BLANK else BAR);
      }
      CompleteIsListed(nodes[1..], prefix);
    }
  }

  /** From the listing to the lines and back: whatever a walk that ends without an error has printed
      reads back as the visible tree, and the counts are those of its entries. */
  lemma PrintedReadsBack(lower: string -> string, listing: Listing, depth: int, dirsOnly: bool)
    requires RenderListing(Visible(lower, listing, depth, dirsOnly), "").ok
    requires listing.Listed? && Readable(Items(Visible(lower, listing, depth, dirsOnly).nodes, 0))
    ensures var r := RenderListing(Visible(lower, listing, depth, dirsOnly), "");
      var visible := Visible(lower, listing, depth, dirsOnly).nodes; var items := ReadLines(r.lines);
      && items == Some(Items(visible, 0)) && Build(items.value, 0).0 == visible
      && r.dirs == CountDirs(items.value) && r.dirs + r.files == |items.value|
  {
    var visible := Visible(lower, listing, depth, dirsOnly).nodes;
    CompleteIsListed(visible, "");
    DrawingReadsBack(visible);
    RenderCounts(visible, "", 0);
  }

  // ---------------------------------------------------------------- depth and directories only

  function Limit(level: nat, depth: int): int { if depth > 0 then level + depth else 0 }

  predicate Keep(item: Item, limit: int, dirsOnly: bool) {
    (limit <= 0 || item.level < limit) && (dirsOnly ==> item.isDir)
  }

  function Kept(items: seq<Item>, limit: int, dirsOnly: bool): seq<Item>
    decreases |items|
  {
    if items == [] then []
    else (if Keep(items[0], limit, dirsOnly) then [items[0]] else []) + Kept(items[1..], limit, dirsOnly)
  }

  lemma KeptOfFirst(item: Item, rest: seq<Item>, limit: int, dirsOnly: bool)
    ensures Kept([item] + rest, limit, dirsOnly)
         == (if Keep(item, limit, dirsOnly) then [item] else []) + Kept(rest, limit, dirsOnly)
  {
    assert ([item] + rest)[1..] == rest;
  }

  lemma {:induction false} KeptOfConcat(a: seq<Item>, b: seq<Item>, limit: int, dirsOnly: bool)
    ensures Kept(a + b, limit, dirsOnly) == Kept(a, limit, dirsOnly) + Kept(b, limit, dirsOnly)
    decreases |a|
  {
    if a == [] {
      assert a + b == b;
    } else {
      var rest := a[1..];
      assert a == [a[0]] + rest && a + b == [a[0]] + (rest + b);
      KeptOfConcat(rest, b, limit, dirsOnly);
      KeptOfFirst(a[0], rest, limit, dirsOnly);
      KeptOfFirst(a[0], rest + b, limit, dirsOnly);
    }
  }

  lemma {:induction false} KeptOfDeep(items: seq<Item>, limit: int, dirsOnly: bool)
    requires limit > 0 && forall i :: 0 <= i < |items| ==> items[i].level >= limit
    ensures Kept(items, limit, dirsOnly) == []
    decreases |items|
  {
    if items != [] { KeptOfDeep(items[1..], limit, dirsOnly); }
  }

  lemma {:induction false} ItemsOfConcat(a: seq<Node>, b: seq<Node>, level: nat)
    ensures Items(a + b, level) == Items(a, level) + Items(b, level)
    decreases |a|
  {
    if a == [] {
      assert a + b == b;
    } else {
      assert (a + b)[1..] == a[1..] + b;
      ItemsOfConcat(a[1..], b, level);
      var first := [Item(level, a[0].name, a[0].Dir?)];
      Regroup(first, ItemsBelow(a[0], level + 1), Items(a[1..], level), Items(b, level));
      Regroup(first, ItemsBelow(a[0], level + 1), Items(a[1..] + b, level), []);
    }
  }

  function Images(lower: string -> string, nodes: seq<Node>, depth: int, dirsOnly: bool): seq<Node> {
    seq(|nodes|, i requires 0 <= i < |nodes| => VisibleNode(lower, nodes[i], depth, dirsOnly))
  }

  /** What the options show below a directory is what they keep of everything below it. */
  lemma {:induction false} OptionsBelow(lower: string -> string, node: Node, level: nat, depth: int, dirsOnly: bool)
    ensures ItemsBelow(VisibleNode(lower, node, depth, dirsOnly), level + 1)
      == Kept(ItemsBelow(VisibleNode(lower, node, 0, false), level + 1), Limit(level, depth), dirsOnly)
    decreases node, 0
  {
    if node.Dir? && node.listing.Listed? && depth != 1 {
      OptionsKeep(lower, node.listing, level + 1, Deeper(depth), dirsOnly);
      OptionsPassDown(lower, node, level, depth, dirsOnly);
    } else {
      NothingBelow(lower, node, level, depth, dirsOnly);
    }
  }

  lemma NothingBelow(lower: string -> string, node: Node, level: nat, depth: int, dirsOnly: bool)
    requires node.File? || node.listing.Failed? || depth == 1
    ensures ItemsBelow(VisibleNode(lower, node, depth, dirsOnly), level + 1)
      == Kept(ItemsBelow(VisibleNode(lower, node, 0, false), level + 1), Limit(level, depth), dirsOnly)
  {
    ShownBelow(lower, node, level + 1, depth, dirsOnly);
    ShownBelow(lower, node, level + 1, 0, false);
    if depth == 1 {
      KeptOfDeep(ItemsBelow(VisibleNode(lower, node, 0, false), level + 1), level + 1, dirsOnly);
    }
  }

  lemma OptionsPassDown(lower: string -> string, node: Node, level: nat, depth: int, dirsOnly: bool)
    requires node.Dir? && node.listing.Listed? && depth != 1
    requires Items(Visible(lower, node.listing, Deeper(depth), dirsOnly).nodes, level + 1)
      == Kept(Items(Visible(lower, node.listing, 0, false).nodes, level + 1), Limit(level + 1, Deeper(depth)), dirsOnly)
    ensures ItemsBelow(VisibleNode(lower, node, depth, dirsOnly), level + 1)
      == Kept(ItemsBelow(VisibleNode(lower, node, 0, false), level + 1), Limit(level, depth), dirsOnly)
  {
    ShownBelow(lower, node, level + 1, depth, dirsOnly);
    ShownBelow(lower, node, level + 1, 0, false);
    LimitDeeper(level, depth);
  }

  lemma LimitDeeper(level: nat, depth: int)
    requires depth != 1
    ensures Limit(level + 1, Deeper(depth)) == Limit(level, depth)
  {
  }

  lemma ShownBelow(lower: string -> string, node: Node, level: nat, depth: int, dirsOnly: bool)
    ensures ItemsBelow(VisibleNode(lower, node, depth, dirsOnly), level) ==
            if node.File? || node.listing.Failed? || depth == 1 then []
            else Items(Visible(lower, node.listing, Deeper(depth), dirsOnly).nodes, level)
  {
  }

  lemma {:induction false} OptionsKeepAmong(lower: string -> string, listing: Listing, s: seq<Node>, level: nat,
                                            depth: int, dirsOnly: bool)
    requires listing.Listed? && forall x :: x in s ==> x in listing.nodes
    ensures Items(Images(lower, Shown(s, dirsOnly), depth, dirsOnly), level)
      == Kept(Items(Images(lower, s, 0, false), level), Limit(level, depth), dirsOnly)
    decreases listing, |s|
  {
    if s != [] {
      var n := |s| - 1;
      var x := s[n];
      assert x in listing.nodes;
      OptionsKeepAmong(lower, listing, s[..n], level, depth, dirsOnly);
      OptionsBelow(lower, x, level, depth, dirsOnly);
      assert s == s[..n] + [x];
      OneOptionMore(lower, s, s[..n], x, level, depth, dirsOnly);
    }
  }

  /** What is kept of an entry and of what is below it. */
  lemma KeptMore(lower: string -> string, s: seq<Node>, front: seq<Node>, x: Node, level: nat, limit: int,
                 dirsOnly: bool)
    requires s == front + [x]
    ensures var item := Item(level, x.name, x.Dir?);
      Kept(Items(Images(lower, s, 0, false), level), limit, dirsOnly) ==
      Kept(Items(Images(lower, front, 0, false), level), limit, dirsOnly) +
      ((if Keep(item, limit, dirsOnly) then [item] else []) +
       Kept(ItemsBelow(VisibleNode(lower, x, 0, false), level + 1), limit, dirsOnly))
  {
    assert s[..|s| - 1] == front && s[|s| - 1] == x;
    LastImage(lower, s, 0, false, level);
    var below := ItemsBelow(VisibleNode(lower, x, 0, false), level + 1);
    KeptOfConcat(Items(Images(lower, front, 0, false), level), [Item(level, x.name, x.Dir?)] + below, limit, dirsOnly);
    KeptOfFirst(Item(level, x.name, x.Dir?), below, limit, dirsOnly);
  }

  lemma ShownMore(lower: string -> string, s: seq<Node>, front: seq<Node>, x: Node, level: nat, depth: int,
                  dirsOnly: bool)
    requires s == front + [x]
    ensures Items(Images(lower, Shown(s, dirsOnly), depth, dirsOnly), level) ==
            Items(Images(lower, Shown(front, dirsOnly), depth, dirsOnly), level) +
            if dirsOnly && x.File? then []
            else [Item(level, x.name, x.Dir?)] + ItemsBelow(VisibleNode(lower, x, depth, dirsOnly), level + 1)
  {
    assert s[..|s| - 1] == front && s[|s| - 1] == x;
    var shown := Shown(front, dirsOnly) + [x];
    if dirsOnly && x.File? {
      assert Shown(s, dirsOnly) == Shown(front, dirsOnly);
    } else {
      assert Shown(s, dirsOnly) == shown;
      assert shown[..|shown| - 1] == Shown(front, dirsOnly);
      LastImage(lower, shown, depth, dirsOnly, level);
    }
  }

  lemma OneOptionMore(lower: string -> string, s: seq<Node>, front: seq<Node>, x: Node, level: nat, depth: int,
                      dirsOnly: bool)
    requires s == front + [x]
    requires Items(Images(lower, Shown(front, dirsOnly), depth, dirsOnly), level)
      == Kept(Items(Images(lower, front, 0, false), level), Limit(level, depth), dirsOnly)
    requires ItemsBelow(VisibleNode(lower, x, depth, dirsOnly), level + 1)
      == Kept(ItemsBelow(VisibleNode(lower, x, 0, false), level + 1), Limit(level, depth), dirsOnly)
    ensures Items(Images(lower, Shown(s, dirsOnly), depth, dirsOnly), level)
      == Kept(Items(Images(lower, s, 0, false), level), Limit(level, depth), dirsOnly)
  {
    KeptMore(lower, s, front, x, level, Limit(level, depth), dirsOnly);
    ShownMore(lower, s, front, x, level, depth, dirsOnly);
  }

  lemma LastImage(lower: string -> string, s: seq<Node>, depth: int, dirsOnly: bool, level: nat)
    requires s != []
    ensures var n := |s| - 1;
      Items(Images(lower, s, depth, dirsOnly), level) ==
      Items(Images(lower, s[..n], depth, dirsOnly), level) +
      ([Item(level, s[n].name, s[n].Dir?)] + ItemsBelow(VisibleNode(lower, s[n], depth, dirsOnly), level + 1))
  {
    var n := |s| - 1;
    var last := VisibleNode(lower, s[n], depth, dirsOnly);
    assert Images(lower, s, depth, dirsOnly) == Images(lower, s[..n], depth, dirsOnly) + [last];
    ItemsOfConcat(Images(lower, s[..n], depth, dirsOnly), [last], level);
    assert [last][1..] == [] && Items([], level) == [];
  }

  /** With a depth limit or directories only, exactly the entries of the full tree that lie within
      the limit, and are directories, are drawn, in the same order. */
  lemma {:induction false} OptionsKeep(lower: string -> string, listing: Listing, level: nat, depth: int,
                                       dirsOnly: bool)
    requires listing.Listed?
    ensures Items(Visible(lower, listing, depth, dirsOnly).nodes, level)
      == Kept(Items(Visible(lower, listing, 0, false).nodes, level), Limit(level, depth), dirsOnly)
    decreases listing, |listing.nodes| + 1
  {
    SortedIsPermutation(Less(lower), listing.nodes);
    var s := Sorted(Less(lower), listing.nodes);
    OptionsKeepAmong(lower, listing, s, level, depth, dirsOnly);
    AllShown(s);
    assert Visible(lower, listing, 0, false).nodes == Images(lower, s, 0, false);
    assert Visible(lower, listing, depth, dirsOnly).nodes == Images(lower, Shown(s, dirsOnly), depth, dirsOnly);
  }

  // ---------------------------------------------------------------- nothing is left out

  /** An entry of the listed directories, by its path. */
  datatype Entry = Entry(path: seq<string>, isDir: bool)

  function EntryOf(node: Node, at: seq<string>): Entry { Entry(at + [node.name], node.Dir?) }

  /** Everything in the listed directories, whatever its order. */
  function Entries(nodes: seq<Node>, at: seq<string>): multiset<Entry>
    decreases nodes
  {
    if nodes == [] then multiset{}
    else EntriesOf(nodes[0], at) + Entries(nodes[1..], at)
  }

  function EntriesOf(node: Node, at: seq<string>): multiset<Entry>
    decreases node
  {
    multiset{EntryOf(node, at)} +
    if node.Dir? && node.listing.Listed? then Entries(node.listing.nodes, at + [node.name]) else multiset{}
  }

  lemma {:induction false} EntriesOfConcat(a: seq<Node>, b: seq<Node>, at: seq<string>)
    ensures Entries(a + b, at) == Entries(a, at) + Entries(b, at)
    decreases |a|
  {
    if a == [] {
      assert a + b == b;
    } else {
      assert (a + b)[1..] == a[1..] + b;
      EntriesOfConcat(a[1..], b, at);
    }
  }

  lemma EntriesOfSnoc(a: seq<Node>, x: Node, at: seq<string>)
    ensures Entries(a + [x], at) == Entries(a, at) + EntriesOf(x, at)
  {
    EntriesOfConcat(a, [x], at);
    assert Entries([x][1..], at) == multiset{};
  }

  lemma Cancel<T>(rest: multiset<T>, front: multiset<T>, back: multiset<T>, x: T)
    requires rest + multiset{x} == front + multiset{x} + back
    ensures rest == front + back
  {
    forall y ensures rest[y] == (front + back)[y] {
      assert (rest + multiset{x})[y] == (front + multiset{x} + back)[y];
    }
  }

  lemma SplitAt(b: seq<Node>, j: nat)
    requires j < |b|
    ensures b == b[..j] + [b[j]] + b[j + 1..]
    ensures multiset(b) == multiset(b[..j]) + multiset{b[j]} + multiset(b[j + 1..])
  {
    var s := b[..j] + [b[j]];
    assert b == s + b[j + 1..];
    assert multiset(s) == multiset(b[..j]) + multiset{b[j]};
  }

  lemma TakeOut(a: seq<Node>, b: seq<Node>) returns (front: seq<Node>, back: seq<Node>)
    requires a != [] && multiset(a) == multiset(b)
    ensures b == front + [a[|a| - 1]] + back && multiset(a[..|a| - 1]) == multiset(front + back)
  {
    var n := |a| - 1;
    assert a[n] in multiset(a);
    var j :| 0 <= j < |b| && b[j] == a[n];
    front, back := b[..j], b[j + 1..];
    SplitAt(a, n);
    SplitAt(b, j);
    assert a[n + 1..] == [];
    Cancel(multiset(a[..n]), multiset(front), multiset(back), a[n]);
  }

  lemma EntriesWithin(front: seq<Node>, x: Node, back: seq<Node>, at: seq<string>)
    ensures Entries(front + [x] + back, at) == Entries(front + back, at) + EntriesOf(x, at)
  {
    EntriesOfSnoc(front, x, at);
    EntriesOfConcat(front + [x], back, at);
    EntriesOfConcat(front, back, at);
  }

  lemma {:induction false} EntriesOfPermutation(a: seq<Node>, b: seq<Node>, at: seq<string>)
    requires multiset(a) == multiset(b)
    ensures Entries(a, at) == Entries(b, at)
    decreases |a|
  {
    if a == [] {
      assert |multiset(b)| == 0 && b == [];
    } else {
      var n := |a| - 1;
      var front, back := TakeOut(a, b);
      EntriesOfPermutation(a[..n], front + back, at);
      EntriesWithin(front, a[n], back, at);
      EntriesOfSnoc(a[..n], a[n], at);
      assert a == a[..n] + [a[n]];
    }
  }

  /** Without options everything listed is shown, and nothing else. */
  lemma {:induction false} VisibleIsWhole(lower: string -> string, listing: Listing, at: seq<string>)
    requires listing.Listed?
    ensures Entries(Visible(lower, listing, 0, false).nodes, at) == Entries(listing.nodes, at)
    decreases listing, |listing.nodes| + 1
  {
    var s := Sorted(Less(lower), listing.nodes);
    SortedIsPermutation(Less(lower), listing.nodes);
    AllShown(s);
    assert Visible(lower, listing, 0, false).nodes == Images(lower, s, 0, false);
    ImagesAreWhole(lower, listing, s, at);
    EntriesOfPermutation(s, listing.nodes, at);
  }

  lemma LastImageEntries(lower: string -> string, s: seq<Node>, at: seq<string>)
    requires s != []
    ensures var n := |s| - 1;
      Entries(Images(lower, s, 0, false), at) ==
      Entries(Images(lower, s[..n], 0, false), at) + EntriesOf(VisibleNode(lower, s[n], 0, false), at)
  {
    var n := |s| - 1;
    var image := VisibleNode(lower, s[n], 0, false);
    assert Images(lower, s, 0, false) == Images(lower, s[..n], 0, false) + [image];
    EntriesOfSnoc(Images(lower, s[..n], 0, false), image, at);
  }

  /** Showing these entries without options leaves nothing out. */
  predicate ShowsAll(lower: string -> string, s: seq<Node>, at: seq<string>) {
    Entries(Images(lower, s, 0, false), at) == Entries(s, at)
  }

  predicate ShowsAllOf(lower: string -> string, x: Node, at: seq<string>) {
    EntriesOf(VisibleNode(lower, x, 0, false), at) == EntriesOf(x, at)
  }

  lemma OneImageMore(lower: string -> string, s: seq<Node>, front: seq<Node>, x: Node, at: seq<string>)
    requires s == front + [x] && ShowsAll(lower, front, at) && ShowsAllOf(lower, x, at)
    ensures ShowsAll(lower, s, at)
  {
    assert s[..|s| - 1] == front && s[|s| - 1] == x;
    LastImageEntries(lower, s, at);
    EntriesOfSnoc(front, x, at);
  }

  lemma {:induction false} ImagesAreWhole(lower: string -> string, listing: Listing, s: seq<Node>, at: seq<string>)
    requires listing.Listed? && forall x :: x in s ==> x in listing.nodes
    ensures ShowsAll(lower, s, at)
    decreases listing, |s|
  {
    if s != [] {
      var front, x := s[..|s| - 1], s[|s| - 1];
      assert x in listing.nodes;
      ImagesAreWhole(lower, listing, front, at);
      ImageIsWhole(lower, x, at);
      OneImageMore(lower, s, front, x, at);
    }
  }

  lemma {:induction false} ImageIsWhole(lower: string -> string, x: Node, at: seq<string>)
    ensures ShowsAllOf(lower, x, at)
    decreases x, 0
  {
    if x.Dir? && x.listing.Listed? { VisibleIsWhole(lower, x.listing, at + [x.name]); }
  }
}
