/**
The working directory that `cd` changes: a volume and a path text, kept in memory and in a cache
file. The path text stands for a stack of components, and the reference below moves on such stacks.
*/
module WorkingDir {
  import opened Wrappers
  import opened Text
  import opened VolumeUri

  // ---------------------------------------------------------------- component stacks

  predicate GoodPart(c: string) { c != "" && c != "." && c != ".." && '/' !in c }

  predicate EndsInDots(c: string) { |c| >= 2 && c[|c| - 2..] == ".." }

  /** The stacks whose text the program accepts: no first component that starts with two dots, and
      only the last may end in two dots. */
  predicate Admissible(stack: seq<string>) {
    && (forall i :: 0 <= i < |stack| ==> GoodPart(stack[i]))
    && (stack != [] ==> !(".." <= stack[0]))
    && (forall i :: 0 <= i < |stack| - 1 ==> !EndsInDots(stack[i]))
  }

  function Show(stack: seq<string>): string { if stack == [] then "" else Join(stack, '/') }

  /** Follows components from a place; two dots at the root lead nowhere. */
  function Walk(stack: seq<string>, parts: seq<string>): Option<seq<string>>
    decreases |parts|
  {
    if parts == [] then Some(stack)
    else if parts[0] == "" || parts[0] == "." then Walk(stack, parts[1..])
    else if parts[0] == ".." then if stack == [] then None else Walk(stack[..|stack| - 1], parts[1..])
    else Walk(stack + [parts[0]], parts[1..])
  }

  datatype Place = Place(volume: string, stack: seq<string>)

  /** A path of its own moves up one level, which does nothing at the root; any other path is
      followed, and refused if it leads above the root or to a text that is not accepted. */
  function Move(from: Place, path: string): Option<Place> {
    if path == ".." then Some(from.(stack := if from.stack == [] then [] else from.stack[..|from.stack| - 1]))
    else
      var to := Walk(from.stack, Split(path, '/'));
      if to.Some? && Admissible(to.value) then Some(from.(stack := to.value)) else None
  }

  /** Where a move starts: at the root of an addressed volume, at the root of the local volume, or here. */
  function Start(here: Place, arg: string): (Place, string) {
    var address := SplitVolumeURI(arg);
    if address.Some? then (Place(address.value.volume, []), address.value.path[1..])
    else if "/" <= arg then (Place("", []), arg[1..])
    else (here, arg)
  }

  function Target(here: Place, arg: string): Option<Place> {
    var start := Start(here, arg);
    Move(start.0, start.1)
  }

  // ---------------------------------------------------------------- cleaning a path

  /** The component loop of POSIX path cleaning. */
  function Squash(rooted: bool, out: seq<string>, parts: seq<string>): seq<string>
    decreases |parts|
  {
    if parts == [] then out
    else if parts[0] == "" || parts[0] == "." then Squash(rooted, out, parts[1..])
    else if parts[0] == ".." then
      if out != [] && out[|out| - 1] != ".." then Squash(rooted, out[..|out| - 1], parts[1..])
      else if rooted then Squash(rooted, out, parts[1..])
      else Squash(rooted, out + [".."], parts[1..])
    else Squash(rooted, out + [parts[0]], parts[1..])
  }

  function Clean(path: string): string {
    if path == "" then "."
    else
      var body := Show(Squash(path[0] == '/', [], Split(path, '/')));
      if path[0] == '/' then "/" + body else if body == "" then "." else body
  }

  /** Follows components from the root down; two dots at the root stay there. */
  function WalkFromRoot(stack: seq<string>, parts: seq<string>): seq<string>
    decreases |parts|
  {
    if parts == [] then stack
    else
      var to := Walk(stack, [parts[0]]);
      WalkFromRoot(if to.Some? then to.value else stack, parts[1..])
  }

  lemma {:induction false} SquashRooted(out: seq<string>, parts: seq<string>)
    requires forall i :: 0 <= i < |out| ==> out[i] != ".."
    ensures Squash(true, out, parts) == WalkFromRoot(out, parts)
    decreases |parts|
  {
    if parts != [] {
      var first := [parts[0]];
      assert first[1..] == [];
      assert Walk(out, first) ==
        if parts[0] == "" || parts[0] == "." then Some(out)
        else if parts[0] == ".." then if out == [] then None else Some(out[..|out| - 1])
        else Some(out + [parts[0]]);
      var to := Walk(out, first);
      SquashRooted(if to.Some? then to.value else out, parts[1..]);
    }
  }

  /** Cleaning a path with a leading slash is following its components from the root. */
  lemma CleanRooted(path: string)
    requires "/" <= path
    ensures Clean(path) == "/" + Show(WalkFromRoot([], Split(path, '/')))
  {
    SquashRooted([], Split(path, '/'));
  }

  /** The textual test that refuses a cleaned path. */
  predicate Refused(cleaned: string) { ".." <= cleaned || Contains(cleaned, "../") }

  lemma {:induction false} SquashConcat(out: seq<string>, a: seq<string>, b: seq<string>)
    ensures Squash(false, out, a + b) == Squash(false, Squash(false, out, a), b)
    decreases |a|
  {
    if a == [] {
      assert a + b == b;
    } else {
      assert (a + b)[1..] == a[1..] + b;
      SquashConcat(NextOut(out, a[0]), a[1..], b);
    }
  }

  /** One component of the loop, for a path that is not rooted. */
  function NextOut(out: seq<string>, c: string): seq<string> {
    if c == "" || c == "." then out
    else if c == ".." then if out != [] && out[|out| - 1] != ".." then out[..|out| - 1] else out + [".."]
    else out + [c]
  }

  lemma {:induction false} SquashGood(out: seq<string>, stack: seq<string>)
    requires forall i :: 0 <= i < |stack| ==> GoodPart(stack[i])
    ensures Squash(false, out, stack) == out + stack
    decreases |stack|
  {
    if stack != [] {
      SquashGood(out + [stack[0]], stack[1..]);
      assert out + stack == out + [stack[0]] + stack[1..];
    } else {
      assert out + stack == out;
    }
  }

  lemma {:induction false} SquashStuck(out: seq<string>, parts: seq<string>)
    requires out != [] && out[0] == ".."
    ensures Squash(false, out, parts) != [] && Squash(false, out, parts)[0] == ".."
    decreases |parts|
  {
    if parts != [] {
      SquashStuck(NextOut(out, parts[0]), parts[1..]);
    }
  }

  /** Cleaning follows the components; a path that leads above its start comes out with two dots in front. */
  lemma {:induction false} SquashIsWalk(stack: seq<string>, parts: seq<string>)
    requires forall i :: 0 <= i < |stack| ==> GoodPart(stack[i])
    requires forall i :: 0 <= i < |parts| ==> '/' !in parts[i]
    ensures var r := Squash(false, stack, parts);
      if Walk(stack, parts).Some? then
        r == Walk(stack, parts).value && forall i :: 0 <= i < |r| ==> GoodPart(r[i])
      else r != [] && r[0] == ".."
    decreases |parts|
  {
    if parts != [] {
      if parts[0] == ".." && stack == [] {
        assert [] + [".."] == [".."];
        SquashStuck([".."], parts[1..]);
      } else {
        SquashIsWalk(NextOut(stack, parts[0]), parts[1..]);
      }
    }
  }

  lemma {:induction false} SplitOfConcat(a: string, b: string)
    ensures Split(a + "/" + b, '/') == Split(a, '/') + Split(b, '/')
    decreases |a|
  {
    var n := Find(a, '/');
    var s := a + "/" + b;
    if n == |a| {
      FindAfter(a, '/', b);
      assert s[..n] == a && s[n + 1..] == b && a[..n] == a;
    } else {
      assert s == a[..n] + "/" + (a[n + 1..] + "/" + b);
      FindAfter(a[..n], '/', a[n + 1..] + "/" + b);
      assert s[..n] == a[..n] && s[n + 1..] == a[n + 1..] + "/" + b;
      SplitOfConcat(a[n + 1..], b);
    }
  }

  // ---------------------------------------------------------------- the textual test

  lemma ShowStarts(stack: seq<string>)
    requires stack != [] && forall i :: 0 <= i < |stack| ==> GoodPart(stack[i])
    ensures GoodPart(stack[0]) && Show(stack) != "" && Show(stack)[0] == stack[0][0] && Show(stack)[0] != '/'
    ensures stack[0] <= Show(stack)
    ensures ".." <= Show(stack) <==> ".." <= stack[0]
  {
    assert stack[0][0] in stack[0];
    if |stack| > 1 { assert Show(stack) == stack[0] + ("/" + Show(stack[1..])); }
  }

  lemma {:induction false} DotsInside(stack: seq<string>)
    requires stack != [] && forall i :: 0 <= i < |stack| ==> GoodPart(stack[i])
    ensures Contains(Show(stack), "../") <==> exists i :: 0 <= i < |stack| - 1 && EndsInDots(stack[i])
    decreases |stack|
  {
    var c := stack[0];
    if |stack| == 1 {
      forall i ensures !PartAt(c, "../", i) {
        if 0 <= i <= |c| - 3 { assert c[i..i + 3][2] == c[i + 2] && c[i + 2] in c; }
      }
    } else {
      var rest := stack[1..];
      DotsInside(rest);
      DotsAcross(c, Show(rest));
      assert Show(stack) == c + "/" + Show(rest);
      if i :| 0 <= i < |stack| - 1 && EndsInDots(stack[i]) {
        if i > 0 { assert EndsInDots(rest[i - 1]); }
      }
      if i :| 0 <= i < |rest| - 1 && EndsInDots(rest[i]) { assert EndsInDots(stack[i + 1]); }
    }
  }

  lemma DotsAcross(c: string, rest: string)
    requires '/' !in c
    ensures Contains(c + "/" + rest, "../") <==> EndsInDots(c) || Contains(rest, "../")
  {
    var s := c + "/" + rest;
    if EndsInDots(c) {
      assert s[|c| - 2..|c| + 1] == "../";
      assert PartAt(s, "../", |c| - 2);
    }
    if Contains(rest, "../") {
      var i :| 0 <= i <= |rest| && PartAt(rest, "../", i);
      assert s[|c| + 1 + i..|c| + 1 + i + 3] == rest[i..i + 3];
      assert PartAt(s, "../", |c| + 1 + i);
    }
    if Contains(s, "../") {
      var i :| 0 <= i <= |s| && PartAt(s, "../", i);
      DotsWhere(c, rest, i);
    }
  }

  lemma DotsWhere(c: string, rest: string, i: nat)
    requires '/' !in c && PartAt(c + "/" + rest, "../", i)
    ensures EndsInDots(c) || Contains(rest, "../")
  {
    var s := c + "/" + rest;
    assert s[i] == s[i..i + 3][0] == '.' && s[i + 1] == s[i..i + 3][1] == '.' && s[i + 2] == s[i..i + 3][2] == '/';
    assert s[|c|] == '/';
    assert forall k :: 0 <= k < |c| ==> s[k] == c[k] && c[k] in c;
    if i + 2 == |c| {
      assert c[i..] == "..";
    } else if i + 2 > |c| {
      var k := i - |c| - 1;
      assert rest[k..k + 3] == s[i..i + 3];
      assert PartAt(rest, "../", k);
    }
  }

  /** The textual test refuses exactly the stacks that are not admissible. */
  lemma RefusedIff(stack: seq<string>)
    requires forall i :: 0 <= i < |stack| ==> GoodPart(stack[i])
    ensures Refused(Show(stack)) <==> !Admissible(stack)
  {
    if stack != [] {
      ShowStarts(stack);
      DotsInside(stack);
    }
  }

  function NewDir(stack: seq<string>, path: string): string {
    if stack == [] then path else Show(stack) + "/" + path
  }

  lemma SquashOfNewDir(stack: seq<string>, path: string)
    requires forall i :: 0 <= i < |stack| ==> GoodPart(stack[i])
    ensures Squash(false, [], Split(NewDir(stack, path), '/')) == Squash(false, stack, Split(path, '/'))
    ensures stack != [] ==> NewDir(stack, path) != "" && NewDir(stack, path)[0] != '/'
  {
    if stack != [] {
      ShowStarts(stack);
      SplitOfJoin(stack, '/');
      SplitOfConcat(Show(stack), path);
      SquashConcat([], stack, Split(path, '/'));
      SquashGood([], stack);
      assert [] + stack == stack;
    }
  }

  lemma CleanOfRelative(path: string)
    requires !("/" <= path)
    ensures var body := Show(Squash(false, [], Split(path, '/'))); Clean(path) == if body == "" then "." else body
  {
    if path == "" {
      assert Split(path, '/') == [""];
      assert [""][1..] == [];
    }
  }

  /** Cleaning the joined path text is following its components. */
  lemma CleanIsWalk(stack: seq<string>, path: string)
    requires Admissible(stack) && !("/" <= path)
    ensures var to := Walk(stack, Split(path, '/')); var cleaned := Clean(NewDir(stack, path));
      && (to.None? ==> Refused(cleaned))
      && (to.Some? ==> cleaned == (if to.value == [] then "." else Show(to.value)) &&
                       forall i :: 0 <= i < |to.value| ==> GoodPart(to.value[i]))
  {
    JoinOfSplit(path, '/');
    SquashIsWalk(stack, Split(path, '/'));
    var r := Squash(false, stack, Split(path, '/'));
    SquashOfNewDir(stack, path);
    CleanOfRelative(NewDir(stack, path));
    ShowOfWalked(r);
  }

  lemma ShowOfWalked(r: seq<string>)
    ensures r != [] && r[0] == ".." ==> Show(r) != "" && ".." <= Show(r)
    ensures (forall i :: 0 <= i < |r| ==> GoodPart(r[i])) && r != [] ==> Show(r) != ""
  {
    if |r| > 1 { assert Show(r) == r[0] + ("/" + Join(r[1..], '/')); }
  }

  // ---------------------------------------------------------------- runs of places

  /** Where a command leaves: a refused one stays at its start. */
  function After(here: Place, arg: string): Place {
    var to := Target(here, arg);
    if to.Some? then to.value else Start(here, arg).0
  }

  function AfterAll(here: Place, args: seq<string>): Place
    decreases |args|
  {
    if args == [] then here else AfterAll(After(here, args[0]), args[1..])
  }

  /** Which of the commands are accepted. */
  function AllAccepted(here: Place, args: seq<string>): seq<bool>
    decreases |args|
  {
    if args == [] then [] else [Target(here, args[0]).Some?] + AllAccepted(After(here, args[0]), args[1..])
  }

  lemma OneCommand(here: Place, args: seq<string>, i: nat, oks: seq<bool>)
    requires i < |args|
    ensures var next := After(here, args[i]);
      && AfterAll(here, args[i..]) == AfterAll(next, args[i + 1..])
      && oks + AllAccepted(here, args[i..]) ==
         oks + [Target(here, args[i]).Some?] + AllAccepted(next, args[i + 1..])
  {
    assert args[i..][0] == args[i] && args[i..][1..] == args[i + 1..];
    assert oks + ([Target(here, args[i]).Some?] + AllAccepted(After(here, args[i]), args[i + 1..])) ==
           oks + [Target(here, args[i]).Some?] + AllAccepted(After(here, args[i]), args[i + 1..]);
  }

  lemma SingleComponent(c: string)
    requires '/' !in c
    ensures Split(c, '/') == [c] && Split(c, '/')[1..] == []
  {
  }

  /** Entering a plain component is accepted exactly when the longer stack is admissible, and going
      up again leads back. */
  lemma DownAndUp(here: Place, c: string)
    requires Admissible(here.stack) && GoodPart(c) && SplitVolumeURI(c).None?
    ensures Target(here, c) == if Admissible(here.stack + [c]) then Some(here.(stack := here.stack + [c])) else None
    ensures Target(here, c).Some? ==> Target(Target(here, c).value, "..") == Some(here)
  {
    SingleComponent(c);
    assert c[0] in c;
    assert Walk(here.stack, [c]) == Walk(here.stack + [c], [c][1..]);
    assert (here.stack + [c])[..|here.stack|] == here.stack;
  }

  lemma {:induction false} WalkGood(stack: seq<string>, parts: seq<string>)
    requires forall i :: 0 <= i < |parts| ==> GoodPart(parts[i])
    ensures Walk(stack, parts) == Some(stack + parts)
    decreases |parts|
  {
    if parts == [] {
      assert stack + parts == stack;
    } else {
      WalkGood(stack + [parts[0]], parts[1..]);
      assert stack + parts == stack + [parts[0]] + parts[1..];
    }
  }

  /** The text that `pwd` prints. */
  function Location(p: Place): string {
    if p.volume == "" then "/" + Show(p.stack) else p.volume + ":/" + Show(p.stack)
  }

  lemma MoveFromRoot(volume: string, stack: seq<string>)
    requires Admissible(stack)
    ensures Move(Place(volume, []), Show(stack)) == Some(Place(volume, stack))
  {
    if stack == [] {
      SingleComponent("");
      assert Walk([], [""]) == Walk([], [""][1..]);
    } else {
      SplitOfJoin(stack, '/');
      WalkGood([], stack);
      assert [] + stack == stack;
      ShowStarts(stack);
      RefusedIff(stack);
    }
  }

  /** Changing to what `pwd` printed leads back to that place from anywhere. */
  lemma BackToLocation(here: Place, p: Place)
    requires Admissible(p.stack) && (p.volume == "" || ValidVolumeName(p.volume))
    ensures Target(here, Location(p)) == Some(p)
  {
    var dir := Show(p.stack);
    MoveFromRoot(p.volume, p.stack);
    if p.stack != [] { ShowStarts(p.stack); }
    var path := "/" + dir;
    assert path[1..] == dir;
    if p.volume == "" {
      SlashIsNoAddress(path);
    } else {
      assert Location(p) == p.volume + ":" + path;
      assert |path| >= 2 ==> path[1] == dir[0] != '/';
      AddressesAre(Location(p), p.volume, path);
    }
  }

  lemma SlashIsNoAddress(arg: string)
    requires "/" <= arg
    ensures SplitVolumeURI(arg).None?
  {
    var idx := Find(arg, ':');
    if 0 < idx < |arg| { assert Forbidden(arg[..idx][0]); }
  }

  // ---------------------------------------------------------------- the command

  function StackOf(dir: string): seq<string> { if dir == "" then [] else Split(dir, '/') }

  /** One slash too many at the front survives the trimming of one slash. */
  predicate SlipsThrough(arg: string) { "//" <= arg && arg != "//" }

  /** The argument does not start from where the shell is. */
  predicate IsAbsolute(arg: string) { "/" <= arg || SplitVolumeURI(arg).Some? }

  /** The command leaves the cached directory as it is. */
  predicate KeepsCachedDir(dir: string, arg: string) {
    arg == "." || (arg == ".." && dir == "") || arg == "/." || arg == "/.."
  }

  class Shell {
    var currentVolume: string
    var currentDir: string
    var savedVolume: string
    var savedDir: string

    ghost predicate Valid() reads this { Admissible(StackOf(currentDir)) }

    ghost function Here(): Place reads this { Place(currentVolume, StackOf(currentDir)) }

    /** Memory and cache files agree. */
    predicate Saved() reads this { savedVolume == currentVolume && savedDir == currentDir }

    constructor (volume: string, dir: string)
      ensures currentVolume == volume && currentDir == dir && Saved()
    {
      currentVolume, currentDir, savedVolume, savedDir := volume, dir, volume, dir;
    }

    /** `/`, `.` and `..` on their own. */
    method ApplySpecialPath(path: string) returns (handled: bool)
      requires Valid()
      modifies this`currentDir, this`savedDir
      ensures handled <==> path == "/" || path == "." || path == ".."
      ensures !handled ==> currentDir == old(currentDir) && savedDir == old(savedDir)
      ensures handled ==> Valid() && (path == "/" ==> Here().stack == [])
      ensures handled && path != "/" ==> Move(old(Here()), path) == Some(Here())
      ensures path == "." || (path == ".." && old(currentDir) == "") ==> currentDir == old(currentDir)
      ensures if path == "/" || (path == ".." && old(currentDir) != "") then savedDir == currentDir
              else savedDir == old(savedDir)
    {
      JoinOfSplit(currentDir, '/');
      if path == "/" {
        currentDir := "";
        savedDir := currentDir;
        return true;
      }
      if path == "." {
        SingleComponent(".");
        assert Walk(StackOf(currentDir), ["."]) == Walk(StackOf(currentDir), ["."][1..]);
        return true;
      }
      if path == ".." {
        if currentDir == "" { return true; }
        var parts := Split(currentDir, '/');
        if |parts| <= 1 {
          currentDir := "";
        } else {
          ghost var up := parts[..|parts| - 1];
          AdmissiblePrefix(parts);
          currentDir := Join(parts[..|parts| - 1], '/');
          SplitOfJoin(up, '/');
          ShowStarts(up);
        }
        savedDir := currentDir;
        return true;
      }
      return false;
    }

    /** Joins, cleans and tests the text; nothing changes when the path is refused. */
    method ApplyNormalPath(path: string) returns (ok: bool)
      requires Valid() && path != ".."
      requires "/" <= path ==> currentDir == ""
      modifies this`currentDir, this`savedDir
      ensures !ok ==> currentDir == old(currentDir) && savedDir == old(savedDir)
      ensures ok ==> savedDir == currentDir
      ensures !("/" <= path) ==>
                (ok <==> Move(old(Here()), path).Some?) && (ok ==> Valid() && Some(Here()) == Move(old(Here()), path))
      ensures "/" <= path ==> ok == !Refused(Clean(path)) && (ok ==> "/" <= currentDir == Clean(path))
    {
      ghost var stack := StackOf(currentDir);
      JoinOfSplit(currentDir, '/');
      var newDir := path;
      if currentDir != "" { newDir := currentDir + "/" + path; }
      var cleaned := Clean(newDir);
      if "/" <= path {
        assert path[0] == '/' && Clean(path)[0] == '/';
      } else {
        AcceptIff(stack, path);
      }
      if cleaned == "." { cleaned := ""; }
      if Refused(cleaned) { return false; }
      currentDir := cleaned;
      savedDir := cleaned;
      return true;
    }

    /** From here, or from the root of the local volume after one slash was taken off. */
    method CdPath(path: string) returns (ok: bool)
      requires Valid() && !("/" <= path)
      modifies this`currentDir, this`savedDir, this`savedVolume
      ensures Valid() && ok == Move(old(Here()), path).Some?
      ensures Here() == if ok then Move(old(Here()), path).value else old(Here())
      ensures !ok ==> currentDir == old(currentDir) && savedDir == old(savedDir) && savedVolume == old(savedVolume)
      ensures ok ==> savedVolume == currentVolume
      ensures ok ==> if path == "." || (path == ".." && old(currentDir) == "")
                     then savedDir == old(savedDir) && currentDir == old(currentDir)
                     else savedDir == currentDir
    {
      var handled := ApplySpecialPath(path);
      ok := true;
      if !handled { ok := ApplyNormalPath(path); }
      if ok { savedVolume := currentVolume; }
    }

    /** The same when a slash is left at the front: `/` alone is the root, anything else breaks the
        convention that the directory has no leading slash. */
    method CdSlashed(path: string) returns (ok: bool)
      requires Valid() && "/" <= path && currentDir == ""
      modifies this`currentDir, this`savedDir, this`savedVolume
      ensures path == "/" ==> ok && currentDir == ""
      ensures path != "/" ==> (ok <==> "/" <= currentDir) && (ok <==> !Valid())
      ensures path != "/" ==> ok == !Refused(Clean(path)) && currentDir == if ok then Clean(path) else ""
      ensures !ok ==> savedDir == old(savedDir) && savedVolume == old(savedVolume)
      ensures ok ==> Saved()
    {
      var handled := ApplySpecialPath(path);
      assert path[0] == '/' && "."[0] == '.' && ".."[0] == '.';
      ok := true;
      if !handled {
        ok := ApplyNormalPath(path);
        if ok { LeadingSlash(currentDir); }
      }
      if ok { savedVolume := currentVolume; }
    }

    /** Leaves the current volume for the root of the local one. */
    method CdLocalRoot(arg: string) returns (ok: bool)
      requires "/" <= arg
      modifies this
      ensures !SlipsThrough(arg) ==>
                Valid() && ok == Target(old(Here()), arg).Some? && Here() == After(old(Here()), arg)
      ensures SlipsThrough(arg) ==> (ok <==> "/" <= currentDir) && (ok <==> !Valid()) && currentVolume == ""
      ensures SlipsThrough(arg) ==>
                ok == !Refused(Clean(arg[1..])) && currentDir == if ok then Clean(arg[1..]) else ""
      ensures ok ==> savedVolume == currentVolume
      ensures ok ==>
                if arg == "/." || arg == "/.." then savedDir == old(savedDir) && currentDir == ""
                else savedDir == currentDir
      ensures !ok ==> savedDir == old(savedDir) && savedVolume == ""
    {
      currentVolume, currentDir := "", "";
      savedVolume := "";
      var path := arg[1..];
      OneSlashOff(arg);
      if "/" <= path {
        ok := CdSlashed(path);
        if path == "/" { RootOnly(); }
      } else {
        ok := CdPath(path);
      }
    }

    /** Changes the place. The place moves as its component stack does, unless the argument slips
        through; the cache files follow, unless the argument goes to the root by `/.` or `/..`. A
        directory that slipped through is left behind by any argument that does not start from it. */
    method RunCd(args: seq<string>) returns (ok: bool, printed: string)
      requires Valid() || |args| == 0 || IsAbsolute(args[0])
      modifies this
      ensures |args| == 0 ==> ok && printed == Location(old(Here())) && Here() == old(Here())
      ensures |args| == 0 ==> savedVolume == old(savedVolume) && savedDir == old(savedDir)
      ensures |args| > 0 ==> printed == ""
      ensures |args| > 0 && !SlipsThrough(args[0]) ==>
                Valid() && ok == Target(old(Here()), args[0]).Some? && Here() == After(old(Here()), args[0])
      ensures |args| > 0 && SlipsThrough(args[0]) ==>
                (ok <==> "/" <= currentDir) && (ok <==> !Valid()) && currentVolume == ""
      ensures |args| > 0 && SlipsThrough(args[0]) ==>
                ok == !Refused(Clean(args[0][1..])) && currentDir == if ok then Clean(args[0][1..]) else ""
      ensures |args| > 0 && ok ==>
                savedVolume == currentVolume &&
                savedDir == if KeepsCachedDir(old(currentDir), args[0]) then old(savedDir) else currentDir
      ensures |args| > 0 && ok && old(Saved()) ==>
                (Saved() <==> !((args[0] == "/." || args[0] == "/..") && old(currentDir) != ""))
      ensures !ok ==> savedDir == old(savedDir)
      ensures !ok ==> savedVolume == if "/" <= args[0] then "" else old(savedVolume)
    {
      printed := "";
      if |args| == 0 {
        JoinOfSplit(currentDir, '/');
        printed := if currentVolume == "" then "/" + currentDir else currentVolume + ":/" + currentDir;
        return true, printed;
      }
      var path := args[0];
      var address := SplitVolumeURI(path);
      if address.Some? {
        if "/" <= path { SlashIsNoAddress(path); }
        ok := CdVolume(path, address.value);
      } else if "/" <= path {
        ok := CdLocalRoot(path);
      } else {
        ok := CdPath(path);
      }
    }

    /** Any sequence of commands none of which slips through: the directory stays the text of a stack
        of admissible components, and it is the stack that the reference arrives at. */
    method RunCds(args: seq<string>) returns (oks: seq<bool>)
      requires Valid() && forall i :: 0 <= i < |args| ==> !SlipsThrough(args[i])
      modifies this
      ensures Valid() && Here() == AfterAll(old(Here()), args)
      ensures currentDir == Show(Here().stack) && oks == AllAccepted(old(Here()), args)
    {
      ghost var end, all := AfterAll(Here(), args), AllAccepted(Here(), args);
      oks := [];
      var i := 0;
      assert args[i..] == args;
      while i < |args|
        invariant 0 <= i <= |args| && Valid()
        invariant AfterAll(Here(), args[i..]) == end && oks + AllAccepted(Here(), args[i..]) == all
      {
        OneCommand(Here(), args, i, oks);
        var ok := CdOnce(args[i]);
        oks := oks + [ok];
        i := i + 1;
      }
      JoinOfSplit(currentDir, '/');
    }

    /** One command that does not slip through. */
    method CdOnce(arg: string) returns (ok: bool)
      requires Valid() && !SlipsThrough(arg)
      modifies this
      ensures Valid() && ok == Target(old(Here()), arg).Some? && Here() == After(old(Here()), arg)
    {
      var printed;
      ok, printed := RunCd([arg]);
    }

    /** A volume address switches the volume and starts at its root. */
    method CdVolume(arg: string, address: Address) returns (ok: bool)
      requires SplitVolumeURI(arg) == Some(address)
      modifies this
      ensures Valid() && ok == Target(old(Here()), arg).Some? && Here() == After(old(Here()), arg)
      ensures ok ==> Saved()
      ensures !ok ==> savedDir == old(savedDir) && savedVolume == old(savedVolume)
    {
      AddressesAre(arg, address.volume, address.path);
      currentVolume, currentDir := address.volume, "";
      var inner := address.path[1..];
      if inner == "" || inner == "." {
        SingleComponent(inner);
        assert Walk([], [inner]) == Walk([], [inner][1..]);
      } else {
        ghost var cached := savedDir;
        var handled := ApplySpecialPath(inner);
        if !handled {
          ok := ApplyNormalPath(inner);
          if !ok { return; }
        }
      }
      savedVolume := currentVolume;
      savedDir := currentDir;
      return true;
    }
  }

  lemma OneSlashOff(arg: string)
    requires "/" <= arg
    ensures SplitVolumeURI(arg).None?
    ensures "//" <= arg <==> "/" <= arg[1..]
    ensures arg == "//" <==> arg[1..] == "/"
    ensures arg == "/." <==> arg[1..] == "."
    ensures arg == "/.." <==> arg[1..] == ".."
  {
    SlashIsNoAddress(arg);
    assert arg == "/" + arg[1..];
  }

  lemma RootOnly()
    ensures Move(Place("", []), "/") == Some(Place("", []))
  {
    assert Split("/", '/') == ["", ""];
    assert ["", ""][1..] == [""] && [""][1..] == [];
  }

  lemma LeadingSlash(dir: string)
    requires "/" <= dir
    ensures !Admissible(StackOf(dir))
  {
    assert Find(dir, '/') == 0;
    assert Split(dir, '/')[0] == "";
  }

  /** A cleaned path passes the textual test exactly when the walk ends in an admissible stack. */
  lemma AcceptIff(stack: seq<string>, path: string)
    requires Admissible(stack) && !("/" <= path) && path != ".."
    ensures var cleaned := Clean(NewDir(stack, path)); var to := Move(Place("", stack), path);
      var dir := if cleaned == "." then "" else cleaned;
      && (to.Some? <==> !Refused(dir)) && (to.Some? ==> StackOf(dir) == to.value.stack && Admissible(to.value.stack))
  {
    CleanIsWalk(stack, path);
    var to := Walk(stack, Split(path, '/'));
    if to.Some? {
      RefusedIff(to.value);
      if to.value != [] {
        ShowStarts(to.value);
        SplitOfJoin(to.value, '/');
      }
    }
  }

  lemma AdmissiblePrefix(stack: seq<string>)
    requires Admissible(stack) && stack != []
    ensures Admissible(stack[..|stack| - 1])
  {
  }
}
