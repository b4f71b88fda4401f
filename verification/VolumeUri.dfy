/**
Volume addresses on the command line: `<volume>:/<path>`, or `<volume>:` for the root of the
volume. The positional arguments are rewritten in place and the volumes end up in the command's
context.
*/
module VolumeUri {
  import opened Wrappers
  import opened Text

  const MAX_VOLUME_NAME: nat := 64

  predicate Forbidden(c: char) {
    c == '/' || c == '\\' || c == ':' || c == '*' || c == '?' || c == '"' || c == '<' || c == '>' || c == '|' ||
    c == ' ' || c == '\t'
  }

  predicate ValidVolumeName(name: string) {
    name != "" && |name| <= MAX_VOLUME_NAME && forall i :: 0 <= i < |name| ==> !Forbidden(name[i])
  }

  datatype Address = Address(volume: string, path: string)

  /** The volume and the absolute path within it, if the argument addresses a volume. */
  function SplitVolumeURI(arg: string): Option<Address> {
    var idx := Find(arg, ':');
    if idx == |arg| || idx == 0 then None
    else
      var vol, rest := arg[..idx], arg[idx + 1..];
      if !ValidVolumeName(vol) then None
      else if rest == "" || rest == "/" then Some(Address(vol, "/"))
      else if "//" <= rest then None
      else if !("/" <= rest) then None
      else Some(Address(vol, rest))
  }

  /** A path from the root of a volume. */
  predicate VolumePath(path: string) { "/" <= path && !("//" <= path) }

  /** Exactly the texts `volume:` and `volume:path` are addresses, and each has one reading. */
  lemma AddressesAre(arg: string, vol: string, path: string)
    ensures SplitVolumeURI(arg) == Some(Address(vol, path)) <==>
              ValidVolumeName(vol) && VolumePath(path) && (arg == vol + ":" + path || (path == "/" && arg == vol + ":"))
  {
    if ValidVolumeName(vol) && (arg == vol + ":" + path || arg == vol + ":") {
      assert ':' !in vol;
      FindAfter(vol, ':', path);
      FindAfter(vol, ':', "");
      assert vol + ":" + "" == vol + ":";
      assert arg[..|vol|] == vol;
    }
    var idx := Find(arg, ':');
    if 0 < idx < |arg| { assert arg == arg[..idx] + ":" + arg[idx + 1..]; }
  }

  /** What an argument becomes once its volume is taken off. */
  function Stripped(arg: string): string {
    var a := SplitVolumeURI(arg);
    if a.Some? then a.value.path else arg
  }

  function VolumeOf(arg: string): Option<string> {
    var a := SplitVolumeURI(arg);
    if a.Some? then Some(a.value.volume) else None
  }

  /** Every argument that addresses a volume addresses this one. */
  ghost predicate AllOn(args: seq<string>, vol: string) {
    forall i :: 0 <= i < |args| && VolumeOf(args[i]).Some? ==> VolumeOf(args[i]) == Some(vol)
  }

  /** The source volume after these arguments, none of which disagreed. */
  ghost predicate AllFrom(args: seq<string>, before: Option<string>, source: Option<string>)
    decreases |args|
  {
    if args == [] then source == before
    else
      var n := |args| - 1;
      if VolumeOf(args[n]).None? then AllFrom(args[..n], before, source)
      else source == VolumeOf(args[n]) && (AllFrom(args[..n], before, source) || AllFrom(args[..n], before, None))
  }

  lemma {:induction false} AllFromAgree(args: seq<string>, before: Option<string>, source: Option<string>)
    requires AllFrom(args, before, source)
    ensures before.Some? ==> source == before
    ensures source.Some? ==> AllOn(args, source.value)
    ensures source.None? ==> NoneAddresses(args)
    ensures source != before ==> exists k :: 0 <= k < |args| && VolumeOf(args[k]) == source
    ensures NoneAddresses(args) ==> source == before
    decreases |args|
  {
    if args != [] {
      var n := |args| - 1;
      if AllFrom(args[..n], before, source) {
        AllFromAgree(args[..n], before, source);
      } else {
        AllFromAgree(args[..n], before, None);
      }
    }
  }

  /** What the arguments have in common with the volume from before. */
  ghost predicate HaveCommon(args: seq<string>, before: Option<string>) {
    exists vol :: AllOn(args, vol) && (before.Some? ==> vol == before.value)
  }

  lemma Agreed(args: seq<string>, before: Option<string>, source: Option<string>)
    requires AllFrom(args, before, source)
    ensures HaveCommon(args, before) && (before.Some? ==> source == before)
    ensures if NoneAddresses(args) then source == before else source.Some? && AllOn(args, source.value)
  {
    AllFromAgree(args, before, source);
    assert AllOn(args, if source.Some? then source.value else "");
  }

  lemma Disagreed(args: seq<string>, before: Option<string>, source: Option<string>, k: nat)
    requires k < |args| && AllFrom(args[..k], before, source) && source.Some?
    requires VolumeOf(args[k]).Some? && VolumeOf(args[k]) != source
    ensures !HaveCommon(args, before) && Disagrees(args, source, k) && (before.Some? ==> source == before)
    ensures before.None? ==> exists j :: 0 <= j < |args| && VolumeOf(args[j]) == source
  {
    AllFromAgree(args[..k], before, source);
    if before.None? {
      var j :| 0 <= j < k && VolumeOf(args[..k][j]) == source;
      assert args[j] == args[..k][j];
    }
  }

  /** The first argument that addresses another volume than the source. */
  ghost predicate Disagrees(args: seq<string>, source: Option<string>, k: nat) {
    && k < |args| && source.Some? && VolumeOf(args[k]).Some? && VolumeOf(args[k]) != source
    && AllOn(args[..k], source.value)
  }

  /** The first `k` arguments are stripped, the others are as before. */
  ghost predicate Rewritten(args: seq<string>, after: seq<string>, k: nat) {
    && |after| == |args|
    && (forall i :: 0 <= i < k && i < |args| ==> after[i] == Stripped(args[i]))
    && (forall i :: k <= i < |args| ==> after[i] == args[i])
  }

  ghost predicate NoneAddresses(args: seq<string>) {
    forall i :: 0 <= i < |args| ==> VolumeOf(args[i]).None?
  }

  /** A command's context: the source volume and, for a move or copy, the target volume. */
  class Command {
    var source: Option<string>
    var target: Option<string>

    constructor ()
      ensures source == None && target == None
    {
      source, target := None, None;
    }

    /** One command has one source volume; a second, different one is an error. */
    method SetSourceVolume(vol: string) returns (ok: bool)
      modifies this`source
      ensures ok <==> old(source) == None || old(source) == Some(vol)
      ensures source == if ok then Some(vol) else old(source)
    {
      if source.Some? { return source.value == vol; }
      source := Some(vol);
      return true;
    }

    /** Succeeds exactly when all addresses agree on one volume, also with the context; then every
        address is stripped in place and that volume is the source. */
    method ApplyVolumeURIs(args: array<string>) returns (ok: bool)
      modifies this`source, args
      ensures ok <==> HaveCommon(old(args[..]), old(source))
      ensures ok ==> forall i :: 0 <= i < args.Length ==> args[i] == Stripped(old(args[i]))
      ensures ok && NoneAddresses(old(args[..])) ==> source == old(source)
      ensures ok && !NoneAddresses(old(args[..])) ==> source.Some? && AllOn(old(args[..]), source.value)
      ensures old(source).Some? ==> source == old(source)
      ensures !ok ==> exists k :: Disagrees(old(args[..]), source, k) && Rewritten(old(args[..]), args[..], k)
      ensures !ok && old(source).None? ==> exists j :: 0 <= j < args.Length && VolumeOf(old(args[j])) == source
    {
      ghost var was, source0 := args[..], source;
      var i := 0;
      while i < args.Length
        invariant 0 <= i <= args.Length && Rewritten(was, args[..], i) && AllFrom(was[..i], source0, source)
      {
        assert args[..][i] == was[i] && was[..i + 1][..i] == was[..i];
        var address := SplitVolumeURI(args[i]);
        if address.Some? {
          var agreed := SetSourceVolume(address.value.volume);
          if !agreed {
            Disagreed(was, source0, source, i);
            return false;
          }
          args[i] := address.value.path;
        }
        i := i + 1;
      }
      assert was[..i] == was;
      Agreed(was, source0, source);
      return true;
    }

    /** Move and copy: the first path decides the source volume, a second path on another volume the
        target volume. */
    method ApplyMvVolumeURIs(args: array<string>) returns (ok: bool)
      modifies this, args
      ensures ok <==> args.Length == 0 || SplitVolumeURI(old(args[0])).None? || old(source).None? ||
                      old(source) == Some(SplitVolumeURI(old(args[0])).value.volume)
      ensures ok && args.Length > 0 ==> args[0] == Stripped(old(args[0]))
      ensures ok && args.Length > 1 ==> args[1] == Stripped(old(args[1]))
      ensures forall i :: 2 <= i < args.Length ==> args[i] == old(args[i])
      ensures ok && args.Length > 0 ==>
                source == if SplitVolumeURI(old(args[0])).Some? then Some(SplitVolumeURI(old(args[0])).value.volume)
                    else old(source)
      ensures ok && args.Length > 1 ==>
                target == if SplitVolumeURI(old(args[1])).Some? &&
                             Some(SplitVolumeURI(old(args[1])).value.volume) != source
                          then Some(SplitVolumeURI(old(args[1])).value.volume) else old(target)
      ensures args.Length <= 1 || !ok ==> target == old(target)
    {
      if args.Length == 0 { return true; }
      var from := SplitVolumeURI(args[0]);
      if from.Some? {
        var agreed := SetSourceVolume(from.value.volume);
        if !agreed { return false; }
        args[0] := from.value.path;
      }
      if args.Length < 2 { return true; }
      var to := SplitVolumeURI(args[1]);
      if to.None? { return true; }
      args[1] := to.value.path;
      if source == Some(to.value.volume) { return true; }
      target := Some(to.value.volume);
      return true;
    }
  }
}
