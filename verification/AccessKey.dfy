/**
The grammar of access keys: `ak-<mesh>-<hex>` or `ak-<hex>`, where the mesh may itself contain
hyphens and the random segment has 32 digits, or 16 in keys of the older kind.
*/
module AccessKey {
  import opened Wrappers
  import opened Bytes

  const PREFIX := "ak-"
  const HEX_LEN: nat := 16
  const HEX_LEGACY: nat := 8

  predicate IsHexChar(c: char) { '0' <= c <= '9' || 'a' <= c <= 'f' || 'A' <= c <= 'F' }

  predicate InMeshCharset(c: char) {
    'a' <= c <= 'z' || 'A' <= c <= 'Z' || '0' <= c <= '9' || c == '_' || c == '-'
  }

  predicate IsHexSegment(s: string) {
    (|s| == 2 * HEX_LEN || |s| == 2 * HEX_LEGACY) && forall i :: 0 <= i < |s| ==> IsHexChar(s[i])
  }

  predicate MeshOk(mesh: string) { forall i :: 0 <= i < |mesh| ==> InMeshCharset(mesh[i]) }

  function MeshHex(mesh: string): string { if mesh == "" then PREFIX else PREFIX + mesh + "-" }

  /** The key is made of this mesh and this random segment. */
  ghost predicate Splits(ak: string, mesh: string, hex: string) {
    ak == MeshHex(mesh) + hex && IsHexSegment(hex)
  }

  /** The position of the last hyphen, or -1. */
  function LastHyphen(s: string): (idx: int)
    ensures -1 <= idx < |s|
    ensures idx >= 0 ==> s[idx] == '-'
    ensures forall i :: idx < i < |s| ==> s[i] != '-'
    decreases |s|
  {
    if s == "" then -1 else if s[|s| - 1] == '-' then |s| - 1 else LastHyphen(s[..|s| - 1])
  }

  lemma {:induction false} LastHyphenIs(s: string, idx: int)
    requires -1 <= idx < |s| && (idx >= 0 ==> s[idx] == '-') && forall i :: idx < i < |s| ==> s[i] != '-'
    ensures LastHyphen(s) == idx
    decreases |s|
  {
    if s != "" && s[|s| - 1] != '-' { LastHyphenIs(s[..|s| - 1], idx); }
  }

  /** A key splits in at most one way. */
  lemma SplitIsUnique(ak: string, m0: string, h0: string, m1: string, h1: string)
    requires Splits(ak, m0, h0) && Splits(ak, m1, h1)
    ensures m0 == m1 && h0 == h1
  {
    RestOfSplit(ak, m0, h0);
    RestOfSplit(ak, m1, h1);
  }

  /** The split is found at the last hyphen after the prefix. */
  lemma RestOfSplit(ak: string, mesh: string, hex: string)
    requires Splits(ak, mesh, hex)
    ensures PREFIX <= ak
    ensures var rest := ak[|PREFIX|..]; var idx := LastHyphen(rest);
      && (mesh == "" ==> idx == -1 && rest == hex)
      && (mesh != "" ==> idx > 0 && rest[..idx] == mesh && rest[idx + 1..] == hex)
  {
    var rest := ak[|PREFIX|..];
    if mesh == "" {
      assert ak == PREFIX + hex && rest == hex;
      LastHyphenIs(rest, -1);
    } else {
      assert ak == PREFIX + (mesh + "-" + hex);
      assert rest == mesh + "-" + hex;
      forall i | |mesh| < i < |rest| ensures rest[i] != '-' { assert rest[i] == hex[i - |mesh| - 1]; }
      LastHyphenIs(rest, |mesh|);
    }
  }

  /** A rest with a non-empty part before its last hyphen and a random segment after it is a split. */
  lemma SplitOfRest(ak: string)
    requires PREFIX <= ak
    ensures var rest := ak[|PREFIX|..]; var idx := LastHyphen(rest);
      && (idx < 0 && IsHexSegment(rest) ==> Splits(ak, "", rest))
      && (idx > 0 && IsHexSegment(rest[idx + 1..]) ==> Splits(ak, rest[..idx], rest[idx + 1..]))
  {
    var rest := ak[|PREFIX|..];
    var idx := LastHyphen(rest);
    assert ak == PREFIX + rest;
    if idx > 0 {
      assert rest == rest[..idx] + "-" + rest[idx + 1..];
      assert ak == PREFIX + rest[..idx] + "-" + rest[idx + 1..];
    }
  }

  /** The number of bytes the segment stands for, if it is a random segment. */
  method HexSegmentOk(s: string) returns (n: nat, ok: bool)
    ensures ok <==> IsHexSegment(s)
    ensures ok ==> 2 * n == |s|
    ensures !ok ==> n == 0
  {
    if |s| == HEX_LEN * 2 { n := HEX_LEN; }
    else if |s| == HEX_LEGACY * 2 { n := HEX_LEGACY; }
    else { return 0, false; }
    var allHex := true;
    var i := 0;
    while i < |s|
      invariant 0 <= i <= |s| && allHex && forall k :: 0 <= k < i ==> IsHexChar(s[k])
    {
      if !IsHexChar(s[i]) { allHex := false; break; }
      i := i + 1;
    }
    if !allHex { return 0, false; }
    ok := true;
  }

  function ParseMesh(ak: string): string {
    if !(PREFIX <= ak) then ""
    else
      var rest := ak[|PREFIX|..];
      var idx := LastHyphen(rest);
      if idx < 0 || !IsHexSegment(rest[idx + 1..]) then "" else rest[..idx]
  }

  /** Parsing gives back the mesh of every key that splits, whatever characters it is made of, and
      gives a mesh to no other key. */
  lemma ParseMeshInverts(ak: string)
    ensures forall m, h :: Splits(ak, m, h) ==> ParseMesh(ak) == m
    ensures ParseMesh(ak) != "" ==> exists h :: Splits(ak, ParseMesh(ak), h)
  {
    forall m, h | Splits(ak, m, h) ensures ParseMesh(ak) == m { RestOfSplit(ak, m, h); }
    if ParseMesh(ak) != "" { SplitOfRest(ak); }
  }

  method ValidAkRest(ak: string, rest: string) returns (valid: bool)
    requires ak == PREFIX + rest
    ensures valid <==> exists m, h :: Splits(ak, m, h) && MeshOk(m)
  {
    assert rest == ak[|PREFIX|..];
    var idx := LastHyphen(rest);
    SplitOfRest(ak);
    forall m, h | Splits(ak, m, h)
      ensures m == (if idx < 0 then "" else rest[..idx]) && h == (if idx < 0 then rest else rest[idx + 1..]) && idx != 0
    {
      RestOfSplit(ak, m, h);
    }
    if rest == "" { return false; }
    var hexPart, meshPart := rest, "";
    if idx >= 0 {
      hexPart, meshPart := rest[idx + 1..], rest[..idx];
      if meshPart == "" { return false; }
    }
    var _, ok := HexSegmentOk(hexPart);
    if !ok { return false; }
    assert Splits(ak, meshPart, hexPart);
    if meshPart == "" { return true; }
    var i := 0;
    while i < |meshPart|
      invariant 0 <= i <= |meshPart| && forall k :: 0 <= k < i ==> InMeshCharset(meshPart[k])
    {
      if !InMeshCharset(meshPart[i]) { return false; }
      i := i + 1;
    }
    return true;
  }

  /** A key is valid exactly when it splits with a mesh over the charset. */
  method IsValidAk(ak: string) returns (valid: bool)
    ensures valid <==> exists m, h :: Splits(ak, m, h) && MeshOk(m)
  {
    forall m, h | Splits(ak, m, h) ensures PREFIX <= ak { RestOfSplit(ak, m, h); }
    if !(PREFIX <= ak) { return false; }
    valid := ValidAkRest(ak, ak[|PREFIX|..]);
  }

  // ---------------------------------------------------------------- generation

  lemma HexIsSegment(bytes: seq<Byte>)
    requires |bytes| == HEX_LEN || |bytes| == HEX_LEGACY
    ensures IsHexSegment(Hex(bytes))
  {
    forall i | 0 <= i < |Hex(bytes)| ensures IsHexChar(Hex(bytes)[i]) {
      assert Hex(bytes)[i] in Hex(bytes);
    }
  }

  /** Reads the random segment of `n` bytes, then the secret of 32 bytes; a short reader is an error. */
  method GeneratePair(reader: seq<Byte>, mesh: string, n: nat) returns (pair: Option<(string, string)>)
    requires n == HEX_LEN || n == HEX_LEGACY
    ensures pair.None? <==> |reader| < n + 32
    ensures pair.Some? ==> Splits(pair.value.0, mesh, Hex(reader[..n]))
    ensures pair.Some? ==> |pair.value.1| == 64 && pair.value.1 == Hex(reader[n..n + 32])
  {
    if |reader| < n { return None; }
    var akBytes := reader[..n];
    if |reader| - n < 32 { return None; }
    var skBytes := reader[n..n + 32];
    HexIsSegment(akBytes);
    return Some((MeshHex(mesh) + Hex(akBytes), Hex(skBytes)));
  }

  /** Generation does not look at the mesh. A generated key always gives its mesh back, but it is a
      valid key exactly when the mesh stays within the charset. */
  lemma GeneratedIsValidIff(mesh: string, bytes: seq<Byte>)
    requires |bytes| == HEX_LEN || |bytes| == HEX_LEGACY
    ensures var ak := MeshHex(mesh) + Hex(bytes);
      ParseMesh(ak) == mesh && ((exists m, h :: Splits(ak, m, h) && MeshOk(m)) <==> MeshOk(mesh))
  {
    var ak := MeshHex(mesh) + Hex(bytes);
    HexIsSegment(bytes);
    assert Splits(ak, mesh, Hex(bytes));
    ParseMeshInverts(ak);
  }

  /** Different meshes or different random bytes make different keys. */
  lemma GeneratedKeysDiffer(m0: string, b0: seq<Byte>, m1: string, b1: seq<Byte>)
    requires |b0| == HEX_LEN || |b0| == HEX_LEGACY
    requires |b1| == HEX_LEN || |b1| == HEX_LEGACY
    requires MeshHex(m0) + Hex(b0) == MeshHex(m1) + Hex(b1)
    ensures m0 == m1 && b0 == b1
  {
    HexIsSegment(b0);
    HexIsSegment(b1);
    SplitIsUnique(MeshHex(m0) + Hex(b0), m0, Hex(b0), m1, Hex(b1));
    HexIsInjective(b0, b1);
  }
}
