/**
The master key file: 32 bytes, either raw, possibly with the line end a text editor adds, or in
base64 (section 4 of RFC 4648) with white space around it.
*/
module MasterKey {
  import opened Wrappers
  import opened Bytes

  type Blob = seq<Byte>

  const LF: Byte := 10
  const CR: Byte := 13
  const PAD: Byte := 61
  const KEY_BYTES: nat := 32

  // ---------------------------------------------------------------- base64

  /** The symbol of a 6-bit value. */
  function Symbol(v: nat): (c: Byte)
    requires v < 64
    ensures Value(c) == Some(v)
  {
    if v < 26 then 65 + v else if v < 52 then 97 + v - 26 else if v < 62 then 48 + v - 52
    else if v == 62 then 43 else 47
  }

  function Value(c: Byte): (v: Option<nat>)
    ensures v.Some? ==> v.value < 64 && c != LF && c != CR && c != PAD && 32 < c < 128
  {
    if 65 <= c <= 90 then Some(c - 65)
    else if 97 <= c <= 122 then Some(c - 97 + 26)
    else if 48 <= c <= 57 then Some(c - 48 + 52)
    else if c == 43 then Some(62)
    else if c == 47 then Some(63)
    else None
  }

  function Encode(b: Blob): Blob
    decreases |b|
  {
    if |b| == 0 then []
    else if |b| == 1 then [Symbol(b[0] / 4), Symbol(b[0] % 4 * 16), PAD, PAD]
    else if |b| == 2 then [Symbol(b[0] / 4), Symbol(b[0] % 4 * 16 + b[1] / 16), Symbol(b[1] % 16 * 4), PAD]
    else
      [Symbol(b[0] / 4), Symbol(b[0] % 4 * 16 + b[1] / 16), Symbol(b[1] % 16 * 4 + b[2] / 64), Symbol(b[2] % 64)]
      + Encode(b[3..])
  }

  predicate IsSymbol(c: Byte) { Value(c).Some? }

  /** The three bytes of four 6-bit values; unused low bits of a short last group are dropped. */
  function Byte0(v0: nat, v1: nat): Byte
    requires v0 < 64 && v1 < 64
  {
    v0 * 4 + v1 / 16
  }

  function Byte1(v1: nat, v2: nat): Byte
    requires v1 < 64 && v2 < 64
  {
    v1 % 16 * 16 + v2 / 4
  }

  function Byte2(v2: nat, v3: nat): Byte
    requires v2 < 64 && v3 < 64
  {
    v2 % 4 * 64 + v3
  }

  /** The bytes of one group of four; only a padded group has fewer than three. */
  function Group(c0: Byte, c1: Byte, c2: Byte, c3: Byte): (g: Option<Blob>)
    ensures g.Some? ==> 1 <= |g.value| <= 3
  {
    if !IsSymbol(c0) || !IsSymbol(c1) then None
    else
      var v0, v1 := Value(c0).value, Value(c1).value;
      if c2 == PAD then if c3 == PAD then Some([Byte0(v0, v1)]) else None
      else if !IsSymbol(c2) then None
      else
        var v2 := Value(c2).value;
        if c3 == PAD then Some([Byte0(v0, v1), Byte1(v1, v2)])
        else if !IsSymbol(c3) then None
        else Some([Byte0(v0, v1), Byte1(v1, v2), Byte2(v2, Value(c3).value)])
  }

  /** Groups of four symbols, the last of which may be padded. */
  function DecodeGroups(s: Blob): Option<Blob>
    decreases |s|
  {
    if s == [] then Some([])
    else if |s| < 4 then None
    else
      var g := Group(s[0], s[1], s[2], s[3]);
      if g.None? then None
      else if |s| == 4 then g
      else if |g.value| < 3 then None
      else
        var rest := DecodeGroups(s[4..]);
        if rest.None? then None else Some(g.value + rest.value)
  }

  /** Line ends are ignored wherever they are. */
  function Unfold(s: Blob): (t: Blob)
    ensures |t| <= |s|
    decreases |s|
  {
    if s == [] then [] else (if s[0] == LF || s[0] == CR then [] else [s[0]]) + Unfold(s[1..])
  }

  function Decode(s: Blob): Option<Blob> { DecodeGroups(Unfold(s)) }

  lemma {:induction false} DecodeOfEncode(b: Blob)
    ensures DecodeGroups(Encode(b)) == Some(b)
    decreases |b|
  {
    if |b| > 2 {
      var rest := Encode(b[3..]);
      DecodeOfEncode(b[3..]);
      GroupOfThree(b[0], b[1], b[2]);
      var s := [Symbol(b[0] / 4), Symbol(b[0] % 4 * 16 + b[1] / 16), Symbol(b[1] % 16 * 4 + b[2] / 64),
                Symbol(b[2] % 64)];
      GroupThenRest(s, [b[0], b[1], b[2]], rest, b[3..]);
      assert b == [b[0], b[1], b[2]] + b[3..];
    } else if |b| == 2 {
      assert b == [b[0], b[1]];
      DecodeLastBytes(b[0], b[1]);
    } else if |b| == 1 {
      assert b == [b[0]];
      DecodeLastByte(b[0]);
    }
  }

  lemma GroupThenRest(s: Blob, g: Blob, rest: Blob, d: Blob)
    requires |s| == 4 && Group(s[0], s[1], s[2], s[3]) == Some(g) && |g| == 3 && DecodeGroups(rest) == Some(d)
    ensures DecodeGroups(s + rest) == Some(g + d)
  {
    var t := s + rest;
    assert t[4..] == rest && t[0] == s[0] && t[1] == s[1] && t[2] == s[2] && t[3] == s[3];
    if rest == [] { assert g + d == g; }
  }

  lemma SingleGroup(s: Blob, g: Blob)
    requires |s| == 4 && Group(s[0], s[1], s[2], s[3]) == Some(g)
    ensures DecodeGroups(s) == Some(g)
  {
  }

  lemma DecodeLastByte(b0: Byte)
    ensures DecodeGroups(Encode([b0])) == Some([b0])
  {
    var e := Encode([b0]);
    assert e == [Symbol(b0 / 4), Symbol(b0 % 4 * 16), PAD, PAD];
    GroupOfOne(b0);
    SingleGroup(e, [b0]);
  }

  lemma DecodeLastBytes(b0: Byte, b1: Byte)
    ensures DecodeGroups(Encode([b0, b1])) == Some([b0, b1])
  {
    var e := Encode([b0, b1]);
    assert e == [Symbol(b0 / 4), Symbol(b0 % 4 * 16 + b1 / 16), Symbol(b1 % 16 * 4), PAD];
    GroupOfTwo(b0, b1);
    SingleGroup(e, [b0, b1]);
  }

  lemma GroupOfSymbols(v0: nat, v1: nat, v2: nat, v3: nat)
    requires v0 < 64 && v1 < 64 && v2 < 64 && v3 < 64
    ensures Group(Symbol(v0), Symbol(v1), PAD, PAD) == Some([Byte0(v0, v1)])
    ensures Group(Symbol(v0), Symbol(v1), Symbol(v2), PAD) == Some([Byte0(v0, v1), Byte1(v1, v2)])
    ensures Group(Symbol(v0), Symbol(v1), Symbol(v2), Symbol(v3)) == Some([Byte0(v0, v1), Byte1(v1, v2), Byte2(v2, v3)])
  {
  }

  lemma GroupOfOne(b0: Byte)
    ensures Group(Symbol(b0 / 4), Symbol(b0 % 4 * 16), PAD, PAD) == Some([b0])
  {
    GroupOfSymbols(b0 / 4, b0 % 4 * 16, 0, 0);
    FirstBytes(b0, 0, 0);
  }

  lemma GroupOfTwo(b0: Byte, b1: Byte)
    ensures Group(Symbol(b0 / 4), Symbol(b0 % 4 * 16 + b1 / 16), Symbol(b1 % 16 * 4), PAD) == Some([b0, b1])
  {
    GroupOfSymbols(b0 / 4, b0 % 4 * 16 + b1 / 16, b1 % 16 * 4, 0);
    FirstBytes(b0, b1, 0);
  }

  lemma GroupOfThree(b0: Byte, b1: Byte, b2: Byte)
    ensures Group(Symbol(b0 / 4), Symbol(b0 % 4 * 16 + b1 / 16), Symbol(b1 % 16 * 4 + b2 / 64), Symbol(b2 % 64))
              == Some([b0, b1, b2])
  {
    GroupOfSymbols(b0 / 4, b0 % 4 * 16 + b1 / 16, b1 % 16 * 4 + b2 / 64, b2 % 64);
    FirstBytes(b0, b1, b2);
  }

  lemma FirstBytes(b0: Byte, b1: Byte, b2: Byte)
    ensures Byte0(b0 / 4, b0 % 4 * 16 + b1 / 16) == b0
    ensures Byte1(b0 % 4 * 16 + b1 / 16, b1 % 16 * 4 + b2 / 64) == b1
    ensures Byte2(b1 % 16 * 4 + b2 / 64, b2 % 64) == b2
  {
  }

  /** Four symbols stand for at most three bytes, and for at least one. */
  lemma {:induction false} DecodedLength(s: Blob, d: Blob) returns (groups: nat)
    requires DecodeGroups(s) == Some(d)
    ensures |s| == 4 * groups && |d| <= 3 * groups <= |d| + 2
    decreases |s|
  {
    if |s| <= 4 {
      groups := |s| / 4;
    } else {
      groups := DecodedLength(s[4..], DecodeGroups(s[4..]).value);
      groups := groups + 1;
    }
  }

  /** An encoding starts with a symbol, ends with a symbol or padding, and holds no line end. */
  lemma {:induction false} EncodedText(b: Blob)
    ensures forall i :: 0 <= i < |Encode(b)| ==> IsSymbol(Encode(b)[i]) || Encode(b)[i] == PAD
    ensures b != [] ==> |Encode(b)| >= 4 && IsSymbol(Encode(b)[0])
    decreases |b|
  {
    if |b| > 2 {
      EncodedText(b[3..]);
      forall i | 4 <= i < |Encode(b)| ensures Encode(b)[i] == Encode(b[3..])[i - 4] {}
    }
  }

  // ---------------------------------------------------------------- white space around the text

  /** The UTF-8 encoding of a white space character. */
  predicate IsSpaceRune(r: Blob) {
    || (|r| == 1 && (9 <= r[0] <= 13 || r[0] == 32))
    || (|r| == 2 && r[0] == 0xC2 && (r[1] == 0x85 || r[1] == 0xA0))
    || (|r| == 3 && r[0] == 0xE1 && r[1] == 0x9A && r[2] == 0x80)
    || (|r| == 3 && r[0] == 0xE2 && r[1] == 0x80
        && (0x80 <= r[2] <= 0x8A || r[2] == 0xA8 || r[2] == 0xA9 || r[2] == 0xAF))
    || (|r| == 3 && r[0] == 0xE2 && r[1] == 0x81 && r[2] == 0x9F)
    || (|r| == 3 && r[0] == 0xE3 && r[1] == 0x80 && r[2] == 0x80)
  }

  /** The length of the white space character at the start, or 0. */
  function SpaceAtStart(s: Blob): (n: nat)
    ensures n <= |s|
  {
    if |s| >= 1 && IsSpaceRune(s[..1]) then 1
    else if |s| >= 2 && IsSpaceRune(s[..2]) then 2
    else if |s| >= 3 && IsSpaceRune(s[..3]) then 3
    else 0
  }

  function SpaceAtEnd(s: Blob): (n: nat)
    ensures n <= |s|
  {
    if |s| >= 1 && IsSpaceRune(s[|s| - 1..]) then 1
    else if |s| >= 2 && IsSpaceRune(s[|s| - 2..]) then 2
    else if |s| >= 3 && IsSpaceRune(s[|s| - 3..]) then 3
    else 0
  }

  function TrimLeft(s: Blob): (t: Blob)
    ensures |t| <= |s|
    decreases |s|
  {
    var n := SpaceAtStart(s);
    if n == 0 then s else TrimLeft(s[n..])
  }

  function TrimRight(s: Blob): (t: Blob)
    ensures |t| <= |s|
    decreases |s|
  {
    var n := SpaceAtEnd(s);
    if n == 0 then s else TrimRight(s[..|s| - n])
  }

  function TrimSpace(s: Blob): (t: Blob)
    ensures |t| <= |s|
  {
    TrimRight(TrimLeft(s))
  }

  /** Any run of white space characters. */
  function Flat(runes: seq<Blob>): Blob
    decreases |runes|
  {
    if runes == [] then [] else runes[0] + Flat(runes[1..])
  }

  predicate AllSpace(runes: seq<Blob>) { forall i :: 0 <= i < |runes| ==> IsSpaceRune(runes[i]) }

  /** A byte that neither is white space nor starts or ends a white space character. */
  predicate IsPlain(c: Byte) { 32 < c < 128 }

  lemma {:induction false} TrimLeftOfPadded(runes: seq<Blob>, text: Blob)
    requires AllSpace(runes) && text != [] && IsPlain(text[0])
    ensures TrimLeft(Flat(runes) + text) == text
    decreases |runes|
  {
    if runes == [] {
      assert Flat(runes) + text == text;
    } else {
      var r, s := runes[0], Flat(runes) + text;
      assert s == r + (Flat(runes[1..]) + text);
      assert s[..|r|] == r && s[|r|..] == Flat(runes[1..]) + text;
      assert SpaceAtStart(s) == |r| by {
        assert |r| > 1 ==> s[..1][0] == r[0];
        assert |r| > 2 ==> s[..2][0] == r[0];
      }
      TrimLeftOfPadded(runes[1..], text);
    }
  }

  lemma {:induction false} FlatOfSnoc(runes: seq<Blob>)
    requires runes != []
    ensures Flat(runes) == Flat(runes[..|runes| - 1]) + runes[|runes| - 1]
    decreases |runes|
  {
    var n := |runes| - 1;
    if n > 0 {
      FlatOfSnoc(runes[1..]);
      assert runes[1..][..n - 1] == runes[..n][1..];
      Regroup(runes[0], Flat(runes[..n][1..]), runes[n]);
    } else {
      assert runes[1..] == [] && runes[..0] == [];
    }
  }

  lemma TrimRightOfRune(s: Blob, r: Blob)
    requires IsSpaceRune(r)
    ensures TrimRight(s + r) == TrimRight(s)
  {
    var t := s + r;
    assert t[|t| - |r|..] == r && t[..|t| - |r|] == s;
    assert SpaceAtEnd(t) == |r| by {
      assert |r| > 1 ==> t[|t| - 1..][0] == r[|r| - 1];
      assert |r| > 2 ==> t[|t| - 2..][0] == r[|r| - 2];
    }
  }

  lemma NoSpaceAtEnd(text: Blob)
    requires text != [] && IsPlain(text[|text| - 1])
    ensures SpaceAtEnd(text) == 0
  {
    var n := |text|;
    assert text[n - 1..] == [text[n - 1]];
    assert n > 1 ==> text[n - 2..] == [text[n - 2], text[n - 1]];
    assert n > 2 ==> text[n - 3..] == [text[n - 3], text[n - 2], text[n - 1]];
  }

  lemma {:induction false} TrimRightOfPadded(runes: seq<Blob>, text: Blob)
    requires AllSpace(runes) && text != [] && IsPlain(text[|text| - 1])
    ensures TrimRight(text + Flat(runes)) == text
    decreases |runes|
  {
    if runes == [] {
      assert text + Flat(runes) == text;
      NoSpaceAtEnd(text);
    } else {
      var n := |runes| - 1;
      TrimRightOfPadded(runes[..n], text);
      TrimRightOfRune(text + Flat(runes[..n]), runes[n]);
      FlatOfSnoc(runes);
      Regroup(text, Flat(runes[..n]), runes[n]);
    }
  }

  lemma Regroup(a: Blob, b: Blob, c: Blob)
    ensures a + (b + c) == a + b + c
  {
  }

  // ---------------------------------------------------------------- loading

  function MasterKeyFromBase64(s: Blob): Option<Blob> {
    var data := Decode(TrimSpace(s));
    if data.Some? && |data.value| == KEY_BYTES then data else None
  }

  /** One line end is dropped from a file that is longer than a key by exactly that line end. */
  function DropLineEnd(raw: Blob): Blob {
    var n := |raw|;
    if n == 33 && raw[n - 1] == LF then raw[..n - 1]
    else if n == 34 && raw[n - 1] == LF && raw[n - 2] == CR then raw[..n - 2]
    else raw
  }

  /** `file` is the content, if the file can be read. */
  function LoadMasterKey(file: Option<Blob>): Option<Blob> {
    if file.None? then None
    else
      var b64 := Decode(TrimSpace(file.value));
      if b64.Some? && |b64.value| == KEY_BYTES then b64
      else
        var raw := DropLineEnd(file.value);
        if |raw| == KEY_BYTES then Some(raw) else None
  }

  /** A text of fewer than 44 bytes never decodes to a key, so no raw key, with or without a line
      end, is ever taken for base64. */
  lemma ShortTextIsNoKey(content: Blob)
    requires MasterKeyFromBase64(content).Some?
    ensures |content| >= 44
  {
    var text := Unfold(TrimSpace(content));
    var groups := DecodedLength(text, MasterKeyFromBase64(content).value);
  }

  /** Loading reads the text first and falls back to the raw bytes. */
  lemma LoadCases(content: Blob)
    ensures MasterKeyFromBase64(content).Some? ==> LoadMasterKey(Some(content)) == MasterKeyFromBase64(content)
    ensures MasterKeyFromBase64(content).None? ==>
              LoadMasterKey(Some(content)) ==
              if |DropLineEnd(content)| == KEY_BYTES then Some(DropLineEnd(content)) else None
  {
  }

  lemma RawForms(content: Blob, k: Blob)
    requires |k| == KEY_BYTES
    ensures DropLineEnd(content) == k <==> content == k || content == k + [LF] || content == k + [CR, LF]
  {
    var n := |content|;
    assert (k + [LF])[..32] == k && (k + [CR, LF])[..32] == k;
    if n == 33 && content[n - 1] == LF { assert content == content[..32] + [LF]; }
    if n == 34 && content[n - 1] == LF && content[n - 2] == CR { assert content == content[..32] + [CR, LF]; }
  }

  /** Exactly which files load as which key. */
  lemma LoadsExactly(content: Blob, k: Blob)
    requires |k| == KEY_BYTES
    ensures LoadMasterKey(Some(content)) == Some(k) <==>
              MasterKeyFromBase64(content) == Some(k) || content == k || content == k + [LF] || content == k + [CR, LF]
  {
    LoadCases(content);
    RawForms(content, k);
    if MasterKeyFromBase64(content).Some? { ShortTextIsNoKey(content); }
  }

  lemma TrimOfPadded(text: Blob, before: seq<Blob>, after: seq<Blob>)
    requires AllSpace(before) && AllSpace(after) && text != [] && IsPlain(text[0]) && IsPlain(text[|text| - 1])
    ensures TrimSpace(Flat(before) + text + Flat(after)) == text
  {
    ThreeParts(Flat(before), text, Flat(after));
    TrimLeftOfPadded(before, text + Flat(after));
    TrimRightOfPadded(after, text);
  }

  lemma ThreeParts(a: Blob, b: Blob, c: Blob)
    requires b != []
    ensures a + b + c == a + (b + c) && (b + c)[0] == b[0]
  {
  }

  lemma LoadOfText(content: Blob, text: Blob, groups: Blob, k: Blob)
    requires TrimSpace(content) == text && Unfold(text) == groups && DecodeGroups(groups) == Some(k) && |k| == KEY_BYTES
    ensures MasterKeyFromBase64(content) == Some(k) && LoadMasterKey(Some(content)) == Some(k)
  {
  }

  /** The base64 text of any key loads as that key, with white space around it and with line ends
      folded into it. */
  lemma TextLoads(k: Blob, text: Blob, before: seq<Blob>, after: seq<Blob>)
    requires |k| == KEY_BYTES && AllSpace(before) && AllSpace(after)
    requires Unfold(text) == Encode(k) && text != [] && IsPlain(text[0]) && IsPlain(text[|text| - 1])
    ensures MasterKeyFromBase64(Flat(before) + text + Flat(after)) == Some(k)
    ensures LoadMasterKey(Some(Flat(before) + text + Flat(after))) == Some(k)
  {
    TrimOfPadded(text, before, after);
    DecodeOfEncode(k);
    LoadOfText(Flat(before) + text + Flat(after), text, Encode(k), k);
  }

  lemma {:induction false} UnfoldOfPlain(s: Blob)
    requires forall i :: 0 <= i < |s| ==> s[i] != LF && s[i] != CR
    ensures Unfold(s) == s
    decreases |s|
  {
    if s != [] { UnfoldOfPlain(s[1..]); }
  }

  lemma EncodedLoads(k: Blob, before: seq<Blob>, after: seq<Blob>)
    requires |k| == KEY_BYTES && AllSpace(before) && AllSpace(after)
    ensures LoadMasterKey(Some(Flat(before) + Encode(k) + Flat(after))) == Some(k)
  {
    EncodedText(k);
    UnfoldOfPlain(Encode(k));
    TextLoads(k, Encode(k), before, after);
  }

  /** Every form of every key loads as that key. */
  lemma EveryFormLoads(k: Blob, before: seq<Blob>, after: seq<Blob>, content: Blob)
    requires |k| == KEY_BYTES && AllSpace(before) && AllSpace(after)
    requires content == k || content == k + [LF] || content == k + [CR, LF] ||
             content == Flat(before) + Encode(k) + Flat(after)
    ensures LoadMasterKey(Some(content)) == Some(k)
  {
    if content == Flat(before) + Encode(k) + Flat(after) {
      EncodedLoads(k, before, after);
    } else {
      LoadsExactly(content, k);
    }
  }
}
