/** The string operations the modelled code takes from its standard library. */
module Text {
  import opened Wrappers

  /** Unicode white space. */
  predicate IsSpace(c: char) {
    '\t' <= c <= '\r' || c == ' ' || c == '\U{0085}' || c == '\U{00a0}' || c == '\U{1680}' ||
    '\U{2000}' <= c <= '\U{200a}' || c == '\U{2028}' || c == '\U{2029}' || c == '\U{202f}' ||
    c == '\U{205f}' || c == '\U{3000}'
  }

  function TrimLeft(s: string): string
    decreases |s|
  {
    if s != [] && IsSpace(s[0]) then TrimLeft(s[1..]) else s
  }

  function TrimRight(s: string): string
    decreases |s|
  {
    if s != [] && IsSpace(s[|s| - 1]) then TrimRight(s[..|s| - 1]) else s
  }

  function TrimSpace(s: string): string { TrimRight(TrimLeft(s)) }

  /** The length of the leading run without white space. */
  function WordLength(s: string): (n: nat)
    ensures n <= |s|
    decreases |s|
  {
    if s == [] || IsSpace(s[0]) then 0 else 1 + WordLength(s[1..])
  }

  /** The maximal runs without white space. */
  function Fields(s: string): seq<string>
    decreases |s|
  {
    if s == [] then []
    else if IsSpace(s[0]) then Fields(s[1..])
    else [s[..WordLength(s)]] + Fields(s[WordLength(s)..])
  }

  /** The position of the first `c`, or the length. */
  function Find(s: string, c: char): (n: nat)
    ensures n <= |s|
    ensures n < |s| ==> s[n] == c
    ensures c !in s[..n]
    decreases |s|
  {
    if s == [] || s[0] == c then 0
    else
      var n := 1 + Find(s[1..], c);
      assert s[..n] == [s[0]] + s[1..][..n - 1];
      n
  }

  /** The pieces between separators; there is always one more than separators. */
  function Split(s: string, c: char): (parts: seq<string>)
    ensures parts != []
    decreases |s|
  {
    var n := Find(s, c);
    if n == |s| then [s] else [s[..n]] + Split(s[n + 1..], c)
  }

  function Join(parts: seq<string>, c: char): string
    requires parts != []
    decreases |parts|
  {
    if |parts| == 1 then parts[0] else parts[0] + [c] + Join(parts[1..], c)
  }

  predicate PartAt<T(==)>(s: seq<T>, part: seq<T>, i: int) { 0 <= i <= |s| - |part| && s[i..i + |part|] == part }

  predicate Contains<T(==)>(s: seq<T>, part: seq<T>) { exists i :: 0 <= i <= |s| && PartAt(s, part, i) }

  predicate IsDigit(c: char) { '0' <= c <= '9' }

  predicate AllDigits(s: string) { forall k :: 0 <= k < |s| ==> IsDigit(s[k]) }

  function DigitsValue(s: string): nat
    requires AllDigits(s)
    decreases |s|
  {
    if s == [] then 0 else 10 * DigitsValue(s[..|s| - 1]) + (s[|s| - 1] as int - '0' as int)
  }

  const MAX_INT := 0x7fff_ffff_ffff_ffff
  const MIN_INT := -0x8000_0000_0000_0000

  /** A decimal numeral with an optional sign that fits a 64-bit integer. */
  function Atoi(s: string): (r: Option<int>)
    ensures r.Some? ==> MIN_INT <= r.value <= MAX_INT
  {
    var body := if s != [] && (s[0] == '-' || s[0] == '+') then s[1..] else s;
    if body == [] || !AllDigits(body) then None
    else
      var size: int := DigitsValue(body);
      var n := if s[0] == '-' then -size else size;
      if MIN_INT <= n <= MAX_INT then Some(n) else None
  }

  /** The usual decimal numeral. */
  function Decimal(n: nat): (s: string)
    ensures s != [] && AllDigits(s)
    decreases n
  {
    var last := [('0' as int + n % 10) as char];
    if n < 10 then last else Decimal(n / 10) + last
  }

  lemma {:induction false} DecimalValue(n: nat)
    ensures DigitsValue(Decimal(n)) == n
    decreases n
  {
    var s := Decimal(n);
    if 10 <= n {
      assert s[..|s| - 1] == Decimal(n / 10);
      DecimalValue(n / 10);
    }
  }

  /** Reading a numeral gives the number back. */
  lemma AtoiOfDecimal(n: nat)
    requires n <= MAX_INT
    ensures Atoi(Decimal(n)) == Some(n)
  {
    DecimalValue(n);
    assert IsDigit(Decimal(n)[0]);
  }

  lemma FindAfter(a: string, c: char, b: string)
    requires c !in a
    ensures Find(a + [c] + b, c) == |a|
  {
    var s := a + [c] + b;
    var n := Find(s, c);
    assert s[|a|] == c;
    forall k | 0 <= k < n ensures s[k] != c { assert s[..n][k] == s[k]; }
  }

  lemma {:induction false} SplitOfJoin(parts: seq<string>, c: char)
    requires parts != [] && forall k :: 0 <= k < |parts| ==> c !in parts[k]
    ensures Split(Join(parts, c), c) == parts
    decreases |parts|
  {
    if |parts| == 1 {
      assert Find(parts[0], c) == |parts[0]|;
    } else {
      var rest := Join(parts[1..], c);
      var s := parts[0] + [c] + rest;
      FindAfter(parts[0], c, rest);
      assert s[..|parts[0]|] == parts[0] && s[|parts[0]| + 1..] == rest;
      SplitOfJoin(parts[1..], c);
    }
  }

  lemma {:induction false} TrimOfClean(s: string)
    requires forall k :: 0 <= k < |s| ==> !IsSpace(s[k])
    ensures TrimSpace(s) == s
  {
  }

  lemma {:induction false} JoinOfSplit(s: string, c: char)
    ensures Join(Split(s, c), c) == s
    ensures forall k :: 0 <= k < |Split(s, c)| ==> c !in Split(s, c)[k]
    decreases |s|
  {
    var n := Find(s, c);
    if n < |s| {
      JoinOfSplit(s[n + 1..], c);
      assert s == s[..n] + [c] + s[n + 1..];
    } else {
      assert s[..n] == s;
    }
  }

  // ---------------------------------------------------------------- words and gaps

  predicate IsWord(w: string) { w != "" && forall k :: 0 <= k < |w| ==> !IsSpace(w[k]) }

  predicate IsGap(g: string) { forall k :: 0 <= k < |g| ==> IsSpace(g[k]) }

  /** The words with the gaps before, between and after them. */
  function Layout(words: seq<string>, gaps: seq<string>): string
    requires |gaps| == |words| + 1
    decreases |words|
  {
    if words == [] then gaps[0] else gaps[0] + (words[0] + Layout(words[1..], gaps[1..]))
  }

  predicate Separates(words: seq<string>, gaps: seq<string>) {
    && |gaps| == |words| + 1
    && (forall i :: 0 <= i < |words| ==> IsWord(words[i]))
    && (forall i :: 0 <= i < |gaps| ==> IsGap(gaps[i]))
    && (forall i :: 0 < i < |words| ==> gaps[i] != "")
  }

  /** The text consists of these words, in this order, with white space around them. */
  ghost predicate HasWords(s: string, words: seq<string>) {
    exists gaps :: Separates(words, gaps) && s == Layout(words, gaps)
  }

  lemma {:induction false} FieldsSkipGap(g: string, s: string)
    requires IsGap(g)
    ensures Fields(g + s) == Fields(s)
    decreases |g|
  {
    if g == "" {
      assert g + s == s;
    } else {
      assert (g + s)[0] == g[0] && (g + s)[1..] == g[1..] + s;
      FieldsSkipGap(g[1..], s);
    }
  }

  lemma {:induction false} WordLengthOf(w: string, s: string)
    requires IsWord(w) && (s == "" || IsSpace(s[0]))
    ensures WordLength(w + s) == |w|
    decreases |w|
  {
    assert (w + s)[0] == w[0] && (w + s)[1..] == w[1..] + s;
    if |w| == 1 {
      assert w[1..] + s == s;
    } else {
      WordLengthOf(w[1..], s);
    }
  }

  lemma FieldsTakeWord(w: string, s: string)
    requires IsWord(w) && (s == "" || IsSpace(s[0]))
    ensures Fields(w + s) == [w] + Fields(s)
  {
    WordLengthOf(w, s);
    assert (w + s)[..|w|] == w && (w + s)[|w|..] == s && (w + s)[0] == w[0];
  }

  lemma {:induction false} FieldsOfLayout(words: seq<string>, gaps: seq<string>)
    requires Separates(words, gaps)
    ensures Fields(Layout(words, gaps)) == words
    decreases |words|
  {
    if words == [] {
      assert gaps[0] + "" == gaps[0];
      FieldsSkipGap(gaps[0], "");
    } else {
      var rest := Layout(words[1..], gaps[1..]);
      assert rest == "" || IsSpace(rest[0]) by {
        assert IsGap(gaps[1]) && gaps[1..][0] == gaps[1];
      }
      FieldsSkipGap(gaps[0], words[0] + rest);
      FieldsTakeWord(words[0], rest);
      FieldsOfLayout(words[1..], gaps[1..]);
      assert words == [words[0]] + words[1..];
    }
  }

  lemma {:induction false} WordIsWord(s: string)
    requires s != "" && !IsSpace(s[0])
    ensures var n := WordLength(s); 0 < n && IsWord(s[..n]) && (s[n..] == "" || IsSpace(s[n..][0]))
    decreases |s|
  {
    var n := WordLength(s);
    assert s[..n] == [s[0]] + s[1..][..n - 1] && s[n..] == s[1..][n - 1..];
    if |s| > 1 && !IsSpace(s[1]) { WordIsWord(s[1..]); }
  }

  /** The gaps around the words that were found. */
  lemma {:induction false} GapsAround(s: string) returns (gaps: seq<string>)
    ensures Separates(Fields(s), gaps) && s == Layout(Fields(s), gaps)
    ensures s != "" && !IsSpace(s[0]) ==> gaps[0] == ""
    ensures s != "" && IsSpace(s[0]) ==> gaps[0] != ""
    decreases |s|
  {
    if s == "" {
      gaps := [""];
    } else if IsSpace(s[0]) {
      gaps := GapsAround(s[1..]);
      assert s == [s[0]] + s[1..];
      WiderGap(Fields(s), gaps, s[0]);
      gaps := [[s[0]] + gaps[0]] + gaps[1..];
    } else {
      var n := WordLength(s);
      WordIsWord(s);
      gaps := GapsAround(s[n..]);
      assert s == "" + (s[..n] + s[n..]);
      gaps := [""] + gaps;
      assert Fields(s)[1..] == Fields(s[n..]) && gaps[1..] == gaps[1..][0..];
      GapsWithWord(s[..n], Fields(s[n..]), gaps);
    }
  }

  lemma WiderGap(words: seq<string>, gaps: seq<string>, c: char)
    requires Separates(words, gaps) && IsSpace(c)
    ensures var wider := [[c] + gaps[0]] + gaps[1..];
      Separates(words, wider) && Layout(words, wider) == [c] + Layout(words, gaps)
  {
    var wider := [[c] + gaps[0]] + gaps[1..];
    assert wider[1..] == gaps[1..] && IsGap(gaps[0]);
    forall i | 0 <= i < |wider| ensures IsGap(wider[i]) {}
    if words != [] {
      var rest := words[0] + Layout(words[1..], gaps[1..]);
      assert [c] + gaps[0] + rest == [c] + (gaps[0] + rest);
    }
  }

  lemma GapsWithWord(w: string, words: seq<string>, gaps: seq<string>)
    requires IsWord(w) && |gaps| > 0 && gaps[0] == "" && Separates(words, gaps[1..])
    requires words != [] ==> gaps[1] != ""
    ensures Separates([w] + words, gaps) && Layout([w] + words, gaps) == w + Layout(words, gaps[1..])
  {
    var all := [w] + words;
    assert all[1..] == words;
    forall i | 0 <= i < |all| ensures IsWord(all[i]) { assert i > 0 ==> all[i] == words[i - 1]; }
    forall i | 0 <= i < |gaps| ensures IsGap(gaps[i]) { assert i > 0 ==> gaps[i] == gaps[1..][i - 1]; }
    forall i | 0 < i < |all| ensures gaps[i] != "" { assert i > 1 ==> gaps[i] == gaps[1..][i - 1]; }
  }

  /** The fields of a text are its words, in order. */
  lemma FieldsIff(s: string, words: seq<string>)
    ensures words == Fields(s) <==> HasWords(s, words)
  {
    if HasWords(s, words) {
      var gaps :| Separates(words, gaps) && s == Layout(words, gaps);
      FieldsOfLayout(words, gaps);
    }
    var gaps := GapsAround(s);
    assert HasWords(s, Fields(s));
  }

  // ---------------------------------------------------------------- trimming and signs

  predicate IsTrimmed(s: string) { s == "" || (!IsSpace(s[0]) && !IsSpace(s[|s| - 1])) }

  lemma {:induction false} TrimLeftOf(a: string, s: string)
    requires IsGap(a) && (s == "" || !IsSpace(s[0]))
    ensures TrimLeft(a + s) == s
    decreases |a|
  {
    if a == "" {
      assert a + s == s;
    } else {
      assert (a + s)[0] == a[0] && (a + s)[1..] == a[1..] + s;
      TrimLeftOf(a[1..], s);
    }
  }

  lemma {:induction false} TrimRightOf(s: string, b: string)
    requires IsGap(b) && (s == "" || !IsSpace(s[|s| - 1]))
    ensures TrimRight(s + b) == s
    decreases |b|
  {
    if b == "" {
      assert s + b == s;
    } else {
      var n := |b| - 1;
      assert (s + b)[..|s + b| - 1] == s + b[..n] && (s + b)[|s + b| - 1] == b[n];
      TrimRightOf(s, b[..n]);
    }
  }

  /** White space at both ends is trimmed, and nothing else. */
  lemma TrimOf(a: string, s: string, b: string)
    requires IsGap(a) && IsGap(b) && IsTrimmed(s)
    ensures TrimSpace(a + s + b) == s
  {
    if s == "" {
      assert a + s + b == a + b + "";
      TrimLeftOf(a + b, "");
    } else {
      assert a + s + b == a + (s + b);
      TrimLeftOf(a, s + b);
      TrimRightOf(s, b);
    }
  }

  /** Signs and leading zeros. */
  lemma AtoiOfSigned(n: int)
    requires 0 <= n <= MAX_INT
    ensures Atoi("+" + Decimal(n)) == Some(n) && Atoi("-" + Decimal(n)) == Some(-n) && Atoi("0" + Decimal(n)) == Some(n)
  {
    var s := Decimal(n);
    DecimalValue(n);
    assert ("+" + s)[1..] == s && ("-" + s)[1..] == s;
    assert ("0" + s)[0] == '0' && AllDigits("0" + s);
    ZeroInFront(s);
  }

  lemma {:induction false} ZeroInFront(s: string)
    requires AllDigits(s)
    ensures AllDigits("0" + s) && DigitsValue("0" + s) == DigitsValue(s)
    decreases |s|
  {
    if s == "" {
      assert ("0" + s)[..0] == "";
    } else {
      var n := |s| - 1;
      assert ("0" + s)[..n + 1] == "0" + s[..n] && ("0" + s)[n + 1] == s[n];
      ZeroInFront(s[..n]);
    }
  }
}
