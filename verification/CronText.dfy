/** Parsing the five-field cron text: what is accepted, and what the accepted text denotes. */
module CronText {
  import opened Wrappers
  import opened Text
  import opened CronSearch
  import Calendar

  /** What one comma-separated part of a field says. */
  datatype Part =
    | Star
    | Step(n: int)
    | Range(from: int, to: int)
    | Single(v: int)
    | Malformed

  datatype CronError =
    | FieldCount(n: nat)
    | BadField(index: nat, part: string)

  /** `*`, then a positive step after the prefix, then a range wherever there is a hyphen, and
      otherwise one number. */
  function Classify(part: string): Part {
    if part == "*" then Star
    else if "*/" <= part then
      (match Atoi(part[2..])
       case Some(n) => if 0 < n then Step(n) else Malformed
       case None => Malformed)
    else if '-' in part then
      (match (Atoi(part[..Find(part, '-')]), Atoi(part[Find(part, '-')..][1..]))
       case (Some(a), Some(b)) => Range(a, b)
       case _ => Malformed)
    else
      match Atoi(part)
      case Some(n) => Single(n)
      case None => Malformed
  }

  /** Whether a part is acceptable for a field with values from `lo` to `hi`. */
  predicate Accepts(part: Part, lo: int, hi: int) {
    match part
    case Star => true
    case Step(_) => true
    case Range(a, b) => lo <= a <= b <= hi
    case Single(v) => lo <= v <= hi
    case Malformed => false
  }

  predicate Multiple(v: int, lo: int, n: int)
    requires n != 0
  {
    (v - lo) % n == 0
  }

  /** The values a part stands for. */
  predicate Means(part: Part, v: int, lo: int, hi: int) {
    lo <= v <= hi &&
    match part
    case Star => true
    case Step(n) => 0 < n && Multiple(v, lo, n)
    case Range(a, b) => a <= v <= b
    case Single(n) => v == n
    case Malformed => false
  }

  /** Adding the step to the first value already passes the largest 64-bit integer. */
  predicate StepOverflows(part: Part, lo: int) {
    part.Step? && MAX_INT - lo < part.n
  }

  /** What the parts of a field say. */
  function Parts(field: string): (parts: seq<Part>)
    ensures |parts| == |Split(field, ',')|
    ensures forall k :: 0 <= k < |parts| ==> parts[k] == Classify(TrimSpace(Split(field, ',')[k]))
  {
    var texts := Split(field, ',');
    seq(|texts|, k requires 0 <= k < |texts| => Classify(TrimSpace(texts[k])))
  }

  predicate AllAccepted(parts: seq<Part>, lo: int, hi: int) {
    forall k :: 0 <= k < |parts| ==> Accepts(parts[k], lo, hi)
  }

  predicate SomeMeans(parts: seq<Part>, v: int, lo: int, hi: int) {
    exists k :: 0 <= k < |parts| && Means(parts[k], v, lo, hi)
  }

  predicate SomeOverflows(parts: seq<Part>, lo: int) {
    exists k :: 0 <= k < |parts| && StepOverflows(parts[k], lo)
  }

  /** 64-bit addition of two values whose sum overflows at most once. */
  function WrapAdd(a: int, b: int): int {
    if a + b > MAX_INT then a + b - 0x1_0000_0000_0000_0000 else a + b
  }

  ghost predicate HasStray(vals: seq<int>, lo: int, hi: int) {
    exists v :: v in vals && !(lo <= v <= hi)
  }

  /** `vals` holds exactly the values the parts denote. An overflowing step also leaves values that
      can occur in no date, and nothing else does. */
  ghost predicate Represents(parts: seq<Part>, vals: seq<int>, lo: int, hi: int) {
    && (forall v :: lo <= v <= hi ==> (v in vals <==> SomeMeans(parts, v, lo, hi)))
    && (HasStray(vals, lo, hi) <==> SomeOverflows(parts, lo))
    && (parts != [] ==> Admits(vals, lo, hi))
  }

  lemma {:induction false} MulStep(a: int, b: int, n: int)
    requires a < b && 0 < n
    ensures a * n + n <= b * n
    decreases b - a
  {
    if a + 1 < b { MulStep(a, b - 1, n); }
    assert b * n == (b - 1) * n + n;
  }

  lemma SameRemainder(q: int, d: int, r: int, m: int, n: int)
    requires 0 <= d < n && 0 <= m < n && q * n + d == r * n + m
    ensures d == m
  {
    if q < r { MulStep(q, r, n); }
    if r < q { MulStep(r, q, n); }
  }

  lemma QuotientIsUnique(w: int, q: int, d: int, n: int)
    requires 0 <= d < n && w == q * n + d
    ensures w % n == d
  {
    SameRemainder(q, d, w / n, w % n, n);
  }

  /** Between two consecutive values of a step there is no other. */
  lemma NextMultiple(lo: int, v: int, n: int)
    requires 0 < n && Multiple(v, lo, n)
    ensures Multiple(v + n, lo, n)
    ensures forall u :: v < u < v + n ==> !Multiple(u, lo, n)
  {
    var q := (v - lo) / n;
    assert v - lo == q * n;
    assert v + n - lo == (q + 1) * n;
    QuotientIsUnique(v + n - lo, q + 1, 0, n);
    forall u | v < u < v + n ensures !Multiple(u, lo, n) {
      QuotientIsUnique(u - lo, q, u - v, n);
    }
  }

  // ---------------------------------------------------------------- the parsers

  /** The loops of `*` and of a range. */
  method CountUp(from: int, to: int) returns (vals: seq<int>)
    requires from <= to
    ensures forall u :: u in vals <==> from <= u <= to
  {
    vals := [];
    var v := from;
    while v <= to
      invariant from <= v <= to + 1
      invariant forall u :: u in vals <==> from <= u < v
    {
      vals := vals + [v];
      v := v + 1;
    }
  }

  /** The loop of a step; it adds with 64-bit integers. */
  method CountBySteps(lo: int, hi: int, step: int) returns (vals: seq<int>)
    requires 0 <= lo <= 1 && lo <= hi <= 59 && 0 < step <= MAX_INT
    ensures forall u :: lo <= u <= hi ==> (u in vals <==> Multiple(u, lo, step))
    ensures HasStray(vals, lo, hi) <==> MAX_INT - lo < step
  {
    vals := [];
    var v := lo;
    ghost var wraps := MAX_INT - lo < step;   // only for 1 + MAX_INT, and then twice
    while v <= hi
      invariant !wraps ==>
        && (v == lo || lo + step <= v) && Multiple(v, lo, step)
        && (forall u :: lo <= u < v ==> (u in vals <==> Multiple(u, lo, step)))
        && (forall u :: u in vals ==> lo <= u <= hi && u < v)
      invariant wraps ==> lo == 1 && step == MAX_INT && Wrapping(v, vals)
      decreases if wraps then 3 - |vals| else hi - v
    {
      if !wraps { NextMultiple(lo, v, step); }
      vals := vals + [v];
      v := WrapAdd(v, step);
    }
    assert wraps ==> vals[1] == MIN_INT && MIN_INT in vals;
  }

  /** The states of the loop when the step is the largest integer and the first value is 1. */
  ghost predicate Wrapping(v: int, vals: seq<int>) {
    || (v == 1 && vals == [])
    || (v == MIN_INT && vals == [1])
    || (v == -1 && vals == [1, MIN_INT])
    || (v == MAX_INT - 1 && vals == [1, MIN_INT, -1])
  }

  method ParseCronStep(part: string, lo: int, hi: int) returns (r: Result<seq<int>, string>)
    requires 0 <= lo <= 1 && lo <= hi <= 59 && "*/" <= part && part != "*"
    ensures r.Ok? <==> Accepts(Classify(part), lo, hi)
    ensures r.Ok? ==> Represents([Classify(part)], r.value, lo, hi)
    ensures r.Err? ==> r.error == part
  {
    var n := Atoi(part[2..]);
    if n.None? || n.value <= 0 { return Err(part); }
    var vals := CountBySteps(lo, hi, n.value);
    OnePart(Classify(part), vals, lo, hi);
    return Ok(vals);
  }

  method ParseCronRange(part: string, lo: int, hi: int) returns (r: Result<seq<int>, string>)
    requires 0 <= lo <= hi && !("*/" <= part) && '-' in part
    ensures r.Ok? <==> Accepts(Classify(part), lo, hi)
    ensures r.Ok? ==> Represents([Classify(part)], r.value, lo, hi)
    ensures r.Err? ==> r.error == part
  {
    var cut := Find(part, '-');
    var a, b := Atoi(part[..cut]), Atoi(part[cut..][1..]);
    if a.None? || b.None? { return Err(part); }
    if a.value < lo || hi < b.value || b.value < a.value { return Err(part); }
    var vals := CountUp(a.value, b.value);
    OnePart(Classify(part), vals, lo, hi);
    return Ok(vals);
  }

  /** Establishes `Represents` for a single part. */
  lemma OnePart(part: Part, vals: seq<int>, lo: int, hi: int)
    requires 0 <= lo <= hi && Accepts(part, lo, hi)
    requires forall v :: lo <= v <= hi ==> (v in vals <==> Means(part, v, lo, hi))
    requires HasStray(vals, lo, hi) <==> StepOverflows(part, lo)
    requires part.Step? ==> 0 < part.n
    ensures Represents([part], vals, lo, hi)
  {
    assert forall v :: SomeMeans([part], v, lo, hi) <==> Means([part][0], v, lo, hi);
    assert SomeOverflows([part], lo) <==> StepOverflows([part][0], lo);
    var some := if part.Range? then part.from else if part.Single? then part.v else lo;
    assert Means(part, some, lo, hi);
  }

  /** A part with a `*` or a hyphen; None leaves it to the caller to read a plain number. */
  method ParseCronPart(part: string, lo: int, hi: int) returns (r: Option<Result<seq<int>, string>>)
    requires 0 <= lo <= 1 && lo <= hi <= 59
    ensures r.None? <==> part != "*" && !("*/" <= part) && '-' !in part
    ensures r.Some? ==> (r.value.Ok? <==> Accepts(Classify(part), lo, hi))
    ensures r.Some? && r.value.Ok? ==> Represents([Classify(part)], r.value.value, lo, hi)
    ensures r.Some? && r.value.Err? ==> r.value.error == part
  {
    if part == "*" {
      var vals := CountUp(lo, hi);
      OnePart(Star, vals, lo, hi);
      return Some(Ok(vals));
    }
    if "*/" <= part {
      var res := ParseCronStep(part, lo, hi);
      return Some(res);
    }
    if '-' in part {
      var res := ParseCronRange(part, lo, hi);
      return Some(res);
    }
    r := None;
  }

  /** One part of the loop of `ParseCronField`: a pattern, or else a number in the field's range. */
  method ParsePart(part: string, lo: int, hi: int) returns (r: Result<seq<int>, string>)
    requires 0 <= lo <= 1 && lo <= hi <= 59
    ensures r.Ok? <==> Accepts(Classify(part), lo, hi)
    ensures r.Ok? ==> Represents([Classify(part)], r.value, lo, hi)
    ensures r.Err? ==> r.error == part
  {
    var res := ParseCronPart(part, lo, hi);
    if res.Some? { return res.value; }
    var n := Atoi(part);
    if n.None? || n.value < lo || hi < n.value { return Err(part); }
    OnePart(Classify(part), [n.value], lo, hi);
    return Ok([n.value]);
  }

  /** The values of two lists of parts are the values of the joined list. */
  lemma JoinParts(a: seq<Part>, va: seq<int>, b: seq<Part>, vb: seq<int>, lo: int, hi: int)
    requires Represents(a, va, lo, hi) && Represents(b, vb, lo, hi)
    ensures Represents(a + b, va + vb, lo, hi)
  {
    forall v ensures SomeMeans(a + b, v, lo, hi) <==> SomeMeans(a, v, lo, hi) || SomeMeans(b, v, lo, hi) {
      if SomeMeans(a, v, lo, hi) {
        var k :| 0 <= k < |a| && Means(a[k], v, lo, hi);
        assert (a + b)[k] == a[k];
      }
      if SomeMeans(b, v, lo, hi) {
        var k :| 0 <= k < |b| && Means(b[k], v, lo, hi);
        assert (a + b)[|a| + k] == b[k];
      }
    }
    if SomeOverflows(a, lo) {
      var k :| 0 <= k < |a| && StepOverflows(a[k], lo);
      assert (a + b)[k] == a[k];
    }
    if SomeOverflows(b, lo) {
      var k :| 0 <= k < |b| && StepOverflows(b[k], lo);
      assert (a + b)[|a| + k] == b[k];
    }
    JoinStrays(va, vb, lo, hi);
    if a != [] {
      var v :| lo <= v <= hi && v in va;
      assert v in va + vb;
    } else if b != [] {
      var v :| lo <= v <= hi && v in vb;
      assert v in va + vb;
    }
  }

  lemma JoinStrays(va: seq<int>, vb: seq<int>, lo: int, hi: int)
    ensures HasStray(va + vb, lo, hi) <==> HasStray(va, lo, hi) || HasStray(vb, lo, hi)
  {
    assert forall v :: v in va + vb <==> v in va || v in vb;
  }

  /** The text of the first part of the field that is not acceptable. */
  ghost predicate IsFirstBadPart(field: string, part: string, lo: int, hi: int) {
    exists k :: 0 <= k < |Parts(field)| && part == TrimSpace(Split(field, ',')[k]) &&
      !Accepts(Parts(field)[k], lo, hi) && AllAccepted(Parts(field)[..k], lo, hi)
  }

  /** Accepts a field exactly when every part is acceptable, and then yields exactly the values
      the text denotes, apart from the impossible values an overflowing step leaves behind. */
  method ParseCronField(field: string, lo: int, hi: int) returns (r: Result<seq<int>, string>)
    requires 0 <= lo <= 1 && lo <= hi <= 59
    ensures r.Ok? <==> AllAccepted(Parts(field), lo, hi)
    ensures r.Ok? ==> Represents(Parts(field), r.value, lo, hi)
    ensures r.Err? ==> IsFirstBadPart(field, r.error, lo, hi)
  {
    var texts := Split(field, ',');
    ghost var parts := Parts(field);
    var out, i := [], 0;
    while i < |texts|
      invariant 0 <= i <= |texts| == |parts|
      invariant AcceptedSoFar(parts, i, out, lo, hi)
    {
      var res := ParsePart(TrimSpace(texts[i]), lo, hi);
      if res.Err? {
        assert !Accepts(parts[i], lo, hi) && AllAccepted(parts[..i], lo, hi);
        return res;
      }
      TakePart(parts, i, out, res.value, lo, hi);
      out := out + res.value;
      i := i + 1;
    }
    assert parts[..i] == parts;
    return Ok(out);
  }

  ghost predicate AcceptedSoFar(parts: seq<Part>, i: nat, out: seq<int>, lo: int, hi: int) {
    i <= |parts| && AllAccepted(parts[..i], lo, hi) && Represents(parts[..i], out, lo, hi)
  }

  lemma TakePart(parts: seq<Part>, i: nat, out: seq<int>, vals: seq<int>, lo: int, hi: int)
    requires i < |parts| && AcceptedSoFar(parts, i, out, lo, hi)
    requires Accepts(parts[i], lo, hi) && Represents([parts[i]], vals, lo, hi)
    ensures AcceptedSoFar(parts, i + 1, out + vals, lo, hi)
  {
    JoinParts(parts[..i], out, [parts[i]], vals, lo, hi);
    assert parts[..i + 1] == parts[..i] + [parts[i]];
  }

  /** The bounds of minute, hour, day of month, month and day of week. */
  const RANGES: seq<(int, int)> := [(0, 59), (0, 23), (1, 31), (1, 12), (0, 6)]

  ghost predicate FieldOk(fields: seq<string>, i: nat)
    requires i < 5
  {
    i < |fields| && AllAccepted(Parts(fields[i]), RANGES[i].0, RANGES[i].1)
  }

  function Field(e: CronExpr, i: nat): seq<int>
    requires i < 5
  {
    match i
    case 0 => e.minute
    case 1 => e.hour
    case 2 => e.dom
    case 3 => e.month
    case _ => e.dow
  }

  ghost predicate FieldParsed(fields: seq<string>, e: CronExpr, i: nat)
    requires i < 5 && i < |fields|
  {
    Represents(Parts(fields[i]), Field(e, i), RANGES[i].0, RANGES[i].1)
  }

  ghost predicate Accepted(fields: seq<string>) {
    |fields| == 5 && forall i :: 0 <= i < 5 ==> FieldOk(fields, i)
  }

  ghost predicate Parsed(fields: seq<string>, e: CronExpr) {
    |fields| == 5 && forall i :: 0 <= i < 5 ==> FieldParsed(fields, e, i)
  }

  ghost predicate FirstBad(fields: seq<string>, i: nat) {
    i < 5 == |fields| && !FieldOk(fields, i) && forall k :: 0 <= k < i ==> FieldOk(fields, k)
  }

  function WithField(e: CronExpr, i: nat, vals: seq<int>): (e': CronExpr)
    requires i < 5
    ensures Field(e', i) == vals && forall k :: 0 <= k < 5 && k != i ==> Field(e', k) == Field(e, k)
  {
    match i
    case 0 => e.(minute := vals)
    case 1 => e.(hour := vals)
    case 2 => e.(dom := vals)
    case 3 => e.(month := vals)
    case _ => e.(dow := vals)
  }

  /** What parsing a text with these words gives. */
  ghost predicate ParseAnswers(words: seq<string>, r: Result<CronExpr, CronError>) {
    match r
    case Ok(e) => Accepted(words) && Satisfiable(e) && Parsed(words, e)
    case Err(FieldCount(n)) => n == |words| != 5
    case Err(BadField(index, part)) =>
      && 1 <= index <= 5 && FirstBad(words, index - 1)
      && IsFirstBadPart(words[index - 1], part, RANGES[index - 1].0, RANGES[index - 1].1)
  }

  /** Accepts exactly five acceptable fields; every accepted text can be satisfied. */
  method ParseCronExpr(spec: string) returns (r: Result<CronExpr, CronError>)
    ensures ParseAnswers(Fields(spec), r)
    ensures forall words :: HasWords(spec, words) ==> ParseAnswers(words, r)
  {
    var fields := Fields(spec);
    forall words | HasWords(spec, words) ensures words == fields { FieldsIff(spec, words); }
    if |fields| != 5 { return Err(FieldCount(|fields|)); }
    var e, i := CronExpr([], [], [], [], []), 0;
    while i < 5
      invariant 0 <= i <= 5 && ParsedUpTo(fields, e, i)
    {
      var vals := ParseCronField(fields[i], RANGES[i].0, RANGES[i].1);
      if vals.Err? {
        assert FirstBad(fields, i);
        return Err(BadField(i + 1, vals.error));
      }
      SetField(fields, e, i, vals.value);
      e := WithField(e, i, vals.value);
      i := i + 1;
    }
    ParsedIsSatisfiable(fields, e);
    return Ok(e);
  }

  ghost predicate ParsedUpTo(fields: seq<string>, e: CronExpr, i: nat) {
    i <= 5 == |fields| && forall k :: 0 <= k < i ==> FieldOk(fields, k) && FieldParsed(fields, e, k)
  }

  lemma SetField(fields: seq<string>, e: CronExpr, i: nat, vals: seq<int>)
    requires i < 5 && ParsedUpTo(fields, e, i) && FieldOk(fields, i)
    requires Represents(Parts(fields[i]), vals, RANGES[i].0, RANGES[i].1)
    ensures ParsedUpTo(fields, WithField(e, i, vals), i + 1)
  {
    var e' := WithField(e, i, vals);
    forall k | 0 <= k <= i ensures FieldOk(fields, k) && FieldParsed(fields, e', k) {
      if k < i { assert FieldParsed(fields, e, k) && Field(e', k) == Field(e, k); }
    }
  }

  lemma ParsedIsSatisfiable(fields: seq<string>, e: CronExpr)
    requires Parsed(fields, e)
    ensures Satisfiable(e)
  {
    assert FieldParsed(fields, e, 0) && FieldParsed(fields, e, 1) && FieldParsed(fields, e, 2)
        && FieldParsed(fields, e, 3) && FieldParsed(fields, e, 4);
  }

  // ---------------------------------------------------------------- what a text means

  predicate FieldMeans(fields: seq<string>, i: nat, v: int)
    requires i < 5 == |fields|
  {
    SomeMeans(Parts(fields[i]), v, RANGES[i].0, RANGES[i].1)
  }

  /** The schedule a text stands for, read from the text alone. */
  predicate TextMatches(fields: seq<string>, q: int)
    requires |fields| == 5
  {
    var day := q / DAY_MINUTES;
    FieldMeans(fields, 0, q % 60) && FieldMeans(fields, 1, q / 60 % 24) &&
    FieldMeans(fields, 3, Calendar.DateOf(day).month) &&
    (FieldMeans(fields, 2, Calendar.DateOf(day).day) || FieldMeans(fields, 4, Calendar.Weekday(day)))
  }

  /** A parsed expression matches the instants its text stands for; stray values match nothing. */
  lemma ParsedMeaning(fields: seq<string>, e: CronExpr, q: int)
    requires Parsed(fields, e)
    ensures MatchesMinute(e, q) <==> TextMatches(fields, q)
  {
    var day := q / DAY_MINUTES;
    DateInRange(day);
    FieldMeaning(fields, e, 0, q % 60);
    FieldMeaning(fields, e, 1, q / 60 % 24);
    FieldMeaning(fields, e, 2, Calendar.DateOf(day).day);
    FieldMeaning(fields, e, 3, Calendar.DateOf(day).month);
    FieldMeaning(fields, e, 4, Calendar.Weekday(day));
  }

  lemma DateInRange(day: int)
    ensures 1 <= Calendar.DateOf(day).month <= 12 && 1 <= Calendar.DateOf(day).day <= 31
    ensures 0 <= Calendar.Weekday(day) <= 6
  {
    Calendar.DateOfDay(day);
  }

  lemma FieldMeaning(fields: seq<string>, e: CronExpr, i: nat, v: int)
    requires |fields| == 5 && i < 5 && FieldParsed(fields, e, i) && RANGES[i].0 <= v <= RANGES[i].1
    ensures v in Field(e, i) <==> FieldMeans(fields, i, v)
  {
  }

  /** `u` is the first instant after `t`, in whole-minute steps, that the text stands for. */
  ghost predicate TextNext(fields: seq<string>, t: int, u: int)
    requires |fields| == 5
  {
    exists k: nat ::
      1 <= k <= SEARCH_MINUTES && u == Later(t, k) && TextMatches(fields, u / MINUTE) && TextMisses(fields, t, k)
  }

  ghost predicate TextMisses(fields: seq<string>, t: int, k: nat)
    requires |fields| == 5
  {
    forall j :: 1 <= j < k ==> !TextMatches(fields, Later(t, j) / MINUTE)
  }

  /** The first trigger of a schedule: the text is rejected, or there is a next instant. */
  method FirstTrigger(spec: string, now: int) returns (r: Result<int, CronError>)
    ensures r.Ok? <==> Accepted(Fields(spec))
    ensures r.Ok? ==> TextNext(Fields(spec), now, r.value)
    ensures forall words :: HasWords(spec, words) ==>
              (r.Ok? <==> Accepted(words)) && (r.Ok? ==> TextNext(words, now, r.value))
  {
    forall words | HasWords(spec, words) ensures words == Fields(spec) { FieldsIff(spec, words); }
    var parsed := ParseCronExpr(spec);
    if parsed.Err? { return Err(parsed.error); }
    var next := NextAfter(parsed.value, now);
    NextOfText(Fields(spec), parsed.value, now, next.value);
    return Ok(next.value);
  }

  lemma NextOfText(fields: seq<string>, e: CronExpr, t: int, u: int)
    requires Parsed(fields, e) && IsNext(e, t, u)
    ensures TextNext(fields, t, u)
  {
    var k: nat :| 1 <= k <= SEARCH_MINUTES && u == Later(t, k) && Matches(e, u) && Misses(e, t, k - 1);
    ParsedMeaning(fields, e, u / MINUTE);
    forall j | 1 <= j < k ensures !TextMatches(fields, Later(t, j) / MINUTE) {
      assert !Matches(e, Later(t, j));
      ParsedMeaning(fields, e, Later(t, j) / MINUTE);
    }
    assert TextMisses(fields, t, k);
  }

  // ---------------------------------------------------------------- the day rule and crontab

  /** The code's rule for day `d` of a month, a weekday `w`: either field. */
  predicate DayMatches(dom: seq<Part>, dow: seq<Part>, d: int, w: int) {
    SomeMeans(dom, d, 1, 31) || SomeMeans(dow, w, 0, 6)
  }

  /** The crontab rule: an asterisk leaves the choice to the other field. */
  predicate CrontabDay(dom: seq<Part>, dow: seq<Part>, d: int, w: int) {
    if dom == [Star] || dow == [Star] then SomeMeans(dom, d, 1, 31) && SomeMeans(dow, w, 0, 6)
    else DayMatches(dom, dow, d, w)
  }

  ghost predicate RulesAgreeOn(dom: seq<Part>, dow: seq<Part>, day: int) {
    var d, w := Calendar.DateOf(day).day, Calendar.Weekday(day);
    DayMatches(dom, dow, d, w) <==> CrontabDay(dom, dow, d, w)
  }

  predicate Unrestricted(parts: seq<Part>, lo: int, hi: int) {
    forall v :: lo <= v <= hi ==> SomeMeans(parts, v, lo, hi)
  }

  /** The comments promise the crontab rule. It is kept on every day exactly when neither day field
      is an asterisk, or neither restricts anything. */
  lemma DayRuleVersusCrontab(dom: seq<Part>, dow: seq<Part>)
    ensures (forall day :: RulesAgreeOn(dom, dow, day)) <==>
            (dom != [Star] && dow != [Star]) || (Unrestricted(dom, 1, 31) && Unrestricted(dow, 0, 6))
  {
    if dom == [Star] || dow == [Star] {
      if Unrestricted(dom, 1, 31) && Unrestricted(dow, 0, 6) {
        forall day ensures RulesAgreeOn(dom, dow, day) { DateInRange(day); }
      } else {
        var day := RulesDiffer(dom, dow);
      }
    }
  }

  lemma RulesDiffer(dom: seq<Part>, dow: seq<Part>) returns (day: int)
    requires dom == [Star] || dow == [Star]
    requires !Unrestricted(dom, 1, 31) || !Unrestricted(dow, 0, 6)
    ensures !RulesAgreeOn(dom, dow, day)
  {
    if dom == [Star] { day := ADayOfTheWeek(dom, dow); } else { day := ADayOfJanuary(dom, dow); }
  }

  lemma ADayOfTheWeek(dom: seq<Part>, dow: seq<Part>) returns (day: int)
    requires dom == [Star] && (!Unrestricted(dom, 1, 31) || !Unrestricted(dow, 0, 6))
    ensures !RulesAgreeOn(dom, dow, day)
  {
    StarMeansAll(dom, 1, 31);
    var w :| 0 <= w <= 6 && !SomeMeans(dow, w, 0, 6);
    day := WeekdayDay(w);
    DateInRange(day);
    RulesDifferOn(dom, dow, day);
  }

  lemma WeekdayDay(w: int) returns (day: int)
    requires 0 <= w <= 6
    ensures Calendar.Weekday(day) == w
  {
    day := w - 1;
  }

  lemma ADayOfJanuary(dom: seq<Part>, dow: seq<Part>) returns (day: int)
    requires dow == [Star] && (!Unrestricted(dom, 1, 31) || !Unrestricted(dow, 0, 6))
    ensures !RulesAgreeOn(dom, dow, day)
  {
    StarMeansAll(dow, 0, 6);
    var d :| 1 <= d <= 31 && !SomeMeans(dom, d, 1, 31);
    day := d - 1;
    DateInRange(day);
    JanuaryDay(d);
    RulesDifferOn(dom, dow, day);
  }

  lemma RulesDifferOn(dom: seq<Part>, dow: seq<Part>, day: int)
    requires dom == [Star] || dow == [Star]
    requires SomeMeans(dom, Calendar.DateOf(day).day, 1, 31) != SomeMeans(dow, Calendar.Weekday(day), 0, 6)
    ensures !RulesAgreeOn(dom, dow, day)
  {
    RulesDifferFor(dom, dow, Calendar.DateOf(day).day, Calendar.Weekday(day));
  }

  lemma RulesDifferFor(dom: seq<Part>, dow: seq<Part>, d: int, w: int)
    requires dom == [Star] || dow == [Star]
    requires SomeMeans(dom, d, 1, 31) != SomeMeans(dow, w, 0, 6)
    ensures DayMatches(dom, dow, d, w) && !CrontabDay(dom, dow, d, w)
  {
  }

  lemma StarMeansAll(parts: seq<Part>, lo: int, hi: int)
    requires parts == [Star]
    ensures Unrestricted(parts, lo, hi)
  {
    assert parts[0] == Star;
  }

  lemma JanuaryDay(d: int)
    requires 1 <= d <= 31
    ensures Calendar.DateOf(d - 1).day == d
  {
    Calendar.DayOfDate(Calendar.Date(1, 1, d), d - 1);
  }

  // ---------------------------------------------------------------- reading back what is written

  predicate Writable(part: Part) {
    match part
    case Star => true
    case Step(n) => 0 < n <= MAX_INT
    case Range(a, b) => 0 <= a <= MAX_INT && 0 <= b <= MAX_INT
    case Single(v) => 0 <= v <= MAX_INT
    case Malformed => false
  }

  function Write(part: Part): string
    requires Writable(part)
  {
    match part
    case Star => "*"
    case Step(n) => "*/" + Decimal(n)
    case Range(a, b) => Decimal(a) + "-" + Decimal(b)
    case Single(v) => Decimal(v)
  }

  function WriteAll(parts: seq<Part>): (texts: seq<string>)
    requires forall k :: 0 <= k < |parts| ==> Writable(parts[k])
    ensures |texts| == |parts| && forall k :: 0 <= k < |parts| ==> texts[k] == Write(parts[k])
  {
    seq(|parts|, k requires 0 <= k < |parts| => Write(parts[k]))
  }

  lemma ClassifyOfNumber(n: nat)
    requires n <= MAX_INT
    ensures Classify(Decimal(n)) == Single(n) && Classify("*/" + Decimal(n)) == if n == 0 then Malformed else Step(n)
  {
    AtoiOfDecimal(n);
    var s := Decimal(n);
    assert IsDigit(s[0]);
    assert ("*/" + s)[2..] == s;
  }

  lemma ClassifyOfRange(a: nat, b: nat)
    requires a <= MAX_INT && b <= MAX_INT
    ensures Classify(Decimal(a) + "-" + Decimal(b)) == Range(a, b)
  {
    AtoiOfDecimal(a);
    AtoiOfDecimal(b);
    var da, db := Decimal(a), Decimal(b);
    var s := da + "-" + db;
    FindAfter(da, '-', db);
    assert s == da + ['-'] + db && s[..|da|] == da && s[|da|..][1..] == db;
    assert IsDigit(s[0]) && s[|da|] == '-';
  }

  lemma ClassifyOfWrite(part: Part)
    requires Writable(part)
    ensures Classify(Write(part)) == part
  {
    match part {
      case Star =>
      case Step(n) => ClassifyOfNumber(n);
      case Range(a, b) => ClassifyOfRange(a, b);
      case Single(v) => ClassifyOfNumber(v);
    }
  }

  lemma WriteIsClean(part: Part)
    requires Writable(part)
    ensures ',' !in Write(part) && TrimSpace(Write(part)) == Write(part)
  {
    forall k | 0 <= k < |Write(part)| ensures !IsSpace(Write(part)[k]) && Write(part)[k] != ',' {
      assert Write(part)[k] in "*/-" || IsDigit(Write(part)[k]);
    }
    TrimOfClean(Write(part));
  }

  /** A field written from parts says those parts. */
  lemma PartsOfWrite(parts: seq<Part>)
    requires parts != [] && forall k :: 0 <= k < |parts| ==> Writable(parts[k])
    ensures Parts(Join(WriteAll(parts), ',')) == parts
  {
    var texts := WriteAll(parts);
    forall k | 0 <= k < |parts|
      ensures ',' !in texts[k] && TrimSpace(texts[k]) == texts[k] && Classify(texts[k]) == parts[k]
    {
      ClassifyOfWrite(parts[k]);
      WriteIsClean(parts[k]);
    }
    SplitOfJoin(texts, ',');
  }

  /** In the five fields a step overflows in one case only: the largest integer, where values
      start at 1. Such a text is accepted and leaves stray values; no other text does. */
  lemma OverflowIsOneCase(field: string, i: nat)
    requires i < 5
    ensures SomeOverflows(Parts(field), RANGES[i].0) <==> (i == 2 || i == 3) && Step(MAX_INT) in Parts(field)
  {
    forall k | 0 <= k < |Parts(field)|
      ensures StepOverflows(Parts(field)[k], RANGES[i].0) <==> (i == 2 || i == 3) && Parts(field)[k] == Step(MAX_INT)
    {
      StepFits(TrimSpace(Split(field, ',')[k]));
    }
  }

  lemma StepFits(part: string)
    ensures Classify(part).Step? ==> 0 < Classify(part).n <= MAX_INT
  {
  }

  lemma OverflowHappens()
    ensures var field := "*/" + Decimal(MAX_INT);
      AllAccepted(Parts(field), 1, 31) && SomeOverflows(Parts(field), 1)
  {
    PartsOfWrite([Step(MAX_INT)]);
    assert StepOverflows([Step(MAX_INT)][0], 1);
  }
}
