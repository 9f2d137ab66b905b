/** The five-field cron parser of the schedule preview (`parseCronExpression` in web/app.js), from
    characters to sets of values. */
module CronParser {
  import opened Ranking
  import opened CronSearch
  import opened Wrappers

  // ---------- the abstract syntax ----------

  /** `*`, `n` or `a-b`; the numbers are kept as their digits. */
  datatype Base = Star | Single(digits: string) | Span(lo: string, hi: string)

  /** One comma-separated part: a base and perhaps a `/step`. */
  datatype Part = Part(base: Base, step: Option<string>)

  predicate IsDigit(c: char) { '0' <= c <= '9' }

  predicate Digits(s: string) { s != "" && forall c :: c in s ==> IsDigit(c) }

  predicate WellFormed(p: Part) {
    && (match p.base
        case Star => true
        case Single(d) => Digits(d)
        case Span(a, b) => Digits(a) && Digits(b))
    && (p.step.Some? ==> Digits(p.step.value))
  }

  function RenderBase(b: Base): string {
    match b
    case Star => "*"
    case Single(d) => d
    case Span(a, b) => a + "-" + b
  }

  function RenderPart(p: Part): string {
    RenderBase(p.base) + (if p.step.Some? then "/" + p.step.value else "")
  }

  // ---------- what a part means ----------

  function Value(s: string): nat {
    if s == "" || !IsDigit(s[|s| - 1]) then 0 else 10 * Value(s[..|s| - 1]) + (s[|s| - 1] as int - '0' as int)
  }

  function Decimal(n: nat): string {
    (if n < 10 then "" else Decimal(n / 10)) + [('0' as int + n % 10) as char]
  }

  /** The digits of a number mean that number. */
  lemma {:induction false} ValueOfDecimal(n: nat)
    ensures Digits(Decimal(n)) && Value(Decimal(n)) == n
  {
    var front := if n < 10 then "" else Decimal(n / 10);
    assert Decimal(n)[..|front|] == front;
    if n >= 10 { ValueOfDecimal(n / 10); }
  }

  /** Leading zeros do not count. */
  lemma {:induction false} ValueOfZeros(s: string)
    requires Digits(s)
    ensures Value("0" + s) == Value(s)
  {
    var front := s[..|s| - 1];
    assert ("0" + s)[..|s|] == "0" + front && s[|s| - 1] in s;
    if front == "" {
      assert Value("0" + front) == 10 * Value("") + 0;
    } else {
      assert forall c :: c in front ==> c in s;
      ValueOfZeros(front);
    }
  }

  /** `n` without its last `k` binary digits. */
  function Shifted(n: nat, k: nat): nat
    decreases n
  {
    if k == 0 || n == 0 then n else Shifted(n / 2, k - 1)
  }

  /** Digits that a double rounds to infinity are not an integer for JavaScript: the least such
      number has 54 ones followed by 970 zeros. */
  predicate Finite(n: nat) { Shifted(n, 970) < 0x3F_FFFF_FFFF_FFFF }

  function Start(p: Part, minimum: int): int {
    match p.base case Star => minimum case Single(d) => Value(d) case Span(a, _) => Value(a)
  }

  function End(p: Part, maximum: int): int {
    match p.base case Star => maximum case Single(d) => Value(d) case Span(_, b) => Value(b)
  }

  function Step(p: Part): int { if p.step.Some? then Value(p.step.value) else 1 }

  /** The part is acceptable in a field with these limits. */
  predicate Acceptable(p: Part, minimum: int, maximum: int) {
    && Step(p) > 0 && Finite(Step(p))
    && minimum <= Start(p, minimum) <= End(p, maximum) <= maximum
  }

  predicate OnStep(v: int, start: int, step: int)
    requires step > 0
  {
    (v - start) % step == 0
  }

  function Progression(start: int, end: int, step: int): set<int>
    requires step > 0
  {
    set v | start <= v <= end && OnStep(v, start, step)
  }

  function PartValues(p: Part, minimum: int, maximum: int): set<int>
    requires Acceptable(p, minimum, maximum)
  {
    Progression(Start(p, minimum), End(p, maximum), Step(p))
  }

  /** The values of a list of parts, if every part is acceptable. */
  function FieldValues(parts: seq<Part>, minimum: int, maximum: int): Option<set<int>> {
    if parts == [] then Some({})
    else
      var front := FieldValues(parts[..|parts| - 1], minimum, maximum);
      var p := parts[|parts| - 1];
      if front.None? || !Acceptable(p, minimum, maximum) then None
      else Some(front.value + PartValues(p, minimum, maximum))
  }

  // ---------- splitting text ----------

  function IndexOf(s: string, c: char): (i: nat)
    ensures i <= |s| && c !in s[..i] && (i < |s| ==> s[i] == c)
  {
    if s == "" || s[0] == c then 0 else
      var i := IndexOf(s[1..], c);
      assert s[..i + 1] == [s[0]] + s[1..][..i];
      i + 1
  }

  lemma IndexOfIs(s: string, c: char, i: nat)
    requires i <= |s| && c !in s[..i] && (i < |s| ==> s[i] == c)
    ensures IndexOf(s, c) == i
  {
    var j := IndexOf(s, c);
  }

  function Split(s: string, c: char): (parts: seq<string>)
    ensures parts != []
    decreases |s|
  {
    var i := IndexOf(s, c);
    if i == |s| then [s] else [s[..i]] + Split(s[i + 1..], c)
  }

  function Join(parts: seq<string>, c: char): string
    requires parts != []
  {
    if |parts| == 1 then parts[0] else parts[0] + [c] + Join(parts[1..], c)
  }

  lemma {:induction false} SplitJoin(parts: seq<string>, c: char)
    requires parts != [] && forall p :: p in parts ==> c !in p
    ensures Split(Join(parts, c), c) == parts
    decreases |parts|
  {
    var s := Join(parts, c);
    if |parts| == 1 {
      assert s[..|s|] == parts[0];
      IndexOfIs(s, c, |s|);
    } else {
      assert s[..|parts[0]|] == parts[0];
      IndexOfIs(s, c, |parts[0]|);
      assert s[|parts[0]| + 1..] == Join(parts[1..], c);
      SplitJoin(parts[1..], c);
    }
  }

  lemma JoinCons(first: string, parts: seq<string>, c: char)
    requires parts != []
    ensures Join([first] + parts, c) == first + [c] + Join(parts, c)
  {
    assert ([first] + parts)[1..] == parts;
  }

  lemma SplitAt(s: string, c: char, i: nat)
    requires i == IndexOf(s, c) < |s|
    ensures Split(s, c) == [s[..i]] + Split(s[i + 1..], c)
  {
  }

  lemma CutAt(s: string, c: char, i: nat)
    requires i < |s| && s[i] == c
    ensures s[..i] + [c] + s[i + 1..] == s
  {
  }

  lemma {:induction false} JoinSplit(s: string, c: char)
    ensures Join(Split(s, c), c) == s
    decreases |s|
  {
    var i := IndexOf(s, c);
    if i < |s| {
      SplitAt(s, c, i);
      CutAt(s, c, i);
      JoinSplit(s[i + 1..], c);
      JoinCons(s[..i], Split(s[i + 1..], c), c);
    }
  }

  /** The white space of JavaScript's `trim` and `\s`. */
  predicate Space(c: char) {
    var n := c as int;
    || 9 <= n <= 13 || n == 32 || n == 0xA0 || n == 0x1680 || 0x2000 <= n <= 0x200A
    || n == 0x2028 || n == 0x2029 || n == 0x202F || n == 0x205F || n == 0x3000 || n == 0xFEFF
  }

  /** Tab, line feed, carriage return, blank and the two most common others are white space; no
      character of a field is. */
  lemma KnownSpaces(c: char)
    ensures Space('\t') && Space('\n') && Space('\r') && Space(' ') && Space('\U{A0}') && Space('\U{FEFF}')
    ensures IsDigit(c) || c in "*,-/" ==> !Space(c)
  {
  }

  predicate Word(s: string) { s != "" && forall c :: c in s ==> !Space(c) }

  function WordLength(s: string): (i: nat)
    ensures i <= |s| && (forall c :: c in s[..i] ==> !Space(c)) && (i < |s| ==> Space(s[i]))
  {
    if s == "" || Space(s[0]) then 0 else
      var i := WordLength(s[1..]);
      assert s[..i + 1] == [s[0]] + s[1..][..i];
      i + 1
  }

  /** `text.trim().split(/\s+/)`, empty for a blank text. */
  function Words(s: string): (words: seq<string>)
    ensures forall w :: w in words ==> Word(w)
    decreases |s|
  {
    if s == "" then []
    else if Space(s[0]) then Words(s[1..])
    else [s[..WordLength(s)]] + Words(s[WordLength(s)..])
  }

  lemma WordLengthIs(s: string, i: nat)
    requires i <= |s| && (forall c :: c in s[..i] ==> !Space(c)) && (i < |s| ==> Space(s[i]))
    ensures WordLength(s) == i
  {
    var j := WordLength(s);
  }

  lemma {:induction false} WordsOfSpaces(s: string)
    requires forall c :: c in s ==> Space(c)
    ensures Words(s) == []
    decreases |s|
  {
    if s != "" {
      assert forall c :: c in s[1..] ==> c in s;
      WordsOfSpaces(s[1..]);
    }
  }

  lemma {:induction false} WordsSkip(lead: string, s: string)
    requires forall c :: c in lead ==> Space(c)
    ensures Words(lead + s) == Words(s)
    decreases |lead|
  {
    if lead != "" {
      assert (lead + s)[1..] == lead[1..] + s;
      WordsSkip(lead[1..], s);
    } else {
      assert lead + s == s;
    }
  }

  lemma WordsTake(w: string, rest: string)
    requires Word(w) && (rest == "" || Space(rest[0]))
    ensures Words(w + rest) == [w] + Words(rest)
  {
    var s := w + rest;
    assert s[..|w|] == w && s[|w|..] == rest;
    assert w[0] in w;
    WordLengthIs(s, |w|);
  }

  // ---------- matching one part ----------

  function MatchBase(b: string): Option<Base> {
    if b == "*" then Some(Star)
    else if Digits(b) then Some(Single(b))
    else
      var j := IndexOf(b, '-');
      if j < |b| && Digits(b[..j]) && Digits(b[j + 1..]) then Some(Span(b[..j], b[j + 1..])) else None
  }

  /** The regular expression for one part. */
  function MatchPart(t: string): Option<Part> {
    var i := IndexOf(t, '/');
    var base := MatchBase(t[..i]);
    if base.None? then None
    else if i == |t| then Some(Part(base.value, None))
    else if Digits(t[i + 1..]) then Some(Part(base.value, Some(t[i + 1..])))
    else None
  }

  lemma MatchBaseComplete(b: Base)
    requires WellFormed(Part(b, None))
    ensures MatchBase(RenderBase(b)) == Some(b) && '/' !in RenderBase(b)
  {
    if b.Span? {
      var t := RenderBase(b);
      assert t[..|b.lo|] == b.lo && t[|b.lo| + 1..] == b.hi && t[|b.lo|] == '-';
      assert '-' in t && !IsDigit('-');
      IndexOfIs(t, '-', |b.lo|);
      assert t != "*" by { assert |t| >= 3; }
    } else if b.Single? {
      assert b.digits[0] in b.digits;
    }
  }

  lemma MatchBaseSound(t: string)
    requires MatchBase(t).Some?
    ensures WellFormed(Part(MatchBase(t).value, None)) && RenderBase(MatchBase(t).value) == t
  {
    if t != "*" && !Digits(t) {
      var j := IndexOf(t, '-');
      assert t == t[..j] + "-" + t[j + 1..];
    }
  }

  lemma RenderedMatches(p: Part)
    requires WellFormed(p)
    ensures MatchPart(RenderPart(p)) == Some(p)
  {
    var t, b := RenderPart(p), RenderBase(p.base);
    MatchBaseComplete(p.base);
    assert t[..|b|] == b;
    IndexOfIs(t, '/', |b|);
    if p.step.Some? { assert t[|b| + 1..] == p.step.value; }
  }

  lemma MatchedIsRendered(t: string)
    requires MatchPart(t).Some?
    ensures WellFormed(MatchPart(t).value) && RenderPart(MatchPart(t).value) == t
  {
    var i := IndexOf(t, '/');
    MatchBaseSound(t[..i]);
    if i < |t| { assert t == t[..i] + "/" + t[i + 1..]; } else { assert t == t[..i]; }
  }

  /** The regular expression matches exactly the renderings of well-formed parts, each in one way. */
  lemma MatchIsExact(t: string, p: Part)
    ensures MatchPart(t) == Some(p) <==> WellFormed(p) && RenderPart(p) == t
  {
    if WellFormed(p) { RenderedMatches(p); }
    if MatchPart(t).Some? { MatchedIsRendered(t); }
  }

  // ---------- the parser ----------

  /** The limits of the five fields: minute, hour, day of month, month, day of week. */
  const LIMITS: seq<(int, int)> := [(0, 59), (0, 23), (1, 31), (1, 12), (0, 6)]

  function MatchAll(texts: seq<string>): Option<seq<Part>> {
    if texts == [] then Some([])
    else
      var front, p := MatchAll(texts[..|texts| - 1]), MatchPart(texts[|texts| - 1]);
      if front.None? || p.None? then None else Some(front.value + [p.value])
  }

  /** What a field's text means. */
  function Meaning(text: string, minimum: int, maximum: int): Option<set<int>> {
    MeaningOfAll(Split(text, ','), minimum, maximum)
  }

  /** The loop over the values of one part. */
  method AddValues(values: set<int>, start: int, end: int, step: int) returns (r: set<int>)
    requires step > 0
    ensures r == values + Progression(start, end, step)
  {
    r := values;
    var value := start;
    ghost var k := 0;
    while value <= end
      invariant k >= 0 && value == start + k * step
      invariant r == values + set v | start <= v <= end && v < value && OnStep(v, start, step)
      decreases end - value
    {
      StepAt(start, step, k);
      forall v | value < v < value + step ensures !OnStep(v, start, step) { BetweenSteps(start, step, k, v); }
      r := r + {value};
      value := value + step;
      k := k + 1;
    }
  }

  lemma AtLeast(d: int, m: int)
    requires d >= 1 && m > 0
    ensures d * m >= m
  {
  }

  lemma SmallMultiple(d: int, m: int, e: int)
    requires m > 0 && d * m == e && -m < e < m
    ensures d == 0
  {
    if d >= 1 { AtLeast(d, m); }
    if d <= -1 { AtLeast(-d, m); }
  }

  lemma DivisionIsUnique(x: int, m: int, q: int, r: int)
    requires m > 0 && x == q * m + r && 0 <= r < m
    ensures x % m == r
  {
    var p, s := x / m, x % m;
    assert x == p * m + s && 0 <= s < m;
    assert (q - p) * m == q * m - p * m;
    SmallMultiple(q - p, m, s - r);
  }

  lemma StepAt(start: int, step: int, k: int)
    requires step > 0
    ensures OnStep(start + k * step, start, step)
  {
    DivisionIsUnique(k * step, step, k, 0);
  }

  lemma BetweenSteps(start: int, step: int, k: int, v: int)
    requires step > 0 && start + k * step < v < start + k * step + step
    ensures !OnStep(v, start, step)
  {
    DivisionIsUnique(v - start, step, k, v - start - k * step);
  }

  lemma MatchAllSnoc(texts: seq<string>, t: string)
    ensures MatchAll(texts + [t]) ==
      if MatchAll(texts).None? || MatchPart(t).None? then None else Some(MatchAll(texts).value + [MatchPart(t).value])
  {
    assert (texts + [t])[..|texts|] == texts;
  }

  lemma FieldValuesSnoc(parts: seq<Part>, p: Part, minimum: int, maximum: int)
    ensures FieldValues(parts + [p], minimum, maximum) ==
      if FieldValues(parts, minimum, maximum).None? || !Acceptable(p, minimum, maximum) then None
      else Some(FieldValues(parts, minimum, maximum).value + PartValues(p, minimum, maximum))
  {
    assert (parts + [p])[..|parts|] == parts;
  }

  /** The first `i` parts were read, and `values` is what they mean. */
  ghost predicate ReadUpto(texts: seq<string>, i: nat, parts: seq<Part>, values: set<int>, minimum: int, maximum: int)
    requires i <= |texts|
  {
    MatchAll(texts[..i]) == Some(parts) && FieldValues(parts, minimum, maximum) == Some(values)
  }

  function MeaningOfAll(texts: seq<string>, minimum: int, maximum: int): Option<set<int>> {
    var parts := MatchAll(texts);
    if parts.None? then None else FieldValues(parts.value, minimum, maximum)
  }

  /** One turn of the loop over the parts. */
  lemma ReadOneMore(texts: seq<string>, i: nat, parts: seq<Part>, values: set<int>, minimum: int, maximum: int)
    requires i < |texts| && ReadUpto(texts, i, parts, values, minimum, maximum)
    ensures var p := MatchPart(texts[i]);
      if p.None? || !Acceptable(p.value, minimum, maximum) then MeaningOfAll(texts, minimum, maximum).None?
      else ReadUpto(texts, i + 1, parts + [p.value], values + PartValues(p.value, minimum, maximum), minimum, maximum)
  {
    assert texts[..i + 1] == texts[..i] + [texts[i]];
    MatchAllSnoc(texts[..i], texts[i]);
    var p := MatchPart(texts[i]);
    if p.None? {
      MatchAllPrefix(texts, i + 1);
    } else {
      FieldValuesSnoc(parts, p.value, minimum, maximum);
      if !Acceptable(p.value, minimum, maximum) {
        Unacceptable(texts, i + 1, parts + [p.value], minimum, maximum);
      }
    }
  }

  lemma ReadAll(texts: seq<string>, parts: seq<Part>, values: set<int>, minimum: int, maximum: int)
    requires ReadUpto(texts, |texts|, parts, values, minimum, maximum)
    ensures MeaningOfAll(texts, minimum, maximum) == Some(values)
  {
    assert texts[..|texts|] == texts;
  }

  /** One field: its parts in turn, until one is not acceptable. */
  method ParseField(text: string, minimum: int, maximum: int) returns (r: Option<set<int>>)
    ensures r == Meaning(text, minimum, maximum)
  {
    var texts := Split(text, ',');
    var values: set<int>, i := {}, 0;
    ghost var parts: seq<Part> := [];
    while i < |texts|
      invariant i <= |texts| && ReadUpto(texts, i, parts, values, minimum, maximum)
    {
      ReadOneMore(texts, i, parts, values, minimum, maximum);
      var p := MatchPart(texts[i]);
      if p.None? || !Acceptable(p.value, minimum, maximum) { return None; }
      values := AddValues(values, Start(p.value, minimum), End(p.value, maximum), Step(p.value));
      parts, i := parts + [p.value], i + 1;
    }
    ReadAll(texts, parts, values, minimum, maximum);
    r := Some(values);
  }

  lemma {:induction false} MatchAllPrefix(texts: seq<string>, i: nat)
    requires i <= |texts| && MatchAll(texts[..i]).None?
    ensures MatchAll(texts).None?
    decreases |texts| - i
  {
    if i < |texts| {
      assert texts[..i + 1][..i] == texts[..i];
      MatchAllPrefix(texts, i + 1);
    } else {
      assert texts[..i] == texts;
    }
  }

  lemma {:induction false} Unacceptable(texts: seq<string>, i: nat, parts: seq<Part>, minimum: int, maximum: int)
    requires i <= |texts| && MatchAll(texts[..i]) == Some(parts) && FieldValues(parts, minimum, maximum).None?
    ensures MatchAll(texts).Some? ==> FieldValues(MatchAll(texts).value, minimum, maximum).None?
    decreases |texts| - i
  {
    if i < |texts| {
      assert texts[..i + 1][..i] == texts[..i];
      var p := MatchPart(texts[i]);
      if p.None? {
        MatchAllPrefix(texts, i + 1);
      } else {
        assert (parts + [p.value])[..|parts|] == parts;
        Unacceptable(texts, i + 1, parts + [p.value], minimum, maximum);
      }
    } else {
      assert texts[..i] == texts;
    }
  }

  /** An expression has a meaning if all five fields have one. */
  function Combine(minutes: Option<set<int>>, hours: Option<set<int>>, days: Option<set<int>>,
                   months: Option<set<int>>, weekdays: Option<set<int>>): Option<Cron>
  {
    if minutes.None? || hours.None? || days.None? || months.None? || weekdays.None? then None
    else Some(Cron(minutes.value, hours.value, days.value, months.value, weekdays.value))
  }

  /** What a whole expression means. */
  function MeaningOf(text: string): Option<Cron> {
    var w := Words(text);
    if |w| != 5 then None
    else Combine(Meaning(w[0], 0, 59), Meaning(w[1], 0, 23), Meaning(w[2], 1, 31), Meaning(w[3], 1, 12),
                 Meaning(w[4], 0, 6))
  }

  lemma FiveWords(text: string, w: seq<string>)
    requires Words(text) == w && |w| == 5
    ensures MeaningOf(text) == Combine(Meaning(w[0], 0, 59), Meaning(w[1], 0, 23), Meaning(w[2], 1, 31),
                                       Meaning(w[3], 1, 12), Meaning(w[4], 0, 6))
  {
  }

  lemma {:induction false} FieldInRange(parts: seq<Part>, minimum: int, maximum: int)
    requires FieldValues(parts, minimum, maximum).Some?
    ensures forall v :: v in FieldValues(parts, minimum, maximum).value ==> minimum <= v <= maximum
  {
    if parts != [] { FieldInRange(parts[..|parts| - 1], minimum, maximum); }
  }

  lemma MeaningInRange(text: string, minimum: int, maximum: int)
    requires Meaning(text, minimum, maximum).Some?
    ensures forall v :: v in Meaning(text, minimum, maximum).value ==> minimum <= v <= maximum
  {
    FieldInRange(MatchAll(Split(text, ',')).value, minimum, maximum);
  }

  predicate FieldsMean(fields: seq<string>, p: seq<set<int>>) {
    |fields| == |p| == |LIMITS| && forall j :: 0 <= j < |p| ==>
      Meaning(fields[j], LIMITS[j].0, LIMITS[j].1) == Some(p[j])
  }

  lemma MeaningOfFields(text: string, p: seq<set<int>>)
    requires FieldsMean(Words(text), p)
    ensures MeaningOf(text) == Some(Cron(p[0], p[1], p[2], p[3], p[4]))
    ensures InRange(Cron(p[0], p[1], p[2], p[3], p[4]))
  {
    var w := Words(text);
    FiveWords(text, w);
    FieldMeans(w, p, 0);
    FieldMeans(w, p, 1);
    FieldMeans(w, p, 2);
    FieldMeans(w, p, 3);
    FieldMeans(w, p, 4);
  }

  lemma FieldMeans(w: seq<string>, p: seq<set<int>>, j: nat)
    requires FieldsMean(w, p) && j < |LIMITS|
    ensures Meaning(w[j], LIMITS[j].0, LIMITS[j].1) == Some(p[j])
    ensures forall v :: v in p[j] ==> LIMITS[j].0 <= v <= LIMITS[j].1
  {
    MeaningInRange(w[j], LIMITS[j].0, LIMITS[j].1);
  }

  lemma MissingField(text: string, j: nat)
    requires |Words(text)| == |LIMITS| && j < |LIMITS| && Meaning(Words(text)[j], LIMITS[j].0, LIMITS[j].1).None?
    ensures MeaningOf(text).None?
  {
    FiveWords(text, Words(text));
  }

  /** The fields in turn, each with its limits, until one has no meaning. */
  method ParseFields(fields: seq<string>) returns (r: Option<seq<set<int>>>)
    requires |fields| == |LIMITS|
    ensures r.Some? ==> FieldsMean(fields, r.value)
    ensures r.None? ==> exists j :: 0 <= j < |fields| && Meaning(fields[j], LIMITS[j].0, LIMITS[j].1).None?
  {
    var parsed: seq<set<int>> := [];
    for i := 0 to |fields|
      invariant |parsed| == i
      invariant forall j :: 0 <= j < i ==> Meaning(fields[j], LIMITS[j].0, LIMITS[j].1) == Some(parsed[j])
    {
      var values := ParseField(fields[i], LIMITS[i].0, LIMITS[i].1);
      if values.None? { return None; }
      parsed := parsed + [values.value];
    }
    r := Some(parsed);
  }

  /** `parseCronExpression`.  What it accepts is safe to search. */
  method ParseExpression(text: string) returns (r: Option<Cron>)
    ensures r == MeaningOf(text)
    ensures r.Some? ==> InRange(r.value)
  {
    var fields := Words(text);
    if |fields| != 5 { return None; }
    var parsed := ParseFields(fields);
    if parsed.None? {
      ghost var j :| 0 <= j < |fields| && Meaning(fields[j], LIMITS[j].0, LIMITS[j].1).None?;
      MissingField(text, j);
      return None;
    }
    MeaningOfFields(text, parsed.value);
    r := Some(Cron(parsed.value[0], parsed.value[1], parsed.value[2], parsed.value[3], parsed.value[4]));
  }

  // ---------- round trip ----------

  function RenderParts(parts: seq<Part>): seq<string> {
    seq(|parts|, i requires 0 <= i < |parts| => RenderPart(parts[i]))
  }

  function RenderField(parts: seq<Part>): string
    requires parts != []
  {
    Join(RenderParts(parts), ',')
  }

  lemma PlainPart(p: Part)
    requires WellFormed(p)
    ensures ',' !in RenderPart(p) && Word(RenderPart(p))
  {
    MatchBaseComplete(p.base);
    match p.base {
      case Star =>
      case Single(d) => assert d[0] in d;
      case Span(a, b) => assert a[0] in a;
    }
    forall c | c in RenderPart(p) ensures c != ',' && !Space(c) {
      assert IsDigit(c) || c == '*' || c == '-' || c == '/';
    }
    assert |RenderPart(p)| >= 1;
  }

  lemma RenderPartsSnoc(parts: seq<Part>, p: Part)
    ensures RenderParts(parts + [p]) == RenderParts(parts) + [RenderPart(p)]
  {
  }

  lemma {:induction false} MatchAllRendered(parts: seq<Part>)
    requires forall p :: p in parts ==> WellFormed(p)
    ensures MatchAll(RenderParts(parts)) == Some(parts)
  {
    if parts != [] {
      var front, last := parts[..|parts| - 1], parts[|parts| - 1];
      assert parts == front + [last];
      MatchAllRendered(front);
      RenderPartsSnoc(front, last);
      RenderedMatches(last);
      MatchAllSnoc(RenderParts(front), RenderPart(last));
    }
  }

  /** Parsing the text of any field gives its values, and nothing exactly when a part is unacceptable. */
  lemma FieldRoundTrip(parts: seq<Part>, minimum: int, maximum: int)
    requires parts != [] && forall p :: p in parts ==> WellFormed(p)
    ensures Meaning(RenderField(parts), minimum, maximum) == FieldValues(parts, minimum, maximum)
  {
    var texts := RenderParts(parts);
    forall t | t in texts ensures ',' !in t {
      var i :| 0 <= i < |texts| && texts[i] == t;
      PlainPart(parts[i]);
    }
    SplitJoin(texts, ',');
    MatchAllRendered(parts);
  }

  /** Conversely, a field that has a meaning is the text of well-formed parts with those values. */
  lemma FieldIsRendered(text: string, minimum: int, maximum: int) returns (parts: seq<Part>)
    requires Meaning(text, minimum, maximum).Some?
    ensures parts != [] && (forall p :: p in parts ==> WellFormed(p)) && RenderField(parts) == text
    ensures Meaning(text, minimum, maximum) == FieldValues(parts, minimum, maximum)
  {
    var texts := Split(text, ',');
    parts := MatchAll(texts).value;
    MatchAllSound(texts);
    assert RenderParts(parts) == texts;
    JoinSplit(text, ',');
  }

  predicate Renders(parts: seq<Part>, texts: seq<string>) {
    |parts| == |texts| && forall i :: 0 <= i < |texts| ==> WellFormed(parts[i]) && RenderPart(parts[i]) == texts[i]
  }

  lemma RendersSnoc(parts: seq<Part>, texts: seq<string>, p: Part, t: string)
    requires Renders(parts, texts) && WellFormed(p) && RenderPart(p) == t
    ensures Renders(parts + [p], texts + [t])
  {
  }

  lemma {:induction false} MatchAllSound(texts: seq<string>)
    requires MatchAll(texts).Some?
    ensures Renders(MatchAll(texts).value, texts)
  {
    if texts != [] {
      var front, last := texts[..|texts| - 1], texts[|texts| - 1];
      MatchAllSound(front);
      MatchedIsRendered(last);
      RendersSnoc(MatchAll(front).value, front, MatchPart(last).value, last);
      assert texts == front + [last];
    }
  }

  // ---------- white space ----------

  /** Words separated by any white space, with any white space around them. */
  ghost predicate Spaced(words: seq<string>, text: string)
    decreases |words|
  {
    if words == [] then forall c :: c in text ==> Space(c)
    else exists lead, rest :: SpacedBy(lead, words[0], rest, text) && Spaced(words[1..], rest)
  }

  predicate SpacedBy(lead: string, word: string, rest: string, text: string) {
    text == lead + word + rest && (forall c :: c in lead ==> Space(c)) && Word(word) && (rest == "" || Space(rest[0]))
  }

  lemma FirstWord(lead: string, word: string, rest: string, text: string)
    requires SpacedBy(lead, word, rest, text)
    ensures Words(text) == [word] + Words(rest)
  {
    assert text == lead + (word + rest);
    WordsSkip(lead, word + rest);
    WordsTake(word, rest);
  }

  /** However the words are spaced, they are what the text splits into. */
  lemma {:induction false} SpacingDoesNotMatter(words: seq<string>, text: string)
    requires Spaced(words, text)
    ensures Words(text) == words
    decreases |words|
  {
    if words == [] {
      WordsOfSpaces(text);
    } else {
      var lead, rest :| SpacedBy(lead, words[0], rest, text) && Spaced(words[1..], rest);
      SpacingDoesNotMatter(words[1..], rest);
      FirstWord(lead, words[0], rest, text);
      assert words == [words[0]] + words[1..];
    }
  }

  lemma SpacedCons(lead: string, word: string, rest: string, text: string, words: seq<string>)
    requires SpacedBy(lead, word, rest, text) && Spaced(words, rest)
    ensures Spaced([word] + words, text)
  {
    assert ([word] + words)[0] == word && ([word] + words)[1..] == words;
  }

  lemma SomeWord(text: string)
    requires exists c :: c in text && !Space(c)
    ensures LeadLength(text) < |text|
  {
    assert text[..|text|] == text;
  }

  lemma TakeWord(lead: string, tail: string) returns (word: string, rest: string)
    requires (forall c :: c in lead ==> Space(c)) && tail != "" && !Space(tail[0])
    ensures SpacedBy(lead, word, rest, lead + tail) && |rest| < |tail|
  {
    FirstIsWord(tail);
    var k := WordLength(tail);
    word, rest := tail[..k], tail[k..];
    assert lead + tail == lead + word + rest;
  }

  /** Where the first word of a text is, if it has one. */
  lemma FindFirstWord(text: string) returns (lead: string, word: string, rest: string)
    requires exists c :: c in text && !Space(c)
    ensures SpacedBy(lead, word, rest, text) && |rest| < |text|
  {
    SomeWord(text);
    var n := LeadLength(text);
    lead := text[..n];
    assert text == lead + text[n..];
    word, rest := TakeWord(lead, text[n..]);
  }

  /** Conversely, every text is its words with some spacing. */
  lemma {:induction false} EveryTextIsSpaced(text: string)
    ensures Spaced(Words(text), text)
    decreases |text|
  {
    if forall c :: c in text ==> Space(c) {
      WordsOfSpaces(text);
    } else {
      var lead, word, rest := FindFirstWord(text);
      FirstWord(lead, word, rest, text);
      EveryTextIsSpaced(rest);
      SpacedCons(lead, word, rest, text, Words(rest));
    }
  }

  function LeadLength(s: string): (n: nat)
    ensures n <= |s| && (forall c :: c in s[..n] ==> Space(c)) && (n < |s| ==> !Space(s[n]))
  {
    if s == "" || !Space(s[0]) then 0 else
      var n := LeadLength(s[1..]);
      assert s[..n + 1] == [s[0]] + s[1..][..n];
      n + 1
  }

  lemma FirstIsWord(s: string)
    requires s != "" && !Space(s[0])
    ensures WordLength(s) > 0 && Word(s[..WordLength(s)])
  {
  }
}
