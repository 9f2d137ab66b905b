/** What a typed cron expression means, read off its grammar, and the preview's answer to it
    (`parseCronExpression` and `cronNextFire` in web/app.js together). */
module CronPreview {
  import opened Calendar
  import opened CronParser
  import opened CronSearch
  import opened Wrappers

  // ---------- the reference meaning ----------

  /** A part may appear in a field with these limits. */
  predicate Accepted(p: Part, minimum: int, maximum: int) {
    && (p.step.Some? ==> Value(p.step.value) > 0 && Finite(Value(p.step.value)))
    && match p.base
       case Star => true
       case Single(d) => minimum <= Value(d) <= maximum
       case Span(a, b) => minimum <= Value(a) <= Value(b) <= maximum
  }

  predicate Every(p: Part, from: int, v: int) {
    p.step.Some? && Value(p.step.value) > 0 ==> (v - from) % Value(p.step.value) == 0
  }

  /** A part allows a value: a star every s-th from the minimum, `n` only n, `a-b` every s-th from a,
      where s is the step. */
  predicate Allows(p: Part, minimum: int, maximum: int, v: int) {
    match p.base
    case Star => minimum <= v <= maximum && Every(p, minimum, v)
    case Single(d) => v == Value(d)
    case Span(a, b) => Value(a) <= v <= Value(b) && Every(p, Value(a), v)
  }

  predicate AllAccepted(parts: seq<Part>, minimum: int, maximum: int) {
    forall i :: 0 <= i < |parts| ==> Accepted(parts[i], minimum, maximum)
  }

  predicate SomeAllows(parts: seq<Part>, minimum: int, maximum: int, v: int) {
    exists i :: 0 <= i < |parts| && Allows(parts[i], minimum, maximum, v)
  }

  /** The five fields of an expression. */
  datatype Fields = Fields(minute: seq<Part>, hour: seq<Part>, day: seq<Part>, month: seq<Part>, weekday: seq<Part>)

  predicate Proper(parts: seq<Part>) { parts != [] && forall p :: p in parts ==> WellFormed(p) }

  function RenderAll(f: Fields): seq<string>
    requires Proper(f.minute) && Proper(f.hour) && Proper(f.day) && Proper(f.month) && Proper(f.weekday)
  {
    [RenderField(f.minute), RenderField(f.hour), RenderField(f.day), RenderField(f.month), RenderField(f.weekday)]
  }

  /** The text is these five fields, in this order, with any spacing. */
  ghost predicate Spells(f: Fields, text: string) {
    && Proper(f.minute) && Proper(f.hour) && Proper(f.day) && Proper(f.month) && Proper(f.weekday)
    && Spaced(RenderAll(f), text)
  }

  predicate Meaningful(f: Fields) {
    && AllAccepted(f.minute, 0, 59) && AllAccepted(f.hour, 0, 23) && AllAccepted(f.day, 1, 31)
    && AllAccepted(f.month, 1, 12) && AllAccepted(f.weekday, 0, 6)
  }

  /** The expression fires at minute `t` since the epoch. */
  predicate Fires(f: Fields, t: int) {
    var date := DateOf(t / 1440);
    && SomeAllows(f.minute, 0, 59, t % 60) && SomeAllows(f.hour, 0, 23, t % 1440 / 60)
    && SomeAllows(f.day, 1, 31, date.day) && SomeAllows(f.month, 1, 12, date.month)
    && SomeAllows(f.weekday, 0, 6, Weekday(t / 1440))
  }

  // ---------- the parser agrees ----------

  lemma PartAgrees(p: Part, minimum: int, maximum: int, v: int)
    requires minimum <= maximum
    ensures Acceptable(p, minimum, maximum) <==> Accepted(p, minimum, maximum)
    ensures Acceptable(p, minimum, maximum) ==>
      (v in PartValues(p, minimum, maximum) <==> Allows(p, minimum, maximum, v))
  {
    assert Finite(1) by { SmallIsFinite(970); }
    if Acceptable(p, minimum, maximum) {
      var start, step := Start(p, minimum), Step(p);
      assert p.step.None? ==> (v - start) % 1 == 0;
      assert (start - start) % step == 0;
      assert v in PartValues(p, minimum, maximum) <==>
        start <= v <= End(p, maximum) && OnStep(v, start, step);
    }
  }

  lemma SmallIsFinite(k: nat)
    ensures Shifted(1, k) <= 1
  {
  }

  lemma {:induction false} FieldAgrees(parts: seq<Part>, minimum: int, maximum: int, v: int)
    requires minimum <= maximum
    ensures FieldValues(parts, minimum, maximum).Some? <==> AllAccepted(parts, minimum, maximum)
    ensures FieldValues(parts, minimum, maximum).Some? ==>
      (v in FieldValues(parts, minimum, maximum).value <==> SomeAllows(parts, minimum, maximum, v))
  {
    if parts != [] {
      var front, last := parts[..|parts| - 1], parts[|parts| - 1];
      FieldAgrees(front, minimum, maximum, v);
      PartAgrees(last, minimum, maximum, v);
      assert forall i :: 0 <= i < |front| ==> front[i] == parts[i];
      if SomeAllows(front, minimum, maximum, v) {
        var i :| 0 <= i < |front| && Allows(front[i], minimum, maximum, v);
        assert Allows(parts[i], minimum, maximum, v);
      }
      if SomeAllows(parts, minimum, maximum, v) && !Allows(last, minimum, maximum, v) {
        var i :| 0 <= i < |parts| && Allows(parts[i], minimum, maximum, v);
        assert Allows(front[i], minimum, maximum, v);
      }
    }
  }

  function Values(f: Fields): Option<Cron> {
    Combine(FieldValues(f.minute, 0, 59), FieldValues(f.hour, 0, 23), FieldValues(f.day, 1, 31),
            FieldValues(f.month, 1, 12), FieldValues(f.weekday, 0, 6))
  }

  lemma SpelledMeans(f: Fields, text: string)
    requires Spells(f, text)
    ensures MeaningOf(text) == Values(f)
  {
    SpacingDoesNotMatter(RenderAll(f), text);
    FiveWords(text, RenderAll(f));
    FieldRoundTrip(f.minute, 0, 59);
    FieldRoundTrip(f.hour, 0, 23);
    FieldRoundTrip(f.day, 1, 31);
    FieldRoundTrip(f.month, 1, 12);
    FieldRoundTrip(f.weekday, 0, 6);
  }

  /** An expression has values exactly when it is meaningful, and matches exactly where it fires. */
  lemma ValuesAgree(f: Fields, t: int)
    ensures Values(f).Some? <==> Meaningful(f)
    ensures Values(f).Some? ==> (Matches(Values(f).value, t) <==> Fires(f, t))
  {
    var date := DateOf(t / DAY);
    FieldAgrees(f.minute, 0, 59, t % 60);
    FieldAgrees(f.hour, 0, 23, t % DAY / 60);
    FieldAgrees(f.day, 1, 31, date.day);
    FieldAgrees(f.month, 1, 12, date.month);
    FieldAgrees(f.weekday, 0, 6, Weekday(t / DAY));
  }

  ghost predicate Readable(text: string) { exists parts :: Proper(parts) && RenderField(parts) == text }

  lemma FieldIsReadable(text: string, minimum: int, maximum: int)
    requires Meaning(text, minimum, maximum).Some?
    ensures Readable(text)
  {
    var parts := FieldIsRendered(text, minimum, maximum);
  }

  lemma WordIsReadable(text: string, i: nat)
    requires MeaningOf(text).Some? && i < 5
    ensures |Words(text)| == 5 && Readable(Words(text)[i])
  {
    if Meaning(Words(text)[i], LIMITS[i].0, LIMITS[i].1).None? {
      MissingField(text, i);
    } else {
      FieldIsReadable(Words(text)[i], LIMITS[i].0, LIMITS[i].1);
    }
  }

  lemma ReadFields(w: seq<string>) returns (f: Fields)
    requires |w| == 5 && Readable(w[0]) && Readable(w[1]) && Readable(w[2]) && Readable(w[3]) && Readable(w[4])
    ensures Proper(f.minute) && Proper(f.hour) && Proper(f.day) && Proper(f.month) && Proper(f.weekday)
    ensures RenderAll(f) == w
  {
    var m :| Proper(m) && RenderField(m) == w[0];
    var h :| Proper(h) && RenderField(h) == w[1];
    var d :| Proper(d) && RenderField(d) == w[2];
    var o :| Proper(o) && RenderField(o) == w[3];
    var k :| Proper(k) && RenderField(k) == w[4];
    f := Fields(m, h, d, o, k);
  }

  lemma SpelledByWords(f: Fields, w: seq<string>, text: string)
    requires Proper(f.minute) && Proper(f.hour) && Proper(f.day) && Proper(f.month) && Proper(f.weekday)
    requires RenderAll(f) == w && Spaced(w, text)
    ensures Spells(f, text)
  {
  }

  /** Conversely, a text that parses is spelled by some five fields. */
  lemma MeaningIsSpelled(text: string) returns (f: Fields)
    requires MeaningOf(text).Some?
    ensures Spells(f, text)
  {
    WordIsReadable(text, 0);
    WordIsReadable(text, 1);
    WordIsReadable(text, 2);
    WordIsReadable(text, 3);
    WordIsReadable(text, 4);
    f := ReadFields(Words(text));
    EveryTextIsSpaced(text);
    SpelledByWords(f, Words(text), text);
  }

  // ---------- the preview ----------

  /** `r` is the first minute in [from, limit] at which the expression fires, if there is one. */
  predicate FirstFire(f: Fields, from: int, limit: int, r: Option<int>) {
    match r
    case Some(t) => from <= t <= limit && Fires(f, t) && forall u :: from <= u < t ==> !Fires(f, u)
    case None => forall u :: from <= u <= limit ==> !Fires(f, u)
  }

  /** Parser and search together, as the preview uses them.  A text that spells a meaningful
      expression gets the first minute at which it fires within four years of 366 days; any other text
      gets nothing. */
  method NextFireOf(text: string, from: int) returns (r: Option<int>)
    ensures forall f :: Spells(f, text) && Meaningful(f) ==>
      FirstFire(f, RoundedStart(from), RoundedStart(from) + 4 * 366 * 1440, r)
    ensures (forall f :: Spells(f, text) ==> !Meaningful(f)) ==> r.None?
  {
    var parsed := ParseExpression(text);
    if parsed.None? {
      forall f | Spells(f, text) ensures !Meaningful(f) {
        SpelledMeans(f, text);
        ValuesAgree(f, 0);
      }
      return None;
    }
    r := NextFire(parsed.value, from);
    ghost var some := MeaningIsSpelled(text);
    SpelledMeans(some, text);
    ValuesAgree(some, 0);
    forall f | Spells(f, text) ensures FirstFire(f, RoundedStart(from), RoundedStart(from) + 4 * 366 * 1440, r) {
      SpelledMeans(f, text);
      forall t ensures Matches(parsed.value, t) <==> Fires(f, t) { ValuesAgree(f, t); }
    }
  }
}
