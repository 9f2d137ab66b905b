/** The incremental GC log reader (`GcTelemetryParser.feed` in src/game_control/gc_telemetry.py):
    bytes arrive in chunks, lines are cut at newlines, an unfinished line waits for the next chunk. */
module GcFeed {
  import opened Wrappers

  type Bytes = seq<int>

  const NEWLINE := 10
  const RETURN := 13
  const MAX_LINE_BYTES := 16 * 1024

  /** What a feed yields: the mark of a rotation, or what was parsed from a line. */
  datatype Event<E> = Reset | Parsed(event: E)

  // ---------- a stream and its lines ----------

  /** What follows the last newline. */
  function Tail(s: Bytes): Bytes {
    if s == [] || s[|s| - 1] == NEWLINE then [] else Tail(s[..|s| - 1]) + [s[|s| - 1]]
  }

  /** The complete lines of a stream, carriage returns included. */
  function Lines(s: Bytes): seq<Bytes> {
    if s == [] then []
    else
      var front := s[..|s| - 1];
      Lines(front) + if s[|s| - 1] == NEWLINE then [Tail(front)] else []
  }

  /** A line without its trailing carriage returns. */
  function Strip(line: Bytes): (r: Bytes)
    ensures |r| <= |line| && r == line[..|r|]
    ensures r != [] ==> r[|r| - 1] != RETURN
    ensures forall i :: |r| <= i < |line| ==> line[i] == RETURN
  {
    if line != [] && line[|line| - 1] == RETURN then Strip(line[..|line| - 1]) else line
  }

  function EventOf<E>(line: Bytes, parse: Bytes -> Option<E>): seq<Event<E>> {
    var e := parse(Strip(line));
    if e.Some? then [Parsed(e.value)] else []
  }

  function Events<E>(lines: seq<Bytes>, parse: Bytes -> Option<E>): seq<Event<E>> {
    if lines == [] then [] else Events(lines[..|lines| - 1], parse) + EventOf(lines[|lines| - 1], parse)
  }

  predicate StrippedFit(lines: seq<Bytes>, limit: nat) {
    forall i :: 0 <= i < |lines| ==> |Strip(lines[i])| <= limit
  }

  lemma Associative<T>(a: seq<T>, b: seq<T>, c: seq<T>)
    ensures a + (b + c) == (a + b) + c
  {
  }

  /** A stream can be cut anywhere: the rest continues the unfinished line. */
  lemma {:induction false} Cut(a: Bytes, b: Bytes)
    ensures Lines(a + b) == Lines(a) + Lines(Tail(a) + b)
    ensures Tail(a + b) == Tail(Tail(a) + b)
    decreases |b|
  {
    if b == [] {
      TailIsUnfinished(a);
      assert a + b == a && Tail(a) + b == Tail(a);
    } else {
      var front, last := b[..|b| - 1], b[|b| - 1];
      assert (a + b)[..|a + b| - 1] == a + front;
      assert (Tail(a) + b)[..|Tail(a) + b| - 1] == Tail(a) + front;
      Cut(a, front);
    }
  }

  lemma {:induction false} TailIsUnfinished(s: Bytes)
    ensures Unfinished(Tail(s)) && Lines(Tail(s)) == [] && Tail(Tail(s)) == Tail(s)
  {
    if s != [] && s[|s| - 1] != NEWLINE {
      TailIsUnfinished(s[..|s| - 1]);
      assert Tail(s)[..|Tail(s)| - 1] == Tail(s[..|s| - 1]);
    }
  }

  predicate Unfinished(s: Bytes) { forall i :: 0 <= i < |s| ==> s[i] != NEWLINE }

  lemma {:induction false} NoNewline(a: Bytes, x: Bytes)
    requires Unfinished(x)
    ensures Lines(a + x) == Lines(a) && Tail(a + x) == Tail(a) + x
    decreases |x|
  {
    if x == [] {
      assert a + x == a;
    } else {
      var front := x[..|x| - 1];
      assert (a + x)[..|a + x| - 1] == a + front;
      NoNewline(a, front);
    }
  }

  lemma {:induction false} EventsConcat<E>(a: seq<Bytes>, b: seq<Bytes>, parse: Bytes -> Option<E>)
    ensures Events(a + b, parse) == Events(a, parse) + Events(b, parse)
    decreases |b|
  {
    if b == [] {
      assert a + b == a;
    } else {
      var front, last := b[..|b| - 1], b[|b| - 1];
      assert (a + b)[..|a + b| - 1] == a + front;
      EventsConcat(a, front, parse);
      Associative(Events(a, parse), Events(front, parse), EventOf(last, parse));
    }
  }

  lemma FitConcat(a: seq<Bytes>, b: seq<Bytes>, limit: nat)
    ensures StrippedFit(a + b, limit) <==> StrippedFit(a, limit) && StrippedFit(b, limit)
  {
    assert forall i :: 0 <= i < |a| ==> (a + b)[i] == a[i];
    assert forall i :: 0 <= i < |b| ==> (a + b)[|a| + i] == b[i];
  }

  // ---------- feeding ----------

  /** `k` is the first newline at or after `from`, or -1. */
  predicate FirstNewline(s: Bytes, from: nat, k: int)
    requires from <= |s|
  {
    if k < 0 then k == -1 && Unfinished(s[from..]) else from <= k < |s| && s[k] == NEWLINE && Unfinished(s[from..k])
  }

  method Find(s: Bytes, from: nat) returns (k: int)
    requires from <= |s|
    ensures FirstNewline(s, from, k)
  {
    k := from;
    while k < |s| && s[k] != NEWLINE
      invariant from <= k <= |s| && Unfinished(s[from..k])
    {
      assert s[from..k + 1] == s[from..k] + [s[k]];
      k := k + 1;
    }
    if k == |s| {
      assert s[from..k] == s[from..];
      k := -1;
    }
  }

  /** A successful feed from an unfinished line: its events and the new unfinished line. */
  function Next<E>(partial: Bytes, data: Bytes, limit: nat, parse: Bytes -> Option<E>): Option<(seq<Event<E>>, Bytes)> {
    var buffer := partial + data;
    if StrippedFit(Lines(buffer), limit) && |Tail(buffer)| <= limit
    then Some((Events(Lines(buffer), parse), Tail(buffer))) else None
  }

  /** The lines of `done` were read. */
  ghost predicate ReadTo<E>(done: Bytes, events: seq<Event<E>>, limit: nat, parse: Bytes -> Option<E>) {
    Tail(done) == [] && StrippedFit(Lines(done), limit) && events == Events(Lines(done), parse)
  }

  lemma LineAdded(done: Bytes, line: Bytes)
    requires Tail(done) == [] && Unfinished(line)
    ensures Lines(done + line + [NEWLINE]) == Lines(done) + [line] && Tail(done + line + [NEWLINE]) == []
  {
    var all := done + line + [NEWLINE];
    assert all[..|all| - 1] == done + line;
    NoNewline(done, line);
    assert Tail(done) + line == line;
  }

  lemma LineRead<E>(lines: seq<Bytes>, line: Bytes, limit: nat, parse: Bytes -> Option<E>)
    ensures StrippedFit(lines + [line], limit) <==> StrippedFit(lines, limit) && |Strip(line)| <= limit
    ensures Events(lines + [line], parse) == Events(lines, parse) + EventOf(line, parse)
  {
    FitConcat(lines, [line], limit);
    assert StrippedFit([line], limit) <==> |Strip([line][0])| <= limit;
    assert (lines + [line])[..|lines|] == lines;
  }

  /** One turn of the loop of `feed`. */
  lemma NextLine<E>(done: Bytes, line: Bytes, rest: Bytes, events: seq<Event<E>>, limit: nat, parse: Bytes -> Option<E>)
    requires ReadTo(done, events, limit, parse) && Unfinished(line)
    ensures var next := done + line + [NEWLINE];
      if |Strip(line)| > limit then !StrippedFit(Lines(next + rest), limit)
      else ReadTo(next, events + EventOf(line, parse), limit, parse)
  {
    var next := done + line + [NEWLINE];
    LineAdded(done, line);
    LineRead(Lines(done), line, limit, parse);
    LineStays(next, rest, limit);
  }

  lemma LineStays(done: Bytes, rest: Bytes, limit: nat)
    ensures StrippedFit(Lines(done + rest), limit) ==> StrippedFit(Lines(done), limit)
  {
    Cut(done, rest);
    FitConcat(Lines(done), Lines(Tail(done) + rest), limit);
  }

  lemma Splits(buffer: Bytes, cursor: nat, newline: nat)
    requires cursor <= newline < |buffer| && buffer[newline] == NEWLINE
    ensures buffer[..cursor] + buffer[cursor..newline] + [NEWLINE] == buffer[..newline + 1]
    ensures buffer[..newline + 1] + buffer[newline + 1..] == buffer
  {
  }

  /** The end of the loop of `feed`. */
  lemma LastLine<E>(buffer: Bytes, cursor: nat, events: seq<Event<E>>, limit: nat, parse: Bytes -> Option<E>)
    requires cursor <= |buffer| && Unfinished(buffer[cursor..]) && ReadTo(buffer[..cursor], events, limit, parse)
    ensures StrippedFit(Lines(buffer), limit) && events == Events(Lines(buffer), parse)
      && buffer[cursor..] == Tail(buffer)
  {
    assert buffer[..cursor] + buffer[cursor..] == buffer;
    NoNewline(buffer[..cursor], buffer[cursor..]);
  }

  class Parser<E> {
    const limit: nat
    const parse: Bytes -> Option<E>
    var partial: Bytes

    constructor (limit: nat, parse: Bytes -> Option<E>)
      requires 1 <= limit <= MAX_LINE_BYTES
      ensures this.limit == limit && this.parse == parse && partial == []
    {
      this.limit, this.parse, partial := limit, parse, [];
    }

    /** The loop of `feed`: the events of all complete lines and the end of the last one, or failure
        at the first line that is too long. */
    method ReadLines(buffer: Bytes) returns (ok: bool, events: seq<Event<E>>, cursor: nat)
      ensures ok <==> StrippedFit(Lines(buffer), limit)
      ensures ok ==> events == Events(Lines(buffer), parse) && cursor <= |buffer| && buffer[cursor..] == Tail(buffer)
    {
      ok, events, cursor := true, [], 0;
      var newline := Find(buffer, 0);
      while newline >= 0
        invariant cursor <= |buffer| && FirstNewline(buffer, cursor, newline)
        invariant ReadTo(buffer[..cursor], events, limit, parse)
        decreases |buffer| - cursor
      {
        var line := buffer[cursor..newline];
        Splits(buffer, cursor, newline);
        NextLine(buffer[..cursor], line, buffer[newline + 1..], events, limit, parse);
        if |Strip(line)| > limit { return false, [], 0; }
        events := events + EventOf(line, parse);
        cursor := newline + 1;
        newline := Find(buffer, cursor);
      }
      LastLine(buffer, cursor, events, limit, parse);
    }

    /** `feed`.  `None` stands for the exception: a line that is too long leaves the unfinished line
        as it was, an unfinished line that is too long is thrown away, and either way the events of
        this feed are lost. */
    method Feed(data: Bytes, rotated: bool) returns (r: Option<seq<Event<E>>>)
      modifies this`partial
      ensures var start := if rotated then [] else old(partial);
        match Next(start, data, limit, parse) {
          case Some(fed) => partial == fed.1 && r == Some((if rotated then [Reset] else []) + fed.0)
          case None => r == None && partial == if StrippedFit(Lines(start + data), limit) then [] else start
        }
    {
      var events: seq<Event<E>> := [];
      if rotated {
        partial := [];
        events := [Reset];
      }
      var buffer := partial + data;
      var ok, read, cursor := ReadLines(buffer);
      if !ok { return None; }
      partial := buffer[cursor..];
      if |partial| > limit {
        partial := [];
        return None;
      }
      r := Some(events + read);
    }
  }

  // ---------- chunks ----------

  function Concat(chunks: seq<Bytes>): Bytes {
    if chunks == [] then [] else Concat(chunks[..|chunks| - 1]) + chunks[|chunks| - 1]
  }

  /** Feeding chunk after chunk to a new parser, without rotation; `None` once a feed fails. */
  function FeedAll<E>(chunks: seq<Bytes>, limit: nat, parse: Bytes -> Option<E>): Option<(seq<Event<E>>, Bytes)> {
    if chunks == [] then Some(([], []))
    else
      match FeedAll(chunks[..|chunks| - 1], limit, parse)
      case None => None
      case Some(before) =>
        match Next(before.1, chunks[|chunks| - 1], limit, parse)
        case None => None
        case Some(fed) => Some((before.0 + fed.0, fed.1))
  }

  /** No chunk ends where the unfinished line is over the limit. */
  ghost predicate BoundariesFit(chunks: seq<Bytes>, limit: nat) {
    |Tail(Concat(chunks))| <= limit && (chunks == [] || BoundariesFit(chunks[..|chunks| - 1], limit))
  }

  /** A chunked feed succeeds exactly when no stripped line and no chunk's unfinished line is over the
      limit, and then it has read the stream. */
  lemma {:induction false} ChunksRead<E>(chunks: seq<Bytes>, limit: nat, parse: Bytes -> Option<E>)
    ensures var s := Concat(chunks);
      FeedAll(chunks, limit, parse) ==
      if StrippedFit(Lines(s), limit) && BoundariesFit(chunks, limit)
      then Some((Events(Lines(s), parse), Tail(s))) else None
  {
    if chunks != [] {
      var front, last := chunks[..|chunks| - 1], chunks[|chunks| - 1];
      var s := Concat(front);
      ChunksRead(front, limit, parse);
      Cut(s, last);
      FitConcat(Lines(s), Lines(Tail(s) + last), limit);
      EventsConcat(Lines(s), Lines(Tail(s) + last), parse);
    }
  }

  // ---------- which streams may be chunked at will ----------

  /** Every line, carriage returns included, and the unfinished one are within the limit. */
  ghost predicate Fits(s: Bytes, limit: nat) {
    (forall l :: l in Lines(s) ==> |l| <= limit) && |Tail(s)| <= limit
  }

  /** In a stream that fits every beginning fits. */
  lemma {:induction false} BeginningFits(a: Bytes, b: Bytes, limit: nat)
    requires Fits(a + b, limit)
    ensures Fits(a, limit)
    decreases |b|
  {
    if b == [] {
      assert a + b == a;
    } else {
      var front, last := b[..|b| - 1], b[|b| - 1];
      assert (a + b)[..|a + b| - 1] == a + front;
      if last == NEWLINE {
        assert Lines(a + b) == Lines(a + front) + [Tail(a + front)];
        assert Tail(a + front) in Lines(a + b);
      }
      BeginningFits(a, front, limit);
    }
  }

  lemma {:induction false} FittingBoundaries(chunks: seq<Bytes>, limit: nat)
    requires Fits(Concat(chunks), limit)
    ensures BoundariesFit(chunks, limit)
  {
    if chunks != [] {
      var front := chunks[..|chunks| - 1];
      BeginningFits(Concat(front), chunks[|chunks| - 1], limit);
      FittingBoundaries(front, limit);
    }
  }

  /** A stream that fits can be cut into chunks in any way: always the same events and the same
      unfinished line. */
  lemma ChunkingDoesNotMatter<E>(chunks: seq<Bytes>, limit: nat, parse: Bytes -> Option<E>)
    requires Fits(Concat(chunks), limit)
    ensures FeedAll(chunks, limit, parse) == Some((Events(Lines(Concat(chunks)), parse), Tail(Concat(chunks))))
  {
    var s := Concat(chunks);
    FittingBoundaries(chunks, limit);
    forall i | 0 <= i < |Lines(s)| ensures |Strip(Lines(s)[i])| <= limit { assert Lines(s)[i] in Lines(s); }
    ChunksRead(chunks, limit, parse);
  }

  /** Where a line that is too long is still unfinished. */
  lemma {:induction false} LongLineEnds(s: Bytes, limit: nat) returns (n: nat)
    requires !Fits(s, limit)
    ensures n <= |s| && |Tail(s[..n])| > limit
  {
    if |Tail(s)| > limit {
      n := |s|;
      assert s[..n] == s;
    } else {
      var front := s[..|s| - 1];
      if |Tail(front)| > limit {
        n := |s| - 1;
      } else {
        n := LongLineEnds(front, limit);
        assert front[..n] == s[..n];
      }
    }
  }

  /** And only such a stream: the chunking that stops just before the newline of a line that is too
      long fails, even where carriage returns alone make it too long. */
  lemma ChunkableExactly<E>(s: Bytes, limit: nat, parse: Bytes -> Option<E>)
    ensures Fits(s, limit) <==> forall chunks :: Concat(chunks) == s ==> FeedAll(chunks, limit, parse).Some?
  {
    if Fits(s, limit) {
      forall chunks | Concat(chunks) == s ensures FeedAll(chunks, limit, parse).Some? {
        ChunkingDoesNotMatter(chunks, limit, parse);
      }
    } else {
      var n := LongLineEnds(s, limit);
      var chunks := [s[..n], s[n..]];
      assert chunks[..1] == [s[..n]] && chunks[..1][..0] == [];
      assert Concat(chunks[..1]) == s[..n];
      assert Concat(chunks) == s;
      assert !BoundariesFit(chunks, limit);
      ChunksRead(chunks, limit, parse);
    }
  }

  lemma OneChunk<E>(chunk: Bytes, limit: nat, parse: Bytes -> Option<E>)
    ensures FeedAll([chunk], limit, parse).Some? <==> StrippedFit(Lines(chunk), limit) && |Tail(chunk)| <= limit
  {
    assert [chunk][..0] == [] && [] + chunk == chunk;
  }

  lemma TwoChunks<E>(a: Bytes, b: Bytes, limit: nat, parse: Bytes -> Option<E>)
    requires FeedAll([a], limit, parse).None?
    ensures FeedAll([a, b], limit, parse).None?
  {
    assert [a, b][..1] == [a];
  }

  lemma OneLine(line: Bytes)
    requires Unfinished(line)
    ensures Lines(line + [NEWLINE]) == [line] && Tail(line + [NEWLINE]) == [] && Tail(line) == line
  {
    LineAdded([], line);
    NoNewline([], line);
    assert [] + line == line;
  }

  /** A line that only its carriage returns make too long is read when it arrives whole, and lost
      when a chunk ends before its newline. */
  lemma ReturnsMakeChunkingMatter<E>(line: Bytes, limit: nat, parse: Bytes -> Option<E>)
    requires Unfinished(line) && |Strip(line)| <= limit < |line|
    ensures FeedAll([line + [NEWLINE]], limit, parse).Some?
    ensures FeedAll([line, [NEWLINE]], limit, parse).None?
  {
    OneLine(line);
    OneChunk(line + [NEWLINE], limit, parse);
    OneChunk(line, limit, parse);
    TwoChunks(line, [NEWLINE], limit, parse);
  }

  /** One letter and a carriage return are such a line for a limit of one. */
  lemma SuchALine()
    ensures Unfinished([65, RETURN]) && |Strip([65, RETURN])| == 1
  {
    assert [65, RETURN][..1] == [65];
    assert Strip([65]) == [65];
  }

  // ---------- written lines ----------

  /** A line as it was written, and how many carriage returns end it. */
  datatype Text = Text(line: Bytes, ends: nat)

  function Returns(n: nat): (r: Bytes)
    ensures |r| == n && forall i :: 0 <= i < n ==> r[i] == RETURN
  {
    if n == 0 then [] else Returns(n - 1) + [RETURN]
  }

  predicate Plain(line: Bytes) { Unfinished(line) && (line == [] || line[|line| - 1] != RETURN) }

  function Written(texts: seq<Text>): Bytes {
    if texts == [] then []
    else
      var last := texts[|texts| - 1];
      Written(texts[..|texts| - 1]) + (last.line + Returns(last.ends)) + [NEWLINE]
  }

  /** What the parser makes of the lines, one after the other. */
  function Yields<E>(texts: seq<Text>, parse: Bytes -> Option<E>): seq<Event<E>> {
    if texts == [] then []
    else
      Yields(texts[..|texts| - 1], parse)
        + match parse(texts[|texts| - 1].line) { case Some(e) => [Parsed(e)] case None => [] }
  }

  predicate Short(texts: seq<Text>, limit: nat) {
    forall i :: 0 <= i < |texts| ==> Plain(texts[i].line) && |texts[i].line| + texts[i].ends <= limit
  }

  /** Stripping is determined by what it promises. */
  lemma StripIs(line: Bytes, r: Bytes)
    requires |r| <= |line| && r == line[..|r|] && (r != [] ==> r[|r| - 1] != RETURN)
    requires forall i :: |r| <= i < |line| ==> line[i] == RETURN
    ensures Strip(line) == r
  {
    var q := Strip(line);
    assert r != [] ==> line[|r| - 1] == r[|r| - 1];
    assert q != [] ==> line[|q| - 1] == q[|q| - 1];
    assert |q| == |r|;
  }

  lemma StripReturns(line: Bytes, n: nat)
    requires Plain(line)
    ensures Strip(line + Returns(n)) == line
  {
    StripIs(line + Returns(n), line);
  }

  lemma {:induction false} WrittenLines<E>(texts: seq<Text>, limit: nat, parse: Bytes -> Option<E>)
    requires Short(texts, limit)
    ensures Tail(Written(texts)) == [] && Events(Lines(Written(texts)), parse) == Yields(texts, parse)
    ensures forall l :: l in Lines(Written(texts)) ==> |l| <= limit
  {
    if texts != [] {
      var front, last := texts[..|texts| - 1], texts[|texts| - 1];
      var line := last.line + Returns(last.ends);
      WrittenLines(front, limit, parse);
      LineAdded(Written(front), line);
      StripReturns(last.line, last.ends);
      assert Lines(Written(texts)) == Lines(Written(front)) + [line];
      LineRead(Lines(Written(front)), line, limit, parse);
    }
  }

  /** Lines within the limit, ended by a newline and any number of carriage returns, followed by an
      unfinished one and cut into chunks in any way, yield what the parser makes of each line without
      its carriage returns, in order. */
  lemma WrittenIsRead<E>(texts: seq<Text>, rest: Bytes, chunks: seq<Bytes>, limit: nat, parse: Bytes -> Option<E>)
    requires Short(texts, limit) && Unfinished(rest) && |rest| <= limit && Concat(chunks) == Written(texts) + rest
    ensures FeedAll(chunks, limit, parse) == Some((Yields(texts, parse), rest))
  {
    WrittenLines(texts, limit, parse);
    NoNewline(Written(texts), rest);
    assert [] + rest == rest;
    ChunkingDoesNotMatter(chunks, limit, parse);
  }
}
