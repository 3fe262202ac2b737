/** The runner's streaming side: splitting output into lines as it arrives and keeping its tail. */
module OpenShell {
  import opened Sequences

  const TAIL_LENGTH := 64_000
  const RESULT_LINES := 100

  // ------------------------------------------------------------------ splitting

  /** The parts between line ends, where a line end is a newline with an optional carriage
      return before it. */
  function SplitLines(s: string): (r: seq<string>)
    ensures r != []
    decreases |s|
  {
    if s == [] then [""]
    else if s[0] == '\n' then [""] + SplitLines(s[1..])
    else if s[0] == '\r' && |s| >= 2 && s[1] == '\n' then [""] + SplitLines(s[2..])
    else var rest := SplitLines(s[1..]); [[s[0]] + rest[0]] + rest[1..]
  }

  function Last<T>(s: seq<T>): T
    requires s != []
  {
    s[|s| - 1]
  }

  function Front<T>(s: seq<T>): seq<T>
    requires s != []
  {
    s[..|s| - 1]
  }

  function NonEmpty(parts: seq<string>): seq<string> {
    Filter(part => part != "", parts)
  }

  /** The last `n` characters, or all of them. */
  function Tail(s: string, n: nat): string {
    if |s| <= n then s else s[|s| - n..]
  }

  lemma {:induction false} SingleLine(s: string)
    requires |SplitLines(s)| == 1
    ensures SplitLines(s) == [s]
    decreases |s|
  {
    if s != [] {
      SingleLine(s[1..]);
      assert SplitLines(s) == [[s[0]] + s[1..]] + [];
      assert [s[0]] + s[1..] == s;
    }
  }

  /** Whether `a` starts with a line end, and how long it is. */
  function LineEnd(a: string): nat {
    if a == [] then 0
    else if a[0] == '\n' then 1
    else if a[0] == '\r' && |a| >= 2 && a[1] == '\n' then 2
    else 0
  }

  lemma {:induction false} SplitStep(a: string)
    requires a != []
    ensures var n := LineEnd(a);
            if n > 0 then n <= |a| && SplitLines(a) == [""] + SplitLines(a[n..])
            else SplitLines(a) == [[a[0]] + SplitLines(a[1..])[0]] + SplitLines(a[1..])[1..]
  {
  }

  /** More text only changes how the last part goes on, wherever the cut is made. */
  lemma {:induction false} SplitAppend(a: string, b: string)
    ensures SplitLines(a + b) == Front(SplitLines(a)) + SplitLines(Last(SplitLines(a)) + b)
    decreases |a|
  {
    if a == [] {
      EmptySplit();
      assert a + b == b && "" + b == b;
    } else if |SplitLines(a)| == 1 {
      hide SplitLines;
      SingleLine(a);
      assert Front([a]) == [] && Last([a]) == a;
    } else {
      hide SplitLines, LineEnd;
      var n := LineEnd(a);
      SplitStep(a);
      LineEndStays(a, b);
      SplitStep(a + b);
      if n > 0 {
        SplitAppend(a[n..], b);
        AppendBehindLineEnd(a, b, n);
      } else {
        SplitAppend(a[1..], b);
        AppendBehindCharacter(a, b);
      }
    }
  }

  lemma {:induction false} AppendBehindLineEnd(a: string, b: string, n: nat)
    requires 0 < n <= |a| && SplitLines(a) == [""] + SplitLines(a[n..])
    requires SplitLines(a + b) == [""] + SplitLines((a + b)[n..])
    requires SplitLines(a[n..] + b) == Front(SplitLines(a[n..])) + SplitLines(Last(SplitLines(a[n..])) + b)
    ensures SplitLines(a + b) == Front(SplitLines(a)) + SplitLines(Last(SplitLines(a)) + b)
  {
    hide SplitLines;
    assert (a + b)[n..] == a[n..] + b;
    FrontCons("", SplitLines(a[n..]));
  }

  lemma {:induction false} AppendBehindCharacter(a: string, b: string)
    requires a != [] && |SplitLines(a[1..])| > 1
    requires SplitLines(a) == [[a[0]] + SplitLines(a[1..])[0]] + SplitLines(a[1..])[1..]
    requires SplitLines(a + b) == [[a[0]] + SplitLines((a + b)[1..])[0]] + SplitLines((a + b)[1..])[1..]
    requires SplitLines(a[1..] + b) == Front(SplitLines(a[1..])) + SplitLines(Last(SplitLines(a[1..])) + b)
    ensures SplitLines(a + b) == Front(SplitLines(a)) + SplitLines(Last(SplitLines(a)) + b)
  {
    hide SplitLines;
    assert (a + b)[1..] == a[1..] + b;
    var rest := SplitLines(a[1..]);
    GrowFirst(a[0], rest, SplitLines(Last(rest) + b));
  }

  lemma {:induction false} GrowFirst(c: char, rest: seq<string>, more: seq<string>)
    requires |rest| > 1
    ensures var x, y := Front(rest) + more, [[c] + rest[0]] + rest[1..];
            x != [] && [[c] + x[0]] + x[1..] == Front(y) + more && Last(y) == Last(rest)
  {
  }

  /** A line end at the start of a text with several parts is the same in a longer text. */
  lemma {:induction false} LineEndStays(a: string, b: string)
    requires a != [] && |SplitLines(a)| > 1
    ensures LineEnd(a + b) == LineEnd(a)
    ensures LineEnd(a) == 0 ==> (a + b)[0] == a[0] && |SplitLines(a[1..])| > 1
  {
  }

  lemma {:induction false} FrontCons<T>(x: T, s: seq<T>)
    requires s != []
    ensures Front([x] + s) == [x] + Front(s) && Last([x] + s) == Last(s)
  {
  }

  lemma {:induction false} TailAppend(s: string, t: string, n: nat)
    ensures Tail(Tail(s, n) + t, n) == Tail(s + t, n)
  {
  }

  // --------------------------------------------------------------------- the sink

  datatype Outcome = Resolved(lines: seq<string>) | Rejected(message: string)

  /** Output tail, unfinished line, whether the promise is settled and how, and every batch of
      lines handed to the observer. */
  datatype Sink = Sink(
    output: string, pendingLine: string, settled: bool, outcome: Option<Outcome>, logged: seq<seq<string>>)

  const EMPTY_SINK := Sink("", "", false, None, [])

  function Append(k: Sink, chunk: string): Sink {
    var parts := SplitLines(k.pendingLine + chunk);
    var lines := NonEmpty(Front(parts));
    k.(output := Tail(k.output + chunk, TAIL_LENGTH),
       pendingLine := Last(parts),
       logged := if lines == [] then k.logged else k.logged + [lines])
  }

  function Flush(k: Sink): Sink {
    if k.pendingLine == "" then k else k.(pendingLine := "", logged := k.logged + [[k.pendingLine]])
  }

  /** Parts between newlines alone. */
  function SplitNewlines(s: string): (r: seq<string>)
    ensures r != []
  {
    if s == [] then [""]
    else if s[0] == '\n' then [""] + SplitNewlines(s[1..])
    else var rest := SplitNewlines(s[1..]); [[s[0]] + rest[0]] + rest[1..]
  }

  function ResultLines(output: string): seq<string> {
    var lines := NonEmpty(SplitNewlines(output));
    if |lines| <= RESULT_LINES then lines else lines[|lines| - RESULT_LINES..]
  }

  function Finish(k: Sink, error: Option<string>): Sink {
    if k.settled then k
    else
      Flush(k).(settled := true,
        outcome := Some(if error.Some? then Rejected(error.value) else Resolved(ResultLines(k.output))))
  }

  /** A health probe that succeeds. It does not look again whether the run was settled while it
      was under way, so it may flush a second time; the outcome stays the first one. */
  function ProbeSucceeded(k: Sink): Sink {
    Flush(k).(settled := true,
      outcome := if k.outcome.Some? then k.outcome else Some(Resolved(ResultLines(k.output))))
  }

  /** The sink as the process callbacks update it. */
  class LineSink {
    var output: string
    var pendingLine: string
    var settled: bool
    var outcome: Option<Outcome>
    var logged: seq<seq<string>>

    constructor ()
      ensures Contents() == EMPTY_SINK
    {
      output, pendingLine, settled, outcome, logged := "", "", false, None, [];
    }

    function Contents(): Sink
      reads this
    {
      Sink(output, pendingLine, settled, outcome, logged)
    }

    method AppendChunk(chunk: string)
      modifies this
      ensures Contents() == Append(old(Contents()), chunk)
    {
      output := Tail(output + chunk, TAIL_LENGTH);
      var parts := SplitLines(pendingLine + chunk);
      pendingLine := parts[|parts| - 1];
      var lines := Filter(part => part != "", parts[..|parts| - 1]);
      if |lines| > 0 {
        logged := logged + [lines];
      }
    }

    method FlushPendingLine()
      modifies this`pendingLine, this`logged
      ensures Contents() == Flush(old(Contents()))
    {
      if pendingLine == "" {
        return;
      }
      logged := logged + [[pendingLine]];
      pendingLine := "";
    }

    method FinishWith(error: Option<string>)
      modifies this
      ensures Contents() == Finish(old(Contents()), error)
    {
      if settled {
        return;
      }
      settled := true;
      FlushPendingLine();
      outcome := Some(if error.Some? then Rejected(error.value) else Resolved(ResultLines(output)));
    }

    method ProbeDone()
      modifies this
      ensures Contents() == ProbeSucceeded(old(Contents()))
    {
      settled := true;
      FlushPendingLine();
      if outcome.None? {
        outcome := Some(Resolved(ResultLines(output)));
      }
    }
  }

  // ------------------------------------------------------ independence of chunking

  datatype Event = Chunk(text: string) | Finished(error: Option<string>) | Probed

  function Handle(k: Sink, e: Event): Sink {
    match e
    case Chunk(text) => Append(k, text)
    case Finished(error) => Finish(k, error)
    case Probed => ProbeSucceeded(k)
  }

  function HandleAll(events: seq<Event>): Sink {
    if events == [] then EMPTY_SINK else Handle(HandleAll(events[..|events| - 1]), events[|events| - 1])
  }

  /** The texts that a run consists of: those closed by a flush, and the one still open. Where
      chunks begin and end is forgotten. */
  datatype Texts = Texts(closed: seq<string>, open: string, settled: bool)

  function Segment(t: Texts, e: Event): Texts {
    match e
    case Chunk(text) => t.(open := t.open + text)
    case Finished(_) => if t.settled then t else Texts(t.closed + [t.open], "", true)
    case Probed => Texts(t.closed + [t.open], "", true)
  }

  function SegmentAll(events: seq<Event>): Texts {
    if events == [] then Texts([], "", false)
    else Segment(SegmentAll(events[..|events| - 1]), events[|events| - 1])
  }

  function AllText(t: Texts): string {
    Flatten(t.closed) + t.open
  }

  /** What the observer must have seen of the closed texts: their non-empty lines. */
  function ClosedLines(closed: seq<string>): seq<string> {
    if closed == [] then []
    else ClosedLines(closed[..|closed| - 1]) + NonEmpty(SplitLines(closed[|closed| - 1]))
  }

  function Lines(k: Sink): seq<string> {
    Flatten(k.logged)
  }

  /** The sink agrees with the texts: complete lines are handed on, the unfinished one is kept,
      and the output is the tail of everything. */
  ghost predicate Agrees(k: Sink, t: Texts) {
    && k.pendingLine == Last(SplitLines(t.open))
    && Lines(k) == ClosedLines(t.closed) + NonEmpty(Front(SplitLines(t.open)))
    && k.output == Tail(AllText(t), TAIL_LENGTH)
    && k.settled == t.settled
  }

  lemma {:induction false} LogLine<T>(logged: seq<seq<T>>, lines: seq<T>)
    ensures Flatten(logged + [lines]) == Flatten(logged) + lines
  {
    FlattenConcat(logged, [lines]);
    assert Flatten([lines]) == lines + Flatten([lines][1..]) == lines + [];
  }

  lemma {:induction false} AppendLogs(k: Sink, chunk: string)
    ensures Lines(Append(k, chunk)) == Lines(k) + NonEmpty(Front(SplitLines(k.pendingLine + chunk)))
  {
    LogLine(k.logged, NonEmpty(Front(SplitLines(k.pendingLine + chunk))));
    assert Lines(k) + [] == Lines(k);
  }

  lemma {:induction false} AppendAgrees(k: Sink, t: Texts, chunk: string)
    requires Agrees(k, t)
    ensures Agrees(Append(k, chunk), Segment(t, Chunk(chunk)))
  {
    hide SplitLines, Tail, Lines, ClosedLines, NonEmpty;
    AppendLogs(k, chunk);
    SplitAppend(t.open, chunk);
    var parts := SplitLines(k.pendingLine + chunk);
    FrontOfConcat(Front(SplitLines(t.open)), parts);
    NonEmptyConcat(Front(SplitLines(t.open)), Front(parts));
    assert AllText(t) + chunk == AllText(Segment(t, Chunk(chunk)));
    TailAppend(AllText(t), chunk, TAIL_LENGTH);
  }

  lemma {:induction false} NonEmptyConcat(a: seq<string>, b: seq<string>)
    ensures NonEmpty(a + b) == NonEmpty(a) + NonEmpty(b)
  {
    FilterConcat(part => part != "", a, b);
  }

  lemma {:induction false} FlushAgrees(k: Sink, t: Texts)
    requires Agrees(k, t)
    ensures var u := Texts(t.closed + [t.open], "", true);
            Agrees(Flush(k).(settled := true), u)
  {
    hide SplitLines, Tail;
    EmptySplit();
    FlushLogs(k);
    FrontAndLast(SplitLines(t.open));
    var u := Texts(t.closed + [t.open], "", true);
    assert u.closed[..|u.closed| - 1] == t.closed;
    LogLine(t.closed, t.open);
    assert AllText(u) == AllText(t);
    assert ClosedLines(u.closed) + [] == ClosedLines(u.closed);
  }

  /** For every way of cutting the texts of a run into chunks, inside a line end included, the
      observer has seen the non-empty lines of each closed text and the complete ones of the open
      text, and the output is the tail of the whole stream. */
  lemma {:induction false} RunAgrees(events: seq<Event>)
    ensures Agrees(HandleAll(events), SegmentAll(events))
  {
    hide Append, SplitLines, Tail, Flush;
    if events == [] {
      EmptySplit();
      ShortTail();
    } else {
      var front, e := events[..|events| - 1], events[|events| - 1];
      RunAgrees(front);
      var k, t := HandleAll(front), SegmentAll(front);
      match e
      case Chunk(text) => AppendAgrees(k, t, text);
      case Finished(error) =>
        FlushAgrees(k, t);
        FlushKeeps(k);
      case Probed =>
        FlushAgrees(k, t);
        FlushKeeps(k);
    }
  }

  lemma {:induction false} ShortTail()
    ensures Tail("", TAIL_LENGTH) == ""
  {
  }

  /** Runs over the same texts are indistinguishable to the observer. */
  lemma {:induction false} ChunkingIsImmaterial(a: seq<Event>, b: seq<Event>)
    requires SegmentAll(a) == SegmentAll(b)
    ensures Lines(HandleAll(a)) == Lines(HandleAll(b))
    ensures HandleAll(a).pendingLine == HandleAll(b).pendingLine
    ensures HandleAll(a).output == HandleAll(b).output
  {
    hide SplitLines, Tail;
    RunAgrees(a);
    RunAgrees(b);
  }

  /** The first event that ends a run fixes its outcome, from the tail of the text so far. */
  lemma {:induction false} OutcomeIsFirst(before: seq<Event>, e: Event, after: seq<Event>)
    requires !SegmentAll(before).settled && !e.Chunk?
    ensures HandleAll(before + [e] + after).outcome
         == Some(if e.Finished? && e.error.Some? then Rejected(e.error.value)
                 else Resolved(ResultLines(Tail(AllText(SegmentAll(before)), TAIL_LENGTH))))
    decreases |after|
  {
    hide Append, SplitLines, Tail, Flush, ResultLines;
    RunAgrees(before);
    UnsettledHasNoOutcome(before);
    var k := HandleAll(before);
    FlushKeeps(k);
    if after == [] {
      assert before + [e] + after == before + [e];
      assert (before + [e])[..|before|] == before;
    } else {
      var front, last := after[..|after| - 1], after[|after| - 1];
      var events := before + [e] + after;
      assert events[..|events| - 1] == before + [e] + front;
      OutcomeIsFirst(before, e, front);
      SettledStays(before, e, front);
      RunAgrees(before + [e] + front);
      var l := HandleAll(before + [e] + front);
      FlushKeeps(l);
      AppendKeeps(l, if last.Chunk? then last.text else "");
    }
  }

  lemma {:induction false} UnsettledHasNoOutcome(events: seq<Event>)
    ensures HandleAll(events).settled <==> HandleAll(events).outcome.Some?
  {
    hide Append, Flush;
    if events != [] {
      var k, e := HandleAll(events[..|events| - 1]), events[|events| - 1];
      UnsettledHasNoOutcome(events[..|events| - 1]);
      FlushKeeps(k);
      AppendKeeps(k, if e.Chunk? then e.text else "");
    }
  }

  lemma {:induction false} SettledStays(before: seq<Event>, e: Event, after: seq<Event>)
    requires !e.Chunk?
    ensures SegmentAll(before + [e] + after).settled
    decreases |after|
  {
    var events := before + [e] + after;
    if after == [] {
      assert events[..|events| - 1] == before && events[|events| - 1] == e;
    } else {
      assert events[..|events| - 1] == before + [e] + after[..|after| - 1];
      SettledStays(before, e, after[..|after| - 1]);
    }
  }

  lemma {:induction false} AppendKeeps(k: Sink, chunk: string)
    ensures Append(k, chunk).outcome == k.outcome && Append(k, chunk).settled == k.settled
  {
  }

  lemma {:induction false} EmptySplit()
    ensures SplitLines("") == [""] && Front(SplitLines("")) == [] && Last(SplitLines("")) == ""
  {
  }

  lemma {:induction false} FrontOfConcat<T>(a: seq<T>, b: seq<T>)
    requires b != []
    ensures Front(a + b) == a + Front(b) && Last(a + b) == Last(b)
  {
  }

  lemma {:induction false} FrontAndLast(parts: seq<string>)
    requires parts != []
    ensures NonEmpty(parts) == NonEmpty(Front(parts)) + if Last(parts) == "" then [] else [Last(parts)]
  {
    assert parts == Front(parts) + [Last(parts)];
    FilterConcat(part => part != "", Front(parts), [Last(parts)]);
    assert [Last(parts)][1..] == [];
  }

  lemma {:induction false} FlushLogs(k: Sink)
    ensures Flush(k).pendingLine == ""
    ensures Lines(Flush(k)) == Lines(k) + if k.pendingLine == "" then [] else [k.pendingLine]
  {
    if k.pendingLine != "" {
      LogLine(k.logged, [k.pendingLine]);
    } else {
      assert Lines(k) + [] == Lines(k);
    }
  }

  lemma {:induction false} FlushKeeps(k: Sink)
    ensures Flush(k).output == k.output && Flush(k).settled == k.settled && Flush(k).outcome == k.outcome
  {
  }
}
