/** What the output of a run looks like to its observer and to its caller, in terms of the text alone. */
module OutputTexts {
  import opened Sequences
  import opened OpenShell

  // ---------------------------------------------------------------------- lines

  predicate LineEnding(e: string) {
    e == "\n" || e == "\r\n"
  }

  /** Parts with a line end behind each but the last. */
  function Weave(parts: seq<string>, ends: seq<string>): string
    requires parts != [] && |ends| == |parts| - 1
  {
    if |parts| == 1 then parts[0] else parts[0] + ends[0] + Weave(parts[1..], ends[1..])
  }

  /** A carriage return in front of a newline belongs to the line end. */
  predicate EndsWhole(part: string, end: string) {
    end == "\n" ==> part == "" || part[|part| - 1] != '\r'
  }

  /** The parts hold no newline, and every line end takes in the carriage return in front of it. */
  ghost predicate Lined(parts: seq<string>, ends: seq<string>) {
    && parts != [] && |ends| == |parts| - 1
    && (forall i :: 0 <= i < |parts| ==> '\n' !in parts[i])
    && (forall i :: 0 <= i < |ends| ==> LineEnding(ends[i]) && EndsWhole(parts[i], ends[i]))
  }

  /** The text is the parts with line ends between them. */
  lemma {:induction false} SplitIsWoven(s: string) returns (ends: seq<string>)
    ensures Lined(SplitLines(s), ends) && Weave(SplitLines(s), ends) == s
    decreases |s|
  {
    var parts := SplitLines(s);
    if s == [] {
      ends := [];
    } else {
      var n := LineEnd(s);
      SplitStep(s);
      if n > 0 {
        var rest := SplitIsWoven(s[n..]);
        ends := [s[..n]] + rest;
        WeaveCons("", s[..n], SplitLines(s[n..]), rest);
        assert s == s[..n] + s[n..];
      } else {
        ends := SplitIsWoven(s[1..]);
        WeaveGrow(s[0], SplitLines(s[1..]), ends);
        GrownIsLined(s, SplitLines(s[1..]), ends);
        assert s == [s[0]] + s[1..];
      }
    }
  }

  lemma {:induction false} WeaveCons(part: string, end: string, parts: seq<string>, ends: seq<string>)
    requires Lined(parts, ends) && '\n' !in part && LineEnding(end) && EndsWhole(part, end)
    ensures Lined([part] + parts, [end] + ends)
    ensures Weave([part] + parts, [end] + ends) == part + end + Weave(parts, ends)
  {
    assert ([part] + parts)[1..] == parts && ([end] + ends)[1..] == ends;
  }

  lemma {:induction false} WeaveGrow(c: char, parts: seq<string>, ends: seq<string>)
    requires parts != [] && |ends| == |parts| - 1
    ensures var grown := [[c] + parts[0]] + parts[1..];
            |ends| == |grown| - 1 && Weave(grown, ends) == [c] + Weave(parts, ends)
  {
    var grown := [[c] + parts[0]] + parts[1..];
    if |parts| > 1 {
      assert grown[1..] == parts[1..];
      assert [c] + parts[0] + ends[0] + Weave(parts[1..], ends[1..])
          == [c] + (parts[0] + ends[0] + Weave(parts[1..], ends[1..]));
    }
  }

  lemma {:induction false} GrownIsLined(s: string, parts: seq<string>, ends: seq<string>)
    requires s != [] && LineEnd(s) == 0 && Lined(parts, ends) && Weave(parts, ends) == s[1..]
    ensures Lined([[s[0]] + parts[0]] + parts[1..], ends)
  {
    if ends != [] && parts[0] == "" {
      assert s[1..][0] == ends[0][0];
    }
  }

  /** There is one way only to take a text apart like that, so that splitting finds its lines. */
  lemma {:induction false} LinesAreUnique(s: string, parts: seq<string>, ends: seq<string>)
    requires Lined(parts, ends) && Weave(parts, ends) == s
    ensures SplitLines(s) == parts
    decreases |parts|
  {
    if |parts| == 1 {
      NoNewline(s);
    } else {
      var tail := Weave(parts[1..], ends[1..]);
      assert forall i :: 0 <= i < |parts| - 1 ==> parts[1..][i] == parts[i + 1];
      assert forall i :: 0 <= i < |ends| - 1 ==> ends[1..][i] == ends[i + 1];
      LinesAreUnique(tail, parts[1..], ends[1..]);
      FirstLine(parts[0], ends[0], tail);
      assert parts == [parts[0]] + parts[1..];
    }
  }

  lemma {:induction false} NoNewline(s: string)
    requires '\n' !in s
    ensures SplitLines(s) == [s]
  {
    if s != [] {
      NoNewline(s[1..]);
      assert s[1..] != [] ==> s[1] in s;
      assert s[0] in s;
      assert s == [s[0]] + s[1..];
    }
  }

  lemma {:induction false} FirstLine(part: string, end: string, tail: string)
    requires '\n' !in part && LineEnding(end) && EndsWhole(part, end)
    ensures SplitLines(part + end + tail) == [part] + SplitLines(tail)
  {
    var s := part + end + tail;
    if part == [] {
      assert s == end + tail;
      assert LineEnd(s) == |end|;
      SplitStep(s);
      assert s[|end|..] == tail;
    } else {
      assert s[1..] == part[1..] + end + tail && s[0] == part[0];
      assert part[0] in part;
      if |part| > 1 {
        assert part[1] in part && s[1] == part[1];
      } else {
        assert s[1] == end[0];
      }
      assert LineEnd(s) == 0;
      FirstLine(part[1..], end, tail);
      SplitStep(s);
      assert [part[0]] + part[1..] == part;
    }
  }

  // ----------------------------------------------------------------------- tail

  /** The tail of a text ends it and has `n` characters, or all of them. */
  lemma {:induction false} TailEnds(s: string, n: nat)
    ensures |Tail(s, n)| == (if |s| <= n then |s| else n)
    ensures s == s[..|s| - |Tail(s, n)|] + Tail(s, n)
  {
  }

  /** After any run the output is the end of everything received, at most 64,000 characters of it. */
  lemma {:induction false} OutputIsTail(events: seq<Event>)
    ensures var all, kept := AllText(SegmentAll(events)), HandleAll(events).output;
            && |kept| == (if |all| <= 64_000 then |all| else 64_000)
            && all == all[..|all| - |kept|] + kept
  {
    RunAgrees(events);
    TailEnds(AllText(SegmentAll(events)), TAIL_LENGTH);
  }

  /** The text of all chunks, in order of arrival. */
  function Received(events: seq<Event>): string {
    if events == [] then ""
    else
      Received(events[..|events| - 1])
      + (if events[|events| - 1].Chunk? then events[|events| - 1].text else "")
  }

  lemma {:induction false} AllIsReceived(events: seq<Event>)
    ensures AllText(SegmentAll(events)) == Received(events)
  {
    if events != [] {
      var front := events[..|events| - 1];
      AllIsReceived(front);
      var t := SegmentAll(front);
      LogLine(t.closed, t.open);
      assert Flatten(t.closed + [t.open]) + "" == Flatten(t.closed) + t.open;
    }
  }

  // --------------------------------------------------------------------- results

  /** The parts of a text between its newlines. */
  lemma {:induction false} NewlinesSplit(s: string)
    ensures JoinLines(SplitNewlines(s)) == s
    ensures forall i :: 0 <= i < |SplitNewlines(s)| ==> '\n' !in SplitNewlines(s)[i]
  {
    if s != [] {
      var rest := SplitNewlines(s[1..]);
      NewlinesSplit(s[1..]);
      assert s == [s[0]] + s[1..];
      if s[0] == '\n' {
        assert ([""] + rest)[1..] == rest;
      } else {
        var grown := [[s[0]] + rest[0]] + rest[1..];
        assert |rest| > 1 ==> grown[1..] == rest[1..];
        assert |rest| > 1 ==>
            [s[0]] + rest[0] + "\n" + JoinLines(rest[1..]) == [s[0]] + (rest[0] + "\n" + JoinLines(rest[1..]));
      }
    }
  }

  /** A run resolves with the last hundred non-empty lines of its output, or all of them. */
  lemma {:induction false} ResultIsLastLines(output: string)
    ensures var lines, r := Filter(part => part != "", SplitNewlines(output)), ResultLines(output);
            && |r| == (if |lines| <= 100 then |lines| else 100)
            && lines == lines[..|lines| - |r|] + r
  {
    assert NonEmpty(SplitNewlines(output)) == Filter(part => part != "", SplitNewlines(output));
  }
}
