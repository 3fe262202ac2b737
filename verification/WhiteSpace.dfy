/** White space, and what trimming leaves of a text. */
module WhiteSpace {

  /** The characters that trimming removes. */
  predicate IsSpace(c: char) {
    || '\t' <= c <= '\r' || c == ' ' || c == '\U{A0}' || c == '\U{1680}'
    || '\U{2000}' <= c <= '\U{200A}' || c == '\U{2028}' || c == '\U{2029}'
    || c == '\U{202F}' || c == '\U{205F}' || c == '\U{3000}' || c == '\U{FEFF}'
  }

  predicate Blank(s: string) {
    forall i :: 0 <= i < |s| ==> IsSpace(s[i])
  }

  function TrimStart(s: string): string {
    if s != [] && IsSpace(s[0]) then TrimStart(s[1..]) else s
  }

  function TrimEnd(s: string): string {
    if s != [] && IsSpace(s[|s| - 1]) then TrimEnd(s[..|s| - 1]) else s
  }

  function Trim(s: string): string {
    TrimEnd(TrimStart(s))
  }

  /** Neither end of the text is white space. */
  predicate Tight(s: string) {
    s == [] || (!IsSpace(s[0]) && !IsSpace(s[|s| - 1]))
  }

  lemma {:induction false} TrimStartDrops(space: string, s: string)
    requires Blank(space) && (s == [] || !IsSpace(s[0]))
    ensures TrimStart(space + s) == s
  {
    if space == [] {
      assert space + s == s;
    } else {
      assert (space + s)[1..] == space[1..] + s;
      TrimStartDrops(space[1..], s);
    }
  }

  lemma {:induction false} TrimEndDrops(s: string, space: string)
    requires Blank(space) && (s == [] || !IsSpace(s[|s| - 1]))
    ensures TrimEnd(s + space) == s
  {
    if space == [] {
      assert s + space == s;
    } else {
      var n := |s + space| - 1;
      assert (s + space)[n] == space[|space| - 1];
      assert (s + space)[..n] == s + space[..|space| - 1];
      TrimEndDrops(s, space[..|space| - 1]);
    }
  }

  /** Trimming removes any white space around a text that has none at its own ends. */
  lemma {:induction false} TrimDropsSpace(before: string, s: string, after: string)
    requires Blank(before) && Blank(after) && Tight(s)
    ensures Trim(before + s + after) == s
  {
    if s == [] {
      TrimStartDrops(before + after, []);
      assert before + s + after == (before + after) + [];
    } else {
      assert before + s + after == before + (s + after);
      TrimStartDrops(before, s + after);
      TrimEndDrops(s, after);
    }
  }

  lemma {:induction false} TrimStartStarts(s: string)
    ensures TrimStart(s) == [] || !IsSpace(TrimStart(s)[0])
  {
    if s != [] && IsSpace(s[0]) {
      TrimStartStarts(s[1..]);
    }
  }

  lemma {:induction false} TrimEndEnds(s: string)
    ensures TrimEnd(s) <= s
    ensures TrimEnd(s) == [] || !IsSpace(TrimEnd(s)[|TrimEnd(s)| - 1])
  {
    if s != [] && IsSpace(s[|s| - 1]) {
      TrimEndEnds(s[..|s| - 1]);
    }
  }

  /** What trimming leaves has no white space at its ends, and trimming it again changes nothing. */
  lemma {:induction false} TrimIsTight(s: string)
    ensures Tight(Trim(s)) && Trim(Trim(s)) == Trim(s)
  {
    TrimStartStarts(s);
    TrimEndEnds(TrimStart(s));
    TrimDropsSpace("", Trim(s), "");
    assert "" + Trim(s) + "" == Trim(s);
  }

  /** `s` is `core` with white space around it. */
  ghost predicate Pads(s: string, core: string) {
    exists before, after :: Blank(before) && Blank(after) && s == before + core + after
  }

  /** Trimming finds the core of a text and nothing else. */
  lemma {:induction false} TrimFindsCore(s: string, core: string)
    requires Tight(core) && Pads(s, core)
    ensures Trim(s) == core
  {
    var before, after :| Blank(before) && Blank(after) && s == before + core + after;
    TrimDropsSpace(before, core, after);
  }
}
