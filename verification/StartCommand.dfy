/** The start command of a sandbox: a script that seeds files from embedded texts, cut into
    command-line arguments. */
module StartCommand {
  import opened Sequences
  import opened Bits
  import opened Base64

  const ARGUMENT_LENGTH := 16_384
  const COMMAND_LIMIT := 256 * 1024

  /** The encoding of texts as bytes. */
  type Utf8 = string -> seq<Byte>

  // -------------------------------------------------------------- quoted words

  const QUOTE := "'"

  predicate Unquoted(s: string) {
    forall i :: 0 <= i < |s| ==> s[i] != '\''
  }

  /** The position of the first single quote, or the length of the text. */
  function QuoteIndex(s: string): (k: nat)
    ensures k <= |s| && (k < |s| ==> s[k] == '\'') && Unquoted(s[..k])
  {
    if s == [] || s[0] == '\'' then 0 else 1 + QuoteIndex(s[1..])
  }

  /** The single-quoted words of a text, as a shell reads them. */
  function QuotedWords(s: string): seq<string>
    decreases |s|
  {
    var i := QuoteIndex(s);
    if i == |s| then [] else WordsInside(s[i + 1..])
  }

  /** The words of a text that starts inside one. */
  function WordsInside(s: string): seq<string>
    decreases |s|
  {
    var j := QuoteIndex(s);
    if j == |s| then [] else [s[..j]] + QuotedWords(s[j + 1..])
  }

  lemma {:induction false} QuoteFollows(s: string, rest: string)
    requires Unquoted(s)
    ensures QuoteIndex(s + QUOTE + rest) == |s|
    ensures (s + QUOTE + rest)[..|s|] == s && (s + QUOTE + rest)[|s| + 1..] == rest
  {
    if s == [] {
      assert s + QUOTE + rest == QUOTE + rest;
    } else {
      QuoteFollows(s[1..], rest);
      assert (s + QUOTE + rest)[1..] == s[1..] + QUOTE + rest;
    }
  }

  lemma {:induction false} NoWords(s: string, rest: string)
    requires Unquoted(s)
    ensures QuotedWords(s + rest) == QuotedWords(rest)
  {
    if s == [] {
      assert s + rest == rest;
    } else {
      NoWords(s[1..], rest);
      assert s + rest == [s[0]] + (s[1..] + rest);
      PlainStart(s[0], s[1..] + rest);
    }
  }

  lemma {:induction false} PlainStart(c: char, rest: string)
    requires c != '\''
    ensures QuotedWords([c] + rest) == QuotedWords(rest)
  {
    hide WordsInside;
    var s := [c] + rest;
    assert s[1..] == rest;
    var i := QuoteIndex(rest);
    assert QuoteIndex(s) == i + 1;
    if i < |rest| {
      assert s[i + 2..] == rest[i + 1..];
    }
  }

  lemma {:induction false} OneWord(word: string, rest: string)
    requires Unquoted(word)
    ensures QuotedWords(QUOTE + word + QUOTE + rest) == [word] + QuotedWords(rest)
  {
    var s := QUOTE + word + QUOTE + rest;
    assert s[1..] == word + QUOTE + rest;
    QuoteFollows(word, rest);
  }

  // ------------------------------------------------------------------ the script

  /** Script text followed by a single-quoted word. */
  datatype Chunk = Chunk(before: string, word: string)

  function Render(cs: seq<Chunk>): string {
    if cs == [] then "" else cs[0].before + QUOTE + cs[0].word + QUOTE + Render(cs[1..])
  }

  function WordsOf(cs: seq<Chunk>): seq<string> {
    Map((c: Chunk) => c.word, cs)
  }

  ghost predicate Clean(cs: seq<Chunk>) {
    forall i :: 0 <= i < |cs| ==> Unquoted(cs[i].before) && Unquoted(cs[i].word)
  }

  lemma {:induction false} RenderFirst(cs: seq<Chunk>, rest: string)
    requires cs != []
    ensures Render(cs) + rest == cs[0].before + (QUOTE + cs[0].word + QUOTE + (Render(cs[1..]) + rest))
  {
  }

  lemma {:induction false} FirstWord(cs: seq<Chunk>)
    requires cs != []
    ensures WordsOf(cs) == [cs[0].word] + WordsOf(cs[1..])
  {
  }

  /** A shell reads exactly the intended words, if neither they nor the texts between contain a quote. */
  lemma {:induction false} WordsAreRead(cs: seq<Chunk>, rest: string)
    requires Clean(cs)
    ensures QuotedWords(Render(cs) + rest) == WordsOf(cs) + QuotedWords(rest)
  {
    hide QuotedWords, Unquoted;
    if cs == [] {
      assert Render(cs) + rest == rest;
    } else {
      var c, tail := cs[0], Render(cs[1..]) + rest;
      assert forall i :: 0 <= i < |cs| - 1 ==> cs[1..][i] == cs[i + 1];
      WordsAreRead(cs[1..], rest);
      RenderFirst(cs, rest);
      hide Render, Clean;
      NoWords(c.before, QUOTE + c.word + QUOTE + tail);
      OneWord(c.word, tail);
      FirstWord(cs);
      hide WordsOf;
    }
  }

  predicate PathChar(c: char) {
    'a' <= c <= 'z' || 'A' <= c <= 'Z' || '0' <= c <= '9' || c == '_' || c == '.' || c == '/' || c == '-'
  }

  /** The absolute paths that instructions may be written to. */
  predicate ValidPath(path: string) {
    |path| >= 2 && path[0] == '/' && forall i :: 1 <= i < |path| ==> PathChar(path[i])
  }

  /** A slash, then at least one character, each of them a dash, a dot, a slash or a digit (45 to 57), an upper
      case letter, an underscore (95) or a lower case letter. */
  lemma {:induction false} ValidPathIff(path: string)
    ensures ValidPath(path)
            <==> exists rest ::
                   && path == "/" + rest && rest != ""
                   && forall i :: 0 <= i < |rest| ==>
                        var code := rest[i] as int;
                        45 <= code <= 57 || 65 <= code <= 90 || code == 95 || 97 <= code <= 122
  {
    if ValidPath(path) {
      assert path == "/" + path[1..];
    }
    if rest :| path == "/" + rest && rest != "" {
      assert rest == path[1..];
      assert forall i :: 1 <= i < |path| ==> path[i] == rest[i - 1];
    }
  }

  /** The path up to its last slash. */
  function Directory(path: string): string {
    if path == [] then ""
    else if path[|path| - 1] == '/' then path[..|path| - 1]
    else Directory(path[..|path| - 1])
  }

  function Embedded(utf8: Utf8, text: string): string {
    EncodePadded(Standard, utf8(text))
  }

  const UP_TO_TEST := "#!/bin/bash" + "\n" + "set -euo pipefail" + "\n" + "umask 077" + "\n" + "rm -f -- \"$0\""
  const HEADER := UP_TO_TEST + "\n" + "if [ ! -e "
  const THEN_DIRECTORY := " ]; then" + "\n" + "  mkdir -p -- "
  const MAKE_INSTRUCTIONS := "" + "\n" + "  instructions_tmp=$(mktemp "
  const PRINT_INSTRUCTIONS := ")" + "\n" + "  printf "
  const INTO_INSTRUCTIONS := " | base64 -d >\"$instructions_tmp\"" + "\n" + "  mv -f -- \"$instructions_tmp\" "
  const MARK_SEEDED := "" + "\n" + "  touch -- "
  const SEEDED := "" + "\n" + "fi" + "\n"
  const MAKE_TELEMETRY := "telemetry_tmp=$(mktemp " + "/tmp/tali-run-telemetry.XXXXXX)"
  const PRINT_TELEMETRY := "" + "\n" + "fi" + "\n" + MAKE_TELEMETRY + "\n" + "printf "
  const INTO_TELEMETRY := " | base64 -d >\"$telemetry_tmp\""
  const MOVE_TELEMETRY := "mv -f -- \"$telemetry_tmp\" " + "/tmp/tali-run-telemetry.env"

  /** Instructions are seeded once, so that restarts keep edits. */
  function InstructionChunks(utf8: Utf8, path: string, instructions: string): seq<Chunk> {
    [Chunk(HEADER, path + ".relay-initialized"), Chunk(THEN_DIRECTORY, Directory(path)),
     Chunk(MAKE_INSTRUCTIONS, path + ".XXXXXX"), Chunk(PRINT_INSTRUCTIONS, "%s"),
     Chunk(" ", Embedded(utf8, instructions)), Chunk(INTO_INSTRUCTIONS, path),
     Chunk(MARK_SEEDED, path + ".relay-initialized")]
  }

  function TelemetryChunks(utf8: Utf8, telemetry: string): seq<Chunk> {
    [Chunk(PRINT_TELEMETRY, "%s"), Chunk(" ", Embedded(utf8, telemetry))]
  }

  datatype Startup = Startup(path: string, instructions: string, bootstrap: string, telemetry: Option<string>)

  function ScriptChunks(utf8: Utf8, s: Startup): seq<Chunk> {
    InstructionChunks(utf8, s.path, s.instructions)
    + if s.telemetry.None? then [] else TelemetryChunks(utf8, s.telemetry.value)
  }

  /** What stands between the last word and the bootstrap text. */
  function Closing(s: Startup): string {
    if s.telemetry.None? then SEEDED else INTO_TELEMETRY + "\n" + MOVE_TELEMETRY + "\n"
  }

  function Script(utf8: Utf8, s: Startup): string {
    Render(ScriptChunks(utf8, s)) + (Closing(s) + s.bootstrap)
  }

  lemma {:induction false} EmbeddedIsUnquoted(utf8: Utf8, text: string)
    ensures Unquoted(Embedded(utf8, text))
  {
    var e := Embedded(utf8, text);
    StrictRoundTrip(utf8(text));
    var n :| |e| - 2 <= n <= |e| && SymbolsThenPadding(e, n);
    hide EncodePadded;
    forall i | 0 <= i < |e| ensures e[i] != '\'' {
      assert Value('\'').None?;
    }
  }

  lemma {:induction false} PathIsUnquoted(path: string)
    requires ValidPath(path)
    ensures Unquoted(path) && Unquoted(Directory(path))
  {
    DirectoryIsPrefix(path);
  }

  lemma {:induction false} DirectoryIsPrefix(path: string)
    ensures Directory(path) <= path
    ensures '/' in path ==> |Directory(path)| < |path| && path[|Directory(path)|] == '/'
    ensures forall i :: |Directory(path)| < i < |path| ==> path[i] != '/'
  {
    if path != [] && path[|path| - 1] != '/' {
      DirectoryIsPrefix(path[..|path| - 1]);
    }
  }

  lemma {:induction false} UnquotedConcat(a: string, b: string)
    requires Unquoted(a) && Unquoted(b)
    ensures Unquoted(a + b)
  {
  }

  lemma {:induction false} UnquotedLines(a: string, b: string)
    requires Unquoted(a) && Unquoted(b)
    ensures Unquoted(a + "\n" + b)
  {
  }

  lemma {:induction false} HeaderIsUnquoted()
    ensures Unquoted(HEADER) && Unquoted(INTO_INSTRUCTIONS)
  {
    UnquotedLines("#!/bin/bash", "set -euo pipefail");
    UnquotedLines("#!/bin/bash" + "\n" + "set -euo pipefail", "umask 077");
    UnquotedLines("#!/bin/bash" + "\n" + "set -euo pipefail" + "\n" + "umask 077", "rm -f -- \"$0\"");
    UnquotedLines(UP_TO_TEST, "if [ ! -e ");
    UnquotedLines(" | base64 -d >\"$instructions_tmp\"", "  mv -f -- \"$instructions_tmp\" ");
  }

  lemma {:induction false} TelemetryTextIsUnquoted()
    ensures Unquoted(SEEDED) && Unquoted(PRINT_TELEMETRY)
    ensures Unquoted(INTO_TELEMETRY + "\n" + MOVE_TELEMETRY + "\n")
  {
    UnquotedConcat("telemetry_tmp=$(mktemp ", "/tmp/tali-run-telemetry.XXXXXX)");
    UnquotedConcat(SEEDED, MAKE_TELEMETRY);
    UnquotedLines(SEEDED + MAKE_TELEMETRY, "printf ");
    UnquotedConcat("mv -f -- \"$telemetry_tmp\" ", "/tmp/tali-run-telemetry.env");
    UnquotedLines(INTO_TELEMETRY, MOVE_TELEMETRY);
    UnquotedConcat(INTO_TELEMETRY + "\n" + MOVE_TELEMETRY, "\n");
  }

  lemma {:induction false} InstructionsAreClean(utf8: Utf8, path: string, instructions: string)
    requires ValidPath(path)
    ensures Clean(InstructionChunks(utf8, path, instructions))
  {
    PathIsUnquoted(path);
    EmbeddedIsUnquoted(utf8, instructions);
    HeaderIsUnquoted();
    UnquotedConcat(path, ".relay-initialized");
    UnquotedConcat(path, ".XXXXXX");
    FixedTextIsUnquoted();
    hide ValidPath, Directory, Embedded, HEADER, INTO_INSTRUCTIONS, Unquoted;
    hide THEN_DIRECTORY, MAKE_INSTRUCTIONS, PRINT_INSTRUCTIONS, MARK_SEEDED;
  }

  lemma {:induction false} FixedTextIsUnquoted()
    ensures Unquoted(THEN_DIRECTORY) && Unquoted(MAKE_INSTRUCTIONS)
    ensures Unquoted(PRINT_INSTRUCTIONS) && Unquoted("%s") && Unquoted(" ") && Unquoted(MARK_SEEDED)
  {
  }

  /** The words a shell has to read in the script, in front of those of the bootstrap text. */
  function ExpectedWords(utf8: Utf8, s: Startup): seq<string> {
    [s.path + ".relay-initialized", Directory(s.path), s.path + ".XXXXXX", "%s", Embedded(utf8, s.instructions),
     s.path, s.path + ".relay-initialized"]
    + if s.telemetry.None? then [] else ["%s", Embedded(utf8, s.telemetry.value)]
  }

  lemma {:induction false} ScriptIsClean(utf8: Utf8, s: Startup)
    requires ValidPath(s.path)
    ensures Clean(ScriptChunks(utf8, s)) && WordsOf(ScriptChunks(utf8, s)) == ExpectedWords(utf8, s)
    ensures Unquoted(Closing(s))
  {
    InstructionsAreClean(utf8, s.path, s.instructions);
    TelemetryTextIsUnquoted();
    FixedTextIsUnquoted();
    if s.telemetry.Some? {
      EmbeddedIsUnquoted(utf8, s.telemetry.value);
    }
    hide ValidPath, Directory, Embedded, Unquoted;
  }

  /** Whatever the instructions and the telemetry text contain, a shell reads back exactly the path
      words and the embedded texts, and decoding an embedded text gives its bytes. */
  lemma {:induction false} ScriptReadsBack(utf8: Utf8, s: Startup)
    requires ValidPath(s.path)
    ensures QuotedWords(Script(utf8, s)) == ExpectedWords(utf8, s) + QuotedWords(s.bootstrap)
    ensures DecodeStrict(Embedded(utf8, s.instructions)) == Some(utf8(s.instructions))
    ensures s.telemetry.Some? ==>
              DecodeStrict(Embedded(utf8, s.telemetry.value)) == Some(utf8(s.telemetry.value))
  {
    ScriptIsClean(utf8, s);
    hide ScriptChunks, Clean, WordsOf, ExpectedWords, Closing;
    WordsAreRead(ScriptChunks(utf8, s), Closing(s) + s.bootstrap);
    NoWords(Closing(s), s.bootstrap);
    StrictRoundTrip(utf8(s.instructions));
    if s.telemetry.Some? {
      StrictRoundTrip(utf8(s.telemetry.value));
    }
  }

  // ---------------------------------------------------------- argument chunking

  /** Consecutive pieces of at most `n` characters, all but the last of them full. */
  function Pieces(s: string, n: nat): seq<string>
    requires n > 0
    decreases |s|
  {
    if s == [] then [] else if |s| <= n then [s] else [s[..n]] + Pieces(s[n..], n)
  }

  lemma {:induction false} PiecesJoin(s: string, n: nat)
    requires n > 0
    ensures Flatten(Pieces(s, n)) == s
    ensures forall i :: 0 <= i < |Pieces(s, n)| ==> 1 <= |Pieces(s, n)[i]| <= n
    ensures forall i :: 0 <= i < |Pieces(s, n)| - 1 ==> |Pieces(s, n)[i]| == n
    decreases |s|
  {
    if s != [] {
      if |s| <= n {
        assert [s][1..] == [];
        assert Flatten([s]) == s + [];
      } else {
        PiecesJoin(s[n..], n);
        var rest := Pieces(s[n..], n);
        assert ([s[..n]] + rest)[1..] == rest;
        assert s == s[..n] + s[n..];
      }
    }
  }

  datatype CommandError = InvalidPath | CommandTooLong

  function TotalLength(command: seq<string>): nat {
    if command == [] then 0 else |command[0]| + TotalLength(command[1..])
  }

  /** The arguments before the payload: shell, its inline script and the name it runs under. */
  const LAUNCHER := [
    "/bin/bash", "-c",
    "set -euo pipefail; umask 077; startup=$(mktemp /tmp/tali-start.XXXXXX); "
    + "printf '%s' \"$@\" | base64 -d >\"$startup\"; exec /bin/bash \"$startup\"",
    "tali-nemoclaw-start"]

  function MainCommand(utf8: Utf8, s: Startup): Result<seq<string>, CommandError> {
    if !ValidPath(s.path) then Err(InvalidPath)
    else
      var payload := Embedded(utf8, Script(utf8, s));
      var command := LAUNCHER + Pieces(payload, ARGUMENT_LENGTH);
      if TotalLength(command) > COMMAND_LIMIT then Err(CommandTooLong) else Ok(command)
  }

  lemma {:induction false} TotalLengthConcat(a: seq<string>, b: seq<string>)
    ensures TotalLength(a + b) == TotalLength(a) + TotalLength(b)
  {
    if a == [] {
      assert a + b == b;
    } else {
      assert (a + b)[1..] == a[1..] + b;
      TotalLengthConcat(a[1..], b);
    }
  }

  lemma {:induction false} TotalLengthFlat(command: seq<string>)
    ensures TotalLength(command) == |Flatten(command)|
  {
    if command != [] {
      TotalLengthFlat(command[1..]);
    }
  }

  /** The command is refused for a bad path or for its size, which does not depend on the cutting.
      Otherwise the arguments after the launcher, printed one behind the other and decoded, are the
      script, and each fits the argument limit. */
  lemma {:induction false} CommandCarriesScript(utf8: Utf8, s: Startup)
    ensures match MainCommand(utf8, s)
      case Err(InvalidPath) => !ValidPath(s.path)
      case Err(CommandTooLong) =>
        ValidPath(s.path) && TotalLength(LAUNCHER) + |Embedded(utf8, Script(utf8, s))| > 262_144
      case Ok(command) =>
        && ValidPath(s.path) && TotalLength(command) <= 262_144
        && |LAUNCHER| <= |command| && command[..|LAUNCHER|] == LAUNCHER
        && DecodeStrict(Flatten(command[|LAUNCHER|..])) == Some(utf8(Script(utf8, s)))
        && forall i :: |LAUNCHER| <= i < |command| ==> 1 <= |command[i]| <= 16_384
  {
    hide Script, ValidPath, TotalLength, Pieces, DecodeStrict;
    var payload := Embedded(utf8, Script(utf8, s));
    var arguments := Pieces(payload, ARGUMENT_LENGTH);
    PiecesJoin(payload, ARGUMENT_LENGTH);
    StrictRoundTrip(utf8(Script(utf8, s)));
    TotalLengthConcat(LAUNCHER, arguments);
    TotalLengthFlat(arguments);
    assert (LAUNCHER + arguments)[|LAUNCHER|..] == arguments;
  }

  // ---------------------------------------------------------------- line by line

  function Quoted(word: string): string {
    QUOTE + word + QUOTE
  }

  /** The lines that seed the instructions. */
  function SeedLines(utf8: Utf8, path: string, instructions: string): seq<string> {
    ["#!/bin/bash",
     "set -euo pipefail",
     "umask 077",
     "rm -f -- \"$0\"",
     "if [ ! -e " + Quoted(path + ".relay-initialized") + " ]; then",
     "  mkdir -p -- " + Quoted(Directory(path)) + "",
     "  instructions_tmp=$(mktemp " + Quoted(path + ".XXXXXX") + ")",
     "  printf " + Quoted("%s") + (" " + Quoted(Embedded(utf8, instructions)) + " | base64 -d >\"$instructions_tmp\""),
     "  mv -f -- \"$instructions_tmp\" " + Quoted(path) + "",
     "  touch -- " + Quoted(path + ".relay-initialized") + "",
     "fi"]
  }

  /** The lines that write the telemetry settings. */
  function TelemetryLines(utf8: Utf8, telemetry: Option<string>): seq<string> {
    if telemetry.None? then []
    else
      [MAKE_TELEMETRY,
       "printf " + Quoted("%s") + (" " + Quoted(Embedded(utf8, telemetry.value)) + " | base64 -d >\"$telemetry_tmp\""),
       MOVE_TELEMETRY]
  }

  lemma {:induction false} JoinMore(line: string, lines: seq<string>)
    requires lines != []
    ensures JoinLines([line] + lines) == line + ("\n" + JoinLines(lines))
  {
    assert ([line] + lines)[1..] == lines;
  }

  lemma {:induction false} Reassociate(a: string, b: string, c: string)
    ensures (a + b) + c == a + (b + c)
  {
  }

  /** Text up to a line end, then a line that holds a quoted word. */
  lemma {:induction false} WordLine(
    before: string, end: string, start: string, word: string, more: string, lines: seq<string>)
    requires before == end + "\n" + start && lines != []
    ensures before + QUOTE + word + QUOTE + (more + ("\n" + JoinLines(lines)))
         == end + ("\n" + JoinLines([start + Quoted(word) + more] + lines))
  {
    var q, tail := Quoted(word), "\n" + JoinLines(lines);
    JoinMore(start + q + more, lines);
    hide JoinLines;
    assert before + QUOTE + word + QUOTE == before + q;
    Reassociate(before, q, more + tail);
    Reassociate(start + q, more, tail);
    Reassociate(start, q, more + tail);
    hide Quoted;
    assert before + (q + (more + tail)) == end + ("\n" + (start + (q + (more + tail))));
  }

  lemma {:induction false} RenderChunk(c: Chunk, cs: seq<Chunk>, rest: string)
    ensures Render([c] + cs) + rest == c.before + QUOTE + c.word + QUOTE + (Render(cs) + rest)
  {
    assert ([c] + cs)[1..] == cs;
    hide Render;
    Reassociate(c.before + QUOTE + c.word + QUOTE, Render(cs), rest);
  }

  /** A quoted word in the middle of a line. */
  lemma {:induction false} WordInside(before: string, word: string, more: string, tail: string)
    ensures before + QUOTE + word + QUOTE + (more + tail) == (before + Quoted(word) + more) + tail
  {
    var q := Quoted(word);
    assert before + QUOTE + word + QUOTE == before + q;
    hide Quoted;
    Reassociate(before + q, more, tail);
  }

  /** A chunk whose word ends a line, or stands in one that goes on. */
  lemma {:induction false} ChunkLine(
    c: Chunk, cs: seq<Chunk>, rest: string, end: string, start: string, more: string, lines: seq<string>)
    requires c.before == end + "\n" + start && lines != []
    requires Render(cs) + rest == more + ("\n" + JoinLines(lines))
    ensures Render([c] + cs) + rest == end + ("\n" + JoinLines([start + Quoted(c.word) + more] + lines))
  {
    hide Render, JoinLines, Quoted;
    RenderChunk(c, cs, rest);
    WordLine(c.before, end, start, c.word, more, lines);
  }

  lemma {:induction false} ChunkInside(c: Chunk, cs: seq<Chunk>, rest: string, more: string, tail: string)
    requires Render(cs) + rest == more + tail
    ensures Render([c] + cs) + rest == (c.before + Quoted(c.word) + more) + tail
  {
    hide Render, Quoted;
    RenderChunk(c, cs, rest);
    WordInside(c.before, c.word, more, tail);
  }

  lemma {:induction false} TelemetryText(
    first: Chunk, second: Chunk, rest: string, make: string, into: string, tail: seq<string>)
    requires first.before == "" + "\n" + "fi" + "\n" + make + "\n" + "printf " && tail != []
    requires rest == into + ("\n" + JoinLines(tail))
    ensures var more := second.before + Quoted(second.word) + into;
            (Render([first] + ([second] + [])) + rest
              == "" + ("\n" + JoinLines(
                   ["fi"] + ([make] + (["printf " + Quoted(first.word) + more] + tail)))))
  {
    assert Render([]) + rest == rest;
    hide Render, JoinLines, Quoted;
    ChunkInside(second, [], rest, into, "\n" + JoinLines(tail));
    var more := second.before + Quoted(second.word) + into;
    var end, line := "" + "\n" + "fi" + "\n" + make, "printf " + Quoted(first.word) + more;
    ChunkLine(first, [second] + [], rest, end, "printf ", more, tail);
    var text := JoinLines([line] + tail);
    JoinMore(make, [line] + tail);
    JoinMore("fi", [make] + ([line] + tail));
    MoveEnd(make, text);
  }

  lemma {:induction false} MoveEnd(make: string, text: string)
    ensures ("" + "\n" + "fi" + "\n" + make) + ("\n" + text)
         == "" + ("\n" + ("fi" + ("\n" + (make + ("\n" + text)))))
  {
  }

  /** What follows the last instruction chunk is "fi", the telemetry lines and the bootstrap text. */
  lemma {:induction false} EndLines(utf8: Utf8, s: Startup)
    ensures Render(if s.telemetry.None? then [] else TelemetryChunks(utf8, s.telemetry.value))
            + (Closing(s) + s.bootstrap)
         == "" + ("\n" + JoinLines(["fi"] + (TelemetryLines(utf8, s.telemetry) + [s.bootstrap])))
  {
    hide Embedded, MAKE_TELEMETRY, INTO_TELEMETRY, MOVE_TELEMETRY;
    var b := s.bootstrap;
    assert JoinLines([b]) == b;
    if s.telemetry.None? {
      JoinMore("fi", [b]);
      assert [] + [b] == [b];
    } else {
      TelemetryEnd(utf8, s, s.telemetry.value);
    }
  }

  lemma {:induction false} TelemetryEnd(utf8: Utf8, s: Startup, telemetry: string)
    requires s.telemetry == Some(telemetry)
    ensures Render(TelemetryChunks(utf8, telemetry)) + (Closing(s) + s.bootstrap)
         == "" + ("\n" + JoinLines(["fi"] + (TelemetryLines(utf8, s.telemetry) + [s.bootstrap])))
  {
    var b, rest, word := s.bootstrap, Closing(s) + s.bootstrap, Embedded(utf8, telemetry);
    hide Embedded, Render, Quoted;
    ClosingLines(s);
    var tail := [MOVE_TELEMETRY] + [b];
    var first, second := Chunk(PRINT_TELEMETRY, "%s"), Chunk(" ", word);
    hide MAKE_TELEMETRY, INTO_TELEMETRY, MOVE_TELEMETRY, JoinLines, Closing;
    TelemetryText(first, second, rest, MAKE_TELEMETRY, INTO_TELEMETRY, tail);
    hide PRINT_TELEMETRY;
    var line := "printf " + Quoted("%s") + (" " + Quoted(word) + INTO_TELEMETRY);
    assert TelemetryChunks(utf8, telemetry) == [first] + ([second] + []);
    assert TelemetryLines(utf8, s.telemetry) + [b] == [MAKE_TELEMETRY] + ([line] + tail);
  }

  lemma {:induction false} ClosingLines(s: Startup)
    requires s.telemetry.Some?
    ensures Closing(s) + s.bootstrap
         == INTO_TELEMETRY + ("\n" + JoinLines([MOVE_TELEMETRY] + [s.bootstrap]))
  {
    hide MOVE_TELEMETRY, INTO_TELEMETRY;
    assert JoinLines([s.bootstrap]) == s.bootstrap;
    JoinMore(MOVE_TELEMETRY, [s.bootstrap]);
    hide JoinLines;
  }

  /** The lines from the creation of the instructions file on. */
  lemma {:induction false} LaterSeedLines(
    cs: seq<Chunk>, others: seq<Chunk>, rest: string, into: string, lines: seq<string>)
    requires |cs| == 4 && lines != []
    requires cs[0].before == ")" + "\n" + "  printf " && cs[1].before == " "
    requires cs[2].before == into + "\n" + "  mv -f -- \"$instructions_tmp\" "
    requires cs[3].before == "" + "\n" + "  touch -- "
    requires Render(others) + rest == "" + ("\n" + JoinLines(lines))
    ensures Render([cs[0]] + ([cs[1]] + ([cs[2]] + ([cs[3]] + others)))) + rest
         == ")" + ("\n" + JoinLines(
              ["  printf " + Quoted(cs[0].word) + (" " + Quoted(cs[1].word) + into)]
              + (["  mv -f -- \"$instructions_tmp\" " + Quoted(cs[2].word) + ""]
                 + (["  touch -- " + Quoted(cs[3].word) + ""] + lines))))
  {
    hide Render, JoinLines, Quoted;
    var mv, touch := "  mv -f -- \"$instructions_tmp\" ", "  touch -- ";
    ChunkLine(cs[3], others, rest, "", touch, "", lines);
    var last := [touch + Quoted(cs[3].word) + ""] + lines;
    ChunkLine(cs[2], [cs[3]] + others, rest, into, mv, "", last);
    var moved := [mv + Quoted(cs[2].word) + ""] + last;
    ChunkInside(cs[1], [cs[2]] + ([cs[3]] + others), rest, into, "\n" + JoinLines(moved));
    ChunkLine(cs[0], [cs[1]] + ([cs[2]] + ([cs[3]] + others)), rest, ")", "  printf ",
      " " + Quoted(cs[1].word) + into, moved);
  }

  /** The lines before it. */
  lemma {:induction false} EarlierSeedLines(
    cs: seq<Chunk>, others: seq<Chunk>, rest: string, upToTest: string, lines: seq<string>)
    requires |cs| == 3 && lines != []
    requires cs[0].before == upToTest + "\n" + "if [ ! -e "
    requires cs[1].before == " ]; then" + "\n" + "  mkdir -p -- "
    requires cs[2].before == "" + "\n" + "  instructions_tmp=$(mktemp "
    requires Render(others) + rest == ")" + ("\n" + JoinLines(lines))
    ensures Render([cs[0]] + ([cs[1]] + ([cs[2]] + others))) + rest
         == upToTest + ("\n" + JoinLines(
              ["if [ ! -e " + Quoted(cs[0].word) + " ]; then"]
              + (["  mkdir -p -- " + Quoted(cs[1].word) + ""]
                 + (["  instructions_tmp=$(mktemp " + Quoted(cs[2].word) + ")"] + lines))))
  {
    hide Render, JoinLines, Quoted;
    ChunkLine(cs[2], others, rest, "", "  instructions_tmp=$(mktemp ", ")", lines);
    var made := ["  instructions_tmp=$(mktemp " + Quoted(cs[2].word) + ")"] + lines;
    ChunkLine(cs[1], [cs[2]] + others, rest, " ]; then", "  mkdir -p -- ", "", made);
    var directory := ["  mkdir -p -- " + Quoted(cs[1].word) + ""] + made;
    ChunkLine(cs[0], [cs[1]] + ([cs[2]] + others), rest, upToTest, "if [ ! -e ", " ]; then", directory);
  }

  /** The first four lines. */
  lemma {:induction false} FirstLines(a: string, b: string, c: string, d: string, lines: seq<string>)
    requires lines != []
    ensures a + "\n" + b + "\n" + c + "\n" + d + ("\n" + JoinLines(lines))
         == JoinLines([a] + ([b] + ([c] + ([d] + lines))))
  {
    JoinMore(d, lines);
    JoinMore(c, [d] + lines);
    JoinMore(b, [c] + ([d] + lines));
    JoinMore(a, [b] + ([c] + ([d] + lines)));
    hide JoinLines;
    var text := JoinLines(lines);
    assert a + "\n" + b + "\n" + c + "\n" + d + ("\n" + text)
        == a + ("\n" + (b + ("\n" + (c + ("\n" + (d + ("\n" + text)))))));
  }

  /** The script is the one written line by line. */
  lemma {:induction false} ScriptIsLines(utf8: Utf8, s: Startup)
    ensures Script(utf8, s)
         == JoinLines(SeedLines(utf8, s.path, s.instructions) + (TelemetryLines(utf8, s.telemetry) + [s.bootstrap]))
  {
    var others := if s.telemetry.None? then [] else TelemetryChunks(utf8, s.telemetry.value);
    var end := TelemetryLines(utf8, s.telemetry) + [s.bootstrap];
    EndLines(utf8, s);
    hide TelemetryChunks, TelemetryLines, Embedded;
    SeedText(utf8, s.path, s.instructions, others, Closing(s) + s.bootstrap, ["fi"] + end);
    hide Render, JoinLines, InstructionChunks, Closing;
    assert SeedLines(utf8, s.path, s.instructions) + end
        == SeedLines(utf8, s.path, s.instructions)[..10] + (["fi"] + end);
  }

  lemma {:induction false} SeedText(
    utf8: Utf8, path: string, instructions: string, others: seq<Chunk>, rest: string, lines: seq<string>)
    requires lines != []
    requires Render(others) + rest == "" + ("\n" + JoinLines(lines))
    ensures Render(InstructionChunks(utf8, path, instructions) + others) + rest
         == JoinLines(SeedLines(utf8, path, instructions)[..10] + lines)
  {
    hide Embedded, Directory, Render, JoinLines, Quoted;
    var cs, seed := InstructionChunks(utf8, path, instructions), SeedLines(utf8, path, instructions);
    var into := " | base64 -d >\"$instructions_tmp\"";
    LaterSeedLines(cs[3..], others, rest, into, lines);
    var later := [cs[3]] + ([cs[4]] + ([cs[5]] + ([cs[6]] + others)));
    var laterLines := [seed[7]] + ([seed[8]] + ([seed[9]] + lines));
    EarlierSeedLines(cs[..3], later, rest, UP_TO_TEST, laterLines);
    var allLines := [seed[4]] + ([seed[5]] + ([seed[6]] + laterLines));
    FirstLines(seed[0], seed[1], seed[2], seed[3], allLines);
    assert cs + others == [cs[0]] + ([cs[1]] + ([cs[2]] + later));
    assert seed[..10] + lines == [seed[0]] + ([seed[1]] + ([seed[2]] + ([seed[3]] + allLines)));
  }
}
