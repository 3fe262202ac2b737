/** A reader for JSON texts (RFC 8259) without white space between tokens, and that it reads back what is
    printed. */
module JsonReader {
  import opened Sequences
  import opened CanonicalJson
  import opened JsonText

  // --------------------------------------------------------------- string literals

  function HexValue(c: char): Option<nat> {
    if '0' <= c <= '9' then Some(c as nat - '0' as nat)
    else if 'a' <= c <= 'f' then Some(c as nat - 'a' as nat + 10)
    else if 'A' <= c <= 'F' then Some(c as nat - 'A' as nat + 10)
    else None
  }

  /** The two-character escapes. */
  function ShortEscape(c: char): Option<char> {
    if c == '"' || c == '\\' || c == '/' then Some(c)
    else if c == 'b' then Some('\U{08}')
    else if c == 'f' then Some('\U{0C}')
    else if c == 'n' then Some('\n')
    else if c == 'r' then Some('\r')
    else if c == 't' then Some('\t')
    else None
  }

  /** The code point of four hexadecimal digits, if it is one by itself. */
  function CodePoint(s: string): Option<char>
    requires |s| == 4
  {
    var a, b, c, d := HexValue(s[0]), HexValue(s[1]), HexValue(s[2]), HexValue(s[3]);
    if a.None? || b.None? || c.None? || d.None? then None
    else
      var n := 4096 * a.value + 256 * b.value + 16 * c.value + d.value;
      if n < 0xD800 || 0xE000 <= n < 0x10000 then Some(n as char) else None
  }

  function Prepend(c: char, r: Option<(string, string)>): Option<(string, string)> {
    if r.None? then None else Some(([c] + r.value.0, r.value.1))
  }

  /** The characters of a string literal after its opening quote, and what follows its closing quote. */
  function ReadChars(s: string): (r: Option<(string, string)>)
    ensures r.Some? ==> |r.value.1| < |s|
    decreases |s|
  {
    if s == [] || s[0] < ' ' then None
    else if s[0] == '"' then Some(("", s[1..]))
    else if s[0] != '\\' then Prepend(s[0], ReadChars(s[1..]))
    else if |s| >= 2 && ShortEscape(s[1]).Some? then Prepend(ShortEscape(s[1]).value, ReadChars(s[2..]))
    else if |s| >= 6 && s[1] == 'u' && CodePoint(s[2..6]).Some? then
      Prepend(CodePoint(s[2..6]).value, ReadChars(s[6..]))
    else None
  }

  lemma {:induction false} ReadEscape(c: char, rest: string)
    ensures ReadChars(Escape(c) + rest) == Prepend(c, ReadChars(rest))
  {
    var e, s := Escape(c), Escape(c) + rest;
    if c == '"' || c == '\\' || c == '\U{08}' || c == '\t' || c == '\n' || c == '\U{0C}' || c == '\r' {
      assert |e| == 2 && s[0] == '\\' && s[1] == e[1] && s[2..] == rest;
      assert ShortEscape(e[1]) == Some(c);
    } else if c < ' ' {
      ReadControl(c, rest);
    } else {
      assert s[0] == c && s[1..] == rest;
    }
  }

  lemma {:induction false} ReadControl(c: char, rest: string)
    requires c < ' ' && Escape(c) == "\\u00" + [HexDigit(c as nat / 16), HexDigit(c as nat % 16)]
    ensures ReadChars(Escape(c) + rest) == Prepend(c, ReadChars(rest))
  {
    var s, n := Escape(c) + rest, c as nat;
    HexDigitReads(n / 16);
    HexDigitReads(n % 16);
    HexDigitReads(0);
    assert s[0] == '\\' && s[1] == 'u' && s[2] == '0' && s[3] == '0';
    assert s[2..6] == ['0', '0', HexDigit(n / 16), HexDigit(n % 16)];
    assert s[6..] == rest;
    assert CodePoint(s[2..6]) == Some(n as char);
    assert ShortEscape('u') == None;
  }

  lemma {:induction false} HexDigitReads(n: nat)
    requires n < 16
    ensures HexValue(HexDigit(n)) == Some(n) && HexDigit(0) == '0'
  {
  }

  /** A printed string literal is read back, whatever follows it. */
  lemma {:induction false} ReadsString(s: string, rest: string)
    ensures ReadChars(EscapeAll(s) + "\"" + rest) == Some((s, rest))
    decreases |s|
  {
    hide Escape;
    if s == [] {
      assert EscapeAll(s) + "\"" + rest == "\"" + rest;
      assert ("\"" + rest)[1..] == rest;
    } else {
      EscapeAllSplit(s, rest);
      ReadEscape(s[0], EscapeAll(s[1..]) + "\"" + rest);
      ReadsString(s[1..], rest);
      hide ReadChars, EscapeAll;
      assert [s[0]] + s[1..] == s;
    }
  }

  // ------------------------------------------------------------------------ values

  /** How many characters at the start belong to a number. */
  function NumberLength(s: string): (n: nat)
    ensures n <= |s|
    ensures forall i :: 0 <= i < n ==> NumberChar(s[i])
    ensures n < |s| ==> !NumberChar(s[n])
  {
    if s != [] && NumberChar(s[0]) then 1 + NumberLength(s[1..]) else 0
  }

  predicate Starts(s: string, word: string) {
    word <= s
  }

  function ReadWord(s: string, word: string, v: Json): (r: Option<(Json, string)>)
    requires word != []
    ensures r.Some? ==> |r.value.1| < |s|
  {
    if Starts(s, word) then Some((v, s[|word|..])) else None
  }

  /** The value at the start of a text, and what follows it. */
  function ReadValue(s: string): (r: Option<(Json, string)>)
    ensures r.Some? ==> |r.value.1| < |s|
    decreases |s|, 1
  {
    if s == [] then None
    else if s[0] == 'n' then ReadWord(s, "null", JNull)
    else if s[0] == 't' then ReadWord(s, "true", JBool(true))
    else if s[0] == 'f' then ReadWord(s, "false", JBool(false))
    else if s[0] == '"' then
      var r := ReadChars(s[1..]);
      if r.None? then None else Some((JString(r.value.0), r.value.1))
    else if s[0] == '[' then
      if |s| > 1 && s[1] == ']' then Some((JArray([]), s[2..]))
      else
        var r := ReadItems(s[1..]);
        if r.None? then None else Some((JArray(r.value.0), r.value.1))
    else if s[0] == '{' then
      if |s| > 1 && s[1] == '}' then Some((JObject([]), s[2..]))
      else
        var r := ReadMembers(s[1..]);
        if r.None? then None else Some((JObject(r.value.0), r.value.1))
    else if s[0] == '-' || '0' <= s[0] <= '9' then
      Some((JNumber(s[..NumberLength(s)]), s[NumberLength(s)..]))
    else None
  }

  /** The items of an array that is not empty, after its opening bracket. */
  function ReadItems(s: string): (r: Option<(seq<Json>, string)>)
    ensures r.Some? ==> |r.value.1| < |s|
    decreases |s|, 2
  {
    var head := ReadValue(s);
    if head.None? || head.value.1 == [] then None
    else if head.value.1[0] == ']' then Some(([head.value.0], head.value.1[1..]))
    else if head.value.1[0] != ',' then None
    else
      var tail := ReadItems(head.value.1[1..]);
      if tail.None? then None else Some(([head.value.0] + tail.value.0, tail.value.1))
  }

  /** A key, a colon and a value. */
  function ReadMember(s: string): (r: Option<(Member, string)>)
    ensures r.Some? ==> |r.value.1| < |s|
    decreases |s|, 2
  {
    if s == [] || s[0] != '"' then None
    else
      var key := ReadChars(s[1..]);
      if key.None? || key.value.1 == [] || key.value.1[0] != ':' then None
      else
        var v := ReadValue(key.value.1[1..]);
        if v.None? then None else Some((Member(key.value.0, v.value.0), v.value.1))
  }

  /** The members of an object that is not empty, after its opening brace. */
  function ReadMembers(s: string): (r: Option<(seq<Member>, string)>)
    ensures r.Some? ==> |r.value.1| < |s|
    decreases |s|, 3
  {
    var head := ReadMember(s);
    if head.None? || head.value.1 == [] then None
    else if head.value.1[0] == '}' then Some(([head.value.0], head.value.1[1..]))
    else if head.value.1[0] != ',' then None
    else
      var tail := ReadMembers(head.value.1[1..]);
      if tail.None? then None else Some(([head.value.0] + tail.value.0, tail.value.1))
  }

  /** A printed value is read back, if what follows cannot be part of a number. */
  lemma {:induction false} ReadsBack(v: Json, rest: string)
    requires WellFormed(v) && Delimited(rest)
    ensures ReadValue(Serialize(v) + rest) == Some((v, rest))
    decreases v, 1
  {
    hide ReadChars, ReadItems, ReadMembers, SerializeItems, SerializeMembers, EscapeAll, NumberLength;
    var s := Serialize(v) + rest;
    match v
    case JNull => assert s[4..] == rest;
    case JBool(flag) => assert s[|Serialize(v)|..] == rest;
    case JNumber(t) => ReadsNumber(t, rest);
    case JString(chars) =>
      assert s[1..] == EscapeAll(chars) + "\"" + rest;
      ReadsString(chars, rest);
    case JArray(items) => ReadsArray(items, rest);
    case JObject(ms) => ReadsObject(ms, rest);
  }

  lemma {:induction false} ReadsNumber(t: string, rest: string)
    requires NumberText(t) && Delimited(rest)
    ensures ReadValue(t + rest) == Some((JNumber(t), rest))
  {
    var s, n := t + rest, NumberLength(t + rest);
    assert forall i :: 0 <= i < |t| ==> s[i] == t[i];
    assert rest != [] ==> s[|t|] == rest[0] && !NumberChar(rest[0]);
    hide NumberLength;
    assert n == |t|;
    assert s[..n] == t && s[n..] == rest && s[0] == t[0];
  }

  lemma {:induction false} ReadsArray(items: seq<Json>, rest: string)
    requires forall i :: 0 <= i < |items| ==> WellFormed(items[i])
    ensures ReadValue(Serialize(JArray(items)) + rest) == Some((JArray(items), rest))
    decreases items, 1
  {
    hide ReadItems, SerializeItems;
    var s := Serialize(JArray(items)) + rest;
    EmptyItems(items, rest);
    assert s[0] == '[' && s[1..] == SerializeItems(items) + "]" + rest;
    if items == [] {
      assert s[2..] == rest;
    } else {
      assert s[1] == s[1..][0];
      ReadsItems(items, rest);
    }
  }

  lemma {:induction false} ReadsItems(items: seq<Json>, rest: string)
    requires items != [] && forall i :: 0 <= i < |items| ==> WellFormed(items[i])
    ensures ReadItems(SerializeItems(items) + "]" + rest) == Some((items, rest))
    decreases items, 0
  {
    hide ReadValue, Serialize, SerializeItems;
    var tail := ItemsTail(items, rest);
    ItemsSplit(items, rest);
    ReadsBack(items[0], tail);
    if |items| == 1 {
      assert tail[1..] == rest && [items[0]] == items;
    } else {
      assert tail[1..] == SerializeItems(items[1..]) + "]" + rest;
      ReadsItems(items[1..], rest);
      assert [items[0]] + items[1..] == items;
    }
  }

  lemma {:induction false} ReadsObject(ms: seq<Member>, rest: string)
    requires forall i :: 0 <= i < |ms| ==> WellFormed(ms[i].value)
    ensures ReadValue(Serialize(JObject(ms)) + rest) == Some((JObject(ms), rest))
    decreases ms, 1
  {
    hide ReadMembers, SerializeMembers;
    var s := Serialize(JObject(ms)) + rest;
    EmptyMembers(ms, rest);
    assert s[0] == '{' && s[1..] == SerializeMembers(ms) + "}" + rest;
    if ms == [] {
      assert SerializeMembers(ms) == "" by {
        NoMembers();
      }
      assert s[2..] == rest;
    } else {
      assert s[1] == s[1..][0];
      ReadsMembers(ms, rest);
    }
  }

  lemma {:induction false} NoMembers()
    ensures SerializeMembers([]) == ""
  {
  }

  lemma {:induction false} ReadsMembers(ms: seq<Member>, rest: string)
    requires ms != [] && forall i :: 0 <= i < |ms| ==> WellFormed(ms[i].value)
    ensures ReadMembers(SerializeMembers(ms) + "}" + rest) == Some((ms, rest))
    decreases ms, 0
  {
    hide ReadMember, Serialize, SerializeMembers, Quote;
    var tail := MembersTail(ms, rest);
    MembersSplit(ms, rest);
    ReadsMember(ms[0], tail);
    if |ms| == 1 {
      assert tail[1..] == rest && [ms[0]] == ms;
    } else {
      assert tail[1..] == SerializeMembers(ms[1..]) + "}" + rest;
      ReadsMembers(ms[1..], rest);
      assert [ms[0]] + ms[1..] == ms;
    }
  }

  lemma {:induction false} ReadsMember(m: Member, rest: string)
    requires WellFormed(m.value) && Delimited(rest)
    ensures ReadMember(Quote(m.key) + (":" + (Serialize(m.value) + rest))) == Some((m, rest))
    decreases m, 2
  {
    hide ReadValue, Serialize, ReadChars, EscapeAll;
    var colon := ":" + (Serialize(m.value) + rest);
    var s := Quote(m.key) + colon;
    assert s[0] == '"' && s[1..] == EscapeAll(m.key) + "\"" + colon;
    ReadsString(m.key, colon);
    assert colon[1..] == Serialize(m.value) + rest;
    ReadsBack(m.value, rest);
  }

  /** A text that is one JSON value and nothing else. */
  function Parse(s: string): Option<Json> {
    var r := ReadValue(s);
    if r.Some? && r.value.1 == [] then Some(r.value.0) else None
  }

  /** What is printed is JSON for the value. */
  lemma {:induction false} PrintedParses(v: Json)
    requires WellFormed(v)
    ensures Parse(Serialize(v)) == Some(v)
  {
    hide ReadValue;
    ReadsBack(v, []);
    assert Serialize(v) + [] == Serialize(v);
  }

  /** The text that is hashed is JSON for the value, with the members of every object in property order. */
  lemma {:induction false} CanonicalTextParses(le: Order, v: Json)
    requires TotalOrder(le) && WellFormed(v)
    ensures Parse(CanonicalText(le, v)) == Some(Canonical(le, v)) && Same(Canonical(le, v), v)
  {
    hide Parse, Canonical;
    CanonicalKeepsForm(le, v);
    CanonicalIsSame(le, v);
    PrintedParses(Canonical(le, v));
  }

  // -------------------------------------------------------------------- hashed texts

  /** The text of an object, given a listing of its members in property order. */
  lemma {:induction false} ArrangedText(le: Order, ms: seq<Member>, sorted: seq<Member>)
    requires TotalOrder(le) && DistinctKeys(ms) && DistinctKeys(sorted) && forall m :: m in ms <==> m in sorted
    requires StrictlySorted((a, b) => PropertyLe(le, a, b), sorted)
    ensures CanonicalText(le, JObject(ms)) == Serialize(JObject(CanonicalMembers(le, sorted)))
  {
    var x, y := CanonicalMembers(le, ms), CanonicalMembers(le, sorted);
    assert DistinctKeys(x);
    forall m ensures m in x <==> m in y {
      CanonicalMember(le, ms, m);
      CanonicalMember(le, sorted, m);
      SameListed(le, ms, sorted, m);
      SameListed(le, sorted, ms, m);
    }
    PropertyOrderIsTotal(le);
    ArrangeSorts(le, x);
    hide Arrange, PropertyLe;
    assert StrictlySorted((a, b) => PropertyLe(le, a, b), y);
    SortedListsAreEqual((a, b) => PropertyLe(le, a, b), Arrange(le, x), y);
  }

  lemma {:induction false} SameListed(le: Order, a: seq<Member>, b: seq<Member>, m: Member)
    requires forall n :: n in a <==> n in b
    ensures (exists i :: 0 <= i < |a| && m == Member(a[i].key, Canonical(le, a[i].value)))
        ==> (exists i :: 0 <= i < |b| && m == Member(b[i].key, Canonical(le, b[i].value)))
  {
    if i :| 0 <= i < |a| && m == Member(a[i].key, Canonical(le, a[i].value)) {
      assert a[i] in b;
      var j :| 0 <= j < |b| && b[j] == a[i];
    }
  }

  /** A text without quotes, backslashes and control characters is quoted as it is. */
  lemma {:induction false} PlainText(s: string)
    requires forall i :: 0 <= i < |s| ==> s[i] >= ' ' && s[i] != '"' && s[i] != '\\'
    ensures EscapeAll(s) == s
  {
    if s != [] {
      PlainText(s[1..]);
      assert [s[0]] + s[1..] == s;
    }
  }
}
