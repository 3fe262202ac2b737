/** Printing of JSON values, and that the printed text determines the value. */
module JsonText {
  import opened CanonicalJson

  function HexDigit(n: nat): char
    requires n < 16
  {
    "0123456789abcdef"[n]
  }

  /** How one character is printed inside a string literal. */
  function Escape(c: char): string {
    if c == '"' then "\\\""
    else if c == '\\' then "\\\\"
    else if c == '\U{08}' then "\\b"
    else if c == '\t' then "\\t"
    else if c == '\n' then "\\n"
    else if c == '\U{0C}' then "\\f"
    else if c == '\r' then "\\r"
    else if c < ' ' then "\\u00" + [HexDigit(c as nat / 16), HexDigit(c as nat % 16)]
    else [c]
  }

  function EscapeAll(s: string): string {
    if s == [] then [] else Escape(s[0]) + EscapeAll(s[1..])
  }

  function Quote(s: string): string {
    "\"" + EscapeAll(s) + "\""
  }

  function Serialize(v: Json): string {
    match v
    case JNull => "null"
    case JBool(flag) => if flag then "true" else "false"
    case JNumber(t) => t
    case JString(s) => Quote(s)
    case JArray(items) => "[" + SerializeItems(items) + "]"
    case JObject(ms) => "{" + SerializeMembers(ms) + "}"
  }

  function SerializeItems(items: seq<Json>): string {
    if items == [] then ""
    else if |items| == 1 then Serialize(items[0])
    else Serialize(items[0]) + "," + SerializeItems(items[1..])
  }

  function SerializeMember(m: Member): string {
    Quote(m.key) + ":" + Serialize(m.value)
  }

  function SerializeMembers(ms: seq<Member>): string {
    if ms == [] then ""
    else if |ms| == 1 then SerializeMember(ms[0])
    else SerializeMember(ms[0]) + "," + SerializeMembers(ms[1..])
  }

  // ------------------------------------------------------------ string literals

  lemma {:induction false} EscapeIsPrefixFree(c: char, d: char, x: string, y: string)
    requires Escape(c) + x == Escape(d) + y
    ensures c == d && x == y
  {
    var s, t := Escape(c) + x, Escape(d) + y;
    assert s[0] == t[0];
    assert Escape(c)[0] == Escape(d)[0];
    if |Escape(c)| == 2 {
      assert s[1] == t[1];
      assert Escape(d)[1] == s[1];
    } else if |Escape(c)| == 6 {
      assert s[1] == t[1] && s[4] == t[4] && s[5] == t[5];
      assert Escape(d)[1] == 'u' && Escape(d)[4] == s[4] && Escape(d)[5] == s[5];
      HexInjective(c as nat / 16, d as nat / 16);
      HexInjective(c as nat % 16, d as nat % 16);
    }
    assert c == d;
    assert x == s[|Escape(c)|..] == y;
  }

  lemma {:induction false} HexInjective(a: nat, b: nat)
    requires a < 16 && b < 16 && HexDigit(a) == HexDigit(b)
    ensures a == b
  {
  }

  lemma {:induction false} EscapeAllSplit(s: string, x: string)
    ensures s == [] ==> EscapeAll(s) + "\"" + x == "\"" + x
    ensures s != [] ==> EscapeAll(s) + "\"" + x == Escape(s[0]) + (EscapeAll(s[1..]) + "\"" + x)
    ensures (EscapeAll(s) + "\"" + x)[0] == '"' <==> s == []
  {
    if s != [] {
      var rest := EscapeAll(s[1..]) + "\"" + x;
      assert EscapeAll(s) + "\"" + x == Escape(s[0]) + rest;
      assert (Escape(s[0]) + rest)[0] == Escape(s[0])[0];
    }
  }

  lemma {:induction false} EscapeAllIsPrefixFree(s: string, t: string, x: string, y: string)
    requires EscapeAll(s) + "\"" + x == EscapeAll(t) + "\"" + y
    ensures s == t && x == y
    decreases |s|
  {
    hide Escape, EscapeAll;
    EscapeAllSplit(s, x);
    EscapeAllSplit(t, y);
    if s == [] {
      assert x == ("\"" + x)[1..] == ("\"" + y)[1..] == y;
    } else {
      EscapeIsPrefixFree(s[0], t[0], EscapeAll(s[1..]) + "\"" + x, EscapeAll(t[1..]) + "\"" + y);
      EscapeAllIsPrefixFree(s[1..], t[1..], x, y);
      assert s == [s[0]] + s[1..] && t == [t[0]] + t[1..];
    }
  }

  lemma {:induction false} QuoteIsPrefixFree(s: string, t: string, x: string, y: string)
    requires Quote(s) + x == Quote(t) + y
    ensures s == t && x == y
  {
    hide EscapeAll;
    assert (Quote(s) + x)[1..] == EscapeAll(s) + "\"" + x;
    assert (Quote(t) + y)[1..] == EscapeAll(t) + "\"" + y;
    EscapeAllIsPrefixFree(s, t, x, y);
  }

  // ------------------------------------------------------------------- values

  /** What can follow a value inside a larger text. */
  predicate Delimited(x: string) {
    x == [] || x[0] == ',' || x[0] == ']' || x[0] == '}'
  }

  lemma {:induction false} NumberIsPrefixFree(s: string, t: string, x: string, y: string)
    requires NumberText(s) && NumberText(t) && Delimited(x) && Delimited(y)
    requires s + x == t + y
    ensures s == t && x == y
  {
    var whole := s + x;
    assert forall i :: 0 <= i < |s| ==> whole[i] == s[i] && NumberChar(whole[i]);
    assert forall i :: 0 <= i < |t| ==> (t + y)[i] == t[i] && NumberChar(whole[i]);
    assert x != [] ==> whole[|s|] == x[0] && !NumberChar(whole[|s|]);
    assert y != [] ==> (t + y)[|t|] == y[0] && !NumberChar(whole[|t|]);
    assert |whole| == |s| + |x| == |t| + |y|;
    assert |s| == |t|;
    assert s == whole[..|s|] == t;
    assert x == whole[|s|..] == y;
  }

  /** The first character of a printed value tells which kind of value it is. */
  function Lead(v: Json): char
    requires WellFormed(v)
  {
    match v
    case JNull => 'n'
    case JBool(flag) => if flag then 't' else 'f'
    case JNumber(t) => t[0]
    case JString(_) => '"'
    case JArray(_) => '['
    case JObject(_) => '{'
  }

  lemma {:induction false} LeadIsFirst(v: Json, x: string)
    requires WellFormed(v)
    ensures Serialize(v) != [] && (Serialize(v) + x)[0] == Lead(v)
  {
  }

  lemma {:induction false} SameLeadSameKind(a: Json, b: Json)
    requires WellFormed(a) && WellFormed(b) && Lead(a) == Lead(b)
    ensures a.JNull? == b.JNull? && a.JNumber? == b.JNumber? && a.JString? == b.JString?
    ensures a.JArray? == b.JArray? && a.JObject? == b.JObject?
    ensures a.JBool? == b.JBool? && (a.JBool? ==> a.flag == b.flag)
  {
  }

  lemma {:induction false} Unwrap(open: string, close: string, a: string, b: string, x: string, y: string)
    requires |open| == 1 && (open + a + close) + x == (open + b + close) + y
    ensures a + close + x == b + close + y
  {
    assert a + close + x == (open + a + close + x)[1..];
    assert b + close + y == (open + b + close + y)[1..];
  }

  /** A printed value followed by a delimiter can be cut off in one way only. */
  lemma {:induction false} SerializeIsPrefixFree(a: Json, b: Json, x: string, y: string)
    requires WellFormed(a) && WellFormed(b) && Delimited(x) && Delimited(y)
    requires Serialize(a) + x == Serialize(b) + y
    ensures a == b && x == y
    decreases a, 1
  {
    hide Lead, Quote, SerializeItems, SerializeMembers, Delimited, NumberText;
    LeadIsFirst(a, x);
    LeadIsFirst(b, y);
    SameLeadSameKind(a, b);
    match a
    case JNull =>
      assert x == (Serialize(a) + x)[4..] == (Serialize(b) + y)[4..] == y;
    case JBool(flag) =>
      var n := |Serialize(a)|;
      assert x == (Serialize(a) + x)[n..] == (Serialize(b) + y)[n..] == y;
    case JNumber(t) =>
      NumberIsPrefixFree(t, b.text, x, y);
    case JString(s) =>
      QuoteIsPrefixFree(s, b.chars, x, y);
    case JArray(items) =>
      Unwrap("[", "]", SerializeItems(items), SerializeItems(b.items), x, y);
      ItemsArePrefixFree(items, b.items, x, y);
    case JObject(ms) =>
      Unwrap("{", "}", SerializeMembers(ms), SerializeMembers(b.members), x, y);
      MembersArePrefixFree(ms, b.members, x, y);
  }

  /** How a non-empty list of values continues after its first value. */
  function ItemsTail(items: seq<Json>, x: string): string
    requires items != []
  {
    if |items| == 1 then "]" + x else "," + (SerializeItems(items[1..]) + "]" + x)
  }

  lemma {:induction false} ItemsSplit(items: seq<Json>, x: string)
    requires items != []
    ensures SerializeItems(items) + "]" + x == Serialize(items[0]) + ItemsTail(items, x)
  {
  }

  lemma {:induction false} ItemsArePrefixFree(a: seq<Json>, b: seq<Json>, x: string, y: string)
    requires forall i :: 0 <= i < |a| ==> WellFormed(a[i])
    requires forall i :: 0 <= i < |b| ==> WellFormed(b[i])
    requires SerializeItems(a) + "]" + x == SerializeItems(b) + "]" + y
    ensures a == b && x == y
    decreases a, 0
  {
    hide SerializeItems, Serialize, WellFormed;
    if a == [] || b == [] {
      EmptyItems(a, x);
      EmptyItems(b, y);
      assert a == b;
      assert x == (SerializeItems(a) + "]" + x)[1..] == (SerializeItems(b) + "]" + y)[1..] == y;
    } else {
      ItemsSplit(a, x);
      ItemsSplit(b, y);
      SerializeIsPrefixFree(a[0], b[0], ItemsTail(a, x), ItemsTail(b, y));
      var t, u := ItemsTail(a, x), ItemsTail(b, y);
      assert t[0] == u[0];
      assert t[1..] == u[1..];
      if |a| > 1 {
        assert t[1..] == SerializeItems(a[1..]) + "]" + x;
        assert u[1..] == SerializeItems(b[1..]) + "]" + y;
        ItemsArePrefixFree(a[1..], b[1..], x, y);
        assert a == [a[0]] + a[1..] && b == [b[0]] + b[1..];
      } else {
        assert x == t[1..] && y == u[1..];
      }
    }
  }

  lemma {:induction false} EmptyItems(items: seq<Json>, x: string)
    requires items == [] || WellFormed(items[0])
    ensures (SerializeItems(items) + "]" + x)[0] == ']' <==> items == []
    ensures items == [] ==> SerializeItems(items) == ""
  {
    if items != [] {
      ItemsSplit(items, x);
      LeadIsFirst(items[0], ItemsTail(items, x));
    }
  }

  /** How a non-empty list of members continues after its first value. */
  function MembersTail(ms: seq<Member>, x: string): string
    requires ms != []
  {
    if |ms| == 1 then "}" + x else "," + (SerializeMembers(ms[1..]) + "}" + x)
  }

  lemma {:induction false} MembersSplit(ms: seq<Member>, x: string)
    requires ms != []
    ensures SerializeMembers(ms) + "}" + x
         == Quote(ms[0].key) + (":" + (Serialize(ms[0].value) + MembersTail(ms, x)))
  {
    assert SerializeMember(ms[0]) + MembersTail(ms, x)
        == Quote(ms[0].key) + (":" + (Serialize(ms[0].value) + MembersTail(ms, x)));
  }

  lemma {:induction false} MembersArePrefixFree(a: seq<Member>, b: seq<Member>, x: string, y: string)
    requires forall i :: 0 <= i < |a| ==> WellFormed(a[i].value)
    requires forall i :: 0 <= i < |b| ==> WellFormed(b[i].value)
    requires SerializeMembers(a) + "}" + x == SerializeMembers(b) + "}" + y
    ensures a == b && x == y
    decreases a, 0
  {
    if a == [] || b == [] {
      EmptyMembers(a, x);
      EmptyMembers(b, y);
      assert a == b;
      assert x == (SerializeMembers(a) + "}" + x)[1..] == y;
    } else {
      MembersSplit(a, x);
      MembersSplit(b, y);
      var t, u := MembersTail(a, x), MembersTail(b, y);
      var v, w := Serialize(a[0].value) + t, Serialize(b[0].value) + u;
      QuoteIsPrefixFree(a[0].key, b[0].key, ":" + v, ":" + w);
      assert v == (":" + v)[1..] == w;
      SerializeIsPrefixFree(a[0].value, b[0].value, t, u);
      assert t[0] == u[0];
      assert t[1..] == u[1..];
      if |a| > 1 {
        assert t[1..] == SerializeMembers(a[1..]) + "}" + x;
        assert u[1..] == SerializeMembers(b[1..]) + "}" + y;
        MembersArePrefixFree(a[1..], b[1..], x, y);
        assert a == [a[0]] + a[1..] && b == [b[0]] + b[1..];
      } else {
        assert x == t[1..] && y == u[1..];
      }
    }
  }

  lemma {:induction false} EmptyMembers(ms: seq<Member>, x: string)
    ensures (SerializeMembers(ms) + "}" + x)[0] == '}' <==> ms == []
  {
    if ms != [] {
      MembersSplit(ms, x);
    }
  }

  // ---------------------------------------------------------------- main result

  /** The text that is hashed. */
  function CanonicalText(le: Order, v: Json): string {
    Serialize(Canonical(le, v))
  }

  /** Two values have one canonical text exactly when they differ at most in member order. */
  lemma {:induction false} CanonicalTextIffSame(le: Order, a: Json, b: Json)
    requires TotalOrder(le) && WellFormed(a) && WellFormed(b)
    ensures CanonicalText(le, a) == CanonicalText(le, b) <==> Same(a, b)
  {
    CanonicalKeepsForm(le, a);
    CanonicalKeepsForm(le, b);
    if CanonicalText(le, a) == CanonicalText(le, b) {
      assert CanonicalText(le, a) + "" == CanonicalText(le, b) + "";
      SerializeIsPrefixFree(Canonical(le, a), Canonical(le, b), "", "");
      CanonicalToSame(le, a, b);
    }
    if Same(a, b) {
      SameToCanonical(le, a, b);
    }
  }
}
