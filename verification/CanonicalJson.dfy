/** JSON values, their key-sorted normal form and the text that gets hashed. */
module CanonicalJson {
  import opened Sequences

  datatype Member = Member(key: string, value: Json)

  /** A number is represented by the text it is printed as. */
  datatype Json =
    | JNull
    | JBool(flag: bool)
    | JNumber(text: string)
    | JString(chars: string)
    | JArray(items: seq<Json>)
    | JObject(members: seq<Member>)

  predicate NumberChar(c: char) {
    '0' <= c <= '9' || c == '-' || c == '+' || c == '.' || c == 'e'
  }

  predicate NumberText(t: string) {
    && t != [] && ('0' <= t[0] <= '9' || t[0] == '-')
    && forall i :: 0 <= i < |t| ==> NumberChar(t[i])
  }

  ghost predicate DistinctKeys(ms: seq<Member>) {
    forall i, j :: 0 <= i < j < |ms| ==> ms[i].key != ms[j].key
  }

  ghost predicate WellFormed(v: Json) {
    match v
    case JNumber(t) => NumberText(t)
    case JArray(items) => forall i :: 0 <= i < |items| ==> WellFormed(items[i])
    case JObject(ms) => DistinctKeys(ms) && forall i :: 0 <= i < |ms| ==> WellFormed(ms[i].value)
    case _ => true
  }

  function Keys(ms: seq<Member>): set<string> {
    set i | 0 <= i < |ms| :: ms[i].key
  }

  /** Equality that ignores the order of object members, at every depth. */
  ghost predicate Same(a: Json, b: Json)
    decreases a
  {
    match (a, b)
    case (JArray(x), JArray(y)) => |x| == |y| && forall i :: 0 <= i < |x| ==> Same(x[i], y[i])
    case (JObject(x), JObject(y)) =>
      && Keys(x) == Keys(y)
      && forall i, j :: 0 <= i < |x| && 0 <= j < |y| && x[i].key == y[j].key ==> Same(x[i].value, y[j].value)
    case _ => a == b
  }

  // ------------------------------------------------------------ property order

  type Order = (string, string) -> bool

  ghost predicate TotalOrder(le: Order) {
    && (forall a :: le(a, a))
    && (forall a, b :: le(a, b) || le(b, a))
    && (forall a, b :: le(a, b) && le(b, a) ==> a == b)
    && (forall a, b, c :: le(a, b) && le(b, c) ==> le(a, c))
  }

  const MAX_INDEX := 4294967294

  function DecimalValue(k: string): nat
    requires forall i :: 0 <= i < |k| ==> '0' <= k[i] <= '9'
  {
    if k == [] then 0
    else 10 * DecimalValue(k[..|k| - 1]) + (k[|k| - 1] as int - '0' as int)
  }

  predicate Decimal(k: string) {
    && k != [] && (forall i :: 0 <= i < |k| ==> '0' <= k[i] <= '9')
    && (k[0] == '0' ==> |k| == 1)
  }

  /** Keys that the language lists first, in ascending numeric order. */
  predicate IndexKey(k: string) {
    Decimal(k) && DecimalValue(k) <= MAX_INDEX
  }

  /** The order in which the members of an object are listed once `le` has sorted them. */
  predicate PropertyLe(le: Order, a: string, b: string) {
    if IndexKey(a) && IndexKey(b) then DecimalValue(a) <= DecimalValue(b)
    else if IndexKey(a) then true
    else if IndexKey(b) then false
    else le(a, b)
  }

  lemma {:induction false} DecimalPositive(k: string)
    requires Decimal(k) && k[0] != '0'
    ensures DecimalValue(k) >= 1
  {
    if |k| > 1 {
      DecimalPositive(k[..|k| - 1]);
    }
  }

  /** Taking off the last digit of a numeral of several digits. */
  lemma {:induction false} LastDigit(k: string)
    requires Decimal(k) && |k| > 1
    ensures var x := k[..|k| - 1];
            && Decimal(x) && DecimalValue(x) >= 1
            && DecimalValue(k) == 10 * DecimalValue(x) + (k[|k| - 1] as int - '0' as int)
            && '0' <= k[|k| - 1] <= '9'
  {
    DecimalPositive(k[..|k| - 1]);
  }

  lemma {:induction false} SingleDigit(k: string)
    requires Decimal(k) && |k| == 1
    ensures 0 <= DecimalValue(k) < 10 && k == [(DecimalValue(k) + '0' as int) as char]
  {
    assert k[..0] == [];
  }

  /** Numerals without leading zeros are equal when their values are. */
  lemma {:induction false} DecimalInjective(a: string, b: string)
    requires Decimal(a) && Decimal(b) && DecimalValue(a) == DecimalValue(b)
    ensures a == b
  {
    hide DecimalValue;
    if |a| == 1 {
      SingleDigit(a);
    } else {
      LastDigit(a);
    }
    if |b| == 1 {
      SingleDigit(b);
    } else {
      LastDigit(b);
    }
    if |a| > 1 && |b| > 1 {
      DecimalInjective(a[..|a| - 1], b[..|b| - 1]);
      assert a == a[..|a| - 1] + [a[|a| - 1]] && b == b[..|b| - 1] + [b[|b| - 1]];
    }
  }

  lemma {:induction false} PropertyOrderIsTotal(le: Order)
    requires TotalOrder(le)
    ensures TotalOrder((a, b) => PropertyLe(le, a, b))
  {
    forall a, b | PropertyLe(le, a, b) && PropertyLe(le, b, a) ensures a == b {
      if IndexKey(a) && IndexKey(b) {
        DecimalInjective(a, b);
      }
    }
  }

  // ------------------------------------------------------------------ sorting

  ghost predicate StrictlySorted(le: Order, ms: seq<Member>) {
    forall i, j :: 0 <= i < j < |ms| ==> le(ms[i].key, ms[j].key) && ms[i].key != ms[j].key
  }

  function Insert(le: Order, m: Member, ms: seq<Member>): seq<Member> {
    if ms == [] || le(m.key, ms[0].key) then [m] + ms
    else [ms[0]] + Insert(le, m, ms[1..])
  }

  /** A stable sort by key. */
  function Sort(le: Order, ms: seq<Member>): seq<Member> {
    if ms == [] then [] else Insert(le, ms[0], Sort(le, ms[1..]))
  }

  /** Building an object from sorted entries: index keys move to the front. */
  function FromEntries(ms: seq<Member>): seq<Member> {
    Sort((a, b) => NumericLe(a, b), Filter((m: Member) => IndexKey(m.key), ms))
    + Filter((m: Member) => !IndexKey(m.key), ms)
  }

  predicate NumericLe(a: string, b: string) {
    if IndexKey(a) && IndexKey(b) then DecimalValue(a) <= DecimalValue(b) else IndexKey(a) || !IndexKey(b)
  }

  function Arrange(le: Order, ms: seq<Member>): seq<Member> {
    FromEntries(Sort(le, ms))
  }

  lemma {:induction false} InsertSorts(le: Order, m: Member, ms: seq<Member>)
    requires StrictlySorted(le, ms)
    requires forall a, b :: le(a, b) || le(b, a)
    requires forall i :: 0 <= i < |ms| ==> ms[i].key != m.key
    requires forall a, b, c :: le(a, b) && le(b, c) ==> le(a, c)
    ensures StrictlySorted(le, Insert(le, m, ms))
    ensures forall x :: x in Insert(le, m, ms) <==> x == m || x in ms
  {
    if ms != [] && !le(m.key, ms[0].key) {
      InsertSorts(le, m, ms[1..]);
      var r := Insert(le, m, ms[1..]);
      forall j | 0 <= j < |r| ensures le(ms[0].key, r[j].key) && ms[0].key != r[j].key {
        assert r[j] in r;
        assert r[j] == m || r[j] in ms[1..];
      }
    }
  }

  lemma {:induction false} SortSorts(le: Order, ms: seq<Member>)
    requires DistinctKeys(ms)
    requires forall a, b :: le(a, b) || le(b, a)
    requires forall a, b, c :: le(a, b) && le(b, c) ==> le(a, c)
    ensures StrictlySorted(le, Sort(le, ms))
    ensures forall x :: x in Sort(le, ms) <==> x in ms
  {
    if ms != [] {
      SortSorts(le, ms[1..]);
      var tail := Sort(le, ms[1..]);
      forall i | 0 <= i < |tail| ensures tail[i].key != ms[0].key {
        assert tail[i] in ms[1..];
      }
      InsertSorts(le, ms[0], tail);
    }
  }

  lemma {:induction false} FilterKeepsSorted(le: Order, keep: Member -> bool, ms: seq<Member>)
    requires StrictlySorted(le, ms)
    ensures StrictlySorted(le, Filter(keep, ms))
  {
    if ms != [] {
      FilterKeepsSorted(le, keep, ms[1..]);
      var tail := Filter(keep, ms[1..]);
      forall j | 0 <= j < |tail| ensures le(ms[0].key, tail[j].key) && ms[0].key != tail[j].key {
        FilterMember(keep, ms[1..], tail[j]);
        assert tail[j] in ms[1..];
      }
    }
  }

  /** Arranging lists the same members in strictly ascending property order. */
  lemma {:induction false} ArrangeSorts(le: Order, ms: seq<Member>)
    requires TotalOrder(le) && DistinctKeys(ms)
    ensures StrictlySorted((a, b) => PropertyLe(le, a, b), Arrange(le, ms))
    ensures forall x :: x in Arrange(le, ms) <==> x in ms
  {
    var sorted := Sort(le, ms);
    SortSorts(le, ms);
    var isIndex, isName := (m: Member) => IndexKey(m.key), (m: Member) => !IndexKey(m.key);
    var numeric := (a, b) => NumericLe(a, b);
    FilterKeepsSorted(le, isIndex, sorted);
    FilterKeepsSorted(le, isName, sorted);
    SortSorts(numeric, Filter(isIndex, sorted));
    var front, back := Sort(numeric, Filter(isIndex, sorted)), Filter(isName, sorted);
    forall x ensures x in front <==> x in ms && IndexKey(x.key) {
      FilterMember(isIndex, sorted, x);
    }
    forall x ensures x in back <==> x in ms && !IndexKey(x.key) {
      FilterMember(isName, sorted, x);
    }
    assert Arrange(le, ms) == front + back;
    forall i, j | 0 <= i < j < |front + back|
      ensures PropertyLe(le, (front + back)[i].key, (front + back)[j].key)
      ensures (front + back)[i].key != (front + back)[j].key
    {
      var a, b := (front + back)[i], (front + back)[j];
      if j < |front| {
        assert a == front[i] && b == front[j] && a in front && b in front;
      } else if i < |front| {
        assert a == front[i] && b == back[j - |front|] && a in front && b in back;
      } else {
        assert a == back[i - |front|] && b == back[j - |front|] && a in back && b in back;
      }
    }
  }

  /** Canonicalising and arranging the members of an object loses and invents nothing. */
  lemma {:induction false} ArrangedMembers(le: Order, ms: seq<Member>)
    requires TotalOrder(le) && DistinctKeys(ms)
    ensures forall m :: m in Arrange(le, CanonicalMembers(le, ms)) <==> m in CanonicalMembers(le, ms)
  {
    var r := CanonicalMembers(le, ms);
    assert forall i :: 0 <= i < |ms| ==> r[i].key == ms[i].key;
    ArrangeSorts(le, r);
  }

  lemma {:induction false} SmallestIsFirst(le: Order, a: seq<Member>, b: seq<Member>)
    requires TotalOrder(le) && StrictlySorted(le, a) && StrictlySorted(le, b)
    requires forall x :: x in a <==> x in b
    requires a != []
    ensures b != [] && a[0] == b[0]
    ensures forall x :: x in a[1..] <==> x in b[1..]
  {
    assert a[0] in b && b[0] in a;
    var i :| 0 <= i < |b| && b[i] == a[0];
    var j :| 0 <= j < |a| && a[j] == b[0];
    assert le(b[0].key, b[i].key) && le(a[0].key, a[j].key);
    assert a[0] == b[0];
    forall x ensures x in a[1..] <==> x in b[1..] {
      if x in a[1..] {
        var k :| 0 <= k < |a[1..]| && a[1..][k] == x;
        assert a[k + 1] == x && x in a;
      }
      if x in b[1..] {
        var k :| 0 <= k < |b[1..]| && b[1..][k] == x;
        assert b[k + 1] == x && x in b;
      }
    }
  }

  /** A set of members has one strictly sorted listing. */
  lemma {:induction false} SortedListsAreEqual(le: Order, a: seq<Member>, b: seq<Member>)
    requires TotalOrder(le) && StrictlySorted(le, a) && StrictlySorted(le, b)
    requires forall x :: x in a <==> x in b
    ensures a == b
  {
    assert b == [] || b[0] in b;
    if a != [] {
      SmallestIsFirst(le, a, b);
      SortedListsAreEqual(le, a[1..], b[1..]);
      assert a == [a[0]] + a[1..] && b == [b[0]] + b[1..];
    }
  }

  // ------------------------------------------------------------- normal form

  function Canonical(le: Order, v: Json): Json {
    match v
    case JArray(items) => JArray(CanonicalItems(le, items))
    case JObject(ms) => JObject(Arrange(le, CanonicalMembers(le, ms)))
    case _ => v
  }

  function CanonicalItems(le: Order, items: seq<Json>): (r: seq<Json>)
    ensures |r| == |items|
    ensures forall i :: 0 <= i < |items| ==> r[i] == Canonical(le, items[i])
  {
    if items == [] then [] else [Canonical(le, items[0])] + CanonicalItems(le, items[1..])
  }

  function CanonicalMembers(le: Order, ms: seq<Member>): (r: seq<Member>)
    ensures |r| == |ms|
    ensures forall i :: 0 <= i < |ms| ==> r[i] == Member(ms[i].key, Canonical(le, ms[i].value))
  {
    if ms == [] then []
    else [Member(ms[0].key, Canonical(le, ms[0].value))] + CanonicalMembers(le, ms[1..])
  }

  lemma {:induction false} CanonicalMember(le: Order, ms: seq<Member>, m: Member)
    ensures m in CanonicalMembers(le, ms)
            <==> exists i :: 0 <= i < |ms| && m == Member(ms[i].key, Canonical(le, ms[i].value))
  {
    var r := CanonicalMembers(le, ms);
    if i :| 0 <= i < |ms| && m == Member(ms[i].key, Canonical(le, ms[i].value)) {
      assert r[i] == m;
    }
  }

  lemma {:induction false} CanonicalKeepsForm(le: Order, v: Json)
    requires TotalOrder(le) && WellFormed(v)
    ensures WellFormed(Canonical(le, v))
    decreases v
  {
    match v
    case JArray(items) =>
      forall i | 0 <= i < |items| ensures WellFormed(Canonical(le, items[i])) {
        CanonicalKeepsForm(le, items[i]);
      }
    case JObject(ms) =>
      var r := CanonicalMembers(le, ms);
      assert forall i :: 0 <= i < |ms| ==> r[i].key == ms[i].key;
      ArrangeSorts(le, r);
      var arranged := Arrange(le, r);
      forall k | 0 <= k < |arranged| ensures WellFormed(arranged[k].value) {
        assert arranged[k] in r;
        var i :| 0 <= i < |ms| && r[i] == arranged[k];
        CanonicalKeepsForm(le, ms[i].value);
      }
    case _ =>
  }

  /** Equal up to member order implies one normal form. */
  lemma {:induction false} SameToCanonical(le: Order, a: Json, b: Json)
    requires TotalOrder(le) && WellFormed(a) && WellFormed(b) && Same(a, b)
    ensures Canonical(le, a) == Canonical(le, b)
    decreases a
  {
    match (a, b)
    case (JArray(x), JArray(y)) =>
      forall i | 0 <= i < |x| ensures Canonical(le, x[i]) == Canonical(le, y[i]) {
        SameToCanonical(le, x[i], y[i]);
      }
      assert CanonicalItems(le, x) == CanonicalItems(le, y);
    case (JObject(x), JObject(y)) =>
      var r, s := CanonicalMembers(le, x), CanonicalMembers(le, y);
      forall m ensures m in r <==> m in s {
        MembersAgree(le, x, y, m);
      }
      ArrangeSorts(le, r);
      ArrangeSorts(le, s);
      PropertyOrderIsTotal(le);
      SortedListsAreEqual((p, q) => PropertyLe(le, p, q), Arrange(le, r), Arrange(le, s));
    case _ =>
  }

  lemma {:induction false} MembersAgree(le: Order, x: seq<Member>, y: seq<Member>, m: Member)
    requires TotalOrder(le) && WellFormed(JObject(x)) && WellFormed(JObject(y)) && Same(JObject(x), JObject(y))
    ensures m in CanonicalMembers(le, x) <==> m in CanonicalMembers(le, y)
    decreases x
  {
    hide TotalOrder;
    if m in CanonicalMembers(le, x) {
      CanonicalMember(le, x, m);
      var i :| 0 <= i < |x| && m == Member(x[i].key, Canonical(le, x[i].value));
      assert x[i].key in Keys(y);
      var j :| 0 <= j < |y| && y[j].key == x[i].key;
      SameToCanonical(le, x[i].value, y[j].value);
      CanonicalMember(le, y, m);
    }
    if m in CanonicalMembers(le, y) {
      CanonicalMember(le, y, m);
      var j :| 0 <= j < |y| && m == Member(y[j].key, Canonical(le, y[j].value));
      assert y[j].key in Keys(x);
      var i :| 0 <= i < |x| && x[i].key == y[j].key;
      SameToCanonical(le, x[i].value, y[j].value);
      CanonicalMember(le, x, m);
    }
  }

  lemma {:induction false} CanonicalKeys(le: Order, ms: seq<Member>, arranged: seq<Member>)
    requires forall m :: m in arranged <==> m in CanonicalMembers(le, ms)
    ensures Keys(arranged) == Keys(ms)
  {
    var r := CanonicalMembers(le, ms);
    forall k ensures k in Keys(arranged) <==> k in Keys(ms) {
      if k in Keys(arranged) {
        var i :| 0 <= i < |arranged| && arranged[i].key == k;
        assert arranged[i] in r;
        var j :| 0 <= j < |r| && r[j] == arranged[i];
        assert ms[j].key == k;
      }
      if k in Keys(ms) {
        var j :| 0 <= j < |ms| && ms[j].key == k;
        assert r[j] in arranged;
        var i :| 0 <= i < |arranged| && arranged[i] == r[j];
        assert arranged[i].key == k;
      }
    }
  }

  lemma {:induction false} MemberOfKey(le: Order, ms: seq<Member>, m: Member, i: nat)
    requires DistinctKeys(ms) && i < |ms| && m in CanonicalMembers(le, ms) && m.key == ms[i].key
    ensures m.value == Canonical(le, ms[i].value)
  {
    var r := CanonicalMembers(le, ms);
    var j :| 0 <= j < |r| && r[j] == m;
    assert j == i;
  }

  /** One normal form implies equality up to member order. */
  lemma {:induction false} CanonicalToSame(le: Order, a: Json, b: Json)
    requires TotalOrder(le) && WellFormed(a) && WellFormed(b)
    requires Canonical(le, a) == Canonical(le, b)
    ensures Same(a, b)
    decreases a
  {
    match (a, b)
    case (JArray(x), JArray(y)) =>
      forall i | 0 <= i < |x| ensures Same(x[i], y[i]) {
        assert CanonicalItems(le, x)[i] == CanonicalItems(le, y)[i];
        CanonicalToSame(le, x[i], y[i]);
      }
    case (JObject(x), JObject(y)) =>
      hide TotalOrder, Arrange;
      var arranged := Arrange(le, CanonicalMembers(le, x));
      ArrangedMembers(le, x);
      ArrangedMembers(le, y);
      CanonicalKeys(le, x, arranged);
      CanonicalKeys(le, y, arranged);
      forall i, j | 0 <= i < |x| && 0 <= j < |y| && x[i].key == y[j].key
        ensures Same(x[i].value, y[j].value)
      {
        MemberOfKey(le, y, CanonicalMembers(le, x)[i], j);
        CanonicalToSame(le, x[i].value, y[j].value);
      }
    case _ =>
  }

  lemma {:induction false} CanonicalIsSame(le: Order, v: Json)
    requires TotalOrder(le) && WellFormed(v)
    ensures Same(Canonical(le, v), v)
    decreases v
  {
    match v
    case JArray(items) =>
      forall i | 0 <= i < |items| ensures Same(Canonical(le, items[i]), items[i]) {
        CanonicalIsSame(le, items[i]);
      }
    case JObject(ms) =>
      hide TotalOrder, Arrange;
      var r := CanonicalMembers(le, ms);
      var arranged := Arrange(le, r);
      ArrangedMembers(le, ms);
      CanonicalKeys(le, ms, arranged);
      forall k, i | 0 <= k < |arranged| && 0 <= i < |ms| && arranged[k].key == ms[i].key
        ensures Same(arranged[k].value, ms[i].value)
      {
        assert arranged[k] in r;
        MemberOfKey(le, ms, arranged[k], i);
        CanonicalIsSame(le, ms[i].value);
      }
    case _ =>
  }

  /** Canonicalising twice changes nothing. */
  lemma {:induction false} CanonicalIdempotent(le: Order, v: Json)
    requires TotalOrder(le) && WellFormed(v)
    ensures Canonical(le, Canonical(le, v)) == Canonical(le, v)
  {
    CanonicalKeepsForm(le, v);
    CanonicalIsSame(le, v);
    SameToCanonical(le, Canonical(le, v), v);
  }

  lemma {:induction false} NextDigit(k: string, c: char, next: string)
    requires (forall i :: 0 <= i < |k| ==> '0' <= k[i] <= '9') && '0' <= c <= '9' && next == k + [c]
    ensures forall i :: 0 <= i < |next| ==> '0' <= next[i] <= '9'
    ensures DecimalValue(next) == 10 * DecimalValue(k) + (c as int - '0' as int)
  {
    assert next[..|k|] == k;
  }

  lemma {:induction false} FiveDigits()
    ensures DecimalValue("42949") == 42_949
  {
    NextDigit("", '4', "4");
    NextDigit("4", '2', "42");
    NextDigit("42", '9', "429");
    NextDigit("429", '4', "4294");
    NextDigit("4294", '9', "42949");
    assert DecimalValue("") == 0;
    hide DecimalValue;
  }

  lemma {:induction false} NineDigits()
    ensures DecimalValue("429496729") == 429_496_729
  {
    FiveDigits();
    NextDigit("42949", '6', "429496");
    NextDigit("429496", '7', "4294967");
    NextDigit("4294967", '2', "42949672");
    NextDigit("42949672", '9', "429496729");
    hide DecimalValue;
  }

  /** The largest array index and the number behind it, and numerals that are none. */
  lemma {:induction false} IndexBoundary()
    ensures IndexKey("0") && IndexKey("4294967294") && !IndexKey("4294967295") && !IndexKey("") && !IndexKey("01")
  {
    NextDigit("", '0', "0");
    assert DecimalValue("") == 0;
    NineDigits();
    NextDigit("429496729", '4', "4294967294");
    NextDigit("429496729", '5', "4294967295");
    hide DecimalValue;
    assert "01"[0] == '0' && |"01"| == 2;
  }
}
