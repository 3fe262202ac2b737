/** The canonical form behind the digest of a runtime version: members without a value are left
    out, and anything that JSON cannot carry is refused. */
module VersionSnapshot {
  import opened Sequences
  import opened CanonicalJson
  import JsonText

  datatype LooseMember = LooseMember(key: string, value: Loose)

  /** A value of the host language. */
  datatype Loose =
    | LNull
    | LBool(flag: bool)
    | LNumber(text: string)
    | LNonFinite
    | LString(chars: string)
    | LArray(items: seq<Loose>)
    | LObject(members: seq<LooseMember>)
    | LUndefined
    | LOther

  datatype VersionError = UnsupportedValue

  /** The JSON value that is canonicalised, if the traversal does not throw. */
  function Plain(v: Loose): Result<Json, VersionError> {
    match v
    case LNull => Ok(JNull)
    case LBool(flag) => Ok(JBool(flag))
    case LNumber(text) => Ok(JNumber(text))
    case LString(chars) => Ok(JString(chars))
    case LArray(items) =>
      var r := PlainItems(items);
      if r.Err? then Err(r.error) else Ok(JArray(r.value))
    case LObject(members) =>
      var r := PlainMembers(members);
      if r.Err? then Err(r.error) else Ok(JObject(r.value))
    case _ => Err(UnsupportedValue)
  }

  function PlainItems(items: seq<Loose>): Result<seq<Json>, VersionError> {
    if items == [] then Ok([])
    else
      var head, rest := Plain(items[0]), PlainItems(items[1..]);
      if head.Err? || rest.Err? then Err(UnsupportedValue) else Ok([head.value] + rest.value)
  }

  /** Members whose value is undefined are filtered out before they are looked at. */
  function PlainMembers(members: seq<LooseMember>): Result<seq<Member>, VersionError> {
    if members == [] then Ok([])
    else if members[0].value == LUndefined then PlainMembers(members[1..])
    else
      var head, rest := Plain(members[0].value), PlainMembers(members[1..]);
      if head.Err? || rest.Err? then Err(UnsupportedValue) else Ok([Member(members[0].key, head.value)] + rest.value)
  }

  function VersionText(le: Order, v: Loose): Result<string, VersionError> {
    match Plain(v)
    case Err(error) => Err(error)
    case Ok(json) => Ok(JsonText.CanonicalText(le, json))
  }

  ghost predicate DistinctLooseKeys(ms: seq<LooseMember>) {
    forall i, j :: 0 <= i < j < |ms| ==> ms[i].key != ms[j].key
  }

  ghost predicate LooseWellFormed(v: Loose) {
    match v
    case LNumber(t) => NumberText(t)
    case LArray(items) => forall i :: 0 <= i < |items| ==> LooseWellFormed(items[i])
    case LObject(ms) => DistinctLooseKeys(ms) && forall i :: 0 <= i < |ms| ==> LooseWellFormed(ms[i].value)
    case _ => true
  }

  /** Nothing JSON cannot carry, except undefined members of objects. */
  ghost predicate Supported(v: Loose) {
    match v
    case LArray(items) => forall i :: 0 <= i < |items| ==> Supported(items[i])
    case LObject(ms) => forall i :: 0 <= i < |ms| ==> ms[i].value == LUndefined || Supported(ms[i].value)
    case LNonFinite => false
    case LUndefined => false
    case LOther => false
    case _ => true
  }

  lemma {:induction false} ItemsSupported(items: seq<Loose>)
    requires forall i :: 0 <= i < |items| ==> (Plain(items[i]).Ok? <==> Supported(items[i]))
    ensures PlainItems(items).Ok? <==> forall i :: 0 <= i < |items| ==> Supported(items[i])
  {
    hide Plain, Supported;
    if items != [] {
      ItemsSupported(items[1..]);
      assert forall i :: 0 < i < |items| ==> items[i] == items[1..][i - 1];
    }
  }

  lemma {:induction false} MembersSupported(ms: seq<LooseMember>)
    requires forall i :: 0 <= i < |ms| ==> (Plain(ms[i].value).Ok? <==> Supported(ms[i].value))
    ensures PlainMembers(ms).Ok? <==> forall i :: 0 <= i < |ms| ==> ms[i].value == LUndefined || Supported(ms[i].value)
  {
    hide Plain, Supported;
    if ms != [] {
      MembersSupported(ms[1..]);
      assert forall i :: 0 < i < |ms| ==> ms[i] == ms[1..][i - 1];
    }
  }

  /** The traversal throws exactly on unsupported values. */
  lemma {:induction false} PlainIffSupported(v: Loose)
    ensures Plain(v).Ok? <==> Supported(v)
    decreases v
  {
    match v
    case LArray(items) =>
      forall i | 0 <= i < |items| ensures Plain(items[i]).Ok? <==> Supported(items[i]) {
        PlainIffSupported(items[i]);
      }
      ItemsSupported(items);
    case LObject(ms) =>
      forall i | 0 <= i < |ms| ensures Plain(ms[i].value).Ok? <==> Supported(ms[i].value) {
        PlainIffSupported(ms[i].value);
      }
      MembersSupported(ms);
    case _ =>
  }

  lemma {:induction false} PlainItemsForm(items: seq<Loose>)
    requires PlainItems(items).Ok?
    ensures |PlainItems(items).value| == |items|
    ensures forall i :: 0 <= i < |items| ==> Plain(items[i]) == Ok(PlainItems(items).value[i])
  {
    if items != [] {
      PlainItemsForm(items[1..]);
    }
  }

  lemma {:induction false} PlainMembersForm(ms: seq<LooseMember>)
    requires PlainMembers(ms).Ok? && DistinctLooseKeys(ms)
    ensures DistinctKeys(PlainMembers(ms).value)
    ensures forall k :: 0 <= k < |PlainMembers(ms).value| ==>
      exists i :: 0 <= i < |ms| && ms[i].key == PlainMembers(ms).value[k].key
                  && Plain(ms[i].value) == Ok(PlainMembers(ms).value[k].value)
  {
    hide Plain;
    if ms != [] {
      var rest := ms[1..];
      PlainMembersForm(rest);
      var tail := PlainMembers(rest).value;
      forall k | 0 <= k < |tail|
        ensures exists i :: 0 < i < |ms| && ms[i].key == tail[k].key && Plain(ms[i].value) == Ok(tail[k].value)
      {
        var i :| 0 <= i < |rest| && rest[i].key == tail[k].key && Plain(rest[i].value) == Ok(tail[k].value);
        assert ms[i + 1] == rest[i];
      }
      if ms[0].value != LUndefined {
        assert ms[0].key == PlainMembers(ms).value[0].key && Plain(ms[0].value) == Ok(PlainMembers(ms).value[0].value);
      }
    }
  }

  lemma {:induction false} PlainKeepsForm(v: Loose)
    requires LooseWellFormed(v) && Plain(v).Ok?
    ensures WellFormed(Plain(v).value)
    decreases v
  {
    match v
    case LArray(items) =>
      PlainItemsForm(items);
      forall i | 0 <= i < |items| ensures WellFormed(PlainItems(items).value[i]) {
        PlainKeepsForm(items[i]);
      }
    case LObject(ms) =>
      PlainMembersForm(ms);
      var r := PlainMembers(ms).value;
      forall k | 0 <= k < |r| ensures WellFormed(r[k].value) {
        var i :| 0 <= i < |ms| && ms[i].key == r[k].key && Plain(ms[i].value) == Ok(r[k].value);
        PlainKeepsForm(ms[i].value);
      }
    case _ =>
  }

  /** An undefined member is invisible wherever it stands. */
  lemma {:induction false} UndefinedIsInvisible(le: Order, a: seq<LooseMember>, key: string, b: seq<LooseMember>)
    ensures VersionText(le, LObject(a + [LooseMember(key, LUndefined)] + b)) == VersionText(le, LObject(a + b))
  {
    InvisibleMember(a, key, b);
  }

  lemma {:induction false} InvisibleMember(a: seq<LooseMember>, key: string, b: seq<LooseMember>)
    ensures PlainMembers(a + [LooseMember(key, LUndefined)] + b) == PlainMembers(a + b)
  {
    var m := [LooseMember(key, LUndefined)];
    if a == [] {
      assert a + m + b == m + b && a + b == b && (m + b)[1..] == b;
    } else {
      assert (a + m + b)[1..] == a[1..] + m + b && (a + b)[1..] == a[1..] + b;
      InvisibleMember(a[1..], key, b);
    }
  }

  /** Two supported snapshots are hashed from one text exactly when they hold the same values, up
      to member order and to members without a value. */
  lemma {:induction false} VersionTextIffSame(le: Order, a: Loose, b: Loose)
    requires TotalOrder(le) && LooseWellFormed(a) && LooseWellFormed(b) && Supported(a) && Supported(b)
    ensures Plain(a).Ok? && Plain(b).Ok?
    ensures VersionText(le, a) == VersionText(le, b) <==> Same(Plain(a).value, Plain(b).value)
  {
    hide TotalOrder, Supported, LooseWellFormed, Plain;
    PlainIffSupported(a);
    PlainIffSupported(b);
    PlainKeepsForm(a);
    PlainKeepsForm(b);
    JsonText.CanonicalTextIffSame(le, Plain(a).value, Plain(b).value);
  }

  // --------------------------------------------------------- nothing else changes

  /** A JSON value as a value of the host language. */
  function Lift(j: Json): Loose {
    match j
    case JNull => LNull
    case JBool(flag) => LBool(flag)
    case JNumber(text) => LNumber(text)
    case JString(chars) => LString(chars)
    case JArray(items) => LArray(LiftItems(items))
    case JObject(ms) => LObject(LiftMembers(ms))
  }

  function LiftItems(items: seq<Json>): seq<Loose> {
    if items == [] then [] else [Lift(items[0])] + LiftItems(items[1..])
  }

  function LiftMembers(ms: seq<Member>): seq<LooseMember> {
    if ms == [] then [] else [LooseMember(ms[0].key, Lift(ms[0].value))] + LiftMembers(ms[1..])
  }

  /** The value without its undefined members, at every depth. */
  function Strip(v: Loose): Loose {
    match v
    case LArray(items) => LArray(StripItems(items))
    case LObject(ms) => LObject(StripMembers(ms))
    case _ => v
  }

  function StripItems(items: seq<Loose>): seq<Loose> {
    if items == [] then [] else [Strip(items[0])] + StripItems(items[1..])
  }

  function StripMembers(ms: seq<LooseMember>): seq<LooseMember> {
    if ms == [] then []
    else if ms[0].value == LUndefined then StripMembers(ms[1..])
    else [LooseMember(ms[0].key, Strip(ms[0].value))] + StripMembers(ms[1..])
  }

  /** A JSON value goes through unchanged. */
  lemma {:induction false} JsonGoesThrough(j: Json)
    ensures Plain(Lift(j)) == Ok(j) && Lift(j) != LUndefined
    decreases j, 0
  {
    match j
    case JArray(items) => ItemsGoThrough(items);
    case JObject(ms) => MembersGoThrough(ms);
    case _ =>
  }

  lemma {:induction false} ItemsGoThrough(items: seq<Json>)
    ensures PlainItems(LiftItems(items)) == Ok(items)
    decreases items, 1
  {
    hide Plain, Lift;
    if items != [] {
      JsonGoesThrough(items[0]);
      ItemsGoThrough(items[1..]);
      var lifted := LiftItems(items);
      assert lifted[0] == Lift(items[0]) && lifted[1..] == LiftItems(items[1..]);
      assert [items[0]] + items[1..] == items;
    }
  }

  lemma {:induction false} MembersGoThrough(ms: seq<Member>)
    ensures PlainMembers(LiftMembers(ms)) == Ok(ms)
    decreases ms, 1
  {
    hide Plain, Lift;
    if ms != [] {
      JsonGoesThrough(ms[0].value);
      MembersGoThrough(ms[1..]);
      var lifted := LiftMembers(ms);
      assert lifted[0] == LooseMember(ms[0].key, Lift(ms[0].value)) && lifted[1..] == LiftMembers(ms[1..]);
      assert [ms[0]] + ms[1..] == ms;
    }
  }

  /** Whatever goes through comes out as it was, without its undefined members. */
  lemma {:induction false} ComesOutStripped(v: Loose)
    requires Plain(v).Ok?
    ensures Lift(Plain(v).value) == Strip(v)
    decreases v, 0
  {
    match v
    case LArray(items) => ItemsComeOut(items);
    case LObject(ms) => MembersComeOut(ms);
    case _ =>
  }

  lemma {:induction false} ItemsComeOut(items: seq<Loose>)
    requires PlainItems(items).Ok?
    ensures LiftItems(PlainItems(items).value) == StripItems(items)
    decreases items, 1
  {
    hide Plain, Lift, Strip;
    if items != [] {
      ComesOutStripped(items[0]);
      ItemsComeOut(items[1..]);
      var r := PlainItems(items).value;
      assert r[0] == Plain(items[0]).value && r[1..] == PlainItems(items[1..]).value;
    }
  }

  lemma {:induction false} MembersComeOut(ms: seq<LooseMember>)
    requires PlainMembers(ms).Ok?
    ensures LiftMembers(PlainMembers(ms).value) == StripMembers(ms)
    decreases ms, 1
  {
    hide Plain, Lift, Strip;
    if ms != [] {
      MembersComeOut(ms[1..]);
      if ms[0].value != LUndefined {
        ComesOutStripped(ms[0].value);
        var r := PlainMembers(ms).value;
        assert r[0] == Member(ms[0].key, Plain(ms[0].value).value) && r[1..] == PlainMembers(ms[1..]).value;
      }
    }
  }

  /** A snapshot that is JSON is hashed from its canonical text. */
  lemma {:induction false} JsonIsHashedAsItIs(le: Order, j: Json)
    ensures VersionText(le, Lift(j)) == Ok(JsonText.CanonicalText(le, j))
  {
    JsonGoesThrough(j);
  }
}
