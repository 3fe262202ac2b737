/** The texts behind the hashes of blocks and of state values, letter by letter. */
module AnswerHashes {
  import opened Sequences
  import opened CanonicalJson
  import opened JsonText
  import opened JsonReader
  import opened AnswerDocument

  lemma {:induction false} NotAnIndex(k: string)
    requires k != [] && k[0] > '9'
    ensures !IndexKey(k)
  {
  }

  /** Members whose keys are no numbers and ascend in the collation are in property order. */
  lemma {:induction false} NamesInOrder(le: Order, ms: seq<Member>)
    requires TotalOrder(le) && forall i :: 0 <= i < |ms| ==> ms[i].key != [] && ms[i].key[0] > '9'
    requires forall i, j :: 0 <= i < j < |ms| ==> ms[i].key != ms[j].key && le(ms[i].key, ms[j].key)
    ensures DistinctKeys(ms) && StrictlySorted((a, b) => PropertyLe(le, a, b), ms)
  {
    forall i, j | 0 <= i < j < |ms| ensures PropertyLe(le, ms[i].key, ms[j].key) {
      NotAnIndex(ms[i].key);
      NotAnIndex(ms[j].key);
    }
  }

  // ------------------------------------------------------------- printed objects

  /** One member as it is printed. */
  function Field(key: string, text: string): string {
    Quote(key) + ":" + text
  }

  lemma {:induction false} LastField(a: Member)
    ensures SerializeMembers([a]) == Field(a.key, Serialize(a.value))
  {
    assert |[a]| == 1 && [a][0] == a;
  }

  lemma {:induction false} NextField(a: Member, rest: seq<Member>)
    requires rest != []
    ensures SerializeMembers([a] + rest) == Field(a.key, Serialize(a.value)) + ("," + SerializeMembers(rest))
  {
    var ms := [a] + rest;
    assert ms[1..] == rest && ms[0] == a && |ms| > 1;
    hide Quote, Serialize;
  }

  lemma {:induction false} Braces(ms: seq<Member>)
    ensures Serialize(JObject(ms)) == "{" + SerializeMembers(ms) + "}"
  {
  }

  lemma {:induction false} PrintTwo(a: Member, b: Member)
    ensures Serialize(JObject([a, b]))
         == "{" + (Field(a.key, Serialize(a.value)) + ("," + Field(b.key, Serialize(b.value)))) + "}"
  {
    hide Serialize, SerializeMembers, Field;
    assert [a] + [b] == [a, b];
    Braces([a, b]);
    NextField(a, [b]);
    LastField(b);
  }

  lemma {:induction false} PrintThree(a: Member, b: Member, c: Member)
    ensures Serialize(JObject([a, b, c]))
         == "{" + (Field(a.key, Serialize(a.value))
                   + ("," + (Field(b.key, Serialize(b.value)) + ("," + Field(c.key, Serialize(c.value)))))) + "}"
  {
    hide Serialize, SerializeMembers, Field;
    assert [a] + [b, c] == [a, b, c] && [b] + [c] == [b, c];
    Braces([a, b, c]);
    NextField(a, [b, c]);
    NextField(b, [c]);
    LastField(c);
  }

  // ----------------------------------------------------------------------- state

  /** Absence is hashed from one fixed text: an object whose only member says that it is not present. */
  lemma {:induction false} AbsenceText(h: Hashing)
    requires TotalOrder(h.le)
    ensures StateValueHash(h, None) == h.sha256("{" + Field("present", "false") + "}")
  {
    var a := Member("present", JBool(false));
    NamesInOrder(h.le, [a]);
    hide TotalOrder, StrictlySorted, PropertyLe;
    ArrangedText(h.le, [a], [a]);
    Braces([a]);
    LastField(a);
    hide Serialize, SerializeMembers, CanonicalText, Field;
    assert CanonicalMembers(h.le, [a]) == [a];
    SerializedFlag(false);
  }

  lemma {:induction false} TwoCanonical(le: Order, a: Member, b: Member)
    ensures CanonicalMembers(le, [a, b])
         == [Member(a.key, Canonical(le, a.value)), Member(b.key, Canonical(le, b.value))]
  {
    hide Canonical;
  }

  lemma {:induction false} SerializedFlag(flag: bool)
    ensures Serialize(JBool(flag)) == if flag then "true" else "false"
  {
  }

  /** A value is hashed from its canonical text, behind a member that says that it is present. */
  lemma {:induction false} PresenceText(h: Hashing, v: Json)
    requires TotalOrder(h.le) && h.le("present", "value")
    ensures StateValueHash(h, Some(v))
         == h.sha256("{" + (Field("present", "true") + ("," + Field("value", CanonicalText(h.le, v)))) + "}")
  {
    var a, b := Member("present", JBool(true)), Member("value", v);
    var c := Member("value", Canonical(h.le, v));
    assert |"present"| != |"value"|;
    NamesInOrder(h.le, [a, b]);
    hide TotalOrder, StrictlySorted, PropertyLe, Serialize, Field, DistinctKeys;
    ArrangedText(h.le, [a, b], [a, b]);
    TwoCanonical(h.le, a, b);
    hide CanonicalMembers;
    PrintTwo(a, c);
    SerializedFlag(true);
  }

  // ---------------------------------------------------------------------- blocks

  /** The type of a block as the document spells it. */
  function Spelled(t: BlockType): string {
    match t
    case SUMMARY => "SUMMARY"
    case FIELD => "FIELD"
    case POLICY => "POLICY"
    case LIST => "LIST"
    case CALLOUT => "CALLOUT"
    case HANDOVER => "HANDOVER"
    case CUSTOM => "CUSTOM"
  }

  /** A block is hashed from its metadata, its type and its value, in that order and in canonical text. */
  lemma {:induction false} BlockText(h: Hashing, b: Block)
    requires TotalOrder(h.le) && h.le("metadata", "type") && h.le("type", "value")
    ensures BlockContentHash(h, b)
         == h.sha256("{" + (Field("metadata", CanonicalText(h.le, JObject(b.metadata)))
                            + ("," + (Field("type", Quote(Spelled(b.kind)))
                                      + ("," + Field("value", CanonicalText(h.le, b.value)))))) + "}")
  {
    var x, y := Member("metadata", JObject(b.metadata)), Member("type", JString(TypeName(b.kind)));
    var z := Member("value", b.value);
    BlockInOrder(h.le, x, y, z);
    hide TotalOrder, StrictlySorted, PropertyLe;
    ArrangedText(h.le, [y, z, x], [x, y, z]);
    var u, w := Member("metadata", Canonical(h.le, x.value)), Member("value", Canonical(h.le, z.value));
    PrintThree(u, y, w);
    hide Serialize, Field, Quote;
    assert CanonicalMembers(h.le, [x, y, z]) == [u, y, w];
    StringText(TypeName(b.kind));
    assert TypeName(b.kind) == Spelled(b.kind);
  }

  lemma {:induction false} StringText(s: string)
    ensures Serialize(JString(s)) == Quote(s)
  {
  }

  lemma {:induction false} BlockInOrder(le: Order, x: Member, y: Member, z: Member)
    requires TotalOrder(le) && le("metadata", "type") && le("type", "value")
    requires x.key == "metadata" && y.key == "type" && z.key == "value"
    ensures StrictlySorted((a, b) => PropertyLe(le, a, b), [x, y, z])
    ensures DistinctKeys([x, y, z]) && DistinctKeys([y, z, x]) && forall m :: m in [y, z, x] <==> m in [x, y, z]
  {
    assert le("metadata", "value");
    assert |x.key| == 8 && |y.key| == 4 && |z.key| == 5;
    NamesInOrder(le, [x, y, z]);
  }
}
