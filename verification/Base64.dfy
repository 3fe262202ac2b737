/** Base64 in its two alphabets (sections 4 and 5 of RFC 4648), and the tolerant decoder that
    skips foreign characters and stops at a completed padding. */
module Base64 {
  import opened Sequences
  import opened Bits

  datatype Alphabet = Standard | UrlSafe

  type Sextet = n: nat | n < 64

  function Symbol(a: Alphabet, v: Sextet): char {
    if v < 26 then 'A' + v as char
    else if v < 52 then 'a' + (v - 26) as char
    else if v < 62 then '0' + (v - 52) as char
    else if v == 62 then (if a.Standard? then '+' else '-')
    else (if a.Standard? then '/' else '_')
  }

  /** The value of a symbol of the standard alphabet. */
  function Value(c: char): Option<Sextet> {
    if 'A' <= c <= 'Z' then Some(c as nat - 'A' as nat)
    else if 'a' <= c <= 'z' then Some(c as nat - 'a' as nat + 26)
    else if '0' <= c <= '9' then Some(c as nat - '0' as nat + 52)
    else if c == '+' then Some(62)
    else if c == '/' then Some(63)
    else None
  }

  function Translate(c: char): char {
    if c == '-' then '+' else if c == '_' then '/' else c
  }

  function TranslateAll(s: string): string {
    Map(Translate, s)
  }

  // ------------------------------------------------------------------ encoding

  function First(b: Byte): Sextet { b / 4 }

  function Second(b: Byte, c: Byte): Sextet { (b % 4) * 16 + c / 16 }

  function Third(c: Byte, d: Byte): Sextet { (c % 16) * 4 + d / 64 }

  function Fourth(d: Byte): Sextet { d % 64 }

  /** The six-bit groups of a byte sequence; the last one is filled with zero bits. */
  function Sextets(bytes: seq<Byte>): seq<Sextet> {
    if bytes == [] then []
    else if |bytes| == 1 then [First(bytes[0]), Second(bytes[0], 0)]
    else if |bytes| == 2 then [First(bytes[0]), Second(bytes[0], bytes[1]), Third(bytes[1], 0)]
    else
      [First(bytes[0]), Second(bytes[0], bytes[1]), Third(bytes[1], bytes[2]), Fourth(bytes[2])] + Sextets(bytes[3..])
  }

  function Text(a: Alphabet, vs: seq<Sextet>): (s: string)
    ensures |s| == |vs|
    ensures forall i :: 0 <= i < |vs| ==> s[i] == Symbol(a, vs[i])
  {
    seq(|vs|, i requires 0 <= i < |vs| => Symbol(a, vs[i]))
  }

  /** The encoding without padding. */
  function Encode(a: Alphabet, bytes: seq<Byte>): string {
    Text(a, Sextets(bytes))
  }

  function Equals(n: nat): string {
    seq(n, _ => '=')
  }

  /** How many padding characters complete the last group. */
  function PadCount(length: nat): nat {
    (4 - length % 4) % 4
  }

  function EncodePadded(a: Alphabet, bytes: seq<Byte>): string {
    var text := Encode(a, bytes);
    text + Equals(PadCount(|text|))
  }

  // ------------------------------------------------------------------ decoding

  /** The decoder between two characters: the position in the group of four, the bits left over
      from the previous symbol, the padding seen since then and the bytes written so far. */
  datatype Decoder = Decoder(quad: nat, left: nat, pads: nat, out: seq<Byte>)

  predicate Proper(d: Decoder) {
    d.quad < 4 && d.left < 64 && (d.quad == 2 ==> d.left < 16) && (d.quad == 3 ==> d.left < 4)
  }

  function Feed(d: Decoder, v: Sextet): (r: Decoder)
    requires Proper(d)
    ensures Proper(r)
  {
    if d.quad == 0 then Decoder(1, v, 0, d.out)
    else if d.quad == 1 then Decoder(2, v % 16, 0, d.out + [d.left * 4 + v / 16])
    else if d.quad == 2 then Decoder(3, v % 4, 0, d.out + [d.left * 16 + v / 4])
    else Decoder(0, 0, 0, d.out + [d.left * 64 + v])
  }

  /** Decoding the rest of a text. */
  function Decode(text: string, d: Decoder): Option<seq<Byte>>
    requires Proper(d)
    decreases |text|
  {
    if text == [] then (if d.quad == 0 then Some(d.out) else None)
    else if text[0] == '=' then
      if d.quad >= 2 && d.quad + d.pads + 1 >= 4 then Some(d.out)
      else Decode(text[1..], if d.quad >= 2 then d.(pads := d.pads + 1) else d)
    else
      match Value(text[0])
      case None => Decode(text[1..], d)
      case Some(v) => Decode(text[1..], Feed(d, v))
  }

  const START := Decoder(0, 0, 0, [])

  predicate Ascii(s: string) {
    forall i :: 0 <= i < |s| ==> s[i] < '\U{80}'
  }

  /** Decoding after completing the padding, as the proxy does. */
  function DecodeUrlSafe(value: string): Option<seq<Byte>> {
    if !Ascii(value) then None else Decode(TranslateAll(value + Equals(PadCount(|value|))), START)
  }

  // --------------------------------------------------------------- round trips

  lemma {:induction false} SymbolValue(a: Alphabet, v: Sextet)
    ensures Value(Translate(Symbol(a, v))) == Some(v)
    ensures a.Standard? ==> Value(Symbol(a, v)) == Some(v)
    ensures Translate(Symbol(a, v)) != '=' && Symbol(a, v) != '=' && Symbol(a, v) < '\U{80}'
  {
  }

  function FeedAll(d: Decoder, vs: seq<Sextet>): (r: Decoder)
    requires Proper(d)
    ensures Proper(r)
    decreases |vs|
  {
    if vs == [] then d else FeedAll(Feed(d, vs[0]), vs[1..])
  }

  lemma {:induction false} FeedAllConcat(d: Decoder, a: seq<Sextet>, b: seq<Sextet>)
    requires Proper(d)
    ensures FeedAll(d, a + b) == FeedAll(FeedAll(d, a), b)
    decreases |a|
  {
    hide Feed;
    if a == [] {
      assert a + b == b;
    } else {
      assert (a + b)[1..] == a[1..] + b;
      FeedAllConcat(Feed(d, a[0]), a[1..], b);
    }
  }

  /** Symbols of the standard alphabet are fed to the decoder one by one. */
  lemma {:induction false} DecodeText(vs: seq<Sextet>, rest: string, d: Decoder)
    requires Proper(d)
    ensures Decode(Text(Standard, vs) + rest, d) == Decode(rest, FeedAll(d, vs))
  {
    hide Feed, Symbol, Value;
    var text := Text(Standard, vs) + rest;
    if vs == [] {
      assert text == rest;
    } else {
      SymbolValue(Standard, vs[0]);
      assert text[0] == Symbol(Standard, vs[0]);
      assert text[1..] == Text(Standard, vs[1..]) + rest;
      DecodeText(vs[1..], rest, Feed(d, vs[0]));
    }
  }

  lemma {:induction false} ThirdSplits(c: Byte, e: Byte)
    ensures Third(c, e) / 4 == c % 16 && Third(c, e) % 4 == e / 64
  {
  }

  lemma {:induction false} SecondSplits(b: Byte, c: Byte)
    ensures Second(b, c) / 16 == b % 4 && Second(b, c) % 16 == c / 16
  {
  }

  lemma {:induction false} FeedTwo(b: Byte, c: Byte, out: seq<Byte>)
    ensures FeedAll(Decoder(0, 0, 0, out), [First(b), Second(b, c)]) == Decoder(2, c / 16, 0, out + [b])
  {
    SecondSplits(b, c);
    var vs := [First(b), Second(b, c)];
    assert vs[1..] == [Second(b, c)] && vs[1..][1..] == [];
    assert First(b) * 4 + b % 4 == b;
    var d := Decoder(1, First(b), 0, out);
    assert Feed(Decoder(0, 0, 0, out), First(b)) == d;
    assert Feed(d, Second(b, c)) == Decoder(2, c / 16, 0, out + [b]);
    assert FeedAll(d, vs[1..]) == FeedAll(Feed(d, Second(b, c)), []);
  }

  lemma {:induction false} FeedThree(b: Byte, c: Byte, e: Byte, out: seq<Byte>)
    ensures FeedAll(Decoder(0, 0, 0, out), [First(b), Second(b, c), Third(c, e)]) == Decoder(3, e / 64, 0, out + [b, c])
  {
    FeedTwo(b, c, out);
    ThirdSplits(c, e);
    FeedAllConcat(Decoder(0, 0, 0, out), [First(b), Second(b, c)], [Third(c, e)]);
    assert [First(b), Second(b, c)] + [Third(c, e)] == [First(b), Second(b, c), Third(c, e)];
    assert out + [b] + [c] == out + [b, c];
  }

  lemma {:induction false} FeedFour(b: Byte, c: Byte, e: Byte, out: seq<Byte>)
    ensures FeedAll(Decoder(0, 0, 0, out), [First(b), Second(b, c), Third(c, e), Fourth(e)])
         == Decoder(0, 0, 0, out + [b, c, e])
  {
    FeedThree(b, c, e, out);
    FeedAllConcat(Decoder(0, 0, 0, out), [First(b), Second(b, c), Third(c, e)], [Fourth(e)]);
    assert [First(b), Second(b, c), Third(c, e)] + [Fourth(e)] == [First(b), Second(b, c), Third(c, e), Fourth(e)];
    assert out + [b, c] + [e] == out + [b, c, e];
  }

  /** All groups of an encoding give back the bytes; what is left over is zero bits. */
  lemma {:induction false} FeedSextets(bytes: seq<Byte>, out: seq<Byte>)
    ensures FeedAll(Decoder(0, 0, 0, out), Sextets(bytes)) == Decoder(|Sextets(bytes)| % 4, 0, 0, out + bytes)
    ensures |Sextets(bytes)| % 4 == if |bytes| % 3 == 0 then 0 else |bytes| % 3 + 1
    decreases |bytes|
  {
    hide Feed, First, Second, Third, Fourth;
    if bytes == [] {
      assert out + bytes == out;
    } else if |bytes| == 1 {
      FeedTwo(bytes[0], 0, out);
      assert bytes == [bytes[0]];
    } else if |bytes| == 2 {
      FeedThree(bytes[0], bytes[1], 0, out);
      assert bytes == [bytes[0], bytes[1]];
    } else {
      var b, c, e, rest := bytes[0], bytes[1], bytes[2], bytes[3..];
      FeedFour(b, c, e, out);
      FeedAllConcat(Decoder(0, 0, 0, out), [First(b), Second(b, c), Third(c, e), Fourth(e)], Sextets(rest));
      FeedSextets(rest, out + [b, c, e]);
      assert out + [b, c, e] + rest == out + bytes;
    }
  }

  /** The padding of a group ends the decoding. */
  lemma {:induction false} DecodePadding(quad: nat, out: seq<Byte>)
    requires quad == 0 || quad == 2 || quad == 3
    ensures Decode(Equals((4 - quad) % 4), Decoder(quad, 0, 0, out)) == Some(out)
  {
    var pads := Equals((4 - quad) % 4);
    if quad == 2 {
      assert pads == ['=', '='] && pads[1..] == ['='];
    }
  }

  /** Decoding an encoding with its padding gives the bytes back, for every length. */
  lemma {:induction false} PaddedRoundTrip(bytes: seq<Byte>)
    ensures Decode(EncodePadded(Standard, bytes), START) == Some(bytes)
  {
    hide Decode, FeedAll;
    var vs := Sextets(bytes);
    FeedSextets(bytes, []);
    DecodeText(vs, Equals(PadCount(|vs|)), START);
    DecodePadding(|vs| % 4, [] + bytes);
    assert [] + bytes == bytes;
  }

  /** The same for the URL-safe alphabet without padding. */
  lemma {:induction false} UrlSafeRoundTrip(bytes: seq<Byte>)
    ensures DecodeUrlSafe(Encode(UrlSafe, bytes)) == Some(bytes)
  {
    hide Decode, Value;
    var value, vs := Encode(UrlSafe, bytes), Sextets(bytes);
    forall i | 0 <= i < |vs|
      ensures value[i] < '\U{80}' && Translate(Symbol(UrlSafe, vs[i])) == Symbol(Standard, vs[i])
    {
      SymbolValue(UrlSafe, vs[i]);
    }
    hide Symbol;
    var pads := Equals(PadCount(|value|));
    assert TranslateAll(value + pads) == Text(Standard, vs) + pads;
    PaddedRoundTrip(bytes);
  }

  /** Characters of the URL-safe alphabet, none of which needs escaping in a URL query. */
  predicate UrlSafeChar(c: char) {
    'A' <= c <= 'Z' || 'a' <= c <= 'z' || '0' <= c <= '9' || c == '-' || c == '_'
  }

  lemma {:induction false} EncodingIsUrlSafe(bytes: seq<Byte>)
    ensures forall i :: 0 <= i < |Encode(UrlSafe, bytes)| ==> UrlSafeChar(Encode(UrlSafe, bytes)[i])
  {
  }

  // ------------------------------------------------------------ the strict decoder

  /** Whole groups of symbols of the standard alphabet, the last one completed by at most two
      padding characters. */
  ghost predicate Grouped(text: string) {
    |text| % 4 == 0 && exists n :: |text| - 2 <= n <= |text| && SymbolsThenPadding(text, n)
  }

  predicate SymbolsThenPadding(text: string, n: int) {
    && 0 <= n <= |text|
    && (forall i :: 0 <= i < n ==> Value(text[i]).Some?)
    && (forall i :: n <= i < |text| ==> text[i] == '=')
  }

  /** A decoder that refuses foreign characters and incomplete groups. */
  ghost function DecodeStrict(text: string): Option<seq<Byte>> {
    if Grouped(text) then Decode(text, START) else None
  }

  /** The strict decoder gives the bytes back too. */
  lemma {:induction false} StrictRoundTrip(bytes: seq<Byte>)
    ensures DecodeStrict(EncodePadded(Standard, bytes)) == Some(bytes)
  {
    PaddedRoundTrip(bytes);
    FeedSextets(bytes, []);
    TextIsGrouped(Sextets(bytes));
    hide Decode, Sextets, Grouped, FeedAll;
  }

  lemma {:induction false} TextIsGrouped(vs: seq<Sextet>)
    requires |vs| % 4 != 1
    ensures Grouped(Text(Standard, vs) + Equals(PadCount(|vs|)))
  {
    var text := Text(Standard, vs) + Equals(PadCount(|vs|));
    forall i | 0 <= i < |vs| ensures Value(text[i]).Some? {
      SymbolValue(Standard, vs[i]);
    }
    assert SymbolsThenPadding(text, |vs|);
  }

  // --------------------------------------------------------------- known answers

  /** The examples of section 10 of RFC 4648. */
  lemma {:induction false} KnownAnswers()
    ensures EncodePadded(Standard, []) == ""
    ensures EncodePadded(Standard, [102]) == "Zg=="
    ensures EncodePadded(Standard, [102, 111]) == "Zm8="
    ensures EncodePadded(Standard, [102, 111, 111]) == "Zm9v"
  {
    assert Sextets([102]) == [25, 32];
    assert Sextets([102, 111]) == [25, 38, 60];
    var foo: seq<Byte> := [102, 111, 111];
    assert foo[3..] == [];
    assert Sextets(foo) == [25, 38, 61, 47] + Sextets([]);
    assert Sextets(foo) == [25, 38, 61, 47];
  }

  /** The last symbols of the two alphabets (sections 4 and 5 of RFC 4648), which tell them apart. */
  lemma {:induction false} AlphabetsDiffer(a: Alphabet, v: Sextet)
    ensures Symbol(a, 62) == (if a == Standard then '+' else '-')
    ensures Symbol(a, 63) == (if a == Standard then '/' else '_')
    ensures v < 62 ==> Symbol(Standard, v) == Symbol(UrlSafe, v)
  {
  }

  /** The decoder skips characters of no alphabet and padding that completes nothing, stops at padding that
      completes a group, and refuses a group that is left open. */
  lemma {:induction false} DecoderTolerance(c: char, rest: string, out: seq<Byte>, left: nat, quad: nat)
    requires quad < 4 && left < 64 && (quad == 2 ==> left < 16) && (quad == 3 ==> left < 4)
    ensures c != '=' && Value(c).None? ==>
              Decode([c] + rest, Decoder(quad, left, 0, out)) == Decode(rest, Decoder(quad, left, 0, out))
    ensures quad < 2 ==> Decode("=" + rest, Decoder(quad, left, 0, out)) == Decode(rest, Decoder(quad, left, 0, out))
    ensures quad == 3 ==> Decode("=" + rest, Decoder(quad, left, 0, out)) == Some(out)
    ensures quad == 2 ==> Decode("==" + rest, Decoder(quad, left, 0, out)) == Some(out)
    ensures Decode("", Decoder(quad, left, 0, out)) == if quad == 0 then Some(out) else None
  {
    assert ([c] + rest)[1..] == rest && ("=" + rest)[1..] == rest && ("==" + rest)[1..] == "=" + rest;
  }
}
