/** Kubernetes resource names derived from identities. */
module ResourceIdentity {
  import opened Sequences
  import opened Bits

  const RESOURCE_HASH_LENGTH := 13
  const KUBERNETES_RESOURCE_ID_LENGTH := 16

  /** The lowercase alphabet of section 6 of RFC 4648. */
  const BASE32 := "abcdefghijklmnopqrstuvwxyz234567"

  datatype ResourceType = Project | Instance | Secret | Credential

  type Digest = d: seq<Byte> | |d| == 32 witness seq(32, _ => 0)

  datatype NameError = EmptyIdentity

  function Prefix(t: ResourceType): string {
    match t
    case Project => "tp" case Instance => "ti" case Secret => "ts" case Credential => "tc"
  }

  predicate NameChar(c: char) {
    'a' <= c <= 'z' || '2' <= c <= '7'
  }

  /** What the shortcut pattern matches. */
  predicate IsCanonical(t: ResourceType, identity: string) {
    && |identity| == KUBERNETES_RESOURCE_ID_LENGTH
    && identity[..3] == Prefix(t) + "-"
    && forall i :: 3 <= i < |identity| ==> NameChar(identity[i])
  }

  /** The symbol written for bits `5 * i` to `5 * i + 4`. */
  function Symbol(d: Digest, i: nat): char
    requires i < RESOURCE_HASH_LENGTH
  {
    FiveBits(d, i);
    BASE32[BitsValue(d, 5 * i, 5 * i + 5)]
  }

  lemma {:induction false} FiveBits(d: Digest, i: nat)
    requires i < RESOURCE_HASH_LENGTH
    ensures BitsValue(d, 5 * i, 5 * i + 5) < 32
  {
    PowersUpTo8();
    BitsBound(d, 5 * i, 5 * i + 5);
  }

  function Symbols(d: Digest, n: nat): (r: string)
    requires n <= RESOURCE_HASH_LENGTH
    ensures |r| == n
    ensures forall i :: 0 <= i < n ==> r[i] == Symbol(d, i)
  {
    if n == 0 then "" else Symbols(d, n - 1) + [Symbol(d, n - 1)]
  }

  function ResourceName(sha256: string -> Digest, t: ResourceType, identity: string): Result<string, NameError> {
    if identity == "" then Err(EmptyIdentity)
    else if IsCanonical(t, identity) then Ok(identity)
    else Ok(Prefix(t) + "-" + Symbols(sha256(identity), RESOURCE_HASH_LENGTH))
  }

  /** Shifting and masking split a number into its upper five bits and the rest. */
  lemma {:induction false} SplitNumber(x: nat, high: nat, low: nat, rest: nat)
    requires high < 32 && low < Pow2(rest) && x == high * Pow2(rest) + low
    ensures BitAnd(ShiftRight(x, rest), 31) == high
    ensures BitAnd(x, Pow2(rest) - 1) == low
  {
    hide BitAnd, Pow2;
    DivMod(x, Pow2(rest), high, low);
    PowersUpTo8();
    MaskIsMod(high, 5);
    MaskIsMod(x, rest);
  }

  /** One pass of the inner loop: the next symbol and the bits that are left. */
  lemma {:induction false} ExtractSymbol(d: Digest, h: nat, j: nat, bits: nat, accumulator: nat)
    requires h < RESOURCE_HASH_LENGTH && j <= 32 && 5 <= bits && bits == 8 * j - 5 * h
    requires accumulator == BitsValue(d, 5 * h, 8 * j)
    ensures BitsValue(d, 5 * h, 5 * h + 5) < 32
    ensures BitAnd(ShiftRight(accumulator, bits - 5), 31) == BitsValue(d, 5 * h, 5 * h + 5)
    ensures ShiftLeft(1, bits - 5) == Pow2(bits - 5)
    ensures BitAnd(accumulator, Pow2(bits - 5) - 1) == BitsValue(d, 5 * h + 5, 8 * j)
    ensures BitsValue(d, 5 * h + 5, 8 * j) < Pow2(bits - 5)
  {
    hide BitsValue, Bit, BitAnd, ShiftRight, Pow2;
    BitsSplit(d, 5 * h, 5 * h + 5, 8 * j);
    BitsBound(d, 5 * h + 5, 8 * j);
    FiveBits(d, h);
    assert 8 * j - (5 * h + 5) == bits - 5;
    SplitNumber(accumulator, BitsValue(d, 5 * h, 5 * h + 5), BitsValue(d, 5 * h + 5, 8 * j), bits - 5);
  }

  /** Taking in the next byte, with at most four bits left over. */
  lemma {:induction false} AbsorbByte(d: Digest, h: nat, j: nat, bits: nat, accumulator: nat)
    requires h < RESOURCE_HASH_LENGTH && j < 32 && bits == 8 * j - 5 * h && bits < 5
    requires accumulator == BitsValue(d, 5 * h, 8 * j)
    ensures BitOr(ShiftLeft(accumulator, 8), d[j]) == BitsValue(d, 5 * h, 8 * j + 8)
    ensures BitsValue(d, 5 * h, 8 * j + 8) < Pow2(bits + 8)
    ensures Pow2(bits + 8) <= 4096
  {
    hide BitsValue, Bit, BitOr, ShiftLeft, Pow2;
    PowersUpTo8();
    FillIsSum(accumulator, 8, d[j]);
    BitsSplit(d, 5 * h, 8 * j, 8 * j + 8);
    WholeByte(d, j);
    BitsBound(d, 5 * h, 8 * j + 8);
    Pow2Sum(bits, 8);
  }

  /** Naming a resource. */
  method KubernetesResourceName(sha256: string -> Digest, t: ResourceType, identity: string)
    returns (r: Result<string, NameError>)
    ensures r == ResourceName(sha256, t, identity)
  {
    if |identity| == 0 {
      return Err(EmptyIdentity);
    }
    if IsCanonical(t, identity) {
      return Ok(identity);
    }
    var hash := HashSymbols(sha256(identity));
    r := Ok(Prefix(t) + "-" + hash);
  }

  /** The outer loop: reads bytes until thirteen symbols are written. The accumulator never needs more
      than twelve bits and holds exactly the bits not yet written. */
  method HashSymbols(digest: Digest) returns (hash: string)
    ensures hash == Symbols(digest, RESOURCE_HASH_LENGTH)
  {
    hide BitAnd, BitOr, ShiftLeft, ShiftRight, BitsValue, Pow2, Symbols;
    var bits, accumulator := 0, 0;
    hash := "";
    var j := 0;
    NothingRead(digest);
    while j < |digest|
      invariant j <= |digest| && |hash| < RESOURCE_HASH_LENGTH
      invariant hash == Symbols(digest, |hash|)
      invariant bits < 5 && bits == 8 * j - 5 * |hash|
      invariant accumulator == BitsValue(digest, 5 * |hash|, 8 * j)
    {
      AbsorbByte(digest, |hash|, j, bits, accumulator);
      accumulator := BitOr(ShiftLeft(accumulator, 8), digest[j]);
      bits := bits + 8;
      assert accumulator < 4096;
      j := j + 1;
      bits, accumulator, hash := ExtractSymbols(digest, j, bits, accumulator, hash);
      if |hash| == RESOURCE_HASH_LENGTH {
        return;
      }
    }
    assert false;
  }

  lemma {:induction false} SymbolsGrow(d: Digest, n: nat)
    requires n < RESOURCE_HASH_LENGTH
    ensures BitsValue(d, 5 * n, 5 * n + 5) < 32
    ensures Symbols(d, n + 1) == Symbols(d, n) + [BASE32[BitsValue(d, 5 * n, 5 * n + 5)]]
  {
    hide BitsValue, Bit;
    FiveBits(d, n);
  }

  /** The body of the inner loop: one symbol is written and its five bits are dropped. */
  method ExtractOne(digest: Digest, j: nat, bits0: nat, accumulator0: nat, hash0: string)
    returns (bits: nat, accumulator: nat, hash: string)
    requires j <= 32 && |hash0| < RESOURCE_HASH_LENGTH
    requires hash0 == Symbols(digest, |hash0|)
    requires 5 <= bits0 && bits0 == 8 * j - 5 * |hash0|
    requires accumulator0 == BitsValue(digest, 5 * |hash0|, 8 * j)
    ensures bits == bits0 - 5 && |hash| == |hash0| + 1
    ensures hash == Symbols(digest, |hash|)
    ensures accumulator == BitsValue(digest, 5 * |hash|, 8 * j) < Pow2(bits)
  {
    hide BitAnd, BitOr, ShiftLeft, ShiftRight, BitsValue, Bit, Pow2, Symbols;
    ExtractSymbol(digest, |hash0|, j, bits0, accumulator0);
    SymbolsGrow(digest, |hash0|);
    bits := bits0 - 5;
    hash := hash0 + [BASE32[BitAnd(ShiftRight(accumulator0, bits), 31)]];
    accumulator := BitAnd(accumulator0, ShiftLeft(1, bits) - 1);
  }

  /** The inner loop: writes symbols while five bits are at hand. */
  method ExtractSymbols(digest: Digest, j: nat, bits0: nat, accumulator0: nat, hash0: string)
    returns (bits: nat, accumulator: nat, hash: string)
    requires 1 <= j <= 32 && |hash0| < RESOURCE_HASH_LENGTH
    requires hash0 == Symbols(digest, |hash0|)
    requires bits0 < 13 && bits0 == 8 * j - 5 * |hash0|
    requires accumulator0 == BitsValue(digest, 5 * |hash0|, 8 * j)
    requires accumulator0 < Pow2(bits0)
    ensures |hash| <= RESOURCE_HASH_LENGTH && hash == Symbols(digest, |hash|)
    ensures bits < 13 && bits == 8 * j - 5 * |hash| && (bits < 5 || |hash| == RESOURCE_HASH_LENGTH)
    ensures accumulator == BitsValue(digest, 5 * |hash|, 8 * j)
  {
    hide BitAnd, BitOr, ShiftLeft, ShiftRight, BitsValue, Pow2;
    bits, accumulator, hash := bits0, accumulator0, hash0;
    while bits >= 5 && |hash| < RESOURCE_HASH_LENGTH
      invariant |hash| <= RESOURCE_HASH_LENGTH && bits < 13
      invariant bits == 8 * j - 5 * |hash|
      invariant accumulator == BitsValue(digest, 5 * |hash|, 8 * j)
      invariant accumulator < Pow2(bits)
      invariant hash == Symbols(digest, |hash|)
    {
      bits, accumulator, hash := ExtractOne(digest, j, bits, accumulator, hash);
    }
  }

  lemma {:induction false} NothingRead(d: Digest)
    ensures BitsValue(d, 0, 0) == 0 && Symbols(d, 0) == ""
  {
  }

  // ------------------------------------------------------------- consequences

  lemma {:induction false} SymbolIsNameChar(d: Digest, i: nat)
    requires i < RESOURCE_HASH_LENGTH
    ensures NameChar(Symbol(d, i))
  {
    FiveBits(d, i);
    AlphabetIsNameChars(BitsValue(d, 5 * i, 5 * i + 5));
  }

  lemma {:induction false} AlphabetIsNameChars(v: nat)
    requires v < 32
    ensures NameChar(BASE32[v])
  {
    assert forall k :: 0 <= k < 32 ==> NameChar(BASE32[k]);
  }

  lemma {:induction false} AlphabetValue(v: nat)
    requires v < 32
    ensures BASE32[v] as int == if v < 26 then 'a' as int + v else '2' as int + (v - 26)
  {
  }

  lemma {:induction false} AlphabetIsInjective(v: nat, w: nat)
    requires v < 32 && w < 32 && BASE32[v] == BASE32[w]
    ensures v == w
  {
    AlphabetValue(v);
    AlphabetValue(w);
  }

  lemma {:induction false} HashedNameIsCanonical(d: Digest, t: ResourceType)
    ensures IsCanonical(t, Prefix(t) + "-" + Symbols(d, RESOURCE_HASH_LENGTH))
  {
    hide Symbols, Symbol, NameChar;
    var hash := Symbols(d, RESOURCE_HASH_LENGTH);
    var name := Prefix(t) + "-" + hash;
    assert name[..3] == Prefix(t) + "-";
    forall i | 3 <= i < |name| ensures NameChar(name[i]) {
      assert name[i] == hash[i - 3];
      SymbolIsNameChar(d, i - 3);
    }
  }

  /** A name is a canonical identifier of its type. */
  lemma {:induction false} NamesAreCanonical(sha256: string -> Digest, t: ResourceType, identity: string)
    requires identity != ""
    ensures ResourceName(sha256, t, identity).Ok? && IsCanonical(t, ResourceName(sha256, t, identity).value)
  {
    hide Symbols, Symbol, NameChar;
    if !IsCanonical(t, identity) {
      HashedNameIsCanonical(sha256(identity), t);
    }
  }

  /** Naming is idempotent for each type. */
  lemma {:induction false} NamingIsIdempotent(sha256: string -> Digest, t: ResourceType, identity: string)
    requires identity != ""
    ensures var name := ResourceName(sha256, t, identity).value;
            ResourceName(sha256, t, name) == Ok(name)
  {
    NamesAreCanonical(sha256, t, identity);
  }

  /** Resources of different types never share a name. */
  lemma {:induction false} TypesKeepApart(
    sha256: string -> Digest, t: ResourceType, u: ResourceType, identity: string, other: string)
    requires identity != "" && other != "" && t != u
    ensures ResourceName(sha256, t, identity) != ResourceName(sha256, u, other)
  {
    NamesAreCanonical(sha256, t, identity);
    NamesAreCanonical(sha256, u, other);
    assert (Prefix(t) + "-")[1] != (Prefix(u) + "-")[1];
  }

  ghost predicate SameLeadingBits(a: Digest, b: Digest) {
    forall k :: 0 <= k < 65 ==> Bit(a, k) == Bit(b, k)
  }

  lemma {:induction false} SymbolsIffBits(a: Digest, b: Digest, n: nat)
    requires n <= RESOURCE_HASH_LENGTH
    ensures Symbols(a, n) == Symbols(b, n) <==> forall k :: 0 <= k < 5 * n ==> Bit(a, k) == Bit(b, k)
  {
    hide Bit, BitsValue;
    if n > 0 {
      SymbolsIffBits(a, b, n - 1);
      var i := n - 1;
      BitsInjective(a, b, 5 * i, 5 * i + 5);
      FiveBits(a, i);
      FiveBits(b, i);
      if Symbol(a, i) == Symbol(b, i) {
        AlphabetIsInjective(BitsValue(a, 5 * i, 5 * i + 5), BitsValue(b, 5 * i, 5 * i + 5));
      }
      if Symbols(a, n) == Symbols(b, n) {
        assert Symbols(a, n)[i] == Symbols(b, n)[i];
        assert Symbols(a, n)[..i] == Symbols(a, i) && Symbols(b, n)[..i] == Symbols(b, i);
      }
    }
  }

  /** Two hashed identities share a name exactly when their digests agree in the first 65 bits. */
  lemma {:induction false} SharedNameIffSharedBits(
    sha256: string -> Digest, t: ResourceType, identity: string, other: string)
    requires identity != "" && other != "" && !IsCanonical(t, identity) && !IsCanonical(t, other)
    ensures ResourceName(sha256, t, identity) == ResourceName(sha256, t, other)
            <==> SameLeadingBits(sha256(identity), sha256(other))
  {
    SymbolsIffBits(sha256(identity), sha256(other), RESOURCE_HASH_LENGTH);
    var a, b := Symbols(sha256(identity), RESOURCE_HASH_LENGTH), Symbols(sha256(other), RESOURCE_HASH_LENGTH);
    var head := Prefix(t) + "-";
    assert (head + a)[|head|..] == a && (head + b)[|head|..] == b;
  }

  // ------------------------------------------------------------------- the shortcut

  function PrefixText(t: ResourceType): string {
    match t
    case Project => "tp-"
    case Instance => "ti-"
    case Secret => "ts-"
    case Credential => "tc-"
  }

  /** A canonical identifier is the prefix of its type and thirteen symbols of the alphabet. */
  lemma {:induction false} CanonicalIff(t: ResourceType, identity: string)
    ensures IsCanonical(t, identity)
            <==> && |identity| == 16 && identity[..3] == PrefixText(t)
                 && forall i :: 3 <= i < 16 ==> identity[i] in BASE32
  {
    forall c: char ensures NameChar(c) <==> c in BASE32 {
      NameCharIff(c);
    }
    assert Prefix(t) + "-" == PrefixText(t);
  }

  lemma {:induction false} NameCharIff(c: char)
    ensures NameChar(c) <==> c in BASE32
  {
    if NameChar(c) {
      var v := if c >= 'a' then c as int - 'a' as int else c as int - '2' as int + 26;
      AlphabetValue(v);
    }
    if v :| 0 <= v < 32 && BASE32[v] == c {
      AlphabetIsNameChars(v);
    }
  }

  /** What a resource is called: an empty identity is refused, a canonical one is its own name, and any other is
      named by its type and symbols `i` that index bits `5i` to `5i + 4` of its digest. */
  lemma {:induction false} NameIs(sha256: string -> Digest, t: ResourceType, identity: string)
    ensures ResourceName(sha256, t, identity).Err? <==> identity == ""
    ensures IsCanonical(t, identity) ==> ResourceName(sha256, t, identity) == Ok(identity)
    ensures identity != "" && !IsCanonical(t, identity) ==>
              var name := ResourceName(sha256, t, identity).value;
              && |name| == 16 && name[..3] == PrefixText(t)
              && forall i :: 0 <= i < 13 ==>
                   var v := BitsValue(sha256(identity), 5 * i, 5 * i + 5);
                   v < 32 && name[3 + i] == BASE32[v]
  {
    hide Symbols, BitsValue, NameChar;
    if identity != "" && !IsCanonical(t, identity) {
      var d := sha256(identity);
      var name := ResourceName(sha256, t, identity).value;
      assert name == PrefixText(t) + Symbols(d, RESOURCE_HASH_LENGTH);
      forall i | 0 <= i < 13
        ensures BitsValue(d, 5 * i, 5 * i + 5) < 32 && name[3 + i] == BASE32[BitsValue(d, 5 * i, 5 * i + 5)]
      {
        FiveBits(d, i);
        assert name[3 + i] == Symbols(d, RESOURCE_HASH_LENGTH)[i] == Symbol(d, i);
      }
    }
  }
}
