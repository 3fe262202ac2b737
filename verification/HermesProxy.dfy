/** Access tokens that are exchanged once for a session, and the clock they live by. */
module HermesProxy {
  import opened Sequences
  import opened Bits
  import opened Base64
  import WhiteSpace

  const ACCESS_QUERY := "access_token"
  const AUDIENCE := "tali-hermes-dashboard"
  const MAX_ACCESS_LIFETIME_SECONDS := 15 * 60
  const SESSION_LIFETIME_SECONDS := 4 * 60 * 60
  const CLOCK_SKEW_SECONDS := 30
  const TOKEN_TTL_SECONDS := 5 * 60

  datatype Claims = Claims(aud: string, exp: int, iat: int, jti: string, sub: string, typ: string)

  /** The keyed hash and the JSON codec. `load` fails on anything but an object whose claims
      have the expected types. */
  datatype Crypto = Crypto(
    hmac: (string, string) -> seq<Byte>,
    dump: Claims -> seq<Byte>,
    load: seq<Byte> -> Option<Claims>)

  ghost predicate CodecWorks(crypto: Crypto) {
    forall c :: crypto.load(crypto.dump(c)) == Some(c)
  }

  // ---------------------------------------------------------------- verifying

  /** The position of the first dot, or the length of the text. */
  function DotIndex(token: string): (k: nat)
    ensures k <= |token|
    ensures k < |token| ==> token[k] == '.'
    ensures forall i :: 0 <= i < k ==> token[i] != '.'
  {
    if token == [] || token[0] == '.' then 0 else 1 + DotIndex(token[1..])
  }

  function Maximum(typ: string): int {
    if typ == "access" then MAX_ACCESS_LIFETIME_SECONDS else SESSION_LIFETIME_SECONDS
  }

  predicate ClaimsHold(c: Claims, typ: string, now: int) {
    && c.aud == AUDIENCE && c.typ == typ
    && c.iat <= now + CLOCK_SKEW_SECONDS && c.exp >= now
    && 1 <= c.exp - c.iat <= Maximum(typ)
  }

  function Verify(crypto: Crypto, secret: string, token: string, typ: string, now: int): Option<Claims> {
    var k := DotIndex(token);
    if k == |token| then None
    else
      var encoded, supplied := token[..k], token[k + 1..];
      if !Ascii(encoded) then None
      else if DecodeUrlSafe(supplied) != Some(crypto.hmac(secret, encoded)) then None
      else
        match DecodeUrlSafe(encoded)
        case None => None
        case Some(bytes) =>
          match crypto.load(bytes)
          case None => None
          case Some(claims) => if ClaimsHold(claims, typ, now) then Some(claims) else None
  }

  function SignedToken(crypto: Crypto, secret: string, claims: Claims): string {
    var encoded := Encode(UrlSafe, crypto.dump(claims));
    encoded + "." + Encode(UrlSafe, crypto.hmac(secret, encoded))
  }

  lemma {:induction false} DotFollows(a: string, b: string)
    requires forall i :: 0 <= i < |a| ==> a[i] != '.'
    ensures DotIndex(a + "." + b) == |a|
    ensures (a + "." + b)[..|a|] == a && (a + "." + b)[|a| + 1..] == b
  {
    var token := a + "." + b;
    var k := DotIndex(token);
    assert token[|a|] == '.';
    assert forall i :: 0 <= i < |a| ==> token[i] == a[i];
  }

  /** The supplied signature belongs to the payload text under the secret. */
  ghost predicate SignedBy(crypto: Crypto, secret: string, encoded: string, supplied: string) {
    DecodeUrlSafe(supplied) == Some(crypto.hmac(secret, encoded))
  }

  /** What the claims must say at time `now`: this audience, the type asked for, not issued more than 30
      seconds ahead, not expired, and a lifetime of at most 15 minutes for access and 4 hours otherwise. */
  ghost predicate GoodClaims(c: Claims, typ: string, now: int) {
    && c.aud == "tali-hermes-dashboard" && c.typ == typ
    && c.iat - 30 <= now <= c.exp
    && c.iat < c.exp <= c.iat + (if typ == "access" then 900 else 14_400)
  }

  /** A token verifies with claims if and only if it is a payload text without dots, a dot and a signature
      text of that payload under the secret, the payload decodes to those claims, and they are good. */
  lemma {:induction false} VerifiesIff(
    crypto: Crypto, secret: string, token: string, typ: string, now: int, c: Claims)
    ensures Verify(crypto, secret, token, typ, now) == Some(c)
            <==> exists encoded, supplied ::
                   && token == encoded + "." + supplied && Ascii(encoded) && '.' !in encoded
                   && SignedBy(crypto, secret, encoded, supplied)
                   && DecodeUrlSafe(encoded).Some? && crypto.load(DecodeUrlSafe(encoded).value) == Some(c)
                   && GoodClaims(c, typ, now)
  {
    hide DecodeUrlSafe, Ascii;
    var k := DotIndex(token);
    if k < |token| {
      var a, b := token[..k], token[k + 1..];
      assert token == a + "." + b && '.' !in a;
    }
    if encoded, supplied :|
      && token == encoded + "." + supplied && Ascii(encoded) && '.' !in encoded
      && SignedBy(crypto, secret, encoded, supplied)
      && DecodeUrlSafe(encoded).Some? && crypto.load(DecodeUrlSafe(encoded).value) == Some(c)
      && GoodClaims(c, typ, now)
    {
      DotFollows(encoded, supplied);
    }
  }

  /** Whatever a payload claims, with a signature text that is not one of that payload it is refused. */
  lemma {:induction false} ForgedIsRefused(
    crypto: Crypto, secret: string, encoded: string, supplied: string, typ: string, now: int)
    requires '.' !in encoded && !SignedBy(crypto, secret, encoded, supplied)
    ensures Verify(crypto, secret, encoded + "." + supplied, typ, now) == None
  {
    hide DecodeUrlSafe, Ascii;
    DotFollows(encoded, supplied);
  }

  /** A signed token verifies exactly when its claims hold, and gives back its claims. */
  lemma {:induction false} SignedTokenVerifies(crypto: Crypto, secret: string, claims: Claims, typ: string, now: int)
    requires CodecWorks(crypto)
    ensures Verify(crypto, secret, SignedToken(crypto, secret, claims), typ, now)
         == if ClaimsHold(claims, typ, now) then Some(claims) else None
  {
    hide ClaimsHold, DecodeUrlSafe, Encode;
    var encoded := Encode(UrlSafe, crypto.dump(claims));
    var signature := crypto.hmac(secret, encoded);
    EncodingIsUrlSafe(crypto.dump(claims));
    assert forall i :: 0 <= i < |encoded| ==> UrlSafeChar(encoded[i]) && encoded[i] != '.' && encoded[i] < '\U{80}';
    DotFollows(encoded, Encode(UrlSafe, signature));
    UrlSafeRoundTrip(signature);
    UrlSafeRoundTrip(crypto.dump(claims));
  }

  // ------------------------------------------------------------------ issuing

  datatype IssueError = WeakSecret | InvalidUrl

  function AccessClaims(crypto: Crypto, key: string, subject: string, nowMs: nat, nonce: string): Claims {
    var issuedAt := nowMs / 1000;
    Claims(AUDIENCE, issuedAt + TOKEN_TTL_SECONDS, issuedAt, nonce,
           Encode(UrlSafe, crypto.hmac(key, "subject" + ['\0'] + subject)), "access")
  }

  function AccessToken(crypto: Crypto, key: string, subject: string, nowMs: nat, nonce: string): string {
    SignedToken(crypto, key, AccessClaims(crypto, key, subject, nowMs, nonce))
  }

  datatype Parameter = Parameter(name: string, value: string)

  /** A URL with its decoded query parameters. */
  datatype Url = Url(location: string, query: seq<Parameter>, fragment: string)

  /** Reading and writing of URLs. Not every text is one. */
  datatype Urls = Urls(parse: string -> Option<Url>, write: Url -> string)

  /** A URL that was read is read back as it is written, whatever its query has become. */
  ghost predicate UrlsWork(urls: Urls) {
    forall text, query :: urls.parse(text).Some? ==>
      var u := urls.parse(text).value.(query := query);
      urls.parse(urls.write(u)) == Some(u)
  }

  /** The first value of a parameter. */
  function ValueOf(query: seq<Parameter>, name: string): Option<string> {
    if query == [] then None
    else if query[0].name == name then Some(query[0].value)
    else ValueOf(query[1..], name)
  }

  function Others(query: seq<Parameter>, name: string): seq<Parameter> {
    Filter((p: Parameter) => p.name != name, query)
  }

  /** The value read is that of the first parameter with the name. */
  lemma {:induction false} ValueIsFirst(query: seq<Parameter>, name: string, value: string)
    ensures ValueOf(query, name) == Some(value)
            <==> exists k :: && 0 <= k < |query| && query[k] == Parameter(name, value)
                             && forall i :: 0 <= i < k ==> query[i].name != name
  {
    if query != [] {
      var rest := query[1..];
      ValueIsFirst(rest, name, value);
      assert forall i :: 0 < i < |query| ==> query[i] == rest[i - 1];
      assert forall i :: 0 <= i < |rest| ==> rest[i] == query[i + 1];
      if query[0].name != name {
        if k :| && 0 <= k < |rest| && rest[k] == Parameter(name, value)
                && forall i :: 0 <= i < k ==> rest[i].name != name {
          assert query[k + 1] == Parameter(name, value);
        }
        if k :| && 0 <= k < |query| && query[k] == Parameter(name, value)
                && forall i :: 0 <= i < k ==> query[i].name != name {
          assert rest[k - 1] == Parameter(name, value);
        }
      }
    }
  }

  /** Setting a parameter replaces its first occurrence and drops the rest, or adds it at the end. */
  function SetParameter(query: seq<Parameter>, name: string, value: string): seq<Parameter> {
    if query == [] then [Parameter(name, value)]
    else if query[0].name == name then [Parameter(name, value)] + Others(query[1..], name)
    else [query[0]] + SetParameter(query[1..], name, value)
  }

  /** The parameter has the value that was set, once, and all others are as before. */
  lemma {:induction false} SetParameterReads(query: seq<Parameter>, name: string, value: string)
    ensures var r := SetParameter(query, name, value);
            && ValueOf(r, name) == Some(value)
            && Others(r, name) == Others(query, name)
            && |r| == |Others(query, name)| + 1
  {
    var one := [Parameter(name, value)];
    assert one[1..] == [];
    if query != [] {
      var rest := query[1..];
      if query[0].name == name {
        var r := one + Others(rest, name);
        assert r[1..] == Others(rest, name);
        OthersTwice(rest, name);
      } else {
        SetParameterReads(rest, name, value);
        assert ([query[0]] + SetParameter(rest, name, value))[1..] == SetParameter(rest, name, value);
      }
    }
  }

  lemma {:induction false} OthersTwice(query: seq<Parameter>, name: string)
    ensures Others(Others(query, name), name) == Others(query, name)
  {
    if query != [] {
      OthersTwice(query[1..], name);
      if query[0].name != name {
        assert Others(query, name)[1..] == Others(query[1..], name);
      }
    }
  }

  /** It stands where the first parameter of that name stood, or at the end. */
  lemma {:induction false} SetParameterPlace(query: seq<Parameter>, name: string, value: string, k: nat)
    requires k <= |query| && (forall i :: 0 <= i < k ==> query[i].name != name)
    requires k < |query| ==> query[k].name == name
    ensures SetParameter(query, name, value)
         == query[..k] + [Parameter(name, value)] + (if k < |query| then Others(query[k + 1..], name) else [])
  {
    if k > 0 {
      var rest := query[1..];
      SetParameterPlace(rest, name, value, k - 1);
      assert query[..k] == [query[0]] + rest[..k - 1];
      assert k < |query| ==> rest[k..] == query[k + 1..];
    }
  }

  /** The dashboard URL with its token. */
  function TokenizedUrl(
    crypto: Crypto, urls: Urls, endpoint: string, secret: string, subject: string, nowMs: nat, nonce: string)
    : Result<string, IssueError>
  {
    var key := WhiteSpace.Trim(secret);
    if |key| < 32 then Err(WeakSecret)
    else
      var token := AccessToken(crypto, key, subject, nowMs, nonce);
      match urls.parse(endpoint)
      case None => Err(InvalidUrl)
      case Some(url) => Ok(urls.write(url.(query := SetParameter(url.query, ACCESS_QUERY, token))))
  }

  /** The token is good for access, and for nothing else, from 30 seconds before `issuedAt` to 5 minutes
      after it, and carries the nonce and a keyed hash of the subject. */
  ghost predicate TokenHasWindow(
    crypto: Crypto, key: string, token: string, subject: string, issuedAt: int, nonce: string, now: int)
  {
    var read := Verify(crypto, key, token, "access", now);
    && (read.Some? <==> issuedAt - 30 <= now <= issuedAt + 300)
    && (read.Some? ==>
          read.value == Claims("tali-hermes-dashboard", issuedAt + 300, issuedAt, nonce,
                               Encode(UrlSafe, crypto.hmac(key, "subject" + ['\0'] + subject)), "access"))
    && Verify(crypto, key, token, "session", now).None?
  }

  /** A dashboard URL is refused for a short secret or an endpoint that is no URL. Otherwise only the
      token parameter changes, and the token read from it verifies as access exactly within its validity
      window and never as a session, for whoever holds the same secret up to space around it. */
  lemma {:induction false} IssuedTokenWindow(
    crypto: Crypto, urls: Urls, endpoint: string, key: string, before: string, after: string,
    subject: string, nowMs: nat, nonce: string, now: int)
    requires CodecWorks(crypto) && UrlsWork(urls)
    requires WhiteSpace.Tight(key) && WhiteSpace.Blank(before) && WhiteSpace.Blank(after)
    ensures match TokenizedUrl(crypto, urls, endpoint, before + key + after, subject, nowMs, nonce)
      case Err(WeakSecret) => |key| < 32
      case Err(InvalidUrl) => |key| >= 32 && urls.parse(endpoint).None?
      case Ok(text) =>
        && |key| >= 32 && urls.parse(endpoint).Some? && urls.parse(text).Some?
        && var url, issued := urls.parse(endpoint).value, urls.parse(text).value;
           var token := ValueOf(issued.query, ACCESS_QUERY);
           && issued.location == url.location && issued.fragment == url.fragment
           && Others(issued.query, ACCESS_QUERY) == Others(url.query, ACCESS_QUERY)
           && token.Some? && TokenHasWindow(crypto, key, token.value, subject, nowMs / 1000, nonce, now)
  {
    WhiteSpace.TrimDropsSpace(before, key, after);
    var token := AccessToken(crypto, key, subject, nowMs, nonce);
    if urls.parse(endpoint).Some? {
      SetParameterReads(urls.parse(endpoint).value.query, ACCESS_QUERY, token);
    }
    hide Verify, SignedToken, SetParameter, ValueOf, Others;
    SignedTokenVerifies(crypto, key, AccessClaims(crypto, key, subject, nowMs, nonce), "access", now);
    SignedTokenVerifies(crypto, key, AccessClaims(crypto, key, subject, nowMs, nonce), "session", now);
    assert |"access"| != |"session"|;
  }

  /** No character of a token needs escaping in a query, so that it is read as it was written. */
  lemma {:induction false} EncodedTokenIsQuerySafe(crypto: Crypto, secret: string, claims: Claims)
    ensures forall i :: 0 <= i < |SignedToken(crypto, secret, claims)| ==>
      UrlSafeChar(SignedToken(crypto, secret, claims)[i]) || SignedToken(crypto, secret, claims)[i] == '.'
  {
    hide Encode;
    var encoded := Encode(UrlSafe, crypto.dump(claims));
    EncodingIsUrlSafe(crypto.dump(claims));
    EncodingIsUrlSafe(crypto.hmac(secret, encoded));
  }

  // ---------------------------------------------------------------- exchanging

  /** What pruning at `now` leaves. */
  function Pruned(redeemed: map<string, int>, now: int): map<string, int> {
    map nonce | nonce in redeemed && redeemed[nonce] >= now :: redeemed[nonce]
  }

  function SessionClaims(sub: string, now: int, nonce: string): Claims {
    Claims(AUDIENCE, now + SESSION_LIFETIME_SECONDS, now, nonce, sub, "session")
  }

  /** The replay table after an exchange, and the session minted for it. `verifiedAt` and `now`
      are the two readings of the clock that an exchange makes. */
  function Exchange(
    crypto: Crypto, secret: string, redeemed: map<string, int>, token: string, verifiedAt: int, now: int,
    sessionNonce: string)
    : (map<string, int>, Option<string>)
  {
    match Verify(crypto, secret, token, "access", verifiedAt)
    case None => (redeemed, None)
    case Some(claims) =>
      var pruned := Pruned(redeemed, now);
      if claims.jti in pruned then (pruned, None)
      else
        (pruned[claims.jti := claims.exp],
         Some(SignedToken(crypto, secret, SessionClaims(claims.sub, now, sessionNonce))))
  }

  /** An exchange mints a session if and only if the token verifies as access and its nonce is not in the
      table with an expiry that is still to come. The session carries the subject of the token, a nonce of its
      own and four hours from now; the table keeps what has not expired and remembers the token. */
  lemma {:induction false} ExchangeMintsIff(
    crypto: Crypto, secret: string, redeemed: map<string, int>, token: string,
    verifiedAt: int, now: int, sessionNonce: string)
    ensures var c := Verify(crypto, secret, token, "access", verifiedAt);
            var minted := Exchange(crypto, secret, redeemed, token, verifiedAt, now, sessionNonce).1;
            var unspent := c.Some? && !(c.value.jti in redeemed && redeemed[c.value.jti] >= now);
            && (minted.Some? <==> unspent)
            && (unspent ==> minted.value == SignedToken(crypto, secret,
                            Claims("tali-hermes-dashboard", now + 14_400, now, sessionNonce, c.value.sub, "session")))
  {
  }

  lemma {:induction false} ExchangeTable(
    crypto: Crypto, secret: string, redeemed: map<string, int>, token: string,
    verifiedAt: int, now: int, sessionNonce: string, nonce: string)
    ensures var c := Verify(crypto, secret, token, "access", verifiedAt);
            var r := Exchange(crypto, secret, redeemed, token, verifiedAt, now, sessionNonce);
            && (c.None? ==> r.0 == redeemed)
            && (c.Some? ==>
                  if r.1.Some? && nonce == c.value.jti then nonce in r.0 && r.0[nonce] == c.value.exp
                  else && (nonce in r.0 <==> nonce in redeemed && redeemed[nonce] >= now)
                       && (nonce in r.0 ==> r.0[nonce] == redeemed[nonce]))
  {
    hide Verify, SignedToken;
  }

  /** Nothing is minted for a forged token, and the table stays as it is. */
  lemma {:induction false} ForgedIsNotExchanged(
    crypto: Crypto, secret: string, redeemed: map<string, int>, encoded: string, supplied: string,
    verifiedAt: int, now: int, sessionNonce: string)
    requires '.' !in encoded && !SignedBy(crypto, secret, encoded, supplied)
    ensures Exchange(crypto, secret, redeemed, encoded + "." + supplied, verifiedAt, now, sessionNonce)
         == (redeemed, None)
  {
    hide Verify;
    ForgedIsRefused(crypto, secret, encoded, supplied, "access", verifiedAt);
  }

  class ProxyState {
    const crypto: Crypto
    const secret: string
    var redeemed: map<string, int>

    constructor (crypto: Crypto, secret: string)
      ensures this.crypto == crypto && this.secret == secret && redeemed == map[]
    {
      this.crypto, this.secret, redeemed := crypto, secret, map[];
    }

    method ExchangeToken(
      token: string, verifiedAt: int, now: int, sessionNonce: string) returns (session: Option<string>)
      modifies this`redeemed
      ensures (redeemed, session) == Exchange(crypto, secret, old(redeemed), token, verifiedAt, now, sessionNonce)
    {
      var payload := Verify(crypto, secret, token, "access", verifiedAt);
      if payload.None? {
        return None;
      }
      redeemed := map nonce | nonce in redeemed && redeemed[nonce] >= now :: redeemed[nonce];
      var nonce := payload.value.jti;
      if nonce in redeemed {
        return None;
      }
      redeemed := redeemed[nonce := payload.value.exp];
      session := Some(SignedToken(crypto, secret, SessionClaims(payload.value.sub, now, sessionNonce)));
    }
  }

  /** A session minted by an exchange verifies as a session until it expires, and never as access. */
  lemma {:induction false} MintedSessionWindow(
    crypto: Crypto, secret: string, redeemed: map<string, int>, token: string,
    verifiedAt: int, now: int, sessionNonce: string, t: int)
    requires CodecWorks(crypto)
    requires Exchange(crypto, secret, redeemed, token, verifiedAt, now, sessionNonce).1.Some?
    ensures var session := Exchange(crypto, secret, redeemed, token, verifiedAt, now, sessionNonce).1.value;
            && (Verify(crypto, secret, session, "session", t).Some?
                <==> now - 30 <= t <= now + 14_400)
            && Verify(crypto, secret, session, "access", t).None?
  {
    hide Verify, SignedToken;
    var claims := Verify(crypto, secret, token, "access", verifiedAt).value;
    SignedTokenVerifies(crypto, secret, SessionClaims(claims.sub, now, sessionNonce), "session", t);
    SignedTokenVerifies(crypto, secret, SessionClaims(claims.sub, now, sessionNonce), "access", t);
    assert |"access"| != |"session"|;
  }

  lemma {:induction false} VerifiedClaimsHold(crypto: Crypto, secret: string, token: string, typ: string, now: int)
    ensures var r := Verify(crypto, secret, token, typ, now); r.Some? ==> ClaimsHold(r.value, typ, now)
  {
  }

  /** Whether a token verifies depends on the time only through its claims. */
  lemma {:induction false} SameClaimsLater(crypto: Crypto, secret: string, token: string, typ: string, t: int, u: int)
    requires Verify(crypto, secret, token, typ, t).Some?
    ensures var c := Verify(crypto, secret, token, typ, t).value;
            Verify(crypto, secret, token, typ, u) == if ClaimsHold(c, typ, u) then Some(c) else None
  {
  }

  // ---------------------------------------------------------------------- runs

  datatype Attempt = Attempt(token: string, verifiedAt: int, now: int, sessionNonce: string)

  /** The clock never goes back, neither within an exchange nor from one to the next. */
  predicate ClockAdvances(run: seq<Attempt>, since: int)
    decreases |run|
  {
    run != [] ==> since <= run[0].verifiedAt <= run[0].now && ClockAdvances(run[1..], run[0].now)
  }

  predicate ReadingsAgree(run: seq<Attempt>) {
    forall i :: 0 <= i < |run| ==> run[i].verifiedAt == run[i].now
  }

  function Step(
    crypto: Crypto, secret: string, redeemed: map<string, int>, a: Attempt): (map<string, int>, Option<string>) {
    Exchange(crypto, secret, redeemed, a.token, a.verifiedAt, a.now, a.sessionNonce)
  }

  /** The claims that `a` presents, if it is accepted in this state. */
  function Redeems(crypto: Crypto, secret: string, redeemed: map<string, int>, a: Attempt): Option<Claims> {
    if Step(crypto, secret, redeemed, a).1.Some? then Verify(crypto, secret, a.token, "access", a.verifiedAt) else None
  }

  /** How often a run accepts a token with these claims. */
  function Redemptions(crypto: Crypto, secret: string, redeemed: map<string, int>, run: seq<Attempt>, c: Claims): nat
    decreases |run|
  {
    if run == [] then 0
    else
      (if Redeems(crypto, secret, redeemed, run[0]) == Some(c) then 1 else 0)
      + Redemptions(crypto, secret, Step(crypto, secret, redeemed, run[0]).0, run[1..], c)
  }

  /** `c` can no longer be accepted: it is in the table, or has expired by `since`. */
  predicate Spent(redeemed: map<string, int>, c: Claims, since: int) {
    c.exp < since || (c.jti in redeemed && redeemed[c.jti] >= c.exp)
  }

  /** Pruning drops only entries whose tokens have expired; all others keep their expiry. */
  lemma {:induction false} PrunedEntries(redeemed: map<string, int>, now: int, nonce: string)
    ensures nonce in Pruned(redeemed, now) <==> nonce in redeemed && redeemed[nonce] >= now
    ensures nonce in Pruned(redeemed, now) ==> Pruned(redeemed, now)[nonce] == redeemed[nonce]
  {
  }

  /** An entry that pruning at `now` drops belongs to a token that verification rejects from then on. */
  lemma {:induction false} PrunedTokensAreRejected(
    crypto: Crypto, secret: string, redeemed: map<string, int>, token: string, c: Claims, t: int, now: int, later: int)
    requires Verify(crypto, secret, token, "access", t) == Some(c)
    requires c.jti in redeemed && redeemed[c.jti] == c.exp && c.jti !in Pruned(redeemed, now) && now <= later
    ensures Verify(crypto, secret, token, "access", later).None?
  {
    PrunedEntries(redeemed, now, c.jti);
    SameClaimsLater(crypto, secret, token, "access", t, later);
  }

  lemma {:induction false} StepKeepsSpent(
    crypto: Crypto, secret: string, redeemed: map<string, int>, a: Attempt, c: Claims, since: int)
    requires since <= a.verifiedAt <= a.now && Spent(redeemed, c, since)
    ensures Spent(Step(crypto, secret, redeemed, a).0, c, a.now)
  {
    hide Verify, SignedToken;
    VerifiedClaimsHold(crypto, secret, a.token, "access", a.verifiedAt);
    PrunedEntries(redeemed, a.now, c.jti);
  }

  /** Spent claims are accepted again exactly when the clock passes their expiry between the two
      readings and no later entry with their nonce is left. */
  lemma {:induction false} SpentIsAcceptedIff(
    crypto: Crypto, secret: string, redeemed: map<string, int>, a: Attempt, c: Claims, since: int)
    requires since <= a.verifiedAt <= a.now && Spent(redeemed, c, since)
    requires Verify(crypto, secret, a.token, "access", a.verifiedAt) == Some(c)
    ensures Redeems(crypto, secret, redeemed, a) == Some(c)
            <==> a.verifiedAt <= c.exp < a.now && redeemed[c.jti] < a.now
  {
    hide Verify, SignedToken;
    VerifiedClaimsHold(crypto, secret, a.token, "access", a.verifiedAt);
    PrunedEntries(redeemed, a.now, c.jti);
  }

  lemma {:induction false} AcceptedIsSpent(
    crypto: Crypto, secret: string, redeemed: map<string, int>, a: Attempt, c: Claims)
    requires Redeems(crypto, secret, redeemed, a) == Some(c)
    ensures Spent(Step(crypto, secret, redeemed, a).0, c, a.now)
  {
    hide Verify, SignedToken;
  }

  lemma {:induction false} SpentStaysUnaccepted(
    crypto: Crypto, secret: string, redeemed: map<string, int>, run: seq<Attempt>, c: Claims, since: int)
    requires ClockAdvances(run, since) && ReadingsAgree(run) && Spent(redeemed, c, since)
    ensures Redemptions(crypto, secret, redeemed, run, c) == 0
    decreases |run|
  {
    hide Step, Spent;
    if run != [] {
      var a := run[0];
      StepKeepsSpent(crypto, secret, redeemed, a, c, since);
      if Redeems(crypto, secret, redeemed, a) == Some(c) {
        RedeemedWasVerified(crypto, secret, redeemed, a, c);
        SpentIsAcceptedIff(crypto, secret, redeemed, a, c, since);
      }
      assert forall i :: 0 <= i < |run[1..]| ==> run[1..][i] == run[i + 1];
      SpentStaysUnaccepted(crypto, secret, Step(crypto, secret, redeemed, a).0, run[1..], c, a.now);
    }
  }

  lemma {:induction false} RedeemedWasVerified(
    crypto: Crypto, secret: string, redeemed: map<string, int>, a: Attempt, c: Claims)
    requires Redeems(crypto, secret, redeemed, a) == Some(c)
    ensures Verify(crypto, secret, a.token, "access", a.verifiedAt) == Some(c)
  {
  }

  /** Over every run with an advancing clock whose two readings agree in each exchange, the
      claims of a token are redeemed at most once, whatever the table held before. */
  lemma {:induction false} RedeemedAtMostOnce(
    crypto: Crypto, secret: string, redeemed: map<string, int>, run: seq<Attempt>, c: Claims, since: int)
    requires ClockAdvances(run, since) && ReadingsAgree(run)
    ensures Redemptions(crypto, secret, redeemed, run, c) <= 1
    decreases |run|
  {
    hide Step, Spent, Redeems;
    if run != [] {
      var a := run[0];
      var after := Step(crypto, secret, redeemed, a).0;
      assert forall i :: 0 <= i < |run[1..]| ==> run[1..][i] == run[i + 1];
      if Redeems(crypto, secret, redeemed, a) == Some(c) {
        AcceptedIsSpent(crypto, secret, redeemed, a, c);
        SpentStaysUnaccepted(crypto, secret, after, run[1..], c, a.now);
      } else {
        RedeemedAtMostOnce(crypto, secret, after, run[1..], c, a.now);
      }
    }
  }

  /** Where the readings differ a token can be redeemed twice: whenever verification still sees it
      valid and the table is pruned after its expiry. */
  lemma {:induction false} RedeemedTwiceAcrossExpiry(
    crypto: Crypto, secret: string, token: string, c: Claims, first: int, sessionNonce: string)
    requires Verify(crypto, secret, token, "access", first) == Some(c)
    ensures var run := [Attempt(token, first, first, sessionNonce), Attempt(token, c.exp, c.exp + 1, sessionNonce)];
            ClockAdvances(run, first) && Redemptions(crypto, secret, map[], run, c) == 2
  {
    hide Verify, SignedToken;
    VerifiedClaimsHold(crypto, secret, token, "access", first);
    SameClaimsLater(crypto, secret, token, "access", first, c.exp);
    var a, b := Attempt(token, first, first, sessionNonce), Attempt(token, c.exp, c.exp + 1, sessionNonce);
    var run := [a, b];
    assert run[1..] == [b] && [b][1..] == [];
    assert ClockAdvances([b], first);
    assert Step(crypto, secret, map[], a).0 == map[c.jti := c.exp];
    assert Pruned(map[c.jti := c.exp], c.exp + 1) == map[];
    assert Redemptions(crypto, secret, map[c.jti := c.exp], [b], c) == 1;
  }

  // ------------------------------------------------------------- size of the table

  const HORIZON := MAX_ACCESS_LIFETIME_SECONDS + CLOCK_SKEW_SECONDS

  predicate WithinHorizon(redeemed: map<string, int>, now: int) {
    forall nonce :: nonce in redeemed ==> redeemed[nonce] <= now + HORIZON
  }

  /** After every prune the expiries lie between the present and 930 seconds ahead. */
  lemma {:induction false} PrunedWithinHorizon(redeemed: map<string, int>, since: int, now: int)
    requires since <= now && WithinHorizon(redeemed, since)
    ensures forall nonce :: nonce in Pruned(redeemed, now) ==> now <= Pruned(redeemed, now)[nonce] <= now + 930
  {
  }

  lemma {:induction false} StepKeepsHorizon(
    crypto: Crypto, secret: string, redeemed: map<string, int>, a: Attempt, since: int)
    requires since <= a.verifiedAt <= a.now && WithinHorizon(redeemed, since)
    ensures WithinHorizon(Step(crypto, secret, redeemed, a).0, a.now)
  {
    hide Verify, SignedToken;
    VerifiedClaimsHold(crypto, secret, a.token, "access", a.verifiedAt);
  }

  function After(crypto: Crypto, secret: string, redeemed: map<string, int>, run: seq<Attempt>): map<string, int>
    decreases |run|
  {
    if run == [] then redeemed else After(crypto, secret, Step(crypto, secret, redeemed, run[0]).0, run[1..])
  }

  /** Over every run from an empty table no expiry lies more than 930 seconds ahead of the clock. */
  lemma {:induction false} RunsStayWithinHorizon(
    crypto: Crypto, secret: string, redeemed: map<string, int>, run: seq<Attempt>, since: int)
    requires ClockAdvances(run, since) && WithinHorizon(redeemed, since)
    ensures WithinHorizon(After(crypto, secret, redeemed, run), if run == [] then since else run[|run| - 1].now)
    decreases |run|
  {
    hide Step, WithinHorizon;
    if run != [] {
      StepKeepsHorizon(crypto, secret, redeemed, run[0], since);
      RunsStayWithinHorizon(crypto, secret, Step(crypto, secret, redeemed, run[0]).0, run[1..], run[0].now);
    }
  }
}
