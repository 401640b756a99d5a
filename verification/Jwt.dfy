/** tools/sso.py: compact JWTs (section 7.1 of RFC 7515) and the fail-closed check of an OIDC ID token.
    JSON text is a codec given from outside, the MAC and any asymmetric verifier are functions, and
    times are exact numbers of seconds. */
module Jwt {
  import opened Options
  import opened Bytes
  import opened Base64Url

  datatype Value =
    | Null | Flag(on: bool) | Num(n: real) | Str(s: string) | Arr(items: seq<Value>) | Obj(fields: map<string, Value>)

  type Claims = map<string, Value>

  /** What the text and the numbers of JSON mean: `loads` fails on what is not JSON, `number` is Python's
      `float` of a text, and `show` its `str` of anything else. */
  datatype Codec = Codec(
    dumps: Value -> seq<byte>, loads: seq<byte> -> Option<Value>, number: string -> Option<real>, show: Value -> string)

  /** Printing this object and reading it back gives it again. */
  predicate ReadsBack(codec: Codec, m: Claims) {
    codec.loads(codec.dumps(Obj(m))) == Some(Obj(m))
  }

  /** Whatever the two objects of a token are, there are codecs that read both back. */
  lemma SomeCodecReadsBack(a: Claims, b: Claims) returns (codec: Codec)
    ensures ReadsBack(codec, a) && ReadsBack(codec, b)
  {
    codec :=
      Codec(v => if v == Obj(a) then [0] else [1], t => Some(Obj(if t == [0] then a else b)), t => None, v => "");
  }

  /** The MAC of a text under a secret. */
  type Mac = (string, string) -> seq<byte>

  // ----- the token -----

  const HEADER: Claims := map["alg" := Str("HS256"), "typ" := Str("JWT")]

  function SigningInput(codec: Codec, header: Claims, payload: Claims): string {
    Encode(codec.dumps(Obj(header))) + "." + Encode(codec.dumps(Obj(payload)))
  }

  /** `extra` overrides the standard header. */
  function EncodeJwt(codec: Codec, mac: Mac, payload: Claims, secret: string, extra: Claims): string {
    var input := SigningInput(codec, HEADER + extra, payload);
    input + "." + Encode(mac(secret, input))
  }

  function Split(s: string): seq<string> {
    if s == "" then [""]
    else
      var rest := Split(s[1..]);
      if s[0] == '.' then [""] + rest else [[s[0]] + rest[0]] + rest[1..]
  }

  datatype Token = Token(header: Claims, payload: Claims, signingInput: string, signature: seq<byte>)

  function Segment(codec: Codec, s: string): Option<Value> {
    var b := Decode(s);
    if b.None? then None else codec.loads(b.value)
  }

  /** None stands for the exceptions a malformed token raises. */
  function DecodeJwt(codec: Codec, token: string): Option<Token> {
    var parts := Split(token);
    if |parts| != 3 then None
    else
      var header, payload := Segment(codec, parts[0]), Segment(codec, parts[1]);
      if header.None? || payload.None? || !header.value.Obj? || !payload.value.Obj? then None
      else
        var signature := Decode(parts[2]);
        if signature.None? then None
        else Some(Token(header.value.fields, payload.value.fields, parts[0] + "." + parts[1], signature.value))
  }

  lemma {:induction false} SplitPlain(s: string)
    requires '.' !in s
    ensures Split(s) == [s]
  {
    if s == "" {
    } else {
      SplitPlain(s[1..]);
      assert s == [s[0]] + s[1..];
    }
  }

  lemma {:induction false} SplitDot(a: string, rest: string)
    requires '.' !in a
    ensures Split(a + "." + rest) == [a] + Split(rest)
  {
    if a == "" {
      assert a + "." + rest == "." + rest;
    } else {
      SplitDot(a[1..], rest);
      assert (a + "." + rest)[1..] == a[1..] + "." + rest;
      assert a == [a[0]] + a[1..];
    }
  }

  lemma NoDot(s: string)
    requires Clean(s)
    ensures '.' !in s
  {
  }

  /** Decoding an encoded token gives back its header, its payload, the exact text that was signed, and
      the signature over it. */
  lemma DecodesEncoded(codec: Codec, mac: Mac, payload: Claims, secret: string, extra: Claims)
    requires ReadsBack(codec, HEADER + extra) && ReadsBack(codec, payload)
    ensures var input := SigningInput(codec, HEADER + extra, payload);
      DecodeJwt(codec, EncodeJwt(codec, mac, payload, secret, extra))
        == Some(Token(HEADER + extra, payload, input, mac(secret, input)))
  {
    var input := SigningInput(codec, HEADER + extra, payload);
    var h, p, m := codec.dumps(Obj(HEADER + extra)), codec.dumps(Obj(payload)), mac(secret, input);
    RoundTrip(h);
    RoundTrip(p);
    RoundTrip(m);
    hide Encode, Decode;
    var a, b, c := Encode(h), Encode(p), Encode(m);
    NoDot(a);
    NoDot(b);
    NoDot(c);
    hide Clean;
    SplitDot(a, b + "." + c);
    SplitDot(b, c);
    SplitPlain(c);
    var token := EncodeJwt(codec, mac, payload, secret, extra);
    assert token == a + "." + (b + "." + c);
    assert Split(token) == [a, b, c];
    hide Split;
  }

  /** These three parts make a token: without full stops, the first two encoding JSON objects, the third any bytes. */
  ghost predicate Parts(codec: Codec, token: string, a: string, b: string, c: string, t: Token) {
    && token == a + "." + b + "." + c && '.' !in a && '.' !in b && '.' !in c
    && Decode(a).Some? && codec.loads(Decode(a).value) == Some(Obj(t.header))
    && Decode(b).Some? && codec.loads(Decode(b).value) == Some(Obj(t.payload))
    && Decode(c) == Some(t.signature) && t.signingInput == a + "." + b
  }

  /** A text decodes to a token exactly when it is three such parts; what is signed is the first two as they stand. */
  lemma DecodesIffParts(codec: Codec, token: string, t: Token)
    ensures DecodeJwt(codec, token) == Some(t) <==> exists a, b, c :: Parts(codec, token, a, b, c, t)
  {
    hide DecodeJwt, Parts;
    if a, b, c :| Parts(codec, token, a, b, c, t) {
      PartsDecode(codec, token, a, b, c, t);
    }
    if DecodeJwt(codec, token) == Some(t) {
      DecodedHasParts(codec, token, t);
    }
  }

  lemma PartsDecode(codec: Codec, token: string, a: string, b: string, c: string, t: Token)
    requires Parts(codec, token, a, b, c, t)
    ensures DecodeJwt(codec, token) == Some(t)
  {
    hide Decode;
    SplitThree(a, b, c);
    hide Split;
    assert token == a + "." + b + "." + c;
  }

  lemma SplitThree(a: string, b: string, c: string)
    requires '.' !in a && '.' !in b && '.' !in c
    ensures Split(a + "." + b + "." + c) == [a, b, c]
  {
    SplitDot(a, b + "." + c);
    SplitDot(b, c);
    SplitPlain(c);
    hide Split;
    assert a + "." + b + "." + c == a + "." + (b + "." + c);
  }

  lemma DecodedHasParts(codec: Codec, token: string, t: Token)
    requires DecodeJwt(codec, token) == Some(t)
    ensures exists a, b, c :: Parts(codec, token, a, b, c, t)
  {
    hide Decode, Split;
    var parts := Split(token);
    SplitJoins(token);
    JoinThree(parts);
    hide Join;
    assert parts[0] in parts && parts[1] in parts && parts[2] in parts;
    assert Parts(codec, token, parts[0], parts[1], parts[2], t);
  }

  function Join(parts: seq<string>): string
    requires parts != []
  {
    if |parts| == 1 then parts[0] else parts[0] + "." + Join(parts[1..])
  }

  lemma JoinThree(parts: seq<string>)
    requires |parts| == 3
    ensures Join(parts) == parts[0] + "." + parts[1] + "." + parts[2]
  {
    assert Join(parts[1..][1..]) == parts[2];
    assert Join(parts[1..]) == parts[1] + "." + parts[2];
    assert parts[0] + "." + (parts[1] + "." + parts[2]) == parts[0] + "." + parts[1] + "." + parts[2];
  }

  lemma {:induction false} SplitJoins(s: string)
    ensures Split(s) != [] && Join(Split(s)) == s && forall p :: p in Split(s) ==> '.' !in p
  {
    if s == "" {
    } else {
      SplitJoins(s[1..]);
      var rest := Split(s[1..]);
      if s[0] == '.' {
        assert ([""] + rest)[1..] == rest;
        assert s == "" + "." + s[1..];
      } else {
        var first := [s[0]] + rest[0];
        assert ([first] + rest[1..])[1..] == rest[1..];
        assert s == [s[0]] + s[1..];
      }
    }
  }

  // ----- checking an ID token -----

  datatype Expect = Expect(
    issuer: string, audience: string, nonce: Option<string>, secret: Option<string>,
    asymmetric: Option<(string, seq<byte>, Claims) -> bool>, leeway: real)

  datatype Problem = Malformed | Unsigned | NoSecret | BadHs256 | NoVerifier | BadSignature
    | WrongIssuer | WrongAudience | WrongParty | Expired | NotYetValid | NoIssueTime | WrongNonce

  /** Raised is a claim of a type the comparison cannot take. */
  datatype Verdict = Valid(claims: Claims) | Invalid(problem: Problem) | Raised

  function Get(c: Claims, k: string): Value {
    if k in c then c[k] else Null
  }

  predicate Truthy(v: Value) {
    match v
    case Null => false
    case Flag(on) => on
    case Num(n) => n != 0.0
    case Str(s) => s != ""
    case Arr(items) => items != []
    case Obj(fields) => fields != map[]
  }

  /** Python's `float`. */
  function AsNumber(codec: Codec, v: Value): Option<real> {
    match v
    case Num(n) => Some(n)
    case Flag(on) => Some(if on then 1.0 else 0.0)
    case Str(s) => codec.number(s)
    case Null => None
    case Arr(_) => None
    case Obj(_) => None
  }

  function Shown(codec: Codec, v: Value): string {
    if v.Str? then v.s else codec.show(v)
  }

  function Audiences(c: Claims): seq<Value> {
    var aud := Get(c, "aud");
    if aud.Arr? then aud.items else [aud]
  }

  function CheckSignature(mac: Mac, e: Expect, t: Token): Option<Problem> {
    var alg := Get(t.header, "alg");
    if alg == Str("none") || !Truthy(alg) then Some(Unsigned)
    else if alg == Str("HS256") then
      if e.secret.None? || e.secret.value == "" then Some(NoSecret)
      else if mac(e.secret.value, t.signingInput) != t.signature then Some(BadHs256)
      else None
    else if e.asymmetric.None? then Some(NoVerifier)
    else if !e.asymmetric.value(t.signingInput, t.signature, t.header) then Some(BadSignature)
    else None
  }

  function CheckNonce(codec: Codec, e: Expect, c: Claims): Verdict {
    if e.nonce.None? then Valid(c)
    else
      var shown := if "nonce" in c then Shown(codec, c["nonce"]) else "";
      if !Ascii(shown) || !Ascii(e.nonce.value) then Raised
      else if shown != e.nonce.value then Invalid(WrongNonce)
      else Valid(c)
  }

  function CheckTimes(codec: Codec, e: Expect, c: Claims, now: real): Verdict {
    if "exp" !in c then Invalid(Expired)
    else
      var exp := AsNumber(codec, c["exp"]);
      if exp.None? then Raised
      else if now > exp.value + e.leeway then Invalid(Expired)
      else if "nbf" in c && AsNumber(codec, c["nbf"]).None? then Raised
      else if "nbf" in c && now + e.leeway < AsNumber(codec, c["nbf"]).value then Invalid(NotYetValid)
      else if "iat" !in c then Invalid(NoIssueTime)
      else CheckNonce(codec, e, c)
  }

  function CheckClaims(codec: Codec, e: Expect, c: Claims, now: real): Verdict {
    if Get(c, "iss") != Str(e.issuer) then Invalid(WrongIssuer)
    else if Str(e.audience) !in Audiences(c) then Invalid(WrongAudience)
    else if |Audiences(c)| > 1 && Get(c, "azp") != Str(e.audience) then Invalid(WrongParty)
    else CheckTimes(codec, e, c, now)
  }

  function VerifyIdToken(codec: Codec, mac: Mac, token: string, e: Expect, now: real): Verdict {
    var t := DecodeJwt(codec, token);
    if t.None? then Invalid(Malformed)
    else
      var problem := CheckSignature(mac, e, t.value);
      if problem.Some? then Invalid(problem.value) else CheckClaims(codec, e, t.value.payload, now)
  }

  // ----- what verifies -----

  /** What a claim is as a number: itself, one or zero for true or false, or what its text says. */
  predicate ReadsAs(codec: Codec, v: Value, x: real) {
    v == Num(x) || (v == Flag(true) && x == 1.0) || (v == Flag(false) && x == 0.0)
    || (v.Str? && codec.number(v.s) == Some(x))
  }

  predicate FromIssuer(e: Expect, c: Claims) {
    "iss" in c && c["iss"] == Str(e.issuer)
  }

  /** The audience is this client, or a list with it. */
  predicate ForClient(e: Expect, c: Claims) {
    "aud" in c && (c["aud"] == Str(e.audience) || (c["aud"].Arr? && Str(e.audience) in c["aud"].items))
  }

  /** With several audiences the authorised party must be this client. */
  predicate ByClient(e: Expect, c: Claims) {
    "aud" in c && c["aud"].Arr? && |c["aud"].items| > 1 ==> "azp" in c && c["azp"] == Str(e.audience)
  }

  ghost predicate Unexpired(codec: Codec, e: Expect, c: Claims, now: real) {
    "exp" in c && exists x: real :: ReadsAs(codec, c["exp"], x) && now <= x + e.leeway
  }

  ghost predicate Begun(codec: Codec, e: Expect, c: Claims, now: real) {
    "nbf" in c ==> exists x: real :: ReadsAs(codec, c["nbf"], x) && x <= now + e.leeway
  }

  /** The claim is there and is no number. */
  ghost predicate Unreadable(codec: Codec, c: Claims, k: string) {
    k in c && forall x: real :: !ReadsAs(codec, c[k], x)
  }

  /** The nonce of the token as text: empty if it is missing. */
  function NonceText(codec: Codec, c: Claims): string {
    if "nonce" !in c then "" else if c["nonce"].Str? then c["nonce"].s else codec.show(c["nonce"])
  }

  predicate SameNonce(codec: Codec, e: Expect, c: Claims) {
    e.nonce == None || e.nonce == Some(NonceText(codec, c))
  }

  /** A nonce is asked for, and one of the two texts to compare is not ASCII. */
  predicate Incomparable(codec: Codec, e: Expect, c: Claims) {
    e.nonce.Some? && !(Ascii(e.nonce.value) && Ascii(NonceText(codec, c)))
  }

  /** The claims are for this issuer and this client, are in force now, and carry the nonce asked for. */
  ghost predicate InForce(codec: Codec, e: Expect, c: Claims, now: real) {
    && FromIssuer(e, c) && ForClient(e, c) && ByClient(e, c)
    && Unexpired(codec, e, c, now) && Begun(codec, e, c, now) && "iat" in c
    && SameNonce(codec, e, c) && !Incomparable(codec, e, c)
  }

  lemma NumberIs(codec: Codec, v: Value, x: real)
    ensures AsNumber(codec, v) == Some(x) <==> ReadsAs(codec, v, x)
  {
  }

  lemma AudiencesAre(e: Expect, c: Claims)
    ensures Str(e.audience) in Audiences(c) <==> ForClient(e, c)
    ensures ForClient(e, c) ==>
      (ByClient(e, c) <==> |Audiences(c)| <= 1 || Get(c, "azp") == Str(e.audience))
  {
  }

  lemma TimesAre(codec: Codec, e: Expect, c: Claims, now: real)
    ensures Unexpired(codec, e, c, now)
      <==> "exp" in c && AsNumber(codec, c["exp"]).Some? && now <= AsNumber(codec, c["exp"]).value + e.leeway
    ensures Begun(codec, e, c, now)
      <==> ("nbf" in c ==> AsNumber(codec, c["nbf"]).Some? && AsNumber(codec, c["nbf"]).value <= now + e.leeway)
    ensures forall k :: Unreadable(codec, c, k) <==> k in c && AsNumber(codec, c[k]).None?
  {
    forall v, x ensures AsNumber(codec, v) == Some(x) <==> ReadsAs(codec, v, x) {
      NumberIs(codec, v, x);
    }
    hide AsNumber, ReadsAs;
    forall k | k in c && AsNumber(codec, c[k]).Some?
      ensures ReadsAs(codec, c[k], AsNumber(codec, c[k]).value)
    {
    }
  }

  /** The early-return chain over the claims finds the first thing wrong with them, in this order; it raises for a time
      that is no number and a nonce that cannot be compared, and passes the claims in force. */
  lemma ClaimsMean(codec: Codec, e: Expect, c: Claims, now: real)
    ensures var r := CheckClaims(codec, e, c, now);
      var ours := FromIssuer(e, c) && ForClient(e, c) && ByClient(e, c);
      var unexpired := ours && Unexpired(codec, e, c, now);
      var begun := unexpired && Begun(codec, e, c, now);
      var issued := begun && "iat" in c;
      && (r == Invalid(WrongIssuer) <==> !FromIssuer(e, c))
      && (r == Invalid(WrongAudience) <==> FromIssuer(e, c) && !ForClient(e, c))
      && (r == Invalid(WrongParty) <==> FromIssuer(e, c) && ForClient(e, c) && !ByClient(e, c))
      && (r == Invalid(Expired) <==> ours && !unexpired && !Unreadable(codec, c, "exp"))
      && (r == Invalid(NotYetValid) <==> unexpired && !begun && !Unreadable(codec, c, "nbf"))
      && (r == Invalid(NoIssueTime) <==> begun && !issued)
      && (r == Invalid(WrongNonce) <==> issued && !Incomparable(codec, e, c) && !SameNonce(codec, e, c))
      && (r == Raised <==> || (ours && Unreadable(codec, c, "exp"))
                           || (unexpired && Unreadable(codec, c, "nbf"))
                           || (issued && Incomparable(codec, e, c)))
      && (r.Valid? <==> InForce(codec, e, c, now)) && (r.Valid? ==> r.claims == c)
  {
    AudiencesAre(e, c);
    TimesAre(codec, e, c, now);
    hide AsNumber, Audiences, ForClient, ByClient, Unexpired, Begun, Unreadable, Ascii;
  }

  /** The header names HS256 or another algorithm, not none and nothing that Python takes for false, and the signature
      is right for it: under the shared secret for HS256, for the injected verifier otherwise. */
  ghost predicate Signed(mac: Mac, e: Expect, t: Token) {
    && "alg" in t.header
    && var alg := t.header["alg"];
       && alg !in {Null, Flag(false), Num(0.0), Str(""), Arr([]), Obj(map[]), Str("none")}
       && if alg == Str("HS256")
          then e.secret.Some? && e.secret.value != "" && mac(e.secret.value, t.signingInput) == t.signature
          else e.asymmetric.Some? && e.asymmetric.value(t.signingInput, t.signature, t.header)
  }

  /** What is found wrong with a signature. */
  lemma SignatureMeans(mac: Mac, e: Expect, t: Token)
    ensures var r := CheckSignature(mac, e, t);
      var alg := if "alg" in t.header then t.header["alg"] else Null;
      var unsigned := alg in {Null, Flag(false), Num(0.0), Str(""), Arr([]), Obj(map[]), Str("none")};
      var hs256, secret := alg == Str("HS256"), e.secret.Some? && e.secret.value != "";
      && (r == None <==> Signed(mac, e, t))
      && (r == Some(Unsigned) <==> unsigned)
      && (r == Some(NoSecret) <==> hs256 && !secret)
      && (r == Some(BadHs256) <==> hs256 && secret && mac(e.secret.value, t.signingInput) != t.signature)
      && (r == Some(NoVerifier) <==> !unsigned && !hs256 && e.asymmetric == None)
      && (r == Some(BadSignature) <==>
            && !unsigned && !hs256 && e.asymmetric.Some?
            && !e.asymmetric.value(t.signingInput, t.signature, t.header))
  {
    assert "HS256"[0] != "none"[0];
  }

  lemma StandardHeader()
    ensures HEADER + map[] == HEADER && Get(HEADER, "alg") == Str("HS256")
    ensures Get(HEADER, "typ") == Str("JWT") && HEADER.Keys == {"alg", "typ"}
  {
  }

  /** Under HS256 with a secret configured, the signature decides alone. */
  lemma Hs256Check(mac: Mac, e: Expect, t: Token)
    requires Get(t.header, "alg") == Str("HS256") && e.secret.Some?
    ensures CheckSignature(mac, e, t)
      == if e.secret.value == "" then Some(NoSecret)
         else if mac(e.secret.value, t.signingInput) != t.signature then Some(BadHs256)
         else None
  {
    hide Get;
    assert "HS256"[0] != "none"[0];
  }

  /** A minted token is judged by its secret and its claims alone. */
  lemma MintedIsJudged(codec: Codec, mac: Mac, payload: Claims, secret: string, e: Expect, now: real)
    requires ReadsBack(codec, HEADER) && ReadsBack(codec, payload) && e.secret.Some?
    ensures var input := SigningInput(codec, HEADER, payload);
      VerifyIdToken(codec, mac, EncodeJwt(codec, mac, payload, secret, map[]), e, now)
        == if e.secret.value == "" then Invalid(NoSecret)
           else if mac(e.secret.value, input) != mac(secret, input) then Invalid(BadHs256)
           else CheckClaims(codec, e, payload, now)
  {
    hide EncodeJwt, DecodeJwt, CheckClaims, CheckSignature, SigningInput, ReadsBack, Get;
    StandardHeader();
    DecodesEncoded(codec, mac, payload, secret, map[]);
    var input := SigningInput(codec, HEADER, payload);
    Hs256Check(mac, e, Token(HEADER, payload, input, mac(secret, input)));
  }

  /** A token minted under a secret verifies under that secret exactly when the secret is not empty and
      its claims are in force; what is then returned are the claims it was minted with. */
  lemma MintedTokenVerifiesIff(codec: Codec, mac: Mac, payload: Claims, secret: string, e: Expect, now: real)
    requires ReadsBack(codec, HEADER) && ReadsBack(codec, payload) && e.secret == Some(secret)
    ensures var v := VerifyIdToken(codec, mac, EncodeJwt(codec, mac, payload, secret, map[]), e, now);
      && (v.Valid? <==> secret != "" && InForce(codec, e, payload, now))
      && (v.Valid? ==> v.claims == payload)
  {
    hide *;
    MintedIsJudged(codec, mac, payload, secret, e, now);
    ClaimsMean(codec, e, payload, now);
  }

  /** Under another secret it never verifies, as long as the MAC tells the two secrets apart on it. */
  lemma OtherSecretRefused(codec: Codec, mac: Mac, payload: Claims, secret: string, e: Expect, now: real)
    requires ReadsBack(codec, HEADER) && ReadsBack(codec, payload) && e.secret.Some?
    requires var input := SigningInput(codec, HEADER, payload); mac(e.secret.value, input) != mac(secret, input)
    ensures VerifyIdToken(codec, mac, EncodeJwt(codec, mac, payload, secret, map[]), e, now)
      == Invalid(if e.secret.value == "" then NoSecret else BadHs256)
  {
    hide *;
    MintedIsJudged(codec, mac, payload, secret, e, now);
  }

  /** A token whose header says it is unsigned is refused whatever else it says and however it is checked. */
  lemma UnsignedRefused(codec: Codec, mac: Mac, payload: Claims, secret: string, extra: Claims, e: Expect, now: real)
    requires ReadsBack(codec, HEADER + extra) && ReadsBack(codec, payload)
    requires "alg" in extra && (extra["alg"] == Str("none") || !Truthy(extra["alg"]))
    ensures VerifyIdToken(codec, mac, EncodeJwt(codec, mac, payload, secret, extra), e, now) == Invalid(Unsigned)
  {
    DecodesEncoded(codec, mac, payload, secret, extra);
    hide EncodeJwt, DecodeJwt, CheckClaims, SigningInput;
    assert Get(HEADER + extra, "alg") == extra["alg"];
  }

  /** For any token at all: it is valid exactly when it decodes, is signed under the algorithm it names, and carries
      claims in force; malformed and badly signed ones are told apart. */
  lemma ValidIff(codec: Codec, mac: Mac, token: string, e: Expect, now: real)
    ensures var r, t := VerifyIdToken(codec, mac, token, e, now), DecodeJwt(codec, token);
      && (r.Valid? <==> t.Some? && Signed(mac, e, t.value) && InForce(codec, e, t.value.payload, now))
      && (r == Invalid(Malformed) <==> t == None)
      && (t.Some? && !Signed(mac, e, t.value) ==> r == Invalid(CheckSignature(mac, e, t.value).value))
      && (t.Some? && Signed(mac, e, t.value) ==> r == CheckClaims(codec, e, t.value.payload, now))
  {
    var t := DecodeJwt(codec, token);
    if t.Some? {
      SignatureMeans(mac, e, t.value);
      ClaimsMean(codec, e, t.value.payload, now);
      NeverMalformed(codec, mac, e, t.value, now);
    }
    hide DecodeJwt, CheckClaims, Signed, InForce, CheckSignature;
  }

  lemma NeverMalformed(codec: Codec, mac: Mac, e: Expect, t: Token, now: real)
    ensures CheckSignature(mac, e, t) != Some(Malformed) && CheckClaims(codec, e, t.payload, now) != Invalid(Malformed)
  {
    hide Get, Truthy, AsNumber, Audiences;
  }
}
