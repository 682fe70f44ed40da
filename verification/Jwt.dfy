/**
 Signing and checking of access tokens in server/security.ts. The keyed hash and the JSON text are
 functions this model knows nothing about, except that parsing undoes stringifying.
 */
module Jwt {
  import opened Wrappers
  import opened Base64Url

  // The claims as far as they matter here; an `exp` of zero or none at all is falsy.
  datatype Claims = Claims(iat: Option<int>, exp: Option<int>, rest: map<string, string>)

  datatype Crypto = Crypto(mac: (string, string) -> seq<Byte>,
                           stringify: Claims -> seq<Byte>,
                           parse: seq<Byte> -> Option<Claims>,
                           header: seq<Byte>)

  ghost predicate Lossless(c: Crypto) { forall claims :: c.parse(c.stringify(claims)) == Some(claims) }

  datatype Verdict = Valid(claims: Claims) | Expired(claims: Claims) | NoToken | BadFormat | BadSignature | BadPayload

  // ---------- the code ----------

  function Seconds(ms: nat): nat { ms / 1000 }

  function Stamped(claims: Claims, ttl: int, ms: nat): Claims {
    claims.(iat := Some(Seconds(ms)), exp := Some(Seconds(ms) + ttl))
  }

  function Signature(c: Crypto, key: string, header: string, payload: string): string {
    UrlEncode(c.mac(key, header + "." + payload))
  }

  function Sign(c: Crypto, claims: Claims, key: string, ttl: int, ms: nat): string {
    var header := UrlEncode(c.header);
    var payload := UrlEncode(c.stringify(Stamped(claims, ttl, ms)));
    header + "." + payload + "." + Signature(c, key, header, payload)
  }

  // `token.split('.')`.
  function Split(s: string): (parts: seq<string>)
    ensures parts != []
  {
    if s == "" then [""]
    else
      var parts := Split(s[1..]);
      if s[0] == '.' then [""] + parts else parts[0 := [s[0]] + parts[0]]
  }

  predicate PastExpiry(claims: Claims, ms: nat) {
    claims.exp.Some? && claims.exp.value != 0 && claims.exp.value < Seconds(ms)
  }

  function Check(c: Crypto, header: string, payload: string, signature: string, key: string, ms: nat): Verdict {
    if signature != Signature(c, key, header, payload) then BadSignature
    else
      var claims := c.parse(UrlDecode(payload));
      if claims.None? then BadPayload
      else if PastExpiry(claims.value, ms) then Expired(claims.value)
      else Valid(claims.value)
  }

  function Verify(c: Crypto, token: string, key: string, ms: nat): Verdict {
    if token == "" then NoToken
    else
      var parts := Split(token);
      if |parts| != 3 then BadFormat else Check(c, parts[0], parts[1], parts[2], key, ms)
  }

  // ---------- splitting and joining ----------

  function Join(parts: seq<string>): string
    requires parts != []
  {
    if |parts| == 1 then parts[0] else parts[0] + "." + Join(parts[1..])
  }

  predicate Plain(s: string) { '.' !in s }

  lemma {:induction false} SplitPlain(s: string, t: string)
    requires Plain(s)
    ensures Split(s + "." + t) == [s] + Split(t)
  {
    var whole := s + "." + t;
    if s == "" {
      assert whole[1..] == t;
    } else {
      assert whole[1..] == s[1..] + "." + t;
      SplitPlain(s[1..], t);
      assert s == [s[0]] + s[1..];
    }
  }

  lemma {:induction false} SplitWhole(s: string)
    requires Plain(s)
    ensures Split(s) == [s]
  {
    if s != "" {
      SplitWhole(s[1..]);
      assert s == [s[0]] + s[1..];
    }
  }

  lemma JoinHead(c: string, parts: seq<string>)
    requires parts != []
    ensures Join(parts[0 := c + parts[0]]) == c + Join(parts)
  {
    if |parts| > 1 {
      AppendIsAssociative(c, parts[0], ".");
      AppendIsAssociative(c, parts[0] + ".", Join(parts[1..]));
    }
  }

  lemma {:induction false} PartsArePlain(s: string)
    ensures forall i | 0 <= i < |Split(s)| :: Plain(Split(s)[i])
  {
    if s != "" {
      PartsArePlain(s[1..]);
    }
  }

  lemma SplitFirst(c: char, t: string)
    ensures Split([c] + t) == if c == '.' then [""] + Split(t) else Split(t)[0 := [c] + Split(t)[0]]
  {
    assert ([c] + t)[1..] == t;
  }

  lemma JoinDot(parts: seq<string>)
    requires parts != []
    ensures Join([""] + parts) == "." + Join(parts)
  {
    assert ([""] + parts)[1..] == parts;
  }

  // The parts join to the text.
  lemma {:induction false} JoinSplit(s: string)
    ensures Join(Split(s)) == s
  {
    if s != "" {
      var c, t := s[0], s[1..];
      JoinSplit(t);
      JoinMore(c, t);
      assert s == [c] + t;
    }
  }

  lemma JoinMore(c: char, t: string)
    ensures Join(Split([c] + t)) == [c] + Join(Split(t))
  {
    SplitFirst(c, t);
    if c == '.' {
      JoinDot(Split(t));
    } else {
      JoinHead([c], Split(t));
    }
  }

  lemma CodeIsPlain(bytes: seq<Byte>)
    ensures Plain(UrlEncode(bytes))
  {
    EncodedText(bytes);
  }

  lemma TokenSplits(header: string, payload: string, signature: string)
    requires Plain(header) && Plain(payload) && Plain(signature)
    ensures Split(header + "." + payload + "." + signature) == [header, payload, signature]
  {
    assert header + "." + payload + "." + signature == header + "." + (payload + "." + signature);
    SplitPlain(header, payload + "." + signature);
    SplitPlain(payload, signature);
    SplitWhole(signature);
  }

  // ---------- what a check says about a signed token ----------

  lemma VerifyParts(c: Crypto, header: string, payload: string, signature: string, key: string, ms: nat)
    requires Plain(header) && Plain(payload) && Plain(signature)
    ensures Verify(c, header + "." + payload + "." + signature, key, ms) == Check(c, header, payload, signature, key, ms)
  {
    TokenSplits(header, payload, signature);
  }

  lemma VerifySignedParts(c: Crypto, claims: Claims, key: string, ttl: int, signedAt: nat, other: string, checkedAt: nat)
    ensures var header := UrlEncode(c.header); var payload := UrlEncode(c.stringify(Stamped(claims, ttl, signedAt)));
      Verify(c, Sign(c, claims, key, ttl, signedAt), other, checkedAt)
      == Check(c, header, payload, Signature(c, key, header, payload), other, checkedAt)
  {
    var header, payload := UrlEncode(c.header), UrlEncode(c.stringify(Stamped(claims, ttl, signedAt)));
    CodeIsPlain(c.header);
    CodeIsPlain(c.stringify(Stamped(claims, ttl, signedAt)));
    CodeIsPlain(c.mac(key, header + "." + payload));
    VerifyParts(c, header, payload, Signature(c, key, header, payload), other, checkedAt);
  }

  lemma CheckSigned(c: Crypto, header: string, full: Claims, key: string, ms: nat)
    requires Lossless(c)
    ensures var payload := UrlEncode(c.stringify(full));
      Check(c, header, payload, Signature(c, key, header, payload), key, ms)
      == if PastExpiry(full, ms) then Expired(full) else Valid(full)
  {
    DecodeEncode(c.stringify(full));
    assert c.parse(c.stringify(full)) == Some(full);
  }

  // A token checked with the key it was signed with gives the signed claims back, stamped with the
  // second of signing and, as far after that as it was to live, the second of expiry: valid through the
  // whole of that second, expired after it, and valid for ever if the second of expiry is zero.
  lemma VerifySigned(c: Crypto, claims: Claims, key: string, ttl: int, signedAt: nat, checkedAt: nat)
    requires Lossless(c)
    ensures var exp := signedAt / 1000 + ttl; var verdict := Verify(c, Sign(c, claims, key, ttl, signedAt), key, checkedAt);
      && (verdict.Valid? || verdict.Expired?)
      && (verdict.Valid? <==> exp == 0 || checkedAt / 1000 <= exp)
      && verdict.claims == Claims(Some(signedAt / 1000), Some(exp), claims.rest)
  {
    VerifySignedParts(c, claims, key, ttl, signedAt, key, checkedAt);
    CheckSigned(c, UrlEncode(c.header), Stamped(claims, ttl, signedAt), key, checkedAt);
  }

  // What any text is answered: nothing but three parts is a token; the third must be the code of the
  // hash of the first two; the second must be the code of claims; and these must not have expired.
  lemma VerdictExactly(c: Crypto, h: string, p: string, s: string, key: string, ms: nat)
    requires Plain(h) && Plain(p) && Plain(s)
    ensures var verdict := Verify(c, h + "." + p + "." + s, key, ms); var claims := c.parse(UrlDecode(p));
      if s != UrlEncode(c.mac(key, h + "." + p)) then verdict == BadSignature
      else if claims.None? then verdict == BadPayload
      else if claims.value.exp.Some? && claims.value.exp.value != 0 && claims.value.exp.value < ms / 1000 then
        verdict == Expired(claims.value)
      else verdict == Valid(claims.value)
  {
    VerifyParts(c, h, p, s, key, ms);
  }

  ghost predicate ThreeParts(token: string, h: string, p: string, s: string) {
    Plain(h) && Plain(p) && Plain(s) && token == h + "." + p + "." + s
  }

  lemma BadFormatIff(c: Crypto, token: string, key: string, ms: nat)
    ensures Verify(c, token, key, ms) == NoToken <==> token == ""
    ensures Verify(c, token, key, ms) == BadFormat <==> token != "" && forall h, p, s :: !ThreeParts(token, h, p, s)
  {
    forall h, p, s | ThreeParts(token, h, p, s) ensures Verify(c, token, key, ms) != BadFormat {
      TokenSplits(h, p, s);
    }
    if token != "" && |Split(token)| == 3 {
      var parts := Split(token);
      JoinSplit(token);
      PartsArePlain(token);
      ThreeJoined(parts);
      assert ThreeParts(token, parts[0], parts[1], parts[2]);
    }
  }

  // Section 4.1.4 of RFC 7519 wants the time before `exp`; the code accepts `exp` itself: the two
  // differ exactly in that second and, later than 1970, on an `exp` of zero.
  predicate StrictlyBefore(claims: Claims, ms: nat) {
    claims.exp.None? || Seconds(ms) < claims.exp.value
  }

  lemma DiffersFromStandardIff(claims: Claims, ms: nat)
    ensures !PastExpiry(claims, ms) != StrictlyBefore(claims, ms)
      <==> claims.exp.Some? && (claims.exp.value == Seconds(ms) || claims.exp.value == 0)
  {
  }

  lemma SignaturesAlikeIff(c: Crypto, key: string, other: string, h: string, p: string, q: string)
    ensures Signature(c, key, h, p) == Signature(c, other, h, q) <==> c.mac(key, h + "." + p) == c.mac(other, h + "." + q)
  {
    if Signature(c, key, h, p) == Signature(c, other, h, q) {
      EncodeInjective(c.mac(key, h + "." + p), c.mac(other, h + "." + q));
    }
  }

  lemma {:induction false} OtherKeyFails(c: Crypto, claims: Claims, key: string, other: string, ttl: int, signedAt: nat, checkedAt: nat)
    ensures var token := Sign(c, claims, key, ttl, signedAt);
      var text := UrlEncode(c.header) + "." + UrlEncode(c.stringify(Stamped(claims, ttl, signedAt)));
      Verify(c, token, other, checkedAt) == BadSignature <==> c.mac(key, text) != c.mac(other, text)
  {
    var header, payload := UrlEncode(c.header), UrlEncode(c.stringify(Stamped(claims, ttl, signedAt)));
    VerifySignedParts(c, claims, key, ttl, signedAt, other, checkedAt);
    SignaturesAlikeIff(c, key, other, header, payload, payload);
  }

  lemma {:induction false} StampedIs(claims: Claims, ttl: int, ms: nat)
    ensures Stamped(claims, ttl, ms) == Claims(Some(ms / 1000), Some(ms / 1000 + ttl), claims.rest)
  {
  }

  // A check under another key fails, unless that key hashes the signed text alike.
  lemma {:induction false} OtherKeyIff(c: Crypto, claims: Claims, key: string, other: string, ttl: int, signedAt: nat, checkedAt: nat)
    ensures var token := Sign(c, claims, key, ttl, signedAt);
      var full := Claims(Some(signedAt / 1000), Some(signedAt / 1000 + ttl), claims.rest);
      var text := UrlEncode(c.header) + "." + UrlEncode(c.stringify(full));
      Verify(c, token, other, checkedAt) == BadSignature <==> c.mac(key, text) != c.mac(other, text)
  {
    StampedIs(claims, ttl, signedAt);
    OtherKeyFails(c, claims, key, other, ttl, signedAt, checkedAt);
  }

  predicate SignedAs(c: Crypto, token: string, key: string, h: string, p: string) {
    Plain(h) && Plain(p) && token == h + "." + p + "." + Signature(c, key, h, p)
  }

  lemma ThreeJoined(parts: seq<string>)
    requires |parts| == 3
    ensures Join(parts) == parts[0] + "." + parts[1] + "." + parts[2]
  {
    assert parts[1..][1..] == [parts[2]];
    assert Join(parts[1..]) == parts[1] + "." + parts[2];
    assert parts[0] + "." + (parts[1] + "." + parts[2]) == parts[0] + "." + parts[1] + "." + parts[2];
  }

  // Whatever the text: it passes the signature check exactly if it is two plain parts and the code
  // of the hash of both.
  lemma SignatureCheckIff(c: Crypto, token: string, key: string, ms: nat)
    requires token != ""
    ensures Verify(c, token, key, ms) !in {BadFormat, BadSignature} <==> exists h, p :: SignedAs(c, token, key, h, p)
  {
    if Verify(c, token, key, ms) !in {BadFormat, BadSignature} {
      PassingIsSigned(c, token, key, ms);
    }
    if exists h, p :: SignedAs(c, token, key, h, p) {
      var h, p :| SignedAs(c, token, key, h, p);
      SignedPasses(c, token, key, h, p, ms);
    }
  }

  lemma PassingIsSigned(c: Crypto, token: string, key: string, ms: nat)
    requires token != "" && Verify(c, token, key, ms) !in {BadFormat, BadSignature}
    ensures exists h, p :: SignedAs(c, token, key, h, p)
  {
    var parts := Split(token);
    JoinSplit(token);
    PartsArePlain(token);
    ThreeJoined(parts);
    assert SignedAs(c, token, key, parts[0], parts[1]);
  }

  lemma SignedPasses(c: Crypto, token: string, key: string, h: string, p: string, ms: nat)
    requires SignedAs(c, token, key, h, p)
    ensures Verify(c, token, key, ms) !in {BadFormat, BadSignature}
  {
    CodeIsPlain(c.mac(key, h + "." + p));
    VerifyParts(c, h, p, Signature(c, key, h, p), key, ms);
  }

  // The hash covers the text of the payload: another spelling passes only with a hash of its own.
  lemma AnotherSpellingIff(c: Crypto, key: string, h: string, p: string, q: string, ms: nat)
    requires Plain(h) && Plain(p) && Plain(q)
    ensures Verify(c, h + "." + q + "." + Signature(c, key, h, p), key, ms) == BadSignature
      <==> c.mac(key, h + "." + p) != c.mac(key, h + "." + q)
  {
    CodeIsPlain(c.mac(key, h + "." + p));
    VerifyParts(c, h, q, Signature(c, key, h, p), key, ms);
    SignaturesAlikeIff(c, key, key, h, p, q);
  }
}
