/**
 The base64url coding of server/security.ts over bytes: the standard coding of Node's Buffer, with
 padding dropped and two characters exchanged (section 5 of RFC 4648), and its reversal.
 */
module Base64Url {
  import opened Wrappers

  newtype Byte = b: int | 0 <= b < 256
  newtype Sextet = v: int | 0 <= v < 64

  // ---------- the standard coding ----------

  function CharOf(v: Sextet): char {
    if v < 26 then 'A' + v as char
    else if v < 52 then 'a' + (v - 26) as char
    else if v < 62 then '0' + (v - 52) as char
    else if v == 62 then '+'
    else '/'
  }

  // Buffer accepts both alphabets and skips every other character.
  function ValueOf(c: char): Option<Sextet> {
    if 'A' <= c <= 'Z' then Some((c - 'A') as Sextet)
    else if 'a' <= c <= 'z' then Some((c - 'a') as Sextet + 26)
    else if '0' <= c <= '9' then Some((c - '0') as Sextet + 52)
    else if c == '+' || c == '-' then Some(62)
    else if c == '/' || c == '_' then Some(63)
    else None
  }

  // The four sextets of three bytes.
  function Hi(a: Byte): Sextet { (a / 4) as Sextet }

  function Mid(a: Byte, b: Byte): Sextet { ((a % 4) as int * 16 + (b / 16) as int) as Sextet }

  function Low(b: Byte, c: Byte): Sextet { ((b % 16) as int * 4 + (c / 64) as int) as Sextet }

  function End(c: Byte): Sextet { (c % 64) as Sextet }

  function ToSextets(bytes: seq<Byte>): seq<Sextet> {
    if bytes == [] then []
    else if |bytes| == 1 then [Hi(bytes[0]), Mid(bytes[0], 0)]
    else if |bytes| == 2 then [Hi(bytes[0]), Mid(bytes[0], bytes[1]), Low(bytes[1], 0)]
    else
      [Hi(bytes[0]), Mid(bytes[0], bytes[1]), Low(bytes[1], bytes[2]), End(bytes[2])] + ToSextets(bytes[3..])
  }

  function Chars(v: seq<Sextet>): string {
    if v == [] then "" else [CharOf(v[0])] + Chars(v[1..])
  }

  function Trail(bytes: seq<Byte>): string {
    if |bytes| % 3 == 0 then "" else if |bytes| % 3 == 1 then "==" else "="
  }

  // Buffer.toString('base64'): one character a sextet, filled up to a multiple of four.
  function Encode(bytes: seq<Byte>): string { Chars(ToSextets(bytes)) + Trail(bytes) }

  function ValueList(c: char): seq<Sextet> { if ValueOf(c).Some? then [ValueOf(c).value] else [] }

  function Values(s: string): seq<Sextet> {
    if s == "" then [] else ValueList(s[0]) + Values(s[1..])
  }

  // Four sextets make three bytes; two or three left over make one or two, a single one none.
  function FromSextets(v: seq<Sextet>): seq<Byte> {
    if |v| < 2 then []
    else if |v| == 2 then [First(v[0], v[1])]
    else if |v| == 3 then [First(v[0], v[1]), Second(v[1], v[2])]
    else [First(v[0], v[1]), Second(v[1], v[2]), Third(v[2], v[3])] + FromSextets(v[4..])
  }

  function First(p: Sextet, q: Sextet): Byte { (p as int * 4 + (q / 16) as int) as Byte }

  function Second(q: Sextet, r: Sextet): Byte { ((q % 16) as int * 16 + (r / 4) as int) as Byte }

  function Third(r: Sextet, s: Sextet): Byte { ((r % 4) as int * 64 + s as int) as Byte }

  // Buffer.from(s, 'base64').
  function Decode(s: string): seq<Byte> { FromSextets(Values(s)) }

  // ---------- base64url ----------

  // `replace` with a global one-character pattern.
  function Replace(s: string, pattern: char, into: string): string {
    if s == "" then "" else (if s[0] == pattern then into else [s[0]]) + Replace(s[1..], pattern, into)
  }

  function UrlEncode(bytes: seq<Byte>): string {
    Replace(Replace(Replace(Encode(bytes), '=', ""), '+', "-"), '/', "_")
  }

  function Padding(s: string): string {
    if |s| % 4 == 0 then "" else if |s| % 4 == 3 then "=" else if |s| % 4 == 2 then "==" else "==="
  }

  function UrlDecode(s: string): seq<Byte> {
    var std := Replace(Replace(s, '-', "+"), '_', "/");
    Decode(std + Padding(std))
  }

  method Base64UrlDecode(str: string) returns (bytes: seq<Byte>)
    ensures bytes == UrlDecode(str)
  {
    var s := Replace(Replace(str, '-', "+"), '_', "/");
    ghost var std := s;
    while |s| % 4 != 0
      invariant s + Padding(s) == std + Padding(std)
      decreases (4 - |s| % 4) % 4
    {
      s := s + "=";
    }
    assert s + Padding(s) == s;
    bytes := Decode(s);
  }

  // ---------- the round trip ----------

  lemma {:induction false} SextetsBack(bytes: seq<Byte>)
    ensures FromSextets(ToSextets(bytes)) == bytes
  {
    if |bytes| == 1 {
      OneByte(bytes[0]);
    } else if |bytes| == 2 {
      TwoBytes(bytes[0], bytes[1]);
    } else if |bytes| > 2 {
      ThreeBytes(bytes[0], bytes[1], bytes[2]);
      SextetsBack(bytes[3..]);
      assert ToSextets(bytes)[4..] == ToSextets(bytes[3..]);
      assert bytes == [bytes[0], bytes[1], bytes[2]] + bytes[3..];
    }
  }

  lemma OneByte(a: Byte)
    ensures First(Hi(a), Mid(a, 0)) == a
  {
  }

  lemma TwoBytes(a: Byte, b: Byte)
    ensures First(Hi(a), Mid(a, b)) == a && Second(Mid(a, b), Low(b, 0)) == b
  {
  }

  lemma ThreeBytes(a: Byte, b: Byte, c: Byte)
    ensures First(Hi(a), Mid(a, b)) == a && Second(Mid(a, b), Low(b, c)) == b && Third(Low(b, c), End(c)) == c
  {
  }

  function UrlCharOf(v: Sextet): char {
    if v == 62 then '-' else if v == 63 then '_' else CharOf(v)
  }

  function UrlChars(v: seq<Sextet>): string {
    if v == [] then "" else [UrlCharOf(v[0])] + UrlChars(v[1..])
  }

  lemma {:induction false} ReplaceSplits(s: string, t: string, pattern: char, into: string)
    ensures Replace(s + t, pattern, into) == Replace(s, pattern, into) + Replace(t, pattern, into)
  {
    if s == "" {
      assert s + t == t;
    } else {
      assert (s + t)[1..] == s[1..] + t;
      ReplaceSplits(s[1..], t, pattern, into);
    }
  }

  lemma TrailGoes(bytes: seq<Byte>)
    ensures Replace(Trail(bytes), '=', "") == ""
  {
    assert Replace("=", '=', "") == "";
    assert "=="[1..] == "=";
  }

  lemma {:induction false} NoPadInside(v: seq<Sextet>)
    ensures Replace(Chars(v), '=', "") == Chars(v)
  {
    if v != [] { NoPadInside(v[1..]); }
  }

  lemma {:induction false} ToUrl(v: seq<Sextet>)
    ensures Replace(Replace(Chars(v), '+', "-"), '/', "_") == UrlChars(v)
  {
    if v != [] {
      ToUrl(v[1..]);
      var c := CharOf(v[0]);
      assert Chars(v) == [c] + Chars(v[1..]);
      ReplaceSplits([c], Chars(v[1..]), '+', "-");
      ReplaceSplits(Replace([c], '+', "-"), Replace(Chars(v[1..]), '+', "-"), '/', "_");
    }
  }

  lemma {:induction false} FromUrl(v: seq<Sextet>)
    ensures Replace(Replace(UrlChars(v), '-', "+"), '_', "/") == Chars(v)
  {
    if v != [] {
      FromUrl(v[1..]);
      var c := UrlCharOf(v[0]);
      assert UrlChars(v) == [c] + UrlChars(v[1..]);
      ReplaceSplits([c], UrlChars(v[1..]), '-', "+");
      ReplaceSplits(Replace([c], '-', "+"), Replace(UrlChars(v[1..]), '-', "+"), '_', "/");
    }
  }

  lemma UrlEncodeIsChars(bytes: seq<Byte>)
    ensures UrlEncode(bytes) == UrlChars(ToSextets(bytes))
  {
    var v := ToSextets(bytes);
    ReplaceSplits(Chars(v), Trail(bytes), '=', "");
    NoPadInside(v);
    TrailGoes(bytes);
    assert Chars(v) + "" == Chars(v);
    ToUrl(v);
  }

  lemma ValuesFirst(c: char, rest: string)
    ensures Values([c] + rest) == ValueList(c) + Values(rest)
  {
    assert ([c] + rest)[1..] == rest;
  }

  lemma AppendIsAssociative<T>(a: seq<T>, b: seq<T>, c: seq<T>)
    ensures a + b + c == a + (b + c)
  {
  }

  lemma {:induction false} ValuesSplit(s: string, t: string)
    ensures Values(s + t) == Values(s) + Values(t)
    decreases |s|, 1
  {
    if s == "" {
      assert s + t == t;
    } else {
      ValuesMore(s[0], s[1..], t);
      assert s == [s[0]] + s[1..];
    }
  }

  lemma {:induction false} ValuesMore(c: char, rest: string, t: string)
    ensures Values([c] + rest + t) == Values([c] + rest) + Values(t)
    decreases |rest| + 1, 0
  {
    ValuesSplit(rest, t);
    AppendIsAssociative([c], rest, t);
    ValuesFirst(c, rest + t);
    ValuesFirst(c, rest);
    AppendIsAssociative(ValueList(c), Values(rest), Values(t));
  }

  lemma {:induction false} ValuesOfChars(v: seq<Sextet>)
    ensures Values(Chars(v)) == v
  {
    if v != [] {
      ValuesOfChars(v[1..]);
      assert v == [v[0]] + v[1..];
    }
  }

  lemma PaddingIsSkipped(s: string)
    ensures Values(s + Padding(s)) == Values(s)
  {
    ValuesSplit(s, Padding(s));
    assert Values("=") == [];
    assert "=="[1..] == "=" && "==="[1..] == "==";
  }

  lemma UrlDecodeIsSextets(v: seq<Sextet>)
    ensures UrlDecode(UrlChars(v)) == FromSextets(v)
  {
    FromUrl(v);
    PaddingIsSkipped(Chars(v));
    ValuesOfChars(v);
  }

  // Decoding undoes encoding on every byte string.
  lemma DecodeEncode(bytes: seq<Byte>)
    ensures UrlDecode(UrlEncode(bytes)) == bytes
  {
    UrlEncodeIsChars(bytes);
    UrlDecodeIsSextets(ToSextets(bytes));
    SextetsBack(bytes);
  }

  lemma EncodeInjective(a: seq<Byte>, b: seq<Byte>)
    requires UrlEncode(a) == UrlEncode(b)
    ensures a == b
  {
    DecodeEncode(a);
    DecodeEncode(b);
  }

  predicate UrlChar(c: char) {
    'A' <= c <= 'Z' || 'a' <= c <= 'z' || '0' <= c <= '9' || c == '-' || c == '_'
  }

  predicate UrlText(s: string) { forall i | 0 <= i < |s| :: UrlChar(s[i]) }

  lemma {:induction false} UrlCharsAreUrlText(v: seq<Sextet>)
    ensures UrlText(UrlChars(v)) && |UrlChars(v)| == |v|
  {
    if v != [] { UrlCharsAreUrlText(v[1..]); }
  }

  lemma {:induction false} SextetCount(bytes: seq<Byte>)
    ensures |ToSextets(bytes)| == (4 * |bytes| + 2) / 3
  {
    if |bytes| > 2 { SextetCount(bytes[3..]); }
  }

  // Only letters, digits, '-' and '_' come out, four for three bytes, with nothing for padding.
  lemma EncodedText(bytes: seq<Byte>)
    ensures UrlText(UrlEncode(bytes)) && |UrlEncode(bytes)| == (4 * |bytes| + 2) / 3
  {
    UrlEncodeIsChars(bytes);
    UrlCharsAreUrlText(ToSextets(bytes));
    SextetCount(bytes);
  }

  // ---------- the code of section 5 of RFC 4648 ----------

  lemma {:induction false} UrlCharIs(v: Sextet)
    ensures v < 26 ==> UrlCharOf(v) == "ABCDEFGHIJKLMNOPQRSTUVWXYZ"[v]
    ensures 26 <= v < 52 ==> UrlCharOf(v) == "abcdefghijklmnopqrstuvwxyz"[v - 26]
    ensures 52 <= v < 62 ==> UrlCharOf(v) == "0123456789"[v - 52]
    ensures UrlCharOf(62) == '-' && UrlCharOf(63) == '_'
  {
  }

  // Three bytes as one number make four digits to the base 64.
  lemma {:induction false} EncodedGroup(a: Byte, b: Byte, c: Byte, rest: seq<Byte>) returns (p: Sextet, q: Sextet, r: Sextet, s: Sextet)
    ensures 262144 * p as int + 4096 * q as int + 64 * r as int + s as int == 65536 * a as int + 256 * b as int + c as int
    ensures UrlEncode([a, b, c] + rest) == [UrlCharOf(p), UrlCharOf(q), UrlCharOf(r), UrlCharOf(s)] + UrlEncode(rest)
  {
    p, q, r, s := Hi(a), Mid(a, b), Low(b, c), End(c);
    MoreSextets(a, b, c, rest);
    UrlEncodeIsChars([a, b, c] + rest);
    UrlEncodeIsChars(rest);
    FourChars(p, q, r, s, ToSextets(rest));
  }

  lemma {:induction false} UrlCharsFirst(v: Sextet, rest: seq<Sextet>)
    ensures UrlChars([v] + rest) == [UrlCharOf(v)] + UrlChars(rest)
  {
    assert ([v] + rest)[1..] == rest;
  }

  lemma {:induction false} FourChars(p: Sextet, q: Sextet, r: Sextet, s: Sextet, rest: seq<Sextet>)
    ensures UrlChars([p, q, r, s] + rest) == [UrlCharOf(p), UrlCharOf(q), UrlCharOf(r), UrlCharOf(s)] + UrlChars(rest)
  {
    UrlCharsFirst(s, rest);
    UrlCharsFirst(r, [s] + rest);
    UrlCharsFirst(q, [r] + ([s] + rest));
    UrlCharsFirst(p, [q] + ([r] + ([s] + rest)));
    OneByOne(p, q, r, s, rest);
    OneByOne(UrlCharOf(p), UrlCharOf(q), UrlCharOf(r), UrlCharOf(s), UrlChars(rest));
  }

  lemma {:induction false} OneByOne<T>(a: T, b: T, c: T, d: T, rest: seq<T>)
    ensures [a, b, c, d] + rest == [a] + ([b] + ([c] + ([d] + rest)))
  {
  }

  // One byte left over makes two digits, two make three; the bits that are missing are zero.
  lemma {:induction false} EncodedByte(a: Byte) returns (p: Sextet, q: Sextet)
    ensures UrlEncode([]) == "" && UrlEncode([a]) == [UrlCharOf(p), UrlCharOf(q)]
    ensures 64 * p as int + q as int == 16 * a as int
  {
    p, q := Hi(a), Mid(a, 0);
    UrlEncodeIsChars([]);
    UrlEncodeIsChars([a]);
    UrlCharsFirst(q, []);
    UrlCharsFirst(p, [q]);
    assert [p] + [q] == [p, q] && [q] + [] == [q];
  }

  lemma {:induction false} EncodedPair(a: Byte, b: Byte) returns (p: Sextet, q: Sextet, r: Sextet)
    ensures UrlEncode([a, b]) == [UrlCharOf(p), UrlCharOf(q), UrlCharOf(r)]
    ensures 4096 * p as int + 64 * q as int + r as int == 4 * (256 * a as int + b as int)
  {
    p, q, r := Hi(a), Mid(a, b), Low(b, 0);
    UrlEncodeIsChars([a, b]);
    UrlCharsFirst(r, []);
    UrlCharsFirst(q, [r]);
    UrlCharsFirst(p, [q, r]);
    assert [p] + [q, r] == [p, q, r] && [q] + [r] == [q, r] && [r] + [] == [r];
  }

  // With their padding the texts of both codings fill up to a multiple of four.
  lemma {:induction false} PaddingFills(s: string)
    ensures |s + Padding(s)| == (|s| + 3) / 4 * 4 && forall c | c in Padding(s) :: c == '='
  {
    assert |"="| == 1 && |"=="| == 2 && |"==="| == 3;
  }

  lemma {:induction false} TrailFills(bytes: seq<Byte>)
    ensures |Encode(bytes)| == (|bytes| + 2) / 3 * 4
  {
    CharCount(ToSextets(bytes));
    SextetCount(bytes);
    TrailLength(bytes);
    FourForThree(|bytes|);
  }

  lemma {:induction false} TrailLength(bytes: seq<Byte>)
    ensures |Trail(bytes)| == if |bytes| % 3 == 0 then 0 else 3 - |bytes| % 3
  {
    assert |"="| == 1 && |"=="| == 2;
  }

  lemma {:induction false} FourForThree(n: nat)
    ensures (4 * n + 2) / 3 + (if n % 3 == 0 then 0 else 3 - n % 3) == (n + 2) / 3 * 4
  {
    var k := n / 3;
    assert n == 3 * k || n == 3 * k + 1 || n == 3 * k + 2;
  }

  lemma {:induction false} CharCount(v: seq<Sextet>)
    ensures |Chars(v)| == |v|
  {
    if v != [] { CharCount(v[1..]); }
  }

  // ---------- which texts are codes ----------

  lemma {:induction false} TextIsChars(s: string)
    requires UrlText(s)
    ensures UrlChars(Values(s)) == s
  {
    if s != "" {
      assert forall i | 0 <= i < |s[1..]| :: s[1..][i] == s[i + 1];
      TextIsChars(s[1..]);
      assert UrlChar(s[0]);
      CharBack(s[0]);
      assert Values(s)[1..] == Values(s[1..]);
      assert s == [s[0]] + s[1..];
    }
  }

  lemma CharBack(c: char)
    requires UrlChar(c)
    ensures ValueOf(c).Some? && UrlCharOf(ValueOf(c).value) == c
  {
  }

  // No sextet stands alone, and the bits no byte uses are zero.
  predicate Canonical(v: seq<Sextet>) {
    && |v| % 4 != 1
    && (|v| % 4 == 2 ==> v[|v| - 1] % 16 == 0)
    && (|v| % 4 == 3 ==> v[|v| - 1] % 4 == 0)
  }

  lemma {:induction false} SextetsForth(v: seq<Sextet>)
    ensures ToSextets(FromSextets(v)) == v <==> Canonical(v)
  {
    if |v| == 2 {
      TwoSextets(v[0], v[1]);
    } else if |v| == 3 {
      ThreeSextets(v[0], v[1], v[2]);
    } else if |v| >= 4 {
      SextetsForth(v[4..]);
      CanonicalTail(v);
      ForthStep(v);
    }
  }

  lemma CanonicalTail(v: seq<Sextet>)
    requires |v| >= 4
    ensures Canonical(v) <==> Canonical(v[4..])
  {
  }

  lemma ForthStep(v: seq<Sextet>)
    requires |v| >= 4
    ensures ToSextets(FromSextets(v)) == v <==> ToSextets(FromSextets(v[4..])) == v[4..]
  {
    FourSextets(v[0], v[1], v[2], v[3]);
    MoreSextets(First(v[0], v[1]), Second(v[1], v[2]), Third(v[2], v[3]), FromSextets(v[4..]));
    SameHead(v, ToSextets(FromSextets(v[4..])));
  }

  lemma MoreSextets(a: Byte, b: Byte, c: Byte, rest: seq<Byte>)
    ensures ToSextets([a, b, c] + rest) == [Hi(a), Mid(a, b), Low(b, c), End(c)] + ToSextets(rest)
  {
    assert ([a, b, c] + rest)[3..] == rest;
  }

  lemma SameHead(v: seq<Sextet>, rest: seq<Sextet>)
    requires |v| >= 4
    ensures [v[0], v[1], v[2], v[3]] + rest == v <==> rest == v[4..]
  {
    assert v == [v[0], v[1], v[2], v[3]] + v[4..];
    assert ([v[0], v[1], v[2], v[3]] + rest)[4..] == rest;
  }

  lemma TwoSextets(p: Sextet, q: Sextet)
    ensures Hi(First(p, q)) == p
    ensures Mid(First(p, q), 0) == q <==> q % 16 == 0
  {
  }

  lemma ThreeSextets(p: Sextet, q: Sextet, r: Sextet)
    ensures Hi(First(p, q)) == p && Mid(First(p, q), Second(q, r)) == q
    ensures Low(Second(q, r), 0) == r <==> r % 4 == 0
  {
  }

  lemma FourSextets(p: Sextet, q: Sextet, r: Sextet, s: Sextet)
    ensures Hi(First(p, q)) == p && Mid(First(p, q), Second(q, r)) == q
    ensures Low(Second(q, r), Third(r, s)) == r && End(Third(r, s)) == s
  {
  }

  // A text is the code of what it decodes to exactly if it is canonical.
  lemma EncodeDecodeIff(s: string)
    ensures UrlEncode(UrlDecode(s)) == s <==> UrlText(s) && Canonical(Values(s))
  {
    EncodedText(UrlDecode(s));
    if UrlText(s) {
      var v := Values(s);
      TextIsChars(s);
      UrlDecodeIsSextets(v);
      UrlEncodeIsChars(UrlDecode(s));
      SextetsForth(v);
      if UrlEncode(UrlDecode(s)) == s {
        UrlDecodeIsSextets(ToSextets(FromSextets(v)));
        CharsInjective(ToSextets(FromSextets(v)), v);
      }
    }
  }

  lemma {:induction false} CharsInjective(u: seq<Sextet>, v: seq<Sextet>)
    requires UrlChars(u) == UrlChars(v)
    ensures u == v
  {
    FromUrl(u);
    FromUrl(v);
    ValuesOfChars(u);
    ValuesOfChars(v);
  }
}
