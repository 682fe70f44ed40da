/**
 `normalizeIdentifier` of server/security.ts. What counts as white space and what lower-casing
 does to a string are those of the language; only the facts below are used about them.
 */
module Identifiers {

  datatype Text = Text(lower: string -> string, space: char -> bool)

  predicate UserChar(c: char) { 'a' <= c <= 'z' || '0' <= c <= '9' || c == '_' || c == '.' }

  predicate UserName(s: string) { forall i | 0 <= i < |s| :: UserChar(s[i]) }

  predicate Trimmed(text: Text, s: string) {
    s == [] || (!text.space(s[0]) && !text.space(s[|s| - 1]))
  }

  ghost predicate Plausible(text: Text) {
    && (forall s: string :: text.lower(text.lower(s)) == text.lower(s))
    && (forall s: string :: UserName(s) ==> text.lower(s) == s)
    && (forall s: string :: Trimmed(text, s) ==> Trimmed(text, text.lower(s)))
    && (forall s: string :: text.lower(s) == [] <==> s == [])
    && (forall c | UserChar(c) :: !text.space(c))
  }

  function TrimStart(text: Text, s: string): (r: string)
    ensures r == [] || !text.space(r[0])
    ensures r != [] && s != [] ==> r[|r| - 1] == s[|s| - 1]
  {
    if s != [] && text.space(s[0]) then TrimStart(text, s[1..]) else s
  }

  function TrimEnd(text: Text, s: string): (r: string)
    ensures r == [] || !text.space(r[|r| - 1])
    ensures r != [] && s != [] ==> r[0] == s[0]
  {
    if s != [] && text.space(s[|s| - 1]) then TrimEnd(text, s[..|s| - 1]) else s
  }

  function Trim(text: Text, s: string): (r: string)
    ensures Trimmed(text, r)
    ensures Trimmed(text, s) ==> r == s
  {
    TrimEnd(text, TrimStart(text, s))
  }

  // `replace(/[^a-z0-9_.]/g, '_')`
  function Underscored(s: string): (r: string)
    ensures |r| == |s| && UserName(r)
    ensures forall i | 0 <= i < |s| && UserChar(s[i]) :: r[i] == s[i]
  {
    seq(|s|, i requires 0 <= i < |s| => if UserChar(s[i]) then s[i] else '_')
  }

  function NormalizeEmail(text: Text, s: string): string {
    if s == [] then [] else text.lower(Trim(text, s))
  }

  function NormalizeUserName(text: Text, s: string): string {
    if s == [] then [] else Underscored(text.lower(Trim(text, s)))
  }

  function Normalize(text: Text, s: string): string {
    if s == [] then []
    else
      var trimmed := text.lower(Trim(text, s));
      if '@' in trimmed then NormalizeEmail(text, trimmed) else NormalizeUserName(text, trimmed)
  }

  lemma {:induction false} UserCharIff(c: char)
    ensures UserChar(c) <==> c in "abcdefghijklmnopqrstuvwxyz" || c in "0123456789" || c == '_' || c == '.'
  {
  }

  // Trimming cuts white space off both ends, all of it and nothing else.
  lemma {:induction false} TrimExactly(text: Text, s: string)
    ensures exists i, j | 0 <= i <= j <= |s| :: Trim(text, s) == s[i..j] && CutsSpace(text, s, i, j)
  {
    var i := StartsAt(text, s);
    var t := TrimStart(text, s);
    var j := EndsAt(text, t);
    assert Trim(text, s) == s[i..i + j];
    assert forall k | j <= k < |t| :: t[k] == s[i + k];
    assert CutsSpace(text, s, i, i + j);
  }

  ghost predicate CutsSpace(text: Text, s: string, i: int, j: int)
    requires 0 <= i <= j <= |s|
  {
    && (forall k | 0 <= k < |s| && (k < i || j <= k) :: text.space(s[k]))
    && (i < j ==> !text.space(s[i]) && !text.space(s[j - 1]))
  }

  lemma {:induction false} StartsAt(text: Text, s: string) returns (i: nat)
    ensures i <= |s| && TrimStart(text, s) == s[i..] && forall k | 0 <= k < i :: text.space(s[k])
  {
    i := 0;
    if s != [] && text.space(s[0]) {
      var n := StartsAt(text, s[1..]);
      assert forall k | 0 < k < n + 1 :: s[k] == s[1..][k - 1];
      i := n + 1;
    }
  }

  lemma {:induction false} EndsAt(text: Text, s: string) returns (j: nat)
    ensures j <= |s| && TrimEnd(text, s) == s[..j] && forall k | j <= k < |s| :: text.space(s[k])
  {
    j := |s|;
    assert s[..|s|] == s;
    if s != [] && text.space(s[|s| - 1]) {
      var most := s[..|s| - 1];
      j := EndsAt(text, most);
      assert most[..j] == s[..j];
      assert forall k | j <= k < |most| :: s[k] == most[k];
    }
  }

  // An identifier with an at sign is an address and stays as it is once trimmed and lower-cased; in any
  // other, each character that is no small letter, digit, underscore or dot becomes an underscore.
  lemma {:induction false} NormalizedExactly(text: Text, s: string, i: nat)
    requires Plausible(text) && i < |Normalize(text, s)|
    ensures var t, r := text.lower(Trim(text, s)), Normalize(text, s);
      && |r| == |t|
      && r[i] == if '@' in t || t[i] in "abcdefghijklmnopqrstuvwxyz" || t[i] in "0123456789" || t[i] == '_' || t[i] == '.'
                 then t[i] else '_'
  {
    var t := text.lower(Trim(text, s));
    assert Trimmed(text, t);
    assert text.lower(t) == t;
    if '@' !in t { UserCharIff(t[i]); }
  }

  // The login handler normalizes an identifier before it passes it on, and the lockout functions
  // normalize again: both meet at the same key.
  lemma NormalizeIdempotent(text: Text, s: string)
    requires Plausible(text)
    ensures Normalize(text, Normalize(text, s)) == Normalize(text, s)
  {
    var t := text.lower(Trim(text, s));
    assert Trimmed(text, t);
    if s == [] {
    } else if '@' in t {
      assert Normalize(text, s) == t;
    } else {
      var u := Normalize(text, s);
      assert UserName(u) && text.lower(u) == u;
      assert Trimmed(text, u);
      assert Underscored(u) == u;
    }
  }

  // An identifier that is not blank keeps a key that is not blank.
  lemma NormalizeKeepsContent(text: Text, s: string)
    requires Plausible(text) && Trim(text, s) != []
    ensures Normalize(text, s) != []
  {
    NormalizeNotBlank(text, text.lower(Trim(text, s)));
  }

  lemma NormalizeNotBlank(text: Text, t: string)
    requires Plausible(text) && t != [] && Trimmed(text, t)
    ensures NormalizeEmail(text, t) != [] && NormalizeUserName(text, t) != []
  {
  }
}
