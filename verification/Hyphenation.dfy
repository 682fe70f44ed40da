/**
 Names made of words and single hyphens, as server/routes/channels.ts and server/routes/workspaces.ts
 make them from free text by chains of replacements.
 */
module Hyphenation {
  // The characters each of the two keeps inside words.
  datatype Style = ChannelName | Slug

  predicate Kept(style: Style, c: char) {
    'a' <= c <= 'z' || '0' <= c <= '9' || (style.ChannelName? && c == '_')
  }

  lemma {:induction false} KeptIff(style: Style, c: char)
    ensures Kept(style, c) <==>
      c in "abcdefghijklmnopqrstuvwxyz" || c in "0123456789" || (style == ChannelName && c == '_')
  {
  }

  // ---------- the reference: maximal runs of kept characters, joined by single hyphens ----------

  function WordLength(s: string, style: Style): (n: nat)
    ensures n <= |s| && (forall i | 0 <= i < n :: Kept(style, s[i])) && (n < |s| ==> !Kept(style, s[n]))
  {
    if s == "" || !Kept(style, s[0]) then 0 else 1 + WordLength(s[1..], style)
  }

  function Words(s: string, style: Style): seq<string> {
    if s == "" then []
    else
      var n := WordLength(s, style);
      if n == 0 then Words(s[1..], style) else [s[..n]] + Words(s[n..], style)
  }

  function Joined(words: seq<string>): string {
    if words == [] then ""
    else if |words| == 1 then words[0]
    else words[0] + "-" + Joined(words[1..])
  }

  // ---------- the replacements ----------

  // Every character outside the class becomes a hyphen; a hyphen stays one.
  function Dashed(s: string, style: Style): string {
    if s == "" then "" else [if Kept(style, s[0]) then s[0] else '-'] + Dashed(s[1..], style)
  }

  // Each run of hyphens becomes one.
  function Collapse(s: string): string {
    if s == "" then ""
    else if s[0] == '-' && |s| > 1 && s[1] == '-' then Collapse(s[1..])
    else [s[0]] + Collapse(s[1..])
  }

  function StripStart(s: string): string {
    if s != "" && s[0] == '-' then StripStart(s[1..]) else s
  }

  function StripEnd(s: string): string {
    if s != "" && s[|s| - 1] == '-' then StripEnd(s[..|s| - 1]) else s
  }

  function Hyphenate(s: string, style: Style): string { StripEnd(StripStart(Collapse(Dashed(s, style)))) }

  // ---------- the normal form ----------

  predicate Plain(s: string, style: Style) { forall i | 0 <= i < |s| :: Kept(style, s[i]) || s[i] == '-' }

  predicate Single(s: string) { forall i | 0 < i < |s| :: s[i - 1] == '-' ==> s[i] != '-' }

  predicate Bare(s: string) { s != "" ==> s[0] != '-' && s[|s| - 1] != '-' }

  predicate Normal(s: string, style: Style) { Plain(s, style) && Single(s) && Bare(s) }

  lemma {:induction false} DashedIsPlain(s: string, style: Style)
    ensures Plain(Dashed(s, style), style) && |Dashed(s, style)| == |s|
  {
    if s != "" { DashedIsPlain(s[1..], style); }
  }

  lemma {:induction false} CollapseIsSingle(s: string, style: Style)
    requires Plain(s, style)
    ensures Plain(Collapse(s), style) && Single(Collapse(s))
    ensures (s == "" <==> Collapse(s) == "") && (s != "" ==> Collapse(s)[0] == s[0])
  {
    if s != "" { CollapseIsSingle(s[1..], style); }
  }

  lemma {:induction false} StripStartKeeps(s: string, style: Style)
    requires Plain(s, style) && Single(s)
    ensures var t := StripStart(s); Plain(t, style) && Single(t) && (t != "" ==> t[0] != '-')
  {
    if s != "" && s[0] == '-' {
      assert forall i | 0 <= i < |s[1..]| :: s[1..][i] == s[i + 1];
      StripStartKeeps(s[1..], style);
    }
  }

  lemma {:induction false} StripEndKeeps(s: string, style: Style)
    requires Plain(s, style) && Single(s) && (s != "" ==> s[0] != '-')
    ensures Normal(StripEnd(s), style)
  {
    if s != "" && s[|s| - 1] == '-' {
      StripEndKeeps(s[..|s| - 1], style);
    }
  }

  // Whatever goes in, a normal form comes out.
  lemma HyphenateIsNormal(s: string, style: Style)
    ensures Normal(Hyphenate(s, style), style)
  {
    DashedIsPlain(s, style);
    CollapseIsSingle(Dashed(s, style), style);
    StripStartKeeps(Collapse(Dashed(s, style)), style);
    StripEndKeeps(StripStart(Collapse(Dashed(s, style))), style);
  }

  lemma {:induction false} PlainStays(s: string, style: Style)
    requires Plain(s, style)
    ensures Dashed(s, style) == s
  {
    if s != "" {
      assert forall i | 0 <= i < |s[1..]| :: s[1..][i] == s[i + 1];
      PlainStays(s[1..], style);
    }
  }

  lemma {:induction false} SingleStays(s: string)
    requires Single(s)
    ensures Collapse(s) == s
  {
    if s != "" {
      assert forall i | 0 <= i < |s[1..]| :: s[1..][i] == s[i + 1];
      SingleStays(s[1..]);
    }
  }

  // The normal forms, and only they, stay as they are.
  lemma NormalStaysIff(s: string, style: Style)
    ensures Hyphenate(s, style) == s <==> Normal(s, style)
  {
    HyphenateIsNormal(s, style);
    if Normal(s, style) {
      PlainStays(s, style);
      SingleStays(s);
    }
  }

  // ---------- the replacements against the words ----------

  // A leading character outside the class counts for nothing.
  lemma JunkFirst(s: string, style: Style)
    requires s != "" && !Kept(style, s[0])
    ensures StripStart(Collapse(Dashed(s, style))) == StripStart(Collapse(Dashed(s[1..], style)))
  {
    var d := Dashed(s, style);
    assert d[0] == '-' && d[1..] == Dashed(s[1..], style);
    if |d| > 1 && d[1] == '-' {
      assert Collapse(d) == Collapse(d[1..]);
    } else {
      assert Collapse(d) == ['-'] + Collapse(d[1..]);
      assert Collapse(d)[1..] == Collapse(d[1..]);
    }
  }

  // Kept characters go through unchanged.
  lemma {:induction false} WordFirst(w: string, rest: string, style: Style)
    requires forall i | 0 <= i < |w| :: Kept(style, w[i])
    ensures Collapse(Dashed(w + rest, style)) == w + Collapse(Dashed(rest, style))
  {
    if w == "" {
      assert w + rest == rest;
    } else {
      assert forall i | 0 <= i < |w[1..]| :: w[1..][i] == w[i + 1];
      assert (w + rest)[1..] == w[1..] + rest;
      WordFirst(w[1..], rest, style);
      var d := Dashed(w + rest, style);
      assert d[0] == w[0] && d[0] != '-';
      assert Collapse(d) == [d[0]] + Collapse(d[1..]);
      assert w == [w[0]] + w[1..];
    }
  }

  // After a hyphen comes no other.
  lemma DashFirst(s: string, style: Style)
    requires s != "" && !Kept(style, s[0])
    ensures var c := Collapse(Dashed(s, style)); c == "-" + StripStart(c) && (StripStart(c) != "" ==> StripStart(c)[0] != '-')
  {
    DashedIsPlain(s, style);
    var d := Dashed(s, style);
    CollapseIsSingle(d, style);
    var c := Collapse(d);
    assert c[0] == '-';
    assert c == "-" + c[1..];
    if |c| > 1 { assert c[1] != '-'; }
    assert StripStart(c) == c[1..];
  }

  lemma {:induction false} StripEndTail(s: string, t: string)
    requires t != "" && t[0] != '-'
    ensures StripEnd(s + t) == s + StripEnd(t) && StripEnd(t) != ""
  {
    if t[|t| - 1] == '-' {
      assert (s + t)[..|s + t| - 1] == s + t[..|t| - 1];
      StripEndTail(s, t[..|t| - 1]);
    }
  }

  lemma StripAfterWord(w: string, x: string)
    requires w != "" && w[|w| - 1] != '-' && (x != "" ==> x[0] != '-')
    ensures StripEnd(w + "-" + x) == if x == "" then w else w + "-" + StripEnd(x)
    ensures x != "" ==> StripEnd(x) != ""
  {
    if x == "" {
      assert w + "-" + x == w + "-" && (w + "-")[..|w|] == w;
    } else {
      StripEndTail(w + "-", x);
    }
  }

  lemma StripBeforeWord(w: string, c: string)
    requires w != "" && w[0] != '-'
    ensures StripStart(w + c) == w + c
  {
    assert (w + c)[0] == w[0];
  }

  lemma WordThenRest(w: string, rest: string, style: Style)
    requires w != "" && (forall i | 0 <= i < |w| :: Kept(style, w[i])) && (rest != "" ==> !Kept(style, rest[0]))
    ensures Hyphenate(w + rest, style)
      == if Hyphenate(rest, style) == "" then w else w + "-" + Hyphenate(rest, style)
  {
    WordFirst(w, rest, style);
    var c := Collapse(Dashed(rest, style));
    assert Kept(style, w[0]) && Kept(style, w[|w| - 1]);
    StripBeforeWord(w, c);
    if rest == "" {
      assert c == "" && w + c == w;
      LastKept(w, style);
    } else {
      DashFirst(rest, style);
      var x := StripStart(c);
      assert w + c == w + "-" + x;
      StripAfterWord(w, x);
    }
  }

  lemma LastKept(w: string, style: Style)
    requires w != "" && forall i | 0 <= i < |w| :: Kept(style, w[i])
    ensures StripEnd(w) == w
  {
  }

  lemma {:induction false} JoinedEmpty(s: string, style: Style)
    ensures forall i | 0 <= i < |Words(s, style)| :: Words(s, style)[i] != ""
    ensures Joined(Words(s, style)) == "" <==> Words(s, style) == []
    decreases |s|
  {
    if s != "" {
      var n := WordLength(s, style);
      JoinedEmpty(if n == 0 then s[1..] else s[n..], style);
    }
  }

  // The chain of replacements gives the words of the text joined by single hyphens.
  lemma {:induction false} HyphenateIsJoinedWords(s: string, style: Style)
    ensures Hyphenate(s, style) == Joined(Words(s, style))
    decreases |s|
  {
    if s != "" {
      var n := WordLength(s, style);
      if n == 0 {
        JunkFirst(s, style);
        HyphenateIsJoinedWords(s[1..], style);
      } else {
        var w, rest := s[..n], s[n..];
        assert s == w + rest;
        WordThenRest(w, rest, style);
        HyphenateIsJoinedWords(rest, style);
        JoinedEmpty(rest, style);
        assert ([w] + Words(rest, style))[1..] == Words(rest, style);
      }
    }
  }

  // ---------- one hyphen for a whole run at once ----------

  // The slug's first replacement takes whole runs of other characters.
  function Squashed(s: string, style: Style): string {
    if s == "" then ""
    else if Kept(style, s[0]) then [s[0]] + Squashed(s[1..], style)
    else if |s| > 1 && !Kept(style, s[1]) then Squashed(s[1..], style)
    else "-" + Squashed(s[1..], style)
  }

  lemma {:induction false} SquashedIsCollapsed(s: string, style: Style)
    ensures Squashed(s, style) == Collapse(Dashed(s, style))
  {
    if s != "" {
      SquashedIsCollapsed(s[1..], style);
      var d := Dashed(s, style);
      assert d[1..] == Dashed(s[1..], style);
      if |s| > 1 {
        assert d[1] == Dashed(s[1..], style)[0];
      }
    }
  }

  // `replace(/^-|-$/g, '')`: one hyphen at either end.
  function StripOne(s: string): string {
    var t := if s != "" && s[0] == '-' then s[1..] else s;
    if t != "" && t[|t| - 1] == '-' then t[..|t| - 1] else t
  }

  lemma StripOneIsEnough(s: string)
    requires Single(s)
    ensures StripOne(s) == StripEnd(StripStart(s))
  {
    var t := if s != "" && s[0] == '-' then s[1..] else s;
    if s != "" && s[0] == '-' && |s| > 1 { assert s[1 - 1] == '-' ==> s[1] != '-'; }
    assert StripStart(s) == t;
    if t != "" && t[|t| - 1] == '-' && |t| > 1 {
      SingleAt(s, |s| - 1);
      assert t[|t| - 2] == s[|s| - 2];
    }
  }

  lemma SingleAt(s: string, i: int)
    requires Single(s) && 0 < i < |s| && s[i] == '-'
    ensures s[i - 1] != '-'
  {
  }

  // The slug's two replacements do the same as the channel's three.
  lemma SlugReplacements(s: string)
    ensures StripOne(Squashed(s, Slug)) == Hyphenate(s, Slug)
  {
    DashedIsPlain(s, Slug);
    CollapseIsSingle(Dashed(s, Slug), Slug);
    SquashedIsCollapsed(s, Slug);
    StripOneIsEnough(Squashed(s, Slug));
  }
}
