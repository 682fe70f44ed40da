/** The unique-slug loop of server/routes/workspaces.ts. */
module Slugs {
  import opened Hyphenation

  // ---------- decimal numerals ----------

  function Digit(n: nat): char
    requires n < 10
  {
    '0' + n as char
  }

  function Decimal(n: nat): (s: string)
    ensures s != "" && forall i | 0 <= i < |s| :: '0' <= s[i] <= '9'
  {
    if n < 10 then [Digit(n)] else Decimal(n / 10) + [Digit(n % 10)]
  }

  function ValueOf(s: string): int {
    if s == "" then 0 else 10 * ValueOf(s[..|s| - 1]) + (s[|s| - 1] as int - '0' as int)
  }

  lemma {:induction false} DecimalBack(n: nat)
    ensures ValueOf(Decimal(n)) == n
  {
    var s := Decimal(n);
    if n < 10 {
      assert s[..0] == "";
    } else {
      DecimalBack(n / 10);
      assert s[..|s| - 1] == Decimal(n / 10);
    }
  }

  // ---------- candidates ----------

  // The base itself, then base-1, base-2, ...
  function Candidate(base: string, k: nat): string {
    if k == 0 then base else base + "-" + Decimal(k)
  }

  // The first candidate is the base, the k-th after it ends in the numeral of k, without leading zeros.
  lemma {:induction false} CandidateExactly(base: string, k: nat)
    ensures Candidate(base, 0) == base && Candidate(base, 1) == base + "-1"
    ensures k > 0 ==>
      var digits := Decimal(k);
      Candidate(base, k) == base + "-" + digits && ValueOf(digits) == k && digits[0] != '0'
  {
    DecimalBack(k);
    if k > 0 { LeadingDigit(k); }
  }

  lemma {:induction false} LeadingDigit(n: nat)
    requires n > 0
    ensures Decimal(n)[0] != '0'
  {
    if n >= 10 { LeadingDigit(n / 10); }
  }

  lemma CandidatesDiffer(base: string, j: nat, k: nat)
    requires j != k
    ensures Candidate(base, j) != Candidate(base, k)
  {
    if Candidate(base, j) == Candidate(base, k) {
      if j == 0 || k == 0 {
        assert false;
      } else {
        SamePrefix(base + "-", Decimal(j), Decimal(k));
        DecimalBack(j);
        DecimalBack(k);
      }
    }
  }

  lemma SamePrefix(s: string, t: string, u: string)
    requires s + t == s + u
    ensures t == u
  {
    assert (s + t)[|s|..] == t && (s + u)[|s|..] == u;
  }

  function Elements(slugs: seq<string>): set<string> { set s | s in slugs }

  // `k` is the number of collisions, the first number whose candidate is free.
  ghost predicate FirstFree(slugs: seq<string>, base: string, k: nat) {
    Candidate(base, k) !in slugs && forall j: nat | j < k :: Candidate(base, j) in slugs
  }

  // The loop ends after at most as many collisions as there are different slugs, at the first free
  // candidate.
  method UniqueSlug(slugs: seq<string>, base: string) returns (slug: string)
    ensures slug !in slugs
    ensures exists k: nat :: FirstFree(slugs, base, k) && slug == Candidate(base, k) && k <= |Elements(slugs)| <= |slugs|
  {
    slug := base;
    var counter := 1;
    ghost var seen: set<string> := {};
    ghost var collisions: nat := 0;
    ElementCount(slugs);
    while slug in slugs
      invariant counter == collisions + 1 && slug == Candidate(base, collisions)
      invariant forall j: nat | j < collisions :: Candidate(base, j) in slugs
      invariant forall s | s in seen :: exists j: nat :: j < collisions && s == Candidate(base, j)
      invariant seen <= Elements(slugs) && |seen| == collisions
      decreases |Elements(slugs)| - |seen|
    {
      if slug in seen {
        var j: nat :| j < collisions && slug == Candidate(base, j);
        CandidatesDiffer(base, j, collisions);
        assert false;
      }
      SubsetCount(seen + {slug}, Elements(slugs));
      seen := seen + {slug};
      slug := base + "-" + Decimal(counter);
      counter := counter + 1;
      collisions := collisions + 1;
    }
    SubsetCount(seen, Elements(slugs));
    assert FirstFree(slugs, base, collisions);
  }

  lemma {:induction false} SubsetCount(a: set<string>, b: set<string>)
    requires a <= b
    ensures |a| <= |b|
  {
    if a != {} {
      var x :| x in a;
      SubsetCount(a - {x}, b - {x});
    }
  }

  lemma {:induction false} ElementCount(slugs: seq<string>)
    ensures |Elements(slugs)| <= |slugs|
  {
    if slugs != [] {
      var n := |slugs| - 1;
      ElementCount(slugs[..n]);
      assert Elements(slugs) == Elements(slugs[..n]) + {slugs[n]};
    }
  }

  // ---------- the base ----------

  // `cleaned` is the trimmed, filtered and lower-cased name.
  function BaseSlug(cleaned: string, now: nat): string {
    var slug := StripOne(Squashed(cleaned, Slug));
    if slug == "" then "workspace-" + Decimal(now) else slug
  }

  // The words of the name joined by single hyphens; a name without any gets a time stamp instead.
  lemma BaseIsJoinedWords(cleaned: string, now: nat)
    ensures var words := Words(cleaned, Slug);
      BaseSlug(cleaned, now) == if words == [] then "workspace-" + Decimal(now) else Joined(words)
  {
    SlugReplacements(cleaned);
    HyphenateIsJoinedWords(cleaned, Slug);
    JoinedEmpty(cleaned, Slug);
  }

  lemma NumberedIsNormal(base: string, k: nat)
    requires Normal(base, Slug) && base != "" && k > 0
    ensures Normal(base + "-" + Decimal(k), Slug)
  {
    var s, d := base + "-" + Decimal(k), Decimal(k);
    assert s == base + ("-" + d);
    forall i | 0 <= i < |s| ensures Kept(Slug, s[i]) || s[i] == '-' {
      if i > |base| { assert s[i] == d[i - |base| - 1]; }
    }
    forall i | 0 < i < |s| ensures s[i - 1] == '-' ==> s[i] != '-' {
      if i > |base| { assert s[i] == d[i - |base| - 1]; }
      if i == |base| { assert s[i - 1] == base[|base| - 1]; }
      if i < |base| { assert base[i - 1] == '-' ==> base[i] != '-'; }
    }
    assert s[0] == base[0] && s[|s| - 1] == d[|d| - 1];
  }

  // Every slug that comes out, numbered or not, is words joined by single hyphens.
  lemma SlugIsNormal(cleaned: string, now: nat, k: nat)
    ensures Normal(Candidate(BaseSlug(cleaned, now), k), Slug) && Candidate(BaseSlug(cleaned, now), k) != ""
  {
    SlugReplacements(cleaned);
    HyphenateIsNormal(cleaned, Slug);
    var base := BaseSlug(cleaned, now);
    if StripOne(Squashed(cleaned, Slug)) == "" {
      TimeStampIsNormal(now);
    }
    if k > 0 { NumberedIsNormal(base, k); }
  }

  lemma TimeStampIsNormal(now: nat)
    ensures Normal("workspace-" + Decimal(now), Slug)
  {
    if now > 0 {
      assert Normal("workspace", Slug);
      NumberedIsNormal("workspace", now);
      assert "workspace" + "-" + Decimal(now) == "workspace-" + Decimal(now);
    } else {
      assert "workspace-" + Decimal(0) == "workspace-0";
    }
  }

  // ---------- the list of workspaces ----------

  ghost predicate Distinct(slugs: seq<string>) { forall i, j | 0 <= i < j < |slugs| :: slugs[i] != slugs[j] }

  class WorkspaceList {
    var slugs: seq<string>

    constructor ()
      ensures slugs == []
    {
      slugs := [];
    }

    // The slugs stay distinct: nothing runs between the loop and the push.
    method CreateWorkspace(cleaned: string, now: nat) returns (slug: string)
      modifies this
      ensures slugs == old(slugs) + [slug]
      ensures exists k: nat :: FirstFree(old(slugs), BaseSlug(cleaned, now), k) && slug == Candidate(BaseSlug(cleaned, now), k)
      ensures Distinct(old(slugs)) ==> Distinct(slugs)
      ensures Normal(slug, Slug) && slug != ""
    {
      slug := UniqueSlug(slugs, BaseSlug(cleaned, now));
      ghost var k: nat :| FirstFree(slugs, BaseSlug(cleaned, now), k) && slug == Candidate(BaseSlug(cleaned, now), k);
      SlugIsNormal(cleaned, now, k);
      slugs := slugs + [slug];
    }
  }
}
