/**
 Channel names in server/routes/channels.ts: the normal form, and its uniqueness among the live
 channels of a workspace over every run of creations and deletions.
 */
module ChannelNames {
  import opened Wrappers
  import opened Hyphenation
  import Identifiers

  // The tag filter of server/security.ts, and what the language does to case and white space.
  datatype Text = Text(sanitize: string -> string, basic: Identifiers.Text)

  // `replace(/^#+/, '')`
  function StripHashes(s: string): string {
    if s != "" && s[0] == '#' then StripHashes(s[1..]) else s
  }

  function NormalizeChannelName(text: Text, raw: string): string {
    Hyphenate(StripHashes(Identifiers.Trim(text.basic, text.basic.lower(text.sanitize(raw)))), ChannelName)
  }

  // The filter and the lower-casing leave normal forms alone, and nothing kept is white space.
  ghost predicate Plausible(text: Text) {
    && (forall s: string | Normal(s, ChannelName) :: text.sanitize(s) == s && text.basic.lower(s) == s)
    && (forall c: char | text.basic.space(c) :: !Kept(ChannelName, c) && c != '-')
  }

  // ---------- the normal form ----------

  lemma NormalizedIsNormal(text: Text, raw: string)
    ensures Normal(NormalizeChannelName(text, raw), ChannelName)
  {
    HyphenateIsNormal(StripHashes(Identifiers.Trim(text.basic, text.basic.lower(text.sanitize(raw)))), ChannelName);
  }

  lemma NormalFormStays(text: Text, s: string)
    requires Plausible(text) && Normal(s, ChannelName)
    ensures NormalizeChannelName(text, s) == s
  {
    NormalStaysIff(s, ChannelName);
    if s != "" {
      assert Kept(ChannelName, s[0]) && Kept(ChannelName, s[|s| - 1]);
    }
    assert Identifiers.Trimmed(text.basic, s);
  }

  lemma NormalizeIdempotent(text: Text, raw: string)
    requires Plausible(text)
    ensures NormalizeChannelName(text, NormalizeChannelName(text, raw)) == NormalizeChannelName(text, raw)
  {
    NormalizedIsNormal(text, raw);
    NormalFormStays(text, NormalizeChannelName(text, raw));
  }

  // The names that occur are exactly the normal forms.
  lemma ImageIff(text: Text, s: string)
    requires Plausible(text)
    ensures (exists raw :: NormalizeChannelName(text, raw) == s) <==> Normal(s, ChannelName)
  {
    if exists raw :: NormalizeChannelName(text, raw) == s {
      var raw :| NormalizeChannelName(text, raw) == s;
      NormalizedIsNormal(text, raw);
    }
    if Normal(s, ChannelName) {
      NormalFormStays(text, s);
    }
  }

  // ---------- the words of the text ----------

  lemma {:induction false} JunkLast(s: string, c: char, style: Style)
    requires !Kept(style, c)
    ensures Words(s + [c], style) == Words(s, style)
    decreases |s|
  {
    var t := s + [c];
    if s == "" {
      assert t[1..] == "";
    } else {
      SameWordLength(s, c, style);
      var n := WordLength(s, style);
      if n == 0 {
        assert t[1..] == s[1..] + [c];
        JunkLast(s[1..], c, style);
      } else {
        assert t[..n] == s[..n] && t[n..] == s[n..] + [c];
        JunkLast(s[n..], c, style);
      }
    }
  }

  lemma {:induction false} SameWordLength(s: string, c: char, style: Style)
    requires !Kept(style, c)
    ensures WordLength(s + [c], style) == WordLength(s, style)
  {
    if s != "" {
      assert (s + [c])[1..] == s[1..] + [c];
      SameWordLength(s[1..], c, style);
    }
  }

  lemma {:induction false} TrimStartWords(basic: Identifiers.Text, s: string, style: Style)
    requires forall c: char | basic.space(c) :: !Kept(style, c)
    ensures Words(Identifiers.TrimStart(basic, s), style) == Words(s, style)
  {
    if s != "" && basic.space(s[0]) { TrimStartWords(basic, s[1..], style); }
  }

  lemma {:induction false} TrimEndWords(basic: Identifiers.Text, s: string, style: Style)
    requires forall c: char | basic.space(c) :: !Kept(style, c)
    ensures Words(Identifiers.TrimEnd(basic, s), style) == Words(s, style)
  {
    if s != "" && basic.space(s[|s| - 1]) {
      var n := |s| - 1;
      TrimEndWords(basic, s[..n], style);
      assert s == s[..n] + [s[n]];
      JunkLast(s[..n], s[n], style);
    }
  }

  lemma {:induction false} StripHashesWords(s: string)
    ensures Words(StripHashes(s), ChannelName) == Words(s, ChannelName)
  {
    if s != "" && s[0] == '#' { StripHashesWords(s[1..]); }
  }

  // A channel name is the words of the cleaned text joined by single hyphens: trimming and dropping
  // leading hash signs change nothing.
  lemma NameIsJoinedWords(text: Text, raw: string)
    requires Plausible(text)
    ensures NormalizeChannelName(text, raw) == Joined(Words(text.basic.lower(text.sanitize(raw)), ChannelName))
  {
    var s := text.basic.lower(text.sanitize(raw));
    var trimmed := Identifiers.Trim(text.basic, s);
    TrimStartWords(text.basic, s, ChannelName);
    TrimEndWords(text.basic, Identifiers.TrimStart(text.basic, s), ChannelName);
    StripHashesWords(trimmed);
    HyphenateIsJoinedWords(StripHashes(trimmed), ChannelName);
  }

  // ---------- the channels of a workspace ----------

  datatype Channel = Channel(id: nat, workspaceId: nat, name: string, normalizedName: string, deletedAt: Option<int>)

  datatype Outcome = Created(channel: Channel) | InvalidName | ChannelExists

  predicate Clashes(c: Channel, workspaceId: nat, name: string) {
    c.workspaceId == workspaceId && (c.normalizedName == name || c.name == name) && c.deletedAt.None?
  }

  predicate Taken(channels: seq<Channel>, workspaceId: nat, name: string) {
    exists c | c in channels :: Clashes(c, workspaceId, name)
  }

  function Create(channels: seq<Channel>, text: Text, id: nat, workspaceId: nat, raw: string): (seq<Channel>, Outcome) {
    if Identifiers.Trim(text.basic, raw) == "" then (channels, InvalidName)
    else
      var name := NormalizeChannelName(text, raw);
      if name == "" then (channels, InvalidName)
      else if Taken(channels, workspaceId, name) then (channels, ChannelExists)
      else
        var channel := Channel(id, workspaceId, name, name, None);
        (channels + [channel], Created(channel))
  }

  // The first channel with this id in the workspace, deleted or not.
  function FindChannel(channels: seq<Channel>, id: nat, workspaceId: nat): (r: Option<nat>)
    ensures r.Some? ==> r.value < |channels| && channels[r.value].id == id && channels[r.value].workspaceId == workspaceId
    ensures r.Some? ==> forall j | 0 <= j < r.value :: channels[j].id != id || channels[j].workspaceId != workspaceId
    ensures r.None? ==> forall c | c in channels :: c.id != id || c.workspaceId != workspaceId
  {
    if channels == [] then None
    else
      var n: nat := |channels| - 1;
      var earlier := FindChannel(channels[..n], id, workspaceId);
      if earlier.Some? then earlier
      else if channels[n].id == id && channels[n].workspaceId == workspaceId then Some(n)
      else None
  }

  function Delete(channels: seq<Channel>, id: nat, workspaceId: nat, now: int): seq<Channel> {
    var i := FindChannel(channels, id, workspaceId);
    if i.None? then channels else channels[i.value := channels[i.value].(deletedAt := Some(now))]
  }

  datatype Step = DoCreate(id: nat, workspaceId: nat, raw: string) | DoDelete(id: nat, workspaceId: nat, now: int)

  function Next(channels: seq<Channel>, text: Text, step: Step): seq<Channel> {
    match step
    case DoCreate(id, workspaceId, raw) => Create(channels, text, id, workspaceId, raw).0
    case DoDelete(id, workspaceId, now) => Delete(channels, id, workspaceId, now)
  }

  function Run(text: Text, steps: seq<Step>): seq<Channel> {
    if steps == [] then [] else Next(Run(text, steps[..|steps| - 1]), text, steps[|steps| - 1])
  }

  predicate Proper(c: Channel) { c.name == c.normalizedName && c.name != "" && Normal(c.name, ChannelName) }

  predicate Apart(a: Channel, b: Channel) {
    a.deletedAt.None? && b.deletedAt.None? && a.workspaceId == b.workspaceId ==> a.name != b.name
  }

  ghost predicate Inv(channels: seq<Channel>) {
    && (forall i | 0 <= i < |channels| :: Proper(channels[i]))
    && (forall i, j | 0 <= i < j < |channels| :: Apart(channels[i], channels[j]))
  }

  lemma CreateKeeps(channels: seq<Channel>, text: Text, id: nat, workspaceId: nat, raw: string)
    requires Inv(channels)
    ensures Inv(Create(channels, text, id, workspaceId, raw).0)
  {
    NormalizedIsNormal(text, raw);
    var (after, outcome) := Create(channels, text, id, workspaceId, raw);
    if outcome.Created? {
      forall i, j | 0 <= i < j < |after| ensures Apart(after[i], after[j]) {
        if j < |channels| {
          assert Apart(channels[i], channels[j]);
        } else {
          assert channels[i] in channels && !Clashes(channels[i], workspaceId, outcome.channel.name);
        }
      }
    }
  }

  lemma DeleteKeeps(channels: seq<Channel>, id: nat, workspaceId: nat, now: int)
    requires Inv(channels)
    ensures Inv(Delete(channels, id, workspaceId, now))
  {
    var after := Delete(channels, id, workspaceId, now);
    forall i | 0 <= i < |after| ensures Proper(after[i]) { assert Proper(channels[i]); }
    forall i, j | 0 <= i < j < |after| ensures Apart(after[i], after[j]) { assert Apart(channels[i], channels[j]); }
  }

  // No run gives two live channels of a workspace one name, and every name is a normal form.
  lemma {:induction false} LiveNamesAreUnique(text: Text, steps: seq<Step>)
    ensures Inv(Run(text, steps))
  {
    if steps != [] {
      var before := Run(text, steps[..|steps| - 1]);
      LiveNamesAreUnique(text, steps[..|steps| - 1]);
      match steps[|steps| - 1] {
        case DoCreate(id, workspaceId, raw) => CreateKeeps(before, text, id, workspaceId, raw);
        case DoDelete(id, workspaceId, now) => DeleteKeeps(before, id, workspaceId, now);
      }
    }
  }

  lemma {:induction false} RunExactly(text: Text, steps: seq<Step>)
    requires steps != []
    ensures var before, last := Run(text, steps[..|steps| - 1]), steps[|steps| - 1];
      && Run(text, []) == []
      && (last.DoCreate? ==> Run(text, steps) == Create(before, text, last.id, last.workspaceId, last.raw).0)
      && (last.DoDelete? ==> Run(text, steps) == Delete(before, last.id, last.workspaceId, last.now))
  {
  }

  // A creation is refused as invalid exactly if the name is blank or has no words, and as existing
  // exactly if a live channel of the workspace already has the words for its name.
  lemma CreateAnswers(channels: seq<Channel>, text: Text, id: nat, workspaceId: nat, raw: string)
    requires Plausible(text) && Inv(channels)
    ensures var outcome := Create(channels, text, id, workspaceId, raw).1;
      var words := Words(text.basic.lower(text.sanitize(raw)), ChannelName);
      var taken := exists c | c in channels :: c.workspaceId == workspaceId && c.deletedAt.None? && c.name == Joined(words);
      && (outcome.InvalidName? <==> Identifiers.Trim(text.basic, raw) == "" || words == [])
      && (outcome.ChannelExists? <==> !outcome.InvalidName? && taken)
  {
    var s := text.basic.lower(text.sanitize(raw));
    NameIsJoinedWords(text, raw);
    JoinedEmpty(s, ChannelName);
    var name := NormalizeChannelName(text, raw);
    forall c | c in channels
      ensures Clashes(c, workspaceId, name) <==> c.workspaceId == workspaceId && c.deletedAt.None? && c.name == name
    {
      var i :| 0 <= i < |channels| && channels[i] == c;
      assert Proper(channels[i]);
    }
  }

  // A creation that is not refused adds one live channel behind the others; the name is the one above.
  lemma {:induction false} CreateExactly(channels: seq<Channel>, text: Text, id: nat, workspaceId: nat, raw: string)
    requires Plausible(text)
    ensures var (after, outcome) := Create(channels, text, id, workspaceId, raw);
      var name := Joined(Words(text.basic.lower(text.sanitize(raw)), ChannelName));
      if outcome.Created? then
        outcome.channel == Channel(id, workspaceId, name, name, None) && after == channels + [outcome.channel]
      else after == channels
  {
    NameIsJoinedWords(text, raw);
  }

  // A deletion marks the first channel with the id in the workspace, and changes nothing else.
  lemma {:induction false} DeleteExactly(channels: seq<Channel>, id: nat, workspaceId: nat, now: int, i: nat)
    requires i < |channels|
    ensures var c, after := channels[i], Delete(channels, id, workspaceId, now);
      var first := forall j | 0 <= j < i :: channels[j].id != id || channels[j].workspaceId != workspaceId;
      && |after| == |channels|
      && after[i] == if c.id == id && c.workspaceId == workspaceId && first
                     then Channel(id, workspaceId, c.name, c.normalizedName, Some(now)) else c
  {
  }

  // While a channel lives its name is taken; deleting it frees the name.
  lemma DeletionFreesTheName(channels: seq<Channel>, text: Text, i: nat, id: nat, raw: string, now: int)
    requires Inv(channels) && i < |channels| && channels[i].deletedAt.None?
    requires FindChannel(channels, channels[i].id, channels[i].workspaceId) == Some(i)
    requires Identifiers.Trim(text.basic, raw) != "" && NormalizeChannelName(text, raw) == channels[i].name
    ensures Create(channels, text, id, channels[i].workspaceId, raw).1 == ChannelExists
    ensures Create(Delete(channels, channels[i].id, channels[i].workspaceId, now), text, id, channels[i].workspaceId, raw).1.Created?
  {
    var c := channels[i];
    assert Proper(c);
    assert Clashes(c, c.workspaceId, c.name);
    var after := Delete(channels, c.id, c.workspaceId, now);
    forall d | d in after ensures !Clashes(d, c.workspaceId, c.name) {
      var j :| 0 <= j < |after| && after[j] == d;
      assert Proper(channels[j]);
      if j < i { assert Apart(channels[j], channels[i]); }
      if j > i { assert Apart(channels[i], channels[j]); }
    }
  }

  // ---------- the list the handlers update ----------

  class ChannelDirectory {
    var channels: seq<Channel>

    constructor ()
      ensures channels == []
    {
      channels := [];
    }

    // Check and push: no other request runs in between.
    method CreateChannel(text: Text, id: nat, workspaceId: nat, raw: string) returns (outcome: Outcome)
      modifies this
      ensures (channels, outcome) == Create(old(channels), text, id, workspaceId, raw)
    {
      if Identifiers.Trim(text.basic, raw) == "" { return InvalidName; }
      var cleanName := NormalizeChannelName(text, raw);
      if cleanName == "" { return InvalidName; }
      for i := 0 to |channels|
        invariant channels == old(channels)
        invariant forall c | c in channels[..i] :: !Clashes(c, workspaceId, cleanName)
      {
        if Clashes(channels[i], workspaceId, cleanName) { return ChannelExists; }
      }
      assert channels[..|channels|] == channels;
      var channel := Channel(id, workspaceId, cleanName, cleanName, None);
      channels := channels + [channel];
      outcome := Created(channel);
    }

    method DeleteChannel(id: nat, workspaceId: nat, now: int) returns (found: bool)
      modifies this
      ensures channels == Delete(old(channels), id, workspaceId, now)
      ensures found <==> exists c | c in old(channels) :: c.id == id && c.workspaceId == workspaceId
    {
      var i := FindChannel(channels, id, workspaceId);
      found := i.Some?;
      if found {
        channels := channels[i.value := channels[i.value].(deletedAt := Some(now))];
      }
    }
  }
}
