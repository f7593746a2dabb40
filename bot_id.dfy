// Recognition of a routing directive: the pattern
//   \[(?P<bot_id>[a-zA-Z0-9\-]{4,15})\]$
// applied with re.match, i.e. anchored at the start of the string, where `$`
// matches at the end of the string or just before one final newline.

module BotId {
  import opened Protocol

  const MinIdLength: nat := 4
  const MaxIdLength: nat := 15

  predicate IsBotIdChar(c: char)
  {
    ('a' <= c <= 'z') || ('A' <= c <= 'Z') || ('0' <= c <= '9') || c == '-'
  }

  /** A bot name as the pattern accepts it: 4 to 15 letters, digits or hyphens. */
  predicate ValidBotId(id: string)
  {
    MinIdLength <= |id| <= MaxIdLength && forall k :: 0 <= k < |id| ==> IsBotIdChar(id[k])
  }

  /** The bracketed form a user types to address a bot, and the form of every
      suggested reply. */
  function Bracketed(id: string): string
  {
    "[" + id + "]"
  }

  /** `s` is a directive addressing `id`: the bracketed name, optionally
      followed by a single newline, and nothing else. */
  predicate IsDirective(s: string, id: string)
  {
    ValidBotId(id) && (s == Bracketed(id) || s == Bracketed(id) + "\n")
  }

  /** The greedy scan of `[a-zA-Z0-9\-]{0,limit}` from position i: the length
      of the longest run of name characters, stopping after `limit`. */
  function IdRun(s: string, i: nat, limit: nat): (n: nat)
    requires i <= |s|
    ensures i + n <= |s| && n <= limit
    ensures forall k :: i <= k < i + n ==> IsBotIdChar(s[k])
    ensures n < limit && i + n < |s| ==> !IsBotIdChar(s[i + n])
    decreases limit
  {
    if limit == 0 || i == |s| || !IsBotIdChar(s[i]) then 0
    else 1 + IdRun(s, i + 1, limit - 1)
  }

  /** identify_bot_id: the addressed bot's name when the whole of `s` is a
      directive, None otherwise. */
  function IdentifyBotId(s: string): (r: Option<string>)
    ensures r.Some? ==> IsDirective(s, r.value)
    ensures r.Some? ==> r.value != ModeratorId
  {
    if s == [] || s[0] != '[' then None
    else
      var n := IdRun(s, 1, MaxIdLength);
      var rest := s[1 + n..];
      if MinIdLength <= n && (rest == "]" || rest == "]\n") then
        var id := s[1..1 + n];
        assert forall j :: 0 <= j < |id| ==> id[j] == s[1 + j];
        SplitAtName(s, n);
        Some(id)
      else None
  }

  lemma SplitAtName(s: string, n: nat)
    requires 1 + n <= |s| && s[0] == '['
    ensures s == "[" + s[1..1 + n] + s[1 + n..]
  {
  }

  /** The converse: every directive is recognised, with its own name. */
  lemma IdentifyBotIdComplete(s: string, id: string)
    requires IsDirective(s, id)
    ensures IdentifyBotId(s) == Some(id)
  {
    var rest := if s == Bracketed(id) then "]" else "]\n";
    assert s == "[" + id + rest;
    assert forall k :: 1 <= k < 1 + |id| ==> s[k] == id[k - 1];
    IdRunStops(s, 1, MaxIdLength, |id|);
    assert s[1 + |id|..] == rest;
    assert s[1..1 + |id|] == id;
  }

  /** The scan stops exactly at the first character that cannot be part of a name. */
  lemma {:induction false} IdRunStops(s: string, i: nat, limit: nat, m: nat)
    requires i + m < |s| && m <= limit
    requires forall k :: i <= k < i + m ==> IsBotIdChar(s[k])
    requires !IsBotIdChar(s[i + m])
    ensures IdRun(s, i, limit) == m
    decreases m
  {
    if m > 0 {
      IdRunStops(s, i + 1, limit - 1, m - 1);
    }
  }

  /** Only a directive is recognised: nothing else yields a name. */
  lemma IdentifyBotIdNone(s: string)
    requires IdentifyBotId(s) == None
    ensures forall id :: !IsDirective(s, id)
  {
    forall id | IsDirective(s, id) ensures false {
      IdentifyBotIdComplete(s, id);
    }
  }

  /** A directive has no newline except possibly a final one, and starts with '['. */
  lemma DirectiveShape(s: string, id: string)
    requires IsDirective(s, id)
    ensures s[0] == '[' && s[1 + |id|] == ']'
    ensures forall k :: 0 <= k < |s| - 1 ==> s[k] != '\n'
  {
    assert s[1..1 + |id|] == id;
  }

  /** A directive names exactly one bot. */
  lemma DirectiveUnique(s: string, a: string, b: string)
    requires IsDirective(s, a) && IsDirective(s, b)
    ensures a == b
  {
    IdentifyBotIdComplete(s, a);
    IdentifyBotIdComplete(s, b);
  }

  /** Typing a suggested reply addresses the suggested bot. */
  lemma BracketedRoundTrip(id: string)
    requires ValidBotId(id)
    ensures IdentifyBotId(Bracketed(id)) == Some(id)
    ensures IdentifyBotId(Bracketed(id) + "\n") == Some(id)
  {
    IdentifyBotIdComplete(Bracketed(id), id);
    IdentifyBotIdComplete(Bracketed(id) + "\n", id);
  }
}
