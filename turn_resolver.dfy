// What the moderator says when no bot is addressed, and the suggested replies
// it offers after every response: one bracketed name per bot seen or offered
// by default, in ascending order.

module TurnResolver {
  import opened Protocol
  import opened Text
  import opened BotId

  /** `m` comes before every other element of `s`. */
  predicate IsLeast(m: string, s: set<string>)
  {
    m in s && forall x :: x in s && x != m ==> LexLess(m, x)
  }

  lemma {:induction false} LeastExists(s: set<string>)
    requires s != {}
    ensures exists m :: IsLeast(m, s)
    decreases |s|
  {
    var x :| x in s;
    var rest := s - {x};
    if rest == {} {
      assert s == {x};
      assert IsLeast(x, s);
    } else {
      LeastExists(rest);
      var m :| IsLeast(m, rest);
      if LexLess(m, x) {
        assert IsLeast(m, s);
      } else {
        LexLessTotal(m, x);
        forall y | y in s && y != x ensures LexLess(x, y) {
          if y != m {
            LexLessTransitive(x, m, y);
          }
        }
        assert IsLeast(x, s);
      }
    }
  }

  lemma LeastUnique(s: set<string>)
    ensures forall a, b :: IsLeast(a, s) && IsLeast(b, s) ==> a == b
  {
    forall a, b | IsLeast(a, s) && IsLeast(b, s) ensures a == b {
      if a != b {
        LexLessAsymmetric(a, b);
      }
    }
  }

  /** The smallest name of a non-empty set. */
  function Least(s: set<string>): (m: string)
    requires s != {}
    ensures IsLeast(m, s)
  {
    LeastExists(s);
    LeastUnique(s);
    var m :| IsLeast(m, s);
    m
  }

  /** sorted() applied to a set of names: every element exactly once, in
      strictly ascending code-point order. */
  function SortedNames(s: set<string>): (r: seq<string>)
    ensures |r| == |s|
    ensures forall x :: x in r <==> x in s
    ensures forall i, j :: 0 <= i < j < |r| ==> LexLess(r[i], r[j])
    decreases |s|
  {
    if s == {} then []
    else
      var m := Least(s);
      var rest := SortedNames(s - {m});
      assert forall j :: 0 <= j < |rest| ==> LexLess(m, rest[j]) by {
        forall j | 0 <= j < |rest| ensures LexLess(m, rest[j]) {
          assert rest[j] in s - {m};
        }
      }
      [m] + rest
  }

  /** Strictly ascending means no name is suggested twice. */
  lemma SortedNamesDistinct(s: set<string>)
    ensures var r := SortedNames(s);
      forall i, j :: 0 <= i < j < |r| ==> r[i] != r[j]
  {
    var r := SortedNames(s);
    forall i, j | 0 <= i < j < |r| ensures r[i] != r[j] {
      LexLessIrreflexive(r[i]);
    }
  }

  /** The bots offered as the next speaker: every bot seen, Sage and
      Claude-instant, and no other. */
  function Candidates(seen: set<string>): (c: set<string>)
    ensures seen <= c && "Sage" in c && "Claude-instant" in c
    ensures forall x :: x in c ==> x in seen || x in DefaultSuggestions
  {
    seen + DefaultSuggestions
  }

  /** One suggested reply per name, in the given order. */
  function SuggestAll(names: seq<string>): (events: seq<Event>)
    ensures |events| == |names|
    ensures forall k :: 0 <= k < |events| ==> events[k] == SuggestedReply(Bracketed(names[k]))
  {
    seq(|names|, k requires 0 <= k < |names| => SuggestedReply(Bracketed(names[k])))
  }

  /** The suggested-reply events: "[name]" for each candidate, sorted by name. */
  function Suggestions(seen: set<string>): (events: seq<Event>)
    ensures |events| == |Candidates(seen)|
    ensures forall k :: 0 <= k < |events| ==> events[k].SuggestedReply?
  {
    SuggestAll(SortedNames(Candidates(seen)))
  }

  /** The reply when no bot is addressed: the question, then the suggestions. */
  function WhoSpeaksNext(seen: set<string>): (events: seq<Event>)
    ensures |events| == 1 + |Candidates(seen)|
    ensures events[0] == Text(WhoSpeaksNextResponse)
    ensures events[1..] == Suggestions(seen)
  {
    [Text(WhoSpeaksNextResponse)] + Suggestions(seen)
  }

  /** Every candidate is suggested, and only candidates are. */
  lemma SuggestionsCoverCandidates(seen: set<string>, id: string)
    ensures SuggestedReply(Bracketed(id)) in Suggestions(seen) <==> id in Candidates(seen)
  {
    var names := SortedNames(Candidates(seen));
    var events := Suggestions(seen);
    if id in Candidates(seen) {
      var k :| 0 <= k < |names| && names[k] == id;
      assert events[k] == SuggestedReply(Bracketed(id));
    }
    if SuggestedReply(Bracketed(id)) in events {
      var k :| 0 <= k < |events| && events[k] == SuggestedReply(Bracketed(id));
      assert Bracketed(names[k]) == Bracketed(id);
      assert names[k] == Bracketed(names[k])[1..|Bracketed(names[k])| - 1];
      assert id == Bracketed(id)[1..|Bracketed(id)| - 1];
    }
  }

  /** The default suggestions are valid bot names. */
  lemma DefaultSuggestionsValid()
    ensures forall id :: id in DefaultSuggestions ==> ValidBotId(id)
  {
    var sage, claude := "Sage", "Claude-instant";
    assert forall k :: 0 <= k < |sage| ==> IsBotIdChar(sage[k]);
    assert forall k :: 0 <= k < |claude| ==> IsBotIdChar(claude[k]);
  }

  /** When every bot seen has a valid name, so has every candidate. */
  lemma CandidatesValid(seen: set<string>)
    requires forall id :: id in seen ==> ValidBotId(id)
    ensures forall id :: id in Candidates(seen) ==> ValidBotId(id)
  {
    DefaultSuggestionsValid();
  }

  /** Suggesting valid names gives replies that address exactly those bots. */
  lemma SuggestAllDirectives(names: seq<string>)
    requires forall k :: 0 <= k < |names| ==> ValidBotId(names[k])
    ensures var events := SuggestAll(names);
      forall k :: 0 <= k < |events| ==> IdentifyBotId(events[k].reply) == Some(names[k])
  {
    forall k | 0 <= k < |names| ensures IdentifyBotId(SuggestAll(names)[k].reply) == Some(names[k]) {
      BracketedRoundTrip(names[k]);
    }
  }

  /** When every bot seen has a valid name, choosing any suggestion addresses
      the bot it names. */
  lemma SuggestionsAreDirectives(seen: set<string>)
    requires forall id :: id in seen ==> ValidBotId(id)
    ensures forall k :: 0 <= k < |Suggestions(seen)| ==>
              IdentifyBotId(Suggestions(seen)[k].reply) == Some(SortedNames(Candidates(seen))[k])
  {
    var candidates := Candidates(seen);
    var names := SortedNames(candidates);
    CandidatesValid(seen);
    forall k | 0 <= k < |names| ensures ValidBotId(names[k]) {
      assert names[k] in names;
    }
    SuggestAllDirectives(names);
  }
}
