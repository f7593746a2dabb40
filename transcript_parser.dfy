// The single left-to-right pass of get_response over the conversation that
// recovers the routing state: the bot addressed now, the bots seen so far, and
// the transcript with routing directives stripped.

module TranscriptParser {
  import opened Protocol
  import opened Text
  import opened BotId

  /** current_bot_id, bots_in_convo and messages of get_response. */
  datatype ParseState = ParseState(current: Option<string>, seen: set<string>, filtered: seq<Entry>)

  const Initial: ParseState := ParseState(None, {}, [])

  /** `content` is `body`, a newline, a bracketed bot name, then only whitespace. */
  predicate AnnotatedForm(content: string, body: string, id: string)
  {
    ValidBotId(id) &&
    var k := |body| + |id| + 3;
    k <= |content| && content[..k] == body + "\n" + Bracketed(id) && AllSpace(content[k..])
  }

  /** `content` is a bracketed bot name followed by whitespace that is neither
      empty nor a single newline: stripped it looks like a directive, but there
      is no line before it. */
  predicate TruncatedForm(content: string, id: string)
  {
    ValidBotId(id) &&
    var k := |id| + 2;
    k <= |content| && content[..k] == Bracketed(id) && AllSpace(content[k..])
    && content[k..] != "" && content[k..] != "\n"
  }

  /** How the moderator reads the content of a user turn. */
  datatype UserTurn =
    | Directive(id: string)                 // a routing directive only
    | Annotated(body: string, id: string)   // content, then a directive line
    | Truncated(id: string)                 // a directive line with no content line
    | Plain                                 // no directive

  function ClassifyUserTurn(content: string): (t: UserTurn)
    ensures t.Directive? ==> IsDirective(content, t.id)
    ensures t.Annotated? ==> AnnotatedForm(content, t.body, t.id)
    ensures t.Truncated? ==> TruncatedForm(content, t.id)
  {
    match IdentifyBotId(content)
    case Some(id) => Directive(id)
    case None =>
      var split := RSplitLine(RStrip(content));
      match IdentifyBotId(split.last)
      case None => Plain
      case Some(id) =>
        StrippedDirectiveLine(content, id);
        if split.head.Some? then
          Annotated(split.head.value, id)
        else
          Truncated(id)
  }

  /** When the last line of the stripped content is a directive, the content
      is in the annotated or, with no earlier line, in the truncated form. */
  lemma StrippedDirectiveLine(content: string, id: string)
    requires IdentifyBotId(content) == None
    requires IdentifyBotId(RSplitLine(RStrip(content)).last) == Some(id)
    ensures var split := RSplitLine(RStrip(content));
      && (split.head.Some? ==> AnnotatedForm(content, split.head.value, id))
      && (split.head.None? ==> TruncatedForm(content, id))
  {
    var stripped := RStrip(content);
    var split := RSplitLine(stripped);
    DirectiveLine(split.last, id);
    if split.head.None? {
      StrippedToTruncated(content, stripped, id);
    } else {
      StrippedToAnnotated(content, stripped, split.head.value, id);
    }
  }

  lemma StrippedToAnnotated(content: string, stripped: string, body: string, id: string)
    requires ValidBotId(id)
    requires stripped <= content && AllSpace(content[|stripped|..])
    requires stripped == body + "\n" + Bracketed(id)
    ensures AnnotatedForm(content, body, id)
  {
    assert content[..|stripped|] == stripped;
  }

  lemma StrippedToTruncated(content: string, stripped: string, id: string)
    requires ValidBotId(id) && IdentifyBotId(content) == None
    requires stripped <= content && AllSpace(content[|stripped|..])
    requires stripped == Bracketed(id)
    ensures TruncatedForm(content, id)
  {
    var ws := content[|stripped|..];
    assert content[..|stripped|] == stripped;
    assert content == stripped + ws;
    if ws == "" || ws == "\n" {
      IdentifyBotIdComplete(content, id);
    }
  }

  /** A directive that holds no newline is just the bracketed name. */
  lemma DirectiveLine(s: string, id: string)
    requires IsDirective(s, id) && '\n' !in s
    ensures s == Bracketed(id)
  {
    var withNewline := Bracketed(id) + "\n";
    assert withNewline[|withNewline| - 1] in withNewline;
  }

  lemma ClassifyDirective(content: string, id: string)
    requires IsDirective(content, id)
    ensures ClassifyUserTurn(content) == Directive(id)
  {
    IdentifyBotIdComplete(content, id);
  }

  lemma ClassifyAnnotated(content: string, body: string, id: string)
    requires AnnotatedForm(content, body, id)
    ensures ClassifyUserTurn(content) == Annotated(body, id)
  {
    var k := |body| + |id| + 3;
    var line := content[..k];
    assert content[|body|] == '\n' && |body| < |content| - 1;
    var other := IdentifyBotId(content);
    if other.Some? {
      DirectiveShape(content, other.value);
      assert false;
    }
    assert content == line + content[k..];
    assert line[|line| - 1] == ']';
    RStripAppended(line, content[k..]);
    assert '\n' !in Bracketed(id) by {
      assert forall j :: 0 <= j < |id| ==> IsBotIdChar(id[j]);
    }
    RSplitLineJoin(body, Bracketed(id));
    BracketedRoundTrip(id);
  }

  /** Two bracketed names at the start of the same string are the same name. */
  lemma {:induction false} BracketedPrefixUnique(s: string, x: string, y: string)
    requires ValidBotId(x) && ValidBotId(y)
    requires |x| + 2 <= |s| && s[..|x| + 2] == Bracketed(x)
    requires |y| + 2 <= |s| && s[..|y| + 2] == Bracketed(y)
    ensures x == y
  {
    assert forall j :: 1 <= j < 1 + |x| ==> s[j] == x[j - 1] && IsBotIdChar(s[j]);
    assert forall j :: 1 <= j < 1 + |y| ==> s[j] == y[j - 1] && IsBotIdChar(s[j]);
    assert s[1 + |x|] == ']' && s[1 + |y|] == ']';
    assert |x| == |y|;
    assert x == s[1..1 + |x|] == y;
  }

  /** A truncated directive is not a directive as a whole. */
  lemma TruncatedNotDirective(content: string, id: string)
    requires TruncatedForm(content, id)
    ensures IdentifyBotId(content) == None
  {
    forall x | IsDirective(content, x) ensures false {
      DirectiveSplit(content, x);
      BracketedPrefixUnique(content, x, id);
    }
  }

  /** A directive is the bracketed name followed by nothing or one newline. */
  lemma DirectiveSplit(content: string, id: string)
    requires IsDirective(content, id)
    ensures |id| + 2 <= |content| && content[..|id| + 2] == Bracketed(id)
    ensures content[|id| + 2..] == "" || content[|id| + 2..] == "\n"
  {
  }

  lemma ClassifyTruncated(content: string, id: string)
    requires TruncatedForm(content, id)
    ensures ClassifyUserTurn(content) == Truncated(id)
  {
    var k := |id| + 2;
    var line := Bracketed(id);
    TruncatedNotDirective(content, id);
    assert content == line + content[k..];
    assert line[|line| - 1] == ']';
    RStripAppended(line, content[k..]);
    assert '\n' !in line by {
      DirectiveShape(line, id);
    }
    assert RSplitLine(line) == LineSplit(None, line);
    BracketedRoundTrip(id);
  }

  /** A plain turn has no directive in any of the three forms. */
  lemma ClassifyPlain(content: string)
    requires ClassifyUserTurn(content) == Plain
    ensures forall id :: !IsDirective(content, id) && !TruncatedForm(content, id)
    ensures forall body, id :: !AnnotatedForm(content, body, id)
  {
    forall id ensures !IsDirective(content, id) && !TruncatedForm(content, id) {
      if IsDirective(content, id) { ClassifyDirective(content, id); }
      if TruncatedForm(content, id) { ClassifyTruncated(content, id); }
    }
    forall body, id ensures !AnnotatedForm(content, body, id) {
      if AnnotatedForm(content, body, id) { ClassifyAnnotated(content, body, id); }
    }
  }

  /** A single line that does not start with '[' holds no directive. */
  lemma PlainLine(content: string)
    requires content == [] || content[0] != '['
    requires '\n' !in content
    ensures forall id :: !IsDirective(content, id) && !TruncatedForm(content, id)
    ensures forall body, id :: !AnnotatedForm(content, body, id)
  {
    forall body, id | AnnotatedForm(content, body, id) ensures false {
      AnnotatedHasNewline(content, body, id);
    }
  }

  /** The content kept from an annotated turn is a prefix of the original. */
  lemma AnnotatedBodyPrefix(content: string, body: string, id: string)
    requires AnnotatedForm(content, body, id)
    ensures body <= content
  {
    var k := |body| + |id| + 3;
    assert content[..k][..|body|] == body;
  }

  lemma AnnotatedHasNewline(content: string, body: string, id: string)
    requires AnnotatedForm(content, body, id)
    ensures '\n' in content
  {
    assert content[..|body| + 1] == body + "\n";
    assert content[|body|] == '\n';
  }

  /** One iteration of the parse loop: it raises only on a lone directive line
      with trailing whitespace, and otherwise never forgets a bot seen and
      keeps the filtered transcript, adding at most one entry. A bot turn
      always leaves nobody addressed. */
  function Step(st: ParseState, m: Message): (r: Result<ParseState, Failure>)
    ensures r.Err? <==> m.role == User && ClassifyUserTurn(m.content).Truncated?
    ensures r.Err? ==> r.error == IndexError
    ensures r.Ok? ==> st.seen <= r.value.seen
    ensures r.Ok? ==> st.filtered <= r.value.filtered && |r.value.filtered| <= |st.filtered| + 1
    ensures r.Ok? && m.role != User ==> r.value.current.None?
  {
    if m.role == User then
      match ClassifyUserTurn(m.content)
      case Directive(id) => Ok(st.(current := Some(id), seen := st.seen + {id}))
      case Annotated(body, id) =>
        Ok(ParseState(Some(id), st.seen + {id}, st.filtered + [Entry(ModeratorId, m.(content := body))]))
      case Truncated(_) => Err(IndexError)
      case Plain => Ok(st.(filtered := st.filtered + [Entry(ModeratorId, m)]))
    else if st.current.None? then Ok(st)
    else Ok(ParseState(None, st.seen, st.filtered + [Entry(st.current.value, m)]))
  }

  /** The parse of a whole conversation; the first exception ends it. The
      only exception the parse can raise is IndexError. */
  function ParseAll(query: seq<Message>): (r: Result<ParseState, Failure>)
    ensures r.Err? ==> r.error == IndexError
  {
    if query == [] then Ok(Initial)
    else
      match ParseAll(query[..|query| - 1])
      case Err(e) => Err(e)
      case Ok(st) => Step(st, query[|query| - 1])
  }

  lemma ParseAllSnoc(query: seq<Message>, m: Message)
    ensures ParseAll(query + [m]) ==
            match ParseAll(query) case Err(e) => Err(e) case Ok(st) => Step(st, m)
  {
    assert (query + [m])[..|query|] == query;
  }

  /** Once the parse has raised, the rest of the conversation does not matter. */
  lemma {:induction false} ParseAllErrSticky(query: seq<Message>, i: nat, e: Failure)
    requires i <= |query| && ParseAll(query[..i]) == Err(e)
    ensures ParseAll(query) == Err(e)
    decreases |query| - i
  {
    if i < |query| {
      ParseAllSnoc(query[..i], query[i]);
      assert query[..i + 1] == query[..i] + [query[i]];
      ParseAllErrSticky(query, i + 1, e);
    } else {
      assert query[..i] == query;
    }
  }

  /** The state the parse keeps consistent. */
  ghost predicate Routed(st: ParseState)
  {
    && (st.current.Some? ==> st.current.value in st.seen)
    && (forall id :: id in st.seen ==> ValidBotId(id))
    && (forall k :: 0 <= k < |st.filtered| ==>
          st.filtered[k].sender == ModeratorId || st.filtered[k].sender in st.seen)
    && (forall k :: 0 <= k < |st.filtered| ==>
          (st.filtered[k].sender == ModeratorId <==> st.filtered[k].message.role == User))
  }

  /** One step keeps the routing state consistent and adds at most one entry. */
  lemma StepRouted(st: ParseState, m: Message)
    requires Routed(st) && Step(st, m).Ok?
    ensures Routed(Step(st, m).value)
    ensures |Step(st, m).value.filtered| <= |st.filtered| + 1
  {
    var after := Step(st, m).value;
    if m.role == User {
      match ClassifyUserTurn(m.content)
      case Directive(id) =>
        RoutedAddress(st, id);
      case Annotated(body, id) =>
        RoutedAddress(st, id);
        RoutedAppend(st.(current := Some(id), seen := st.seen + {id}), Entry(ModeratorId, m.(content := body)));
      case Plain =>
        RoutedAppend(st, Entry(ModeratorId, m));
    } else if st.current.Some? {
      var id := st.current.value;
      RoutedAppend(st, Entry(id, m));
      assert after == st.(current := None, filtered := st.filtered + [Entry(id, m)]);
    }
  }

  /** Addressing a valid bot keeps the routing state consistent. */
  lemma RoutedAddress(st: ParseState, id: string)
    requires Routed(st) && ValidBotId(id)
    ensures Routed(st.(current := Some(id), seen := st.seen + {id}))
  {
  }

  /** Appending an entry from the moderator's user turn, or from a bot seen
      with a bot turn, keeps the routing state consistent. */
  lemma RoutedAppend(st: ParseState, e: Entry)
    requires Routed(st)
    requires e.sender == ModeratorId || e.sender in st.seen
    requires e.sender == ModeratorId <==> e.message.role == User
    ensures Routed(st.(filtered := st.filtered + [e]))
  {
    var filtered := st.filtered + [e];
    assert forall k :: 0 <= k < |st.filtered| ==> filtered[k] == st.filtered[k];
  }

  /** The loop invariants of the parse: the addressed bot has been seen, every
      name is a valid bot name, every sender is the moderator or a bot seen,
      exactly the user turns are the moderator's, and the filtered transcript
      is no longer than the conversation. */
  lemma {:induction false} ParseAllRouted(query: seq<Message>)
    ensures ParseAll(query).Ok? ==>
              Routed(ParseAll(query).value) && |ParseAll(query).value.filtered| <= |query|
  {
    if query != [] {
      var prefix := query[..|query| - 1];
      ParseAllRouted(prefix);
      if ParseAll(prefix).Ok? && ParseAll(query).Ok? {
        StepRouted(ParseAll(prefix).value, query[|query| - 1]);
      }
    }
  }

  /** The kept message is the original one, or the original with a trailing
      directive line cut off its content. */
  ghost predicate DerivedFrom(e: Entry, m: Message)
  {
    e.message.role == m.role && e.message.content <= m.content
  }

  /** For each filtered entry, the position in the conversation it came from. */
  ghost function Origins(query: seq<Message>): seq<nat>
    requires ParseAll(query).Ok?
  {
    if query == [] then []
    else
      var prefix := query[..|query| - 1];
      if |ParseAll(query).value.filtered| > |ParseAll(prefix).value.filtered|
      then Origins(prefix) + [|query| - 1]
      else Origins(prefix)
  }

  /** One step keeps the filtered transcript or appends one entry made from
      the message just read. */
  lemma StepAppends(st: ParseState, m: Message)
    requires Step(st, m).Ok?
    ensures var after := Step(st, m).value.filtered;
      after == st.filtered ||
      (|after| == |st.filtered| + 1 && after[..|st.filtered|] == st.filtered
       && DerivedFrom(after[|st.filtered|], m))
  {
    var before := st.filtered;
    var after := Step(st, m).value.filtered;
    if m.role == User {
      match ClassifyUserTurn(m.content)
      case Directive(_) =>
      case Annotated(body, id) =>
        AnnotatedBodyPrefix(m.content, body, id);
        var e := Entry(ModeratorId, m.(content := body));
        assert after == before + [e];
        assert (before + [e])[..|before|] == before;
      case Plain =>
        assert (before + [Entry(ModeratorId, m)])[..|before|] == before;
    } else if st.current.Some? {
      assert (before + [Entry(st.current.value, m)])[..|before|] == before;
    }
  }

  /** The filtered transcript keeps the conversation's order: its entries come
      from strictly increasing positions, each from the message at that
      position. */
  lemma {:induction false} FilteredInOrder(query: seq<Message>)
    requires ParseAll(query).Ok?
    ensures var f := ParseAll(query).value.filtered; var o := Origins(query);
      && |o| == |f|
      && (forall k :: 0 <= k < |o| ==> o[k] < |query| && DerivedFrom(f[k], query[o[k]]))
      && (forall j, k :: 0 <= j < k < |o| ==> o[j] < o[k])
  {
    if query != [] {
      var prefix := query[..|query| - 1];
      var m := query[|query| - 1];
      FilteredInOrder(prefix);
      StepAppends(ParseAll(prefix).value, m);
    }
  }

  /** A turn that is only a directive addresses that bot, records it, and
      adds nothing to the filtered transcript. */
  lemma DirectiveTurn(query: seq<Message>, m: Message, id: string)
    requires ParseAll(query).Ok?
    requires m.role == User && IsDirective(m.content, id)
    ensures var st := ParseAll(query).value;
      ParseAll(query + [m]) == Ok(ParseState(Some(id), st.seen + {id}, st.filtered))
  {
    ParseAllSnoc(query, m);
    ClassifyDirective(m.content, id);
  }

  /** A turn whose last line is a directive is kept without that line, and
      addresses that bot. */
  lemma AnnotatedTurn(query: seq<Message>, m: Message, body: string, id: string)
    requires ParseAll(query).Ok?
    requires m.role == User && AnnotatedForm(m.content, body, id)
    ensures var st := ParseAll(query).value;
      ParseAll(query + [m]) ==
        Ok(ParseState(Some(id), st.seen + {id}, st.filtered + [Entry(ModeratorId, Message(User, body))]))
  {
    ParseAllSnoc(query, m);
    ClassifyAnnotated(m.content, body, id);
  }

  /** A one-line directive followed by other whitespace raises IndexError:
      there is no content line to keep. */
  lemma TruncatedTurn(query: seq<Message>, m: Message, id: string)
    requires ParseAll(query).Ok?
    requires m.role == User && TruncatedForm(m.content, id)
    ensures ParseAll(query + [m]) == Err(IndexError)
  {
    ParseAllSnoc(query, m);
    ClassifyTruncated(m.content, id);
  }

  /** Any other user turn is kept unchanged as the moderator's and leaves the
      routing state alone. */
  lemma PlainTurn(query: seq<Message>, m: Message)
    requires ParseAll(query).Ok?
    requires m.role == User
    requires forall id :: !IsDirective(m.content, id) && !TruncatedForm(m.content, id)
    requires forall body, id :: !AnnotatedForm(m.content, body, id)
    ensures var st := ParseAll(query).value;
      ParseAll(query + [m]) == Ok(ParseState(st.current, st.seen, st.filtered + [Entry(ModeratorId, m)]))
  {
    ParseAllSnoc(query, m);
  }

  /** A bot turn nobody addressed is dropped and changes nothing. */
  lemma UnaddressedBotTurn(query: seq<Message>, m: Message)
    requires ParseAll(query).Ok? && ParseAll(query).value.current == None
    requires m.role != User
    ensures ParseAll(query + [m]) == ParseAll(query)
  {
    ParseAllSnoc(query, m);
  }

  /** A bot turn is credited to the addressed bot, which then has to be
      addressed again. */
  lemma AddressedBotTurn(query: seq<Message>, m: Message, id: string)
    requires ParseAll(query).Ok? && ParseAll(query).value.current == Some(id)
    requires m.role != User
    ensures var st := ParseAll(query).value;
      ParseAll(query + [m]) == Ok(ParseState(None, st.seen, st.filtered + [Entry(id, m)]))
  {
    ParseAllSnoc(query, m);
  }

  /** One iteration of the parse loop. */
  lemma ParseAllStep(query: seq<Message>, i: nat, st: ParseState)
    requires i < |query| && ParseAll(query[..i]) == Ok(st)
    ensures ParseAll(query[..i + 1]) == Step(st, query[i])
  {
    var q := query[..i + 1];
    assert q[..|q| - 1] == query[..i];
    assert q[|q| - 1] == query[i];
  }

  /** The parse loop of get_response. */
  method ParseTranscript(query: seq<Message>) returns (r: Result<ParseState, Failure>)
    ensures r == ParseAll(query)
    ensures r.Ok? ==> Routed(r.value) && |r.value.filtered| <= |query|
  {
    var messages: seq<Entry> := [];
    var currentBotId: Option<string> := None;
    var botsInConvo: set<string> := {};
    for i := 0 to |query|
      invariant ParseAll(query[..i]) == Ok(ParseState(currentBotId, botsInConvo, messages))
    {
      ParseAllStep(query, i, ParseState(currentBotId, botsInConvo, messages));
      var message := query[i];
      var content := message.content;
      if message.role == User {
        var botId := IdentifyBotId(content);
        if botId.Some? {
          currentBotId := botId;
          botsInConvo := botsInConvo + {botId.value};
        } else {
          var split := RSplitLine(RStrip(content));
          var lastBotId := IdentifyBotId(split.last);
          if lastBotId.Some? {
            if split.head.None? {
              ParseAllErrSticky(query, i + 1, IndexError);
              return Err(IndexError);
            }
            message := message.(content := split.head.value);
            currentBotId := lastBotId;
            botsInConvo := botsInConvo + {lastBotId.value};
          }
          messages := messages + [Entry(ModeratorId, message)];
        }
      } else {
        if currentBotId.None? {
          continue;
        }
        messages := messages + [Entry(currentBotId.value, message)];
        currentBotId := None;
      }
    }
    assert query[..|query|] == query;
    r := Ok(ParseState(currentBotId, botsInConvo, messages));
    ParseAllRouted(query);
  }
}
