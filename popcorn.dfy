// PopcornBot.get_response: parse the conversation, then either ask who speaks
// next or forward the rewritten view to the addressed bot, republish its
// stream, and offer the next speakers.

module Popcorn {
  import opened Protocol
  import opened Text
  import opened BotId
  import opened TranscriptParser
  import opened TurnResolver
  import opened ViewRewriter

  /** What one request produces when it does not raise. */
  datatype Reply =
    | AskedWhoSpeaksNext(events: seq<Event>)
    | Relayed(target: string, forwarded: seq<Message>, events: seq<Event>)

  /** How the relay loop republishes the addressed bot's stream: metadata is
      skipped, the bot's own suggested replies are only logged, a replacement
      stays a replacement and any other event is appended text. */
  function Republish(upstream: seq<UpstreamEvent>): (events: seq<Event>)
    ensures |events| <= |upstream|
    ensures forall k :: 0 <= k < |events| ==> !events[k].SuggestedReply?
  {
    if upstream == [] then []
    else
      var earlier := Republish(upstream[..|upstream| - 1]);
      match upstream[|upstream| - 1]
      case Meta => earlier
      case UpstreamSuggestion(_) => earlier
      case UpstreamReplace(text) => earlier + [ReplaceResponse(text)]
      case UpstreamText(text) => earlier + [Text(text)]
  }

  /** Every text and replacement the bot streamed reaches the client. */
  lemma {:induction false} RepublishKeepsText(upstream: seq<UpstreamEvent>, k: nat)
    requires k < |upstream|
    ensures upstream[k].UpstreamText? ==> Text(upstream[k].text) in Republish(upstream)
    ensures upstream[k].UpstreamReplace? ==> ReplaceResponse(upstream[k].replacement) in Republish(upstream)
  {
    if k < |upstream| - 1 {
      RepublishKeepsText(upstream[..|upstream| - 1], k);
    }
  }

  /** The relay treats the stream event by event: relaying two stretches of
      the stream one after the other gives their relayed events in the same
      order. */
  lemma {:induction false} RepublishAppend(a: seq<UpstreamEvent>, b: seq<UpstreamEvent>)
    ensures Republish(a + b) == Republish(a) + Republish(b)
    decreases |b|
  {
    if b == [] {
      assert a + b == a;
    } else {
      var shorter := b[..|b| - 1];
      assert (a + b)[..|a + b| - 1] == a + shorter;
      assert (a + b)[|a + b| - 1] == b[|b| - 1];
      RepublishAppend(a, shorter);
    }
  }

  /** What each kind of event becomes: metadata and the bot's own suggested
      replies produce nothing, a replacement one replacement and a text one
      text with the same string. */
  lemma RepublishOne(e: UpstreamEvent)
    ensures e.Meta? || e.UpstreamSuggestion? ==> Republish([e]) == []
    ensures e.UpstreamReplace? ==> Republish([e]) == [ReplaceResponse(e.replacement)]
    ensures e.UpstreamText? ==> Republish([e]) == [Text(e.text)]
  {
    assert [e][..0] == [];
  }

  /** Framing changes no role, so the framed view still alternates. */
  lemma FramedAlternates(before: seq<Message>, after: seq<Message>)
    requires Alternating(before) && Framed(before, after)
    ensures Alternating(after) && UserBounded(after) == UserBounded(before)
  {
    assert forall k :: 0 <= k < |after| ==> after[k].role == before[k].role;
  }

  /** The relay loop over the addressed bot's stream. */
  method RelayStream(upstream: seq<UpstreamEvent>) returns (events: seq<Event>)
    ensures events == Republish(upstream)
  {
    events := [];
    for i := 0 to |upstream|
      invariant events == Republish(upstream[..i])
    {
      assert upstream[..i + 1][..i] == upstream[..i];
      match upstream[i]
      case Meta =>
      case UpstreamSuggestion(_) =>
      case UpstreamReplace(text) =>
        events := events + [ReplaceResponse(text)];
      case UpstreamText(text) =>
        events := events + [Text(text)];
    }
    assert upstream[..|upstream|] == upstream;
  }

  /** get_response for one request. `upstream` stands for the events the
      addressed bot's stream delivered before it ended or raised; an exception
      from the stream ends the relay quietly, so both cases look alike here. */
  method GetResponse(query: seq<Message>, upstream: seq<UpstreamEvent>) returns (r: Result<Reply, Failure>)
    ensures ParseAll(query).Err? ==> r == Err(ParseAll(query).error)
    ensures ParseAll(query).Ok? && ParseAll(query).value.current.None? ==>
              r == Ok(AskedWhoSpeaksNext(WhoSpeaksNext(ParseAll(query).value.seen)))
    ensures ParseAll(query).Ok? && ParseAll(query).value.current.Some? ==>
              var st := ParseAll(query).value;
              var view := MergeAll(RelabelAll(st.filtered, st.current.value));
              && (r.Ok? <==> UserBounded(view))
              && (r.Err? ==> r.error == FramingFailure(view))
              && (r.Ok? ==>
                    && r.value.Relayed?
                    && r.value.target == st.current.value
                    && r.value.events == Republish(upstream) + Suggestions(st.seen)
                    && st.current.value in st.seen
                    && Framed(view, r.value.forwarded)
                    && Alternating(r.value.forwarded))
  {
    var parsed := ParseTranscript(query);
    if parsed.Err? {
      return Err(parsed.error);
    }
    var st := parsed.value;
    if st.current.None? {
      return Ok(AskedWhoSpeaksNext(WhoSpeaksNext(st.seen)));
    }
    var target := st.current.value;
    var forwarded := BuildForwarded(st.filtered, target);
    var framed := AddFraming(forwarded);
    if framed.Err? {
      return Err(framed.error);
    }
    FramedAlternates(forwarded, framed.value);

    var events := RelayStream(upstream);
    events := events + Suggestions(st.seen);
    return Ok(Relayed(target, framed.value, events));
  }

  // Worked conversations.

  /** A one-line user turn that does not start with a bracket (such as
      "Hello [Sage]") is kept as it is and addresses nobody. */
  lemma MentionIsNotADirective(content: string)
    requires content == [] || content[0] != '['
    requires '\n' !in content
    ensures ParseAll([Message(User, content)]) ==
            Ok(ParseState(None, {}, [Entry(ModeratorId, Message(User, content))]))
  {
    var m := Message(User, content);
    PlainLine(content);
    PlainTurn([], m);
    assert [] + [m] == [m];
    assert Initial.filtered + [Entry(ModeratorId, m)] == [Entry(ModeratorId, m)];
  }

  /** A directive alone addresses the bot but leaves nothing to forward: the
      request raises IndexError. */
  lemma DirectiveAlone(id: string)
    requires ValidBotId(id)
    ensures ParseAll([Message(User, Bracketed(id))]) == Ok(ParseState(Some(id), {id}, []))
    ensures FramingFailure(MergeAll(RelabelAll([], id))) == IndexError
  {
    var address := Message(User, Bracketed(id));
    DirectiveTurn([], address, id);
    assert [] + [address] == [address];
    assert {} + {id} == {id};
  }

  /** Addressing a bot, then asking a one-line question: the question is kept
      as the moderator's, the bot stays addressed, and it is sent one user
      message, which can be framed. */
  lemma AddressThenAsk(id: string, question: string)
    requires ValidBotId(id)
    requires question == [] || question[0] != '['
    requires '\n' !in question
    ensures var query := [Message(User, Bracketed(id)), Message(User, question)];
      && ParseAll(query) == Ok(ParseState(Some(id), {id}, [Entry(ModeratorId, Message(User, question))]))
      && MergeAll(RelabelAll(ParseAll(query).value.filtered, id)) == [Message(User, ModeratorId + ": " + question)]
  {
    var address, ask := Message(User, Bracketed(id)), Message(User, question);
    DirectiveAlone(id);
    PlainLine(question);
    PlainTurn([address], ask);
    assert [address] + [ask] == [address, ask];
    var entries := [] + [Entry(ModeratorId, ask)];
    assert entries == [Entry(ModeratorId, ask)];
    var forwarded := Message(User, ModeratorId + ": " + question);
    assert ModeratorId != id;
    assert RelabelAll(entries, id) == [] + [forwarded];
    MergeAllSnoc([], forwarded);
  }

  lemma LastLineIsAnnotated(body: string, id: string)
    requires ValidBotId(id)
    ensures AnnotatedForm(body + "\n" + Bracketed(id), body, id)
  {
    var content := body + "\n" + Bracketed(id);
    assert content[..|content|] == content;
    assert content[|content|..] == "";
  }

  /** A directive on the last line is cut off the kept message. */
  lemma DirectiveOnLastLine(id: string, body: string)
    requires ValidBotId(id)
    ensures ParseAll([Message(User, Bracketed(id)), Message(User, body + "\n" + Bracketed(id))]) ==
            Ok(ParseState(Some(id), {id}, [Entry(ModeratorId, Message(User, body))]))
  {
    var address, annotated := Message(User, Bracketed(id)), Message(User, body + "\n" + Bracketed(id));
    DirectiveAlone(id);
    LastLineIsAnnotated(body, id);
    AnnotatedTurn([address], annotated, body, id);
    assert [address] + [annotated] == [address, annotated];
    assert {id} + {id} == {id};
    assert [] + [Entry(ModeratorId, Message(User, body))] == [Entry(ModeratorId, Message(User, body))];
  }

  /** A directive followed by whitespace other than one newline (such as
      "[Sage]  ") strips to a directive line with no line before it: the
      request raises IndexError. */
  lemma DirectiveWithTrailingSpaces(id: string, ws: string)
    requires ValidBotId(id) && AllSpace(ws) && ws != "" && ws != "\n"
    ensures ParseAll([Message(User, Bracketed(id) + ws)]) == Err(IndexError)
  {
    var m := Message(User, Bracketed(id) + ws);
    assert TruncatedForm(m.content, id) by {
      assert m.content[..|id| + 2] == Bracketed(id);
      assert m.content[|id| + 2..] == ws;
    }
    TruncatedTurn([], m, id);
    assert [] + [m] == [m];
  }

  /** A greeting, a bot addressed, the bot's answer: nobody is addressed any more. */
  lemma BotAnswered(greeting: string, id: string, answer: string)
    requires ValidBotId(id)
    requires greeting == [] || greeting[0] != '['
    requires '\n' !in greeting
    ensures ParseAll([Message(User, greeting), Message(User, Bracketed(id)), Message(Bot, answer)]) ==
            Ok(ParseState(None, {id}, [Entry(ModeratorId, Message(User, greeting)), Entry(id, Message(Bot, answer))]))
  {
    var hi, address, reply := Message(User, greeting), Message(User, Bracketed(id)), Message(Bot, answer);
    MentionIsNotADirective(greeting);
    DirectiveTurn([hi], address, id);
    assert [hi] + [address] == [hi, address];
    assert {} + {id} == {id};
    AddressedBotTurn([hi, address], reply, id);
    assert [hi, address] + [reply] == [hi, address, reply];
    assert [Entry(ModeratorId, hi)] + [Entry(id, reply)] == [Entry(ModeratorId, hi), Entry(id, reply)];
  }

  /** Addressing the bot that spoke last leaves its own turn last in its view:
      the request fails the assertion that the view ends with a user message. */
  lemma SameBotTwiceInARow(greeting: string, id: string, answer: string)
    requires ValidBotId(id)
    requires greeting == [] || greeting[0] != '['
    requires '\n' !in greeting
    ensures var query := [Message(User, greeting), Message(User, Bracketed(id)), Message(Bot, answer), Message(User, Bracketed(id))];
      && ParseAll(query) == Ok(ParseState(Some(id), {id},
                                         [Entry(ModeratorId, Message(User, greeting)), Entry(id, Message(Bot, answer))]))
      && FramingFailure(MergeAll(RelabelAll(ParseAll(query).value.filtered, id))) == AssertionError(LastNotUser)
  {
    var hi, address, reply := Message(User, greeting), Message(User, Bracketed(id)), Message(Bot, answer);
    BotAnswered(greeting, id, answer);
    DirectiveTurn([hi, address, reply], address, id);
    assert [hi, address, reply] + [address] == [hi, address, reply, address];
    assert {id} + {id} == {id};
    var entries := [Entry(ModeratorId, hi), Entry(id, reply)];
    assert ModeratorId != id;
    MergeAllShape(RelabelAll(entries, id));
  }
}
