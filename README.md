# Popcorn: a verified model of the multi-bot moderator

Popcorn is a Poe bot that lets one human hold a group conversation with
several other bots. The human types a bot's name in brackets, such as
`[Sage]`, to choose the next speaker. On every request the moderator does
the following:

- It reads the whole conversation. Each user turn is either a routing
  directive, a message whose last line is a directive, or an ordinary
  message. A bot turn is credited to the bot addressed since the previous bot
  turn, and addressing ends with it. A bot turn with nobody addressed is
  dropped: this covers the who-speaks-next question, and also the second of
  two bot turns with no directive between them.
- If no bot is addressed, it asks who should speak next. It then offers every
  bot seen so far, plus Sage and Claude-instant, as suggested replies sorted
  by name.
- Otherwise it builds the addressed bot's own view of the conversation:
  - that bot's turns stay bot turns;
  - every other speaker's turn becomes a user turn prefixed with the
    speaker's name;
  - neighbouring turns with the same role are merged with a blank line;
  - an opening prompt goes before the first message and a closing
    instruction after the last.
- It checks that this view starts and ends with a user message, relays the
  bot's streamed answer, and offers the suggestions again.

The model is one Dafny module per concern:

| file | module | what it holds |
|---|---|---|
| `protocol.dfy` | `Protocol` | messages, roles, events, the exceptions, and the fixed texts and names |
| `text.dfy` | `Text` | `str.rstrip()` with Python's whitespace set, `rsplit("\n", maxsplit=1)`, and the code-point order that `sorted()` uses |
| `bot_id.dfy` | `BotId` | the directive pattern and `identify_bot_id` |
| `transcript_parser.dfy` | `TranscriptParser` | the parse loop of `get_response`, as a specification function `ParseAll` and as the loop itself, `ParseTranscript` |
| `turn_resolver.dfy` | `TurnResolver` | the reply when nobody is addressed, and the sorted suggested replies |
| `view_rewriter.dfy` | `ViewRewriter` | relabelling and merging into the forwarded view, and the two framing assertions |
| `popcorn.dfy` | `Popcorn` | `get_response` as a whole, the relay of the bot's stream, and worked conversations |

The parse loop, the rewrite loop and the relay loop of `get_response` are
each a method proved equal to a recursive specification function:
`ParseTranscript` to `ParseAll`, `BuildForwarded` to `MergeAll` over
`RelabelAll`, and `RelayStream` to `Republish`. The properties that the
source and its design promise are then proved about those functions. The
two loops that yield the suggested replies are modelled by the function
`SuggestAll` over the sorted names, without a method.

The model follows the code in these places, where a reading of the
bot's design might expect otherwise:

- An empty forwarded view is not caught by the boundary assertions.
  `forwarded_messages[0]` raises IndexError first.
- The pattern's `$` also matches before one final newline. So `"[Sage]\n"`
  is a directive, and so is a suggested reply followed by a newline.
- The content is stripped before it is split into lines. A directive
  followed by whitespace other than a single newline (`"[Sage]  "`) strips
  to a lone directive line with no line before it. Then `maybe_content[0]`
  raises IndexError.
- A turn whose role is not `user`, including `system`, is handled as a bot
  turn.

## Model

| member | source | states |
|---|---|---|
| Protocol.ModeratorId | popcorn.py:20-21 | the name under which every user turn is kept: three letters, one fewer than the shortest bot name, so it can never name a bot |
| Protocol.StartingPrompt | popcorn.py:22 | the opening prompt put before the first forwarded message, naming the moderator |
| Protocol.WhoSpeaksNextResponse | popcorn.py:23 | the question asked when nobody is addressed, which also shows the bracketed form with `[Sage]` |
| Protocol.ClosingInstruction | popcorn.py:90 | the closing instruction put after the last forwarded message, naming the moderator |
| Protocol.DefaultSuggestions | popcorn.py:62 | the two bots offered as next speakers even when they have not appeared: Sage and Claude-instant |
| Protocol.BlankLine | popcorn.py:82 | the separator between merged contents and around the two framing texts |
| BotId.IsBotIdChar | popcorn.py:19 | the character class `[a-zA-Z0-9\-]`: ASCII letters, digits and the hyphen |
| BotId.ValidBotId | popcorn.py:19 | a name the group `{4,15}` accepts: 4 to 15 characters of that class |
| BotId.IsDirective | popcorn.py:19-27 | the strings `re.match` accepts for a name: the bracketed name, optionally followed by one final newline that `$` lets through |
| BotId.IdentifyBotId | popcorn.py:19-29 | a name is returned only when the whole string is `[name]`, optionally with one final newline, and the name is 4-15 letters, digits or hyphens; it can never be the moderator's three-letter name |
| BotId.IdentifyBotIdComplete | popcorn.py:19-29 | conversely, every string of that form is recognised with its own name |
| BotId.IdentifyBotIdNone | popcorn.py:26-29 | None is returned only when the string is not a directive for any name |
| BotId.IdRun | popcorn.py:19 | the greedy scan of `[a-zA-Z0-9\-]{0,15}` covers only name characters, at most the limit, and stops at a non-name character |
| BotId.IdRunStops | popcorn.py:19 | the scan stops exactly at the first character that cannot be part of a name |
| BotId.DirectiveShape | popcorn.py:19 | a directive starts with `[`, has `]` after the name and holds no newline before its last character |
| BotId.DirectiveUnique | popcorn.py:19-29 | a directive names exactly one bot |
| BotId.BracketedRoundTrip | popcorn.py:63 | typing a suggested reply `[name]`, with or without a final newline, addresses that bot |
| Text.IsSpace | popcorn.py:46 | the characters `str.rstrip()` removes: those for which Python's `str.isspace()` holds |
| Text.RStrip | popcorn.py:46 | rstrip gives a prefix that does not end in whitespace, and everything cut off is whitespace |
| Text.RStripAppended | popcorn.py:46 | stripping whitespace added after a string that does not end in whitespace gives the string back |
| Text.LastNewline | popcorn.py:46 | the index found holds the last newline, and None means there is no newline |
| Text.LastNewlineOfJoin | popcorn.py:46 | in `x + "\n" + y` with no newline in `y`, the last newline is at `|x|` |
| Text.RSplitLine | popcorn.py:46 | the last part has no newline and, with the head when there is one, joins back to the string |
| Text.RSplitLineJoin | popcorn.py:46 | splitting `x + "\n" + y` (no newline in `y`) gives back exactly `x` and `y` |
| Text.LexLess | popcorn.py:62 | Python's `<` on str, which `sorted()` uses: lexicographic by code point, a proper prefix first |
| Text.LexLessIrreflexive | popcorn.py:62 | no name sorts before itself |
| Text.LexLessAsymmetric | popcorn.py:62 | two names never sort before each other |
| Text.LexLessTransitive | popcorn.py:62 | the order used by sorted() is transitive |
| Text.LexLessTotal | popcorn.py:62 | of two different names, one sorts first |
| TranscriptParser.ClassifyUserTurn | popcorn.py:42-51 | a user turn is read as a directive, as content plus a directive last line, or as a lone directive line with trailing whitespace, each only when the content has that form |
| TranscriptParser.StrippedDirectiveLine | popcorn.py:46-48 | when the last stripped line is a directive, the content is content-then-directive or, with no line before it, the truncated form |
| TranscriptParser.DirectiveLine | popcorn.py:48 | a directive without a newline is exactly the bracketed name |
| TranscriptParser.ClassifyDirective | popcorn.py:42-44 | every whole-turn directive is read as one, for its own bot |
| TranscriptParser.ClassifyAnnotated | popcorn.py:46-51 | every turn of the form content, newline, directive, trailing whitespace is read as that content addressed to that bot |
| TranscriptParser.BracketedPrefixUnique | popcorn.py:19 | two bracketed names at the start of one string are the same name |
| TranscriptParser.TruncatedNotDirective | popcorn.py:42 | a directive followed by whitespace other than one newline is not a directive as a whole |
| TranscriptParser.ClassifyTruncated | popcorn.py:46-49 | every such turn is read as a directive line with no content line |
| TranscriptParser.ClassifyPlain | popcorn.py:45-52 | a turn read as plain has no directive in any of the three forms |
| TranscriptParser.PlainLine | popcorn.py:45-52 | a single line that does not start with `[` holds no directive in any form |
| TranscriptParser.AnnotatedHasNewline | popcorn.py:46 | content with a directive last line contains a newline |
| TranscriptParser.AnnotatedBodyPrefix | popcorn.py:46-49 | the content kept from a turn with a directive last line is a prefix of the original content |
| TranscriptParser.DirectiveSplit | popcorn.py:19 | a directive is the bracketed name followed by nothing or by one newline |
| TranscriptParser.Step | popcorn.py:39-59 | one iteration of the loop body: it raises, always IndexError, exactly on a user turn that is a lone directive line with trailing whitespace; otherwise it never forgets a bot seen, keeps the filtered transcript and adds at most one entry, and a bot turn always leaves nobody addressed |
| TranscriptParser.ParseAll | popcorn.py:34-59 | the parse of the whole conversation, in which the first exception ends the loop; the only exception it can raise is IndexError |
| TranscriptParser.ParseAllSnoc | popcorn.py:38-59 | the parse of one more message is the parse so far followed by one step, unless it already raised |
| TranscriptParser.ParseAllErrSticky | popcorn.py:49 | once the parse has raised, the rest of the conversation does not change the outcome |
| TranscriptParser.StepRouted | popcorn.py:38-59 | one step keeps the routing state consistent and adds at most one entry |
| TranscriptParser.RoutedAddress | popcorn.py:42-44 | addressing a valid bot keeps the routing state consistent |
| TranscriptParser.RoutedAppend | popcorn.py:52-58 | appending the moderator's user turn, or a seen bot's bot turn, keeps the routing state consistent |
| TranscriptParser.ParseAllRouted | popcorn.py:34-59 | after a successful parse: the addressed bot has been seen, every recorded name is a valid bot name, every sender is the moderator or a bot seen, exactly the user turns are the moderator's, and the filtered transcript is no longer than the conversation |
| TranscriptParser.StepAppends | popcorn.py:52-58 | a step keeps the filtered transcript or appends one entry derived from the message just read |
| TranscriptParser.FilteredInOrder | popcorn.py:38-59 | the filtered transcript keeps the conversation's order: each entry comes from a strictly later position than the one before, and from the message at that position |
| TranscriptParser.DirectiveTurn | popcorn.py:42-44 | a directive turn addresses and records the bot and adds nothing to the transcript |
| TranscriptParser.AnnotatedTurn | popcorn.py:46-52 | a turn ending in a directive line is kept without that line, as the moderator's, and addresses the bot |
| TranscriptParser.TruncatedTurn | popcorn.py:46-49 | a lone directive line with trailing whitespace raises IndexError |
| TranscriptParser.PlainTurn | popcorn.py:45-52 | any other user turn is kept unchanged as the moderator's and leaves the routing state alone |
| TranscriptParser.UnaddressedBotTurn | popcorn.py:54-57 | a bot turn when nobody was addressed is dropped and changes nothing |
| TranscriptParser.AddressedBotTurn | popcorn.py:58-59 | a bot turn is credited to the addressed bot, which must then be addressed again |
| TranscriptParser.ParseAllStep | popcorn.py:38-59 | one iteration of the loop is one step of the parse |
| TranscriptParser.ParseTranscript | popcorn.py:34-59 | the loop returns exactly the parse of the conversation, raising where it raises, and its result keeps the routing state consistent |
| TurnResolver.LeastExists | popcorn.py:62 | every non-empty set of names has a smallest element |
| TurnResolver.LeastUnique | popcorn.py:62 | that smallest element is unique |
| TurnResolver.Least | popcorn.py:62 | the name returned is in the set and sorts before every other element |
| TurnResolver.SortedNames | popcorn.py:62 | sorted() on a set gives every element exactly once, only elements, in strictly ascending order |
| TurnResolver.SortedNamesDistinct | popcorn.py:62 | no name appears twice in the sorted list |
| TurnResolver.Candidates | popcorn.py:62 | the candidates are every bot seen plus Sage and Claude-instant, and nothing else |
| TurnResolver.SuggestAll | popcorn.py:62-63 | one suggested reply `[name]` per name, in the given order |
| TurnResolver.Suggestions | popcorn.py:62-63 | one suggested reply per candidate bot, and nothing but suggested replies; the same list is yielded again after the relay at lines 108-109 |
| TurnResolver.WhoSpeaksNext | popcorn.py:60-64 | when nobody is addressed, the reply is the question followed by one suggestion per candidate bot |
| TurnResolver.SuggestionsCoverCandidates | popcorn.py:62-63 | a bot is suggested exactly when it has been seen or is Sage or Claude-instant |
| TurnResolver.DefaultSuggestionsValid | popcorn.py:62 | Sage and Claude-instant are valid bot names |
| TurnResolver.CandidatesValid | popcorn.py:62 | when every bot seen has a valid name, so has every candidate |
| TurnResolver.SuggestAllDirectives | popcorn.py:63 | suggestions for valid names are directives addressing exactly those names |
| TurnResolver.SuggestionsAreDirectives | popcorn.py:62-63 | when every bot seen has a valid name, choosing the k-th suggestion addresses the k-th name |
| ViewRewriter.Relabel | popcorn.py:70-75 | an entry is forwarded as a bot turn exactly when the addressed bot said it, and as a user turn otherwise |
| ViewRewriter.RelabelKeepsContent | popcorn.py:70-75 | the original content is kept whole at the end of the forwarded content, after the `sender: ` prefix when there is one |
| ViewRewriter.RelabelAll | popcorn.py:69-75 | each entry is relabelled in place: the addressed bot's own turn as a bot turn, any other as a user turn prefixed with the sender's name |
| ViewRewriter.ModeratorForwardedAsUser | popcorn.py:69-75 | the moderator is never taken for the addressed bot, so its turns are forwarded as `Mod: ...` user turns |
| ViewRewriter.PushMerged | popcorn.py:76-83 | one iteration of the merge: the result is non-empty, ends with the new message's role, and is the same length as before or one longer |
| ViewRewriter.MergeAll | popcorn.py:69-83 | the whole merge: a non-empty input gives a non-empty view that ends with the role of the input's last message |
| ViewRewriter.MergeAllSnoc | popcorn.py:76-83 | merging one more message either appends it or joins it to the last message |
| ViewRewriter.MergeAllShape | popcorn.py:76-83 | merging leaves roles alternating, never adds messages, and keeps the roles at both ends |
| ViewRewriter.FlattenSnoc | popcorn.py:76-83 | flattening runs with one more run appends that run |
| ViewRewriter.FlattenGrowLast | popcorn.py:76-83 | growing the last run by one message appends that message to the flattening |
| ViewRewriter.RunsFlatten | popcorn.py:76-83 | read in order, the maximal same-role runs give the messages back |
| ViewRewriter.RunsMaximal | popcorn.py:76-83 | each run has one role, and neighbouring runs differ in role |
| ViewRewriter.RunsPartition | popcorn.py:76-83 | the runs partition the messages into maximal same-role runs |
| ViewRewriter.MergeAllJoinsRuns | popcorn.py:76-83 | merging gives one message per maximal run, with the run's role and its contents joined by blank lines |
| ViewRewriter.RelabelAllStep | popcorn.py:69-75 | relabelling one more entry appends its relabelled message |
| ViewRewriter.BuildForwarded | popcorn.py:67-83 | the loop returns exactly the merge of the relabelled transcript, which alternates roles and is no longer than the transcript |
| ViewRewriter.FramingFailure | popcorn.py:84-88 | the exception raised for a view that cannot be framed: IndexError exactly for an empty view, the first assertion exactly when the first message is not a user message, and the last assertion exactly when the first one passes |
| ViewRewriter.AddFraming | popcorn.py:84-91 | an empty view raises IndexError, a first message that is not a user message fails the first assertion, and otherwise a last message that is not one fails the second; it succeeds exactly when the view starts and ends with user messages, and then only the first and last contents gain the prompt and the closing instruction |
| ViewRewriter.ForwardingSucceedsIff | popcorn.py:67-91 | framing succeeds exactly when the transcript is not empty and neither its first nor its last entry is the addressed bot's own |
| Popcorn.Republish | popcorn.py:95-104 | the relayed events are at most as many as the bot's events, and none is a suggested reply; `RepublishAppend` and `RepublishOne` pin it down as exactly the bot's texts and replacements, in stream order, each once |
| Popcorn.RepublishKeepsText | popcorn.py:101-104 | every text and every replacement the bot streams reaches the client |
| Popcorn.RepublishAppend | popcorn.py:96-104 | the stream is relayed event by event: relaying two stretches of the stream one after the other gives their relayed events in the same order |
| Popcorn.RepublishOne | popcorn.py:97-104 | metadata and the bot's suggested replies produce nothing, a replacement produces one replacement and a text produces one text, each with the same string |
| Popcorn.FramedAlternates | popcorn.py:84-91 | framing changes no role, so the framed view still alternates and is still user-bounded |
| Popcorn.RelayStream | popcorn.py:95-106 | the relay loop produces exactly the republished events |
| Popcorn.GetResponse | popcorn.py:33-109 | a parse error propagates; with nobody addressed the reply is the who-speaks-next question and suggestions; otherwise the request fails exactly when the view is not user-bounded, with the exception framing raises, and on success the addressed bot, which has been seen, gets the framed, alternating view, and the client gets the bot's events followed by the sorted suggestions |
| Popcorn.MentionIsNotADirective | popcorn.py:42-52 | a one-line turn that does not start with `[`, such as `Hello [Sage]`, is kept as it is and addresses nobody |
| Popcorn.DirectiveAlone | popcorn.py:42-44 | a directive alone addresses the bot but leaves an empty view, whose framing raises IndexError |
| Popcorn.AddressThenAsk | popcorn.py:42-83 | addressing a bot and then asking a question forwards the one user message `Mod: question` |
| Popcorn.LastLineIsAnnotated | popcorn.py:46-48 | content, newline, directive is the content-then-directive form |
| Popcorn.DirectiveOnLastLine | popcorn.py:46-52 | a directive on the last line of a turn addresses the bot and is cut off the kept message |
| Popcorn.DirectiveWithTrailingSpaces | popcorn.py:46-49 | a directive followed by whitespace other than one newline raises IndexError |
| Popcorn.BotAnswered | popcorn.py:42-59 | after a greeting, an address and the bot's answer, nobody is addressed and both turns are kept |
| Popcorn.SameBotTwiceInARow | popcorn.py:42-88 | addressing the bot that spoke last leaves its own turn last in its view, which fails the last-message assertion |

## Left out

- Logging: the `print` calls, including the warning at popcorn.py:55-56 for an unaddressed bot turn that is not the who-speaks-next question. They affect no output.
- The network call `stream_request`: the events the addressed bot streams are a parameter of `GetResponse`. An exception from the stream ends the relay quietly, so the model relays the events delivered before the stream ended or raised.
- The `QueryRequest` fields other than the conversation (the API key and the other metadata copied into the forwarded query), and the message fields other than role and content. The moderator copies the query's fields unchanged. A forwarded message keeps the other fields of the first message of its same-role run only (popcorn.py:77-79); a message merged into it at popcorn.py:81-83 contributes its content and loses its other fields. The model's messages have only a role and a content, so it captures neither.
- The text of the assertion messages. The model records which of the two assertions fails.
- The server-sent-event encoding, `run` and the `PoeBot` base class. They are framework code outside this file.
- Asynchrony: the events of one request are modelled as the sequence the generator yields.
- The message-kind flags of the fastapi_poe client (MetaMessage, `is_suggested_reply`, `is_replace_response`) are one `UpstreamEvent` datatype. A message with both flags set is not modelled separately; the relay checks the suggested-reply flag first.
