// Values exchanged between the moderator bot, the chat client and the
// addressed bot, and the fixed texts of popcorn.py.

module Protocol {

  datatype Option<+T> = None | Some(value: T)

  datatype Result<+T, +E> = Ok(value: T) | Err(error: E)

  /** The role of a chat message. The moderator compares the role with "user"
      and treats every other role as a bot turn. */
  datatype Role = User | Bot | System

  /** A chat message; the model keeps only the two fields the moderator reads
      or rewrites. */
  datatype Message = Message(role: Role, content: string)

  /** One entry of the filtered transcript: who said it, and what. */
  datatype Entry = Entry(sender: string, message: Message)

  datatype FailedCheck = FirstNotUser | LastNotUser

  /** The exceptions get_response can raise. */
  datatype Failure =
    | IndexError                       // indexing an empty list
    | AssertionError(check: FailedCheck)

  /** Events sent back to the human-facing client. */
  datatype Event = Text(text: string) | SuggestedReply(reply: string) | ReplaceResponse(replacement: string)

  /** Events received from the addressed bot's stream. */
  datatype UpstreamEvent =
    | Meta
    | UpstreamSuggestion(suggestion: string)
    | UpstreamReplace(replacement: string)
    | UpstreamText(text: string)

  /** Three letters, so that it can never be a bot name (those have at least four). */
  const ModeratorId: string := "Mod"

  const StartingPrompt: string := "You are in a group discussion moderated by " + ModeratorId + "."

  const WhoSpeaksNextResponse: string :=
    "(Which bot do you want to respond with next? Type their name in brackets, like [Sage])"

  const ClosingInstruction: string :=
    "Now it's your turn to speak. Remember to stay on topic with what " + ModeratorId + " last said."

  /** Offered as next speakers even when they have not appeared in the conversation. */
  const DefaultSuggestions: set<string> := {"Sage", "Claude-instant"}

  /** Separator between the contents of merged messages and around the framing texts. */
  const BlankLine: string := "\n\n"
}
