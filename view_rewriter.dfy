// The per-bot view of the conversation that get_response forwards to the
// addressed bot: the bot's own turns stay its own, everybody else's become
// user turns prefixed with the speaker's name, adjacent turns of the same role
// are merged, and the first and last messages carry the framing texts.

module ViewRewriter {
  import opened Protocol
  import opened BotId

  /** The role and content an entry is forwarded with: a bot turn exactly
      when the addressed bot said it, a user turn otherwise. */
  function Relabel(e: Entry, target: string): (m: Message)
    ensures m.role == Bot <==> e.sender == target
    ensures m.role == Bot || m.role == User
  {
    if e.sender == target then e.message.(role := Bot)
    else e.message.(role := User, content := e.sender + ": " + e.message.content)
  }

  /** Relabelling never loses what was said: the original content is kept
      whole at the end of the forwarded content. */
  lemma RelabelKeepsContent(e: Entry, target: string)
    ensures var m := Relabel(e, target);
      |e.message.content| <= |m.content| && m.content[|m.content| - |e.message.content|..] == e.message.content
  {
    if e.sender != target {
      var prefix := e.sender + ": ";
      assert (prefix + e.message.content)[|prefix|..] == e.message.content;
    }
  }

  function RelabelAll(entries: seq<Entry>, target: string): (ms: seq<Message>)
    ensures |ms| == |entries|
    ensures forall k :: 0 <= k < |ms| ==> ms[k] == Relabel(entries[k], target)
  {
    seq(|entries|, k requires 0 <= k < |entries| => Relabel(entries[k], target))
  }

  /** The moderator can never be mistaken for the addressed bot. */
  lemma ModeratorForwardedAsUser(e: Entry, target: string)
    requires ValidBotId(target) && e.sender == ModeratorId
    ensures Relabel(e, target) == Message(User, ModeratorId + ": " + e.message.content)
  {
  }

  /** One iteration of the forwarding loop: start a new message, or append to
      the last one when it has the same role. */
  function PushMerged(acc: seq<Message>, m: Message): (r: seq<Message>)
    ensures r != [] && r[|r| - 1].role == m.role
    ensures |acc| <= |r| <= |acc| + 1
  {
    if acc == [] || acc[|acc| - 1].role != m.role then acc + [m]
    else acc[|acc| - 1 := acc[|acc| - 1].(content := acc[|acc| - 1].content + BlankLine + m.content)]
  }

  /** The whole forwarding loop over a relabelled transcript: a non-empty
      input gives a non-empty result that ends with the input's last role. */
  function MergeAll(ms: seq<Message>): (r: seq<Message>)
    ensures ms != [] ==> r != [] && r[|r| - 1].role == ms[|ms| - 1].role
  {
    if ms == [] then [] else PushMerged(MergeAll(ms[..|ms| - 1]), ms[|ms| - 1])
  }

  lemma MergeAllSnoc(ms: seq<Message>, m: Message)
    ensures MergeAll(ms + [m]) == PushMerged(MergeAll(ms), m)
  {
    assert (ms + [m])[..|ms|] == ms;
  }

  /** No two neighbours share a role, as the bot's API demands. */
  predicate Alternating(ms: seq<Message>)
  {
    forall k :: 0 < k < |ms| ==> ms[k - 1].role != ms[k].role
  }

  /** Merging leaves roles alternating, never adds messages, and keeps the
      roles at both ends. */
  lemma {:induction false} MergeAllShape(ms: seq<Message>)
    ensures var r := MergeAll(ms);
      && Alternating(r)
      && |r| <= |ms|
      && (ms != [] ==> r != [] && r[0].role == ms[0].role && r[|r| - 1].role == ms[|ms| - 1].role)
  {
    if ms != [] {
      MergeAllShape(ms[..|ms| - 1]);
    }
  }

  /** The contents of a run, joined with blank lines. */
  function JoinContents(run: seq<Message>): string
    requires run != []
  {
    if |run| == 1 then run[0].content
    else JoinContents(run[..|run| - 1]) + BlankLine + run[|run| - 1].content
  }

  function Flatten(runs: seq<seq<Message>>): seq<Message>
  {
    if runs == [] then [] else Flatten(runs[..|runs| - 1]) + runs[|runs| - 1]
  }

  /** A non-empty run of messages of one role. */
  ghost predicate Uniform(run: seq<Message>)
  {
    run != [] && forall k :: 0 <= k < |run| ==> run[k].role == run[0].role
  }

  /** The maximal runs of consecutive messages that share a role. */
  ghost function Runs(ms: seq<Message>): seq<seq<Message>>
  {
    if ms == [] then []
    else
      var runs := Runs(ms[..|ms| - 1]);
      var m := ms[|ms| - 1];
      if runs != [] && runs[|runs| - 1] != [] && runs[|runs| - 1][0].role == m.role
      then runs[|runs| - 1 := runs[|runs| - 1] + [m]]
      else runs + [[m]]
  }

  lemma FlattenSnoc(runs: seq<seq<Message>>, run: seq<Message>)
    ensures Flatten(runs + [run]) == Flatten(runs) + run
  {
    assert (runs + [run])[..|runs|] == runs;
  }

  lemma FlattenGrowLast(runs: seq<seq<Message>>, m: Message)
    requires runs != []
    ensures var n := |runs| - 1; Flatten(runs[n := runs[n] + [m]]) == Flatten(runs) + [m]
  {
    var n := |runs| - 1;
    assert runs == runs[..n] + [runs[n]];
    assert runs[n := runs[n] + [m]] == runs[..n] + [runs[n] + [m]];
    FlattenSnoc(runs[..n], runs[n]);
    FlattenSnoc(runs[..n], runs[n] + [m]);
  }

  /** Read in order, the runs give the messages back. */
  lemma {:induction false} RunsFlatten(ms: seq<Message>)
    ensures Flatten(Runs(ms)) == ms
  {
    if ms != [] {
      var prefix := ms[..|ms| - 1];
      var m := ms[|ms| - 1];
      assert prefix + [m] == ms;
      RunsFlatten(prefix);
      var runs: seq<seq<Message>> := Runs(prefix);
      if runs != [] && runs[|runs| - 1] != [] && runs[|runs| - 1][0].role == m.role {
        FlattenGrowLast(runs, m);
      } else {
        FlattenSnoc(runs, [m]);
      }
    }
  }

  /** Each run has one role, and neighbouring runs differ in role. */
  ghost predicate Maximal(runs: seq<seq<Message>>)
  {
    && (forall k :: 0 <= k < |runs| ==> Uniform(runs[k]))
    && (forall k :: 0 < k < |runs| ==> runs[k - 1][0].role != runs[k][0].role)
  }

  lemma {:induction false} RunsMaximal(ms: seq<Message>)
    ensures Maximal(Runs(ms))
  {
    if ms != [] {
      var prefix := ms[..|ms| - 1];
      var m := ms[|ms| - 1];
      RunsMaximal(prefix);
      var runs: seq<seq<Message>> := Runs(prefix);
      if runs != [] && runs[|runs| - 1] != [] && runs[|runs| - 1][0].role == m.role {
        var n := |runs| - 1;
        var grown := runs[n] + [m];
        assert grown[0] == runs[n][0];
        forall k | 0 <= k < |grown| ensures grown[k].role == grown[0].role {
          if k < |runs[n]| {
            assert grown[k] == runs[n][k];
          }
        }
        assert Runs(ms) == runs[n := grown];
      } else {
        assert Runs(ms) == runs + [[m]];
      }
    }
  }

  /** The runs partition the messages: read in order they give the messages
      back, each run has one role, and neighbouring runs differ in role. */
  lemma RunsPartition(ms: seq<Message>)
    ensures Flatten(Runs(ms)) == ms && Maximal(Runs(ms))
  {
    RunsFlatten(ms);
    RunsMaximal(ms);
  }

  /** `r` has one message per run, with the run's role and its contents
      joined with blank lines. */
  ghost predicate JoinsRuns(r: seq<Message>, runs: seq<seq<Message>>)
  {
    && |r| == |runs|
    && forall k :: 0 <= k < |r| ==>
         runs[k] != [] && r[k] == Message(runs[k][0].role, JoinContents(runs[k]))
  }

  /** Merging turns each maximal run into one message of the run's role whose
      content is the run's contents joined with blank lines. */
  lemma {:induction false} MergeAllJoinsRuns(ms: seq<Message>)
    ensures JoinsRuns(MergeAll(ms), Runs(ms))
  {
    if ms != [] {
      var prefix := ms[..|ms| - 1];
      var m := ms[|ms| - 1];
      MergeAllJoinsRuns(prefix);
      var runs: seq<seq<Message>> := Runs(prefix);
      var r := MergeAll(prefix);
      if runs != [] && runs[|runs| - 1] != [] && runs[|runs| - 1][0].role == m.role {
        var n := |runs| - 1;
        var run := runs[n];
        assert r[n].role == m.role;
        assert MergeAll(ms) == r[n := r[n].(content := r[n].content + BlankLine + m.content)];
        assert Runs(ms) == runs[n := run + [m]];
        assert (run + [m])[..|run|] == run;
        assert JoinContents(run + [m]) == JoinContents(run) + BlankLine + m.content;
      } else {
        assert runs != [] ==> r[|r| - 1].role != m.role;
        assert MergeAll(ms) == r + [m];
        assert Runs(ms) == runs + [[m]];
        assert JoinContents([m]) == m.content;
      }
    }
  }

  lemma RelabelAllStep(entries: seq<Entry>, i: nat, target: string)
    requires i < |entries|
    ensures RelabelAll(entries[..i + 1], target) == RelabelAll(entries[..i], target) + [Relabel(entries[i], target)]
  {
  }

  /** The loop of get_response that builds forwarded_messages. */
  method BuildForwarded(messages: seq<Entry>, target: string) returns (forwarded: seq<Message>)
    ensures forwarded == MergeAll(RelabelAll(messages, target))
    ensures Alternating(forwarded) && |forwarded| <= |messages|
  {
    forwarded := [];
    for i := 0 to |messages|
      invariant forwarded == MergeAll(RelabelAll(messages[..i], target))
    {
      RelabelAllStep(messages, i, target);
      MergeAllSnoc(RelabelAll(messages[..i], target), Relabel(messages[i], target));
      var sender, message := messages[i].sender, messages[i].message;
      var currentRole, messageContent;
      if sender == target {
        currentRole := Bot;
        messageContent := message.content;
      } else {
        currentRole := User;
        messageContent := sender + ": " + message.content;
      }
      assert message.(role := currentRole, content := messageContent) == Relabel(messages[i], target);
      if forwarded == [] || forwarded[|forwarded| - 1].role != currentRole {
        forwarded := forwarded + [message.(role := currentRole, content := messageContent)];
      } else {
        var last := forwarded[|forwarded| - 1];
        forwarded := forwarded[|forwarded| - 1 := last.(content := last.content + BlankLine + messageContent)];
      }
    }
    assert messages[..|messages|] == messages;
    MergeAllShape(RelabelAll(messages, target));
  }

  /** The forwarded view can be framed: it is not empty and starts and ends
      with a user message. */
  predicate UserBounded(ms: seq<Message>)
  {
    ms != [] && ms[0].role == User && ms[|ms| - 1].role == User
  }

  /** `after` is `before` with the starting prompt put in front of the first
      message's content and the closing instruction after the last message's
      content; roles and all other messages are unchanged. */
  predicate Framed(before: seq<Message>, after: seq<Message>)
  {
    && before != []
    && |after| == |before|
    && (forall k :: 0 <= k < |after| ==> after[k].role == before[k].role)
    && (forall k :: 0 < k < |after| - 1 ==> after[k] == before[k])
    && var n := |after| - 1;
       if n == 0 then
         after[0].content == StartingPrompt + BlankLine + before[0].content + BlankLine + ClosingInstruction
       else
         && after[0].content == StartingPrompt + BlankLine + before[0].content
         && after[n].content == before[n].content + BlankLine + ClosingInstruction
  }

  /** The exception raised when a view cannot be framed: indexing an empty
      list, or the first or else the last of the two assertions. */
  function FramingFailure(ms: seq<Message>): (f: Failure)
    ensures f == IndexError <==> ms == []
    ensures f == AssertionError(FirstNotUser) <==> ms != [] && ms[0].role != User
    ensures f == AssertionError(LastNotUser) <==> ms != [] && ms[0].role == User
  {
    if ms == [] then IndexError
    else if ms[0].role != User then AssertionError(FirstNotUser)
    else AssertionError(LastNotUser)
  }

  /** The two assertions of get_response and the two in-place edits they guard. */
  method AddFraming(forwarded: seq<Message>) returns (r: Result<seq<Message>, Failure>)
    ensures forwarded == [] ==> r == Err(IndexError)
    ensures forwarded != [] && forwarded[0].role != User ==> r == Err(AssertionError(FirstNotUser))
    ensures forwarded != [] && forwarded[0].role == User && forwarded[|forwarded| - 1].role != User
            ==> r == Err(AssertionError(LastNotUser))
    ensures r.Ok? <==> UserBounded(forwarded)
    ensures r.Err? ==> r.error == FramingFailure(forwarded)
    ensures r.Ok? ==> Framed(forwarded, r.value)
  {
    if forwarded == [] {
      return Err(IndexError);
    }
    if forwarded[0].role != User {
      return Err(AssertionError(FirstNotUser));
    }
    var framed := forwarded[0 := forwarded[0].(content := StartingPrompt + BlankLine + forwarded[0].content)];
    var n := |framed| - 1;
    if framed[n].role != User {
      return Err(AssertionError(LastNotUser));
    }
    framed := framed[n := framed[n].(content := framed[n].content + BlankLine + ClosingInstruction)];
    return Ok(framed);
  }

  /** Framing succeeds exactly when there is something to forward and neither
      the first nor the last entry is the addressed bot's own. */
  lemma ForwardingSucceedsIff(entries: seq<Entry>, target: string)
    ensures UserBounded(MergeAll(RelabelAll(entries, target))) <==>
            entries != [] && entries[0].sender != target && entries[|entries| - 1].sender != target
  {
    MergeAllShape(RelabelAll(entries, target));
  }
}
