/** The agent loop as the conversation it holds: what each transcript adds to the one before, and
    how the conversation ends. */
module AgentLoopTrace {
  import opened Json
  import opened AgentLoop

  /** The first `n` codes of a text. */
  function FirstOf(text: Text, n: nat): Text {
    if |text| > n then text[..n] else text
  }

  /** The transcript that follows `before` when the model answered it with this content and these
      tool calls: the model's message, then each call's own result, cut to 2,000 characters. */
  ghost predicate Follows(w: World, turn: nat, before: seq<Message>, content: Text, calls: seq<ToolCall>,
                          after: seq<Message>)
  {
    && |after| == |before| + 1 + |calls|
    && after[..|before|] == before
    && after[|before|] == Message(Assistant, content)
    && forall i :: 0 <= i < |calls| ==>
         after[|before| + 1 + i] == Message(Tool, FirstOf(w.dispatch(turn, i, calls[i]), 2000))
  }

  /** The model answered this transcript with tool calls, and `after` is what was sent next. */
  ghost predicate GoesOn(w: World, turn: nat, before: seq<Message>, after: seq<Message>) {
    var reply := w.transport(turn, before);
    reply.Reply? && reply.calls != [] && Follows(w, turn, before, reply.content, reply.calls, after)
  }

  /** How a conversation that was to start with `messages` on `turn` ended. */
  ghost predicate Ended(w: World, messages: seq<Message>, turn: nat, r: LoopResult, sent: seq<seq<Message>>) {
    if sent == [] then
      if turn <= 6 then Chars(messages) > 24000 && r == LoopResult([], turn, true, [])
      else r == LoopResult([], 6, true, [])
    else
      var (at, last) := (turn + |sent| - 1, sent[|sent| - 1]);
      match w.transport(at, last)
      case Failed(error) => r == LoopResult([], at, false, FirstOf(error, 256))
      case Reply(content, calls) =>
        if calls == [] then r == LoopResult(ParseFinal(content), at, false, [])
        else if at == 6 then r == LoopResult([], 6, true, [])
        else
          && r == LoopResult([], at + 1, true, [])
          && exists next :: Follows(w, at, last, content, calls, next) && Chars(next) > 24000
  }

  /** A conversation from `messages` on `turn`: at most six turns, each transcript within 24,000
      characters, each following from the one before by the model's reply, and its end. */
  ghost predicate Conversation(w: World, messages: seq<Message>, turn: nat, r: LoopResult, sent: seq<seq<Message>>) {
    && turn + |sent| <= 7
    && (sent != [] ==> sent[0] == messages)
    && (forall k :: 0 <= k < |sent| ==> Chars(sent[k]) <= 24000)
    && (forall k :: 0 <= k < |sent| - 1 ==> GoesOn(w, turn + k, sent[k], sent[k + 1]))
    && Ended(w, messages, turn, r, sent)
  }

  lemma {:induction false} AnsweredFollows(w: World, turn: nat, asked: seq<Message>, calls: seq<ToolCall>, n: nat)
    requires n <= |calls|
    ensures var after := Answered(w, turn, asked, calls, n);
            && |after| == |asked| + n && after[..|asked|] == asked
            && forall i :: 0 <= i < n ==>
                 after[|asked| + i] == Message(Tool, FirstOf(w.dispatch(turn, i, calls[i]), 2000))
  {
    if n == 0 {
    } else {
      AnsweredFollows(w, turn, asked, calls, n - 1);
    }
  }

  lemma NextFollows(w: World, turn: nat, before: seq<Message>, content: Text, calls: seq<ToolCall>)
    ensures var next := Answered(w, turn, before + [Message(Assistant, content)], calls, |calls|);
            Follows(w, turn, before, content, calls, next)
  {
    var asked := before + [Message(Assistant, content)];
    AnsweredFollows(w, turn, asked, calls, |calls|);
    hide Answered, FirstOf;
    var next := Answered(w, turn, asked, calls, |calls|);
    assert next[..|before|] == next[..|asked|][..|before|];
    assert next[|before|] == next[..|asked|][|before|];
  }

  /** One transcript in front of a conversation makes a longer one. */
  lemma Prefixed(w: World, messages: seq<Message>, turn: nat, next: seq<Message>, r: LoopResult,
                 rest: seq<seq<Message>>)
    requires turn <= 6 && Chars(messages) <= 24000 && GoesOn(w, turn, messages, next)
    requires Conversation(w, next, turn + 1, r, rest)
    ensures Conversation(w, messages, turn, r, [messages] + rest)
  {
    hide Follows, Chars, ParseFinal, FirstOf;
    var sent := [messages] + rest;
    forall k | 0 <= k < |sent| - 1
      ensures GoesOn(w, turn + k, sent[k], sent[k + 1])
    {
      if k > 0 {
        assert GoesOn(w, turn + 1 + (k - 1), rest[k - 1], rest[k]);
      }
    }
    if rest == [] {
      assert sent[|sent| - 1] == messages;
    } else {
      assert sent[|sent| - 1] == rest[|rest| - 1];
    }
  }

  lemma {:induction false} LoopIsConversation(w: World, messages: seq<Message>, turn: nat)
    requires 1 <= turn <= 7
    ensures Conversation(w, messages, turn, Loop(w, messages, turn).0, Loop(w, messages, turn).1)
    decreases 7 - turn
  {
    hide ParseFinal, Chars, Answered, Follows;
    if turn <= 6 && Chars(messages) <= 24000 {
      var reply := w.transport(turn, messages);
      if reply.Reply? && reply.calls != [] {
        var next := Answered(w, turn, messages + [Message(Assistant, reply.content)], reply.calls, |reply.calls|);
        NextFollows(w, turn, messages, reply.content, reply.calls);
        LoopIsConversation(w, next, turn + 1);
        Prefixed(w, messages, turn, next, Loop(w, next, turn + 1).0, Loop(w, next, turn + 1).1);
      }
    }
  }

  /** Every operation is a conversation that starts with the system prompt and the user's. */
  lemma OperationIsConversation(w: World, system: Text, prompt: Text)
    ensures var (r, sent) := Loop(w, Opening(system, prompt), 1);
            Conversation(w, [Message(System, system), Message(User, prompt)], 1, r, sent)
  {
    hide Conversation, Loop;
    LoopIsConversation(w, Opening(system, prompt), 1);
  }

  /** What a transcript costs: the lengths of its contents, added up. */
  lemma {:induction false} CharsAdd(a: seq<Message>, b: seq<Message>)
    ensures Chars(a + b) == Chars(a) + Chars(b)
    ensures |b| == 1 ==> Chars(b) == |b[0].content|
    ensures b == [] ==> Chars(b) == 0
  {
    if b == [] {
      assert a + b == a;
    } else {
      CharsAdd(a, b[..|b| - 1]);
      assert (a + b)[..|a + b| - 1] == a + b[..|b| - 1];
    }
  }

  /** A world and an opening determine the conversation: two that start alike are the same. */
  lemma {:induction false} ConversationUnique(w: World, messages: seq<Message>, turn: nat, r: LoopResult,
                                              sent: seq<seq<Message>>, r': LoopResult, sent': seq<seq<Message>>)
    requires 1 <= turn && Conversation(w, messages, turn, r, sent) && Conversation(w, messages, turn, r', sent')
    ensures r == r' && sent == sent'
    decreases |sent|
  {
    hide Chars, ParseFinal, FirstOf;
    if sent == [] && sent' == [] {
    } else if sent == [] || sent' == [] {
    } else {
      if |sent| > 1 && |sent'| > 1 {
        assert GoesOn(w, turn + 0, sent[0], sent[1]) && GoesOn(w, turn + 0, sent'[0], sent'[1]);
        FollowsOnce(w, turn, messages, sent[1], sent'[1]);
        TailConverses(w, messages, turn, r, sent);
        TailConverses(w, messages, turn, r', sent');
        ConversationUnique(w, sent[1], turn + 1, r, sent[1..], r', sent'[1..]);
        assert sent == [messages] + sent[1..] && sent' == [messages] + sent'[1..];
      } else if |sent| == 1 && |sent'| == 1 {
        assert sent == [messages] == sent';
      } else if |sent| == 1 {
        assert GoesOn(w, turn + 0, sent'[0], sent'[1]);
        EndedForBudget(w, messages, turn, r, sent, sent'[1]);
      } else {
        assert GoesOn(w, turn + 0, sent[0], sent[1]);
        EndedForBudget(w, messages, turn, r', sent', sent[1]);
      }
    }
  }

  lemma FollowsOnce(w: World, turn: nat, before: seq<Message>, after: seq<Message>, after': seq<Message>)
    requires GoesOn(w, turn, before, after) && GoesOn(w, turn, before, after')
    ensures after == after'
  {
    hide FirstOf;
    forall k | 0 <= k < |after|
      ensures after[k] == after'[k]
    {
      if k < |before| {
        assert after[k] == after[..|before|][k] && after'[k] == after'[..|before|][k];
      } else if k > |before| {
        var i := k - |before| - 1;
        var result := FirstOf(w.dispatch(turn, i, w.transport(turn, before).calls[i]), 2000);
        assert after[|before| + 1 + i] == Message(Tool, result) && after'[|before| + 1 + i] == Message(Tool, result);
      }
    }
  }

  lemma TailConverses(w: World, messages: seq<Message>, turn: nat, r: LoopResult, sent: seq<seq<Message>>)
    requires Conversation(w, messages, turn, r, sent) && |sent| > 1
    ensures Conversation(w, sent[1], turn + 1, r, sent[1..])
  {
    hide Chars, ParseFinal, FirstOf, Follows;
    var rest := sent[1..];
    forall k | 0 <= k < |rest| - 1
      ensures GoesOn(w, turn + 1 + k, rest[k], rest[k + 1])
    {
      assert GoesOn(w, turn + (k + 1), sent[k + 1], sent[k + 2]);
    }
  }

  /** A conversation that ended after a reply that asked for tools ended for its budget. */
  lemma EndedForBudget(w: World, messages: seq<Message>, turn: nat, r: LoopResult, sent: seq<seq<Message>>,
                       after: seq<Message>)
    requires Conversation(w, messages, turn, r, sent) && |sent| == 1 && turn < 6 && GoesOn(w, turn, messages, after)
    ensures Chars(after) > 24000
  {
    hide Chars, ParseFinal, FirstOf, Follows;
    var reply := w.transport(turn, messages);
    var next :| Follows(w, turn, messages, reply.content, reply.calls, next) && Chars(next) > 24000;
    FollowsOnce(w, turn, messages, next, after);
  }
}
