/** What the agent loop guarantees whatever the model, the transport and the backend do. */
module AgentLoopBounds {
  import opened Wrappers
  import opened Json
  import opened AgentLoop

  // ---------------------------------------------------------------------------
  // The final answer
  // ---------------------------------------------------------------------------

  lemma {:induction false} ShownBounded(items: seq<Value>)
    ensures |ShownIds(items)| <= |items|
    ensures forall id :: id in ShownIds(items) ==> |id| <= MAX_ID_CHARS
  {
    if items == [] {
    } else {
      ShownBounded(items[1..]);
    }
  }

  /** An answer has at most eight ids of at most sixty-four characters. */
  lemma ParseFinalBounded(content: Text)
    ensures |ParseFinal(content)| <= 8
    ensures forall id :: id in ParseFinal(content) ==> |id| <= 64
  {
    hide Parse, Strip, ShownIds;
    forall items: seq<Value>
      ensures |AnswerIds(items)| <= MAX_IDS && forall id :: id in AnswerIds(items) ==> |id| <= MAX_ID_CHARS
    {
      ShownBounded(if |items| > MAX_IDS then items[..MAX_IDS] else items);
    }
  }

  lemma {:induction false} LStripUpTo(p: Text, rest: Text)
    requires rest != [] && !Blank(rest[0])
    ensures LStrip(p + rest) == LStrip(p) + rest
  {
    if p == [] {
      assert p + rest == rest;
    } else if Blank(p[0]) {
      assert (p + rest)[1..] == p[1..] + rest;
      LStripUpTo(p[1..], rest);
    }
  }

  lemma {:induction false} RStripUpTo(front: Text, s: Text)
    requires front != [] && !Blank(front[|front| - 1])
    ensures RStrip(front + s) == front + RStrip(s)
  {
    if s == [] {
      assert front + s == front;
    } else if Blank(s[|s| - 1]) {
      assert (front + s)[..|front + s| - 1] == front + s[..|s| - 1];
      RStripUpTo(front, s[..|s| - 1]);
    }
  }

  lemma {:induction false} LStripShape(s: Text)
    ensures LStrip(s) != [] ==> !Blank(LStrip(s)[0])
    ensures forall c :: c in LStrip(s) ==> c in s
  {
    if s != [] && Blank(s[0]) {
      LStripShape(s[1..]);
    }
  }

  lemma {:induction false} RStripShape(s: Text)
    ensures RStrip(s) != [] ==> !Blank(RStrip(s)[|RStrip(s)| - 1])
    ensures forall c :: c in RStrip(s) ==> c in s
  {
    if s != [] && Blank(s[|s| - 1]) {
      RStripShape(s[..|s| - 1]);
    }
  }

  /** Stripping prose around a bracketed text strips the prose only. */
  lemma {:induction false} StripAround(p: Text, a: Text, s: Text)
    requires a != [] && a[0] == OPEN && a[|a| - 1] == CLOSE
    ensures Strip(p + a + s) == LStrip(p) + a + RStrip(s)
  {
    LStripUpTo(p, a + s);
    assert p + a + s == p + (a + s);
    RStripUpTo(LStrip(p) + a, s);
    assert LStrip(p) + (a + s) == LStrip(p) + a + s;
  }

  /** A whole text that parses to an array starts and ends with that array's brackets once
      nothing blank surrounds it. */
  lemma ArrayBrackets(text: Text)
    requires text != [] && !Blank(text[0]) && !Blank(text[|text| - 1])
    requires Parse(Python, text).Some? && Parse(Python, text).value.Array?
    ensures text[0] == OPEN && text[|text| - 1] == CLOSE
  {
    hide ParseItems, ParseMembers, ParseChars;
    NoSpace(text, 0);
    var j := ParseValue(Python, text, 0).next;
    ArrayValueBrackets(text);
    if j < |text| {
      SpaceToEnd(text, j);
    }
  }

  lemma SpaceToEnd(s: Text, j: nat)
    requires j < |s| && SkipSpace(s, j) == |s|
    ensures Blank(s[|s| - 1])
  {
  }

  lemma ArrayValueBrackets(text: Text)
    requires text != [] && ParseValue(Python, text, 0).Done? && ParseValue(Python, text, 0).value.Array?
    ensures text[0] == OPEN && text[ParseValue(Python, text, 0).next - 1] == CLOSE
  {
    hide ParseItems, ParseMembers, ParseChars;
    var k := SkipSpace(text, 1);
    if text[0] == OPEN && text[k] != CLOSE {
      ItemsClose(Python, text, k);
    }
  }

  /** Prose without brackets has none of the array's: the two searches find exactly its ends. */
  lemma FindsEnds(p: Text, a: Text, s: Text)
    requires a != [] && a[0] == OPEN && a[|a| - 1] == CLOSE && OPEN !in p && CLOSE !in s
    ensures var text := p + a + s;
            && Find(text, OPEN, 0) == |p|
            && FindLast(text, CLOSE, |text|) == |p| + |a| - 1
            && text[|p|..|p| + |a|] == a
  {
    var text := p + a + s;
    FindIs(text, OPEN, 0, |p|);
    FindLastIs(text, CLOSE, |text|, |p| + |a| - 1);
  }

  lemma {:induction false} FindIs(s: Text, c: Code, i: nat, k: nat)
    requires i <= k < |s| && s[k] == c && forall m :: i <= m < k ==> s[m] != c
    ensures Find(s, c, i) == k
    decreases k - i
  {
    if i < k {
      FindIs(s, c, i + 1, k);
    }
  }

  lemma {:induction false} FindLastIs(s: Text, c: Code, n: nat, k: nat)
    requires k < n <= |s| && s[k] == c && forall m :: k < m < n ==> s[m] != c
    ensures FindLast(s, c, n) == k
  {
    if k < n - 1 {
      FindLastIs(s, c, n - 1, k);
    }
  }

  /** An array in prose, with no opening bracket before it and no closing one after it, is
      recovered exactly unless the prose makes the whole answer some other JSON value. */
  lemma ParseFinalRecovers(p: Text, a: Text, s: Text)
    requires IsArrayText(Python, a) && OPEN !in p && CLOSE !in s
    ensures var text := Strip(p + a + s);
            ParseFinal(p + a + s)
            == if Parse(Python, text).Some? && text != a then [] else AnswerIds(Parse(Python, a).value.items)
  {
    hide Parse, Strip, LStrip, RStrip, AnswerIds;
    var p', s' := LStrip(p), RStrip(s);
    var text := p' + a + s';
    StripAround(p, a, s);
    LStripShape(p);
    RStripShape(s);
    FindsEnds(p', a, s');
    if Parse(Python, text).Some? && Parse(Python, text).value.Array? {
      assert text[0] == if p' == [] then OPEN else p'[0];
      assert text[|text| - 1] == if s' == [] then CLOSE else s'[|s'| - 1];
      ArrayBrackets(text);
      assert p' == [] && s' == [];
      assert text == a;
    }
  }

  /** Each id cut to 64 characters. */
  function ClippedIds(ids: seq<Text>): seq<Text> {
    seq(|ids|, i requires 0 <= i < |ids| => if |ids[i]| > 64 then ids[i][..64] else ids[i])
  }

  lemma {:induction false} ShownStrings(ids: seq<Text>)
    ensures ShownIds(Strings(ids)) == ClippedIds(ids)
  {
    if ids == [] {
    } else {
      ShownStrings(ids[1..]);
      StringsCons(ids);
      assert ClippedIds(ids) == [Clip(ids[0], MAX_ID_CHARS)] + ClippedIds(ids[1..]);
    }
  }

  /** The parse undoes the printer: a printed array of any strings, bare or in prose that does
      not bracket it, gives its first eight strings, each cut to sixty-four characters, unless
      the prose makes the whole answer some other JSON value. */
  lemma ParseFinalUndoesStringify(p: Text, ids: seq<Text>, s: Text)
    requires OPEN !in p && CLOSE !in s
    ensures var text := Strip(p + Stringify(ids) + s);
            ParseFinal(p + Stringify(ids) + s)
            == if Parse(Python, text).Some? && text != Stringify(ids) then []
               else ClippedIds(if |ids| > 8 then ids[..8] else ids)
  {
    hide Parse, Strip, Stringify, ParseFinal;
    var a := Stringify(ids);
    ParseUndoesStringify(Python, ids);
    StringifyEnds(ids);
    ParseFinalRecovers(p, a, s);
    var first := if |ids| > MAX_IDS then ids[..MAX_IDS] else ids;
    assert Strings(first) == if |Strings(ids)| > MAX_IDS then Strings(ids)[..MAX_IDS] else Strings(ids);
    ShownStrings(first);
  }

  // ---------------------------------------------------------------------------
  // The loop
  // ---------------------------------------------------------------------------

  lemma {:induction false} AnsweredExtends(w: World, turn: nat, messages: seq<Message>, calls: seq<ToolCall>, n: nat)
    requires n <= |calls|
    ensures var after := Answered(w, turn, messages, calls, n);
            && |after| == |messages| + n && after[..|messages|] == messages
            && forall k :: |messages| <= k < |after| ==>
                 after[k].role == Tool && |after[k].content| <= MAX_TOOL_RESULT_CHARS
  {
    if n > 0 {
      AnsweredExtends(w, turn, messages, calls, n - 1);
    }
  }

  /** The transcripts sent from a turn on: few, within budget, each extending the last. */
  ghost predicate WithinBounds(sent: seq<seq<Message>>, messages: seq<Message>, turns: nat) {
    && |sent| <= turns
    && (forall k :: 0 <= k < |sent| ==> Chars(sent[k]) <= MAX_TRANSCRIPT_CHARS)
    && (forall k :: 0 <= k < |sent| ==> messages <= sent[k])
    && (forall k :: 0 <= k < |sent| - 1 ==> sent[k] < sent[k + 1])
  }

  /** How a loop that started on `turn` ended, given what it sent. */
  ghost predicate Ends(w: World, turn: nat, r: LoopResult, sent: seq<seq<Message>>) {
    if r.budgetExceeded then
      && r.ids == [] && r.error == []
      && (r.turns == turn + |sent| || (r.turns == MAX_TURNS && turn + |sent| == MAX_TURNS + 1))
    else
      && sent != [] && r.turns == turn + |sent| - 1
      && match w.transport(r.turns, sent[|sent| - 1])
         case Failed(error) => r.ids == [] && r.error == Clip(error, MAX_ERROR_CHARS)
         case Reply(content, calls) => calls == [] && r.ids == ParseFinal(content) && r.error == []
  }

  lemma {:induction false} LoopBounded(w: World, messages: seq<Message>, turn: nat)
    requires 1 <= turn <= MAX_TURNS + 1
    ensures WithinBounds(Loop(w, messages, turn).1, messages, MAX_TURNS + 1 - turn)
    ensures Ends(w, turn, Loop(w, messages, turn).0, Loop(w, messages, turn).1)
    ensures Loop(w, messages, turn).1 != [] ==> Loop(w, messages, turn).1[0] == messages
    decreases MAX_TURNS + 1 - turn
  {
    hide ParseFinal, Chars, Answered;
    if turn <= MAX_TURNS && Chars(messages) <= MAX_TRANSCRIPT_CHARS {
      var reply := w.transport(turn, messages);
      if reply.Reply? && reply.calls != [] {
        var asked := messages + [Message(Assistant, reply.content)];
        var next := Answered(w, turn, asked, reply.calls, |reply.calls|);
        AnsweredExtends(w, turn, asked, reply.calls, |reply.calls|);
        assert messages < next by {
          assert next[..|messages|] == asked[..|messages|] == messages;
        }
        LoopBounded(w, next, turn + 1);
        SentBounded(Loop(w, next, turn + 1).1, messages, next, MAX_TURNS - turn);
      }
    }
  }

  lemma SentBounded(sent: seq<seq<Message>>, messages: seq<Message>, next: seq<Message>, turns: nat)
    requires WithinBounds(sent, next, turns) && messages < next && Chars(messages) <= MAX_TRANSCRIPT_CHARS
    requires sent != [] ==> sent[0] == next
    ensures WithinBounds([messages] + sent, messages, turns + 1)
  {
  }

  /** Whatever the transport and the backend do, an operation sends at most six transcripts,
      none of more than 24,000 characters, each a proper extension of the one before and all
      beginning with the system prompt and the user's; and any ids it returns were parsed
      from the model's answer to the last of them, an answer that asked for no tool. */
  lemma {:induction false} OperationBounded(w: World, system: Text, prompt: Text)
    ensures var (r, sent) := Loop(w, Opening(system, prompt), 1);
            && WithinBounds(sent, Opening(system, prompt), MAX_TURNS)
            && Ends(w, 1, r, sent)
            && |r.ids| <= MAX_IDS && (forall id :: id in r.ids ==> |id| <= MAX_ID_CHARS)
            && (r.ids != [] ==>
                  && sent != []
                  && w.transport(|sent|, sent[|sent| - 1]).Reply?
                  && w.transport(|sent|, sent[|sent| - 1]).calls == []
                  && r.ids == ParseFinal(w.transport(|sent|, sent[|sent| - 1]).content))
  {
    hide ParseFinal, Loop;
    var (r, sent) := Loop(w, Opening(system, prompt), 1);
    LoopBounded(w, Opening(system, prompt), 1);
    if r.ids == [] {
    } else {
      ParseFinalBounded(w.transport(r.turns, sent[|sent| - 1]).content);
    }
  }
}
