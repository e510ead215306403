/** The shared agent loop: the strict parse of a final answer, and the bounded loop that
    drives the model and its memory tools. */
module AgentLoop {
  import opened Wrappers
  import opened Json

  const MAX_TURNS := 6
  const MAX_IDS := 8
  const MAX_ID_CHARS := 64
  const MAX_TOOL_RESULT_CHARS := 2000
  const MAX_TRANSCRIPT_CHARS := 24000
  const MAX_ERROR_CHARS := 256

  // ---------------------------------------------------------------------------
  // The final answer
  // ---------------------------------------------------------------------------

  /** What Python's `str.strip` removes. */
  predicate Blank(c: Code) {
    9 <= c <= 13 || 28 <= c <= 32 || c in {0x85, 0xA0, 0x1680, 0x2028, 0x2029, 0x202F, 0x205F, 0x3000}
    || 0x2000 <= c <= 0x200A
  }

  function LStrip(s: Text): Text {
    if s != [] && Blank(s[0]) then LStrip(s[1..]) else s
  }

  function RStrip(s: Text): Text {
    if s != [] && Blank(s[|s| - 1]) then RStrip(s[..|s| - 1]) else s
  }

  function Strip(s: Text): Text {
    RStrip(LStrip(s))
  }

  /** The first index of `c` at or after `i`, or -1. */
  function Find(s: Text, c: Code, i: nat): (k: int)
    requires i <= |s|
    ensures k == -1 || (i <= k < |s| && s[k] == c)
    decreases |s| - i
  {
    if i == |s| then -1 else if s[i] == c then i else Find(s, c, i + 1)
  }

  /** The last index of `c` before `n`, or -1. */
  function FindLast(s: Text, c: Code, n: nat): (k: int)
    requires n <= |s|
    ensures k == -1 || (0 <= k < n && s[k] == c)
  {
    if n == 0 then -1 else if s[n - 1] == c then n - 1 else FindLast(s, c, n - 1)
  }

  function Clip(s: Text, n: nat): Text {
    if |s| > n then s[..n] else s
  }

  /** `str(item)` for the items an answer may hold: strings, integers, and booleans, which
      Python counts among its integers. */
  function Shown(v: Value): Option<Text> {
    match v
    case String(text) => Some(text)
    case Number(lexeme, integral) =>
      if !integral then None else Some(if lexeme == [MINUS, ZERO] then [ZERO] else lexeme)
    case Bool(b) => Some(if b then [84, 114, 117, 101] else [70, 97, 108, 115, 101])
    case _ => None
  }

  function ShownIds(items: seq<Value>): seq<Text> {
    if items == [] then []
    else
      match Shown(items[0])
      case None => ShownIds(items[1..])
      case Some(text) => [Clip(text, MAX_ID_CHARS)] + ShownIds(items[1..])
  }

  function AnswerIds(items: seq<Value>): seq<Text> {
    ShownIds(if |items| > MAX_IDS then items[..MAX_IDS] else items)
  }

  function ParseFinal(content: Text): seq<Text> {
    var text := Strip(content);
    match Parse(Python, text)
    case Some(v) => if v.Array? then AnswerIds(v.items) else []
    case None =>
      var start, end := Find(text, OPEN, 0), FindLast(text, CLOSE, |text|);
      if start == -1 || end == -1 || end < start then []
      else
        match Parse(Python, text[start..end + 1])
        case None => []
        case Some(v) => if v.Array? then AnswerIds(v.items) else []
  }

  // ---------------------------------------------------------------------------
  // The loop
  // ---------------------------------------------------------------------------

  datatype Role = System | User | Assistant | Tool

  datatype Message = Message(role: Role, content: Text)

  datatype ToolCall = ToolCall(name: Text, arguments: Text)

  /** A model turn: a transport failure, or a message with the tool calls it asks for. */
  datatype Reply = Failed(error: Text) | Reply(content: Text, calls: seq<ToolCall>)

  datatype LoopResult = LoopResult(ids: seq<Text>, turns: nat, budgetExceeded: bool, error: Text)

  /** The transport answers a turn and its transcript; the dispatcher prints the backend's
      result for a turn's numbered tool call.  Both are arbitrary. */
  datatype World = World(transport: (nat, seq<Message>) -> Reply, dispatch: (nat, nat, ToolCall) -> Text)

  function Chars(messages: seq<Message>): nat {
    if messages == [] then 0
    else Chars(messages[..|messages| - 1]) + |messages[|messages| - 1].content|
  }

  /** The transcript once the first `n` of a turn's tool calls have been answered. */
  function Answered(w: World, turn: nat, messages: seq<Message>, calls: seq<ToolCall>, n: nat): seq<Message>
    requires n <= |calls|
  {
    if n == 0 then messages
    else
      Answered(w, turn, messages, calls, n - 1)
      + [Message(Tool, Clip(w.dispatch(turn, n - 1, calls[n - 1]), MAX_TOOL_RESULT_CHARS))]
  }

  /** The loop from `turn` on: its result and the transcripts it sends to the transport. */
  function Loop(w: World, messages: seq<Message>, turn: nat): (LoopResult, seq<seq<Message>>)
    decreases MAX_TURNS + 1 - turn
  {
    if turn > MAX_TURNS then (LoopResult([], MAX_TURNS, true, []), [])
    else if Chars(messages) > MAX_TRANSCRIPT_CHARS then (LoopResult([], turn, true, []), [])
    else
      match w.transport(turn, messages)
      case Failed(error) => (LoopResult([], turn, false, Clip(error, MAX_ERROR_CHARS)), [messages])
      case Reply(content, calls) =>
        if calls == [] then (LoopResult(ParseFinal(content), turn, false, []), [messages])
        else
          var next := Answered(w, turn, messages + [Message(Assistant, content)], calls, |calls|);
          var (r, sent) := Loop(w, next, turn + 1);
          (r, [messages] + sent)
  }

  function Opening(system: Text, prompt: Text): seq<Message> {
    [Message(System, system), Message(User, prompt)]
  }

  method TranscriptChars(messages: seq<Message>) returns (n: nat)
    ensures n == Chars(messages)
  {
    n := 0;
    for i := 0 to |messages|
      invariant n == Chars(messages[..i])
    {
      assert messages[..i + 1][..i] == messages[..i];
      n := n + |messages[i].content|;
    }
    assert messages[..|messages|] == messages;
  }

  /** Answer a turn's tool calls in order. */
  method AnswerTools(w: World, turn: nat, asked: seq<Message>, calls: seq<ToolCall>) returns (messages: seq<Message>)
    ensures messages == Answered(w, turn, asked, calls, |calls|)
  {
    messages := asked;
    for i := 0 to |calls|
      invariant messages == Answered(w, turn, asked, calls, i)
    {
      var payload := Clip(w.dispatch(turn, i, calls[i]), MAX_TOOL_RESULT_CHARS);
      messages := messages + [Message(Tool, payload)];
    }
  }

  method RunOperation(w: World, system: Text, prompt: Text) returns (r: LoopResult, sent: seq<seq<Message>>)
    ensures r == Loop(w, Opening(system, prompt), 1).0
    ensures sent == Loop(w, Opening(system, prompt), 1).1
  {
    hide Chars, Answered, ParseFinal, Clip;
    var messages := [Message(System, system), Message(User, prompt)];
    sent := [];
    var turn := 1;
    while turn <= MAX_TURNS
      invariant 1 <= turn <= MAX_TURNS + 1
      invariant Loop(w, Opening(system, prompt), 1).0 == Loop(w, messages, turn).0
      invariant Loop(w, Opening(system, prompt), 1).1 == sent + Loop(w, messages, turn).1
    {
      var chars := TranscriptChars(messages);
      if chars > MAX_TRANSCRIPT_CHARS {
        return LoopResult([], turn, true, []), sent;
      }
      var response := w.transport(turn, messages);
      ghost var rest := Loop(w, messages, turn).1[1..];
      assert sent + ([messages] + rest) == sent + [messages] + rest;
      sent := sent + [messages];
      match response
      case Failed(error) =>
        return LoopResult([], turn, false, Clip(error, MAX_ERROR_CHARS)), sent;
      case Reply(content, calls) =>
        if calls == [] {
          return LoopResult(ParseFinal(content), turn, false, []), sent;
        }
        messages := AnswerTools(w, turn, messages + [Message(Assistant, content)], calls);
        turn := turn + 1;
    }
    r := LoopResult([], MAX_TURNS, true, []);
  }
}
