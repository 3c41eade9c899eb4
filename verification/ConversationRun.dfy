/** Whole runs of a conversation as values: what the model is sent, turn after turn. */
module ConversationRun {
  import opened Options
  import opened MessageHistory
  import opened TokenPruning

  datatype Config = Config(maxHistory: nat, maxTokens: nat, compactor: Option<Compactor>)

  /** What the model answers in one turn, what its tools return, and the prompt in force. */
  datatype Turn = Turn(prompt: string, reply: string, calls: Option<seq<ToolCall>>, results: seq<string>)

  datatype Outcome = Reply(text: string) | Finished(text: string) | TurnCapped(text: string) | Waiting

  function CallsOf(t: Turn): seq<ToolCall> {
    if t.calls.Some? then t.calls.value else []
  }

  function ResultOf(t: Turn, j: nat): string {
    if j < |t.results| then t.results[j] else ""
  }

  function UserMessage(text: string, pin: bool): Message {
    Message(User, text, None, None, None, pin)
  }

  function AssistantMessage(t: Turn): Message {
    Message(Assistant, t.reply, if CallsOf(t) != [] then t.calls else None, None, None, false)
  }

  function ToolMessage(result: string, call: ToolCall): Message {
    Message(Tool, result, None, Some(call.id), Some(call.toolname), false)
  }

  function Pruned(h: seq<Message>, c: Config): seq<Message> {
    if h == [] then h
    else if c.maxTokens > 0 then TokenPruned(h, c.maxTokens, c.compactor)
    else CountPruned(h, c.maxHistory)
  }

  function Prompted(h: seq<Message>, prompt: string): seq<Message> {
    if Head(h) == 1 then h[0 := h[0].(content := prompt)]
    else [Message(System, prompt, None, None, None, false)] + h
  }

  /** The history after pushing and pruning each message in turn. */
  function PushAll(h: seq<Message>, ms: seq<Message>, c: Config): seq<Message> {
    if ms == [] then h
    else Pruned(PushAll(h, ms[..|ms| - 1], c) + [ms[|ms| - 1]], c)
  }

  /** The responses to the first n calls of a turn. */
  function ResponsesTo(t: Turn, n: nat): seq<Message>
    requires n <= |CallsOf(t)|
  {
    seq(n, j requires 0 <= j < n => ToolMessage(ResultOf(t, j), CallsOf(t)[j]))
  }

  predicate Finishes(t: Turn) {
    exists j :: 0 <= j < |CallsOf(t)| && ResultOf(t, j) == "finish"
  }

  /** How many calls of the turn are executed: all, or those up to the one that finishes. */
  function ExecutedCount(t: Turn, j: nat): (n: nat)
    requires j <= |CallsOf(t)|
    ensures j <= n <= |CallsOf(t)|
    decreases |CallsOf(t)| - j
  {
    if j == |CallsOf(t)| then j
    else if ResultOf(t, j) == "finish" then j + 1
    else ExecutedCount(t, j + 1)
  }

  function Executed(t: Turn): seq<Message> {
    ResponsesTo(t, ExecutedCount(t, 0))
  }

  predicate Continues(t: Turn) {
    CallsOf(t) != [] && !Finishes(t)
  }

  function Opened(h: seq<Message>, prompt: string, user: Message, c: Config): seq<Message> {
    Pruned(Prompted(h, prompt) + [user], c)
  }

  function AfterTurn(h: seq<Message>, t: Turn, c: Config): seq<Message> {
    PushAll(Prompted(h, t.prompt), [AssistantMessage(t)] + Executed(t), c)
  }

  /** The history after the first n turns. */
  function RunTo(h: seq<Message>, script: seq<Turn>, n: nat, c: Config): seq<Message>
    requires n <= |script|
  {
    if n == 0 then h else AfterTurn(RunTo(h, script, n - 1, c), script[n - 1], c)
  }

  // ---- Pushing the messages of a turn ----

  lemma FirstPush(h: seq<Message>, a: Message, c: Config)
    ensures PushAll(h, [a], c) == Pruned(h + [a], c)
  {
    assert [a][..0] == [];
  }

  lemma SilentTurn(h: seq<Message>, t: Turn, c: Config)
    requires CallsOf(t) == []
    ensures PushAll(h, [AssistantMessage(t)] + Executed(t), c) == Pruned(h + [AssistantMessage(t)], c)
  {
    assert [AssistantMessage(t)] + Executed(t) == [AssistantMessage(t)];
    FirstPush(h, AssistantMessage(t), c);
  }

  lemma PushOneMore(h: seq<Message>, ms: seq<Message>, m: Message, c: Config)
    ensures PushAll(h, ms + [m], c) == Pruned(PushAll(h, ms, c) + [m], c)
  {
    hide Pruned;
    assert (ms + [m])[..|ms|] == ms;
  }

  lemma OneMoreResponse(t: Turn, j: nat)
    requires j < |CallsOf(t)|
    ensures ResponsesTo(t, j + 1) == ResponsesTo(t, j) + [ToolMessage(ResultOf(t, j), CallsOf(t)[j])]
  {
    hide ToolMessage, ResultOf;
  }

  lemma NextPush(h: seq<Message>, a: Message, t: Turn, j: nat, c: Config)
    requires j < |CallsOf(t)|
    ensures PushAll(h, [a] + ResponsesTo(t, j + 1), c) ==
            Pruned(PushAll(h, [a] + ResponsesTo(t, j), c) + [ToolMessage(ResultOf(t, j), CallsOf(t)[j])], c)
    ensures [a] + ResponsesTo(t, 0) == [a]
  {
    hide PushAll, Pruned, ToolMessage, ResultOf;
    var m := ToolMessage(ResultOf(t, j), CallsOf(t)[j]);
    OneMoreResponse(t, j);
    PushOneMore(h, [a] + ResponsesTo(t, j), m, c);
    assert [a] + ResponsesTo(t, j + 1) == [a] + ResponsesTo(t, j) + [m];
  }

  lemma {:induction false} CountFrom(t: Turn, i: nat, j: nat)
    requires i <= j <= |CallsOf(t)| && forall k :: i <= k < j ==> ResultOf(t, k) != "finish"
    ensures ExecutedCount(t, i) == ExecutedCount(t, j)
    decreases j - i
  {
    if i < j {
      CountFrom(t, i + 1, j);
    }
  }

  lemma StopsAt(t: Turn, j: nat)
    requires j < |CallsOf(t)| && ResultOf(t, j) == "finish" && forall k :: 0 <= k < j ==> ResultOf(t, k) != "finish"
    ensures Executed(t) == ResponsesTo(t, j + 1) && Finishes(t)
  {
    CountFrom(t, 0, j);
  }

  lemma RunsThrough(t: Turn)
    requires forall k :: 0 <= k < |CallsOf(t)| ==> ResultOf(t, k) != "finish"
    ensures Executed(t) == ResponsesTo(t, |CallsOf(t)|) && !Finishes(t)
  {
    CountFrom(t, 0, |CallsOf(t)|);
  }
}
