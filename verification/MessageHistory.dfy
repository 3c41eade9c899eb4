/** Conversation histories as values: what pruning does to them and what it keeps. */
module MessageHistory {
  import opened Options

  datatype Role = System | User | Assistant | Tool

  datatype ToolCall = ToolCall(id: string, toolname: string, arguments: string)

  datatype Message = Message(role: Role, content: string, toolCalls: Option<seq<ToolCall>>,
                             toolCallId: Option<string>, toolName: Option<string>, pinned: bool)

  predicate HasCalls(m: Message) {
    m.role == Assistant && m.toolCalls.Some? && m.toolCalls.value != []
  }

  // ---- Token estimates ----

  function CallChars(calls: seq<ToolCall>): nat {
    if calls == [] then 0
    else
      var c := calls[|calls| - 1];
      CallChars(calls[..|calls| - 1]) + |c.toolname| + |c.arguments| + 8
  }

  function Tokens(m: Message): nat {
    (|m.content| + (if m.toolCalls.Some? then CallChars(m.toolCalls.value) else 0)) / 4 + 4
  }

  function TotalTokens(h: seq<Message>): nat {
    if h == [] then 0 else TotalTokens(h[..|h| - 1]) + Tokens(h[|h| - 1])
  }

  /** The estimate in full: a quarter of the characters of text and calls, eight more for each call, and four. */
  lemma TokensMean(m: Message, calls: seq<ToolCall>, call: ToolCall)
    ensures m.toolCalls.None? || m.toolCalls == Some([]) ==> Tokens(m) == |m.content| / 4 + 4
    ensures m.toolCalls == Some(calls + [call]) ==>
              Tokens(m) == (|m.content| + CallChars(calls) + |call.toolname| + |call.arguments| + 8) / 4 + 4
    ensures CallChars([]) == 0
    ensures CallChars(calls + [call]) == CallChars(calls) + |call.toolname| + |call.arguments| + 8
  {
    assert (calls + [call])[..|calls|] == calls;
  }

  lemma NoTokens()
    ensures TotalTokens([]) == 0
  {
  }

  lemma {:induction false} TotalOfConcat(g: seq<Message>, h: seq<Message>)
    ensures TotalTokens(g + h) == TotalTokens(g) + TotalTokens(h)
  {
    if h == [] {
      assert g + h == g;
    } else {
      var n := |h| - 1;
      assert (g + h)[..|g + h| - 1] == g + h[..n];
      TotalOfConcat(g, h[..n]);
    }
  }

  // ---- Orphaned tool responses ----

  /** A tool response may follow only a tool response or an assistant message with calls. */
  predicate MayPrecedeTool(m: Message) {
    m.role == Tool || HasCalls(m)
  }

  /** No tool response in h lacks its predecessor, given what stands before h. */
  ghost predicate NoOrphansAfter(prev: Option<Message>, h: seq<Message>) {
    && (h != [] && h[0].role == Tool ==> prev.Some? && MayPrecedeTool(prev.value))
    && (forall k :: 0 < k < |h| && h[k].role == Tool ==> MayPrecedeTool(h[k - 1]))
  }

  ghost predicate NoOrphans(h: seq<Message>) {
    NoOrphansAfter(None, h)
  }

  lemma NoOrphansSplit(prev: Option<Message>, g: seq<Message>, h: seq<Message>)
    ensures NoOrphansAfter(prev, g + h) <==>
            NoOrphansAfter(prev, g) && NoOrphansAfter(if g == [] then prev else Some(g[|g| - 1]), h)
  {
    var gh := g + h;
    if NoOrphansAfter(prev, g) && NoOrphansAfter(if g == [] then prev else Some(g[|g| - 1]), h) {
      forall k | 0 < k < |gh| && gh[k].role == Tool
        ensures MayPrecedeTool(gh[k - 1])
      {
        if k > |g| {
          assert h[k - |g|].role == Tool;
        }
      }
    }
    if NoOrphansAfter(prev, gh) {
      forall k | 0 < k < |g| && g[k].role == Tool
        ensures MayPrecedeTool(g[k - 1])
      {
        assert gh[k] == g[k] && gh[k - 1] == g[k - 1];
      }
      forall k | 0 < k < |h| && h[k].role == Tool
        ensures MayPrecedeTool(h[k - 1])
      {
        assert gh[|g| + k].role == Tool && gh[|g| + k - 1] == h[k - 1];
      }
      if h != [] && g != [] {
        assert gh[|g|] == h[0] && gh[|g| - 1] == g[|g| - 1];
      }
      if g != [] {
        assert gh[0] == g[0];
      }
    }
  }

  /** Messages that do not open with a response may stand behind anything. */
  lemma StartAnywhere(prev: Option<Message>, s: seq<Message>, prev': Option<Message>)
    requires NoOrphansAfter(prev, s) && (s != [] ==> s[0].role != Tool)
    ensures NoOrphansAfter(prev', s)
  {
  }

  // ---- Pruning by message count ----

  /** The first position from e on that does not hold a tool response. */
  function SkipTools(h: seq<Message>, e: nat): (r: nat)
    requires e <= |h|
    ensures e <= r <= |h|
    ensures forall k :: e <= k < r ==> h[k].role == Tool
    ensures r < |h| ==> h[r].role != Tool
    decreases |h| - e
  {
    if e < |h| && h[e].role == Tool then SkipTools(h, e + 1) else e
  }

  function Head(h: seq<Message>): nat {
    if h != [] && h[0].role == System then 1 else 0
  }

  function Min(a: int, b: int): int {
    if a <= b then a else b
  }

  function CountPruned(h: seq<Message>, limit: nat): seq<Message> {
    if |h| <= limit then h
    else
      var b := Head(h);
      h[..b] + h[SkipTools(h, b + Min(|h| - limit, |h| - b))..]
  }

  /** Count pruning keeps the system prompt and the longest suffix that fits and does not open with a tool response. */
  lemma CountPrunedIsLongest(h: seq<Message>, limit: nat)
    requires |h| > limit
    ensures var b := Head(h);
            exists c :: b <= c <= |h| && CountPruned(h, limit) == h[..b] + h[c..] &&
              (c < |h| ==> h[c].role != Tool && b + |h| - c <= limit) &&
              forall k :: b <= k < c ==> h[k].role == Tool || b + |h| - k > limit
  {
    var b := Head(h);
    var c := SkipTools(h, b + Min(|h| - limit, |h| - b));
    assert CountPruned(h, limit) == h[..b] + h[c..];
  }

  lemma ErasedKeepsNoOrphans(h: seq<Message>, b: nat, c: nat)
    requires NoOrphans(h) && b <= c <= |h| && (c < |h| ==> h[c].role != Tool)
    ensures NoOrphans(h[..b] + h[c..])
  {
    hide NoOrphansAfter;
    assert h == h[..b] + h[b..] && h == h[..c] + h[c..];
    NoOrphansSplit(None, h[..b], h[b..]);
    NoOrphansSplit(None, h[..c], h[c..]);
    StartAnywhere(if c == 0 then None else Some(h[..c][c - 1]), h[c..], if b == 0 then None else Some(h[..b][b - 1]));
    NoOrphansSplit(None, h[..b], h[c..]);
  }

  lemma CountPrunedKeepsNoOrphans(h: seq<Message>, limit: nat)
    requires NoOrphans(h)
    ensures NoOrphans(CountPruned(h, limit))
  {
    if |h| > limit {
      hide NoOrphans, CountPruned, SkipTools, Min;
      CountPrunedIsLongest(h, limit);
      var b := Head(h);
      var c :| b <= c <= |h| && CountPruned(h, limit) == h[..b] + h[c..] && (c < |h| ==> h[c].role != Tool);
      ErasedKeepsNoOrphans(h, b, c);
    }
  }

  /** A tail opening with anything but a tool response survives if it fits beside the system prompt. */
  lemma CountPrunedKeepsTail(h: seq<Message>, limit: nat, t: seq<Message>)
    requires Head(h) == 1 && EndsWith(h, t) && |t| < |h|
    requires t != [] && |t| < limit && t[0].role != Tool
    ensures var r := CountPruned(h, limit);
            r != [] && r[0] == h[0] && |t| < |r| <= limit && EndsWith(r, t)
  {
    if |h| > limit {
      var c := SkipTools(h, 1 + Min(|h| - limit, |h| - 1));
      assert h[|h| - |t|] == t[0];
      assert c <= |h| - |t|;
      var r := h[..1] + h[c..];
      assert r[|r| - |t|..] == h[|h| - |t|..];
    }
  }

  predicate EndsWith(h: seq<Message>, t: seq<Message>) {
    |t| <= |h| && h[|h| - |t|..] == t
  }

  lemma PushedTail(h: seq<Message>, t: seq<Message>, m: Message)
    requires EndsWith(h, t)
    ensures EndsWith(h + [m], t + [m])
  {
    assert (h + [m])[|h| - |t|..] == h[|h| - |t|..] + [m];
  }
}
