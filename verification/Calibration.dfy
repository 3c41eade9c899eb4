/** Calibration: a conversation that can only strike candidates off the checker's list. */
module Calibration {
  import opened Options
  import opened MessageHistory
  import opened TokenPruning
  import opened TokenSafety
  import opened ConversationContent
  import opened ConversationRun
  import opened ConversationSafety
  import opened Conversations
  import opened Evidence
  import opened Requirements

  /** A tool call once its arguments are read; a missing or non-integer candidate id reads as None. */
  datatype ToolUse = SharedTool(result: string) | Judge(id: Option<int>, verdict: string) | FinishReview | UnknownTool

  /** What the model answers in one turn, and the prompt in force. */
  datatype ModelTurn = ModelTurn(prompt: string, reply: string, calls: Option<seq<ToolCall>>)

  type Reader = ToolCall -> ToolUse

  predicate Judges(use: ToolUse, n: nat, i: int) {
    use.Judge? && use.id == Some(i) && 0 <= i < n
  }

  /** What the model is told. A status or an error is never mistaken for the end of the session. */
  function Response(use: ToolUse, n: nat): string {
    match use
    case SharedTool(result) => result
    case Judge(id, verdict) =>
      if id.None? then "{error: judge needs integer candidate_id}"
      else if id.value < 0 || id.value >= n then "{error: candidate_id out of range}"
      else if verdict == "reject" then "{status: recorded reject}"
      else "{status: recorded keep}"
    case FinishReview => "finish"
    case UnknownTool => "{error: unknown tool}"
  }

  function AsTurn(m: ModelTurn, read: Reader, n: nat): Turn {
    var calls := if m.calls.Some? then m.calls.value else [];
    Turn(m.prompt, m.reply, m.calls, seq(|calls|, j requires 0 <= j < |calls| => Response(read(calls[j]), n)))
  }

  function AsScript(script: seq<ModelTurn>, read: Reader, n: nat): (turns: seq<Turn>)
    ensures |turns| == |script| && forall k :: 0 <= k < |script| ==> turns[k] == AsTurn(script[k], read, n)
  {
    seq(|script|, k requires 0 <= k < |script| => AsTurn(script[k], read, n))
  }

  /** The tool uses of a turn that are carried out: all, or those up to the one that ends the session. */
  ghost function UsesOf(m: ModelTurn, read: Reader, n: nat): seq<ToolUse> {
    var t := AsTurn(m, read, n);
    seq(ExecutedCount(t, 0), j requires 0 <= j < ExecutedCount(t, 0) => read(CallsOf(t)[j]))
  }

  /** The tool uses carried out in the first k turns. */
  ghost function AllUses(script: seq<ModelTurn>, read: Reader, n: nat, k: nat): seq<ToolUse>
    requires k <= |script|
  {
    if k == 0 then [] else AllUses(script, read, n, k - 1) + UsesOf(script[k - 1], read, n)
  }

  /** The last valid verdict on candidate i. */
  ghost function LastVerdict(uses: seq<ToolUse>, n: nat, i: int): Option<string> {
    if uses == [] then None
    else if Judges(uses[|uses| - 1], n, i) then Some(uses[|uses| - 1].verdict)
    else LastVerdict(uses[..|uses| - 1], n, i)
  }

  /** A candidate is struck off exactly when the last valid verdict on it is "reject". */
  ghost predicate KeepsAllBut(keep: seq<bool>, uses: seq<ToolUse>) {
    forall i :: 0 <= i < |keep| ==> (keep[i] <==> LastVerdict(uses, |keep|, i) != Some("reject"))
  }

  function Judged(keep: seq<bool>, use: ToolUse): (keep': seq<bool>)
    ensures |keep'| == |keep|
  {
    if use.Judge? && use.id.Some? && 0 <= use.id.value < |keep| then keep[use.id.value := use.verdict != "reject"]
    else keep
  }

  lemma JudgedKeeps(keep: seq<bool>, uses: seq<ToolUse>, use: ToolUse)
    requires KeepsAllBut(keep, uses)
    ensures KeepsAllBut(Judged(keep, use), uses + [use])
  {
    assert (uses + [use])[..|uses|] == uses;
    forall i
      ensures LastVerdict(uses + [use], |keep|, i) ==
                if Judges(use, |keep|, i) then Some(use.verdict) else LastVerdict(uses, |keep|, i)
    {
    }
  }

  predicate IsVerdict(use: ToolUse, i: int) {
    use.Judge? && use.id == Some(i)
  }

  /** Use k judges candidate i and no later one does. */
  ghost predicate IsLastVerdict(uses: seq<ToolUse>, i: int, k: int) {
    0 <= k < |uses| && IsVerdict(uses[k], i) && forall j :: k < j < |uses| ==> !IsVerdict(uses[j], i)
  }

  /** The last verdict on a candidate is that of the last use of the judge tool with its id, if there is one. */
  lemma {:induction false} LastVerdictMeans(uses: seq<ToolUse>, n: nat, i: int)
    requires 0 <= i < n
    ensures match LastVerdict(uses, n, i)
            case None => forall k :: 0 <= k < |uses| ==> !IsVerdict(uses[k], i)
            case Some(v) => exists k :: IsLastVerdict(uses, i, k) && uses[k] == Judge(Some(i), v)
  {
    if uses != [] {
      var last := |uses| - 1;
      var init := uses[..last];
      LastVerdictMeans(init, n, i);
      if IsVerdict(uses[last], i) {
        assert IsLastVerdict(uses, i, last);
      } else if LastVerdict(init, n, i).Some? {
        var k :| IsLastVerdict(init, i, k) && init[k] == Judge(Some(i), LastVerdict(init, n, i).value);
        assert IsLastVerdict(uses, i, k) && uses[k] == init[k];
      } else {
        assert forall k :: 0 <= k < last ==> uses[k] == init[k];
      }
    }
  }

  /** The session ends with the finish tool, or with a shared tool that answers "finish"; no status or error ends it. */
  lemma EndsSession(use: ToolUse, n: nat)
    ensures Response(use, n) == "finish" <==> use in {FinishReview, SharedTool("finish")}
  {
    if use.Judge? || use.UnknownTool? {
      assert Response(use, n)[0] == '{';
    }
  }

  /** The uses carried out are the calls of the turn as read, in order, up to the first that ends the session. */
  lemma UsesMean(m: ModelTurn, read: Reader, n: nat)
    ensures var uses, calls := UsesOf(m, read, n), if m.calls.Some? then m.calls.value else [];
            && |uses| <= |calls|
            && (forall j :: 0 <= j < |uses| ==> uses[j] == read(calls[j]))
            && (forall j :: 0 <= j < |uses| - 1 ==> uses[j] !in {FinishReview, SharedTool("finish")})
            && (|uses| < |calls| ==> uses != [] && uses[|uses| - 1] in {FinishReview, SharedTool("finish")})
  {
    hide Response;
    var t := AsTurn(m, read, n);
    var uses := UsesOf(m, read, n);
    CarriedOut(t, 0);
    forall j | 0 <= j < |uses|
      ensures t.results[j] == "finish" <==> uses[j] in {FinishReview, SharedTool("finish")}
    {
      EndsSession(uses[j], n);
    }
    if |uses| > 0 {
      assert IsCarriedOut(t, |uses| - 1);
    }
  }

  // ---- The request side of a review ----

  const REVIEW_BUDGET: nat := 20000

  /** Every request opens with its prompt, orphans no tool response, and still carries the pinned batch. */
  ghost predicate RequestsSound(requests: seq<seq<Message>>, batch: string) {
    forall k :: 0 <= k < |requests| ==> Holds(requests[k], Config(40, REVIEW_BUDGET, None), [UserMessage(batch, true)])
  }

  lemma ReviewRequests(prompt: string, batch: string, turns: seq<Turn>, k: nat)
    requires k < |turns|
    ensures var c := Config(40, REVIEW_BUDGET, None);
            Holds(Prompted(RunTo(Opened([], prompt, UserMessage(batch, true), c), turns, k, c), turns[k].prompt), c,
                  [UserMessage(batch, true)])
  {
    hide Holds, RunTo, Opened, Prompted;
    var user := UserMessage(batch, true);
    var nothing: seq<Message> := [];
    assert PinnedOf(Body(nothing)) + PinnedOf([user]) == [user] by {
      assert [user][1..] == [];
    }
    TokenCallSafe(nothing, prompt, user, turns, k, Config(40, REVIEW_BUDGET, None));
  }

  class Calibrator {
    const conv: Conversation
    const read: Reader
    var keep: seq<bool>

    ghost predicate Valid()
      reads conv
    {
      conv.compactor == None && conv.maxHistory == 40
    }

    constructor (read: Reader)
      ensures Valid() && fresh(conv) && this.read == read && keep == []
    {
      var c := new Conversation(40);
      conv, this.read, keep := c, read, [];
    }

    method ExecuteTool(call: ToolCall) returns (result: string)
      modifies this`keep
      ensures keep == Judged(old(keep), read(call))
      ensures result == Response(read(call), |keep|)
    {
      var use := read(call);
      match use {
        case SharedTool(text) => result := text;
        case Judge(id, verdict) =>
          if id.None? {
            return "{error: judge needs integer candidate_id}";
          }
          if id.value < 0 || id.value >= |keep| {
            return "{error: candidate_id out of range}";
          }
          keep := keep[id.value := verdict != "reject"];
          result := if keep[id.value] then "{status: recorded keep}" else "{status: recorded reject}";
        case FinishReview => result := "finish";
        case UnknownTool => result := "{error: unknown tool}";
      }
    }

    /** The calls of one turn, carried out until one of them ends the session. */
    method ExecuteTurn(m: ModelTurn, ghost uses: seq<ToolUse>)
      requires KeepsAllBut(keep, uses)
      modifies this`keep
      ensures |keep| == |old(keep)| && KeepsAllBut(keep, uses + UsesOf(m, read, |keep|))
    {
      hide KeepsAllBut, Response, UsesOf, Judged, ExecutedCount;
      ghost var n, all := |keep|, UsesOf(m, read, |keep|);
      var calls := if m.calls.Some? then m.calls.value else [];
      assert uses + all[..0] == uses;
      UsesStart(m, read, n);
      for j := 0 to |calls|
        invariant |keep| == n && UsesFrom(m, read, n, j)
        invariant KeepsAllBut(keep, uses + all[..j])
      {
        NextUse(m, read, n, j, uses);
        JudgedKeeps(keep, uses + all[..j], read(calls[j]));
        var result := ExecuteTool(calls[j]);
        if result == "finish" {
          return;
        }
      }
      UsesEnd(m, read, n, uses);
    }

    /** The conversation of a review: reset, on a token budget, with a turn cap and the batch pinned. */
    method AskModel(prompt: string, batch: string, n: nat, turns: seq<Turn>) returns (requests: seq<seq<Message>>)
      requires Valid()
      modifies conv
      ensures Valid() && |requests| <= |turns| && |requests| <= 2 * n + 8
      ensures RequestsSound(requests, batch)
      ensures forall k :: 0 <= k < |requests| - 1 ==> Continues(turns[k])
    {
      hide RequestsSound, Opened, RunTo, Prompted, Continues;
      conv.Reset();
      conv.maxTokens := REVIEW_BUDGET;
      conv.maxTurns := 2 * n + 8;
      conv.PinNextUserMessage();
      var outcome;
      outcome, requests := conv.SendMessage(batch, prompt, turns, (h: seq<Message>) => "done");
      SentSoundly(prompt, batch, turns, requests);
    }

    /** A review of n candidates. `script` is the model's behaviour; every candidate not rejected is kept. */
    method Review(prompt: string, batch: string, n: nat, script: seq<ModelTurn>) returns (requests: seq<seq<Message>>)
      requires Valid()
      modifies this`keep, conv
      ensures Valid() && |keep| == n && |requests| <= |script| && |requests| <= 2 * n + 8
      ensures n == 0 ==> requests == []
      ensures KeepsAllBut(keep, AllUses(script, read, n, |requests|))
      ensures RequestsSound(requests, batch)
      ensures forall k :: 0 <= k < |requests| - 1 ==> Continues(AsTurn(script[k], read, n))
    {
      hide KeepsAllBut, UsesOf, RequestsSound, Continues, AsTurn;
      keep := seq(n, i => true);
      requests := [];
      NothingJudged(keep);
      NothingAsked(batch);
      if n == 0 {
        return;
      }
      requests := AskModel(prompt, batch, n, AsScript(script, read, n));
      for k := 0 to |requests|
        invariant Valid() && |keep| == n && KeepsAllBut(keep, AllUses(script, read, n, k))
      {
        ExecuteTurn(script[k], AllUses(script, read, n, k));
      }
    }
  }

  // ---- The uses of one turn, call by call ----

  /** The session has not ended before call j. */
  ghost predicate UsesFrom(m: ModelTurn, read: Reader, n: nat, j: nat) {
    var t := AsTurn(m, read, n);
    j <= |CallsOf(t)| && ExecutedCount(t, 0) == ExecutedCount(t, j) && j <= |UsesOf(m, read, n)|
  }

  lemma UsesStart(m: ModelTurn, read: Reader, n: nat)
    ensures UsesFrom(m, read, n, 0)
  {
  }

  lemma NextUse(m: ModelTurn, read: Reader, n: nat, j: nat, uses: seq<ToolUse>)
    requires UsesFrom(m, read, n, j) && j < |CallsOf(AsTurn(m, read, n))|
    ensures var all, use := UsesOf(m, read, n), read(CallsOf(AsTurn(m, read, n))[j]);
            && j < |all| && uses + all[..j + 1] == uses + all[..j] + [use]
            && (if Response(use, n) == "finish" then uses + all == uses + all[..j] + [use]
                else UsesFrom(m, read, n, j + 1))
  {
    hide Response;
    var all, use := UsesOf(m, read, n), read(CallsOf(AsTurn(m, read, n))[j]);
    assert ResultOf(AsTurn(m, read, n), j) == Response(use, n);
    assert all[..j + 1] == all[..j] + [use];
    if Response(use, n) == "finish" {
      assert all[..j + 1] == all;
    }
  }

  lemma UsesEnd(m: ModelTurn, read: Reader, n: nat, uses: seq<ToolUse>)
    requires UsesFrom(m, read, n, |CallsOf(AsTurn(m, read, n))|)
    ensures uses + UsesOf(m, read, n)[..|CallsOf(AsTurn(m, read, n))|] == uses + UsesOf(m, read, n)
  {
    var all := UsesOf(m, read, n);
    assert all[..|CallsOf(AsTurn(m, read, n))|] == all;
  }

  lemma NothingAsked(batch: string)
    ensures RequestsSound([], batch)
  {
  }

  lemma NothingJudged(keep: seq<bool>)
    requires forall i :: 0 <= i < |keep| ==> keep[i]
    ensures KeepsAllBut(keep, [])
  {
  }

  lemma SentSoundly(prompt: string, batch: string, turns: seq<Turn>, requests: seq<seq<Message>>)
    requires |requests| <= |turns|
    requires var c := Config(40, REVIEW_BUDGET, None);
             var start := Opened([], prompt, UserMessage(batch, true), c);
             forall k :: 0 <= k < |requests| ==> requests[k] == Prompted(RunTo(start, turns, k, c), turns[k].prompt)
    ensures RequestsSound(requests, batch)
  {
    hide Holds, Opened, RunTo, Prompted;
    forall k | 0 <= k < |requests|
      ensures Holds(requests[k], Config(40, REVIEW_BUDGET, None), [UserMessage(batch, true)])
    {
      ReviewRequests(prompt, batch, turns, k);
    }
  }

  // ---- What is left of the checker's list ----

  /** `out` is what `keep` leaves of `cands`, in order; `at` tells where each survivor stood. */
  ghost predicate IsFiltered(cands: seq<L2Candidate>, keep: seq<bool>, at: seq<nat>, out: seq<L2Candidate>)
    requires |keep| == |cands|
  {
    && |at| == |out|
    && (forall j, k :: 0 <= j < k < |at| ==> at[j] < at[k])
    && (forall k :: 0 <= k < |at| ==> at[k] < |cands| && keep[at[k]] && out[k] == cands[at[k]])
    && (forall i: nat :: i < |cands| && keep[i] ==> i in at)
  }

  method Filter(cands: seq<L2Candidate>, keep: seq<bool>) returns (out: seq<L2Candidate>)
    requires |keep| == |cands|
    ensures exists at :: IsFiltered(cands, keep, at, out)
  {
    out := [];
    ghost var at: seq<nat> := [];
    for i := 0 to |cands|
      invariant |at| == |out|
      invariant forall j, k :: 0 <= j < k < |at| ==> at[j] < at[k]
      invariant forall k :: 0 <= k < |at| ==> at[k] < i && keep[at[k]] && out[k] == cands[at[k]]
      invariant forall j: nat :: j < i && keep[j] ==> j in at
    {
      if keep[i] {
        out, at := out + [cands[i]], at + [i];
      }
    }
    assert IsFiltered(cands, keep, at, out);
  }

  /** Calibration adds nothing: each survivor reports an undischarged requirement; and it loses only what was
      rejected: an undischarged requirement goes unreported only if its last verdict was "reject". */
  lemma CalibrationOnlyFilters(ev: Evidence, s: Session, which: seq<(nat, nat)>, cands: seq<L2Candidate>,
                               keep: seq<bool>, uses: seq<ToolUse>, at: seq<nat>, out: seq<L2Candidate>)
    requires IsReport(ev, s, which, cands) && |keep| == |cands|
    requires KeepsAllBut(keep, uses) && IsFiltered(cands, keep, at, out)
    ensures forall k :: 0 <= k < |out| ==> UndischargedAt(ev, s, which[at[k]]) && out[k] == cands[at[k]]
    ensures forall w :: UndischargedAt(ev, s, w) ==>
              exists i :: 0 <= i < |cands| && which[i] == w &&
                (LastVerdict(uses, |cands|, i) == Some("reject") ||
                 exists k :: 0 <= k < |out| && at[k] == i && out[k] == cands[i])
  {
    hide Undischarged, ReportsFirst;
    forall k | 0 <= k < |out|
      ensures UndischargedAt(ev, s, which[at[k]])
    {
      ListedIffUndischarged(ev, s, which, cands, which[at[k]]);
    }
    forall w | UndischargedAt(ev, s, w)
      ensures exists i :: 0 <= i < |cands| && which[i] == w &&
                (LastVerdict(uses, |cands|, i) == Some("reject") ||
                 exists k :: 0 <= k < |out| && at[k] == i && out[k] == cands[i])
    {
      ListedIffUndischarged(ev, s, which, cands, w);
      var i :| 0 <= i < |which| && which[i] == w;
      if keep[i] {
        var k :| 0 <= k < |at| && at[k] == i;
      }
    }
  }
}
