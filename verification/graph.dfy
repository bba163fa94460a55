/**
 * One chat turn of `GraphWrapper` (`app/agent/graph.py`): the session key,
 * the message window rebuilt from the caller's history, the precedence that
 * picks the effective client id, the agent/tools loop of the compiled graph
 * and the final answer and history. The language model is an oracle from a
 * request to a reply (or an error), the rendering of a tool's output into
 * message text is a parameter, and the loop, which has no bound in the
 * source, is given explicit fuel.
 */
module Graph {

  import opened Wrappers
  import opened Text
  import opened Store
  import opened AgentTools
  import opened GraphState
  import opened IdHeuristic

  const DefaultSession := "default_session"
  const FallbackAnswer := "Sorry, I encountered an issue. Could you rephrase?"
  const ActiveClientNote := "Active client_id for this session: "
  const OutOfFuel := "the agent loop ran out of fuel"
  const WindowSize := 10

  /** The system prompt of `_build_graph`. */
  const SystemPrompt :=
    "You are a helpful assistant for a SaaS company, designed to analyze business performance data.\n"
    + "- When a user asks for data (e.g., KPIs, churn, trends), you MUST provide a client_id to the tools.\n"
    + "- If a client_id is not known and the request requires one, ask the user for the client_id.\n"
    + "- Reuse the last active client_id for the session unless the user specifies a new one.\n"
    + "- If the provided client_id is invalid or unknown, inform the user and ask for a valid one.\n"
    + "- For general chit-chat, respond directly without using tools.\n"
    + "- Use the available tools to answer questions about KPI summaries, detailed data, anomalies, and KPI trends.\n"
    + "- Always include the client_id argument in tool calls that require it."

  // ---------------------------------------------------------------------------
  // Session key and message window
  // ---------------------------------------------------------------------------

  /** `session_id or "default_session"`. */
  function SessionKey(sessionId: Option<string>): (key: string)
    ensures key != ""
    ensures sessionId.Some? && sessionId.value != "" ==> key == sessionId.value
    ensures sessionId.None? || sessionId.value == "" ==> key == DefaultSession
  {
    if sessionId.Some? && sessionId.value != "" then sessionId.value else DefaultSession
  }

  /** A history dict the rebuild keeps: type "human" or "ai". */
  predicate IsChatEntry(e: HistoryEntry) {
    e.kind == "human" || e.kind == "ai"
  }

  /** The chat entries of a history, in order. */
  function ChatEntries(history: seq<HistoryEntry>): (r: seq<HistoryEntry>)
    ensures forall i :: 0 <= i < |r| ==> IsChatEntry(r[i])
    decreases |history|
  {
    if |history| == 0 then []
    else
      var init := ChatEntries(history[..|history| - 1]);
      var e := history[|history| - 1];
      if IsChatEntry(e) then init + [e] else init
  }

  /** The rebuild loop: a human entry becomes a human message, an ai entry an
      AI message without tool calls; entries of any other type are skipped. */
  function FromHistory(history: seq<HistoryEntry>): (ms: seq<Message>)
    ensures |ms| == |ChatEntries(history)|
    ensures forall i :: 0 <= i < |ms| ==> ms[i].Human? || (ms[i].Ai? && ms[i].toolCalls == [])
    decreases |history|
  {
    if |history| == 0 then []
    else
      var init := FromHistory(history[..|history| - 1]);
      var e := history[|history| - 1];
      if e.kind == "human" then init + [Human(e.content)]
      else if e.kind == "ai" then init + [Ai(e.content, [])]
      else init
  }

  /** The history dict of a message: human and AI messages only. */
  function ToHistoryDicts(ms: seq<Message>): (h: seq<HistoryEntry>)
    ensures |h| <= |ms|
    ensures forall i :: 0 <= i < |h| ==> IsChatEntry(h[i])
    decreases |ms|
  {
    if |ms| == 0 then []
    else
      var init := ToHistoryDicts(ms[..|ms| - 1]);
      var m := ms[|ms| - 1];
      match m
      case Human(c) => init + [HistoryEntry("human", c)]
      case Ai(c, _) => init + [HistoryEntry("ai", c)]
      case _ => init
  }

  /** The projection distributes over concatenation. */
  lemma {:induction false} ToHistoryDictsAppend(a: seq<Message>, b: seq<Message>)
    ensures ToHistoryDicts(a + b) == ToHistoryDicts(a) + ToHistoryDicts(b)
    decreases |b|
  {
    if |b| > 0 {
      var b' := b[..|b| - 1];
      ToHistoryDictsAppend(a, b');
      assert (a + b)[..|a + b| - 1] == a + b';
      assert (a + b)[|a + b| - 1] == b[|b| - 1];
    } else {
      assert a + b == a;
    }
  }

  /** Rebuilding messages from a history and projecting them back gives the
      history's human and ai entries unchanged. */
  lemma {:induction false} HistoryRoundTrip(history: seq<HistoryEntry>)
    ensures ToHistoryDicts(FromHistory(history)) == ChatEntries(history)
    decreases |history|
  {
    if |history| > 0 {
      var init := history[..|history| - 1];
      var e := history[|history| - 1];
      HistoryRoundTrip(init);
      var ms := FromHistory(init);
      if e.kind == "human" {
        ToHistoryDictsAppend(ms, [Human(e.content)]);
        assert ToHistoryDicts([Human(e.content)]) == [HistoryEntry("human", e.content)] by {
          assert [Human(e.content)][..0] == [];
        }
      } else if e.kind == "ai" {
        ToHistoryDictsAppend(ms, [Ai(e.content, [])]);
        assert ToHistoryDicts([Ai(e.content, [])]) == [HistoryEntry("ai", e.content)] by {
          assert [Ai(e.content, [])][..0] == [];
        }
      }
    }
  }

  /** `messages[-10:]` after appending the query. */
  function RebuildWindow(history: seq<HistoryEntry>, query: string): (window: seq<Message>)
    ensures |window| == if |ChatEntries(history)| + 1 < WindowSize then |ChatEntries(history)| + 1 else WindowSize
    ensures window[|window| - 1] == Human(query)
    ensures forall i :: 0 <= i < |window| ==> window[i].Human? || (window[i].Ai? && window[i].toolCalls == [])
  {
    var all := FromHistory(history) + [Human(query)];
    var window := if |all| <= WindowSize then all else all[|all| - WindowSize..];
    assert forall i :: 0 <= i < |window| ==> window[i] == all[|all| - |window| + i];
    window
  }

  /** The window, seen as history, is the tail of the caller's chat entries
      followed by the query. */
  lemma WindowIsTail(history: seq<HistoryEntry>, query: string)
    ensures var h := ChatEntries(history) + [HistoryEntry("human", query)];
      var w := ToHistoryDicts(RebuildWindow(history, query));
      |w| <= WindowSize && w == h[|h| - |w|..]
  {
    var ms := FromHistory(history);
    var all := ms + [Human(query)];
    var window := RebuildWindow(history, query);
    var h := ChatEntries(history) + [HistoryEntry("human", query)];
    HistoryRoundTrip(history);
    ToHistoryDictsAppend(ms, [Human(query)]);
    assert ToHistoryDicts([Human(query)]) == [HistoryEntry("human", query)] by {
      assert [Human(query)][..0] == [];
    }
    assert ToHistoryDicts(all) == h;
    var cut := |all| - |window|;
    WindowIsSuffix(history, query);
    assert all == all[..cut] + all[cut..];
    ToHistoryDictsAppend(all[..cut], window);
    var head, w := ToHistoryDicts(all[..cut]), ToHistoryDicts(window);
    assert h == head + w;
    NoToolsProjectsOneToOne(window);
    assert h[|h| - |w|..] == w;
  }

  lemma WindowIsSuffix(history: seq<HistoryEntry>, query: string)
    ensures var all := FromHistory(history) + [Human(query)];
      var window := RebuildWindow(history, query);
      |window| <= |all| && window == all[|all| - |window|..]
  {
    var all := FromHistory(history) + [Human(query)];
    if |all| <= WindowSize {
      assert all[|all| - |all|..] == all;
    }
  }

  /** A window of human and AI messages projects one entry per message. */
  lemma {:induction false} NoToolsProjectsOneToOne(ms: seq<Message>)
    requires forall i :: 0 <= i < |ms| ==> ms[i].Human? || ms[i].Ai?
    ensures |ToHistoryDicts(ms)| == |ms|
    decreases |ms|
  {
    if |ms| > 0 {
      NoToolsProjectsOneToOne(ms[..|ms| - 1]);
    }
  }

  // ---------------------------------------------------------------------------
  // Effective client id
  // ---------------------------------------------------------------------------

  /** The text of a message. */
  function ContentOf(m: Message): string {
    m.content
  }

  /** `" ".join(str(m.content) for m in messages)`. */
  function WindowText(window: seq<Message>): string {
    Join(seq(|window|, i requires 0 <= i < |window| => ContentOf(window[i])), " ")
  }

  /**
   * The effective client id: the stripped explicit id when it is not empty,
   * else the id stored for the session when not empty, else the heuristic's
   * match over the window's text, else "".
   */
  function EffectiveClientId(explicit: Option<string>, stored: string, window: seq<Message>): (eff: string)
    ensures Strip(explicit.GetOr("")) != "" ==> eff == Strip(explicit.GetOr(""))
    ensures Strip(explicit.GetOr("")) == "" && stored != "" ==> eff == stored
    ensures Strip(explicit.GetOr("")) == "" && stored == "" && ExtractClientId(WindowText(window)).Some? ==>
      eff == ExtractClientId(WindowText(window)).value
    ensures eff == "" <==>
      IsBlank(explicit.GetOr("")) && stored == "" && ExtractClientId(WindowText(window)).None?
  {
    var given := Strip(explicit.GetOr(""));
    if given != "" then given
    else if stored != "" then stored
    else
      match ExtractClientId(WindowText(window))
      case Some(found) =>
        ExtractedShape(WindowText(window));
        found
      case None => ""
  }

  // ---------------------------------------------------------------------------
  // The compiled graph
  // ---------------------------------------------------------------------------

  /** `agent_node`'s request: the system prompt, the active-client note when
      the state has a client id, then every state message in order. */
  function BuildRequest(s: AgentState): (req: seq<Message>)
    ensures |req| >= 1 && req[0] == System(SystemPrompt)
    ensures s.clientId != "" ==> |req| == |s.messages| + 2 && req[1] == System(ActiveClientNote + s.clientId)
    ensures s.clientId == "" ==> |req| == |s.messages| + 1
    ensures req[|req| - |s.messages|..] == s.messages
  {
    var head := [System(SystemPrompt)]
      + (if s.clientId != "" then [System(ActiveClientNote + s.clientId)] else []);
    assert (head + s.messages)[|head|..] == s.messages;
    head + s.messages
  }

  /** The router's two labels. */
  datatype Route = CallTools | End

  /** `router`: tools exactly when the last message asks for tool calls. */
  function Router(last: Message): (r: Route)
    ensures r == CallTools <==> last.Ai? && last.toolCalls != []
  {
    if HasToolCalls(last) then CallTools else End
  }

  /** The language model's reply: text and the tool calls it requests. */
  datatype Reply = Reply(content: string, toolCalls: seq<ToolCall>)

  /** Where the compiled graph is: about to call the model, about to run the
      given tool calls, or finished. */
  datatype Phase = Deciding | ExecutingTools(calls: seq<ToolCall>) | Done

  datatype Config = Config(state: AgentState, phase: Phase)

  /** The tool node: one tool message per call, in call order. */
  function ToolMessages(calls: seq<ToolCall>, kpis: seq<KpiDoc>, render: ToolOutput -> string): (ms: seq<Message>)
    ensures |ms| == |calls|
    ensures forall i :: 0 <= i < |ms| ==>
      ms[i].ToolMsg? && ms[i].callId == calls[i].id && ms[i].toolName == calls[i].name
      && ms[i].output == Dispatch(calls[i], kpis)
  {
    seq(|calls|, i requires 0 <= i < |calls| =>
      ToolMsg(calls[i].id, calls[i].name, Dispatch(calls[i], kpis), render(Dispatch(calls[i], kpis))))
  }

  /**
   * One node of the graph. Deciding: the model answers the request and its
   * reply is appended as the one new message; the router then picks the
   * tools or the end. Executing: the tool messages are appended and control
   * returns to the model. A model error ends the turn with that error.
   */
  function Step(c: Config, backend: seq<Message> -> Result<Reply, string>,
                render: ToolOutput -> string, kpis: seq<KpiDoc>): (r: Result<Config, string>)
    requires !c.phase.Done?
    ensures c.phase.Deciding? ==> (r.Failure? <==> backend(BuildRequest(c.state)).Failure?)
    ensures c.phase.ExecutingTools? ==> r.Success?
    ensures r.Success? ==> r.value.state.clientId == c.state.clientId
    ensures r.Success? ==> |r.value.state.messages| >= |c.state.messages|
    ensures r.Success? ==> r.value.state.messages[..|c.state.messages|] == c.state.messages
    ensures r.Success? && c.phase.Deciding? ==>
      var ms := r.value.state.messages;
      && |ms| == |c.state.messages| + 1
      && ms[|ms| - 1] == Ai(backend(BuildRequest(c.state)).value.content, backend(BuildRequest(c.state)).value.toolCalls)
      && (r.value.phase.ExecutingTools? <==> HasToolCalls(ms[|ms| - 1]))
    ensures r.Success? && r.value.phase.ExecutingTools? ==>
      var ms := r.value.state.messages;
      |ms| > 0 && HasToolCalls(ms[|ms| - 1]) && r.value.phase.calls == ms[|ms| - 1].toolCalls
    ensures r.Success? && r.value.phase.Done? ==>
      var ms := r.value.state.messages;
      |ms| > 0 && ms[|ms| - 1].Ai? && !HasToolCalls(ms[|ms| - 1])
    ensures r.Success? && c.phase.ExecutingTools? ==>
      && r.value.phase == Deciding
      && r.value.state.messages == c.state.messages + ToolMessages(c.phase.calls, kpis, render)
  {
    match c.phase
    case Deciding =>
      var reply :- backend(BuildRequest(c.state));
      var s := ApplyUpdate(c.state, StateUpdate([Ai(reply.content, reply.toolCalls)], None));
      var last := s.messages[|s.messages| - 1];
      Success(Config(s, if Router(last) == CallTools then ExecutingTools(last.toolCalls) else Done))
    case ExecutingTools(calls) =>
      var s := ApplyUpdate(c.state, StateUpdate(ToolMessages(calls, kpis, render), None));
      Success(Config(s, Deciding))
  }

  /** Every way a successful run can stop: with a last AI message that asks
      for no tools. */
  predicate Finished(s: AgentState) {
    |s.messages| > 0 && s.messages[|s.messages| - 1].Ai? && !HasToolCalls(s.messages[|s.messages| - 1])
  }

  /** The graph run from a configuration, one node per unit of fuel. */
  function Run(c: Config, backend: seq<Message> -> Result<Reply, string>,
               render: ToolOutput -> string, kpis: seq<KpiDoc>, fuel: nat): (r: Result<AgentState, string>)
    ensures r.Success? ==> r.value.clientId == c.state.clientId
    ensures r.Success? ==> |c.state.messages| <= |r.value.messages|
    ensures r.Success? ==> r.value.messages[..|c.state.messages|] == c.state.messages
    decreases fuel
  {
    if c.phase.Done? then Success(c.state)
    else if fuel == 0 then Failure(OutOfFuel)
    else
      var next :- Step(c, backend, render, kpis);
      var r := Run(next, backend, render, kpis, fuel - 1);
      assert r.Success? ==> r.value.messages[..|c.state.messages|] == c.state.messages by {
        if r.Success? {
          assert r.value.messages[..|next.state.messages|] == next.state.messages;
          assert r.value.messages[..|c.state.messages|] == next.state.messages[..|c.state.messages|];
        }
      }
      r
  }

  /** A run that starts by asking the model and succeeds stops at a reply
      without tool calls. */
  lemma {:induction false} RunFinishes(c: Config, backend: seq<Message> -> Result<Reply, string>,
                                       render: ToolOutput -> string, kpis: seq<KpiDoc>, fuel: nat)
    requires !c.phase.Done?
    requires Run(c, backend, render, kpis, fuel).Success?
    ensures Finished(Run(c, backend, render, kpis, fuel).value)
    decreases fuel
  {
    assert fuel >= 1;
    var step := Step(c, backend, render, kpis);
    assert step.Success?;
    var next := step.value;
    assert Run(c, backend, render, kpis, fuel) == Run(next, backend, render, kpis, fuel - 1);
    if next.phase.Done? {
      assert Finished(next.state);
    } else {
      RunFinishes(next, backend, render, kpis, fuel - 1);
    }
  }

  /** A reply without tool calls ends the run after one model call, with
      exactly that reply appended. */
  lemma DirectReplyEndsRun(s: AgentState, backend: seq<Message> -> Result<Reply, string>,
                           render: ToolOutput -> string, kpis: seq<KpiDoc>, fuel: nat)
    requires fuel >= 1
    requires backend(BuildRequest(s)).Success? && backend(BuildRequest(s)).value.toolCalls == []
    ensures Run(Config(s, Deciding), backend, render, kpis, fuel)
         == Success(s.(messages := s.messages + [Ai(backend(BuildRequest(s)).value.content, [])]))
  {
    var next := Step(Config(s, Deciding), backend, render, kpis).value;
    assert next.phase.Done?;
    assert next.state.messages == s.messages + [Ai(backend(BuildRequest(s)).value.content, [])];
  }

  /** A reply with k tool calls is followed by exactly k tool messages, one
      per call and in call order, before the model is asked again. */
  lemma ToolRound(s: AgentState, backend: seq<Message> -> Result<Reply, string>,
                  render: ToolOutput -> string, kpis: seq<KpiDoc>)
    requires backend(BuildRequest(s)).Success? && backend(BuildRequest(s)).value.toolCalls != []
    ensures var reply := backend(BuildRequest(s)).value;
      var c1 := Step(Config(s, Deciding), backend, render, kpis).value;
      && c1.phase == ExecutingTools(reply.toolCalls)
      && var c2 := Step(c1, backend, render, kpis).value;
      && c2.phase == Deciding
      && c2.state.messages == s.messages + [Ai(reply.content, reply.toolCalls)] + ToolMessages(reply.toolCalls, kpis, render)
  {
  }

  // ---------------------------------------------------------------------------
  // The turn
  // ---------------------------------------------------------------------------

  /** The reply text: the last message's content unless that message asks
      for tools (or there is none), then the fixed apology. */
  function Answer(ms: seq<Message>): (a: string)
    ensures |ms| > 0 && !HasToolCalls(ms[|ms| - 1]) ==> a == ContentOf(ms[|ms| - 1])
    ensures |ms| == 0 || HasToolCalls(ms[|ms| - 1]) ==> a == FallbackAnswer
  {
    if |ms| > 0 && !HasToolCalls(ms[|ms| - 1]) then ContentOf(ms[|ms| - 1]) else FallbackAnswer
  }

  /** What `invoke` hands back, or the error that escapes it. The store is
      returned either way: the human message is already written when the
      model fails. */
  datatype TurnOutcome =
    | Answered(answer: string, history: seq<HistoryEntry>, db: Db, state: AgentState)
    | Failed(db: Db, reason: string)

  /** The store after the bookkeeping that precedes the graph run. */
  function StoreBeforeRun(db: Db, key: string, eff: string, query: string): (r: Db)
    ensures |r.messages| == |db.messages| + 1 && r.messages[..|db.messages|] == db.messages
    ensures var m := r.messages[|db.messages|]; m.sessionId == key && m.role == "human" && m.content == query
    ensures r.clients == db.clients && r.kpis == db.kpis
    ensures eff == "" ==> r.sessions == db.sessions
    ensures eff != "" && eff in ClientIds(db.clients) ==> GetActiveClientId(r, key) == eff
    ensures eff != "" && eff !in ClientIds(db.clients) ==> r.sessions == db.sessions
    ensures forall other :: other != key ==> GetActiveClientId(r, other) == GetActiveClientId(db, other)
  {
    var db1 := if eff != "" then SetActiveClientId(db, key, eff).1 else db;
    AddMessage(db1, key, "human", query)
  }

  /**
   * `invoke`. `checkpoint` is the state the checkpointer saved for this
   * session's thread (empty messages and "" for a new thread); the turn's
   * input is merged into it through the reducers before the graph runs.
   */
  function Invoke(db: Db, backend: seq<Message> -> Result<Reply, string>, render: ToolOutput -> string,
                  query: string, history: seq<HistoryEntry>, clientId: Option<string>,
                  sessionId: Option<string>, checkpoint: AgentState, fuel: nat): (out: TurnOutcome)
    ensures out.db.clients == db.clients && out.db.kpis == db.kpis
    ensures var key := SessionKey(sessionId);
      && |out.db.messages| >= |db.messages| + 1
      && out.db.messages[..|db.messages|] == db.messages
      && var m := out.db.messages[|db.messages|]; m.sessionId == key && m.role == "human" && m.content == query
    ensures out.Failed? ==> |out.db.messages| == |db.messages| + 1
    ensures out.Answered? ==> var key := SessionKey(sessionId);
      && |out.db.messages| == |db.messages| + 2
      && out.db.messages[|db.messages| + 1].sessionId == key
      && out.db.messages[|db.messages| + 1].role == "ai"
      && out.db.messages[|db.messages| + 1].content == out.answer
    ensures out.Answered? ==>
      && Finished(out.state)
      && out.answer == out.state.messages[|out.state.messages| - 1].content
      && out.history == ToHistoryDicts(out.state.messages)
      && |out.history| > 0 && out.history[|out.history| - 1] == HistoryEntry("ai", out.answer)
  {
    var key := SessionKey(sessionId);
    var window := RebuildWindow(history, query);
    var eff := EffectiveClientId(clientId, GetActiveClientId(db, key), window);
    var db2 := StoreBeforeRun(db, key, eff, query);
    var init := ApplyUpdate(checkpoint, StateUpdate(window, Some(eff)));
    match Run(Config(init, Deciding), backend, render, db2.kpis, fuel)
    case Failure(e) => Failed(db2, e)
    case Success(final) =>
      RunFinishes(Config(init, Deciding), backend, render, db2.kpis, fuel);
      var out := Conclude(db2, key, final);
      AppendTwice(db.messages, db2.messages, out.db.messages);
      out
  }

  /** Two appends keep the original prefix and the first appended item. */
  lemma AppendTwice<T>(a: seq<T>, b: seq<T>, c: seq<T>)
    requires |b| == |a| + 1 && b[..|a|] == a
    requires |c| == |b| + 1 && c[..|b|] == b
    ensures |c| == |a| + 2 && c[..|a|] == a && c[|a|] == b[|a|]
  {
    assert c[..|a|] == c[..|b|][..|a|];
  }

  /** After a finished run: the answer, its record in the store, and the
      history projected from the final messages. */
  function Conclude(db: Db, key: string, final: AgentState): (out: TurnOutcome)
    requires Finished(final)
    ensures out.Answered? && out.state == final
    ensures out.answer == final.messages[|final.messages| - 1].content
    ensures out.db.clients == db.clients && out.db.kpis == db.kpis
    ensures |out.db.messages| == |db.messages| + 1 && out.db.messages[..|db.messages|] == db.messages
    ensures var m := out.db.messages[|db.messages|]; m.sessionId == key && m.role == "ai" && m.content == out.answer
    ensures out.history == ToHistoryDicts(final.messages)
    ensures |out.history| > 0 && out.history[|out.history| - 1] == HistoryEntry("ai", out.answer)
  {
    LastChatEntry(final.messages);
    var answer := Answer(final.messages);
    var db' := AddMessage(db, key, "ai", answer);
    assert db'.messages[..|db.messages|] == db.messages;
    Answered(answer, ToHistoryDicts(final.messages), db', final)
  }

  /** The effective id `invoke` computes for a turn. */
  function TurnClientId(db: Db, query: string, history: seq<HistoryEntry>, clientId: Option<string>,
                        sessionId: Option<string>): string
  {
    EffectiveClientId(clientId, GetActiveClientId(db, SessionKey(sessionId)), RebuildWindow(history, query))
  }

  /**
   * The resolved id reaches the graph even when the store refuses to record
   * it (an unregistered client): the final state carries it, while the
   * session's stored id is left as it was.
   */
  lemma ClientIdHandedOver(db: Db, backend: seq<Message> -> Result<Reply, string>, render: ToolOutput -> string,
                           query: string, history: seq<HistoryEntry>, clientId: Option<string>,
                           sessionId: Option<string>, checkpoint: AgentState, fuel: nat)
    requires !IsBlank(TurnClientId(db, query, history, clientId, sessionId))
    ensures var out := Invoke(db, backend, render, query, history, clientId, sessionId, checkpoint, fuel);
      var eff := TurnClientId(db, query, history, clientId, sessionId);
      && (out.Answered? ==> out.state.clientId == eff)
      && (eff !in ClientIds(db.clients) ==> out.db.sessions == db.sessions)
      && (eff in ClientIds(db.clients) ==> GetActiveClientId(out.db, SessionKey(sessionId)) == eff)
  {
  }

  /** A message list ending in an AI message projects to a history ending
      in that message's entry. */
  lemma LastChatEntry(ms: seq<Message>)
    requires |ms| > 0 && ms[|ms| - 1].Ai?
    ensures |ToHistoryDicts(ms)| > 0
    ensures ToHistoryDicts(ms)[|ToHistoryDicts(ms)| - 1] == HistoryEntry("ai", ms[|ms| - 1].content)
  {
  }
}
