/**
 * The agent's graph state of `app/agent/graph.py`: the chat messages and the
 * session's client id, each with the reducer that merges a node's update
 * into the state. Messages are appended (`operator.add`); the client id is
 * replaced only by a value that is not blank (`prefer_new_nonempty`).
 */
module GraphState {

  import opened Wrappers
  import opened Text
  import opened AgentTools

  /** The four kinds of chat message the graph carries. A tool message keeps
      the tool's output and the text the tool runner rendered from it. */
  datatype Message =
    | Human(content: string)
    | Ai(content: string, toolCalls: seq<ToolCall>)
    | ToolMsg(callId: string, toolName: string, output: ToolOutput, content: string)
    | System(content: string)

  /** The message carries a non-empty list of tool calls (only AI messages
      have the attribute at all). */
  predicate HasToolCalls(m: Message) {
    m.Ai? && m.toolCalls != []
  }

  /** `prefer_new_nonempty(x, y)`: `y` when it has a non-space character. */
  function PreferNewNonempty(x: string, y: string): (r: string)
    ensures r == y || r == x
    ensures r == y <== !IsBlank(y)
    ensures r == x <== IsBlank(y)
  {
    if |y| > 0 && Strip(y) != [] then y else x
  }

  /** Merging twice is merging once with the second value's own merge: the
      reducer is associative, so folding it keeps the last non-blank value. */
  lemma PreferNewNonemptyAssociative(x: string, y: string, z: string)
    ensures PreferNewNonempty(PreferNewNonempty(x, y), z) == PreferNewNonempty(x, PreferNewNonempty(y, z))
  {
  }

  /** `AgentState`. */
  datatype AgentState = AgentState(messages: seq<Message>, clientId: string)

  /** A node's (or the caller's) partial update; an absent client id leaves
      the channel untouched. */
  datatype StateUpdate = StateUpdate(messages: seq<Message>, clientId: Option<string>)

  /** The graph runtime merging an update through the two reducers. */
  function ApplyUpdate(s: AgentState, u: StateUpdate): (r: AgentState)
    ensures |r.messages| == |s.messages| + |u.messages|
    ensures r.messages[..|s.messages|] == s.messages
    ensures r.messages[|s.messages|..] == u.messages
    ensures u.clientId.Some? && !IsBlank(u.clientId.value) ==> r.clientId == u.clientId.value
    ensures u.clientId.None? || IsBlank(u.clientId.value) ==> r.clientId == s.clientId
  {
    AgentState(s.messages + u.messages,
               if u.clientId.Some? then PreferNewNonempty(s.clientId, u.clientId.value) else s.clientId)
  }

  /** The updates applied one after another, first to last. */
  function ApplyAll(s: AgentState, us: seq<StateUpdate>): AgentState
    decreases |us|
  {
    if |us| == 0 then s else ApplyAll(ApplyUpdate(s, us[0]), us[1..])
  }

  /** All the messages of the updates, in order. */
  function AllMessages(us: seq<StateUpdate>): seq<Message>
    decreases |us|
  {
    if |us| == 0 then [] else AllMessages(us[..|us| - 1]) + us[|us| - 1].messages
  }

  /** The client id of the last update whose id is not blank, or `x`. */
  function LastNonBlank(x: string, us: seq<StateUpdate>): (r: string)
    ensures r == x || exists i :: 0 <= i < |us| && us[i].clientId == Some(r) && !IsBlank(r)
    decreases |us|
  {
    if |us| == 0 then x
    else
      var u := us[|us| - 1];
      if u.clientId.Some? && !IsBlank(u.clientId.value) then u.clientId.value
      else LastNonBlank(x, us[..|us| - 1])
  }

  /** Folding the reducers over updates keeps every message in order and
      leaves the last non-blank client id. */
  lemma {:induction false} ApplyAllFold(s: AgentState, us: seq<StateUpdate>)
    ensures ApplyAll(s, us).messages == s.messages + AllMessages(us)
    ensures ApplyAll(s, us).clientId == LastNonBlank(s.clientId, us)
    decreases |us|
  {
    if |us| > 0 {
      var s' := ApplyUpdate(s, us[0]);
      ApplyAllFold(s', us[1..]);
      AllMessagesCons(us);
      LastNonBlankCons(s.clientId, us);
    }
  }

  lemma {:induction false} AllMessagesCons(us: seq<StateUpdate>)
    requires |us| > 0
    ensures AllMessages(us) == us[0].messages + AllMessages(us[1..])
    decreases |us|
  {
    if |us| > 1 {
      var init := us[..|us| - 1];
      AllMessagesCons(init);
      assert init[1..] == us[1..][..|us[1..]| - 1];
      assert init[0] == us[0];
    } else {
      assert us[..0] == [];
      assert us[1..] == [];
    }
  }

  lemma {:induction false} LastNonBlankCons(x: string, us: seq<StateUpdate>)
    requires |us| > 0
    ensures LastNonBlank(x, us) == LastNonBlank(ApplyUpdate(AgentState([], x), us[0]).clientId, us[1..])
    decreases |us|
  {
    if |us| > 1 {
      var init := us[..|us| - 1];
      LastNonBlankCons(x, init);
      assert init[1..] == us[1..][..|us[1..]| - 1];
      assert init[0] == us[0];
      assert us[1..][|us[1..]| - 1] == us[|us| - 1];
    } else {
      assert us[..0] == [];
      assert us[1..] == [];
    }
  }
}
