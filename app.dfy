/**
 * The chat screen: the eight built-in tools, the tool selector, and sending a message — the
 * guard, the optimistic user message, the context sent to the completion service and the
 * assistant (or error) message that follows. The completion service is foreign: its answer
 * is an input.
 */
module App {
  import opened Wrappers
  import opened JsString
  import opened Chat
  import opened Ordering

  /** A built-in tool: its id in the selector, its name, and the system prompt it sends. */
  datatype Tool = Tool(id: int, name: string, prompt: string)

  /** The built-in tools, with ids 1 to 8 in order. */
  const Tools: seq<Tool> := [
    Tool(1, "Tool 1", "You are Tool 1. Help the user with Tool 1 specific tasks."),
    Tool(2, "Tool 2", "You are Tool 2. Help the user with Tool 2 specific tasks."),
    Tool(3, "Tool 3", "You are Tool 3. Help the user with Tool 3 specific tasks."),
    Tool(4, "Tool 4", "You are Tool 4. Help the user with Tool 4 specific tasks."),
    Tool(5, "Tool 5", "You are Tool 5. Help the user with Tool 5 specific tasks."),
    Tool(6, "Tool 6", "You are Tool 6. Help the user with Tool 6 specific tasks."),
    Tool(7, "Tool 7", "You are Tool 7. Help the user with Tool 7 specific tasks."),
    Tool(8, "Tool 8", "You are Tool 8. Help the user with Tool 8 specific tasks.")
  ]

  /** The first tool of `tools` with this id, as `find` returns it. */
  function FindToolIn(tools: seq<Tool>, id: int): (r: Option<Tool>)
    ensures r.Some? ==> r.value in tools && r.value.id == id
    ensures r.None? ==> forall k :: 0 <= k < |tools| ==> tools[k].id != id
    decreases |tools|
  {
    if tools == [] then None
    else if tools[0].id == id then Some(tools[0])
    else FindToolIn(tools[1..], id)
  }

  /** The selector's lookup among the built-in tools. */
  function FindTool(id: int): Option<Tool> {
    FindToolIn(Tools, id)
  }

  /** Exactly the ids 1 to 8 name a tool, and the tool found has the id asked for. */
  lemma FindToolIds(id: int)
    ensures FindTool(id).Some? <==> 1 <= id <= 8
    ensures FindTool(id).Some? ==> FindTool(id).value.id == id && FindTool(id).value in Tools
  {
    assert forall k :: 0 <= k < |Tools| ==> Tools[k].id == k + 1;
    if 1 <= id <= 8 {
      assert Tools[id - 1].id == id;
    }
  }

  /** A message as sent to the completion service: only its role and content. */
  datatype ApiMessage = ApiMessage(role: Role, content: Content)

  /** A message reduced to role and content. */
  function Reduce(m: Message): ApiMessage {
    ApiMessage(m.role, m.content)
  }

  /** The earlier messages of the conversation that were exchanged with the tool called `name`. */
  function ToolHistory(history: seq<Message>, name: string): seq<Message> {
    Filter(history, (m: Message) => m.tool == name)
  }

  /** Each message reduced to role and content, in order. */
  function Reduced(messages: seq<Message>): (r: seq<ApiMessage>)
    ensures |r| == |messages|
    ensures forall k :: 0 <= k < |messages| ==> r[k] == Reduce(messages[k])
  {
    seq(|messages|, k requires 0 <= k < |messages| => Reduce(messages[k]))
  }

  /** Reducing a list with one more message adds that message's reduction at the end. */
  lemma ReducedAppend(messages: seq<Message>, m: Message)
    ensures Reduced(messages + [m]) == Reduced(messages) + [Reduce(m)]
  {
  }

  /** An element put between the middle and the last element of a list. */
  lemma InsertBeforeLast<T>(head: seq<T>, middle: seq<T>, x: T, last: T)
    ensures head + (middle + [x]) + [last] == (head + middle + [last])[..|head| + |middle|] + [x, last]
  {
    assert (head + middle + [last])[..|head| + |middle|] == head + middle;
  }

  /** The context of a request: the tool's system prompt, the tool's earlier messages reduced to role and content, then the input. */
  function Outbound(tool: Tool, history: seq<Message>, input: string): seq<ApiMessage> {
    [ApiMessage(System, Text(tool.prompt))] + Reduced(ToolHistory(history, tool.name)) + [ApiMessage(User, Text(input))]
  }

  /**
   * The request starts with the system prompt and ends with the user's input; in between it
   * holds, for each earlier message of the same tool and no other, that message's role and
   * content; its length is two more than the number of such messages.
   */
  lemma OutboundShape(tool: Tool, history: seq<Message>, input: string)
    ensures |Outbound(tool, history, input)| == |ToolHistory(history, tool.name)| + 2
    ensures Outbound(tool, history, input)[0] == ApiMessage(System, Text(tool.prompt))
    ensures Outbound(tool, history, input)[|ToolHistory(history, tool.name)| + 1] == ApiMessage(User, Text(input))
    ensures forall k :: 1 <= k <= |ToolHistory(history, tool.name)| ==>
      exists m :: m in history && m.tool == tool.name && Outbound(tool, history, input)[k] == Reduce(m)
    ensures forall m | m in history && m.tool == tool.name ::
      Reduce(m) in Outbound(tool, history, input)[1..|ToolHistory(history, tool.name)| + 1]
  {
    var r := Outbound(tool, history, input);
    var earlier := ToolHistory(history, tool.name);
    var middle := Reduced(earlier);
    assert r == [ApiMessage(System, Text(tool.prompt))] + middle + [ApiMessage(User, Text(input))];
    assert r[1..|earlier| + 1] == middle;
    forall k | 1 <= k <= |earlier|
      ensures exists m :: m in history && m.tool == tool.name && Outbound(tool, history, input)[k] == Reduce(m)
    {
      var m := earlier[k - 1];
      assert m in earlier;
      assert m in history && m.tool == tool.name && r[k] == Reduce(m);
    }
    assert forall k :: 1 <= k <= |ToolHistory(history, tool.name)| ==>
      exists m :: m in history && m.tool == tool.name && Outbound(tool, history, input)[k] == Reduce(m);
    forall m | m in history && m.tool == tool.name ensures Reduce(m) in r[1..|earlier| + 1] {
      assert m in earlier;
      var k :| 0 <= k < |earlier| && earlier[k] == m;
      assert middle[k] == Reduce(m);
    }
  }

  /** A conversation of one tool sends nothing from the messages of another. */
  lemma OutboundIgnoresOtherTools(tool: Tool, history: seq<Message>, other: Message, input: string)
    requires other.tool != tool.name
    ensures Outbound(tool, history + [other], input) == Outbound(tool, history, input)
  {
    FilterSkips(history, other, (m: Message) => m.tool == tool.name);
  }

  /** With no earlier messages the request is the system prompt and the input. */
  lemma OutboundOfNoHistory(tool: Tool, input: string)
    ensures Outbound(tool, [], input) == [ApiMessage(System, Text(tool.prompt)), ApiMessage(User, Text(input))]
  {
    assert ToolHistory([], tool.name) == [];
  }

  /**
   * A message of the same tool appended to the history goes, reduced, right before the input
   * and after everything sent before: the earlier messages keep their order and each counts once.
   */
  lemma OutboundAppendsSameTool(tool: Tool, history: seq<Message>, m: Message, input: string)
    requires m.tool == tool.name
    ensures Outbound(tool, history + [m], input)
      == Outbound(tool, history, input)[..|ToolHistory(history, tool.name)| + 1] + [Reduce(m), ApiMessage(User, Text(input))]
  {
    var earlier := ToolHistory(history, tool.name);
    FilterKeeps(history, m, (m': Message) => m'.tool == tool.name);
    ReducedAppend(earlier, m);
    InsertBeforeLast([ApiMessage(System, Text(tool.prompt))], Reduced(earlier), Reduce(m), ApiMessage(User, Text(input)));
  }

  /** What the completion call gives: the text of the first choice (absent or empty is possible), or an error with an optional message. */
  datatype CompletionReply = Completed(content: Option<string>) | Errored(message: Option<string>)

  const NoResponse: string := "Sorry, I could not generate a response."
  const DefaultFailure: string := "Failed to get response from ChatGPT. Please check your API key and try again."

  /** The assistant message appended after a request, tagged with the tool. */
  function AssistantMessage(reply: CompletionReply, tool: Tool, id: int): (m: Message)
    ensures m.role == Assistant && m.tool == tool.name && m.id == id && m.content.Text?
    ensures reply.Completed? && Truthy(reply.content) ==> m.content.value == reply.content.value
    ensures reply.Completed? && !Truthy(reply.content) ==> m.content.value == NoResponse
    ensures reply.Errored? ==> StartsWith(m.content.value, "Error: ")
    ensures reply.Errored? && Truthy(reply.message) ==> m.content.value == "Error: " + reply.message.value
    ensures reply.Errored? && !Truthy(reply.message) ==> m.content.value == "Error: " + DefaultFailure
  {
    match reply
    case Completed(content) => Message(id, Assistant, Text(if Truthy(content) then content.value else NoResponse), tool.name)
    case Errored(message) => Message(id, Assistant, Text("Error: " + (if Truthy(message) then message.value else DefaultFailure)), tool.name)
  }

  /** The state of the chat screen. */
  class ChatSession {
    var selectedTool: Tool
    var messages: seq<Message>
    var input: string
    var isLoading: bool

    /** A fresh screen: the first tool, no messages, no input, not waiting. */
    constructor()
      ensures selectedTool == Tools[0] && messages == [] && input == "" && !isLoading
    {
      selectedTool := Tools[0];
      messages := [];
      input := "";
      isLoading := false;
    }

    /** The user types. */
    method SetInput(text: string)
      modifies this
      ensures input == text
      ensures selectedTool == old(selectedTool) && messages == old(messages) && isLoading == old(isLoading)
    {
      input := text;
    }

    /** Selecting a tool in the selector, which only offers the ids of the built-in tools. The conversation so far stays. */
    method SelectTool(id: int)
      requires FindTool(id).Some?
      modifies this
      ensures selectedTool == FindTool(id).value && selectedTool.id == id
      ensures messages == old(messages) && input == old(input) && isLoading == old(isLoading)
    {
      FindToolIds(id);
      selectedTool := FindTool(id).value;
    }

    /**
     * `handleSend`: nothing happens while the input is blank or a reply is pending. Otherwise the
     * user message (with the untrimmed input) is appended and the input cleared, the request is
     * built from the tool's prompt, the tool's earlier messages and the input, and exactly one
     * assistant message follows; loading is over at the end.
     */
    method HandleSend(sentAt: int, repliedAt: int, reply: CompletionReply) returns (request: Option<seq<ApiMessage>>)
      modifies this
      ensures Blank(old(input)) || old(isLoading) ==> request.None? && unchanged(this)
      ensures !(Blank(old(input)) || old(isLoading)) ==>
        && request == Some(Outbound(old(selectedTool), old(messages), old(input)))
        && messages == old(messages) + [Message(sentAt, User, Text(old(input)), old(selectedTool).name),
                                        AssistantMessage(reply, old(selectedTool), repliedAt + 1)]
        && input == "" && !isLoading && selectedTool == old(selectedTool)
    {
      if Blank(input) || isLoading {
        return None;
      }
      var history := messages;
      var userMessage := Message(sentAt, User, Text(input), selectedTool.name);
      var userInput := input;
      messages := messages + [userMessage];
      input := "";
      isLoading := true;
      var conversation := Outbound(selectedTool, history, userInput);
      request := Some(conversation);
      messages := messages + [AssistantMessage(reply, selectedTool, repliedAt + 1)];
      isLoading := false;
    }
  }
}
