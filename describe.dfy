/**
 * The event describer of the session loader (internal/sessions/loader.go):
 * the log-entry records and the functions that turn one record into the short
 * "last action" synopsis, the empty string meaning "not describable".
 *
 * JSON decoding is not modelled.  A raw JSON value is represented by what
 * decoding it into each shape the loader asks for gives: `None` where the Go
 * code's json.Unmarshal fails, `Some(fields)` where it succeeds.
 */
module Describe {
  import opened Wrappers
  import opened Text

  /** messageContent: one item of a `content` or `summary` list. */
  datatype Content = Content(kind: string, text: string)

  datatype ResponseError = ResponseError(message: string)

  /** Arguments of a `shell` function call. */
  datatype ShellCall = ShellCall(command: seq<string>, workdir: string)

  /** The object a function_call_output's `output` string may hold. */
  datatype ToolOutput = ToolOutput(output: string, exitCode: Option<int>, error: string)

  /** A JSON document carried inside a string field: the string and the result of decoding it. */
  datatype Embedded<T> = Embedded(text: string, decoded: Option<T>)

  /** responseItemPayload (fields the describer never reads are left out). */
  datatype ResponseItem = ResponseItem(
    kind: string,
    role: string,
    content: seq<Content>,
    name: string,
    arguments: Embedded<ShellCall>,
    output: Embedded<ToolOutput>,
    summary: seq<Content>,
    callId: string,
    error: Option<ResponseError>,
    status: string,
    title: string)

  /** eventMsgPayload. */
  datatype EventMsg = EventMsg(kind: string, message: string, text: string, status: string)

  /** sessionMetaPayload; `timestamp` is None when it does not parse. */
  datatype SessionMeta = SessionMeta(id: string, timestamp: Option<nat>, cwd: string)

  /** A raw payload, seen through the three shapes the loader decodes it into. */
  datatype Payload = Payload(
    asSessionMeta: Option<SessionMeta>,
    asResponseItem: Option<ResponseItem>,
    asEventMsg: Option<EventMsg>)

  /**
   * logEntry: one line of a session file.  `timestamp` is the parsed instant
   * (0 is Go's zero time) or None when it does not parse.
   */
  datatype LogEntry = LogEntry(timestamp: Option<nat>, kind: string, payload: Payload)

  /** Index of the first item whose text is not blank, or |items| if there is none. */
  function FirstNonBlank(items: seq<Content>): (k: nat)
    ensures k <= |items|
    ensures forall j :: 0 <= j < k ==> Blank(items[j].text)
    ensures k < |items| ==> !Blank(items[k].text)
  {
    if items == [] || !Blank(items[0].text) then 0 else 1 + FirstNonBlank(items[1..])
  }

  /** firstNonEmptyText, as a specification: the untrimmed text of the first non-blank item. */
  function FirstNonEmpty(items: seq<Content>): (r: string)
    ensures r == [] <==> forall i :: 0 <= i < |items| ==> Blank(items[i].text)
    ensures r != [] ==> r == items[FirstNonBlank(items)].text
  {
    var k := FirstNonBlank(items);
    if k < |items| then items[k].text else []
  }

  lemma FirstNonBlankIs(items: seq<Content>, k: nat)
    requires k < |items| && !Blank(items[k].text)
    requires forall j :: 0 <= j < k ==> Blank(items[j].text)
    ensures FirstNonBlank(items) == k
  {
  }


  /** firstNonEmptyText: the loop of the source. */
  method FirstNonEmptyText(items: seq<Content>) returns (r: string)
    ensures r == FirstNonEmpty(items)
  {
    for i := 0 to |items|
      invariant forall j :: 0 <= j < i ==> Blank(items[j].text)
    {
      if TrimSpace(items[i].text) != [] {
        FirstNonBlankIs(items, i);
        return items[i].text;
      }
    }
    return [];
  }

  /** describeEntry: only response items and event messages are describable. */
  function DescribeEntry(e: LogEntry): (r: string)
    ensures e.kind == "response_item" ==> r == DescribeResponseItem(e.payload.asResponseItem)
    ensures e.kind == "event_msg" ==> r == DescribeEventMessage(e.payload.asEventMsg)
    ensures e.kind != "response_item" && e.kind != "event_msg" ==> r == []
  {
    match e.kind
    case "response_item" => DescribeResponseItem(e.payload.asResponseItem)
    case "event_msg" => DescribeEventMessage(e.payload.asEventMsg)
    case _ => []
  }

  /** describeResponseItem. */
  function DescribeResponseItem(item: Option<ResponseItem>): (r: string)
    ensures item.None? ==> r == []
    ensures item.Some? && item.value.kind == "message" ==> r == DescribeMessage(item.value)
    ensures item.Some? && item.value.kind == "reasoning" ==> r == DescribeReasoning(item.value)
    ensures item.Some? && item.value.kind == "function_call" ==> r == DescribeCall(item.value)
    ensures item.Some? && item.value.kind == "function_call_output" ==> r == DescribeFunctionOutput(item.value)
    ensures item.Some? && item.value.kind == "message" ==>
      (r == [] <==> (FirstNonEmpty(item.value.content) == [] &&
                     FirstNonEmpty(item.value.summary) == [] &&
                     (item.value.title == [] || (TrimSpace(item.value.role) == [] && Blank(item.value.title)))))
    ensures item.Some? && item.value.kind == "reasoning" ==>
      (r == [] <==> (FirstNonEmpty(item.value.summary) == [] && FirstNonEmpty(item.value.content) == []))
    ensures item.Some? && (item.value.kind == "function_call" || item.value.kind == "function_call_output") ==>
      IsPrefix("call " + item.value.name, r) && r != []
    ensures item.Some? && item.value.kind !in {"message", "reasoning", "function_call", "function_call_output"} ==>
      r == CompactSnippet(item.value.title)
  {
    match item
    case None => []
    case Some(p) =>
      match p.kind
      case "message" => DescribeMessage(p)
      case "reasoning" => DescribeReasoning(p)
      case "function_call" => DescribeCall(p)
      case "function_call_output" =>
        FunctionOutputNamed(p);
        DescribeFunctionOutput(p)
      case _ => if p.title != [] then CompactSnippet(p.title) else []
  }

  /** The `message` case: the role, when there is one, before the text. */
  function DescribeMessage(p: ResponseItem): (r: string)
    ensures r == [] <==> (FirstNonEmpty(p.content) == [] && FirstNonEmpty(p.summary) == [] &&
                          (p.title == [] || (TrimSpace(p.role) == [] && Blank(p.title))))
    ensures MessageText(p) != [] && TrimSpace(p.role) != [] ==>
      r == TrimSpace(p.role) + ": " + CompactSnippet(MessageText(p))
    ensures MessageText(p) != [] && TrimSpace(p.role) == [] ==> r == CompactSnippet(MessageText(p))
  {
    var text := MessageText(p);
    if text == [] then []
    else
      var prefix := TrimSpace(p.role);
      if prefix != [] then prefix + ": " + CompactSnippet(text) else CompactSnippet(text)
  }

  /** The `reasoning` case: the summary, else the content. */
  function DescribeReasoning(p: ResponseItem): (r: string)
    ensures r == [] <==> (FirstNonEmpty(p.summary) == [] && FirstNonEmpty(p.content) == [])
    ensures FirstNonEmpty(p.summary) != [] ==> r == "reasoning: " + CompactSnippet(FirstNonEmpty(p.summary))
    ensures FirstNonEmpty(p.summary) == [] && FirstNonEmpty(p.content) != [] ==>
      r == "reasoning: " + CompactSnippet(FirstNonEmpty(p.content))
  {
    var text := FirstNonEmpty(p.summary);
    var text := if text == [] then FirstNonEmpty(p.content) else text;
    if text == [] then [] else "reasoning: " + CompactSnippet(text)
  }

  /** The `function_call` case: the call's name, then its arguments when they summarise. */
  function DescribeCall(p: ResponseItem): (r: string)
    ensures IsPrefix("call " + p.name, r)
    ensures var args := DescribeFunctionArguments(p.name, p.arguments);
      r == "call " + p.name + (if args != [] then " " + args else [])
  {
    var desc := "call " + p.name;
    var args := DescribeFunctionArguments(p.name, p.arguments);
    if args != [] then
      PrefixOfAppend(desc, " " + args);
      desc + (" " + args)
    else
      assert desc[..|desc|] == desc;
      desc
  }

  /** The text a `message` item is described by: content, else summary, else title. */
  function MessageText(p: ResponseItem): (text: string)
    ensures text == [] <==> FirstNonEmpty(p.content) == [] && FirstNonEmpty(p.summary) == [] && p.title == []
    ensures FirstNonEmpty(p.content) != [] ==> text == FirstNonEmpty(p.content)
    ensures FirstNonEmpty(p.content) == [] && FirstNonEmpty(p.summary) != [] ==> text == FirstNonEmpty(p.summary)
    ensures FirstNonEmpty(p.content) == [] && FirstNonEmpty(p.summary) == [] ==> text == p.title
  {
    var text := FirstNonEmpty(p.content);
    var text := if text == [] then FirstNonEmpty(p.summary) else text;
    if text == [] && p.title != [] then p.title else text
  }

  predicate IsPrefix(a: string, b: string) {
    |a| <= |b| && b[..|a|] == a
  }

  lemma PrefixOfAppend(a: string, b: string)
    ensures IsPrefix(a, a + b)
  {
  }

  lemma PrefixTransitive(a: string, b: string, c: string)
    requires IsPrefix(a, b) && IsPrefix(b, c)
    ensures IsPrefix(a, c)
  {
    assert c[..|a|] == c[..|b|][..|a|];
  }

  /** "<call><rest>" starts with the call, however the rest is built up. */
  lemma CallPrefix(call: string, x: string, y: string)
    ensures IsPrefix(call, call + x + y) && IsPrefix(call, call + x)
  {
    PrefixOfAppend(call, x + y);
    assert call + x + y == call + (x + y);
    PrefixOfAppend(call, x);
  }

  /** describeFunctionArguments: only a `shell` call with a command is summarised. */
  function DescribeFunctionArguments(name: string, args: Embedded<ShellCall>): (r: string)
    ensures r != [] ==>
      (name == "shell" && args.text != [] && args.decoded.Some? &&
       r == CompactSnippet(Join(args.decoded.value.command, " ")))
    ensures name == "shell" && args.text != [] && args.decoded.Some? && |args.decoded.value.command| > 0 ==>
      r == CompactSnippet(Join(args.decoded.value.command, " "))
    ensures |r| <= SnippetLimit
  {
    if args.text == [] then []
    else if name == "shell" then
      match args.decoded
      case None => []
      case Some(call) =>
        if |call.command| == 0 then [] else CompactSnippet(Join(call.command, " "))
    else []
  }

  /**
   * describeFunctionOutput.  An empty output reports the item's error message
   * or completion; an output that does not decode says only "output"; a decoded
   * output is described by DescribeToolOutput.
   */
  function DescribeFunctionOutput(p: ResponseItem): (r: string)
    ensures p.output.text == [] && p.error.Some? && p.error.value.message != [] ==>
      r == "call " + p.name + " error: " + CompactSnippet(p.error.value.message)
    ensures p.output.text == [] && !(p.error.Some? && p.error.value.message != []) ==>
      r == "call " + p.name + " completed"
    ensures p.output.text != [] && p.output.decoded.None? ==> r == "call " + p.name + " output"
    ensures p.output.text != [] && p.output.decoded.Some? ==>
      r == DescribeToolOutput("call " + p.name, p.output.decoded.value)
  {
    var call := "call " + p.name;
    if p.output.text == [] then
      if p.error.Some? && p.error.value.message != [] then
        call + " error: " + CompactSnippet(p.error.value.message)
      else call + " completed"
    else
      match p.output.decoded
      case None => call + " output"
      case Some(out) => DescribeToolOutput(call, out)
  }

  /**
   * The decoded-output part of describeFunctionOutput: the error beats the exit
   * code, which beats the plain output.
   */
  function DescribeToolOutput(call: string, out: ToolOutput): (r: string)
    ensures out.error != [] ==> r == call + " error: " + CompactSnippet(out.error)
    ensures out.error == [] && out.exitCode.Some? ==> r == DescribeExit(call, out.exitCode.value, CompactSnippet(out.output))
    ensures out.error == [] && out.exitCode.None? && out.output == [] ==> r == call + " completed"
    ensures out.error == [] && out.exitCode.None? && out.output != [] ==>
      r == call + ": " + CompactSnippet(out.output)
  {
    if out.error != [] then call + " error: " + CompactSnippet(out.error)
    else if out.exitCode.Some? then DescribeExit(call, out.exitCode.value, CompactSnippet(out.output))
    else if out.output == [] then call + " completed"
    else call + ": " + CompactSnippet(out.output)
  }

  /** A decoded output with an exit code: "<call> exit <code>", then the output's snippet if it has one. */
  function DescribeExit(call: string, code: int, snippet: string): (r: string)
    ensures IsPrefix(call + " exit " + IntToString(code), r)
    ensures snippet == [] <==> r == call + " exit " + IntToString(code)
    ensures snippet != [] ==> r == call + " exit " + IntToString(code) + ": " + snippet
  {
    var exit := call + " exit " + IntToString(code);
    if snippet != [] then
      PrefixOfAppend(exit, ": " + snippet);
      exit + (": " + snippet)
    else
      assert exit[..|exit|] == exit;
      exit
  }

  /** describeEventMessage. */
  function DescribeEventMessage(msg: Option<EventMsg>): (r: string)
    ensures msg.None? ==> r == []
    ensures msg.Some? && msg.value.kind == "token_count" ==> r == "token usage updated"
    ensures msg.Some? && ChatKind(msg.value.kind) ==>
      (r == [] <==> msg.value.message == [] && msg.value.text == [])
    ensures msg.Some? && ChatKind(msg.value.kind) && (msg.value.message != [] || msg.value.text != []) ==>
      r == msg.value.kind + ": " + CompactSnippet(if msg.value.message != [] then msg.value.message else msg.value.text)
    ensures msg.Some? && !ChatKind(msg.value.kind) && msg.value.kind != "token_count" && msg.value.message == [] ==>
      r == msg.value.kind
    ensures msg.Some? && !ChatKind(msg.value.kind) && msg.value.kind != "token_count" && msg.value.message != [] ==>
      r == Label(msg.value.kind) + ": " + CompactSnippet(msg.value.message)
  {
    match msg
    case None => []
    case Some(p) =>
      if ChatKind(p.kind) then
        var text := if p.message == [] then p.text else p.message;
        if text == [] then [] else p.kind + ": " + CompactSnippet(text)
      else if p.kind == "token_count" then "token usage updated"
      else if p.message != [] then Label(p.kind) + ": " + CompactSnippet(p.message)
      else p.kind
  }

  /** The three conversational event kinds, described by their message or text. */
  predicate ChatKind(kind: string) {
    kind == "user_message" || kind == "assistant_message" || kind == "system_message"
  }

  /** How an event message with a message is labelled. */
  function Label(kind: string): string {
    if kind == "tool_progress" then "tool progress"
    else if kind == "command_output" then "command output"
    else kind
  }

  /** A function call's output is always described by a text that starts with "call " and the name. */
  lemma FunctionOutputNamed(p: ResponseItem)
    ensures IsPrefix("call " + p.name, DescribeFunctionOutput(p))
  {
    var call := "call " + p.name;
    if p.output.text == [] {
      if p.error.Some? && p.error.value.message != [] {
        CallPrefix(call, " error: ", CompactSnippet(p.error.value.message));
      } else {
        CallPrefix(call, " completed", []);
      }
    } else if p.output.decoded.None? {
      CallPrefix(call, " output", []);
    } else {
      ToolOutputNamed(call, p.output.decoded.value);
    }
  }

  lemma ToolOutputNamed(call: string, out: ToolOutput)
    ensures IsPrefix(call, DescribeToolOutput(call, out))
  {
    if out.error != [] {
      CallPrefix(call, " error: ", CompactSnippet(out.error));
    } else if out.exitCode.Some? {
      var code := IntToString(out.exitCode.value);
      CallPrefix(call, " exit ", code);
      PrefixTransitive(call, call + " exit " + code, DescribeToolOutput(call, out));
    } else if out.output == [] {
      CallPrefix(call, " completed", []);
    } else {
      CallPrefix(call, ": ", CompactSnippet(out.output));
    }
  }

  /**
   * An event message goes undescribed exactly when it is a chat message with
   * neither message nor text, or it has neither type nor message.
   */
  lemma EventMessageUndescribed(p: EventMsg)
    ensures DescribeEventMessage(Some(p)) == [] <==>
      (ChatKind(p.kind) && p.message == [] && p.text == []) || (p.kind == [] && p.message == [])
  {
    var r := DescribeEventMessage(Some(p));
    if !ChatKind(p.kind) && p.kind != "token_count" && p.message != [] {
      assert |r| >= |Label(p.kind) + ": "| > 0;
    }
  }
}
