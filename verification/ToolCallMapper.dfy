/** The messages the chat parser produces. */
module ChatMessage {
  datatype ToolCall = ToolCall(name: string, arguments: string, id: string)

  datatype Message = Message(reasoning: string, content: string, calls: seq<ToolCall>)

  const EMPTY := Message("", "", [])
}

/**
  The mapper that turns the tagged nodes of a parse, in preorder, into a message with tool calls
  (`common_chat_peg_mapper`). `Mapper` is the object with its in-place updates; `Step` and `Finish` specify it.
*/
module ToolCallMapper {
  import opened Wrappers
  import opened Basics
  import opened JsonText
  import opened QuoteNormalizer
  import opened ChatMessage

  datatype Tag =
    | Reasoning | Content
    | ToolOpen | ToolClose | ToolName | ToolId | ToolArgs
    | ArgOpen | ArgClose | ArgName | ArgValue | ArgStringValue
    | Other

  datatype Node = Node(tag: Tag, text: string)

  /** Where `current_tool` points. After an unnamed call is closed it points at a destroyed object. */
  datatype Current = NoTool | InPending | InResult | Destroyed

  predicate IsSpace(c: char) {
    c == ' ' || 9 as char <= c <= 13 as char
  }

  function TrimTrailing(s: string): (t: string)
    ensures t <= s
  {
    if s != "" && IsSpace(s[|s| - 1]) then TrimTrailing(s[..|s| - 1]) else s
  }

  /** `trim`: at most one leading space, and every trailing one. */
  function Trim(s: string): string {
    TrimTrailing(if s != "" && IsSpace(s[0]) then s[1..] else s)
  }

  function Unquoted(s: string): string {
    if |s| >= 2 && s[0] == '"' && s[|s| - 1] == '"' then s[1..|s| - 1] else s
  }

  predicate IsBlank(s: string) {
    forall i :: 0 <= i < |s| ==> s[i] == ' ' || s[i] == '\n' || s[i] == '\r' || s[i] == '\t'
  }

  function Repeat(c: char, n: int): (s: string)
    ensures |s| == if n > 0 then n else 0
    ensures forall i :: 0 <= i < |s| ==> s[i] == c
  {
    if n <= 0 then "" else [c] + Repeat(c, n - 1)
  }

  /** All the mapper's fields, as one value. */
  datatype State = State(
    reasoning: string,
    content: string,
    calls: seq<ToolCall>,
    pending: Option<ToolCall>,
    current: Current,
    argCount: nat,
    quotePending: bool,
    buffer: string)
  {
    /** The pointer agrees with what it points into. */
    predicate Valid() {
      && (current == InPending <==> pending.Some?)
      && (current == InResult ==> calls != [])
    }

    /** Also kept by every step from the start: a pending call is blank, and a named one does not use the buffer. */
    predicate Settled() {
      && Valid()
      && (pending.Some? ==> pending.value.name == "" && pending.value.arguments == "")
      && (current == InResult && calls[|calls| - 1].name != "" ==> buffer == "")
    }

    predicate HasTool() {
      current == InPending || current == InResult
    }

    function Tool(): ToolCall
      requires Valid() && HasTool()
    {
      if current == InPending then pending.value else calls[|calls| - 1]
    }

    function WithTool(t: ToolCall): State
      requires Valid() && HasTool()
    {
      if current == InPending then this.(pending := Some(t)) else this.(calls := calls[|calls| - 1 := t])
    }

    /** The string `args_target()` refers to. */
    function Target(): string
      requires Valid() && HasTool()
    {
      if Tool().name != "" then Tool().arguments else buffer
    }

    function WithTarget(text: string): State
      requires Valid() && HasTool()
    {
      if Tool().name != "" then WithTool(Tool().(arguments := text)) else this.(buffer := text)
    }
  }

  const START := State("", "", [], None, NoTool, 0, false, "")

  /** Would handling `node` follow the pointer to the destroyed call? */
  predicate Dereferences(s: State, node: Node) {
    match node.tag
    case ToolId | ToolName | ToolClose | ArgName | ArgValue | ArgStringValue => true
    case ToolArgs => StartsObject(TrimTrailing(node.text))
    case ArgClose => s.quotePending
    case _ => false
  }

  predicate Defined(s: State, node: Node) {
    s.current == Destroyed ==> !Dereferences(s, node)
  }

  predicate StartsObject(s: string) {
    s != "" && s[0] == '{'
  }

  /** The text an argument value contributes; a string value opens its quote and leaves it open. */
  function ValueText(s: State, node: Node): string {
    if node.tag == ArgStringValue then
      (if node.text == "" || !s.quotePending then "\"" else "") + Escape(node.text)
    else ToJson(node.text)
  }

  function CloseTool(t: ToolCall, s: State): ToolCall {
    var flushed := if t.name == "" && s.buffer != "" then s.buffer else t.arguments;
    var quoted := if s.quotePending then flushed + "\"" else flushed;
    t.(arguments := quoted + Repeat('}', BraceDepth(quoted)))
  }

  /** What one node does to the mapper. */
  function Step(s: State, node: Node): (s': State)
    requires s.Valid() && Defined(s, node)
  {
    match node.tag
    case Reasoning => s.(reasoning := s.reasoning + node.text)
    case Content => s.(content := s.content + node.text)
    case Other => s
    case ArgOpen => s.(quotePending := false)
    case ToolOpen =>
      s.(pending := Some(ToolCall("", "", "")), current := InPending, argCount := 0, buffer := "",
         quotePending := false)
    case _ => if s.HasTool() then ToolStep(s, node) else s
  }

  /** The nodes that are ignored when no tool call has been opened. */
  function ToolStep(s: State, node: Node): State
    requires s.Valid() && s.HasTool()
    requires node.tag !in {Reasoning, Content, Other, ArgOpen, ToolOpen}
  {
    var t := s.Tool();
    match node.tag
    case ToolId => s.WithTool(t.(id := Unquoted(TrimTrailing(node.text))))
    case ToolName =>
      var arguments := if s.buffer != "" then s.buffer else if t.arguments == "" then "{" else t.arguments;
      var named := t.(name := TrimTrailing(node.text), arguments := arguments);
      if s.current == InPending
      then s.(calls := s.calls + [named], pending := None, current := InResult, buffer := "")
      else s.WithTool(named).(buffer := "")
    case ToolArgs =>
      if StartsObject(TrimTrailing(node.text)) then s.WithTarget(TrimTrailing(node.text)) else s
    case ArgName =>
      var braced := if s.Target() == "" then "{" else s.Target();
      var comma := if s.argCount > 0 then "," else "";
      s.WithTarget(braced + (comma + Quote(Trim(node.text)) + ":")).(argCount := s.argCount + 1)
    case ArgClose =>
      if s.quotePending then s.WithTarget(s.Target() + "\"").(quotePending := false) else s
    case ToolClose =>
      var closed := CloseTool(t, s);
      var after := s.(quotePending := false, buffer := if t.name == "" then "" else s.buffer);
      if s.current == InPending
      then after.(calls := if t.name != "" then s.calls + [closed] else s.calls, pending := None, current := Destroyed)
      else after.WithTool(closed)
    case ArgValue | ArgStringValue =>
      s.WithTarget(s.Target() + ValueText(s, node)).(quotePending := s.quotePending || node.tag == ArgStringValue)
  }

  /** The flush at the end of `from_ast`, meant for a pending call that has a name. */
  function Flush(s: State): State {
    if s.pending.Some? && s.pending.value.name != "" then
      var arguments := if s.buffer != "" then s.buffer else s.pending.value.arguments;
      var quoted := if s.quotePending && arguments != "" then arguments + "\"" else arguments;
      s.(calls := s.calls + [s.pending.value.(arguments := quoted)], pending := None)
    else s
  }

  /** The message `from_ast` leaves behind; reasoning that is only whitespace is dropped. */
  function Finish(s: State): Message {
    Message(if IsBlank(s.reasoning) then "" else s.reasoning, s.content, Flush(s).calls)
  }

  /** A trace on which no step follows the pointer to a destroyed call. */
  predicate DefinedFrom(s: State, nodes: seq<Node>)
    requires s.Valid()
    decreases |nodes|
  {
    nodes == [] ||
    (Defined(s, nodes[0]) && (StepKeepsValid(s, nodes[0]); DefinedFrom(Step(s, nodes[0]), nodes[1..])))
  }

  function Run(s: State, nodes: seq<Node>): (s': State)
    requires s.Valid() && DefinedFrom(s, nodes)
    ensures s'.Valid()
    decreases |nodes|
  {
    if nodes == [] then s
    else StepKeepsValid(s, nodes[0]); Run(Step(s, nodes[0]), nodes[1..])
  }

  lemma StepKeepsValid(s: State, node: Node)
    requires s.Valid() && Defined(s, node)
    ensures Step(s, node).Valid()
  {
  }

  /** Every step keeps a settled mapper settled. */
  lemma SettledIsKept(s: State, node: Node)
    requires s.Settled() && Defined(s, node)
    ensures Step(s, node).Settled()
  {
    hide CloseTool, ValueText, Escape, Trim, TrimTrailing, Unquoted;
    var s' := Step(s, node);
    if s.HasTool() && s'.HasTool() && node.tag != ToolOpen {
      assert s'.current == s.current || node.tag == ToolName;
      if node.tag != ToolName && node.tag != ToolClose {
        assert s'.Tool().name == s.Tool().name;
      }
    }
  }

  /** No call is ever pushed by the flush or by the pending branch of a close: both come after the name has. */
  lemma SettledNeverFlushes(s: State, node: Node)
    requires s.Settled() && Defined(s, node)
    ensures Flush(s) == s
    ensures node.tag == ToolClose ==> |Step(s, node).calls| == |s.calls|
  {
    hide CloseTool;
  }

  // ----- What a message says -----

  /** The texts of the nodes with one tag, in order. */
  function TextsOf(nodes: seq<Node>, tag: Tag): string {
    if nodes == [] then ""
    else (if nodes[0].tag == tag then nodes[0].text else "") + TextsOf(nodes[1..], tag)
  }

  lemma {:induction false} TextsAreJoined(s: State, nodes: seq<Node>)
    requires s.Valid() && DefinedFrom(s, nodes)
    ensures Run(s, nodes).content == s.content + TextsOf(nodes, Content)
    ensures Run(s, nodes).reasoning == s.reasoning + TextsOf(nodes, Reasoning)
    decreases |nodes|
  {
    hide CloseTool, ValueText, Quote, Trim, TrimTrailing, Unquoted;
    if nodes != [] {
      StepKeepsValid(s, nodes[0]);
      TextsAreJoined(Step(s, nodes[0]), nodes[1..]);
      StepTexts(s, nodes[0]);
      hide Step;
      Associate(s.content, if nodes[0].tag == Content then nodes[0].text else "", TextsOf(nodes[1..], Content));
      Associate(s.reasoning, if nodes[0].tag == Reasoning then nodes[0].text else "", TextsOf(nodes[1..], Reasoning));
    }
  }

  lemma StepTexts(s: State, node: Node)
    requires s.Valid() && Defined(s, node)
    ensures Step(s, node).content == s.content + (if node.tag == Content then node.text else "")
    ensures Step(s, node).reasoning == s.reasoning + (if node.tag == Reasoning then node.text else "")
  {
    hide CloseTool, ValueText, Quote, Trim, TrimTrailing, Unquoted;
  }

  /** The content is all content text; the reasoning is all reasoning text, unless that is only white space. */
  lemma MessageTexts(nodes: seq<Node>)
    requires DefinedFrom(START, nodes)
    ensures var m, thought := Finish(Run(START, nodes)), TextsOf(nodes, Reasoning);
            && m.content == TextsOf(nodes, Content)
            && ((forall i :: 0 <= i < |thought| ==> thought[i] in [' ', '\n', '\r', '\t']) ==> m.reasoning == "")
            && ((exists i :: 0 <= i < |thought| && thought[i] !in [' ', '\n', '\r', '\t']) ==> m.reasoning == thought)
  {
    TextsFromStart(nodes);
    hide Run, TextsOf, Flush;
  }

  lemma TextsFromStart(nodes: seq<Node>)
    requires DefinedFrom(START, nodes)
    ensures Run(START, nodes).content == TextsOf(nodes, Content)
    ensures Run(START, nodes).reasoning == TextsOf(nodes, Reasoning)
    ensures Flush(Run(START, nodes)).content == Run(START, nodes).content
    ensures Flush(Run(START, nodes)).reasoning == Run(START, nodes).reasoning
  {
    TextsAreJoined(START, nodes);
    assert "" + TextsOf(nodes, Content) == TextsOf(nodes, Content);
    assert "" + TextsOf(nodes, Reasoning) == TextsOf(nodes, Reasoning);
  }

  // ----- Trimming -----

  /** Every space at the end goes, and nothing else. */
  lemma {:induction false} TrimTrailingExactly(text: string, spaces: string)
    requires forall i :: 0 <= i < |spaces| ==> spaces[i] == ' ' || 9 <= spaces[i] as int <= 13
    requires text != "" ==> var c := text[|text| - 1]; c != ' ' && !(9 <= c as int <= 13)
    ensures TrimTrailing(text + spaces) == text
    decreases |spaces|
  {
    if spaces == "" {
      assert text + spaces == text;
    } else {
      var s := text + spaces;
      assert s[..|s| - 1] == text + spaces[..|spaces| - 1];
      TrimTrailingExactly(text, spaces[..|spaces| - 1]);
    }
  }

  /** One space at the front goes, and every space at the end. */
  lemma TrimExactly(text: string, spaces: string)
    requires forall i :: 0 <= i < |spaces| ==> spaces[i] == ' ' || 9 <= spaces[i] as int <= 13
    requires text != "" && var c := text[|text| - 1]; c != ' ' && !(9 <= c as int <= 13)
    ensures Trim(" " + text + spaces) == text
    ensures text[0] != ' ' && !(9 <= text[0] as int <= 13) ==> Trim(text + spaces) == text
  {
    TrimTrailingExactly(text, spaces);
    assert (" " + text + spaces)[1..] == text + spaces;
  }

  /** Quotes around an id are taken off, and only both of them. */
  lemma UnquotedExactly(text: string)
    ensures Unquoted("\"" + text + "\"") == text
    ensures |text| < 2 || text[0] != '"' || text[|text| - 1] != '"' ==> Unquoted(text) == text
  {
    var s := "\"" + text + "\"";
    assert s[1..|s| - 1] == text;
  }

  class Mapper {
    var reasoning: string
    var content: string
    var calls: seq<ToolCall>
    var pending: Option<ToolCall>
    var current: Current
    var argCount: nat
    var closingQuotePending: bool
    var argsBuffer: string

    ghost function Abstract(): State
      reads this
    {
      State(reasoning, content, calls, pending, current, argCount, closingQuotePending, argsBuffer)
    }

    constructor ()
      ensures Abstract() == START
    {
      reasoning, content, calls := "", "", [];
      pending, current, argCount := None, NoTool, 0;
      closingQuotePending, argsBuffer := false, "";
    }

    /** Reads through `current_tool`. */
    function CurrentTool(): ToolCall
      reads this
      requires Abstract().Valid() && Abstract().HasTool()
    {
      if current == InPending then pending.value else calls[|calls| - 1]
    }

    /** Writes through `current_tool`. */
    method SetCurrentTool(t: ToolCall)
      requires Abstract().Valid() && Abstract().HasTool()
      modifies this`pending, this`calls
      ensures Abstract() == old(Abstract()).WithTool(t)
    {
      if current == InPending {
        pending := Some(t);
      } else {
        calls := calls[|calls| - 1 := t];
      }
    }

    /** `args_target() = text`. */
    method SetTarget(text: string)
      requires Abstract().Valid() && Abstract().HasTool()
      modifies this`pending, this`calls, this`argsBuffer
      ensures Abstract() == old(Abstract()).WithTarget(text)
    {
      if CurrentTool().name != "" {
        SetCurrentTool(CurrentTool().(arguments := text));
      } else {
        argsBuffer := text;
      }
    }

    function ArgsTarget(): (t: string)
      reads this
      requires Abstract().Valid() && Abstract().HasTool()
      ensures t == Abstract().Target()
    {
      if CurrentTool().name != "" then CurrentTool().arguments else argsBuffer
    }

    method Map(node: Node)
      requires Abstract().Valid() && Defined(Abstract(), node)
      modifies this
      ensures Abstract() == Step(old(Abstract()), node) && Abstract().Valid()
    {
      StepKeepsValid(Abstract(), node);
      var currentTool := current != NoTool;
      if node.tag == Reasoning {
        reasoning := reasoning + node.text;
      }
      if node.tag == Content {
        content := content + node.text;
      }
      if node.tag == ToolOpen {
        pending := Some(ToolCall("", "", ""));
        current := InPending;
        argCount := 0;
        argsBuffer := "";
        closingQuotePending := false;
      }
      if node.tag == ToolId && currentTool {
        MapId(node);
      }
      if node.tag == ToolName && currentTool {
        MapName(node);
      }
      if node.tag == ToolArgs && currentTool {
        MapArgs(node);
      }
      if node.tag == ArgOpen {
        closingQuotePending := false;
      }
      if node.tag == ArgName && currentTool {
        MapArgName(node);
      }
      if (node.tag == ArgValue || node.tag == ArgStringValue) && currentTool {
        MapValue(node);
      }
      if node.tag == ArgClose && currentTool {
        MapArgClose(node);
      }
      if node.tag == ToolClose && currentTool {
        MapClose(node);
      }
    }

    method MapId(node: Node)
      requires Abstract().Valid() && Abstract().HasTool() && node.tag == ToolId
      modifies this
      ensures Abstract() == ToolStep(old(Abstract()), node)
    {
      SetCurrentTool(CurrentTool().(id := Unquoted(TrimTrailing(node.text))));
    }

    method MapArgs(node: Node)
      requires Abstract().Valid() && Defined(Abstract(), node) && current != NoTool && node.tag == ToolArgs
      modifies this
      ensures Abstract() == Step(old(Abstract()), node)
    {
      var text := TrimTrailing(node.text);
      if text != "" && text[0] == '{' {
        SetTarget(text);
      }
    }

    method MapArgName(node: Node)
      requires Abstract().Valid() && Abstract().HasTool() && node.tag == ArgName
      modifies this
      ensures Abstract() == ToolStep(old(Abstract()), node)
    {
      var entry := "";
      if argCount > 0 {
        entry := ",";
      }
      entry := entry + Quote(Trim(node.text)) + ":";
      argCount := argCount + 1;
      var target := ArgsTarget();
      if target == "" {
        target := "{";
      }
      SetTarget(target + entry);
    }

    method MapArgClose(node: Node)
      requires Abstract().Valid() && Defined(Abstract(), node) && current != NoTool && node.tag == ArgClose
      modifies this
      ensures Abstract() == Step(old(Abstract()), node)
    {
      if closingQuotePending {
        SetTarget(ArgsTarget() + "\"");
        closingQuotePending := false;
      }
    }

    method MapName(node: Node)
      requires Abstract().Valid() && Abstract().HasTool() && node.tag == ToolName
      modifies this
      ensures Abstract() == ToolStep(old(Abstract()), node)
    {
      SetCurrentTool(CurrentTool().(name := TrimTrailing(node.text)));
      var tool := if current == InPending then pending.value else calls[|calls| - 1];
      if argsBuffer != "" {
        tool := tool.(arguments := argsBuffer);
        argsBuffer := "";
      } else if tool.arguments == "" {
        tool := tool.(arguments := "{");
      }
      if current == InPending {
        pending := None;
        calls := calls + [tool];
        current := InResult;
      } else {
        calls := calls[|calls| - 1 := tool];
      }
    }

    method MapValue(node: Node)
      requires Abstract().Valid() && Abstract().HasTool() && (node.tag == ArgValue || node.tag == ArgStringValue)
      modifies this
      ensures Abstract() == ToolStep(old(Abstract()), node)
    {
      var isString := node.tag == ArgStringValue;
      var valueToAdd := "";
      if node.text == "" && isString {
        valueToAdd := "\"";
        closingQuotePending := true;
      } else if node.text != "" && isString {
        if !closingQuotePending {
          valueToAdd := "\"";
          closingQuotePending := true;
        }
        valueToAdd := valueToAdd + Escape(node.text);
      } else if node.text != "" {
        var json := NormalizeQuotesToJson(node.text);
        valueToAdd := valueToAdd + json;
      }
      assert valueToAdd == ValueText(old(Abstract()), node);
      SetTarget(ArgsTarget() + valueToAdd);
    }

    method MapClose(node: Node)
      requires Abstract().Valid() && Abstract().HasTool() && node.tag == ToolClose
      modifies this
      ensures Abstract() == ToolStep(old(Abstract()), node)
    {
      var tool := CurrentTool();
      if tool.name == "" && argsBuffer != "" {
        tool := tool.(arguments := argsBuffer);
        argsBuffer := "";
      }
      if closingQuotePending {
        tool := tool.(arguments := tool.arguments + "\"");
        closingQuotePending := false;
      }
      var d := JsonBraceDepth(tool.arguments);
      ghost var closed := tool.arguments + Repeat('}', d);
      while d > 0
        invariant tool.arguments + Repeat('}', d) == closed
        invariant tool.name == old(CurrentTool().name) && tool.id == old(CurrentTool().id)
      {
        tool := tool.(arguments := tool.arguments + "}");
        d := d - 1;
      }
      assert tool.arguments == closed;
      if current == InPending {
        if tool.name != "" {
          calls := calls + [tool];
        }
        pending := None;
        current := Destroyed;
      } else {
        calls := calls[|calls| - 1 := tool];
      }
    }

    method FlushPending()
      modifies this
      ensures Abstract() == Flush(old(Abstract()))
    {
      if pending.Some? && pending.value.name != "" {
        var tool := pending.value;
        if argsBuffer != "" {
          tool := tool.(arguments := argsBuffer);
        }
        if closingQuotePending && tool.arguments != "" {
          tool := tool.(arguments := tool.arguments + "\"");
        }
        calls := calls + [tool];
        pending := None;
      }
    }

    /** The traversal: every node is handled, in preorder. */
    method Visit(nodes: seq<Node>)
      requires Abstract().Valid() && DefinedFrom(Abstract(), nodes)
      modifies this
      ensures Abstract() == Run(old(Abstract()), nodes)
    {
      for i := 0 to |nodes|
        invariant Abstract().Valid() && DefinedFrom(Abstract(), nodes[i..])
        invariant Run(Abstract(), nodes[i..]) == Run(old(Abstract()), nodes)
      {
        assert nodes[i..][0] == nodes[i] && nodes[i..][1..] == nodes[i + 1..];
        Map(nodes[i]);
      }
    }

    /** The whole of `from_ast` on a fresh mapper. */
    method FromAst(nodes: seq<Node>) returns (message: Message)
      requires Abstract() == START && DefinedFrom(START, nodes)
      modifies this
      ensures message == Finish(Run(START, nodes))
      ensures message.content == TextsOf(nodes, Content)
      ensures var thought := TextsOf(nodes, Reasoning); message.reasoning == if IsBlank(thought) then "" else thought
    {
      hide Run, TextsOf, DefinedFrom, Flush, IsBlank;
      Visit(nodes);
      TextsFromStart(nodes);
      FlushPending();
      DropBlankReasoning();
      message := Message(reasoning, content, calls);
    }

    /** Reasoning that is only white space is dropped. */
    method DropBlankReasoning()
      modifies this`reasoning
      ensures reasoning == if IsBlank(old(reasoning)) then "" else old(reasoning)
    {
      var allWhitespace := true;
      for i := 0 to |reasoning|
        invariant allWhitespace <==> IsBlank(reasoning[..i])
      {
        var c := reasoning[i];
        if c != ' ' && c != '\n' && c != '\r' && c != '\t' {
          allWhitespace := false;
        }
      }
      if allWhitespace {
        reasoning := "";
      }
    }
  }
}
