/**
  The arguments a finished tool call ends up with, for any argument list: the open text and exactly the missing closing
  braces, when this is a plain print of the list, and when it does not matter where in the call the name appeared.
*/
module ToolArguments {
  import opened Wrappers
  import opened Basics
  import opened JsonText
  import opened QuoteNormalizer
  import opened ChatMessage
  import opened ToolCallMapper
  import PythonLiteral

  /** An argument as the tagged formats deliver it: a schema-declared string, or a literal to be rewritten. */
  datatype Argument =
    | StringArgument(name: string, text: string)
    | LiteralArgument(name: string, text: string)

  function ValueJson(a: Argument): string {
    if a.StringArgument? then Quote(a.text) else ToJson(a.text)
  }

  function Member(a: Argument): string {
    Quote(Trim(a.name)) + ":" + ValueJson(a)
  }

  function Members(args: seq<Argument>): string {
    if args == [] then ""
    else if |args| == 1 then Member(args[0])
    else Members(args[..|args| - 1]) + "," + Member(args[|args| - 1])
  }

  /** The plain printer of an argument list. */
  function PrintArguments(args: seq<Argument>): string {
    "{" + Members(args) + "}"
  }

  function ValueNode(a: Argument): Node {
    Node(if a.StringArgument? then ArgStringValue else ArgValue, a.text)
  }

  function ArgumentNodes(a: Argument): seq<Node> {
    [Node(ArgOpen, ""), Node(ArgName, a.name), ValueNode(a), Node(ArgClose, "")]
  }

  function AllArgumentNodes(args: seq<Argument>): seq<Node> {
    if args == [] then [] else AllArgumentNodes(args[..|args| - 1]) + ArgumentNodes(args[|args| - 1])
  }

  /** The nodes of a whole tagged call. */
  function CallNodes(name: string, args: seq<Argument>): seq<Node> {
    [Node(ToolOpen, ""), Node(ToolName, name)] + AllArgumentNodes(args) + [Node(ToolClose, "")]
  }

  lemma {:induction false} RunConcat(s: State, a: seq<Node>, b: seq<Node>)
    requires s.Valid() && DefinedFrom(s, a) && DefinedFrom(Run(s, a), b)
    ensures DefinedFrom(s, a + b) && Run(s, a + b) == Run(Run(s, a), b)
    decreases |a|
  {
    if a == [] {
      assert a + b == b;
    } else {
      assert (a + b)[1..] == a[1..] + b;
      StepKeepsValid(s, a[0]);
      RunConcat(Step(s, a[0]), a[1..], b);
    }
  }

  lemma RunOne(s: State, node: Node)
    requires s.Valid() && Defined(s, node)
    ensures DefinedFrom(s, [node]) && Run(s, [node]) == Step(s, node)
  {
    StepKeepsValid(s, node);
    assert [node][1..] == [];
  }

  // ----- Closing braces -----

  lemma {:induction false} ScanClosers(st: Scan, n: nat)
    requires !st.inString && !st.escaped
    ensures ScanAll(st, Repeat('}', n)) == st.(depth := st.depth - n)
    decreases n
  {
    if n > 0 {
      ScanClosers(Advance(st, '}'), n - 1);
    }
  }

  /** In a string, closing braces are text. */
  lemma {:induction false} ScanQuotedClosers(st: Scan, n: nat)
    requires st.inString
    ensures ScanAll(st, Repeat('}', n)).inString && ScanAll(st, Repeat('}', n)).depth == st.depth
    decreases n
  {
    if n > 0 {
      ScanQuotedClosers(Advance(st, '}'), n - 1);
    }
  }

  /**
    A close adds exactly the braces that are missing: none when none is. Afterwards no brace is missing if and only if
    none was missing before or the text does not end inside a string, where the closers are only more text.
  */
  lemma CloseBalances(text: string)
    ensures var d := BraceDepth(text);
            && (d <= 0 ==> text + Repeat('}', d) == text)
            && (d >= 0 && !ScanAll(Outside(0), text).inString ==>
                  ScanAll(Outside(0), text + Repeat('}', d)) == Outside(0))
            && (BraceDepth(text + Repeat('}', d)) <= 0 <==> d <= 0 || !ScanAll(Outside(0), text).inString)
            && (d > 0 && ScanAll(Outside(0), text).inString ==> BraceDepth(text + Repeat('}', d)) == d)
  {
    var d := BraceDepth(text);
    var st := ScanAll(Outside(0), text);
    if d >= 0 {
      ScanConcat(Outside(0), text, Repeat('}', d));
      EscapesOnlyInStrings(Outside(0), text);
      if st.inString {
        ScanQuotedClosers(st, d);
      } else {
        ScanClosers(st, d);
      }
    } else {
      assert text + Repeat('}', d) == text;
    }
  }

  lemma {:induction false} EscapesOnlyInStrings(st: Scan, text: string)
    requires st.escaped ==> st.inString
    ensures ScanAll(st, text).escaped ==> ScanAll(st, text).inString
    decreases |text|
  {
    if text != "" {
      EscapesOnlyInStrings(Advance(st, text[0]), text[1..]);
    }
  }

  // ----- The name may come anywhere -----

  /** Nodes that describe the call, other than its name. */
  predicate DescribesCall(node: Node) {
    node.tag in {ToolId, ToolArgs, ArgOpen, ArgClose, ArgName, ArgValue, ArgStringValue}
  }

  /** What an unnamed call has in its buffer: nothing, text with an opening brace, or values without one. */
  datatype Buffered = Nothing | Braced | Unbraced

  function Buffering(b: Buffered, node: Node): Buffered {
    match node.tag
    case ArgName => if b == Nothing then Braced else b
    case ToolArgs => if StartsObject(TrimTrailing(node.text)) then Braced else b
    case ArgValue => if b == Nothing && node.text != "" then Unbraced else b
    case ArgStringValue => if b == Nothing then Unbraced else b
    case _ => b
  }

  function BufferedAfter(b: Buffered, nodes: seq<Node>): Buffered
    decreases |nodes|
  {
    if nodes == [] then b else BufferedAfter(Buffering(b, nodes[0]), nodes[1..])
  }

  /** The arguments of a call that was named first, when an unnamed one has `buffer`. */
  predicate SameArguments(buffer: string, arguments: string, b: Buffered) {
    match b
    case Nothing => buffer == "" && arguments == "{"
    case Braced => buffer != "" && arguments == buffer
    case Unbraced => buffer != "" && arguments == "{" + buffer
  }

  /** An unnamed call buffering its arguments, and the same call already named. */
  ghost predicate SameCall(u: State, v: State, name: string, b: Buffered) {
    && u.current == InPending && u.pending.Some? && u.pending.value.name == "" && u.pending.value.arguments == ""
    && name != "" && v.current == InResult && v.pending.None? && v.buffer == ""
    && v.calls != [] && v.calls[..|v.calls| - 1] == u.calls
    && v.calls[|v.calls| - 1].name == name && v.calls[|v.calls| - 1].id == u.pending.value.id
    && SameArguments(u.buffer, v.calls[|v.calls| - 1].arguments, b)
    && u.reasoning == v.reasoning && u.content == v.content
    && u.argCount == v.argCount && u.quotePending == v.quotePending
    && (b == Nothing ==> !u.quotePending)
  }

  lemma SameCallStep(u: State, v: State, name: string, b: Buffered, node: Node)
    requires SameCall(u, v, name, b) && DescribesCall(node)
    ensures SameCall(Step(u, node), Step(v, node), name, Buffering(b, node))
  {
    if node.tag in {ArgName, ArgValue, ArgStringValue} {
      SameCallExtended(u, v, name, b, node);
      hide Step, SameCall;
    } else {
      hide Trim, TrimTrailing, Quote, ValueText, Unquoted, CloseTool;
      match node.tag
      case ToolId | ToolArgs | ArgOpen =>
      case ArgClose => assert b == Unbraced ==> "{" + (u.buffer + "\"") == "{" + u.buffer + "\"";
    }
  }

  /** Text is appended to the arguments, after a brace that may be missing. */
  lemma SameArgumentsGrow(buffer: string, arguments: string, b: Buffered, text: string)
    requires SameArguments(buffer, arguments, b)
    ensures text != "" ==> SameArguments(buffer + text, arguments + text, if b == Nothing then Unbraced else b)
    ensures text == "" ==> SameArguments(buffer + text, arguments + text, b)
    ensures SameArguments((if buffer == "" then "{" else buffer) + text, arguments + text,
                          if b == Nothing then Braced else b)
  {
    Associate("{", buffer, text);
    assert "" + text == text && buffer + "" == buffer && arguments + "" == arguments;
  }

  /** Setting the arguments of both keeps them the same call. */
  lemma SameCallSet(u: State, v: State, name: string, b: Buffered, b': Buffered, buffer: string, arguments: string,
                    count: nat, quote: bool)
    requires SameCall(u, v, name, b) && SameArguments(buffer, arguments, b') && (b' == Nothing ==> !quote)
    ensures SameCall(Buffer(u, buffer, count, quote), Filled(v, arguments, count, quote), name, b')
  {
    hide SameArguments;
  }

  function Buffer(u: State, buffer: string, count: nat, quote: bool): State {
    u.(buffer := buffer, argCount := count, quotePending := quote)
  }

  function Filled(v: State, arguments: string, count: nat, quote: bool): State
    requires v.calls != []
  {
    var n := |v.calls| - 1;
    v.(calls := v.calls[n := v.calls[n].(arguments := arguments)], argCount := count, quotePending := quote)
  }

  /** What a node that extends the arguments does to either of them. */
  lemma ExtendingSteps(u: State, v: State, name: string, b: Buffered, node: Node)
    requires SameCall(u, v, name, b) && node.tag in {ArgName, ArgValue, ArgStringValue}
    ensures var n := |v.calls| - 1;
            var key := (if u.argCount > 0 then "," else "") + Quote(Trim(node.text)) + ":";
            if node.tag == ArgName then
              && Step(u, node)
                 == Buffer(u, (if u.buffer == "" then "{" else u.buffer) + key, u.argCount + 1, u.quotePending)
              && Step(v, node) == Filled(v, v.calls[n].arguments + key, u.argCount + 1, u.quotePending)
            else
              var quote := u.quotePending || node.tag == ArgStringValue;
              && Step(u, node) == Buffer(u, u.buffer + ValueText(u, node), u.argCount, quote)
              && Step(v, node) == Filled(v, v.calls[n].arguments + ValueText(u, node), u.argCount, quote)
  {
    SameValueText(u, v, node);
    ArgumentsAreNotEmpty(u, v, name, b);
    CallsOfBoth(u, v, name, b);
    hide SameCall;
    ExtendingHidden(u, node);
    ExtendingNamed(v, node);
  }

  lemma CallsOfBoth(u: State, v: State, name: string, b: Buffered)
    requires SameCall(u, v, name, b)
    ensures IsBuffering(u) && IsNamedCall(v) && u.argCount == v.argCount && u.quotePending == v.quotePending
  {
  }

  predicate IsBuffering(u: State) {
    u.current == InPending && u.pending.Some? && u.pending.value.name == ""
  }

  predicate IsNamedCall(v: State) {
    v.current == InResult && v.pending.None? && v.calls != [] && v.calls[|v.calls| - 1].name != ""
  }

  lemma ExtendingHidden(u: State, node: Node)
    requires IsBuffering(u) && node.tag in {ArgName, ArgValue, ArgStringValue}
    ensures var key := (if u.argCount > 0 then "," else "") + Quote(Trim(node.text)) + ":";
            var braced := if u.buffer == "" then "{" else u.buffer;
            Step(u, node) == if node.tag == ArgName then Buffer(u, braced + key, u.argCount + 1, u.quotePending)
                             else Buffer(u, u.buffer + ValueText(u, node), u.argCount,
                                         u.quotePending || node.tag == ArgStringValue)
  {
    hide Trim, TrimTrailing, Quote, ValueText, CloseTool;
    match node.tag
    case ArgName | ArgValue | ArgStringValue =>
  }

  lemma ExtendingNamed(v: State, node: Node)
    requires IsNamedCall(v) && node.tag in {ArgName, ArgValue, ArgStringValue}
    requires v.calls[|v.calls| - 1].arguments != ""
    ensures var arguments := v.calls[|v.calls| - 1].arguments;
            var key := (if v.argCount > 0 then "," else "") + Quote(Trim(node.text)) + ":";
            Step(v, node) == if node.tag == ArgName then Filled(v, arguments + key, v.argCount + 1, v.quotePending)
                             else Filled(v, arguments + ValueText(v, node), v.argCount,
                                         v.quotePending || node.tag == ArgStringValue)
  {
    hide Trim, TrimTrailing, Quote, ValueText, CloseTool;
    match node.tag
    case ArgName | ArgValue | ArgStringValue =>
  }

  /** A node that extends the arguments. */
  lemma SameCallExtended(u: State, v: State, name: string, b: Buffered, node: Node)
    requires SameCall(u, v, name, b) && node.tag in {ArgName, ArgValue, ArgStringValue}
    ensures SameCall(Step(u, node), Step(v, node), name, Buffering(b, node))
  {
    ValueTextIsEmpty(u, node);
    ExtendingSteps(u, v, name, b, node);
    var n := |v.calls| - 1;
    assert SameArguments(u.buffer, v.calls[n].arguments, b) && (b == Nothing ==> !u.quotePending);
    hide Trim, TrimTrailing, Quote, ValueText, SameArguments, SameCall, Step, Buffer, Filled;
    var key := (if u.argCount > 0 then "," else "") + Quote(Trim(node.text)) + ":";
    var b', arguments := Buffering(b, node), v.calls[n].arguments;
    if node.tag == ArgName {
      SameArgumentsGrow(u.buffer, arguments, b, key);
      SameCallSet(u, v, name, b, b', (if u.buffer == "" then "{" else u.buffer) + key, arguments + key, u.argCount + 1,
                  u.quotePending);
    } else {
      SameArgumentsGrow(u.buffer, arguments, b, ValueText(u, node));
      SameCallSet(u, v, name, b, b', u.buffer + ValueText(u, node), arguments + ValueText(u, node), u.argCount,
                  u.quotePending || node.tag == ArgStringValue);
    }
  }

  lemma ArgumentsAreNotEmpty(u: State, v: State, name: string, b: Buffered)
    requires SameCall(u, v, name, b)
    ensures v.calls[|v.calls| - 1].arguments != ""
  {
  }

  lemma SameValueText(u: State, v: State, node: Node)
    requires u.quotePending == v.quotePending
    ensures ValueText(u, node) == ValueText(v, node)
  {
  }

  /** Only an empty literal contributes nothing. */
  lemma ValueTextIsEmpty(s: State, node: Node)
    ensures node.tag == ArgValue ==> (ValueText(s, node) == "" <==> node.text == "")
    ensures node.tag == ArgStringValue && !s.quotePending ==> ValueText(s, node) != ""
  {
    if node.tag == ArgValue && node.text != "" {
      RewritingIsNotEmpty(node.text, false, Bare);
    }
  }

  lemma RewritingIsNotEmpty(s: string, afterWord: bool, mode: Mode)
    requires s != ""
    ensures Normalize(s, afterWord, mode) != ""
  {
  }

  /** Naming the call at last gives the same, unless values came without a brace before them. */
  lemma NamingMeetsExactly(u: State, v: State, name: string, b: Buffered)
    requires SameCall(u, v, TrimTrailing(name), b)
    ensures Step(u, Node(ToolName, name)) == v <==> b != Unbraced
  {
    var named := Step(u, Node(ToolName, name));
    assert v.calls == v.calls[..|v.calls| - 1] + [v.calls[|v.calls| - 1]];
    if b == Unbraced {
      assert named.calls[|named.calls| - 1].arguments == u.buffer;
      assert |v.calls[|v.calls| - 1].arguments| == 1 + |u.buffer|;
    }
  }

  lemma {:induction false} SameCallRun(u: State, v: State, name: string, b: Buffered, nodes: seq<Node>)
    requires SameCall(u, v, name, b)
    requires forall i :: 0 <= i < |nodes| ==> DescribesCall(nodes[i])
    ensures DefinedFrom(u, nodes) && DefinedFrom(v, nodes)
    ensures SameCall(Run(u, nodes), Run(v, nodes), name, BufferedAfter(b, nodes))
    decreases |nodes|
  {
    if nodes != [] {
      SameCallStep(u, v, name, b, nodes[0]);
      SameCallRun(Step(u, nodes[0]), Step(v, nodes[0]), name, Buffering(b, nodes[0]), nodes[1..]);
    }
  }

  /**
    Whether its name arrives before or after its arguments, raw or tagged, leaves the whole mapper in the same state
    once the name has been seen, unless a value came first and no raw object replaced it.
  */
  lemma NamePositionIsIrrelevantExactly(s: State, name: string, nodes: seq<Node>)
    requires s.Settled() && TrimTrailing(name) != ""
    requires forall i :: 0 <= i < |nodes| ==> DescribesCall(nodes[i])
    ensures var nameFirst := [Node(ToolOpen, ""), Node(ToolName, name)] + nodes;
            var nameLast := [Node(ToolOpen, "")] + nodes + [Node(ToolName, name)];
            && DefinedFrom(s, nameFirst) && DefinedFrom(s, nameLast)
            && (Run(s, nameFirst) == Run(s, nameLast) <==> BufferedAfter(Nothing, nodes) != Unbraced)
  {
    var o, nm := Node(ToolOpen, ""), Node(ToolName, name);
    var u := Step(s, o);
    var v := Step(u, nm);
    assert SameCall(u, v, TrimTrailing(name), Nothing) by {
      assert v.calls[..|v.calls| - 1] == s.calls;
    }
    SameCallRun(u, v, TrimTrailing(name), Nothing, nodes);
    NamingMeetsExactly(Run(u, nodes), Run(v, nodes), name, BufferedAfter(Nothing, nodes));
    RunOne(s, o);
    RunOne(u, nm);
    RunOne(Run(u, nodes), nm);
    RunConcat(s, [o], nodes);
    RunConcat(s, [o] + nodes, [nm]);
    RunConcat(s, [o], [nm]);
    assert [o] + [nm] == [o, nm];
    RunConcat(s, [o, nm], nodes);
  }

  // ----- The printed arguments -----

  /** The mapper while a named call of its own is being filled in. */
  function Filling(s: State, name: string, arguments: string, count: nat): State {
    s.(calls := s.calls + [ToolCall(name, arguments, "")], pending := None, current := InResult,
       argCount := count, quotePending := false, buffer := "")
  }

  lemma FillingStep(s: State, name: string, arguments: string, count: nat, node: Node)
    requires name != "" && arguments != ""
    requires node.tag in {ArgOpen, ArgName, ArgValue}
    ensures Step(Filling(s, name, arguments, count), node)
            == match node.tag
               case ArgOpen => Filling(s, name, arguments, count)
               case ArgName =>
                 var comma := if count > 0 then "," else "";
                 Filling(s, name, arguments + (comma + Quote(Trim(node.text)) + ":"), count + 1)
               case _ => Filling(s, name, arguments + ToJson(node.text), count)
  {
    hide Trim, Quote, ToJson;
    var f := Filling(s, name, arguments, count);
    assert forall t: ToolCall :: f.calls[|f.calls| - 1 := t] == s.calls + [t];
    match node.tag
    case ArgOpen | ArgName | ArgValue =>
  }

  lemma StringValueStep(s: State, name: string, arguments: string, count: nat, text: string)
    requires name != "" && arguments != ""
    ensures var f := Filling(s, name, arguments, count);
            var f' := Step(f, Node(ArgStringValue, text));
            f'.Valid() && Step(f', Node(ArgClose, "")) == Filling(s, name, arguments + Quote(text), count)
  {
    var f := Filling(s, name, arguments, count);
    assert forall t: ToolCall :: f.calls[|f.calls| - 1 := t] == s.calls + [t];
    var f' := Step(f, Node(ArgStringValue, text));
    assert ValueText(f, Node(ArgStringValue, text)) == "\"" + Escape(text);
    hide Escape;
    var partial := arguments + ("\"" + Escape(text));
    assert f' == Filling(s, name, partial, count).(quotePending := true);
    assert forall t: ToolCall :: f'.calls[|f'.calls| - 1 := t] == s.calls + [t];
    assert partial + "\"" == arguments + Quote(text);
  }

  lemma ArgumentIsPrinted(s: State, name: string, arguments: string, count: nat, a: Argument)
    requires name != "" && arguments != ""
    ensures var f := Filling(s, name, arguments, count);
            var text := (if count > 0 then "," else "") + Member(a);
            && DefinedFrom(f, ArgumentNodes(a))
            && Run(f, ArgumentNodes(a)) == Filling(s, name, arguments + text, count + 1)
  {
    var f := Filling(s, name, arguments, count);
    var comma := if count > 0 then "," else "";
    var key := comma + Quote(Trim(a.name)) + ":";
    var nodes := ArgumentNodes(a);
    FillingStep(s, name, arguments, count, nodes[0]);
    FillingStep(s, name, arguments, count, nodes[1]);
    var f2 := Filling(s, name, arguments + key, count + 1);
    var f3 := Step(f2, nodes[2]);
    if a.StringArgument? {
      StringValueStep(s, name, arguments + key, count + 1, a.text);
    } else {
      FillingStep(s, name, arguments + key, count + 1, nodes[2]);
      assert f3 == Filling(s, name, arguments + key + ToJson(a.text), count + 1);
    }
    assert Step(f3, nodes[3]) == Filling(s, name, arguments + key + ValueJson(a), count + 1);
    hide Step, Filling, Member, ValueJson;
    Associate(arguments, key, ValueJson(a));
    assert comma + Member(a) == key + ValueJson(a) by { KeyThenValue(comma, a); }
    RunFour(f, nodes);
  }

  lemma KeyThenValue(comma: string, a: Argument)
    ensures comma + Member(a) == comma + Quote(Trim(a.name)) + ":" + ValueJson(a)
  {
    hide Quote, Trim, ValueJson;
  }

  lemma RunFour(s: State, nodes: seq<Node>)
    requires |nodes| == 4 && s.Valid() && Defined(s, nodes[0])
    requires var s1 := Step(s, nodes[0]);
             s1.Valid() && Defined(s1, nodes[1])
             && var s2 := Step(s1, nodes[1]);
                s2.Valid() && Defined(s2, nodes[2])
                && var s3 := Step(s2, nodes[2]);
                   s3.Valid() && Defined(s3, nodes[3])
    ensures DefinedFrom(s, nodes)
    ensures Run(s, nodes) == Step(Step(Step(Step(s, nodes[0]), nodes[1]), nodes[2]), nodes[3])
  {
    var s1 := Step(s, nodes[0]);
    var s2 := Step(s1, nodes[1]);
    var s3 := Step(s2, nodes[2]);
    hide Step;
    RunOne(s, nodes[0]);
    RunOne(s1, nodes[1]);
    RunOne(s2, nodes[2]);
    RunOne(s3, nodes[3]);
    RunConcat(s2, nodes[2..3], nodes[3..]);
    RunConcat(s1, nodes[1..2], nodes[2..]);
    RunConcat(s, nodes[..1], nodes[1..]);
    assert nodes[..1] == [nodes[0]] && nodes[1..2] == [nodes[1]];
    assert nodes[2..3] == [nodes[2]] && nodes[3..] == [nodes[3]];
    assert nodes[2..3] + nodes[3..] == nodes[2..] && nodes[1..2] + nodes[2..] == nodes[1..];
    assert nodes[..1] + nodes[1..] == nodes;
  }

  lemma {:induction false} ArgumentsArePrinted(s: State, name: string, args: seq<Argument>)
    requires name != ""
    ensures var f := Filling(s, name, "{", 0);
            && DefinedFrom(f, AllArgumentNodes(args))
            && Run(f, AllArgumentNodes(args)) == Filling(s, name, "{" + Members(args), |args|)
    decreases |args|
  {
    var f := Filling(s, name, "{", 0);
    if args == [] {
      assert "{" + "" == "{";
    } else {
      var init, last := args[..|args| - 1], args[|args| - 1];
      ArgumentsArePrinted(s, name, init);
      ArgumentIsPrinted(s, name, "{" + Members(init), |init|, last);
      RunConcat(f, AllArgumentNodes(init), ArgumentNodes(last));
      MembersGrow(args);
    }
  }

  lemma MembersGrow(args: seq<Argument>)
    requires args != []
    ensures var comma := if |args| > 1 then "," else "";
            "{" + Members(args[..|args| - 1]) + (comma + Member(args[|args| - 1])) == "{" + Members(args)
  {
    var last := Member(args[|args| - 1]);
    var init := Members(args[..|args| - 1]);
    if |args| == 1 {
      assert init == "" && "{" + "" == "{" && "" + last == last;
    } else {
      assert Members(args) == init + "," + last;
      hide Member, Members;
      Associate("{", init, "," + last);
      Associate(init, ",", last);
    }
  }

  lemma {:induction false} MembersBalanced(args: seq<Argument>)
    requires forall i :: 0 <= i < |args| ==> Balanced(ValueJson(args[i]))
    ensures Balanced(Members(args))
    decreases |args|
  {
    hide Balanced;
    if args == [] {
      PlainIsBalanced("");
    } else {
      var last := args[|args| - 1];
      QuotedIsBalanced(Trim(last.name));
      PlainIsBalanced(":");
      BalancedConcat(Quote(Trim(last.name)), ":");
      BalancedConcat(Quote(Trim(last.name)) + ":", ValueJson(last));
      if |args| > 1 {
        MembersBalanced(args[..|args| - 1]);
        PlainIsBalanced(",");
        BalancedConcat(Members(args[..|args| - 1]), ",");
        BalancedConcat(Members(args[..|args| - 1]) + ",", Member(last));
      }
    }
  }

  /** The argument text while a call is open. */
  function OpenArguments(args: seq<Argument>): string {
    "{" + Members(args)
  }

  /** What a finished call carries: the open text and exactly the braces that the counter finds missing. */
  function FinishedArguments(args: seq<Argument>): string {
    OpenArguments(args) + Repeat('}', BraceDepth(OpenArguments(args)))
  }

  lemma ClosingStep(s: State, name: string, arguments: string, count: nat)
    requires name != ""
    ensures Step(Filling(s, name, arguments, count), Node(ToolClose, ""))
            == Filling(s, name, arguments + Repeat('}', BraceDepth(arguments)), count)
  {
    hide BraceDepth, Repeat;
    var f := Filling(s, name, arguments, count);
    assert forall t: ToolCall :: f.calls[|f.calls| - 1 := t] == s.calls + [t];
  }

  /** The nodes of a call, run one after the other. */
  lemma CallIsRun(s: State, name: string, args: seq<Argument>)
    requires s.Settled() && TrimTrailing(name) != ""
    ensures DefinedFrom(s, CallNodes(name, args))
    ensures Run(s, CallNodes(name, args))
            == Step(Filling(s, TrimTrailing(name), OpenArguments(args), |args|), Node(ToolClose, ""))
  {
    var o, nm, cl := Node(ToolOpen, ""), Node(ToolName, name), Node(ToolClose, "");
    var n := TrimTrailing(name);
    var f := Filling(s, n, "{", 0);
    RunOne(s, o);
    RunOne(Step(s, o), nm);
    RunConcat(s, [o], [nm]);
    assert [o] + [nm] == [o, nm];
    assert Run(s, [o, nm]) == f;
    hide Step, Filling;
    ArgumentsArePrinted(s, n, args);
    RunConcat(s, [o, nm], AllArgumentNodes(args));
    FillingIsValid(s, n, OpenArguments(args), |args|);
    RunOne(Filling(s, n, OpenArguments(args), |args|), cl);
    RunConcat(s, [o, nm] + AllArgumentNodes(args), [cl]);
  }

  lemma FillingIsValid(s: State, name: string, arguments: string, count: nat)
    requires name != ""
    ensures var f := Filling(s, name, arguments, count); f.Valid() && Defined(f, Node(ToolClose, ""))
  {
  }

  /**
    A finished call, whatever its arguments: the result holds one more call, with the open argument text and the
    missing braces, and nothing else of the message changes. The arguments are the plain print of the argument list if
    and only if one brace is missing.
  */
  lemma FinishedCallIsPrinted(s: State, name: string, args: seq<Argument>)
    requires s.Settled() && TrimTrailing(name) != ""
    ensures DefinedFrom(s, CallNodes(name, args))
    ensures var s' := Run(s, CallNodes(name, args));
            && s'.calls == s.calls + [ToolCall(TrimTrailing(name), FinishedArguments(args), "")]
            && s'.reasoning == s.reasoning && s'.content == s.content
    ensures FinishedArguments(args) == PrintArguments(args) <==> BraceDepth(OpenArguments(args)) == 1
  {
    CallIsRun(s, name, args);
    ClosingStep(s, TrimTrailing(name), OpenArguments(args), |args|);
    PrintedExactly(OpenArguments(args));
    hide Step, DefinedFrom, Run, CallNodes, OpenArguments, TrimTrailing;
    assert PrintArguments(args) == OpenArguments(args) + "}" by { PrintIsOpenText(args); }
  }

  lemma PrintIsOpenText(args: seq<Argument>)
    ensures PrintArguments(args) == OpenArguments(args) + "}"
  {
    hide Members;
  }

  lemma PrintedExactly(open: string)
    ensures open + Repeat('}', BraceDepth(open)) == open + "}" <==> BraceDepth(open) == 1
  {
    var d := BraceDepth(open);
    hide BraceDepth;
    if d == 1 {
      assert Repeat('}', 1) == "}";
    } else {
      assert |open + Repeat('}', d)| != |open + "}"|;
    }
  }

  /** In particular when no value leaves a brace or a string open, or closes one too many. */
  lemma BalancedCallIsPrinted(args: seq<Argument>)
    requires forall i :: 0 <= i < |args| ==> Balanced(ValueJson(args[i]))
    ensures FinishedArguments(args) == PrintArguments(args)
  {
    MembersBalanced(args);
    OneBraceMissing(Members(args));
    PrintedExactly(OpenArguments(args));
    PrintIsOpenText(args);
  }

  /** A literal argument that is the text of a Python or JSON value, spaced in any way; any string argument will do. */
  ghost predicate IsValueText(a: Argument) {
    a.StringArgument?
    || exists x, d :: PythonLiteral.WellFormedItem(x) && a.text == PythonLiteral.RenderItem(x, d)
  }

  lemma ValueTextIsBalanced(a: Argument)
    requires IsValueText(a)
    ensures Balanced(ValueJson(a))
  {
    hide Balanced;
    if a.StringArgument? {
      QuotedIsBalanced(a.text);
    } else {
      var x, d :| PythonLiteral.WellFormedItem(x) && a.text == PythonLiteral.RenderItem(x, d);
      PythonLiteral.RewriterPreservesValues(x);
      PythonLiteral.ItemIsBalanced(x);
      assert d == PythonLiteral.Python || d == PythonLiteral.Json;
    }
  }

  /** And so when every literal argument is the text of a value. */
  lemma ValueCallIsPrinted(args: seq<Argument>)
    requires forall i :: 0 <= i < |args| ==> IsValueText(args[i])
    ensures FinishedArguments(args) == PrintArguments(args)
  {
    forall i | 0 <= i < |args|
      ensures Balanced(ValueJson(args[i]))
    {
      ValueTextIsBalanced(args[i]);
    }
    BalancedCallIsPrinted(args);
  }

  lemma OneBraceMissing(members: string)
    requires Balanced(members)
    ensures BraceDepth("{" + members) == 1
  {
    ScanConcat(Outside(0), "{", members);
    assert ScanAll(Outside(0), "{") == Outside(1);
  }
}
