/**
  Streaming over whole runs. While a reply is generated its text is parsed again and again, each time further; the
  nodes seen early are a cut of the nodes seen later. Between safe cuts the messages only ever grow, so the deltas
  between them never fail and rebuild the final message; at an unsafe cut of a literal value the next delta fails.
*/
module Streaming {
  import opened Wrappers
  import opened JsonText
  import opened QuoteNormalizer
  import opened ChatMessage
  import opened ToolCallMapper
  import opened MessageDiff

  predicate IsNamed(s: State) {
    s.Settled() && (s.current == InResult ==> s.calls[|s.calls| - 1].name != "")
  }

  /** The guards under which one node can only make the message grow. */
  predicate SafeStep(s: State, node: Node)
    requires s.Valid()
  {
    s.current == InResult ==>
      match node.tag
      case ToolId => var id := Unquoted(TrimTrailing(node.text)); id == s.Tool().id || id != ""
      case ToolName => s.Tool().name <= TrimTrailing(node.text)
      case ToolArgs =>
        StartsObject(TrimTrailing(node.text)) ==> s.Tool().arguments <= TrimTrailing(node.text)
      case _ => true
  }

  lemma BlankReasoningShrinks(a: string, b: string)
    requires a <= b
    ensures (if IsBlank(a) then "" else a) <= (if IsBlank(b) then "" else b)
  {
    if IsBlank(b) {
      forall i | 0 <= i < |a|
        ensures a[i] == b[i]
      {
      }
    }
  }

  predicate IsToolNode(tag: Tag) {
    tag !in {Reasoning, Content, Other, ArgOpen, ToolOpen}
  }

  /** A node handled by a visible, named call changes that call alone. */
  lemma OnlyVisibleCallChanges(s: State, node: Node)
    requires IsNamed(s) && s.current == InResult && IsToolNode(node.tag)
    ensures var s' := Step(s, node);
            && s'.Valid() && s'.HasTool() && s'.calls == s.calls[|s.calls| - 1 := s'.Tool()]
            && s'.reasoning == s.reasoning && s'.content == s.content
  {
    hide CloseTool, ValueText, Quote, Trim, TrimTrailing, Unquoted;
    var t := s.Tool();
    assert s.calls[|s.calls| - 1 := t] == s.calls;
    match node.tag
    case ToolId | ToolName | ToolArgs | ToolClose | ArgName | ArgClose | ArgValue | ArgStringValue =>
  }

  /** What handling the node makes of that call. */
  lemma CallGrowsExactly(s: State, node: Node)
    requires IsNamed(s) && s.current == InResult && IsToolNode(node.tag)
    ensures Step(s, node).Valid() && Step(s, node).HasTool()
    ensures CallGrows(s.Tool(), Step(s, node).Tool()) <==> SafeStep(s, node)
  {
    hide ToJson, Escape, BraceDepth, Repeat, Quote, Trim, TrimTrailing, Unquoted;
    var t := s.Tool();
    var t' := Step(s, node).Tool();
    match node.tag
    case ToolId | ToolName | ToolArgs | ToolClose | ArgName | ArgClose | ArgValue | ArgStringValue =>
  }

  /** A node makes the message grow exactly when its guard holds: a new id, a longer name, or extending arguments. */
  lemma StepGrowsExactly(s: State, node: Node)
    requires IsNamed(s) && Defined(s, node)
    ensures Grows(Finish(s), Finish(Step(s, node))) <==> SafeStep(s, node)
  {
    var s' := Step(s, node);
    SettledIsKept(s, node);
    SettledNeverFlushes(s, node);
    SettledNeverFlushes(s', Node(Other, ""));
    BlankReasoningShrinks(s.reasoning, s'.reasoning);
    if s.current == InResult && IsToolNode(node.tag) {
      OnlyVisibleCallChanges(s, node);
      CallGrowsExactly(s, node);
      hide Step, Flush, SafeStep;
    } else {
      OtherStepsGrow(s, node);
    }
  }

  lemma OtherStepsGrow(s: State, node: Node)
    requires IsNamed(s) && Defined(s, node)
    requires s.current != InResult || !IsToolNode(node.tag)
    ensures var s' := Step(s, node);
            && s.reasoning <= s'.reasoning && s.content <= s'.content && s.calls <= s'.calls
  {
    hide CloseTool, ValueText, Quote, Trim, TrimTrailing, Unquoted;
  }

  // ----- The traces that the tool-call grammars produce -----

  datatype Progress = Idle | Unnamed | Named | Closed

  /** What the grammar remembers: the current tool, whether it has an id and argument nodes, and an unclosed string. */
  datatype Phase = Phase(tool: Progress, hasId: bool, hasArgs: bool, inString: bool)

  const IDLE := Phase(Idle, false, false, false)

  /**
    One name and one raw argument text per call, an argument closed before the next string value, and no second id that
    is empty. Only nodes that do something count.
  */
  predicate Legal(ph: Phase, node: Node) {
    var inTool := ph.tool == Unnamed || ph.tool == Named;
    match node.tag
    case Reasoning | Content | Other | ArgOpen | ToolOpen => true
    case ToolId => ph.tool == Unnamed || (ph.tool == Named && (!ph.hasId || Unquoted(TrimTrailing(node.text)) != ""))
    case ToolName => ph.tool == Unnamed && TrimTrailing(node.text) != ""
    case ToolArgs => ph.tool == Unnamed || (ph.tool == Named && !ph.hasArgs)
    case ArgStringValue => inTool && !ph.inString
    case ArgName | ArgValue | ArgClose | ToolClose => inTool
  }

  function Next(ph: Phase, node: Node): Phase {
    match node.tag
    case Reasoning | Content | Other => ph
    case ToolId => ph.(hasId := true)
    case ToolOpen => Phase(Unnamed, false, false, false)
    case ToolName => ph.(tool := Named)
    case ArgOpen | ArgClose => ph.(inString := false)
    case ToolArgs | ArgName | ArgValue => ph.(hasArgs := true)
    case ArgStringValue => ph.(hasArgs := true, inString := true)
    case ToolClose => Phase(Closed, ph.hasId, ph.hasArgs, false)
  }

  predicate LegalFrom(ph: Phase, nodes: seq<Node>)
    decreases |nodes|
  {
    nodes == [] || (Legal(ph, nodes[0]) && LegalFrom(Next(ph, nodes[0]), nodes[1..]))
  }

  /** The mapper's state is one the grammar's phase accounts for. */
  ghost predicate Tracks(s: State, ph: Phase) {
    && IsNamed(s)
    && (ph.tool == Idle <==> s.current == NoTool)
    && (ph.tool == Unnamed <==> s.current == InPending)
    && (ph.tool == Named ==> s.current == InResult)
    && (ph.inString <==> s.quotePending)
    && (ph.inString && ph.tool == Named ==> ph.hasArgs)
    && (!ph.hasArgs && ph.tool == Unnamed ==> s.buffer == "" && !ph.inString)
    && (!ph.hasArgs && ph.tool == Named ==> s.calls[|s.calls| - 1].arguments == "{" && !ph.inString)
    && (ph.tool == Idle || ph.tool == Closed ==> !ph.inString)
    && (!ph.hasId && (ph.tool == Unnamed || ph.tool == Named) ==> s.Tool().id == "")
  }

  lemma LegalStepIsSafe(s: State, ph: Phase, node: Node)
    requires Tracks(s, ph) && Legal(ph, node)
    ensures Defined(s, node) && Tracks(Step(s, node), Next(ph, node)) && SafeStep(s, node)
  {
    assert Defined(s, node);
    SettledIsKept(s, node);
    if ph.tool == Named && IsToolNode(node.tag) {
      VisibleStepIsTracked(s, ph, node);
    } else {
      HiddenStepIsTracked(s, ph, node);
    }
  }

  lemma VisibleStepIsTracked(s: State, ph: Phase, node: Node)
    requires Tracks(s, ph) && Legal(ph, node) && Defined(s, node) && Step(s, node).Settled()
    requires ph.tool == Named && IsToolNode(node.tag)
    ensures Tracks(Step(s, node), Next(ph, node)) && SafeStep(s, node)
  {
    OnlyVisibleCallChanges(s, node);
    hide CloseTool, ValueText, Quote, Trim, TrimTrailing, Unquoted;
    match node.tag
    case ToolId | ToolArgs | ToolClose | ArgName | ArgClose | ArgValue | ArgStringValue =>
  }

  lemma HiddenStepIsTracked(s: State, ph: Phase, node: Node)
    requires Tracks(s, ph) && Legal(ph, node) && Defined(s, node) && Step(s, node).Settled()
    requires ph.tool != Named || !IsToolNode(node.tag)
    ensures Tracks(Step(s, node), Next(ph, node)) && SafeStep(s, node)
  {
    hide CloseTool, ValueText, Quote, Trim, Unquoted;
    match node.tag
    case Reasoning | Content | Other | ArgOpen | ToolOpen =>
    case ToolName =>
    case ToolClose =>
    case ToolId | ToolArgs | ArgName | ArgClose | ArgValue | ArgStringValue =>
  }

  lemma {:induction false} LegalNodesGrow(s: State, ph: Phase, nodes: seq<Node>)
    requires Tracks(s, ph) && LegalFrom(ph, nodes)
    ensures DefinedFrom(s, nodes) && Grows(Finish(s), Finish(Run(s, nodes)))
    decreases |nodes|
  {
    if nodes != [] {
      var s' := Step(s, nodes[0]);
      LegalStepIsSafe(s, ph, nodes[0]);
      StepGrowsExactly(s, nodes[0]);
      LegalNodesGrow(s', Next(ph, nodes[0]), nodes[1..]);
      hide Step, Finish, Tracks;
      GrowsIsTransitive(Finish(s), Finish(s'), Finish(Run(s', nodes[1..])));
    }
  }

  // ----- Nodes that do nothing -----

  /** A node that encloses others, such as one for all tagged arguments: the mapper does nothing for its own text. */
  predicate IsInert(node: Node) {
    node.tag == Other || (node.tag == ToolArgs && !StartsObject(TrimTrailing(node.text)))
  }

  /** The text of an opening or closing tag does not matter. */
  function Effect(node: Node): Node {
    if node.tag in {ToolOpen, ToolClose, ArgOpen, ArgClose} then Node(node.tag, "") else node
  }

  /** What matters of a trace. */
  function Essential(nodes: seq<Node>): seq<Node> {
    if nodes == [] then []
    else (if IsInert(nodes[0]) then [] else [Effect(nodes[0])]) + Essential(nodes[1..])
  }

  lemma EffectIsSame(s: State, node: Node)
    requires s.Valid()
    ensures Defined(s, node) <==> Defined(s, Effect(node))
    ensures Defined(s, node) ==> Step(s, node) == Step(s, Effect(node))
    ensures IsInert(node) ==> Defined(s, node) && Step(s, node) == s
  {
    hide CloseTool, ValueText, Quote, Trim, TrimTrailing, Unquoted;
  }

  /** The mapper cannot tell a trace from what matters of it. */
  lemma {:induction false} EssentialRun(s: State, nodes: seq<Node>)
    requires s.Valid()
    ensures DefinedFrom(s, nodes) <==> DefinedFrom(s, Essential(nodes))
    ensures DefinedFrom(s, nodes) ==> Run(s, nodes) == Run(s, Essential(nodes))
    decreases |nodes|
  {
    hide Step, Defined, IsInert, Effect;
    if nodes != [] {
      EffectIsSame(s, nodes[0]);
      if Defined(s, nodes[0]) {
        StepKeepsValid(s, nodes[0]);
        EssentialRun(Step(s, nodes[0]), nodes[1..]);
      }
      var e := Essential(nodes);
      if IsInert(nodes[0]) {
        assert e == Essential(nodes[1..]);
      } else {
        assert e[0] == Effect(nodes[0]) && e[1..] == Essential(nodes[1..]);
      }
    }
  }

  lemma {:induction false} EssentialConcat(a: seq<Node>, b: seq<Node>)
    ensures Essential(a + b) == Essential(a) + Essential(b)
    decreases |a|
  {
    hide IsInert, Effect;
    if a == [] {
      assert a + b == b;
    } else {
      assert (a + b)[1..] == a[1..] + b;
      EssentialConcat(a[1..], b);
    }
  }

  /** A trace that is legal in what matters of it. */
  predicate LegalTrace(ph: Phase, nodes: seq<Node>) {
    LegalFrom(ph, Essential(nodes))
  }

  /** Counting nodes that do nothing as well makes no more traces legal. */
  lemma {:induction false} LegalNodesAreLegalTrace(ph: Phase, weaker: Phase, nodes: seq<Node>)
    requires LegalFrom(ph, nodes) && weaker == ph.(hasArgs := weaker.hasArgs) && (weaker.hasArgs ==> ph.hasArgs)
    ensures LegalTrace(weaker, nodes)
    decreases |nodes|
  {
    hide TrimTrailing, Unquoted;
    if nodes != [] {
      var next, e := Next(weaker, Effect(nodes[0])), Essential(nodes);
      if IsInert(nodes[0]) {
        LegalNodesAreLegalTrace(Next(ph, nodes[0]), weaker, nodes[1..]);
        assert e == Essential(nodes[1..]);
      } else {
        LegalNodesAreLegalTrace(Next(ph, nodes[0]), next, nodes[1..]);
        assert e[0] == Effect(nodes[0]) && e[1..] == Essential(nodes[1..]);
      }
    }
  }

  /** Along a legal trace every step is defined and the message grows. */
  lemma LegalRunGrows(s: State, ph: Phase, nodes: seq<Node>)
    requires Tracks(s, ph) && LegalTrace(ph, nodes)
    ensures DefinedFrom(s, nodes) && Grows(Finish(s), Finish(Run(s, nodes)))
  {
    LegalNodesGrow(s, ph, Essential(nodes));
    EssentialRun(s, nodes);
  }

  // ----- Cuts of a trace -----

  /** A node whose text has so far been read only in part. */
  predicate CutNode(a: Node, b: Node) {
    && a.tag == b.tag && a.text <= b.text
    && match a.tag
       case Reasoning | Content | ToolArgs | ArgStringValue => true
       case ArgValue =>
         var q := b.text[|a.text|..];
         !CutsEscapedQuote(a.text, q, Bare) && !CutsFalseConstant(a.text, q, false, Bare)
       case _ => a == b
  }

  /** All nodes but the last are complete. */
  predicate CutsLastNode(p: seq<Node>, q: seq<Node>) {
    p <= q ||
    (p != [] && |p| <= |q| && p[..|p| - 1] <= q && CutNode(p[|p| - 1], q[|p| - 1]))
  }

  /**
    The nodes `p` seen at some moment, when the nodes `q` are seen later. Nodes that only enclose others may grow
    anywhere.
  */
  predicate IsCutOf(p: seq<Node>, q: seq<Node>) {
    CutsLastNode(Essential(p), Essential(q))
  }

  /** The node that encloses all tagged arguments of a call may have any text at either moment. */
  lemma EnclosingNodesMayGrow(before: seq<Node>, a: Node, b: Node, p: seq<Node>, q: seq<Node>)
    requires IsInert(a) && IsInert(b)
    ensures IsCutOf(before + [a] + p, before + [b] + q) <==> IsCutOf(before + p, before + q)
  {
    hide IsInert, Effect, CutsLastNode;
    InertIsDropped(before, a, p);
    InertIsDropped(before, b, q);
    EssentialConcat(before, p);
    EssentialConcat(before, q);
  }

  lemma InertIsDropped(before: seq<Node>, a: Node, p: seq<Node>)
    requires IsInert(a)
    ensures Essential(before + [a] + p) == Essential(before) + Essential(p)
  {
    EssentialConcat(before + [a], p);
    EssentialConcat(before, [a]);
    assert [a][1..] == [] && Essential([a]) == [];
  }

  lemma TrimIsMonotone(a: string, b: string)
    requires a <= b
    ensures TrimTrailing(a) <= TrimTrailing(b)
    decreases |b|
  {
    if a == b {
    } else if IsSpace(b[|b| - 1]) {
      TrimIsMonotone(a, b[..|b| - 1]);
    } else {
      assert TrimTrailing(b) == b;
    }
  }

  /** The value text of a cut argument is a prefix of its final text. */
  lemma CutValueText(s: State, a: Node, b: Node)
    requires CutNode(a, b) && (a.tag == ArgValue || (a.tag == ArgStringValue && !s.quotePending))
    ensures ValueText(s, a) <= ValueText(s, b)
  {
    if a.tag == ArgValue {
      assert b.text == a.text + b.text[|a.text|..];
      PrefixRewritesToPrefix(a.text, b.text[|a.text|..], false, Bare);
    } else {
      EscapeIsMonotone(a.text, b.text);
    }
  }

  lemma CutStepGrows(s: State, ph: Phase, a: Node, b: Node)
    requires Tracks(s, ph) && Legal(ph, b) && CutNode(a, b)
    ensures Legal(ph, a) && Defined(s, a) && Defined(s, b)
    ensures Grows(Finish(Step(s, a)), Finish(Step(s, b)))
  {
    LegalStepIsSafe(s, ph, a);
    LegalStepIsSafe(s, ph, b);
    var sa, sb := Step(s, a), Step(s, b);
    SettledNeverFlushes(sa, Node(Other, ""));
    SettledNeverFlushes(sb, Node(Other, ""));
    if a == b {
    } else if s.current == InResult && IsToolNode(a.tag) {
      OnlyVisibleCallChanges(s, a);
      OnlyVisibleCallChanges(s, b);
      CutCallGrows(s, ph, a, b);
    } else {
      CutTextsGrow(s, a, b);
    }
  }

  lemma CutCallGrows(s: State, ph: Phase, a: Node, b: Node)
    requires Tracks(s, ph) && Legal(ph, b) && CutNode(a, b) && a != b
    requires s.current == InResult && IsToolNode(a.tag)
    ensures Step(s, a).Valid() && Step(s, a).HasTool() && Step(s, b).Valid() && Step(s, b).HasTool()
    ensures CallGrows(Step(s, a).Tool(), Step(s, b).Tool())
  {
    if a.tag == ToolArgs {
      TrimIsMonotone(a.text, b.text);
    } else {
      CutValueText(s, a, b);
      hide ValueText;
      var base := s.Tool().arguments;
      assert Step(s, a).Tool().arguments == base + ValueText(s, a);
      assert Step(s, b).Tool().arguments == base + ValueText(s, b);
      PrefixUnderSame(base, ValueText(s, a), ValueText(s, b));
    }
  }

  /** For a Python-literal value the condition on the cut is exact: any other cut shows text that must be taken back. */
  lemma CutValueGrowsExactly(s: State, a: Node, b: Node)
    requires IsNamed(s) && s.current == InResult
    requires a.tag == ArgValue && b.tag == ArgValue && a.text <= b.text
    ensures Grows(Finish(Step(s, a)), Finish(Step(s, b))) <==> CutNode(a, b)
  {
    var q := b.text[|a.text|..];
    assert b.text == a.text + q;
    PrefixRewritesToPrefix(a.text, q, false, Bare);
    var base := s.Tool().arguments;
    var sa, sb := Step(s, a), Step(s, b);
    PrefixUnderSame(base, ToJson(a.text), ToJson(b.text));
    OnlyVisibleCallChanges(s, a);
    OnlyVisibleCallChanges(s, b);
    SettledIsKept(s, a);
    SettledIsKept(s, b);
    SettledNeverFlushes(sa, Node(Other, ""));
    SettledNeverFlushes(sb, Node(Other, ""));
    BlankReasoningShrinks(sa.reasoning, sb.reasoning);
    assert sa.Tool().arguments == base + ToJson(a.text) && sb.Tool().arguments == base + ToJson(b.text);
    hide Normalize, CutsEscapedQuote, CutsFalseConstant, IsBlank;
  }

  /** A message that does not lose text has deltas only when it grows, if its last call keeps its name. */
  lemma DiffsNeedGrowth(prev: Message, next: Message)
    requires prev.reasoning <= next.reasoning && prev.content <= next.content
    requires prev.calls != [] && |prev.calls| == |next.calls|
    requires forall i :: 0 <= i < |prev.calls| - 1 ==> prev.calls[i] == next.calls[i]
    requires var a, b := prev.calls[|prev.calls| - 1], next.calls[|prev.calls| - 1];
             a.name == b.name && a.id == b.id && |a.arguments| <= |b.arguments|
    ensures DiffsOf(prev, next).Ok? <==> Grows(prev, next)
  {
    DiffsSucceedExactly(prev, next);
    var a, b := prev.calls[|prev.calls| - 1], next.calls[|prev.calls| - 1];
    if b.arguments <= a.arguments {
      assert a.arguments == b.arguments;
    }
  }

  /** The message after a literal value of a visible named call. */
  lemma ShownAfterValue(s: State, a: Node)
    requires IsNamed(s) && s.current == InResult && a.tag == ArgValue
    ensures Finish(Step(s, a))
         == Finish(s).(calls := s.calls[|s.calls| - 1 := s.Tool().(arguments := s.Tool().arguments + ToJson(a.text))])
  {
    hide ToJson, IsBlank;
    OnlyVisibleCallChanges(s, a);
    SettledIsKept(s, a);
    SettledNeverFlushes(Step(s, a), Node(Other, ""));
  }

  /** At any other cut the next delta cannot even be computed: the source throws. */
  lemma CutValueDiffsExactly(s: State, a: Node, b: Node)
    requires IsNamed(s) && s.current == InResult
    requires a.tag == ArgValue && b.tag == ArgValue && a.text <= b.text
    ensures DiffsOf(Finish(Step(s, a)), Finish(Step(s, b))).Ok? <==> CutNode(a, b)
  {
    hide Normalize, CutNode, IsBlank, DiffsOf, Grows, Step, Finish, ToJson;
    CutValueGrowsExactly(s, a, b);
    JsonIsNoShorter(a.text, b.text);
    ShownAfterValue(s, a);
    ShownAfterValue(s, b);
    DiffsNeedGrowth(Finish(Step(s, a)), Finish(Step(s, b)));
  }

  lemma JsonIsNoShorter(a: string, b: string)
    requires a <= b
    ensures |ToJson(a)| <= |ToJson(b)|
  {
    assert b == a + b[|a|..];
    LengthIsMonotone(a, b[|a|..], false, Bare);
  }

  function PhaseAfter(ph: Phase, nodes: seq<Node>): Phase
    decreases |nodes|
  {
    if nodes == [] then ph else PhaseAfter(Next(ph, nodes[0]), nodes[1..])
  }

  lemma {:induction false} CutNodesDiffExactly(s: State, ph: Phase, nodes: seq<Node>, a: Node, b: Node)
    requires Tracks(s, ph) && LegalFrom(ph, nodes + [b]) && PhaseAfter(ph, nodes).tool == Named
    requires a.tag == ArgValue && b.tag == ArgValue && a.text <= b.text
    ensures DefinedFrom(s, nodes + [a]) && DefinedFrom(s, nodes + [b])
    ensures DiffsOf(Finish(Run(s, nodes + [a])), Finish(Run(s, nodes + [b]))).Ok? <==> CutNode(a, b)
    decreases |nodes|
  {
    hide CutNode, DiffsOf, Finish;
    if nodes == [] {
      assert nodes + [a] == [a] && nodes + [b] == [b] && [a][1..] == [] && [b][1..] == [];
      LegalStepIsSafe(s, ph, a);
      LegalStepIsSafe(s, ph, b);
      CutValueDiffsExactly(s, a, b);
    } else {
      assert (nodes + [a])[1..] == nodes[1..] + [a] && (nodes + [b])[1..] == nodes[1..] + [b];
      LegalStepIsSafe(s, ph, nodes[0]);
      CutNodesDiffExactly(Step(s, nodes[0]), Next(ph, nodes[0]), nodes[1..], a, b);
    }
  }

  /** The same over whole runs, for two moments within one literal value of a call that has its name. */
  lemma CutRunDiffsExactly(s: State, ph: Phase, p: seq<Node>, q: seq<Node>, nodes: seq<Node>, a: Node, b: Node)
    requires Essential(p) == nodes + [a] && Essential(q) == nodes + [b]
    requires Tracks(s, ph) && LegalTrace(ph, q) && PhaseAfter(ph, nodes).tool == Named
    requires a.tag == ArgValue && b.tag == ArgValue && a.text <= b.text
    ensures DefinedFrom(s, p) && DefinedFrom(s, q)
    ensures DiffsOf(Finish(Run(s, p)), Finish(Run(s, q))).Ok? <==> CutNode(a, b)
    ensures DiffsOf(Finish(Run(s, p)), Finish(Run(s, q))).Ok? <==> IsCutOf(p, q)
  {
    EssentialRun(s, p);
    EssentialRun(s, q);
    hide Tracks, DiffsOf, Finish;
    CutNodesDiffExactly(s, ph, nodes, a, b);
    CutOfLast(nodes, a, b);
  }

  lemma CutOfLast(nodes: seq<Node>, a: Node, b: Node)
    requires a.tag == ArgValue && b.tag == ArgValue
    ensures CutsLastNode(nodes + [a], nodes + [b]) <==> CutNode(a, b)
  {
    var p, q := nodes + [a], nodes + [b];
    assert p[..|p| - 1] == nodes && p[|p| - 1] == a && q[|p| - 1] == b;
    assert p <= q ==> p[|nodes|] == q[|nodes|];
    if a == b {
      SameIsSafe(a);
    }
  }

  lemma SameIsSafe(a: Node)
    ensures CutNode(a, a)
  {
    if a.tag == ArgValue {
      assert a.text + "" == a.text && a.text[|a.text|..] == "";
      PrefixRewritesToPrefix(a.text, "", false, Bare);
    }
  }

  /** Two such cuts: after the backslash of `'it\\'s'`, and inside the bare word `Trash`. */
  lemma UnsafeCutsExist()
    ensures !CutNode(Node(ArgValue, "'it\\"), Node(ArgValue, "'it\\'s'"))
    ensures !CutNode(Node(ArgValue, "Tr"), Node(ArgValue, "Trash"))
  {
    var b := "'it\\'s'";
    var a := b[..4];
    assert a == "'it\\" && b[4..] == "'s'";
    assert EndsMidEscape(a[3..], Single) && a[1..][1..][1..] == a[3..];
    assert EndsMidEscape(a[1..][1..], Single);
    assert EndsMidEscape(a[1..], Single);
    assert EndsMidEscape(a, Bare);
    var w := "Trash";
    var p := w[..2];
    assert p == "Tr" && w[2..] == "ash";
    WordOfLength2("Tr");
    assert AllWordChars(p) && LastWord(p) == p && Literal(p).Some?;
    var q := w[2..];
    assert WordRun(q) == 3 by {
      assert q[1..] == "sh" && q[2..] == "h" && q[1..][1..] == q[2..] && q[2..][1..] == "";
    }
    assert p + q[..3] == w && Literal(w).None?;
    WordsKeepMode(p, Bare);
  }

  function WithValue(nodes: seq<Node>, text: string): seq<Node> {
    nodes + [Node(ArgValue, text)]
  }

  /** After any legal beginning that ends in a named call, each of the two makes the next delta fail. */
  lemma UnsafeCutsThrow(p: seq<Node>, q: seq<Node>, nodes: seq<Node>, a: string, b: string)
    requires (a, b) in {("'it\\", "'it\\'s'"), ("Tr", "Trash")}
    requires Essential(p) == WithValue(nodes, a) && Essential(q) == WithValue(nodes, b)
    requires LegalTrace(IDLE, q) && PhaseAfter(IDLE, nodes).tool == Named
    ensures DefinedFrom(START, p) && DefinedFrom(START, q) && DiffsOf(MessageOf(p), MessageOf(q)).Err?
  {
    UnsafeCutsExist();
    StartTracks();
    UnsafePrefixes();
    CutRunDiffsExactly(START, IDLE, p, q, nodes, Node(ArgValue, a), Node(ArgValue, b));
  }

  lemma UnsafePrefixes()
    ensures "'it\\" <= "'it\\'s'" && "Tr" <= "Trash"
  {
  }

  lemma WordOfLength2(s: string)
    requires |s| == 2 && IsWordChar(s[0]) && IsWordChar(s[1])
    ensures AllWordChars(s)
  {
    assert s[1..][1..] == "" && s[1..][0] == s[1];
  }

  lemma CutTextsGrow(s: State, a: Node, b: Node)
    requires IsNamed(s) && Defined(s, a) && Defined(s, b) && CutNode(a, b) && a != b
    requires s.current != InResult || !IsToolNode(a.tag)
    ensures Grows(Finish(Step(s, a)), Finish(Step(s, b)))
  {
    hide ValueText, TrimTrailing;
    var sa, sb := Step(s, a), Step(s, b);
    SettledIsKept(s, a);
    SettledIsKept(s, b);
    SettledNeverFlushes(sa, Node(Other, ""));
    SettledNeverFlushes(sb, Node(Other, ""));
    assert sa.calls == sb.calls == s.calls;
    BlankReasoningShrinks(sa.reasoning, sb.reasoning);
  }

  lemma {:induction false} CutNodesGrow(s: State, ph: Phase, p: seq<Node>, q: seq<Node>)
    requires Tracks(s, ph) && LegalFrom(ph, q) && CutsLastNode(p, q)
    ensures LegalFrom(ph, p) && DefinedFrom(s, p) && DefinedFrom(s, q)
    ensures Grows(Finish(Run(s, p)), Finish(Run(s, q)))
    decreases |p|
  {
    if p == [] {
      LegalNodesGrow(s, ph, q);
    } else if p[0] == q[0] {
      LegalStepIsSafe(s, ph, q[0]);
      TailIsCut(p, q);
      CutNodesGrow(Step(s, q[0]), Next(ph, q[0]), p[1..], q[1..]);
    } else {
      CutAtHead(s, ph, p, q);
    }
  }

  lemma TailIsCut(p: seq<Node>, q: seq<Node>)
    requires p != [] && CutsLastNode(p, q) && p[0] == q[0]
    ensures CutsLastNode(p[1..], q[1..])
  {
    if !(p <= q) {
      assert p[1..][..|p[1..]| - 1] == p[..|p| - 1][1..];
    }
  }

  lemma LongCutsAgree(p: seq<Node>, q: seq<Node>)
    requires |p| > 1 && CutsLastNode(p, q)
    ensures p[0] == q[0]
  {
    if !(p <= q) {
      assert p[..|p| - 1][0] == p[0];
    }
  }

  lemma CutAtHead(s: State, ph: Phase, p: seq<Node>, q: seq<Node>)
    requires Tracks(s, ph) && LegalFrom(ph, q) && CutsLastNode(p, q) && p != [] && p[0] != q[0]
    ensures LegalFrom(ph, p) && DefinedFrom(s, p) && DefinedFrom(s, q)
    ensures Grows(Finish(Run(s, p)), Finish(Run(s, q)))
  {
    if |p| > 1 {
      LongCutsAgree(p, q);
    }
    assert p[1..] == [];
    var a, b := p[0], q[0];
    CutStepGrows(s, ph, a, b);
    LegalStepIsSafe(s, ph, a);
    LegalStepIsSafe(s, ph, b);
    LegalNodesGrow(Step(s, b), Next(ph, b), q[1..]);
    hide Tracks, Step, Finish, Legal, Next;
    GrowsIsTransitive(Finish(Step(s, a)), Finish(Step(s, b)), Finish(Run(Step(s, b), q[1..])));
  }

  /** The message mapped from a cut of a legal trace grows into the message mapped from the trace. */
  lemma CutGrows(s: State, ph: Phase, p: seq<Node>, q: seq<Node>)
    requires Tracks(s, ph) && LegalTrace(ph, q) && IsCutOf(p, q)
    ensures LegalTrace(ph, p) && DefinedFrom(s, p) && DefinedFrom(s, q)
    ensures Grows(Finish(Run(s, p)), Finish(Run(s, q)))
  {
    CutNodesGrow(s, ph, Essential(p), Essential(q));
    EssentialRun(s, p);
    EssentialRun(s, q);
  }

  lemma StartTracks()
    ensures Tracks(START, IDLE)
  {
  }

  /** The message a reader holds after the nodes `p`. */
  function MessageOf(p: seq<Node>): Message
    requires DefinedFrom(START, p)
  {
    Finish(Run(START, p))
  }

  /** One moment of a stream against a later one: text grows, finished calls stay, the last call grows. */
  lemma StreamedMessagesGrow(p: seq<Node>, q: seq<Node>)
    requires LegalTrace(IDLE, q) && IsCutOf(p, q)
    ensures LegalTrace(IDLE, p) && DefinedFrom(START, p) && DefinedFrom(START, q)
    ensures Grows(MessageOf(p), MessageOf(q))
  {
    StartTracks();
    CutGrows(START, IDLE, p, q);
  }

  /** Successive moments of one stream, the last of them legal. */
  predicate IsStream(stages: seq<seq<Node>>) {
    && stages != []
    && LegalTrace(IDLE, stages[|stages| - 1])
    && forall i :: 0 <= i < |stages| - 1 ==> IsCutOf(stages[i], stages[i + 1])
  }

  lemma {:induction false} StagesAreLegal(stages: seq<seq<Node>>, i: nat)
    requires IsStream(stages) && i < |stages|
    ensures LegalTrace(IDLE, stages[i]) && DefinedFrom(START, stages[i])
    decreases |stages| - i
  {
    if i == |stages| - 1 {
      assert IsCutOf(stages[i], stages[i]);
      StreamedMessagesGrow(stages[i], stages[i]);
    } else {
      StagesAreLegal(stages, i + 1);
      assert IsCutOf(stages[i], stages[i + 1]);
      StreamedMessagesGrow(stages[i], stages[i + 1]);
    }
  }

  /** The messages shown along a stream, from its `i`-th moment on. */
  function Messages(stages: seq<seq<Node>>): (ms: seq<Message>)
    requires forall i :: 0 <= i < |stages| ==> DefinedFrom(START, stages[i])
    ensures |ms| == |stages| && forall i :: 0 <= i < |stages| ==> ms[i] == MessageOf(stages[i])
  {
    if stages == [] then [] else [MessageOf(stages[0])] + Messages(stages[1..])
  }

  /**
    The streaming promise: when every moment is a cut of the next that `IsCutOf` admits, computing deltas between
    successive messages never fails, and a client that applies all of them to an empty message ends with the final
    message. `CutRunDiffsExactly` says that at a literal value of a named call no weaker condition would do.
  */
  lemma StreamReachesFinalMessage(stages: seq<seq<Node>>)
    requires IsStream(stages) && stages[0] == []
    ensures forall i :: 0 <= i < |stages| ==> DefinedFrom(START, stages[i])
    ensures var ms := Messages(stages);
            && AllDiffs(ms).Ok?
            && ApplyAll(EMPTY, AllDiffs(ms).value) == MessageOf(stages[|stages| - 1])
  {
    forall i | 0 <= i < |stages|
      ensures DefinedFrom(START, stages[i])
    {
      StagesAreLegal(stages, i);
    }
    var ms := Messages(stages);
    forall i | 0 <= i < |ms| - 1
      ensures Grows(ms[i], ms[i + 1])
    {
      StagesAreLegal(stages, i + 1);
      assert IsCutOf(stages[i], stages[i + 1]);
      StreamedMessagesGrow(stages[i], stages[i + 1]);
    }
    ClientFollowsRun(ms);
    assert MessageOf([]) == EMPTY;
  }
}
