/**
  Whole replies: thoughts, text and finished calls in any number and order, each call with arguments, raw or tagged,
  and perhaps an id. The message that is mapped from such a reply says exactly what its pieces say.
*/
module WholeReplies {
  import opened Wrappers
  import opened JsonText
  import opened ChatMessage
  import opened ToolCallMapper
  import opened ToolArguments

  datatype Piece =
    | Thought(text: string)
    | Said(text: string)
    | Tagged(name: string, id: Option<string>, args: seq<Argument>)
    | Raw(name: string, id: Option<string>, json: string)

  predicate IsCall(p: Piece) {
    p.Tagged? || p.Raw?
  }

  /** A call has a name; raw arguments begin with a brace. */
  predicate WellFormedPiece(p: Piece) {
    && (IsCall(p) ==> TrimTrailing(p.name) != "")
    && (p.Raw? ==> StartsObject(TrimTrailing(p.json)))
  }

  function IdNodes(id: Option<string>): seq<Node> {
    if id.None? then [] else [Node(ToolId, id.value)]
  }

  /** What stands between the name of a call, with its id, and the end of the call. */
  function BodyNodes(p: Piece): seq<Node>
    requires IsCall(p)
  {
    if p.Tagged? then AllArgumentNodes(p.args) else [Node(ToolArgs, p.json)]
  }

  function PieceNodes(p: Piece): seq<Node> {
    match p
    case Thought(text) => [Node(Reasoning, text)]
    case Said(text) => [Node(Content, text)]
    case _ =>
      [Node(ToolOpen, ""), Node(ToolName, p.name)] + IdNodes(p.id) + (BodyNodes(p) + [Node(ToolClose, "")])
  }

  function ReplyNodes(ps: seq<Piece>): seq<Node> {
    if ps == [] then [] else PieceNodes(ps[0]) + ReplyNodes(ps[1..])
  }

  // ----- What the message should be -----

  function Closed(arguments: string): string {
    arguments + Repeat('}', BraceDepth(arguments))
  }

  function CallOf(p: Piece): ToolCall
    requires IsCall(p)
  {
    ToolCall(TrimTrailing(p.name),
             Closed(if p.Tagged? then OpenArguments(p.args) else TrimTrailing(p.json)),
             if p.id.None? then "" else Unquoted(TrimTrailing(p.id.value)))
  }

  function CallsOf(ps: seq<Piece>): seq<ToolCall> {
    if ps == [] then [] else (if IsCall(ps[0]) then [CallOf(ps[0])] else []) + CallsOf(ps[1..])
  }

  function SaidIn(ps: seq<Piece>): string {
    if ps == [] then "" else (if ps[0].Said? then ps[0].text else "") + SaidIn(ps[1..])
  }

  function ThoughtIn(ps: seq<Piece>): string {
    if ps == [] then "" else (if ps[0].Thought? then ps[0].text else "") + ThoughtIn(ps[1..])
  }

  // ----- The id of a call changes nothing else -----

  predicate IsFilling(s: State) {
    s.Valid() && s.current == InResult && s.calls[|s.calls| - 1].name != ""
  }

  function WithId(s: State, id: string): State
    requires s.calls != []
  {
    var n := |s.calls| - 1;
    s.(calls := s.calls[n := s.calls[n].(id := id)])
  }

  predicate Fills(node: Node) {
    node.tag in {ToolArgs, ArgOpen, ArgClose, ArgName, ArgValue, ArgStringValue, ToolClose}
  }

  lemma IdStays(s: State, id: string, node: Node)
    requires IsFilling(s) && Fills(node)
    ensures IsFilling(WithId(s, id)) && IsFilling(Step(s, node)) && Step(s, node).calls != []
    ensures Step(WithId(s, id), node) == WithId(Step(s, node), id)
  {
    SameText(s, WithId(s, id), node);
    hide Trim, TrimTrailing, Quote, ValueText, BraceDepth, Repeat;
    var n := |s.calls| - 1;
    SetTwice(s.calls, n, WithId(s, id).calls[n], Step(WithId(s, id), node).calls[n]);
    SetTwice(s.calls, n, Step(s, node).calls[n], Step(s, node).calls[n].(id := id));
    match node.tag
    case ToolArgs | ArgOpen | ArgClose | ArgName | ArgValue | ArgStringValue | ToolClose =>
  }

  lemma SetTwice<T>(a: seq<T>, n: nat, x: T, y: T)
    requires n < |a|
    ensures a[n := x][n := y] == a[n := y]
  {
  }

  lemma SameText(s: State, s': State, node: Node)
    requires s.quotePending == s'.quotePending
    ensures ValueText(s, node) == ValueText(s', node)
  {
  }

  lemma {:induction false} IdStaysAlong(s: State, id: string, nodes: seq<Node>)
    requires IsFilling(s) && forall i :: 0 <= i < |nodes| ==> Fills(nodes[i])
    ensures DefinedFrom(s, nodes) && IsFilling(WithId(s, id)) && DefinedFrom(WithId(s, id), nodes)
    ensures IsFilling(Run(s, nodes)) && Run(WithId(s, id), nodes) == WithId(Run(s, nodes), id)
    decreases |nodes|
  {
    hide Step, Fills;
    if nodes != [] {
      IdStays(s, id, nodes[0]);
      FillingIsDefined(s, nodes[0]);
      FillingIsDefined(WithId(s, id), nodes[0]);
      IdStaysAlong(Step(s, nodes[0]), id, nodes[1..]);
    }
  }

  lemma FillingIsDefined(s: State, node: Node)
    requires IsFilling(s)
    ensures Defined(s, node)
  {
  }

  lemma {:induction false} ArgumentsFill(args: seq<Argument>)
    ensures forall i :: 0 <= i < |AllArgumentNodes(args)| ==> Fills(AllArgumentNodes(args)[i])
    decreases |args|
  {
    if args != [] {
      ArgumentsFill(args[..|args| - 1]);
    }
  }

  // ----- One call -----

  /** The body of a call and its end, when it has no id. */
  lemma BodyIsRun(s: State, p: Piece)
    requires s.Settled() && IsCall(p) && WellFormedPiece(p)
    ensures var f, nodes := Filling(s, TrimTrailing(p.name), "{", 0), BodyNodes(p) + [Node(ToolClose, "")];
            && IsFilling(f) && (forall i :: 0 <= i < |nodes| ==> Fills(nodes[i])) && DefinedFrom(f, nodes)
            && exists count: nat :: Run(f, nodes) == Filling(s, TrimTrailing(p.name), CallOf(p).arguments, count)
  {
    var n, cl := TrimTrailing(p.name), Node(ToolClose, "");
    var f := Filling(s, n, "{", 0);
    if p.Tagged? {
      ArgumentsFill(p.args);
      ArgumentsArePrinted(s, n, p.args);
      var g := Filling(s, n, OpenArguments(p.args), |p.args|);
      ClosingStep(s, n, OpenArguments(p.args), |p.args|);
      RunOne(g, cl);
      hide Step;
      RunConcat(f, AllArgumentNodes(p.args), [cl]);
      assert Run(f, BodyNodes(p) + [cl]) == Filling(s, n, CallOf(p).arguments, |p.args|);
    } else {
      var raw := Node(ToolArgs, p.json);
      RawStep(s, n, p.json);
      var g := Filling(s, n, TrimTrailing(p.json), 0);
      ClosingStep(s, n, TrimTrailing(p.json), 0);
      RunOne(f, raw);
      RunOne(g, cl);
      hide Step;
      RunConcat(f, [raw], [cl]);
      assert Run(f, BodyNodes(p) + [cl]) == Filling(s, n, CallOf(p).arguments, 0);
    }
  }

  lemma RawStep(s: State, name: string, json: string)
    requires name != "" && StartsObject(TrimTrailing(json))
    ensures Step(Filling(s, name, "{", 0), Node(ToolArgs, json)) == Filling(s, name, TrimTrailing(json), 0)
  {
    hide TrimTrailing;
    var f := Filling(s, name, "{", 0);
    assert forall t: ToolCall :: f.calls[|f.calls| - 1 := t] == s.calls + [t];
  }

  /** What running a piece must do. */
  ghost predicate Reads(s: State, nodes: seq<Node>, calls: seq<ToolCall>, thought: string, said: string)
    requires s.Valid()
  {
    && DefinedFrom(s, nodes)
    && var s' := Run(s, nodes);
       && s'.Settled() && s'.calls == s.calls + calls
       && s'.reasoning == s.reasoning + thought && s'.content == s.content + said
  }

  lemma CallIsRead(s: State, p: Piece)
    requires s.Settled() && IsCall(p) && WellFormedPiece(p)
    ensures Reads(s, PieceNodes(p), [CallOf(p)], "", "")
  {
    var n, o, nm := TrimTrailing(p.name), Node(ToolOpen, ""), Node(ToolName, p.name);
    var f, nodes := Filling(s, n, "{", 0), BodyNodes(p) + [Node(ToolClose, "")];
    RunOne(s, o);
    RunOne(Step(s, o), nm);
    RunConcat(s, [o], [nm]);
    assert [o] + [nm] == [o, nm] && Run(s, [o, nm]) == f;
    BodyIsRun(s, p);
    var count: nat :| Run(f, nodes) == Filling(s, n, CallOf(p).arguments, count);
    hide BodyNodes, Fills;
    if p.id.None? {
      assert [o, nm] + [] == [o, nm];
      hide Step;
      RunConcat(s, [o, nm], nodes);
      FilledIsSettled(s, CallOf(p), count);
    } else {
      NamedCallTakesId(s, p, f, nodes, count);
    }
  }

  lemma FilledIsSettled(s: State, t: ToolCall, count: nat)
    requires s.Settled() && t.name != "" && t.id == ""
    ensures var g := Filling(s, t.name, t.arguments, count);
            g.Settled() && g.calls == s.calls + [t] && g.reasoning == s.reasoning + "" && g.content == s.content + ""
  {
  }

  lemma NamedCallTakesId(s: State, p: Piece, f: State, nodes: seq<Node>, count: nat)
    requires s.Settled() && IsCall(p) && WellFormedPiece(p) && p.id.Some?
    requires f == Filling(s, TrimTrailing(p.name), "{", 0) && IsFilling(f)
    requires nodes == BodyNodes(p) + [Node(ToolClose, "")] && forall i :: 0 <= i < |nodes| ==> Fills(nodes[i])
    requires DefinedFrom(f, nodes) && Run(f, nodes) == Filling(s, TrimTrailing(p.name), CallOf(p).arguments, count)
    requires var start := [Node(ToolOpen, ""), Node(ToolName, p.name)]; DefinedFrom(s, start) && Run(s, start) == f
    ensures Reads(s, PieceNodes(p), [CallOf(p)], "", "")
  {
    var n, id := TrimTrailing(p.name), Unquoted(TrimTrailing(p.id.value));
    var start, tag := [Node(ToolOpen, ""), Node(ToolName, p.name)], Node(ToolId, p.id.value);
    IdStep(f, p.id.value);
    RunOne(f, tag);
    hide Step, Fills, BodyNodes, TrimTrailing, Unquoted, CallOf;
    IdStaysAlong(f, id, nodes);
    RunConcat(s, start, [tag]);
    RunConcat(s, start + [tag], nodes);
    IdOfFilled(s, n, CallOf(p).arguments, count, id);
    assert CallOf(p) == ToolCall(n, CallOf(p).arguments, id) by { CallHasId(p); }
  }

  lemma CallHasId(p: Piece)
    requires IsCall(p) && p.id.Some?
    ensures CallOf(p).name == TrimTrailing(p.name) && CallOf(p).id == Unquoted(TrimTrailing(p.id.value))
  {
  }

  lemma IdStep(f: State, id: string)
    requires IsFilling(f)
    ensures Step(f, Node(ToolId, id)) == WithId(f, Unquoted(TrimTrailing(id)))
  {
    hide TrimTrailing, Unquoted;
  }

  lemma IdOfFilled(s: State, name: string, arguments: string, count: nat, id: string)
    requires s.Settled() && name != ""
    ensures var g := WithId(Filling(s, name, arguments, count), id);
            && g.Settled() && g.calls == s.calls + [ToolCall(name, arguments, id)]
            && g.reasoning == s.reasoning + "" && g.content == s.content + ""
  {
  }

  // ----- The whole reply -----

  lemma TextIsRead(s: State, p: Piece)
    requires s.Settled() && !IsCall(p)
    ensures Reads(s, PieceNodes(p), [], ThoughtIn([p]), SaidIn([p]))
  {
    var node := PieceNodes(p)[0];
    RunOne(s, node);
    SettledIsKept(s, node);
    StepTexts(s, node);
    assert [p][1..] == [];
  }

  lemma {:induction false} ReplyIsRun(s: State, ps: seq<Piece>)
    requires s.Settled() && forall i :: 0 <= i < |ps| ==> WellFormedPiece(ps[i])
    ensures Reads(s, ReplyNodes(ps), CallsOf(ps), ThoughtIn(ps), SaidIn(ps))
    decreases |ps|
  {
    if ps != [] {
      var p, rest := ps[0], ps[1..];
      var calls := if IsCall(p) then [CallOf(p)] else [];
      var thought, said := if p.Thought? then p.text else "", if p.Said? then p.text else "";
      if IsCall(p) {
        CallIsRead(s, p);
      } else {
        TextIsRead(s, p);
        assert [p][1..] == [] && thought + "" == thought && said + "" == said;
      }
      hide PieceNodes, CallOf, IsCall, WellFormedPiece;
      var s' := Run(s, PieceNodes(p));
      ReplyIsRun(s', rest);
      RunConcat(s, PieceNodes(p), ReplyNodes(rest));
      Joined(s.calls, calls, CallsOf(rest));
      Joined(s.reasoning, thought, ThoughtIn(rest));
      Joined(s.content, said, SaidIn(rest));
    }
  }

  lemma Joined<T>(a: seq<T>, b: seq<T>, c: seq<T>)
    ensures (a + b) + c == a + (b + c)
  {
  }

  /** The message of a reply: its calls in order, with names, arguments and ids, its text, and its thoughts. */
  lemma WholeReplyIsRead(ps: seq<Piece>)
    requires forall i :: 0 <= i < |ps| ==> WellFormedPiece(ps[i])
    ensures DefinedFrom(START, ReplyNodes(ps))
    ensures Finish(Run(START, ReplyNodes(ps)))
         == Message(if IsBlank(ThoughtIn(ps)) then "" else ThoughtIn(ps), SaidIn(ps), CallsOf(ps))
  {
    hide ReplyNodes, CallsOf, ThoughtIn, SaidIn, IsBlank, WellFormedPiece, Run, DefinedFrom;
    ReplyIsRun(START, ps);
    MessageOfSettled(Run(START, ReplyNodes(ps)));
    FromNothing(CallsOf(ps));
    FromNothing(ThoughtIn(ps));
    FromNothing(SaidIn(ps));
  }

  lemma FromNothing<T>(a: seq<T>)
    ensures [] + a == a
  {
  }

  lemma MessageOfSettled(s: State)
    requires s.Settled()
    ensures Finish(s) == Message(if IsBlank(s.reasoning) then "" else s.reasoning, s.content, s.calls)
  {
    SettledNeverFlushes(s, Node(Other, ""));
  }
}
