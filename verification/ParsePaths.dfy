/**
  Where in a parse the mapper of `MiniMax` looks, told by paths: the outermost nodes with certain tags, and the first
  node with a tag within a few levels. A path gives the place of a node among its siblings, from the roots down.
*/
module ParsePaths {
  import opened Wrappers
  import opened Basics
  import opened ChatMessage
  import opened MiniMax

  type Path = seq<nat>

  predicate HasPath(nodes: seq<Ast>, p: Path)
    decreases |p|
  {
    p != [] && p[0] < |nodes| && (|p| == 1 || HasPath(nodes[p[0]].children, p[1..]))
  }

  function NodeAt(nodes: seq<Ast>, p: Path): Ast
    requires HasPath(nodes, p)
    decreases |p|
  {
    if |p| == 1 then nodes[p[0]] else NodeAt(nodes[p[0]].children, p[1..])
  }

  /** Preorder: a node comes before those below it, and before its later siblings and all below them. */
  predicate Before(p: Path, q: Path)
    decreases |p|
  {
    q != [] && (p == [] || p[0] < q[0] || (p[0] == q[0] && Before(p[1..], q[1..])))
  }

  /** The path leads to a node with one of the tags, and passes none on its way. */
  predicate IsOutermost(nodes: seq<Ast>, p: Path, tags: set<Tag>)
    decreases |p|
  {
    p != [] && p[0] < |nodes| &&
    var node := nodes[p[0]];
    if |p| == 1 then node.tag in tags else node.tag !in tags && IsOutermost(node.children, p[1..], tags)
  }

  predicate IsSorted(ps: seq<Path>) {
    forall i, j :: 0 <= i < j < |ps| ==> Before(ps[i], ps[j])
  }

  /** The paths to all outermost nodes with one of the tags, in preorder. */
  ghost predicate Lists(nodes: seq<Ast>, tags: set<Tag>, ps: seq<Path>) {
    IsSorted(ps) && forall p :: p in ps <==> IsOutermost(nodes, p, tags)
  }

  lemma {:induction false} OutermostHasPath(nodes: seq<Ast>, p: Path, tags: set<Tag>)
    requires IsOutermost(nodes, p, tags)
    ensures HasPath(nodes, p) && NodeAt(nodes, p).tag in tags
    decreases |p|
  {
    if |p| > 1 {
      OutermostHasPath(nodes[p[0]].children, p[1..], tags);
    }
  }

  /** The nodes at such paths. */
  function NodesAt(nodes: seq<Ast>, ps: seq<Path>): seq<Ast>
    requires AllHavePaths(nodes, ps)
  {
    seq(|ps|, i requires 0 <= i < |ps| => NodeAt(nodes, ps[i]))
  }

  // ----- There is only one such list -----

  lemma {:induction false} BeforeIsStrict(p: Path, q: Path)
    requires Before(p, q)
    ensures p != q && !Before(q, p)
    decreases |p|
  {
    if p != [] && p[0] == q[0] {
      BeforeIsStrict(p[1..], q[1..]);
    }
  }

  lemma {:induction false} SortedIsUnique(a: seq<Path>, b: seq<Path>)
    requires IsSorted(a) && IsSorted(b) && forall p :: p in a <==> p in b
    ensures a == b
    decreases |a|
  {
    assert b != [] ==> b[0] in a;
    if a != [] {
      assert a[0] in b;
      FirstsAgree(a, b);
      forall p ensures p in a[1..] <==> p in b[1..] {
        TailHasOthers(a, p);
        TailHasOthers(b, p);
      }
      SortedIsUnique(a[1..], b[1..]);
      assert a == [a[0]] + a[1..] && b == [b[0]] + b[1..];
    }
  }

  lemma FirstsAgree(a: seq<Path>, b: seq<Path>)
    requires IsSorted(a) && IsSorted(b) && a != [] && b != [] && a[0] in b && b[0] in a
    ensures a[0] == b[0]
  {
    var i :| 0 <= i < |a| && a[i] == b[0];
    var j :| 0 <= j < |b| && b[j] == a[0];
    if i > 0 && j > 0 {
      assert Before(a[0], a[i]) && Before(b[0], b[j]);
      BeforeIsStrict(a[0], b[0]);
    }
  }

  lemma TailHasOthers(a: seq<Path>, p: Path)
    requires IsSorted(a) && a != []
    ensures p in a[1..] <==> p in a && p != a[0]
  {
    if p in a[1..] {
      var i :| 0 <= i < |a[1..]| && a[1..][i] == p;
      assert Before(a[0], a[i + 1]);
      BeforeIsStrict(a[0], p);
    }
    if p in a && p != a[0] {
      var i :| 0 <= i < |a| && a[i] == p;
      assert a[1..][i - 1] == p;
    }
  }

  // ----- The search that the source makes -----

  /** The outermost nodes, by going through the nodes and below those that do not count. */
  function Outermost(nodes: seq<Ast>, tags: set<Tag>): seq<Ast> {
    if nodes == [] then []
    else
      (if nodes[0].tag in tags then [nodes[0]] else Outermost(nodes[0].children, tags)) + Outermost(nodes[1..], tags)
  }

  function Under(ps: seq<Path>): (r: seq<Path>)
    ensures |r| == |ps| && forall i :: 0 <= i < |ps| ==> r[i] == [0] + ps[i]
  {
    seq(|ps|, i requires 0 <= i < |ps| => [0] + ps[i])
  }

  function Later(ps: seq<Path>): (r: seq<Path>)
    requires AllProper(ps)
    ensures |r| == |ps| && forall i :: 0 <= i < |ps| ==> r[i] == NextTree(ps[i])
  {
    seq(|ps|, i requires 0 <= i < |ps| => NextTree(ps[i]))
  }

  predicate AllProper(ps: seq<Path>) {
    forall i :: 0 <= i < |ps| ==> ps[i] != []
  }

  /** The same place one tree further. */
  function NextTree(p: Path): (q: Path)
    requires p != []
    ensures |q| == |p| && q[0] == p[0] + 1 && q[1..] == p[1..]
  {
    [p[0] + 1] + p[1..]
  }

  function Paths(nodes: seq<Ast>, tags: set<Tag>): (ps: seq<Path>)
    ensures AllProper(ps)
  {
    if nodes == [] then []
    else
      (if nodes[0].tag in tags then [[0]] else Under(Paths(nodes[0].children, tags)))
      + Later(Paths(nodes[1..], tags))
  }

  lemma {:induction false} PathsAreOutermost(nodes: seq<Ast>, tags: set<Tag>, p: Path)
    ensures p in Paths(nodes, tags) <==> IsOutermost(nodes, p, tags)
    decreases nodes, |p|
  {
    if nodes != [] && p != [] {
      var first, rest := nodes[0], nodes[1..];
      var below := if first.tag in tags then [[0]] else Under(Paths(first.children, tags));
      if p[0] == 0 {
        NotLater(Paths(rest, tags), p);
        assert Paths(nodes, tags) == below + Later(Paths(rest, tags));
        if first.tag in tags {
          assert p in below <==> p == [0];
          assert p == [0] <==> |p| == 1;
        } else {
          PathsAreOutermost(first.children, tags, p[1..]);
          OnlyUnder(Paths(first.children, tags), p);
        }
      } else {
        var q := [p[0] - 1] + p[1..];
        PathsAreOutermost(rest, tags, q);
        OnlyLater(Paths(rest, tags), p);
        assert forall r :: r in below ==> r[0] == 0;
        if p[0] < |nodes| {
          assert rest[q[0]] == nodes[p[0]] && q[1..] == p[1..];
        }
      }
    }
  }

  lemma OnlyUnder(ps: seq<Path>, p: Path)
    requires p != [] && p[0] == 0
    ensures p in Under(ps) <==> p[1..] in ps
  {
    if p in Under(ps) {
      var i :| 0 <= i < |ps| && Under(ps)[i] == p;
      assert p[1..] == ps[i];
    }
    if p[1..] in ps {
      var i :| 0 <= i < |ps| && ps[i] == p[1..];
      assert Under(ps)[i] == p;
    }
  }

  lemma OnlyLater(ps: seq<Path>, p: Path)
    requires p != [] && p[0] > 0 && AllProper(ps)
    ensures p in Later(ps) <==> [p[0] - 1] + p[1..] in ps
  {
    var q := [p[0] - 1] + p[1..];
    if p in Later(ps) {
      var i :| 0 <= i < |ps| && Later(ps)[i] == p;
      assert NextTree(ps[i]) == p && ps[i] == [ps[i][0]] + ps[i][1..];
    }
    if q in ps {
      var i :| 0 <= i < |ps| && ps[i] == q;
      assert Later(ps)[i] == p;
    }
  }

  lemma NotLater(ps: seq<Path>, p: Path)
    requires p != [] && p[0] == 0 && AllProper(ps)
    ensures p !in Later(ps)
  {
    assert forall i :: 0 <= i < |ps| ==> Later(ps)[i] == NextTree(ps[i]);
  }

  lemma {:induction false} PathsAreSorted(nodes: seq<Ast>, tags: set<Tag>)
    ensures IsSorted(Paths(nodes, tags))
    decreases nodes
  {
    if nodes != [] {
      var below := if nodes[0].tag in tags then [[0]] else Under(Paths(nodes[0].children, tags));
      var later := Later(Paths(nodes[1..], tags));
      PathsAreSorted(nodes[1..], tags);
      LaterIsSorted(Paths(nodes[1..], tags));
      if nodes[0].tag !in tags {
        PathsAreSorted(nodes[0].children, tags);
        UnderIsSorted(Paths(nodes[0].children, tags));
      }
      assert forall i :: 0 <= i < |below| ==> below[i] != [] && below[i][0] == 0;
      assert forall i :: 0 <= i < |later| ==> later[i] != [] && later[i][0] > 0;
    }
  }

  lemma UnderIsSorted(ps: seq<Path>)
    requires IsSorted(ps)
    ensures IsSorted(Under(ps))
  {
    forall i, j | 0 <= i < j < |ps| ensures Before(Under(ps)[i], Under(ps)[j]) {
      assert Before(ps[i], ps[j]);
      assert ([0] + ps[i])[1..] == ps[i] && ([0] + ps[j])[1..] == ps[j];
    }
  }

  lemma LaterIsSorted(ps: seq<Path>)
    requires IsSorted(ps) && AllProper(ps)
    ensures IsSorted(Later(ps))
  {
    forall i, j | 0 <= i < j < |ps| ensures Before(Later(ps)[i], Later(ps)[j]) {
      assert Before(ps[i], ps[j]);
      assert Later(ps)[i][1..] == ps[i][1..] && Later(ps)[j][1..] == ps[j][1..];
    }
  }

  predicate AllHavePaths(nodes: seq<Ast>, ps: seq<Path>) {
    forall i :: 0 <= i < |ps| ==> HasPath(nodes, ps[i])
  }

  lemma PathsLead(nodes: seq<Ast>, tags: set<Tag>)
    ensures AllHavePaths(nodes, Paths(nodes, tags))
  {
    var ps := Paths(nodes, tags);
    forall i | 0 <= i < |ps| ensures HasPath(nodes, ps[i]) {
      PathsAreOutermost(nodes, tags, ps[i]);
      OutermostHasPath(nodes, ps[i], tags);
    }
  }

  lemma {:induction false} OutermostAreAtPaths(nodes: seq<Ast>, tags: set<Tag>)
    ensures AllHavePaths(nodes, Paths(nodes, tags))
    ensures Outermost(nodes, tags) == NodesAt(nodes, Paths(nodes, tags))
    decreases nodes
  {
    PathsLead(nodes, tags);
    if nodes != [] {
      var ps, qs := Paths(nodes[0].children, tags), Paths(nodes[1..], tags);
      OutermostAreAtPaths(nodes[0].children, tags);
      OutermostAreAtPaths(nodes[1..], tags);
      var below := if nodes[0].tag in tags then [[0]] else Under(ps);
      assert Paths(nodes, tags) == below + Later(qs);
      hide Paths, HasPath, NodeAt, NodesAt, Under, Later, AllHavePaths;
      LaterNodes(nodes, qs);
      if nodes[0].tag in tags {
        RootAlone(nodes);
      } else {
        UnderNodes(nodes, ps);
      }
      NodesAtBoth(nodes, below, Later(qs));
    }
  }

  lemma RootAlone(nodes: seq<Ast>)
    requires nodes != []
    ensures AllHavePaths(nodes, [[0]]) && NodesAt(nodes, [[0]]) == [nodes[0]]
  {
  }

  lemma NodesAtBoth(nodes: seq<Ast>, ps: seq<Path>, qs: seq<Path>)
    requires AllHavePaths(nodes, ps) && AllHavePaths(nodes, qs)
    ensures AllHavePaths(nodes, ps + qs) && NodesAt(nodes, ps + qs) == NodesAt(nodes, ps) + NodesAt(nodes, qs)
  {
    hide HasPath, NodeAt;
  }

  lemma UnderNodes(nodes: seq<Ast>, ps: seq<Path>)
    requires nodes != [] && AllHavePaths(nodes[0].children, ps)
    ensures AllHavePaths(nodes, Under(ps)) && NodesAt(nodes, Under(ps)) == NodesAt(nodes[0].children, ps)
  {
    forall i | 0 <= i < |ps|
      ensures HasPath(nodes, Under(ps)[i]) && NodeAt(nodes, Under(ps)[i]) == NodeAt(nodes[0].children, ps[i])
    {
      assert Under(ps)[i][1..] == ps[i];
    }
  }

  lemma LaterNodes(nodes: seq<Ast>, ps: seq<Path>)
    requires nodes != [] && AllHavePaths(nodes[1..], ps)
    ensures AllProper(ps)
    ensures AllHavePaths(nodes, Later(ps)) && NodesAt(nodes, Later(ps)) == NodesAt(nodes[1..], ps)
  {
    forall i | 0 <= i < |ps| ensures ps[i] != [] {
      assert HasPath(nodes[1..], ps[i]);
    }
    forall i | 0 <= i < |ps|
      ensures HasPath(nodes, Later(ps)[i]) && NodeAt(nodes, Later(ps)[i]) == NodeAt(nodes[1..], ps[i])
    {
      assert HasPath(nodes[1..], ps[i]);
      assert Later(ps)[i][1..] == ps[i][1..];
    }
  }

  /** The search finds the nodes at any list of all outermost paths. */
  lemma SearchFindsListed(nodes: seq<Ast>, tags: set<Tag>, ps: seq<Path>)
    requires Lists(nodes, tags, ps)
    ensures AllHavePaths(nodes, ps)
    ensures Outermost(nodes, tags) == NodesAt(nodes, ps)
  {
    forall p ensures p in ps <==> p in Paths(nodes, tags) {
      PathsAreOutermost(nodes, tags, p);
    }
    PathsAreSorted(nodes, tags);
    SortedIsUnique(ps, Paths(nodes, tags));
    OutermostAreAtPaths(nodes, tags);
  }

  /** There always is such a list. */
  lemma ListExists(nodes: seq<Ast>, tags: set<Tag>)
    ensures Lists(nodes, tags, Paths(nodes, tags))
  {
    forall p ensures p in Paths(nodes, tags) <==> IsOutermost(nodes, p, tags) {
      PathsAreOutermost(nodes, tags, p);
    }
    PathsAreSorted(nodes, tags);
  }

  // ----- What the mapper visits and collects -----

  const VISITED: set<Tag> := {Reasoning, Content, Tool}

  lemma {:induction false} ItemsAreOutermost(nodes: seq<Ast>)
    ensures Items(nodes) == Outermost(nodes, VISITED)
    decreases nodes
  {
    if nodes != [] {
      ItemsAreOutermost(nodes[0].children);
      ItemsAreOutermost(nodes[1..]);
    }
  }

  lemma {:induction false} CollectIsOutermost(node: Ast, tag: Tag)
    ensures Collect(node, tag) == Outermost(node.children, {tag})
    decreases node, 1
  {
    CollectFromIsOutermost(node, 0, tag);
    assert node.children[0..] == node.children;
  }

  lemma {:induction false} CollectFromIsOutermost(node: Ast, i: nat, tag: Tag)
    requires i <= |node.children|
    ensures CollectFrom(node, i, tag) == Outermost(node.children[i..], {tag})
    decreases node, 0, |node.children| - i
  {
    if i < |node.children| {
      var rest := node.children[i..];
      assert rest[0] == node.children[i] && rest[1..] == node.children[i + 1..];
      CollectIsOutermost(node.children[i], tag);
      CollectFromIsOutermost(node, i + 1, tag);
    }
  }

  /** The members of a container are its outermost entries, at whatever depth wrapper nodes put them. */
  lemma CollectFindsListed(node: Ast, tag: Tag, ps: seq<Path>)
    requires Lists(node.children, {tag}, ps)
    ensures AllHavePaths(node.children, ps)
    ensures Collect(node, tag) == NodesAt(node.children, ps)
  {
    CollectIsOutermost(node, tag);
    SearchFindsListed(node.children, {tag}, ps);
  }

  function TextsOf(items: seq<Ast>, tag: Tag): string {
    if items == [] then "" else (if items[0].tag == tag then items[0].text else "") + TextsOf(items[1..], tag)
  }

  function CallsOf(items: seq<Ast>): seq<ToolCall> {
    if items == [] then []
    else
      (if items[0].tag == Tool && CallOf(items[0]).Some? then [CallOf(items[0]).value] else []) + CallsOf(items[1..])
  }

  lemma {:induction false} VisitJoins(m: Message, items: seq<Ast>)
    ensures VisitAll(m, items)
         == Message(m.reasoning + TextsOf(items, Reasoning), m.content + TextsOf(items, Content),
                    m.calls + CallsOf(items))
    decreases |items|
  {
    hide CallOf;
    if items == [] {
      assert m.reasoning + "" == m.reasoning && m.content + "" == m.content && m.calls + [] == m.calls;
    } else {
      var n := |items| - 1;
      var init, last := items[..n], items[n];
      VisitJoins(m, init);
      assert items == init + [last];
      PartsConcat(init, last);
      var call := if last.tag == Tool && CallOf(last).Some? then [CallOf(last).value] else [];
      Associate(m.reasoning, TextsOf(init, Reasoning), if last.tag == Reasoning then last.text else "");
      Associate(m.content, TextsOf(init, Content), if last.tag == Content then last.text else "");
      Associate(m.calls, CallsOf(init), call);
    }
  }

  lemma {:induction false} PartsConcat(a: seq<Ast>, x: Ast)
    ensures TextsOf(a + [x], Reasoning) == TextsOf(a, Reasoning) + (if x.tag == Reasoning then x.text else "")
    ensures TextsOf(a + [x], Content) == TextsOf(a, Content) + (if x.tag == Content then x.text else "")
    ensures CallsOf(a + [x]) == CallsOf(a) + (if x.tag == Tool && CallOf(x).Some? then [CallOf(x).value] else [])
    decreases |a|
  {
    hide CallOf;
    if a == [] {
      assert a + [x] == [x] && [x][1..] == [];
    } else {
      assert (a + [x])[1..] == a[1..] + [x];
      PartsConcat(a[1..], x);
    }
  }

  /** What a parse says: the outermost texts, thoughts and calls, in preorder, wherever wrapper nodes put them. */
  lemma ParseIsRead(nodes: seq<Ast>, ps: seq<Path>)
    requires Lists(nodes, {Reasoning, Content, Tool}, ps)
    ensures AllHavePaths(nodes, ps)
    ensures var items := NodesAt(nodes, ps);
            MessageOf(nodes) == Message(TextsOf(items, Reasoning), TextsOf(items, Content), CallsOf(items))
  {
    ItemsAreOutermost(nodes);
    SearchFindsListed(nodes, VISITED, ps);
    var items := NodesAt(nodes, ps);
    VisitJoins(EMPTY, items);
    hide Lists, TextsOf, CallsOf, Items, VisitAll;
    assert "" + TextsOf(items, Reasoning) == TextsOf(items, Reasoning);
    assert "" + TextsOf(items, Content) == TextsOf(items, Content);
    assert [] + CallsOf(items) == CallsOf(items);
  }

  lemma {:induction false} FinishedCalls(items: seq<Ast>, calls: seq<(string, seq<(string, Json)>)>)
    requires var tools := ToolsAmong(items);
             |tools| == |calls|
             && forall i :: 0 <= i < |calls| ==> RepresentsCall(tools[i], calls[i].0, calls[i].1)
    ensures CallsOf(items) == Printed(calls)
  {
    FinishedReplyIsExact(EMPTY, items, calls);
    VisitJoins(EMPTY, items);
    assert [] + CallsOf(items) == CallsOf(items) && [] + Printed(calls) == Printed(calls);
  }

  /** A finished parse: its calls are those of the outermost tool nodes, each with the JSON text of its arguments. */
  lemma FinishedParseIsExact(nodes: seq<Ast>, ps: seq<Path>, calls: seq<(string, seq<(string, Json)>)>)
    requires Lists(nodes, {Reasoning, Content, Tool}, ps) && AllHavePaths(nodes, ps)
    requires var tools := ToolsAmong(NodesAt(nodes, ps));
             |tools| == |calls|
             && forall i :: 0 <= i < |calls| ==> RepresentsCall(tools[i], calls[i].0, calls[i].1)
    ensures var items := NodesAt(nodes, ps);
            MessageOf(nodes) == Message(TextsOf(items, Reasoning), TextsOf(items, Content), Printed(calls))
  {
    ParseIsRead(nodes, ps);
    FinishedCalls(NodesAt(nodes, ps), calls);
  }

  lemma {:induction false} OutermostConcat(a: seq<Ast>, b: seq<Ast>, tags: set<Tag>)
    ensures Outermost(a + b, tags) == Outermost(a, tags) + Outermost(b, tags)
    decreases |a|
  {
    if a == [] {
      assert a + b == b;
    } else {
      assert (a + b)[1..] == a[1..] + b;
      OutermostConcat(a[1..], b, tags);
    }
  }

  lemma {:induction false} VisitConcat(m: Message, a: seq<Ast>, b: seq<Ast>)
    ensures VisitAll(m, a + b) == VisitAll(VisitAll(m, a), b)
    decreases |b|
  {
    hide Visit;
    if b == [] {
      assert a + b == a;
    } else {
      assert (a + b)[..|a + b| - 1] == a + b[..|b| - 1];
      VisitConcat(m, a, b[..|b| - 1]);
    }
  }

  function Joined(m: Message, n: Message): Message {
    Message(m.reasoning + n.reasoning, m.content + n.content, m.calls + n.calls)
  }

  /** A wrapper says what its children say, and a forest what its trees say, one after the other. */
  lemma WrappersAreSeenThrough(text: string, children: seq<Ast>, partial: bool, a: seq<Ast>, b: seq<Ast>)
    ensures MessageOf([Ast(Other, text, children, partial)]) == MessageOf(children)
    ensures MessageOf(a + b) == Joined(MessageOf(a), MessageOf(b))
  {
    var wrapper := [Ast(Other, text, children, partial)];
    assert wrapper[1..] == [] && Items(wrapper) == Items(children) + [] == Items(children);
    ItemsAreOutermost(a);
    ItemsAreOutermost(b);
    ItemsAreOutermost(a + b);
    OutermostConcat(a, b, VISITED);
    VisitConcat(EMPTY, Items(a), Items(b));
    VisitJoins(VisitAll(EMPTY, Items(a)), Items(b));
    VisitJoins(EMPTY, Items(b));
    var items := Items(b);
    hide Items, VisitAll, TextsOf, CallsOf;
    assert "" + TextsOf(items, Reasoning) == TextsOf(items, Reasoning);
    assert "" + TextsOf(items, Content) == TextsOf(items, Content);
    assert [] + CallsOf(items) == CallsOf(items);
  }

  // ----- Finding a tag -----

  predicate HasTagAt(nodes: seq<Ast>, p: Path, tag: Tag, depth: nat) {
    |p| <= depth && HasPath(nodes, p) && NodeAt(nodes, p).tag == tag
  }

  /** What is found stands at the first place in preorder that has the tag within the levels; else there is none. */
  lemma {:induction false} FindInIsFirst(nodes: seq<Ast>, tag: Tag, depth: nat) returns (p: Path)
    requires depth > 0
    ensures FindIn(nodes, tag, depth).None? ==> forall q :: !HasTagAt(nodes, q, tag, depth)
    ensures FindIn(nodes, tag, depth).Some? ==>
              && HasTagAt(nodes, p, tag, depth) && NodeAt(nodes, p) == FindIn(nodes, tag, depth).value
              && forall q :: HasTagAt(nodes, q, tag, depth) ==> q == p || Before(p, q)
    decreases nodes
  {
    p := [];
    if nodes != [] {
      var first, rest := nodes[0], nodes[1..];
      if first.tag == tag {
        p := [0];
        forall q | HasTagAt(nodes, q, tag, depth) ensures q == p || Before(p, q) {
          assert q[0] == 0 ==> q == [0] + q[1..] && p[1..] == [];
        }
      } else {
        var deeper: Path := [];
        if depth > 1 {
          deeper := FindInIsFirst(first.children, tag, depth - 1);
        }
        var later := FindInIsFirst(rest, tag, depth);
        p := FoundBelowOrLater(nodes, tag, depth, deeper, later);
      }
    }
  }

  /** Below the first node, or else among the later ones. */
  lemma FoundBelowOrLater(nodes: seq<Ast>, tag: Tag, depth: nat, deeper: Path, later: Path) returns (p: Path)
    requires depth > 0 && nodes != [] && nodes[0].tag != tag
    requires depth > 1 ==> IsFirst(nodes[0].children, tag, depth - 1, deeper)
    requires IsFirst(nodes[1..], tag, depth, later)
    ensures IsFirst(nodes, tag, depth, p)
  {
    var found := FindIn(nodes, tag, depth);
    var below := if depth > 1 then FindIn(nodes[0].children, tag, depth - 1) else None;
    assert found == if below.Some? then below else FindIn(nodes[1..], tag, depth);
    hide FindIn;
    p := if below.Some? then [0] + deeper else if later != [] then NextTree(later) else [];
    assert ([0] + deeper)[1..] == deeper;
    forall q | HasTagAt(nodes, q, tag, depth)
      ensures found.Some? && (q == p || Before(p, q))
    {
      if q[0] == 0 {
        TagBelow(nodes, tag, depth, q);
      } else {
        TagLater(nodes, tag, depth, q);
      }
    }
  }

  lemma TagBelow(nodes: seq<Ast>, tag: Tag, depth: nat, q: Path)
    requires HasTagAt(nodes, q, tag, depth) && nodes[0].tag != tag && q[0] == 0
    ensures depth > 1 && HasTagAt(nodes[0].children, q[1..], tag, depth - 1) && q == [0] + q[1..]
  {
  }

  lemma TagLater(nodes: seq<Ast>, tag: Tag, depth: nat, q: Path)
    requires HasTagAt(nodes, q, tag, depth) && q[0] > 0
    ensures var r := [q[0] - 1] + q[1..]; HasTagAt(nodes[1..], r, tag, depth) && q == NextTree(r)
  {
    var r := [q[0] - 1] + q[1..];
    assert r[1..] == q[1..];
  }

  ghost predicate IsFirst(nodes: seq<Ast>, tag: Tag, depth: nat, p: Path)
    requires depth > 0
  {
    var found := FindIn(nodes, tag, depth);
    && (found.None? ==> forall q :: !HasTagAt(nodes, q, tag, depth))
    && (found.Some? ==>
          && HasTagAt(nodes, p, tag, depth) && NodeAt(nodes, p) == found.value
          && forall q :: HasTagAt(nodes, q, tag, depth) ==> q == p || Before(p, q))
  }

  /** A tag is looked for in the first three levels below a node. */
  lemma TagIsFoundFirst(node: Ast, tag: Tag) returns (p: Path)
    ensures FindByTag(node, tag).None? ==> forall q :: !HasTagAt(node.children, q, tag, 3)
    ensures FindByTag(node, tag).Some? ==>
              && HasTagAt(node.children, p, tag, 3) && NodeAt(node.children, p) == FindByTag(node, tag).value
              && forall q :: HasTagAt(node.children, q, tag, 3) ==> q == p || Before(p, q)
  {
    p := FindInIsFirst(node.children, tag, 3);
  }

  predicate IsValue(node: Ast) {
    node.tag in {MiniMax.ArgValue, MiniMax.ArgString, MiniMax.ArgObject, MiniMax.ArgArray}
  }

  /** The value of an entry is its first child that is one. */
  lemma {:induction false} ValueIsFirst(node: Ast, i: nat)
    requires i <= |node.children|
    ensures var r, c := ValueAmong(node, i), node.children;
            && (r.None? ==> forall k :: i <= k < |c| ==> !IsValue(c[k]))
            && (r.Some? ==>
                  exists k :: i <= k < |c| && c[k] == r.value && IsValue(c[k])
                              && forall j :: i <= j < k ==> !IsValue(c[j]))
    decreases |node.children| - i
  {
    if i < |node.children| && !IsValueTag(node.children[i].tag) {
      ValueIsFirst(node, i + 1);
    }
  }
}
