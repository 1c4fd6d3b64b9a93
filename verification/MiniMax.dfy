/**
  Printing MiniMax-M3 tool arguments from a parse tree (`minimax_m3_*_to_json`). The tree may be incomplete; the
  print of a complete tree is the JSON text of the value it represents, and the print of a cut tree is a prefix of it.
*/
module MiniMax {
  import opened Wrappers
  import opened JsonText
  import opened ChatMessage
  import opened MessageDiff

  datatype Tag =
    | Reasoning | Content | Tool | ToolName
    | ToolArg | ArgName | ArgValue | ArgString | ArgObject | ArgArray | ArgItem
    | Other

  datatype Ast = Ast(tag: Tag, text: string, children: seq<Ast>, partial: bool)

  /** `find_by_tag`, whose depth limit defaults to 3. */
  function FindByTag(node: Ast, tag: Tag): Option<Ast> {
    FindIn(node.children, tag, 3)
  }

  function FindIn(nodes: seq<Ast>, tag: Tag, depth: nat): Option<Ast>
    decreases nodes
  {
    if nodes == [] then None
    else if nodes[0].tag == tag then Some(nodes[0])
    else
      var deeper := if depth > 1 then FindIn(nodes[0].children, tag, depth - 1) else None;
      if deeper.Some? then deeper else FindIn(nodes[1..], tag, depth)
  }

  /** `minimax_m3_collect`: the outermost descendants with a tag, in order. */
  function Collect(node: Ast, tag: Tag): (r: seq<Ast>)
    ensures forall i :: 0 <= i < |r| ==> r[i] < node && r[i].tag == tag
    decreases node, 1
  {
    CollectFrom(node, 0, tag)
  }

  function CollectFrom(node: Ast, i: nat, tag: Tag): (r: seq<Ast>)
    requires i <= |node.children|
    ensures forall j :: 0 <= j < |r| ==> r[j] < node && r[j].tag == tag
    decreases node, 0, |node.children| - i
  {
    if i == |node.children| then []
    else
      var child := node.children[i];
      (if child.tag == tag then [child] else Collect(child, tag)) + CollectFrom(node, i + 1, tag)
  }

  predicate IsValueTag(tag: Tag) {
    tag == ArgValue || tag == ArgString || tag == ArgObject || tag == ArgArray
  }

  /** `minimax_m3_value_of`: the first child that is a value. */
  function ValueOf(node: Ast): (r: Option<Ast>)
    ensures r.Some? ==> r.value < node && IsValueTag(r.value.tag)
  {
    ValueAmong(node, 0)
  }

  function ValueAmong(node: Ast, i: nat): (r: Option<Ast>)
    requires i <= |node.children|
    ensures r.Some? ==> r.value < node && IsValueTag(r.value.tag)
    decreases |node.children| - i
  {
    if i == |node.children| then None
    else if IsValueTag(node.children[i].tag) then Some(node.children[i])
    else ValueAmong(node, i + 1)
  }

  /** `minimax_m3_value_to_json` of a node that is there; an absent value prints as nothing. */
  function ValueToJson(node: Ast, closed: bool): string
    decreases node, 2
  {
    match node.tag
    case ArgObject => ContainerToJson(node, true, closed)
    case ArgArray => ContainerToJson(node, false, closed)
    case ArgString => "\"" + Escape(node.text) + (if closed then "\"" else "")
    case _ => node.text
  }

  function ContainerToJson(node: Ast, isObject: bool, closed: bool): string
    decreases node, 1
  {
    var entries := Collect(node, EntryTag(isObject));
    (if isObject then "{" else "[") + EntriesToJson(node, entries, isObject)
    + (if !closed then "" else if isObject then "}" else "]")
  }

  function EntryTag(isObject: bool): Tag {
    if isObject then ToolArg else ArgItem
  }

  /** The loop over the entries: an entry that prints as nothing is skipped, with its comma. */
  function EntriesToJson(node: Ast, entries: seq<Ast>, isObject: bool): string
    requires forall i :: 0 <= i < |entries| ==> entries[i] < node
    decreases node, 0, |entries|
  {
    if entries == [] then ""
    else
      var init := EntriesToJson(node, entries[..|entries| - 1], isObject);
      var text := EntryToJson(entries[|entries| - 1], isObject);
      if text == "" then init else if init == "" then text else init + "," + text
  }

  /** An array item, or an object member (`minimax_m3_member_to_json`), which needs its name. */
  function EntryToJson(entry: Ast, isObject: bool): string
    decreases entry, 3
  {
    var value := ValueOf(entry);
    var text := if value.None? then "" else ValueToJson(value.value, !entry.partial);
    if !isObject then text
    else
      var name := FindByTag(entry, ArgName);
      if name.None? then "" else Quote(name.value.text) + ":" + text
  }

  // ----- Complete trees -----

  /** The value a tree stands for; numbers, booleans and null are kept as the text the template wrote. */
  datatype Json =
    | Text(s: string)
    | Verbatim(text: string)
    | Object(members: seq<(string, Json)>)
    | Array(items: seq<Json>)

  function TextOf(v: Json): string {
    match v
    case Text(s) => Quote(s)
    case Verbatim(text) => text
    case Object(members) => "{" + MembersText(members) + "}"
    case Array(items) => "[" + ItemsText(items) + "]"
  }

  function MemberText(m: (string, Json)): string {
    Quote(m.0) + ":" + TextOf(m.1)
  }

  function MembersText(members: seq<(string, Json)>): string {
    if members == [] then ""
    else
      var last := MemberText(members[|members| - 1]);
      if |members| == 1 then last else MembersText(members[..|members| - 1]) + "," + last
  }

  function ItemsText(items: seq<Json>): string {
    if items == [] then ""
    else
      var last := TextOf(items[|items| - 1]);
      if |items| == 1 then last else ItemsText(items[..|items| - 1]) + "," + last
  }

  /** The tree of a value that was read to its end. Wrapper nodes may stand between a container and its entries. */
  ghost predicate Represents(node: Ast, v: Json)
    decreases v, 0
  {
    match v
    case Text(s) => node.tag == ArgString && node.text == s
    case Verbatim(text) => node.tag == ArgValue && node.text == text && text != ""
    case Object(members) => node.tag == ArgObject && RepresentsMembers(Collect(node, ToolArg), members)
    case Array(items) => node.tag == ArgArray && RepresentsItems(Collect(node, ArgItem), items)
  }

  ghost predicate RepresentsMembers(entries: seq<Ast>, members: seq<(string, Json)>)
    decreases members
  {
    |entries| == |members| && forall i :: 0 <= i < |entries| ==> RepresentsMember(entries[i], members[i])
  }

  ghost predicate RepresentsMember(entry: Ast, m: (string, Json))
    decreases m, 0
  {
    var name := FindByTag(entry, ArgName);
    && name.Some? && name.value.text == m.0
    && !entry.partial && ValueOf(entry).Some? && Represents(ValueOf(entry).value, m.1)
  }

  ghost predicate RepresentsItems(entries: seq<Ast>, items: seq<Json>)
    decreases items
  {
    |entries| == |items| && forall i :: 0 <= i < |entries| ==>
      !entries[i].partial && ValueOf(entries[i]).Some? && Represents(ValueOf(entries[i]).value, items[i])
  }

  /** The print of a complete tree is the JSON text of its value, at every depth. */
  lemma {:induction false} CompletePrintIsExact(node: Ast, v: Json)
    requires Represents(node, v)
    ensures ValueToJson(node, true) == TextOf(v) && TextOf(v) != ""
    decreases v, 0
  {
    match v
    case Text(s) =>
    case Verbatim(text) =>
    case Object(members) => MembersPrintExactly(node, Collect(node, ToolArg), members);
    case Array(items) => ItemsPrintExactly(node, Collect(node, ArgItem), items);
  }

  lemma {:induction false} MemberPrintsExactly(entry: Ast, m: (string, Json))
    requires RepresentsMember(entry, m)
    ensures EntryToJson(entry, true) == MemberText(m) != ""
    decreases m, 0
  {
    CompletePrintIsExact(ValueOf(entry).value, m.1);
  }

  lemma {:induction false} MembersPrintExactly(node: Ast, entries: seq<Ast>, members: seq<(string, Json)>)
    requires forall i :: 0 <= i < |entries| ==> entries[i] < node
    requires RepresentsMembers(entries, members)
    ensures EntriesToJson(node, entries, true) == MembersText(members)
    ensures members != [] ==> MembersText(members) != ""
    decreases members
  {
    hide MemberText, EntryToJson, RepresentsMember, Represents, ValueOf, FindByTag, TextOf;
    if members != [] {
      var n := |members| - 1;
      assert RepresentsMember(entries[n], members[n]);
      MemberPrintsExactly(entries[n], members[n]);
      MembersPrintExactly(node, entries[..n], members[..n]);
    }
  }

  lemma {:induction false} ItemPrintsExactly(entry: Ast, item: Json)
    requires !entry.partial && ValueOf(entry).Some? && Represents(ValueOf(entry).value, item)
    ensures EntryToJson(entry, false) == TextOf(item) != ""
    decreases item, 1
  {
    hide Represents, TextOf, ValueOf;
    CompletePrintIsExact(ValueOf(entry).value, item);
  }

  lemma {:induction false} ItemsPrintExactly(node: Ast, entries: seq<Ast>, items: seq<Json>)
    requires forall i :: 0 <= i < |entries| ==> entries[i] < node
    requires RepresentsItems(entries, items)
    ensures EntriesToJson(node, entries, false) == ItemsText(items)
    ensures items != [] ==> ItemsText(items) != ""
    decreases items
  {
    hide EntryToJson, Represents, ValueOf, FindByTag, TextOf;
    if items != [] {
      var n := |items| - 1;
      ItemPrintsExactly(entries[n], items[n]);
      ItemsPrintExactly(node, entries[..n], items[..n]);
    }
  }

  // ----- Every value has such a tree -----

  function TreeOf(v: Json): Ast {
    match v
    case Text(s) => Ast(ArgString, s, [], false)
    case Verbatim(text) => Ast(ArgValue, text, [], false)
    case Object(members) => Ast(ArgObject, "", MemberTrees(members), false)
    case Array(items) => Ast(ArgArray, "", ItemTrees(items), false)
  }

  function MemberTrees(members: seq<(string, Json)>): seq<Ast> {
    if members == [] then [] else [MemberTree(members[0])] + MemberTrees(members[1..])
  }

  function MemberTree(m: (string, Json)): Ast {
    Ast(ToolArg, "", [Ast(Other, "", [Ast(ArgName, m.0, [], false)], false), TreeOf(m.1)], false)
  }

  function ItemTrees(items: seq<Json>): seq<Ast> {
    if items == [] then [] else [Ast(ArgItem, "", [TreeOf(items[0])], false)] + ItemTrees(items[1..])
  }

  ghost predicate WellFormed(v: Json) {
    match v
    case Text(_) => true
    case Verbatim(text) => text != ""
    case Object(members) => forall m :: m in members ==> WellFormed(m.1)
    case Array(items) => forall x :: x in items ==> WellFormed(x)
  }

  lemma {:induction false} TreesRepresent(v: Json)
    requires WellFormed(v)
    ensures Represents(TreeOf(v), v)
    decreases v, 0
  {
    match v
    case Text(_) | Verbatim(_) =>
    case Object(members) =>
      MembersRepresent(members);
      CollectsAll(TreeOf(v), 0, ToolArg);
      assert TreeOf(v).children[0..] == MemberTrees(members);
    case Array(items) =>
      ItemsRepresent(items);
      CollectsAll(TreeOf(v), 0, ArgItem);
      assert TreeOf(v).children[0..] == ItemTrees(items);
  }

  lemma {:induction false} CollectsAll(node: Ast, i: nat, tag: Tag)
    requires i <= |node.children| && forall j :: i <= j < |node.children| ==> node.children[j].tag == tag
    ensures CollectFrom(node, i, tag) == node.children[i..]
    decreases |node.children| - i
  {
    if i < |node.children| {
      CollectsAll(node, i + 1, tag);
    }
  }

  lemma {:induction false} MembersRepresent(members: seq<(string, Json)>)
    requires forall m :: m in members ==> WellFormed(m.1)
    ensures RepresentsMembers(MemberTrees(members), members)
    ensures forall i :: 0 <= i < |MemberTrees(members)| ==> MemberTrees(members)[i].tag == ToolArg
    decreases members
  {
    if members != [] {
      MemberRepresents(members[0]);
      MembersRepresent(members[1..]);
      var t := MemberTrees(members);
      forall i | 0 <= i < |t|
        ensures RepresentsMember(t[i], members[i])
      {
        if i > 0 {
          assert t[i] == MemberTrees(members[1..])[i - 1] && members[i] == members[1..][i - 1];
        }
      }
    }
  }

  lemma {:induction false} MemberRepresents(m: (string, Json))
    requires WellFormed(m.1)
    ensures RepresentsMember(MemberTree(m), m)
    decreases m, 0
  {
    var t := MemberTree(m);
    TreesRepresent(m.1);
    assert FindIn(t.children[0].children, ArgName, 2) == Some(Ast(ArgName, m.0, [], false));
    assert ValueAmong(t, 1) == Some(t.children[1]);
  }

  lemma {:induction false} ItemsRepresent(items: seq<Json>)
    requires forall x :: x in items ==> WellFormed(x)
    ensures RepresentsItems(ItemTrees(items), items)
    ensures forall i :: 0 <= i < |ItemTrees(items)| ==> ItemTrees(items)[i].tag == ArgItem
    decreases items
  {
    if items != [] {
      TreesRepresent(items[0]);
      ItemsRepresent(items[1..]);
    }
  }

  // ----- Cut trees -----

  /** The tree `p` of a value seen early, when the tree `q` of the same value is seen later. */
  ghost predicate CutValue(p: Ast, q: Ast)
    decreases p, 1
  {
    && p.tag == q.tag && IsValueTag(p.tag)
    && match p.tag
       case ArgObject => CutEntries(p, Collect(p, ToolArg), Collect(q, ToolArg), true)
       case ArgArray => CutEntries(p, Collect(p, ArgItem), Collect(q, ArgItem), false)
       case _ => p.text <= q.text
  }

  /** All entries but the last are final, and the last may be cut. */
  ghost predicate CutEntries(node: Ast, p: seq<Ast>, q: seq<Ast>, isObject: bool)
    requires forall i :: 0 <= i < |p| ==> p[i] < node
    decreases node, 0
  {
    p == [] || (|p| <= |q| && p[..|p| - 1] == q[..|p| - 1] && CutEntry(p[|p| - 1], q[|p| - 1], isObject))
  }

  /** An entry whose name is absent or whole, and whose value is absent or cut. */
  ghost predicate CutEntry(p: Ast, q: Ast, isObject: bool)
    decreases p, 2
  {
    p == q || (
      && p.partial
      && (isObject ==>
            var name, name' := FindByTag(p, ArgName), FindByTag(q, ArgName);
            name.Some? ==> name'.Some? && name.value.text == name'.value.text)
      && (ValueOf(p).Some? ==> ValueOf(q).Some? && CutValue(ValueOf(p).value, ValueOf(q).value)))
  }

  /** The print of a cut value, still open, is a prefix of its later print, open or closed. */
  lemma {:induction false} CutValuePrintsPrefix(p: Ast, q: Ast, closed: bool)
    requires CutValue(p, q)
    ensures ValueToJson(p, false) <= ValueToJson(q, closed)
    decreases p, 2
  {
    match p.tag
    case ArgObject => CutContainerPrintsPrefix(p, q, true, closed);
    case ArgArray => CutContainerPrintsPrefix(p, q, false, closed);
    case ArgString => EscapeIsMonotone(p.text, q.text);
    case ArgValue =>
  }

  lemma {:induction false} CutContainerPrintsPrefix(p: Ast, q: Ast, isObject: bool, closed: bool)
    requires CutEntries(p, Collect(p, EntryTag(isObject)), Collect(q, EntryTag(isObject)), isObject)
    ensures ContainerToJson(p, isObject, false) <= ContainerToJson(q, isObject, closed)
    decreases p, 1
  {
    var ep, eq := Collect(p, EntryTag(isObject)), Collect(q, EntryTag(isObject));
    CutEntriesPrintPrefix(p, q, ep, eq, isObject);
    hide EntriesToJson, CutEntries, Collect;
    WrappedPrefix(if isObject then "{" else "[", EntriesToJson(p, ep, isObject), EntriesToJson(q, eq, isObject),
                  if !closed then "" else if isObject then "}" else "]");
  }

  lemma {:induction false} CutEntriesPrintPrefix(p: Ast, q: Ast, ep: seq<Ast>, eq: seq<Ast>, isObject: bool)
    requires forall i :: 0 <= i < |ep| ==> ep[i] < p
    requires forall i :: 0 <= i < |eq| ==> eq[i] < q
    requires CutEntries(p, ep, eq, isObject)
    ensures EntriesToJson(p, ep, isObject) <= EntriesToJson(q, eq, isObject)
    decreases p, 0
  {
    hide CutEntry, EntryToJson;
    if ep != [] {
      var n := |ep| - 1;
      CutEntryPrintsPrefix(ep[n], eq[n], isObject);
      SameEntriesSamePrint(p, q, ep[..n], eq[..n], isObject);
      assert eq[..n + 1][..n] == eq[..n];
      LastEntryPrintsPrefix(p, q, ep, eq[..n + 1], isObject);
      FirstEntriesPrintPrefix(q, eq, n + 1, isObject);
    }
  }

  lemma WrappedPrefix(open: string, a: string, b: string, close: string)
    requires a <= b
    ensures open + a + "" <= open + b + close
  {
    assert open + b + close == (open + a + "") + (b[|a|..] + close);
  }

  lemma {:induction false} LastEntryPrintsPrefix(p: Ast, q: Ast, ep: seq<Ast>, eq: seq<Ast>, isObject: bool)
    requires forall i :: 0 <= i < |ep| ==> ep[i] < p
    requires forall i :: 0 <= i < |eq| ==> eq[i] < q
    requires |ep| == |eq| > 0
    requires EntriesToJson(p, ep[..|ep| - 1], isObject) == EntriesToJson(q, eq[..|eq| - 1], isObject)
    requires EntryToJson(ep[|ep| - 1], isObject) <= EntryToJson(eq[|eq| - 1], isObject)
    ensures EntriesToJson(p, ep, isObject) <= EntriesToJson(q, eq, isObject)
  {
    hide EntryToJson;
  }

  lemma {:induction false} CutEntryPrintsPrefix(p: Ast, q: Ast, isObject: bool)
    requires CutEntry(p, q, isObject)
    ensures EntryToJson(p, isObject) <= EntryToJson(q, isObject)
    decreases p, 3
  {
    if p != q && ValueOf(p).Some? {
      CutValuePrintsPrefix(ValueOf(p).value, ValueOf(q).value, !q.partial);
    }
  }

  lemma {:induction false} SameEntriesSamePrint(p: Ast, q: Ast, ep: seq<Ast>, eq: seq<Ast>, isObject: bool)
    requires forall i :: 0 <= i < |ep| ==> ep[i] < p
    requires forall i :: 0 <= i < |eq| ==> eq[i] < q
    requires ep == eq
    ensures EntriesToJson(p, ep, isObject) == EntriesToJson(q, eq, isObject)
    decreases |ep|
  {
    if ep != [] {
      SameEntriesSamePrint(p, q, ep[..|ep| - 1], eq[..|eq| - 1], isObject);
    }
  }

  lemma {:induction false} FirstEntriesPrintPrefix(q: Ast, entries: seq<Ast>, n: nat, isObject: bool)
    requires n <= |entries| && forall i :: 0 <= i < |entries| ==> entries[i] < q
    ensures EntriesToJson(q, entries[..n], isObject) <= EntriesToJson(q, entries, isObject)
    decreases |entries|
  {
    if n < |entries| {
      var init := entries[..|entries| - 1];
      assert init[..n] == entries[..n];
      FirstEntriesPrintPrefix(q, init, n, isObject);
    } else {
      assert entries[..n] == entries;
    }
  }

  // ----- Whole messages -----

  /** The nodes the mapper acts on, in preorder; it does not look below them. */
  function Items(nodes: seq<Ast>): seq<Ast> {
    if nodes == [] then []
    else
      var node := nodes[0];
      (if node.tag == Reasoning || node.tag == Content || node.tag == Tool then [node] else Items(node.children))
      + Items(nodes[1..])
  }

  function CallOf(node: Ast): Option<ToolCall> {
    var name := FindByTag(node, ToolName);
    if name.None? then None
    else Some(ToolCall(name.value.text, ContainerToJson(node, true, !node.partial), ""))
  }

  /** `visit` at one of these nodes. */
  function Visit(m: Message, node: Ast): Message {
    match node.tag
    case Reasoning => m.(reasoning := m.reasoning + node.text)
    case Content => m.(content := m.content + node.text)
    case Tool => if CallOf(node).Some? then m.(calls := m.calls + [CallOf(node).value]) else m
    case _ => m
  }

  function VisitAll(m: Message, items: seq<Ast>): Message {
    if items == [] then m else Visit(VisitAll(m, items[..|items| - 1]), items[|items| - 1])
  }

  /** The message mapped from the roots of a parse. */
  function MessageOf(nodes: seq<Ast>): Message {
    VisitAll(EMPTY, Items(nodes))
  }

  // ----- Finished calls -----

  /** A tool call that was read to its end. */
  ghost predicate RepresentsCall(node: Ast, name: string, members: seq<(string, Json)>) {
    var found := FindByTag(node, ToolName);
    && node.tag == Tool && !node.partial && found.Some? && found.value.text == name
    && RepresentsMembers(Collect(node, ToolArg), members)
  }

  /** The arguments of a finished call are the JSON text of the object of its arguments. */
  lemma FinishedCallIsExact(node: Ast, name: string, members: seq<(string, Json)>)
    requires RepresentsCall(node, name, members)
    ensures CallOf(node) == Some(ToolCall(name, TextOf(Object(members)), ""))
  {
    MembersPrintExactly(node, Collect(node, ToolArg), members);
  }

  function CallTree(name: string, members: seq<(string, Json)>): Ast {
    Ast(Tool, "", [Ast(ToolName, name, [], false)] + MemberTrees(members), false)
  }

  /** Every call with well-formed arguments has such a tree. */
  lemma CallTreesRepresent(name: string, members: seq<(string, Json)>)
    requires forall m :: m in members ==> WellFormed(m.1)
    ensures RepresentsCall(CallTree(name, members), name, members)
  {
    var node := CallTree(name, members);
    MembersRepresent(members);
    CollectsAll(node, 1, ToolArg);
    assert node.children[1..] == MemberTrees(members);
    var first := node.children[0];
    assert CollectFrom(first, 0, ToolArg) == [] == Collect(first, ToolArg);
    assert Collect(node, ToolArg) == MemberTrees(members);
  }

  function ToolsAmong(items: seq<Ast>): seq<Ast> {
    if items == [] then []
    else
      var last := items[|items| - 1];
      ToolsAmong(items[..|items| - 1]) + (if last.tag == Tool then [last] else [])
  }

  function Printed(calls: seq<(string, seq<(string, Json)>)>): seq<ToolCall> {
    seq(|calls|, i requires 0 <= i < |calls| => ToolCall(calls[i].0, TextOf(Object(calls[i].1)), ""))
  }

  /** The calls of a finished reply are those of its tool nodes, in order, each with the text of its arguments. */
  lemma {:induction false} FinishedReplyIsExact(
      m: Message, items: seq<Ast>, calls: seq<(string, seq<(string, Json)>)>)
    requires var tools := ToolsAmong(items);
             |tools| == |calls|
             && forall i :: 0 <= i < |calls| ==> RepresentsCall(tools[i], calls[i].0, calls[i].1)
    ensures VisitAll(m, items).calls == m.calls + Printed(calls)
    decreases |items|
  {
    hide RepresentsCall, CallOf;
    if items != [] {
      var n, last := |items| - 1, items[|items| - 1];
      if last.tag == Tool {
        var k := |calls| - 1;
        assert ToolsAmong(items)[k] == last;
        assert forall i :: 0 <= i < k ==> ToolsAmong(items[..n])[i] == ToolsAmong(items)[i];
        FinishedCallIsExact(last, calls[k].0, calls[k].1);
        FinishedReplyIsExact(m, items[..n], calls[..k]);
        assert Printed(calls) == Printed(calls[..k]) + [CallOf(last).value];
      } else {
        FinishedReplyIsExact(m, items[..n], calls);
      }
    }
  }

  // ----- Calls that are still being read -----

  ghost predicate CutItem(p: Ast, q: Ast) {
    p == q || (
      && p.tag == q.tag
      && match p.tag
         case Reasoning | Content => p.text <= q.text
         case Tool =>
           && p.partial
           && (FindByTag(p, ToolName).Some? ==>
                 FindByTag(q, ToolName).Some?
                 && FindByTag(p, ToolName).value.text == FindByTag(q, ToolName).value.text)
           && CutEntries(p, Collect(p, ToolArg), Collect(q, ToolArg), true)
         case _ => true)
  }

  /** Everything but the last visited node is final. */
  ghost predicate CutParse(p: seq<Ast>, q: seq<Ast>) {
    var ip, iq := Items(p), Items(q);
    ip == [] || (|ip| <= |iq| && ip[..|ip| - 1] == iq[..|ip| - 1] && CutItem(ip[|ip| - 1], iq[|ip| - 1]))
  }

  lemma CutVisitGrows(m: Message, p: Ast, q: Ast)
    requires CutItem(p, q)
    ensures Grows(Visit(m, p), Visit(m, q))
  {
    if p != q && p.tag == Tool && CallOf(p).Some? {
      CutContainerPrintsPrefix(p, q, true, !q.partial);
    }
  }

  lemma {:induction false} MoreItemsGrow(m: Message, items: seq<Ast>, n: nat)
    requires n <= |items|
    ensures Grows(VisitAll(m, items[..n]), VisitAll(m, items))
    decreases |items|
  {
    if n < |items| {
      var init := items[..|items| - 1];
      assert init[..n] == items[..n];
      MoreItemsGrow(m, init, n);
      GrowsIsTransitive(VisitAll(m, items[..n]), VisitAll(m, init), VisitAll(m, items));
    } else {
      assert items[..n] == items;
    }
  }

  /** Messages mapped from successive cuts grow, so the deltas between them exist and rebuild the later one. */
  lemma CutParseGrows(p: seq<Ast>, q: seq<Ast>)
    requires CutParse(p, q)
    ensures Grows(MessageOf(p), MessageOf(q))
    ensures DiffsOf(MessageOf(p), MessageOf(q)).Ok?
    ensures ApplyAll(MessageOf(p), DiffsOf(MessageOf(p), MessageOf(q)).value) == MessageOf(q)
  {
    var ip, iq := Items(p), Items(q);
    if ip == [] {
      MoreItemsGrow(EMPTY, iq, 0);
    } else {
      var n := |ip| - 1;
      var m := VisitAll(EMPTY, ip[..n]);
      assert iq[..n + 1][..n] == ip[..n];
      CutVisitGrows(m, ip[n], iq[n]);
      assert VisitAll(EMPTY, iq[..n + 1]) == Visit(m, iq[n]);
      MoreItemsGrow(EMPTY, iq, n + 1);
      GrowsIsTransitive(MessageOf(p), Visit(m, iq[n]), MessageOf(q));
    }
    ClientFollowsExactlyGrowth(MessageOf(p), MessageOf(q));
  }
}
