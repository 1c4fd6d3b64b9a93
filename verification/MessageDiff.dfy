/**
  The deltas sent to a streaming client (`common_chat_msg_diff::compute_diffs`), a client that applies them, and
  the exact conditions under which computing them succeeds and applying them rebuilds the new message.
*/
module MessageDiff {
  import opened Wrappers
  import opened ChatMessage

  datatype DiffError = InvalidDiff | FewerToolCalls | ToolCallMismatch

  /** One delta; `index` is absent (`npos`) when the delta carries no tool call. */
  datatype Diff = Diff(reasoning: string, content: string, index: Option<nat>, call: ToolCall)

  const NO_CALL := ToolCall("", "", "")

  function StringDiff(last: string, current: string): Result<string, DiffError> {
    if last == "" then Ok(current)
    else if last <= current then Ok(current[|last|..])
    else if current <= last then Ok("")
    else Err(InvalidDiff)
  }

  function ReasoningDiffs(prev: Message, next: Message): Result<seq<Diff>, DiffError> {
    if prev.reasoning == next.reasoning then Ok([])
    else
      var delta :- StringDiff(prev.reasoning, next.reasoning);
      Ok([Diff(delta, "", None, NO_CALL)])
  }

  function ContentDiffs(prev: Message, next: Message): Result<seq<Diff>, DiffError> {
    if prev.content == next.content then Ok([])
    else
      var delta :- StringDiff(prev.content, next.content);
      Ok([Diff("", delta, None, NO_CALL)])
  }

  /** The delta for the call that was last in the previous message. */
  function LastCallDiffs(i: nat, pref: ToolCall, newf: ToolCall): Result<seq<Diff>, DiffError> {
    if pref.name != newf.name && pref.name != "" && newf.name != "" && !(pref.name <= newf.name) then
      Err(ToolCallMismatch)
    else
      var args :- StringDiff(pref.arguments, newf.arguments);
      var changed := pref.id != newf.id || pref.name != newf.name;
      if args == "" && !changed then Ok([])
      else Ok([Diff("", "", Some(i), if changed then ToolCall(newf.name, args, newf.id) else ToolCall("", args, ""))])
  }

  function NewCallDiffs(next: Message, i: nat): seq<Diff>
    decreases |next.calls| - i
  {
    if i >= |next.calls| then []
    else [Diff("", "", Some(i), next.calls[i])] + NewCallDiffs(next, i + 1)
  }

  function DiffsOf(prev: Message, next: Message): Result<seq<Diff>, DiffError> {
    var reasoning :- ReasoningDiffs(prev, next);
    var content :- ContentDiffs(prev, next);
    if |next.calls| < |prev.calls| then Err(FewerToolCalls)
    else
      var n := |prev.calls|;
      var last :- if n == 0 then Ok([]) else LastCallDiffs(n - 1, prev.calls[n - 1], next.calls[n - 1]);
      Ok(reasoning + content + last + NewCallDiffs(next, n))
  }

  method ComputeDiffs(prev: Message, next: Message) returns (r: Result<seq<Diff>, DiffError>)
    ensures r == DiffsOf(prev, next)
  {
    var diffs: seq<Diff> := [];
    if prev.reasoning != next.reasoning {
      var delta :- StringDiff(prev.reasoning, next.reasoning);
      diffs := diffs + [Diff(delta, "", None, NO_CALL)];
    }
    if prev.content != next.content {
      var delta :- StringDiff(prev.content, next.content);
      diffs := diffs + [Diff("", delta, None, NO_CALL)];
    }
    assert diffs == ReasoningDiffs(prev, next).value + ContentDiffs(prev, next).value;
    if |next.calls| < |prev.calls| {
      return Err(FewerToolCalls);
    }
    ghost var before := diffs;
    if prev.calls != [] {
      var idx := |prev.calls| - 1;
      var pref, newf := prev.calls[idx], next.calls[idx];
      if pref.name != newf.name && pref.name != "" && newf.name != "" {
        if !(pref.name <= newf.name) {
          return Err(ToolCallMismatch);
        }
      }
      var argsDiff :- StringDiff(pref.arguments, newf.arguments);
      if argsDiff != "" || pref.id != newf.id || pref.name != newf.name {
        var call := NO_CALL;
        if pref.id != newf.id || pref.name != newf.name {
          call := call.(id := newf.id, name := newf.name);
        }
        call := call.(arguments := argsDiff);
        diffs := diffs + [Diff("", "", Some(idx), call)];
      }
      assert diffs == before + LastCallDiffs(idx, pref, newf).value;
    }
    ghost var last := if prev.calls == [] then [] else
      LastCallDiffs(|prev.calls| - 1, prev.calls[|prev.calls| - 1], next.calls[|prev.calls| - 1]).value;
    assert diffs == before + last;
    var idx := |prev.calls|;
    ghost var all := diffs + NewCallDiffs(next, idx);
    while idx < |next.calls|
      invariant |prev.calls| <= idx <= |next.calls|
      invariant diffs + NewCallDiffs(next, idx) == all
    {
      diffs := diffs + [Diff("", "", Some(idx), next.calls[idx])];
      idx := idx + 1;
    }
    assert diffs == all;
    return Ok(diffs);
  }

  // ----- The client -----

  /** What a client that has accumulated `m` holds after one delta. */
  function Apply(m: Message, d: Diff): Message {
    var m' := m.(reasoning := m.reasoning + d.reasoning, content := m.content + d.content);
    if d.index.None? || d.index.value > |m.calls| then m'
    else if d.index.value == |m.calls| then m'.(calls := m.calls + [d.call])
    else m'.(calls := m.calls[d.index.value := Merge(m.calls[d.index.value], d.call)])
  }

  /** A delta's id and name replace the old ones when given; its arguments are appended. */
  function Merge(old': ToolCall, delta: ToolCall): ToolCall {
    ToolCall(if delta.name != "" then delta.name else old'.name,
             old'.arguments + delta.arguments,
             if delta.id != "" then delta.id else old'.id)
  }

  function ApplyAll(m: Message, diffs: seq<Diff>): Message
    decreases |diffs|
  {
    if diffs == [] then m else ApplyAll(Apply(m, diffs[0]), diffs[1..])
  }

  lemma {:induction false} ApplyConcat(m: Message, a: seq<Diff>, b: seq<Diff>)
    ensures ApplyAll(m, a + b) == ApplyAll(ApplyAll(m, a), b)
    decreases |a|
  {
    if a == [] {
      assert a + b == b;
    } else {
      assert (a + b)[1..] == a[1..] + b;
      ApplyConcat(Apply(m, a[0]), a[1..], b);
    }
  }

  // ----- When do the deltas carry one message into the next? -----

  predicate CallGrows(a: ToolCall, b: ToolCall) {
    a.name <= b.name && a.arguments <= b.arguments && (a.id == b.id || b.id != "")
  }

  /** Texts only get longer, calls are only added, and only the last call of the old message may change. */
  predicate Grows(prev: Message, next: Message) {
    var n := |prev.calls|;
    && prev.reasoning <= next.reasoning
    && prev.content <= next.content
    && n <= |next.calls|
    && (forall i :: 0 <= i < n - 1 ==> prev.calls[i] == next.calls[i])
    && (n > 0 ==> CallGrows(prev.calls[n - 1], next.calls[n - 1]))
  }

  lemma GrowsIsTransitive(a: Message, b: Message, c: Message)
    requires Grows(a, b) && Grows(b, c)
    ensures Grows(a, c)
  {
    var n := |a.calls|;
    if n > 0 && n < |b.calls| {
      assert b.calls[n - 1] == c.calls[n - 1];
    }
  }

  predicate Comparable(a: string, b: string) {
    a <= b || b <= a
  }

  /** Exactly when `compute_diffs` does not throw. */
  lemma DiffsSucceedExactly(prev: Message, next: Message)
    ensures DiffsOf(prev, next).Ok? <==>
      var n := |prev.calls|;
      && Comparable(prev.reasoning, next.reasoning)
      && Comparable(prev.content, next.content)
      && n <= |next.calls|
      && (n > 0 ==> var a, b := prev.calls[n - 1], next.calls[n - 1];
                    Comparable(a.arguments, b.arguments) && (b.name == "" || a.name <= b.name))
  {
    assert "" <= next.reasoning && "" <= next.content;
  }

  lemma {:induction false} NewCallsAreAppended(m: Message, next: Message, i: nat)
    requires i == |m.calls| <= |next.calls|
    ensures ApplyAll(m, NewCallDiffs(next, i)) == m.(calls := m.calls + next.calls[i..])
    decreases |next.calls| - i
  {
    if i < |next.calls| {
      var d := Diff("", "", Some(i), next.calls[i]);
      var rest := NewCallDiffs(next, i + 1);
      assert ([d] + rest)[1..] == rest;
      var m' := Apply(m, d);
      assert m'.reasoning == m.reasoning && m'.content == m.content;
      NewCallsAreAppended(m', next, i + 1);
      assert m.calls + [next.calls[i]] + next.calls[i + 1..] == m.calls + next.calls[i..];
    } else {
      assert m.calls + next.calls[i..] == m.calls;
    }
  }

  /** What a client holds after the deltas, without following them one by one. */
  function Rebuilt(prev: Message, next: Message): Message
    requires DiffsOf(prev, next).Ok?
  {
    var n := |prev.calls|;
    Message(Joined(prev.reasoning, next.reasoning), Joined(prev.content, next.content),
            if n == 0 then next.calls
            else prev.calls[..n - 1] + [RebuiltCall(prev.calls[n - 1], next.calls[n - 1])] + next.calls[n..])
  }

  /** The longer of two comparable strings. */
  function Joined(a: string, b: string): string {
    if a <= b then b else a
  }

  function RebuiltCall(a: ToolCall, b: ToolCall): ToolCall {
    ToolCall(if b.name != "" then b.name else a.name, Joined(a.arguments, b.arguments),
             if b.id != "" then b.id else a.id)
  }

  lemma DeltaJoins(a: string, b: string)
    requires StringDiff(a, b).Ok?
    ensures a + StringDiff(a, b).value == Joined(a, b)
  {
  }

  lemma LastCallIsMerged(m: Message, a: ToolCall, b: ToolCall)
    requires m.calls != [] && m.calls[|m.calls| - 1] == a
    requires LastCallDiffs(|m.calls| - 1, a, b).Ok?
    ensures ApplyAll(m, LastCallDiffs(|m.calls| - 1, a, b).value)
            == m.(calls := m.calls[..|m.calls| - 1] + [RebuiltCall(a, b)])
  {
    var n := |m.calls|;
    var diffs := LastCallDiffs(n - 1, a, b).value;
    DeltaJoins(a.arguments, b.arguments);
    if diffs == [] {
      assert Joined(a.arguments, b.arguments) == a.arguments + "";
      assert RebuiltCall(a, b) == a;
      assert m.calls[..n - 1] + [a] == m.calls;
    } else {
      LastDelta(n - 1, a, b);
      assert ApplyAll(m, diffs) == Apply(m, diffs[0]);
      hide StringDiff, LastCallDiffs, RebuiltCall, Joined;
      SetLast(m.calls, RebuiltCall(a, b));
      assert m.reasoning + "" == m.reasoning && m.content + "" == m.content;
    }
  }

  /** The one delta of a call that has changed. */
  lemma LastDelta(i: nat, a: ToolCall, b: ToolCall)
    requires LastCallDiffs(i, a, b).Ok? && LastCallDiffs(i, a, b).value != []
    ensures var diffs := LastCallDiffs(i, a, b).value;
            && |diffs| == 1 && diffs[0].reasoning == "" && diffs[0].content == "" && diffs[0].index == Some(i)
            && Merge(a, diffs[0].call) == RebuiltCall(a, b)
  {
    DeltaJoins(a.arguments, b.arguments);
  }

  lemma SetLast(calls: seq<ToolCall>, t: ToolCall)
    requires calls != []
    ensures var n := |calls|; calls[n - 1 := t] == calls[..n - 1] + [t]
  {
  }

  lemma TextsAreJoined(prev: Message, next: Message)
    requires ReasoningDiffs(prev, next).Ok? && ContentDiffs(prev, next).Ok?
    ensures ApplyAll(prev, ReasoningDiffs(prev, next).value + ContentDiffs(prev, next).value)
            == prev.(reasoning := Joined(prev.reasoning, next.reasoning), content := Joined(prev.content, next.content))
  {
    var r, c := ReasoningDiffs(prev, next).value, ContentDiffs(prev, next).value;
    ApplyConcat(prev, r, c);
    var m := prev.(reasoning := Joined(prev.reasoning, next.reasoning));
    assert ApplyAll(prev, r) == m by {
      if r != [] {
        DeltaJoins(prev.reasoning, next.reasoning);
        assert ApplyAll(prev, r) == Apply(prev, r[0]);
        assert prev.content + "" == prev.content;
      }
    }
    if c != [] {
      DeltaJoins(prev.content, next.content);
      assert ApplyAll(m, c) == Apply(m, c[0]);
      assert m.reasoning + "" == m.reasoning;
    }
  }

  lemma DeltasRebuild(prev: Message, next: Message)
    requires DiffsOf(prev, next).Ok?
    ensures ApplyAll(prev, DiffsOf(prev, next).value) == Rebuilt(prev, next)
  {
    var n := |prev.calls|;
    var texts := ReasoningDiffs(prev, next).value + ContentDiffs(prev, next).value;
    TextsAreJoined(prev, next);
    var m := ApplyAll(prev, texts);
    var last := if n == 0 then [] else LastCallDiffs(n - 1, prev.calls[n - 1], next.calls[n - 1]).value;
    ApplyConcat(prev, texts, last);
    ApplyConcat(prev, texts + last, NewCallDiffs(next, n));
    if n > 0 {
      LastCallIsMerged(m, prev.calls[n - 1], next.calls[n - 1]);
    } else {
      assert next.calls == next.calls[0..];
    }
    NewCallsAreAppended(ApplyAll(m, last), next, n);
  }

  /** Computing the deltas succeeds and the client ends with the new message exactly when the message has grown. */
  lemma ClientFollowsExactlyGrowth(prev: Message, next: Message)
    ensures (DiffsOf(prev, next).Ok? && ApplyAll(prev, DiffsOf(prev, next).value) == next) <==> Grows(prev, next)
  {
    hide DiffsOf, ApplyAll;
    DiffsSucceedExactly(prev, next);
    if DiffsOf(prev, next).Ok? {
      DeltasRebuild(prev, next);
      var n := |prev.calls|;
      var r := Rebuilt(prev, next);
      if r == next && n > 0 {
        assert r.calls[n - 1] == RebuiltCall(prev.calls[n - 1], next.calls[n - 1]);
        forall i | 0 <= i < n - 1
          ensures prev.calls[i] == next.calls[i]
        {
          assert r.calls[i] == prev.calls[i];
        }
      }
      if Grows(prev, next) {
        assert r.calls == next.calls;
      }
    }
  }

  /** All deltas sent while the messages `ms` were produced one after another. */
  function AllDiffs(ms: seq<Message>): Result<seq<Diff>, DiffError> {
    if |ms| < 2 then Ok([])
    else
      var first :- DiffsOf(ms[0], ms[1]);
      var rest :- AllDiffs(ms[1..]);
      Ok(first + rest)
  }

  /** Over a whole growing run nothing throws, and the client ends with the last message. */
  lemma {:induction false} ClientFollowsRun(ms: seq<Message>)
    requires ms != [] && forall i :: 0 <= i < |ms| - 1 ==> Grows(ms[i], ms[i + 1])
    ensures AllDiffs(ms).Ok? && ApplyAll(ms[0], AllDiffs(ms).value) == ms[|ms| - 1]
    decreases |ms|
  {
    if |ms| > 1 {
      assert Grows(ms[0], ms[1]);
      ClientFollowsExactlyGrowth(ms[0], ms[1]);
      forall i | 0 <= i < |ms[1..]| - 1
        ensures Grows(ms[1..][i], ms[1..][i + 1])
      {
        assert Grows(ms[i + 1], ms[i + 1 + 1]);
      }
      ClientFollowsRun(ms[1..]);
      ApplyConcat(ms[0], DiffsOf(ms[0], ms[1]).value, AllDiffs(ms[1..]).value);
    }
  }

  // ----- What the deltas say -----

  /** The delta of a call that changed its id or name says both; others say neither. */
  lemma ChangedCallIsSentWhole(prev: Message, next: Message, k: nat)
    requires prev.calls != [] && DiffsOf(prev, next).Ok? && k < |DiffsOf(prev, next).value|
    requires var n := |prev.calls|; DiffsOf(prev, next).value[k].index == Some(n - 1)
    ensures |next.calls| >= |prev.calls|
    ensures var n, call := |prev.calls|, DiffsOf(prev, next).value[k].call;
            var a, b := prev.calls[n - 1], next.calls[n - 1];
            && a.arguments + call.arguments == Joined(a.arguments, b.arguments)
            && if a.id != b.id || a.name != b.name then call.name == b.name && call.id == b.id
               else call.name == "" && call.id == "" && call.arguments != ""
  {
    var n := |prev.calls|;
    var diffs := DiffsOf(prev, next).value;
    var texts := ReasoningDiffs(prev, next).value + ContentDiffs(prev, next).value;
    var last := LastCallDiffs(n - 1, prev.calls[n - 1], next.calls[n - 1]).value;
    DeltaJoins(prev.calls[n - 1].arguments, next.calls[n - 1].arguments);
    assert diffs == texts + last + NewCallDiffs(next, n);
    if k >= |texts| + |last| {
      NewCallsComeLater(next, n, k - |texts| - |last|);
    }
  }

  lemma {:induction false} NewCallsComeLater(next: Message, i: nat, k: nat)
    requires k < |NewCallDiffs(next, i)|
    ensures i + k < |next.calls| && NewCallDiffs(next, i)[k] == Diff("", "", Some(i + k), next.calls[i + k])
    decreases k
  {
    if k > 0 {
      NewCallsComeLater(next, i + 1, k - 1);
    }
  }

  /** A delta carries reasoning, content or a call, and never two of them. */
  lemma DeltasCarryOneThing(prev: Message, next: Message, k: nat)
    requires DiffsOf(prev, next).Ok? && k < |DiffsOf(prev, next).value|
    ensures var d := DiffsOf(prev, next).value[k];
            (d.reasoning == "" || d.content == "")
            && (d.index.Some? ==> d.reasoning == "" && d.content == "") && (d.index.None? ==> d.call == NO_CALL)
  {
    var n := |prev.calls|;
    var texts := ReasoningDiffs(prev, next).value + ContentDiffs(prev, next).value;
    var last := if n == 0 then [] else LastCallDiffs(n - 1, prev.calls[n - 1], next.calls[n - 1]).value;
    assert DiffsOf(prev, next).value == texts + last + NewCallDiffs(next, n);
    if k >= |texts| + |last| {
      NewCallsComeLater(next, n, k - |texts| - |last|);
    }
  }
}
