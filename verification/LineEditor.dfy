/** The input history of the console (`history_t`). */
module LineHistory {
  import opened Wrappers
  import opened Basics
  import opened Utf8

  /** The history as lists of code points; `viewing` is absent when no old line is being looked at. */
  datatype Past = Past(entries: seq<seq<CodePoint>>, viewing: Option<nat>, backup: seq<CodePoint>) {
    predicate Valid() {
      viewing.Some? ==> viewing.value <= |entries|
    }
  }

  const NO_PAST := Past([], None, [])

  function EndViewing(p: Past): Past {
    p.(viewing := None, backup := [])
  }

  function Add(p: Past, line: seq<CodePoint>): Past {
    if line == [] then p
    else if p.entries == [] || p.entries[|p.entries| - 1] != line then EndViewing(p.(entries := p.entries + [line]))
    else EndViewing(p)
  }

  function BeginViewing(p: Past, line: seq<CodePoint>): Past {
    p.(viewing := Some(|p.entries|), backup := line)
  }

  function Prev(p: Past): Option<(Past, seq<CodePoint>)>
    requires p.Valid()
  {
    if p.entries == [] || p.viewing.None? then None
    else
      var i := if p.viewing.value > 0 then p.viewing.value - 1 else 0;
      Some((p.(viewing := Some(i)), p.entries[i]))
  }

  function Next(p: Past): Option<(Past, seq<CodePoint>)>
    requires p.Valid()
  {
    if p.entries == [] || p.viewing.None? then None
    else if p.viewing.value + 1 >= |p.entries| then Some((EndViewing(p), p.backup))
    else Some((p.(viewing := Some(p.viewing.value + 1)), p.entries[p.viewing.value + 1]))
  }

  /** Adding a line of bytes: not when it is empty or was the last one. */
  function AddedBytes(entries: seq<seq<byte>>, line: seq<byte>): seq<seq<byte>> {
    if line == [] || (entries != [] && entries[|entries| - 1] == line) then entries else entries + [line]
  }

  class History {
    var entries: seq<seq<byte>>
    var viewingIdx: Option<nat>
    var backupLine: seq<byte>
    ghost var past: Past

    ghost predicate Valid()
      reads this
    {
      && past.Valid() && viewingIdx == past.viewing && backupLine == Encode(past.backup)
      && |entries| == |past.entries| && forall i :: 0 <= i < |entries| ==> entries[i] == Encode(past.entries[i])
    }

    constructor ()
      ensures Valid() && past == NO_PAST
    {
      entries, viewingIdx, backupLine := [], None, [];
      past := NO_PAST;
    }

    /** The history holds code points only as long as the lines that are added are well-formed. */
    method AddLine(line: seq<byte>)
      requires Valid()
      modifies this
      ensures entries == AddedBytes(old(entries), line)
      ensures Valid() <==> IsWellFormed(line)
      ensures Valid() ==> past == Add(old(past), Chars(line))
    {
      OnlyEmptyEncodesEmpty([]);
      if line == [] {
        CharsOfEncoded([]);
        return;
      }
      SameLastEntry(line);
      OldEntriesAreWellFormed();
      hide Encode;
      if entries == [] || entries[|entries| - 1] != line {
        entries := entries + [line];
      }
      End();
      past := if IsWellFormed(line) then Add(old(past), Chars(line)) else past;
    }

    lemma OldEntriesAreWellFormed()
      requires Valid()
      ensures forall i :: 0 <= i < |entries| ==> IsWellFormed(entries[i])
    {
      hide Encode;
    }

    lemma SameLastEntry(line: seq<byte>)
      requires Valid()
      ensures IsWellFormed(line) ==> (line == [] <==> Chars(line) == [])
      ensures IsWellFormed(line) && entries != [] ==>
                (entries[|entries| - 1] == line <==> past.entries[|entries| - 1] == Chars(line))
    {
      if IsWellFormed(line) {
        OnlyEmptyEncodesEmpty(Chars(line));
        if entries != [] && entries[|entries| - 1] == line {
          EncodeIsInjective(past.entries[|entries| - 1], Chars(line));
        }
      }
    }

    method End()
      modifies this`viewingIdx, this`backupLine, this`past
      ensures viewingIdx == None && backupLine == [] && past == EndViewing(old(past))
    {
      viewingIdx := None;
      backupLine := [];
      past := EndViewing(past);
    }

    method Begin(line: seq<byte>, ghost cps: seq<CodePoint>)
      requires Valid() && line == Encode(cps)
      modifies this
      ensures Valid() && past == BeginViewing(old(past), cps)
    {
      backupLine := line;
      viewingIdx := Some(|entries|);
      past := BeginViewing(past, cps);
    }

    /** `prev`: absent where the source returns false. */
    method PrevLine() returns (r: Option<seq<byte>>)
      requires Valid()
      modifies this
      ensures Valid()
      ensures match Prev(old(past))
              case None => r == None && past == old(past)
              case Some(next) => past == next.0 && r == Some(Encode(next.1))
    {
      if entries == [] || viewingIdx == None {
        return None;
      }
      if viewingIdx.value > 0 {
        viewingIdx := Some(viewingIdx.value - 1);
      }
      past := Prev(past).value.0;
      return Some(entries[viewingIdx.value]);
    }

    method NextLine() returns (r: Option<seq<byte>>)
      requires Valid()
      modifies this
      ensures Valid()
      ensures match Next(old(past))
              case None => r == None && past == old(past)
              case Some(next) => past == next.0 && r == Some(Encode(next.1))
    {
      if entries == [] || viewingIdx == None {
        return None;
      }
      viewingIdx := Some(viewingIdx.value + 1);
      if viewingIdx.value >= |entries| {
        r := Some(backupLine);
        End();
        past := Next(old(past)).value.0;
      } else {
        r := Some(entries[viewingIdx.value]);
        past := Next(past).value.0;
      }
    }
  }
}

/**
  The line editor of the console (`readline_advanced`). A byte buffer with two cursors and a list of widths refines a
  list of code points with one cursor, and the terminal column is always the width of what precedes the cursor.
*/
module LineEditor {
  import opened Wrappers
  import opened Basics
  import opened Utf8
  import opened LineHistory

  const BACKSLASH: CodePoint := 92
  const SLASH: CodePoint := 47
  const TAB: CodePoint := 9

  /** A key after escape sequences have been read. `Insert` is any code point without another meaning. */
  datatype Key =
    | Insert(c: CodePoint)
    | Complete(candidates: seq<(seq<byte>, nat)>)
    | Left | Right | WordLeft | WordRight | Home | End
    | Delete | Backspace
    | Up | Down
    | Ignored

  /** The editor as a user thinks of it. */
  datatype State = State(cps: seq<CodePoint>, cursor: nat, special: bool, past: Past) {
    predicate Valid() {
      cursor <= |cps| && past.Valid()
    }
  }

  predicate EndsSpecial(cps: seq<CodePoint>) {
    cps != [] && (cps[|cps| - 1] == BACKSLASH || cps[|cps| - 1] == SLASH)
  }

  /** The start of the run of code points before `k` that are spaces, or are not. */
  function SkipBack(isSpace: CodePoint -> bool, cps: seq<CodePoint>, k: nat, spaces: bool): (r: nat)
    requires k <= |cps|
    ensures r <= k
    ensures forall i :: r <= i < k ==> isSpace(cps[i]) == spaces
    ensures r > 0 ==> isSpace(cps[r - 1]) != spaces
  {
    if k > 0 && isSpace(cps[k - 1]) == spaces then SkipBack(isSpace, cps, k - 1, spaces) else k
  }

  function SkipForward(isSpace: CodePoint -> bool, cps: seq<CodePoint>, k: nat, spaces: bool): (r: nat)
    requires k <= |cps|
    ensures k <= r <= |cps|
    ensures forall i :: k <= i < r ==> isSpace(cps[i]) == spaces
    ensures r < |cps| ==> isSpace(cps[r]) != spaces
    decreases |cps| - k
  {
    if k < |cps| && isSpace(cps[k]) == spaces then SkipForward(isSpace, cps, k + 1, spaces) else k
  }

  /** The last code point start, up to the `k`-th, that is within the first `pos` bytes. */
  function StartWithin(cps: seq<CodePoint>, pos: nat, k: nat): (r: nat)
    requires k <= |cps|
    ensures r <= k
  {
    if k > 0 && Offset(cps, k) > pos then StartWithin(cps, pos, k - 1) else k
  }

  function Show(s: State, r: Option<(Past, seq<CodePoint>)>): State {
    match r
    case None => s
    case Some(next) => s.(past := next.0, cps := next.1, cursor := |next.1|)
  }

  /** What a key does to the text, the cursor and the history. */
  function Edit(isSpace: CodePoint -> bool, s: State, key: Key): (s': State)
    requires s.Valid()
    ensures s'.Valid()
  {
    match key
    case Insert(c) => s.(cps := s.cps[..s.cursor] + [c] + s.cps[s.cursor..], cursor := s.cursor + 1)
    case Left => if s.cursor > 0 then s.(cursor := s.cursor - 1) else s
    case Right => if s.cursor < |s.cps| then s.(cursor := s.cursor + 1) else s
    case WordLeft => s.(cursor := SkipBack(isSpace, s.cps, SkipBack(isSpace, s.cps, s.cursor, true), false))
    case WordRight =>
      var wordStart := SkipForward(isSpace, s.cps, s.cursor, true);
      var wordEnd := SkipForward(isSpace, s.cps, wordStart, false);
      s.(cursor := SkipForward(isSpace, s.cps, wordEnd, true))
    case Home => s.(cursor := 0)
    case End => s.(cursor := |s.cps|)
    case Delete => if s.cursor < |s.cps| then s.(cps := s.cps[..s.cursor] + s.cps[s.cursor + 1..]) else s
    case Backspace =>
      if s.cursor > 0
      then s.(cps := s.cps[..s.cursor - 1] + s.cps[s.cursor..], cursor := s.cursor - 1)
      else s
    case Up =>
      var viewing := if s.past.viewing.Some? then s.past else BeginViewing(s.past, s.cps);
      Show(s.(past := viewing), Prev(viewing))
    case Down => if s.past.viewing.Some? then Show(s, Next(s.past)) else s
    case Complete(_) | Ignored => s
  }

  /** Completions must be well-formed, and must not empty a line that still owes its trailing mark a redraw. */
  ghost predicate Acceptable(s: State, key: Key) {
    key.Complete? && key.candidates != [] ==>
      IsWellFormed(key.candidates[0].0) && (s.special ==> key.candidates[0].0 != [])
  }

  /** One turn of the key loop. A completion skips the end of the turn, where the trailing mark is looked for. */
  ghost function Turn(isSpace: CodePoint -> bool, s: State, key: Key): (s': State)
    requires s.Valid() && Acceptable(s, key)
    ensures s'.Valid()
  {
    if key.Complete? && key.candidates != [] then
      if |key.candidates| > 1 || key.candidates[0].0 != Encode(s.cps) then
        var cps := Chars(key.candidates[0].0);
        s.(cps := cps, cursor := StartWithin(cps, key.candidates[0].1, |cps|))
      else s
    else
      var edited := Edit(isSpace, s, if key.Complete? then Insert(TAB) else key);
      edited.(special := EndsSpecial(edited.cps))
  }

  function Sum(ws: seq<nat>): nat {
    if ws == [] then 0 else Sum(ws[..|ws| - 1]) + ws[|ws| - 1]
  }

  lemma {:induction false} SumConcat(a: seq<nat>, b: seq<nat>)
    ensures Sum(a + b) == Sum(a) + Sum(b)
    decreases |b|
  {
    if b == [] {
      assert a + b == a;
    } else {
      assert (a + b)[..|a + b| - 1] == a + b[..|b| - 1];
      SumConcat(a, b[..|b| - 1]);
    }
  }

  lemma SumSplit(ws: seq<nat>, k: nat)
    requires k <= |ws|
    ensures Sum(ws) == Sum(ws[..k]) + Sum(ws[k..])
  {
    assert ws == ws[..k] + ws[k..];
    SumConcat(ws[..k], ws[k..]);
  }

  lemma SumStep(ws: seq<nat>, k: nat)
    requires k < |ws|
    ensures Sum(ws[..k + 1]) == Sum(ws[..k]) + ws[k]
    ensures Sum(ws[k..]) == ws[k] + Sum(ws[k + 1..])
  {
    assert ws[..k + 1][..k] == ws[..k];
    assert ws[k..] == [ws[k]] + ws[k + 1..];
    SumConcat([ws[k]], ws[k + 1..]);
    assert [ws[k]][..0] == [];
  }

  function Widths(width: CodePoint -> nat, cps: seq<CodePoint>): (ws: seq<nat>)
    ensures |ws| == |cps| && forall i :: 0 <= i < |cps| ==> ws[i] == width(cps[i])
  {
    seq(|cps|, i requires 0 <= i < |cps| => width(cps[i]))
  }

  class Editor {
    const isSpace: CodePoint -> bool
    /** How far the terminal moves when it prints a code point; `put_codepoint` reports the same number. */
    const width: CodePoint -> nat
    const history: History
    var line: seq<byte>
    var widths: seq<nat>
    var charPos: nat
    var bytePos: nat
    var isSpecialChar: bool
    /** The terminal's column, counted from the start of the line. */
    var column: int
    ghost var cps: seq<CodePoint>

    /** The buffer, the widths and the two cursors all describe one list of code points and one cursor. */
    ghost predicate Text()
      reads this
    {
      line == Encode(cps) && widths == Widths(width, cps) && charPos <= |cps| && bytePos == Offset(cps, charPos)
    }

    ghost predicate Valid()
      reads this, history
    {
      Text() && column == Sum(widths[..charPos]) && history.Valid()
    }

    ghost function Abstract(): State
      reads this, history
    {
      State(cps, charPos, isSpecialChar, history.past)
    }

    constructor (isSpace: CodePoint -> bool, width: CodePoint -> nat)
      ensures Valid() && Abstract() == State([], 0, false, NO_PAST) && fresh(history)
      ensures this.isSpace == isSpace && this.width == width
    {
      this.isSpace, this.width := isSpace, width;
      history := new History();
      line, widths, charPos, bytePos, isSpecialChar, column := [], [], 0, 0, false, 0;
      cps := [];
    }

    method MoveCursor(delta: int)
      modifies this`column
      ensures column == old(column) + delta
    {
      column := column + delta;
    }

    /** Prints one encoded code point. */
    method PutCodepoint(bytes: seq<byte>, ghost c: CodePoint) returns (w: nat)
      requires bytes == EncodeOne(c)
      modifies this`column
      ensures w == width(c) && column == old(column) + width(c)
    {
      EncodedOneDecodes(c, [], []);
      assert [] + bytes + [] == bytes;
      var (d, _) := DecodeOne(bytes, 0);
      w := width(d);
      column := column + w;
    }

    /** The loop that prints the rest of the line again, from the code point `k` at byte `pos`. */
    method RedrawTail(k: nat, pos: nat) returns (tailWidth: nat)
      requires line == Encode(cps) && widths == Widths(width, cps) && k <= |cps| && pos == Offset(cps, k)
      modifies this`column
      ensures tailWidth == Sum(widths[k..]) && column == old(column) + tailWidth
    {
      var p := pos;
      tailWidth := 0;
      for i := k to |widths|
        invariant p == Offset(cps, i)
        invariant tailWidth + Sum(widths[i..]) == Sum(widths[k..])
        invariant column == old(column) + tailWidth
      {
        SumStep(widths, i);
        EncodeAround(cps, i);
        var following := NextCharPos(line, p, cps, i);
        NextIsOffset(cps, i);
        assert line[p..following] == EncodeOne(cps[i]);
        var _ := PutCodepoint(line[p..following], cps[i]);
        tailWidth := tailWidth + widths[i];
        p := following;
      }
      assert widths[|widths|..] == [];
    }

    method DeleteAtCursor()
      requires Valid()
      modifies this
      ensures Valid() && Abstract() == Edit(isSpace, old(Abstract()), Delete)
    {
      hide Encode, EncodeOne, Widths, Offset, Sum;
      if charPos >= |widths| {
        return;
      }
      var nextPos := NextCharPos(line, bytePos, cps, charPos);
      var w: int := widths[charPos];
      RemoveOne(cps, charPos, width);
      NextIsOffset(cps, charPos);
      line := line[..bytePos] + line[nextPos..];
      widths := widths[..charPos] + widths[charPos + 1..];
      cps := cps[..charPos] + cps[charPos + 1..];
      var tailWidth := RedrawTail(charPos, bytePos);
      column := column + w;
      MoveCursor(-(tailWidth + w));
    }

    method MoveToLineStart()
      requires Valid()
      modifies this`charPos, this`bytePos, this`column
      ensures Valid() && Abstract() == Edit(isSpace, old(Abstract()), Home)
    {
      hide Encode, Widths, Sum, Offset;
      StartOfLine(cps, widths);
      var backWidth: int := 0;
      for i := 0 to charPos
        invariant unchanged(this) && backWidth == Sum(widths[..i])
      {
        SumStep(widths, i);
        backWidth := backWidth + widths[i];
      }
      MoveCursor(-backWidth);
      charPos := 0;
      bytePos := 0;
    }

    method MoveToLineEnd()
      requires Valid()
      modifies this`charPos, this`bytePos, this`column
      ensures Valid() && Abstract() == Edit(isSpace, old(Abstract()), End)
    {
      hide Encode, Widths;
      var forwardWidth := 0;
      for i := charPos to |widths|
        invariant unchanged(this) && forwardWidth + Sum(widths[i..]) == Sum(widths[charPos..])
      {
        SumStep(widths, i);
        forwardWidth := forwardWidth + widths[i];
      }
      SumSplit(widths, charPos);
      assert widths[|widths|..] == [] && widths[..|widths|] == widths && cps[..|cps|] == cps;
      MoveCursor(forwardWidth);
      charPos := |widths|;
      bytePos := |line|;
    }

    method MoveLeft()
      requires Valid()
      modifies this`charPos, this`bytePos, this`column
      ensures Valid() && Abstract() == Edit(isSpace, old(Abstract()), Left)
    {
      hide Encode, Widths, Sum, Offset;
      if charPos > 0 {
        SumStep(widths, charPos - 1);
        MoveCursor(-(widths[charPos - 1] as int));
        bytePos := PrevCharPos(line, bytePos, cps, charPos);
        charPos := charPos - 1;
      }
    }

    method MoveRight()
      requires Valid()
      modifies this`charPos, this`bytePos, this`column
      ensures Valid() && Abstract() == Edit(isSpace, old(Abstract()), Right)
    {
      hide Encode, Widths, Sum, Offset;
      if charPos < |widths| {
        SumStep(widths, charPos);
        MoveCursor(widths[charPos]);
        bytePos := NextCharPos(line, bytePos, cps, charPos);
        charPos := charPos + 1;
      }
    }

    method DeleteBackwards()
      requires Valid()
      modifies this
      ensures Valid() && Abstract() == Edit(isSpace, old(Abstract()), Backspace)
    {
      hide Encode, EncodeOne, Widths, Offset, Sum;
      if charPos > 0 {
        var w: int := widths[charPos - 1];
        SumStep(widths, charPos - 1);
        MoveCursor(-w);
        RemoveOne(cps, charPos - 1, width);
        var prevPos := PrevCharPos(line, bytePos, cps, charPos);
        line := line[..prevPos] + line[bytePos..];
        bytePos := prevPos;
        charPos := charPos - 1;
        widths := widths[..charPos] + widths[charPos + 1..];
        cps := cps[..charPos] + cps[charPos + 1..];
        var tailWidth := RedrawTail(charPos, bytePos);
        column := column + w;
        MoveCursor(-(tailWidth + w));
      }
    }

    method InsertChar(c: CodePoint)
      requires Valid()
      modifies this
      ensures Valid() && Abstract() == Edit(isSpace, old(Abstract()), Insert(c))
    {
      hide Encode, EncodeOne, Widths, Offset, Sum;
      var bytes := EncodeOne(c);
      InsertOne(cps, charPos, c, width);
      ghost var cps' := cps[..charPos] + [c] + cps[charPos..];
      SumStep(Widths(width, cps'), charPos);
      if charPos == |widths| {
        AtTheEnd(cps, charPos, bytes, widths, width(c));
        line := line + bytes;
        var realWidth := PutCodepoint(bytes, c);
        widths := widths + [realWidth];
        cps := cps';
      } else {
        line := line[..bytePos] + bytes + line[bytePos..];
        var realWidth := PutCodepoint(bytes, c);
        widths := widths[..charPos] + [realWidth] + widths[charPos..];
        cps := cps';
        var tailWidth := RedrawTail(charPos + 1, bytePos + |bytes|);
        MoveCursor(-(tailWidth as int));
      }
      bytePos := bytePos + |bytes|;
      charPos := charPos + 1;
    }

    method MoveWordLeft()
      requires Valid()
      modifies this`charPos, this`bytePos, this`column
      ensures Valid() && Abstract() == Edit(isSpace, old(Abstract()), WordLeft)
    {
      hide Encode, Widths, Sum, Offset;
      if charPos == 0 {
        return;
      }
      var wordEnd, endByte, w1 := SkipLeft(charPos, bytePos, true);
      var newCharPos, newBytePos, w2 := SkipLeft(wordEnd, endByte, false);
      MoveCursor(-(w1 + w2));
      charPos := newCharPos;
      bytePos := newBytePos;
    }

    /** One of the two loops of `move_word_left`. */
    method SkipLeft(k: nat, pos: nat, spaces: bool) returns (k': nat, pos': nat, moved: int)
      requires line == Encode(cps) && widths == Widths(width, cps) && k <= |cps| && pos == Offset(cps, k)
      ensures k' == SkipBack(isSpace, cps, k, spaces) && pos' == Offset(cps, k')
      ensures Sum(widths[..k']) + moved == Sum(widths[..k])
    {
      hide Encode, Widths, Sum, DecodeOne, Offset;
      k', pos', moved := k, pos, 0;
      while k' > 0
        invariant k' <= k && pos' == Offset(cps, k')
        invariant SkipBack(isSpace, cps, k', spaces) == SkipBack(isSpace, cps, k, spaces)
        invariant Sum(widths[..k']) + moved == Sum(widths[..k])
        decreases k'
      {
        var prevByte := PrevCharPos(line, pos', cps, k');
        DecodesAt(cps, k' - 1);
        SumStep(widths, k' - 1);
        var (cp, _) := DecodeOne(line, prevByte);
        if isSpace(cp) != spaces {
          break;
        }
        moved := moved + widths[k' - 1];
        k' := k' - 1;
        pos' := prevByte;
      }
    }

    method MoveWordRight()
      requires Valid()
      modifies this`charPos, this`bytePos, this`column
      ensures Valid() && Abstract() == Edit(isSpace, old(Abstract()), WordRight)
    {
      hide Encode, Widths, Sum, Offset;
      if charPos >= |widths| {
        return;
      }
      var wordStart, startByte, w1 := SkipRight(charPos, bytePos, true);
      var wordEnd, endByte, w2 := SkipRight(wordStart, startByte, false);
      var newCharPos, newBytePos, w3 := SkipRight(wordEnd, endByte, true);
      MoveCursor(w1 + w2 + w3);
      charPos := newCharPos;
      bytePos := newBytePos;
    }

    /** One of the three loops of `move_word_right`. */
    method SkipRight(k: nat, pos: nat, spaces: bool) returns (k': nat, pos': nat, moved: int)
      requires line == Encode(cps) && widths == Widths(width, cps) && k <= |cps| && pos == Offset(cps, k)
      ensures k' == SkipForward(isSpace, cps, k, spaces) && pos' == Offset(cps, k')
      ensures Sum(widths[..k']) == Sum(widths[..k]) + moved
    {
      hide Encode, Widths, Sum, DecodeOne, Offset;
      k', pos', moved := k, pos, 0;
      while k' < |widths|
        invariant k <= k' <= |cps| && pos' == Offset(cps, k')
        invariant SkipForward(isSpace, cps, k', spaces) == SkipForward(isSpace, cps, k, spaces)
        invariant Sum(widths[..k']) == Sum(widths[..k]) + moved
        decreases |widths| - k'
      {
        DecodesAt(cps, k');
        SumStep(widths, k');
        var (cp, advance) := DecodeOne(line, pos');
        if isSpace(cp) != spaces {
          break;
        }
        moved := moved + widths[k'];
        k' := k' + 1;
        pos' := pos' + advance;
      }
    }

    /** `clear_current_line` overwrites the line with spaces and goes back. */
    method ClearCurrentLine()
      modifies this`column
      ensures column == old(column)
    {
      var totalWidth := 0;
      for i := 0 to |widths|
        invariant column == old(column)
      {
        totalWidth := totalWidth + if widths[i] > 0 then widths[i] else 1;
      }
      if totalWidth > 0 {
        column := column + totalWidth;
        MoveCursor(-(totalWidth as int));
      }
    }

    /** `set_line_contents`, with a cursor position in bytes, or -1 for the end. */
    method SetLineContents(newLine: seq<byte>, cursorBytePos: int)
      requires Valid() && IsWellFormed(newLine)
      modifies this
      ensures Valid()
      ensures var cps' := Chars(newLine);
              var cursor := if cursorBytePos < 0 then |cps'| else StartWithin(cps', cursorBytePos, |cps'|);
              Abstract() == old(Abstract()).(cps := cps', cursor := cursor)
    {
      hide Encode, Widths, Sum, StartWithin;
      MoveToLineStart();
      NothingYet(width, cps);
      assert widths[..0] == [];
      ClearCurrentLine();
      cps := Chars(newLine);
      line := newLine;
      var backWidth;
      widths, charPos, bytePos, backWidth := PrintLine(newLine, cursorBytePos, cps);
      SumSplit(widths, charPos);
      if cursorBytePos >= 0 {
        MoveCursor(-backWidth);
      } else {
        assert widths[..charPos] == widths;
      }
    }

    /** Its loop: prints the new line, and finds the widths and the cursor. */
    method PrintLine(newLine: seq<byte>, cursorBytePos: int, ghost cps: seq<CodePoint>)
      returns (ws: seq<nat>, newCharPos: nat, newBytePos: nat, backWidth: int)
      requires newLine == Encode(cps)
      modifies this`column
      ensures ws == Widths(width, cps) && newCharPos <= |cps| && newBytePos == Offset(cps, newCharPos)
      ensures newCharPos == if cursorBytePos < 0 then |cps| else StartWithin(cps, cursorBytePos, |cps|)
      ensures column == old(column) + Sum(ws) && backWidth == Sum(ws[newCharPos..])
    {
      ws, newCharPos, newBytePos, backWidth := [], 0, 0, 0;
      var idx := 0;
      ghost var k := 0;
      ghost var all := Widths(width, cps);
      hide Printed, Encode, EncodeOne, DecodeOne, Widths, Sum, Offset, StartWithin;
      PrintedStart(cps, cursorBytePos, width);
      while idx < |newLine|
        invariant Printed(cps, all, cursorBytePos, k, idx, ws, newCharPos, newBytePos, backWidth)
        invariant idx <= |newLine| && column == old(column) + Sum(ws)
        decreases |newLine| - idx
      {
        PrintedNext(cps, all, cursorBytePos, k, idx, ws, newCharPos, newBytePos, backWidth, width);
        var advance, realWidth := PrintAt(newLine, idx, cps, k);
        ws := ws + [realWidth];
        idx := idx + advance;
        if cursorBytePos >= 0 && cursorBytePos < idx {
          backWidth := backWidth + realWidth;
        } else {
          newCharPos := newCharPos + 1;
          newBytePos := idx;
        }
        k := k + 1;
      }
      PrintedAll(cps, all, cursorBytePos, k, idx, ws, newCharPos, newBytePos, backWidth);
    }

    /** Decodes and prints one code point of the line. */
    method PrintAt(newLine: seq<byte>, idx: nat, ghost cps: seq<CodePoint>, ghost k: nat)
      returns (advance: nat, realWidth: nat)
      requires newLine == Encode(cps) && k < |cps| && idx == Offset(cps, k) < |newLine|
      modifies this`column
      ensures advance > 0 && idx + advance == Offset(cps, k + 1)
      ensures realWidth == width(cps[k]) && column == old(column) + realWidth
    {
      NextSlice(cps, k);
      hide Encode, EncodeOne, DecodeOne, Offset;
      advance := DecodeOne(newLine, idx).1;
      realWidth := PutCodepoint(newLine[idx..idx + advance], cps[k]);
    }

    method HistoryPrev()
      requires Valid()
      modifies this, history
      ensures Valid() && Abstract() == Edit(isSpace, old(Abstract()), Up)
    {
      hide Encode, Widths, Sum, Offset, StartWithin, Chars;
      if history.viewingIdx == None {
        history.Begin(line, cps);
      }
      var newLine := history.PrevLine();
      if newLine.Some? {
        ghost var past := old(history.past);
        ShownLine(Prev(if past.viewing.Some? then past else BeginViewing(past, cps)));
        SetLineContents(newLine.value, -1);
      }
    }

    method HistoryNext()
      requires Valid()
      modifies this, history
      ensures Valid() && Abstract() == Edit(isSpace, old(Abstract()), Down)
    {
      hide Encode, Widths, Sum, Offset, StartWithin, Chars;
      if history.viewingIdx != None {
        var newLine := history.NextLine();
        if newLine.Some? {
          ShownLine(Next(old(history.past)));
          SetLineContents(newLine.value, -1);
        }
      }
    }

    /** `replace_last`: one column back, and one character. */
    method ReplaceLast()
      requires line != []
      modifies this`column
      ensures column == old(column)
    {
      column := column - 1;
      column := column + 1;
    }

    method EditText(key: Key)
      requires Valid() && !key.Complete?
      modifies this, history
      ensures Valid() && Abstract() == Edit(isSpace, old(Abstract()), key)
    {
      match key
      case Insert(c) => InsertChar(c);
      case Left => MoveLeft();
      case Right => MoveRight();
      case WordLeft => MoveWordLeft();
      case WordRight => MoveWordRight();
      case Home => MoveToLineStart();
      case End => MoveToLineEnd();
      case Delete => DeleteAtCursor();
      case Backspace => DeleteBackwards();
      case Up => HistoryPrev();
      case Down => HistoryNext();
      case Ignored =>
    }

    /** One turn of the key loop. */
    method HandleKey(key: Key)
      requires Valid() && (isSpecialChar ==> cps != []) && Acceptable(Abstract(), key)
      modifies this, history
      ensures Valid() && (isSpecialChar ==> cps != [])
      ensures Abstract() == Turn(isSpace, old(Abstract()), key)
    {
      hide Encode, Widths, Sum, Offset, StartWithin, Chars, Edit;
      if key.Complete? && key.candidates != [] {
        if |key.candidates| > 1 || key.candidates[0].0 != line {
          OnlyEmptyEncodesEmpty(Chars(key.candidates[0].0));
          SetLineContents(key.candidates[0].0, key.candidates[0].1);
        }
        return;
      }
      if isSpecialChar {
        OnlyEmptyEncodesEmpty(cps);
        ReplaceLast();
        isSpecialChar := false;
      }
      ghost var before := Abstract();
      EditText(if key.Complete? then Insert(TAB) else key);
      EditIgnoresMark(isSpace, old(Abstract()), before, if key.Complete? then Insert(TAB) else key);
      if cps != [] {
        LastByte(cps, BACKSLASH);
        LastByte(cps, SLASH);
      }
      OnlyEmptyEncodesEmpty(cps);
      if line != [] && (line[|line| - 1] == BACKSLASH || line[|line| - 1] == SLASH) {
        ReplaceLast();
        isSpecialChar := true;
      }
    }

    /** A whole sequence of keys. */
    method Type(keys: seq<Key>)
      requires Valid() && (isSpecialChar ==> cps != []) && AllAcceptable(isSpace, Abstract(), keys)
      modifies this, history
      ensures Valid() && Abstract() == Turns(isSpace, old(Abstract()), keys)
    {
      for i := 0 to |keys|
        invariant Valid() && (isSpecialChar ==> cps != []) && AllAcceptable(isSpace, Abstract(), keys[i..])
        invariant Turns(isSpace, Abstract(), keys[i..]) == Turns(isSpace, old(Abstract()), keys)
      {
        assert keys[i..][0] == keys[i] && keys[i..][1..] == keys[i + 1..];
        HandleKey(keys[i]);
      }
    }

    /**
      The end of the line: what the caller is handed, whether input goes on, and what the history keeps. The mark may be
      stale; the history stays one of code points exactly when the line that is added to it is well-formed.
    */
    method FinishLine(endOfStream: bool, multilineInput: bool) returns (hasMore: bool)
      requires Valid() && (isSpecialChar ==> line != [])
      modifies this, history
      ensures (line, hasMore) == Finished(old(line), old(isSpecialChar), endOfStream, multilineInput)
      ensures history.entries == if endOfStream then old(history.entries)
                                 else AddedBytes(old(history.entries), WithoutNewlineByte(line))
      ensures history.Valid() <==> endOfStream || IsWellFormed(line)
      ensures endOfStream ==> history.past == old(history.past)
      ensures !endOfStream && IsWellFormed(line)
              ==> history.past == Add(old(history.past), WithoutNewline(Chars(line)))
      ensures (old(isSpecialChar) <==> EndsSpecial(old(cps))) ==>
                (hasMore <==> GoesOn(old(cps), endOfStream, multilineInput))
    {
      hide Encode, Widths, Sum, Offset, IsWellFormed, Chars, GoesOn, EndsSpecial, Add, WithoutNewline;
      hide WithoutNewlineByte, AddedBytes;
      OnlyEmptyEncodesEmpty(cps);
      GoesOnExactly(cps, isSpecialChar, endOfStream, multilineInput);
      hasMore := multilineInput;
      if isSpecialChar {
        var last := line[|line| - 1];
        line := line[..|line| - 1];
        if last == BACKSLASH {
          line := line + [NEWLINE];
          hasMore := !hasMore;
        } else {
          if line == [SPACE] {
            line := [];
          }
          hasMore := false;
        }
      } else if endOfStream {
        hasMore := false;
      } else {
        line := line + [NEWLINE];
      }
      RememberLine(endOfStream);
    }

    /** The history keeps the line that is handed over, without the line break at its end. */
    method RememberLine(endOfStream: bool)
      requires history.Valid()
      modifies history
      ensures history.entries == if endOfStream then old(history.entries)
                                 else AddedBytes(old(history.entries), WithoutNewlineByte(line))
      ensures history.Valid() <==> endOfStream || IsWellFormed(line)
      ensures endOfStream ==> history.past == old(history.past)
      ensures !endOfStream && IsWellFormed(line)
              ==> history.past == Add(old(history.past), WithoutNewline(Chars(line)))
    {
      hide IsWellFormed, Chars, Add, WithoutNewline;
      NewlineDoesNotMatter(line);
      AddNothing(history.past);
      if !endOfStream && line != [] {
        var hline := line;
        if line[|line| - 1] == NEWLINE {
          hline := line[..|line| - 1];
        }
        history.AddLine(hline);
      }
    }
  }

  lemma AddNothing(p: Past)
    ensures IsWellFormed([]) && Chars([]) == [] && WithoutNewline(Chars([])) == [] && Add(p, []) == p
  {
    CharsOfEncoded([]);
  }

  function WithoutNewlineByte(line: seq<byte>): seq<byte> {
    if line != [] && line[|line| - 1] == NEWLINE then line[..|line| - 1] else line
  }

  lemma NewlineDoesNotMatter(line: seq<byte>)
    ensures IsWellFormed(WithoutNewlineByte(line)) <==> IsWellFormed(line)
    ensures IsWellFormed(line) ==> Chars(WithoutNewlineByte(line)) == WithoutNewline(Chars(line))
  {
    if line != [] && line[|line| - 1] == NEWLINE {
      var kept := line[..|line| - 1];
      assert line == kept + [NEWLINE];
      WellFormedWithout(kept, NEWLINE);
    } else if IsWellFormed(line) && Chars(line) != [] {
      LastByte(Chars(line), NEWLINE);
    }
  }

  /** The finished line as code points, when the mark at its end is really there. */
  function FinishedText(cps: seq<CodePoint>, special: bool, endOfStream: bool): seq<CodePoint>
    requires special ==> EndsSpecial(cps)
  {
    if special then
      var kept := cps[..|cps| - 1];
      if cps[|cps| - 1] == BACKSLASH then kept + [NEWLINE] else if kept == [SPACE] then [] else kept
    else if endOfStream then cps
    else cps + [NEWLINE]
  }

  lemma FinishedIsText(cps: seq<CodePoint>, special: bool, endOfStream: bool, multiline: bool)
    requires special ==> EndsSpecial(cps)
    ensures special ==> Encode(cps) != []
    ensures Finished(Encode(cps), special, endOfStream, multiline).0 == Encode(FinishedText(cps, special, endOfStream))
  {
    if special {
      var kept := cps[..|cps| - 1];
      LastByte(cps, BACKSLASH);
      LastByte(cps, SLASH);
      OnlySpaceEncodesSpace(kept);
      hide Encode;
      EncodeOneMore(kept, NEWLINE);
    } else {
      EncodeOneMore(cps, NEWLINE);
    }
  }

  lemma OnlySpaceEncodesSpace(cps: seq<CodePoint>)
    ensures Encode(cps) == [SPACE] <==> cps == [SPACE]
    ensures Encode([]) == []
  {
    EncodeSingle(SPACE);
    if Encode(cps) == [SPACE] {
      EncodeIsInjective(cps, [SPACE]);
    }
  }

  /**
    Does input go on after this line? A backslash at its end asks for more, or for no more in multi-line mode; a slash
    ends the input; else it goes on in multi-line mode until the stream ends.
  */
  predicate GoesOn(cps: seq<CodePoint>, endOfStream: bool, multiline: bool) {
    var backslash := cps != [] && cps[|cps| - 1] == 0x5C;
    var slash := cps != [] && cps[|cps| - 1] == 0x2F;
    (backslash && !multiline) || (!backslash && !slash && multiline && !endOfStream)
  }

  lemma GoesOnExactly(cps: seq<CodePoint>, special: bool, endOfStream: bool, multiline: bool)
    requires special ==> cps != []
    ensures special ==> Encode(cps) != []
    ensures (special <==> EndsSpecial(cps)) ==>
              (Finished(Encode(cps), special, endOfStream, multiline).1 <==> GoesOn(cps, endOfStream, multiline))
  {
    OnlyEmptyEncodesEmpty(cps);
    if cps != [] {
      LastByte(cps, BACKSLASH);
      LastByte(cps, SLASH);
    }
    hide Encode;
  }

  /** After any keys without completions, input goes on exactly when it should. */
  lemma InputGoesOnExactly(isSpace: CodePoint -> bool, s: State, keys: seq<Key>, endOfStream: bool, multiline: bool)
    requires s.Valid() && AllAcceptable(isSpace, s, keys) && (s.special <==> EndsSpecial(s.cps))
    requires forall i :: 0 <= i < |keys| ==> !IsCompletion(keys[i])
    ensures var t := Turns(isSpace, s, keys);
            (t.special ==> Encode(t.cps) != [])
            && (Finished(Encode(t.cps), t.special, endOfStream, multiline).1 <==> GoesOn(t.cps, endOfStream, multiline))
  {
    var t := Turns(isSpace, s, keys);
    if keys != [] {
      MarkIsAccurate(isSpace, s, keys);
    }
    hide Turns, AllAcceptable, Encode, Finished, GoesOn;
    GoesOnExactly(t.cps, t.special, endOfStream, multiline);
  }

  /** What is handed over for a line by its end: a break for a backslash, nothing for a slash, else the line itself. */
  lemma EnterMeans(text: seq<CodePoint>, endOfStream: bool, multiline: bool)
    ensures EndsSpecial(text + [0x5C]) && EndsSpecial(text + [0x2F])
    ensures Encode(text + [0x5C]) != [] && Encode(text + [0x2F]) != []
    ensures Finished(Encode(text + [0x5C]), true, endOfStream, multiline) == (Encode(text + [0x0A]), !multiline)
    ensures Finished(Encode(text + [0x2F]), true, endOfStream, multiline)
            == (if text == [0x20] then [] else Encode(text), false)
    ensures Finished(Encode(text), false, true, multiline) == (Encode(text), false)
    ensures Finished(Encode(text), false, false, multiline) == (Encode(text + [0x0A]), multiline)
  {
    EncodeOneMore(text, 0x5C);
    EncodeOneMore(text, 0x2F);
    EncodeOneMore(text, 0x0A);
    OnlySpaceEncodesSpace(text);
    hide Encode;
    KeptBytes(Encode(text), 0x5C);
    KeptBytes(Encode(text), 0x2F);
  }

  lemma KeptBytes(line: seq<byte>, b: byte)
    ensures (line + [b])[..|line + [b]| - 1] == line && (line + [b])[|line + [b]| - 1] == b
  {
  }

  const NEWLINE: CodePoint := 10
  const SPACE: CodePoint := 32

  function WithoutNewline(cps: seq<CodePoint>): seq<CodePoint> {
    if cps != [] && cps[|cps| - 1] == NEWLINE then cps[..|cps| - 1] else cps
  }

  /** The bytes returned for a finished line, and whether more input is expected. */
  function Finished(line: seq<byte>, special: bool, endOfStream: bool, multiline: bool): (seq<byte>, bool)
    requires special ==> line != []
  {
    if special then
      var kept := line[..|line| - 1];
      if line[|line| - 1] == BACKSLASH then (kept + [NEWLINE], !multiline)
      else (if kept == [SPACE] then [] else kept, false)
    else if endOfStream then (line, false)
    else (line + [NEWLINE], multiline)
  }

  lemma ShownLine(r: Option<(Past, seq<CodePoint>)>)
    ensures r.Some? ==> IsWellFormed(Encode(r.value.1)) && Chars(Encode(r.value.1)) == r.value.1
  {
    if r.Some? {
      CharsOfEncoded(r.value.1);
    }
  }

  lemma EditIgnoresMark(isSpace: CodePoint -> bool, s: State, s': State, key: Key)
    requires s.Valid() && s' == s.(special := false)
    ensures Edit(isSpace, s', key) == Edit(isSpace, s, key).(special := false)
  {
  }

  ghost predicate AllAcceptable(isSpace: CodePoint -> bool, s: State, keys: seq<Key>)
    requires s.Valid()
    decreases |keys|
  {
    keys == [] || (Acceptable(s, keys[0]) && AllAcceptable(isSpace, Turn(isSpace, s, keys[0]), keys[1..]))
  }

  ghost function Turns(isSpace: CodePoint -> bool, s: State, keys: seq<Key>): (s': State)
    requires s.Valid() && AllAcceptable(isSpace, s, keys)
    ensures s'.Valid()
    decreases |keys|
  {
    if keys == [] then s else Turns(isSpace, Turn(isSpace, s, keys[0]), keys[1..])
  }

  /** Where the cursor is after `k` code points have been printed. */
  function CursorAfter(cps: seq<CodePoint>, pos: int, k: nat): nat
    requires k <= |cps|
  {
    if pos < 0 then k else StartWithin(cps, pos, k)
  }

  /** The loop of `set_line_contents` after `k` code points; `all` are the widths of the whole line. */
  ghost predicate Printed(cps: seq<CodePoint>, all: seq<nat>, pos: int,
                          k: nat, idx: nat, ws: seq<nat>, charPos: nat, bytePos: nat, backWidth: int) {
    && k <= |cps| == |all| && idx == Offset(cps, k)
    && ws == all[..k] && charPos <= k && bytePos == Offset(cps, charPos)
    && charPos == CursorAfter(cps, pos, k) && backWidth == Sum(ws[charPos..])
  }

  lemma PrintedStart(cps: seq<CodePoint>, pos: int, width: CodePoint -> nat)
    ensures Printed(cps, Widths(width, cps), pos, 0, 0, [], 0, 0, 0) && Sum([]) == 0
  {
    NothingYet(width, cps);
    hide Widths, Encode;
  }

  lemma PrintedNext(cps: seq<CodePoint>, all: seq<nat>, pos: int, k: nat, idx: nat, ws: seq<nat>,
                    charPos: nat, bytePos: nat, backWidth: int, width: CodePoint -> nat)
    requires Printed(cps, all, pos, k, idx, ws, charPos, bytePos, backWidth) && idx < |Encode(cps)|
    requires all == Widths(width, cps)
    ensures k < |cps|
    ensures var next := Offset(cps, k + 1);
            var w := width(cps[k]);
            && idx == Offset(cps, k) && next <= |Encode(cps)| && Sum(ws + [w]) == Sum(ws) + w
            && (if pos >= 0 && pos < next
                then Printed(cps, all, pos, k + 1, next, ws + [w], charPos, bytePos, backWidth + w)
                else Printed(cps, all, pos, k + 1, next, ws + [w], charPos + 1, next, backWidth))
  {
    hide Encode, EncodeOne, DecodeOne, Widths, Sum, CursorAfter;
    NextSlice(cps, k);
    OneMoreWidth(all, k, charPos);
    CursorAfterNext(cps, pos, k);
  }

  lemma PrintedAll(cps: seq<CodePoint>, all: seq<nat>, pos: int,
                   k: nat, idx: nat, ws: seq<nat>, charPos: nat, bytePos: nat, backWidth: int)
    requires Printed(cps, all, pos, k, idx, ws, charPos, bytePos, backWidth) && idx >= |Encode(cps)|
    ensures ws == all && charPos <= |cps| && bytePos == Offset(cps, charPos) && backWidth == Sum(ws[charPos..])
    ensures charPos == if pos < 0 then |cps| else StartWithin(cps, pos, |cps|)
  {
    StartsAreNoContinuations(cps, k);
    assert all[..k] == all;
    CursorAfterAll(cps, pos);
    hide Encode, Sum, CursorAfter;
  }

  lemma CursorAfterAll(cps: seq<CodePoint>, pos: int)
    ensures CursorAfter(cps, pos, |cps|) == if pos < 0 then |cps| else StartWithin(cps, pos, |cps|)
  {
  }

  lemma CursorAfterNext(cps: seq<CodePoint>, pos: int, k: nat)
    requires k < |cps|
    ensures pos >= 0 && pos < Offset(cps, k + 1) ==> CursorAfter(cps, pos, k + 1) == CursorAfter(cps, pos, k)
    ensures pos < 0 || pos >= Offset(cps, k + 1) ==>
              CursorAfter(cps, pos, k) == k && CursorAfter(cps, pos, k + 1) == k + 1
  {
    EncodeAround(cps, k);
  }

  lemma NothingYet(width: CodePoint -> nat, cps: seq<CodePoint>)
    ensures Offset(cps, 0) == 0 && Sum([]) == 0 && Widths(width, cps)[..0] == []
  {
    assert cps[..0] == [];
  }

  lemma NextSlice(cps: seq<CodePoint>, k: nat)
    requires k <= |cps| && Offset(cps, k) < |Encode(cps)|
    ensures k < |cps| && Offset(cps, k) < Offset(cps, k + 1) <= |Encode(cps)|
    ensures DecodeOne(Encode(cps), Offset(cps, k)).1 == Offset(cps, k + 1) - Offset(cps, k)
    ensures Encode(cps)[Offset(cps, k)..Offset(cps, k + 1)] == EncodeOne(cps[k])
  {
    StartsAreNoContinuations(cps, k);
    DecodesAt(cps, k);
    EncodeAround(cps, k);
    hide Encode, EncodeOne, DecodeOne;
    SliceOfParts(Encode(cps[..k]), EncodeOne(cps[k]), Encode(cps[k + 1..]));
  }

  lemma SliceOfParts(a: seq<byte>, b: seq<byte>, c: seq<byte>)
    ensures (a + b + c)[|a|..|a| + |b|] == b
  {
  }

  lemma OneMoreWidth(ws: seq<nat>, k: nat, c: nat)
    requires c <= k < |ws|
    ensures ws[..k] + [ws[k]] == ws[..k + 1]
    ensures Sum(ws[..k + 1]) == Sum(ws[..k]) + ws[k]
    ensures Sum(ws[..k + 1][c..]) == Sum(ws[..k][c..]) + ws[k]
    ensures Sum(ws[..k][k..]) == 0 && Sum(ws[..k + 1][k + 1..]) == 0
  {
    SumStep(ws, k);
    assert ws[..k + 1][c..] == ws[..k][c..] + [ws[k]];
    SumConcat(ws[..k][c..], [ws[k]]);
    assert [ws[k]][..0] == [];
    assert Sum([ws[k]]) == ws[k];
  }

  lemma NextIsOffset(cps: seq<CodePoint>, k: nat)
    requires k < |cps|
    ensures (if k == |cps| then |Encode(cps)| else Offset(cps, k + 1)) == Offset(cps, k) + |EncodeOne(cps[k])|
    ensures Offset(cps, k + 1) <= |Encode(cps)|
  {
    EncodeAround(cps, k);
  }

  lemma AtTheEnd(cps: seq<CodePoint>, k: nat, bytes: seq<byte>, ws: seq<nat>, w: nat)
    requires k == |cps| == |ws|
    ensures Offset(cps, k) == |Encode(cps)|
    ensures Encode(cps)[..Offset(cps, k)] + bytes + Encode(cps)[Offset(cps, k)..] == Encode(cps) + bytes
    ensures ws[..k] + [w] + ws[k..] == ws + [w]
  {
    assert cps[..k] == cps;
    hide Encode;
    var e := Encode(cps);
    assert e[..|e|] == e && e[|e|..] == [];
    assert ws[..k] == ws && ws[k..] == [];
  }

  lemma WidthsOfParts(width: CodePoint -> nat, a: seq<CodePoint>, b: seq<CodePoint>)
    ensures Widths(width, a + b) == Widths(width, a) + Widths(width, b)
  {
  }

  lemma WidthsSplit(width: CodePoint -> nat, cps: seq<CodePoint>, k: nat)
    requires k <= |cps|
    ensures Widths(width, cps)[..k] == Widths(width, cps[..k]) && Widths(width, cps)[k..] == Widths(width, cps[k..])
  {
  }

  lemma CutParts(a: seq<byte>, b: seq<byte>, c: seq<byte>)
    ensures (a + b + c)[..|a|] == a && (a + b + c)[|a| + |b|..] == c
  {
  }

  /** Cutting the bytes of one code point out of an encoded line. */
  lemma RemoveOne(cps: seq<CodePoint>, k: nat, width: CodePoint -> nat)
    requires k < |cps|
    ensures Offset(cps, k) <= Offset(cps, k + 1) <= |Encode(cps)|
    ensures var cps' := cps[..k] + cps[k + 1..];
            && Encode(cps)[..Offset(cps, k)] + Encode(cps)[Offset(cps, k + 1)..] == Encode(cps')
            && Widths(width, cps)[..k] + Widths(width, cps)[k + 1..] == Widths(width, cps')
            && Offset(cps', k) == Offset(cps, k) && Widths(width, cps')[..k] == Widths(width, cps)[..k]
  {
    EncodeAround(cps, k);
    EncodeConcat(cps[..k], cps[k + 1..]);
    assert (cps[..k] + cps[k + 1..])[..k] == cps[..k];
    hide Encode, EncodeOne, Widths;
    CutParts(Encode(cps[..k]), EncodeOne(cps[k]), Encode(cps[k + 1..]));
    WidthsSplit(width, cps, k);
    WidthsSplit(width, cps, k + 1);
    WidthsOfParts(width, cps[..k], cps[k + 1..]);
    WidthsSplit(width, cps[..k] + cps[k + 1..], k);
  }

  /** Putting the bytes of one code point into an encoded line. */
  lemma InsertOne(cps: seq<CodePoint>, k: nat, c: CodePoint, width: CodePoint -> nat)
    requires k <= |cps|
    ensures Offset(cps, k) <= |Encode(cps)|
    ensures var cps' := cps[..k] + [c] + cps[k..];
            && Encode(cps)[..Offset(cps, k)] + EncodeOne(c) + Encode(cps)[Offset(cps, k)..] == Encode(cps')
            && Widths(width, cps)[..k] + [width(c)] + Widths(width, cps)[k..] == Widths(width, cps')
            && Offset(cps', k) == Offset(cps, k) && Offset(cps', k + 1) == Offset(cps, k) + |EncodeOne(c)|
            && Widths(width, cps')[..k] == Widths(width, cps)[..k]
  {
    EncodeAt(cps, k);
    EncodeSingle(c);
    EncodeConcat(cps[..k], [c]);
    EncodeConcat(cps[..k] + [c], cps[k..]);
    var cps' := cps[..k] + [c] + cps[k..];
    assert cps'[..k] == cps[..k] && cps'[..k + 1] == cps[..k] + [c];
    hide Encode, EncodeOne, Widths;
    CutParts(Encode(cps[..k]), [], Encode(cps[k..]));
    assert Encode(cps[..k]) + [] == Encode(cps[..k]);
    WidthsSplit(width, cps, k);
    WidthsSplit(width, cps', k);
    WidthsOfParts(width, cps[..k], [c]);
    WidthsOfParts(width, cps[..k] + [c], cps[k..]);
    assert Widths(width, [c]) == [width(c)];
  }

  // ----- What the keys mean to each other -----

  /** Backspace undoes a typed character, and is the same as moving left and deleting. */
  lemma BackspaceUndoesInsert(isSpace: CodePoint -> bool, s: State, c: CodePoint)
    requires s.Valid()
    ensures Edit(isSpace, Edit(isSpace, s, Insert(c)), Backspace) == s
    ensures Edit(isSpace, Edit(isSpace, s, Left), Delete) == Edit(isSpace, s, Backspace) || s.cursor == 0
  {
    var t := Edit(isSpace, s, Insert(c));
    assert t.cps[..t.cursor - 1] + t.cps[t.cursor..] == s.cps[..s.cursor] + s.cps[s.cursor..] == s.cps;
  }

  /** A word move to the left passes spaces, then one whole word, and stops at the word's start. */
  lemma WordLeftStopsAtWord(isSpace: CodePoint -> bool, s: State) returns (w: nat)
    requires s.Valid()
    ensures var c := Edit(isSpace, s, WordLeft).cursor;
            && c <= w <= s.cursor && (c > 0 ==> c < w && isSpace(s.cps[c - 1]))
            && (forall i :: c <= i < w ==> !isSpace(s.cps[i])) && (forall i :: w <= i < s.cursor ==> isSpace(s.cps[i]))
  {
    w := SkipBack(isSpace, s.cps, s.cursor, true);
  }

  /** A word move to the right passes spaces, one whole word and the spaces behind it. */
  lemma WordRightStopsBehindWord(isSpace: CodePoint -> bool, s: State) returns (a: nat, b: nat)
    requires s.Valid()
    ensures var c := Edit(isSpace, s, WordRight).cursor;
            && s.cursor <= a <= b <= c <= |s.cps|
            && (forall i :: s.cursor <= i < a ==> isSpace(s.cps[i]))
            && (forall i :: a <= i < b ==> !isSpace(s.cps[i])) && (a < |s.cps| ==> a < b)
            && (forall i :: b <= i < c ==> isSpace(s.cps[i])) && (c < |s.cps| ==> !isSpace(s.cps[c]))
  {
    a := SkipForward(isSpace, s.cps, s.cursor, true);
    b := SkipForward(isSpace, s.cps, a, false);
  }

  /** Typing a text puts it at the cursor, wherever that is, and the cursor behind it. */
  lemma {:induction false} TypingInserts(isSpace: CodePoint -> bool, s: State, text: seq<CodePoint>)
    requires s.Valid()
    ensures AllAcceptable(isSpace, s, Inserts(text))
    ensures var t := Turns(isSpace, s, Inserts(text));
            && t.cps == s.cps[..s.cursor] + text + s.cps[s.cursor..] && t.cursor == s.cursor + |text|
            && t.past == s.past
    decreases |text|
  {
    hide Turn, Acceptable;
    if text == [] {
      assert s.cps[..s.cursor] + [] + s.cps[s.cursor..] == s.cps;
    } else {
      hide Turns, AllAcceptable;
      var n, c := |text| - 1, text[|text| - 1];
      TypingInserts(isSpace, s, text[..n]);
      var t := Turns(isSpace, s, Inserts(text[..n]));
      InsertTurn(isSpace, t, c);
      InsertBehind(s.cps[..s.cursor], text[..n], c, s.cps[s.cursor..]);
      assert text == text[..n] + [c] && Inserts(text) == Inserts(text[..n]) + [Insert(c)];
      KeyAfterKeys(isSpace, s, Inserts(text[..n]), t, Insert(c));
    }
  }

  lemma InsertTurn(isSpace: CodePoint -> bool, t: State, c: CodePoint)
    requires t.Valid()
    ensures Acceptable(t, Insert(c))
    ensures var u := Turn(isSpace, t, Insert(c));
            u.cps == t.cps[..t.cursor] + [c] + t.cps[t.cursor..] && u.cursor == t.cursor + 1 && u.past == t.past
  {
  }

  lemma InsertBehind(a: seq<CodePoint>, b: seq<CodePoint>, c: CodePoint, d: seq<CodePoint>)
    ensures var s, k := a + b + d, |a| + |b|; s[..k] + [c] + s[k..] == a + (b + [c]) + d
  {
  }

  /** Home goes to the front, End behind the text, and a step to the right takes one to the left back. */
  lemma MovesMean(isSpace: CodePoint -> bool, s: State, text: seq<CodePoint>)
    requires s.Valid()
    ensures AllAcceptable(isSpace, s, [Home] + Inserts(text)) && AllAcceptable(isSpace, s, [End] + Inserts(text))
    ensures Turns(isSpace, s, [Home] + Inserts(text)).cps == text + s.cps
    ensures Turns(isSpace, s, [End] + Inserts(text)).cps == s.cps + text
    ensures s.cursor > 0 ==> Edit(isSpace, Edit(isSpace, s, Left), Right) == s
    ensures s.cursor > 0 ==> Edit(isSpace, s, Left).cursor == s.cursor - 1
  {
    EndsOfLine(isSpace, s);
    hide Edit, Turns, AllAcceptable, Inserts;
    KeyThenText(isSpace, s, Home, text);
    KeyThenText(isSpace, s, End, text);
    AtEitherEnd(s.cps, text);
  }

  lemma EndsOfLine(isSpace: CodePoint -> bool, s: State)
    requires s.Valid()
    ensures Edit(isSpace, s, Home).cursor == 0 && Edit(isSpace, s, End).cursor == |s.cps|
    ensures s.cursor > 0 ==> Edit(isSpace, Edit(isSpace, s, Left), Right) == s
    ensures s.cursor > 0 ==> Edit(isSpace, s, Left).cursor == s.cursor - 1
  {
  }

  lemma AtEitherEnd(cps: seq<CodePoint>, text: seq<CodePoint>)
    ensures cps[..0] + text + cps[0..] == text + cps
    ensures cps[..|cps|] + text + cps[|cps|..] == cps + text
  {
  }

  lemma KeyThenText(isSpace: CodePoint -> bool, s: State, key: Key, text: seq<CodePoint>)
    requires s.Valid() && (key == Home || key == End)
    ensures AllAcceptable(isSpace, s, [key] + Inserts(text))
    ensures var k := Edit(isSpace, s, key).cursor;
            k <= |s.cps| && Turns(isSpace, s, [key] + Inserts(text)).cps == s.cps[..k] + text + s.cps[k..]
  {
    var t := Turn(isSpace, s, key);
    assert t.cps == s.cps && t.cursor == Edit(isSpace, s, key).cursor && Acceptable(s, key);
    hide Turn, Acceptable, Edit;
    TypingInserts(isSpace, t, text);
    var keys := [key] + Inserts(text);
    assert keys[0] == key && keys[1..] == Inserts(text);
  }

  /** The cursor of a completion is the last start of a code point within the given bytes. */
  lemma {:induction false} StartWithinIsLast(cps: seq<CodePoint>, pos: nat, k: nat)
    requires k <= |cps|
    ensures var r := StartWithin(cps, pos, k);
            Offset(cps, r) <= pos && forall i :: r < i <= k ==> Offset(cps, i) > pos
    decreases k
  {
    hide Offset;
    FirstOffset(cps);
    if k > 0 && Offset(cps, k) > pos {
      StartWithinIsLast(cps, pos, k - 1);
    }
  }

  /** No line is remembered twice in a row, and none that is empty. */
  ghost predicate HasNoRepeats(entries: seq<seq<CodePoint>>) {
    && (forall i :: 0 <= i < |entries| ==> entries[i] != [])
    && (forall i :: 0 < i < |entries| ==> entries[i - 1] != entries[i])
  }

  /** A line that is handed over is what the history shows first, behind all older lines. */
  lemma AddedLineIsShownFirst(p: Past, line: seq<CodePoint>, next: seq<CodePoint>)
    requires line != []
    ensures p.entries <= Add(p, line).entries && |Add(p, line).entries| <= |p.entries| + 1
    ensures HasNoRepeats(p.entries) ==> HasNoRepeats(Add(p, line).entries)
    ensures BeginViewing(Add(p, line), next).Valid()
    ensures var shown := Prev(BeginViewing(Add(p, line), next)); shown.Some? && shown.value.1 == line
    ensures Add(p, []) == p && Add(p, line).viewing == None
  {
  }

  function Repeated(key: Key, n: nat): seq<Key> {
    seq(n, _ => key)
  }

  /** Looking `n` lines back shows that line, and keeps the line being written. */
  lemma {:induction false} UpShowsEarlierLine(isSpace: CodePoint -> bool, s: State, n: nat)
    requires s.Valid() && s.past.viewing.Some? && n <= s.past.viewing.value
    ensures AllAcceptable(isSpace, s, Repeated(Up, n))
    ensures var t := Turns(isSpace, s, Repeated(Up, n));
            && t.past == s.past.(viewing := Some(s.past.viewing.value - n))
            && (n > 0 ==> t.cps == s.past.entries[s.past.viewing.value - n] && t.cursor == |t.cps|)
    decreases n
  {
    if n > 0 {
      assert Repeated(Up, n)[0] == Up && Repeated(Up, n)[1..] == Repeated(Up, n - 1);
      UpShowsEarlierLine(isSpace, Turn(isSpace, s, Up), n - 1);
      if n == 1 {
        assert Repeated(Up, 0) == [];
      }
    }
  }

  lemma {:induction false} DownReturns(isSpace: CodePoint -> bool, s: State, n: nat)
    requires s.Valid() && s.past.viewing.Some? && n > 0 && s.past.viewing.value + n == |s.past.entries|
    ensures AllAcceptable(isSpace, s, Repeated(Down, n))
    ensures var t := Turns(isSpace, s, Repeated(Down, n));
            && t.cps == s.past.backup && t.cursor == |t.cps| && t.past == EndViewing(s.past)
    decreases n
  {
    var rest := Repeated(Down, n - 1);
    assert Repeated(Down, n)[0] == Down && Repeated(Down, n)[1..] == rest;
    if n == 1 {
      assert rest == [];
    } else {
      DownReturns(isSpace, Turn(isSpace, s, Down), n - 1);
    }
  }

  lemma {:induction false} TurnsConcat(isSpace: CodePoint -> bool, s: State, a: seq<Key>, b: seq<Key>)
    requires s.Valid() && AllAcceptable(isSpace, s, a) && AllAcceptable(isSpace, Turns(isSpace, s, a), b)
    ensures AllAcceptable(isSpace, s, a + b) && Turns(isSpace, s, a + b) == Turns(isSpace, Turns(isSpace, s, a), b)
    decreases |a|
  {
    hide Turn, Acceptable;
    if a == [] {
      assert a + b == b;
    } else {
      assert (a + b)[1..] == a[1..] + b;
      TurnsConcat(isSpace, Turn(isSpace, s, a[0]), a[1..], b);
    }
  }

  /** As many steps down as up give back the line that was being written, and leave the history as it was. */
  lemma HistoryRoundTrip(isSpace: CodePoint -> bool, s: State, n: nat)
    requires s.Valid() && s.past.viewing.None? && s.past.backup == [] && 0 < n <= |s.past.entries|
    ensures AllAcceptable(isSpace, s, Repeated(Up, n) + Repeated(Down, n))
    ensures var t := Turns(isSpace, s, Repeated(Up, n) + Repeated(Down, n));
            t.cps == s.cps && t.past == s.past && t.cursor == |t.cps|
  {
    var viewing := s.(past := BeginViewing(s.past, s.cps));
    UpShowsEarlierLine(isSpace, viewing, n);
    assert Repeated(Up, n)[0] == Up;
    assert Turn(isSpace, s, Up) == Turn(isSpace, viewing, Up);
    DownReturns(isSpace, Turns(isSpace, viewing, Repeated(Up, n)), n);
    TurnsConcat(isSpace, s, Repeated(Up, n), Repeated(Down, n));
  }

  // ----- The trailing mark -----

  predicate IsCompletion(key: Key) {
    key.Complete? && key.candidates != []
  }

  /** After any key but a completion the mark says exactly whether the line ends in a backslash or slash. */
  lemma {:induction false} MarkIsAccurate(isSpace: CodePoint -> bool, s: State, keys: seq<Key>)
    requires s.Valid() && AllAcceptable(isSpace, s, keys)
    requires keys != [] && !IsCompletion(keys[|keys| - 1])
    ensures var t := Turns(isSpace, s, keys); t.special <==> EndsSpecial(t.cps)
    decreases |keys|
  {
    if |keys| == 1 {
      assert keys[1..] == [];
    } else {
      MarkIsAccurate(isSpace, Turn(isSpace, s, keys[0]), keys[1..]);
    }
  }

  /** How many keys there are up to the last one that is no completion. */
  function LastTyped(keys: seq<Key>): (n: nat)
    ensures n <= |keys|
  {
    if keys == [] then 0
    else if IsCompletion(keys[|keys| - 1]) then LastTyped(keys[..|keys| - 1])
    else |keys|
  }

  lemma {:induction false} AcceptableBefore(isSpace: CodePoint -> bool, s: State, keys: seq<Key>, n: nat)
    requires s.Valid() && AllAcceptable(isSpace, s, keys) && n <= |keys|
    ensures AllAcceptable(isSpace, s, keys[..n])
    ensures AllAcceptable(isSpace, Turns(isSpace, s, keys[..n]), keys[n..])
    ensures Turns(isSpace, s, keys) == Turns(isSpace, Turns(isSpace, s, keys[..n]), keys[n..])
    decreases |keys|
  {
    hide Turn, Acceptable;
    if n == 0 {
      assert keys[..0] == [] && keys[0..] == keys;
    } else {
      AcceptableBefore(isSpace, Turn(isSpace, s, keys[0]), keys[1..], n - 1);
      assert keys[..n][1..] == keys[1..][..n - 1] && keys[1..][n - 1..] == keys[n..];
    }
  }

  /** Completions leave the mark alone: after any keys it tells how the line ended when a key was last typed. */
  lemma {:induction false} MarkTellsTypedLine(isSpace: CodePoint -> bool, s: State, keys: seq<Key>)
    requires s.Valid() && AllAcceptable(isSpace, s, keys) && (s.special <==> EndsSpecial(s.cps))
    ensures var typed := keys[..LastTyped(keys)];
            && AllAcceptable(isSpace, s, typed)
            && (Turns(isSpace, s, keys).special <==> EndsSpecial(Turns(isSpace, s, typed).cps))
    decreases |keys|
  {
    var n := |keys| - 1;
    if keys == [] {
    } else if !IsCompletion(keys[n]) {
      assert keys[..|keys|] == keys;
      MarkIsAccurate(isSpace, s, keys);
    } else {
      AcceptableBefore(isSpace, s, keys, n);
      MarkTellsTypedLine(isSpace, s, keys[..n]);
      var typed := LastTyped(keys[..n]);
      assert keys[..n][..typed] == keys[..typed];
      var t := Turns(isSpace, s, keys[..n]);
      assert keys[n..] == [keys[n]] && [keys[n]][1..] == [];
      assert Turns(isSpace, t, [keys[n]]) == Turn(isSpace, t, keys[n]);
    }
  }

  // ----- What Enter hands over -----

  /**
    Enter does what it should for the line exactly when the mark is right; and what it hands over is well-formed exactly
    when the byte that a mark makes it drop is a whole code point.
  */
  lemma EnterIsRightExactly(cps: seq<CodePoint>, special: bool, endOfStream: bool, multiline: bool)
    requires special ==> cps != []
    ensures Encode(cps) != [] <==> cps != []
    ensures Finished(Encode(cps), special, endOfStream, multiline)
            == Finished(Encode(cps), EndsSpecial(cps), endOfStream, multiline)
            <==> (special <==> EndsSpecial(cps))
    ensures IsWellFormed(Finished(Encode(cps), special, endOfStream, multiline).0)
            <==> (special ==> cps[|cps| - 1] <= 0x7F)
  {
    OnlyEmptyEncodesEmpty(cps);
    HandedOverIsWellFormed(cps, special, endOfStream, multiline);
    MarkOfBytes(cps);
    hide Encode, IsWellFormed, Finished, EndsSpecial;
    if cps != [] {
      MarkChangesLine(Encode(cps), endOfStream, multiline);
    }
  }

  lemma MarkOfBytes(cps: seq<CodePoint>)
    ensures Encode(cps) != [] <==> cps != []
    ensures cps == [] ==> !EndsSpecial(cps)
  {
    OnlyEmptyEncodesEmpty(cps);
  }

  /** A mark always makes a difference. */
  lemma MarkChangesLine(line: seq<byte>, endOfStream: bool, multiline: bool)
    requires line != []
    ensures Finished(line, true, endOfStream, multiline) != Finished(line, false, endOfStream, multiline)
  {
    var marked := Finished(line, true, endOfStream, multiline).0;
    assert |marked| <= |line|;
    if endOfStream && |marked| == |line| {
      assert marked[|line| - 1] == NEWLINE && line[|line| - 1] == BACKSLASH;
    }
  }

  lemma HandedOverIsWellFormed(cps: seq<CodePoint>, special: bool, endOfStream: bool, multiline: bool)
    requires special ==> cps != []
    ensures special ==> Encode(cps) != []
    ensures IsWellFormed(Finished(Encode(cps), special, endOfStream, multiline).0)
            <==> (special ==> cps[|cps| - 1] <= 0x7F)
  {
    hide Encode, IsWellFormed, Chars;
    if special {
      KeptIsWellFormed(cps);
      WellFormedWithout(Encode(cps)[..|Encode(cps)| - 1], NEWLINE);
      SpaceIsWellFormed();
    } else {
      CharsOfEncoded(cps);
      WellFormedWithout(Encode(cps), NEWLINE);
    }
  }

  lemma SpaceIsWellFormed()
    ensures IsWellFormed([]) && IsWellFormed([SPACE])
  {
    CharsOfEncoded([]);
    EncodeSingle(SPACE);
    CharsOfEncoded([SPACE]);
  }

  lemma KeptIsWellFormed(cps: seq<CodePoint>)
    requires cps != []
    ensures Encode(cps) != []
    ensures IsWellFormed(Encode(cps)[..|Encode(cps)| - 1]) <==> cps[|cps| - 1] <= 0x7F
  {
    var init, c := cps[..|cps| - 1], cps[|cps| - 1];
    var e := EncodeOne(c);
    var kept := Encode(cps)[..|Encode(cps)| - 1];
    assert Encode(cps) == Encode(init) + e;
    assert kept == Encode(init) + e[..|e| - 1];
    SingleBytes(c);
    hide Encode, EncodeOne;
    if c <= 0x7F {
      assert e[..0] == [] && Encode(init) + [] == Encode(init);
      CharsOfEncoded(init);
    } else {
      TruncatedIsMalformed(init, c, |e| - 1);
    }
  }

  /** A set mark stands on a line that is not empty. */
  lemma {:induction false} MarkNeedsText(isSpace: CodePoint -> bool, s: State, keys: seq<Key>)
    requires s.Valid() && AllAcceptable(isSpace, s, keys) && (s.special ==> s.cps != [])
    ensures var t := Turns(isSpace, s, keys); t.special ==> t.cps != []
    decreases |keys|
  {
    if keys != [] {
      var key := keys[0];
      if IsCompletion(key) {
        OnlyEmptyEncodesEmpty(Chars(key.candidates[0].0));
      }
      MarkNeedsText(isSpace, Turn(isSpace, s, key), keys[1..]);
    }
  }

  /** After any keys, Enter is right exactly when the line ends as it did when a key was last typed. */
  lemma EnterAfterKeysExactly(isSpace: CodePoint -> bool, s: State, keys: seq<Key>, endOfStream: bool, multiline: bool)
    requires s.Valid() && AllAcceptable(isSpace, s, keys) && (s.special <==> EndsSpecial(s.cps))
    ensures var t, typed := Turns(isSpace, s, keys), keys[..LastTyped(keys)];
            && AllAcceptable(isSpace, s, typed) && (t.special || EndsSpecial(t.cps) ==> Encode(t.cps) != [])
            && (Finished(Encode(t.cps), t.special, endOfStream, multiline)
                == Finished(Encode(t.cps), EndsSpecial(t.cps), endOfStream, multiline)
                <==> (EndsSpecial(t.cps) <==> EndsSpecial(Turns(isSpace, s, typed).cps)))
  {
    var t := Turns(isSpace, s, keys);
    MarkTellsTypedLine(isSpace, s, keys);
    MarkNeedsText(isSpace, s, keys);
    hide Turns, AllAcceptable, Encode, Finished;
    EnterIsRightExactly(t.cps, t.special, endOfStream, multiline);
  }

  /** A completion that goes on behind a trailing slash leaves the mark, and Enter drops the last byte. */
  lemma CompletionLosesLastByte(isSpace: CodePoint -> bool, s: State, ext: seq<CodePoint>, pos: nat,
                                endOfStream: bool, multiline: bool)
    requires s.Valid() && s.special && EndsSpecial(s.cps) && ext != [] && !EndsSpecial(ext)
    ensures var line := Encode(s.cps + ext);
            var key := Complete([(line, pos)]);
            && line != [] && Acceptable(s, key)
            && Turn(isSpace, s, key).cps == s.cps + ext && Turn(isSpace, s, key).special
            && Finished(line, true, endOfStream, multiline) == (line[..|line| - 1], false)
            && (IsWellFormed(line[..|line| - 1]) <==> ext[|ext| - 1] <= 0x7F)
  {
    hide Encode, IsWellFormed, Turn, Acceptable, Finished, EndsSpecial;
    CompletionTurn(isSpace, s, ext, pos);
    MarkedEndIsDropped(s.cps, ext, endOfStream, multiline);
  }

  lemma CompletionTurn(isSpace: CodePoint -> bool, s: State, ext: seq<CodePoint>, pos: nat)
    requires s.Valid() && ext != []
    ensures var key := Complete([(Encode(s.cps + ext), pos)]);
            Acceptable(s, key)
            && Turn(isSpace, s, key).cps == s.cps + ext && Turn(isSpace, s, key).special == s.special
  {
    var cps := s.cps + ext;
    CharsOfEncoded(cps);
    OnlyEmptyEncodesEmpty(cps);
    if Encode(cps) == Encode(s.cps) {
      EncodeIsInjective(cps, s.cps);
    }
    hide Encode, IsWellFormed, Chars, StartWithin;
  }

  lemma StartOfLine(cps: seq<CodePoint>, ws: seq<nat>)
    ensures Offset(cps, 0) == 0 && Sum(ws[..0]) == 0
  {
    assert cps[..0] == [] && ws[..0] == [];
  }

  lemma MarkedEndIsDropped(cps: seq<CodePoint>, ext: seq<CodePoint>, endOfStream: bool, multiline: bool)
    requires EndsSpecial(cps) && ext != [] && !EndsSpecial(ext)
    ensures var line := Encode(cps + ext);
            && line != [] && Finished(line, true, endOfStream, multiline) == (line[..|line| - 1], false)
            && (IsWellFormed(line[..|line| - 1]) <==> ext[|ext| - 1] <= 0x7F)
  {
    hide Encode, IsWellFormed;
    LastByte(cps + ext, BACKSLASH);
    KeptIsNoSpace(cps, ext);
    KeptIsWellFormed(cps + ext);
    assert (cps + ext)[|cps + ext| - 1] == ext[|ext| - 1];
  }

  /** What is kept begins with what was typed, and that has a mark. */
  lemma KeptIsNoSpace(cps: seq<CodePoint>, ext: seq<CodePoint>)
    requires EndsSpecial(cps) && ext != []
    ensures Encode(cps + ext) != [] && Encode(cps + ext)[..|Encode(cps + ext)| - 1] != [SPACE]
  {
    EncodeConcat(cps, ext);
    LastByte(cps, BACKSLASH);
    LastByte(cps, SLASH);
    OnlyEmptyEncodesEmpty(ext);
    hide Encode;
    InnerByteIsKept(Encode(cps), Encode(ext));
  }

  lemma InnerByteIsKept(a: seq<byte>, b: seq<byte>)
    requires a != [] && a[|a| - 1] != SPACE && b != []
    ensures (a + b)[..|a + b| - 1] != [SPACE]
  {
    assert (a + b)[..|a + b| - 1][|a| - 1] == a[|a| - 1];
  }

  function Inserts(cps: seq<CodePoint>): (keys: seq<Key>)
    ensures |keys| == |cps|
  {
    seq(|cps|, i requires 0 <= i < |cps| => Insert(cps[i]))
  }

  const EMPTY := State([], 0, false, NO_PAST)

  /** Typing a text gives that text, with an accurate mark. */
  lemma {:induction false} TypingGives(isSpace: CodePoint -> bool, cps: seq<CodePoint>)
    ensures AllAcceptable(isSpace, EMPTY, Inserts(cps))
    ensures Turns(isSpace, EMPTY, Inserts(cps)) == State(cps, |cps|, EndsSpecial(cps), NO_PAST)
    decreases |cps|
  {
    if cps != [] {
      var n, c := |cps| - 1, cps[|cps| - 1];
      TypingGives(isSpace, cps[..n]);
      var t := State(cps[..n], n, EndsSpecial(cps[..n]), NO_PAST);
      assert Turn(isSpace, t, Insert(c)) == State(cps, |cps|, EndsSpecial(cps), NO_PAST) by {
        assert cps[..n][..n] + [c] + cps[..n][n..] == cps;
      }
      assert [Insert(c)][1..] == [];
      assert Turns(isSpace, t, [Insert(c)]) == Turn(isSpace, t, Insert(c));
      TurnsConcat(isSpace, EMPTY, Inserts(cps[..n]), [Insert(c)]);
      assert Inserts(cps) == Inserts(cps[..n]) + [Insert(c)];
    }
  }

  /** So from an empty line: a text that ends in a slash is typed and then completed to something longer. */
  lemma CompletedLineIsCutOff(isSpace: CodePoint -> bool, typed: seq<CodePoint>, ext: seq<CodePoint>, pos: nat,
                              endOfStream: bool, multiline: bool)
    requires EndsSpecial(typed) && ext != [] && !EndsSpecial(ext)
    ensures var line := Encode(typed + ext);
            var keys := Inserts(typed) + [Complete([(line, pos)])];
            && line != [] && AllAcceptable(isSpace, EMPTY, keys)
            && Encode(Turns(isSpace, EMPTY, keys).cps) == line && Turns(isSpace, EMPTY, keys).special
            && Finished(line, true, endOfStream, multiline) == (line[..|line| - 1], false)
            && (IsWellFormed(line[..|line| - 1]) <==> ext[|ext| - 1] <= 0x7F)
  {
    var s, key := State(typed, |typed|, true, NO_PAST), Complete([(Encode(typed + ext), pos)]);
    TypingGives(isSpace, typed);
    hide Turn, Turns, AllAcceptable, Encode, Acceptable, IsWellFormed, Inserts, Finished;
    CompletionLosesLastByte(isSpace, s, ext, pos, endOfStream, multiline);
    KeyAfterKeys(isSpace, EMPTY, Inserts(typed), s, key);
  }

  /** `/read src/` */
  const READ_SRC: seq<CodePoint> := [47, 114, 101, 97, 100, 32, 115, 114, 99, 47]
  const E_ACUTE: CodePoint := 0xE9

  /**
    Such a completion comes about when a path that ends in a slash is completed to the only file below it: with the file
    `é`, Enter hands over half of that letter, which is no text any more.
  */
  lemma CompletedPathIsCutOff(isSpace: CodePoint -> bool, pos: nat, multiline: bool)
    ensures var line := Encode(READ_SRC + [E_ACUTE]);
            var keys := Inserts(READ_SRC) + [Complete([(line, pos)])];
            && line != [] && AllAcceptable(isSpace, EMPTY, keys)
            && Encode(Turns(isSpace, EMPTY, keys).cps) == line && Turns(isSpace, EMPTY, keys).special
            && Finished(line, true, false, multiline) == (Encode(READ_SRC) + [0xC3], false)
            && !IsWellFormed(Encode(READ_SRC) + [0xC3])
  {
    EncodedPath();
    hide Turn, Turns, AllAcceptable, Encode, Acceptable, IsWellFormed, Inserts, Finished;
    CompletedLineIsCutOff(isSpace, READ_SRC, [E_ACUTE], pos, false, multiline);
  }

  lemma EncodedPath()
    ensures var line := Encode(READ_SRC + [E_ACUTE]);
            line != [] && line[..|line| - 1] == Encode(READ_SRC) + [0xC3]
  {
    EncodeConcat(READ_SRC, [E_ACUTE]);
    EncodeSingle(E_ACUTE);
    assert EncodeOne(E_ACUTE) == [0xC3, 0xA9];
    hide Encode;
  }

  lemma KeyAfterKeys(isSpace: CodePoint -> bool, s: State, keys: seq<Key>, t: State, key: Key)
    requires s.Valid() && AllAcceptable(isSpace, s, keys) && Turns(isSpace, s, keys) == t && Acceptable(t, key)
    ensures AllAcceptable(isSpace, s, keys + [key]) && Turns(isSpace, s, keys + [key]) == Turn(isSpace, t, key)
  {
    hide Turn, Acceptable;
    var u := Turn(isSpace, t, key);
    assert [key][1..] == [];
    assert AllAcceptable(isSpace, u, []) && Turns(isSpace, u, []) == u;
    assert AllAcceptable(isSpace, t, [key]) && Turns(isSpace, t, [key]) == u;
    TurnsConcat(isSpace, s, keys, [key]);
  }
}
