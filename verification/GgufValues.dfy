/**
  The three readers of GGUF metadata values: `rd_val`, which returns the whole value, `_read_value`, which abbreviates
  arrays, and `_skip_value`, which only moves the file position. They must stop at the same place.
*/
module GgufValues {
  import opened Wrappers
  import opened Basics
  import opened LittleEndian

  const UINT8 := 0
  const INT8 := 1
  const UINT16 := 2
  const INT16 := 3
  const UINT32 := 4
  const INT32 := 5
  const FLOAT32 := 6
  const BOOL := 7
  const STRING := 8
  const ARRAY := 9
  const UINT64 := 10
  const INT64 := 11
  const FLOAT64 := 12

  const SHORT_READ := "short read"

  const UNKNOWN_TYPE := "unknown type"

  /** Floats and strings are kept as the bytes that the standard library turns into a number or a text. */
  datatype Value =
    | Int(n: int)
    | Bool(b: bool)
    | Float(bits: seq<byte>)
    | Str(bytes: seq<byte>)
    | List(items: seq<Value>)
    | Shape(count: nat)

  // ----- What a scalar takes and means -----

  predicate IsScalar(t: nat) {
    t <= 7 || 10 <= t <= 12
  }

  function Width(t: nat): (w: nat)
    requires IsScalar(t)
    ensures w >= 1
  {
    if t == UINT8 || t == INT8 || t == BOOL then 1
    else if t == UINT16 || t == INT16 then 2
    else if t == UINT32 || t == INT32 || t == FLOAT32 then 4
    else 8
  }

  function ScalarOf(t: nat, s: seq<byte>): Value
    requires IsScalar(t) && |s| == Width(t)
  {
    if t == UINT8 || t == UINT16 || t == UINT32 || t == UINT64 then Int(Unsigned(s))
    else if t == INT8 || t == INT16 || t == INT32 || t == INT64 then Int(Signed(s))
    else if t == BOOL then Bool(s[0] != 0)
    else Float(s)
  }

  // ----- The file position -----

  /** Where reading `n` bytes stops: a file gives fewer bytes at its end, without an error. */
  function Reach(data: seq<byte>, pos: nat, n: nat): (p: nat)
    requires pos <= |data|
    ensures pos <= p <= |data| && p <= pos + n
  {
    if pos + n <= |data| then pos + n else |data|
  }

  /** Reading a number of exactly `n` bytes, which fails at the end of the file. */
  function NumberAt(data: seq<byte>, pos: nat, n: nat): (r: Result<nat, string>)
    requires pos <= |data|
    ensures r.Ok? <==> pos + n <= |data|
  {
    if pos + n <= |data| then Ok(Unsigned(data[pos..pos + n])) else Err(SHORT_READ)
  }

  function StringAt(data: seq<byte>, pos: nat): (r: Result<(seq<byte>, nat), string>)
    requires pos <= |data|
    ensures r.Ok? ==> pos < r.value.1 <= |data|
  {
    var n :- NumberAt(data, pos, 8);
    var end := Reach(data, pos + 8, n);
    Ok((data[pos + 8..end], end))
  }

  function ScalarAt(data: seq<byte>, pos: nat, t: nat): (r: Result<(Value, nat), string>)
    requires pos <= |data| && IsScalar(t)
    ensures r.Ok? ==> pos < r.value.1 <= |data|
  {
    if pos + Width(t) <= |data| then Ok((ScalarOf(t, data[pos..pos + Width(t)]), pos + Width(t))) else Err(SHORT_READ)
  }

  // ----- rd_val -----

  function ValueAt(data: seq<byte>, pos: nat, t: nat): (r: Result<(Value, nat), string>)
    requires pos <= |data|
    ensures r.Ok? ==> pos < r.value.1 <= |data|
    decreases |data| - pos, 0, 0
  {
    if IsScalar(t) then ScalarAt(data, pos, t)
    else if t == STRING then
      var (s, end) :- StringAt(data, pos);
      Ok((Str(s), end))
    else if t == ARRAY then
      var et :- NumberAt(data, pos, 4);
      var n :- NumberAt(data, pos + 4, 8);
      var (items, end) :- ValuesAt(data, pos + 12, et, n);
      Ok((List(items), end))
    else Err(UNKNOWN_TYPE)
  }

  /** `n` values, one after the other. */
  function ValuesAt(data: seq<byte>, pos: nat, t: nat, n: nat): (r: Result<(seq<Value>, nat), string>)
    requires pos <= |data|
    ensures r.Ok? ==> pos <= r.value.1 <= |data| && |r.value.0| == n
    decreases |data| - pos, 1, n
  {
    if n == 0 then Ok(([], pos))
    else
      var (first, next) :- ValueAt(data, pos, t);
      var (rest, end) :- ValuesAt(data, next, t, n - 1);
      Ok(([first] + rest, end))
  }

  // ----- _skip_value -----

  function SkipAt(data: seq<byte>, pos: nat, t: nat): (r: Result<nat, string>)
    requires pos <= |data|
    ensures r.Ok? ==> pos <= r.value <= |data|
    decreases |data| - pos, 0, 0
  {
    if IsScalar(t) then Ok(Reach(data, pos, Width(t)))
    else if t == STRING then
      var (s, end) :- StringAt(data, pos);
      Ok(end)
    else if t == ARRAY then
      var et :- NumberAt(data, pos, 4);
      var n :- NumberAt(data, pos + 4, 8);
      SkipAllAt(data, pos + 12, et, n)
    else Err(UNKNOWN_TYPE)
  }

  function SkipAllAt(data: seq<byte>, pos: nat, t: nat, n: nat): (r: Result<nat, string>)
    requires pos <= |data|
    ensures r.Ok? ==> pos <= r.value <= |data|
    decreases |data| - pos, 1, n
  {
    if n == 0 then Ok(pos)
    else
      var next :- SkipAt(data, pos, t);
      SkipAllAt(data, next, t, n - 1)
  }

  // ----- _read_value -----

  function Unwrapped(items: seq<Value>): Value {
    if |items| == 1 then items[0] else List(items)
  }

  function SummaryAt(data: seq<byte>, pos: nat, t: nat): (r: Result<(Value, nat), string>)
    requires pos <= |data|
  {
    if IsScalar(t) then ScalarAt(data, pos, t)
    else if t == STRING then
      var (s, end) :- StringAt(data, pos);
      Ok((Str(s), end))
    else if t == ARRAY then
      var et :- NumberAt(data, pos, 4);
      var n :- NumberAt(data, pos + 4, 8);
      if et == STRING || et == ARRAY then
        var end :- SkipAllAt(data, pos + 12, et, n);
        Ok((Shape(n), end))
      else if IsScalar(et) then
        var (items, end) :- ValuesAt(data, pos + 12, et, n);
        Ok((Unwrapped(items), end))
      else Err(UNKNOWN_TYPE)
    else Err(UNKNOWN_TYPE)
  }

  // ----- The readers, moving the position of an open file -----

  class File {
    const data: seq<byte>
    var pos: nat

    constructor (bytes: seq<byte>)
      ensures data == bytes && pos == 0
    {
      data, pos := bytes, 0;
    }

    predicate Valid()
      reads this
    {
      pos <= |data|
    }

    method Read(n: nat) returns (s: seq<byte>)
      requires Valid()
      modifies this`pos
      ensures Valid() && pos == Reach(data, old(pos), n) && s == data[old(pos)..pos]
    {
      var end := if pos + n <= |data| then pos + n else |data|;
      s := data[pos..end];
      pos := end;
    }

    /** Reading an unsigned number of `n` bytes. */
    method Unpack(n: nat) returns (r: Result<nat, string>)
      requires Valid()
      modifies this`pos
      ensures Valid() && r == NumberAt(data, old(pos), n)
      ensures r.Ok? ==> pos == old(pos) + n
    {
      var s := Read(n);
      if |s| < n {
        return Err(SHORT_READ);
      }
      r := Ok(Unsigned(s));
    }

    method ReadString() returns (r: Result<seq<byte>, string>)
      requires Valid()
      modifies this`pos
      ensures Valid()
      ensures match StringAt(data, old(pos))
              case Ok((s, end)) => r == Ok(s) && pos == end
              case Err(e) => r == Err(e)
    {
      var n :- Unpack(8);
      var s := Read(n);
      r := Ok(s);
    }

    method ReadScalar(t: nat) returns (r: Result<Value, string>)
      requires Valid() && IsScalar(t)
      modifies this`pos
      ensures Valid()
      ensures match ScalarAt(data, old(pos), t)
              case Ok((v, end)) => r == Ok(v) && pos == end
              case Err(e) => r == Err(e)
    {
      var s := Read(Width(t));
      if |s| < Width(t) {
        return Err(SHORT_READ);
      }
      r := Ok(ScalarOf(t, s));
    }

    method RdVal(t: nat) returns (r: Result<Value, string>)
      requires Valid()
      modifies this`pos
      ensures Valid()
      ensures match ValueAt(data, old(pos), t)
              case Ok((v, end)) => r == Ok(v) && pos == end
              case Err(e) => r == Err(e)
      decreases |data| - pos
    {
      if IsScalar(t) {
        r := ReadScalar(t);
      } else if t == STRING {
        var s :- ReadString();
        r := Ok(Str(s));
      } else if t == ARRAY {
        ghost var start := pos + 12;
        var at :- Unpack(4);
        var n :- Unpack(8);
        var items: seq<Value> := [];
        PrependNothing(ValuesAt(data, pos, at, n));
        for i := 0 to n
          invariant Valid() && start <= pos
          invariant ValuesAt(data, start, at, n) == Prepend(items, ValuesAt(data, pos, at, n - i))
        {
          PrependMore(data, pos, at, n - i, items);
          var v :- RdVal(at);
          items := items + [v];
        }
        assert items + [] == items;
        r := Ok(List(items));
      } else {
        r := Err(UNKNOWN_TYPE);
      }
    }

    method SkipValue(t: nat) returns (r: Result<(), string>)
      requires Valid()
      modifies this`pos
      ensures Valid()
      ensures match SkipAt(data, old(pos), t)
              case Ok(end) => r == Ok(()) && pos == end
              case Err(e) => r == Err(e)
      decreases |data| - pos
    {
      if t == STRING {
        var s :- ReadString();
      } else if t == ARRAY {
        ghost var start := pos + 12;
        var et :- Unpack(4);
        var n :- Unpack(8);
        for i := 0 to n
          invariant Valid() && start <= pos
          invariant SkipAllAt(data, start, et, n) == SkipAllAt(data, pos, et, n - i)
        {
          var done :- SkipValue(et);
        }
      } else if IsScalar(t) {
        var s := Read(Width(t));
      } else {
        return Err(UNKNOWN_TYPE);
      }
      r := Ok(());
    }

    method ReadValue(t: nat) returns (r: Result<Value, string>)
      requires Valid()
      modifies this`pos
      ensures Valid()
      ensures match SummaryAt(data, old(pos), t)
              case Ok((v, end)) => r == Ok(v) && pos == end
              case Err(e) => r == Err(e)
    {
      if t == STRING {
        var s :- ReadString();
        return Ok(Str(s));
      }
      if t == ARRAY {
        ghost var start := pos + 12;
        var et :- Unpack(4);
        var n :- Unpack(8);
        if et == STRING || et == ARRAY {
          for i := 0 to n
            invariant Valid() && start <= pos
            invariant SkipAllAt(data, start, et, n) == SkipAllAt(data, pos, et, n - i)
          {
            var done :- SkipValue(et);
          }
          return Ok(Shape(n));
        }
        if !IsScalar(et) {
          return Err(UNKNOWN_TYPE);
        }
        var vals: seq<Value> := [];
        PrependNothing(ValuesAt(data, pos, et, n));
        for i := 0 to n
          invariant Valid() && start <= pos
          invariant ValuesAt(data, start, et, n) == Prepend(vals, ValuesAt(data, pos, et, n - i))
        {
          PrependMore(data, pos, et, n - i, vals);
          var v :- ReadScalar(et);
          vals := vals + [v];
        }
        assert vals + [] == vals;
        return Ok(if |vals| == 1 then vals[0] else List(vals));
      }
      if IsScalar(t) {
        r := ReadScalar(t);
        return;
      }
      r := Err(UNKNOWN_TYPE);
    }
  }

  function Prepend(done: seq<Value>, r: Result<(seq<Value>, nat), string>): Result<(seq<Value>, nat), string> {
    match r
    case Ok((rest, end)) => Ok((done + rest, end))
    case Err(e) => Err(e)
  }

  /** Reading one value more. */
  lemma PrependMore(data: seq<byte>, pos: nat, t: nat, n: nat, done: seq<Value>)
    requires pos <= |data| && n > 0
    ensures Prepend(done, ValuesAt(data, pos, t, n))
            == match ValueAt(data, pos, t)
               case Ok((v, next)) => Prepend(done + [v], ValuesAt(data, next, t, n - 1))
               case Err(e) => Err(e)
  {
    var first := ValueAt(data, pos, t);
    if first.Ok? {
      var rest := ValuesAt(data, first.value.1, t, n - 1);
      if rest.Ok? {
        assert done + ([first.value.0] + rest.value.0) == done + [first.value.0] + rest.value.0;
      }
    }
  }

  lemma PrependNothing(r: Result<(seq<Value>, nat), string>)
    ensures Prepend([], r) == r
  {
    if r.Ok? {
      assert [] + r.value.0 == r.value.0;
    }
  }

  // ----- The readers agree on every file -----

  /** Skipping stops where reading stops, whatever the bytes are. */
  lemma {:induction false} SkipFollowsRead(data: seq<byte>, pos: nat, t: nat)
    requires pos <= |data| && ValueAt(data, pos, t).Ok?
    ensures SkipAt(data, pos, t) == Ok(ValueAt(data, pos, t).value.1)
    decreases |data| - pos, 0, 0
  {
    if t == ARRAY {
      var et, n := NumberAt(data, pos, 4).value, NumberAt(data, pos + 4, 8).value;
      SkipAllFollowsReadAll(data, pos + 12, et, n);
    }
  }

  lemma {:induction false} SkipAllFollowsReadAll(data: seq<byte>, pos: nat, t: nat, n: nat)
    requires pos <= |data| && ValuesAt(data, pos, t, n).Ok?
    ensures SkipAllAt(data, pos, t, n) == Ok(ValuesAt(data, pos, t, n).value.1)
    decreases |data| - pos, 1, n
  {
    if n != 0 {
      SkipFollowsRead(data, pos, t);
      SkipAllFollowsReadAll(data, ValueAt(data, pos, t).value.1, t, n - 1);
    }
  }

  /** An array whose element type is none of the known ones; it can be read only when it is empty. */
  predicate HasUnknownElements(data: seq<byte>, pos: nat, t: nat)
    requires pos <= |data|
  {
    t == ARRAY && NumberAt(data, pos, 4).Ok? && NumberAt(data, pos, 4).value > FLOAT64
  }

  /** What the summary makes of a value that was read in full. */
  function Summary(elements: nat, v: Value): Value {
    match v
    case List(items) => if elements == STRING || elements == ARRAY then Shape(|items|) else Unwrapped(items)
    case _ => v
  }

  /**
    On every file: where `rd_val` returns a value, `_read_value` stops at the same place with the summary of that value,
    exactly when the value is not an (empty) array of an unknown type.
  */
  lemma SummaryFollowsRead(data: seq<byte>, pos: nat, t: nat)
    requires pos <= |data| && ValueAt(data, pos, t).Ok?
    ensures SummaryAt(data, pos, t).Ok? <==> !HasUnknownElements(data, pos, t)
    ensures var (v, end) := ValueAt(data, pos, t).value;
            var elements := if t == ARRAY then NumberAt(data, pos, 4).value else 0;
            SummaryAt(data, pos, t).Ok? ==> SummaryAt(data, pos, t) == Ok((Summary(elements, v), end))
  {
    if t == ARRAY {
      var et, n := NumberAt(data, pos, 4).value, NumberAt(data, pos + 4, 8).value;
      if et == STRING || et == ARRAY {
        SkipAllFollowsReadAll(data, pos + 12, et, n);
      }
    }
  }

  // ----- Well-formed values are read back -----

  /** A value to be written; numbers carry their type, arrays the type of their elements. */
  datatype Tree =
    | UIntTree(t: nat, u: nat)
    | IntTree(t: nat, i: int)
    | FloatTree(t: nat, bits: seq<byte>)
    | BoolTree(b: bool)
    | StringTree(bytes: seq<byte>)
    | ArrayTree(elements: nat, items: seq<Tree>)

  function TypeOf(v: Tree): nat {
    match v
    case UIntTree(t, _) => t
    case IntTree(t, _) => t
    case FloatTree(t, _) => t
    case BoolTree(_) => 7
    case StringTree(_) => 8
    case ArrayTree(_, _) => 9
  }

  /** How many bytes the writer packs a number into; the codes are those of the format. */
  function PackedSize(t: nat): nat {
    match t
    case 0 | 1 | 7 => 1
    case 2 | 3 => 2
    case 4 | 5 | 6 => 4
    case _ => 8
  }

  predicate WellFormed(v: Tree) {
    match v
    case UIntTree(t, u) => t in {0, 2, 4, 10} && u < Pow256(PackedSize(t))
    case IntTree(t, i) => t in {1, 3, 5, 11} && 0 <= 2 * i + Pow256(PackedSize(t)) && 2 * i < Pow256(PackedSize(t))
    case FloatTree(t, bits) => t in {6, 12} && |bits| == PackedSize(t)
    case BoolTree(_) => true
    case StringTree(bytes) => |bytes| < Pow256(8)
    case ArrayTree(elements, items) =>
      && elements <= FLOAT64 && |items| < Pow256(8)
      && forall k :: 0 <= k < |items| ==> TypeOf(items[k]) == elements && WellFormed(items[k])
  }

  function Encode(v: Tree): seq<byte>
    requires WellFormed(v)
    decreases v, 0
  {
    match v
    case UIntTree(t, u) => Bytes(u, PackedSize(t))
    case IntTree(t, i) => Bytes(if i < 0 then i + Pow256(PackedSize(t)) else i, PackedSize(t))
    case FloatTree(_, bits) => bits
    case BoolTree(b) => [if b then 1 else 0]
    case StringTree(bytes) => Bytes(|bytes|, 8) + bytes
    case ArrayTree(elements, items) =>
      Bytes(elements, 4) + Bytes(|items|, 8) + EncodeAll(items)
  }

  function EncodeAll(items: seq<Tree>): seq<byte>
    requires forall k :: 0 <= k < |items| ==> WellFormed(items[k])
    decreases items
  {
    if items == [] then [] else Encode(items[0]) + EncodeAll(items[1..])
  }

  /** The value that a tree stands for. */
  function Meaning(v: Tree): Value
    decreases v, 0
  {
    match v
    case UIntTree(_, u) => Int(u)
    case IntTree(_, i) => Int(i)
    case FloatTree(_, bits) => Float(bits)
    case BoolTree(b) => Bool(b)
    case StringTree(bytes) => Str(bytes)
    case ArrayTree(_, items) => List(Meanings(items))
  }

  function Meanings(items: seq<Tree>): (r: seq<Value>)
    ensures |r| == |items|
    decreases items
  {
    if items == [] then [] else [Meaning(items[0])] + Meanings(items[1..])
  }

  lemma NumberReadsBack(data: seq<byte>, pos: nat, n: nat, width: nat)
    requires n < Pow256(width) && At(data, pos, Bytes(n, width))
    ensures NumberAt(data, pos, width) == Ok(n)
  {
    BytesReadBack(n, width);
  }

  lemma ScalarReadsBack(data: seq<byte>, pos: nat, v: Tree)
    requires WellFormed(v) && IsScalar(TypeOf(v)) && At(data, pos, Encode(v))
    ensures ScalarAt(data, pos, TypeOf(v)) == Ok((Meaning(v), pos + |Encode(v)|))
  {
    var w := Width(TypeOf(v));
    assert w == PackedSize(TypeOf(v));
    hide Bytes, Unsigned, Pow256;
    match v {
      case UIntTree(t, u) =>
        BytesReadBack(u, w);
      case IntTree(t, i) =>
        BytesReadBack(if i < 0 then i + Pow256(w) else i, w);
      case FloatTree(_, _) =>
      case BoolTree(_) =>
    }
  }

  lemma EnoughForTypes()
    ensures FLOAT64 < Pow256(4)
  {
    assert Pow256(4) == 256 * Pow256(3) && Pow256(3) >= 1;
  }

  /** A well-formed value is read back, wherever it stands and whatever follows it. */
  lemma {:induction false} ValueReadsBack(data: seq<byte>, pos: nat, v: Tree)
    requires WellFormed(v) && At(data, pos, Encode(v))
    ensures ValueAt(data, pos, TypeOf(v)) == Ok((Meaning(v), pos + |Encode(v)|))
    decreases v, 0
  {
    match v {
      case StringTree(bytes) =>
        AtConcat(data, pos, Bytes(|bytes|, 8), bytes);
        NumberReadsBack(data, pos, |bytes|, 8);
      case ArrayTree(elements, items) =>
        var et, n := Bytes(elements, 4), Bytes(|items|, 8);
        AtConcat(data, pos, et + n, EncodeAll(items));
        AtConcat(data, pos, et, n);
        EnoughForTypes();
        NumberReadsBack(data, pos, elements, 4);
        NumberReadsBack(data, pos + 4, |items|, 8);
        ValuesReadBack(data, pos + 12, items, elements);
      case _ =>
        ScalarReadsBack(data, pos, v);
    }
  }

  lemma {:induction false} ValuesReadBack(data: seq<byte>, pos: nat, items: seq<Tree>, t: nat)
    requires forall k :: 0 <= k < |items| ==> WellFormed(items[k]) && TypeOf(items[k]) == t
    requires At(data, pos, EncodeAll(items))
    ensures ValuesAt(data, pos, t, |items|) == Ok((Meanings(items), pos + |EncodeAll(items)|))
    decreases items
  {
    hide At, Encode, ValueAt, Meaning, WellFormed, TypeOf;
    if items != [] {
      AtConcat(data, pos, Encode(items[0]), EncodeAll(items[1..]));
      ValueReadsBack(data, pos, items[0]);
      ValuesReadBack(data, pos + |Encode(items[0])|, items[1..], t);
    }
  }

  /** The three readers on a well-formed value: the value, its summary, and one common end. */
  lemma ReadersAgree(data: seq<byte>, pos: nat, v: Tree)
    requires WellFormed(v) && At(data, pos, Encode(v))
    ensures var end := pos + |Encode(v)|;
            && ValueAt(data, pos, TypeOf(v)) == Ok((Meaning(v), end))
            && SummaryAt(data, pos, TypeOf(v))
               == Ok((Summary(if v.ArrayTree? then v.elements else 0, Meaning(v)), end))
            && SkipAt(data, pos, TypeOf(v)) == Ok(end)
  {
    ValueReadsBack(data, pos, v);
    SkipFollowsRead(data, pos, TypeOf(v));
    if v.ArrayTree? {
      var et := Bytes(v.elements, 4);
      AtConcat(data, pos, et + Bytes(|v.items|, 8), EncodeAll(v.items));
      AtConcat(data, pos, et, Bytes(|v.items|, 8));
      EnoughForTypes();
      NumberReadsBack(data, pos, v.elements, 4);
    }
    hide ValueAt, SummaryAt, SkipAt, Encode;
    SummaryFollowsRead(data, pos, TypeOf(v));
  }

  // ----- Where the readers differ -----

  /** A number that the end of the file cuts off: reading fails, and skipping stops there without noticing. */
  lemma CutOffNumber(data: seq<byte>, pos: nat, t: nat)
    requires pos <= |data| < pos + PackedSize(t) && (t <= 7 || 10 <= t <= 12)
    ensures ValueAt(data, pos, t).Err? && SummaryAt(data, pos, t).Err? && SkipAt(data, pos, t) == Ok(|data|)
  {
  }

  /** A string that the end of the file cuts off is as much as there is. */
  lemma CutOffString(data: seq<byte>, pos: nat)
    requires pos + 8 <= |data| && pos + 8 + Unsigned(data[pos..pos + 8]) > |data|
    ensures ValueAt(data, pos, 8) == Ok((Str(data[pos + 8..]), |data|))
    ensures SkipAt(data, pos, 8) == Ok(|data|)
  {
    assert data[pos + 8..|data|] == data[pos + 8..];
    assert NumberAt(data, pos, 8) == Ok(Unsigned(data[pos..pos + 8]));
    assert StringAt(data, pos) == Ok((data[pos + 8..], |data|));
  }

  /** No reader takes a type that the format does not have. */
  lemma UnknownTypesFail(data: seq<byte>, pos: nat, t: nat)
    requires pos <= |data| && t > 12
    ensures ValueAt(data, pos, t).Err? && SummaryAt(data, pos, t).Err? && SkipAt(data, pos, t).Err?
  {
  }
}
