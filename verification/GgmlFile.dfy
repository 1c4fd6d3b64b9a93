/**
  Loading an old model file (GGML, GGMF and GGJT): header, hyperparameters, vocabulary and tensors. Byte counts are
  64-bit numbers that wrap around, and slices are Python's: cut off at the end of the file, counted from the end when
  negative.
*/
module GgmlFile {
  import opened Wrappers
  import opened Basics
  import opened LittleEndian

  datatype Format = GGML | GGMF | GGJT

  datatype Error =
    | ShortRead | AlreadyGguf | BadVersion | BadMagic | BadFtype | NotConvertible | AbsurdItem | BadDimensions
    | AbsurdName | UnknownType | MissingFeedForward | FeedForwardDimensions

  // ----- Python slices and struct.unpack -----

  function Bound(i: int, size: nat): (n: nat)
    ensures n <= size
  {
    if i < 0 then (if i + size < 0 then 0 else i + size) else if i < size then i else size
  }

  function Slice(data: seq<byte>, a: int, b: int): (s: seq<byte>)
    ensures 0 <= a <= b <= |data| ==> s == data[a..b]
  {
    var i, j := Bound(a, |data|), Bound(b, |data|);
    if i <= j then data[i..j] else []
  }

  function Words(s: seq<byte>, count: nat): (ws: seq<nat>)
    requires |s| == 4 * count
    ensures |ws| == count
  {
    if count == 0 then [] else [Unsigned(s[..4])] + Words(s[4..], count - 1)
  }

  /** `count` 32-bit numbers. */
  function WordsAt(data: seq<byte>, offset: int, count: nat): (r: Result<seq<nat>, Error>)
    ensures r.Ok? ==> |r.value| == count
  {
    var s := Slice(data, offset, offset + 4 * count);
    if |s| == 4 * count then Ok(Words(s, count)) else Err(ShortRead)
  }

  // ----- Header and hyperparameters -----

  function Magic(format: Format): seq<byte> {
    match format
    case GGML => ['l' as int, 'm' as int, 'g' as int, 'g' as int]
    case GGMF => ['f' as int, 'm' as int, 'g' as int, 'g' as int]
    case GGJT => ['t' as int, 'j' as int, 'g' as int, 'g' as int]
  }

  const GGUF_MAGIC: seq<byte> := ['G' as int, 'G' as int, 'U' as int, 'F' as int]

  datatype Header = Header(format: Format, version: nat, size: nat)

  function HeaderAt(data: seq<byte>, offset: nat): Result<Header, Error> {
    var magic := Slice(data, offset, offset + 4);
    if magic == GGUF_MAGIC then Err(AlreadyGguf)
    else if magic == Magic(GGML) then Ok(Header(GGML, 1, 4))
    else
      var version :- WordsAt(data, offset + 4, 1);
      if magic == Magic(GGMF) then if version[0] != 1 then Err(BadVersion) else Ok(Header(GGMF, 1, 8))
      else if magic == Magic(GGJT) then
        if version[0] < 1 || version[0] > 3 then Err(BadVersion) else Ok(Header(GGJT, version[0], 8))
      else Err(BadMagic)
  }

  datatype Hyperparameters = Hyperparameters(nVocab: nat, nEmbd: nat, nMult: nat, nHead: nat, nLayer: nat, nRot: nat,
                                             ftype: nat)

  const ALL_F32 := 0
  const MOSTLY_F16 := 1
  const MOSTLY_Q4_0 := 2
  const MOSTLY_Q4_1 := 3
  const MOSTLY_Q4_1_SOME_F16 := 4
  const MOSTLY_Q8_0 := 7
  const MOSTLY_Q6_K := 18

  predicate IsFtype(n: nat) {
    n <= MOSTLY_Q4_1_SOME_F16 || MOSTLY_Q8_0 <= n <= MOSTLY_Q6_K
  }

  function HyperparametersAt(data: seq<byte>, offset: nat): (r: Result<Hyperparameters, Error>)
    ensures r.Ok? ==> IsFtype(r.value.ftype)
  {
    var w :- WordsAt(data, offset, 7);
    if IsFtype(w[6]) then Ok(Hyperparameters(w[0], w[1], w[2], w[3], w[4], w[5], w[6])) else Err(BadFtype)
  }

  /** Old quantizations cannot be converted. */
  predicate Convertible(format: Format, version: nat, ftype: nat) {
    if format != GGJT || version < 2 then ftype == ALL_F32 || ftype == MOSTLY_F16
    else if version == 2 then
      ftype != MOSTLY_Q4_0 && ftype != MOSTLY_Q4_1 && ftype != MOSTLY_Q4_1_SOME_F16 && ftype != MOSTLY_Q8_0
    else true
  }

  // ----- Vocabulary -----

  /** The score is kept as its four bytes; there is none in the oldest format. */
  datatype Item = Item(text: seq<byte>, score: seq<byte>)

  function ItemAt(data: seq<byte>, offset: nat, scores: bool): Result<(Item, nat), Error> {
    var len :- WordsAt(data, offset, 1);
    if len[0] >= 4096 then Err(AbsurdItem)
    else
      var end := offset + 4 + len[0];
      var text := Slice(data, offset + 4, end);
      if !scores then Ok((Item(text, []), end))
      else
        var score := Slice(data, end, end + 4);
        if |score| == 4 then Ok((Item(text, score), end + 4)) else Err(ShortRead)
  }

  function VocabAt(data: seq<byte>, offset: nat, n: nat, scores: bool): Result<(seq<Item>, nat), Error>
    decreases n
  {
    if n == 0 then Ok(([], offset))
    else
      var (item, next) :- ItemAt(data, offset, scores);
      var (rest, end) :- VocabAt(data, next, n - 1, scores);
      Ok(([item] + rest, end))
  }

  // ----- Tensors -----

  /** Block size and type size of the quantization types; 256 values make a block of the K types. */
  function QuantSizes(t: nat): (r: Option<(nat, nat)>)
    ensures r.Some? ==> r.value.0 > 0 && r.value.1 > 0
  {
    if t == 0 then Some((1, 4))
    else if t == 1 || t == 25 || t == 30 then Some((1, 2))
    else if t == 2 || t == 20 then Some((32, 18))
    else if t == 3 then Some((32, 20))
    else if t == 6 then Some((32, 22))
    else if t == 7 then Some((32, 24))
    else if t == 8 then Some((32, 34))
    else if t == 9 then Some((32, 36))
    else if t == 10 then Some((256, 84))
    else if t == 11 || t == 21 then Some((256, 110))
    else if t == 12 then Some((256, 144))
    else if t == 13 then Some((256, 176))
    else if t == 14 then Some((256, 210))
    else if t == 15 then Some((256, 292))
    else if t == 16 then Some((256, 66))
    else if t == 17 then Some((256, 74))
    else if t == 18 then Some((256, 98))
    else if t == 19 then Some((256, 50))
    else if t == 22 then Some((256, 82))
    else if t == 23 then Some((256, 136))
    else if t == 24 then Some((1, 1))
    else if t == 26 then Some((1, 4))
    else if t == 27 || t == 28 then Some((1, 8))
    else if t == 29 then Some((256, 56))
    else if t == 34 then Some((256, 54))
    else if t == 35 then Some((256, 66))
    else if t == 39 then Some((32, 17))
    else if t == 40 then Some((64, 36))
    else if t == 41 then Some((128, 18))
    else if t == 42 then Some((64, 18))
    else None
  }

  const TWO_63 := 0x8000_0000_0000_0000

  /** A number kept in 64 bits with a sign. */
  function Wrap64(x: int): (n: int)
    ensures -TWO_63 <= n < TWO_63
    ensures -TWO_63 <= x < TWO_63 ==> n == x
  {
    (x + TWO_63) % (2 * TWO_63) - TWO_63
  }

  function Product(dims: seq<nat>): nat {
    if dims == [] then 1 else dims[0] * Product(dims[1..])
  }

  /** The number of elements times the size of a block. */
  function BlockBytes(dims: seq<nat>, sizes: (nat, nat)): nat {
    Product(dims) * sizes.1
  }

  /** Division that rounds down. */
  function Quotient(n: int, d: nat): (q: int)
    requires d > 0
    ensures n >= 0 ==> q >= 0
  {
    n / d
  }

  function ByteCount(dims: seq<nat>, sizes: (nat, nat)): int
    requires sizes.0 > 0
  {
    Quotient(Wrap64(BlockBytes(dims, sizes)), sizes.0)
  }

  /** The least multiple of 32 that is not below `n`. */
  function Aligned(n: int): (m: int)
    ensures n <= m < n + 32
  {
    (n + 31) / 32 * 32
  }

  datatype Tensor = Tensor(name: seq<byte>, dims: seq<nat>, dtype: nat, start: int, len: int)

  function TensorAt(data: seq<byte>, offset: int, padding: bool): (r: Result<Tensor, Error>)
    ensures r.Ok? ==> QuantSizes(r.value.dtype).Some? && r.value.start >= offset + 12
  {
    var head :- WordsAt(data, offset, 3);
    if head[0] > 4 then Err(BadDimensions)
    else if head[1] >= 4096 then Err(AbsurdName)
    else if QuantSizes(head[2]).None? then Err(UnknownType)
    else
      var dims :- WordsAt(data, offset + 12, head[0]);
      var nameAt := offset + 12 + 4 * head[0];
      var name := Slice(data, nameAt, nameAt + head[1]);
      var start := if padding then Aligned(nameAt + head[1]) else nameAt + head[1];
      Ok(Tensor(name, dims, head[2], start, ByteCount(dims, QuantSizes(head[2]).value)))
  }

  /** Where the next tensor is looked for. */
  function Next(t: Tensor): int {
    Wrap64(t.start + t.len)
  }

  datatype Outcome<T> = Finished(value: T) | Failed(error: Error) | Running

  /** The tensor loop, after at most `limit` rounds. */
  function TensorsAt(data: seq<byte>, offset: int, padding: bool, limit: nat): Outcome<(seq<Tensor>, int)>
    decreases limit
  {
    if offset >= |data| then Finished(([], offset))
    else if limit == 0 then Running
    else match TensorAt(data, offset, padding)
      case Err(e) => Failed(e)
      case Ok(t) => PrependTensors([t], TensorsAt(data, Next(t), padding, limit - 1))
  }

  function PrependTensors(done: seq<Tensor>, r: Outcome<(seq<Tensor>, int)>): Outcome<(seq<Tensor>, int)> {
    if r.Finished? then Finished((done + r.value.0, r.value.1)) else r
  }

  function NoNames(): map<seq<byte>, nat> {
    map[]
  }

  function Record(m: map<seq<byte>, nat>, name: seq<byte>, i: nat): map<seq<byte>, nat> {
    m[name := i]
  }

  /** The place of each name; a later tensor of the same name replaces an earlier one. */
  function MapOf(ts: seq<Tensor>): map<seq<byte>, nat> {
    if ts == [] then NoNames()
    else
      Record(MapOf(ts[..|ts| - 1]), ts[|ts| - 1].name, |ts| - 1)
  }

  /** The map leads to the last tensor of that name. */
  lemma {:induction false} MapLeadsToLast(ts: seq<Tensor>, name: seq<byte>)
    ensures name in MapOf(ts) <==> exists i :: 0 <= i < |ts| && ts[i].name == name
    ensures name in MapOf(ts) ==>
              var k := MapOf(ts)[name];
              k < |ts| && ts[k].name == name && forall i :: k < i < |ts| ==> ts[i].name != name
    decreases |ts|
  {
    if ts != [] {
      var before := ts[..|ts| - 1];
      MapLeadsToLast(before, name);
      assert ts == before + [ts[|ts| - 1]];
      if ts[|ts| - 1].name != name && name in MapOf(before) {
        assert ts[MapOf(before)[name]].name == name;
      }
    }
  }

  // ----- The whole file -----

  datatype Model = Model(format: Format, version: nat, hyper: Hyperparameters, nFf: nat, vocab: seq<Item>,
                         tensors: seq<Tensor>, end: int)

  function FeedForward(ffName: seq<byte>, ts: seq<Tensor>): Result<nat, Error> {
    if ffName !in MapOf(ts) then Err(MissingFeedForward)
    else
      MapLeadsToLast(ts, ffName);
      var t := ts[MapOf(ts)[ffName]];
      if |t.dims| < 2 then Err(FeedForwardDimensions) else Ok(t.dims[1])
  }

  /** `layers.0.feed_forward.w1.weight` */
  const FEED_FORWARD: seq<byte> :=
    [108, 97, 121, 101, 114, 115, 46, 48, 46, 102, 101, 101, 100, 95, 102, 111, 114, 119, 97, 114, 100, 46, 119, 49, 46,
     119, 101, 105, 103, 104, 116]

  function LoadAt(data: seq<byte>, offset: nat, limit: nat): Outcome<Model> {
    match HeaderAt(data, offset)
    case Err(e) => Failed(e)
    case Ok(header) =>
    match HyperparametersAt(data, offset + header.size)
    case Err(e) => Failed(e)
    case Ok(hp) =>
    if !Convertible(header.format, header.version, hp.ftype) then Failed(NotConvertible)
    else
    match VocabAt(data, offset + header.size + 28, hp.nVocab, header.format != GGML)
    case Err(e) => Failed(e)
    case Ok((vocab, next)) =>
    match TensorsAt(data, next, header.format == GGJT, limit)
    case Failed(e) => Failed(e)
    case Running => Running
    case Finished((tensors, end)) =>
    match FeedForward(FEED_FORWARD, tensors)
    case Err(e) => Failed(e)
    case Ok(nFf) => Finished(Model(header.format, header.version, hp, nFf, vocab, tensors, end))
  }

  // ----- Loading, step by step -----

  class GgmlModel {
    var fileFormat: Format
    var formatVersion: nat
    var hyperparameters: Option<Hyperparameters>
    var nFf: nat
    var vocab: seq<Item>
    var tensors: seq<Tensor>
    var tensorMap: map<seq<byte>, nat>

    constructor ()
      ensures hyperparameters == None && vocab == [] && tensors == [] && tensorMap == map[]
    {
      fileFormat, formatVersion, hyperparameters, nFf := GGML, 0, None, 0;
      vocab, tensors, tensorMap := [], [], map[];
    }

    method ValidateHeader(data: seq<byte>, offset: nat) returns (r: Result<nat, Error>)
      modifies this`fileFormat, this`formatVersion
      ensures match HeaderAt(data, offset)
              case Ok(h) => r == Ok(h.size) && fileFormat == h.format && formatVersion == h.version
              case Err(e) => r == Err(e)
    {
      var magic := Slice(data, offset, offset + 4);
      if magic == GGUF_MAGIC {
        return Err(AlreadyGguf);
      }
      if magic == Magic(GGML) {
        fileFormat, formatVersion := GGML, 1;
        return Ok(4);
      }
      var words :- WordsAt(data, offset + 4, 1);
      var version := words[0];
      if magic == Magic(GGMF) {
        if version != 1 {
          return Err(BadVersion);
        }
        fileFormat, formatVersion := GGMF, version;
        return Ok(8);
      }
      if magic == Magic(GGJT) {
        if version < 1 || version > 3 {
          return Err(BadVersion);
        }
        fileFormat, formatVersion := GGJT, version;
        return Ok(8);
      }
      r := Err(BadMagic);
    }

    /** At most `limit` rounds of the tensor loop are made. */
    method Load(data: seq<byte>, start: nat, limit: nat) returns (r: Outcome<int>)
      modifies this
      ensures match LoadAt(data, start, limit)
              case Finished(m) =>
                && r == Finished(m.end) && fileFormat == m.format && formatVersion == m.version
                && hyperparameters == Some(m.hyper) && nFf == m.nFf && vocab == m.vocab && tensors == m.tensors
                && tensorMap == MapOf(m.tensors)
              case Failed(e) => r == Failed(e)
              case Running => r == Running
    {
      hide HeaderAt, HyperparametersAt, VocabAt, TensorsAt, MapOf;
      var header := ValidateHeader(data, start);
      if header.Err? {
        return Failed(header.error);
      }
      var offset := start + header.value;
      var hp := HyperparametersAt(data, offset);
      if hp.Err? {
        return Failed(hp.error);
      }
      offset := offset + 28;
      if !Convertible(fileFormat, formatVersion, hp.value.ftype) {
        return Failed(NotConvertible);
      }
      var items := LoadVocab(data, offset, hp.value.nVocab, fileFormat != GGML);
      if items.Err? {
        return Failed(items.error);
      }
      var loaded, names := LoadTensors(data, items.value.1, fileFormat == GGJT, limit);
      if loaded.Failed? {
        return Failed(loaded.error);
      }
      if loaded.Running? {
        return Running;
      }
      hyperparameters, vocab, tensors, tensorMap := Some(hp.value), items.value.0, loaded.value.0, names;
      if FEED_FORWARD !in tensorMap {
        return Failed(MissingFeedForward);
      }
      MapLeadsToLast(tensors, FEED_FORWARD);
      var ff := tensors[tensorMap[FEED_FORWARD]];
      if |ff.dims| < 2 {
        return Failed(FeedForwardDimensions);
      }
      nFf := ff.dims[1];
      r := Finished(loaded.value.1);
    }
  }

  function PrependItems(done: seq<Item>, r: Result<(seq<Item>, nat), Error>): Result<(seq<Item>, nat), Error> {
    match r
    case Ok((rest, end)) => Ok((done + rest, end))
    case Err(e) => Err(e)
  }

  lemma PrependItem(data: seq<byte>, offset: nat, n: nat, scores: bool, done: seq<Item>)
    requires n > 0
    ensures PrependItems(done, VocabAt(data, offset, n, scores))
            == match ItemAt(data, offset, scores)
               case Ok((item, next)) => PrependItems(done + [item], VocabAt(data, next, n - 1, scores))
               case Err(e) => Err(e)
  {
    hide ItemAt;
    var item := ItemAt(data, offset, scores);
    if item.Ok? {
      var rest := VocabAt(data, item.value.1, n - 1, scores);
      if rest.Ok? {
        assert done + ([item.value.0] + rest.value.0) == done + [item.value.0] + rest.value.0;
      }
    }
  }

  lemma NoItemsDone(r: Result<(seq<Item>, nat), Error>)
    ensures PrependItems([], r) == r
  {
    if r.Ok? {
      assert [] + r.value.0 == r.value.0;
    }
  }

  lemma NoItemsLeft(data: seq<byte>, offset: nat, scores: bool, done: seq<Item>)
    ensures PrependItems(done, VocabAt(data, offset, 0, scores)) == Ok((done, offset))
  {
    assert done + [] == done;
  }

  method LoadItem(data: seq<byte>, start: nat, loadScores: bool) returns (r: Result<(Item, nat), Error>)
    ensures r == ItemAt(data, start, loadScores)
  {
    var offset := start;
    var len :- WordsAt(data, offset, 1);
    if len[0] >= 4096 {
      return Err(AbsurdItem);
    }
    offset := offset + 4;
    var text := Slice(data, offset, offset + len[0]);
    offset := offset + len[0];
    var score: seq<byte> := [];
    if loadScores {
      score := Slice(data, offset, offset + 4);
      if |score| != 4 {
        return Err(ShortRead);
      }
      offset := offset + 4;
    }
    r := Ok((Item(text, score), offset));
  }

  method LoadVocab(data: seq<byte>, start: nat, nVocab: nat, loadScores: bool)
    returns (r: Result<(seq<Item>, nat), Error>)
    ensures r == VocabAt(data, start, nVocab, loadScores)
  {
    var items: seq<Item>, offset := [], start;
    hide VocabAt, ItemAt;
    NoItemsDone(VocabAt(data, start, nVocab, loadScores));
    for i := 0 to nVocab
      invariant PrependItems(items, VocabAt(data, offset, nVocab - i, loadScores))
                == VocabAt(data, start, nVocab, loadScores)
    {
      PrependItem(data, offset, nVocab - i, loadScores, items);
      var item :- LoadItem(data, offset, loadScores);
      items := items + [item.0];
      offset := item.1;
    }
    NoItemsLeft(data, offset, loadScores, items);
    r := Ok((items, offset));
  }

  method LoadTensor(data: seq<byte>, start: int, usePadding: bool) returns (r: Result<Tensor, Error>)
    ensures r == TensorAt(data, start, usePadding)
  {
    hide QuantSizes, WordsAt, Slice, ByteCount;
    var offset := start;
    var head :- WordsAt(data, offset, 3);
    var nDims, nameLen, dtype := head[0], head[1], head[2];
    if nDims > 4 {
      return Err(BadDimensions);
    }
    if nameLen >= 4096 {
      return Err(AbsurdName);
    }
    var quant := QuantSizes(dtype);
    if quant == None {
      return Err(UnknownType);
    }
    offset := offset + 12;
    var dims :- WordsAt(data, offset, nDims);
    offset := offset + 4 * nDims;
    var name := Slice(data, offset, offset + nameLen);
    offset := offset + nameLen;
    var pad := if usePadding then (offset + 31) / 32 * 32 - offset else 0;
    offset := offset + pad;
    r := Ok(Tensor(name, dims, dtype, offset, ByteCount(dims, quant.value)));
  }

  /** One round of the loop. */
  lemma PrependTensor(data: seq<byte>, offset: int, padding: bool, limit: nat, done: seq<Tensor>)
    requires offset < |data| && limit > 0
    ensures PrependTensors(done, TensorsAt(data, offset, padding, limit))
            == match TensorAt(data, offset, padding)
               case Ok(t) => PrependTensors(done + [t], TensorsAt(data, Next(t), padding, limit - 1))
               case Err(e) => Failed(e)
  {
    hide TensorAt, Next;
    var r := TensorAt(data, offset, padding);
    if r.Ok? {
      var rest := TensorsAt(data, Next(r.value), padding, limit - 1);
      if rest.Finished? {
        assert done + [r.value] + rest.value.0 == done + ([r.value] + rest.value.0);
      }
    }
  }

  lemma NoTensorsDone(r: Outcome<(seq<Tensor>, int)>)
    ensures PrependTensors([], r) == r
  {
    if r.Finished? {
      assert [] + r.value.0 == r.value.0;
    }
  }

  lemma LoopIsOver(data: seq<byte>, offset: int, padding: bool, limit: nat, done: seq<Tensor>)
    requires offset >= |data| || limit == 0
    ensures PrependTensors(done, TensorsAt(data, offset, padding, limit))
            == if offset < |data| then Running else Finished((done, offset))
  {
    assert done + [] == done;
  }

  method LoadTensors(data: seq<byte>, start: int, usePadding: bool, limit: nat)
    returns (r: Outcome<(seq<Tensor>, int)>, tensorMap: map<seq<byte>, nat>)
    ensures r == TensorsAt(data, start, usePadding, limit)
    ensures r.Finished? ==> tensorMap == MapOf(r.value.0)
  {
    var tensors: seq<Tensor>, offset := [], start;
    hide TensorsAt, TensorAt, MapOf, Next, Record, NoNames;
    tensorMap := NoNames();
    MapOfNothing();
    var left := limit;
    NoTensorsDone(TensorsAt(data, start, usePadding, limit));
    while offset < |data| && left > 0
      invariant PrependTensors(tensors, TensorsAt(data, offset, usePadding, left))
                == TensorsAt(data, start, usePadding, limit)
      invariant tensorMap == MapOf(tensors)
      decreases left
    {
      PrependTensor(data, offset, usePadding, left, tensors);
      var t := LoadTensor(data, offset, usePadding);
      if t.Err? {
        return Failed(t.error), tensorMap;
      }
      MapOfMore(tensors, t.value);
      tensorMap := Record(tensorMap, t.value.name, |tensors|);
      tensors := tensors + [t.value];
      offset := Next(t.value);
      left := left - 1;
    }
    LoopIsOver(data, offset, usePadding, left, tensors);
    if offset < |data| {
      return Running, tensorMap;
    }
    r := Finished((tensors, offset));
  }

  lemma MapOfNothing()
    ensures MapOf([]) == NoNames()
  {
  }

  lemma MapOfMore(ts: seq<Tensor>, t: Tensor)
    ensures MapOf(ts + [t]) == Record(MapOf(ts), t.name, |ts|)
  {
    assert (ts + [t])[..|ts|] == ts;
  }

  // ----- The tensor loop -----

  /** The size has not become negative, and the end of the data can be counted in 63 bits. */
  predicate Countable(t: Tensor) {
    t.len >= 0 && t.start + t.len < TWO_63
  }

  /** Every tensor that is met within `limit` rounds is countable. */
  predicate CountableFor(data: seq<byte>, offset: int, padding: bool, limit: nat)
    decreases limit
  {
    offset < |data| && limit > 0 ==>
      match TensorAt(data, offset, padding)
      case Err(_) => true
      case Ok(t) => Countable(t) && CountableFor(data, Next(t), padding, limit - 1)
  }

  lemma AlignedIsMultiple(n: int)
    ensures Aligned(n) % 32 == 0
  {
  }

  lemma QuotientIsBounded(n: int, d: nat)
    requires d > 0 && n < TWO_63
    ensures Quotient(n, d) < TWO_63
  {
  }

  lemma TensorShape(data: seq<byte>, offset: int, padding: bool)
    requires TensorAt(data, offset, padding).Ok?
    ensures var t := TensorAt(data, offset, padding).value;
            && offset + 12 <= t.start < offset + 8192 && t.len < TWO_63
            && (padding ==> t.start % 32 == 0)
  {
    var head := WordsAt(data, offset, 3).value;
    AlignedIsMultiple(offset + 12 + 4 * head[0] + head[1]);
    var sizes := QuantSizes(head[2]).value;
    var dims := WordsAt(data, offset + 12, head[0]).value;
    QuotientIsBounded(Wrap64(BlockBytes(dims, sizes)), sizes.0);
    hide QuantSizes, WordsAt, Slice, Aligned, Quotient, Wrap64, BlockBytes;
  }

  /** When every tensor that is met is countable, the loop ends, within as many rounds as the file has bytes. */
  lemma {:induction false} TensorLoopEnds(data: seq<byte>, offset: nat, padding: bool, limit: nat)
    requires CountableFor(data, offset, padding, limit) && limit >= |data| - offset
    ensures !TensorsAt(data, offset, padding, limit).Running?
    decreases limit
  {
    hide TensorAt, QuantSizes, Wrap64;
    if offset < |data| && TensorAt(data, offset, padding).Ok? {
      TensorShape(data, offset, padding);
      TensorLoopEnds(data, Next(TensorAt(data, offset, padding).value), padding, limit - 1);
    }
  }

  /** Each window begins after the one before it, and the position returned is the end of the last. */
  predicate WindowsFrom(offset: int, ts: seq<Tensor>, end: int)
    decreases |ts|
  {
    if ts == [] then end == offset
    else offset + 12 <= ts[0].start && ts[0].len >= 0 && WindowsFrom(ts[0].start + ts[0].len, ts[1..], end)
  }

  /** What holds of every finished loop: it stops behind the file, and padded data is aligned. */
  lemma {:induction false} LoopStopsBehindFile(data: seq<byte>, offset: int, padding: bool, limit: nat)
    requires TensorsAt(data, offset, padding, limit).Finished?
    ensures var (ts, end) := TensorsAt(data, offset, padding, limit).value;
            && |data| <= end
            && (padding ==> forall i :: 0 <= i < |ts| ==> ts[i].start % 32 == 0)
    decreases limit
  {
    hide TensorAt, QuantSizes, Next;
    if offset < |data| {
      TensorShape(data, offset, padding);
      LoopStopsBehindFile(data, Next(TensorAt(data, offset, padding).value), padding, limit - 1);
    }
  }

  /** The entries of a finished loop lie one behind the other if and only if each of them is countable. */
  lemma {:induction false} WindowsAreOrdered(data: seq<byte>, offset: nat, padding: bool, limit: nat)
    requires TensorsAt(data, offset, padding, limit).Finished? && |data| + 8192 < TWO_63
    ensures var (ts, end) := TensorsAt(data, offset, padding, limit).value;
            && (WindowsFrom(offset, ts, end) <==> forall i :: 0 <= i < |ts| ==> Countable(ts[i]))
            && |data| <= end
            && (padding ==> forall i :: 0 <= i < |ts| ==> ts[i].start % 32 == 0)
    decreases limit
  {
    hide TensorAt, TensorsAt, Next, WindowsFrom, Countable;
    LoopStopsBehindFile(data, offset, padding, limit);
    if offset < |data| {
      RoundUnfolds(data, offset, padding, limit);
      var t := TensorAt(data, offset, padding).value;
      var (rest, end) := TensorsAt(data, Next(t), padding, limit - 1).value;
      TensorShape(data, offset, padding);
      OneWindowMore(offset, t, rest, end);
      if Countable(t) {
        NextOfCountable(t);
        WindowsAreOrdered(data, Next(t), padding, limit - 1);
      } else {
        WrappedEntryGoesBack(data, t, padding, limit - 1);
      }
    } else {
      NothingUnfolds(data, offset, padding, limit);
    }
  }

  lemma RoundUnfolds(data: seq<byte>, offset: int, padding: bool, limit: nat)
    requires offset < |data| && TensorsAt(data, offset, padding, limit).Finished?
    ensures limit > 0 && TensorAt(data, offset, padding).Ok?
    ensures var t := TensorAt(data, offset, padding).value;
            var next := TensorsAt(data, Next(t), padding, limit - 1);
            next.Finished?
            && TensorsAt(data, offset, padding, limit).value == ([t] + next.value.0, next.value.1)
  {
    hide TensorAt, Next;
  }

  lemma NothingUnfolds(data: seq<byte>, offset: int, padding: bool, limit: nat)
    requires offset >= |data|
    ensures var r := TensorsAt(data, offset, padding, limit);
            r.Finished? && r.value == ([], offset) && WindowsFrom(offset, r.value.0, r.value.1)
  {
  }

  lemma OneWindowMore(offset: int, t: Tensor, rest: seq<Tensor>, end: int)
    requires offset + 12 <= t.start
    ensures WindowsFrom(offset, [t] + rest, end) <==> t.len >= 0 && WindowsFrom(t.start + t.len, rest, end)
    ensures (forall i :: 0 <= i < |[t] + rest| ==> Countable(([t] + rest)[i]))
            <==> Countable(t) && forall i :: 0 <= i < |rest| ==> Countable(rest[i])
  {
    var ts := [t] + rest;
    hide Countable;
    assert ts[0] == t && ts[1..] == rest;
    assert forall i :: 0 <= i < |rest| ==> rest[i] == ts[i + 1];
  }

  lemma NextOfCountable(t: Tensor)
    requires Countable(t) && t.start >= 0
    ensures t.len >= 0 && Next(t) == t.start + t.len >= 0
  {
  }

  /** After a place that cannot be counted the loop goes on in front of the file. */
  lemma WrappedEntryGoesBack(data: seq<byte>, t: Tensor, padding: bool, limit: nat)
    requires 0 <= t.start < |data| + 8192 < TWO_63 && t.len < TWO_63 && !Countable(t)
    requires TensorsAt(data, Next(t), padding, limit).Finished?
    ensures var (ts, end) := TensorsAt(data, Next(t), padding, limit).value;
            t.len < 0 || !WindowsFrom(t.start + t.len, ts, end)
  {
    hide TensorAt, QuantSizes;
    if t.len >= 0 {
      assert Next(t) == t.start + t.len - 2 * TWO_63 < 0;
      TensorShape(data, Next(t), padding);
    }
  }

  /** No two windows overlap. */
  lemma {:induction false} WindowsAreDisjoint(offset: int, ts: seq<Tensor>, end: int, i: nat, j: nat)
    requires WindowsFrom(offset, ts, end) && i < j < |ts|
    ensures ts[i].start + ts[i].len + 12 <= ts[j].start && ts[j].start + ts[j].len <= end
    decreases |ts|
  {
    if i == 0 {
      WindowsStartLater(ts[0].start + ts[0].len, ts[1..], end, j - 1);
    } else {
      WindowsAreDisjoint(ts[0].start + ts[0].len, ts[1..], end, i - 1, j - 1);
    }
  }

  lemma {:induction false} WindowsStartLater(offset: int, ts: seq<Tensor>, end: int, j: nat)
    requires WindowsFrom(offset, ts, end) && j < |ts|
    ensures offset + 12 <= ts[j].start && ts[j].start + ts[j].len <= end
    decreases |ts|
  {
    if j != 0 {
      WindowsStartLater(ts[0].start + ts[0].len, ts[1..], end, j - 1);
    } else {
      EndIsLast(ts[0].start + ts[0].len, ts[1..], end);
    }
  }

  lemma {:induction false} EndIsLast(offset: int, ts: seq<Tensor>, end: int)
    requires WindowsFrom(offset, ts, end)
    ensures offset <= end
    decreases |ts|
  {
    if ts != [] {
      EndIsLast(ts[0].start + ts[0].len, ts[1..], end);
    }
  }

  // ----- When the loop never ends -----

  /** Where the loop stands after `k` rounds, if it makes as many. */
  function OffsetAfter(data: seq<byte>, offset: int, padding: bool, k: nat): Option<int>
    decreases k
  {
    if k == 0 then Some(offset)
    else if offset < |data| && TensorAt(data, offset, padding).Ok? then
      OffsetAfter(data, Next(TensorAt(data, offset, padding).value), padding, k - 1)
    else None
  }

  lemma {:induction false} RunningExactly(data: seq<byte>, offset: int, padding: bool, limit: nat)
    ensures var r := OffsetAfter(data, offset, padding, limit);
            TensorsAt(data, offset, padding, limit).Running? <==> r.Some? && r.value < |data|
    decreases limit
  {
    hide TensorAt, Next;
    if limit > 0 && offset < |data| && TensorAt(data, offset, padding).Ok? {
      RunningExactly(data, Next(TensorAt(data, offset, padding).value), padding, limit - 1);
    }
  }

  lemma {:induction false} RoundsAddUp(data: seq<byte>, offset: int, padding: bool, k: nat, m: nat)
    ensures var r := OffsetAfter(data, offset, padding, k);
            OffsetAfter(data, offset, padding, k + m)
            == if r.Some? then OffsetAfter(data, r.value, padding, m) else None
    decreases k
  {
    hide TensorAt, Next;
    if k > 0 && offset < |data| && TensorAt(data, offset, padding).Ok? {
      RoundsAddUp(data, Next(TensorAt(data, offset, padding).value), padding, k - 1, m);
    }
  }

  /** After a round, the loop stands at a number of 64 bits. */
  lemma {:induction false} OffsetsAreBounded(data: seq<byte>, offset: int, padding: bool, k: nat)
    requires OffsetAfter(data, offset, padding, k).Some?
    ensures OffsetAfter(data, offset, padding, k).value >= LeastOffset(offset)
    decreases k
  {
    hide TensorAt, Wrap64;
    if k > 0 {
      OffsetsAreBounded(data, Next(TensorAt(data, offset, padding).value), padding, k - 1);
    }
  }

  function LeastOffset(offset: int): int {
    if offset < -TWO_63 then offset else -TWO_63
  }

  lemma {:induction false} Pigeonhole(s: seq<int>, lo: int, hi: int) returns (i: nat, j: nat)
    requires lo <= hi && |s| > hi - lo && forall k :: 0 <= k < |s| ==> lo <= s[k] < hi
    ensures i < j < |s| && s[i] == s[j]
    decreases hi - lo
  {
    assert lo <= s[0] < hi;
    if at :| 0 <= at < |s| && s[at] == hi - 1 {
      if again :| at < again < |s| && s[again] == hi - 1 {
        return at, again;
      }
      if before :| 0 <= before < at && s[before] == hi - 1 {
        return before, at;
      }
      var others := s[..at] + s[at + 1..];
      i, j := Pigeonhole(others, lo, hi - 1);
      i, j := if i < at then i else i + 1, if j < at then j else j + 1;
    } else {
      i, j := Pigeonhole(s, lo, hi - 1);
    }
  }

  /** The loop stands at one place twice. */
  ghost predicate Repeats(data: seq<byte>, offset: int, padding: bool) {
    exists i: nat, j: nat ::
      i < j && OffsetAfter(data, offset, padding, i).Some?
      && OffsetAfter(data, offset, padding, i) == OffsetAfter(data, offset, padding, j)
  }

  /** However many rounds the loop is given, it is still running. */
  ghost predicate NeverEnds(data: seq<byte>, offset: int, padding: bool) {
    forall limit: nat :: TensorsAt(data, offset, padding, limit).Running?
  }

  lemma {:induction false} CyclesGoOn(data: seq<byte>, offset: int, padding: bool, period: nat, m: nat)
    requires period > 0 && OffsetAfter(data, offset, padding, period) == Some(offset)
    ensures OffsetAfter(data, offset, padding, m).Some?
    decreases m
  {
    hide OffsetAfter;
    if m < period {
      RoundsAddUp(data, offset, padding, m, period - m);
    } else {
      CyclesGoOn(data, offset, padding, period, m - period);
      RoundsAddUp(data, offset, padding, period, m - period);
    }
  }

  lemma RepeatingNeverEnds(data: seq<byte>, offset: int, padding: bool, limit: nat)
    requires Repeats(data, offset, padding)
    ensures TensorsAt(data, offset, padding, limit).Running?
  {
    hide OffsetAfter, TensorsAt;
    var i: nat, j: nat :| i < j && OffsetAfter(data, offset, padding, i).Some?
      && OffsetAfter(data, offset, padding, i) == OffsetAfter(data, offset, padding, j);
    AnyRoundIsMade(data, offset, padding, i, j, limit + 1);
    OneRound(data, offset, padding, limit);
    RunningExactly(data, offset, padding, limit);
  }

  lemma AnyRoundIsMade(data: seq<byte>, offset: int, padding: bool, i: nat, j: nat, k: nat)
    requires i < j && OffsetAfter(data, offset, padding, i).Some?
    requires OffsetAfter(data, offset, padding, i) == OffsetAfter(data, offset, padding, j)
    ensures OffsetAfter(data, offset, padding, k).Some?
  {
    hide OffsetAfter;
    var start := OffsetAfter(data, offset, padding, i).value;
    RoundsAddUp(data, offset, padding, i, j - i);
    CyclesGoOn(data, start, padding, j - i, k);
    RoundsAddUp(data, offset, padding, i, k);
    assert i + k == k + i;
    RoundsAddUp(data, offset, padding, k, i);
  }

  /** Only in front of the end is there a further round. */
  lemma OneRound(data: seq<byte>, offset: int, padding: bool, k: nat)
    requires OffsetAfter(data, offset, padding, k + 1).Some?
    ensures var r := OffsetAfter(data, offset, padding, k); r.Some? && r.value < |data|
  {
    RoundsAddUp(data, offset, padding, k, 1);
    var r := OffsetAfter(data, offset, padding, k);
    assert r.Some? && OffsetAfter(data, r.value, padding, 1).Some?;
  }

  lemma LongRunsRepeat(data: seq<byte>, offset: int, padding: bool, limit: nat)
    requires TensorsAt(data, offset, padding, limit).Running? && limit >= |data| - LeastOffset(offset)
    ensures Repeats(data, offset, padding)
  {
    hide OffsetAfter, TensorsAt, LeastOffset;
    RunningExactly(data, offset, padding, limit);
    forall k: nat | k <= limit
      ensures var r := OffsetAfter(data, offset, padding, k);
              r.Some? && LeastOffset(offset) <= r.value < |data|
    {
      RoundsAddUp(data, offset, padding, k, limit - k);
      if k < limit {
        RoundsAddUp(data, offset, padding, k + 1, limit - k - 1);
        OneRound(data, offset, padding, k);
      }
      OffsetsAreBounded(data, offset, padding, k);
    }
    var s := seq(limit + 1, k requires 0 <= k <= limit => OffsetAfter(data, offset, padding, k).value);
    LeastIsBelow(data, offset);
    var i, j := Pigeonhole(s, LeastOffset(offset), |data|);
    assert s[i] == OffsetAfter(data, offset, padding, i).value && s[j] == OffsetAfter(data, offset, padding, j).value;
  }

  lemma LeastIsBelow(data: seq<byte>, offset: int)
    ensures LeastOffset(offset) <= |data|
  {
  }

  /**
    The loop runs for ever if and only if it comes to one place twice; and if it runs for as many rounds as there are
    places, it runs for ever.
  */
  lemma LoopNeverEndsExactly(data: seq<byte>, offset: int, padding: bool)
    ensures NeverEnds(data, offset, padding) <==> Repeats(data, offset, padding)
    ensures TensorsAt(data, offset, padding, |data| - LeastOffset(offset)).Running? <==> Repeats(data, offset, padding)
  {
    LeastIsBelow(data, offset);
    var enough := |data| - LeastOffset(offset);
    hide Repeats, TensorsAt, LeastOffset;
    if Repeats(data, offset, padding) {
      forall limit: nat
        ensures TensorsAt(data, offset, padding, limit).Running?
      {
        RepeatingNeverEnds(data, offset, padding, limit);
      }
    }
    if TensorsAt(data, offset, padding, enough).Running? {
      LongRunsRepeat(data, offset, padding, enough);
    }
  }

  /** The words of the entry below: two dimensions, a name of 16 bytes and the type F32. */
  const STUCK_HEAD: seq<nat> := [2, 16, 0]
  const STUCK_DIMS: seq<nat> := [0x7FFF_FFFD, 0x8000_0003]

  /** An old file without vocabulary and with one entry, whose 4 * (2^31 - 3) * (2^31 + 3) bytes wrap around to -36. */
  function StuckFile(name: seq<byte>): seq<byte> {
    Magic(GGML) + EncodeWords([0, 0, 0, 0, 0, 0, 0]) + EncodeWords(STUCK_HEAD) + EncodeWords(STUCK_DIMS) + name
  }

  lemma StuckFileParts(name: seq<byte>)
    requires |name| == 16
    ensures var data := StuckFile(name);
            && |data| == 68 && At(data, 0, Magic(GGML)) && At(data, 4, EncodeWords([0, 0, 0, 0, 0, 0, 0]))
            && At(data, 32, EncodeWords(STUCK_HEAD)) && At(data, 44, EncodeWords(STUCK_DIMS)) && At(data, 52, name)
    ensures FitWords([0, 0, 0, 0, 0, 0, 0]) && FitWords(STUCK_HEAD) && FitWords(STUCK_DIMS)
  {
    var data, zeros: seq<nat> := StuckFile(name), [0, 0, 0, 0, 0, 0, 0];
    FourBytes();
    EncodedWords(zeros);
    EncodedWords(STUCK_HEAD);
    EncodedWords(STUCK_DIMS);
    assert |Magic(GGML)| == 4;
    assert At(data, 0, data);
    hide EncodeWords, At, Magic;
    FiveParts(data, 0, Magic(GGML), EncodeWords(zeros), EncodeWords(STUCK_HEAD), EncodeWords(STUCK_DIMS), name);
    AtConcat(data, 0, Magic(GGML) + EncodeWords(zeros) + EncodeWords(STUCK_HEAD) + EncodeWords(STUCK_DIMS), name);
    AtConcat(data, 0, Magic(GGML) + EncodeWords(zeros) + EncodeWords(STUCK_HEAD), EncodeWords(STUCK_DIMS));
  }

  lemma StuckSizeWraps()
    ensures ByteCount(STUCK_DIMS, (1, 4)) == -36
  {
    assert STUCK_DIMS[1..] == [0x8000_0003] && STUCK_DIMS[1..][1..] == [];
    assert BlockBytes(STUCK_DIMS, (1, 4)) == 0x1_0000_0000_0000_0000 - 36;
    hide Product, BlockBytes;
  }

  /** The entry leads back to itself. */
  lemma StuckEntry(name: seq<byte>)
    requires |name| == 16
    ensures TensorAt(StuckFile(name), 32, false) == Ok(Tensor(name, STUCK_DIMS, 0, 68, -36))
    ensures Repeats(StuckFile(name), 32, false)
  {
    var data := StuckFile(name);
    StuckFileParts(name);
    StuckSizeWraps();
    assert QuantSizes(0) == Some((1, 4));
    hide EncodeWords, WordsAt, StuckFile, TensorAt, QuantSizes, At, FitWords, ByteCount;
    WordsAtReadBack(data, 32, STUCK_HEAD);
    WordsAtReadBack(data, 44, STUCK_DIMS);
    SliceAt(data, 52, name);
    TensorFromParts(data, 32, false, STUCK_HEAD, STUCK_DIMS, name);
    assert OffsetAfter(data, 32, false, 0) == Some(32);
    assert OffsetAfter(data, 32, false, 1) == OffsetAfter(data, 32, false, 0);
  }

  /** In front of the entry stand the magic number and seven zeros. */
  lemma StuckPreamble(name: seq<byte>)
    requires |name| == 16
    ensures HeaderAt(StuckFile(name), 0) == Ok(Header(GGML, 1, 4))
    ensures HyperparametersAt(StuckFile(name), 4) == Ok(Hyperparameters(0, 0, 0, 0, 0, 0, 0))
  {
    var data := StuckFile(name);
    StuckFileParts(name);
    hide EncodeWords, WordsAt, StuckFile, At, FitWords, Slice;
    SliceAt(data, 0, Magic(GGML));
    HyperparametersReadBack(data, 4, Hyperparameters(0, 0, 0, 0, 0, 0, 0));
  }

  lemma LoadRuns(data: seq<byte>, header: Header, hyper: Hyperparameters, limit: nat)
    requires HeaderAt(data, 0) == Ok(header) && HyperparametersAt(data, header.size) == Ok(hyper)
    requires Convertible(header.format, header.version, hyper.ftype) && hyper.nVocab == 0
    requires TensorsAt(data, header.size + 28, header.format == GGJT, limit).Running?
    ensures LoadAt(data, 0, limit).Running?
  {
    hide HeaderAt, HyperparametersAt, TensorsAt, Convertible;
  }

  /** Loading that file never ends, whatever the name. */
  lemma WrappedSizeNeverEnds(name: seq<byte>, limit: nat)
    requires |name| == 16
    ensures LoadAt(StuckFile(name), 0, limit).Running?
  {
    hide StuckFile, TensorsAt, LoadAt, Repeats, HeaderAt, HyperparametersAt, TensorAt;
    StuckPreamble(name);
    StuckEntry(name);
    RepeatingNeverEnds(StuckFile(name), 32, false, limit);
    LoadRuns(StuckFile(name), Header(GGML, 1, 4), Hyperparameters(0, 0, 0, 0, 0, 0, 0), limit);
  }

  // ----- Writing a file, and reading it back -----

  function EncodeWords(ws: seq<nat>): seq<byte> {
    if ws == [] then [] else Bytes(ws[0], 4) + EncodeWords(ws[1..])
  }

  predicate FitWords(ws: seq<nat>) {
    forall i :: 0 <= i < |ws| ==> ws[i] < Pow256(4)
  }

  lemma FourBytes()
    ensures Pow256(4) == 0x1_0000_0000
  {
    assert Pow256(0) == 1 && Pow256(1) == 256 && Pow256(2) == 0x1_0000 && Pow256(3) == 0x100_0000;
  }

  lemma {:induction false} EncodedWords(ws: seq<nat>)
    requires FitWords(ws)
    ensures |EncodeWords(ws)| == 4 * |ws| && Words(EncodeWords(ws), |ws|) == ws
  {
    if ws != [] {
      EncodedWords(ws[1..]);
      BytesReadBack(ws[0], 4);
      var s := EncodeWords(ws);
      assert s[..4] == Bytes(ws[0], 4) && s[4..] == EncodeWords(ws[1..]);
    }
  }

  lemma WordsFromSlice(data: seq<byte>, offset: nat, s: seq<byte>, count: nat)
    requires |s| == 4 * count && Slice(data, offset, offset + |s|) == s
    ensures WordsAt(data, offset, count) == Ok(Words(s, count))
  {
    hide Words, Slice;
  }

  lemma WordsAtReadBack(data: seq<byte>, offset: nat, ws: seq<nat>)
    requires FitWords(ws) && At(data, offset, EncodeWords(ws))
    ensures WordsAt(data, offset, |ws|) == Ok(ws)
  {
    hide *;
    EncodedWords(ws);
    SliceAt(data, offset, EncodeWords(ws));
    WordsFromSlice(data, offset, EncodeWords(ws), |ws|);
  }

  lemma SliceAt(data: seq<byte>, offset: nat, bytes: seq<byte>)
    requires At(data, offset, bytes)
    ensures Slice(data, offset, offset + |bytes|) == bytes
  {
  }

  function EncodeItem(item: Item): seq<byte> {
    Bytes(|item.text|, 4) + item.text + item.score
  }

  function EncodeItems(items: seq<Item>): seq<byte> {
    if items == [] then [] else EncodeItem(items[0]) + EncodeItems(items[1..])
  }

  predicate WellFormedItem(item: Item, scores: bool) {
    |item.text| < 4096 && |item.score| == if scores then 4 else 0
  }

  lemma OneWord(n: nat)
    requires n < 4096
    ensures FitWords([n]) && EncodeWords([n]) == Bytes(n, 4)
  {
    FourBytes();
    assert [n][1..] == [];
  }

  lemma ItemFromParts(data: seq<byte>, offset: nat, item: Item, scores: bool)
    requires WellFormedItem(item, scores)
    requires WordsAt(data, offset, 1) == Ok([|item.text|])
    requires Slice(data, offset + 4, offset + 4 + |item.text|) == item.text
    requires var end := offset + 4 + |item.text|; Slice(data, end, end + |item.score|) == item.score
    ensures ItemAt(data, offset, scores) == Ok((item, offset + 4 + |item.text| + |item.score|))
  {
    hide WordsAt, Slice;
  }

  lemma ItemReadsBack(data: seq<byte>, offset: nat, item: Item, scores: bool)
    requires WellFormedItem(item, scores) && At(data, offset, EncodeItem(item))
    ensures ItemAt(data, offset, scores) == Ok((item, offset + |EncodeItem(item)|))
  {
    var n := |item.text|;
    hide Slice, WordsAt, EncodeWords, Bytes, At, Words, FitWords, ItemAt;
    AtConcat(data, offset, Bytes(n, 4) + item.text, item.score);
    AtConcat(data, offset, Bytes(n, 4), item.text);
    OneWord(n);
    WordsAtReadBack(data, offset, [n]);
    SliceAt(data, offset + 4, item.text);
    SliceAt(data, offset + 4 + n, item.score);
    ItemFromParts(data, offset, item, scores);
  }

  lemma {:induction false} VocabReadsBack(data: seq<byte>, offset: nat, items: seq<Item>, scores: bool)
    requires forall i :: 0 <= i < |items| ==> WellFormedItem(items[i], scores)
    requires At(data, offset, EncodeItems(items))
    ensures VocabAt(data, offset, |items|, scores) == Ok((items, offset + |EncodeItems(items)|))
    decreases |items|
  {
    hide ItemAt, EncodeItem;
    if items != [] {
      AtConcat(data, offset, EncodeItem(items[0]), EncodeItems(items[1..]));
      ItemReadsBack(data, offset, items[0], scores);
      VocabReadsBack(data, offset + |EncodeItem(items[0])|, items[1..], scores);
      assert items == [items[0]] + items[1..];
    }
  }

  datatype TensorData = TensorData(name: seq<byte>, dims: seq<nat>, dtype: nat, payload: seq<byte>)

  predicate WellFormedTensor(t: TensorData) {
    && |t.dims| <= 4 && FitWords(t.dims) && |t.name| < 4096 && QuantSizes(t.dtype).Some?
    && BlockBytes(t.dims, QuantSizes(t.dtype).value) < TWO_63
    && |t.payload| == Quotient(BlockBytes(t.dims, QuantSizes(t.dtype).value), QuantSizes(t.dtype).value.0)
  }

  function NameEnd(t: TensorData, offset: nat): nat {
    offset + 12 + 4 * |t.dims| + |t.name|
  }

  function Padding(t: TensorData, offset: nat, padding: bool): nat {
    if padding then Aligned(NameEnd(t, offset)) - NameEnd(t, offset) else 0
  }

  function Zeros(n: nat): (s: seq<byte>)
    ensures |s| == n
  {
    if n == 0 then [] else [0] + Zeros(n - 1)
  }

  function EntryHead(t: TensorData): (words: seq<nat>)
    ensures |words| == 3
  {
    [|t.dims|, |t.name|, t.dtype]
  }

  function EncodeTensor(t: TensorData, offset: nat, padding: bool): seq<byte> {
    EncodeWords(EntryHead(t)) + EncodeWords(t.dims) + t.name
    + Zeros(Padding(t, offset, padding)) + t.payload
  }

  function EncodeTensors(ts: seq<TensorData>, offset: nat, padding: bool): seq<byte>
    decreases |ts|
  {
    if ts == [] then []
    else
      var first := EncodeTensor(ts[0], offset, padding);
      first + EncodeTensors(ts[1..], offset + |first|, padding)
  }

  /** What loading makes of a tensor that was written at `offset`. */
  function Loaded(t: TensorData, offset: nat, padding: bool): Tensor {
    Tensor(t.name, t.dims, t.dtype, NameEnd(t, offset) + Padding(t, offset, padding), |t.payload|)
  }

  function AllLoaded(ts: seq<TensorData>, offset: nat, padding: bool): seq<Tensor>
    decreases |ts|
  {
    if ts == [] then []
    else
      [Loaded(ts[0], offset, padding)]
      + AllLoaded(ts[1..], offset + |EncodeTensor(ts[0], offset, padding)|, padding)
  }

  lemma KnownTypesAreSmall(t: nat)
    requires QuantSizes(t).Some?
    ensures t <= 42
  {
  }

  lemma FiveParts(data: seq<byte>, offset: nat, a: seq<byte>, b: seq<byte>, c: seq<byte>, d: seq<byte>, e: seq<byte>)
    requires At(data, offset, a + b + c + d + e)
    ensures At(data, offset, a) && At(data, offset + |a|, b) && At(data, offset + |a| + |b|, c)
    ensures At(data, offset + |a| + |b| + |c| + |d|, e)
  {
    hide At;
    AtConcat(data, offset, a + b + c + d, e);
    AtConcat(data, offset, a + b + c, d);
    AtConcat(data, offset, a + b, c);
    AtConcat(data, offset, a, b);
  }

  lemma EntrySize(t: TensorData, offset: nat, padding: bool)
    requires WellFormedTensor(t)
    ensures FitWords(EntryHead(t))
    ensures |EncodeWords(EntryHead(t))| == 12 && |EncodeWords(t.dims)| == 4 * |t.dims|
    ensures offset + |EncodeTensor(t, offset, padding)|
            == NameEnd(t, offset) + Padding(t, offset, padding) + |t.payload|
  {
    var words := EntryHead(t);
    KnownTypesAreSmall(t.dtype);
    FourBytes();
    assert FitWords(words);
    EncodedWords(words);
    EncodedWords(t.dims);
    hide QuantSizes, BlockBytes, EncodeWords, Zeros, Padding, FitWords, Quotient;
  }

  /** The parts of a tensor's entry are found where loading looks for them. */
  lemma TensorParts(data: seq<byte>, offset: nat, t: TensorData, padding: bool)
    requires WellFormedTensor(t) && At(data, offset, EncodeTensor(t, offset, padding))
    ensures At(data, offset, EncodeWords(EntryHead(t))) && At(data, offset + 12, EncodeWords(t.dims))
    ensures At(data, offset + 12 + 4 * |t.dims|, t.name)
    ensures At(data, NameEnd(t, offset) + Padding(t, offset, padding), t.payload)
  {
    EntrySize(t, offset, padding);
    hide QuantSizes, BlockBytes, EncodeWords, Padding, At, FitWords, Zeros, EntryHead, Quotient;
    FiveParts(data, offset, EncodeWords(EntryHead(t)), EncodeWords(t.dims), t.name, Zeros(Padding(t, offset, padding)),
              t.payload);
  }

  lemma TensorReads(data: seq<byte>, offset: nat, t: TensorData, padding: bool)
    requires WellFormedTensor(t) && At(data, offset, EncodeTensor(t, offset, padding))
    ensures WordsAt(data, offset, 3) == Ok(EntryHead(t))
    ensures Slice(data, offset + 12 + 4 * |t.dims|, NameEnd(t, offset)) == t.name
  {
    TensorParts(data, offset, t, padding);
    EntrySize(t, offset, padding);
    hide QuantSizes, BlockBytes, EncodeWords, WordsAt, Slice, At, FitWords, EntryHead, EncodeTensor, WellFormedTensor;
    WordsAtReadBack(data, offset, EntryHead(t));
    SliceAt(data, offset + 12 + 4 * |t.dims|, t.name);
  }

  lemma DimsRead(data: seq<byte>, offset: nat, t: TensorData, padding: bool)
    requires WellFormedTensor(t) && At(data, offset, EncodeTensor(t, offset, padding))
    ensures WordsAt(data, offset + 12, |t.dims|) == Ok(t.dims)
  {
    TensorParts(data, offset, t, padding);
    hide At, EncodeTensor, EncodeWords, WordsAt;
    WordsAtReadBack(data, offset + 12, t.dims);
  }

  lemma TensorFromParts(data: seq<byte>, offset: int, padding: bool, head: seq<nat>, dims: seq<nat>, name: seq<byte>)
    requires WordsAt(data, offset, 3) == Ok(head) && |head| == 3
    requires head[0] <= 4 && head[1] < 4096 && QuantSizes(head[2]).Some?
    requires WordsAt(data, offset + 12, head[0]) == Ok(dims)
    requires Slice(data, offset + 12 + 4 * head[0], offset + 12 + 4 * head[0] + head[1]) == name
    ensures var nameEnd := offset + 12 + 4 * head[0] + head[1];
            TensorAt(data, offset, padding)
            == Ok(Tensor(name, dims, head[2], if padding then Aligned(nameEnd) else nameEnd,
                         ByteCount(dims, QuantSizes(head[2]).value)))
  {
    hide QuantSizes, WordsAt, Slice, Aligned, ByteCount;
  }

  lemma PayloadIsCounted(t: TensorData)
    requires WellFormedTensor(t)
    ensures ByteCount(t.dims, QuantSizes(t.dtype).value) == |t.payload|
  {
    hide QuantSizes, BlockBytes, Wrap64, FitWords, Quotient;
  }

  /** The tensor is loaded as it was written. */
  lemma TensorReadsBack(data: seq<byte>, offset: nat, t: TensorData, padding: bool)
    requires WellFormedTensor(t) && At(data, offset, EncodeTensor(t, offset, padding))
    ensures TensorAt(data, offset, padding) == Ok(Loaded(t, offset, padding))
  {
    hide *;
    TensorReads(data, offset, t, padding);
    DimsRead(data, offset, t, padding);
    PayloadIsCounted(t);
    LoadedShape(t, offset, padding);
    TensorFromParts(data, offset, padding, EntryHead(t), t.dims, t.name);
  }

  lemma LoadedShape(t: TensorData, offset: nat, padding: bool)
    requires WellFormedTensor(t)
    ensures var head := EntryHead(t);
            && head[0] == |t.dims| <= 4 && head[1] == |t.name| < 4096 && head[2] == t.dtype && QuantSizes(t.dtype).Some?
    ensures NameEnd(t, offset) == offset + 12 + 4 * |t.dims| + |t.name|
    ensures Loaded(t, offset, padding)
            == Tensor(t.name, t.dims, t.dtype, if padding then Aligned(NameEnd(t, offset)) else NameEnd(t, offset),
                      |t.payload|)
  {
    hide QuantSizes, BlockBytes, Aligned, FitWords, Quotient;
  }

  /** The data stands in the file at the start that is recorded, and the next entry follows it. */
  lemma NextFollowsEntry(data: seq<byte>, offset: nat, t: TensorData, padding: bool)
    requires WellFormedTensor(t) && At(data, offset, EncodeTensor(t, offset, padding)) && |data| < TWO_63
    ensures At(data, Loaded(t, offset, padding).start, t.payload)
    ensures Next(Loaded(t, offset, padding)) == offset + |EncodeTensor(t, offset, padding)|
  {
    TensorParts(data, offset, t, padding);
    EntrySize(t, offset, padding);
    assert offset + |EncodeTensor(t, offset, padding)| <= |data|;
    hide QuantSizes, BlockBytes, WordsAt, Slice, EncodeTensor, Wrap64, Padding, NameEnd, FitWords, At, Quotient;
  }

  lemma {:induction false} TensorsReadBack(data: seq<byte>, offset: nat, ts: seq<TensorData>, padding: bool, limit: nat)
    requires forall i :: 0 <= i < |ts| ==> WellFormedTensor(ts[i])
    requires At(data, offset, EncodeTensors(ts, offset, padding)) && |data| < TWO_63
    requires |data| == offset + |EncodeTensors(ts, offset, padding)| && limit >= |ts|
    ensures TensorsAt(data, offset, padding, limit) == Finished((AllLoaded(ts, offset, padding), |data|))
    decreases |ts|
  {
    hide TensorAt, Next, Loaded, WellFormedTensor, EncodeTensor, At;
    if ts != [] {
      var first := EncodeTensor(ts[0], offset, padding);
      EncodedTensorIsNotEmpty(ts[0], offset, padding);
      AtConcat(data, offset, first, EncodeTensors(ts[1..], offset + |first|, padding));
      TensorReadsBack(data, offset, ts[0], padding);
      NextFollowsEntry(data, offset, ts[0], padding);
      TensorsReadBack(data, offset + |first|, ts[1..], padding, limit - 1);
    }
  }

  lemma EncodedTensorIsNotEmpty(t: TensorData, offset: nat, padding: bool)
    ensures |EncodeTensor(t, offset, padding)| > 0
  {
    assert EncodeWords(EntryHead(t))
        == Bytes(|t.dims|, 4) + EncodeWords(EntryHead(t)[1..]);
  }

  datatype FileData = FileData(format: Format, version: nat, hyper: Hyperparameters, items: seq<Item>,
                               tensors: seq<TensorData>)

  function HyperWords(h: Hyperparameters): seq<nat> {
    [h.nVocab, h.nEmbd, h.nMult, h.nHead, h.nLayer, h.nRot, h.ftype]
  }

  function EncodeHeader(format: Format, version: nat): seq<byte> {
    Magic(format) + if format == GGML then [] else EncodeWords([version])
  }

  function Preamble(f: FileData): seq<byte> {
    EncodeHeader(f.format, f.version) + EncodeWords(HyperWords(f.hyper)) + EncodeItems(f.items)
  }

  function Serialize(f: FileData): seq<byte> {
    Preamble(f) + EncodeTensors(f.tensors, |Preamble(f)|, f.format == GGJT)
  }

  function LoadedTensors(f: FileData): seq<Tensor> {
    AllLoaded(f.tensors, |Preamble(f)|, f.format == GGJT)
  }

  predicate AcceptedVersion(format: Format, version: nat) {
    version == 1 || (format == GGJT && 2 <= version <= 3)
  }

  /** A file of an accepted format and version, of a type that can be converted. */
  predicate WellFormed(f: FileData) {
    && AcceptedVersion(f.format, f.version)
    && FitWords(HyperWords(f.hyper)) && IsFtype(f.hyper.ftype) && Convertible(f.format, f.version, f.hyper.ftype)
    && |f.items| == f.hyper.nVocab && (forall i :: 0 <= i < |f.items| ==> WellFormedItem(f.items[i], f.format != GGML))
    && (forall i :: 0 <= i < |f.tensors| ==> WellFormedTensor(f.tensors[i]))
    && |Serialize(f)| < TWO_63
    && WrittenFeedForward(f.tensors).Some?
  }

  /** The second size of the last tensor with the name of the feed-forward weight. */
  function WrittenFeedForward(ts: seq<TensorData>): Option<nat> {
    if ts == [] then None
    else
      var n := |ts| - 1;
      if ts[n].name == FEED_FORWARD then (if |ts[n].dims| < 2 then None else Some(ts[n].dims[1]))
      else WrittenFeedForward(ts[..n])
  }

  lemma {:induction false} AllLoadedAt(ts: seq<TensorData>, offset: nat, padding: bool, i: nat)
    requires i < |ts|
    ensures |AllLoaded(ts, offset, padding)| == |ts|
    ensures AllLoaded(ts, offset, padding)[i].name == ts[i].name && AllLoaded(ts, offset, padding)[i].dims == ts[i].dims
    decreases |ts|
  {
    hide EncodeTensor, NameEnd, Padding;
    if |ts| > 1 {
      AllLoadedAt(ts[1..], offset + |EncodeTensor(ts[0], offset, padding)|, padding, if i > 0 then i - 1 else 0);
    }
  }

  lemma {:induction false} WrittenIsLast(ts: seq<TensorData>, k: nat)
    requires k < |ts| && ts[k].name == FEED_FORWARD && forall i :: k < i < |ts| ==> ts[i].name != FEED_FORWARD
    ensures WrittenFeedForward(ts) == if |ts[k].dims| < 2 then None else Some(ts[k].dims[1])
    decreases |ts|
  {
    if k < |ts| - 1 {
      WrittenIsLast(ts[..|ts| - 1], k);
    }
  }

  lemma {:induction false} WrittenIsThere(ts: seq<TensorData>) returns (k: nat)
    requires WrittenFeedForward(ts).Some?
    ensures k < |ts| && ts[k].name == FEED_FORWARD && forall i :: k < i < |ts| ==> ts[i].name != FEED_FORWARD
    decreases |ts|
  {
    k := |ts| - 1;
    if ts[k].name != FEED_FORWARD {
      k := WrittenIsThere(ts[..k]);
    }
  }

  /** The width that loading finds is the one that was written. */
  lemma FeedForwardIsWritten(ts: seq<TensorData>, offset: nat, padding: bool)
    requires WrittenFeedForward(ts).Some?
    ensures FeedForward(FEED_FORWARD, AllLoaded(ts, offset, padding)) == Ok(WrittenFeedForward(ts).value)
  {
    var k := WrittenIsThere(ts);
    var loaded := AllLoaded(ts, offset, padding);
    forall i | 0 <= i < |ts|
      ensures |loaded| == |ts| && loaded[i].name == ts[i].name && loaded[i].dims == ts[i].dims
    {
      AllLoadedAt(ts, offset, padding, i);
    }
    MapLeadsToLast(loaded, FEED_FORWARD);
    WrittenIsLast(ts, k);
    hide MapOf, WrittenFeedForward, AllLoaded;
    assert loaded[k].name == FEED_FORWARD;
  }

  /** The codes of the name. */
  lemma FeedForwardName()
    ensures var name := "layers.0.feed_forward.w1.weight";
            |FEED_FORWARD| == |name| && forall i :: 0 <= i < |name| ==> FEED_FORWARD[i] == name[i] as int
  {
  }

  /** Which types can be converted, by the age of the file. */
  lemma ConvertibleByAge(format: Format, version: nat, ftype: nat)
    requires AcceptedVersion(format, version)
    ensures version == 3 ==> Convertible(format, version, ftype)
    ensures version == 2 ==> (Convertible(format, version, ftype) <==> ftype !in {2, 3, 4, 7})
    ensures version == 1 ==> (Convertible(format, version, ftype) <==> ftype in {0, 1})
  {
  }

  lemma HeaderReadsBack(data: seq<byte>, format: Format, version: nat)
    requires AcceptedVersion(format, version) && At(data, 0, EncodeHeader(format, version))
    ensures HeaderAt(data, 0) == Ok(Header(format, version, |EncodeHeader(format, version)|))
  {
    var rest := if format == GGML then [] else EncodeWords([version]);
    AtConcat(data, 0, Magic(format), rest);
    SliceAt(data, 0, Magic(format));
    FourBytes();
    EncodedWords([version]);
    hide EncodeWords, WordsAt, Slice;
    if format != GGML {
      WordsAtReadBack(data, 4, [version]);
    }
  }

  /** Loading gives back what was written, in every accepted format, and stops at the end of the file. */
  lemma LoadInvertsSerialize(f: FileData, limit: nat)
    requires WellFormed(f) && limit >= |f.tensors|
    ensures LoadAt(Serialize(f), 0, limit)
            == Finished(Model(f.format, f.version, f.hyper, WrittenFeedForward(f.tensors).value, f.items,
                              LoadedTensors(f), |Serialize(f)|))
  {
    var data, header := Serialize(f), |EncodeHeader(f.format, f.version)|;
    hide Serialize, Preamble, EncodeHeader, EncodeWords, EncodeItems, EncodeTensors, AllLoaded, At, Convertible;
    hide FeedForward, HeaderAt, HyperparametersAt, VocabAt, TensorsAt, LoadAt, FitWords, WellFormedItem;
    hide WellFormedTensor, WrittenFeedForward;
    WidthOfFile(f);
    PartsOfFile(f);
    HeaderReadsBack(data, f.format, f.version);
    HyperparametersReadBack(data, header, f.hyper);
    VocabReadsBack(data, header + 28, f.items, f.format != GGML);
    TensorsReadBack(data, |Preamble(f)|, f.tensors, f.format == GGJT, limit);
    LoadFromParts(data, limit, Header(f.format, f.version, header), f.hyper, f.items, |Preamble(f)|, LoadedTensors(f),
                  |data|);
  }

  lemma WidthOfFile(f: FileData)
    requires WrittenFeedForward(f.tensors).Some?
    ensures FeedForward(FEED_FORWARD, LoadedTensors(f)) == Ok(WrittenFeedForward(f.tensors).value)
  {
    FeedForwardIsWritten(f.tensors, |Preamble(f)|, f.format == GGJT);
  }

  lemma LoadFromParts(data: seq<byte>, limit: nat, header: Header, hyper: Hyperparameters, items: seq<Item>, next: nat,
                      tensors: seq<Tensor>, end: int)
    requires HeaderAt(data, 0) == Ok(header)
    requires HyperparametersAt(data, header.size) == Ok(hyper)
    requires Convertible(header.format, header.version, hyper.ftype)
    requires VocabAt(data, header.size + 28, hyper.nVocab, header.format != GGML) == Ok((items, next))
    requires TensorsAt(data, next, header.format == GGJT, limit) == Finished((tensors, end))
    requires FeedForward(FEED_FORWARD, tensors).Ok?
    ensures LoadAt(data, 0, limit)
            == Finished(Model(header.format, header.version, hyper, FeedForward(FEED_FORWARD, tensors).value, items,
                              tensors, end))
  {
    hide FeedForward, HeaderAt, HyperparametersAt, VocabAt, TensorsAt, Convertible;
  }

  lemma HyperparametersReadBack(data: seq<byte>, offset: nat, h: Hyperparameters)
    requires FitWords(HyperWords(h)) && IsFtype(h.ftype) && At(data, offset, EncodeWords(HyperWords(h)))
    ensures HyperparametersAt(data, offset) == Ok(h)
  {
    hide EncodeWords, WordsAt;
    WordsAtReadBack(data, offset, HyperWords(h));
  }

  lemma PartsOfFile(f: FileData)
    requires FitWords(HyperWords(f.hyper))
    ensures var data, header := Serialize(f), |EncodeHeader(f.format, f.version)|;
            && At(data, 0, EncodeHeader(f.format, f.version))
            && At(data, header, EncodeWords(HyperWords(f.hyper)))
            && At(data, header + 28, EncodeItems(f.items))
            && header + 28 + |EncodeItems(f.items)| == |Preamble(f)|
            && At(data, |Preamble(f)|, EncodeTensors(f.tensors, |Preamble(f)|, f.format == GGJT))
            && |data| == |Preamble(f)| + |EncodeTensors(f.tensors, |Preamble(f)|, f.format == GGJT)|
  {
    var data := Serialize(f);
    var header, hyper := EncodeHeader(f.format, f.version), EncodeWords(HyperWords(f.hyper));
    var items, tensors := EncodeItems(f.items), EncodeTensors(f.tensors, |Preamble(f)|, f.format == GGJT);
    EncodedWords(HyperWords(f.hyper));
    assert At(data, 0, data);
    hide EncodeWords, EncodeItems, EncodeTensors, EncodeHeader, At;
    AtConcat(data, 0, header + hyper + items, tensors);
    AtConcat(data, 0, header + hyper, items);
    AtConcat(data, 0, header, hyper);
  }

  // ----- What loading refuses -----

  /** The values of a block and its fields: scales, and the bits of the values by the byte. */
  function BlockFields(t: nat): Option<(nat, seq<nat>)> {
    match t
    case 0 | 26 => Some((1, [4]))
    case 1 | 25 | 30 => Some((1, [2]))
    case 2 | 20 => Some((32, [2, 16]))
    case 3 => Some((32, [2, 2, 16]))
    case 6 => Some((32, [2, 4, 16]))
    case 7 => Some((32, [2, 2, 4, 16]))
    case 8 => Some((32, [2, 32]))
    case 9 => Some((32, [2, 2, 32]))
    case 10 => Some((256, [2, 2, 16, 64]))
    case 11 => Some((256, [2, 64, 32, 12]))
    case 12 => Some((256, [2, 2, 128, 12]))
    case 13 => Some((256, [2, 2, 128, 32, 12]))
    case 14 => Some((256, [2, 128, 64, 16]))
    case 15 => Some((256, [4, 256, 32]))
    case 16 => Some((256, [2, 64]))
    case 17 => Some((256, [2, 64, 8]))
    case 18 => Some((256, [2, 64, 32]))
    case 19 => Some((256, [2, 32, 16]))
    case 21 => Some((256, [2, 64, 32, 8, 4]))
    case 22 => Some((256, [2, 64, 16]))
    case 23 => Some((256, [2, 2, 128, 4]))
    case 24 => Some((1, [1]))
    case 27 | 28 => Some((1, [8]))
    case 29 => Some((256, [32, 16, 8]))
    case 34 => Some((256, [2, 52]))
    case 35 => Some((256, [2, 64]))
    case 39 => Some((32, [1, 16]))
    case 40 => Some((64, [4, 32]))
    case 41 => Some((128, [2, 16]))
    case 42 => Some((64, [2, 16]))
    case _ => None
  }

  function SumOf(s: seq<nat>): nat {
    if s == [] then 0 else s[0] + SumOf(s[1..])
  }

  /** Two to five fields, added up. */
  lemma SumUnfolds(s: seq<nat>)
    ensures |s| == 1 ==> SumOf(s) == s[0]
    ensures |s| == 2 ==> SumOf(s) == s[0] + s[1]
    ensures |s| == 3 ==> SumOf(s) == s[0] + s[1] + s[2]
    ensures |s| == 4 ==> SumOf(s) == s[0] + s[1] + s[2] + s[3]
    ensures |s| == 5 ==> SumOf(s) == s[0] + s[1] + s[2] + s[3] + s[4]
  {
    if |s| > 1 {
      SumUnfolds(s[1..]);
    }
  }

  /** The size of a block is that of its fields together. */
  lemma BlockSizesByFields(t: nat)
    ensures QuantSizes(t).Some? <==> BlockFields(t).Some?
    ensures QuantSizes(t).Some? ==>
              QuantSizes(t).value.0 == BlockFields(t).value.0 && QuantSizes(t).value.1 == SumOf(BlockFields(t).value.1)
  {
    if BlockFields(t).Some? {
      SumUnfolds(BlockFields(t).value.1);
      hide SumOf;
    }
  }

  /** What an entry must have to be loaded. */
  lemma EntryIsRefusedExactly(data: seq<byte>, offset: nat, padding: bool)
    ensures var head := WordsAt(data, offset, 3);
            TensorAt(data, offset, padding).Ok? <==>
              && head.Ok? && head.value[0] <= 4 && head.value[1] < 4096 && QuantSizes(head.value[2]).Some?
              && WordsAt(data, offset + 12, head.value[0]).Ok?
  {
    hide WordsAt, QuantSizes, Aligned, Slice, ByteCount;
  }

  /** The types that a file can say it is of. */
  lemma FileTypesExactly(data: seq<byte>, offset: nat)
    ensures var words := WordsAt(data, offset, 7);
            HyperparametersAt(data, offset).Ok?
            <==> words.Ok? && (words.value[6] in {0, 1, 2, 3, 4} || 7 <= words.value[6] <= 18)
  {
    hide WordsAt;
  }

  /** A word of the vocabulary is shorter than 4096 bytes. */
  lemma WordIsRefusedExactly(data: seq<byte>, offset: nat)
    ensures ItemAt(data, offset, false).Ok?
            <==> WordsAt(data, offset, 1).Ok? && WordsAt(data, offset, 1).value[0] < 4096
  {
    hide WordsAt, Slice;
  }

  /** The versions that each format has. */
  lemma VersionsExactly(data: seq<byte>, offset: nat)
    ensures HeaderAt(data, offset).Ok? ==>
              var h := HeaderAt(data, offset).value;
              && AcceptedVersion(h.format, h.version) && h.size == (if h.format == GGML then 4 else 8)
              && Slice(data, offset, offset + 4) == Magic(h.format)
    ensures Slice(data, offset, offset + 4) == ['G' as int, 'G' as int, 'U' as int, 'F' as int]
            ==> HeaderAt(data, offset) == Err(AlreadyGguf)
  {
    hide WordsAt, Slice;
  }
}
