/** The row sizes that the layout inspector assumes (`row_bytes`), against the block sizes of the file format. */
module RowBytes {
  import opened Wrappers
  import opened Basics
  import GgmlFile

  /** Bytes and values of a block. */
  function Block(t: nat): (r: Option<(nat, nat)>)
    ensures r.Some? ==> r.value.1 > 0
  {
    if t == 0 then Some((4, 1))
    else if t == 1 || t == 30 then Some((2, 1))
    else if t == 2 then Some((18, 32))
    else if t == 3 then Some((22, 32))
    else if t == 6 then Some((22, 32))
    else if t == 7 then Some((26, 32))
    else if t == 8 then Some((34, 32))
    else if t == 10 then Some((84, 256))
    else if t == 11 then Some((110, 256))
    else if t == 12 then Some((144, 256))
    else if t == 13 then Some((176, 256))
    else if t == 14 then Some((210, 256))
    else if t == 15 then Some((260, 256))
    else if t == 20 then Some((132, 256))
    else None
  }

  /** Blocks are counted rounding up. */
  function RowBytes(t: nat, n: int): Option<int> {
    match Block(t)
    case None => None
    case Some((bytes, values)) => Some(-((-n) / values) * bytes)
  }

  /** The size of a row as the format stores it, for a row of whole blocks. */
  function StoredBytes(t: nat, n: int): Option<int> {
    match GgmlFile.QuantSizes(t)
    case None => None
    case Some((values, bytes)) => Some(n / values * bytes)
  }

  lemma WholeBlocks(k: int, size: int)
    requires size > 0
    ensures (k * size) / size == k && (-(k * size)) / size == -k
  {
    DivideUnique(k * size, size, k);
    DivideUnique(-(k * size), size, -k);
  }

  lemma DivideUnique(x: int, size: int, k: int)
    requires size > 0 && x == k * size
    ensures x / size == k
  {
    if x / size < k {
      MulMonotone(x / size + 1, k, size);
    } else if x / size > k {
      MulMonotone(k + 1, x / size, size);
    }
  }

  /** 132 bytes for 256 values, rounding up, against 18 for 32. */
  lemma LargerBlocks(blocks: int)
    requires blocks > 0
    ensures -((-(blocks * 32)) / 256) * 132 == blocks * 18 <==> blocks == 22 || blocks == 44 || blocks == 66
  {
    var groups := -((-(blocks * 32)) / 256);
    assert 8 * (groups - 1) < blocks <= 8 * groups;
    assert groups * 132 == blocks * 18 <==> 22 * groups == 3 * blocks;
    if 22 * groups == 3 * blocks {
      assert groups <= 11;
    }
  }

  /**
    For every row of whole stored blocks, the inspector knows the right size exactly when the type is none of Q4_1 (3),
    Q5_1 (7) and Q8_K (15), and for IQ4_NL (20), whose blocks it takes for larger ones, at three sizes only: there the
    bytes it counts too few in each block make up for the last block, which it counts whole.
  */
  lemma RowBytesExactly(t: nat, blocks: int)
    requires Block(t).Some? && blocks > 0
    ensures GgmlFile.QuantSizes(t).Some?
    ensures var n := blocks * GgmlFile.QuantSizes(t).value.0;
            RowBytes(t, n) == StoredBytes(t, n)
            <==> t != 3 && t != 7 && t != 15 && (t == 20 ==> n == 704 || n == 1408 || n == 2112)
  {
    var size := GgmlFile.QuantSizes(t).value.0;
    WholeBlocks(blocks, size);
    if t == 20 {
      LargerBlocks(blocks);
    }
  }
}
