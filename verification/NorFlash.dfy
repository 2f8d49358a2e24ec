/**
 Erasing, programming and reading NOR flash over SPI in applications/spim_api.c.
 The flash is taken to be idle and its command-level reads and writes to work;
 what is modelled is which commands are issued and what they leave in the cells.
 */
module NorFlash {
  import opened Bytes

  const SECTOR := 4096
  const BLOCK_32K := 32768
  const BLOCK_64K := 65536
  const PAGE := 256

  /** An erase command: the size of the block and its address. */
  datatype Erase = Erase(size: nat, addr: nat)

  /** Commands that cover [from, to) one after the other, each aligned to its own size. */
  predicate Tiles(cmds: seq<Erase>, from: nat, to: nat)
    decreases |cmds|
  {
    if cmds == [] then from == to
    else
      var last := cmds[|cmds| - 1];
      && last.size in {SECTOR, BLOCK_32K, BLOCK_64K}
      && last.addr % last.size == 0
      && last.addr + last.size == to && last.addr >= from
      && Tiles(cmds[..|cmds| - 1], from, last.addr)
  }

  /** The cells with everything in [from, to) erased. */
  function Erased(cells: seq<byte>, from: nat, to: nat): (r: seq<byte>)
    requires from <= to <= |cells|
    ensures |r| == |cells|
    ensures forall i :: 0 <= i < |r| ==> r[i] == if from <= i < to then 255 else cells[i]
  {
    cells[..from] + seq(to - from, _ => 255) + cells[to..]
  }

  /** Programming can only clear bits. */
  function And(a: byte, b: byte): (r: byte) {
    (a as bv8 & b as bv8) as int
  }

  lemma AndErased(b: byte)
    ensures And(255, b) == b
  {
    assert (255 as bv8) & (b as bv8) == b as bv8;
  }

  function Programmed(cells: seq<byte>, addr: nat, data: seq<byte>): (r: seq<byte>)
    requires addr + |data| <= |cells|
    ensures |r| == |cells|
    ensures forall i :: 0 <= i < |r| ==>
      r[i] == if addr <= i < addr + |data| then And(cells[i], data[i - addr]) else cells[i]
  {
    seq(|cells|, i requires 0 <= i < |cells| =>
      if addr <= i < addr + |data| then And(cells[i], data[i - addr]) else cells[i])
  }

  /** RT_ALIGN(size, 4096) */
  function RoundUp(size: int): (r: int)
    ensures size <= r < size + SECTOR && r % SECTOR == 0
  {
    (size + SECTOR - 1) / SECTOR * SECTOR
  }

  /** The start of the sector of an address. */
  function SectorOf(addr: nat): (r: nat)
    ensures r <= addr < r + SECTOR && r % SECTOR == 0
  {
    addr / SECTOR * SECTOR
  }

  /** The command for the next block, which is aligned and does not overshoot. */
  function NextBlock(addr: nat, left: nat): (size: nat)
    requires addr % SECTOR == 0 && left > 0 && left % SECTOR == 0
    ensures size in {SECTOR, BLOCK_32K, BLOCK_64K}
    ensures size <= left && addr % size == 0
  {
    if left < BLOCK_32K then SECTOR
    else if left >= BLOCK_64K && addr % BLOCK_64K == 0 then BLOCK_64K
    else if addr % BLOCK_32K == 0 then BLOCK_32K
    else SECTOR
  }

  /** Blocks are whole sectors. */
  lemma BlockSectors(n: int, size: nat)
    requires n % SECTOR == 0 && size in {SECTOR, BLOCK_32K, BLOCK_64K}
    ensures (n + size) % SECTOR == 0 && (n - size) % SECTOR == 0
  {
    if size == SECTOR {
    } else if size == BLOCK_32K {
    } else {
    }
  }

  /** Where flash_erase works: the size is rounded up, the start is rounded down. */
  function EraseEnd(start: nat, size: int): (e: nat) {
    SectorOf(start) + if size > 0 then RoundUp(size) else 0
  }

  lemma SectorOffset(addr: nat)
    ensures SectorOf(addr) == addr - addr % SECTOR
  {
  }

  lemma RoundedUp(size: nat)
    requires size > 0
    ensures RoundUp(size) == size - 1 - (size - 1) % SECTOR + SECTOR
  {
  }

  /** The bytes asked for are all erased exactly when the offset of the start in its
      sector and that of the last byte asked for, counted from 0, fit one sector. */
  lemma EraseCovers(start: nat, size: nat)
    requires size > 0
    ensures start + size <= EraseEnd(start, size) <==> start % SECTOR + (size - 1) % SECTOR < SECTOR
  {
    SectorOffset(start);
    RoundedUp(size);
  }

  /** Two bytes across the end of a sector: the second stays as it was. */
  lemma EraseMisses()
    ensures EraseEnd(SECTOR - 1, 2) == SECTOR < SECTOR - 1 + 2
  {
    SectorOffset(SECTOR - 1);
    RoundedUp(2);
  }

  /** The room from an address to the end of its page. */
  function ToPageEnd(addr: nat): (n: nat)
    ensures 1 <= n <= PAGE
  {
    PAGE - addr % PAGE
  }

  /** What is written next: to the end of the page, or all that is left. */
  predicate Chunk(addr: nat, size: nat, left: nat) {
    0 < size <= left && (size == ToPageEnd(addr) || (size == left && size <= ToPageEnd(addr)))
  }

  lemma FirstChunk(addr: nat, size: nat, left: nat)
    requires left > 0 && size == if ToPageEnd(addr) >= left then left else ToPageEnd(addr)
    ensures Chunk(addr, size, left)
  {
  }

  lemma ChunkFits(addr: nat, size: nat, left: nat)
    requires Chunk(addr, size, left)
    ensures 0 < size <= left && addr % PAGE + size <= PAGE
  {
  }

  lemma PageBoundary(addr: nat, size: nat)
    ensures size == ToPageEnd(addr) ==> ToPageEnd(addr + size) == PAGE
  {
  }

  /** A chunk that fills its page is followed by a whole page. */
  lemma NextChunk(addr: nat, size: nat, left: nat)
    requires Chunk(addr, size, left) && size < left
    ensures Chunk(addr + size, if left - size >= PAGE then PAGE else left - size, left - size)
  {
    PageBoundary(addr, size);
  }

  lemma ErasedNone(cells: seq<byte>, addr: nat)
    requires addr <= |cells|
    ensures Erased(cells, addr, addr) == cells
  {
  }

  lemma ProgrammedNone(cells: seq<byte>, start: nat, data: seq<byte>)
    requires start <= |cells|
    ensures Programmed(cells, start, data[..0]) == cells
  {
  }

  lemma EraseTwice(cells: seq<byte>, from: nat, mid: nat, to: nat)
    requires from <= mid <= to <= |cells|
    ensures Erased(Erased(cells, from, mid), mid, to) == Erased(cells, from, to)
  {
  }

  lemma ProgramTwice(cells: seq<byte>, start: nat, data: seq<byte>, i: nat, n: nat)
    requires start + |data| <= |cells| && i + n <= |data|
    ensures Programmed(Programmed(cells, start, data[..i]), start + i, data[i..i + n]) ==
            Programmed(cells, start, data[..i + n])
  {
    hide And;
  }

  class Nor {
    var cells: seq<byte>

    /** One erase command. */
    method EraseBlock(c: Erase)
      requires c.addr % SECTOR == 0 && c.addr + c.size <= |cells|
      modifies this
      ensures cells == Erased(old(cells), c.addr, c.addr + c.size)
    {
      cells := cells[..c.addr] + seq(c.size, _ => 255) + cells[c.addr + c.size..];
    }

    /** One page program command: it must stay inside a page. */
    method PageProgram(addr: nat, data: seq<byte>)
      requires addr + |data| <= |cells| && addr % PAGE + |data| <= PAGE
      modifies this
      ensures cells == Programmed(old(cells), addr, data)
    {
      cells := Programmed(cells, addr, data);
    }

    /** flash_erase for a size other than -1, which erases the whole chip. */
    method FlashErase(start: nat, size: int) returns (cmds: seq<Erase>)
      requires size != -1 && EraseEnd(start, size) <= |cells|
      modifies this
      ensures cells == Erased(old(cells), SectorOf(start), EraseEnd(start, size))
      ensures Tiles(cmds, SectorOf(start), EraseEnd(start, size))
    {
      hide RoundUp, SectorOf, NextBlock, Erased;
      cmds := [];
      ErasedNone(cells, SectorOf(start));
      if size == 0 { return; }
      var base := SectorOf(start);
      var total := RoundUp(size);
      var done := 0;
      while done < total
        invariant 0 <= done && (size > 0 ==> done <= total) && (size < 0 ==> done == 0)
        invariant (base + done) % SECTOR == 0 && (total - done) % SECTOR == 0
        invariant base + done <= |cells| == old(|cells|)
        invariant cells == Erased(old(cells), base, base + done)
        invariant Tiles(cmds, base, base + done)
      {
        var block := NextBlock(base + done, total - done);
        BlockSectors(base + done, block);
        BlockSectors(total - done, block);
        var c := Erase(block, base + done);
        EraseBlock(c);
        EraseTwice(old(cells), base, base + done, base + done + block);
        assert (cmds + [c])[..|cmds|] == cmds;
        cmds := cmds + [c];
        done := done + block;
      }
    }

    /** The loop of flash_page_program: chunks that end where a page ends. */
    method ProgramChunks(start: nat, data: seq<byte>)
      requires |data| > 0 && start + |data| <= |cells|
      modifies this
      ensures cells == Programmed(old(cells), start, data)
    {
      hide ToPageEnd, Programmed, Chunk;
      ProgrammedNone(cells, start, data);
      var size: nat := ToPageEnd(start);
      if size >= |data| { size := |data|; }
      var i := 0;
      FirstChunk(start, size, |data|);
      while i < |data|
        invariant 0 <= i <= |data| && |cells| == old(|cells|)
        invariant i < |data| ==> Chunk(start + i, size, |data| - i)
        invariant cells == Programmed(old(cells), start, data[..i])
      {
        ChunkFits(start + i, size, |data| - i);
        PageProgram(start + i, data[i..i + size]);
        ProgramTwice(old(cells), start, data, i, size);
        if size < |data| - i { NextChunk(start + i, size, |data| - i); }
        i := i + size;
        size := if |data| - i >= PAGE then PAGE else |data| - i;
      }
      assert data[..i] == data;
    }
  }

  /* ----- byte order ----- */

  /** Lengths for which ByteSwap stays inside its buffer. */
  predicate Swappable(n: nat) {
    n < 4 || n % 4 == 0
  }

  /** Every group of four starting below `n` lies below it exactly for those lengths. */
  lemma GroupsInside(n: nat)
    requires n >= 4
    ensures Swappable(n) <==> forall g :: 0 <= g && g * 4 < n ==> g * 4 + 4 <= n
  {
    if n % 4 != 0 {
      var g := n / 4;
      assert g * 4 < n && !(g * 4 + 4 <= n);
    }
  }

  /** The byte that ByteSwap brings to position `i`. */
  function SwapIndex(i: nat, n: nat): (j: nat)
    requires i < n && Swappable(n)
    ensures j < n
  {
    if n < 4 then n - 1 - i else i / 4 * 4 + (3 - i % 4)
  }

  function Swapped(s: seq<byte>): (r: seq<byte>)
    requires Swappable(|s|)
    ensures |r| == |s|
  {
    seq(|s|, i requires 0 <= i < |s| => s[SwapIndex(i, |s|)])
  }

  lemma SwapInvolutive(i: nat, n: nat)
    requires i < n && Swappable(n)
    ensures SwapIndex(SwapIndex(i, n), n) == i
  {
  }

  lemma SwapTwice(s: seq<byte>)
    requires Swappable(|s|)
    ensures Swapped(Swapped(s)) == s
  {
    hide SwapIndex;
    forall i | 0 <= i < |s| ensures Swapped(Swapped(s))[i] == s[i] {
      SwapInvolutive(i, |s|);
    }
  }

  /** The position opposite to `p` in a range. */
  function Mirror(start: nat, length: nat, p: nat): (q: nat)
    requires start <= p < start + length
    ensures start <= q < start + length
  {
    start + length - 1 - (p - start)
  }

  /** EndianSwap: reversing `length` bytes in place. */
  method EndianSwap(data: array<byte>, start: nat, length: nat)
    requires start + length <= data.Length
    modifies data
    ensures forall p :: start <= p < start + length ==> data[p] == old(data[Mirror(start, length, p)])
    ensures forall p :: 0 <= p < data.Length && !(start <= p < start + length) ==> data[p] == old(data[p])
  {
    var end := start + length - 1;
    var i := 0;
    while i < length / 2
      invariant 0 <= i <= length / 2
      invariant forall p :: start <= p < start + length ==>
        data[p] == if p < start + i || p > end - i then old(data[Mirror(start, length, p)]) else old(data[p])
      invariant forall p :: 0 <= p < data.Length && !(start <= p < start + length) ==> data[p] == old(data[p])
    {
      var tmp := data[start + i];
      data[start + i] := data[end - i];
      data[end - i] := tmp;
      i := i + 1;
    }
  }

  /** How far ByteSwap reaches: beyond `n` exactly for the lengths that are not swappable. */
  function Reach(n: nat): (r: nat)
    ensures n <= r && Swappable(r) && (r == n <==> Swappable(n))
  {
    if n < 4 then n else (n + 3) / 4 * 4
  }

  lemma AllGroups(i: nat, n: nat)
    requires i >= n && i % 4 == 0
    ensures i >= Reach(n)
  {
  }

  lemma SwapShort(s: seq<byte>)
    requires |s| <= 1
    ensures Swapped(s) == s
  {
  }

  /** The positions of one group are reversed among themselves. */
  lemma SwapGroup(i: nat, n: nat)
    requires i < n && i % 4 == 0 && Swappable(n)
    ensures n >= 4 ==> i + 4 <= n
    ensures n < 4 ==> i == 0
    ensures forall p :: i <= p < i + 4 && p < n ==> SwapIndex(p, n) == Mirror(i, if n < 4 then n else 4, p)
  {
  }

  /** ByteSwap on `n` bytes of a buffer: whole groups of four are turned around, also
      where the last one goes beyond `n`. */
  method ByteSwap(data: array<byte>, n: nat)
    requires Reach(n) <= data.Length
    modifies data
    ensures data[..Reach(n)] == Swapped(old(data[..Reach(n)]))
    ensures forall p :: Reach(n) <= p < data.Length ==> data[p] == old(data[p])
  {
    hide SwapIndex, Mirror;
    ghost var r := Reach(n);
    if n <= 1 {
      SwapShort(data[..n]);
      return;
    }
    var i := 0;
    while i < n
      invariant 0 <= i && i % 4 == 0 && (n >= 4 ==> i <= r)
      invariant forall p :: 0 <= p < r ==> data[p] == if p < i then old(data[SwapIndex(p, r)]) else old(data[p])
      invariant forall p :: r <= p < data.Length ==> data[p] == old(data[p])
    {
      SwapGroup(i, r);
      EndianSwap(data, i, if n < 4 then n else 4);
      i := i + 4;
    }
    AllGroups(i, n);
  }

  datatype Endian = Big | Little

  /** What is on the flash for data handed over in a byte order. */
  function OnFlash(data: seq<byte>, e: Endian): (r: seq<byte>)
    requires e.Little? ==> Swappable(|data|)
    ensures |r| == |data|
  {
    if e.Big? then data else Swapped(data)
  }

  /** Programming erased cells in big-endian order leaves the data. */
  lemma ProgrammedBig(cells: seq<byte>, start: nat, data: seq<byte>)
    requires start + |data| <= |cells| && forall k :: start <= k < start + |data| ==> cells[k] == 255
    ensures Programmed(cells, start, OnFlash(data, Big))[start..start + |data|] == data
  {
    hide And;
    forall b: byte ensures And(255, b) == b { AndErased(b); }
  }

  lemma SwapInGroup(g: nat, j: nat, n: nat)
    requires n % 4 == 0 && 4 * g + 4 <= n && j < 4
    ensures SwapIndex(4 * g + j, n) == 4 * g + (3 - j)
  {
    assert (4 * g + j) / 4 == g && (4 * g + j) % 4 == j;
  }

  /** In little-endian order every group of four bytes is turned around. */
  lemma ProgrammedLittle(cells: seq<byte>, start: nat, data: seq<byte>, g: nat, j: nat)
    requires start + |data| <= |cells| && |data| % 4 == 0 && 4 * g + 4 <= |data| && j < 4
    requires cells[start + 4 * g + j] == 255
    ensures Programmed(cells, start, OnFlash(data, Little))[start + (4 * g + j)] == data[4 * g + (3 - j)]
  {
    hide And, SwapIndex;
    SwapInGroup(g, j, |data|);
    AndErased(Swapped(data)[4 * g + j]);
  }

  /** flash_page_program; `mallocOk` is about the swapped copy. */
  method FlashPageProgram(c: Nor, start: nat, data: seq<byte>, e: Endian, mallocOk: bool)
    requires start + |data| <= |c.cells| && (e.Little? ==> Swappable(|data|))
    modifies c
    ensures c.cells == if |data| == 0 || (e.Little? && !mallocOk) then old(c.cells)
                       else Programmed(old(c.cells), start, OnFlash(data, e))
  {
    if |data| == 0 { return; }
    var wData := data;
    if e.Little? {
      if !mallocOk { return; }
      var copy := new byte[|data|](i requires 0 <= i < |data| => data[i]);
      assert copy[..] == data;
      ByteSwap(copy, |data|);
      assert copy[..|data|] == copy[..];
      wData := copy[..];
    }
    c.ProgramChunks(start, wData);
  }

  /** One read command into the buffer. */
  method ReadChunk(c: Nor, out: array<byte>, start: nat, i: nat, size: nat)
    requires start + i + size <= |c.cells| && i + size <= out.Length
    requires out[..i] == c.cells[start..start + i]
    modifies out
    ensures out[..i + size] == c.cells[start..start + i + size]
  {
    forall k | 0 <= k < size { out[i + k] := c.cells[start + i + k]; }
    ghost var got, asked := out[..i + size], c.cells[start..start + i + size];
    forall k | 0 <= k < |asked| ensures got[k] == asked[k] {
      if k < i {
        assert out[k] == old(out[..i])[k] == c.cells[start..start + i][k];
      } else {
        assert out[i + (k - i)] == c.cells[start + i + (k - i)];
      }
    }
  }

  /** flash_page_read into a buffer of the length asked for. */
  method FlashPageRead(c: Nor, out: array<byte>, start: nat, e: Endian)
    requires start + out.Length <= |c.cells| && (e.Little? ==> Swappable(out.Length))
    modifies out
    ensures out[..] == OnFlash(c.cells[start..start + out.Length], e)
  {
    hide Swapped;
    var n := out.Length;
    var size := ToPageEnd(start);
    if size >= n { size := n; }
    var i := 0;
    while i < n
      invariant 0 <= i <= n && i + size <= n && (i < n ==> size > 0)
      invariant out[..i] == c.cells[start..start + i]
    {
      ReadChunk(c, out, start, i, size);
      i := i + size;
      size := if n - i >= PAGE then PAGE else n - i;
    }
    assert out[..] == out[..n];
    if e.Little? {
      ByteSwap(out, n);
      assert out[..] == out[..n];
    }
  }

  lemma ProgramErased(cells: seq<byte>, from: nat, to: nat, start: nat, data: seq<byte>)
    requires from <= start && start + |data| <= to <= |cells|
    ensures Programmed(Erased(cells, from, to), start, data)[start..start + |data|] == data
  {
    var r := Programmed(Erased(cells, from, to), start, data);
    forall i | 0 <= i < |data| ensures r[start + i] == data[i] {
      AndErased(data[i]);
    }
  }

  /** Erasing, programming and reading back gives the data, in either byte order,
      whenever the erase covers the bytes asked for. */
  method EraseProgramRead(c: Nor, start: nat, data: seq<byte>, e: Endian) returns (out: array<byte>)
    requires |data| > 0 && (e.Little? ==> Swappable(|data|))
    requires EraseEnd(start, |data|) <= |c.cells| && start + |data| <= EraseEnd(start, |data|)
    modifies c
    ensures fresh(out) && out[..] == data
  {
    hide Swapped, Swappable, SectorOf, RoundUp, Programmed, Erased, Tiles;
    var cmds := c.FlashErase(start, |data|);
    FlashPageProgram(c, start, data, e, true);
    ProgramErased(old(c.cells), SectorOf(start), EraseEnd(start, |data|), start, OnFlash(data, e));
    out := new byte[|data|](_ => 0);
    FlashPageRead(c, out, start, e);
    if e.Little? { SwapTwice(data); }
  }
}
