/**
 Access to the memory and the flash of a slave chip in
 packages/slave_uc8x88/slave_uc8x88.c. The memory moves only whole words at
 aligned addresses; the flash is written page by page and may fail silently.
 */
module SlaveMemory {
  import opened Bytes

  const PAGE_SIZE := 256
  const MAX_TRIES := 5

  /** `m` with `data` at `addr`. */
  function Spliced(m: seq<byte>, addr: nat, data: seq<byte>): (r: seq<byte>)
    requires addr + |data| <= |m|
    ensures |r| == |m|
    ensures forall i :: 0 <= i < |m| ==> r[i] == if addr <= i < addr + |data| then data[i - addr] else m[i]
  {
    m[..addr] + data + m[addr + |data|..]
  }

  /** The flash holds the first `n` bytes of the data at `addr`. */
  predicate Holds(flash: seq<byte>, addr: nat, data: seq<byte>, n: nat) {
    && n <= |data| && addr + n <= |flash|
    && forall i :: 0 <= i < n ==> flash[addr + i] == data[i]
  }

  lemma PageAligned(addr: nat, page: nat)
    requires addr % PAGE_SIZE == 0
    ensures (addr + page * PAGE_SIZE) % PAGE_SIZE == 0
  {
  }

  function Least(a: nat, b: nat): nat {
    if a < b then a else b
  }

  /** Pages needed for `len` bytes, the last one possibly in part. */
  function PageCount(len: nat): (n: nat)
    ensures (n - 1) * PAGE_SIZE < len <= n * PAGE_SIZE || len == n == 0
  {
    len / PAGE_SIZE + (if len % PAGE_SIZE != 0 then 1 else 0)
  }

  /** The end of the last page a write of `len` bytes touches. */
  function PagesEnd(addr: nat, len: nat): (e: nat)
    ensures addr + len <= e
  {
    addr + PageCount(len) * PAGE_SIZE
  }

  /** A page write as it is sent to the flash. */
  datatype PageWrite = PageWrite(addr: nat, data: seq<byte>)

  /** The write of one page of a longer text, the last one possibly in part. */
  function PageOf(addr: nat, data: seq<byte>, page: nat): PageWrite
    requires page < PageCount(|data|)
  {
    PageWrite(addr + page * PAGE_SIZE, data[page * PAGE_SIZE..Least(|data|, page * PAGE_SIZE + PAGE_SIZE)])
  }

  /** The pages in order, each written as often as `tries` says. */
  function Attempts(addr: nat, data: seq<byte>, tries: seq<nat>): seq<PageWrite>
    requires |tries| <= PageCount(|data|)
  {
    if tries == [] then []
    else
      var page := |tries| - 1;
      Attempts(addr, data, tries[..page]) + seq(tries[page], _ => PageOf(addr, data, page))
  }

  lemma HoldsNone(flash: seq<byte>, addr: nat, data: seq<byte>)
    requires addr <= |flash|
    ensures Holds(flash, addr, data, 0)
  {
  }

  lemma AttemptsNone(addr: nat, data: seq<byte>)
    ensures Attempts(addr, data, []) == []
  {
  }

  lemma AttemptsMore(addr: nat, data: seq<byte>, tries: seq<nat>, n: nat)
    requires |tries| < PageCount(|data|)
    ensures Attempts(addr, data, tries + [n]) ==
            Attempts(addr, data, tries) + seq(n, _ => PageOf(addr, data, |tries|))
  {
    assert (tries + [n])[..|tries|] == tries;
  }

  /** Each page once: as many writes as pages, the data in order. */
  lemma {:induction false} AttemptsOnce(addr: nat, data: seq<byte>, tries: seq<nat>)
    requires |tries| <= PageCount(|data|) && forall j :: 0 <= j < |tries| ==> tries[j] == 1
    ensures |Attempts(addr, data, tries)| == |tries|
    ensures forall j :: 0 <= j < |tries| ==> Attempts(addr, data, tries)[j] == PageOf(addr, data, j)
    decreases |tries|
  {
    hide PageCount, PageOf;
    if tries != [] {
      AttemptsOnce(addr, data, tries[..|tries| - 1]);
    }
  }

  /** The word of a byte, and the place of the byte in it. */
  function WordOf(at: nat): (w: nat)
    ensures w <= at < w + 4 && w % 4 == 0
  {
    at / 4 * 4
  }

  function OffsetOf(at: nat): (o: nat)
    ensures o == at - WordOf(at) < 4
  {
    at % 4
  }

  lemma WordInside(at: nat, size: nat)
    requires size % 4 == 0 && at < size
    ensures WordOf(at) + 4 <= size
  {
  }

  /** The bytes wanted from a word, behind those already read. */
  lemma ReadPart(m: seq<byte>, addr: nat, index: nat, offset: nat, n: nat)
    requires offset <= addr + index && addr + index + n <= |m| && offset + n <= 4
    requires addr + index - offset + 4 <= |m|
    ensures
      var w := addr + index - offset;
      m[addr..addr + index] + m[w..w + 4][offset..offset + n] == m[addr..addr + index + n]
  {
    var w := addr + index - offset;
    var word, whole := m[w..w + 4], m[addr..addr + index + n];
    var part := word[offset..offset + n];
    forall k | 0 <= k < n ensures part[k] == whole[index + k] {
      assert part[k] == word[offset + k] == m[w + (offset + k)];
    }
    var joined := m[addr..addr + index] + part;
    forall k | 0 <= k < |whole| ensures joined[k] == whole[k] {
      if k >= index { assert joined[k] == part[k - index] == whole[index + (k - index)]; }
    }
  }

  /** Writing a word changed in part is writing the part. */
  lemma SpliceWord(m: seq<byte>, at: nat, offset: nat, word: seq<byte>, piece: seq<byte>)
    requires at + 4 <= |m| && |word| == 4 && offset + |piece| <= 4
    requires word == m[at..at + 4] || |piece| == 4
    ensures Spliced(m, at, word[..offset] + piece + word[offset + |piece|..]) == Spliced(m, at + offset, piece)
  {
    var w := word[..offset] + piece + word[offset + |piece|..];
    assert |w| == 4;
    forall i | 0 <= i < |m| ensures Spliced(m, at, w)[i] == Spliced(m, at + offset, piece)[i] {
      if at <= i < at + 4 {
        assert w[i - at] == if offset <= i - at < offset + |piece| then piece[i - at - offset] else word[i - at];
      }
    }
  }

  lemma SpliceTwice(m: seq<byte>, addr: nat, data: seq<byte>, index: nat, n: nat)
    requires addr + |data| <= |m| && index + n <= |data|
    ensures Spliced(Spliced(m, addr, data[..index]), addr + index, data[index..index + n]) ==
            Spliced(m, addr, data[..index + n])
  {
  }

  class Chip {
    var mem: seq<byte>
    var flash: seq<byte>

    /** The page writes the flash has been sent. */
    ghost var log: seq<PageWrite>

    /** Whole words are there for every byte that is. */
    ghost predicate Words()
      reads this
    {
      |mem| % 4 == 0
    }

    /** mem_read: aligned words only. */
    method MemRead(addr: nat, len: nat) returns (data: seq<byte>)
      requires addr % 4 == 0 && len % 4 == 0 && addr + len <= |mem|
      ensures data == mem[addr..addr + len]
    {
      data := mem[addr..addr + len];
    }

    /** mem_write: aligned words only. */
    method MemWrite(addr: nat, data: seq<byte>)
      requires addr % 4 == 0 && |data| % 4 == 0 && addr + |data| <= |mem|
      modifies this`mem
      ensures |mem| == old(|mem|) && mem == Spliced(old(mem), addr, data)
    {
      mem := mem[..addr] + data + mem[addr + |data|..];
    }

    /** The part of a transfer that lies in the word of its next byte. */
    static function OrderLength(addr: nat, index: nat, len: nat): (n: nat)
      requires index < len
      ensures 1 <= n <= 4 && index + n <= len
      ensures OffsetOf(addr + index) + n <= 4
    {
      var offset := OffsetOf(addr + index);
      if index + 4 - offset > len then len - index else 4 - offset
    }

    /** slave_uc8x88_mem_read_data: any address, any length. */
    method MemReadData(addr: nat, len: nat) returns (data: seq<byte>)
      requires Words() && addr + len <= |mem|
      ensures data == mem[addr..addr + len]
    {
      if addr % 4 == 0 && len % 4 == 0 {
        data := MemRead(addr, len);
        return;
      }
      hide WordOf, OffsetOf, OrderLength;
      data := [];
      var index := 0;
      while index < len
        invariant 0 <= index <= len
        invariant data == mem[addr..addr + index]
      {
        var readAddr := WordOf(addr + index);
        var offset := OffsetOf(addr + index);
        var n := OrderLength(addr, index, len);
        WordInside(addr + index, |mem|);
        var word := MemRead(readAddr, 4);
        ReadPart(mem, addr, index, offset, n);
        data := data + word[offset..offset + n];
        index := index + n;
      }
    }

    /** slave_uc8x88_mem_write_data: changes exactly the bytes addressed. */
    method MemWriteData(addr: nat, data: seq<byte>)
      requires Words() && addr + |data| <= |mem|
      modifies this`mem
      ensures mem == Spliced(old(mem), addr, data)
    {
      if addr % 4 == 0 && |data| % 4 == 0 {
        MemWrite(addr, data);
        return;
      }
      var index := 0;
      assert mem == Spliced(mem, addr, data[..0]);
      while index < |data|
        invariant 0 <= index <= |data| && |mem| == old(|mem|)
        invariant mem == Spliced(old(mem), addr, data[..index])
      {
        index := WriteWord(addr, data, index, old(mem));
      }
      assert data[..index] == data;
    }

    /** One word of a write: read, changed in part, and written back. */
    method WriteWord(addr: nat, data: seq<byte>, index: nat, ghost before: seq<byte>) returns (index': nat)
      requires Words() && |before| == |mem| && addr + |data| <= |mem| && index < |data|
      requires mem == Spliced(before, addr, data[..index])
      modifies this`mem
      ensures index < index' <= |data| && |mem| == old(|mem|)
      ensures mem == Spliced(before, addr, data[..index'])
    {
      hide WordOf, OffsetOf, OrderLength, Spliced;
      var n := OrderLength(addr, index, |data|);
      MergeWord(addr + index, data[index..index + n]);
      SpliceTwice(before, addr, data, index, n);
      index' := index + n;
    }

    /** A piece of at most a word, inside one word. */
    method MergeWord(at: nat, piece: seq<byte>)
      requires Words() && at + |piece| <= |mem| && 0 < |piece| && OffsetOf(at) + |piece| <= 4
      modifies this`mem
      ensures |mem| == old(|mem|) && mem == Spliced(old(mem), at, piece)
    {
      hide WordOf, OffsetOf, Spliced;
      var writeAddr := WordOf(at);
      var offset := OffsetOf(at);
      WordInside(at, |mem|);
      var word := [0, 0, 0, 0];
      if offset > 0 || |piece| < 4 {
        word := MemRead(writeAddr, 4);
      }
      SpliceWord(mem, writeAddr, offset, word, piece);
      word := word[..offset] + piece + word[offset + |piece|..];
      MemWrite(writeAddr, word);
    }

    /** flash_write: may leave anything in the page, and touches nothing else. */
    method FlashWrite(addr: nat, data: seq<byte>)
      requires addr % PAGE_SIZE == 0 && |data| <= PAGE_SIZE && addr + PAGE_SIZE <= |flash|
      modifies this`flash, this`log
      ensures |flash| == old(|flash|) && log == old(log) + [PageWrite(addr, data)]
      ensures forall i :: 0 <= i < |flash| && !(addr <= i < addr + PAGE_SIZE) ==> flash[i] == old(flash)[i]
    {
      log := log + [PageWrite(addr, data)];
      var page: seq<byte> := *;
      if |page| == PAGE_SIZE {
        flash := Spliced(flash, addr, page);
      }
    }

    /** flash_read */
    method FlashRead(addr: nat, len: nat) returns (data: seq<byte>)
      requires addr + len <= |flash|
      ensures data == flash[addr..addr + len]
    {
      data := flash[addr..addr + len];
    }

    /** The retry loop of one page: true when the page was verified or need not be. */
    method WritePage(addr: nat, data: seq<byte>, verify: bool) returns (ok: bool, ghost times: nat)
      requires addr % PAGE_SIZE == 0 && 0 < |data| <= PAGE_SIZE && addr + PAGE_SIZE <= |flash|
      modifies this`flash, this`log
      ensures |flash| == old(|flash|)
      ensures forall i :: 0 <= i < |flash| && !(addr <= i < addr + PAGE_SIZE) ==> flash[i] == old(flash)[i]
      ensures ok && verify ==> forall i :: 0 <= i < |data| ==> flash[addr + i] == data[i]
      ensures 1 <= times <= MAX_TRIES && log == old(log) + seq(times, _ => PageWrite(addr, data))
      ensures !verify ==> ok && times == 1
      ensures !ok ==> times == MAX_TRIES
    {
      var tries := 0;
      while tries < MAX_TRIES
        invariant 0 <= tries <= MAX_TRIES && |flash| == old(|flash|)
        invariant forall i :: 0 <= i < |flash| && !(addr <= i < addr + PAGE_SIZE) ==> flash[i] == old(flash)[i]
        invariant !verify ==> tries == 0
        invariant log == old(log) + seq(tries, _ => PageWrite(addr, data))
      {
        FlashWrite(addr, data);
        times := tries + 1;
        ghost var w := PageWrite(addr, data);
        assert seq(times, _ => w) == seq(tries, _ => w) + [w];
        if !verify { return true, times; }
        var readBack := FlashRead(addr, |data|);
        if readBack == data {
          assert forall i :: 0 <= i < |data| ==> flash[addr + i] == readBack[i];
          return true, times;
        }
        tries := tries + 1;
      }
      ok, times := false, tries;
    }

    /** One page of a longer text, after those before it. */
    method WriteNext(addr: nat, data: seq<byte>, page: nat, verify: bool) returns (ok: bool, ghost times: nat)
      requires PagesEnd(addr, |data|) <= |flash| && addr % PAGE_SIZE == 0 && page < PageCount(|data|)
      requires verify ==> Holds(flash, addr, data, page * PAGE_SIZE)
      modifies this`flash, this`log
      ensures |flash| == old(|flash|)
      ensures ok && verify ==> Holds(flash, addr, data, Least(page * PAGE_SIZE + PAGE_SIZE, |data|))
      ensures 1 <= times <= MAX_TRIES && log == old(log) + seq(times, _ => PageOf(addr, data, page))
      ensures !verify ==> ok && times == 1
      ensures !ok ==> times == MAX_TRIES
      ensures forall i :: 0 <= i < |flash| && !(addr <= i < PagesEnd(addr, |data|)) ==> flash[i] == old(flash)[i]
    {
      hide PageCount;
      var index := page * PAGE_SIZE;
      var size := if |data| - index >= PAGE_SIZE then PAGE_SIZE else |data| - index;
      PageAligned(addr, page);
      assert PageOf(addr, data, page) == PageWrite(addr + index, data[index..index + size]);
      ok, times := WritePage(addr + index, data[index..index + size], verify);
    }

    /** All pages of a text, up to the first that does not pass its check. */
    method WritePages(addr: nat, data: seq<byte>, verify: bool) returns (ok: bool, ghost tries: seq<nat>)
      requires PagesEnd(addr, |data|) <= |flash| && addr % PAGE_SIZE == 0
      modifies this`flash, this`log
      ensures |flash| == old(|flash|)
      ensures ok && verify ==> Holds(flash, addr, data, |data|)
      ensures |tries| <= PageCount(|data|) && log == old(log) + Attempts(addr, data, tries)
      ensures forall j :: 0 <= j < |tries| ==> 1 <= tries[j] <= if verify then MAX_TRIES else 1
      ensures if ok then |tries| == PageCount(|data|) else verify && tries != [] && tries[|tries| - 1] == MAX_TRIES
      ensures forall i :: 0 <= i < |flash| && !(addr <= i < PagesEnd(addr, |data|)) ==> flash[i] == old(flash)[i]
    {
      hide PageCount, PageOf, Attempts, PagesEnd, Holds;
      ghost var end := PagesEnd(addr, |data|);
      var pages := PageCount(|data|);
      var page := 0;
      tries := [];
      AttemptsNone(addr, data);
      HoldsNone(flash, addr, data);
      while page < pages
        invariant 0 <= page <= pages && |flash| == old(|flash|)
        invariant |tries| == page && log == old(log) + Attempts(addr, data, tries)
        invariant forall j :: 0 <= j < page ==> 1 <= tries[j] <= if verify then MAX_TRIES else 1
        invariant verify ==> Holds(flash, addr, data, Least(page * PAGE_SIZE, |data|))
        invariant forall i :: 0 <= i < |flash| && !(addr <= i < end) ==> flash[i] == old(flash)[i]
      {
        ghost var times;
        ok, times := WriteNext(addr, data, page, verify);
        AttemptsMore(addr, data, tries, times);
        tries := tries + [times];
        if !ok { return; }
        page := page + 1;
      }
      ok := true;
    }

    /** The write of the first page, before the memory for its check is asked for. */
    method WriteFirst(addr: nat, data: seq<byte>)
      requires PagesEnd(addr, |data|) <= |flash| && addr % PAGE_SIZE == 0 && |data| > 0
      modifies this`flash, this`log
      ensures |flash| == old(|flash|)
      ensures 1 <= PageCount(|data|) && log == old(log) + Attempts(addr, data, [1])
      ensures forall i :: 0 <= i < |flash| && !(addr <= i < PagesEnd(addr, |data|)) ==> flash[i] == old(flash)[i]
    {
      AttemptsNone(addr, data);
      AttemptsMore(addr, data, [], 1);
      hide Attempts, PageCount;
      assert seq(1, _ => PageOf(addr, data, 0)) == [PageWrite(addr, data[..Least(|data|, PAGE_SIZE)])];
      FlashWrite(addr, data[..Least(|data|, PAGE_SIZE)]);
    }

    /**
     flash_write_data: 0 after a verified write means that the flash holds the
     data, whatever single page writes did; pages not addressed are untouched. The
     flash is sent the pages in order, a page again only after its check failed.
     */
    method FlashWriteData(addr: nat, data: seq<byte>, verify: bool, mallocOk: bool)
      returns (r: int, ghost tries: seq<nat>)
      requires PagesEnd(addr, |data|) <= |flash|
      modifies this`flash, this`log
      ensures |flash| == old(|flash|)
      ensures (|data| == 0 || addr % PAGE_SIZE != 0) ==> r == -1 && flash == old(flash) && tries == []
      ensures r == 0 && verify ==> Holds(flash, addr, data, |data|)
      ensures |data| > 0 && addr % PAGE_SIZE == 0 ==>
        && (verify && !mallocOk <==> r == -2) && (r == 0 || r == 1 || r == -2)
        && (!verify ==> r == 0 && forall j :: 0 <= j < |tries| ==> tries[j] == 1)
        && (r == 0 ==> |tries| == PageCount(|data|))
        && (r == 1 ==> tries != [] && tries[|tries| - 1] == MAX_TRIES)
        && (r == -2 ==> tries == [1])
      ensures |tries| <= PageCount(|data|) && forall j :: 0 <= j < |tries| ==> 1 <= tries[j] <= MAX_TRIES
      ensures log == old(log) + Attempts(addr, data, tries)
      ensures forall i :: 0 <= i < |flash| && !(addr <= i < PagesEnd(addr, |data|)) ==> flash[i] == old(flash)[i]
    {
      hide PageCount, Attempts, PagesEnd, Holds;
      AttemptsNone(addr, data);
      if |data| == 0 || addr % PAGE_SIZE != 0 { return -1, []; }
      if verify && !mallocOk {
        WriteFirst(addr, data);
        return -2, [1];
      }
      var ok;
      ok, tries := WritePages(addr, data, verify);
      r := if ok then 0 else 1;
    }
  }
}
