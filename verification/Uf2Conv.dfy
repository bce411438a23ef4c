// The converter's loops, proved against Uf2Format and Uf2Images.
module Uf2Conv {
  import opened Basics
  import opened Uf2Format
  import opened Uf2Images

  method PackHeader(addr: int, blockno: int, numblocks: int, family: int) returns (r: Result<Bytes>)
    ensures r == if Packable(addr, blockno, numblocks, family) then Ok(Header(addr, blockno, numblocks, family))
                else Fail
  {
    var flags := 0;
    if family != 0 {
      flags := 0x2000;
    }
    if !Packable(addr, blockno, numblocks, family) { return Fail; }
    r := Ok(Le32(MAGIC_START0) + Le32(MAGIC_START1) + Le32(flags) + Le32(addr) +
            Le32(256) + Le32(blockno) + Le32(numblocks) + Le32(family));
  }

  method PadTo(b: Bytes, n: nat) returns (padded: Bytes)
    requires |b| <= n
    ensures padded == b + Zeros(n - |b|)
  {
    padded := b;
    while |padded| < n
      invariant |b| <= |padded| <= n && padded == b + Zeros(|padded| - |b|)
    {
      padded := padded + [0];
    }
  }

  // One chunk of the content, zero-padded to a page.
  method ReadPage(content: Bytes, ghost start: int, blockno: nat) returns (chunk: Bytes)
    requires blockno < BlockCount(content)
    ensures chunk == ContentPage(content, start, blockno).data
  {
    var ptr := 256 * blockno;
    var end := if ptr + 256 <= |content| then ptr + 256 else |content|;
    chunk := PadTo(content[ptr..end], 256);
  }

  // One block of the output: header, page, padding, end magic.
  method MakeBlock(content: Bytes, start: int, blockno: nat, family: int, datapadding: Bytes) returns (r: Result<Bytes>)
    requires blockno < BlockCount(content) && datapadding == Zeros(220)
    ensures var page, numblocks := ContentPage(content, start, blockno), BlockCount(content);
            r == if Packable(page.addr, blockno, numblocks, family) then Ok(Block(page, blockno, numblocks, family))
                 else Fail
  {
    var ptr := 256 * blockno;
    var chunk := ReadPage(content, start, blockno);
    var hd := PackHeader(ptr + start, blockno, BlockCount(content), family);
    if hd.Fail? { return Fail; }
    r := Ok(hd.value + chunk + datapadding + Le32(MAGIC_END));
  }

  // One more page encoded, or none ever after.
  lemma EncodeNext(pages: seq<Page>, n: nat, numblocks: nat, family: int)
    requires Paged(pages) && n < |pages| && EncodeFirst(pages, n, numblocks, family).Ok?
    ensures EncodeFirst(pages, n + 1, numblocks, family) ==
            if Packable(pages[n].addr, n, numblocks, family)
            then Ok(EncodeFirst(pages, n, numblocks, family).value + Block(pages[n], n, numblocks, family)) else Fail
    ensures !Packable(pages[n].addr, n, numblocks, family) ==> EncodeFirst(pages, |pages|, numblocks, family).Fail?
  {
    EncodesExactly(pages, |pages|, numblocks, family);
  }

  method ConvertToUf2(content: Bytes, start: int, family: int) returns (r: Result<Bytes>)
    ensures r == Encode(ContentPages(content, start), family)
  {
    var datapadding: Bytes := [];
    while |datapadding| < 512 - 256 - 32 - 4
      invariant |datapadding| % 4 == 0 && |datapadding| <= 220 && datapadding == Zeros(|datapadding|)
    {
      datapadding := datapadding + [0, 0, 0, 0];
    }
    var numblocks := (|content| + 255) / 256;
    ghost var pages := ContentPages(content, start);
    var outp: Bytes := [];
    for blockno := 0 to numblocks
      invariant EncodeFirst(pages, blockno, numblocks, family) == Ok(outp)
    {
      var block := MakeBlock(content, start, blockno, family, datapadding);
      EncodeNext(pages, blockno, numblocks, family);
      if block.Fail? { return Fail; }
      outp := outp + block.value;
    }
    r := Ok(outp);
  }

  // Decoding stops for good at the first block that raises.
  lemma {:induction false} DecodeStaysFailed(buf: Bytes, k: nat, n: nat)
    requires k <= n && 512 * n <= |buf| && DecodeFirst(buf, k).Fail?
    ensures DecodeFirst(buf, n).Fail?
  {
    if k < n {
      DecodeStaysFailed(buf, k, n - 1);
    }
  }

  // The padding loop: four zero bytes at a time.
  method PadGap(outp: Bytes, gap: nat) returns (padded: Bytes)
    requires gap % 4 == 0
    ensures padded == outp + Zeros(gap)
  {
    padded := outp;
    var padding := gap;
    while padding > 0
      invariant 0 <= padding <= gap && padding % 4 == 0
      invariant padded == outp + Zeros(gap - padding)
    {
      padding := padding - 4;
      padded := padded + [0, 0, 0, 0];
    }
  }

  // One block: skip it, raise, or append its padding and data.
  method ConvertBlock(d: Decoding, block: Bytes) returns (r: Result<Decoding>)
    requires |block| == 512
    ensures r == DecodeBlock(d, block)
  {
    var curraddr, start := d.curr, d.start;
    var hd := ReadHead(block);
    if !hd.magic { return Fail; }
    if hd.noFlash { return Ok(d); }
    if hd.datalen > 476 { return Fail; }
    var newaddr := hd.addr;
    if curraddr == None {
      start := Some(newaddr);
      curraddr := Some(newaddr);
    }
    var padding := newaddr - curraddr.value;
    if padding < 0 || padding > MAX_PADDING || padding % 4 != 0 { return Fail; }
    var outp := PadGap(d.outp, padding);
    r := Ok(Decoding(Some(newaddr + hd.datalen), start, outp + block[32..32 + hd.datalen]));
  }

  method ConvertNext(buf: Bytes, blockno: nat, d: Decoding) returns (next: Result<Decoding>)
    requires 512 * (blockno + 1) <= |buf| && DecodeFirst(buf, blockno) == Ok(d)
    ensures next == DecodeFirst(buf, blockno + 1)
  {
    next := ConvertBlock(d, buf[512 * blockno..512 * (blockno + 1)]);
  }

  method ConvertBlocks(buf: Bytes) returns (r: Result<Decoding>)
    ensures r == Decode(buf)
  {
    var numblocks := |buf| / 512;
    r := Ok(Decoding(None, None, []));
    for blockno := 0 to numblocks
      invariant r.Ok? && r == DecodeFirst(buf, blockno)
    {
      r := ConvertNext(buf, blockno, r.value);
      if r.Fail? {
        DecodeStaysFailed(buf, blockno + 1, numblocks);
        return;
      }
    }
  }

  method ConvertFromUf2(buf: Bytes) returns (r: Result<Bytes>, start: Option<int>)
    ensures Decode(buf).Fail? ==> r.Fail?
    ensures Decode(buf).Ok? ==> r == Ok(Decode(buf).value.outp) && start == Decode(buf).value.start
  {
    var d := ConvertBlocks(buf);
    match d
    case Fail => r, start := Fail, None;
    case Ok(decoding) => r, start := Ok(decoding.outp), decoding.start;
  }

  // ---- Intel HEX -------------------------------------------------------------------------------

  class MemoryBlock {
    const addr: int
    const bytes: array<byte>

    constructor (addr: int)
      ensures this.addr == addr && bytes.Length == 256 && fresh(bytes) && bytes[..] == Zeros(256)
    {
      this.addr := addr;
      bytes := new byte[256](_ => 0);
    }

    method Encode(blockno: nat, numblocks: nat, family: int) returns (r: Result<Bytes>)
      requires bytes.Length == 256
      ensures r == if Packable(addr, blockno, numblocks, family)
                  then Ok(Block(Page(addr, bytes[..]), blockno, numblocks, family)) else Fail
    {
      var hd := PackHeader(addr, blockno, numblocks, family);
      if hd.Fail? { return Fail; }
      var padded := PadTo(hd.value + bytes[..], 512 - 4);
      r := Ok(padded + Le32(MAGIC_END));
    }
  }

  // The blocks hold these pages, each in an array of its own among repr.
  ghost predicate Hold(blocks: seq<MemoryBlock>, pages: seq<Page>, repr: set<array<byte>>)
    reads repr
  {
    && |blocks| == |pages|
    && (forall i :: 0 <= i < |blocks| ==> blocks[i].bytes in repr && Holds(blocks[i], pages[i]))
    && (forall i, j :: 0 <= i < j < |blocks| ==> blocks[i].bytes != blocks[j].bytes)
  }

  ghost predicate Holds(block: MemoryBlock, page: Page)
    reads block.bytes
  {
    block.bytes.Length == 256 && block.addr == page.addr && block.bytes[..] == page.data
  }

  // The body of the data loop: find or start the page, store the byte in place.
  method StoreByte(blocks: seq<MemoryBlock>, w: Write, ghost pages: seq<Page>, ghost repr: set<array<byte>>)
    returns (next: seq<MemoryBlock>, ghost repr': set<array<byte>>)
    requires Paged(pages) && Hold(blocks, pages, repr)
    modifies repr
    ensures Hold(next, PutByte(pages, w), repr')
    ensures fresh(repr' - repr)
  {
    next, repr' := blocks, repr;
    ghost var mid := pages;
    if blocks == [] || blocks[|blocks| - 1].addr != Base(w.addr) {
      var currblock := new MemoryBlock(Base(w.addr));
      next, repr' := blocks + [currblock], repr + {currblock.bytes};
      mid := pages + [Page(Base(w.addr), Zeros(256))];
    }
    var currblock := next[|next| - 1];
    assert Hold(next, mid, repr');
    currblock.bytes[w.addr % 256] := w.value;
    assert PutByte(pages, w) == mid[|mid| - 1 := Page(Base(w.addr), mid[|mid| - 1].data[w.addr % 256 := w.value])];
    assert currblock.bytes[..] == mid[|mid| - 1].data[w.addr % 256 := w.value];
  }

  // The digit-pair loop over one line.
  method ReadRecord(line: string) returns (r: Result<Bytes>)
    requires line != ""
    ensures r == Record(line)
  {
    var i := 1;
    var rec: Bytes := [];
    while i < |line| - 1
      invariant i == 1 + 2 * |rec| && 2 * |rec| < |line|
      invariant RecordBytes(line, |rec|) == Ok(rec)
    {
      var b := HexByte(line[i], line[i + 1]);
      if b.Fail? {
        RecordStaysFailed(line, |rec| + 1, (|line| - 1) / 2);
        return Fail;
      }
      rec := rec + [b.value];
      i := i + 2;
    }
    r := Ok(rec);
  }

  lemma {:induction false} RecordStaysFailed(line: string, k: nat, n: nat)
    requires k <= n && 2 * n < |line| && RecordBytes(line, k).Fail?
    ensures RecordBytes(line, n).Fail?
  {
    if k < n {
      RecordStaysFailed(line, k, n - 1);
    }
  }

  lemma {:induction false} HexStaysFailed(lines: seq<string>, k: nat, n: nat)
    requires k <= n <= |lines| && HexLines(lines, k).Fail?
    ensures HexLines(lines, n).Fail?
  {
    if k < n {
      HexStaysFailed(lines, k, n - 1);
    }
  }

  lemma {:induction false} HexStaysEnded(lines: seq<string>, k: nat, n: nat)
    requires k <= n <= |lines| && HexLines(lines, k).Ok? && HexLines(lines, k).value.ended
    ensures HexLines(lines, n) == HexLines(lines, k)
  {
    if k < n {
      HexStaysEnded(lines, k, n - 1);
    }
  }

  lemma PagesOfAppend(writes: seq<Write>, w: Write)
    ensures PagesOf(writes + [w]) == PutByte(PagesOf(writes), w)
  {
    assert (writes + [w])[..|writes|] == writes;
  }

  // The same, in terms of the bytes stored so far.
  method StoreWrite(blocks: seq<MemoryBlock>, w: Write, ghost writes: seq<Write>, ghost repr: set<array<byte>>)
    returns (next: seq<MemoryBlock>, ghost repr': set<array<byte>>)
    requires Hold(blocks, PagesOf(writes), repr)
    modifies repr
    ensures Hold(next, PagesOf(writes + [w]), repr')
    ensures fresh(repr' - repr)
  {
    PagesOfAppend(writes, w);
    next, repr' := StoreByte(blocks, w, PagesOf(writes), repr);
  }

  lemma DataWritesStep(writes: seq<Write>, start: int, data: Bytes, i: nat)
    requires i < |data|
    ensures writes + DataWrites(start, data[..i]) + [Write(start + i, data[i])] ==
            writes + DataWrites(start, data[..i + 1])
  {
  }

  method StoreNext(blocks: seq<MemoryBlock>, addr: int, data: Bytes, i: nat, ghost start: int, ghost writes: seq<Write>,
                   ghost repr: set<array<byte>>)
    returns (next: seq<MemoryBlock>, ghost repr': set<array<byte>>)
    requires i < |data| && addr == start + i && Hold(blocks, PagesOf(writes + DataWrites(start, data[..i])), repr)
    modifies repr
    ensures Hold(next, PagesOf(writes + DataWrites(start, data[..i + 1])), repr')
    ensures fresh(repr' - repr)
  {
    DataWritesStep(writes, start, data, i);
    next, repr' := StoreWrite(blocks, Write(addr, data[i]), writes + DataWrites(start, data[..i]), repr);
  }

  // The data loop of one record.
  method StoreData(blocks: seq<MemoryBlock>, start: int, data: Bytes,
                   ghost writes: seq<Write>, ghost repr: set<array<byte>>)
    returns (next: seq<MemoryBlock>, ghost repr': set<array<byte>>)
    requires Hold(blocks, PagesOf(writes), repr)
    modifies repr
    ensures Hold(next, PagesOf(writes + DataWrites(start, data)), repr')
    ensures fresh(repr' - repr)
  {
    next, repr' := blocks, repr;
    var addr, i := start, 0;
    assert writes + DataWrites(start, data[..0]) == writes;
    while i < |data|
      invariant 0 <= i <= |data| && addr == start + i
      invariant Hold(next, PagesOf(writes + DataWrites(start, data[..i])), repr')
      invariant fresh(repr' - repr)
    {
      next, repr' := StoreNext(next, addr, data, i, start, writes, repr');
      addr := addr + 1;
      i := i + 1;
    }
    assert data[..|data|] == data;
  }

  // The record types: extended addresses, end of file, data.
  method TakeRecord(rec: Bytes, upper: int, blocks: seq<MemoryBlock>, ghost writes: seq<Write>,
                    ghost repr: set<array<byte>>)
    returns (ok: bool, upper': int, blocks': seq<MemoryBlock>, ended: bool, ghost writes': seq<Write>,
             ghost repr': set<array<byte>>)
    requires Hold(blocks, PagesOf(writes), repr)
    modifies repr
    ensures HexRecord(Hex(upper, writes, false), rec) == if ok then Ok(Hex(upper', writes', ended)) else Fail
    ensures ok ==> Hold(blocks', PagesOf(writes'), repr')
    ensures fresh(repr' - repr)
  {
    ok, upper', blocks', ended, writes', repr' := false, upper, blocks, false, writes, repr;
    if |rec| < 4 { return; }
    var tp := rec[3];
    if tp == 4 {
      if |rec| < 6 { return; }
      upper' := (256 * rec[4] as int + rec[5] as int) * 65536;
    } else if tp == 2 {
      if |rec| < 6 { return; }
      upper' := (256 * rec[4] as int + rec[5] as int) * 16;
      if upper' % 65536 != 0 { return; }
    } else if tp == 1 {
      ended := true;
    } else if tp == 0 {
      var addr := upper + 256 * rec[1] as int + rec[2] as int;
      blocks', repr' := StoreData(blocks, addr, Payload(rec), writes, repr);
      writes' := writes + DataWrites(addr, Payload(rec));
    }
    ok := true;
  }

  method EncodeBlocks(blocks: seq<MemoryBlock>, family: int, ghost pages: seq<Page>, ghost repr: set<array<byte>>)
    returns (r: Result<Bytes>)
    requires Paged(pages) && Hold(blocks, pages, repr)
    ensures r == Encode(pages, family)
  {
    var numblocks := |blocks|;
    var resfile: Bytes := [];
    for i := 0 to numblocks
      invariant EncodeFirst(pages, i, numblocks, family) == Ok(resfile)
    {
      assert Holds(blocks[i], pages[i]);
      var block := blocks[i].Encode(i, numblocks, family);
      if block.Fail? {
        EncodesExactly(pages, numblocks, numblocks, family);
        return Fail;
      }
      resfile := resfile + block.value;
    }
    r := Ok(resfile);
  }

  method TakeLine(line: string, upper: int, blocks: seq<MemoryBlock>, ghost writes: seq<Write>,
                    ghost repr: set<array<byte>>)
    returns (ok: bool, upper': int, blocks': seq<MemoryBlock>, ended: bool, ghost writes': seq<Write>,
             ghost repr': set<array<byte>>)
    requires Hold(blocks, PagesOf(writes), repr)
    modifies repr
    ensures HexLine(Hex(upper, writes, false), line) == if ok then Ok(Hex(upper', writes', ended)) else Fail
    ensures ok ==> Hold(blocks', PagesOf(writes'), repr')
    ensures fresh(repr' - repr)
  {
    ok, upper', blocks', ended, writes', repr' := false, upper, blocks, false, writes, repr;
    if line == "" { return; }
    if line[0] != ':' {
      ok := true;
      return;
    }
    var record := ReadRecord(line);
    if record.Ok? {
      ok, upper', blocks', ended, writes', repr' := TakeRecord(record.value, upper, blocks, writes, repr);
    }
  }

  method ConvertFromHexToUf2(lines: seq<string>, family: int) returns (r: Result<Bytes>)
    ensures HexLines(lines, |lines|).Fail? ==> r.Fail?
    ensures HexLines(lines, |lines|).Ok? ==> r == Encode(PagesOf(HexLines(lines, |lines|).value.writes), family)
  {
    var upper: int, blocks: seq<MemoryBlock>, ended := 0, [], false;
    ghost var writes: seq<Write>, repr: set<array<byte>> := [], {};
    var n := 0;
    while n < |lines| && !ended
      invariant n <= |lines|
      invariant HexLines(lines, n) == Ok(Hex(upper, writes, ended))
      invariant Hold(blocks, PagesOf(writes), repr)
      invariant fresh(repr)
    {
      var ok;
      ok, upper, blocks, ended, writes, repr := TakeLine(lines[n], upper, blocks, writes, repr);
      n := n + 1;
      if !ok {
        HexStaysFailed(lines, n, |lines|);
        return Fail;
      }
    }
    if ended {
      HexStaysEnded(lines, n, |lines|);
    }
    r := EncodeBlocks(blocks, family, PagesOf(writes), repr);
  }
}
