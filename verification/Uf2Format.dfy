// UF2 files: 512-byte blocks, each carrying one 256-byte page of memory.
module Uf2Format {
  import opened Basics

  // Fail stands for any Python exception.
  datatype Result<T> = Ok(value: T) | Fail

  const MAGIC_START0 := 0x0A324655
  const MAGIC_START1 := 0x9E5D5157
  const MAGIC_END := 0x0AB16F30
  const MAX_PADDING := 10 * 1024 * 1024

  function Zeros(n: nat): (z: Bytes)
    ensures |z| == n
  {
    seq(n, _ => 0)
  }

  // struct.pack("<I", x) and its inverse
  predicate IsU32(x: int) {
    0 <= x < 0x1_0000_0000
  }

  function Le32(x: int): (b: Bytes)
    requires IsU32(x)
    ensures |b| == 4
  {
    [x % 256, x / 256 % 256, x / 256 / 256 % 256, x / 256 / 256 / 256]
  }

  function Word(b: Bytes, at: nat): (w: int)
    requires at + 4 <= |b|
    ensures w >= 0
  {
    var b0: int, b1: int, b2: int, b3: int := b[at], b[at + 1], b[at + 2], b[at + 3];
    b0 + 256 * b1 + 65536 * b2 + 16777216 * b3
  }

  lemma WordLe32(x: int, b: Bytes, at: nat)
    requires IsU32(x) && at + 4 <= |b| && b[at..at + 4] == Le32(x)
    ensures Word(b, at) == x
  {
    var s := b[at..at + 4];
    assert s[0] == b[at] && s[1] == b[at + 1] && s[2] == b[at + 2] && s[3] == b[at + 3];
  }

  // ---- Encoding ----------------------------------------------------------------------------

  datatype Page = Page(addr: int, data: Bytes)

  function Flags(family: int): int {
    if family != 0 then 0x2000 else 0
  }

  predicate Packable(addr: int, blockno: int, numblocks: int, family: int) {
    IsU32(addr) && IsU32(blockno) && IsU32(numblocks) && IsU32(family)
  }

  function Header(addr: int, blockno: int, numblocks: int, family: int): (h: Bytes)
    requires Packable(addr, blockno, numblocks, family)
    ensures |h| == 32
  {
    Le32(MAGIC_START0) + Le32(MAGIC_START1) + Le32(Flags(family)) + Le32(addr) +
    Le32(256) + Le32(blockno) + Le32(numblocks) + Le32(family)
  }

  function Block(page: Page, blockno: int, numblocks: int, family: int): (b: Bytes)
    requires |page.data| == 256 && Packable(page.addr, blockno, numblocks, family)
    ensures |b| == 512
  {
    Header(page.addr, blockno, numblocks, family) + page.data + Zeros(220) + Le32(MAGIC_END)
  }

  predicate Paged(pages: seq<Page>) {
    forall i :: 0 <= i < |pages| ==> |pages[i].data| == 256
  }

  // The first n pages encoded as blocks of a file of numblocks.
  function EncodeFirst(pages: seq<Page>, n: nat, numblocks: nat, family: int): (r: Result<Bytes>)
    requires Paged(pages) && n <= |pages|
    ensures r.Ok? ==> |r.value| == 512 * n
  {
    if n == 0 then Ok([]) else
    match EncodeFirst(pages, n - 1, numblocks, family)
    case Fail => Fail
    case Ok(front) =>
      if Packable(pages[n - 1].addr, n - 1, numblocks, family)
      then Ok(front + Block(pages[n - 1], n - 1, numblocks, family)) else Fail
  }

  function Encode(pages: seq<Page>, family: int): (r: Result<Bytes>)
    requires Paged(pages)
  {
    EncodeFirst(pages, |pages|, |pages|, family)
  }

  // ---- Decoding ----------------------------------------------------------------------------

  // curraddr, the start address found, and the bytes so far
  datatype Decoding = Decoding(curr: Option<int>, start: Option<int>, outp: Bytes)

  // The header fields the decoder looks at.
  datatype Head = Head(magic: bool, noFlash: bool, addr: int, datalen: nat)

  function ReadHead(block: Bytes): Head
    requires |block| == 512
  {
    Head(Word(block, 0) == MAGIC_START0 && Word(block, 4) == MAGIC_START1,
         Word(block, 8) % 2 == 1, Word(block, 12), Word(block, 16))
  }

  // One round of the block loop. Bad magic is meant to be skipped, but the message adds an
  // int to a string, so it raises like the failed assertions do.
  function DecodeBlock(d: Decoding, block: Bytes): Result<Decoding>
    requires |block| == 512
  {
    var h := ReadHead(block);
    if !h.magic then Fail
    else if h.noFlash then Ok(d)
    else if h.datalen > 476 then Fail
    else
      var curr := if d.curr.None? then h.addr else d.curr.value;
      var start := if d.curr.None? then Some(h.addr) else d.start;
      var padding := h.addr - curr;
      if padding < 0 || padding > MAX_PADDING || padding % 4 != 0 then Fail
      else Ok(Decoding(Some(h.addr + h.datalen), start, d.outp + Zeros(padding) + block[32..32 + h.datalen]))
  }

  function DecodeFirst(buf: Bytes, n: nat): Result<Decoding>
    requires 512 * n <= |buf|
  {
    if n == 0 then Ok(Decoding(None, None, [])) else
    match DecodeFirst(buf, n - 1)
    case Fail => Fail
    case Ok(d) => DecodeBlock(d, buf[512 * (n - 1)..512 * n])
  }

  function Decode(buf: Bytes): Result<Decoding> {
    DecodeFirst(buf, |buf| / 512)
  }

  // ---- Decoding inverts encoding -------------------------------------------------------------

  // Pages in ascending order with word-aligned gaps within the padding limit.
  predicate Follows(p: Page, q: Page) {
    p.addr + 256 <= q.addr <= p.addr + 256 + MAX_PADDING && (q.addr - p.addr) % 4 == 0
  }

  predicate Orderly(pages: seq<Page>) {
    forall i :: 0 < i < |pages| ==> Follows(pages[i - 1], pages[i])
  }

  function Gap(pages: seq<Page>): (n: nat)
    requires pages != []
  {
    if |pages| == 1 then 0 else
    var g := pages[|pages| - 1].addr - (pages[|pages| - 2].addr + 256);
    if g >= 0 then g else 0
  }

  // The pages laid out in memory, zeros in the gaps.
  function Join(pages: seq<Page>): Bytes {
    if pages == [] then [] else
    Join(pages[..|pages| - 1]) + Zeros(Gap(pages)) + pages[|pages| - 1].data
  }

  lemma {:induction false} EncodedBlock(pages: seq<Page>, n: nat, numblocks: nat, family: int, i: nat)
    requires Paged(pages) && i < n <= |pages| && EncodeFirst(pages, n, numblocks, family).Ok?
    ensures Packable(pages[i].addr, i, numblocks, family)
    ensures EncodeFirst(pages, n, numblocks, family).value[512 * i..512 * (i + 1)] ==
            Block(pages[i], i, numblocks, family)
  {
    var front := EncodeFirst(pages, n - 1, numblocks, family).value;
    var all := EncodeFirst(pages, n, numblocks, family).value;
    if i < n - 1 {
      EncodedBlock(pages, n - 1, numblocks, family, i);
      assert all[512 * i..512 * (i + 1)] == front[512 * i..512 * (i + 1)];
    }
  }

  lemma BlockFields(page: Page, blockno: int, numblocks: int, family: int)
    requires |page.data| == 256 && Packable(page.addr, blockno, numblocks, family)
    ensures var b := Block(page, blockno, numblocks, family);
            ReadHead(b) == Head(true, false, page.addr, 256) && b[32..32 + 256] == page.data
  {
    var b := Block(page, blockno, numblocks, family);
    assert b[0..4] == Le32(MAGIC_START0);
    assert b[4..8] == Le32(MAGIC_START1);
    assert b[8..12] == Le32(Flags(family));
    assert b[12..16] == Le32(page.addr);
    assert b[16..20] == Le32(256);
    WordLe32(MAGIC_START0, b, 0);
    WordLe32(MAGIC_START1, b, 4);
    WordLe32(Flags(family), b, 8);
    WordLe32(page.addr, b, 12);
    WordLe32(256, b, 16);
  }

  // The four bytes at this offset hold x, lowest byte first.
  predicate Holds32(b: Bytes, at: nat, x: int) {
    at + 4 <= |b| && IsSum(x, b[at], b[at + 1], b[at + 2], b[at + 3])
  }

  predicate IsSum(x: int, b0: int, b1: int, b2: int, b3: int) {
    x == b0 + 0x100 * b1 + 0x1_0000 * b2 + 0x100_0000 * b3
  }

  lemma Le32Holds(x: int)
    requires IsU32(x)
    ensures Holds32(Le32(x), 0, x)
  {
  }

  lemma HeldAt(b: Bytes, at: nat, x: int)
    requires IsU32(x) && at + 4 <= |b| && b[at..at + 4] == Le32(x)
    ensures Holds32(b, at, x)
  {
    Le32Holds(x);
    var s := b[at..at + 4];
    assert s[0] == b[at] && s[1] == b[at + 1] && s[2] == b[at + 2] && s[3] == b[at + 3];
  }

  // A block, field by field: three magic numbers, and the flag that says that a family is given.
  predicate IsHeader(b: Bytes, addr: int, blockno: int, numblocks: int, family: int) {
    && Holds32(b, 0, 0x0A324655) && Holds32(b, 4, 0x9E5D5157)
    && Holds32(b, 8, if family != 0 then 0x2000 else 0)
    && Holds32(b, 12, addr) && Holds32(b, 16, 256)
    && Holds32(b, 20, blockno) && Holds32(b, 24, numblocks) && Holds32(b, 28, family)
  }

  predicate IsBody(b: Bytes, data: Bytes) {
    |b| == 512 && b[32..288] == data && (forall i | 288 <= i < 508 :: b[i] == 0) && Holds32(b, 508, 0x0AB16F30)
  }

  predicate IsBlock(b: Bytes, page: Page, blockno: int, numblocks: int, family: int) {
    IsHeader(b, page.addr, blockno, numblocks, family) && IsBody(b, page.data)
  }

  lemma Slices(a: Bytes, b: Bytes, c: Bytes, d: Bytes, e: Bytes, f: Bytes, g: Bytes, h: Bytes)
    requires |a| == |b| == |c| == |d| == |e| == |f| == |g| == |h| == 4
    ensures var s := a + b + c + d + e + f + g + h;
            && s[0..4] == a && s[4..8] == b && s[8..12] == c && s[12..16] == d
            && s[16..20] == e && s[20..24] == f && s[24..28] == g && s[28..32] == h
  {
  }

  lemma HeaderIsHeader(addr: int, blockno: int, numblocks: int, family: int)
    requires Packable(addr, blockno, numblocks, family)
    ensures IsHeader(Header(addr, blockno, numblocks, family), addr, blockno, numblocks, family)
  {
    var h := Header(addr, blockno, numblocks, family);
    Slices(Le32(MAGIC_START0), Le32(MAGIC_START1), Le32(Flags(family)), Le32(addr), Le32(256), Le32(blockno),
           Le32(numblocks), Le32(family));
    HeldAt(h, 0, MAGIC_START0);
    HeldAt(h, 4, MAGIC_START1);
    HeldAt(h, 8, Flags(family));
    HeldAt(h, 12, addr);
    HeldAt(h, 16, 256);
    HeldAt(h, 20, blockno);
    HeldAt(h, 24, numblocks);
    HeldAt(h, 28, family);
  }

  lemma HeldInFront(h: Bytes, rest: Bytes, at: nat, x: int)
    requires Holds32(h, at, x)
    ensures Holds32(h + rest, at, x)
  {
  }

  lemma HeaderInFront(h: Bytes, rest: Bytes, addr: int, blockno: int, numblocks: int, family: int)
    requires IsHeader(h, addr, blockno, numblocks, family)
    ensures IsHeader(h + rest, addr, blockno, numblocks, family)
  {
    HeldInFront(h, rest, 0, 0x0A324655);
    HeldInFront(h, rest, 4, 0x9E5D5157);
    HeldInFront(h, rest, 8, if family != 0 then 0x2000 else 0);
    HeldInFront(h, rest, 12, addr);
    HeldInFront(h, rest, 16, 256);
    HeldInFront(h, rest, 20, blockno);
    HeldInFront(h, rest, 24, numblocks);
    HeldInFront(h, rest, 28, family);
  }

  lemma BodyIsBody(h: Bytes, data: Bytes)
    requires |h| == 32 && |data| == 256
    ensures IsBody(h + (data + Zeros(220) + Le32(MAGIC_END)), data)
  {
    var b := h + (data + Zeros(220) + Le32(MAGIC_END));
    assert b[508..512] == Le32(MAGIC_END);
    HeldAt(b, 508, MAGIC_END);
    assert b[32..288] == data;
  }

  lemma BlockIsBlock(page: Page, blockno: int, numblocks: int, family: int)
    requires |page.data| == 256 && Packable(page.addr, blockno, numblocks, family)
    ensures IsBlock(Block(page, blockno, numblocks, family), page, blockno, numblocks, family)
  {
    var h := Header(page.addr, blockno, numblocks, family);
    HeaderIsHeader(page.addr, blockno, numblocks, family);
    HeaderInFront(h, page.data + Zeros(220) + Le32(MAGIC_END), page.addr, blockno, numblocks, family);
    BodyIsBody(h, page.data);
    assert Block(page, blockno, numblocks, family) == h + (page.data + Zeros(220) + Le32(MAGIC_END));
  }

  // An encoded file is one such block for each page, numbered from zero.
  lemma FileIsBlocks(pages: seq<Page>, family: int, buf: Bytes, i: nat)
    requires Paged(pages) && Encode(pages, family) == Ok(buf) && i < |pages|
    ensures |buf| == 512 * |pages| && IsBlock(buf[512 * i..512 * (i + 1)], pages[i], i, |pages|, family)
  {
    EncodedBlock(pages, |pages|, |pages|, family, i);
    BlockIsBlock(pages[i], i, |pages|, family);
  }

  lemma WordIsHeld(b: Bytes, at: nat, x: int)
    requires Holds32(b, at, x)
    ensures Word(b, at) == x
  {
  }

  lemma ForeignHead(b: Bytes, flags: int, addr: int, datalen: int)
    requires |b| == 512 && Holds32(b, 0, 0x0A324655) && Holds32(b, 4, 0x9E5D5157)
    requires Holds32(b, 8, flags) && Holds32(b, 12, addr) && Holds32(b, 16, datalen)
    ensures datalen >= 0 && ReadHead(b) == Head(true, flags % 2 == 1, addr, datalen)
  {
    WordIsHeld(b, 0, 0x0A324655);
    WordIsHeld(b, 4, 0x9E5D5157);
    WordIsHeld(b, 8, flags);
    WordIsHeld(b, 12, addr);
    WordIsHeld(b, 16, datalen);
  }

  // What a block with these flags and this much data does to what has been decoded.
  predicate Taken(d: Decoding, r: Result<Decoding>, flags: int, addr: int, datalen: nat, data: Bytes) {
    if flags % 2 == 1 then r == Ok(d)
    else if datalen > 476 then r == Fail
    else if d.curr.None? then r == Ok(Decoding(Some(addr + datalen), Some(addr), d.outp + data))
    else if 0 <= addr - d.curr.value <= 0xA0_0000 && (addr - d.curr.value) % 4 == 0 then
      r == Ok(Decoding(Some(addr + datalen), d.start, d.outp + Zeros(addr - d.curr.value) + data))
    else r == Fail
  }

  lemma HeadDecides(d: Decoding, b: Bytes, flags: int, addr: int, datalen: nat, data: Bytes)
    requires |b| == 512 && ReadHead(b) == Head(true, flags % 2 == 1, addr, datalen)
    requires data == b[32..if datalen > 476 then 32 else 32 + datalen]
    ensures Taken(d, DecodeBlock(d, b), flags, addr, datalen, data)
  {
    assert d.outp + Zeros(0) == d.outp;
  }

  // Blocks of other origin: any flags, length and data. One that is not for flash is skipped, one
  // that is too long refused, and otherwise so many bytes are taken.
  lemma ForeignBlock(d: Decoding, b: Bytes, flags: int, addr: int, datalen: nat, data: Bytes)
    requires |b| == 512 && Holds32(b, 0, 0x0A324655) && Holds32(b, 4, 0x9E5D5157)
    requires Holds32(b, 8, flags) && Holds32(b, 12, addr) && Holds32(b, 16, datalen)
    requires data == b[32..if datalen > 476 then 32 else 32 + datalen]
    ensures Taken(d, DecodeBlock(d, b), flags, addr, datalen, data)
  {
    ForeignHead(b, flags, addr, datalen);
    HeadDecides(d, b, flags, addr, datalen, data);
  }

  lemma OtherMagicFails(d: Decoding, b: Bytes, first: int, second: int)
    requires |b| == 512 && Holds32(b, 0, first) && Holds32(b, 4, second)
    requires first != 0x0A324655 || second != 0x9E5D5157
    ensures DecodeBlock(d, b) == Fail
  {
    WordIsHeld(b, 0, first);
    WordIsHeld(b, 4, second);
  }

  // What decoding the block of one page does.
  function Place(d: Decoding, page: Page): Result<Decoding> {
    if d.curr.None? then Ok(Decoding(Some(page.addr + 256), Some(page.addr), d.outp + page.data))
    else
      var padding := page.addr - d.curr.value;
      if 0 <= padding <= MAX_PADDING && padding % 4 == 0
      then Ok(Decoding(Some(page.addr + 256), d.start, d.outp + Zeros(padding) + page.data)) else Fail
  }

  lemma DecodePage(d: Decoding, page: Page, blockno: int, numblocks: int, family: int)
    requires |page.data| == 256 && Packable(page.addr, blockno, numblocks, family)
    ensures DecodeBlock(d, Block(page, blockno, numblocks, family)) == Place(d, page)
  {
    BlockFields(page, blockno, numblocks, family);
    assert d.outp + Zeros(0) == d.outp;
  }

  function Placed(pages: seq<Page>, n: nat): Result<Decoding>
    requires n <= |pages|
  {
    if n == 0 then Ok(Decoding(None, None, []))
    else if Orderly(pages[..n]) then Ok(Decoding(Some(pages[n - 1].addr + 256), Some(pages[0].addr), Join(pages[..n])))
    else Fail
  }

  lemma PlacedStep(pages: seq<Page>, n: nat)
    requires 0 < n <= |pages| && Paged(pages)
    ensures Placed(pages, n) == if Placed(pages, n - 1).Fail? then Fail
            else Place(Placed(pages, n - 1).value, pages[n - 1])
  {
    var s := pages[..n];
    assert s[..n - 1] == pages[..n - 1];
    OrderlyStep(pages, n);
    if n == 1 {
      assert Join(s) == Join(s[..0]) + Zeros(0) + pages[0].data;
    }
  }

  // The i-th block of the file decodes as this page, whatever was decoded before.
  ghost predicate HoldsPage(buf: Bytes, page: Page, i: nat) {
    512 * (i + 1) <= |buf| && forall d :: DecodeBlock(d, buf[512 * i..512 * (i + 1)]) == Place(d, page)
  }

  ghost predicate HoldsPages(buf: Bytes, pages: seq<Page>) {
    |buf| == 512 * |pages| && forall i :: 0 <= i < |pages| ==> HoldsPage(buf, pages[i], i)
  }

  lemma EncodedHoldsPage(pages: seq<Page>, family: int, buf: Bytes, i: nat)
    requires Paged(pages) && Encode(pages, family) == Ok(buf) && i < |pages|
    ensures HoldsPage(buf, pages[i], i)
  {
    EncodedBlock(pages, |pages|, |pages|, family, i);
    var block := Block(pages[i], i, |pages|, family);
    forall d ensures DecodeBlock(d, block) == Place(d, pages[i]) {
      DecodePage(d, pages[i], i, |pages|, family);
    }
  }

  lemma EncodedHoldsPages(pages: seq<Page>, family: int, buf: Bytes)
    requires Paged(pages) && Encode(pages, family) == Ok(buf)
    ensures HoldsPages(buf, pages)
  {
    forall i | 0 <= i < |pages| ensures HoldsPage(buf, pages[i], i) {
      EncodedHoldsPage(pages, family, buf, i);
    }
  }

  // Decoding after n blocks: the first n pages joined, or an exception if they are out of order.
  lemma {:induction false} DecodeHeld(pages: seq<Page>, buf: Bytes, n: nat)
    requires Paged(pages) && HoldsPages(buf, pages) && n <= |pages|
    ensures DecodeFirst(buf, n) == Placed(pages, n)
  {
    if n > 0 {
      DecodeHeld(pages, buf, n - 1);
      PlacedStep(pages, n);
      assert HoldsPage(buf, pages[n - 1], n - 1);
    }
  }

  lemma OrderlyStep(pages: seq<Page>, n: nat)
    requires 0 < n <= |pages|
    ensures Orderly(pages[..n]) <==> Orderly(pages[..n - 1]) && (n == 1 || Follows(pages[n - 2], pages[n - 1]))
  {
    var s, t := pages[..n], pages[..n - 1];
    if Orderly(s) {
      forall i | 0 < i < |t| ensures Follows(t[i - 1], t[i]) { assert Follows(s[i - 1], s[i]); }
      if n > 1 { assert Follows(s[n - 2], s[n - 1]); }
    }
    if Orderly(t) && (n == 1 || Follows(pages[n - 2], pages[n - 1])) {
      forall i | 0 < i < |s| ensures Follows(s[i - 1], s[i]) { if i < n - 1 { assert Follows(t[i - 1], t[i]); } }
    }
  }

  // Decoding an encoded file gives the memory image exactly when the pages are in order.
  lemma DecodeInvertsEncode(pages: seq<Page>, family: int, buf: Bytes)
    requires Paged(pages) && Encode(pages, family) == Ok(buf)
    ensures Decode(buf).Ok? <==> Orderly(pages)
    ensures Orderly(pages) ==> Decode(buf).value.outp == Join(pages)
    ensures Orderly(pages) && pages != [] ==> Decode(buf).value.start == Some(pages[0].addr)
  {
    EncodedHoldsPages(pages, family, buf);
    HeldDecodes(pages, buf);
  }

  lemma HeldDecodes(pages: seq<Page>, buf: Bytes)
    requires Paged(pages) && HoldsPages(buf, pages)
    ensures Decode(buf).Ok? <==> Orderly(pages)
    ensures Orderly(pages) ==> Decode(buf).value.outp == Join(pages)
    ensures Orderly(pages) && pages != [] ==> Decode(buf).value.start == Some(pages[0].addr)
  {
    DecodeHeld(pages, buf, |pages|);
    assert pages[..|pages|] == pages;
    if pages == [] { assert Join(pages) == []; }
  }
}
