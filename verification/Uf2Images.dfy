// What the two UF2 producers encode, and what decoding their output gives back.
module Uf2Images {
  import opened Basics
  import opened Uf2Format

  // ---- From a binary -----------------------------------------------------------------------

  function BlockCount(content: Bytes): nat {
    (|content| + 255) / 256
  }

  // Zeros up to a whole number of pages, and no further.
  function Padded(content: Bytes): (p: Bytes)
    ensures |p| == 256 * BlockCount(content) && |content| <= |p| < |content| + 256
    ensures content <= p && forall i | |content| <= i < |p| :: p[i] == 0
  {
    content + Zeros(256 * BlockCount(content) - |content|)
  }

  function ContentPage(content: Bytes, start: int, i: nat): (page: Page)
    requires i < BlockCount(content)
    ensures |page.data| == 256
  {
    Page(start + 256 * i, Padded(content)[256 * i..256 * (i + 1)])
  }

  function ContentPages(content: Bytes, start: int): (pages: seq<Page>)
    ensures |pages| == BlockCount(content)
    ensures Paged(pages)
  {
    seq(BlockCount(content), i requires 0 <= i < BlockCount(content) => ContentPage(content, start, i))
  }

  lemma {:induction false} JoinContent(content: Bytes, start: int, n: nat)
    requires n <= BlockCount(content)
    ensures Join(ContentPages(content, start)[..n]) == Padded(content)[..256 * n]
  {
    var pages := ContentPages(content, start);
    if n > 0 {
      JoinContent(content, start, n - 1);
      assert pages[..n][..n - 1] == pages[..n - 1];
      assert Gap(pages[..n]) == 0;
      assert Padded(content)[..256 * (n - 1)] + Zeros(0) + pages[n - 1].data == Padded(content)[..256 * n];
    }
  }

  lemma {:induction false} EncodesExactly(pages: seq<Page>, n: nat, numblocks: nat, family: int)
    requires Paged(pages) && n <= |pages|
    ensures EncodeFirst(pages, n, numblocks, family).Ok? <==>
            forall i :: 0 <= i < n ==> Packable(pages[i].addr, i, numblocks, family)
  {
    if n > 0 {
      EncodesExactly(pages, n - 1, numblocks, family);
    }
  }

  // convert_from_uf2 gives back the binary, zero-padded to whole pages, and its start address.
  lemma BinaryRoundTrip(content: Bytes, start: int, family: int, buf: Bytes)
    requires Encode(ContentPages(content, start), family) == Ok(buf)
    ensures Decode(buf).Ok? && Decode(buf).value.outp == Padded(content)
    ensures content != [] ==> Decode(buf).value.start == Some(start)
  {
    var pages := ContentPages(content, start);
    assert Orderly(pages) by {
      forall i | 0 < i < |pages| ensures Follows(pages[i - 1], pages[i]) {}
    }
    DecodeInvertsEncode(pages, family, buf);
    JoinContent(content, start, |pages|);
    assert pages[..|pages|] == pages;
  }

  // The conversion itself fails only when an address or a count does not fit 32 bits.
  lemma BinaryConvertsExactly(content: Bytes, start: int, family: int)
    ensures Encode(ContentPages(content, start), family).Ok? <==>
            content == [] ||
            (IsU32(start) && IsU32(start + 256 * (BlockCount(content) - 1)) &&
             IsU32(BlockCount(content)) && IsU32(family))
  {
    var pages := ContentPages(content, start);
    EncodesExactly(pages, |pages|, |pages|, family);
    if content != [] {
      assert pages[0].addr == start && pages[|pages| - 1].addr == start + 256 * (|pages| - 1);
    }
  }

  // ---- From Intel HEX ----------------------------------------------------------------------

  datatype Write = Write(addr: int, value: byte)

  function HexDigit(c: char): (d: Option<int>)
    ensures d.Some? ==> 0 <= d.value < 16
  {
    if '0' <= c <= '9' then Some(c as int - '0' as int)
    else if 'a' <= c <= 'f' then Some(c as int - 'a' as int + 10)
    else if 'A' <= c <= 'F' then Some(c as int - 'A' as int + 10)
    else None
  }

  // int(.., 16) of two of the characters is_hex lets through: digits, colon and line ends. White
  // space around a digit is ignored, so a digit next to a carriage return counts alone.
  function HexByte(hi: char, lo: char): Result<byte> {
    match (HexDigit(hi), HexDigit(lo))
    case (Some(h), Some(l)) => Ok(16 * h + l)
    case (Some(h), None) => if lo == '\r' then Ok(h) else Fail
    case (None, Some(l)) => if hi == '\r' then Ok(l) else Fail
    case (None, None) => Fail
  }

  // The first n bytes of a record, two digits each from column 1.
  function RecordBytes(line: string, n: nat): (r: Result<Bytes>)
    requires 2 * n < |line|
    ensures r.Ok? ==> |r.value| == n
  {
    if n == 0 then Ok([]) else
    match (RecordBytes(line, n - 1), HexByte(line[2 * n - 1], line[2 * n]))
    case (Ok(front), Ok(b)) => Ok(front + [b])
    case _ => Fail
  }

  // Characters left over after the last pair, such as a carriage return, are not read.
  function Record(line: string): Result<Bytes>
    requires line != ""
  {
    RecordBytes(line, (|line| - 1) / 2)
  }

  datatype Hex = Hex(upper: int, writes: seq<Write>, ended: bool)

  function DataWrites(addr: int, data: Bytes): (w: seq<Write>)
    ensures |w| == |data|
  {
    seq(|data|, i requires 0 <= i < |data| => Write(addr + i, data[i]))
  }

  // The data of a record lies between its 4-byte head and its checksum, which is not checked.
  function Payload(rec: Bytes): Bytes {
    if |rec| > 4 then rec[4..|rec| - 1] else []
  }

  function HexRecord(h: Hex, rec: Bytes): Result<Hex> {
    if |rec| < 4 then Fail
    else if rec[3] == 4 then
      if |rec| < 6 then Fail else Ok(h.(upper := (256 * rec[4] as int + rec[5] as int) * 65536))
    else if rec[3] == 2 then
      if |rec| < 6 then Fail else
      var upper := (256 * rec[4] as int + rec[5] as int) * 16;
      if upper % 65536 == 0 then Ok(h.(upper := upper)) else Fail
    else if rec[3] == 1 then Ok(h.(ended := true))
    else if rec[3] == 0 then
      Ok(h.(writes := h.writes + DataWrites(h.upper + 256 * rec[1] as int + rec[2] as int, Payload(rec))))
    else Ok(h)
  }

  function HexLine(h: Hex, line: string): Result<Hex> {
    if line == "" then Fail
    else if line[0] != ':' then Ok(h)
    else match Record(line)
         case Fail => Fail
         case Ok(rec) => HexRecord(h, rec)
  }

  function HexLines(lines: seq<string>, n: nat): Result<Hex>
    requires n <= |lines|
  {
    if n == 0 then Ok(Hex(0, [], false)) else
    match HexLines(lines, n - 1)
    case Fail => Fail
    case Ok(h) => if h.ended then Ok(h) else HexLine(h, lines[n - 1])
  }

  function Base(addr: int): int {
    addr - addr % 256
  }

  // One byte goes to the page in hand if it lies on it, else to a new page.
  function PutByte(pages: seq<Page>, w: Write): (r: seq<Page>)
    requires Paged(pages)
    ensures Paged(r) && r != [] && r[|r| - 1].addr == Base(w.addr)
  {
    if pages == [] || pages[|pages| - 1].addr != Base(w.addr) then
      pages + [Page(Base(w.addr), Zeros(256)[w.addr % 256 := w.value])]
    else
      var last := pages[|pages| - 1];
      pages[|pages| - 1 := last.(data := last.data[w.addr % 256 := w.value])]
  }

  function PagesOf(writes: seq<Write>): (pages: seq<Page>)
    ensures Paged(pages) && (pages == [] <==> writes == [])
    ensures writes != [] ==> pages[|pages| - 1].addr == Base(writes[|writes| - 1].addr)
  {
    if writes == [] then [] else PutByte(PagesOf(writes[..|writes| - 1]), writes[|writes| - 1])
  }

  // ---- The memory image ------------------------------------------------------------------------

  // Pages in ascending order, no gap over the padding limit.
  predicate StepsUp(v: Write, w: Write) {
    Base(v.addr) <= Base(w.addr) <= Base(v.addr) + 256 + MAX_PADDING
  }

  predicate Ascending(writes: seq<Write>) {
    forall i :: 0 < i < |writes| ==> StepsUp(writes[i - 1], writes[i])
  }

  function LastWrite(writes: seq<Write>, addr: int): byte {
    if writes == [] then 0
    else if writes[|writes| - 1].addr == addr then writes[|writes| - 1].value
    else LastWrite(writes[..|writes| - 1], addr)
  }

  lemma AscendingStep(writes: seq<Write>)
    requires |writes| > 1
    ensures var n := |writes| - 1; Ascending(writes) <==> Ascending(writes[..n]) && StepsUp(writes[n - 1], writes[n])
  {
    var n := |writes| - 1;
    var front := writes[..n];
    if Ascending(writes) {
      forall i | 0 < i < |front| ensures StepsUp(front[i - 1], front[i]) { assert StepsUp(writes[i - 1], writes[i]); }
      assert StepsUp(writes[n - 1], writes[n]);
    }
    if Ascending(front) && StepsUp(writes[n - 1], writes[n]) {
      forall i | 0 < i < |writes| ensures StepsUp(writes[i - 1], writes[i]) {
        if i < n { assert StepsUp(front[i - 1], front[i]); }
      }
    }
  }

  // Replacing the data of the last page keeps the order.
  lemma OrderlyUpdate(pages: seq<Page>, data: Bytes)
    requires pages != []
    ensures Orderly(pages[|pages| - 1 := pages[|pages| - 1].(data := data)]) <==> Orderly(pages)
  {
    var next := pages[|pages| - 1 := pages[|pages| - 1].(data := data)];
    assert forall i :: 0 <= i < |pages| ==> next[i].addr == pages[i].addr;
    if Orderly(pages) {
      forall i | 0 < i < |next| ensures Follows(next[i - 1], next[i]) { assert Follows(pages[i - 1], pages[i]); }
    }
    if Orderly(next) {
      forall i | 0 < i < |pages| ensures Follows(pages[i - 1], pages[i]) { assert Follows(next[i - 1], next[i]); }
    }
  }

  lemma OrderlyAppend(pages: seq<Page>, page: Page)
    requires pages != []
    ensures Orderly(pages + [page]) <==> Orderly(pages) && Follows(pages[|pages| - 1], page)
  {
    var next := pages + [page];
    OrderlyStep(next, |next|);
    assert next[..|next|] == next && next[..|next| - 1] == pages;
  }

  lemma OrderlyPutNew(pages: seq<Page>, w: Write)
    requires Paged(pages) && pages != [] && pages[|pages| - 1].addr % 256 == 0
    requires pages[|pages| - 1].addr != Base(w.addr)
    ensures var last := pages[|pages| - 1];
            Orderly(PutByte(pages, w)) <==>
            Orderly(pages) && last.addr <= Base(w.addr) <= last.addr + 256 + MAX_PADDING
  {
    var last, page := pages[|pages| - 1], Page(Base(w.addr), Zeros(256)[w.addr % 256 := w.value]);
    assert PutByte(pages, w) == pages + [page];
    OrderlyAppend(pages, page);
    assert Follows(last, page) <==> last.addr <= page.addr <= last.addr + 256 + MAX_PADDING;
  }

  lemma OrderlyPut(pages: seq<Page>, w: Write)
    requires Paged(pages) && pages != [] && pages[|pages| - 1].addr % 256 == 0
    ensures var last := pages[|pages| - 1];
            Orderly(PutByte(pages, w)) <==>
            Orderly(pages) && last.addr <= Base(w.addr) <= last.addr + 256 + MAX_PADDING
  {
    if pages[|pages| - 1].addr != Base(w.addr) {
      OrderlyPutNew(pages, w);
    } else {
      OrderlyUpdate(pages, pages[|pages| - 1].data[w.addr % 256 := w.value]);
    }
  }

  // Pages come out in order exactly when the data does.
  lemma {:induction false} OrderlyExactlyWhenAscending(writes: seq<Write>)
    ensures Orderly(PagesOf(writes)) <==> Ascending(writes)
  {
    if |writes| > 1 {
      var front := writes[..|writes| - 1];
      OrderlyExactlyWhenAscending(front);
      AscendingStep(writes);
      OrderlyPut(PagesOf(front), writes[|writes| - 1]);
    } else if |writes| == 1 {
      assert PagesOf(writes[..0]) == [];
    }
  }

  ghost predicate ImageOf(image: Bytes, first: int, writes: seq<Write>) {
    && (forall o :: 0 <= o < |image| ==> image[o] == LastWrite(writes, first + o))
    && (forall i :: 0 <= i < |writes| ==> first <= writes[i].addr < first + |image|)
  }

  lemma {:induction false} NotWritten(writes: seq<Write>, addr: int)
    requires forall i :: 0 <= i < |writes| ==> writes[i].addr != addr
    ensures LastWrite(writes, addr) == 0
  {
    if writes != [] {
      NotWritten(writes[..|writes| - 1], addr);
    }
  }

  // A byte on the page in hand.
  lemma JoinSamePage(pages: seq<Page>, w: Write)
    requires Paged(pages) && pages != [] && pages[|pages| - 1].addr == Base(w.addr)
    ensures var j := Join(pages);
            |j| >= 256 && Join(PutByte(pages, w)) == j[|j| - 256 + w.addr % 256 := w.value]
  {
    var next := PutByte(pages, w);
    assert next[..|next| - 1] == pages[..|pages| - 1];
    assert Gap(next) == Gap(pages);
  }

  lemma JoinOneMore(pages: seq<Page>, page: Page)
    requires pages != [] && pages[|pages| - 1].addr + 256 <= page.addr
    ensures Join(pages + [page]) == Join(pages) + Zeros(page.addr - (pages[|pages| - 1].addr + 256)) + page.data
  {
    var next := pages + [page];
    assert next[..|next| - 1] == pages && next[|next| - 2] == pages[|pages| - 1];
    assert Gap(next) == page.addr - (pages[|pages| - 1].addr + 256);
  }

  // A byte on a new page.
  lemma JoinNewPage(pages: seq<Page>, w: Write)
    requires Paged(pages) && pages != [] && pages[|pages| - 1].addr + 256 <= Base(w.addr)
    ensures Join(PutByte(pages, w)) ==
            Join(pages) + Zeros(Base(w.addr) - (pages[|pages| - 1].addr + 256)) + Zeros(256)[w.addr % 256 := w.value]
  {
    JoinOneMore(pages, Page(Base(w.addr), Zeros(256)[w.addr % 256 := w.value]));
  }

  lemma FirstPage(w: Write, page: Page)
    requires page == Page(Base(w.addr), Zeros(256)[w.addr % 256 := w.value])
    ensures PagesOf([w]) == [page] && Join([page]) == page.data
  {
    assert [w][..0] == [] && [page][..0] == [];
    assert Join([page]) == Join([]) + Zeros(0) + page.data;
  }

  lemma FirstImage(w: Write)
    ensures var page := Page(Base(w.addr), Zeros(256)[w.addr % 256 := w.value]);
            PagesOf([w]) == [page] && Join([page]) == page.data && ImageOf(page.data, Base(w.addr), [w])
  {
    var page := Page(Base(w.addr), Zeros(256)[w.addr % 256 := w.value]);
    FirstPage(w, page);
    forall o | 0 <= o < 256 ensures page.data[o] == LastWrite([w], Base(w.addr) + o) {
      if w.addr != Base(w.addr) + o { NotWritten([w], Base(w.addr) + o); }
    }
  }

  lemma NextImage(pages: seq<Page>, w: Write, first: int, front: seq<Write>)
    requires Paged(pages) && pages != []
    requires var last := pages[|pages| - 1].addr;
             last % 256 == 0 && first <= last <= Base(w.addr) && |Join(pages)| == last + 256 - first
    requires ImageOf(Join(pages), first, front)
    ensures var image := Join(PutByte(pages, w));
            |image| == Base(w.addr) + 256 - first && ImageOf(image, first, front + [w])
  {
    var image := Join(pages);
    if Base(w.addr) == pages[|pages| - 1].addr {
      JoinSamePage(pages, w);
      PutKeepsImage(image, first, front, w, image[|image| - 256 + w.addr % 256 := w.value]);
    } else {
      JoinNewPage(pages, w);
      PutKeepsImage(image, first, front, w, Join(PutByte(pages, w)));
    }
  }

  // The pages of these writes, joined, are memory from the first page to the last.
  ghost predicate IsMemory(writes: seq<Write>, pages: seq<Page>)
    requires writes != [] && pages != []
  {
    var image, first, last := Join(pages), Base(writes[0].addr), Base(writes[|writes| - 1].addr);
    && pages[0].addr == first <= last == pages[|pages| - 1].addr
    && |image| == last + 256 - first
    && ImageOf(image, first, writes)
  }

  lemma ImageStep(front: seq<Write>, w: Write, pages: seq<Page>)
    requires Paged(pages) && front != [] && pages != [] && IsMemory(front, pages)
    requires StepsUp(front[|front| - 1], w)
    ensures IsMemory(front + [w], PutByte(pages, w))
  {
    NextImage(pages, w, Base(front[0].addr), front);
  }

  lemma {:induction false} ImageIsMemory(writes: seq<Write>)
    requires writes != [] && Ascending(writes)
    ensures IsMemory(writes, PagesOf(writes))
  {
    var n := |writes| - 1;
    if n == 0 {
      FirstImage(writes[0]);
      assert writes == [writes[0]];
    } else {
      var front := writes[..n];
      AscendingStep(writes);
      ImageIsMemory(front);
      ImageStep(front, writes[n], PagesOf(front));
      assert writes == front + [writes[n]];
    }
  }

  lemma PutKeepsImage(image: Bytes, first: int, front: seq<Write>, w: Write, next: Bytes)
    requires ImageOf(image, first, front) && |image| <= |next|
    requires first <= w.addr < first + |next|
    requires forall o :: 0 <= o < |next| ==>
               next[o] == if first + o == w.addr then w.value else if o < |image| then image[o] else 0
    ensures ImageOf(next, first, front + [w])
  {
    var writes := front + [w];
    assert writes[..|writes| - 1] == front;
    forall o | 0 <= o < |next| ensures next[o] == LastWrite(writes, first + o) {
      if first + o != w.addr && o >= |image| { NotWritten(front, first + o); }
    }
  }

  // convert_from_uf2 accepts the blocks made from HEX records exactly when the pages ascend,
  // and then returns memory: at each address the last byte written there, zero in every gap.
  lemma HexRoundTrip(lines: seq<string>, family: int, h: Hex, buf: Bytes)
    requires HexLines(lines, |lines|) == Ok(h) && Encode(PagesOf(h.writes), family) == Ok(buf)
    ensures Decode(buf).Ok? <==> Ascending(h.writes)
    ensures h.writes != [] && Ascending(h.writes) ==>
              var first, last := Base(h.writes[0].addr), Base(h.writes[|h.writes| - 1].addr);
              && Decode(buf).value.start == Some(first)
              && |Decode(buf).value.outp| == last + 256 - first
              && ImageOf(Decode(buf).value.outp, first, h.writes)
  {
    OrderlyExactlyWhenAscending(h.writes);
    DecodeInvertsEncode(PagesOf(h.writes), family, buf);
    if h.writes != [] && Ascending(h.writes) {
      ImageIsMemory(h.writes);
    }
  }
}
