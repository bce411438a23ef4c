// Intel HEX text as its producers write it, and what the converter to UF2 reads from it.
module HexText {
  import opened Basics
  import opened Uf2Format
  import opened Uf2Images

  // ---- Records ----------------------------------------------------------------------------------

  function Digit(n: int): char
    requires 0 <= n < 16
  {
    "0123456789ABCDEF"[n]
  }

  function Digits(bytes: Bytes): (s: string)
    ensures |s| == 2 * |bytes|
  {
    if bytes == [] then []
    else
      var b := bytes[|bytes| - 1];
      Digits(bytes[..|bytes| - 1]) + [Digit(b / 16), Digit(b % 16)]
  }

  function Sum(bytes: Bytes): int {
    if bytes == [] then 0 else Sum(bytes[..|bytes| - 1]) + bytes[|bytes| - 1]
  }

  // All bytes of a record add up to zero modulo 256.
  function Checksum(bytes: Bytes): byte {
    (256 - Sum(bytes) % 256) % 256
  }

  // Length, address with its high byte first, type, data and checksum.
  function RecordOf(kind: byte, addr: int, data: Bytes): Bytes
    requires 0 <= addr < 0x1_0000 && |data| < 256
  {
    var head := [|data|, addr / 256, addr % 256, kind];
    head + data + [Checksum(head + data)]
  }

  // A line may end in a carriage return.
  function LineOf(record: Bytes, cr: bool): string {
    ":" + Digits(record) + if cr then "\r" else ""
  }

  // ---- Files ------------------------------------------------------------------------------------

  // A stretch of data, its upper address given by a record of type 04 or, in segments, of type 02; an
  // entry point, with a record of type 03 or 05; or a line that is no record.
  datatype Item =
    | Stretch(addr: int, data: Bytes, segmented: bool)
    | Entry(kind: byte, point: Bytes)
    | Remark(text: string)

  predicate Writable(item: Item) {
    match item
    case Stretch(addr, data, segmented) => 0 <= addr < (if segmented then 0x10_0000 else 0x1_0000_0000) && |data| < 256
    case Entry(kind, point) => (kind == 3 || kind == 5) && |point| == 4
    case Remark(text) => text != "" && text[0] != ':'
  }

  predicate AllWritable(items: seq<Item>) {
    items == [] || (AllWritable(items[..|items| - 1]) && Writable(items[|items| - 1]))
  }

  // A segment is named by a sixteenth of its address.
  function UpperRecord(addr: int, segmented: bool): Bytes
    requires 0 <= addr < (if segmented then 0x10_0000 else 0x1_0000_0000)
  {
    var upper := addr / 0x1_0000;
    if segmented then RecordOf(2, 0, [16 * upper, 0]) else RecordOf(4, 0, [upper / 256, upper % 256])
  }

  function UpperLine(item: Item, cr: bool): string
    requires Writable(item) && item.Stretch?
  {
    LineOf(UpperRecord(item.addr, item.segmented), cr)
  }

  function DataLine(item: Item, cr: bool): string
    requires Writable(item) && item.Stretch?
  {
    LineOf(RecordOf(0, item.addr % 0x1_0000, item.data), cr)
  }

  function LinesOf(item: Item, cr: bool): seq<string>
    requires Writable(item)
  {
    match item
    case Stretch(_, _, _) => [UpperLine(item, cr), DataLine(item, cr)]
    case Entry(kind, point) => [LineOf(RecordOf(kind, 0, point), cr)]
    case Remark(text) => [text]
  }

  function TextOf(items: seq<Item>, cr: bool): seq<string>
    requires AllWritable(items)
  {
    if items == [] then [] else TextOf(items[..|items| - 1], cr) + LinesOf(items[|items| - 1], cr)
  }

  function EndLine(cr: bool): string {
    LineOf(RecordOf(1, 0, []), cr)
  }

  // What a loader of the file writes: each byte of each stretch, one address after the other.
  function WritesOf(items: seq<Item>): seq<Write> {
    if items == [] then []
    else WritesOf(items[..|items| - 1]) + ItemWrites(items[|items| - 1])
  }

  function ItemWrites(item: Item): seq<Write> {
    if item.Stretch? then
      seq(|item.data|, i requires 0 <= i < |item.data| => Write(item.addr + i, item.data[i]))
    else []
  }

  // ---- Reading a record back --------------------------------------------------------------------

  lemma DigitIsRead(n: int)
    requires 0 <= n < 16
    ensures HexDigit(Digit(n)) == HexDigit("0123456789abcdef"[n]) == Some(n)
  {
  }

  lemma PairIsRead(b: byte)
    ensures HexByte(Digit(b / 16), Digit(b % 16)) == Ok(b)
  {
    DigitIsRead(b / 16);
    DigitIsRead(b % 16);
  }

  lemma {:induction false} DigitsAt(bytes: Bytes, i: nat)
    requires i < |bytes|
    ensures Digits(bytes)[2 * i] == Digit(bytes[i] / 16) && Digits(bytes)[2 * i + 1] == Digit(bytes[i] % 16)
  {
    if i < |bytes| - 1 {
      DigitsAt(bytes[..|bytes| - 1], i);
    }
  }

  lemma PairInLine(bytes: Bytes, cr: bool, line: string, i: nat)
    requires i < |bytes| && line == LineOf(bytes, cr)
    ensures 2 * i + 2 < |line| && line[2 * i + 1] == Digit(bytes[i] / 16) && line[2 * i + 2] == Digit(bytes[i] % 16)
  {
    DigitsAt(bytes, i);
  }

  lemma OneMoreByte(bytes: Bytes, line: string, n: nat)
    requires n < |bytes| && 2 * n + 2 < |line| && RecordBytes(line, n) == Ok(bytes[..n])
    requires line[2 * n + 1] == Digit(bytes[n] / 16) && line[2 * n + 2] == Digit(bytes[n] % 16)
    ensures RecordBytes(line, n + 1) == Ok(bytes[..n + 1])
  {
    PairIsRead(bytes[n]);
    assert bytes[..n + 1] == bytes[..n] + [bytes[n]];
  }

  lemma {:induction false} RecordBytesAreRead(bytes: Bytes, cr: bool, line: string, n: nat)
    requires n <= |bytes| && line == LineOf(bytes, cr)
    ensures 2 * n < |line| && RecordBytes(line, n) == Ok(bytes[..n])
  {
    if n > 0 {
      RecordBytesAreRead(bytes, cr, line, n - 1);
      PairInLine(bytes, cr, line, n - 1);
      OneMoreByte(bytes, line, n - 1);
    }
  }

  lemma PairsInLine(bytes: Bytes, cr: bool)
    ensures LineOf(bytes, cr) != "" && LineOf(bytes, cr)[0] == ':' && (|LineOf(bytes, cr)| - 1) / 2 == |bytes|
  {
  }

  lemma RecordIsRead(bytes: Bytes, cr: bool)
    ensures LineOf(bytes, cr) != "" && Record(LineOf(bytes, cr)) == Ok(bytes)
  {
    RecordBytesAreRead(bytes, cr, LineOf(bytes, cr), |bytes|);
    PairsInLine(bytes, cr);
    assert bytes[..|bytes|] == bytes;
  }

  lemma LineIsRead(h: Hex, bytes: Bytes, cr: bool)
    ensures HexLine(h, LineOf(bytes, cr)) == HexRecord(h, bytes)
  {
    PairsInLine(bytes, cr);
    RecordIsRead(bytes, cr);
  }

  // ---- Reading a file back ----------------------------------------------------------------------

  lemma UpperIsRead(h: Hex, addr: int, segmented: bool)
    requires 0 <= addr < (if segmented then 0x10_0000 else 0x1_0000_0000)
    ensures HexRecord(h, UpperRecord(addr, segmented)) == Ok(h.(upper := addr - addr % 0x1_0000))
  {
    var upper := addr / 0x1_0000;
    var rec := UpperRecord(addr, segmented);
    assert segmented ==> rec[4] == 16 * upper && rec[5] == 0;
    assert !segmented ==> rec[4] == upper / 256 && rec[5] == upper % 256;
  }

  lemma DataIsRead(h: Hex, addr: int, data: Bytes)
    requires 0 <= addr < 0x1_0000 && |data| < 256
    ensures HexRecord(h, RecordOf(0, addr, data)) == Ok(h.(writes := h.writes + DataWrites(h.upper + addr, data)))
  {
    var rec := RecordOf(0, addr, data);
    assert Payload(rec) == data;
    assert 256 * rec[1] as int + rec[2] as int == addr;
  }

  // The first n lines have been read, and gave these writes.
  ghost predicate Gave(lines: seq<string>, n: nat, writes: seq<Write>) {
    n <= |lines| && exists upper :: HexLines(lines, n) == Ok(Hex(upper, writes, false))
  }

  lemma OneMoreLine(lines: seq<string>, n: nat, h: Hex, next: Hex)
    requires n < |lines| && HexLines(lines, n) == Ok(h) && !h.ended && HexLine(h, lines[n]) == Ok(next)
    ensures HexLines(lines, n + 1) == Ok(next)
  {
  }

  lemma UpperLineIsRead(h: Hex, item: Item, cr: bool)
    requires Writable(item) && item.Stretch?
    ensures HexLine(h, UpperLine(item, cr)) == Ok(h.(upper := item.addr - item.addr % 0x1_0000))
  {
    LineIsRead(h, UpperRecord(item.addr, item.segmented), cr);
    UpperIsRead(h, item.addr, item.segmented);
  }

  lemma DataLineIsRead(h: Hex, item: Item, cr: bool)
    requires Writable(item) && item.Stretch? && h.upper == item.addr - item.addr % 0x1_0000
    ensures HexLine(h, DataLine(item, cr)) == Ok(h.(writes := h.writes + ItemWrites(item)))
  {
    var low := item.addr % 0x1_0000;
    WritesAreData(item);
    DataRecordIsRead(h, low, item.data, cr, LineOf(RecordOf(0, low, item.data), cr), ItemWrites(item));
  }

  lemma DataRecordIsRead(h: Hex, addr: int, data: Bytes, cr: bool, line: string, writes: seq<Write>)
    requires 0 <= addr < 0x1_0000 && |data| < 256 && line == LineOf(RecordOf(0, addr, data), cr)
    requires writes == DataWrites(h.upper + addr, data)
    ensures HexLine(h, line) == Ok(h.(writes := h.writes + writes))
  {
    LineIsRead(h, RecordOf(0, addr, data), cr);
    DataIsRead(h, addr, data);
  }

  // These one or two lines, read one after the other, lead from h to next.
  predicate Leads(h: Hex, own: seq<string>, mid: Hex, next: Hex) {
    match |own|
    case 1 => HexLine(h, own[0]) == Ok(next)
    case 2 => HexLine(h, own[0]) == Ok(mid) && !mid.ended && HexLine(mid, own[1]) == Ok(next)
    case _ => false
  }

  lemma StretchIsRead(h: Hex, item: Item, cr: bool) returns (mid: Hex, next: Hex)
    requires Writable(item) && item.Stretch? && !h.ended
    ensures Leads(h, [UpperLine(item, cr), DataLine(item, cr)], mid, next)
    ensures next == h.(upper := next.upper, writes := h.writes + ItemWrites(item))
  {
    mid := h.(upper := item.addr - item.addr % 0x1_0000);
    next := mid.(writes := h.writes + ItemWrites(item));
    UpperLineIsRead(h, item, cr);
    DataLineIsRead(mid, item, cr);
  }

  lemma WritesAreData(item: Item)
    ensures ItemWrites(item) == if item.Stretch? then DataWrites(item.addr, item.data) else []
  {
  }

  lemma OtherIsRead(h: Hex, item: Item, cr: bool, own: seq<string>)
    requires Writable(item) && !item.Stretch? && own == LinesOf(item, cr)
    ensures Leads(h, own, h, h) && h.writes + ItemWrites(item) == h.writes
  {
    if item.Entry? {
      LineIsRead(h, RecordOf(item.kind, 0, item.point), cr);
    }
  }

  lemma LinesLead(lines: seq<string>, n: nat, h: Hex, own: seq<string>, mid: Hex, next: Hex)
    requires Leads(h, own, mid, next) && n + |own| <= |lines| && lines[n..n + |own|] == own
    requires HexLines(lines, n) == Ok(h) && !h.ended && !next.ended
    ensures HexLines(lines, n + |own|) == Ok(next)
  {
    assert own[0] == lines[n..n + |own|][0] == lines[n];
    if |own| == 1 {
      OneMoreLine(lines, n, h, next);
    } else {
      assert own[1] == lines[n..n + |own|][1] == lines[n + 1];
      OneMoreLine(lines, n, h, mid);
      OneMoreLine(lines, n + 1, mid, next);
    }
  }

  lemma ItemIsRead(lines: seq<string>, n: nat, writes: seq<Write>, item: Item, cr: bool, own: seq<string>,
                   more: seq<Write>)
    requires Writable(item) && Gave(lines, n, writes) && own == LinesOf(item, cr) && more == ItemWrites(item)
    requires n + |own| <= |lines| && lines[n..n + |own|] == own
    ensures Gave(lines, n + |own|, writes + more)
  {
    var upper :| HexLines(lines, n) == Ok(Hex(upper, writes, false));
    var h := Hex(upper, writes, false);
    var mid, next := h, h;
    if item.Stretch? {
      mid, next := StretchIsRead(h, item, cr);
    } else {
      OtherIsRead(h, item, cr, own);
    }
    LinesLead(lines, n, h, own, mid, next);
    assert next == Hex(next.upper, writes + more, false);
  }

  lemma ItemFollows(lines: seq<string>, text: seq<string>, writes: seq<Write>, item: Item, cr: bool, own: seq<string>,
                    more: seq<Write>)
    requires Writable(item) && Gave(lines, |text|, writes) && own == LinesOf(item, cr) && more == ItemWrites(item)
    requires text + own <= lines
    ensures Gave(lines, |text + own|, writes + more)
  {
    assert lines[|text|..|text| + |own|] == (text + own)[|text|..] == own;
    ItemIsRead(lines, |text|, writes, item, cr, own, more);
  }

  lemma {:induction false} ItemsAreRead(lines: seq<string>, items: seq<Item>, cr: bool)
    requires AllWritable(items) && TextOf(items, cr) <= lines
    ensures Gave(lines, |TextOf(items, cr)|, WritesOf(items))
  {
    if items == [] {
      assert HexLines(lines, 0) == Ok(Hex(0, [], false));
    } else {
      var front, item := items[..|items| - 1], items[|items| - 1];
      var text, own, more := TextOf(front, cr), LinesOf(item, cr), ItemWrites(item);
      assert TextOf(items, cr) == text + own && WritesOf(items) == WritesOf(front) + more;
      ItemsAreRead(lines, front, cr);
      ItemFollows(lines, text, WritesOf(front), item, cr, own, more);
    }
  }

  lemma {:induction false} NothingAfterTheEnd(lines: seq<string>, k: nat, n: nat)
    requires k <= n <= |lines| && HexLines(lines, k).Ok? && HexLines(lines, k).value.ended
    ensures HexLines(lines, n) == HexLines(lines, k)
  {
    if k < n {
      NothingAfterTheEnd(lines, k, n - 1);
    }
  }

  // A file of any items, ended by a record of type 01, is read as what its producer wrote. Whatever
  // comes behind it is not read.
  lemma TextIsRead(items: seq<Item>, cr: bool, rest: seq<string>)
    requires AllWritable(items)
    ensures var lines := TextOf(items, cr) + [EndLine(cr)] + rest;
            exists upper :: HexLines(lines, |lines|) == Ok(Hex(upper, WritesOf(items), true))
  {
    var lines := TextOf(items, cr) + [EndLine(cr)] + rest;
    var n := |TextOf(items, cr)|;
    ItemsAreRead(lines, items, cr);
    assert Gave(lines, n, WritesOf(items));
    var upper :| HexLines(lines, n) == Ok(Hex(upper, WritesOf(items), false));
    assert lines[n] == EndLine(cr);
    LineIsRead(Hex(upper, WritesOf(items), false), RecordOf(1, 0, []), cr);
    NothingAfterTheEnd(lines, n + 1, |lines|);
    assert HexLines(lines, |lines|) == Ok(Hex(upper, WritesOf(items), true));
  }

  // From text to UF2 blocks and back to memory.
  lemma TextRoundTrip(items: seq<Item>, cr: bool, rest: seq<string>, family: int, h: Hex, buf: Bytes)
    requires AllWritable(items)
    requires var lines := TextOf(items, cr) + [EndLine(cr)] + rest; HexLines(lines, |lines|) == Ok(h)
    requires Encode(PagesOf(h.writes), family) == Ok(buf)
    ensures h.writes == WritesOf(items) && (Decode(buf).Ok? <==> Ascending(WritesOf(items)))
    ensures WritesOf(items) != [] && Ascending(WritesOf(items)) ==>
              var first := Base(WritesOf(items)[0].addr);
              Decode(buf).value.start == Some(first) && ImageOf(Decode(buf).value.outp, first, WritesOf(items))
  {
    TextIsRead(items, cr, rest);
    HexRoundTrip(TextOf(items, cr) + [EndLine(cr)] + rest, family, h, buf);
  }
}
