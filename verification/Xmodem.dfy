// The XMODEM adapter: one class plays both roles, sender and receiver.
module Xmodem {
  import opened Basics
  import opened Crc

  const CHUNK := 128       // capacity of a packet's byte buffer
  const MAXRETRANS := 25

  type SeqNo = n: nat | n < 0x1_0000   // uint16_t
  type Name = seq<Byte>
  type Files = map<Name, seq<Byte>>

  datatype Control = NUL | SOH | STX | EOT | ACK | NAK | CAN | CTRLZ

  datatype Packet = Packet(control: Control, seqno: SeqNo, crc16: Word, buffer: seq<Byte>)

  datatype File = Closed | Reader(name: Name, pos: nat) | Writer(name: Name)

  datatype Device = Device(
    isReceiving: bool,
    isTransmitting: bool,
    isEOT: bool,
    retrans: int,
    packetno: SeqNo,
    store: Packet,
    file: File,
    filename: Name,
    fs: Files)

  function ControlPacket(c: Control): Packet {
    Packet(c, 0, ZERO, [])
  }

  // memcpy of the first packet's bytes over the name buffer.
  function CopyName(before: Name, bytes: seq<Byte>): Name {
    if |bytes| < |before| then bytes + before[|bytes|..] else bytes
  }

  // What a read of one buffer's worth returns at the current position.
  function ReadChunk(fs: Files, file: File): seq<Byte> {
    if file.Reader? && file.name in fs && file.pos <= |fs[file.name]| then
      var data := fs[file.name];
      data[file.pos..if file.pos + CHUNK <= |data| then file.pos + CHUNK else |data|]
    else []
  }

  // A seek outside the file fails and leaves the position alone.
  function Seek(fs: Files, file: File, target: int): File {
    if file.Reader? && file.name in fs && 0 <= target <= |fs[file.name]| then file.(pos := target) else file
  }

  function Advance(file: File, n: nat): File {
    if file.Reader? then file.(pos := file.pos + n) else file
  }

  function Write(fs: Files, file: File, bytes: seq<Byte>): Files {
    if file.Writer? && file.name in fs then fs[file.name := fs[file.name] + bytes] else fs
  }

  // ---- What one packet does -------------------------------------------------------------

  type Outcome = (Device, Option<Packet>)

  function Reply(d: Device, c: Control): Outcome {
    (d.(store := ControlPacket(c)), Some(ControlPacket(c)))
  }

  // Read the next chunk, remember it as the outgoing packet, note a short (last) one.
  function SendChunk(d: Device): Outcome {
    var bytes := ReadChunk(d.fs, d.file);
    var p := Packet(SOH, d.packetno, CrcOf(bytes), bytes);
    (d.(store := p, file := Advance(d.file, |bytes|), isEOT := d.isEOT || |bytes| < CHUNK), Some(p))
  }

  function HandleOpen(d: Device, p: Packet, opens: bool): Outcome {
    var name := CopyName(d.filename, p.buffer);
    if p.control == SOH then
      if opens then
        Reply(d.(filename := name, fs := d.fs[name := []], file := Writer(name), isReceiving := true, packetno := 1),
              ACK)
      else Reply(d.(filename := name, file := Closed, isReceiving := false), NAK)
    else if opens && name in d.fs then
      SendChunk(d.(filename := name, file := Reader(name, 0), packetno := 1, isTransmitting := true))
    else Reply(d.(filename := name, file := Closed, isTransmitting := false), NAK)
  }

  function HandleData(d: Device, p: Packet): Outcome {
    if d.isReceiving then
      if p.seqno == d.packetno && Check(p.buffer, p.crc16) then
        Reply(d.(fs := Write(d.fs, d.file, p.buffer), packetno := (d.packetno + 1) % 0x1_0000), ACK)
      else Reply(d, NAK)
    else if d.isTransmitting then Reply(d.(isTransmitting := false), CAN)
    else (d, None)
  }

  function HandleAck(d: Device): Outcome {
    if !d.isTransmitting then Reply(d, CAN)
    else if d.isEOT then Reply(d.(file := Closed, isTransmitting := false, isEOT := false), EOT)
    else SendChunk(d.(retrans := MAXRETRANS, packetno := (d.packetno + 1) % 0x1_0000))
  }

  function HandleNak(d: Device): Outcome {
    if !d.isTransmitting then Reply(d, CAN)
    else if d.retrans - 1 <= 0 then Reply(d.(retrans := d.retrans - 1, file := Closed, isTransmitting := false), CAN)
    else SendChunk(d.(retrans := d.retrans - 1, file := Seek(d.fs, d.file, (d.packetno - 1) * CHUNK)))
  }

  function Handle(d: Device, p: Packet, opens: bool): Outcome {
    match p.control
    case SOH | STX =>
      if p.seqno == 0 && !d.isReceiving && !d.isTransmitting then HandleOpen(d, p, opens) else HandleData(d, p)
    case EOT => Reply(d.(file := Closed, isReceiving := false), ACK)
    case CAN => Reply(d.(file := Closed, fs := d.fs - {d.filename}, isReceiving := false), ACK)
    case ACK => HandleAck(d)
    case NAK => HandleNak(d)
    case NUL | CTRLZ => (d, None)
  }

  // ---- The adapter object ---------------------------------------------------------------

  class XModemAdapter {
    var isReceiving: bool
    var isTransmitting: bool
    var isEOT: bool
    var retrans: int
    var packetno: SeqNo
    var xmodemStore: Packet
    var file: File
    var filename: Name
    var fs: Files

    ghost function State(): Device
      reads this
    {
      Device(isReceiving, isTransmitting, isEOT, retrans, packetno, xmodemStore, file, filename, fs)
    }

    constructor (files: Files)
      ensures State() == Device(false, false, false, MAXRETRANS, 0, ControlPacket(NUL), Closed, [], files)
    {
      isReceiving, isTransmitting, isEOT := false, false, false;
      retrans, packetno := MAXRETRANS, 0;
      xmodemStore, file, filename, fs := ControlPacket(NUL), Closed, [], files;
    }

    // Every path that notifies the observers hands them the packet just stored.
    method SendControl(c: Control) returns (sent: Option<Packet>)
      modifies `xmodemStore
      ensures (State(), sent) == Reply(old(State()), c)
    {
      xmodemStore := ControlPacket(c);
      sent := Some(xmodemStore);
    }

    method SendNextChunk() returns (sent: Option<Packet>)
      modifies `xmodemStore, `file, `isEOT
      ensures (State(), sent) == SendChunk(old(State()))
    {
      var bytes := ReadChunk(fs, file);
      file := Advance(file, |bytes|);
      var crc := Crc16Ccitt(bytes, |bytes|);
      assert bytes[..|bytes|] == bytes;
      xmodemStore := Packet(SOH, packetno, crc, bytes);
      if |bytes| < CHUNK {
        isEOT := true;
      }
      sent := Some(xmodemStore);
    }

    method Open(p: Packet, opens: bool) returns (sent: Option<Packet>)
      modifies this
      ensures (State(), sent) == HandleOpen(old(State()), p, opens)
    {
      filename := CopyName(filename, p.buffer);
      if p.control == SOH {
        if opens {
          fs, file := fs[filename := []], Writer(filename);
          sent := SendControl(ACK);
          isReceiving := true;
          packetno := 1;
        } else {
          file := Closed;
          sent := SendControl(NAK);
          isReceiving := false;
        }
      } else {
        if opens && filename in fs {
          file := Reader(filename, 0);
          packetno := 1;
          isTransmitting := true;
          sent := SendNextChunk();
        } else {
          file := Closed;
          sent := SendControl(NAK);
          isTransmitting := false;
        }
      }
    }

    method Data(p: Packet) returns (sent: Option<Packet>)
      modifies this
      ensures (State(), sent) == HandleData(old(State()), p)
    {
      sent := None;
      if isReceiving {
        if p.seqno == packetno && Check(p.buffer, p.crc16) {
          fs := Write(fs, file, p.buffer);
          sent := SendControl(ACK);
          packetno := (packetno + 1) % 0x1_0000;
        } else {
          sent := SendControl(NAK);
        }
      } else if isTransmitting {
        sent := SendControl(CAN);
        isTransmitting := false;
      }
    }

    method Acknowledged() returns (sent: Option<Packet>)
      modifies this
      ensures (State(), sent) == HandleAck(old(State()))
    {
      if isTransmitting {
        if isEOT {
          sent := SendControl(EOT);
          file := Closed;
          isTransmitting := false;
          isEOT := false;
        } else {
          retrans := MAXRETRANS;
          packetno := (packetno + 1) % 0x1_0000;
          sent := SendNextChunk();
        }
      } else {
        sent := SendControl(CAN);
      }
    }

    method Refused() returns (sent: Option<Packet>)
      modifies this
      ensures (State(), sent) == HandleNak(old(State()))
    {
      if isTransmitting {
        retrans := retrans - 1;
        if retrans <= 0 {
          sent := SendControl(CAN);
          file := Closed;
          isTransmitting := false;
        } else {
          file := Seek(fs, file, (packetno - 1) * CHUNK);
          sent := SendNextChunk();
        }
      } else {
        sent := SendControl(CAN);
      }
    }

    method HandlePacket(p: Packet, opens: bool) returns (sent: Option<Packet>)
      modifies this
      ensures (State(), sent) == Handle(old(State()), p, opens)
    {
      sent := None;
      match p.control {
        case SOH | STX =>
          if p.seqno == 0 && !isReceiving && !isTransmitting {
            sent := Open(p, opens);
          } else {
            sent := Data(p);
          }
        case EOT =>
          sent := SendControl(ACK);
          file := Closed;
          isReceiving := false;
        case CAN =>
          sent := SendControl(ACK);
          file := Closed;
          fs := fs - {filename};
          isReceiving := false;
        case ACK =>
          sent := Acknowledged();
        case NAK =>
          sent := Refused();
        case NUL | CTRLZ =>
      }
    }
  }
}
