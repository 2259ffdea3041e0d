/**
 The bytes of the examples in the Modbus Application Protocol Specification V1.1b3: what the
 model writes is what the protocol writes down.
 */
module ModbusSamples {
  import opened Common
  import Crc
  import CrcTables
  import opened ModbusFrame
  import opened ModbusPdu
  import opened ModbusMeaning

  lemma BitBefore(b: Bit, s: seq<Bit>, v: nat)
    requires FromBits(s) == v
    ensures FromBits([b] + s) == b + 2 * v
  {
    assert ([b] + s)[1..] == s;
  }

  lemma FourBits(a: Bit, b: Bit, c: Bit, d: Bit, s: seq<Bit>, v: nat)
    requires FromBits(s) == v
    ensures FromBits([a] + ([b] + ([c] + ([d] + s)))) == a + 2 * b + 4 * c + 8 * d + 16 * v
  {
    BitBefore(d, s, v);
    BitBefore(c, [d] + s, d + 2 * v);
    BitBefore(b, [c] + ([d] + s), c + 2 * (d + 2 * v));
    BitBefore(a, [b] + ([c] + ([d] + s)), b + 2 * (c + 2 * (d + 2 * v)));
  }

  lemma FourMore(a: Bit, b: Bit, c: Bit, d: Bit, s: seq<Bit>)
    ensures [a] + ([b] + ([c] + ([d] + s))) == [a, b, c, d] + s
  {
  }

  /** The bits of a byte, the lowest first. */
  lemma EightBits(a: Bit, b: Bit, c: Bit, d: Bit, e: Bit, f: Bit, g: Bit, h: Bit)
    ensures FromBits([a, b, c, d, e, f, g, h]) ==
      a + 2 * b + 4 * c + 8 * d + 16 * (e + 2 * f + 4 * g + 8 * h)
  {
    assert FromBits([]) == 0;
    hide FromBits;
    FourBits(e, f, g, h, [], 0);
    FourMore(e, f, g, h, []);
    assert [e, f, g, h] + [] == [e, f, g, h];
    FourBits(a, b, c, d, [e, f, g, h], e + 2 * f + 4 * g + 8 * h);
    FourMore(a, b, c, d, [e, f, g, h]);
    assert [a, b, c, d] + [e, f, g, h] == [a, b, c, d, e, f, g, h];
  }

  /** Two full bytes and one that is not. */
  lemma Packed(a: seq<Bit>, b: seq<Bit>, c: seq<Bit>)
    requires |a| == 8 && |b| == 8 && 0 < |c| <= 8
    ensures PackBits(a + b + c) == [FromBits(a), FromBits(b), FromBits(c)]
  {
    hide FromBits;
    var bits := a + b + c;
    assert Bytes(|bits|) == 3;
    assert Group(bits, 0) == a && Group(bits, 1) == b && Group(bits, 2) == c;
  }

  lemma PackedTwo(a: seq<Bit>, c: seq<Bit>)
    requires |a| == 8 && 0 < |c| <= 8
    ensures PackBits(a + c) == [FromBits(a), FromBits(c)]
  {
    hide FromBits;
    var bits := a + c;
    assert Bytes(|bits|) == 2;
    assert Group(bits, 0) == a && Group(bits, 1) == c;
  }

  lemma Nineteen()
    ensures PackBits([1, 0, 1, 1, 0, 0, 1, 1] + [1, 1, 0, 1, 0, 1, 1, 0] + [1, 0, 1]) == [0xCD, 0x6B, 0x05]
  {
    assert FromBits([1, 0, 1]) == 5;
    hide FromBits, PackBits;
    EightBits(1, 0, 1, 1, 0, 0, 1, 1);
    EightBits(1, 1, 0, 1, 0, 1, 1, 0);
    Packed([1, 0, 1, 1, 0, 0, 1, 1], [1, 1, 0, 1, 0, 1, 1, 0], [1, 0, 1]);
  }

  lemma Ten()
    ensures PackBits([1, 0, 1, 1, 0, 0, 1, 1] + [1, 0]) == [0xCD, 0x01]
  {
    assert FromBits([1, 0]) == 1;
    hide FromBits, PackBits;
    EightBits(1, 0, 1, 1, 0, 0, 1, 1);
    PackedTwo([1, 0, 1, 1, 0, 0, 1, 1], [1, 0]);
  }

  /** Section 6.1: coils 20 to 38. */
  lemma ReadCoils()
    ensures RequestPdu(ReadBits(false, 19, 19)) == [0x01, 0x00, 0x13, 0x00, 0x13]
    ensures
      var bits: seq<Bit> := [1, 0, 1, 1, 0, 0, 1, 1] + [1, 1, 0, 1, 0, 1, 1, 0] + [1, 0, 1];
      AnswerPdu(ReadBits(false, 19, 19), Bits(bits)) == [0x01, 0x03, 0xCD, 0x6B, 0x05]
  {
    hide PackBits;
    Nineteen();
  }

  /** Section 6.3: registers 108 to 110. */
  lemma ReadHoldingRegisters()
    ensures RequestPdu(ReadRegisters(false, 107, 3)) == [0x03, 0x00, 0x6B, 0x00, 0x03]
    ensures AnswerPdu(ReadRegisters(false, 107, 3), Words([555, 0, 100])) ==
      [0x03, 0x06, 0x02, 0x2B, 0x00, 0x00, 0x00, 0x64]
  {
  }

  /** Sections 6.2 and 6.4. */
  lemma ReadInputs()
    ensures RequestPdu(ReadBits(true, 196, 22)) == [0x02, 0x00, 0xC4, 0x00, 0x16]
    ensures RequestPdu(ReadRegisters(true, 8, 1)) == [0x04, 0x00, 0x08, 0x00, 0x01]
    ensures AnswerPdu(ReadRegisters(true, 8, 1), Words([10])) == [0x04, 0x02, 0x00, 0x0A]
  {
  }

  /** Sections 6.5 and 6.6: the request is its own answer. */
  lemma WriteSingle()
    ensures RequestPdu(WriteBit(172, 0xFF00)) == [0x05, 0x00, 0xAC, 0xFF, 0x00]
    ensures AnswerPdu(WriteBit(172, 0xFF00), Done) == [0x05, 0x00, 0xAC, 0xFF, 0x00]
    ensures RequestPdu(WriteRegister(1, 3)) == [0x06, 0x00, 0x01, 0x00, 0x03]
    ensures AnswerPdu(WriteRegister(1, 3), Done) == [0x06, 0x00, 0x01, 0x00, 0x03]
  {
  }

  /** Section 6.11: coils 20 to 29. */
  lemma WriteCoils()
    ensures
      var q := WriteBits(19, 10, [1, 0, 1, 1, 0, 0, 1, 1] + [1, 0]);
      RequestPdu(q) == [0x0F, 0x00, 0x13, 0x00, 0x0A, 0x02, 0xCD, 0x01] &&
      AnswerPdu(q, Done) == [0x0F, 0x00, 0x13, 0x00, 0x0A]
  {
    hide PackBits;
    Ten();
  }

  /** Section 6.12: registers 2 and 3. */
  lemma WriteTwoRegisters()
    ensures
      var q := WriteRegisters(1, 2, [10, 258]);
      RequestPdu(q) == [0x10, 0x00, 0x01, 0x00, 0x02, 0x04, 0x00, 0x0A, 0x01, 0x02] &&
      AnswerPdu(q, Done) == [0x10, 0x00, 0x01, 0x00, 0x02]
  {
  }

  /** Section 6.16. */
  lemma MaskWriteRegister()
    ensures
      var q := MaskWrite(4, 0x00F2, 0x0025);
      RequestPdu(q) == [0x16, 0x00, 0x04, 0x00, 0xF2, 0x00, 0x25] &&
      AnswerPdu(q, Done) == [0x16, 0x00, 0x04, 0x00, 0xF2, 0x00, 0x25] &&
      Masked(0x0012, 0x00F2, 0x0025) == 0x0017
  {
  }

  lemma ThreeWords()
    ensures Spread([255, 255, 255]) == [0x00, 0xFF, 0x00, 0xFF, 0x00, 0xFF]
  {
  }

  lemma SixWords()
    ensures Spread([254, 2765, 1, 3, 13, 255]) ==
      [0x00, 0xFE, 0x0A, 0xCD, 0x00, 0x01, 0x00, 0x03, 0x00, 0x0D, 0x00, 0xFF]
  {
  }

  lemma BothRequest(q: Request)
    requires q == WriteAndRead(3, 6, 14, 3, 6, [255, 255, 255])
    ensures RequestPdu(q) ==
      [0x17, 0x00, 0x03, 0x00, 0x06, 0x00, 0x0E, 0x00, 0x03, 0x06, 0x00, 0xFF, 0x00, 0xFF, 0x00, 0xFF]
  {
    ThreeWords();
    hide Spread;
  }

  lemma BothAnswer(q: Request, a: Answer)
    requires q == WriteAndRead(3, 6, 14, 3, 6, [255, 255, 255]) && a == Words([254, 2765, 1, 3, 13, 255])
    ensures Fits(q, a) && AnswerPdu(q, a) ==
      [0x17, 0x0C, 0x00, 0xFE, 0x0A, 0xCD, 0x00, 0x01, 0x00, 0x03, 0x00, 0x0D, 0x00, 0xFF]
  {
    SixWords();
    hide Spread;
  }

  /** Section 6.17: six registers from 4 on are read, and three from 15 on written. */
  lemma ReadAndWriteRegisters(q: Request, a: Answer)
    requires q == WriteAndRead(3, 6, 14, 3, 6, [255, 255, 255]) && a == Words([254, 2765, 1, 3, 13, 255])
    ensures RequestPdu(q) ==
      [0x17, 0x00, 0x03, 0x00, 0x06, 0x00, 0x0E, 0x00, 0x03, 0x06, 0x00, 0xFF, 0x00, 0xFF, 0x00, 0xFF]
    ensures Fits(q, a) && AnswerPdu(q, a) ==
      [0x17, 0x0C, 0x00, 0xFE, 0x0A, 0xCD, 0x00, 0x01, 0x00, 0x03, 0x00, 0x0D, 0x00, 0xFF]
  {
    BothRequest(q);
    BothAnswer(q, a);
    hide RequestPdu, AnswerPdu, Spread;
  }

  /** Section 7: an exception answers with the function code and the highest bit. */
  lemma ExceptionAnswer()
    ensures AnswerPdu(ReadBits(false, 0x04A1, 1), Exception(2)) == [0x81, 0x02]
  {
  }

  // ---- Checksums and frames ----

  lemma Begun()
    ensures Crc.Register([]) == 0xFFFF
  {
  }

  /** The register after each byte of a message. */
  lemma {:induction false} Fed(msg: seq<CrcTables.Byte>, regs: seq<bv16>)
    requires |regs| == |msg| + 1 && regs[0] == 0xFFFF
    requires forall i :: 0 <= i < |msg| ==> Feeds(regs[i], msg[i], regs[i + 1])
    ensures Crc.Register(msg) == regs[|msg|]
    decreases |msg|
  {
    hide CrcTables.Step8;
    if msg == [] {
      Begun();
    } else {
      hide Crc.Register;
      var n := |msg| - 1;
      assert Feeds(regs[n], msg[n], regs[n + 1]);
      Fed(msg[..n], regs[..|msg|]);
      Crc.RegisterByte(msg[..n], msg[n]);
      assert msg[..n] + [msg[n]] == msg;
    }
  }

  predicate Feeds(r: bv16, b: CrcTables.Byte, r': bv16) {
    CrcTables.Step8(r ^ b) == r'
  }

  /** The check value of CRC-16/MODBUS: the register after the digits 1 to 9. */
  lemma CheckValue()
    ensures Crc.Register([0x31, 0x32, 0x33, 0x34, 0x35, 0x36, 0x37, 0x38, 0x39]) == 0x4B37
  {
    var msg: seq<CrcTables.Byte> := [0x31, 0x32, 0x33, 0x34, 0x35, 0x36, 0x37, 0x38, 0x39];
    var regs: seq<bv16> := [0xFFFF, 0x947E, 0xF595, 0x7A75, 0x30BA, 0xA471, 0x32E4, 0x9D73, 0x37DD, 0x4B37];
    assert Feeds(0xFFFF, 0x31, 0x947E);
    assert Feeds(0x947E, 0x32, 0xF595);
    assert Feeds(0xF595, 0x33, 0x7A75);
    assert Feeds(0x7A75, 0x34, 0x30BA);
    assert Feeds(0x30BA, 0x35, 0xA471);
    assert Feeds(0xA471, 0x36, 0x32E4);
    assert Feeds(0x32E4, 0x37, 0x9D73);
    assert Feeds(0x9D73, 0x38, 0x37DD);
    assert Feeds(0x37DD, 0x39, 0x4B37);
    hide Feeds, Crc.Register;
    Fed(msg, regs);
  }

  /** A request to read ten registers, with its checksum. */
  lemma RequestSum()
    ensures Crc.Register([0x01, 0x03, 0x00, 0x00, 0x00, 0x0A, 0xC5, 0xCD]) == 0x0000
  {
    var msg: seq<CrcTables.Byte> := [0x01, 0x03, 0x00, 0x00, 0x00, 0x0A, 0xC5, 0xCD];
    var regs: seq<bv16> := [0xFFFF, 0x807E, 0x2140, 0xF020, 0xD8F1, 0x8419, 0xCDC5, 0x00CD, 0x0000];
    assert Feeds(0xFFFF, 0x01, 0x807E);
    assert Feeds(0x807E, 0x03, 0x2140);
    assert Feeds(0x2140, 0x00, 0xF020);
    assert Feeds(0xF020, 0x00, 0xD8F1);
    assert Feeds(0xD8F1, 0x00, 0x8419);
    assert Feeds(0x8419, 0x0A, 0xCDC5);
    assert Feeds(0xCDC5, 0xC5, 0x00CD);
    assert Feeds(0x00CD, 0xCD, 0x0000);
    hide Feeds, Crc.Register;
    Fed(msg, regs);
  }

  lemma OnTheWire()
    ensures Wire([0x01, 0x03, 0x00, 0x00, 0x00, 0x0A, 0xC5, 0xCD]) == [0x01, 0x03, 0x00, 0x00, 0x00, 0x0A, 0xC5, 0xCD]
  {
  }

  lemma TenRegisters()
    ensures RequestPdu(ReadRegisters(false, 0, 10)) == [0x03, 0x00, 0x00, 0x00, 0x0A]
  {
  }

  /** On a serial line: the device, the request, and the checksum with its low byte first. */
  lemma SerialFrame(tid: Word)
    ensures IsFrame(Rtu, 1, tid, RequestPdu(ReadRegisters(false, 0, 10)),
      [0x01, 0x03, 0x00, 0x00, 0x00, 0x0A, 0xC5, 0xCD])
  {
    hide Crc.Register, Wire, RequestPdu;
    TenRegisters();
    RequestSum();
    OnTheWire();
    var frame: seq<Byte> := [0x01, 0x03, 0x00, 0x00, 0x00, 0x0A, 0xC5, 0xCD];
    assert frame[..6] == [1] + [0x03, 0x00, 0x00, 0x00, 0x0A];
  }

  /** Over TCP: the transaction, the protocol, the length of the rest, the device, the request. */
  lemma TcpFrame()
    ensures IsFrame(Tcp, 0x11, 1, RequestPdu(ReadRegisters(false, 107, 3)),
      [0x00, 0x01, 0x00, 0x00, 0x00, 0x06, 0x11, 0x03, 0x00, 0x6B, 0x00, 0x03])
  {
  }
}
