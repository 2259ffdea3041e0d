/**
 The server of `modbus.c`: the tables of a device, and what it does about a request.
 */
module ModbusServer {
  import opened Common
  import opened ModbusPdu
  import opened ModbusFrame
  import opened ModbusMeaning

  class Mapping {
    const startBits: nat
    const startInputBits: nat
    const startRegisters: nat
    const startInputRegisters: nat
    const bits: array<Bit>
    const inputBits: array<Bit>
    const registers: array<Word>
    const inputRegisters: array<Word>

    /** The tables are apart. */
    ghost predicate Valid() {
      bits != inputBits && registers != inputRegisters &&
      (bits as object) != registers && (bits as object) != inputRegisters &&
      (inputBits as object) != registers && (inputBits as object) != inputRegisters
    }

    ghost function Tables(): Tables
      reads bits, inputBits, registers, inputRegisters
    {
      ModbusPdu.Tables(bits[..], inputBits[..], registers[..], inputRegisters[..],
        startBits, startInputBits, startRegisters, startInputRegisters)
    }

    /** `modbus_mapping_new_start_address`. */
    constructor (startBits: nat, nbBits: nat, startInputBits: nat, nbInputBits: nat,
        startRegisters: nat, nbRegisters: nat, startInputRegisters: nat, nbInputRegisters: nat)
      ensures Valid() && fresh(bits) && fresh(inputBits) && fresh(registers) && fresh(inputRegisters)
      ensures Tables() == ModbusPdu.Tables(seq(nbBits, _ => 0), seq(nbInputBits, _ => 0), seq(nbRegisters, _ => 0),
        seq(nbInputRegisters, _ => 0), startBits, startInputBits, startRegisters, startInputRegisters)
    {
      this.startBits, this.startInputBits := startBits, startInputBits;
      this.startRegisters, this.startInputRegisters := startRegisters, startInputRegisters;
      bits, inputBits := new Bit[nbBits](_ => 0), new Bit[nbInputBits](_ => 0);
      registers, inputRegisters := new Word[nbRegisters](_ => 0), new Word[nbInputRegisters](_ => 0);
    }
  }

  /** A message under construction holds `pdu` so far. */
  ghost predicate Built(b: Backend, slave: Byte, tid: Word, s: seq<Byte>, pdu: seq<Byte>) {
    Headed(b, slave, tid, s) && s[HeaderLength(b)..] == pdu
  }

  lemma BuiltMore(b: Backend, slave: Byte, tid: Word, s: seq<Byte>, pdu: seq<Byte>, bytes: seq<Byte>)
    requires Built(b, slave, tid, s, pdu)
    ensures Built(b, slave, tid, s + bytes, pdu + bytes)
  {
    HeadedMore(b, slave, tid, s, bytes);
  }

  /** Adds bytes to a message. */
  method Add(b: Backend, msg: array<Byte>, n: nat, bytes: seq<Byte>, ghost slave: Byte, ghost tid: Word,
      ghost pdu: seq<Byte>)
    returns (n': nat)
    requires n + |bytes| <= msg.Length && Built(b, slave, tid, msg[..n], pdu)
    modifies msg
    ensures n' == n + |bytes| && Built(b, slave, tid, msg[..n'], pdu + bytes)
  {
    hide Built;
    BuiltMore(b, slave, tid, msg[..n], pdu, bytes);
    n' := Put(msg, n, bytes);
  }

  /** The beginning of an answer. */
  method BuildResponseBasis(b: Backend, slave: Byte, tid: Word, fn: Byte, rsp: array<Byte>) returns (n: nat)
    requires rsp.Length == MAX_MESSAGE_LENGTH
    modifies rsp
    ensures n == HeaderLength(b) + 1 && Built(b, slave, tid, rsp[..n], [fn])
  {
    n := BuildBasis(b, slave, tid, fn, rsp);
    assert rsp[..n][HeaderLength(b)..] == rsp[HeaderLength(b)..n];
  }

  // ---- Tables to bytes and back ----

  /** The bits that wait for byte `j` to be full. */
  function Pending(bits: seq<Bit>, j: nat, k: nat): (g: seq<Bit>)
    requires 8 * j + k <= |bits|
    ensures |g| == k
  {
    bits[8 * j..8 * j + k]
  }

  lemma PendingMore(bits: seq<Bit>, j: nat, k: nat)
    requires 8 * j + k < |bits|
    ensures FromBits(Pending(bits, j, k + 1)) == FromBits(Pending(bits, j, k)) + bits[8 * j + k] * Power(k)
  {
    FromBitsMore(Pending(bits, j, k), bits[8 * j + k]);
    assert Pending(bits, j, k + 1) == Pending(bits, j, k) + [bits[8 * j + k]];
  }

  lemma NothingPending(bits: seq<Bit>, j: nat)
    requires 8 * j <= |bits|
    ensures FromBits(Pending(bits, j, 0)) == 0
  {
  }

  /** A full byte, or the last one. */
  lemma PendingFull(bits: seq<Bit>, j: nat, k: nat)
    requires 8 * j + k <= |bits| && 0 < k <= 8 && (k == 8 || 8 * j + k == |bits|)
    ensures j < Bytes(|bits|) && PackBits(bits)[j] == FromBits(Pending(bits, j, k)) < 256
  {
    BytesOf(|bits|, |bits| / 8, |bits| % 8);
    assert Group(bits, j) == Pending(bits, j, k);
    assert PackBits(bits)[j] == GroupByte(Group(bits, j));
  }

  lemma BytesOf(n: nat, j: nat, k: nat)
    requires n == 8 * j + k && k < 8
    ensures Bytes(n) == if k == 0 then j else j + 1
  {
  }

  /** `response_io_status`: the bits of a table, eight to a byte, the lowest first. */
  method ResponseIoStatus(tab: array<Bit>, address: nat, nb: nat, rsp: array<Byte>, offset: nat) returns (n: nat)
    requires address + nb <= tab.Length && offset + Bytes(nb) <= rsp.Length && (rsp as object) != tab
    modifies rsp
    ensures n == offset + Bytes(nb) && rsp[..n] == old(rsp[..offset]) + PackBits(tab[address..address + nb])
  {
    hide FromBits, Group, Pending, PackBits, Bytes, Power;
    ghost var bits := tab[address..address + nb];
    ghost var packed, j := PackBits(bits), 0;
    var shift, oneByte := 0, 0;
    n := offset;
    NothingPending(bits, 0);
    var i := 0;
    while i < nb
      invariant 0 <= i <= nb && i == 8 * j + shift && shift < 8 && n == offset + j &&
        oneByte == FromBits(Pending(bits, j, shift))
      invariant j <= |packed| && rsp[..n] == old(rsp[..offset]) + packed[..j]
    {
      PendingMore(bits, j, shift);
      oneByte := oneByte + tab[address + i] * Power(shift);
      if shift == 7 {
        PendingFull(bits, j, 8);
        n := Put(rsp, n, [oneByte]);
        assert packed[..j] + [packed[j]] == packed[..j + 1];
        j := j + 1;
        oneByte, shift := 0, 0;
        NothingPending(bits, j);
      } else {
        shift := shift + 1;
      }
      i := i + 1;
    }
    BytesOf(nb, j, shift);
    if shift != 0 {
      PendingFull(bits, j, shift);
      n := Put(rsp, n, [oneByte]);
      assert packed[..j] + [packed[j]] == packed;
    } else {
      assert packed[..j] == packed;
    }
  }

  /** Registers go out high byte first. */
  method ResponseRegisters(tab: array<Word>, address: nat, nb: nat, rsp: array<Byte>, offset: nat) returns (n: nat)
    requires address + nb <= tab.Length && offset + 2 * nb <= rsp.Length && (rsp as object) != tab
    modifies rsp
    ensures n == offset + 2 * nb && rsp[..n] == old(rsp[..offset]) + Spread(tab[address..address + nb])
  {
    hide Spread;
    ghost var words := tab[address..address + nb];
    n := offset;
    var i := 0;
    while i < nb
      invariant 0 <= i <= nb && n == offset + 2 * i
      invariant rsp[..n] == old(rsp[..offset]) + Spread(words)[..2 * i]
    {
      n := Put(rsp, n, [High(tab[address + i]), Low(tab[address + i])]);
      SpreadAt(words, i);
      assert Spread(words)[..2 * (i + 1)] == Spread(words)[..2 * i] + [High(words[i]), Low(words[i])];
      i := i + 1;
    }
    assert Spread(words)[..2 * nb] == Spread(words);
  }

  /** `modbus_set_bits_from_bytes`. */
  method SetBitsFromBytes(dest: array<Bit>, idx: nat, nb: nat, tabByte: seq<Byte>)
    requires idx + nb <= dest.Length && |tabByte| >= Bytes(nb)
    modifies dest
    ensures dest[..] == Overwrite(old(dest[..]), idx, UnpackBits(tabByte, nb))
  {
    hide Overwrite, UnpackBits;
    ghost var bits := UnpackBits(tabByte, nb);
    var shift := 0;
    var i := 0;
    NoneYet(dest[..], idx);
    while i < nb
      invariant 0 <= i <= nb && shift == i % 8
      invariant dest[..] == Overwrite(old(dest[..]), idx, bits[..i])
    {
      UnpackAt(tabByte, nb, i);
      dest[idx + i] := BitAt(tabByte[i / 8], shift);
      OneMore(old(dest[..]), idx, bits, i);
      shift := (shift + 1) % 8;
      i := i + 1;
    }
    assert bits[..nb] == bits;
  }

  lemma UnpackAt(s: seq<Byte>, n: nat, i: nat)
    requires |s| >= Bytes(n) && i < n
    ensures i / 8 < |s| && UnpackBits(s, n)[i] == BitAt(s[i / 8], i % 8)
  {
  }

  lemma NoneYet<T>(table: seq<T>, idx: nat)
    requires idx <= |table|
    ensures Overwrite(table, idx, []) == table
  {
  }

  lemma OneMore<T>(table: seq<T>, idx: nat, values: seq<T>, i: nat)
    requires i < |values| && idx + |values| <= |table|
    ensures Overwrite(table, idx, values[..i])[idx + i := values[i]] == Overwrite(table, idx, values[..i + 1])
  {
  }

  method SetRegisters(dest: array<Word>, idx: nat, nb: nat, tabByte: seq<Byte>)
    requires idx + nb <= dest.Length && |tabByte| >= 2 * nb
    modifies dest
    ensures dest[..] == Overwrite(old(dest[..]), idx, Gather(tabByte, nb))
  {
    hide Overwrite;
    ghost var words := Gather(tabByte, nb);
    var i := 0;
    NoneYet(dest[..], idx);
    while i < nb
      invariant 0 <= i <= nb
      invariant dest[..] == Overwrite(old(dest[..]), idx, words[..i])
    {
      dest[idx + i] := Join(tabByte[2 * i], tabByte[2 * i + 1]);
      OneMore(old(dest[..]), idx, words, i);
      i := i + 1;
    }
    assert words[..nb] == words;
  }

  // ---- Answers ----

  class Server {
    const b: Backend
    const slave: Byte
    const mapping: Mapping

    constructor (b: Backend, slave: Byte, mapping: Mapping)
      ensures this.b == b && this.slave == slave && this.mapping == mapping
    {
      this.b, this.slave, this.mapping := b, slave, mapping;
    }

    /** The buffer for the answer is none of the tables. */
    ghost predicate Apart(rsp: array<Byte>) {
      mapping.Valid() && rsp.Length == MAX_MESSAGE_LENGTH &&
      (rsp as object) !in {mapping.bits as object, mapping.inputBits as object, mapping.registers as object,
        mapping.inputRegisters as object}
    }

    lemma AnswerLength(to: Byte, tid: Word, rsp: seq<Byte>, q: Request, t: Tables, t': Tables)
      requires Answers(to, tid, rsp, q, t, t')
      ensures HeaderLength(b) < |rsp| <= HeaderLength(b) + MAX_PDU_LENGTH && Headed(b, to, tid, rsp)
      ensures rsp[HeaderLength(b)..] == AnswerPdu(q, Perform(t, q).0) && t' == Perform(t, q).1
    {
    }

    /** The answer that belongs to what becomes of the request. */
    ghost predicate Answers(to: Byte, tid: Word, rsp: seq<Byte>, q: Request, t: Tables, t': Tables) {
      Complete(q) && !Strays(t, q) && t' == Perform(t, q).1 &&
      Fits(q, Perform(t, q).0) && Built(b, to, tid, rsp, AnswerPdu(q, Perform(t, q).0))
    }

    method AnswerException(fn: Byte, code: Byte, to: Byte, tid: Word, rsp: array<Byte>) returns (n: nat)
      requires rsp.Length == MAX_MESSAGE_LENGTH
      modifies rsp
      ensures n == HeaderLength(b) + 2 && Built(b, to, tid, rsp[..n], [(fn + 128) % 256, code])
    {
      hide Built;
      n := BuildResponseBasis(b, to, tid, (fn + 128) % 256, rsp);
      n := Add(b, rsp, n, [code], to, tid, [(fn + 128) % 256]);
      assert [(fn + 128) % 256] + [code] == [(fn + 128) % 256, code];
    }

    method AnswerBits(fn: Byte, tab: array<Bit>, address: nat, nb: nat, to: Byte, tid: Word,
        rsp: array<Byte>) returns (n: nat)
      requires rsp.Length == MAX_MESSAGE_LENGTH && address + nb <= tab.Length && nb <= MAX_READ_BITS &&
        (rsp as object) != tab
      modifies rsp
      ensures n <= rsp.Length && Built(b, to, tid, rsp[..n], [fn, Bytes(nb)] + PackBits(tab[address..address + nb]))
    {
      hide PackBits, Built;
      n := BuildResponseBasis(b, to, tid, fn, rsp);
      n := Add(b, rsp, n, [Bytes(nb)], to, tid, [fn]);
      assert [fn] + [Bytes(nb)] == [fn, Bytes(nb)];
      BuiltMore(b, to, tid, rsp[..n], [fn, Bytes(nb)], PackBits(tab[address..address + nb]));
      n := ResponseIoStatus(tab, address, nb, rsp, n);
    }

    method AnswerWords(fn: Byte, tab: array<Word>, address: nat, nb: nat, to: Byte, tid: Word,
        rsp: array<Byte>) returns (n: nat)
      requires rsp.Length == MAX_MESSAGE_LENGTH && address + nb <= tab.Length && nb <= MAX_READ_REGISTERS &&
        (rsp as object) != tab
      modifies rsp
      ensures n <= rsp.Length && Built(b, to, tid, rsp[..n], [fn, 2 * nb] + Spread(tab[address..address + nb]))
    {
      hide Spread, Built;
      n := BuildResponseBasis(b, to, tid, fn, rsp);
      n := Add(b, rsp, n, [2 * nb], to, tid, [fn]);
      assert [fn] + [2 * nb] == [fn, 2 * nb];
      BuiltMore(b, to, tid, rsp[..n], [fn, 2 * nb], Spread(tab[address..address + nb]));
      n := ResponseRegisters(tab, address, nb, rsp, n);
    }

    /** The requests to read a table. */
    method ReadBits(input: bool, addr: Word, nb: Word, to: Byte, tid: Word, rsp: array<Byte>) returns (n: nat)
      requires Apart(rsp)
      modifies rsp
      ensures n <= rsp.Length &&
        Answers(to, tid, rsp[..n], Request.ReadBits(input, addr, nb), old(mapping.Tables()), mapping.Tables())
    {
      hide Headed, Bytes;
      hide Built, PackBits;
      ghost var q := Request.ReadBits(input, addr, nb);
      var start := if input then mapping.startInputBits else mapping.startBits;
      var tab := if input then mapping.inputBits else mapping.bits;
      if nb < 1 || MAX_READ_BITS < nb {
        n := AnswerException(if input then READ_DISCRETE_INPUTS else READ_COILS, ILLEGAL_DATA_VALUE, to, tid, rsp);
      } else if addr - start < 0 || addr - start + nb > tab.Length {
        n := AnswerException(if input then READ_DISCRETE_INPUTS else READ_COILS, ILLEGAL_DATA_ADDRESS, to, tid, rsp);
      } else {
        n := AnswerBits(if input then READ_DISCRETE_INPUTS else READ_COILS, tab, addr - start, nb, to, tid, rsp);
      }
    }

    method ReadRegisters(input: bool, addr: Word, nb: Word, to: Byte, tid: Word, rsp: array<Byte>) returns (n: nat)
      requires Apart(rsp)
      modifies rsp
      ensures n <= rsp.Length &&
        Answers(to, tid, rsp[..n], Request.ReadRegisters(input, addr, nb), old(mapping.Tables()), mapping.Tables())
    {
      hide Built, Spread;
      ghost var q := Request.ReadRegisters(input, addr, nb);
      var start := if input then mapping.startInputRegisters else mapping.startRegisters;
      var tab := if input then mapping.inputRegisters else mapping.registers;
      if nb < 1 || MAX_READ_REGISTERS < nb {
        n := AnswerException(if input then READ_INPUT_REGISTERS else READ_HOLDING_REGISTERS, ILLEGAL_DATA_VALUE, to,
          tid, rsp);
      } else if addr - start < 0 || addr - start + nb > tab.Length {
        n := AnswerException(if input then READ_INPUT_REGISTERS else READ_HOLDING_REGISTERS, ILLEGAL_DATA_ADDRESS, to,
          tid, rsp);
      } else {
        n := AnswerWords(if input then READ_INPUT_REGISTERS else READ_HOLDING_REGISTERS, tab, addr - start, nb, to,
          tid, rsp);
      }
    }

    /** The requests to write one value.  Their answer is the request, `echo`. */
    method WriteBit(addr: Word, data: Word, to: Byte, tid: Word, rsp: array<Byte>, echo: seq<Byte>) returns (n: nat)
      requires Apart(rsp) && |echo| <= rsp.Length &&
        Built(b, to, tid, echo, [WRITE_SINGLE_COIL] + WordBytes(addr) + WordBytes(data))
      modifies rsp, mapping.bits
      ensures n <= rsp.Length &&
        Answers(to, tid, rsp[..n], Request.WriteBit(addr, data), old(mapping.Tables()), mapping.Tables())
    {
      hide Built;
      var i := addr - mapping.startBits;
      if i < 0 || i >= mapping.bits.Length {
        n := AnswerException(WRITE_SINGLE_COIL, ILLEGAL_DATA_ADDRESS, to, tid, rsp);
      } else if data == 0xFF00 || data == 0 {
        mapping.bits[i] := if data != 0 then 1 else 0;
        n := Put(rsp, 0, echo);
        assert rsp[..n] == echo;
      } else {
        n := AnswerException(WRITE_SINGLE_COIL, ILLEGAL_DATA_VALUE, to, tid, rsp);
      }
    }

    method WriteRegister(addr: Word, data: Word, to: Byte, tid: Word, rsp: array<Byte>,
        echo: seq<Byte>) returns (n: nat)
      requires Apart(rsp) && |echo| <= rsp.Length &&
        Built(b, to, tid, echo, [WRITE_SINGLE_REGISTER] + WordBytes(addr) + WordBytes(data))
      modifies rsp, mapping.registers
      ensures n <= rsp.Length &&
        Answers(to, tid, rsp[..n], Request.WriteRegister(addr, data), old(mapping.Tables()), mapping.Tables())
    {
      hide Built;
      var i := addr - mapping.startRegisters;
      if i < 0 || i >= mapping.registers.Length {
        n := AnswerException(WRITE_SINGLE_REGISTER, ILLEGAL_DATA_ADDRESS, to, tid, rsp);
      } else {
        mapping.registers[i] := data;
        n := Put(rsp, 0, echo);
        assert rsp[..n] == echo;
      }
    }

    method MaskWrite(addr: Word, andMask: Word, orMask: Word, to: Byte, tid: Word, rsp: array<Byte>,
        echo: seq<Byte>) returns (n: nat)
      requires Apart(rsp) && |echo| <= rsp.Length &&
        Built(b, to, tid, echo, [MASK_WRITE_REGISTER] + WordBytes(addr) + WordBytes(andMask) + WordBytes(orMask))
      modifies rsp, mapping.registers
      ensures n <= rsp.Length &&
        Answers(to, tid, rsp[..n], Request.MaskWrite(addr, andMask, orMask), old(mapping.Tables()), mapping.Tables())
    {
      hide Built, Masked;
      var i := addr - mapping.startRegisters;
      if i < 0 || i >= mapping.registers.Length {
        n := AnswerException(MASK_WRITE_REGISTER, ILLEGAL_DATA_ADDRESS, to, tid, rsp);
      } else {
        mapping.registers[i] := Masked(mapping.registers[i], andMask, orMask);
        n := Put(rsp, 0, echo);
        assert rsp[..n] == echo;
      }
    }

    /** The requests to write many values.  Their answer repeats the address and the number. */
    method WriteBits(addr: Word, nb: Word, values: seq<Byte>, to: Byte, tid: Word, rsp: array<Byte>) returns (n: nat)
      requires Apart(rsp) && (Allowed(nb, MAX_WRITE_BITS) ==> |values| >= Bytes(nb))
      modifies rsp, mapping.bits
      ensures n <= rsp.Length
      ensures Answers(to, tid, rsp[..n],
        Request.WriteBits(addr, nb, if Allowed(nb, MAX_WRITE_BITS) then UnpackBits(values, nb) else []),
        old(mapping.Tables()), mapping.Tables())
    {
      hide Built, UnpackBits, Overwrite;
      var i := addr - mapping.startBits;
      if nb < 1 || MAX_WRITE_BITS < nb {
        n := AnswerException(WRITE_MULTIPLE_COILS, ILLEGAL_DATA_VALUE, to, tid, rsp);
      } else if i < 0 || i + nb > mapping.bits.Length {
        n := AnswerException(WRITE_MULTIPLE_COILS, ILLEGAL_DATA_ADDRESS, to, tid, rsp);
      } else {
        SetBitsFromBytes(mapping.bits, i, nb, values);
        n := BuildResponseBasis(b, to, tid, WRITE_MULTIPLE_COILS, rsp);
        n := Add(b, rsp, n, WordBytes(addr), to, tid, [WRITE_MULTIPLE_COILS]);
        n := Add(b, rsp, n, WordBytes(nb), to, tid, [WRITE_MULTIPLE_COILS] + WordBytes(addr));
      }
    }

    method WriteRegisters(addr: Word, nb: Word, values: seq<Byte>, to: Byte, tid: Word,
        rsp: array<Byte>) returns (n: nat)
      requires Apart(rsp) && (Allowed(nb, MAX_WRITE_REGISTERS) ==> |values| >= 2 * nb)
      modifies rsp, mapping.registers
      ensures n <= rsp.Length
      ensures Answers(to, tid, rsp[..n],
        Request.WriteRegisters(addr, nb, if Allowed(nb, MAX_WRITE_REGISTERS) then Gather(values, nb) else []),
        old(mapping.Tables()), mapping.Tables())
    {
      hide Built, Gather, Overwrite;
      var i := addr - mapping.startRegisters;
      if nb < 1 || MAX_WRITE_REGISTERS < nb {
        n := AnswerException(WRITE_MULTIPLE_REGISTERS, ILLEGAL_DATA_VALUE, to, tid, rsp);
      } else if i < 0 || i + nb > mapping.registers.Length {
        n := AnswerException(WRITE_MULTIPLE_REGISTERS, ILLEGAL_DATA_ADDRESS, to, tid, rsp);
      } else {
        SetRegisters(mapping.registers, i, nb, values);
        n := BuildResponseBasis(b, to, tid, WRITE_MULTIPLE_REGISTERS, rsp);
        n := Add(b, rsp, n, WordBytes(addr), to, tid, [WRITE_MULTIPLE_REGISTERS]);
        n := Add(b, rsp, n, WordBytes(nb), to, tid, [WRITE_MULTIPLE_REGISTERS] + WordBytes(addr));
      }
    }

    /** Writes first, and reads what is then there. */
    method WriteAndRead(addr: Word, nb: Word, writeAddr: Word, writeNb: Word, count: Byte, values: seq<Byte>,
        to: Byte, tid: Word, rsp: array<Byte>) returns (n: nat)
      requires Apart(rsp) && (Allowed(writeNb, MAX_WR_WRITE_REGISTERS) ==> |values| >= 2 * writeNb)
      requires writeAddr >= mapping.startRegisters
      modifies rsp, mapping.registers
      ensures n <= rsp.Length
      ensures Answers(to, tid, rsp[..n], Request.WriteAndRead(addr, nb, writeAddr, writeNb, count,
        if Allowed(writeNb, MAX_WR_WRITE_REGISTERS) then Gather(values, writeNb) else []), old(mapping.Tables()),
          mapping.Tables())
    {
      hide Built, Gather, Overwrite, Spread;
      var i, j := addr - mapping.startRegisters, writeAddr - mapping.startRegisters;
      if writeNb < 1 || MAX_WR_WRITE_REGISTERS < writeNb || nb < 1 || MAX_WR_READ_REGISTERS < nb ||
        count != 2 * writeNb {
        n := AnswerException(WRITE_AND_READ_REGISTERS, ILLEGAL_DATA_VALUE, to, tid, rsp);
      } else if i < 0 || i + nb > mapping.registers.Length || i < 0 || j + writeNb > mapping.registers.Length {
        n := AnswerException(WRITE_AND_READ_REGISTERS, ILLEGAL_DATA_ADDRESS, to, tid, rsp);
      } else {
        SetRegisters(mapping.registers, j, writeNb, values);
        n := AnswerWords(WRITE_AND_READ_REGISTERS, mapping.registers, i, nb, to, tid, rsp);
      }
    }

    method Identify(to: Byte, tid: Word, rsp: array<Byte>) returns (n: nat)
      requires Apart(rsp)
      modifies rsp
      ensures n <= rsp.Length && Answers(to, tid, rsp[..n], ReportSlaveId, old(mapping.Tables()), mapping.Tables())
    {
      hide Built;
      n := BuildResponseBasis(b, to, tid, REPORT_SLAVE_ID, rsp);
      n := Add(b, rsp, n, [|IDENTITY|] + IDENTITY, to, tid, [REPORT_SLAVE_ID]);
      assert [REPORT_SLAVE_ID] + ([|IDENTITY|] + IDENTITY) == [REPORT_SLAVE_ID, |IDENTITY|] + IDENTITY;
    }

    method Refuse(fn: Byte, to: Byte, tid: Word, rsp: array<Byte>) returns (n: nat)
      requires Apart(rsp)
      modifies rsp
      ensures n <= rsp.Length && Answers(to, tid, rsp[..n], Unknown(fn), old(mapping.Tables()), mapping.Tables())
    {
      hide Built;
      n := AnswerException(fn, ILLEGAL_FUNCTION, to, tid, rsp);
    }

    /** Builds the answer to the request in the buffer, and does what it asks for. */
    method Dispatch(p: seq<Byte>, to: Byte, tid: Word, rsp: array<Byte>, echo: seq<Byte>,
        ghost pdu: seq<Byte>) returns (n: nat)
      requires Apart(rsp) && |p| >= MAX_PDU_LENGTH && !Strays(mapping.Tables(), Decode(p)) &&
        p[0] != READ_EXCEPTION_STATUS
      requires |echo| <= rsp.Length && OnePdu(pdu, Indication) && pdu <= p && Built(b, to, tid, echo, pdu)
      modifies rsp, mapping.bits, mapping.registers
      ensures n <= rsp.Length && Answers(to, tid, rsp[..n], Decode(p), old(mapping.Tables()), mapping.Tables())
    {
      hide Answers, Built, OnePdu, UnpackBits, Gather;
      var fn, addr, nb := p[0], At(p, 1), At(p, 3);
      if fn == READ_COILS || fn == READ_DISCRETE_INPUTS {
        n := ReadBits(fn == READ_DISCRETE_INPUTS, addr, nb, to, tid, rsp);
      } else if fn == READ_HOLDING_REGISTERS || fn == READ_INPUT_REGISTERS {
        n := ReadRegisters(fn == READ_INPUT_REGISTERS, addr, nb, to, tid, rsp);
      } else if fn == WRITE_SINGLE_COIL {
        EchoFive(p, pdu);
        n := WriteBit(addr, nb, to, tid, rsp, echo);
      } else if fn == WRITE_SINGLE_REGISTER {
        EchoFive(p, pdu);
        n := WriteRegister(addr, nb, to, tid, rsp, echo);
      } else if fn == WRITE_MULTIPLE_COILS {
        n := WriteBits(addr, nb, p[6..], to, tid, rsp);
      } else if fn == WRITE_MULTIPLE_REGISTERS {
        n := WriteRegisters(addr, nb, p[6..], to, tid, rsp);
      } else if fn == REPORT_SLAVE_ID {
        n := Identify(to, tid, rsp);
      } else if fn == MASK_WRITE_REGISTER {
        EchoSeven(p, pdu);
        n := MaskWrite(addr, nb, At(p, 5), to, tid, rsp, echo);
      } else if fn == WRITE_AND_READ_REGISTERS {
        n := WriteAndRead(addr, nb, At(p, 5), At(p, 7), p[9], p[10..], to, tid, rsp);
      } else {
        n := Refuse(fn, to, tid, rsp);
      }
    }

    /** `modbus_reply`: does what the request asks for and returns the frame of the answer;
        nothing, if the request was for everyone on a serial line. */
    method Reply(req: array<Byte>, reqLength: nat) returns (wire: seq<Byte>)
      requires Apart(req) && HeaderLength(b) + ChecksumLength(b) < reqLength <= MAX_MESSAGE_LENGTH
      requires OnePdu(req[HeaderLength(b)..reqLength - ChecksumLength(b)], Indication) &&
        (b.Tcp? ==> req[2] == 0 && req[3] == 0)
      requires !Strays(mapping.Tables(), Decode(req[HeaderLength(b)..]))
      modifies mapping.bits, mapping.registers
      ensures mapping.Tables() == Perform(old(mapping.Tables()), Decode(req[HeaderLength(b)..])).1
      ensures Serves(old(mapping.Tables()), Decode(req[HeaderLength(b)..]),
        Perform(old(mapping.Tables()), Decode(req[HeaderLength(b)..])).0, mapping.Tables())
      ensures wire == [] <==> Decode(req[HeaderLength(b)..]).ReadExceptionStatus? || (b.Rtu? && req[0] == 0)
      ensures wire != [] ==>
        var q := Decode(req[HeaderLength(b)..]);
        Fits(q, Perform(old(mapping.Tables()), q).0) &&
        IsFrame(b, req[HeaderLength(b) - 1], Join(req[0], req[1]), AnswerPdu(q, Perform(old(mapping.Tables()), q).0),
          wire)
    {
      hide OnePdu, IsFrame, Decode, Serves;
      ghost var t := mapping.Tables();
      var h := HeaderLength(b);
      var p, to, tid := req[h..], req[h - 1], Join(req[0], req[1]);
      Served(t, Decode(p), Perform(t, Decode(p)).0, Perform(t, Decode(p)).1);
      var rsp := new Byte[MAX_MESSAGE_LENGTH](_ => 0);
      if p[0] == READ_EXCEPTION_STATUS {
        StatusRead(p);
        return [];
      }
      var echo := req[..reqLength - ChecksumLength(b)];
      ghost var pdu := req[h..reqLength - ChecksumLength(b)];
      IsBuilt(req[..], echo, p, to, tid, pdu);
      var n := Dispatch(p, to, tid, rsp, echo, pdu);
      AnswerLength(to, tid, rsp[..n], Decode(p), t, mapping.Tables());
      if b.Rtu? && to == 0 { OnlyStatus(p); return []; }
      n := SendMsgPre(b, rsp, n, to, tid);
      OnlyStatus(p);
      wire := rsp[..n];
    }

    /** Receives a request and replies to it. */
    method Serve(stream: seq<Byte>, chunks: seq<nat>, ghost q: Request, ghost to: Byte,
        ghost tid: Word) returns (wire: seq<Byte>)
      requires mapping.Valid() && ForUs(b, slave, to)
      requires Sendable(q) && IsFrame(b, to, tid, RequestPdu(q), stream) && !Strays(mapping.Tables(), q)
      modifies mapping.bits, mapping.registers
      ensures mapping.Tables() == Perform(old(mapping.Tables()), q).1 && Fits(q, Perform(old(mapping.Tables()), q).0)
      ensures wire == [] <==> b.Rtu? && to == 0
      ensures wire != [] ==> IsFrame(b, to, tid, AnswerPdu(q, Perform(old(mapping.Tables()), q).0), wire)
    {
      hide Sendable, FrameOf;
      hide IsFrame, OnePdu, RequestPdu, Perform, Decode, AnswerPdu, Fits, Serves;
      var req := new Byte[MAX_MESSAGE_LENGTH](_ => 0);
      RequestWhole(q);
      FrameParts(b, to, tid, RequestPdu(q), stream);
      FrameAccepted(b, slave, Indication, stream, stream, to, tid, RequestPdu(q));
      var rc := Receive(b, slave, Indication, stream, chunks, req);
      ReadBack(req[..], rc, q, stream, to, tid);
      Performed(mapping.Tables(), q);
      wire := Reply(req, rc);
      if wire != [] { AnyTid(b, to, Join(req[0], req[1]), tid, AnswerPdu(q, Perform(old(mapping.Tables()), q).0),
        wire); }
    }

    lemma ReadBack(req: seq<Byte>, rc: nat, q: Request, stream: seq<Byte>, to: Byte, tid: Word)
      requires |req| == MAX_MESSAGE_LENGTH && rc == |stream| <= |req| && req[..rc] == stream
      requires Sendable(q) && IsFrame(b, to, tid, RequestPdu(q), stream)
      ensures HeaderLength(b) + ChecksumLength(b) < rc && req[HeaderLength(b)..rc - ChecksumLength(b)] == RequestPdu(q)
      ensures Decode(req[HeaderLength(b)..]) == q && req[HeaderLength(b) - 1] == to && !q.ReadExceptionStatus?
      ensures b.Tcp? ==> req[2] == 0 && req[3] == 0 && Join(req[0], req[1]) == tid
      ensures req[0] == stream[0] && req[1] == stream[1] && (b.Rtu? ==> req[0] == to)
    {
      hide IsFrame, RequestPdu, Decode;
      FrameParts(b, to, tid, RequestPdu(q), stream);
      var h, n := HeaderLength(b), |RequestPdu(q)|;
      SliceOfPrefix(req, stream, h, h + n);
      assert stream <= req;
      assert req[h..] == RequestPdu(q) + req[h + n..];
      DecodeRequest(q, req[h + n..]);
      JoinSplit(tid);
    }

    lemma IsBuilt(req: seq<Byte>, echo: seq<Byte>, p: seq<Byte>, to: Byte, tid: Word, pdu: seq<Byte>)
      requires |req| == MAX_MESSAGE_LENGTH && HeaderLength(b) < |echo| <= |req| && echo == req[..|echo|]
      requires p == req[HeaderLength(b)..] && to == req[HeaderLength(b) - 1] && tid == Join(req[0], req[1])
      requires b.Tcp? ==> req[2] == 0 && req[3] == 0
      requires pdu == req[HeaderLength(b)..|echo|]
      ensures Built(b, to, tid, echo, pdu) && pdu <= p
    {
      SplitJoin(req[0], req[1]);
      if b.Tcp? { assert echo[..4] == [req[0], req[1], req[2], req[3]]; }
    }
  }

  lemma StatusRead(p: seq<Byte>)
    requires |p| >= MAX_PDU_LENGTH && p[0] == READ_EXCEPTION_STATUS
    ensures Decode(p) == ReadExceptionStatus
  {
  }

  lemma OnlyStatus(p: seq<Byte>)
    requires |p| >= MAX_PDU_LENGTH && p[0] != READ_EXCEPTION_STATUS
    ensures !Decode(p).ReadExceptionStatus?
  {
  }

  lemma EchoFive(p: seq<Byte>, pdu: seq<Byte>)
    requires |p| >= MAX_PDU_LENGTH && OnePdu(pdu, Indication) && pdu <= p &&
      (p[0] == WRITE_SINGLE_COIL || p[0] == WRITE_SINGLE_REGISTER)
    ensures pdu == [p[0]] + WordBytes(At(p, 1)) + WordBytes(At(p, 3))
  {
    SplitJoin(p[1], p[2]);
    SplitJoin(p[3], p[4]);
  }

  lemma EchoSeven(p: seq<Byte>, pdu: seq<Byte>)
    requires |p| >= MAX_PDU_LENGTH && OnePdu(pdu, Indication) && pdu <= p && p[0] == MASK_WRITE_REGISTER
    ensures pdu == [p[0]] + WordBytes(At(p, 1)) + WordBytes(At(p, 3)) + WordBytes(At(p, 5))
  {
    SplitJoin(p[1], p[2]);
    SplitJoin(p[3], p[4]);
    SplitJoin(p[5], p[6]);
  }
}
