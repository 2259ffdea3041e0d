/**
 The client of `modbus.c`, and whole calls: a client and a server joined by a line that loses
 nothing, but delivers the bytes in any pieces.
 */
module ModbusClient {
  import opened Common
  import opened ModbusPdu
  import opened ModbusFrame
  import opened ModbusMeaning
  import opened ModbusServer

  datatype Error = TooMany | Illegal(code: Byte) | BadSlave | BadData | BadException | NoAnswer

  datatype Outcome = Got(n: nat) | Failed(error: Error)

  const BROADCAST: Byte := 0

  // ---- Is this the answer? ----

  /** How many values a request asks for, as its answer has to repeat it. */
  function AskedFor(p: seq<Byte>): nat
    requires |p| >= 5
  {
    var fn, nb := p[0], At(p, 3);
    if fn == READ_COILS || fn == READ_DISCRETE_INPUTS then Bytes(nb)
    else if fn in {WRITE_AND_READ_REGISTERS, READ_HOLDING_REGISTERS, READ_INPUT_REGISTERS, WRITE_MULTIPLE_COILS,
      WRITE_MULTIPLE_REGISTERS} then nb
    else 1
  }

  /** How many values an answer holds or confirms. */
  function Given(p: seq<Byte>): nat
    requires |p| >= 5
  {
    var fn := p[0];
    if fn == READ_COILS || fn == READ_DISCRETE_INPUTS || fn == REPORT_SLAVE_ID then p[1]
    else if fn in {WRITE_AND_READ_REGISTERS, READ_HOLDING_REGISTERS, READ_INPUT_REGISTERS} then p[1] / 2
    else if fn == WRITE_MULTIPLE_COILS || fn == WRITE_MULTIPLE_REGISTERS then At(p, 3)
    else 1
  }

  /** The transaction, or the device, is the one asked. */
  predicate FromThere(b: Backend, req: seq<Byte>, rsp: seq<Byte>)
    requires |req| >= 4 && |rsp| >= 4
  {
    match b
    case Tcp => req[0] == rsp[0] && req[1] == rsp[1] && (rsp[2] == 0 || rsp[3] == 0)
    case Rtu => req[0] == rsp[0] || req[0] == 0
  }

  /** An answer from where it was asked for, to the function that was asked for, as long and
      with as many values as it has to be. */
  predicate Accepted(b: Backend, req: seq<Byte>, rsp: seq<Byte>, rspLength: int)
    requires |req| >= HeaderLength(b) + 5 && |rsp| >= HeaderLength(b) + 5
  {
    var p, a := req[HeaderLength(b)..], rsp[HeaderLength(b)..];
    && FromThere(b, req, rsp) && a[0] == p[0] < 0x80
    && (ResponseLength(b, p) == None || ResponseLength(b, p) == Some(rspLength))
    && (p[0] == REPORT_SLAVE_ID || AskedFor(p) == Given(a))
  }

  /** A known exception to the function that was asked for. */
  predicate Excepted(b: Backend, req: seq<Byte>, rsp: seq<Byte>, rspLength: int, code: Byte)
    requires |req| >= HeaderLength(b) + 5 && |rsp| >= HeaderLength(b) + 5
  {
    var p, a := req[HeaderLength(b)..], rsp[HeaderLength(b)..];
    FromThere(b, req, rsp) && a[0] >= 0x80 && a[0] - 0x80 == p[0] && code == a[1] < EXCEPTION_MAX &&
      rspLength == HeaderLength(b) + 2 + ChecksumLength(b)
  }

  /** `check_confirmation`. */
  method CheckConfirmation(b: Backend, req: seq<Byte>, rsp: seq<Byte>, rspLength: int) returns (r: Outcome)
    requires |req| >= HeaderLength(b) + 5 && |rsp| >= HeaderLength(b) + 5
    ensures r.Got? <==> Accepted(b, req, rsp, rspLength)
    ensures r.Got? ==> r.n == Given(rsp[HeaderLength(b)..])
    ensures forall code :: r == Failed(Illegal(code)) <==> Excepted(b, req, rsp, rspLength, code)
  {
    var offset := HeaderLength(b);
    var function_ := rsp[offset];
    if b.Tcp? {
      if req[0] != rsp[0] || req[1] != rsp[1] { return Failed(BadData); }
      if rsp[2] != 0 && rsp[3] != 0 { return Failed(BadData); }
    } else {
      if req[0] != rsp[0] && req[0] != BROADCAST { return Failed(BadSlave); }
    }
    var computed := ResponseLength(b, req[offset..]);
    if function_ >= 0x80 {
      if rspLength == offset + 2 + ChecksumLength(b) && req[offset] == function_ - 0x80 {
        var code := rsp[offset + 1];
        return Failed(if code < EXCEPTION_MAX then Illegal(code) else BadException);
      }
      return Failed(BadException);
    }
    if computed != None && computed != Some(rspLength) { return Failed(BadData); }
    if function_ != req[offset] { return Failed(BadData); }
    if function_ != REPORT_SLAVE_ID && AskedFor(req[offset..]) != Given(rsp[offset..]) { return Failed(BadData); }
    return Got(Given(rsp[offset..]));
  }

  /** What a client learns from the answer. */
  function Learned(q: Request, a: Answer): Outcome
    requires Fits(q, a)
  {
    match a
    case Bits(bits) => Got(Bytes(|bits|))
    case Words(words) => Got(|words|)
    case Done => Got(if q.WriteBits? || q.WriteRegisters? then q.nb else 1)
    case Identity(text) => Got(|text|)
    case Exception(code) => Failed(Illegal(code))
  }

  lemma LearnedIs(q: Request, a: Answer)
    requires Fits(q, a)
    ensures a.Exception? ==> Learned(q, a) == Failed(Illegal(a.code))
    ensures !a.Exception? ==> Learned(q, a).Got?
  {
  }

  /** The numbers in a request and its answer agree. */
  lemma Agree(q: Request, a: Answer, p: seq<Byte>, s: seq<Byte>)
    requires Sendable(q) && Fits(q, a) && |p| >= 5 && |s| >= 5
    requires RequestPdu(q) <= p && AnswerPdu(q, a) <= s
    ensures p[0] == Code(q) < 0x80
    ensures a.Exception? ==> s[0] == Code(q) + 0x80 && s[1] == a.code
    ensures !a.Exception? ==>
      s[0] == Code(q) && Learned(q, a) == Got(Given(s)) && (q.ReportSlaveId? || AskedFor(p) == Given(s))
  {
    hide PackBits, Spread, RequestPdu, AnswerPdu;
    AnswerReads(q, a);
    if !q.ReportSlaveId? {
      NbSent(q);
      assert At(p, 3) == At(RequestPdu(q), 3);
    }
    if q.WriteBits? || q.WriteRegisters? {
      if !a.Exception? { assert At(s, 3) == At(AnswerPdu(q, a), 3); }
    }
  }

  lemma AnswerReads(q: Request, a: Answer)
    requires Sendable(q) && Fits(q, a)
    ensures a.Exception? ==> AnswerPdu(q, a) == [(Code(q) + 128) % 256, a.code]
    ensures a.Bits? ==> AnswerPdu(q, a)[1] == Bytes(q.nb)
    ensures a.Words? ==> AnswerPdu(q, a)[1] == 2 * q.nb
    ensures a.Identity? ==> AnswerPdu(q, a)[1] == |a.text|
    ensures a.Done? ==> |AnswerPdu(q, a)| >= 5 && (q.WriteBits? || q.WriteRegisters? ==> At(AnswerPdu(q, a), 3) == q.nb)
  {
    hide PackBits, Spread;
    if a.Done? && (q.WriteBits? || q.WriteRegisters?) {
      Head(Code(q), q.addr, q.nb, []);
      Regroup([Code(q)] + WordBytes(q.addr), WordBytes(q.nb), [], []);
    }
  }

  /** The answer that belongs to the request tells the client what the server meant. */
  lemma Confirmed(b: Backend, slave: Byte, tid: Word, q: Request, a: Answer, req: seq<Byte>, rsp: seq<Byte>,
      wire: seq<Byte>)
    requires Sendable(q) && Fits(q, a) && |req| >= HeaderLength(b) + 5 && |rsp| >= HeaderLength(b) + 5
    requires Headed(b, slave, tid, req) && RequestPdu(q) <= req[HeaderLength(b)..]
    requires IsFrame(b, slave, tid, AnswerPdu(q, a), wire) && wire <= rsp
    ensures AnswerPdu(q, a) <= rsp[HeaderLength(b)..]
    ensures a.Exception? ==> Excepted(b, req, rsp, |wire|, a.code) && Learned(q, a) == Failed(Illegal(a.code))
    ensures !a.Exception? ==> Accepted(b, req, rsp, |wire|) && Learned(q, a) == Got(Given(rsp[HeaderLength(b)..]))
  {
    hide IsFrame, RequestPdu, AnswerPdu, ResponseLength, AskedFor, Given;
    var h, s := HeaderLength(b), AnswerPdu(q, a);
    FrameParts(b, slave, tid, s, wire);
    SliceOfPrefix(rsp, wire, h, h + |s|);
    Agree(q, a, req[h..], rsp[h..]);
    if b.Tcp? { assert req[0] == req[..4][0] && req[1] == req[..4][1]; }
    if !a.Exception? {
      LengthForeseen(b, q, a, slave, tid, wire);
      SameForeseen(b, q, req[h..]);
    } else {
      AnswerReads(q, a);
    }
  }

  lemma SameForeseen(b: Backend, q: Request, p: seq<Byte>)
    requires Sendable(q) && |p| >= 5 && RequestPdu(q) <= p
    ensures ResponseLength(b, p) == ResponseLength(b, RequestPdu(q))
  {
    hide RequestPdu;
    if !q.ReportSlaveId? {
      NbSent(q);
      assert At(p, 3) == At(RequestPdu(q), 3);
    }
  }

  // ---- Calls ----

  class Client {
    const b: Backend
    const slave: Byte
    var tid: Word

    constructor (b: Backend, slave: Byte)
      ensures this.b == b && this.slave == slave
    {
      this.b, this.slave, tid := b, slave, 0;
    }

    /** The server at the other end of the line is the one that is meant. */
    ghost predicate Linked(server: Server) {
      server.b == b && server.mapping.Valid() && ForUs(b, server.slave, slave)
    }

    /** On a serial line a request for everyone is not answered. */
    predicate Unanswered() {
      b.Rtu? && slave == 0
    }

    /** A call that is answered returns how many values it is about. */
    ghost predicate Succeeds(r: Outcome, n: nat) {
      r == if Unanswered() then Failed(NoAnswer) else Got(n)
    }

    ghost predicate Fails(r: Outcome, code: Byte) {
      r == if Unanswered() then Failed(NoAnswer) else Failed(Illegal(code))
    }

    /** What a call to write bits does: those at the addresses written become `values`, or there
        is no such address. */
    ghost predicate BitsWritten(r: Outcome, addr: nat, values: seq<Bit>, was: Tables, now: Tables) {
      if Has(was.startBits, |was.bits|, addr, |values|) then Succeeds(r, |values|) && BitsPut(was, now, addr, values)
      else Fails(r, 2) && now == was
    }

    ghost predicate WordsWritten(r: Outcome, addr: nat, values: seq<Word>, was: Tables, now: Tables) {
      if Has(was.startRegisters, |was.registers|, addr, |values|) then
        Succeeds(r, |values|) && WordsPut(was, now, addr, values)
      else Fails(r, 2) && now == was
    }

    /** What a call to read does: `dest` gets the values at the addresses asked for, or there is
        no such address. */
    ghost predicate ValuesRead<T(!new)>(r: Outcome, table: seq<T>, start: nat, addr: nat, nb: nat, was: seq<T>,
        dest: seq<T>) {
      if nb == 0 then Fails(r, 3) && dest == was
      else if !Has(start, |table|, addr, nb) then Fails(r, 2) && dest == was
      else Succeeds(r, nb) && if Unanswered() then dest == was else Fetched(table, start, addr, nb, was, dest)
    }

    method BuildRequestBasis(fn: Byte, addr: nat, nb: nat, req: array<Byte>) returns (n: nat)
      requires req.Length >= HeaderLength(b) + 5
      modifies `tid, req
      ensures tid == if b.Tcp? then (old(tid) + 1) % 65536 else old(tid)
      ensures n == HeaderLength(b) + 5
      ensures Built(b, slave, tid, req[..n], [fn] + WordBytes(addr % 65536) + WordBytes(nb % 65536))
    {
      if b.Tcp? { tid := if tid < 65535 then tid + 1 else 0; }
      n := BuildBasis(b, slave, tid, fn, req);
      assert req[..n][HeaderLength(b)..] == req[HeaderLength(b)..n];
      n := Add(b, req, n, [addr / 256 % 256, addr % 256], slave, tid, [fn]);
      n := Add(b, req, n, [nb / 256 % 256, nb % 256], slave, tid, [fn] + [addr / 256 % 256, addr % 256]);
      Truncated(addr);
      Truncated(nb);
    }

    /** Sends a request to the server, which answers it. */
    method Ask(server: Server, req: array<Byte>, n: nat, there: seq<nat>, ghost q: Request) returns (stream: seq<Byte>)
      requires Linked(server) && Sendable(q) && !Strays(server.mapping.Tables(), q)
      requires n + ChecksumLength(b) <= req.Length && req.Length >= HeaderLength(b) + 5 &&
        Built(b, slave, tid, req[..n], RequestPdu(q))
      requires Aside(server, req)
      modifies req, server.mapping.bits, server.mapping.registers
      ensures Fits(q, Perform(old(server.mapping.Tables()), q).0)
      ensures server.mapping.Tables() == Perform(old(server.mapping.Tables()), q).1
      ensures Headed(b, slave, tid, req[..]) && RequestPdu(q) <= req[HeaderLength(b)..]
      ensures stream == [] <==> Unanswered()
      ensures stream != [] ==> IsFrame(b, slave, tid, AnswerPdu(q, Perform(old(server.mapping.Tables()), q).0), stream)
    {
      hide IsFrame, RequestPdu, AnswerPdu, Fits, Perform;
      ghost var p := RequestPdu(q);
      var h := HeaderLength(b);
      TakeDrop(req[..], h, n);
      assert req[..][..n] == req[..n];
      var length := SendMsgPre(b, req, n, slave, tid);
      FrameParts(b, slave, tid, p, req[..length]);
      SliceOfPrefix(req[..], req[..length], h, h + |p|);
      assert req[..][h..] == req[h..];
      FrameHeaded(b, slave, tid, p, req[..length], req[..]);
      stream := server.Serve(req[..length], there, q, slave, tid);
    }

    /** Waits for the answer and checks it. */
    method Hear(req: seq<Byte>, stream: seq<Byte>, rsp: array<Byte>, back: seq<nat>, ghost q: Request,
        ghost a: Answer) returns (r: Outcome)
      requires Sendable(q) && Fits(q, a) && |req| >= HeaderLength(b) + 5 && rsp.Length == MAX_MESSAGE_LENGTH
      requires Headed(b, slave, tid, req) && RequestPdu(q) <= req[HeaderLength(b)..]
      requires stream != [] ==> IsFrame(b, slave, tid, AnswerPdu(q, a), stream)
      modifies rsp
      ensures r == if stream == [] then Failed(NoAnswer) else Learned(q, a)
      ensures stream != [] ==> AnswerPdu(q, a) <= rsp[HeaderLength(b)..]
    {
      hide IsFrame, OnePdu, RequestPdu, AnswerPdu, Fits, FrameOf, Learned, Headed, Accepted, Excepted;
      if stream == [] {
        NothingThere(b);
      } else {
        AnswerHeard(q, a);
        FrameAccepted(b, slave, Confirmation, stream, stream, slave, tid, AnswerPdu(q, a));
      }
      var rc := Receive(b, slave, Confirmation, stream, back, rsp);
      if rc == -1 { return Failed(NoAnswer); }
      r := CheckConfirmation(b, req, rsp[..], rc);
      Confirmed(b, slave, tid, q, a, req, rsp[..], stream);
    }

    /** A buffer of its own. */
    ghost predicate Aside(server: Server, buffer: array<Byte>) {
      (buffer as object) !in {server.mapping.bits as object, server.mapping.inputBits as object,
        server.mapping.registers as object, server.mapping.inputRegisters as object}
    }

    /** What every call does. */
    method Exchange(server: Server, req: array<Byte>, n: nat, rsp: array<Byte>, there: seq<nat>, back: seq<nat>,
        ghost q: Request)
      returns (r: Outcome)
      requires Linked(server) && Sendable(q) && !Strays(server.mapping.Tables(), q)
      requires n + ChecksumLength(b) <= req.Length && req.Length >= HeaderLength(b) + 5 &&
        Built(b, slave, tid, req[..n], RequestPdu(q))
      requires Aside(server, req) && Aside(server, rsp) && req != rsp && rsp.Length == MAX_MESSAGE_LENGTH
      modifies req, rsp, server.mapping.bits, server.mapping.registers
      ensures Fits(q, Perform(old(server.mapping.Tables()), q).0)
      ensures server.mapping.Tables() == Perform(old(server.mapping.Tables()), q).1
      ensures r == if Unanswered() then Failed(NoAnswer) else Learned(q, Perform(old(server.mapping.Tables()), q).0)
      ensures !Unanswered() ==> AnswerPdu(q, Perform(old(server.mapping.Tables()), q).0) <= rsp[HeaderLength(b)..]
    {
      hide IsFrame, OnePdu, RequestPdu, AnswerPdu, Fits, Perform, Learned, Headed;
      ghost var a := Perform(server.mapping.Tables(), q).0;
      var stream := Ask(server, req, n, there, q);
      r := Hear(req[..], stream, rsp, back, q, a);
    }

    // ---- Reading ----

    method TakeBits(rsp: array<Byte>, rc: nat, nb: nat, dest: array<Bit>, ghost q: Request, ghost a: Answer)
      requires rsp.Length == MAX_MESSAGE_LENGTH && (rsp as object) != dest && nb <= dest.Length && q.ReadBits? &&
        q.nb == nb
      requires Fits(q, a) && a.Bits? && AnswerPdu(q, a) <= rsp[HeaderLength(b)..] && Learned(q, a) == Got(rc)
      modifies dest
      ensures |a.bits| == nb && rc == Bytes(nb) && dest[..] == a.bits + old(dest[nb..])
    {
      hide AnswerPdu, UnpackBits, PackBits, Fits;
      BitsAnswer(q, a, rsp[HeaderLength(b)..]);
      assert rsp[HeaderLength(b)..][2..] == rsp[HeaderLength(b) + 2..];
      StoreBits(rsp, HeaderLength(b) + 2, rc, nb, dest);
    }

    method TakeWords(rsp: array<Byte>, rc: nat, dest: array<Word>, ghost q: Request, ghost a: Answer)
      requires rsp.Length == MAX_MESSAGE_LENGTH && (rsp as object) != dest && (q.ReadRegisters? || q.WriteAndRead?) &&
        q.nb <= dest.Length
      requires Fits(q, a) && a.Words? && AnswerPdu(q, a) <= rsp[HeaderLength(b)..] && Learned(q, a) == Got(rc)
      modifies dest
      ensures rc == |a.words| == q.nb && dest[..] == a.words + old(dest[rc..])
    {
      hide AnswerPdu, Gather, Spread, Fits;
      WordsAnswer(q, a, rsp[HeaderLength(b)..]);
      assert rsp[HeaderLength(b)..][2..] == rsp[HeaderLength(b) + 2..];
      StoreWords(rsp, HeaderLength(b) + 2, rc, dest);
    }

    method ReadIoStatus(server: Server, input: bool, addr: nat, nb: nat, dest: array<Bit>, there: seq<nat>,
        back: seq<nat>) returns (r: Outcome)
      requires Linked(server) && nb <= MAX_READ_BITS && nb <= dest.Length && dest != server.mapping.bits &&
        dest != server.mapping.inputBits
      modifies `tid, dest, server.mapping.bits, server.mapping.registers
      ensures server.mapping.Tables() == old(server.mapping.Tables())
      ensures BitsRead(r, dest[..], old(dest[..]), old(server.mapping.Tables()), ReadBits(input, addr % 65536, nb))
    {
      hide WordBytes, Headed;
      hide Learned, Built, Perform, AnswerPdu, RequestPdu, UnpackBits, PackBits, Fits;
      ghost var q := ReadBits(input, addr % 65536, nb);
      ghost var a := Perform(server.mapping.Tables(), q).0;
      var req, rsp := new Byte[12](_ => 0), new Byte[MAX_MESSAGE_LENGTH](_ => 0);
      var n := BuildRequestBasis(if input then READ_DISCRETE_INPUTS else READ_COILS, addr, nb, req);
      ShortPdu(q);
      r := Exchange(server, req, n, rsp, there, back, q);
      ReadAnswers(old(server.mapping.Tables()), q);
      LearnedIs(q, a);
      if r.Got? {
        TakeBits(rsp, r.n, nb, dest, q, a);
      }
    }

    /** What a call to read bits returns and leaves in `dest`. */
    ghost predicate BitsRead(r: Outcome, dest: seq<Bit>, was: seq<Bit>, t: Tables, q: Request)
      requires q.ReadBits?
    {
      if Unanswered() then r == Failed(NoAnswer) && dest == was
      else match Perform(t, q).0
        case Bits(bits) => r == Got(Bytes(q.nb)) && |bits| == q.nb <= |was| && dest == bits + was[q.nb..]
        case Exception(code) => r == Failed(Illegal(code)) && dest == was
        case _ => false
    }

    /** `modbus_read_bits` and `modbus_read_input_bits`. */
    method CallReadBits(server: Server, input: bool, addr: nat, nb: nat, dest: array<Bit>, there: seq<nat>,
        back: seq<nat>) returns (r: Outcome)
      requires Linked(server) && nb <= dest.Length && dest != server.mapping.bits && dest != server.mapping.inputBits
      modifies `tid, dest, server.mapping.bits, server.mapping.registers
      ensures server.mapping.Tables() == old(server.mapping.Tables())
      ensures nb > MAX_READ_BITS ==> r == Failed(TooMany) && dest[..] == old(dest[..])
      ensures r.Got? ==> r.n == nb
      ensures nb <= MAX_READ_BITS ==>
        BitsRead(if r.Got? then Got(Bytes(nb)) else r, dest[..], old(dest[..]), old(server.mapping.Tables()),
          ReadBits(input, addr % 65536, nb))
      ensures nb <= 2000 ==>
        var m := server.mapping;
        ValuesRead(r, old(if input then m.inputBits[..] else m.bits[..]), if input then m.startInputBits else
          m.startBits, addr % 65536, nb, old(dest[..]), dest[..])
    {
      hide BitsRead, ValuesRead;
      if nb > MAX_READ_BITS { return Failed(TooMany); }
      r := ReadIoStatus(server, input, addr, nb, dest, there, back);
      ghost var rc := r;
      if r.Got? {
        ReadCount(r, dest[..], old(dest[..]), old(server.mapping.Tables()), ReadBits(input, addr % 65536, nb));
        r := Got(nb);
      }
      BitsFetched(rc, r, dest[..], old(dest[..]), old(server.mapping.Tables()), ReadBits(input, addr % 65536, nb));
    }

    lemma BitsFetched(rc: Outcome, r: Outcome, dest: seq<Bit>, was: seq<Bit>, t: Tables, q: Request)
      requires q.ReadBits? && q.nb <= 2000 && BitsRead(rc, dest, was, t, q) && r == if rc.Got? then Got(q.nb) else rc
      ensures ValuesRead(r, if q.input then t.inputBits else t.bits, if q.input then t.startInputBits else t.startBits,
        q.addr, q.nb, was, dest)
    {
      hide Has, Perform, Shown, Fetched;
      var a, start, table := Perform(t, q).0, if q.input then t.startInputBits else t.startBits,
        if q.input then t.inputBits else t.bits;
      Served(t, q, a, Perform(t, q).1);
      if a.Bits? && !Unanswered() { ShownFetched(table, start, q.addr, a.bits, was, dest); }
    }

    lemma ReadCount(r: Outcome, dest: seq<Bit>, was: seq<Bit>, t: Tables, q: Request)
      requires q.ReadBits? && BitsRead(r, dest, was, t, q) && r.Got?
      ensures r.n == Bytes(q.nb)
    {
    }

    /** What a call to read registers returns and leaves in `dest`. */
    ghost predicate WordsRead(r: Outcome, dest: seq<Word>, was: seq<Word>, t: Tables, q: Request)
      requires Complete(q) && !Strays(t, q)
    {
      if Unanswered() then r == Failed(NoAnswer) && dest == was
      else match Perform(t, q).0
        case Words(words) => r == Got(|words|) && |words| <= |was| && dest == words + was[|words|..]
        case Exception(code) => r == Failed(Illegal(code)) && dest == was
        case _ => false
    }

    /** `modbus_read_registers` and `modbus_read_input_registers`. */
    method CallReadRegisters(server: Server, input: bool, addr: nat, nb: nat, dest: array<Word>, there: seq<nat>,
        back: seq<nat>) returns (r: Outcome)
      requires Linked(server) && nb <= dest.Length && dest != server.mapping.registers &&
        dest != server.mapping.inputRegisters
      modifies `tid, dest, server.mapping.bits, server.mapping.registers
      ensures server.mapping.Tables() == old(server.mapping.Tables())
      ensures nb > MAX_READ_REGISTERS ==> r == Failed(TooMany) && dest[..] == old(dest[..])
      ensures nb <= MAX_READ_REGISTERS ==>
        WordsRead(r, dest[..], old(dest[..]), old(server.mapping.Tables()), ReadRegisters(input, addr % 65536, nb))
      ensures nb <= 125 ==>
        var m := server.mapping;
        ValuesRead(r, old(if input then m.inputRegisters[..] else m.registers[..]),
          if input then m.startInputRegisters else m.startRegisters, addr % 65536, nb, old(dest[..]), dest[..])
    {
      hide ValuesRead;
      hide Learned, Built, Perform, AnswerPdu, RequestPdu, Gather, Spread, Fits;
      if nb > MAX_READ_REGISTERS { return Failed(TooMany); }
      ghost var q := ReadRegisters(input, addr % 65536, nb);
      ghost var a := Perform(server.mapping.Tables(), q).0;
      var req, rsp := new Byte[12](_ => 0), new Byte[MAX_MESSAGE_LENGTH](_ => 0);
      var n := BuildRequestBasis(if input then READ_INPUT_REGISTERS else READ_HOLDING_REGISTERS, addr, nb, req);
      ShortPdu(q);
      r := Exchange(server, req, n, rsp, there, back, q);
      ReadAnswers(old(server.mapping.Tables()), q);
      LearnedIs(q, a);
      if r.Got? {
        TakeWords(rsp, r.n, dest, q, a);
      }
      WordsFetched(r, dest[..], old(dest[..]), old(server.mapping.Tables()), q);
    }

    lemma WordsFetched(r: Outcome, dest: seq<Word>, was: seq<Word>, t: Tables, q: Request)
      requires q.ReadRegisters? && q.nb <= 125 && WordsRead(r, dest, was, t, q)
      ensures ValuesRead(r, if q.input then t.inputRegisters else t.registers,
        if q.input then t.startInputRegisters else t.startRegisters, q.addr, q.nb, was, dest)
    {
      hide Has, Perform, Shown, Fetched;
      var a, start, table := Perform(t, q).0, if q.input then t.startInputRegisters else t.startRegisters,
        if q.input then t.inputRegisters else t.registers;
      Served(t, q, a, Perform(t, q).1);
      if a.Words? && !Unanswered() { ShownFetched(table, start, q.addr, a.words, was, dest); }
    }

    // ---- Writing ----

    /** What a call to write returns. */
    ghost predicate Wrote(r: Outcome, t: Tables, q: Request)
      requires Sendable(q) && !Strays(t, q)
    {
      if Unanswered() then r == Failed(NoAnswer)
      else match Perform(t, q).0
        case Done => r == Got(if q.WriteBits? || q.WriteRegisters? then q.nb else 1)
        case Exception(code) => r == Failed(Illegal(code))
        case _ => false
    }

    /** `modbus_write_bit` and `modbus_write_register`. */
    method WriteSingle(server: Server, fn: Byte, addr: nat, value: nat, there: seq<nat>, back: seq<nat>,
        ghost q: Request) returns (r: Outcome)
      requires Linked(server) && fn == Code(q) &&
        (q == WriteBit(addr % 65536, value % 65536) || q == WriteRegister(addr % 65536, value % 65536))
      modifies `tid, server.mapping.bits, server.mapping.registers
      ensures server.mapping.Tables() == Perform(old(server.mapping.Tables()), q).1 &&
        Wrote(r, old(server.mapping.Tables()), q)
    {
      hide Built, Perform, AnswerPdu, RequestPdu, Fits;
      var req, rsp := new Byte[12](_ => 0), new Byte[MAX_MESSAGE_LENGTH](_ => 0);
      var n := BuildRequestBasis(fn, addr, value, req);
      ShortPdu(q);
      r := Exchange(server, req, n, rsp, there, back, q);
      WriteAnswers(old(server.mapping.Tables()), q);
    }

    method CallWriteBit(server: Server, addr: nat, on: bool, there: seq<nat>, back: seq<nat>) returns (r: Outcome)
      requires Linked(server)
      modifies `tid, server.mapping.bits, server.mapping.registers
      ensures
        var q := WriteBit(addr % 65536, if on then 0xFF00 else 0);
        server.mapping.Tables() == Perform(old(server.mapping.Tables()), q).1 &&
          Wrote(r, old(server.mapping.Tables()), q)
      ensures BitsWritten(r, addr % 65536, [if on then 1 else 0], old(server.mapping.Tables()),
        server.mapping.Tables())
    {
      hide Perform, Wrote, BitsWritten;
      ghost var q := WriteBit(addr % 65536, if on then 0xFF00 else 0);
      r := WriteSingle(server, WRITE_SINGLE_COIL, addr, if on then 0xFF00 else 0, there, back, q);
      BitWritten(r, old(server.mapping.Tables()), q);
    }

    method CallWriteRegister(server: Server, addr: nat, value: nat, there: seq<nat>,
        back: seq<nat>) returns (r: Outcome)
      requires Linked(server)
      modifies `tid, server.mapping.bits, server.mapping.registers
      ensures
        var q := WriteRegister(addr % 65536, value % 65536);
        server.mapping.Tables() == Perform(old(server.mapping.Tables()), q).1 &&
          Wrote(r, old(server.mapping.Tables()), q)
      ensures WordsWritten(r, addr % 65536, [value % 65536], old(server.mapping.Tables()), server.mapping.Tables())
    {
      hide Perform, Wrote, WordsWritten;
      ghost var q := WriteRegister(addr % 65536, value % 65536);
      r := WriteSingle(server, WRITE_SINGLE_REGISTER, addr, value, there, back, q);
      WordWritten(r, old(server.mapping.Tables()), q);
    }

    lemma BitWritten(r: Outcome, t: Tables, q: Request)
      requires q.WriteBit? && (q.data == 0xFF00 || q.data == 0) && Wrote(r, t, q)
      ensures BitsWritten(r, q.addr, [if q.data == 0xFF00 then 1 else 0], t, Perform(t, q).1)
    {
      hide Perform, BitsPut;
      Served(t, q, Perform(t, q).0, Perform(t, q).1);
      OneAddress(t.startBits, |t.bits|, q.addr);
    }

    lemma WordWritten(r: Outcome, t: Tables, q: Request)
      requires q.WriteRegister? && Wrote(r, t, q)
      ensures WordsWritten(r, q.addr, [q.data], t, Perform(t, q).1)
    {
      hide Perform, WordsPut;
      Served(t, q, Perform(t, q).0, Perform(t, q).1);
      OneAddress(t.startRegisters, |t.registers|, q.addr);
    }

    lemma ManyWritten(r: Outcome, t: Tables, q: Request)
      requires Sendable(q) && (q.WriteBits? || q.WriteRegisters?) && Wrote(r, t, q)
      ensures q.nb == 0 ==> Fails(r, 3) && Perform(t, q).1 == t
      ensures q.nb > 0 && q.WriteBits? ==> BitsWritten(r, q.addr, q.bits, t, Perform(t, q).1)
      ensures q.nb > 0 && q.WriteRegisters? ==> WordsWritten(r, q.addr, q.words, t, Perform(t, q).1)
    {
      hide Perform, Has, BitsPut, WordsPut;
      Served(t, q, Perform(t, q).0, Perform(t, q).1);
    }

    /** `modbus_write_bits`. */
    method CallWriteBits(server: Server, addr: nat, src: seq<Bit>, there: seq<nat>, back: seq<nat>) returns (r: Outcome)
      requires Linked(server)
      modifies `tid, server.mapping.bits, server.mapping.registers
      ensures |src| > MAX_WRITE_BITS ==> r == Failed(TooMany) && server.mapping.Tables() == old(server.mapping.Tables())
      ensures |src| <= MAX_WRITE_BITS ==>
        var q := WriteBits(addr % 65536, |src|, src);
        server.mapping.Tables() == Perform(old(server.mapping.Tables()), q).1 &&
          Wrote(r, old(server.mapping.Tables()), q)
      ensures |src| == 0 ==> Fails(r, 3) && server.mapping.Tables() == old(server.mapping.Tables())
      ensures 0 < |src| <= 1968 ==>
        BitsWritten(r, addr % 65536, src, old(server.mapping.Tables()), server.mapping.Tables())
    {
      hide BitsWritten;
      hide Built, Perform, AnswerPdu, RequestPdu, Fits, PackBits;
      if |src| > MAX_WRITE_BITS { return Failed(TooMany); }
      ghost var q := WriteBits(addr % 65536, |src|, src);
      var req, rsp := new Byte[MAX_MESSAGE_LENGTH](_ => 0), new Byte[MAX_MESSAGE_LENGTH](_ => 0);
      var n := BuildWriteBits(addr, src, req, q);
      r := Exchange(server, req, n, rsp, there, back, q);
      WriteAnswers(old(server.mapping.Tables()), q);
      ManyWritten(r, old(server.mapping.Tables()), q);
    }

    /** `modbus_write_registers`.  The branch that is compiled sends the low byte first, so each
        word arrives with its bytes swapped. */
    method CallWriteRegisters(server: Server, addr: nat, src: seq<Word>, there: seq<nat>,
        back: seq<nat>) returns (r: Outcome)
      requires Linked(server)
      modifies `tid, server.mapping.bits, server.mapping.registers
      ensures |src| > MAX_WRITE_REGISTERS ==>
        r == Failed(TooMany) && server.mapping.Tables() == old(server.mapping.Tables())
      ensures |src| <= MAX_WRITE_REGISTERS ==>
        var q := WriteRegisters(addr % 65536, |src|, AllSwapped(src));
        server.mapping.Tables() == Perform(old(server.mapping.Tables()), q).1 &&
          Wrote(r, old(server.mapping.Tables()), q)
      ensures |src| == 0 ==> Fails(r, 3) && server.mapping.Tables() == old(server.mapping.Tables())
      ensures 0 < |src| <= 123 ==>
        WordsWritten(r, addr % 65536, AllSwapped(src), old(server.mapping.Tables()), server.mapping.Tables())
    {
      hide WordsWritten, AllSwapped;
      hide Built, Perform, AnswerPdu, RequestPdu, Fits, Spread;
      if |src| > MAX_WRITE_REGISTERS { return Failed(TooMany); }
      ghost var q := WriteRegisters(addr % 65536, |src|, AllSwapped(src));
      var req, rsp := new Byte[MAX_MESSAGE_LENGTH](_ => 0), new Byte[MAX_MESSAGE_LENGTH](_ => 0);
      var n := BuildWriteRegisters(addr, src, req, q);
      r := Exchange(server, req, n, rsp, there, back, q);
      WriteAnswers(old(server.mapping.Tables()), q);
      ManyWritten(r, old(server.mapping.Tables()), q);
    }

    /** What a call to merge a register with masks does. */
    ghost predicate WordMasked(r: Outcome, addr: nat, andMask: Word, orMask: Word, was: Tables, now: Tables) {
      if Within(was.startRegisters, |was.registers|, addr) then
        Succeeds(r, 1) && WordMerged(was, now, addr, andMask, orMask)
      else Fails(r, 2) && now == was
    }

    lemma MaskedWritten(r: Outcome, t: Tables, q: Request)
      requires q.MaskWrite? && Wrote(r, t, q)
      ensures WordMasked(r, q.addr, q.andMask, q.orMask, t, Perform(t, q).1)
    {
      hide Perform, WordMerged;
      Served(t, q, Perform(t, q).0, Perform(t, q).1);
    }

    /** `modbus_mask_write_register`. */
    method CallMaskWrite(server: Server, addr: nat, andMask: Word, orMask: Word, there: seq<nat>,
        back: seq<nat>) returns (r: Outcome)
      requires Linked(server)
      modifies `tid, server.mapping.bits, server.mapping.registers
      ensures
        var q := MaskWrite(addr % 65536, andMask, orMask);
        server.mapping.Tables() == Perform(old(server.mapping.Tables()), q).1 &&
          Wrote(r, old(server.mapping.Tables()), q)
      ensures WordMasked(r, addr % 65536, andMask, orMask, old(server.mapping.Tables()), server.mapping.Tables())
    {
      hide WordMasked;
      hide Built, Perform, AnswerPdu, RequestPdu, Fits;
      ghost var q := MaskWrite(addr % 65536, andMask, orMask);
      var req, rsp := new Byte[14](_ => 0), new Byte[MAX_MESSAGE_LENGTH](_ => 0);
      var n := BuildRequestBasis(MASK_WRITE_REGISTER, addr, 0, req);
      ghost var front := [MASK_WRITE_REGISTER] + WordBytes(addr % 65536);
      Shorter(b, slave, tid, req[..n], front, WordBytes(0));
      n := n - 2;
      assert req[..n] == req[..n + 2][..n];
      n := Add(b, req, n, WordBytes(andMask), slave, tid, front);
      n := Add(b, req, n, WordBytes(orMask), slave, tid, front + WordBytes(andMask));
      MaskPdu(q);
      r := Exchange(server, req, n, rsp, there, back, q);
      WriteAnswers(old(server.mapping.Tables()), q);
      MaskedWritten(r, old(server.mapping.Tables()), q);
    }

    /** What a call to write and read does: the values read are those that are there after the
        write. */
    ghost predicate BothDone(r: Outcome, writeAddr: nat, values: seq<Word>, addr: nat, nb: nat, was: Tables,
        now: Tables, kept: seq<Word>, dest: seq<Word>) {
      var start, length := was.startRegisters, |was.registers|;
      if nb == 0 || |values| == 0 then Fails(r, 3) && now == was && dest == kept
      else if !Has(start, length, addr, nb) || !Has(start, length, writeAddr, |values|) then
        Fails(r, 2) && now == was && dest == kept
      else
        && Succeeds(r, nb) && WordsPut(was, now, writeAddr, values)
        && if Unanswered() then dest == kept else Fetched(now.registers, start, addr, nb, kept, dest)
    }

    /** `modbus_write_and_read_registers`: the values read are those after the write. */
    method CallWriteAndRead(server: Server, writeAddr: nat, src: seq<Word>, addr: nat, nb: nat, dest: array<Word>,
        there: seq<nat>, back: seq<nat>)
      returns (r: Outcome)
      requires Linked(server) && nb <= dest.Length && dest != server.mapping.registers &&
        dest != server.mapping.inputRegisters
      requires writeAddr % 65536 >= server.mapping.startRegisters
      modifies `tid, dest, server.mapping.bits, server.mapping.registers
      ensures |src| > MAX_WR_WRITE_REGISTERS || nb > MAX_WR_READ_REGISTERS ==>
        r == Failed(TooMany) && server.mapping.Tables() == old(server.mapping.Tables()) && dest[..] == old(dest[..])
      ensures |src| <= MAX_WR_WRITE_REGISTERS && nb <= MAX_WR_READ_REGISTERS ==>
        var q := WriteAndRead(addr % 65536, nb, writeAddr % 65536, |src|, 2 * |src|, src);
        server.mapping.Tables() == Perform(old(server.mapping.Tables()), q).1 &&
        WordsRead(r, dest[..], old(dest[..]), old(server.mapping.Tables()), q)
      ensures |src| <= 121 && nb <= 125 ==>
        BothDone(r, writeAddr % 65536, src, addr % 65536, nb, old(server.mapping.Tables()), server.mapping.Tables(),
          old(dest[..]), dest[..])
    {
      hide BothDone;
      hide Learned, Built, Perform, AnswerPdu, RequestPdu, Fits, Spread, Gather;
      if |src| > MAX_WR_WRITE_REGISTERS { return Failed(TooMany); }
      if nb > MAX_WR_READ_REGISTERS { return Failed(TooMany); }
      ghost var q := WriteAndRead(addr % 65536, nb, writeAddr % 65536, |src|, 2 * |src|, src);
      ghost var a := Perform(server.mapping.Tables(), q).0;
      var req, rsp := new Byte[MAX_MESSAGE_LENGTH](_ => 0), new Byte[MAX_MESSAGE_LENGTH](_ => 0);
      var n := BuildBoth(writeAddr, src, addr, nb, req, q);
      r := Exchange(server, req, n, rsp, there, back, q);
      BothAnswers(old(server.mapping.Tables()), q);
      LearnedIs(q, a);
      if r.Got? {
        TakeWords(rsp, r.n, dest, q, a);
      }
      WrittenAndFetched(r, dest[..], old(dest[..]), old(server.mapping.Tables()), q);
    }

    lemma WrittenAndFetched(r: Outcome, dest: seq<Word>, was: seq<Word>, t: Tables, q: Request)
      requires q.WriteAndRead? && Sendable(q) && !Strays(t, q) && WordsRead(r, dest, was, t, q)
      ensures BothDone(r, q.writeAddr, q.words, q.addr, q.nb, t, Perform(t, q).1, was, dest)
    {
      hide Has, Perform, Placed, Shown, Fetched;
      var a, now := Perform(t, q).0, Perform(t, q).1;
      Served(t, q, a, now);
      if a.Words? && !Unanswered() { ShownFetched(now.registers, t.startRegisters, q.addr, a.words, was, dest); }
    }

    method BuildWriteBits(addr: nat, src: seq<Bit>, req: array<Byte>, ghost q: Request) returns (n: nat)
      requires req.Length == MAX_MESSAGE_LENGTH && |src| <= MAX_WRITE_BITS && q == WriteBits(addr % 65536, |src|, src)
      modifies `tid, req
      ensures n + ChecksumLength(b) <= req.Length && Built(b, slave, tid, req[..n], RequestPdu(q))
    {
      hide WordBytes;
      hide Built, RequestPdu, PackBits;
      n := BuildRequestBasis(WRITE_MULTIPLE_COILS, addr, |src|, req);
      ghost var front := [WRITE_MULTIPLE_COILS] + WordBytes(addr % 65536) + WordBytes(|src|);
      n := Add(b, req, n, [Bytes(|src|)], slave, tid, front);
      BuiltMore(b, slave, tid, req[..n], front + [Bytes(|src|)], PackBits(src));
      n := PutBits(src, req, n);
      LongPdu(q);
    }

    method BuildWriteRegisters(addr: nat, src: seq<Word>, req: array<Byte>, ghost q: Request) returns (n: nat)
      requires req.Length == MAX_MESSAGE_LENGTH && |src| <= MAX_WRITE_REGISTERS &&
        q == WriteRegisters(addr % 65536, |src|, AllSwapped(src))
      modifies `tid, req
      ensures n + ChecksumLength(b) <= req.Length && Built(b, slave, tid, req[..n], RequestPdu(q))
    {
      hide WordBytes, AllSwapped, Headed, High, Low, Sendable;
      hide Built, RequestPdu, Spread;
      n := BuildRequestBasis(WRITE_MULTIPLE_REGISTERS, addr, |src|, req);
      ghost var front := [WRITE_MULTIPLE_REGISTERS] + WordBytes(addr % 65536) + WordBytes(|src|);
      n := Add(b, req, n, [2 * |src|], slave, tid, front);
      BuiltMore(b, slave, tid, req[..n], front + [2 * |src|], Spread(AllSwapped(src)));
      n := PutWords(src, true, req, n);
      LongPdu(q);
    }

    method BuildBoth(writeAddr: nat, src: seq<Word>, addr: nat, nb: nat, req: array<Byte>,
        ghost q: Request) returns (n: nat)
      requires req.Length == MAX_MESSAGE_LENGTH && Sendable(q)
      requires nb <= MAX_WR_READ_REGISTERS && |src| <= MAX_WR_WRITE_REGISTERS
      requires q == WriteAndRead(addr % 65536, nb, writeAddr % 65536, |src|, 2 * |src|, src)
      modifies `tid, req
      ensures n + ChecksumLength(b) <= req.Length && Built(b, slave, tid, req[..n], RequestPdu(q))
    {
      hide WordBytes;
      hide Built, Spread, Headed, RequestPdu;
      n := BuildRequestBasis(WRITE_AND_READ_REGISTERS, addr, nb, req);
      ghost var front := [WRITE_AND_READ_REGISTERS] + WordBytes(addr % 65536) + WordBytes(nb);
      n := Add(b, req, n, [writeAddr / 256 % 256, writeAddr % 256], slave, tid, front);
      Truncated(writeAddr);
      n := Add(b, req, n, WordBytes(|src|), slave, tid, front + WordBytes(writeAddr % 65536));
      n := Add(b, req, n, [2 * |src|], slave, tid, front + WordBytes(writeAddr % 65536) + WordBytes(|src|));
      BuiltMore(b, slave, tid, req[..n], front + WordBytes(writeAddr % 65536) + WordBytes(|src|) + [2 * |src|],
        Spread(src));
      n := PutWords(src, false, req, n);
      BothPdu(q);
    }
  }

  /** The bits in bytes `offset` to `offset + rc`. */
  method StoreBits(rsp: array<Byte>, offset: nat, rc: nat, nb: nat, dest: array<Bit>)
    requires rc == Bytes(nb) && offset + rc <= rsp.Length && nb <= dest.Length && (rsp as object) != dest
    modifies dest
    ensures dest[..] == UnpackBits(rsp[offset..], nb) + old(dest[nb..])
  {
    hide UnpackBits, BitAt, Bytes, Overwrite;
    ghost var bits := UnpackBits(rsp[offset..], nb);
    var pos := 0;
    var i := 0;
    NoneYet(dest[..], 0);
    while i < rc
      invariant 0 <= i <= rc && pos == (if 8 * i <= nb then 8 * i else nb)
      invariant dest[..] == Overwrite(old(dest[..]), 0, bits[..pos])
    {
      MoreLeft(nb, i);
      pos := StoreByte(rsp, offset, i, nb, dest, old(dest[..]));
      i := i + 1;
    }
    AllStored(nb, rc);
    assert bits[..nb] == bits;
    FromStart(old(dest[..]), bits);
  }

  method StoreByte(rsp: array<Byte>, offset: nat, i: nat, nb: nat, dest: array<Bit>,
      ghost was: seq<Bit>) returns (pos: nat)
    requires i < Bytes(nb) && offset + Bytes(nb) <= rsp.Length && nb <= dest.Length && (rsp as object) != dest &&
      8 * i < nb
    requires |was| == dest.Length && dest[..] == Overwrite(was, 0, UnpackBits(rsp[offset..], nb)[..8 * i])
    modifies dest
    ensures pos == (if 8 * i + 8 <= nb then 8 * i + 8 else nb)
    ensures dest[..] == Overwrite(was, 0, UnpackBits(rsp[offset..], nb)[..pos])
  {
    hide UnpackBits, BitAt, Bytes, Overwrite;
    ghost var bits := UnpackBits(rsp[offset..], nb);
    var temp, k := rsp[offset + i], 0;
    pos := 8 * i;
    while k < 8 && pos < nb
      invariant 0 <= k <= 8 && pos == 8 * i + k <= nb
      invariant dest[..] == Overwrite(was, 0, bits[..pos])
      decreases 8 - k
    {
      UnpackOne(rsp[offset..], nb, i, k);
      OneMore(was, 0, bits, pos);
      dest[pos] := BitAt(temp, k);
      pos := pos + 1;
      k := k + 1;
    }
  }

  /** The words in the bytes from `offset` on, high byte first. */
  method StoreWords(rsp: array<Byte>, offset: nat, rc: nat, dest: array<Word>)
    requires offset + 2 * rc <= rsp.Length && rc <= dest.Length && (rsp as object) != dest
    modifies dest
    ensures dest[..] == Gather(rsp[offset..], rc) + old(dest[rc..])
  {
    hide Overwrite;
    ghost var words := Gather(rsp[offset..], rc);
    NoneYet(dest[..], 0);
    var i := 0;
    while i < rc
      invariant 0 <= i <= rc
      invariant dest[..] == Overwrite(old(dest[..]), 0, words[..i])
    {
      OneMore(old(dest[..]), 0, words, i);
      dest[i] := Join(rsp[offset + 2 * i], rsp[offset + 1 + 2 * i]);
      i := i + 1;
    }
    assert words[..rc] == words;
    FromStart(old(dest[..]), words);
  }

  /** Packs bits, the lowest first. */
  method PutBits(src: seq<Bit>, req: array<Byte>, n: nat) returns (n': nat)
    requires n + Bytes(|src|) <= req.Length
    modifies req
    ensures n' == n + Bytes(|src|) && req[..n'] == old(req[..n]) + PackBits(src)
  {
    hide PackBits, FromBits, Pending, Power, Group;
    ghost var packed := PackBits(src);
    n' := n;
    var i, pos := 0, 0;
    while i < Bytes(|src|)
      invariant 0 <= i <= Bytes(|src|) && pos == (if 8 * i <= |src| then 8 * i else |src|) && n' == n + i
      invariant req[..n'] == old(req[..n]) + packed[..i]
    {
      var value, k := 0, 0;
      MoreLeft(|src|, i);
      NothingPending(src, i);
      while k < 8 && pos < |src|
        invariant 0 <= k <= 8 && pos == 8 * i + k <= |src| && value == FromBits(Pending(src, i, k))
        modifies {}
        decreases 8 - k
      {
        PendingMore(src, i, k);
        value := value + src[pos] * Power(k);
        pos := pos + 1;
        k := k + 1;
      }
      PendingFull(src, i, k);
      n' := Put(req, n', [value]);
      assert packed[..i + 1] == packed[..i] + [packed[i]];
      i := i + 1;
    }
    assert packed[..Bytes(|src|)] == packed;
  }

  /** The words with their bytes exchanged. */
  function AllSwapped(ws: seq<Word>): (s: seq<Word>)
    ensures |s| == |ws|
    ensures forall i :: 0 <= i < |ws| ==> s[i] == 256 * (ws[i] % 256) + ws[i] / 256
  {
    seq(|ws|, (i: int) requires 0 <= i < |ws| => Swapped(ws[i]))
  }

  method PutWords(src: seq<Word>, swap: bool, req: array<Byte>, n: nat) returns (n': nat)
    requires n + 2 * |src| <= req.Length
    modifies req
    ensures n' == n + 2 * |src| && req[..n'] == old(req[..n]) + Spread(if swap then AllSwapped(src) else src)
  {
    hide Spread;
    ghost var words := if swap then AllSwapped(src) else src;
    n' := n;
    var i := 0;
    while i < |src|
      invariant 0 <= i <= |src| && n' == n + 2 * i
      invariant req[..n'] == old(req[..n]) + Spread(words)[..2 * i]
    {
      n' := Put(req, n', if swap then [Low(src[i]), High(src[i])] else [High(src[i]), Low(src[i])]);
      SpreadAt(words, i);
      SplitJoin(Low(src[i]), High(src[i]));
      assert Spread(words)[..2 * (i + 1)] == Spread(words)[..2 * i] + [High(words[i]), Low(words[i])];
      i := i + 1;
    }
    assert Spread(words)[..2 * |src|] == Spread(words);
  }

  lemma LongPdu(q: Request)
    requires Sendable(q) && (q.WriteBits? || q.WriteRegisters?)
    ensures q.WriteBits? ==>
      RequestPdu(q) == [Code(q)] + WordBytes(q.addr) + WordBytes(q.nb) + [Bytes(q.nb)] + PackBits(q.bits)
    ensures q.WriteRegisters? ==>
      RequestPdu(q) == [Code(q)] + WordBytes(q.addr) + WordBytes(q.nb) + [2 * q.nb] + Spread(q.words)
  {
  }

  lemma MaskPdu(q: Request)
    requires q.MaskWrite?
    ensures RequestPdu(q) == [Code(q)] + WordBytes(q.addr) + WordBytes(q.andMask) + WordBytes(q.orMask)
  {
  }

  lemma BothPdu(q: Request)
    requires Sendable(q) && q.WriteAndRead?
    ensures RequestPdu(q) ==
      [Code(q)] + WordBytes(q.addr) + WordBytes(q.nb) + WordBytes(q.writeAddr) + WordBytes(q.writeNb) +
      [q.count] + Spread(q.words)
  {
  }

  lemma Shorter(b: Backend, slave: Byte, tid: Word, s: seq<Byte>, pdu: seq<Byte>, last: seq<Byte>)
    requires Built(b, slave, tid, s, pdu + last)
    ensures |s| >= HeaderLength(b) + |last| && Built(b, slave, tid, s[..|s| - |last|], pdu)
  {
    assert s[..|s| - |last|][HeaderLength(b)..] == s[HeaderLength(b)..][..|pdu|];
    if b.Tcp? { assert s[..|s| - |last|][..4] == s[..4]; }
  }

  lemma WriteAnswers(t: Tables, q: Request)
    requires Sendable(q) && (q.WriteBit? || q.WriteRegister? || q.WriteBits? || q.WriteRegisters? || q.MaskWrite?)
    ensures Perform(t, q).0.Done? || Perform(t, q).0.Exception?
  {
  }

  lemma BothAnswers(t: Tables, q: Request)
    requires Sendable(q) && q.WriteAndRead? && !Strays(t, q)
    ensures Perform(t, q).0.Words? || Perform(t, q).0.Exception?
  {
  }

  lemma WordsAnswer(q: Request, a: Answer, s: seq<Byte>)
    requires Fits(q, a) && a.Words? && AnswerPdu(q, a) <= s
    ensures |s| >= 2 + 2 * |a.words| && |a.words| == q.nb && Gather(s[2..], |a.words|) == a.words
  {
    hide Gather, Spread;
    var rest := s[|AnswerPdu(q, a)|..];
    assert s == AnswerPdu(q, a) + rest;
    assert s[2..] == Spread(a.words) + rest;
    GatherSpread(a.words, rest);
  }

  lemma SameSwapped(w: Word)
    ensures Swapped(w) == w <==> High(w) == Low(w)
  {
    SplitJoin(Low(w), High(w));
  }

  lemma OverwriteOnce<T>(t: seq<T>, i: nat, u: seq<T>, v: seq<T>)
    requires i + |u| <= |t| && |u| == |v| && Overwrite(t, i, u) == Overwrite(t, i, v)
    ensures u == v
  {
    assert u == Overwrite(t, i, u)[i..i + |u|] && v == Overwrite(t, i, v)[i..i + |v|];
  }

  /** The registers written hold what was passed exactly when each word reads the same with its
      bytes swapped. */
  lemma WrittenAsPassed(t: seq<Word>, i: nat, ws: seq<Word>)
    requires i + |ws| <= |t|
    ensures Overwrite(t, i, AllSwapped(ws)) == Overwrite(t, i, ws) <==> forall k :: 0 <= k < |ws| ==>
      High(ws[k]) == Low(ws[k])
  {
    hide Overwrite, Swapped, High, Low;
    forall k | 0 <= k < |ws| ensures AllSwapped(ws)[k] == ws[k] <==> High(ws[k]) == Low(ws[k]) { SameSwapped(ws[k]); }
    if Overwrite(t, i, AllSwapped(ws)) == Overwrite(t, i, ws) { OverwriteOnce(t, i, AllSwapped(ws), ws); }
    if forall k :: 0 <= k < |ws| ==> High(ws[k]) == Low(ws[k]) { assert AllSwapped(ws) == ws; }
  }

  lemma FromStart<T>(was: seq<T>, values: seq<T>)
    requires |values| <= |was|
    ensures Overwrite(was, 0, values) == values + was[|values|..]
  {
  }

  lemma MoreLeft(nb: nat, i: nat)
    requires i < Bytes(nb)
    ensures 8 * i < nb
  {
  }

  lemma AllStored(nb: nat, rc: nat)
    requires rc == Bytes(nb)
    ensures 8 * rc >= nb
  {
  }

  lemma UnpackOne(s: seq<Byte>, nb: nat, i: nat, k: nat)
    requires |s| >= Bytes(nb) && 8 * i + k < nb && k < 8
    ensures i < |s| && UnpackBits(s, nb)[8 * i + k] == BitAt(s[i], k)
  {
    assert (8 * i + k) / 8 == i && (8 * i + k) % 8 == k;
  }

  /** A request without values is its function code and two words. */
  lemma ShortPdu(q: Request)
    requires Sendable(q) && (q.ReadBits? || q.ReadRegisters? || q.WriteBit? || q.WriteRegister?)
    ensures RequestPdu(q) == [Code(q)] + WordBytes(q.addr) + WordBytes(if q.ReadBits? ||
      q.ReadRegisters? then q.nb else q.data)
  {
  }

  /** Requests to read change nothing, and get values or an exception. */
  lemma ReadAnswers(t: Tables, q: Request)
    requires q.ReadBits? || q.ReadRegisters?
    ensures Perform(t, q).1 == t &&
      (Perform(t, q).0.Exception? || (if q.ReadBits? then Perform(t, q).0.Bits? else Perform(t, q).0.Words?))
  {
  }

  lemma BitsAnswer(q: Request, a: Answer, s: seq<Byte>)
    requires Fits(q, a) && a.Bits? && AnswerPdu(q, a) <= s
    ensures |s| >= 2 + Bytes(q.nb) && |a.bits| == q.nb && UnpackBits(s[2..], q.nb) == a.bits
  {
    hide UnpackBits, PackBits;
    var rest := s[|AnswerPdu(q, a)|..];
    assert s == AnswerPdu(q, a) + rest;
    assert s[2..] == PackBits(a.bits) + rest;
    UnpackPack(a.bits, rest);
  }

  lemma Truncated(v: nat)
    ensures WordBytes(v % 65536) == [v / 256 % 256, v % 256]
  {
    Digits(v, v / 256, v / 256 / 256, v / 256 % 256, v % 256);
  }

  lemma Digits(v: nat, w: nat, a: nat, c: nat, d: nat)
    requires w == v / 256 && d == v % 256 && a == w / 256 && c == w % 256
    ensures v % 65536 == 256 * c + d && High(v % 65536) == c && Low(v % 65536) == d
  {
    assert v == 65536 * a + (256 * c + d);
    SmallRest(v, a, 256 * c + d);
  }

  lemma SmallRest(v: nat, a: nat, r: nat)
    requires v == 65536 * a + r && r < 65536
    ensures v % 65536 == r
  {
  }

  lemma NothingThere(b: Backend)
    ensures FrameOf(b, Confirmation, []) == Cut
  {
  }

  lemma AnswerHeard(q: Request, a: Answer)
    requires Sendable(q) && Fits(q, a)
    ensures OnePdu(AnswerPdu(q, a), Confirmation)
  {
    AnswerWhole(q, a);
  }

  lemma FrameHeaded(b: Backend, slave: Byte, tid: Word, pdu: seq<Byte>, frame: seq<Byte>, s: seq<Byte>)
    requires |pdu| < 65535 && IsFrame(b, slave, tid, pdu, frame) && frame <= s
    ensures Headed(b, slave, tid, s)
  {
    FrameParts(b, slave, tid, pdu, frame);
    if b.Tcp? { assert s[..4] == [frame[0], frame[1], frame[2], frame[3]]; }
  }
}
