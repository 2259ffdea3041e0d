/**
 Frames of the Modbus library: a message with its header and checksum, as the backends build
 it, and the receiver of `modbus.c` that finds where it ends while the bytes trickle in.
 */
module ModbusFrame {
  import opened Common
  import Crc
  import CrcTables
  import opened ModbusPdu

  datatype Backend = Rtu | Tcp

  function HeaderLength(b: Backend): nat { if b.Rtu? then 1 else 7 }
  function ChecksumLength(b: Backend): nat { if b.Rtu? then 2 else 0 }
  function MaxAdu(b: Backend): nat { if b.Rtu? then 256 else 260 }

  const MAX_MESSAGE_LENGTH: nat := 260

  // ---- Frames ----

  /** The bytes as the checksum takes them. */
  function Wire(msg: seq<Byte>): (s: seq<CrcTables.Byte>)
    ensures |s| == |msg|
  {
    seq(|msg|, (i: int) requires 0 <= i < |msg| => msg[i] as bv16)
  }

  /** The frame in which the backend sends `pdu`: after the transaction, the protocol and the
      length, or before the checksum. */
  ghost predicate IsFrame(b: Backend, slave: Byte, tid: Word, pdu: seq<Byte>, frame: seq<Byte>)
    requires |pdu| < 65535
  {
    match b
    case Tcp => frame == [High(tid), Low(tid), 0, 0] + WordBytes(|pdu| + 1) + [slave] + pdu
    case Rtu => |frame| == |pdu| + 3 && frame[..|pdu| + 1] == [slave] + pdu && Crc.Whole(Wire(frame))
  }

  lemma TakeDrop(s: seq<Byte>, h: nat, n: nat)
    requires h <= n <= |s|
    ensures s[..n][h..] == s[h..n]
  {
  }

  /** A slice of the beginning of a sequence. */
  lemma SliceOfPrefix(s: seq<Byte>, p: seq<Byte>, i: nat, j: nat)
    requires p <= s && i <= j <= |p|
    ensures s[i..j] == p[i..j] && p[i..j] <= s[i..]
  {
  }

  lemma FrameParts(b: Backend, slave: Byte, tid: Word, pdu: seq<Byte>, frame: seq<Byte>)
    requires |pdu| < 65535 && IsFrame(b, slave, tid, pdu, frame)
    ensures |frame| == HeaderLength(b) + |pdu| + ChecksumLength(b)
    ensures frame[HeaderLength(b) - 1] == slave && frame[HeaderLength(b)..HeaderLength(b) + |pdu|] == pdu
    ensures b.Tcp? ==> frame[0] == High(tid) && frame[1] == Low(tid) && frame[2] == 0 && frame[3] == 0
  {
    if b.Rtu? {
      assert frame[..|pdu| + 1][0] == slave;
      assert frame[1..1 + |pdu|] == frame[..|pdu| + 1][1..];
    }
  }

  /** A request on its way to a server, or the answer to one. */
  datatype MsgType = Indication | Confirmation

  // ---- Lengths ----

  function MetaLength(fn: Byte, t: MsgType): (n: nat)
    ensures n <= 9
  {
    match t
    case Indication =>
      if fn <= WRITE_SINGLE_REGISTER then 4
      else if fn == WRITE_MULTIPLE_COILS || fn == WRITE_MULTIPLE_REGISTERS then 5
      else if fn == MASK_WRITE_REGISTER then 6
      else if fn == WRITE_AND_READ_REGISTERS then 9
      else 0
    case Confirmation =>
      if fn == WRITE_SINGLE_COIL || fn == WRITE_SINGLE_REGISTER || fn == WRITE_MULTIPLE_COILS ||
        fn == WRITE_MULTIPLE_REGISTERS then 4
      else if fn == MASK_WRITE_REGISTER then 6
      else 1
  }

  /** How many bytes follow the meta information, by the count that it holds. */
  function DataLength(pdu: seq<Byte>, t: MsgType): (n: nat)
    requires |pdu| > 0 && |pdu| > MetaLength(pdu[0], t)
    ensures n < 256
  {
    var fn := pdu[0];
    match t
    case Indication =>
      if fn == WRITE_MULTIPLE_COILS || fn == WRITE_MULTIPLE_REGISTERS then pdu[5]
      else if fn == WRITE_AND_READ_REGISTERS then pdu[9]
      else 0
    case Confirmation =>
      if fn <= READ_INPUT_REGISTERS || fn == REPORT_SLAVE_ID || fn == WRITE_AND_READ_REGISTERS then pdu[1] else 0
  }

  lemma SameData(p: seq<Byte>, s: seq<Byte>, t: MsgType)
    requires |p| > 0 && |p| > MetaLength(p[0], t) && p <= s
    ensures DataLength(s, t) == DataLength(p, t)
  {
  }

  /** A function code, its meta information and as much data as that announces. */
  predicate OnePdu(pdu: seq<Byte>, t: MsgType) {
    |pdu| > 0 && |pdu| > MetaLength(pdu[0], t) && |pdu| == 1 + MetaLength(pdu[0], t) + DataLength(pdu, t)
  }

  /** What the head of a stream is: a whole message of `n` bytes, one longer than any may be,
      or the beginning of one. */
  datatype Receipt = Whole(n: nat) | TooLong | Cut

  function FrameOf(b: Backend, t: MsgType, stream: seq<Byte>): (r: Receipt)
    ensures r.Whole? ==> HeaderLength(b) < r.n <= |stream| && r.n <= MaxAdu(b)
  {
    var h := HeaderLength(b);
    if |stream| <= h then Cut
    else
      var meta := MetaLength(stream[h], t);
      if |stream| < h + 1 + meta then Cut
      else
        var n := h + 1 + meta + DataLength(stream[h..], t) + ChecksumLength(b);
        if n > MaxAdu(b) then TooLong else if |stream| < n then Cut else Whole(n)
  }

  /** The receiver finds the end of a message as its sender built it, whatever follows. */
  lemma FrameFound(b: Backend, slave: Byte, tid: Word, pdu: seq<Byte>, frame: seq<Byte>, t: MsgType, rest: seq<Byte>)
    requires OnePdu(pdu, t) && |pdu| <= MAX_PDU_LENGTH && IsFrame(b, slave, tid, pdu, frame)
    ensures FrameOf(b, t, frame + rest) == Whole(|frame|)
  {
    hide IsFrame, MetaLength, DataLength;
    FrameParts(b, slave, tid, pdu, frame);
    var h, s := HeaderLength(b), frame + rest;
    assert s[h..h + |pdu|] == pdu && s[h] == pdu[0];
    assert pdu <= s[h..];
    SameData(pdu, s[h..], t);
  }

  /** Every request that a client sends is one message. */
  lemma RequestWhole(q: Request)
    requires Sendable(q)
    ensures OnePdu(RequestPdu(q), Indication)
  {
    hide PackBits, Spread;
    match q
    case WriteBits(_, _, _) => assert RequestPdu(q)[5] == Bytes(q.nb);
    case WriteRegisters(_, _, _) => assert RequestPdu(q)[5] == 2 * q.nb;
    case WriteAndRead(_, _, _, _, _, _) => assert RequestPdu(q)[9] == q.count;
    case _ =>
  }

  /** Every answer that a server sends is one message, unless the function asked for is no
      function. */
  lemma AnswerWhole(q: Request, a: Answer)
    requires Fits(q, a) && (a.Exception? ==> Code(q) < 128)
    ensures OnePdu(AnswerPdu(q, a), Confirmation)
  {
    hide PackBits, Spread;
  }

  /** `compute_response_length_from_request`: how long the answer will be, or nothing when only
      the answer knows. */
  function ResponseLength(b: Backend, p: seq<Byte>): Option<nat>
    requires |p| > 0 && (p[0] in {1, 2, 3, 4, WRITE_AND_READ_REGISTERS} ==> |p| >= 5)
  {
    var fn := p[0];
    if fn == REPORT_SLAVE_ID then None
    else
      var length :=
        if fn == READ_COILS || fn == READ_DISCRETE_INPUTS then 2 + Bytes(At(p, 3))
        else if fn == WRITE_AND_READ_REGISTERS || fn == READ_HOLDING_REGISTERS ||
          fn == READ_INPUT_REGISTERS then 2 + 2 * At(p, 3)
        else if fn == READ_EXCEPTION_STATUS then 3
        else if fn == MASK_WRITE_REGISTER then 7
        else 5;
      Some(HeaderLength(b) + length + ChecksumLength(b))
  }

  lemma AnswerLength(q: Request, a: Answer)
    requires Fits(q, a) && !a.Exception?
    ensures |AnswerPdu(q, a)| ==
      match a
      case Bits(bits) => 2 + Bytes(q.nb)
      case Words(words) => 2 + 2 * q.nb
      case Done => if q.MaskWrite? then 7 else 5
      case Identity(text) => 2 + |text|
  {
    hide PackBits, Spread;
  }

  /** The length foreseen is the length of the answer that comes, unless it is an exception. */
  lemma LengthForeseen(b: Backend, q: Request, a: Answer, slave: Byte, tid: Word, frame: seq<Byte>)
    requires Sendable(q) && Fits(q, a) && !a.Exception? && IsFrame(b, slave, tid, AnswerPdu(q, a), frame)
    ensures ResponseLength(b, RequestPdu(q)) == if q.ReportSlaveId? then None else Some(|frame|)
  {
    hide IsFrame, RequestPdu, AnswerPdu, At;
    FrameParts(b, slave, tid, AnswerPdu(q, a), frame);
    AnswerLength(q, a);
    if !q.ReportSlaveId? { NbSent(q); }
  }

  /** Where a request says how many values it asks for. */
  lemma NbSent(q: Request)
    requires Sendable(q) && !q.ReportSlaveId?
    ensures |RequestPdu(q)| >= 5
    ensures q.ReadBits? || q.ReadRegisters? || q.WriteBits? || q.WriteRegisters? || q.WriteAndRead? ==>
      At(RequestPdu(q), 3) == q.nb
  {
    hide PackBits, Spread;
    match q {
      case ReadBits(_, addr, nb) => Head(Code(q), addr, nb, []);
      case ReadRegisters(_, addr, nb) => Head(Code(q), addr, nb, []);
      case WriteBits(addr, nb, bits) =>
        Regroup([Code(q)] + WordBytes(addr) + WordBytes(nb), [Bytes(nb)], PackBits(bits), []);
        Head(Code(q), addr, nb, [Bytes(nb)] + PackBits(bits));
      case WriteRegisters(addr, nb, words) =>
        Head(Code(q), addr, nb, [2 * nb] + Spread(words));
        Regroup([Code(q)] + WordBytes(addr) + WordBytes(nb), [2 * nb], Spread(words), []);
      case WriteAndRead(addr, nb, wa, wn, c, words) =>
        TailGroup([Code(q)] + WordBytes(addr) + WordBytes(nb), WordBytes(wa), WordBytes(wn), [c], Spread(words), []);
        Head(Code(q), addr, nb, WordBytes(wa) + WordBytes(wn) + [c] + (Spread(words) + []));
      case _ =>
    }
  }

  // ---- The receiver ----

  datatype Step = STEP_FUNCTION | STEP_META | STEP_DATA

  /** How many of the bytes asked for one read delivers: at least one, as `chunks` will have it. */
  function Delivered(chunks: seq<nat>, turn: nat, asked: nat, there: nat): (rc: nat)
    requires asked > 0 && there > 0
    ensures 1 <= rc <= asked && rc <= there
  {
    var most := if asked <= there then asked else there;
    if turn < |chunks| && 1 <= chunks[turn] < most then chunks[turn] else most
  }

  /** One read. */
  method Recv(stream: seq<Byte>, msg: array<Byte>, pos: nat, rc: nat)
    requires pos + rc <= |stream| && pos + rc <= msg.Length && msg[..pos] == stream[..pos]
    modifies msg
    ensures msg[..pos + rc] == stream[..pos + rc]
  {
    var i := 0;
    while i < rc
      invariant 0 <= i <= rc && msg[..pos + i] == stream[..pos + i]
    {
      msg[pos + i] := stream[pos + i];
      assert stream[..pos + (i + 1)] == stream[..pos + i] + [stream[pos + i]];
      i := i + 1;
    }
  }

  /** How far the step in hand goes. */
  ghost predicate Reading(b: Backend, t: MsgType, stream: seq<Byte>, step: Step, pos: nat, left: nat) {
    var h := HeaderLength(b);
    match step
    case STEP_FUNCTION => pos + left == h + 1
    case STEP_META => pos > h && |stream| > h && pos + left == h + 1 + MetaLength(stream[h], t)
    case STEP_DATA =>
      && |stream| > h && |stream| >= h + 1 + MetaLength(stream[h], t) && pos >= h + 1 + MetaLength(stream[h], t)
      && pos + left == h + 1 + MetaLength(stream[h], t) + DataLength(stream[h..], t) + ChecksumLength(b) <= MaxAdu(b)
  }

  /** What is to be read next, when all that was asked for is there. */
  method Advance(b: Backend, t: MsgType, step: Step, msg: array<Byte>, pos: nat, ghost stream: seq<Byte>)
    returns (next: Step, left: nat, tooLong: bool)
    requires pos <= |stream| && pos <= msg.Length && msg[..pos] == stream[..pos] && Reading(b, t, stream, step, pos, 0)
    requires step != STEP_DATA && pos > HeaderLength(b)
    ensures tooLong ==> FrameOf(b, t, stream) == TooLong
    ensures !tooLong ==> Reading(b, t, stream, next, pos, left) && (left == 0 ==> next == STEP_DATA)
  {
    hide DataLength;
    var h := HeaderLength(b);
    next, left, tooLong := step, 0, false;
    assert msg[..pos][h] == stream[..pos][h];
    if next == STEP_FUNCTION {
      left := MetaLength(msg[h], t);
      if left != 0 { next := STEP_META; }
    }
    if left == 0 {
      SamePdu(b, t, msg[..pos], stream);
      assert msg[..pos][h..] == msg[h..pos];
      left := DataLength(msg[h..pos], t) + ChecksumLength(b);
      tooLong := pos + left > MaxAdu(b);
      next := STEP_DATA;
    }
  }

  lemma Beginning(b: Backend, t: MsgType, stream: seq<Byte>)
    ensures Reading(b, t, stream, STEP_FUNCTION, 0, HeaderLength(b) + 1)
  {
  }

  lemma AllRead(b: Backend, t: MsgType, stream: seq<Byte>, step: Step, pos: nat, left: nat)
    requires pos <= |stream| && Reading(b, t, stream, step, pos, left)
    ensures pos + left <= MAX_MESSAGE_LENGTH
    ensures left == 0 && step == STEP_DATA ==> FrameOf(b, t, stream) == Whole(pos)
    ensures left > 0 && pos == |stream| ==> FrameOf(b, t, stream) == Cut
  {
    hide DataLength, MetaLength;
  }

  lemma ReadMore(b: Backend, t: MsgType, stream: seq<Byte>, step: Step, pos: nat, left: nat, rc: nat)
    requires pos + rc <= |stream| && rc <= left && Reading(b, t, stream, step, pos, left)
    ensures Reading(b, t, stream, step, pos + rc, left - rc) && (left == rc ==> pos + rc > HeaderLength(b))
  {
    hide DataLength, MetaLength;
  }

  /** The message at the head of the stream, whatever pieces it arrives in. */
  method ReceiveMsg(b: Backend, t: MsgType, stream: seq<Byte>, chunks: seq<nat>, msg: array<Byte>) returns (r: Receipt)
    requires msg.Length == MAX_MESSAGE_LENGTH
    modifies msg
    ensures r == FrameOf(b, t, stream)
    ensures r.Whole? ==> msg[..r.n] == stream[..r.n]
  {
    hide Reading, FrameOf, DataLength, MetaLength;
    var step := STEP_FUNCTION;
    var left: nat, pos: nat, turn: nat := HeaderLength(b) + 1, 0, 0;
    Beginning(b, t, stream);
    AllRead(b, t, stream, step, pos, left);
    while left != 0
      invariant pos <= |stream| && pos + left <= MAX_MESSAGE_LENGTH && msg[..pos] == stream[..pos]
      invariant Reading(b, t, stream, step, pos, left) && (left == 0 ==> step == STEP_DATA)
      decreases |stream| - pos
    {
      AllRead(b, t, stream, step, pos, left);
      if pos == |stream| { return Cut; }
      var rc := Delivered(chunks, turn, left, |stream| - pos);
      turn := turn + 1;
      Recv(stream, msg, pos, rc);
      ReadMore(b, t, stream, step, pos, left, rc);
      pos, left := pos + rc, left - rc;
      if left == 0 {
        if step != STEP_DATA {
          var tooLong;
          step, left, tooLong := Advance(b, t, step, msg, pos, stream);
          if tooLong { return TooLong; }
          AllRead(b, t, stream, step, pos, left);
        }
      }
    }
    AllRead(b, t, stream, step, pos, left);
    return Whole(pos);
  }

  /** The meta information is all that the length depends on. */
  lemma SamePdu(b: Backend, t: MsgType, front: seq<Byte>, stream: seq<Byte>)
    requires |front| <= |stream| && front == stream[..|front|] && |front| > HeaderLength(b)
    requires |front| >= HeaderLength(b) + 1 + MetaLength(front[HeaderLength(b)], t)
    ensures DataLength(front[HeaderLength(b)..], t) == DataLength(stream[HeaderLength(b)..], t)
  {
    var h := HeaderLength(b);
    assert forall i :: 0 <= i < |front| - h ==> front[h..][i] == stream[h..][i];
  }

  // ---- The sender ----

  /** Stores bytes one after the other. */
  method Put(msg: array<Byte>, n: nat, bytes: seq<Byte>) returns (n': nat)
    requires n + |bytes| <= msg.Length
    modifies msg
    ensures n' == n + |bytes| && msg[..n'] == old(msg[..n]) + bytes
  {
    var i := 0;
    while i < |bytes|
      invariant 0 <= i <= |bytes| && msg[..n + i] == old(msg[..n]) + bytes[..i]
    {
      msg[n + i] := bytes[i];
      assert msg[..n + (i + 1)] == msg[..n + i] + [bytes[i]];
      assert bytes[..i + 1] == bytes[..i] + [bytes[i]];
      i := i + 1;
    }
    assert bytes[..i] == bytes;
    n' := n + |bytes|;
  }

  /** A message under construction: its header is there, apart from the length. */
  ghost predicate Headed(b: Backend, slave: Byte, tid: Word, s: seq<Byte>) {
    |s| >= HeaderLength(b) && s[HeaderLength(b) - 1] == slave && (b.Tcp? ==> s[..4] == [High(tid), Low(tid), 0, 0])
  }

  lemma HeadedMore(b: Backend, slave: Byte, tid: Word, s: seq<Byte>, bytes: seq<Byte>)
    requires Headed(b, slave, tid, s)
    ensures Headed(b, slave, tid, s + bytes) && (s + bytes)[HeaderLength(b)..] == s[HeaderLength(b)..] + bytes
  {
    if b.Tcp? { assert (s + bytes)[..4] == s[..4]; }
  }

  /** The header of a message, and its function code. */
  method BuildBasis(b: Backend, slave: Byte, tid: Word, fn: Byte, msg: array<Byte>) returns (n: nat)
    requires msg.Length >= HeaderLength(b) + 1
    modifies msg
    ensures n == HeaderLength(b) + 1 && Headed(b, slave, tid, msg[..n]) && msg[HeaderLength(b)..n] == [fn]
  {
    var header := if b.Rtu? then [slave] else [High(tid), Low(tid), 0, 0, msg[4], msg[5], slave];
    n := Put(msg, 0, header + [fn]);
    assert msg[..n] == header + [fn];
    HeadedMore(b, slave, tid, header, [fn]);
    assert msg[..n][HeaderLength(b)..] == msg[HeaderLength(b)..n];
  }

  /** Completes a message: the length goes into the header, or the checksum to the end. */
  method SendMsgPre(b: Backend, msg: array<Byte>, n: nat, ghost slave: Byte, ghost tid: Word) returns (n': nat)
    requires HeaderLength(b) <= n && n + ChecksumLength(b) <= msg.Length && n < 65535
    requires Headed(b, slave, tid, msg[..n])
    modifies msg
    ensures n' == n + ChecksumLength(b)
    ensures IsFrame(b, slave, tid, old(msg[HeaderLength(b)..n]), msg[..n'])
  {
    match b {
      case Tcp =>
        ghost var s := msg[..n];
        msg[4], msg[5] := High(n - 6), Low(n - 6);
        n' := n;
        assert msg[..n'] == [High(tid), Low(tid), 0, 0] + WordBytes(n - 6) + [slave] + old(msg[7..n]) by {
          assert s[0] == s[..4][0] && s[1] == s[..4][1] && s[2] == s[..4][2] && s[3] == s[..4][3];
        }
      case Rtu =>
        n' := SendChecked(msg, n);
        assert msg[..n'][..n] == [slave] + old(msg[1..n]);
    }
  }

  /** The checksum works on the bytes as words of sixteen bits. */
  method SendChecked(msg: array<Byte>, n: nat) returns (n': nat)
    requires n + 2 <= msg.Length && n < 65535
    modifies msg
    ensures n' == n + 2 && msg[..n] == old(msg[..n]) && Crc.Whole(Wire(msg[..n']))
  {
    hide Crc.Whole, Wire;
    var wire := ToWire(msg[..n]);
    n' := Crc.SendMsgPre(wire, n);
    ghost var front := msg[..n];
    msg[n], msg[n + 1] := wire[n] as int, wire[n + 1] as int;
    assert msg[..n'] == front + [msg[n], msg[n + 1]];
    assert wire[..n'] == wire[..n] + [wire[n], wire[n + 1]];
    WireMore(front, wire[n], wire[n + 1]);
  }

  lemma WireMore(s: seq<Byte>, x: CrcTables.Byte, y: CrcTables.Byte)
    ensures 0 <= x as int < 256 && 0 <= y as int < 256 && Wire(s + [x as int, y as int]) == Wire(s) + [x, y]
  {
    BackAgain(x);
    BackAgain(y);
  }

  lemma BackAgain(x: CrcTables.Byte)
    ensures 0 <= x as int < 256 && (x as int) as bv16 == x
  {
  }

  method ToWire(s: seq<Byte>) returns (wire: array<CrcTables.Byte>)
    ensures fresh(wire) && wire.Length == |s| + 2 && wire[..|s|] == Wire(s)
  {
    wire := new CrcTables.Byte[|s| + 2](_ => 0);
    var i := 0;
    while i < |s|
      invariant 0 <= i <= |s| && wire[..i] == Wire(s)[..i]
    {
      wire[i] := s[i] as bv16;
      i := i + 1;
    }
  }

  // ---- What is accepted ----

  /** A message for this device. */
  predicate ForUs(b: Backend, slave: Byte, to: Byte) {
    b.Tcp? || to == slave || to == 0
  }

  /** `_modbus_receive_msg`: the length of a whole message for this device, 0 for a message to
      another, and -1 for anything else. */
  method Receive(b: Backend, slave: Byte, t: MsgType, stream: seq<Byte>, chunks: seq<nat>,
      msg: array<Byte>) returns (rc: int)
    requires msg.Length == MAX_MESSAGE_LENGTH
    modifies msg
    ensures !FrameOf(b, t, stream).Whole? ==> rc == -1
    ensures FrameOf(b, t, stream).Whole? ==>
      var n := FrameOf(b, t, stream).n;
      msg[..n] == stream[..n] && (rc == n || rc == 0 || rc == -1) &&
      (rc == 0 <==> !ForUs(b, slave, stream[0])) &&
      (rc == n <==> ForUs(b, slave, stream[0]) && (b.Rtu? ==> Crc.Whole(Wire(stream[..n]))))
  {
    hide Crc.Whole, Wire;
    var r := ReceiveMsg(b, t, stream, chunks, msg);
    match r {
      case Whole(n) =>
        if b.Tcp? { return n; }
        var wire := ToWire(msg[..n]);
        assert msg[..n][0] == stream[0];
        FirstWire(msg[..n]);
        rc := Crc.CheckIntegrity(slave, wire[..n]);
      case _ =>
        rc := -1;
    }
  }

  lemma FirstWire(s: seq<Byte>)
    requires |s| > 0
    ensures Wire(s)[0] as int == s[0]
  {
    SameByte(s[0]);
  }

  lemma SameByte(b: Byte)
    ensures (b as bv16) as int == b
  {
    var x := CountTo(b);
    OneWord(b, x);
  }

  lemma {:induction false} CountTo(b: Byte) returns (x: bv16)
    ensures x as int == b
  {
    if b == 0 {
      x := 0;
    } else {
      x := CountTo(b - 1);
      NextWord(x, b - 1);
      x := x + 1;
    }
  }

  lemma NextWord(x: bv16, b: Byte)
    requires x as int == b
    ensures (x + 1) as int == b + 1
  {
  }

  lemma OneWord(b: Byte, x: bv16)
    requires x as int == b
    ensures b as bv16 == x
  {
  }

  /** A frame of the other side is accepted, whatever follows it. */
  lemma FrameAccepted(b: Backend, slave: Byte, t: MsgType, stream: seq<Byte>, frame: seq<Byte>, to: Byte, tid: Word,
      pdu: seq<Byte>)
    requires ForUs(b, slave, to) && OnePdu(pdu, t) && |pdu| <= MAX_PDU_LENGTH && frame <= stream &&
      IsFrame(b, to, tid, pdu, frame)
    ensures FrameOf(b, t, stream) == Whole(|frame|) &&
      |frame| == HeaderLength(b) + |pdu| + ChecksumLength(b) <= MAX_MESSAGE_LENGTH
    ensures stream[..|frame|] == frame && ForUs(b, slave, stream[0]) && (b.Rtu? ==> Crc.Whole(Wire(frame)))
  {
    hide Crc.Whole, OnePdu, Wire;
    FrameFound(b, to, tid, pdu, frame, t, stream[|frame|..]);
    assert stream == frame + stream[|frame|..] && stream[..|frame|] == frame;
    FrameParts(b, to, tid, pdu, frame);
    assert b.Rtu? ==> frame[0] == to;
  }

  lemma AnyTid(b: Backend, slave: Byte, tid: Word, tid': Word, pdu: seq<Byte>, frame: seq<Byte>)
    requires |pdu| < 65535 && IsFrame(b, slave, tid, pdu, frame) && (b.Tcp? ==> tid' == tid)
    ensures IsFrame(b, slave, tid', pdu, frame)
  {
  }
}
