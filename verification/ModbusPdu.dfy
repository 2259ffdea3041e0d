/**
 What Modbus requests and answers say, the bytes that say it, and what a server does about a
 request: the contents of `modbus.c` apart from buffers and lines.
 */
module ModbusPdu {
  import opened Common

  type Bit = b: int | 0 <= b < 2 witness 0

  const READ_COILS: Byte := 1
  const READ_DISCRETE_INPUTS: Byte := 2
  const READ_HOLDING_REGISTERS: Byte := 3
  const READ_INPUT_REGISTERS: Byte := 4
  const WRITE_SINGLE_COIL: Byte := 5
  const WRITE_SINGLE_REGISTER: Byte := 6
  const READ_EXCEPTION_STATUS: Byte := 7
  const WRITE_MULTIPLE_COILS: Byte := 15
  const WRITE_MULTIPLE_REGISTERS: Byte := 16
  const REPORT_SLAVE_ID: Byte := 17
  const MASK_WRITE_REGISTER: Byte := 22
  const WRITE_AND_READ_REGISTERS: Byte := 23

  const MAX_READ_BITS: nat := 2000
  const MAX_WRITE_BITS: nat := 1968
  const MAX_READ_REGISTERS: nat := 125
  const MAX_WRITE_REGISTERS: nat := 123
  const MAX_WR_WRITE_REGISTERS: nat := 121
  const MAX_WR_READ_REGISTERS: nat := 125

  const MAX_PDU_LENGTH: nat := 253

  const ILLEGAL_FUNCTION: Byte := 1
  const ILLEGAL_DATA_ADDRESS: Byte := 2
  const ILLEGAL_DATA_VALUE: Byte := 3
  const EXCEPTION_MAX: nat := 12

  // ---- Words and bits as bytes ----

  function High(w: Word): Byte { w / 256 }

  function Low(w: Word): Byte { w % 256 }

  function Join(h: Byte, l: Byte): Word { h * 256 + l }

  function Swapped(w: Word): Word { Join(Low(w), High(w)) }

  lemma JoinSplit(w: Word)
    ensures Join(High(w), Low(w)) == w && Swapped(Swapped(w)) == w
  {
  }

  lemma SplitJoin(h: Byte, l: Byte)
    ensures High(Join(h, l)) == h && Low(Join(h, l)) == l
  {
  }

  /** The words, high byte first. */
  function Spread(ws: seq<Word>): (s: seq<Byte>)
    ensures |s| == 2 * |ws|
  {
    seq(2 * |ws|, (i: int) requires 0 <= i < 2 * |ws| => if i % 2 == 0 then High(ws[i / 2]) else Low(ws[i / 2]))
  }

  function Gather(s: seq<Byte>, n: nat): (ws: seq<Word>)
    requires |s| >= 2 * n
    ensures |ws| == n
  {
    seq(n, (i: int) requires 0 <= i < n => Join(s[2 * i], s[2 * i + 1]))
  }

  lemma SpreadAt(ws: seq<Word>, i: nat)
    requires i < |ws|
    ensures Spread(ws)[2 * i] == High(ws[i]) && Spread(ws)[2 * i + 1] == Low(ws[i])
  {
    assert (2 * i) / 2 == i && (2 * i + 1) / 2 == i;
  }

  lemma GatherSpread(ws: seq<Word>, rest: seq<Byte>)
    ensures Gather(Spread(ws) + rest, |ws|) == ws
  {
    hide Spread, Join, High, Low;
    forall i | 0 <= i < |ws| ensures Gather(Spread(ws) + rest, |ws|)[i] == ws[i] {
      SpreadAt(ws, i);
      JoinSplit(ws[i]);
    }
  }

  /** How many bytes hold `n` bits. */
  function Bytes(n: nat): nat { n / 8 + (if n % 8 != 0 then 1 else 0) }

  function Power(k: nat): nat { if k == 0 then 1 else 2 * Power(k - 1) }

  /** The number whose bits these are, the lowest first. */
  function FromBits(bits: seq<Bit>): (v: nat)
    ensures v < Power(|bits|)
  {
    if bits == [] then 0 else bits[0] + 2 * FromBits(bits[1..])
  }

  function BitAt(v: nat, k: nat): Bit {
    if k == 0 then v % 2 else BitAt(v / 2, k - 1)
  }

  lemma {:induction false} BitOf(bits: seq<Bit>, k: nat)
    requires k < |bits|
    ensures BitAt(FromBits(bits), k) == bits[k]
  {
    if k > 0 { BitOf(bits[1..], k - 1); }
  }

  lemma {:induction false} FromBitsMore(bits: seq<Bit>, b: Bit)
    ensures FromBits(bits + [b]) == FromBits(bits) + b * Power(|bits|)
  {
    if bits == [] {
      assert bits + [b] == [b];
    } else {
      FromBitsMore(bits[1..], b);
      assert (bits + [b])[1..] == bits[1..] + [b];
    }
  }

  lemma PowerByte(n: nat)
    requires n <= 8
    ensures Power(n) <= 256
    decreases 8 - n
  {
    if n < 8 {
      PowerByte(n + 1);
    } else {
      assert Power(8) == 2 * Power(7) == 4 * Power(6) == 8 * Power(5) == 16 * Power(4);
    }
  }

  /** The bits that go into byte `j`. */
  function Group(bits: seq<Bit>, j: nat): (g: seq<Bit>)
    requires j < Bytes(|bits|)
    ensures 0 < |g| <= 8 && 8 * j + |g| <= |bits| && forall k :: 0 <= k < |g| ==> g[k] == bits[8 * j + k]
  {
    bits[8 * j..if 8 * j + 8 <= |bits| then 8 * j + 8 else |bits|]
  }

  function GroupByte(bits: seq<Bit>): (v: Byte)
    requires |bits| <= 8
  {
    PowerByte(|bits|);
    FromBits(bits)
  }

  function PackBits(bits: seq<Bit>): (s: seq<Byte>)
    ensures |s| == Bytes(|bits|)
  {
    seq(Bytes(|bits|), (j: int) requires 0 <= j < Bytes(|bits|) => GroupByte(Group(bits, j)))
  }

  function UnpackBits(s: seq<Byte>, n: nat): (bits: seq<Bit>)
    requires |s| >= Bytes(n)
    ensures |bits| == n
  {
    seq(n, (i: int) requires 0 <= i < n => BitAt(s[i / 8], i % 8))
  }

  /** The packing of the client and of the server's answers is undone by the other side. */
  lemma UnpackPack(bits: seq<Bit>, rest: seq<Byte>)
    ensures UnpackBits(PackBits(bits) + rest, |bits|) == bits
  {
    forall i | 0 <= i < |bits| ensures UnpackBits(PackBits(bits) + rest, |bits|)[i] == bits[i] {
      var j, k := i / 8, i % 8;
      assert (PackBits(bits) + rest)[j] == GroupByte(Group(bits, j)) == FromBits(Group(bits, j));
      BitOf(Group(bits, j), k);
    }
  }

  // ---- Requests ----

  /** A request as the server reads it.  `nb` says how many values are meant; if that is not
      allowed, none are read. */
  datatype Request =
    | ReadBits(input: bool, addr: Word, nb: Word)
    | ReadRegisters(input: bool, addr: Word, nb: Word)
    | WriteBit(addr: Word, data: Word)
    | WriteRegister(addr: Word, data: Word)
    | WriteBits(addr: Word, nb: Word, bits: seq<Bit>)
    | WriteRegisters(addr: Word, nb: Word, words: seq<Word>)
    | MaskWrite(addr: Word, andMask: Word, orMask: Word)
    | WriteAndRead(addr: Word, nb: Word, writeAddr: Word, writeNb: Word, count: Byte, words: seq<Word>)
    | ReportSlaveId
    | ReadExceptionStatus
    | Unknown(fn: Byte)

  function Code(q: Request): Byte {
    match q
    case ReadBits(input, _, _) => if input then READ_DISCRETE_INPUTS else READ_COILS
    case ReadRegisters(input, _, _) => if input then READ_INPUT_REGISTERS else READ_HOLDING_REGISTERS
    case WriteBit(_, _) => WRITE_SINGLE_COIL
    case WriteRegister(_, _) => WRITE_SINGLE_REGISTER
    case WriteBits(_, _, _) => WRITE_MULTIPLE_COILS
    case WriteRegisters(_, _, _) => WRITE_MULTIPLE_REGISTERS
    case MaskWrite(_, _, _) => MASK_WRITE_REGISTER
    case WriteAndRead(_, _, _, _, _, _) => WRITE_AND_READ_REGISTERS
    case ReportSlaveId => REPORT_SLAVE_ID
    case ReadExceptionStatus => READ_EXCEPTION_STATUS
    case Unknown(fn) => fn
  }

  /** A call within the limits of the client: it sends as many values as it says. */
  predicate Sendable(q: Request) {
    match q
    case ReadBits(_, _, nb) => nb <= MAX_READ_BITS
    case ReadRegisters(_, _, nb) => nb <= MAX_READ_REGISTERS
    case WriteBit(_, _) => true
    case WriteRegister(_, _) => true
    case WriteBits(_, nb, bits) => nb == |bits| <= MAX_WRITE_BITS
    case WriteRegisters(_, nb, words) => nb == |words| <= MAX_WRITE_REGISTERS
    case MaskWrite(_, _, _) => true
    case WriteAndRead(_, nb, _, writeNb, count, words) =>
      nb <= MAX_WR_READ_REGISTERS && writeNb == |words| <= MAX_WR_WRITE_REGISTERS && count == 2 * |words|
    case ReportSlaveId => true
    case ReadExceptionStatus => false
    case Unknown(_) => false
  }

  function WordBytes(w: Word): (s: seq<Byte>)
    ensures |s| == 2
  {
    [High(w), Low(w)]
  }

  /** The bytes of a request. */
  function RequestPdu(q: Request): (s: seq<Byte>)
    requires Sendable(q)
    ensures 1 <= |s| <= MAX_PDU_LENGTH && s[0] == Code(q)
  {
    match q
    case ReadBits(_, addr, nb) => [Code(q)] + WordBytes(addr) + WordBytes(nb)
    case ReadRegisters(_, addr, nb) => [Code(q)] + WordBytes(addr) + WordBytes(nb)
    case WriteBit(addr, data) => [Code(q)] + WordBytes(addr) + WordBytes(data)
    case WriteRegister(addr, data) => [Code(q)] + WordBytes(addr) + WordBytes(data)
    case WriteBits(addr, nb, bits) => [Code(q)] + WordBytes(addr) + WordBytes(nb) + [Bytes(nb)] + PackBits(bits)
    case WriteRegisters(addr, nb, words) => [Code(q)] + WordBytes(addr) + WordBytes(nb) + [2 * nb] + Spread(words)
    case MaskWrite(addr, andMask, orMask) => [Code(q)] + WordBytes(addr) + WordBytes(andMask) + WordBytes(orMask)
    case WriteAndRead(addr, nb, writeAddr, writeNb, count, words) =>
      [Code(q)] + WordBytes(addr) + WordBytes(nb) + WordBytes(writeAddr) + WordBytes(writeNb) + [count] + Spread(words)
    case ReportSlaveId => [Code(q)]
  }

  /** The word at `i`. */
  function At(p: seq<Byte>, i: nat): Word
    requires i + 1 < |p|
  {
    Join(p[i], p[i + 1])
  }

  predicate Allowed(nb: nat, max: nat) { 1 <= nb <= max }

  function BitsAt(p: seq<Byte>, nb: Word): seq<Bit>
    requires |p| >= MAX_PDU_LENGTH
  {
    if Allowed(nb, MAX_WRITE_BITS) then UnpackBits(p[6..], nb) else []
  }

  function WordsAt(p: seq<Byte>, i: nat, nb: Word, max: nat): seq<Word>
    requires |p| >= MAX_PDU_LENGTH && i + 2 * max <= MAX_PDU_LENGTH
  {
    if Allowed(nb, max) then Gather(p[i..], nb) else []
  }

  /** How the server reads a request: `p` is what its buffer holds from the function code on,
      the end of the message included. */
  function Decode(p: seq<Byte>): (q: Request)
    requires |p| >= MAX_PDU_LENGTH
    ensures Code(q) == p[0] && Complete(q)
  {
    var fn := p[0];
    var addr := At(p, 1);
    var nb := At(p, 3);
    if fn == READ_COILS || fn == READ_DISCRETE_INPUTS then ReadBits(fn == READ_DISCRETE_INPUTS, addr, nb)
    else if fn == READ_HOLDING_REGISTERS || fn == READ_INPUT_REGISTERS then
      ReadRegisters(fn == READ_INPUT_REGISTERS, addr, nb)
    else if fn == WRITE_SINGLE_COIL then WriteBit(addr, nb)
    else if fn == WRITE_SINGLE_REGISTER then WriteRegister(addr, nb)
    else if fn == WRITE_MULTIPLE_COILS then
      WriteBits(addr, nb, BitsAt(p, nb))
    else if fn == WRITE_MULTIPLE_REGISTERS then
      WriteRegisters(addr, nb, WordsAt(p, 6, nb, MAX_WRITE_REGISTERS))
    else if fn == MASK_WRITE_REGISTER then MaskWrite(addr, nb, At(p, 5))
    else if fn == WRITE_AND_READ_REGISTERS then
      WriteAndRead(addr, nb, At(p, 5), At(p, 7), p[9], WordsAt(p, 10, At(p, 7), MAX_WR_WRITE_REGISTERS))
    else if fn == REPORT_SLAVE_ID then ReportSlaveId
    else if fn == READ_EXCEPTION_STATUS then ReadExceptionStatus
    else Unknown(fn)
  }

  /** The first five bytes of most requests, and what follows. */
  lemma Head(fn: Byte, v: Word, w: Word, tail: seq<Byte>)
    ensures var p := [fn] + WordBytes(v) + WordBytes(w) + tail;
      |p| == 5 + |tail| && p[0] == fn && At(p, 1) == v && At(p, 3) == w && p[5..] == tail
  {
    JoinSplit(v);
    JoinSplit(w);
  }

  lemma Regroup(front: seq<Byte>, v: seq<Byte>, w: seq<Byte>, rest: seq<Byte>)
    ensures front + v + w + rest == front + (v + (w + rest)) && front + v + rest == front + (v + rest)
  {
  }

  lemma Next(p: seq<Byte>, c: Byte, s: seq<Byte>)
    requires |p| == 6 + |s| && p[5..] == [c] + s
    ensures p[6..] == s
  {
    assert p[6..] == p[5..][1..];
  }

  lemma DecodeBits(q: Request, rest: seq<Byte>)
    requires Sendable(q) && q.WriteBits? && |RequestPdu(q)| + |rest| >= MAX_PDU_LENGTH
    ensures Decode(RequestPdu(q) + rest) == q
  {
    hide BitsAt, UnpackBits, PackBits, At, Bytes, WordBytes;
    var front, tail := [Code(q)] + WordBytes(q.addr) + WordBytes(q.nb), [Bytes(q.nb)] + (PackBits(q.bits) + rest);
    var p := RequestPdu(q) + rest;
    Regroup(front, [Bytes(q.nb)], PackBits(q.bits), rest);
    Head(Code(q), q.addr, q.nb, tail);
    Next(p, Bytes(q.nb), PackBits(q.bits) + rest);
    BitsRead(p, q.bits, rest);
  }

  lemma BitsRead(p: seq<Byte>, bits: seq<Bit>, rest: seq<Byte>)
    requires |p| >= MAX_PDU_LENGTH && p[6..] == PackBits(bits) + rest && |bits| <= MAX_WRITE_BITS
    ensures BitsAt(p, |bits|) == bits
  {
    hide UnpackBits, PackBits;
    UnpackPack(bits, rest);
  }

  lemma WordsRead(p: seq<Byte>, i: nat, words: seq<Word>, max: nat, rest: seq<Byte>)
    requires |p| >= MAX_PDU_LENGTH && i + 2 * max <= MAX_PDU_LENGTH && |words| <= max <= 123 &&
      p[i..] == Spread(words) + rest
    ensures WordsAt(p, i, |words|, max) == words
  {
    hide Gather, Spread;
    GatherSpread(words, rest);
  }

  lemma DecodeRegisters(q: Request, rest: seq<Byte>)
    requires Sendable(q) && q.WriteRegisters? && |RequestPdu(q)| + |rest| >= MAX_PDU_LENGTH
    ensures Decode(RequestPdu(q) + rest) == q
  {
    hide WordsAt, Spread, At, WordBytes;
    var front, tail := [Code(q)] + WordBytes(q.addr) + WordBytes(q.nb), [2 * q.nb] + (Spread(q.words) + rest);
    var p := RequestPdu(q) + rest;
    Regroup(front, [2 * q.nb], Spread(q.words), rest);
    Head(Code(q), q.addr, q.nb, tail);
    Next(p, 2 * q.nb, Spread(q.words) + rest);
    WordsRead(p, 6, q.words, MAX_WRITE_REGISTERS, rest);
  }

  lemma DecodeMask(q: Request, rest: seq<Byte>)
    requires Sendable(q) && q.MaskWrite? && |RequestPdu(q)| + |rest| >= MAX_PDU_LENGTH
    ensures Decode(RequestPdu(q) + rest) == q
  {
    var front := [Code(q)] + WordBytes(q.addr) + WordBytes(q.andMask);
    Regroup(front, WordBytes(q.orMask), [], rest);
    Head(Code(q), q.addr, q.andMask, WordBytes(q.orMask) + rest);
    JoinSplit(q.orMask);
    var p := RequestPdu(q) + rest;
    assert p[5..] == WordBytes(q.orMask) + rest;
    assert p[5] == p[5..][0] && p[6] == p[5..][1];
  }

  lemma Tail(v: Word, w: Word, c: Byte, s: seq<Byte>)
    ensures var tail := WordBytes(v) + WordBytes(w) + [c] + s;
      |tail| == 5 + |s| && At(tail, 0) == v && At(tail, 2) == w && tail[4] == c && tail[5..] == s
  {
    JoinSplit(v);
    JoinSplit(w);
  }

  lemma Behind(p: seq<Byte>, tail: seq<Byte>)
    requires |p| == 5 + |tail| && p[5..] == tail && |tail| >= 5
    ensures At(p, 5) == At(tail, 0) && At(p, 7) == At(tail, 2) && p[9] == tail[4] && p[10..] == tail[5..]
  {
    assert p[5] == tail[0] && p[6] == tail[1] && p[7] == tail[2] && p[8] == tail[3] && p[9] == tail[4];
  }

  lemma TailGroup(front: seq<Byte>, a: seq<Byte>, b: seq<Byte>, c: seq<Byte>, d: seq<Byte>, e: seq<Byte>)
    ensures front + a + b + c + d + e == front + (a + b + c + (d + e))
  {
  }

  lemma DecodeBoth(q: Request, rest: seq<Byte>)
    requires Sendable(q) && q.WriteAndRead? && |RequestPdu(q)| + |rest| >= MAX_PDU_LENGTH
    ensures Decode(RequestPdu(q) + rest) == q
  {
    hide WordsAt, Spread, At, WordBytes;
    var front := [Code(q)] + WordBytes(q.addr) + WordBytes(q.nb);
    var tail := WordBytes(q.writeAddr) + WordBytes(q.writeNb) + [q.count] + (Spread(q.words) + rest);
    var p := RequestPdu(q) + rest;
    TailGroup(front, WordBytes(q.writeAddr), WordBytes(q.writeNb), [q.count], Spread(q.words), rest);
    Head(Code(q), q.addr, q.nb, tail);
    Tail(q.writeAddr, q.writeNb, q.count, Spread(q.words) + rest);
    Behind(p, tail);
    WordsRead(p, 10, q.words, MAX_WR_WRITE_REGISTERS, rest);
  }

  /** The server reads what the client sent, whatever else is in its buffer. */
  lemma DecodeRequest(q: Request, rest: seq<Byte>)
    requires Sendable(q) && |RequestPdu(q)| + |rest| >= MAX_PDU_LENGTH
    ensures Decode(RequestPdu(q) + rest) == q
  {
    hide BitsAt, WordsAt, At;
    match q
    case ReadBits(_, addr, nb) => Head(Code(q), addr, nb, rest);
    case ReadRegisters(_, addr, nb) => Head(Code(q), addr, nb, rest);
    case WriteBit(addr, data) => Head(Code(q), addr, data, rest);
    case WriteRegister(addr, data) => Head(Code(q), addr, data, rest);
    case WriteBits(_, _, _) => DecodeBits(q, rest);
    case WriteRegisters(_, _, _) => DecodeRegisters(q, rest);
    case MaskWrite(_, _, _) => DecodeMask(q, rest);
    case WriteAndRead(_, _, _, _, _, _) => DecodeBoth(q, rest);
    case ReportSlaveId =>
  }

  // ---- What a server does ----

  /** The four tables of a server, and the addresses at which they start. */
  datatype Tables = Tables(bits: seq<Bit>, inputBits: seq<Bit>, registers: seq<Word>, inputRegisters: seq<Word>,
    startBits: nat, startInputBits: nat, startRegisters: nat, startInputRegisters: nat)

  datatype Answer =
    | Bits(bits: seq<Bit>)
    | Words(words: seq<Word>)
    | Done
    | Identity(text: seq<Byte>)
    | Exception(code: Byte)
    | Silent

  /** What a server of this version tells about itself: its number, that it runs, and "LMB3.1.4". */
  const IDENTITY: seq<Byte> := [180, 0xFF, 76, 77, 66, 51, 46, 49, 46, 52]

  /** The addresses `addr` to `addr + nb` fall into a table. */
  predicate Covers(start: nat, length: nat, addr: Word, nb: nat) {
    start <= addr && addr - start + nb <= length
  }

  /** The table with `values` from place `i` on. */
  function Overwrite<T>(table: seq<T>, i: nat, values: seq<T>): (s: seq<T>)
    requires i + |values| <= |table|
    ensures |s| == |table|
  {
    table[..i] + values + table[i + |values|..]
  }

  /** `AND` keeps bits of the old value, and `OR` gives the others. */
  function Masked(data: Word, andMask: Word, orMask: Word): Word {
    (((data as bv16) & (andMask as bv16)) | ((orMask as bv16) & !(andMask as bv16))) as int
  }

  /** The writes that go below the table: the code compares the address to read twice and the
      address to write never (modbus.c:961-964). */
  predicate Strays(t: Tables, q: Request) {
    q.WriteAndRead? && q.writeAddr < t.startRegisters
  }

  /** Nothing is missing that the request says it holds. */
  predicate Complete(q: Request) {
    (q.WriteBits? && Allowed(q.nb, MAX_WRITE_BITS) ==> |q.bits| == q.nb) &&
    (q.WriteRegisters? && Allowed(q.nb, MAX_WRITE_REGISTERS) ==> |q.words| == q.nb) &&
    (q.WriteAndRead? && Allowed(q.writeNb, MAX_WR_WRITE_REGISTERS) ==> |q.words| == q.writeNb)
  }

  /** What becomes of a request: the values asked for or written are exactly those addressed,
      and an exception changes nothing. */
  function Perform(t: Tables, q: Request): (r: (Answer, Tables))
    requires Complete(q) && !Strays(t, q)
  {
    match q
    case ReadBits(input, addr, nb) =>
      var start, table := if input then t.startInputBits else t.startBits, if input then t.inputBits else t.bits;
      if !Allowed(nb, MAX_READ_BITS) then (Exception(ILLEGAL_DATA_VALUE), t)
      else if !Covers(start, |table|, addr, nb) then (Exception(ILLEGAL_DATA_ADDRESS), t)
      else (Bits(table[addr - start..addr - start + nb]), t)
    case ReadRegisters(input, addr, nb) =>
      var start, table := if input then t.startInputRegisters else t.startRegisters, if input then
        t.inputRegisters else t.registers;
      if !Allowed(nb, MAX_READ_REGISTERS) then (Exception(ILLEGAL_DATA_VALUE), t)
      else if !Covers(start, |table|, addr, nb) then (Exception(ILLEGAL_DATA_ADDRESS), t)
      else (Words(table[addr - start..addr - start + nb]), t)
    case WriteBit(addr, data) =>
      if !Covers(t.startBits, |t.bits|, addr, 1) then (Exception(ILLEGAL_DATA_ADDRESS), t)
      else if data != 0xFF00 && data != 0 then (Exception(ILLEGAL_DATA_VALUE), t)
      else (Done, t.(bits := t.bits[addr - t.startBits := if data != 0 then 1 else 0]))
    case WriteRegister(addr, data) =>
      if !Covers(t.startRegisters, |t.registers|, addr, 1) then (Exception(ILLEGAL_DATA_ADDRESS), t)
      else (Done, t.(registers := t.registers[addr - t.startRegisters := data]))
    case WriteBits(addr, nb, bits) =>
      if !Allowed(nb, MAX_WRITE_BITS) then (Exception(ILLEGAL_DATA_VALUE), t)
      else if !Covers(t.startBits, |t.bits|, addr, nb) then (Exception(ILLEGAL_DATA_ADDRESS), t)
      else (Done, t.(bits := Overwrite(t.bits, addr - t.startBits, bits)))
    case WriteRegisters(addr, nb, words) =>
      if !Allowed(nb, MAX_WRITE_REGISTERS) then (Exception(ILLEGAL_DATA_VALUE), t)
      else if !Covers(t.startRegisters, |t.registers|, addr, nb) then (Exception(ILLEGAL_DATA_ADDRESS), t)
      else (Done, t.(registers := Overwrite(t.registers, addr - t.startRegisters, words)))
    case MaskWrite(addr, andMask, orMask) =>
      if !Covers(t.startRegisters, |t.registers|, addr, 1) then (Exception(ILLEGAL_DATA_ADDRESS), t)
      else
        var i := addr - t.startRegisters;
        (Done, t.(registers := t.registers[i := Masked(t.registers[i], andMask, orMask)]))
    case WriteAndRead(addr, nb, writeAddr, writeNb, count, words) =>
      if !Allowed(writeNb, MAX_WR_WRITE_REGISTERS) || !Allowed(nb, MAX_WR_READ_REGISTERS) || count != 2 * writeNb then
        (Exception(ILLEGAL_DATA_VALUE), t)
      else if !Covers(t.startRegisters, |t.registers|, addr, nb) ||
        !Covers(t.startRegisters, |t.registers|, writeAddr, writeNb) then
        (Exception(ILLEGAL_DATA_ADDRESS), t)
      else
        var written := Overwrite(t.registers, writeAddr - t.startRegisters, words);
        (Words(written[addr - t.startRegisters..addr - t.startRegisters + nb]), t.(registers := written))
    case ReportSlaveId => (Identity(IDENTITY), t)
    case ReadExceptionStatus => (Silent, t)
    case Unknown(_) => (Exception(ILLEGAL_FUNCTION), t)
  }

  lemma Performed(t: Tables, q: Request)
    requires Complete(q) && !Strays(t, q)
    ensures q.ReadExceptionStatus? || Fits(q, Perform(t, q).0)
    ensures Perform(t, q).0.Exception? || q.ReadBits? || q.ReadRegisters? ==> Perform(t, q).1 == t
  {
  }

  // ---- Answers ----

  /** Whether an answer belongs to a request. */
  predicate Fits(q: Request, a: Answer) {
    match a
    case Bits(bits) => q.ReadBits? && |bits| == q.nb && Allowed(q.nb, MAX_READ_BITS)
    case Words(words) =>
      (q.ReadRegisters? && |words| == q.nb && Allowed(q.nb, MAX_READ_REGISTERS)) ||
      (q.WriteAndRead? && |words| == q.nb && Allowed(q.nb, MAX_WR_READ_REGISTERS))
    case Done => q.WriteBit? || q.WriteRegister? || q.WriteBits? || q.WriteRegisters? || q.MaskWrite?
    case Identity(text) => q.ReportSlaveId? && |text| <= MAX_PDU_LENGTH - 2
    case Exception(code) => code < EXCEPTION_MAX
    case Silent => false
  }

  /** The bytes of an answer. */
  function AnswerPdu(q: Request, a: Answer): (s: seq<Byte>)
    requires Fits(q, a)
    ensures 2 <= |s| <= MAX_PDU_LENGTH && s[0] == if a.Exception? then (Code(q) + 128) % 256 else Code(q)
  {
    match a
    case Bits(bits) => [Code(q), Bytes(|bits|)] + PackBits(bits)
    case Words(words) => [Code(q), 2 * |words|] + Spread(words)
    case Done => (
      match q
      case WriteBit(addr, data) => [Code(q)] + WordBytes(addr) + WordBytes(data)
      case WriteRegister(addr, data) => [Code(q)] + WordBytes(addr) + WordBytes(data)
      case WriteBits(addr, nb, _) => [Code(q)] + WordBytes(addr) + WordBytes(nb)
      case WriteRegisters(addr, nb, _) => [Code(q)] + WordBytes(addr) + WordBytes(nb)
      case MaskWrite(addr, andMask, orMask) => [Code(q)] + WordBytes(addr) + WordBytes(andMask) + WordBytes(orMask))
    case Identity(text) => [Code(q), |text|] + text
    case Exception(code) => [(Code(q) + 128) % 256, code]
  }
}
