/**
 What the requests of Modbus mean, value by value and address by address: a server does this
 and nothing else.
 */
module ModbusMeaning {
  import opened Common
  import opened ModbusPdu

  /** A table that starts at `start` has a value at address `x`. */
  predicate Within(start: nat, length: nat, x: int) {
    start <= x < start + length
  }

  /** It has one at each of the `nb` addresses from `addr` on. */
  ghost predicate Has(start: nat, length: nat, addr: nat, nb: nat) {
    forall x :: addr <= x < addr + nb ==> Within(start, length, x)
  }

  /** The values from address `addr` on are these, and all others are what they were. */
  ghost predicate Placed<T(!new)>(was: seq<T>, now: seq<T>, start: nat, addr: nat, values: seq<T>) {
    && |now| == |was|
    && forall i :: 0 <= i < |was| ==>
         now[i] == if addr <= start + i < addr + |values| then values[start + i - addr] else was[i]
  }

  /** These are the values from address `addr` on. */
  ghost predicate Shown<T(!new)>(table: seq<T>, start: nat, addr: nat, values: seq<T>) {
    && Has(start, |table|, addr, |values|)
    && forall i :: 0 <= i < |values| ==> Within(start, |table|, addr + i) && values[i] == table[addr + i - start]
  }

  /** `dest` has got the `nb` values from address `addr` on. */
  ghost predicate Fetched<T(!new)>(table: seq<T>, start: nat, addr: nat, nb: nat, was: seq<T>, dest: seq<T>) {
    && |dest| == |was| && nb <= |was| && Has(start, |table|, addr, nb)
    && (forall i :: 0 <= i < nb ==> Within(start, |table|, addr + i) && dest[i] == table[addr + i - start])
    && forall i :: nb <= i < |was| ==> dest[i] == was[i]
  }

  /** Each bit of the old value stays where the one mask has a 1, and is that of the other mask
      elsewhere. */
  ghost predicate Merged(was: Word, now: Word, andMask: Word, orMask: Word) {
    forall k :: 0 <= k < 16 ==> BitAt(now, k) == if BitAt(andMask, k) == 1 then BitAt(was, k) else BitAt(orMask, k)
  }

  predicate Refused(was: Tables, a: Answer, now: Tables, code: Byte) {
    a == Exception(code) && now == was
  }

  /** The bits from address `addr` on have become these, and nothing else has changed. */
  ghost predicate BitsPut(was: Tables, now: Tables, addr: nat, values: seq<Bit>) {
    now == was.(bits := now.bits) && Placed(was.bits, now.bits, was.startBits, addr, values)
  }

  ghost predicate WordsPut(was: Tables, now: Tables, addr: nat, values: seq<Word>) {
    now == was.(registers := now.registers) && Placed(was.registers, now.registers, was.startRegisters, addr, values)
  }

  /** The register at this address has become the old value merged with the masks. */
  ghost predicate WordMerged(was: Tables, now: Tables, addr: nat, andMask: Word, orMask: Word) {
    && now == was.(registers := now.registers) && |now.registers| == |was.registers|
    && Within(was.startRegisters, |was.registers|, addr)
    && Merged(was.registers[addr - was.startRegisters], now.registers[addr - was.startRegisters], andMask, orMask)
    && Placed(was.registers, now.registers, was.startRegisters, addr, [now.registers[addr - was.startRegisters]])
  }

  /** What the answer to a request says, and what has become of the tables. */
  ghost predicate Serves(was: Tables, q: Request, a: Answer, now: Tables) {
    match q
    case ReadBits(input, addr, nb) =>
      var start, table := if input then was.startInputBits else was.startBits,
        if input then was.inputBits else was.bits;
      if nb < 1 || nb > 2000 then Refused(was, a, now, 3)
      else if !Has(start, |table|, addr, nb) then Refused(was, a, now, 2)
      else now == was && a.Bits? && |a.bits| == nb && Shown(table, start, addr, a.bits)
    case ReadRegisters(input, addr, nb) =>
      var start, table := if input then was.startInputRegisters else was.startRegisters,
        if input then was.inputRegisters else was.registers;
      if nb < 1 || nb > 125 then Refused(was, a, now, 3)
      else if !Has(start, |table|, addr, nb) then Refused(was, a, now, 2)
      else now == was && a.Words? && |a.words| == nb && Shown(table, start, addr, a.words)
    case WriteBit(addr, data) =>
      if !Within(was.startBits, |was.bits|, addr) then Refused(was, a, now, 2)
      else if data != 0xFF00 && data != 0x0000 then Refused(was, a, now, 3)
      else a == Done && BitsPut(was, now, addr, [if data == 0xFF00 then 1 else 0])
    case WriteRegister(addr, data) =>
      if !Within(was.startRegisters, |was.registers|, addr) then Refused(was, a, now, 2)
      else a == Done && WordsPut(was, now, addr, [data])
    case WriteBits(addr, nb, bits) =>
      if nb < 1 || nb > 1968 then Refused(was, a, now, 3)
      else if !Has(was.startBits, |was.bits|, addr, nb) then Refused(was, a, now, 2)
      else a == Done && BitsPut(was, now, addr, bits)
    case WriteRegisters(addr, nb, words) =>
      if nb < 1 || nb > 123 then Refused(was, a, now, 3)
      else if !Has(was.startRegisters, |was.registers|, addr, nb) then Refused(was, a, now, 2)
      else a == Done && WordsPut(was, now, addr, words)
    case MaskWrite(addr, andMask, orMask) =>
      if !Within(was.startRegisters, |was.registers|, addr) then Refused(was, a, now, 2)
      else a == Done && WordMerged(was, now, addr, andMask, orMask)
    case WriteAndRead(addr, nb, writeAddr, writeNb, count, words) =>
      if writeNb < 1 || writeNb > 121 || nb < 1 || nb > 125 || count != 2 * writeNb then Refused(was, a, now, 3)
      else if !Has(was.startRegisters, |was.registers|, addr, nb) ||
        !Has(was.startRegisters, |was.registers|, writeAddr, writeNb) then Refused(was, a, now, 2)
      else
        && WordsPut(was, now, writeAddr, words)
        && a.Words? && |a.words| == nb && Shown(now.registers, now.startRegisters, addr, a.words)
    case ReportSlaveId => now == was && a == Identity([180, 255, 76, 77, 66, 51, 46, 49, 46, 52])
    case ReadExceptionStatus => now == was && a == Silent
    case Unknown(_) => Refused(was, a, now, 1)
  }

  // ---- The masks, bit by bit ----

  lemma Doubled(x: bv16, y: bv16)
    requires y < 0x8000 && x == y << 1
    ensures x as int == 2 * (y as int)
  {
  }

  lemma DoubledOdd(x: bv16, y: bv16)
    requires y < 0x8000 && x == (y << 1) | 1
    ensures x as int == 2 * (y as int) + 1
  {
  }

  predicate Selects(d: bv16, a: bv16, o: bv16, m: bv16) {
    m == (d & a) | (o & !a)
  }

  function Half(x: bv16): bv16 { x >> 1 }

  predicate IsOdd(x: bv16) { x & 1 != 0 }

  function Next(h: bv16, odd: bool): bv16 { if odd then (h << 1) | 1 else h << 1 }

  predicate Small(h: bv16) { h < 0x8000 }

  predicate Is(x: bv16, v: nat) { x as int == v }

  predicate Halves(x: bv16, h: bv16, odd: bool) {
    h < 0x8000 && x == if odd then (h << 1) | 1 else h << 1
  }

  lemma HalfIs(x: bv16, h: bv16, odd: bool)
    requires h == Half(x) && odd == IsOdd(x)
    ensures Halves(x, h, odd)
  {
  }

  lemma HalvesIs(x: bv16, h: bv16, odd: bool, v: nat, u: nat)
    requires Halves(x, h, odd) && Is(x, v) && Is(h, u)
    ensures v == 2 * u + if odd then 1 else 0
  {
    if odd { DoubledOdd(x, h); } else { Doubled(x, h); }
  }

  lemma NextIs(h: bv16, odd: bool, u: nat)
    requires Small(h) && Is(h, u)
    ensures Is(Next(h, odd), 2 * u + if odd then 1 else 0)
  {
    if odd { DoubledOdd(Next(h, odd), h); } else { Doubled(Next(h, odd), h); }
  }

  lemma HalfOf(x: bv16, h: bv16, v: nat, u: nat, k: nat)
    requires h == Half(x) && Is(x, v) && Is(h, u)
    ensures BitAt(v, 0) == if IsOdd(x) then 1 else 0
    ensures k > 0 ==> BitAt(v, k) == BitAt(u, k - 1)
  {
    hide *;
    HalfIs(x, h, IsOdd(x));
    HalvesIs(x, h, IsOdd(x), v, u);
    Parts(v, u, if IsOdd(x) then 1 else 0, k);
  }

  lemma Parts(v: nat, h: nat, b: Bit, k: nat)
    requires v == 2 * h + b
    ensures BitAt(v, 0) == b && (k > 0 ==> BitAt(v, k) == BitAt(h, k - 1))
  {
  }

  lemma SelectsHalf(d: bv16, a: bv16, o: bv16, m: bv16, d': bv16, a': bv16, o': bv16, m': bv16)
    requires Selects(d, a, o, m) && d' == Half(d) && a' == Half(a) && o' == Half(o) && m' == Half(m)
    ensures Selects(d', a', o', m')
  {
  }

  lemma SelectsOdd(d: bv16, a: bv16, o: bv16, m: bv16)
    requires Selects(d, a, o, m)
    ensures IsOdd(m) == if IsOdd(a) then IsOdd(d) else IsOdd(o)
  {
  }

  lemma Value(x: bv16) returns (v: nat)
    ensures Is(x, v)
  {
    v := x as int;
  }

  lemma {:induction false} Chosen(d: bv16, a: bv16, o: bv16, m: bv16, i: nat, j: nat, l: nat, v: nat, k: nat)
    requires Selects(d, a, o, m) && Is(d, i) && Is(a, j) && Is(o, l) && Is(m, v)
    ensures BitAt(v, k) == if BitAt(j, k) == 1 then BitAt(i, k) else BitAt(l, k)
    decreases k
  {
    hide *;
    var i' := Value(Half(d));
    var j' := Value(Half(a));
    var l' := Value(Half(o));
    var v' := Value(Half(m));
    HalfOf(d, Half(d), i, i', k);
    HalfOf(a, Half(a), j, j', k);
    HalfOf(o, Half(o), l, l', k);
    HalfOf(m, Half(m), v, v', k);
    SelectsHalf(d, a, o, m, Half(d), Half(a), Half(o), Half(m));
    SelectsOdd(d, a, o, m);
    if k > 0 {
      Chosen(Half(d), Half(a), Half(o), Half(m), i', j', l', v', k - 1);
    }
  }

  lemma IsSmall(h: bv16, u: nat)
    requires Is(h, u) && u < 32768
    ensures Small(h)
  {
  }

  lemma There(x: bv16)
    ensures (x as int) as bv16 == x
  {
  }

  lemma Made(w: Word) returns (x: bv16)
    ensures Is(x, w)
  {
    hide Next, Small;
    if w == 0 {
      x := 0;
    } else {
      var h := Made(w / 2);
      IsSmall(h, w / 2);
      NextIs(h, w % 2 == 1, w / 2);
      x := Next(h, w % 2 == 1);
    }
  }

  lemma Back(w: Word)
    ensures Is(w as bv16, w)
  {
    var x := Made(w);
    There(x);
  }

  lemma MaskedBit(data: Word, andMask: Word, orMask: Word, k: nat)
    ensures BitAt(Masked(data, andMask, orMask), k) ==
      if BitAt(andMask, k) == 1 then BitAt(data, k) else BitAt(orMask, k)
  {
    hide *;
    var d, a, o := data as bv16, andMask as bv16, orMask as bv16;
    Back(data);
    Back(andMask);
    Back(orMask);
    var m := MaskedSelects(data, andMask, orMask, d, a, o);
    Chosen(d, a, o, m, data, andMask, orMask, Masked(data, andMask, orMask), k);
  }

  lemma MaskedSelects(data: Word, andMask: Word, orMask: Word, d: bv16, a: bv16, o: bv16) returns (m: bv16)
    requires d == data as bv16 && a == andMask as bv16 && o == orMask as bv16
    ensures Selects(d, a, o, m) && Is(m, Masked(data, andMask, orMask))
  {
    m := (d & a) | (o & !a);
  }

  // ---- What the server does is what the request means ----

  lemma CoversHas(start: nat, length: nat, addr: Word, nb: nat)
    requires nb >= 1
    ensures Covers(start, length, addr, nb) <==> Has(start, length, addr, nb)
    ensures nb == 1 ==> (Has(start, length, addr, nb) <==> Within(start, length, addr))
  {
    if Has(start, length, addr, nb) {
      assert Within(start, length, addr) && Within(start, length, addr + nb - 1);
    }
  }

  lemma OneAddress(start: nat, length: nat, x: nat)
    ensures Has(start, length, x, 1) <==> Within(start, length, x)
  {
    assert Has(start, length, x, 1) ==> Within(start, length, x);
  }

  lemma ShownIs<T(!new)>(table: seq<T>, start: nat, addr: Word, values: seq<T>)
    requires Covers(start, |table|, addr, |values|) && |values| >= 1
    ensures Shown(table, start, addr, values) <==> values == table[addr - start..addr - start + |values|]
  {
    CoversHas(start, |table|, addr, |values|);
    var s := table[addr - start..addr - start + |values|];
    forall i | 0 <= i < |values| ensures Within(start, |table|, addr + i) && s[i] == table[addr + i - start] {}
  }

  lemma ShownFetched<T(!new)>(table: seq<T>, start: nat, addr: nat, values: seq<T>, was: seq<T>, dest: seq<T>)
    requires Shown(table, start, addr, values) && |values| <= |was| && dest == values + was[|values|..]
    ensures Fetched(table, start, addr, |values|, was, dest)
  {
    forall i | 0 <= i < |values| ensures Within(start, |table|, addr + i) && dest[i] == table[addr + i - start] {
      assert dest[i] == values[i];
    }
  }

  lemma PlacedIs<T(!new)>(was: seq<T>, now: seq<T>, start: nat, addr: Word, values: seq<T>)
    requires Covers(start, |was|, addr, |values|)
    ensures Placed(was, now, start, addr, values) <==> now == Overwrite(was, addr - start, values)
  {
    var s := Overwrite(was, addr - start, values);
    forall i | 0 <= i < |was|
      ensures s[i] == if addr <= start + i < addr + |values| then values[start + i - addr] else was[i]
    {
    }
  }

  lemma PlacedOnce<T(!new)>(was: seq<T>, now: seq<T>, start: nat, addr: Word, v: T)
    requires Covers(start, |was|, addr, 1)
    ensures Placed(was, now, start, addr, [v]) <==> now == was[addr - start := v]
  {
    PlacedIs(was, now, start, addr, [v]);
    assert Overwrite(was, addr - start, [v]) == was[addr - start := v];
  }

  lemma {:induction false} SameBits(v: nat, w: nat, n: nat)
    requires v < Power(n) && w < Power(n)
    requires forall k :: 0 <= k < n ==> BitAt(v, k) == BitAt(w, k)
    ensures v == w
  {
    if n > 0 {
      forall k | 0 <= k < n - 1 ensures BitAt(v / 2, k) == BitAt(w / 2, k) {
        assert BitAt(v, k + 1) == BitAt(w, k + 1);
      }
      SameBits(v / 2, w / 2, n - 1);
      assert BitAt(v, 0) == BitAt(w, 0);
    }
  }

  lemma SixteenBits(v: Word, w: Word)
    requires forall k :: 0 <= k < 16 ==> BitAt(v, k) == BitAt(w, k)
    ensures v == w
  {
    assert Power(16) == 65536 by {
      assert Power(4) == 16;
      assert Power(8) == 256;
      assert Power(12) == 4096;
    }
    SameBits(v, w, 16);
  }

  lemma MergedIs(was: Word, now: Word, andMask: Word, orMask: Word)
    ensures Merged(was, now, andMask, orMask) <==> now == Masked(was, andMask, orMask)
  {
    hide Masked, BitAt;
    var v := Masked(was, andMask, orMask);
    forall k | 0 <= k < 16
      ensures BitAt(v, k) == if BitAt(andMask, k) == 1 then BitAt(was, k) else BitAt(orMask, k)
    {
      MaskedBit(was, andMask, orMask, k);
    }
    if Merged(was, now, andMask, orMask) { SixteenBits(v, now); }
  }

  lemma ReadBitsServed(t: Tables, q: Request, a: Answer, now: Tables)
    requires q.ReadBits?
    ensures Serves(t, q, a, now) <==> (a, now) == Perform(t, q)
  {
    hide Shown, Has;
    var start, table := if q.input then t.startInputBits else t.startBits, if q.input then t.inputBits else t.bits;
    if q.nb >= 1 {
      CoversHas(start, |table|, q.addr, q.nb);
      if a.Bits? && |a.bits| == q.nb && Covers(start, |table|, q.addr, q.nb) {
        ShownIs(table, start, q.addr, a.bits);
      }
    }
  }

  lemma ReadRegistersServed(t: Tables, q: Request, a: Answer, now: Tables)
    requires q.ReadRegisters?
    ensures Serves(t, q, a, now) <==> (a, now) == Perform(t, q)
  {
    hide Shown, Has;
    var start, table := if q.input then t.startInputRegisters else t.startRegisters,
      if q.input then t.inputRegisters else t.registers;
    if q.nb >= 1 {
      CoversHas(start, |table|, q.addr, q.nb);
      if a.Words? && |a.words| == q.nb && Covers(start, |table|, q.addr, q.nb) {
        ShownIs(table, start, q.addr, a.words);
      }
    }
  }

  lemma WriteBitServed(t: Tables, q: Request, a: Answer, now: Tables)
    requires q.WriteBit?
    ensures Serves(t, q, a, now) <==> (a, now) == Perform(t, q)
  {
    hide Placed, Covers;
    CoversHas(t.startBits, |t.bits|, q.addr, 1);
    if Covers(t.startBits, |t.bits|, q.addr, 1) {
      PlacedOnce(t.bits, now.bits, t.startBits, q.addr, if q.data == 0xFF00 then 1 else 0);
    }
  }

  lemma WriteRegisterServed(t: Tables, q: Request, a: Answer, now: Tables)
    requires q.WriteRegister?
    ensures Serves(t, q, a, now) <==> (a, now) == Perform(t, q)
  {
    hide Placed, Covers;
    CoversHas(t.startRegisters, |t.registers|, q.addr, 1);
    if Covers(t.startRegisters, |t.registers|, q.addr, 1) {
      PlacedOnce(t.registers, now.registers, t.startRegisters, q.addr, q.data);
    }
  }

  lemma WriteBitsServed(t: Tables, q: Request, a: Answer, now: Tables)
    requires q.WriteBits? && Complete(q)
    ensures Serves(t, q, a, now) <==> (a, now) == Perform(t, q)
  {
    hide Placed, Has, Covers, Overwrite;
    if Allowed(q.nb, MAX_WRITE_BITS) {
      CoversHas(t.startBits, |t.bits|, q.addr, q.nb);
      if Covers(t.startBits, |t.bits|, q.addr, q.nb) {
        PlacedIs(t.bits, now.bits, t.startBits, q.addr, q.bits);
      }
    }
  }

  lemma WriteRegistersServed(t: Tables, q: Request, a: Answer, now: Tables)
    requires q.WriteRegisters? && Complete(q)
    ensures Serves(t, q, a, now) <==> (a, now) == Perform(t, q)
  {
    hide Placed, Has, Covers, Overwrite;
    if Allowed(q.nb, MAX_WRITE_REGISTERS) {
      CoversHas(t.startRegisters, |t.registers|, q.addr, q.nb);
      if Covers(t.startRegisters, |t.registers|, q.addr, q.nb) {
        PlacedIs(t.registers, now.registers, t.startRegisters, q.addr, q.words);
      }
    }
  }

  lemma MaskWriteServed(t: Tables, q: Request, a: Answer, now: Tables)
    requires q.MaskWrite?
    ensures Serves(t, q, a, now) <==> (a, now) == Perform(t, q)
  {
    hide Placed, Covers, Merged, Masked;
    CoversHas(t.startRegisters, |t.registers|, q.addr, 1);
    if Covers(t.startRegisters, |t.registers|, q.addr, 1) && |now.registers| == |t.registers| {
      var i := q.addr - t.startRegisters;
      PlacedOnce(t.registers, now.registers, t.startRegisters, q.addr, now.registers[i]);
      MergedIs(t.registers[i], now.registers[i], q.andMask, q.orMask);
    }
  }

  lemma WriteAndReadServed(t: Tables, q: Request, a: Answer, now: Tables)
    requires q.WriteAndRead? && Complete(q) && !Strays(t, q)
    ensures Serves(t, q, a, now) <==> (a, now) == Perform(t, q)
  {
    hide Placed, Has, Overwrite, Shown;
    if Allowed(q.nb, MAX_WR_READ_REGISTERS) && Allowed(q.writeNb, MAX_WR_WRITE_REGISTERS) {
      CoversHas(t.startRegisters, |t.registers|, q.addr, q.nb);
      CoversHas(t.startRegisters, |t.registers|, q.writeAddr, q.writeNb);
      if Covers(t.startRegisters, |t.registers|, q.addr, q.nb) &&
        Covers(t.startRegisters, |t.registers|, q.writeAddr, q.writeNb) {
        PlacedIs(t.registers, now.registers, t.startRegisters, q.writeAddr, q.words);
        if a.Words? && |a.words| == q.nb && |now.registers| == |t.registers| {
          ShownIs(now.registers, t.startRegisters, q.addr, a.words);
        }
      }
    }
  }

  /** The server answers and does what the request means, and nothing else means it. */
  lemma Served(t: Tables, q: Request, a: Answer, now: Tables)
    requires Complete(q) && !Strays(t, q)
    ensures Serves(t, q, a, now) <==> (a, now) == Perform(t, q)
  {
    match q {
      case ReadBits(_, _, _) => ReadBitsServed(t, q, a, now);
      case ReadRegisters(_, _, _) => ReadRegistersServed(t, q, a, now);
      case WriteBit(_, _) => WriteBitServed(t, q, a, now);
      case WriteRegister(_, _) => WriteRegisterServed(t, q, a, now);
      case WriteBits(_, _, _) => WriteBitsServed(t, q, a, now);
      case WriteRegisters(_, _, _) => WriteRegistersServed(t, q, a, now);
      case MaskWrite(_, _, _) => MaskWriteServed(t, q, a, now);
      case WriteAndRead(_, _, _, _, _, _) => WriteAndReadServed(t, q, a, now);
      case ReportSlaveId =>
      case ReadExceptionStatus =>
      case Unknown(_) =>
    }
  }

  // ---- A read after a write ----

  predicate ReadsAs<T(==)>(table: seq<T>, start: nat, x: nat, v: T) {
    Within(start, |table|, x) && table[x - start] == v
  }

  /** What a bit reads as after a request that wrote. */
  lemma BitReadBack(was: Tables, q: Request, now: Tables, addr: Word, nb: Word, a: Answer, last: Tables, i: nat)
    requires Complete(q) && !Strays(was, q) && Serves(was, q, Done, now)
    requires Serves(now, ReadBits(false, addr, nb), a, last) && a.Bits? && i < |a.bits|
    ensures
      if q.WriteBit? && addr + i == q.addr then a.bits[i] == if q.data == 0xFF00 then 1 else 0
      else if q.WriteBits? && q.addr <= addr + i < q.addr + q.nb then a.bits[i] == q.bits[addr + i - q.addr]
      else ReadsAs(was.bits, was.startBits, addr + i, a.bits[i])
  {
    assert Within(now.startBits, |now.bits|, addr + i);
  }

  /** What a register reads as after a request that wrote. */
  lemma WordReadBack(was: Tables, q: Request, now: Tables, addr: Word, nb: Word, a: Answer, last: Tables, i: nat)
    requires Complete(q) && !Strays(was, q) && Serves(was, q, Done, now)
    requires Serves(now, ReadRegisters(false, addr, nb), a, last) && a.Words? && i < |a.words|
    ensures
      if q.WriteRegister? && addr + i == q.addr then a.words[i] == q.data
      else if q.WriteRegisters? && q.addr <= addr + i < q.addr + q.nb then a.words[i] == q.words[addr + i - q.addr]
      else if q.MaskWrite? && addr + i == q.addr then
        Merged(was.registers[addr + i - was.startRegisters], a.words[i], q.andMask, q.orMask)
      else ReadsAs(was.registers, was.startRegisters, addr + i, a.words[i])
  {
    hide Merged;
    assert Within(now.startRegisters, |now.registers|, addr + i);
  }
}
