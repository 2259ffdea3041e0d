/**
 The RTU checksum.  `crc16` goes byte by byte through two tables; the standard (section
 2.5.1.2 of MODBUS over Serial Line V1.02) shifts and xors bit by bit.  A byte goes out on the
 line lowest bit first, so a frame is also the sequence of its bits in that order.
 */
module Crc {
  import opened CrcTables

  // ---- Folds over bits, for any register ----

  function Fold<S>(feed: (S, bool) -> S, r: S, bits: seq<bool>): S
    decreases |bits|
  {
    if bits == [] then r else Fold(feed, feed(r, bits[0]), bits[1..])
  }

  function Flatten<B>(bits: B -> seq<bool>, msg: seq<B>): seq<bool> {
    if msg == [] then [] else Flatten(bits, msg[..|msg| - 1]) + bits(msg[|msg| - 1])
  }

  /** The bits that come out of a word one by one. */
  function Expand<W>(low: W -> bool, rest: W -> W, w: W, n: nat): (s: seq<bool>)
    ensures |s| == n
    decreases n
  {
    if n == 0 then [] else [low(w)] + Expand(low, rest, rest(w), n - 1)
  }

  function Iterate<S>(f: S -> S, x: S, n: nat): S
    decreases n
  {
    if n == 0 then x else Iterate(f, f(x), n - 1)
  }

  lemma {:induction false} FoldAppend<S>(feed: (S, bool) -> S, r: S, s: seq<bool>, t: seq<bool>)
    ensures Fold(feed, r, s + t) == Fold(feed, Fold(feed, r, s), t)
    decreases |s|
  {
    if s == [] {
      assert s + t == t;
    } else {
      FoldAppend(feed, feed(r, s[0]), s[1..], t);
      assert (s + t)[1..] == s[1..] + t;
    }
  }

  lemma FoldLast<S, B>(feed: (S, bool) -> S, bits: B -> seq<bool>, r: S, msg: seq<B>, b: B)
    ensures Fold(feed, r, Flatten(bits, msg + [b])) == Fold(feed, Fold(feed, r, Flatten(bits, msg)), bits(b))
  {
    assert (msg + [b])[..|msg|] == msg;
    FoldAppend(feed, r, Flatten(bits, msg), bits(b));
  }

  /** When every bit can be taken back, equal ends have equal beginnings. */
  lemma {:induction false} FoldInjective<S(!new)>(feed: (S, bool) -> S, r: S, q: S, s: seq<bool>)
    requires forall x, y, b :: feed(x, b) == feed(y, b) ==> x == y
    requires Fold(feed, r, s) == Fold(feed, q, s)
    ensures r == q
    decreases |s|
  {
    if s != [] {
      FoldInjective(feed, feed(r, s[0]), feed(q, s[0]), s[1..]);
    }
  }

  /** Bits already mixed into the register, or brought in one by one as it shifts: `mixed`
      relates a register holding pending bits to the plain one and those bits. */
  lemma {:induction false} MixedBits<S(!new), W(!new)>(step: S -> S, feed: (S, bool) -> S, low: W -> bool,
      rest: W -> W, mixed: (S, S, W) -> bool, x: S, r: S, w: W, n: nat)
    requires forall x, r, w :: mixed(x, r, w) ==> mixed(step(x), feed(r, low(w)), rest(w))
    requires mixed(x, r, w)
    ensures mixed(Iterate(step, x, n), Fold(feed, r, Expand(low, rest, w, n)), Iterate(rest, w, n))
    decreases n
  {
    if n > 0 {
      MixedBits(step, feed, low, rest, mixed, step(x), feed(r, low(w)), rest(w), n - 1);
      assert Expand(low, rest, w, n)[1..] == Expand(low, rest, rest(w), n - 1);
    }
  }

  /** `near(x, y, n)`: the two registers could still be brought together by `n` more bits.
      Registers that `n` bits do bring together were that near, and equal ones got equal bits. */
  lemma {:induction false} FewBitsTell<S(!new)>(feed: (S, bool) -> S, near: (S, S, nat) -> bool,
      r: S, q: S, s: seq<bool>, t: seq<bool>, limit: nat)
    requires forall x :: near(x, x, 0)
    requires forall x, y, a, b, n :: 0 <= n < limit && near(feed(x, a), feed(y, b), n) ==>
      near(x, y, n + 1) && (x == y ==> a == b)
    requires |s| == |t| <= limit && Fold(feed, r, s) == Fold(feed, q, t)
    ensures near(r, q, |s|) && (r == q ==> s == t)
    decreases |s|
  {
    if s != [] {
      FewBitsTell(feed, near, feed(r, s[0]), feed(q, t[0]), s[1..], t[1..], limit);
      if r == q {
        assert s == [s[0]] + s[1..] && t == [t[0]] + t[1..];
      }
    }
  }

  // ---- The register ----

  function Mix(r: bv16, bit: bool): bv16 { if bit then r ^ 1 else r }

  /** Brings in one bit of the message. */
  function Feed(r: bv16, bit: bool): bv16 {
    Step(Mix(r, bit))
  }

  predicate Low(w: bv16) { w & 1 == 1 }

  function Rest(w: bv16): bv16 { w >> 1 }

  /** The bits of a byte in the order they are sent. */
  function ByteBits(b: Byte): (s: seq<bool>)
    ensures |s| == 8
  {
    Expand(Low, Rest, b, 8)
  }

  function Bits(msg: seq<Byte>): seq<bool> {
    Flatten(ByteBits, msg)
  }

  /** The checksum register after a message, bit by bit. */
  function Register(msg: seq<Byte>): bv16 {
    Fold(Feed, 0xFFFF, Bits(msg))
  }

  /** A frame, checksum included, is whole when it drives the register to zero. */
  predicate Whole(frame: seq<Byte>) {
    Register(frame) == 0
  }

  lemma LowXor(r: bv16, w: bv16, x: bv16)
    requires x == r ^ w
    ensures x & 1 == (r & 1) ^ (w & 1) && x >> 1 == (r >> 1) ^ (w >> 1)
  {
  }

  lemma LowEven(a: bv16, b: bv16, c: bv16)
    requires c == a ^ b && b == 0
    ensures c == a
  {
  }

  lemma LastMoved(a: bv16, b: bv16, c: bv16)
    ensures (a ^ b) ^ c == (a ^ c) ^ b
  {
  }

  /** A register into which an even word is mixed. */
  lemma StepEven(r: bv16, w: bv16, x: bv16)
    requires x == r ^ w && w & 1 == 0
    ensures Step(x) == Step(r) ^ (w >> 1)
  {
    LowXor(r, w, x);
    LowEven(r & 1, w & 1, x & 1);
    LastMoved(r >> 1, w >> 1, 0xA001);
  }

  /** An odd word is an even one with its lowest bit set. */
  lemma OddEven(r: bv16, w: bv16, x: bv16, q: bv16, v: bv16)
    requires x == r ^ w && w & 1 == 1 && q == r ^ 1 && v == w ^ 1
    ensures x == q ^ v && v & 1 == 0 && v >> 1 == w >> 1
  {
  }

  lemma StepOdd(r: bv16, w: bv16, x: bv16, q: bv16, v: bv16)
    requires x == r ^ w && w & 1 == 1 && q == r ^ 1 && v == w ^ 1
    ensures Step(x) == Step(q) ^ (w >> 1)
  {
    OddEven(r, w, x, q, v);
    StepEven(q, v, x);
  }

  predicate Mixed(x: bv16, r: bv16, w: bv16) { x == r ^ w }

  lemma LowBit(w: bv16)
    ensures w & 1 == 0 || w & 1 == 1
  {
  }

  lemma FeedOdd(r: bv16, w: bv16, q: bv16)
    requires q == r ^ 1 && w & 1 == 1
    ensures Feed(r, Low(w)) == Step(q)
  {
    hide Step;
  }

  lemma FeedEven(r: bv16, w: bv16)
    requires w & 1 == 0
    ensures Feed(r, Low(w)) == Step(r)
  {
    hide Step;
  }

  /** Feeding the lowest bit of a word is shifting with the word mixed in. */
  lemma FeedWord(r: bv16, w: bv16, x: bv16, q: bv16, v: bv16)
    requires x == r ^ w && q == r ^ 1 && v == w ^ 1
    ensures Mixed(Step(x), Feed(r, Low(w)), Rest(w))
  {
    hide Step, Feed, Low;
    if w & 1 == 1 {
      StepOdd(r, w, x, q, v);
      FeedOdd(r, w, q);
    } else {
      LowBit(w);
      StepEven(r, w, x);
      FeedEven(r, w);
    }
  }

  lemma MixedStep(x: bv16, r: bv16, w: bv16)
    requires Mixed(x, r, w)
    ensures Mixed(Step(x), Feed(r, Low(w)), Rest(w))
  {
    hide Step, Feed, Low, Rest, Mix;
    FeedWord(r, w, x, r ^ 1, w ^ 1);
  }

  lemma EightSteps(x: bv16)
    ensures Iterate(Step, x, 8) == Step8(x)
  {
  }

  lemma NothingLeft(b: Byte)
    ensures Iterate(Rest, b, 8) == 0
  {
  }

  /** Feeding a byte's bits is mixing the byte in and shifting eight times. */
  lemma ByteAtOnce(r: bv16, b: Byte)
    ensures Fold(Feed, r, ByteBits(b)) == Step8(r ^ b)
  {
    forall x, y, w | Mixed(x, y, w) ensures Mixed(Step(x), Feed(y, Low(w)), Rest(w)) {
      MixedStep(x, y, w);
    }
    MixedBits(Step, Feed, Low, Rest, Mixed, r ^ b, r, b, 8);
    EightSteps(r ^ b);
    NothingLeft(b);
  }

  lemma RegisterByte(msg: seq<Byte>, b: Byte)
    ensures Register(msg + [b]) == Step8(Register(msg) ^ b)
  {
    FoldLast(Feed, ByteBits, 0xFFFF, msg, b);
    ByteAtOnce(Register(msg), b);
  }

  // ---- The shift loses nothing ----

  lemma StepInjective(x: bv16, y: bv16)
    requires Step(x) == Step(y)
    ensures x == y
  {
  }

  lemma Step8Injective(x: bv16, y: bv16)
    requires Step8(x) == Step8(y)
    ensures x == y
  {
    var (x2, y2) := (Step(Step(x)), Step(Step(y)));
    var (x4, y4) := (Step(Step(x2)), Step(Step(y2)));
    var (x6, y6) := (Step(Step(x4)), Step(Step(y4)));
    StepInjective(Step(x6), Step(y6)); StepInjective(x6, y6);
    StepInjective(Step(x4), Step(y4)); StepInjective(x4, y4);
    StepInjective(Step(x2), Step(y2)); StepInjective(x2, y2);
    StepInjective(Step(x), Step(y)); StepInjective(x, y);
  }

  lemma FeedInjective(r: bv16, q: bv16, a: bool)
    requires Feed(r, a) == Feed(q, a)
    ensures r == q
  {
  }

  /** The registers differ at most in their `n` low bits. */
  predicate Near(x: bv16, y: bv16, n: nat) {
    Iterate(Rest, x ^ y, n) == 0
  }

  /** Had two registers differed in their lowest bit, the polynomial would after a shift make
      them differ in their highest. */
  lemma StepClose(x: bv16, y: bv16, u: bv16, v: bv16, d: bv16, w: bv16)
    requires u == Step(x) && v == Step(y) && d == u ^ v && d & 0x8000 == 0 && w == x ^ y
    ensures w & 1 == 0 && Rest(w) == d
  {
  }

  lemma {:induction false} ZeroStays(n: nat)
    ensures Iterate(Rest, 0, n) == 0
  {
    if n > 0 { ZeroStays(n - 1); }
  }

  lemma {:induction false} IterateSum<S>(f: S -> S, x: S, n: nat, m: nat)
    ensures Iterate(f, x, n + m) == Iterate(f, Iterate(f, x, n), m)
    decreases n
  {
    if n > 0 { IterateSum(f, f(x), n - 1, m); }
  }

  lemma Fifteen(d: bv16)
    requires Iterate(Rest, d, 15) == 0
    ensures d & 0x8000 == 0
  {
    IterateSum(Rest, d, 8, 7);
    var e := Iterate(Rest, d, 8);
    SevenThenEight(d, e);
  }

  lemma SevenThenEight(d: bv16, e: bv16)
    requires e == Iterate(Rest, d, 8) && Iterate(Rest, e, 7) == 0
    ensures d & 0x8000 == 0
  {
  }

  lemma TopClear(d: bv16, n: nat)
    requires n <= 15 && Iterate(Rest, d, n) == 0
    ensures d & 0x8000 == 0
  {
    IterateSum(Rest, d, n, 15 - n);
    ZeroStays(15 - n);
    Fifteen(d);
  }

  lemma MixedAlike(r: bv16, q: bv16, x: bv16, y: bv16, z: bv16, w: bv16)
    requires z == r ^ q && w == x ^ y
    requires (x == r && y == q) || (x == r ^ 1 && y == q ^ 1)
    ensures z == w
  {
  }

  lemma MixedApart(r: bv16, q: bv16, x: bv16, y: bv16, z: bv16, w: bv16)
    requires z == r ^ q && w == x ^ y && w & 1 == 0
    requires (x == r ^ 1 && y == q) || (x == r && y == q ^ 1)
    ensures Rest(z) == Rest(w) && z != 0
  {
  }

  lemma Unmix(r: bv16, q: bv16, a: bool, b: bool, x: bv16, y: bv16, z: bv16, w: bv16)
    requires x == Mix(r, a) && y == Mix(q, b) && z == r ^ q && w == x ^ y && w & 1 == 0
    ensures Rest(z) == Rest(w) && (z == 0 ==> a == b)
  {
    if a == b { MixedAlike(r, q, x, y, z, w); } else { MixedApart(r, q, x, y, z, w); }
  }

  lemma FeedClose(r: bv16, q: bv16, a: bool, b: bool, x: bv16, y: bv16, u: bv16, v: bv16,
      d: bv16, z: bv16, w: bv16)
    requires x == Mix(r, a) && y == Mix(q, b) && u == Step(x) && v == Step(y)
    requires d == u ^ v && z == r ^ q && w == x ^ y && d & 0x8000 == 0
    ensures Rest(z) == d && (z == 0 ==> a == b)
  {
    StepClose(x, y, u, v, d, w);
    Unmix(r, q, a, b, x, y, z, w);
  }

  lemma SelfXor(x: bv16)
    ensures x ^ x == 0
  {
  }

  lemma OneMore(z: bv16, d: bv16, n: nat)
    requires Rest(z) == d && Iterate(Rest, d, n) == 0
    ensures Iterate(Rest, z, n + 1) == 0
  {
  }

  lemma NearBefore(r: bv16, q: bv16, a: bool, b: bool, x: bv16, y: bv16, u: bv16, v: bv16,
      d: bv16, z: bv16, w: bv16, n: nat)
    requires x == Mix(r, a) && y == Mix(q, b) && u == Step(x) && v == Step(y)
    requires d == u ^ v && z == r ^ q && w == x ^ y && n < 16 && Iterate(Rest, d, n) == 0
    ensures Iterate(Rest, z, n + 1) == 0 && (z == 0 ==> a == b)
  {
    TopClear(d, n);
    FeedClose(r, q, a, b, x, y, u, v, d, z, w);
    OneMore(z, d, n);
  }

  lemma NearIs(x: bv16, y: bv16, d: bv16, n: nat)
    requires d == x ^ y
    ensures Near(x, y, n) <==> Iterate(Rest, d, n) == 0
  {
    hide Iterate;
  }

  lemma SameZero(x: bv16, y: bv16, d: bv16)
    requires d == x ^ y && x == y
    ensures d == 0
  {
  }

  lemma NearMore(r: bv16, q: bv16, a: bool, b: bool, x: bv16, y: bv16, u: bv16, v: bv16,
      d: bv16, z: bv16, w: bv16, n: nat)
    requires x == Mix(r, a) && y == Mix(q, b) && u == Step(x) && v == Step(y)
    requires d == u ^ v && z == r ^ q && w == x ^ y && n < 16 && Near(u, v, n)
    ensures Near(r, q, n + 1) && (r == q ==> a == b)
  {
    hide *;
    NearIs(u, v, d, n);
    NearBefore(r, q, a, b, x, y, u, v, d, z, w, n);
    NearIs(r, q, z, n + 1);
    if r == q { SameZero(r, q, z); }
  }

  lemma NearStep(r: bv16, q: bv16, a: bool, b: bool, n: nat)
    requires n < 16 && Near(Feed(r, a), Feed(q, b), n)
    ensures Near(r, q, n + 1) && (r == q ==> a == b)
  {
    hide Step, Mix, Near;
    var x, y, u, v := Mix(r, a), Mix(q, b), Feed(r, a), Feed(q, b);
    NearMore(r, q, a, b, x, y, u, v, u ^ v, r ^ q, x ^ y, n);
  }

  lemma SelfNear(x: bv16)
    ensures Near(x, x, 0)
  {
    SelfXor(x);
  }

  /** Sixteen bits or fewer, fed into the same register, are told apart by it. */
  lemma SixteenBitsTell(r: bv16, s: seq<bool>, t: seq<bool>)
    requires |s| == |t| <= 16 && Fold(Feed, r, s) == Fold(Feed, r, t)
    ensures s == t
  {
    forall x ensures Near(x, x, 0) {
      SelfNear(x);
    }
    forall x, y, a, b, n | 0 <= n < 16 && Near(Feed(x, a), Feed(y, b), n)
      ensures Near(x, y, n + 1) && (x == y ==> a == b)
    {
      NearStep(x, y, a, b, n);
    }
    FewBitsTell(Feed, Near, r, r, s, t, 16);
  }

  // ---- Error bursts ----

  /** The two frames agree in every bit outside the sixteen from bit `k` on. */
  ghost predicate BurstAt(good: seq<bool>, bad: seq<bool>, k: nat)
    requires |good| == |bad|
  {
    k + 16 <= |good| && good[..k] == bad[..k] && good[k + 16..] == bad[k + 16..]
  }

  lemma FoldParts(r: bv16, s: seq<bool>, k: nat)
    requires k + 16 <= |s|
    ensures Fold(Feed, r, s) == Fold(Feed, Fold(Feed, Fold(Feed, r, s[..k]), s[k..k + 16]), s[k + 16..])
  {
    assert s == s[..k] + s[k..];
    assert s[k..] == s[k..k + 16] + s[k + 16..];
    FoldAppend(Feed, r, s[..k], s[k..]);
    FoldAppend(Feed, Fold(Feed, r, s[..k]), s[k..k + 16], s[k + 16..]);
  }

  lemma {:induction false} BitsLength(msg: seq<Byte>)
    ensures |Bits(msg)| == 8 * |msg|
  {
    if msg != [] { BitsLength(msg[..|msg| - 1]); }
  }

  lemma Parts(s: seq<bool>, k: nat)
    requires k + 16 <= |s|
    ensures s == s[..k] + s[k..k + 16] + s[k + 16..]
  {
  }

  /** A whole frame in which any nonempty set of bits within sixteen consecutive transmitted
      ones is flipped is not whole, at any length. */
  lemma BurstDetected(good: seq<Byte>, bad: seq<Byte>, k: nat)
    requires |Bits(good)| == |Bits(bad)| && BurstAt(Bits(good), Bits(bad), k)
    requires Whole(good) && Bits(good) != Bits(bad)
    ensures !Whole(bad)
  {
    if Whole(bad) {
      var s, t := Bits(good), Bits(bad);
      FoldParts(0xFFFF, s, k);
      FoldParts(0xFFFF, t, k);
      var r := Fold(Feed, 0xFFFF, s[..k]);
      forall x, y, b | Feed(x, b) == Feed(y, b) ensures x == y {
        FeedInjective(x, y, b);
      }
      FoldInjective(Feed, Fold(Feed, r, s[k..k + 16]), Fold(Feed, r, t[k..k + 16]), s[k + 16..]);
      SixteenBitsTell(r, s[k..k + 16], t[k..k + 16]);
      Parts(s, k);
      Parts(t, k);
    }
  }

  // ---- An odd number of flipped bits ----

  function Odd(s: seq<bool>): bool
  {
    if s == [] then false else s[0] != Odd(s[1..])
  }

  /** How many bits two sequences differ in, modulo two. */
  function OddlyDiffer(s: seq<bool>, t: seq<bool>): bool
    requires |s| == |t|
  {
    if s == [] then false else (s[0] != t[0]) != OddlyDiffer(s[1..], t[1..])
  }

  lemma {:induction false} OddDifference(s: seq<bool>, t: seq<bool>)
    requires |s| == |t|
    ensures OddlyDiffer(s, t) == (Odd(s) != Odd(t))
  {
    if s != [] { OddDifference(s[1..], t[1..]); }
  }

  lemma {:induction false} OddAppend(s: seq<bool>, t: seq<bool>)
    ensures Odd(s + t) == (Odd(s) != Odd(t))
  {
    if s == [] {
      assert s + t == t;
    } else {
      OddAppend(s[1..], t);
      assert (s + t)[1..] == s[1..] + t;
    }
  }

  function Flip(s: seq<bool>, i: nat): (t: seq<bool>)
    requires i < |s|
    ensures |t| == |s|
  {
    s[i := !s[i]]
  }

  lemma {:induction false} OddFlip(s: seq<bool>, i: nat)
    requires i < |s|
    ensures Odd(Flip(s, i)) != Odd(s)
  {
    if i > 0 {
      OddFlip(s[1..], i - 1);
      assert Flip(s, i)[1..] == Flip(s[1..], i - 1);
    } else {
      assert Flip(s, i)[1..] == s[1..];
    }
  }

  predicate On(x: bv16, m: bv16) { x & m != 0 }

  function WordBits(x: bv16): seq<bool> {
    [On(x, 1), On(x, 2), On(x, 4), On(x, 8), On(x, 0x10), On(x, 0x20), On(x, 0x40), On(x, 0x80), On(x, 0x100),
     On(x, 0x200), On(x, 0x400), On(x, 0x800), On(x, 0x1000), On(x, 0x2000), On(x, 0x4000), On(x, 0x8000)]
  }

  /** Whether a word has an odd number of ones. */
  predicate OddWord(x: bv16) {
    Odd(WordBits(x))
  }

  lemma ShiftedBits(x: bv16, y: bv16)
    requires y == x >> 1
    ensures WordBits(y) == WordBits(x)[1..] + [false]
  {
  }

  lemma OneFlip(s: seq<bool>, t: seq<bool>, i: nat)
    requires i < |s| == |t| && s[..i] == t[..i] && s[i + 1..] == t[i + 1..] && s[i] != t[i]
    ensures Odd(t) != Odd(s)
  {
    assert t == Flip(s, i) by {
      assert t == t[..i] + [t[i]] + t[i + 1..];
      assert Flip(s, i) == s[..i] + [!s[i]] + s[i + 1..];
    }
    OddFlip(s, i);
  }

  // All the bits but one: bit 0, bit 13, bit 15.

  lemma SameBut0(x: bv16, y: bv16)
    requires y & 0xFFFE == x & 0xFFFE
    ensures WordBits(y)[1..] == WordBits(x)[1..]
  {
  }

  lemma SameBut13(x: bv16, y: bv16)
    requires y & 0xDFFF == x & 0xDFFF
    ensures WordBits(y)[..13] == WordBits(x)[..13] && WordBits(y)[14..] == WordBits(x)[14..]
  {
  }

  lemma SameBut15(x: bv16, y: bv16)
    requires y & 0x7FFF == x & 0x7FFF
    ensures WordBits(y)[..15] == WordBits(x)[..15]
  {
  }

  lemma FlippedBit(x: bv16, y: bv16, m: bv16, others: bv16)
    requires y == x ^ m
    requires (m == 1 && others == 0xFFFE) || (m == 0x2000 && others == 0xDFFF) || (m == 0x8000 && others == 0x7FFF)
    ensures On(y, m) != On(x, m) && y & others == x & others
  {
  }

  lemma OneFlip0(x: bv16, y: bv16)
    requires y & 0xFFFE == x & 0xFFFE && On(y, 1) != On(x, 1)
    ensures OddWord(y) != OddWord(x)
  {
    SameBut0(x, y);
    OddFirst(WordBits(x));
    OddFirst(WordBits(y));
  }

  lemma Parity0(x: bv16, y: bv16)
    requires y == x ^ 1
    ensures OddWord(y) != OddWord(x)
  {
    FlippedBit(x, y, 1, 0xFFFE);
    OneFlip0(x, y);
  }

  lemma OneFlip13(x: bv16, y: bv16)
    requires y & 0xDFFF == x & 0xDFFF && On(y, 0x2000) != On(x, 0x2000)
    ensures OddWord(y) != OddWord(x)
  {
    SameBut13(x, y);
    OneFlip(WordBits(x), WordBits(y), 13);
  }

  lemma Parity13(x: bv16, y: bv16)
    requires y == x ^ 0x2000
    ensures OddWord(y) != OddWord(x)
  {
    FlippedBit(x, y, 0x2000, 0xDFFF);
    OneFlip13(x, y);
  }

  lemma OneFlip15(x: bv16, y: bv16)
    requires y & 0x7FFF == x & 0x7FFF && On(y, 0x8000) != On(x, 0x8000)
    ensures OddWord(y) != OddWord(x)
  {
    SameBut15(x, y);
    OneFlip(WordBits(x), WordBits(y), 15);
  }

  lemma Parity15(x: bv16, y: bv16)
    requires y == x ^ 0x8000
    ensures OddWord(y) != OddWord(x)
  {
    FlippedBit(x, y, 0x8000, 0x7FFF);
    OneFlip15(x, y);
  }

  lemma OddOne(b: bool)
    ensures Odd([b]) == b
  {
    assert [b][1..] == [];
  }

  lemma {:induction false} OddFirst(s: seq<bool>)
    requires s != []
    ensures Odd(s) == (s[0] != Odd(s[1..]))
  {
  }

  lemma ShiftParity(x: bv16, y: bv16)
    requires y == x >> 1
    ensures OddWord(y) == (OddWord(x) != On(x, 1))
  {
    var t := WordBits(x);
    ShiftedBits(x, y);
    OddOne(false);
    OddAppend(t[1..], [false]);
    OddFirst(t);
  }

  lemma ThreeBits(x: bv16, a: bv16, b: bv16)
    requires a == x ^ 1 && b == a ^ 0x2000
    ensures b ^ 0x8000 == x ^ 0xA001
  {
  }

  /** The polynomial has an odd number of bits. */
  lemma PolynomialParity(x: bv16, y: bv16)
    requires y == x ^ 0xA001
    ensures OddWord(y) != OddWord(x)
  {
    var a := x ^ 1;
    var b := a ^ 0x2000;
    ThreeBits(x, a, b);
    Parity0(x, a);
    Parity13(a, b);
    Parity15(b, y);
  }

  lemma LowIsOn(x: bv16)
    ensures On(x, 1) == (x & 1 == 1)
  {
  }

  lemma StepParity(x: bv16)
    ensures OddWord(Step(x)) == OddWord(x)
  {
    var y := x >> 1;
    LowIsOn(x);
    ShiftParity(x, y);
    PolynomialParity(y, y ^ 0xA001);
  }

  lemma MixParity(r: bv16, bit: bool)
    ensures OddWord(Mix(r, bit)) == (OddWord(r) != bit)
  {
    if bit {
      Parity0(r, r ^ 1);
    }
  }

  lemma {:induction false} FoldParity<S(!new)>(feed: (S, bool) -> S, odd: S -> bool, r: S, s: seq<bool>)
    requires forall x, b :: odd(feed(x, b)) == (odd(x) != b)
    ensures odd(Fold(feed, r, s)) == (odd(r) != Odd(s))
    decreases |s|
  {
    if s != [] { FoldParity(feed, odd, feed(r, s[0]), s[1..]); }
  }

  lemma {:induction false} OddUniform(b: bool, s: seq<bool>)
    requires forall i :: 0 <= i < |s| ==> s[i] == b
    ensures Odd(s) == (b && |s| % 2 == 1)
  {
    if s != [] { OddUniform(b, s[1..]); }
  }

  /** Sixteen equal bits. */
  predicate Uniform(b: bool, s: seq<bool>) {
    |s| == 16 && forall i :: 0 <= i < |s| ==> s[i] == b
  }

  lemma AllOn()
    ensures Uniform(true, WordBits(0xFFFF))
  {
  }

  lemma NoneOn()
    ensures Uniform(false, WordBits(0))
  {
  }

  lemma EvenUniform(x: bv16, b: bool)
    requires Uniform(b, WordBits(x))
    ensures !OddWord(x)
  {
    hide WordBits;
    OddUniform(b, WordBits(x));
  }

  lemma EvenWords()
    ensures !OddWord(0xFFFF) && !OddWord(0)
  {
    hide *;
    AllOn();
    NoneOn();
    EvenUniform(0xFFFF, true);
    EvenUniform(0, false);
  }

  lemma RegisterParity(msg: seq<Byte>)
    ensures OddWord(Register(msg)) == Odd(Bits(msg))
  {
    forall x, b ensures OddWord(Feed(x, b)) == (OddWord(x) != b) {
      MixParity(x, b);
      StepParity(Mix(x, b));
    }
    FoldParity(Feed, OddWord, 0xFFFF, Bits(msg));
    EvenWords();
  }

  /** A whole frame with an odd number of its bits flipped, anywhere, is not whole. */
  lemma OddErrorsDetected(good: seq<Byte>, bad: seq<Byte>)
    requires |Bits(good)| == |Bits(bad)| && OddlyDiffer(Bits(good), Bits(bad))
    requires Whole(good)
    ensures !Whole(bad)
  {
    OddDifference(Bits(good), Bits(bad));
    RegisterParity(good);
    RegisterParity(bad);
    EvenWords();
  }

  // ---- The program ----

  lemma ZeroBits(w: bv16)
    requires w & 0xFF == 0
    ensures Expand(Low, Rest, w, 8) == [false, false, false, false, false, false, false, false]
  {
  }

  lemma HighByte(w: bv16, b: Byte)
    requires w == b << 8
    ensures w & 0xFF == 0 && Iterate(Rest, w, 8) == b
  {
  }

  lemma MixedWord(r: bv16, w: bv16, x: bv16)
    requires Mixed(x, r, w)
    ensures Mixed(Iterate(Step, x, 8), Fold(Feed, r, Expand(Low, Rest, w, 8)), Iterate(Rest, w, 8))
  {
    forall x, y, w | Mixed(x, y, w) ensures Mixed(Step(x), Feed(y, Low(w)), Rest(w)) {
      MixedStep(x, y, w);
    }
    MixedBits(Step, Feed, Low, Rest, Mixed, x, r, w, 8);
  }

  lemma MixedEight(r: bv16, w: bv16, x: bv16, e: bv16)
    requires Mixed(x, r, w) && e == Iterate(Rest, w, 8) && w & 0xFF == 0
    ensures Mixed(Iterate(Step, x, 8), Fold(Feed, r, [false, false, false, false, false, false, false, false]), e)
  {
    MixedWord(r, w, x);
    ZeroBits(w);
  }

  lemma XorZero(x: bv16)
    ensures x ^ 0 == x
  {
  }

  lemma NoHighByte(i: bv16)
    ensures Iterate(Step, i, 8) == Fold(Feed, i, [false, false, false, false, false, false, false, false])
  {
    XorZero(i);
    ZeroStays(8);
    MixedEight(i, 0, i, 0);
    XorZero(Fold(Feed, i, [false, false, false, false, false, false, false, false]));
  }

  /** A high byte just moves down while the low one goes through the polynomial. */
  lemma HighMovesDown(x: bv16, i: bv16, b: Byte, w: bv16)
    requires Mixed(x, i, w) && w == b << 8
    ensures Mixed(Iterate(Step, x, 8), Iterate(Step, i, 8), b)
  {
    HighByte(w, b);
    MixedEight(i, w, x, b);
    NoHighByte(i);
  }

  /** A word from its high and its low byte. */
  function Join16(high: bv16, low: bv16): bv16 {
    (high << 8) | low
  }

  lemma Selected(hi: Byte, lo: Byte, b: Byte, i: Byte, r: bv16, x: bv16, w: bv16)
    requires i == hi ^ b && r == Join16(lo, hi) && x == r ^ b && w == lo << 8
    ensures Mixed(x, i, w)
  {
  }

  lemma Rejoin(th: Byte, tl: Byte, lo: Byte, t: bv16, h: bv16)
    requires t == Join16(tl, th) && h == lo ^ th
    ensures h <= 0xFF && Mixed(Join16(tl, h), t, lo)
  {
  }

  lemma ByteXor(a: Byte, b: Byte)
    ensures a ^ b <= 0xFF
  {
  }

  /** The register after one byte is the table entry it selects, xored with what is left of it. */
  lemma TableStep(hi: Byte, lo: Byte, b: Byte, i: Byte, th: Byte, tl: Byte, r: bv16, x: bv16, t: bv16, h: bv16, w: bv16)
    requires i == hi ^ b && r == Join16(lo, hi) && x == r ^ b && w == lo << 8
    requires t == Join16(tl, th) && t == Iterate(Step, i, 8) && h == lo ^ th
    ensures h <= 0xFF && Join16(tl, h) == Iterate(Step, x, 8)
  {
    Selected(hi, lo, b, i, r, x, w);
    HighMovesDown(x, i, lo, w);
    Rejoin(th, tl, lo, t, h);
  }

  lemma IndexBack(i: Byte)
    ensures i as nat < 256 && (i as nat) as bv16 == i
  {
  }

  lemma EntryWord(h: Byte, l: Byte, k: nat, i: Byte)
    requires Entry(h, l, k) && k as bv16 == i
    ensures Join16(l, h) == Iterate(Step, i, 8)
  {
    EightSteps(i);
  }

  lemma TableSize()
    ensures |HI| == |LO| == 256
  {
  }

  lemma Looked(i: Byte)
    ensures i as nat < |HI| == |LO| && Join16(LO[i as nat], HI[i as nat]) == Iterate(Step, i, 8)
  {
    IndexBack(i);
    TableSize();
    TableEntries();
    EntryWord(HI[i as nat], LO[i as nat], i as nat, i);
  }

  /** The two bytes that hold the register: `hi` its low one, `lo` its high one. */
  predicate Holds(hi: Byte, lo: Byte, msg: seq<Byte>) {
    Join16(lo, hi) == Register(msg)
  }

  lemma HoldsNext(hi: Byte, lo: Byte, msg: seq<Byte>, b: Byte, i: Byte, th: Byte, tl: Byte, h: Byte)
    requires Holds(hi, lo, msg) && i == hi ^ b
    requires Join16(tl, th) == Iterate(Step, i, 8) && h == lo ^ th
    ensures Holds(h, tl, msg + [b])
  {
    var r := Register(msg);
    TableStep(hi, lo, b, i, th, tl, r, r ^ b, Join16(tl, th), h, lo << 8);
    RegisterByte(msg, b);
    EightSteps(r ^ b);
  }

  /** One turn of the loop of `crc16`. */
  method NextByte(hi: Byte, lo: Byte, b: Byte, ghost msg: seq<Byte>) returns (hi': Byte, lo': Byte)
    requires Holds(hi, lo, msg)
    ensures Holds(hi', lo', msg + [b])
  {
    ByteXor(hi, b);
    var i: Byte := hi ^ b;
    Looked(i);
    var th, tl := HI[i as nat], LO[i as nat];
    ByteXor(lo, th);
    hi', lo' := lo ^ th, tl;
    HoldsNext(hi, lo, msg, b, i, th, tl, hi');
  }

  /** The checksum goes out with the register's low byte first. */
  function Swapped(x: bv16): bv16 {
    (x << 8) | (x >> 8)
  }

  lemma SwapBack(hi: Byte, lo: Byte, crc: bv16)
    requires crc == Join16(hi, lo)
    ensures Swapped(crc) == Join16(lo, hi)
  {
  }

  lemma Start()
    ensures Holds(0xFF, 0xFF, [])
  {
  }

  lemma HoldsIs(hi: Byte, lo: Byte, msg: seq<Byte>)
    requires Holds(hi, lo, msg)
    ensures Join16(lo, hi) == Register(msg)
  {
  }

  method Crc16(buffer: seq<Byte>, length: nat) returns (crc: bv16)
    requires length <= |buffer| && length < 0x1_0000
    ensures Swapped(crc) == Register(buffer[..length])
  {
    hide *;
    var hi: Byte, lo: Byte := 0xFF, 0xFF;
    var p := 0;
    assert buffer[..p] == [];
    Start();
    while p < length
      invariant p <= length && Holds(hi, lo, buffer[..p])
    {
      hi, lo := NextByte(hi, lo, buffer[p], buffer[..p]);
      assert buffer[..p] + [buffer[p]] == buffer[..p + 1];
      p := p + 1;
    }
    crc := Join16(hi, lo);
    SwapBack(hi, lo, crc);
    HoldsIs(hi, lo, buffer[..length]);
  }

  // ---- Frames ----

  lemma SelfCancels(x: bv16, h: Byte, l: Byte, y: bv16)
    requires x == Join16(l, h) && y == x ^ h
    ensures Step8(y) == l
  {
  }

  lemma XorTwice(x: bv16, z: bv16, h: bv16, y: bv16)
    requires y == x ^ h && y == z ^ h
    ensures x == z
  {
  }

  lemma FirstByte(r: bv16, h: Byte, l: Byte, y: bv16, r': bv16, y': bv16)
    requires y == r ^ h && r' == Join16(l, h) && y' == r' ^ h && Step8(y) == l
    ensures r == r'
  {
    SelfCancels(r', h, l, y');
    Step8Injective(y, y');
    XorTwice(r, r', h, y);
  }

  lemma ZeroOnly(y: bv16)
    ensures Step8(y) == 0 <==> y == 0
  {
    assert Step8(0) == 0;
    if Step8(y) == 0 { Step8Injective(y, 0); }
  }

  lemma XorEqual(x: bv16, l: bv16, y: bv16)
    requires y == x ^ l
    ensures y == 0 <==> x == l
  {
  }

  lemma LastTwo(r: bv16, h: Byte, l: Byte, y: bv16, s: bv16, z: bv16, t: bv16, r': bv16, y': bv16)
    requires y == r ^ h && s == Step8(y) && z == s ^ l && t == Step8(z)
    requires r' == Join16(l, h) && y' == r' ^ h
    ensures t == 0 <==> r == r'
  {
    ZeroOnly(z);
    XorEqual(s, l, z);
    if s == l { FirstByte(r, h, l, y, r', y'); }
    if r == r' { SelfCancels(r, h, l, y); }
  }

  /** A frame is whole exactly when its last two bytes are the checksum of the others. */
  lemma WholeFrame(msg: seq<Byte>, h: Byte, l: Byte)
    ensures Whole(msg + [h, l]) <==> Register(msg) == Join16(l, h)
  {
    hide Register, Step8;
    var one := msg + [h];
    assert msg + [h, l] == one + [l];
    RegisterByte(msg, h);
    RegisterByte(one, l);
    LastTwo(Register(msg), h, l, Register(msg) ^ h, Register(one), Register(one) ^ l, Register(one + [l]),
      Join16(l, h), Join16(l, h) ^ h);
  }

  method HighLow(crc: bv16) returns (h: Byte, l: Byte)
    ensures Swapped(crc) == Join16(l, h)
  {
    h, l := crc >> 8, crc & 0xFF;
  }

  /** Appends the checksum of the first `length` bytes after them. */
  method SendMsgPre(req: array<Byte>, length: nat) returns (length': nat)
    requires length + 2 <= req.Length && length < 0x1_0000
    modifies req
    ensures length' == length + 2
    ensures req[..length] == old(req[..length]) && req[length'..] == old(req[length'..])
    ensures Whole(req[..length'])
  {
    hide *;
    var crc := Crc16(req[..], length);
    assert req[..][..length] == req[..length];
    var high, low := HighLow(crc);
    req[length] := high;
    req[length + 1] := low;
    length' := length + 2;
    WholeFrame(req[..length], high, low);
    assert req[..length'] == req[..length] + [high, low];
  }

  const BROADCAST: int := 0

  /** What the integrity check makes of a message: 0 for one addressed to another slave, its
      length for a whole frame, and -1 otherwise. */
  method CheckIntegrity(slave: int, msg: seq<Byte>) returns (r: int)
    requires 2 <= |msg| < 0x1_0002
    ensures r == 0 <==> msg[0] as int != slave && msg[0] as int != 0
    ensures r > 0 <==> (msg[0] as int == slave || msg[0] as int == 0) && Whole(msg)
    ensures r == 0 || r == -1 || r == |msg|
  {
    assert BROADCAST == 0;
    hide *;
    var to := msg[0] as int;
    if to != slave && to != BROADCAST { return 0; }
    var n := |msg| - 2;
    var calculated := Crc16(msg, n);
    var received := Join16(msg[n], msg[n + 1]);
    SwapBack(msg[n], msg[n + 1], received);
    WholeFrame(msg[..n], msg[n], msg[n + 1]);
    assert msg == msg[..n] + [msg[n], msg[n + 1]];
    if calculated == received { return |msg|; }
    SwapInjective(calculated, received);
    return -1;
  }

  lemma SwapInjective(x: bv16, y: bv16)
    ensures Swapped(x) == Swapped(y) ==> x == y
  {
  }

  /** Of two messages that differ in a nonempty set of bits within sixteen consecutive ones, the
      receiver accepts at most one. */
  method BurstRefused(slave: int, good: seq<Byte>, bad: seq<Byte>, ghost k: nat) returns (r: int, r': int)
    requires 2 <= |good| < 0x1_0002 && 2 <= |bad| < 0x1_0002
    requires |Bits(good)| == |Bits(bad)| && BurstAt(Bits(good), Bits(bad), k) && Bits(good) != Bits(bad)
    ensures r > 0 <==> (good[0] as int == slave || good[0] as int == 0) && Whole(good)
    ensures r > 0 ==> r' <= 0
  {
    hide *;
    r := CheckIntegrity(slave, good);
    r' := CheckIntegrity(slave, bad);
    if r > 0 { BurstDetected(good, bad, k); }
  }

  /** Of two messages that differ in an odd number of bits, the receiver accepts at most one. */
  method OddRefused(slave: int, good: seq<Byte>, bad: seq<Byte>) returns (r: int, r': int)
    requires 2 <= |good| < 0x1_0002 && 2 <= |bad| < 0x1_0002
    requires |Bits(good)| == |Bits(bad)| && OddlyDiffer(Bits(good), Bits(bad))
    ensures r > 0 <==> (good[0] as int == slave || good[0] as int == 0) && Whole(good)
    ensures r > 0 ==> r' <= 0
  {
    hide *;
    r := CheckIntegrity(slave, good);
    r' := CheckIntegrity(slave, bad);
    if r > 0 { OddErrorsDetected(good, bad); }
  }
}
