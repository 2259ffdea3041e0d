/**
 The Punycode form of one label of an internationalised domain name: the encoder
 of libuv's `idna.c`, and the decoder of section 6.2 of RFC 3492 that inverts it.

 Text is a sequence of code points; encoded text is a sequence of ASCII codes.
 */
module Punycode {
  import opened Common

  /** The source computes in 32-bit unsigned integers; here every operation is proved
      to stay in range. */
  newtype u32 = x: int | 0 <= x < 0x1_0000_0000

  const U32_MAX: u32 := 0xFFFF_FFFF

  const HYPHEN: nat := 45
  const INITIAL_N: nat := 128
  const INITIAL_BIAS: nat := 72

  // ---------- Section 5 and 6.1 of RFC 3492 ----------

  /** Threshold of the digit at position `k` (a multiple of the base). */
  function Threshold(k: nat, bias: nat): (t: nat)
    ensures 1 <= t <= 26
  {
    if k <= bias then 1 else if k >= bias + 26 then 26 else k - bias
  }

  function AdaptLoop(delta: nat, k: nat): nat
    decreases delta
  {
    if delta > 455 then AdaptLoop(delta / 35, k + 36) else k + Over(36 * delta, delta + 38)
  }

  function Over(d: nat, n: nat): nat
    requires n > 0
  {
    d / n
  }

  function Adapt(delta: nat, numpoints: nat, first: bool): nat
    requires numpoints > 0
  {
    var d := if first then delta / 700 else delta / 2;
    AdaptLoop(d + Over(d, numpoints), 0)
  }

  /** ASCII code of a digit: a to z, then 0 to 9. */
  function Digit(d: nat): nat
    requires d < 36
  {
    if d < 26 then 97 + d else 22 + d
  }

  function DigitValue(c: nat): Option<nat> {
    if 97 <= c <= 122 then Some(c - 97)
    else if 65 <= c <= 90 then Some(c - 65)
    else if 48 <= c <= 57 then Some(c - 22)
    else None
  }

  // ---------- The decoder, section 6.2 ----------

  /** A generalised variable-length integer, added to `i` with weight `w`. */
  function DecodeInteger(s: seq<nat>, i: nat, w: nat, k: nat, bias: nat): (r: Option<(nat, seq<nat>)>)
    ensures r.Some? ==> |r.value.1| < |s|
  {
    if s == [] then None
    else
      match DigitValue(s[0])
      case None => None
      case Some(digit) =>
        var t := Threshold(k, bias);
        if digit < t then Some((i + digit * w, s[1..]))
        else DecodeInteger(s[1..], i + digit * w, w * (36 - t), k + 36, bias)
  }

  function InsertAt(out: seq<nat>, i: nat, c: nat): seq<nat>
    requires i <= |out|
  {
    out[..i] + [c] + out[i..]
  }

  /** How often `i` wraps around `len` places, and where it ends. */
  function Turns(i: nat, len: nat): (r: (nat, nat))
    requires len > 0
    ensures r.1 < len
  {
    (i / len, i % len)
  }

  /** The main loop: decodes insertions from state `(n, i)`. */
  function DecodeFrom(s: seq<nat>, n: nat, i: nat, bias: nat, out: seq<nat>): Option<seq<nat>>
    decreases |s|
  {
    if s == [] then Some(out)
    else
      match DecodeInteger(s, i, 1, 36, bias)
      case None => None
      case Some(pair) =>
        var (i', rest) := pair;
        if i' < i then None else
        var len := |out| + 1;
        var bias' := Adapt(i' - i, len, i == 0);
        var (steps, at) := Turns(i', len);
        DecodeFrom(rest, n + steps, at + 1, bias', InsertAt(out, at, n + steps))
  }

  /** Position of the last hyphen, or -1. */
  function LastHyphen(s: seq<nat>): (p: int)
    ensures -1 <= p < |s|
    ensures p >= 0 ==> s[p] == HYPHEN
    ensures forall q :: p < q < |s| ==> s[q] != HYPHEN
  {
    if s == [] then -1
    else if s[|s| - 1] == HYPHEN then |s| - 1
    else LastHyphen(s[..|s| - 1])
  }

  predicate AllBasic(s: seq<nat>) {
    forall j :: 0 <= j < |s| ==> s[j] < INITIAL_N
  }

  /** What comes before the last hyphen has to be basic; a hyphen that comes first is no delimiter. */
  function Decode(s: seq<nat>): Option<seq<nat>> {
    var p := LastHyphen(s);
    if p <= 0 then DecodeFrom(s, INITIAL_N, 0, INITIAL_BIAS, [])
    else if !AllBasic(s[..p]) then None
    else DecodeFrom(s[p + 1..], INITIAL_N, 0, INITIAL_BIAS, s[..p])
  }

  // ---------- Variable-length integers ----------

  /** What remains of `q` after a digit with threshold `t`, and the digit's excess. */
  function Quotient(q: nat, t: nat): (r: nat)
    requires 1 <= t <= 26 && t <= q
    ensures r < q
  {
    DivLess(q - t, 36 - t);
    (q - t) / (36 - t)
  }

  function Excess(q: nat, t: nat): (r: nat)
    requires 1 <= t <= 26 && t <= q
    ensures t + r < 36
  {
    (q - t) % (36 - t)
  }

  lemma DivMod(x: nat, y: nat)
    requires y > 0
    ensures x == y * (x / y) + x % y && 0 <= x % y < y
  {
  }

  lemma MulAtLeast(y: nat, d: nat)
    requires y > 0
    ensures y * d >= d
  {
    assert y * d == (y - 1) * d + d;
    assert (y - 1) * d >= 0;
  }

  lemma DivLess(x: nat, y: nat)
    requires y > 0
    ensures 0 <= x / y <= x
  {
    var d := x / y;
    DivMod(x, y);
    MulAtLeast(y, d);
  }

  lemma QuotientExcess(q: nat, t: nat)
    requires 1 <= t <= 26 && t <= q
    ensures q == t + Excess(q, t) + (36 - t) * Quotient(q, t)
  {
  }

  /** Section 6.3: the digits of `q`. */
  function EncodeInteger(q: nat, k: nat, bias: nat): seq<nat>
    decreases q
  {
    var t := Threshold(k, bias);
    if q < t then [Digit(q)]
    else [Digit(t + Excess(q, t))] + EncodeInteger(Quotient(q, t), k + 36, bias)
  }

  lemma WeightedSum(i: nat, w: nat, d: nat, y: nat, r: nat, q: nat)
    requires q == d + y * r
    ensures (i + d * w) + (w * y) * r == i + w * q
  {
    assert (w * y) * r == w * (y * r);
    assert w * (d + y * r) == w * d + w * (y * r);
  }

  lemma DigitRoundTrip(d: nat)
    requires d < 36
    ensures DigitValue(Digit(d)) == Some(d) && Digit(d) != HYPHEN
  {
  }

  lemma EncodeStep(q: nat, k: nat, bias: nat)
    ensures q < Threshold(k, bias) ==> q < 36 && EncodeInteger(q, k, bias) == [Digit(q)]
    ensures q >= Threshold(k, bias) ==>
              var t := Threshold(k, bias);
              t + Excess(q, t) < 36 &&
                EncodeInteger(q, k, bias) == [Digit(t + Excess(q, t))] + EncodeInteger(Quotient(q, t), k + 36, bias)
  {
    if q >= Threshold(k, bias) { QuotientExcess(q, Threshold(k, bias)); }
  }

  lemma DigitEnd(d: nat, rest: seq<nat>, i: nat, w: nat, k: nat, bias: nat)
    requires d < Threshold(k, bias) && d < 36
    ensures DecodeInteger([Digit(d)] + rest, i, w, k, bias) == Some((i + w * d, rest))
  {
    var s := [Digit(d)] + rest;
    DigitRoundTrip(d);
    assert s[0] == Digit(d) && s[1..] == rest;
  }

  lemma {:induction false} IntegerRoundTrip(q: nat, i: nat, w: nat, k: nat, bias: nat, rest: seq<nat>)
    ensures DecodeInteger(EncodeInteger(q, k, bias) + rest, i, w, k, bias) == Some((i + w * q, rest))
    decreases q
  {
    hide Threshold, EncodeInteger, DecodeInteger, Digit, Excess, Quotient;
    var t := Threshold(k, bias);
    EncodeStep(q, k, bias);
    if q < t {
      DigitEnd(q, rest, i, w, k, bias);
    } else {
      var y, d, r := 36 - t, t + Excess(q, t), Quotient(q, t);
      QuotientExcess(q, t);
      WeightedSum(i, w, d, y, r, q);
      IntegerRoundTrip(r, i + d * w, w * y, k + 36, bias, rest);
      DigitStep(d, EncodeInteger(r, k + 36, bias) + rest, i, w, k, bias);
      assert EncodeInteger(q, k, bias) + rest == [Digit(d)] + (EncodeInteger(r, k + 36, bias) + rest);
    }
  }

  lemma DigitStep(d: nat, tail: seq<nat>, i: nat, w: nat, k: nat, bias: nat)
    requires Threshold(k, bias) <= d < 36
    ensures DecodeInteger([Digit(d)] + tail, i, w, k, bias)
         == DecodeInteger(tail, i + d * w, w * (36 - Threshold(k, bias)), k + 36, bias)
  {
    var s := [Digit(d)] + tail;
    DigitRoundTrip(d);
    assert s[0] == Digit(d) && s[1..] == tail;
  }

  lemma {:induction false} IntegerDigits(q: nat, k: nat, bias: nat)
    ensures |EncodeInteger(q, k, bias)| > 0
    ensures forall j :: 0 <= j < |EncodeInteger(q, k, bias)| ==> EncodeInteger(q, k, bias)[j] != HYPHEN
    decreases q
  {
    var t := Threshold(k, bias);
    if q >= t { IntegerDigits(Quotient(q, t), k + 36, bias); }
  }

  // ---------- What has been inserted so far ----------

  /** The subsequence of `cps` below `n`, or equal to `n` and before position `p`. */
  function Handled(cps: seq<nat>, n: nat, p: nat): seq<nat> {
    if cps == [] then []
    else
      var j := |cps| - 1;
      Handled(cps[..j], n, p) + if cps[j] < n || (cps[j] == n && j < p) then [cps[j]] else []
  }

  lemma {:induction false} HandledPrefix(cps: seq<nat>, n: nat, p: nat, j: nat)
    requires j <= |cps|
    ensures |Handled(cps[..j], n, p)| <= |Handled(cps, n, p)| <= |cps|
    ensures Handled(cps, n, p)[..|Handled(cps[..j], n, p)|] == Handled(cps[..j], n, p)
  {
    if j < |cps| {
      assert cps[..|cps| - 1][..j] == cps[..j];
      HandledPrefix(cps[..|cps| - 1], n, p, j);
    } else {
      assert cps[..j] == cps;
      HandledLength(cps, n, p);
    }
  }

  lemma {:induction false} HandledLength(cps: seq<nat>, n: nat, p: nat)
    ensures |Handled(cps, n, p)| <= |cps|
    ensures |Handled(cps, n, p)| == |cps| ==> Handled(cps, n, p) == cps
    ensures |Handled(cps, n, p)| < |cps| <==> exists j :: 0 <= j < |cps| && !(cps[j] < n || (cps[j] == n && j < p))
  {
    if cps != [] {
      var j := |cps| - 1;
      HandledLength(cps[..j], n, p);
      if |Handled(cps[..j], n, p)| < j {
        var x :| 0 <= x < j && !(cps[..j][x] < n || (cps[..j][x] == n && x < p));
        assert cps[x] == cps[..j][x];
      }
      if !(cps[j] < n || (cps[j] == n && j < p)) { assert 0 <= j < |cps|; }
      forall x | 0 <= x < j && !(cps[x] < n || (cps[x] == n && x < p)) ensures |Handled(cps, n, p)| < |cps| {
        assert cps[..j][x] == cps[x];
      }
    }
  }

  /** Handling the occurrence of `n` at `p` inserts it where it belongs. */
  lemma {:induction false} HandledInsert(cps: seq<nat>, n: nat, p: nat)
    requires p < |cps| && cps[p] == n
    ensures var c := |Handled(cps[..p], n, p)|;
            c <= |Handled(cps, n, p)| && Handled(cps, n, p + 1) == InsertAt(Handled(cps, n, p), c, n)
  {
    var j := |cps| - 1;
    HandledPrefix(cps, n, p, p);
    if p < j {
      assert cps[..j][..p] == cps[..p];
      HandledPrefix(cps[..j], n, p, p);
      HandledInsert(cps[..j], n, p);
    } else {
      HandledLater(cps[..j], n, p, p + 1);
    }
  }

  /** Positions beyond the text make no difference. */
  lemma {:induction false} HandledLater(cps: seq<nat>, n: nat, p: nat, p': nat)
    requires |cps| <= p <= p'
    ensures Handled(cps, n, p) == Handled(cps, n, p')
  {
    if cps != [] { HandledLater(cps[..|cps| - 1], n, p, p'); }
  }

  /** Nothing else is handled at a position that does not hold `n`. */
  lemma {:induction false} HandledSkip(cps: seq<nat>, n: nat, p: nat)
    requires p < |cps| && cps[p] != n
    ensures Handled(cps, n, p + 1) == Handled(cps, n, p)
  {
    var j := |cps| - 1;
    if p < j {
      HandledSkip(cps[..j], n, p);
    } else {
      HandledLater(cps[..j], n, p, p + 1);
    }
  }

  /** The end of one scan is the beginning of the next. */
  lemma {:induction false} HandledNext(cps: seq<nat>, n: nat, p: nat)
    requires |cps| <= p
    ensures Handled(cps, n, p) == Handled(cps, n + 1, 0)
  {
    if cps != [] { HandledNext(cps[..|cps| - 1], n, p); }
  }

  lemma {:induction false} HandledJump(cps: seq<nat>, n: nat, m: nat)
    requires n <= m && forall j :: 0 <= j < |cps| ==> cps[j] < n || cps[j] >= m
    ensures Handled(cps, n, 0) == Handled(cps, m, 0)
  {
    if cps != [] {
      var init := cps[..|cps| - 1];
      forall j | 0 <= j < |init| ensures init[j] < n || init[j] >= m { assert init[j] == cps[j]; }
      HandledJump(init, n, m);
    }
  }

  lemma {:induction false} HandledBelow(cps: seq<nat>, n: nat)
    ensures forall j :: 0 <= j < |Handled(cps, n, 0)| ==> Handled(cps, n, 0)[j] < n
  {
    if cps != [] { HandledBelow(cps[..|cps| - 1], n); }
  }

  // ---------- The decoder resumes where the encoder is ----------

  predicate NoHyphen(s: seq<nat>) {
    forall j :: 0 <= j < |s| ==> s[j] != HYPHEN
  }

  /** After reading `body`, the decoder is in state `(n, i)` with output `out`. */
  ghost predicate Resumes(body: seq<nat>, n: nat, i: nat, bias: nat, out: seq<nat>) {
    forall rest :: NoHyphen(rest) ==> Decode(body + rest) == DecodeFrom(rest, n, i, bias, out)
  }

  /** The basic code points, and the separator if there are any. */
  lemma BasicsResume(basics: seq<nat>, body: seq<nat>)
    requires body == (if basics == [] then [] else basics + [HYPHEN]) && AllBasic(basics)
    ensures Resumes(body, INITIAL_N, 0, INITIAL_BIAS, basics)
  {
    forall rest | NoHyphen(rest)
      ensures Decode(body + rest) == DecodeFrom(rest, INITIAL_N, 0, INITIAL_BIAS, basics)
    {
      var s := body + rest;
      var p := LastHyphen(s);
      if basics == [] {
        assert s == rest;
      } else {
        assert s[|basics|] == HYPHEN;
        assert forall q :: |basics| < q < |s| ==> s[q] == rest[q - |body|];
        assert p == |basics|;
        assert s[p + 1..] == rest && s[..p] == basics;
      }
    }
  }

  /** One more delta. */
  lemma DeltaResumes(body: seq<nat>, n: nat, i: nat, bias: nat, out: seq<nat>, delta: nat, steps: nat, at: nat)
    requires Resumes(body, n, i, bias, out)
    requires i + delta == steps * (|out| + 1) + at && at <= |out|
    ensures Resumes(body + EncodeInteger(delta, 36, bias), n + steps, at + 1, Adapt(delta, |out| + 1, i == 0),
                    InsertAt(out, at, n + steps))
  {
    hide Decode, LastHyphen, Excess, Quotient, InsertAt, DecodeInteger;
    var v := EncodeInteger(delta, 36, bias);
    forall rest | NoHyphen(rest)
      ensures Decode((body + v) + rest)
           == DecodeFrom(rest, n + steps, at + 1, Adapt(delta, |out| + 1, i == 0), InsertAt(out, at, n + steps))
    {
      IntegerDigits(delta, 36, bias);
      assert NoHyphen(v + rest);
      calc {
        Decode((body + v) + rest);
        { assert (body + v) + rest == body + (v + rest); }
        Decode(body + (v + rest));
        DecodeFrom(v + rest, n, i, bias, out);
        { DeltaStep(n, i, bias, out, delta, steps, at, rest); }
        DecodeFrom(rest, n + steps, at + 1, Adapt(delta, |out| + 1, i == 0), InsertAt(out, at, n + steps));
      }
    }
  }

  lemma DeltaStep(n: nat, i: nat, bias: nat, out: seq<nat>, delta: nat, steps: nat, at: nat, rest: seq<nat>)
    requires i + delta == steps * (|out| + 1) + at && at <= |out|
    ensures DecodeFrom(EncodeInteger(delta, 36, bias) + rest, n, i, bias, out)
         == DecodeFrom(rest, n + steps, at + 1, Adapt(delta, |out| + 1, i == 0), InsertAt(out, at, n + steps))
  {
    hide EncodeInteger, DecodeInteger, Adapt, InsertAt;
    var s := EncodeInteger(delta, 36, bias) + rest;
    IntegerDigits(delta, 36, bias);
    IntegerRoundTrip(delta, i, 1, 36, bias, rest);
    assert DecodeInteger(s, i, 1, 36, bias) == Some((i + delta, rest));
    DivUnique(i + delta, |out| + 1, steps, at);
  }

  lemma DivUnique(x: nat, y: nat, d: nat, r: nat)
    requires y > 0 && x == d * y + r && r < y
    ensures x / y == d && x % y == r
  {
    DivMod(x, y);
    MulGap(x / y, d, y);
    MulGap(d, x / y, y);
  }

  lemma MulGap(a: int, b: int, y: nat)
    ensures a > b ==> a * y >= b * y + y
  {
    assert a * y == b * y + (a - b) * y;
    if a > b { MulAtLeast3(a - b, y); }
  }

  lemma MulAtLeast3(d: nat, y: nat)
    requires d > 0
    ensures d * y >= y
  {
    assert d * y == (d - 1) * y + y;
    assert (d - 1) * y >= 0;
  }

  // ---------- The encoder ----------

  datatype Rc = Done(n: nat) | EINVAL | E2BIG

  /** What fits in the output buffer. */
  function Fit(full: seq<nat>, cap: nat): seq<nat> {
    if |full| <= cap then full else full[..cap]
  }

  function Put(out: seq<nat>, c: nat, cap: nat): seq<nat> {
    if |out| < cap then out + [c] else out
  }

  lemma PutFits(full: seq<nat>, c: nat, cap: nat)
    ensures Put(Fit(full, cap), c, cap) == Fit(full + [c], cap)
  {
  }

  /** How often a number can be halved. */
  ghost function Log(q: nat): nat {
    if q == 0 then 0 else 1 + Log(q / 2)
  }

  lemma {:induction false} LogMonotone(a: nat, b: nat)
    requires a <= b
    ensures Log(a) <= Log(b)
  {
    if a > 0 { LogMonotone(a / 2, b / 2); }
  }

  lemma {:induction false} LogBound(q: nat, j: nat, p: nat)
    requires p == Pow2(j) && q < p
    ensures Log(q) <= j
    decreases j
  {
    if q > 0 { LogBound(q / 2, j - 1, p / 2); }
  }

  ghost function Pow2(j: nat): nat { if j == 0 then 1 else 2 * Pow2(j - 1) }

  lemma LogWord(q: nat)
    requires q <= U32_MAX as nat
    ensures Log(q) <= 32
  {
    assert Pow2(8) == 256;
    assert Pow2(16) == 65536 by { Pow2Sum(8, 8); }
    assert Pow2(32) == 0x1_0000_0000 by { Pow2Sum(16, 16); }
    LogBound(q, 32, Pow2(32));
  }

  lemma {:induction false} Pow2Sum(a: nat, b: nat)
    ensures Pow2(a + b) == Pow2(a) * Pow2(b)
  {
    if a > 0 { Pow2Sum(a - 1, b); }
  }

  lemma LogStep(q: nat, r: nat)
    requires q > 0 && r <= q / 2
    ensures Log(r) < Log(q)
  {
    LogMonotone(r, q / 2);
  }

  lemma QuotientHalves(q: nat, t: nat)
    requires 1 <= t <= 26 && t <= q
    ensures Quotient(q, t) <= q / 2
  {
    var r := Quotient(q, t);
    QuotientExcess(q, t);
    assert (36 - t) * r == 2 * r + (34 - t) * r;
    assert (34 - t) * r >= 0;
  }

  /** The next digit, in the buffer and in what remains to be written. */
  lemma DigitPut(full: seq<nat>, done: seq<nat>, q: nat, k: nat, bias: nat, cap: nat)
    ensures var t := Threshold(k, bias);
            var digit := if q < t then q else t + Excess(q, t);
            && Put(Fit(full + done, cap), Digit(digit), cap) == Fit(full + (done + [Digit(digit)]), cap)
            && done + EncodeInteger(q, k, bias)
               == (done + [Digit(digit)]) + if q < t then [] else EncodeInteger(Quotient(q, t), k + 36, bias)
  {
    var t := Threshold(k, bias);
    var digit := if q < t then q else t + Excess(q, t);
    PutOne(full, done, Digit(digit), cap);
    EncodeOne(q, k, bias);
    var tail := if q < t then [] else EncodeInteger(Quotient(q, t), k + 36, bias);
    assert done + ([Digit(digit)] + tail) == (done + [Digit(digit)]) + tail;
  }

  lemma PutOne(full: seq<nat>, done: seq<nat>, c: nat, cap: nat)
    ensures Put(Fit(full + done, cap), c, cap) == Fit(full + (done + [c]), cap)
  {
    PutFits(full + done, c, cap);
    assert (full + done) + [c] == full + (done + [c]);
  }

  lemma EncodeOne(q: nat, k: nat, bias: nat)
    ensures var t := Threshold(k, bias);
            EncodeInteger(q, k, bias)
            == if q < t then
              [Digit(q)] + [] else [Digit(t + Excess(q, t))] + EncodeInteger(Quotient(q, t), k + 36, bias)
  {
  }

  lemma ThresholdWord(k: u32, bias: u32, t: u32)
    requires t == if k <= bias then 1 else if k - bias > 26 then 26 else k - bias
    ensures t as nat == Threshold(k as nat, bias as nat)
  {
  }

  lemma WordDivide(x: u32, y: u32)
    requires y > 0
    ensures (x / y) as nat == x as nat / y as nat && (x % y) as nat == x as nat % y as nat && x % y < y
  {
  }

  lemma WordDigit(q: u32, t: u32, x: u32, y: u32)
    requires 1 <= t <= 26 && t <= q && x == q - t && y == 36 - t
    ensures (x / y) as nat == Quotient(q as nat, t as nat)
    ensures (x % y) as nat == Excess(q as nat, t as nat) && x % y < y
  {
    WordDivide(x, y);
    assert x as nat == q as nat - t as nat && y as nat == 36 - t as nat;
  }

  /** The digit to write next, and what remains. */
  method SplitDigit(q: u32, t: u32) returns (digit: u32, rest: u32)
    requires 1 <= t <= 26 && t <= q
    ensures digit as nat == t as nat + Excess(q as nat, t as nat) && rest as nat == Quotient(q as nat, t as nat)
    ensures digit < 36 && rest < q
  {
    hide Quotient, Excess;
    var x := q - t;
    var y := 36 - t;
    WordDigit(q, t, x, y);
    digit, rest := t + x % y, x / y;
  }

  /** Appends the digits of `delta`. */
  method PutInteger(out: seq<nat>, cap: nat, delta: u32, bias: u32, ghost full: seq<nat>) returns (out': seq<nat>)
    requires out == Fit(full, cap) && bias <= 0x1000
    ensures out' == Fit(full + EncodeInteger(delta as nat, 36, bias as nat), cap)
  {
    hide Digit, Put, Fit, Threshold, Quotient, Excess;
    var k: u32, q: u32 := 36, delta;
    out' := out;
    ghost var done := [];
    LogWord(delta as nat);
    assert full + [] == full;
    while true
      invariant k as nat + 36 * Log(q as nat) <= 36 + 36 * 32
      invariant out' == Fit(full + done, cap)
      invariant done + EncodeInteger(q as nat, k as nat, bias as nat) == EncodeInteger(delta as nat, 36, bias as nat)
      decreases q
    {
      var t: u32 := 1;
      if k > bias { t := k - bias; }
      if t > 26 { t := 26; }
      ThresholdWord(k, bias, t);
      if q < t { break; }
      QuotientHalves(q as nat, t as nat);
      LogStep(q as nat, Quotient(q as nat, t as nat));
      var digit, rest := SplitDigit(q, t);
      DigitPut(full, done, q as nat, k as nat, bias as nat, cap);
      out' := Put(out', Digit(digit as nat), cap);
      done := done + [Digit(digit as nat)];
      q := rest;
      k := k + 36;
    }
    DigitPut(full, done, q as nat, k as nat, bias as nat, cap);
    out' := Put(out', Digit(q as nat), cap);
  }

  /** The bias after `delta`, with `h` code points handled. */
  method AdaptBias(delta0: u32, h: u32, first: bool) returns (bias: u32)
    requires h > 0
    ensures bias as nat == Adapt(delta0 as nat, h as nat, first)
    ensures bias <= 0x1000
  {
    var delta := delta0 / 2;
    if first { delta := delta / 350; }
    assert delta as nat == (if first then delta0 as nat / 700 else delta0 as nat / 2);
    DivLess(delta as nat, h as nat);
    delta := delta + delta / h;
    ghost var d0 := delta as nat;
    LogWord(d0);
    bias := 0;
    while delta > 455
      invariant AdaptLoop(delta as nat, bias as nat) == AdaptLoop(d0, 0)
      invariant bias as nat + 36 * Log(delta as nat) <= 36 * 32
    {
      LogStep(delta as nat, delta as nat / 35);
      delta := delta / 35;
      bias := bias + 36;
    }
    SmallFraction(delta as nat);
    bias := bias + 36 * delta / (delta + 38);
  }

  lemma SmallFraction(d: nat)
    ensures 0 <= 36 * d / (d + 38) <= 36
  {
    var q := 36 * d / (d + 38);
    DivMod(36 * d, d + 38);
    MulGap(q, 36, d + 38);
  }

  /** Code points as the UTF-8 decoder delivers them: scalar values, or all ones for
      an invalid sequence. */
  const INVALID: nat := 0xFFFF_FFFF

  predicate Delivered(cps: seq<nat>) {
    forall j :: 0 <= j < |cps| ==> cps[j] <= 0x10FFFF || cps[j] == INVALID
  }

  predicate AllValid(cps: seq<nat>) {
    forall j :: 0 <= j < |cps| ==> cps[j] <= 0x10FFFF
  }

  const PREFIX: seq<nat> := [120, 110, 45, 45]

  /** `full` is the encoded form of label `cps`: the label itself if it is plain
      ASCII, else the prefix and something the RFC's decoder turns back into it. */
  ghost predicate Encodes(full: seq<nat>, cps: seq<nat>) {
    if forall j :: 0 <= j < |cps| ==> cps[j] < 128 then full == cps
    else PREFIX <= full && Decode(full[4..]) == Some(cps)
  }

  lemma {:induction false} HandledStep(cps: seq<nat>, n: nat, q: nat, p: nat)
    requires p < |cps|
    ensures Handled(cps[..p + 1], n, q) == Handled(cps[..p], n, q) + (if cps[p] < n ||
      (cps[p] == n && p < q) then [cps[p]] else [])
  {
    assert cps[..p + 1][..p] == cps[..p];
  }

  /** Counts the code points; fails on an invalid one. */
  method CountBasic(cps: seq<nat>) returns (ok: bool, h: u32, todo: u32)
    requires Delivered(cps) && |cps| <= U32_MAX as nat
    ensures ok <==> AllValid(cps)
    ensures ok ==> h as nat == |Handled(cps, 128, 0)| && h as nat + todo as nat == |cps|
  {
    ok, h, todo := true, 0, 0;
    var p := 0;
    while p < |cps|
      invariant 0 <= p <= |cps|
      invariant forall j :: 0 <= j < p ==> cps[j] <= 0x10FFFF
      invariant h as nat == |Handled(cps[..p], 128, 0)| && h as nat + todo as nat == p
    {
      HandledStep(cps, 128, 0, p);
      if cps[p] < 128 {
        h := h + 1;
      } else if cps[p] == INVALID {
        return false, h, todo;
      } else {
        todo := todo + 1;
      }
      p := p + 1;
    }
    assert cps[..p] == cps;
  }

  /** Copies the ASCII code points, stopping after the last one. */
  method CopyBasic(cps: seq<nat>, out: seq<nat>, cap: nat, h: u32, ghost full: seq<nat>) returns (out': seq<nat>)
    requires AllValid(cps) && h as nat == |Handled(cps, 128, 0)| && out == Fit(full, cap)
    ensures out' == Fit(full + Handled(cps, 128, 0), cap)
  {
    out' := out;
    var x := 0;
    var p := 0;
    assert full + Handled(cps[..0], 128, 0) == full;
    while p < |cps|
      invariant 0 <= p <= |cps| && x == |Handled(cps[..p], 128, 0)| && (x < h as nat || h == 0)
      invariant out' == Fit(full + Handled(cps[..p], 128, 0), cap)
    {
      HandledStep(cps, 128, 0, p);
      HandledPrefix(cps, 128, 0, p + 1);
      if cps[p] <= 127 {
        PutOne(full, Handled(cps[..p], 128, 0), cps[p], cap);
        out' := Put(out', cps[p], cap);
        x := x + 1;
        if x == h as nat {
          assert Handled(cps[..p + 1], 128, 0) == Handled(cps, 128, 0);
          return;
        }
      }
      p := p + 1;
    }
    assert cps[..p] == cps;
  }

  /** The smallest code point not yet handled. */
  method Smallest(cps: seq<nat>, n: u32) returns (m: u32)
    requires AllValid(cps) && exists j :: 0 <= j < |cps| && cps[j] >= n as nat
    ensures m as nat in cps && n <= m <= 0x10FFFF
    ensures forall j :: 0 <= j < |cps| ==> cps[j] < n as nat || cps[j] >= m as nat
  {
    m := U32_MAX;
    var p := 0;
    while p < |cps|
      invariant 0 <= p <= |cps|
      invariant m == U32_MAX || (m as nat in cps && n <= m <= 0x10FFFF)
      invariant forall j :: 0 <= j < p ==> cps[j] < n as nat || cps[j] >= m as nat
    {
      if cps[p] >= n as nat {
        if cps[p] < m as nat {
          m := cps[p] as u32;
        }
      }
      p := p + 1;
    }
    var j :| 0 <= j < |cps| && cps[j] >= n as nat;
    assert cps[j] >= m as nat;
  }

  /** The relation between the encoder's `delta` and the decoder's state `(nd, id)`
      while the encoder looks for `n` at position `p`. */
  ghost predicate InStep(cps: seq<nat>, n: nat, p: nat, delta: nat, nd: nat, id: nat) {
    && nd <= n && p <= |cps| && id <= |Handled(cps, n, p)|
    && delta + id == (n - nd) * (|Handled(cps, n, p)| + 1) + |Handled(cps[..p], n, p)|
  }

  lemma StepJump(cps: seq<nat>, n: nat, m: nat, delta: nat, nd: nat, id: nat)
    requires InStep(cps, n, 0, delta, nd, id) && n <= m
    requires forall j :: 0 <= j < |cps| ==> cps[j] < n || cps[j] >= m
    ensures Handled(cps, n, 0) == Handled(cps, m, 0)
    ensures (m - n) * (|Handled(cps, n, 0)| + 1) >= 0
    ensures InStep(cps, m, 0, delta + (m - n) * (|Handled(cps, n, 0)| + 1), nd, id)
  {
    HandledJump(cps, n, m);
    var y := |Handled(cps, n, 0)| + 1;
    assert (m - nd) * y == (n - nd) * y + (m - n) * y;
    MulGap(m, n, y);
  }

  lemma StepSkip(cps: seq<nat>, n: nat, p: nat, delta: nat, nd: nat, id: nat)
    requires InStep(cps, n, p, delta, nd, id) && p < |cps| && cps[p] != n
    ensures Handled(cps, n, p + 1) == Handled(cps, n, p)
    ensures InStep(cps, n, p + 1, if cps[p] < n then delta + 1 else delta, nd, id)
  {
    HandledSkip(cps, n, p);
    HandledStep(cps, n, p + 1, p);
    HandledLater(cps[..p], n, p, p + 1);
    HandledPrefix(cps, n, p + 1, p + 1);
  }

  lemma StepInsert(cps: seq<nat>, n: nat, p: nat, delta: nat, nd: nat, id: nat)
    requires InStep(cps, n, p, delta, nd, id) && p < |cps| && cps[p] == n
    ensures var c := |Handled(cps[..p], n, p)|;
            && c <= |Handled(cps, n, p)|
            && id + delta == (n - nd) * (|Handled(cps, n, p)| + 1) + c
            && Handled(cps, n, p + 1) == InsertAt(Handled(cps, n, p), c, n)
            && InStep(cps, n, p + 1, 0, n, c + 1)
  {
    HandledInsert(cps, n, p);
    HandledStep(cps, n, p + 1, p);
    HandledLater(cps[..p], n, p, p + 1);
  }

  lemma StepNext(cps: seq<nat>, n: nat, delta: nat, nd: nat, id: nat)
    requires InStep(cps, n, |cps|, delta, nd, id)
    ensures Handled(cps, n, |cps|) == Handled(cps, n + 1, 0)
    ensures InStep(cps, n + 1, 0, delta + 1, nd, id)
  {
    HandledNext(cps, n, |cps|);
    assert cps[..|cps|] == cps;
    var y := |Handled(cps, n, |cps|)| + 1;
    assert (n + 1 - nd) * y == (n - nd) * y + y;
  }

  /** Labels this short never overflow the 32-bit delta. */
  const SHORT: nat := 3854

  lemma MulMono(a: nat, b: nat, y: nat, z: nat)
    requires a <= b && y <= z
    ensures 0 <= a * y <= b * z
  {
    assert b * z == a * y + (b - a) * y + b * (z - y);
    assert (b - a) * y >= 0 && b * (z - y) >= 0 && a * y >= 0;
  }

  lemma ShortDelta(cps: seq<nat>, n: nat, p: nat, delta: nat, nd: nat, id: nat)
    requires InStep(cps, n, p, delta, nd, id) && n <= 0x10FFFF && |cps| <= SHORT
    ensures delta < U32_MAX as nat
  {
    HandledLength(cps, n, p);
    HandledLength(cps[..p], n, p);
    MulMono(n - nd, 0x10FFFF, |Handled(cps, n, p)| + 1, SHORT + 1);
  }

  /** Where the encoder stands between two scans. */
  datatype Progress = Progress(h: u32, todo: u32, delta: u32, bias: u32, first: bool, out: seq<nat>)

  /** What the decoder makes of what has been written. */
  datatype Shadow = Shadow(body: seq<nat>, nd: nat, id: nat)

  ghost predicate Tracks(cps: seq<nat>, cap: nat, n: nat, p: nat, st: Progress, sh: Shadow) {
    && InStep(cps, n, p, st.delta as nat, sh.nd, sh.id)
    && st.h as nat == |Handled(cps, n, p)| && st.h as nat + st.todo as nat == |cps|
    && Resumes(sh.body, sh.nd, sh.id, st.bias as nat, Handled(cps, n, p))
    && st.bias <= 0x1000 && (st.first <==> sh.id == 0)
    && st.out == Fit(PREFIX + sh.body, cap)
  }

  /** Writes one delta and resets it. */
  method PutDelta(cps: seq<nat>, cap: nat, n: u32, ghost p: nat, st: Progress, ghost sh: Shadow)
    returns (st': Progress, ghost sh': Shadow)
    requires |cps| <= U32_MAX as nat && Tracks(cps, cap, n as nat, p, st, sh)
    requires p < |cps| && cps[p] == n as nat && st.todo > 0
    ensures Tracks(cps, cap, n as nat, p + 1, st', sh') && st'.delta == 0
    ensures st'.todo == st.todo - 1
  {
    hide Resumes, Adapt, EncodeInteger, Fit, Handled;
    ghost var c := |Handled(cps[..p], n as nat, p)|;
    StepInsert(cps, n as nat, p, st.delta as nat, sh.nd, sh.id);
    ghost var body := sh.body + EncodeInteger(st.delta as nat, 36, st.bias as nat);
    var out := PutInteger(st.out, cap, st.delta, st.bias, PREFIX + sh.body);
    assert (PREFIX + sh.body) + EncodeInteger(st.delta as nat, 36, st.bias as nat) == PREFIX + body;
    DeltaResumes(sh.body, sh.nd, sh.id, st.bias as nat, Handled(cps, n as nat, p), st.delta as nat, n as nat - sh.nd,
      c);
    var h := st.h + 1;
    var bias := AdaptBias(st.delta, h, st.first);
    st' := Progress(h, st.todo - 1, 0, bias, false, out);
    sh' := Shadow(body, n as nat, c + 1);
  }

  /** One scan over the label, writing a delta for every occurrence of `n`. */
  method Scan(cps: seq<nat>, cap: nat, n: u32, st0: Progress, ghost sh0: Shadow)
    returns (ok: bool, st: Progress, ghost sh: Shadow)
    requires AllValid(cps) && |cps| <= U32_MAX as nat && Tracks(cps, cap, n as nat, 0, st0, sh0)
    requires n <= 0x10FFFF && n as nat in cps
    ensures ok ==> Tracks(cps, cap, n as nat, |cps|, st, sh) && st.delta as nat < |cps| && st.todo < st0.todo
    ensures |cps| <= SHORT ==> ok
  {
    st, sh := st0, sh0;
    var p := 0;
    ghost var seen := false;
    while p < |cps|
      invariant 0 <= p <= |cps| && Tracks(cps, cap, n as nat, p, st, sh)
      invariant seen <==> n as nat in cps[..p]
      invariant seen ==> st.delta as nat < p && st.todo < st0.todo
      invariant st.todo <= st0.todo
    {
      if cps[p] != n as nat { StepSkip(cps, n as nat, p, st.delta as nat, sh.nd, sh.id); }
      if |cps| <= SHORT { ShortDelta(cps, n as nat, p, st.delta as nat, sh.nd, sh.id); }
      if cps[p] < n as nat {
        if st.delta == U32_MAX { return false, st, sh; }
        st := st.(delta := st.delta + 1);
      }
      if cps[p] == n as nat {
        TodoLeft(cps, n as nat, p);
        st, sh := PutDelta(cps, cap, n, p, st, sh);
        seen := true;
      }
      p := p + 1;
    }
    assert cps[..p] == cps;
    return true, st, sh;
  }

  lemma TodoLeft(cps: seq<nat>, n: nat, p: nat)
    requires p < |cps| && cps[p] == n
    ensures |Handled(cps, n, p)| < |cps|
  {
    HandledLength(cps, n, p);
  }

  /** Writes the prefix, the basic code points and the separator. */
  method StartLabel(cps: seq<nat>, cap: nat, h: u32, todo: u32) returns (st: Progress, ghost sh: Shadow)
    requires AllValid(cps) && h as nat == |Handled(cps, 128, 0)| && h as nat + todo as nat == |cps|
    ensures Tracks(cps, cap, 128, 0, st, sh) && st.todo == todo
  {
    ghost var body := Handled(cps, 128, 0);
    var out := PutAll(PREFIX, cap);
    out := CopyBasic(cps, out, cap, h, PREFIX);
    if h > 0 {
      PutOne(PREFIX, body, HYPHEN, cap);
      out := Put(out, HYPHEN, cap);
      body := body + [HYPHEN];
    }
    HandledBelow(cps, 128);
    BasicsResume(Handled(cps, 128, 0), body);
    assert Handled(cps[..0], 128, 0) == [];
    st := Progress(h, todo, 0, 72, true, out);
    sh := Shadow(body, 128, 0);
  }

  /** Accounts for the code points between `n` and the next one that occurs, `m`. */
  method JumpTo(cps: seq<nat>, cap: nat, n: u32, m: u32, st: Progress, ghost sh: Shadow) returns (ok: bool,
      st': Progress)
    requires |cps| <= U32_MAX as nat && n <= m <= 0x10FFFF
    requires forall j :: 0 <= j < |cps| ==> cps[j] < n as nat || cps[j] >= m as nat
    requires Tracks(cps, cap, n as nat, 0, st, sh) && st.todo > 0
    ensures ok ==> Tracks(cps, cap, m as nat, 0, st', sh) && st'.todo == st.todo
    ensures |cps| <= SHORT ==> ok
  {
    ghost var jump := (m as nat - n as nat) * (|Handled(cps, n as nat, 0)| + 1);
    StepJump(cps, n as nat, m as nat, st.delta as nat, sh.nd, sh.id);
    if |cps| <= SHORT {
      ShortDelta(cps, m as nat, 0, st.delta as nat + jump, sh.nd, sh.id);
    }
    var delta;
    ok, delta := AddProduct(st.delta, m - n, st.h + 1);
    st' := st.(delta := delta);
  }

  /** `delta + x * y`, if that does not overflow; the test itself cannot. */
  method AddProduct(delta: u32, x: u32, y: u32) returns (ok: bool, sum: u32)
    requires y > 0
    ensures ok <==> delta as nat + x as nat * y as nat <= U32_MAX as nat
    ensures ok ==> sum as nat == delta as nat + x as nat * y as nat
  {
    var room := U32_MAX - delta;
    QuotientFits(x as nat, y as nat, room as nat);
    FitsQuotient(x as nat, y as nat, room as nat);
    if x > room / y {
      return false, delta;
    }
    return true, delta + x * y;
  }

  /** Moves on to the next smallest code point and writes its deltas. */
  method NextCodePoint(cps: seq<nat>, cap: nat, n: u32, st0: Progress, ghost sh0: Shadow)
    returns (ok: bool, n': u32, st: Progress, ghost sh: Shadow)
    requires AllValid(cps) && |cps| <= U32_MAX as nat
    requires Tracks(cps, cap, n as nat, 0, st0, sh0) && st0.todo > 0
    ensures ok ==> n < n' && Tracks(cps, cap, n' as nat, 0, st, sh) && st.todo < st0.todo
    ensures |cps| <= SHORT ==> ok
  {
    sh, n' := sh0, n;
    HandledLength(cps, n as nat, 0);
    var m := Smallest(cps, n);
    ok, st := JumpTo(cps, cap, n, m, st0, sh);
    if !ok { return; }
    ok, st, sh := Scan(cps, cap, m, st, sh);
    if !ok { return; }
    StepNext(cps, m as nat, st.delta as nat, sh.nd, sh.id);
    st := st.(delta := st.delta + 1);
    n' := m + 1;
  }

  lemma FinishedLabel(cps: seq<nat>, cap: nat, n: nat, st: Progress, sh: Shadow)
    requires Tracks(cps, cap, n, 0, st, sh) && st.todo == 0
    requires exists j :: 0 <= j < |cps| && cps[j] >= 128
    ensures Encodes(PREFIX + sh.body, cps)
  {
    HandledLength(cps, n, 0);
    assert sh.body + [] == sh.body && NoHyphen([]);
    assert Decode(sh.body + []) == DecodeFrom([], sh.nd, sh.id, st.bias as nat, cps);
    assert (PREFIX + sh.body)[4..] == sh.body;
  }

  /** Encodes one label, as far as the buffer's capacity `cap` goes.  Unless it reports
      an overflow, what it writes is (the beginning of) something that decodes to
      exactly the label. */
  method EncodeLabel(cps: seq<nat>, cap: nat) returns (rc: Rc, out: seq<nat>, ghost full: seq<nat>)
    requires Delivered(cps) && |cps| <= U32_MAX as nat
    ensures rc == EINVAL <==> !AllValid(cps)
    ensures rc.Done? ==> Encodes(full, cps) && out == Fit(full, cap)
    ensures |cps| <= SHORT ==> rc != E2BIG
  {
    out, full := [], [];
    var ok, h, todo := CountBasic(cps);
    if !ok { return EINVAL, out, full; }
    HandledLength(cps, 128, 0);
    if todo == 0 {
      assert forall j :: 0 <= j < |cps| ==> cps[j] < 128;
      out := CopyBasic(cps, out, cap, h, full);
      full := Handled(cps, 128, 0);
      assert [] + full == full;
      return Done(h as nat), out, full;
    }
    assert exists j :: 0 <= j < |cps| && cps[j] >= 128;
    var n: u32 := 128;
    var st;
    ghost var sh;
    st, sh := StartLabel(cps, cap, h, todo);
    while st.todo > 0
      invariant Tracks(cps, cap, n as nat, 0, st, sh)
      decreases st.todo
    {
      ok, n, st, sh := NextCodePoint(cps, cap, n, st, sh);
      if !ok { return E2BIG, st.out, full; }
    }
    FinishedLabel(cps, cap, n as nat, st, sh);
    return Done(0), st.out, PREFIX + sh.body;
  }

  lemma QuotientFits(x: nat, y: nat, room: nat)
    requires y > 0
    ensures x <= room / y ==> x * y <= room
  {
    DivMod(room, y);
    if x <= room / y { MulMono(x, room / y, y, y); }
  }

  lemma FitsQuotient(x: nat, y: nat, room: nat)
    requires y > 0
    ensures x * y <= room ==> x <= room / y
  {
    DivMod(room, y);
    MulGap(x, room / y, y);
  }

  method PutAll(s: seq<nat>, cap: nat) returns (out: seq<nat>)
    ensures out == Fit(s, cap)
  {
    out := [];
    var i := 0;
    while i < |s|
      invariant 0 <= i <= |s| && out == Fit(s[..i], cap)
    {
      PutFits(s[..i], s[i], cap);
      assert s[..i] + [s[i]] == s[..i + 1];
      out := Put(out, s[i], cap);
      i := i + 1;
    }
    assert s[..i] == s;
  }
}
