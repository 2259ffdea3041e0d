/**
 Texts that the decoder of section 6.2 of RFC 3492 reads, worked out delta by delta.  The round
 trip holds for any parameters that encoder and decoder share; these texts fix them.
 */
module PunycodeSamples {
  import opened Common
  import opened Punycode

  /** The number that the digits `d` from place `j` on stand for, if it ends where they end. */
  function ValueOf(d: seq<nat>, j: nat, i: nat, w: nat, k: nat, bias: nat): Option<nat>
    requires j <= |d|
    decreases |d| - j
  {
    if j == |d| then None
    else
      match DigitValue(d[j])
      case None => None
      case Some(digit) =>
        var t := Threshold(k, bias);
        if digit >= t then ValueOf(d, j + 1, i + digit * w, w * (36 - t), k + 36, bias)
        else if j + 1 == |d| then Some(i + digit * w) else None
  }

  lemma {:induction false} ValueRead(d: seq<nat>, j: nat, i: nat, w: nat, k: nat, bias: nat, rest: seq<nat>)
    requires j <= |d| && ValueOf(d, j, i, w, k, bias).Some?
    ensures DecodeInteger(d[j..] + rest, i, w, k, bias) == Some((ValueOf(d, j, i, w, k, bias).value, rest))
    decreases |d| - j
  {
    hide Threshold, DigitValue;
    var s, t := d[j..] + rest, Threshold(k, bias);
    assert s[0] == d[j] && s[1..] == d[j + 1..] + rest;
    var digit := DigitValue(d[j]).value;
    if digit < t {
      assert d[j + 1..] + rest == rest;
    } else {
      ValueRead(d, j + 1, i + digit * w, w * (36 - t), k + 36, bias, rest);
    }
  }

  /** The text `s` from place `p` on makes `cps` of `out`. */
  ghost predicate Reads(s: seq<nat>, p: nat, n: nat, i: nat, bias: nat, out: seq<nat>, cps: seq<nat>) {
    p <= |s| && DecodeFrom(s[p..], n, i, bias, out) == Some(cps)
  }

  ghost predicate Part(s: seq<nat>, p: nat, d: seq<nat>, p': nat) {
    p' == p + |d| <= |s| && forall k :: 0 <= k < |d| ==> d[k] == s[p + k]
  }

  ghost predicate Inserted(out: seq<nat>, at: nat, c: nat, out': seq<nat>) {
    at <= |out| && out' == out[..at] + [c] + out[at..]
  }

  /** One delta of value `v` - `i`: code point `n'` goes to place `at`. */
  lemma Delta(s: seq<nat>, p: nat, d: seq<nat>, p': nat, n: nat, i: nat, bias: nat, out: seq<nat>, v: nat, n': nat,
      at: nat, bias': nat, out': seq<nat>, cps: seq<nat>)
    requires Part(s, p, d, p') && ValueOf(d, 0, i, 1, 36, bias) == Some(v) && v >= i
    requires v == (n' - n) * (|out| + 1) + at && n' >= n && Adapt(v - i, |out| + 1, i == 0) == bias'
    requires Inserted(out, at, n', out') && Reads(s, p', n', at + 1, bias', out', cps)
    ensures Reads(s, p, n, i, bias, out, cps)
  {
    hide DecodeInteger, Adapt, ValueOf;
    ValueNotEmpty(d, i, bias);
    ValueRead(d, 0, i, 1, 36, bias, s[p'..]);
    assert d[0..] == d && s[p..] == d + s[p'..];
    DivUnique(v, |out| + 1, n' - n, at);
  }

  lemma ValueNotEmpty(d: seq<nat>, i: nat, bias: nat)
    requires ValueOf(d, 0, i, 1, 36, bias).Some?
    ensures d != []
  {
  }

  /** Nothing is left to read. */
  lemma End(s: seq<nat>, p: nat, n: nat, i: nat, bias: nat, out: seq<nat>)
    requires p == |s|
    ensures Reads(s, p, n, i, bias, out, out)
  {
  }

  function Ascii(s: string): seq<nat> {
    seq(|s|, i requires 0 <= i < |s| => s[i] as nat)
  }

  /** The basic code points and a hyphen, if there are any, and deltas from `p` on. */
  ghost predicate Begins(s: seq<nat>, basics: seq<nat>, p: nat) {
    p <= |s| && (forall j :: p <= j < |s| ==> s[j] != 45) && AllBasic(basics) &&
    if basics == [] then p == 0 else p > 0 && Part(s, 0, basics, p - 1) && s[p - 1] == 45
  }

  lemma Begin(s: seq<nat>, basics: seq<nat>, p: nat, cps: seq<nat>)
    requires Begins(s, basics, p) && Reads(s, p, 128, 0, 72, basics, cps)
    ensures Decode(s) == Some(cps)
  {
    hide Decode, DecodeFrom;
    assert s[..p] == if basics == [] then [] else basics + [HYPHEN];
    BasicsResume(basics, s[..p]);
    assert NoHyphen(s[p..]) && s[..p] + s[p..] == s;
  }

  /** The bias from its quotients: `d` of the delta, `e` of `d`. */
  lemma AdaptIs(delta: nat, len: nat, first: bool, d: nat, e: nat)
    requires len > 0 && e * len <= d < e * len + len
    requires if first then 700 * d <= delta < 700 * d + 700 else 2 * d <= delta < 2 * d + 2
    ensures Adapt(delta, len, first) == AdaptLoop(d + e, 0)
  {
    hide AdaptLoop;
    DivUnique(d, len, e, d - e * len);
  }

  lemma LoopIs(x: nat, k: nat, b: nat)
    requires x <= 455 && b * (x + 38) <= 36 * x < b * (x + 38) + (x + 38)
    ensures AdaptLoop(x, k) == k + b
  {
    DivUnique(36 * x, x + 38, b, 36 * x - b * (x + 38));
  }

  lemma LoopOn(x: nat, k: nat, y: nat)
    requires x > 455 && 35 * y <= x < 35 * y + 35
    ensures AdaptLoop(x, k) == AdaptLoop(y, k + 36)
  {
  }

  lemma OneLetterDeltas()
    ensures ValueOf([116, 100, 97], 0, 0, 1, 36, 72) == Some(124)
  {
  }

  lemma OneLetterBiases()
    ensures Adapt(124, 1, true) == 0
  {
    hide Adapt, AdaptLoop;
    AdaptIs(124, 1, true, 0, 0);
    LoopIs(0, 0, 0);
  }

  lemma OneLetterInserts()
    ensures Inserted([], 0, 0xFC,
      [0xFC])
  {
  }

  lemma OneLetterBegins(s: seq<nat>)
    requires s == Ascii("tda")
    ensures |s| == 3 && Begins(s, [], 0)
  {
  }

  lemma OneLetterParts(s: seq<nat>)
    requires s == Ascii("tda")
    ensures Part(s, 0, [116, 100, 97], 3)
  {
  }

  /** The letter u with diaeresis. */
  lemma OneLetter(s: seq<nat>)
    requires s == Ascii("tda")
    ensures Decode(s) == Some([0xFC])
  {
    hide *;
    OneLetterBegins(s);
    OneLetterParts(s);
    OneLetterDeltas();
    OneLetterBiases();
    OneLetterInserts();
    var cps := [0xFC];
    End(s, 3, 0xFC, 1, 0, cps);
    Delta(s, 0, [116, 100, 97], 3, 0x80, 0, 72, [], 124, 0xFC, 0, 0,
      cps, cps);
    Begin(s, [], 0, cps);
  }

  lemma ChineseDeltas()
    ensures ValueOf([105, 104, 113], 0, 0, 1, 36, 72) == Some(19853)
    ensures ValueOf([119, 99], 0, 1, 1, 36, 21) == Some(65)
    ensures ValueOf([114, 98], 0, 2, 1, 36, 20) == Some(39)
    ensures ValueOf([52, 99], 0, 1, 1, 36, 13) == Some(57)
    ensures ValueOf([118, 56, 97], 0, 2, 1, 36, 17) == Some(601)
    ensures ValueOf([56, 100], 0, 2, 1, 36, 32) == Some(132)
    ensures ValueOf([113, 103], 0, 1, 1, 36, 23) == Some(155)
    ensures ValueOf([48, 53, 54, 112], 0, 2, 1, 36, 25) == Some(46303)
    ensures ValueOf([113, 106, 121, 101], 0, 8, 1, 36, 84) == Some(88539)
  {
  }

  lemma ChineseBiases()
    ensures Adapt(19853, 1, true) == 21
    ensures Adapt(64, 2, false) == 20
    ensures Adapt(37, 3, false) == 13
    ensures Adapt(56, 4, false) == 17
    ensures Adapt(599, 5, false) == 32
    ensures Adapt(130, 6, false) == 23
    ensures Adapt(154, 7, false) == 25
    ensures Adapt(46301, 8, false) == 84
    ensures Adapt(88531, 9, false) == 90
  {
    hide Adapt, AdaptLoop;
    AdaptIs(19853, 1, true, 28, 28);
    LoopIs(56, 0, 21);
    AdaptIs(64, 2, false, 32, 16);
    LoopIs(48, 0, 20);
    AdaptIs(37, 3, false, 18, 6);
    LoopIs(24, 0, 13);
    AdaptIs(56, 4, false, 28, 7);
    LoopIs(35, 0, 17);
    AdaptIs(599, 5, false, 299, 59);
    LoopIs(358, 0, 32);
    AdaptIs(130, 6, false, 65, 10);
    LoopIs(75, 0, 23);
    AdaptIs(154, 7, false, 77, 11);
    LoopIs(88, 0, 25);
    AdaptIs(46301, 8, false, 23150, 2893);
    LoopOn(26043, 0, 744);
    LoopOn(744, 36, 21);
    LoopIs(21, 72, 12);
    AdaptIs(88531, 9, false, 44265, 4918);
    LoopOn(49183, 0, 1405);
    LoopOn(1405, 36, 40);
    LoopIs(40, 72, 18);
  }

  lemma ChineseInserts()
    ensures Inserted([], 0, 0x4E0D,
      [0x4E0D])
    ensures Inserted([0x4E0D], 1, 0x4E2D,
      [0x4E0D, 0x4E2D])
    ensures Inserted([0x4E0D, 0x4E2D], 0, 0x4E3A,
      [0x4E3A, 0x4E0D, 0x4E2D])
    ensures Inserted([0x4E3A, 0x4E0D, 0x4E2D], 1, 0x4E48,
      [0x4E3A, 0x4E48, 0x4E0D, 0x4E2D])
    ensures Inserted([0x4E3A, 0x4E48, 0x4E0D, 0x4E2D], 1, 0x4EC0,
      [0x4E3A, 0x4EC0, 0x4E48, 0x4E0D, 0x4E2D])
    ensures Inserted([0x4E3A, 0x4EC0, 0x4E48, 0x4E0D, 0x4E2D], 0, 0x4ED6,
      [0x4ED6, 0x4E3A, 0x4EC0, 0x4E48, 0x4E0D, 0x4E2D])
    ensures Inserted([0x4ED6, 0x4E3A, 0x4EC0, 0x4E48, 0x4E0D, 0x4E2D], 1, 0x4EEC,
      [0x4ED6, 0x4EEC, 0x4E3A, 0x4EC0, 0x4E48, 0x4E0D, 0x4E2D])
    ensures Inserted([0x4ED6, 0x4EEC, 0x4E3A, 0x4EC0, 0x4E48, 0x4E0D, 0x4E2D], 7, 0x6587,
      [0x4ED6, 0x4EEC, 0x4E3A, 0x4EC0, 0x4E48, 0x4E0D, 0x4E2D, 0x6587])
    ensures Inserted([0x4ED6, 0x4EEC, 0x4E3A, 0x4EC0, 0x4E48, 0x4E0D, 0x4E2D, 0x6587], 6, 0x8BF4,
      [0x4ED6, 0x4EEC, 0x4E3A, 0x4EC0, 0x4E48, 0x4E0D, 0x8BF4, 0x4E2D, 0x6587])
  {
  }

  lemma ChineseBegins(s: seq<nat>)
    requires s == Ascii("ihqwcrb4cv8a8dqg056pqjye")
    ensures |s| == 24 && Begins(s, [], 0)
  {
  }

  lemma ChineseParts(s: seq<nat>)
    requires s == Ascii("ihqwcrb4cv8a8dqg056pqjye")
    ensures Part(s, 0, [105, 104, 113], 3)
    ensures Part(s, 3, [119, 99], 5)
    ensures Part(s, 5, [114, 98], 7)
    ensures Part(s, 7, [52, 99], 9)
    ensures Part(s, 9, [118, 56, 97], 12)
    ensures Part(s, 12, [56, 100], 14)
    ensures Part(s, 14, [113, 103], 16)
    ensures Part(s, 16, [48, 53, 54, 112], 20)
    ensures Part(s, 20, [113, 106, 121, 101], 24)
  {
  }

  /** Sample (B) of section 7.1: the bias is adapted for the first time, again, and twice through the
      loop that divides by 35. */
  lemma Chinese(s: seq<nat>)
    requires s == Ascii("ihqwcrb4cv8a8dqg056pqjye")
    ensures Decode(s) == Some([0x4ED6, 0x4EEC, 0x4E3A, 0x4EC0, 0x4E48, 0x4E0D, 0x8BF4, 0x4E2D, 0x6587])
  {
    hide *;
    ChineseBegins(s);
    ChineseParts(s);
    ChineseDeltas();
    ChineseBiases();
    ChineseInserts();
    var cps := [0x4ED6, 0x4EEC, 0x4E3A, 0x4EC0, 0x4E48, 0x4E0D, 0x8BF4, 0x4E2D, 0x6587];
    End(s, 24, 0x8BF4, 7, 90, cps);
    Delta(s, 20, [113, 106, 121, 101], 24, 0x6587, 8, 84,
      [0x4ED6, 0x4EEC, 0x4E3A, 0x4EC0, 0x4E48, 0x4E0D, 0x4E2D, 0x6587], 88539, 0x8BF4, 6, 90,
      cps, cps);
    Delta(s, 16, [48, 53, 54, 112], 20, 0x4EEC, 2, 25,
      [0x4ED6, 0x4EEC, 0x4E3A, 0x4EC0, 0x4E48, 0x4E0D, 0x4E2D], 46303, 0x6587, 7, 84,
      [0x4ED6, 0x4EEC, 0x4E3A, 0x4EC0, 0x4E48, 0x4E0D, 0x4E2D, 0x6587], cps);
    Delta(s, 14, [113, 103], 16, 0x4ED6, 1, 23, [0x4ED6, 0x4E3A, 0x4EC0, 0x4E48, 0x4E0D, 0x4E2D], 155, 0x4EEC, 1, 25,
      [0x4ED6, 0x4EEC, 0x4E3A, 0x4EC0, 0x4E48, 0x4E0D, 0x4E2D], cps);
    Delta(s, 12, [56, 100], 14, 0x4EC0, 2, 32, [0x4E3A, 0x4EC0, 0x4E48, 0x4E0D, 0x4E2D], 132, 0x4ED6, 0, 23,
      [0x4ED6, 0x4E3A, 0x4EC0, 0x4E48, 0x4E0D, 0x4E2D], cps);
    Delta(s, 9, [118, 56, 97], 12, 0x4E48, 2, 17, [0x4E3A, 0x4E48, 0x4E0D, 0x4E2D], 601, 0x4EC0, 1, 32,
      [0x4E3A, 0x4EC0, 0x4E48, 0x4E0D, 0x4E2D], cps);
    Delta(s, 7, [52, 99], 9, 0x4E3A, 1, 13, [0x4E3A, 0x4E0D, 0x4E2D], 57, 0x4E48, 1, 17,
      [0x4E3A, 0x4E48, 0x4E0D, 0x4E2D], cps);
    Delta(s, 5, [114, 98], 7, 0x4E2D, 2, 20, [0x4E0D, 0x4E2D], 39, 0x4E3A, 0, 13,
      [0x4E3A, 0x4E0D, 0x4E2D], cps);
    Delta(s, 3, [119, 99], 5, 0x4E0D, 1, 21, [0x4E0D], 65, 0x4E2D, 1, 20,
      [0x4E0D, 0x4E2D], cps);
    Delta(s, 0, [105, 104, 113], 3, 0x80, 0, 72, [], 19853, 0x4E0D, 0, 21,
      [0x4E0D], cps);
    Begin(s, [], 0, cps);
  }

  lemma MixedDeltas()
    ensures ValueOf([106, 103, 52, 97], 0, 0, 1, 36, 72) == Some(36969)
    ensures ValueOf([118, 104], 0, 1, 1, 36, 23) == Some(183)
    ensures ValueOf([98], 0, 4, 1, 36, 26) == Some(5)
    ensures ValueOf([121], 0, 1, 1, 36, 0) == Some(25)
    ensures ValueOf([49, 110], 0, 2, 1, 36, 9) == Some(159)
    ensures ValueOf([111, 99], 0, 6, 1, 36, 25) == Some(70)
    ensures ValueOf([48, 100], 0, 7, 1, 36, 17) == Some(84)
  {
  }

  lemma MixedBiases()
    ensures Adapt(36969, 3, true) == 23
    ensures Adapt(182, 4, false) == 26
    ensures Adapt(1, 5, false) == 0
    ensures Adapt(24, 6, false) == 9
    ensures Adapt(157, 7, false) == 25
    ensures Adapt(64, 8, false) == 17
    ensures Adapt(77, 9, false) == 18
  {
    hide Adapt, AdaptLoop;
    AdaptIs(36969, 3, true, 52, 17);
    LoopIs(69, 0, 23);
    AdaptIs(182, 4, false, 91, 22);
    LoopIs(113, 0, 26);
    AdaptIs(1, 5, false, 0, 0);
    LoopIs(0, 0, 0);
    AdaptIs(24, 6, false, 12, 2);
    LoopIs(14, 0, 9);
    AdaptIs(157, 7, false, 78, 11);
    LoopIs(89, 0, 25);
    AdaptIs(64, 8, false, 32, 4);
    LoopIs(36, 0, 17);
    AdaptIs(77, 9, false, 38, 4);
    LoopIs(42, 0, 18);
  }

  lemma MixedInserts()
    ensures Inserted([0x64, 0x65], 0, 0x30A3,
      [0x30A3, 0x64, 0x65])
    ensures Inserted([0x30A3, 0x64, 0x65], 3, 0x30D0,
      [0x30A3, 0x64, 0x65, 0x30D0])
    ensures Inserted([0x30A3, 0x64, 0x65, 0x30D0], 0, 0x30D1,
      [0x30D1, 0x30A3, 0x64, 0x65, 0x30D0])
    ensures Inserted([0x30D1, 0x30A3, 0x64, 0x65, 0x30D0], 1, 0x30D5,
      [0x30D1, 0x30D5, 0x30A3, 0x64, 0x65, 0x30D0])
    ensures Inserted([0x30D1, 0x30D5, 0x30A3, 0x64, 0x65, 0x30D0], 5, 0x30EB,
      [0x30D1, 0x30D5, 0x30A3, 0x64, 0x65, 0x30EB, 0x30D0])
    ensures Inserted([0x30D1, 0x30D5, 0x30A3, 0x64, 0x65, 0x30EB, 0x30D0], 6, 0x30F3,
      [0x30D1, 0x30D5, 0x30A3, 0x64, 0x65, 0x30EB, 0x30F3, 0x30D0])
    ensures Inserted([0x30D1, 0x30D5, 0x30A3, 0x64, 0x65, 0x30EB, 0x30F3, 0x30D0], 3, 0x30FC,
      [0x30D1, 0x30D5, 0x30A3, 0x30FC, 0x64, 0x65, 0x30EB, 0x30F3, 0x30D0])
  {
  }

  lemma MixedBegins(s: seq<nat>)
    requires s == Ascii("de-jg4avhby1noc0d")
    ensures |s| == 17 && Begins(s, [100, 101], 3)
  {
  }

  lemma MixedParts(s: seq<nat>)
    requires s == Ascii("de-jg4avhby1noc0d")
    ensures Part(s, 3, [106, 103, 52, 97], 7)
    ensures Part(s, 7, [118, 104], 9)
    ensures Part(s, 9, [98], 10)
    ensures Part(s, 10, [121], 11)
    ensures Part(s, 11, [49, 110], 13)
    ensures Part(s, 13, [111, 99], 15)
    ensures Part(s, 15, [48, 100], 17)
  {
  }

  /** Sample (Q) of section 7.1: basic code points and others. */
  lemma Mixed(s: seq<nat>)
    requires s == Ascii("de-jg4avhby1noc0d")
    ensures Decode(s) == Some([0x30D1, 0x30D5, 0x30A3, 0x30FC, 0x64, 0x65, 0x30EB, 0x30F3, 0x30D0])
  {
    hide *;
    MixedBegins(s);
    MixedParts(s);
    MixedDeltas();
    MixedBiases();
    MixedInserts();
    var cps := [0x30D1, 0x30D5, 0x30A3, 0x30FC, 0x64, 0x65, 0x30EB, 0x30F3, 0x30D0];
    End(s, 17, 0x30FC, 4, 18, cps);
    Delta(s, 15, [48, 100], 17, 0x30F3, 7, 17,
      [0x30D1, 0x30D5, 0x30A3, 0x64, 0x65, 0x30EB, 0x30F3, 0x30D0], 84, 0x30FC, 3, 18,
      cps, cps);
    Delta(s, 13, [111, 99], 15, 0x30EB, 6, 25, [0x30D1, 0x30D5, 0x30A3, 0x64, 0x65, 0x30EB, 0x30D0], 70, 0x30F3, 6, 17,
      [0x30D1, 0x30D5, 0x30A3, 0x64, 0x65, 0x30EB, 0x30F3, 0x30D0], cps);
    Delta(s, 11, [49, 110], 13, 0x30D5, 2, 9, [0x30D1, 0x30D5, 0x30A3, 0x64, 0x65, 0x30D0], 159, 0x30EB, 5, 25,
      [0x30D1, 0x30D5, 0x30A3, 0x64, 0x65, 0x30EB, 0x30D0], cps);
    Delta(s, 10, [121], 11, 0x30D1, 1, 0, [0x30D1, 0x30A3, 0x64, 0x65, 0x30D0], 25, 0x30D5, 1, 9,
      [0x30D1, 0x30D5, 0x30A3, 0x64, 0x65, 0x30D0], cps);
    Delta(s, 9, [98], 10, 0x30D0, 4, 26, [0x30A3, 0x64, 0x65, 0x30D0], 5, 0x30D1, 0, 0,
      [0x30D1, 0x30A3, 0x64, 0x65, 0x30D0], cps);
    Delta(s, 7, [118, 104], 9, 0x30A3, 1, 23, [0x30A3, 0x64, 0x65], 183, 0x30D0, 3, 26,
      [0x30A3, 0x64, 0x65, 0x30D0], cps);
    Delta(s, 3, [106, 103, 52, 97], 7, 0x80, 0, 72, [0x64, 0x65], 36969, 0x30A3, 0, 23,
      [0x30A3, 0x64, 0x65], cps);
    Begin(s, [100, 101], 3, cps);
  }

  /** Digits are written in lower case. */
  lemma Alphabet(d: nat)
    requires d < 36
    ensures Digit(d) == Ascii("abcdefghijklmnopqrstuvwxyz0123456789")[d]
  {
    Letters("abcdefghijklmnopqrstuvwxyz0123456789", d);
  }

  lemma Letters(s: string, d: nat)
    requires s == "abcdefghijklmnopqrstuvwxyz0123456789" && d < 36
    ensures s[d] as nat == if d < 26 then 97 + d else 48 + (d - 26)
  {
    if d < 18 {
      if d < 9 { FirstNine(s, d); } else { SecondNine(s, d); }
    } else {
      if d < 27 { ThirdNine(s, d); } else { LastNine(s, d); }
    }
  }

  lemma FirstNine(s: string, d: nat)
    requires s == "abcdefghijklmnopqrstuvwxyz0123456789" && d < 9
    ensures s[d] as nat == 97 + d
  {
  }

  lemma SecondNine(s: string, d: nat)
    requires s == "abcdefghijklmnopqrstuvwxyz0123456789" && 9 <= d < 18
    ensures s[d] as nat == 97 + d
  {
  }

  lemma ThirdNine(s: string, d: nat)
    requires s == "abcdefghijklmnopqrstuvwxyz0123456789" && 18 <= d < 27
    ensures s[d] as nat == if d < 26 then 97 + d else 48 + (d - 26)
  {
  }

  lemma LastNine(s: string, d: nat)
    requires s == "abcdefghijklmnopqrstuvwxyz0123456789" && 27 <= d < 36
    ensures s[d] as nat == 48 + (d - 26)
  {
  }

  /** Letters of either case and decimal digits are read as digits, and nothing else. */
  lemma DigitsRead(c: nat)
    ensures DigitValue(c).Some? <==> 97 <= c < 123 || 65 <= c < 91 || 48 <= c < 58
    ensures forall d :: 0 <= d < 36 ==> DigitValue(Digit(d)) == Some(d)
    ensures 65 <= c < 91 ==> DigitValue(c) == DigitValue(c + 32)
  {
  }

  lemma PrefixedParts(full: seq<nat>)
    requires full == Ascii("xn--tda")
    ensures |full| == 7 && PREFIX <= full && full[4..] == Ascii("tda")
  {
    assert |PREFIX| == 4;
    assert full[..4] == PREFIX;
  }

  /** The whole label with the prefix of section 5 of RFC 3490. */
  lemma Prefixed(full: seq<nat>)
    requires full == Ascii("xn--tda")
    ensures Encodes(full, [0xFC])
  {
    hide Decode, Ascii;
    PrefixedParts(full);
    OneLetter(full[4..]);
    assert [0xFC][0] >= 128;
  }
}
