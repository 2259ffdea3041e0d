/**
 A whole host name: `uv__idna_toascii` of `idna.c`, from UTF-8 text to labels in ASCII.
 */
module Idna {
  import opened Utf8
  import opened Punycode

  const DOT: nat := 46

  /** The full stop, and the three characters that are used like it. */
  predicate IsDot(c: bv32) {
    c == 0x2E || c == 0x3002 || c == 0xFF0E || c == 0xFF61
  }

  predicate Scalars(cps: seq<bv32>) {
    forall i :: 0 <= i < |cps| ==> Scalar(cps[i])
  }

  /** The text in UTF-8. */
  function EncodeAll(cps: seq<bv32>): seq<bv32>
    requires Scalars(cps)
  {
    if cps == [] then [] else Encode(cps[0]) + EncodeAll(cps[1..])
  }

  function Numbers(cps: seq<bv32>): (s: seq<nat>)
    ensures |s| == |cps|
  {
    seq(|cps|, (i: int) requires 0 <= i < |cps| => cps[i] as nat)
  }

  /** Where the first dot is, or the length of the text. */
  function FirstDot(cps: seq<bv32>): (k: nat)
    ensures k <= |cps| && (k < |cps| ==> IsDot(cps[k])) && forall i :: 0 <= i < k ==> !IsDot(cps[i])
  {
    if cps == [] || IsDot(cps[0]) then 0 else 1 + FirstDot(cps[1..])
  }

  /** The labels between the dots; the last one may be empty. */
  function Labels(cps: seq<bv32>): (ls: seq<seq<bv32>>)
    ensures |ls| > 0
    decreases |cps|
  {
    var k := FirstDot(cps);
    if k == |cps| then [cps] else [cps[..k]] + Labels(cps[k + 1..])
  }

  /** Labels with a dot after each. */
  function Dotted(fulls: seq<seq<nat>>): seq<nat> {
    if fulls == [] then [] else Dotted(fulls[..|fulls| - 1]) + fulls[|fulls| - 1] + [DOT]
  }

  ghost predicate AllEncode(fulls: seq<seq<nat>>, labels: seq<seq<bv32>>) {
    |fulls| == |labels| && forall i :: 0 <= i < |fulls| ==> Encodes(fulls[i], Numbers(labels[i]))
  }

  predicate NoDots(cps: seq<bv32>) {
    forall i :: 0 <= i < |cps| ==> !IsDot(cps[i])
  }

  lemma FirstDotIs(cps: seq<bv32>, k: nat)
    requires k <= |cps| && (k < |cps| ==> IsDot(cps[k])) && NoDots(cps[..k])
    ensures FirstDot(cps) == k
  {
    forall i | 0 <= i < k ensures !IsDot(cps[i]) { assert cps[..k][i] == cps[i]; }
  }

  lemma {:induction false} EncodeSplit(cps: seq<bv32>, i: nat)
    requires Scalars(cps) && i <= |cps|
    ensures EncodeAll(cps) == EncodeAll(cps[..i]) + EncodeAll(cps[i..])
    decreases i
  {
    hide Encode;
    if i == 0 {
      assert cps[0..] == cps;
    } else {
      EncodeSplit(cps[1..], i - 1);
      assert cps[..i][1..] == cps[1..][..i - 1] && cps[1..][i - 1..] == cps[i..];
      Assoc(Encode(cps[0]), EncodeAll(cps[1..][..i - 1]), EncodeAll(cps[i..]));
    }
  }

  lemma Assoc<T>(a: seq<T>, b: seq<T>, c: seq<T>)
    ensures a + b + c == a + (b + c)
  {
  }

  /** The head of what is left, and what comes after it. */
  lemma HeadOf<T>(s: seq<T>, p: nat, a: seq<T>, rest: seq<T>)
    requires p <= |s| && a != [] && s[p..] == a + rest
    ensures p + |a| <= |s| && s[p] == a[0] && s[p..p + |a|] == a && s[p + |a|..] == rest
  {
    assert |s[p..]| == |a| + |rest|;
    assert s[p..][0] == s[p];
    assert s[p..p + |a|] == s[p..][..|a|];
    assert s[p + |a|..] == s[p..][|a|..];
  }

  /** One character at the head of well-formed text. */
  lemma NextCharacter(bytes: seq<bv32>, p: nat, cps: seq<bv32>)
    requires Scalars(cps) && cps != [] && p <= |bytes| && bytes[p..] == EncodeAll(cps)
    ensures p < |bytes| && p + Width(bytes[p]) <= |bytes|
    ensures Value(bytes[p..p + Width(bytes[p])]) == cps[0]
    ensures bytes[p + Width(bytes[p])..] == EncodeAll(cps[1..]) && Width(bytes[p]) == |Encode(cps[0])|
  {
    hide Value, Encode, Width, Scalar;
    ScalarDecodes(cps[0]);
    HeadOf(bytes, p, Encode(cps[0]), EncodeAll(cps[1..]));
  }

  lemma NumberOk(c: bv32)
    requires Scalar(c)
    ensures c as nat <= 0x10FFFF
  {
  }

  lemma TakeSlice<T>(s: seq<T>, se: nat, p: nat, q: nat)
    requires p <= q <= se <= |s|
    ensures s[..se][p..q] == s[p..q] && s[..se][q..] == s[q..se] && s[..se][p..] == s[p..se]
  {
  }

  lemma OneCharacter(part: seq<bv32>, i: nat)
    requires i < |part|
    ensures part[..i + 1] == part[..i] + [part[i]] && part[i..][1..] == part[i + 1..] && part[i..] != []
  {
  }

  /** The code points of a label. */
  method DecodeLabel(bytes: seq<bv32>, s: nat, se: nat, ghost part: seq<bv32>) returns (cps: seq<nat>)
    requires Scalars(part) && s <= se <= |bytes| && bytes[s..se] == EncodeAll(part)
    ensures cps == Numbers(part)
  {
    hide Value, Width, Encode;
    cps := [];
    var p := s;
    ghost var i := 0;
    assert part[0..] == part;
    while p < se
      invariant s <= p <= se && i <= |part| && bytes[p..se] == EncodeAll(part[i..]) && cps == Numbers(part[..i])
      decreases se - p
    {
      assert part[i..] != [];
      OneCharacter(part, i);
      TakeSlice(bytes, se, p, p);
      NextCharacter(bytes[..se], p, part[i..]);
      var w := Width(bytes[p]);
      TakeSlice(bytes, se, p, p + w);
      var c := Value(bytes[p..p + w]);
      cps := cps + [c as nat];
      p := p + w;
      i := i + 1;
    }
    AllRead(part[i..]);
    assert part[..i] == part;
  }

  lemma AllRead(cps: seq<bv32>)
    requires Scalars(cps) && EncodeAll(cps) == []
    ensures cps == []
  {
  }

  lemma FitMore(a: seq<nat>, b: seq<nat>, cap: nat)
    ensures |Fit(a, cap)| <= cap && Fit(a, cap) + Fit(b, cap - |Fit(a, cap)|) == Fit(a + b, cap)
  {
  }

  /** One label into what is left of the buffer. */
  method PutLabel(bytes: seq<bv32>, s: nat, se: nat, out: seq<nat>, cap: nat, ghost part: seq<bv32>, ghost so: seq<nat>)
    returns (ok: bool, out': seq<nat>, ghost full: seq<nat>)
    requires Scalars(part) && s <= se <= |bytes| && bytes[s..se] == EncodeAll(part) && |part| <= U32_MAX as nat
    requires out == Fit(so, cap)
    ensures ok ==> Encodes(full, Numbers(part)) && out' == Fit(so + full, cap)
    ensures |part| <= SHORT ==> ok
  {
    hide Encodes, EncodeAll;
    var cps := DecodeLabel(bytes, s, se, part);
    forall j | 0 <= j < |cps| ensures cps[j] <= 0x10FFFF { NumberOk(part[j]); }
    FitMore(so, [], cap);
    var rc, piece;
    rc, piece, full := EncodeLabel(cps, cap - |out|);
    FitMore(so, full, cap);
    return rc.Done?, out + piece, full;
  }

  /** `uv__utf8_decode1`. */
  method DecodeOne(bytes: seq<bv32>, p: nat, ghost cps: seq<bv32>, ghost i: nat) returns (c: bv32, p': nat)
    requires Scalars(cps) && i <= |cps| && p < |bytes| && bytes[p..] == EncodeAll(cps[i..])
    ensures i < |cps| && c == cps[i] && p < p' <= |bytes| && p' == p + |Encode(c)| &&
      bytes[p'..] == EncodeAll(cps[i + 1..])
  {
    hide Value, Width, Encode;
    SomethingLeft(cps[i..]);
    NextCharacter(bytes, p, cps[i..]);
    var w := Width(bytes[p]);
    c := Value(bytes[p..p + w]);
    p' := p + w;
    assert cps[i..][1..] == cps[i + 1..];
  }

  /** Every label is encoded on its own, with a full stop for whatever dot was after it, and a
      zero ends the text, as far as the buffer goes. */
  method ToAscii(bytes: seq<bv32>, cap: nat, ghost cps: seq<bv32>) returns (ok: bool, out: seq<nat>,
      ghost fulls: seq<seq<nat>>)
    requires Scalars(cps) && bytes == EncodeAll(cps) && |cps| <= U32_MAX as nat
    ensures ok ==> AllEncode(fulls, Labels(cps))
    ensures ok ==> out == Fit(Dotted(fulls[..|fulls| - 1]) + fulls[|fulls| - 1] + [0], cap)
    ensures |cps| <= SHORT ==> ok
  {
    hide Encodes, Encode, EncodeAll, IsDot, NoDots, Labels, Dotted, AllEncode, Fit;
    out, fulls := [], [];
    var s, si := 0, 0;
    ghost var j, i, done := 0, 0, [];
    assert cps[0..] == cps && bytes[0..] == bytes && cps[0..0] == [];
    Nothing();
    NoLabels();
    while si < |bytes|
      invariant 0 <= s <= si <= |bytes| && j <= i <= |cps| && bytes[si..] == EncodeAll(cps[i..]) &&
        bytes[s..si] == EncodeAll(cps[j..i])
      invariant NoDots(cps[j..i])
      invariant Labels(cps) == done + Labels(cps[j..]) && AllEncode(fulls, done) && out == Fit(Dotted(fulls), cap)
      decreases |bytes| - si
    {
      var st := si;
      var c;
      c, si := DecodeOne(bytes, si, cps, i);
      if c != 0x2E && c != 0x3002 && c != 0xFF0E && c != 0xFF61 {
        NotDot(c);
        NoDotsMore(cps, j, i);
        OneMore(bytes, s, st, si, cps, j, i);
        i := i + 1;
        continue;
      }
      IsADot(c);
      ghost var full;
      ghost var so := Dotted(fulls);
      ok, out, full := PutLabel(bytes, s, st, out, cap, cps[j..i], so);
      if !ok { return false, out, fulls; }
      PutOne(so + full, DOT, cap);
      out := if |out| < cap then out + [DOT] else out;
      LabelSplit(cps, j, i, done);
      LabelAdded(done, cps[j..i], fulls, full);
      fulls, done := fulls + [full], done + [cps[j..i]];
      s := si;
      i := i + 1;
      j := i;
      assert bytes[s..si] == [] && cps[j..i] == [];
      Nothing();
      NoLabels();
    }
    AllRead(cps[i..]);
    assert bytes[s..] == bytes[s..si] && cps[j..i] == cps[j..];
    OneLabel(cps[j..]);
    ghost var full := [];
    ghost var so := Dotted(fulls);
    if s < |bytes| {
      ok, out, full := PutLabel(bytes, s, |bytes|, out, cap, cps[j..], so);
      if !ok { return false, out, fulls; }
    } else {
      AllRead(cps[j..]);
      EmptyLabel();
      assert so + [] == so;
    }
    PutOne(so + full, 0, cap);
    out := if |out| < cap then out + [0] else out;
    ok := true;
    LastLabel(done, cps[j..], fulls, full);
    fulls := fulls + [full];
  }

  lemma Nothing()
    ensures EncodeAll([]) == []
  {
  }

  lemma NoLabels()
    ensures AllEncode([], []) && Dotted([]) == [] && NoDots([])
    ensures forall cap :: Fit([], cap) == []
  {
  }

  lemma OneLabel(cps: seq<bv32>)
    requires NoDots(cps)
    ensures Labels(cps) == [cps]
  {
    assert cps[..|cps|] == cps;
    FirstDotIs(cps, |cps|);
  }

  lemma PutOne(full: seq<nat>, c: nat, cap: nat)
    ensures |Fit(full, cap)| <= cap
    ensures (if |Fit(full, cap)| < cap then Fit(full, cap) + [c] else Fit(full, cap)) == Fit(full + [c], cap)
  {
  }

  lemma EmptyLabel()
    ensures Encodes([], Numbers([]))
  {
  }

  lemma SomethingLeft(cps: seq<bv32>)
    requires Scalars(cps) && EncodeAll(cps) != []
    ensures cps != []
  {
  }

  lemma NoDotsMore(cps: seq<bv32>, j: nat, i: nat)
    requires j <= i < |cps| && NoDots(cps[j..i]) && !IsDot(cps[i])
    ensures NoDots(cps[j..i + 1])
  {
    hide IsDot;
    assert cps[j..i + 1] == cps[j..i] + [cps[i]];
  }

  lemma NotDot(c: bv32)
    requires c != 0x2E && c != 0x3002 && c != 0xFF0E && c != 0xFF61
    ensures !IsDot(c)
  {
  }

  lemma IsADot(c: bv32)
    requires c == 0x2E || c == 0x3002 || c == 0xFF0E || c == 0xFF61
    ensures IsDot(c)
  {
  }

  /** A character that is no dot joins the label. */
  lemma OneMore(bytes: seq<bv32>, s: nat, st: nat, si: nat, cps: seq<bv32>, j: nat, i: nat)
    requires Scalars(cps) && s <= st <= si <= |bytes| && j <= i < |cps|
    requires bytes[s..st] == EncodeAll(cps[j..i]) && bytes[st..] == EncodeAll(cps[i..]) && si == st + |Encode(cps[i])|
    ensures bytes[s..si] == EncodeAll(cps[j..i + 1])
  {
    hide Encode;
    var w := |Encode(cps[i])|;
    assert bytes[st..si] == bytes[st..][..w] == Encode(cps[i]);
    assert bytes[s..si] == bytes[s..st] + bytes[st..si];
    EncodeSplit(cps[j..i + 1], i - j);
    assert cps[j..i + 1][..i - j] == cps[j..i] && cps[j..i + 1][i - j..] == [cps[i]];
    One(cps[i]);
  }

  lemma One(c: bv32)
    requires Scalar(c)
    ensures EncodeAll([c]) == Encode(c)
  {
    assert [c][1..] == [];
  }

  lemma Slices<T>(s: seq<T>, j: nat, i: nat)
    requires j <= i < |s|
    ensures s[j..][..i - j] == s[j..i] && s[j..][i - j + 1..] == s[i + 1..] && s[j..][i - j] == s[i]
  {
  }

  lemma FirstLabel(cps: seq<bv32>, k: nat)
    requires k < |cps| && IsDot(cps[k]) && NoDots(cps[..k])
    ensures Labels(cps) == [cps[..k]] + Labels(cps[k + 1..])
  {
    hide IsDot;
    FirstDotIs(cps, k);
  }

  lemma LabelSplit(cps: seq<bv32>, j: nat, i: nat, done: seq<seq<bv32>>)
    requires j <= i < |cps| && IsDot(cps[i]) && NoDots(cps[j..i]) && Labels(cps) == done + Labels(cps[j..])
    ensures Labels(cps) == done + [cps[j..i]] + Labels(cps[i + 1..])
  {
    hide IsDot, Labels, NoDots;
    Slices(cps, j, i);
    FirstLabel(cps[j..], i - j);
    Assoc(done, [cps[j..i]], Labels(cps[i + 1..]));
  }

  lemma LabelAdded(done: seq<seq<bv32>>, part: seq<bv32>, fulls: seq<seq<nat>>, full: seq<nat>)
    requires AllEncode(fulls, done) && Encodes(full, Numbers(part))
    ensures AllEncode(fulls + [full], done + [part]) && Dotted(fulls + [full]) == Dotted(fulls) + full + [DOT]
  {
    hide Encodes, Numbers;
    assert (fulls + [full])[..|fulls|] == fulls;
  }

  lemma LastLabel(done: seq<seq<bv32>>, part: seq<bv32>, fulls: seq<seq<nat>>, full: seq<nat>)
    requires AllEncode(fulls, done) && Encodes(full, Numbers(part))
    ensures AllEncode(fulls + [full], done + [part]) && (fulls + [full])[..|fulls|] == fulls
  {
    hide Encodes;
  }

  /** A label ends at any of the four dots of section 3.1 of RFC 3490. */
  lemma EachDot(part: seq<bv32>, c: bv32, rest: seq<bv32>)
    requires forall i :: 0 <= i < |part| ==> part[i] !in {0x2E, 0x3002, 0xFF0E, 0xFF61}
    requires c == 0x2E || c == 0x3002 || c == 0xFF0E || c == 0xFF61
    ensures Labels(part + [c] + rest) == [part] + Labels(rest)
  {
    assert IsDot(c) && NoDots(part);
    hide IsDot, Labels, NoDots;
    var s := part + [c] + rest;
    assert s[..|part|] == part && s[|part|] == c && s[|part| + 1..] == rest;
    FirstLabel(s, |part|);
  }

  lemma FullStops(a: seq<nat>, b: seq<nat>)
    ensures Dotted([a, b]) == a + [0x2E] + b + [0x2E]
  {
    assert [a, b][..1] == [a];
    assert Dotted([a]) == a + [0x2E];
  }
}
