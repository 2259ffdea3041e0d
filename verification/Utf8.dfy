/**
 UTF-8 as `idna.c` reads it.  Its decoder decides how many bytes to read from the
 first byte alone, and checks the continuation bytes together.
 */
module Utf8 {

  /** What an invalid sequence decodes to. */
  const INVALID: bv32 := 0xFFFF_FFFF

  predicate Scalar(c: bv32) {
    c <= 0x10FFFF && !(0xD800 <= c <= 0xDFFF)
  }

  /** Section 3 of RFC 3629. */
  function Encode(c: bv32): (s: seq<bv32>)
    requires Scalar(c)
    ensures 1 <= |s| <= 4 && forall i :: 0 <= i < |s| ==> s[i] <= 0xFF
  {
    if c < 0x80 then [c]
    else if c < 0x800 then [0xC0 | (c >> 6), 0x80 | (c & 63)]
    else if c < 0x1_0000 then [0xE0 | (c >> 12), 0x80 | ((c >> 6) & 63), 0x80 | (c & 63)]
    else [0xF0 | (c >> 18), 0x80 | ((c >> 12) & 63), 0x80 | ((c >> 6) & 63), 0x80 | (c & 63)]
  }

  /** How many bytes a sequence with first byte `a` takes. */
  function Width(a: bv32): nat {
    if a < 128 || a > 0xF7 || a <= 0xBF then 1
    else if a > 0xEF then 4
    else if a > 0xDF then 3
    else 2
  }

  /** The value of a sequence, once its bytes are at hand: `min` is the smallest value
      that needs that many of them. */
  function Assemble(a: bv32, b: bv32, c: bv32, d: bv32, min: bv32): bv32 {
    if 0x80 != 0xC0 & (b ^ c ^ d) then INVALID
    else
      var v := (a << 18) | ((b & 63) << 12) | ((c & 63) << 6) | (d & 63);
      if v < min || v > 0x10FFFF || 0xD800 <= v <= 0xDFFF then INVALID else v
  }

  /** The value of one whole sequence. */
  function Value(s: seq<bv32>): bv32
    requires |s| > 0 && |s| == Width(s[0])
  {
    var a := s[0];
    if a < 128 then a
    else if a > 0xF7 then INVALID
    else if a > 0xEF then Assemble(a & 7, s[1], s[2], s[3], 0x1_0000)
    else if a > 0xDF then Assemble(0, 0x80 | (a & 15), s[1], s[2], 0x800)
    else if a > 0xBF then Assemble(0, 0x80, 0x80 | (a & 31), s[1], 0x80)
    else INVALID
  }

  // Each field comes back out of its byte.

  lemma Continuation(x: bv32)
    ensures (0x80 | (x & 63)) & 63 == x & 63 && 0xC0 & (0x80 | (x & 63)) == 0x80
  {
  }

  lemma Leads(c: bv32)
    requires c <= 0x10FFFF
    ensures 0xEF < 0xF0 | (c >> 18) <= 0xF7 && (0xF0 | (c >> 18)) & 7 == c >> 18
    ensures c < 0x1_0000 ==> 0xDF < 0xE0 | (c >> 12) <= 0xEF && (0xE0 | (c >> 12)) & 15 == c >> 12
    ensures c < 0x800 ==> 0xBF < 0xC0 | (c >> 6) <= 0xDF && (0xC0 | (c >> 6)) & 31 == c >> 6
  {
  }

  lemma Rejoin(c: bv32)
    requires c <= 0x10FFFF
    ensures ((c >> 18) << 18) | (((c >> 12) & 63) << 12) | (((c >> 6) & 63) << 6) | (c & 63) == c
    ensures c < 0x1_0000 ==> (c >> 12) & 63 == c >> 12 && c >> 18 == 0
    ensures c < 0x800 ==> (c >> 6) & 63 == c >> 6 && c >> 12 == 0
  {
  }

  /** Three bytes whose top bits are all 10 pass the joint test. */
  lemma JointTest(b: bv32, c: bv32, d: bv32)
    requires 0xC0 & b == 0x80 && 0xC0 & c == 0x80 && 0xC0 & d == 0x80
    ensures 0xC0 & (b ^ c ^ d) == 0x80
  {
    assert 0xC0 & (b ^ c ^ d) == (0xC0 & b) ^ (0xC0 & c) ^ (0xC0 & d);
  }

  /** The four fields of a scalar value, in bytes marked as continuations, give it back. */
  lemma FieldsAssemble(c: bv32, min: bv32)
    requires Scalar(c) && min <= c
    ensures Assemble(c >> 18, 0x80 | ((c >> 12) & 63), 0x80 | ((c >> 6) & 63), 0x80 | (c & 63), min) == c
  {
    Continuation(c >> 12);
    Continuation(c >> 6);
    Continuation(c);
    JointTest(0x80 | ((c >> 12) & 63), 0x80 | ((c >> 6) & 63), 0x80 | (c & 63));
    Rejoin(c);
  }

  lemma TwoBytes(c: bv32)
    requires 0x80 <= c < 0x800
    ensures Value([0xC0 | (c >> 6), 0x80 | (c & 63)]) == c
  {
    Leads(c);
    Rejoin(c);
    FieldsAssemble(c, 0x80);
  }

  lemma ThreeBytes(c: bv32)
    requires 0x800 <= c < 0x1_0000 && Scalar(c)
    ensures Value([0xE0 | (c >> 12), 0x80 | ((c >> 6) & 63), 0x80 | (c & 63)]) == c
  {
    Leads(c);
    Rejoin(c);
    FieldsAssemble(c, 0x800);
  }

  lemma FourBytes(c: bv32)
    requires 0x1_0000 <= c <= 0x10FFFF
    ensures Value([0xF0 | (c >> 18), 0x80 | ((c >> 12) & 63), 0x80 | ((c >> 6) & 63), 0x80 | (c & 63)]) == c
  {
    Leads(c);
    FieldsAssemble(c, 0x1_0000);
  }

  /** Every scalar value decodes to itself, and its first byte tells how long it is. */
  lemma ScalarDecodes(c: bv32)
    requires Scalar(c)
    ensures |Encode(c)| == Width(Encode(c)[0]) && Value(Encode(c)) == c
  {
    Leads(c);
    if c < 0x80 {
    } else if c < 0x800 {
      TwoBytes(c);
    } else if c < 0x1_0000 {
      ThreeBytes(c);
    } else {
      FourBytes(c);
    }
  }

  /** Characters of the examples in section 7 of RFC 3629. */
  lemma Samples()
    ensures Encode(0x41) == [0x41] && Encode(0x391) == [0xCE, 0x91] && Encode(0x2262) == [0xE2, 0x89, 0xA2]
    ensures Encode(0xD55C) == [0xED, 0x95, 0x9C] && Encode(0x65E5) == [0xE6, 0x97, 0xA5]
    ensures Encode(0x233B4) == [0xF0, 0xA3, 0x8E, 0xB4]
  {
  }
}
