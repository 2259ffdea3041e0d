/**
 IPv4 and IPv6 addresses as text: the printers and the hand-written parsers of libuv's
 `inet.c`.  A C string is the sequence of its characters before the terminating NUL.
 */
module Inet {
  import opened Common

  // ---- Digits ----

  const DIGITS := "0123456789"
  const XDIGITS_L := "0123456789abcdef"
  const XDIGITS_U := "0123456789ABCDEF"

  function Index(s: string, ch: char): (r: Option<nat>)
    ensures r.Some? ==> r.value < |s| && s[r.value] == ch
    ensures r.None? ==> ch !in s
  {
    if s == "" then None
    else if s[0] == ch then Some(0)
    else match Index(s[1..], ch) case None => None case Some(i) => Some(i + 1)
  }

  function DigitOf(ch: char): (r: Option<nat>)
    ensures r.Some? ==> r.value < 10
  {
    if '0' <= ch <= '9' then Some(ch as int - '0' as int) else None
  }

  function HexOf(ch: char): (r: Option<nat>)
    ensures r.Some? ==> r.value < 16
  {
    if '0' <= ch <= '9' then Some(ch as int - '0' as int)
    else if 'a' <= ch <= 'f' then Some(10 + (ch as int - 'a' as int))
    else if 'A' <= ch <= 'F' then Some(10 + (ch as int - 'A' as int))
    else None
  }

  lemma DigitTables()
    ensures |DIGITS| == 10 && forall i :: 0 <= i < 10 ==> DIGITS[i] as int == '0' as int + i
    ensures |XDIGITS_L| == |XDIGITS_U| == 16 &&
      (forall i :: 0 <= i < 10 ==> XDIGITS_L[i] as int == XDIGITS_U[i] as int == '0' as int + i)
    ensures forall i :: 10 <= i < 16 ==>
      XDIGITS_L[i] as int == 'a' as int + (i - 10) && XDIGITS_U[i] as int == 'A' as int + (i - 10)
  {
  }

  /** Looking a character up in a table of digits gives its value. */
  lemma FoundDigit(ch: char)
    ensures Index(DIGITS, ch) == DigitOf(ch)
  {
    hide Index;
    DigitTables();
    if DigitOf(ch).Some? { assert DIGITS[DigitOf(ch).value] == ch; }
  }

  lemma FoundHex(ch: char)
    ensures HexOf(ch) == match Index(XDIGITS_L, ch) case Some(i) => Some(i) case None => Index(XDIGITS_U, ch)
  {
    hide Index;
    DigitTables();
    if HexOf(ch).Some? {
      var d := HexOf(ch).value;
      assert XDIGITS_L[d] == ch || XDIGITS_U[d] == ch;
    }
  }

  /** `%u`. */
  function Dec(n: nat): (s: string)
    ensures s != ""
  {
    if n < 10 then [DIGITS[n]] else Dec(n / 10) + [DIGITS[n % 10]]
  }

  /** `%x`. */
  function Hex(n: nat): (s: string)
    ensures s != ""
  {
    if n < 16 then [XDIGITS_L[n]] else Hex(n / 16) + [XDIGITS_L[n % 16]]
  }

  lemma DigitsBack(d: nat)
    requires d < 10
    ensures DigitOf(DIGITS[d]) == Some(d) && HexOf(DIGITS[d]) == Some(d) && XDIGITS_L[d] == DIGITS[d]
  {
    DigitTables();
  }

  lemma HexDigitsBack(d: nat)
    requires d < 16
    ensures HexOf(XDIGITS_L[d]) == Some(d) && XDIGITS_L[d] != ':' && XDIGITS_L[d] != '.'
  {
    DigitTables();
  }

  // ---- IPv4 ----

  function Dotted(a: seq<Byte>): (s: string)
    requires a != []
    ensures s != ""
  {
    if |a| == 1 then Dec(a[0]) else Dotted(a[..|a| - 1]) + "." + Dec(a[|a| - 1])
  }

  /** Where the parser of IPv4 text stands: the octets begun, whether the last one has a digit. */
  datatype S4 = S4(octets: nat, saw: bool, tmp: seq<Byte>)

  predicate Sound4(st: S4) {
    && 1 <= |st.tmp| <= 4 && st.octets == (if st.saw then |st.tmp| else |st.tmp| - 1)
    && (!st.saw ==> st.tmp[|st.tmp| - 1] == 0)
  }

  function Step4(st: S4, ch: char): (r: Option<S4>)
    requires Sound4(st)
    ensures r.Some? ==> Sound4(r.value)
  {
    var n := |st.tmp| - 1;
    match DigitOf(ch)
    case Some(d) =>
      var nw := st.tmp[n] * 10 + d;
      if (st.saw && st.tmp[n] == 0) || nw > 255 then None
      else Some(S4(if st.saw then st.octets else st.octets + 1, true, st.tmp[n := nw]))
    case None =>
      if ch == '.' && st.saw && st.octets < 4 then Some(S4(st.octets, false, st.tmp + [0])) else None
  }

  function Accept4(src: string, st: S4): (r: Option<seq<Byte>>)
    requires Sound4(st)
    ensures r.Some? ==> |r.value| == 4
  {
    if src == "" then (if st.octets < 4 then None else Some(st.tmp))
    else match Step4(st, src[0]) case None => None case Some(st') => Accept4(src[1..], st')
  }

  function Parse4(src: string): (r: Option<seq<Byte>>)
    ensures r.Some? ==> |r.value| == 4
  {
    Accept4(src, S4(0, false, [0]))
  }

  /** The text read so far. */
  function Shown(st: S4): string
    requires Sound4(st)
  {
    if st.saw then Dotted(st.tmp)
    else if |st.tmp| == 1 then ""
    else Dotted(st.tmp[..|st.tmp| - 1]) + "."
  }

  lemma DigitIs(ch: char)
    requires DigitOf(ch).Some?
    ensures DIGITS[DigitOf(ch).value] == ch
  {
    DigitTables();
  }

  /** One more digit. */
  lemma DecGrows(n: nat, d: nat)
    requires d < 10
    ensures Dec(n * 10 + d) == (if n == 0 then "" else Dec(n)) + [DIGITS[d]]
  {
    assert (n * 10 + d) / 10 == n && (n * 10 + d) % 10 == d;
  }

  lemma DottedLast(a: seq<Byte>, b: Byte)
    requires a != []
    ensures Dotted(a[|a| - 1 := b]) == (if |a| == 1 then "" else Dotted(a[..|a| - 1]) + ".") + Dec(b)
  {
    assert a[|a| - 1 := b][..|a| - 1] == a[..|a| - 1];
  }

  lemma StepShown(st: S4, ch: char)
    requires Sound4(st) && Step4(st, ch).Some?
    ensures Shown(Step4(st, ch).value) == Shown(st) + [ch]
  {
    hide DigitOf, Dec, Dotted;
    var n := |st.tmp| - 1;
    var st' := Step4(st, ch).value;
    if DigitOf(ch).Some? {
      DigitIs(ch);
      DecGrows(st.tmp[n], DigitOf(ch).value);
      DottedLast(st.tmp, st.tmp[n] * 10 + DigitOf(ch).value);
      assert st.tmp[n := st.tmp[n]] == st.tmp;
      DottedLast(st.tmp, st.tmp[n]);
    } else {
      assert st'.tmp[..|st'.tmp| - 1] == st.tmp;
    }
  }

  lemma {:induction false} AcceptShown(src: string, st: S4)
    requires Sound4(st) && Accept4(src, st).Some?
    ensures Shown(st) + src == Dotted(Accept4(src, st).value)
  {
    hide Step4, Dotted;
    if src == "" {
      assert Shown(st) + src == Shown(st);
    } else {
      StepShown(st, src[0]);
      AcceptShown(src[1..], Step4(st, src[0]).value);
      assert (Shown(st) + [src[0]]) + src[1..] == Shown(st) + src;
    }
  }

  lemma ReadDigit(d: nat, rest: string, st: S4)
    requires Sound4(st) && d < 10 && st.tmp[|st.tmp| - 1] * 10 + d <= 255 && (st.saw ==> st.tmp[|st.tmp| - 1] != 0)
    ensures var st' := S4(if st.saw then st.octets else st.octets + 1, true,
      st.tmp[|st.tmp| - 1 := st.tmp[|st.tmp| - 1] * 10 + d]);
      Sound4(st') && Accept4([DIGITS[d]] + rest, st) == Accept4(rest, st')
  {
    hide DigitOf;
    DigitsBack(d);
    var s := [DIGITS[d]] + rest;
    assert s[0] == DIGITS[d] && s[1..] == rest;
  }

  /** The digits of an octet are read as that octet. */
  lemma {:induction false} ReadOctet(n: Byte, rest: string, st: S4)
    requires Sound4(st) && !st.saw
    ensures var st' := S4(st.octets + 1, true, st.tmp[|st.tmp| - 1 := n]);
      Sound4(st') && Accept4(Dec(n) + rest, st) == Accept4(rest, st')
    decreases n
  {
    hide Accept4, Dec;
    var k := |st.tmp| - 1;
    var m, d := n / 10, n % 10;
    DecGrows(m, d);
    assert n == m * 10 + d;
    if n < 10 {
      assert Dec(n) == [DIGITS[d]];
      ReadDigit(d, rest, st);
    } else {
      ReadOctet(m, [DIGITS[d]] + rest, st);
      ReadDigit(d, rest, S4(st.octets + 1, true, st.tmp[k := m]));
      assert Dec(n) + rest == Dec(m) + ([DIGITS[d]] + rest);
      assert st.tmp[k := m][k := n] == st.tmp[k := n];
    }
  }

  lemma NoDigit(ch: char)
    requires ch == '.' || ch == ':'
    ensures DigitOf(ch).None? && HexOf(ch).None?
  {
  }

  lemma ReadDot(rest: string, st: S4)
    requires Sound4(st) && st.saw && st.octets < 4
    ensures Accept4("." + rest, st) == Accept4(rest, S4(st.octets, false, st.tmp + [0]))
  {
    hide DigitOf, HexOf;
    NoDigit('.');
    var s := "." + rest;
    assert s[0] == '.' && s[1..] == rest;
  }

  /** Printed octets are read back. */
  lemma {:induction false} ReadDotted(a: seq<Byte>, rest: string)
    requires 1 <= |a| <= 4
    ensures Accept4(Dotted(a) + rest, S4(0, false, [0])) == Accept4(rest, S4(|a|, true, a))
  {
    hide Accept4, Dec;
    var n := |a| - 1;
    if n == 0 {
      ReadOctet(a[0], rest, S4(0, false, [0]));
      assert [0][0 := a[0]] == a;
    } else {
      var tail := Dec(a[n]) + rest;
      assert Dotted(a) + rest == Dotted(a[..n]) + ("." + tail);
      ReadDotted(a[..n], "." + tail);
      ReadDot(tail, S4(n, true, a[..n]));
      ReadOctet(a[n], rest, S4(n, false, a[..n] + [0]));
      assert (a[..n] + [0])[n := a[n]] == a;
    }
  }

  /** The parser accepts exactly what the printer prints, and reads it as that address. */
  lemma Parse4Exact(src: string, a: seq<Byte>)
    ensures Parse4(src) == Some(a) <==> |a| == 4 && src == Dotted(a)
  {
    if Parse4(src) == Some(a) {
      AcceptShown(src, S4(0, false, [0]));
      assert "" + src == src;
    }
    if |a| == 4 && src == Dotted(a) {
      ReadDotted(a, "");
      assert Dotted(a) + "" == Dotted(a);
    }
  }

  datatype Rc = OK | ENOSPC | EINVAL | EAFNOSUPPORT

  /** What `uv__strscpy` leaves in `size` bytes: all of `s`, or as much as fits before a NUL. */
  function Copied(s: string, size: nat): (r: string)
    ensures r <= s && (size > 0 ==> |r| < size && (r == s || |r| == size - 1))
  {
    if |s| < size then s else if size == 0 then "" else s[..size - 1]
  }

  method Ntop4(src: seq<Byte>, size: nat) returns (rc: Rc, dst: string)
    requires |src| == 4
    ensures rc == (if |Dotted(src)| < size then OK else ENOSPC)
    ensures rc == OK ==> dst == Dotted(src)
  {
    DottedFour(src);
    var tmp := Dec(src[0]) + "." + Dec(src[1]) + "." + Dec(src[2]) + "." + Dec(src[3]);
    if |tmp| >= size {
      return ENOSPC, "";
    }
    return OK, Copied(tmp, size);
  }

  lemma DottedFour(a: seq<Byte>)
    requires |a| == 4
    ensures Dotted(a) == Dec(a[0]) + "." + Dec(a[1]) + "." + Dec(a[2]) + "." + Dec(a[3])
  {
    hide Dec;
    assert a[..3][..2] == a[..2] && a[..2][..1] == a[..1];
    assert Dotted(a[..1]) == Dec(a[0]);
    assert Dotted(a[..2]) == Dec(a[0]) + "." + Dec(a[1]);
    assert Dotted(a[..3]) == Dec(a[0]) + "." + Dec(a[1]) + "." + Dec(a[2]);
  }

  /** The loop over the characters, with the octets in an array. */
  method Pton4(src: string) returns (r: Option<seq<Byte>>)
    ensures r == Parse4(src)
  {
    hide DigitOf, Index;
    var tmp := new Byte[4](_ => 0);
    var saw, octets, tp, i := false, 0, 0, 0;
    assert tmp[..1] == [0];
    while i < |src|
      invariant 0 <= i <= |src| && 0 <= tp < 4
      invariant Sound4(S4(octets, saw, tmp[..tp + 1]))
      invariant Accept4(src[i..], S4(octets, saw, tmp[..tp + 1])) == Parse4(src)
    {
      ghost var st := S4(octets, saw, tmp[..tp + 1]);
      var ch := src[i];
      assert src[i..][1..] == src[i + 1..];
      FoundDigit(ch);
      match Index(DIGITS, ch) {
        case Some(d) =>
          var nw := tmp[tp] * 10 + d;
          if saw && tmp[tp] == 0 { return None; }
          if nw > 255 { return None; }
          tmp[tp] := nw;
          assert tmp[..tp + 1] == st.tmp[tp := nw];
          if !saw {
            octets := octets + 1;
            if octets > 4 { return None; }
            saw := true;
          }
        case None =>
          if ch == '.' && saw {
            if octets == 4 { return None; }
            tp := tp + 1;
            tmp[tp] := 0;
            saw := false;
            assert tmp[..tp + 1] == st.tmp + [0];
          } else {
            return None;
          }
      }
      i := i + 1;
    }
    if octets < 4 { return None; }
    assert tmp[..tp + 1] == tmp[..];
    return Some(tmp[..]);
  }
}
