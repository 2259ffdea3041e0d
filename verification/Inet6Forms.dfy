/**
 Which of its forms an IPv6 address is printed in, and some addresses as they are printed.
 */
module Inet6Forms {
  import opened Common
  import opened Inet
  import opened Inet6

  /** No character of the text is a dot. */
  predicate NoDot(s: string) {
    forall i :: 0 <= i < |s| ==> s[i] != '.'
  }

  lemma {:induction false} HexNoDot(n: nat)
    ensures NoDot(Hex(n))
  {
    DigitTables();
    if n >= 16 { HexNoDot(n / 16); }
  }

  lemma {:induction false} TerminatedNoDot(ws: seq<Word>)
    ensures NoDot(Terminated(ws))
  {
    hide Hex;
    if ws != [] {
      HexNoDot(ws[0]);
      TerminatedNoDot(ws[1..]);
    }
  }

  lemma SeparatedNoDot(ws: seq<Word>)
    ensures NoDot(Separated(ws))
  {
    hide Hex, Terminated;
    if ws != [] {
      TerminatedNoDot(ws[..|ws| - 1]);
      HexNoDot(ws[|ws| - 1]);
    }
  }

  lemma Joined(s: string, t: string)
    ensures NoDot(s + t) <==> NoDot(s) && NoDot(t)
  {
    if NoDot(s + t) {
      forall i | 0 <= i < |s| ensures s[i] != '.' { assert (s + t)[i] == s[i]; }
      forall i | 0 <= i < |t| ensures t[i] != '.' { assert (s + t)[|s| + i] == t[i]; }
    }
  }

  lemma DottedDot(a: seq<Byte>)
    requires |a| == 4
    ensures !NoDot(Dotted(a))
  {
    hide Dec;
    var s := Dotted(a[..3]);
    assert Dotted(a)[|s|] == '.';
  }

  lemma TailDots(ws: seq<Word>, base: int, len: int)
    requires |ws| == 8 && 0 <= base && 0 <= len && base + len <= 8
    ensures NoDot(Tail(ws, base, len)) <==> !Embeds(ws, base, len)
  {
    hide NoDot, Terminated, Separated, Dotted, BytesOf;
    if Embeds(ws, base, len) {
      DottedDot(BytesOf(ws[6..]));
      Joined(Terminated(ws[base + len..6]), Dotted(BytesOf(ws[6..])));
    } else {
      SeparatedNoDot(ws[base + len..]);
    }
  }

  lemma TextDots(ws: seq<Word>, base: int, len: int)
    requires |ws| == 8 && (base == -1 || (0 <= base && 0 <= len && base + len <= 8))
    ensures NoDot(Text6(ws, base, len)) <==> !(base == 0 && Embeds(ws, base, len))
  {
    assert NoDot("::") && NoDot(":");
    hide NoDot, Terminated, Separated, Tail;
    if base == -1 {
      SeparatedNoDot(ws);
    } else {
      TailDots(ws, base, len);
      if base == 0 {
        Joined("::", Tail(ws, base, len));
      } else {
        TerminatedNoDot(ws[..base]);
        Joined(Terminated(ws[..base]), ":");
        Joined(Terminated(ws[..base]) + ":", Tail(ws, base, len));
      }
    }
  }

  /** The runs of zeros that make an address an embedded one. */
  lemma EmbeddedRuns(ws: seq<Word>, base: int, len: int)
    requires |ws| == 8 && IsBest(ws, base, len)
    ensures base == 0 && Embeds(ws, base, len) <==>
      (forall i :: 0 <= i < 5 ==> ws[i] == 0) && (ws[5] == 0xFFFF || (ws[5] == 0 && ws[6] != 0))
  {
    if forall i :: 0 <= i < 5 ==> ws[i] == 0 {
      assert ZeroRun(ws, 0, 5);
      if ws[5] == 0 { assert ZeroRun(ws, 0, 6); }
      if ws[5] == 0 && ws[6] == 0 { assert ZeroRun(ws, 0, 7); }
    }
  }

  /** The last two groups are printed as an IPv4 address exactly if the first five are zero, and the
      sixth is ffff, or zero with the seventh not zero.  The case of seven zero groups before a last
      one that is not 1, which the code tests for as well, never comes about. */
  lemma PrintsDots(ws: seq<Word>, base: int, len: int)
    requires |ws| == 8 && IsBest(ws, base, len)
    ensures !NoDot(Text6(ws, base, len)) <==>
      (forall i :: 0 <= i < 5 ==> ws[i] == 0) && (ws[5] == 0xFFFF || (ws[5] == 0 && ws[6] != 0))
  {
    TextDots(ws, base, len);
    EmbeddedRuns(ws, base, len);
  }

  // ---- Samples ----

  lemma Loopback4()
    ensures Dotted([127, 0, 0, 1]) == "127.0.0.1"
  {
    DigitTables();
    assert Dec(127) == "127";
    assert [127, 0, 0, 1][..3] == [127, 0, 0];
    assert [127, 0, 0][..2] == [127, 0];
    assert [127, 0][..1] == [127];
  }

  /** The only zeros. */
  lemma OnlyRun(ws: seq<Word>, base: nat, len: nat)
    requires base + len <= |ws| && len >= 2
    requires forall i :: 0 <= i < |ws| ==> (ws[i] == 0 <==> base <= i < base + len)
    ensures IsBest(ws, base, len)
  {
    assert ZeroRun(ws, base, len);
    forall b, n | ZeroRun(ws, b, n) ensures n <= len && (n == len ==> base <= b) {
      if n > 0 { assert ws[b] == 0 && ws[b + n - 1] == 0; }
    }
  }

  lemma Loopback6()
    ensures IsBest([0, 0, 0, 0, 0, 0, 0, 1], 0, 7) && Text6([0, 0, 0, 0, 0, 0, 0, 1], 0, 7) == "::1"
  {
    var ws: seq<Word> := [0, 0, 0, 0, 0, 0, 0, 1];
    OnlyRun(ws, 0, 7);
    hide IsBest;
    OneGroup(ws[7..], 1);
    assert Hex(1) == "1";
  }

  lemma OneGroup(ws: seq<Word>, w: Word)
    requires ws == [w]
    ensures Separated(ws) == Hex(w) && Terminated(ws) == Hex(w) + ":"
  {
    hide Hex;
  }

  lemma TwoGroups(ws: seq<Word>, v: Word, w: Word)
    requires ws == [v, w]
    ensures Separated(ws) == Hex(v) + ":" + Hex(w) && Terminated(ws) == Hex(v) + ":" + Hex(w) + ":"
  {
    hide Hex;
    OneGroup(ws[1..], w);
    OneGroup(ws[..1], v);
  }

  lemma HexDocumentation()
    ensures Hex(0x2001) == "2001" && Hex(0xDB8) == "db8" && Hex(1) == "1" && Hex(2) == "2"
  {
    assert Hex(0x20) == "20";
    assert Hex(0x200) == "200";
    assert Hex(0xDB) == "db";
  }

  lemma TwoAndTwo(ws: seq<Word>)
    requires |ws| == 8
    ensures Text6(ws, 2, 4) == Hex(ws[0]) + ":" + Hex(ws[1]) + "::" + Hex(ws[6]) + ":" + Hex(ws[7])
  {
    hide Hex, Terminated, Separated;
    TwoGroups(ws[..2], ws[0], ws[1]);
    TwoGroups(ws[6..], ws[6], ws[7]);
  }

  lemma Written(a: string, b: string, c: string, d: string)
    requires a == "2001" && b == "db8" && c == "2" && d == "1"
    ensures a + ":" + b + "::" + c + ":" + d == "2001:db8::2:1"
  {
    assert a + ":" == "2001:";
    assert a + ":" + b == "2001:db8";
    assert a + ":" + b + "::" == "2001:db8::";
    assert a + ":" + b + "::" + c == "2001:db8::2";
    assert a + ":" + b + "::" + c + ":" == "2001:db8::2:";
  }

  /** An address of section 1 of RFC 5952, in the form of its section 4. */
  lemma Documentation(ws: seq<Word>)
    requires ws == [0x2001, 0xDB8, 0, 0, 0, 0, 2, 1]
    ensures IsBest(ws, 2, 4) && Text6(ws, 2, 4) == "2001:db8::2:1"
  {
    OnlyRun(ws, 2, 4);
    HexDocumentation();
    hide IsBest, Hex, Text6;
    TwoAndTwo(ws);
    Written(Hex(0x2001), Hex(0xDB8), Hex(2), Hex(1));
  }

  lemma DottedDocumentation()
    ensures Dotted([192, 0, 2, 1]) == "192.0.2.1"
  {
    assert Dec(192) == "192";
    assert [192, 0, 2, 1][..3] == [192, 0, 2];
    assert [192, 0, 2][..2] == [192, 0];
    assert [192, 0][..1] == [192];
  }

  lemma BytesDocumentation(ws: seq<Word>)
    requires ws == [0xC000, 0x0201]
    ensures BytesOf(ws) == [192, 0, 2, 1]
  {
    assert ws[1..] == [0x0201];
    assert BytesOf(ws[1..]) == [2, 1];
  }

  lemma MappedText(ws: seq<Word>)
    requires |ws| == 8 && ws[5] == 0xFFFF
    ensures Text6(ws, 0, 5) == "::" + Hex(0xFFFF) + ":" + Dotted(BytesOf(ws[6..]))
  {
    hide Hex, Terminated, Separated, Dotted, BytesOf;
    OneGroup(ws[5..6], 0xFFFF);
  }

  lemma HexMapped()
    ensures Hex(0xFFFF) == "ffff"
  {
    assert Hex(0xFF) == "ff";
    assert Hex(0xFFF) == "fff";
  }

  /** An IPv4-mapped address, as section 5 of RFC 5952 has it. */
  lemma Mapped(ws: seq<Word>)
    requires ws == [0, 0, 0, 0, 0, 0xFFFF, 0xC000, 0x0201]
    ensures IsBest(ws, 0, 5) && Text6(ws, 0, 5) == "::ffff:192.0.2.1"
  {
    hide Hex, Text6, Dotted, BytesOf, IsBest;
    OnlyRun(ws, 0, 5);
    HexMapped();
    MappedText(ws);
    BytesDocumentation(ws[6..]);
    DottedDocumentation();
  }
}
