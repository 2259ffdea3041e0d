/**
 IPv6 addresses as text: `inet_ntop6` with its zero-run compression and embedded IPv4,
 and `inet_pton6`, which undoes it.
 */
module Inet6 {
  import opened Common
  import opened Inet

  // ---- The text of an address ----

  function BytesOf(ws: seq<Word>): (bs: seq<Byte>)
    ensures |bs| == 2 * |ws|
  {
    if ws == [] then [] else [ws[0] / 256, ws[0] % 256] + BytesOf(ws[1..])
  }

  /** Groups, each followed by a colon. */
  function Terminated(ws: seq<Word>): string {
    if ws == [] then "" else Hex(ws[0]) + ":" + Terminated(ws[1..])
  }

  /** Groups with a colon between any two. */
  function Separated(ws: seq<Word>): string {
    if ws == [] then "" else Terminated(ws[..|ws| - 1]) + Hex(ws[|ws| - 1])
  }

  ghost predicate ZeroRun(ws: seq<Word>, base: int, len: int) {
    0 <= base && 0 <= len && base + len <= |ws| && forall i :: base <= i < base + len ==> ws[i] == 0
  }

  /** The leftmost longest run of at least two zero groups, or -1 (sections 4.2.2 and 4.2.3 of RFC 5952). */
  ghost predicate IsBest(ws: seq<Word>, base: int, len: int) {
    if base == -1 then forall b, n :: ZeroRun(ws, b, n) ==> n < 2
    else
      && ZeroRun(ws, base, len) && len >= 2
      && forall b, n :: ZeroRun(ws, b, n) ==> n <= len && (n == len ==> base <= b)
  }

  predicate Embeds(ws: seq<Word>, base: int, len: int)
    requires |ws| == 8
  {
    base == 0 && (len == 6 || (len == 5 && ws[5] == 0xFFFF))
  }

  /** What follows the `::`. */
  function Tail(ws: seq<Word>, base: int, len: int): string
    requires |ws| == 8 && 0 <= base && 0 <= len && base + len <= 8
  {
    if Embeds(ws, base, len) then Terminated(ws[base + len..6]) + Dotted(BytesOf(ws[6..]))
    else Separated(ws[base + len..])
  }

  function Text6(ws: seq<Word>, base: int, len: int): string
    requires |ws| == 8 && (base == -1 || (0 <= base && 0 <= len && base + len <= 8))
  {
    if base == -1 then Separated(ws)
    else if base == 0 then "::" + Tail(ws, base, len)
    else Terminated(ws[..base]) + ":" + Tail(ws, base, len)
  }

  /** The text printed for an address. */
  ghost predicate IsText6(src: seq<Byte>, text: string) {
    exists ws: seq<Word>, base, len ::
      |ws| == 8 && src == BytesOf(ws) && IsBest(ws, base, len) && text == Text6(ws, base, len)
  }

  // ---- The parser ----

  /** `tp` is `|bytes|`, `colonp` the place of the `::`. */
  datatype S6 = S6(bytes: seq<Byte>, colonp: Option<nat>, val: nat, seen: nat)

  predicate Sound6(st: S6) {
    && |st.bytes| <= 16 && |st.bytes| % 2 == 0 && st.val < 65536 && st.seen <= 4
    && (st.seen == 0 ==> st.val == 0) && (st.seen == 1 ==> st.val < 16)
    && (st.seen == 2 ==> st.val < 256) && (st.seen == 3 ==> st.val < 4096)
    && (st.colonp.Some? ==> st.colonp.value <= |st.bytes|)
  }

  function Push(st: S6): (r: Option<S6>)
    requires Sound6(st)
    ensures r.Some? ==> Sound6(r.value)
  {
    if |st.bytes| + 2 > 16 then None
    else Some(S6(st.bytes + [st.val / 256, st.val % 256], st.colonp, 0, 0))
  }

  /** A hexadecimal digit. */
  function Hexit(st: S6, h: nat): (r: Option<S6>)
    requires Sound6(st) && h < 16
    ensures r.Some? ==> Sound6(r.value)
  {
    if st.seen == 4 then None else Some(st.(val := st.val * 16 + h, seen := st.seen + 1))
  }

  /** A colon; `last` when the text ends with it. */
  function Colon(st: S6, last: bool): (r: Option<S6>)
    requires Sound6(st)
    ensures r.Some? ==> Sound6(r.value)
  {
    if st.seen != 0 then (if last then None else Push(st))
    else if st.colonp.Some? then None
    else Some(st.(colonp := Some(|st.bytes|)))
  }

  /** A dot: the text from `cur` on is an IPv4 address. */
  function Embedded(st: S6, cur: string): (r: Option<S6>)
    requires Sound6(st)
    ensures r.Some? ==> Sound6(r.value)
  {
    if |st.bytes| + 4 > 16 then None
    else match Parse4(cur) case None => None case Some(a) => Some(S6(st.bytes + a, st.colonp, 0, 0))
  }

  /** `cur` is the text from the start of the current group on. */
  function Scan(src: string, cur: string, st: S6): (r: Option<S6>)
    requires Sound6(st)
    ensures r.Some? ==> Sound6(r.value)
    decreases |src|
  {
    if src == "" then Some(st)
    else if HexOf(src[0]).Some? then
      match Hexit(st, HexOf(src[0]).value) case None => None case Some(st') => Scan(src[1..], cur, st')
    else if src[0] == ':' then
      match Colon(st, src[1..] == "") case None => None case Some(st') => Scan(src[1..], src[1..], st')
    else if src[0] == '.' then Embedded(st, cur)
    else None
  }

  function Zeros(n: nat): (bs: seq<Byte>)
    ensures |bs| == n
  {
    if n == 0 then [] else [0] + Zeros(n - 1)
  }

  /** The gap left by the `::` is filled with zeros. */
  function Spread(st: S6): Option<seq<Byte>>
    requires Sound6(st)
  {
    match st.colonp
    case None => if |st.bytes| == 16 then Some(st.bytes) else None
    case Some(c) => if |st.bytes| == 16 then None else Some(st.bytes[..c] + Zeros(16 - |st.bytes|) + st.bytes[c..])
  }

  function Finish(st: S6): Option<seq<Byte>>
    requires Sound6(st)
  {
    if st.seen == 0 then Spread(st)
    else match Push(st) case None => None case Some(st') => Spread(st')
  }

  /** What is left to do when the scan is over. */
  function End(o: Option<S6>): Option<seq<Byte>>
    requires o.Some? ==> Sound6(o.value)
  {
    match o case None => None case Some(st) => Finish(st)
  }

  /** Reads all of `text`. */
  function Read(text: string, st: S6): Option<seq<Byte>>
    requires Sound6(st)
  {
    End(Scan(text, text, st))
  }

  const START := S6([], None, 0, 0)

  function Parse6(src: string): Option<seq<Byte>> {
    if src != "" && src[0] == ':' then
      if |src| < 2 || src[1] != ':' then None
      else Read(src[1..], START)
    else Read(src, START)
  }

  // ---- Printed text is read back ----

  lemma HexGrows(n: nat, h: nat)
    requires h < 16
    ensures Hex(n * 16 + h) == (if n == 0 then "" else Hex(n)) + [XDIGITS_L[h]]
  {
    assert (n * 16 + h) / 16 == n && (n * 16 + h) % 16 == h;
  }

  lemma ReadHex(h: nat, rest: string, cur: string, st: S6, ch: char)
    requires Sound6(st) && h < 16 && st.seen < 4 && HexOf(ch) == Some(h)
    ensures var st' := st.(val := st.val * 16 + h, seen := st.seen + 1);
      Sound6(st') && Scan([ch] + rest, cur, st) == Scan(rest, cur, st')
  {
    hide HexOf;
    assert ([ch] + rest)[1..] == rest;
  }

  /** How many digits a number below 16^k has. */
  predicate Below(n: nat, k: nat) {
    k <= 4 && n < (if k == 0 then 0 else if k == 1 then 16 else if k == 2 then 256 else if k == 3 then 4096 else 65536)
  }

  /** The digits of a group are read as its value. */
  lemma {:induction false} ReadGroup(w: nat, k: nat, rest: string, cur: string, st: S6) returns (n: nat)
    requires Sound6(st) && st.seen == 0 && Below(w, k)
    ensures 1 <= n <= k && Sound6(st.(val := w, seen := n)) &&
      Scan(Hex(w) + rest, cur, st) == Scan(rest, cur, st.(val := w, seen := n))
    decreases k
  {
    hide Scan, Hex;
    var m, h := w / 16, w % 16;
    HexGrows(m, h);
    assert w == m * 16 + h;
    HexDigitsBack(h);
    if m == 0 {
      assert Hex(w) + rest == [XDIGITS_L[h]] + rest;
      ReadHex(h, rest, cur, st, XDIGITS_L[h]);
      n := 1;
    } else {
      n := ReadGroup(m, k - 1, [XDIGITS_L[h]] + rest, cur, st);
      ReadHex(h, rest, cur, st.(val := m, seen := n), XDIGITS_L[h]);
      assert Hex(w) + rest == Hex(m) + ([XDIGITS_L[h]] + rest);
      n := n + 1;
    }
  }

  lemma ReadColon(rest: string, cur: string, st: S6)
    requires Sound6(st) && Colon(st, rest == "").Some?
    ensures Scan(":" + rest, cur, st) == Scan(rest, rest, Colon(st, rest == "").value)
  {
    hide HexOf, Colon, Hexit, Embedded;
    NoDigit(':');
    var s := ":" + rest;
    assert s[0] == ':' && s[1..] == rest;
  }

  /** Groups that end with a colon, with more text to come. */
  lemma {:induction false} ReadTerminated(ws: seq<Word>, rest: string, st: S6)
    requires Sound6(st) && st.seen == 0 && |st.bytes| + 2 * |ws| <= 16 && rest != ""
    ensures var st' := st.(bytes := st.bytes + BytesOf(ws));
      Sound6(st') && Scan(Terminated(ws) + rest, Terminated(ws) + rest, st) == Scan(rest, rest, st')
  {
    hide Scan, Hex;
    if ws == [] {
      assert Terminated(ws) + rest == rest && st.bytes + [] == st.bytes;
    } else {
      hide Spread, Finish;
      var text, more := Terminated(ws) + rest, Terminated(ws[1..]) + rest;
      FirstGroup(ws, st.bytes, rest);
      var n := ReadGroup(ws[0], 4, ":" + more, text, st);
      ReadColon(more, text, st.(val := ws[0], seen := n));
      var st1 := S6(st.bytes + [ws[0] / 256, ws[0] % 256], st.colonp, 0, 0);
      ReadTerminated(ws[1..], rest, st1);
    }
  }

  lemma {:induction false} BytesJoin(x: seq<Word>, y: seq<Word>)
    ensures BytesOf(x + y) == BytesOf(x) + BytesOf(y)
  {
    if x == [] {
      assert x + y == y;
    } else {
      assert (x + y)[1..] == x[1..] + y;
      BytesJoin(x[1..], y);
    }
  }

  lemma ScanEnd(cur: string, st: S6)
    requires Sound6(st)
    ensures Scan("", cur, st) == Some(st)
  {
  }

  lemma FinishLast(w: Word, n: nat, st: S6)
    requires Sound6(st) && |st.bytes| + 2 <= 16 && n > 0 && Sound6(st.(val := w, seen := n))
    ensures End(Some(st.(val := w, seen := n))) == Spread(S6(st.bytes + [w / 256, w % 256], st.colonp, 0, 0))
  {
    hide Spread;
  }

  lemma ReadLast(w: Word, cur: string, st: S6)
    requires Sound6(st) && st.seen == 0 && |st.bytes| + 2 <= 16
    ensures End(Scan(Hex(w), cur, st)) == Spread(S6(st.bytes + [w / 256, w % 256], st.colonp, 0, 0))
  {
    hide *;
    var digits, end := Hex(w), "";
    WordBelow(w);
    var n := ReadGroup(w, 4, end, cur, st);
    NoMore(digits);
    ScanEnd(cur, st.(val := w, seen := n));
    FinishLast(w, n, st);
  }

  lemma WordBelow(w: Word)
    ensures Below(w, 4)
  {
  }

  lemma Regroup<T>(x: seq<T>, y: seq<T>, z: seq<T>)
    ensures (x + y) + z == x + (y + z)
  {
  }

  lemma InitLast<T>(s: seq<T>)
    requires s != []
    ensures s[..|s| - 1] + [s[|s| - 1]] == s
  {
  }

  lemma OneGroup(w: Word)
    ensures BytesOf([w]) == [w / 256, w % 256]
  {
    var one := [w];
    assert one[1..] == [];
  }

  lemma LastGroup(ws: seq<Word>, bytes: seq<Byte>)
    requires ws != []
    ensures var w := ws[|ws| - 1]; (bytes + BytesOf(ws[..|ws| - 1])) + [w / 256, w % 256] == bytes + BytesOf(ws)
  {
    hide BytesOf;
    var n := |ws| - 1;
    InitLast(ws);
    BytesJoin(ws[..n], [ws[n]]);
    OneGroup(ws[n]);
    Regroup(bytes, BytesOf(ws[..n]), BytesOf([ws[n]]));
  }

  lemma NoMore(s: string)
    ensures s + "" == s
  {
  }

  lemma FirstGroup(ws: seq<Word>, bytes: seq<Byte>, rest: string)
    requires ws != []
    ensures (bytes + [ws[0] / 256, ws[0] % 256]) + BytesOf(ws[1..]) == bytes + BytesOf(ws)
    ensures Terminated(ws) + rest == Hex(ws[0]) + (":" + (Terminated(ws[1..]) + rest))
  {
    hide Hex;
    Regroup(bytes, [ws[0] / 256, ws[0] % 256], BytesOf(ws[1..]));
    var h, c, more := Hex(ws[0]), ":", Terminated(ws[1..]);
    Regroup(h + c, more, rest);
    Regroup(h, c, more + rest);
  }

  /** Groups to the end of the text. */
  lemma ReadSeparated(ws: seq<Word>, st: S6)
    requires Sound6(st) && st.seen == 0 && |st.bytes| + 2 * |ws| <= 16
    ensures Read(Separated(ws), st) == Spread(S6(st.bytes + BytesOf(ws), st.colonp, 0, 0))
  {
    hide Hex, Spread, Terminated, Scan;
    if ws == [] {
      ScanEnd("", st);
      assert st.bytes + [] == st.bytes;
    } else {
      hide Finish;
      var n := |ws| - 1;
      var st1 := st.(bytes := st.bytes + BytesOf(ws[..n]));
      ReadTerminated(ws[..n], Hex(ws[n]), st);
      ReadLast(ws[n], Hex(ws[n]), st1);
      LastGroup(ws, st.bytes);
    }
  }

  /** Decimal digits are read as if they were hexadecimal ones, until a dot shows what they are. */
  lemma {:induction false} ReadOctetDigits(n: nat, k: nat, rest: string, cur: string, st: S6) returns (v: nat, m: nat)
    requires Sound6(st) && st.seen == 0 && k <= 3 &&
      n < (if k == 0 then 0 else if k == 1 then 10 else if k == 2 then 100 else 1000)
    ensures m <= k && Sound6(st.(val := v, seen := m)) &&
      Scan(Dec(n) + rest, cur, st) == Scan(rest, cur, st.(val := v, seen := m))
    decreases k
  {
    hide Scan, Dec;
    var q, d := n / 10, n % 10;
    DecGrows(q, d);
    assert n == q * 10 + d;
    DigitsBack(d);
    if q == 0 {
      assert Dec(n) + rest == [DIGITS[d]] + rest;
      ReadHex(d, rest, cur, st, DIGITS[d]);
      v, m := d, 1;
    } else {
      v, m := ReadOctetDigits(q, k - 1, [DIGITS[d]] + rest, cur, st);
      ReadHex(d, rest, cur, st.(val := v, seen := m), DIGITS[d]);
      assert Dec(n) + rest == Dec(q) + ([DIGITS[d]] + rest);
      v, m := v * 16 + d, m + 1;
    }
  }

  lemma ScanDot(s: string, cur: string, st: S6)
    requires Sound6(st) && s != "" && s[0] == '.'
    ensures Scan(s, cur, st) == Embedded(st, cur)
  {
    hide HexOf, Embedded, Hexit, Colon;
    NoDigit(s[0]);
  }

  lemma ReadDotAt(s: string, cur: string, st: S6, a: seq<Byte>)
    requires Sound6(st) && |st.bytes| + 4 <= 16 && Parse4(cur) == Some(a) && s != "" && s[0] == '.'
    ensures End(Scan(s, cur, st)) == Spread(S6(st.bytes + a, st.colonp, 0, 0))
  {
    hide Dotted, Parse4, Spread, Scan;
    ScanDot(s, cur, st);
  }

  lemma DottedSplit(a: seq<Byte>) returns (more: string)
    requires |a| == 4
    ensures Dotted(a) == Dec(a[0]) + ("." + more)
  {
    hide Dec, Dotted;
    DottedFour(a);
    more := Dec(a[1]) + "." + Dec(a[2]) + "." + Dec(a[3]);
    assert Dec(a[0]) + "." + Dec(a[1]) + "." + Dec(a[2]) + "." + Dec(a[3]) == Dec(a[0]) + ("." + more);
  }

  lemma ReadEmbedded(a: seq<Byte>, st: S6)
    requires Sound6(st) && st.seen == 0 && |st.bytes| + 4 <= 16 && |a| == 4
    ensures Read(Dotted(a), st) == Spread(S6(st.bytes + a, st.colonp, 0, 0))
  {
    hide Dec, Dotted, Scan, End, Spread, Parse4;
    var more := DottedSplit(a);
    var v, n := ReadOctetDigits(a[0], 3, "." + more, Dotted(a), st);
    Parse4Exact(Dotted(a), a);
    ReadDotAt("." + more, Dotted(a), st.(val := v, seen := n), a);
  }

  lemma SplitBytes(ws: seq<Word>, i: nat, j: nat)
    requires i <= j <= |ws|
    ensures BytesOf(ws[i..]) == BytesOf(ws[i..j]) + BytesOf(ws[j..])
  {
    hide BytesOf;
    assert ws[i..] == ws[i..j] + ws[j..];
    BytesJoin(ws[i..j], ws[j..]);
  }

  lemma ReadTail(ws: seq<Word>, base: nat, len: nat, st: S6)
    requires |ws| == 8 && base + len <= 8 && Sound6(st) && st.seen == 0 && |st.bytes| == 2 * base
    ensures Read(Tail(ws, base, len), st) == Spread(S6(st.bytes + BytesOf(ws[base + len..]), st.colonp, 0, 0))
  {
    hide Spread, Scan, End, Terminated, Separated, Dotted;
    var after := ws[base + len..];
    if Embeds(ws, base, len) {
      var groups, a := ws[base + len..6], BytesOf(ws[6..]);
      ReadTerminated(groups, Dotted(a), st);
      ReadEmbedded(a, st.(bytes := st.bytes + BytesOf(groups)));
      SplitBytes(ws, base + len, 6);
      Regroup(st.bytes, BytesOf(groups), a);
    } else {
      ReadSeparated(after, st);
    }
  }

  lemma {:induction false} ZeroBytes(ws: seq<Word>)
    requires forall i :: 0 <= i < |ws| ==> ws[i] == 0
    ensures BytesOf(ws) == Zeros(2 * |ws|)
  {
    if ws != [] { ZeroBytes(ws[1..]); }
  }

  /** The gap is filled with the zeros that were left out. */
  lemma Filled(ws: seq<Word>, base: nat, len: nat)
    requires |ws| == 8 && ZeroRun(ws, base, len) && len > 0
    ensures Spread(S6(BytesOf(ws[..base]) + BytesOf(ws[base + len..]), Some(2 * base), 0, 0)) == Some(BytesOf(ws))
  {
    hide BytesOf, Zeros;
    var front, run, back := ws[..base], ws[base..base + len], ws[base + len..];
    SplitBytes(ws, base, base + len);
    BytesJoin(front, ws[base..]);
    assert front + ws[base..] == ws;
    ZeroBytes(run);
    var bytes := BytesOf(front) + BytesOf(back);
    assert bytes[..2 * base] == BytesOf(front) && bytes[2 * base..] == BytesOf(back);
    Regroup(BytesOf(front), BytesOf(run), BytesOf(back));
  }

  lemma FirstOfHex(n: nat)
    ensures Hex(n)[0] != ':'
  {
    if n >= 16 { FirstOfHex(n / 16); } else { HexDigitsBack(n); }
  }

  lemma FirstOfGroups(ws: seq<Word>, rest: string)
    requires ws != []
    ensures (Terminated(ws) + rest)[0] != ':' && (Separated(ws))[0] != ':'
  {
    FirstOfHex(ws[0]);
  }

  /** However an address is compressed, its text is read back as that address. */
  lemma Parse6Text(ws: seq<Word>, base: int, len: int)
    requires |ws| == 8 && (base == -1 || (ZeroRun(ws, base, len) && len > 0))
    ensures Parse6(Text6(ws, base, len)) == Some(BytesOf(ws))
  {
    hide Tail, Terminated, Separated, Scan, End, Hex, Spread, BytesOf;
    if base == -1 {
      FirstOfGroups(ws, "");
      ReadSeparated(ws, START);
      WholeAddress(ws);
    } else {
      var front, tail, text := ws[..base], Tail(ws, base, len), Text6(ws, base, len);
      var st := S6(BytesOf(front), None, 0, 0);
      assert [] + BytesOf(front) == BytesOf(front);
      if base == 0 {
        assert text[0] == ':' && text[1] == ':' && text[1..] == ":" + tail;
        NoGroups(front);
      } else {
        FirstOfGroups(front, ":" + tail);
        assert text == Terminated(front) + (":" + tail);
        ReadTerminated(front, ":" + tail, START);
      }
      ReadColon(tail, ":" + tail, st);
      ReadTail(ws, base, len, st.(colonp := Some(2 * base)));
      Filled(ws, base, len);
    }
  }

  lemma NoGroups(ws: seq<Word>)
    requires ws == []
    ensures BytesOf(ws) == [] && Terminated(ws) == ""
  {
  }

  lemma WholeAddress(ws: seq<Word>)
    requires |ws| == 8
    ensures Spread(S6([] + BytesOf(ws), None, 0, 0)) == Some(BytesOf(ws))
  {
    hide BytesOf;
    assert [] + BytesOf(ws) == BytesOf(ws);
  }

  /** The text printed for an address is read back as that address. */
  lemma RoundTrip6(src: seq<Byte>, text: string)
    requires IsText6(src, text)
    ensures Parse6(text) == Some(src)
  {
    var ws: seq<Word>, base, len :| |ws| == 8 && src == BytesOf(ws) && IsBest(ws, base, len) &&
      text == Text6(ws, base, len);
    hide Text6, BytesOf;
    Parse6Text(ws, base, len);
  }

  lemma {:induction false} BytesAt(ws: seq<Word>, k: nat)
    requires k < |ws|
    ensures BytesOf(ws)[2 * k] == ws[k] / 256 && BytesOf(ws)[2 * k + 1] == ws[k] % 256
  {
    if k > 0 { BytesAt(ws[1..], k - 1); }
  }

  lemma BytesOnce(ws: seq<Word>, ws': seq<Word>)
    requires BytesOf(ws) == BytesOf(ws')
    ensures ws == ws'
  {
    forall k | 0 <= k < |ws| ensures ws[k] == ws'[k] {
      BytesAt(ws, k);
      BytesAt(ws', k);
    }
  }

  /** An address has one text. */
  lemma OneText6(src: seq<Byte>, text: string, text': string)
    requires IsText6(src, text) && IsText6(src, text')
    ensures text == text'
  {
    hide BytesOf, Text6;
    var ws: seq<Word>, base, len :| |ws| == 8 && src == BytesOf(ws) && IsBest(ws, base, len) &&
      text == Text6(ws, base, len);
    var ws': seq<Word>, base', len' :| |ws'| == 8 && src == BytesOf(ws') && IsBest(ws', base', len') &&
      text' == Text6(ws', base', len');
    BytesOnce(ws, ws');
    if base == -1 || base' == -1 { NoRunText(ws, len, len'); }
  }

  lemma NoRunText(ws: seq<Word>, len: int, len': int)
    requires |ws| == 8
    ensures Text6(ws, -1, len) == Text6(ws, -1, len')
  {
  }

  // ---- The printer ----

  /** The two bytes of a word do not overlap, so that the source's `|=` adds. */
  method Words(src: seq<Byte>) returns (words: seq<Word>)
    requires |src| == 16
    ensures |words| == 8 && BytesOf(words) == src
  {
    var a := new Word[8](_ => 0);
    var i := 0;
    while i < 16
      invariant 0 <= i <= 16
      invariant forall k :: 0 <= k < 8 && 2 * k + 1 < i ==> a[k] == (src[2 * k] as int) * 256 + src[2 * k + 1]
      invariant forall k :: 0 <= k < 8 && 2 * k + 1 == i ==> a[k] == (src[2 * k] as int) * 256
      invariant forall k :: 0 <= k < 8 && 2 * k >= i ==> a[k] == 0
    {
      a[i / 2] := a[i / 2] + (src[i] as int) * (if i % 2 == 0 then 256 else 1);
      i := i + 1;
    }
    words := a[..];
    forall k | 0 <= k < 8 ensures BytesOf(words)[2 * k] == src[2 * k] && BytesOf(words)[2 * k + 1] == src[2 * k + 1] {
      BytesAt(words, k);
    }
    SameBytes(BytesOf(words), src);
  }

  lemma SameBytes(x: seq<Byte>, y: seq<Byte>)
    requires |x| == |y| == 16 && forall k :: 0 <= k < 8 ==> x[2 * k] == y[2 * k] && x[2 * k + 1] == y[2 * k + 1]
    ensures x == y
  {
    forall i | 0 <= i < 16 ensures x[i] == y[i] {
      var k := i / 2;
      assert i == 2 * k || i == 2 * k + 1;
    }
  }

  /** The leftmost longest nonempty zero run among those that end by `limit`, or -1. */
  ghost predicate BestBy(ws: seq<Word>, limit: int, base: int, len: int) {
    if base == -1 then forall b, n :: ZeroRun(ws, b, n) && n >= 1 ==> b + n > limit
    else
      && ZeroRun(ws, base, len) && len >= 1 && base + len <= limit
      && forall b, n :: ZeroRun(ws, b, n) && n >= 1 && b + n <= limit ==> n <= len && (n == len ==> base <= b)
  }

  /** The zero run that ends at `i`, or -1. */
  ghost predicate Current(ws: seq<Word>, i: int, base: int, len: int) {
    if base == -1 then i == 0 || (0 < i <= |ws| && ws[i - 1] != 0)
    else ZeroRun(ws, base, len) && len >= 1 && base + len == i && (base == 0 || ws[base - 1] != 0)
  }

  /** Taking the current run when it is longer than the best so far. */
  lemma BestGrows(ws: seq<Word>, i: int, base: int, len: int, b0: int, n0: int)
    requires 0 <= i <= |ws| && Current(ws, i, b0, n0) && b0 != -1 && BestBy(ws, b0, base, len)
    ensures if base == -1 || n0 > len then BestBy(ws, i, b0, n0) else BestBy(ws, i, base, len)
  {
    forall b, n | ZeroRun(ws, b, n) && n >= 1 && b + n <= i && b + n > b0 ensures b >= b0 && n <= n0 {
    }
  }

  lemma BestSkips(ws: seq<Word>, i: int, base: int, len: int)
    requires 0 <= i < |ws| && ws[i] != 0 && BestBy(ws, i, base, len)
    ensures BestBy(ws, i + 1, base, len)
  {
  }

  /** The two loops' records `best` and `cur`. */
  method BestRun(words: seq<Word>) returns (base: int, len: int)
    ensures IsBest(words, base, len)
  {
    hide ZeroRun;
    var cbase, clen, i := -1, 0, 0;
    base, len := -1, 0;
    NoRunYet(words);
    while i < |words|
      invariant 0 <= i <= |words| && Current(words, i, cbase, clen)
      invariant BestBy(words, if cbase == -1 then i else cbase, base, len)
    {
      RunGrows(words, i, cbase, clen);
      if words[i] == 0 {
        if cbase == -1 {
          cbase, clen := i, 1;
        } else {
          clen := clen + 1;
        }
      } else {
        if cbase != -1 {
          BestGrows(words, i, base, len, cbase, clen);
          if base == -1 || clen > len {
            base, len := cbase, clen;
          }
          cbase := -1;
        }
        BestSkips(words, i, base, len);
      }
      i := i + 1;
    }
    if cbase != -1 {
      BestGrows(words, i, base, len, cbase, clen);
      if base == -1 || clen > len {
        base, len := cbase, clen;
      }
    }
    BestOverall(words, base, len);
    if base != -1 && len < 2 {
      base := -1;
    }
  }

  lemma NoRunYet(ws: seq<Word>)
    ensures BestBy(ws, 0, -1, 0)
  {
  }

  lemma RunGrows(ws: seq<Word>, i: int, base: int, len: int)
    requires 0 <= i < |ws| && Current(ws, i, base, len)
    ensures ws[i] != 0 ==> Current(ws, i + 1, -1, len)
    ensures ws[i] == 0 && base == -1 ==> Current(ws, i + 1, i, 1)
    ensures ws[i] == 0 && base != -1 ==> Current(ws, i + 1, base, len + 1)
  {
  }

  lemma BestOverall(ws: seq<Word>, base: int, len: int)
    requires BestBy(ws, |ws|, base, len)
    ensures if base != -1 && len < 2 then IsBest(ws, -1, len) else IsBest(ws, base, len)
  {
    if base == -1 {
      forall b, n | ZeroRun(ws, b, n) ensures n < 2 {
      }
    } else {
      forall b, n | ZeroRun(ws, b, n) ensures n <= len && (n >= 1 && n == len ==> base <= b) {
      }
    }
  }

  /** Groups, each after a colon. */
  function Led(ws: seq<Word>): string {
    if ws == [] then "" else Led(ws[..|ws| - 1]) + ":" + Hex(ws[|ws| - 1])
  }

  lemma {:induction false} TerminatedJoin(x: seq<Word>, y: seq<Word>)
    ensures Terminated(x + y) == Terminated(x) + Terminated(y)
  {
    if x == [] {
      assert x + y == y;
    } else {
      assert (x + y)[1..] == x[1..] + y;
      TerminatedJoin(x[1..], y);
      Regroup(Hex(x[0]) + ":", Terminated(x[1..]), Terminated(y));
    }
  }

  lemma OneTerminated(w: Word)
    ensures Terminated([w]) == Hex(w) + ":" && Separated([w]) == Hex(w)
  {
    var one := [w];
    assert one[1..] == [] && one[..0] == [];
  }

  /** `Separated` with one more colon is `Terminated`. */
  lemma SeparatedEnd(ws: seq<Word>)
    requires ws != []
    ensures Separated(ws) + ":" == Terminated(ws)
  {
    hide Hex;
    var n := |ws| - 1;
    InitLast(ws);
    TerminatedJoin(ws[..n], [ws[n]]);
    OneTerminated(ws[n]);
    Regroup(Terminated(ws[..n]), Hex(ws[n]), ":");
  }

  lemma SeparatedMore(ws: seq<Word>, i: nat)
    requires i < |ws|
    ensures Separated(ws[..i + 1]) == (if i == 0 then "" else Separated(ws[..i]) + ":") + Hex(ws[i])
  {
    hide Hex, Terminated;
    assert ws[..i + 1][..i] == ws[..i];
    if i > 0 { SeparatedEnd(ws[..i]); } else { NoGroups(ws[..i]); }
  }

  lemma LedMore(ws: seq<Word>, i: nat, j: nat)
    requires i <= j < |ws|
    ensures Led(ws[i..j + 1]) == Led(ws[i..j]) + ":" + Hex(ws[j])
  {
    assert ws[i..j + 1][..j - i] == ws[i..j];
  }

  lemma {:induction false} LedSeparated(ws: seq<Word>)
    requires ws != []
    ensures Led(ws) == ":" + Separated(ws) && Led(ws) + ":" == ":" + Terminated(ws)
    decreases |ws|
  {
    hide Hex, Terminated;
    var n := |ws| - 1;
    if n == 0 {
      assert ws == [ws[0]] && ws[..0] == [];
      NoGroups(ws[..0]);
    } else {
      LedSeparated(ws[..n]);
      Regroup(":", Terminated(ws[..n]), Hex(ws[n]));
    }
    SeparatedEnd(ws);
    Regroup(":", Separated(ws), ":");
  }

  /** What has been written after `i` groups. */
  function Partial(ws: seq<Word>, base: int, len: int, i: nat): string
    requires |ws| == 8 && i <= 8 && (base == -1 || (0 <= base && 0 < len && base + len <= 8))
  {
    if base == -1 || i <= base then Separated(ws[..i])
    else Separated(ws[..base]) + ":" + (if i <= base + len then "" else Led(ws[base + len..i]))
  }

  lemma PartialStep(ws: seq<Word>, base: int, len: int, i: nat)
    requires |ws| == 8 && i < 8 && (base == -1 || (0 <= base && 0 < len && base + len <= 8))
    ensures base != -1 && i == base ==> Partial(ws, base, len, i + 1) == Partial(ws, base, len, i) + ":"
    ensures base != -1 && base < i < base + len ==> Partial(ws, base, len, i + 1) == Partial(ws, base, len, i)
    ensures base == -1 || i < base || i >= base + len ==>
      Partial(ws, base, len, i + 1) == (if i != 0 then
      Partial(ws, base, len, i) + ":" else Partial(ws, base, len, i)) + Hex(ws[i])
  {
    hide Hex, Separated, Led;
    if base == -1 || i < base {
      SeparatedMore(ws, i);
      if i == 0 { NoneSeparated(ws[..0]); }
    } else if i >= base + len {
      LedMore(ws, base + len, i);
      var x, y := Separated(ws[..base]) + ":", Led(ws[base + len..i]);
      if i == base + len { NoneLed(ws[base + len..i]); }
      Regroup(x, y, ":" + Hex(ws[i]));
      Regroup(x + y, ":", Hex(ws[i]));
      Regroup(y, ":", Hex(ws[i]));
    }
  }

  lemma NoneSeparated(ws: seq<Word>)
    requires ws == []
    ensures Separated(ws) == ""
  {
  }

  lemma NoneLed(ws: seq<Word>)
    requires ws == []
    ensures Led(ws) == ""
  {
  }

  /** The text of a compressed address, its first part followed by two colons. */
  lemma CompressedText(ws: seq<Word>, base: nat, len: nat)
    requires |ws| == 8 && base + len <= 8 && !Embeds(ws, base, len)
    ensures Text6(ws, base, len) == (Separated(ws[..base]) + ":") + (":" + Separated(ws[base + len..]))
  {
    hide Hex, Separated, Terminated;
    var front, back := ws[..base], Separated(ws[base + len..]);
    if base == 0 {
      NoneSeparated(front);
      assert "" + ":" == ":" && ":" + ":" == "::";
      Regroup(":", ":", back);
    } else {
      SeparatedEnd(front);
      Regroup(Terminated(front), ":", back);
    }
  }

  /** The end of the text: all groups written, perhaps one more colon. */
  lemma PartialWhole(ws: seq<Word>, base: int, len: int)
    requires |ws| == 8 && (base == -1 || (0 <= base && 0 < len && base + len <= 8 && !Embeds(ws, base, len)))
    ensures Text6(ws, base, len) == Partial(ws, base, len, 8) + if base != -1 && base + len == 8 then ":" else ""
  {
    hide Hex, Separated, Led, Terminated, Tail, Embeds;
    if base == -1 {
      assert ws[..8] == ws;
    } else {
      CompressedText(ws, base, len);
      hide Text6;
      var back := ws[base + len..];
      assert ws[base + len..8] == back;
      if back == [] { NoneSeparated(back); } else { LedSeparated(back); }
    }
  }

  /** The text up to an embedded IPv4 address. */
  lemma PartialEmbeds(ws: seq<Word>, base: int, len: int, a: seq<Byte>)
    requires |ws| == 8 && 0 <= base && 0 < len && base + len <= 8 && Embeds(ws, base, len) && a == BytesOf(ws[6..])
    ensures Text6(ws, base, len) == Partial(ws, base, len, 6) + ":" + Dotted(a)
    ensures |Partial(ws, base, len, 6)| <= 6
  {
    hide Hex, Separated, Led, Terminated, Dotted, BytesOf;
    var groups := ws[len..6];
    NoneSeparated(ws[..0]);
    if len == 6 {
      NoGroups(groups);
      assert Terminated(groups) + Dotted(a) == Dotted(a);
      assert "::" == ":" + ":";
    } else {
      LedSeparated(groups);
      assert groups == [ws[5]];
      OneTerminated(ws[5]);
      HexLength(ws[5]);
      Regroup(":", ":", Terminated(groups));
      assert "::" == ":" + ":";
      Regroup("::", Terminated(groups), Dotted(a));
      Regroup(":", Led(groups), ":");
    }
  }

  lemma HexLength(w: Word)
    ensures |Hex(w)| <= 4
  {
    hide Hex;
    if w < 16 { ShortHex(w, 1); } else if w < 256 { ShortHex(w, 2); } else if w < 4096 { ShortHex(w,
      3); } else { ShortHex(w, 4); }
  }

  lemma {:induction false} ShortHex(n: nat, k: nat)
    requires Below(n, k)
    ensures |Hex(n)| <= k
    decreases k
  {
    if n >= 16 { ShortHex(n / 16, k - 1); }
  }

  lemma {:induction false} ShortDec(n: nat, k: nat)
    requires 1 <= k <= 3 && n < (if k == 1 then 10 else if k == 2 then 100 else 1000)
    ensures |Dec(n)| <= k
    decreases k
  {
    if n >= 10 { ShortDec(n / 10, k - 1); }
  }

  lemma DottedLength(a: seq<Byte>)
    requires |a| == 4
    ensures |Dotted(a)| <= 15
  {
    hide Dec, Dotted;
    DottedFour(a);
    ShortDec(a[0], 3);
    ShortDec(a[1], 3);
    ShortDec(a[2], 3);
    ShortDec(a[3], 3);
  }

  const ADDRSTRLEN := 46

  /** The loop that writes the groups, a colon for the best run, and perhaps an IPv4 address. */
  method Format(src: seq<Byte>, words: seq<Word>, base: int, len: int) returns (text: string)
    requires |src| == 16 && |words| == 8 && BytesOf(words) == src
    requires base == -1 || (0 <= base && 0 < len && base + len <= 8)
    ensures text == Text6(words, base, len) && |text| < ADDRSTRLEN
  {
    hide Hex, Partial, BytesOf, Dotted, Text6;
    PartialStart(words, base, len);
    // With seven zero groups the seventh is skipped, so that the middle case never prints anything.
    var encapsulated := base == 0 && (len == 6 || (len == 7 && words[7] != 1) || (len == 5 && words[5] == 0xFFFF));
    text := "";
    var i := 0;
    while i < 8
      invariant 0 <= i <= 8 && text == Partial(words, base, len, i) && |text| <= 5 * i
      invariant i > 6 && base != -1 ==> !Embeds(words, base, len)
      decreases 8 - i
    {
      PartialStep(words, base, len, i);
      HexLength(words[i]);
      if base != -1 && base <= i < base + len {
        if i == base { text := text + ":"; }
        i := i + 1;
        continue;
      }
      if i != 0 { text := text + ":"; }
      if i == 6 && encapsulated {
        PartialEmbeds(words, base, len, BytesOf(words[6..]));
        LastFour(words, src);
        DottedLength(src[12..]);
        var rc, tail := Ntop4(src[12..], ADDRSTRLEN - |text|);
        text := text + tail;
        return;
      }
      text := text + Hex(words[i]);
      i := i + 1;
    }
    PartialWhole(words, base, len);
    if base != -1 && base + len == 8 { text := text + ":"; }
  }

  lemma PartialStart(ws: seq<Word>, base: int, len: int)
    requires |ws| == 8 && (base == -1 || (0 <= base && 0 < len && base + len <= 8))
    ensures Partial(ws, base, len, 0) == ""
  {
    NoneSeparated(ws[..0]);
  }

  lemma LastFour(ws: seq<Word>, src: seq<Byte>)
    requires |ws| == 8 && BytesOf(ws) == src
    ensures BytesOf(ws[6..]) == src[12..]
  {
    hide BytesOf;
    assert ws[..6] + ws[6..] == ws;
    BytesJoin(ws[..6], ws[6..]);
  }

  /** Prints an address; the text is cut when it does not fit, which only a `size` of 0 hides. */
  method Ntop6(src: seq<Byte>, size: nat) returns (rc: Rc, dst: string)
    requires |src| == 16
    ensures exists text :: IsText6(src, text) && dst == Copied(text, size) && rc == if |text| < size ||
      size == 0 then OK else ENOSPC
  {
    hide BytesOf, Text6;
    var words := Words(src);
    var base, len := BestRun(words);
    var text := Format(src, words, base, len);
    assert IsText6(src, text);
    dst := Copied(text, size);
    return if size == 0 || |text| < size then OK else ENOSPC, dst;
  }

  // ---- The parser's loops ----

  /** Moves the bytes after the `::` to the end, last byte first. */
  method Shift(tmp: array<Byte>, tp: nat, colonp: nat)
    requires tmp.Length == 16 && colonp <= tp < 16 && forall j :: tp <= j < 16 ==> tmp[j] == 0
    modifies tmp
    ensures tmp[..] == old(tmp[..colonp]) + Zeros(16 - tp) + old(tmp[colonp..tp])
  {
    var n := tp - colonp;
    var i := 1;
    while i <= n
      invariant 1 <= i <= n + 1
      invariant forall j :: 0 <= j < tp - (i - 1) ==> tmp[j] == old(tmp[j])
      invariant forall j :: tp - (i - 1) <= j < 16 - (i - 1) ==> tmp[j] == 0
      invariant forall j :: 16 - (i - 1) <= j < 16 ==> tmp[j] == old(tmp[j - (16 - tp)])
    {
      tmp[16 - i] := tmp[colonp + (n - i)];
      tmp[colonp + (n - i)] := 0;
      i := i + 1;
    }
    AllZeros(16 - tp);
  }

  lemma {:induction false} AllZeros(n: nat)
    ensures forall j :: 0 <= j < n ==> Zeros(n)[j] == 0
  {
    if n > 0 { AllZeros(n - 1); }
  }

  /** Where the parser stands, in its own variables. */
  ghost function StateOf(tmp: seq<Byte>, tp: nat, colonp: int, val: nat, seen: nat): S6
    requires tp <= |tmp|
  {
    S6(tmp[..tp], if colonp < 0 then None else Some(colonp), val, seen)
  }

  /** Writes the value of a group. */
  method PutGroup(tmp: array<Byte>, tp: nat, val: nat, ghost colonp: int, ghost seen: nat) returns (ok: bool)
    requires tmp.Length == 16 && tp <= 16 && tp % 2 == 0 && val < 65536 &&
      Sound6(StateOf(tmp[..], tp, colonp, val, seen))
    modifies tmp
    ensures ok <==> tp + 2 <= 16
    ensures ok ==> Push(StateOf(old(tmp[..]), tp, colonp, val, seen)) == Some(StateOf(tmp[..], tp + 2, colonp, 0, 0))
    ensures forall j :: tp + 2 <= j < 16 ==> tmp[j] == old(tmp[j])
    ensures !ok ==> Push(StateOf(old(tmp[..]), tp, colonp, val, seen)).None?
  {
    if tp + 2 > 16 { return false; }
    ghost var before := tmp[..tp];
    tmp[tp] := val / 256 % 256;
    tmp[tp + 1] := val % 256;
    assert tmp[..tp + 2] == before + [val / 256, val % 256];
    return true;
  }

  /** The end of the parse: the last group, and the shift that spreads the two halves. */
  method Conclude(tmp: array<Byte>, tp0: nat, colonp: int, val: nat, seen: nat) returns (r: Option<seq<Byte>>)
    requires tmp.Length == 16 && tp0 <= 16 && tp0 % 2 == 0 && colonp <= tp0 &&
      Sound6(StateOf(tmp[..], tp0, colonp, val, seen))
    requires forall j :: tp0 <= j < 16 ==> tmp[j] == 0
    modifies tmp
    ensures r == old(Finish(StateOf(tmp[..], tp0, colonp, val, seen)))
  {
    hide Sound6, Zeros;
    var tp := tp0;
    ghost var st := StateOf(tmp[..], tp, colonp, val, seen);
    if seen > 0 {
      SmallVal(st);
      var ok := PutGroup(tmp, tp, val, colonp, seen);
      if !ok { return None; }
      tp := tp + 2;
    }
    if colonp >= 0 {
      if tp == 16 { return None; }
      ghost var before := tmp[..];
      Shift(tmp, tp, colonp);
      assert before[..tp][..colonp] == before[..colonp] && before[..tp][colonp..] == before[colonp..tp];
      tp := 16;
    }
    if tp != 16 { return None; }
    assert tmp[..16] == tmp[..];
    return Some(tmp[..]);
  }

  lemma SmallVal(st: S6)
    requires Sound6(st)
    ensures st.val < 65536
  {
  }

  /** One step of the scan. */
  lemma ScanHexit(s: string, cur: string, st: S6, h: nat)
    requires Sound6(st) && s != "" && HexOf(s[0]) == Some(h) && h < 16
    ensures st.seen == 4 ==> Scan(s, cur, st).None?
    ensures st.seen != 4 ==> var st' := st.(val := st.val * 16 + h, seen := st.seen + 1);
      Sound6(st') && Scan(s, cur, st) == Scan(s[1..], cur, st')
  {
    hide HexOf, Embedded, Colon;
  }

  lemma ScanColon(s: string, cur: string, st: S6)
    requires Sound6(st) && s != "" && s[0] == ':'
    ensures Scan(s, cur, st) == match Colon(st, s[1..] == "") case None => None case Some(st') => Scan(s[1..], s[1..],
      st')
  {
    hide HexOf, Embedded, Hexit, Colon;
    NoDigit(s[0]);
  }

  lemma ColonCases(st: S6, last: bool)
    requires Sound6(st)
    ensures st.seen <= 4 && st.val < 65536
    ensures st.seen == 0 && st.colonp.Some? ==> Colon(st, last).None?
    ensures st.seen == 0 && st.colonp.None? ==>
      Sound6(st.(colonp := Some(|st.bytes|))) && Colon(st, last) == Some(st.(colonp := Some(|st.bytes|)))
    ensures st.seen != 0 ==> Colon(st, last) == if last then None else Push(st)
    ensures Push(st).Some? ==> Sound6(Push(st).value)
  {
  }

  lemma EmbeddedCases(st: S6, cur: string)
    requires Sound6(st) && |st.bytes| + 4 <= 16
    ensures Parse4(cur).None? ==> Embedded(st, cur).None?
    ensures Parse4(cur).Some? ==> Embedded(st, cur) == Some(S6(st.bytes + Parse4(cur).value, st.colonp, 0, 0))
  {
    hide Parse4;
  }

  lemma ScanOther(s: string, cur: string, st: S6)
    requires Sound6(st) && s != "" && HexOf(s[0]).None? && s[0] != ':' && s[0] != '.'
    ensures Scan(s, cur, st).None?
  {
    hide HexOf, Embedded, Hexit, Colon;
  }

  /** The loop over the characters from `start` on, with the bytes in an array. */
  method ScanLoop(src: string, start: nat, tmp: array<Byte>)
    returns (ok: bool, tp: nat, colonp: int, val: nat, seen: nat)
    requires start <= |src| && tmp.Length == 16 && forall j :: 0 <= j < 16 ==> tmp[j] == 0
    modifies tmp
    ensures ok <==> Scan(src[start..], src[start..], START).Some?
    ensures ok ==>
      tp <= 16 && colonp <= tp &&
      Scan(src[start..], src[start..], START) == Some(StateOf(tmp[..], tp, colonp, val, seen))
    ensures ok ==> forall j :: tp <= j < 16 ==> tmp[j] == 0
  {
    hide HexOf, Index, Parse4, Scan, Sound6, Push;
    StartSound();
    ghost var whole := Scan(src[start..], src[start..], START);
    tp, colonp, val, seen := 0, -1, 0, 0;
    var i, curtok := start, start;
    assert tmp[..0] == [];
    while i < |src|
      invariant start <= curtok <= i <= |src| && tp <= 16 && tp % 2 == 0 && -1 <= colonp <= tp
      invariant forall j :: tp <= j < 16 ==> tmp[j] == 0
      invariant Sound6(StateOf(tmp[..], tp, colonp, val, seen))
      invariant Scan(src[i..], src[curtok..], StateOf(tmp[..], tp, colonp, val, seen)) == whole
    {
      ghost var st := StateOf(tmp[..], tp, colonp, val, seen);
      var ch := src[i];
      assert src[i..][1..] == src[i + 1..];
      FoundHex(ch);
      var pch := Index(XDIGITS_L, ch);
      if pch.None? { pch := Index(XDIGITS_U, ch); }
      ghost var s := src[i..];
      if pch.Some? {
        ScanHexit(s, src[curtok..], st, pch.value);
        if seen == 4 { return false, tp, colonp, val, seen; }
        val := val * 16 + pch.value;
        seen := seen + 1;
      } else if ch == ':' {
        ScanColon(s, src[curtok..], st);
        ColonCases(st, i + 1 == |src|);
        curtok := i + 1;
        if seen == 0 {
          if colonp >= 0 { return false, tp, colonp, val, seen; }
          colonp := tp;
        } else {
          if i + 1 == |src| { return false, tp, colonp, val, seen; }
          var fits := PutGroup(tmp, tp, val, colonp, seen);
          if !fits { return false, tp, colonp, val, seen; }
          tp, val, seen := tp + 2, 0, 0;
        }
      } else if ch == '.' && tp + 4 <= 16 {
        ScanDot(s, src[curtok..], st);
        EmbeddedCases(st, src[curtok..]);
        var four := Pton4(src[curtok..]);
        if four.None? { return false, tp, colonp, val, seen; }
        PutFour(tmp, tp, four.value);
        tp, val, seen := tp + 4, 0, 0;
        return true, tp, colonp, val, seen;
      } else {
        if ch == '.' { ScanDot(s, src[curtok..], st); } else { ScanOther(s, src[curtok..], st); }
        return false, tp, colonp, val, seen;
      }
      i := i + 1;
    }
    assert src[i..] == "";
    ScanEnd(src[curtok..], StateOf(tmp[..], tp, colonp, val, seen));
    return true, tp, colonp, val, seen;
  }

  /** Writes the four bytes of an embedded address. */
  method PutFour(tmp: array<Byte>, tp: nat, a: seq<Byte>)
    requires tmp.Length == 16 && tp + 4 <= 16 && |a| == 4
    modifies tmp
    ensures tmp[..tp + 4] == old(tmp[..tp]) + a
    ensures forall j :: tp + 4 <= j < 16 ==> tmp[j] == old(tmp[j])
  {
    tmp[tp], tmp[tp + 1], tmp[tp + 2], tmp[tp + 3] := a[0], a[1], a[2], a[3];
  }

  method Pton6(src: string) returns (r: Option<seq<Byte>>)
    ensures r == Parse6(src)
  {
    hide Scan, Finish, Sound6;
    var start := 0;
    if |src| > 0 && src[0] == ':' {
      start := 1;
      if |src| < 2 || src[1] != ':' { return None; }
    }
    assert src[0..] == src;
    StartSound();
    var tmp := new Byte[16](_ => 0);
    var ok, tp, colonp, val, seen := ScanLoop(src, start, tmp);
    if !ok { return None; }
    StateEven(StateOf(tmp[..], tp, colonp, val, seen));
    r := Conclude(tmp, tp, colonp, val, seen);
  }

  lemma StartSound()
    ensures Sound6(START)
  {
  }

  lemma StateEven(st: S6)
    requires Sound6(st)
    ensures |st.bytes| % 2 == 0
  {
  }

  // ---- The two entry points ----

  datatype Family = AF_INET | AF_INET6 | AF_OTHER

  method InetNtop(af: Family, src: seq<Byte>, size: nat) returns (rc: Rc, dst: string)
    requires (af == AF_INET ==> |src| == 4) && (af == AF_INET6 ==> |src| == 16)
    ensures af == AF_INET && rc == OK ==> dst == Dotted(src)
    ensures af == AF_INET6 && rc == OK && size > 0 ==> IsText6(src, dst)
    ensures af == AF_OTHER ==> rc == EAFNOSUPPORT
  {
    hide IsText6, Dotted;
    match af {
      case AF_INET => rc, dst := Ntop4(src, size);
      case AF_INET6 => rc, dst := Ntop6(src, size);
      case AF_OTHER => rc, dst := EAFNOSUPPORT, "";
    }
  }

  /** An IPv6 address may carry a zone after a percent sign, which is ignored. */
  method InetPton(af: Family, src: string) returns (rc: Rc, dst: seq<Byte>)
    ensures af == AF_INET ==> (rc == OK <==> Parse4(src) == Some(dst))
    ensures af == AF_INET6 && '%' !in src ==> (rc == OK <==> Parse6(src) == Some(dst))
    ensures af == AF_INET6 ==> forall addr, zone :: src == addr + "%" + zone && '%' !in addr ==>
      (rc == OK <==> |addr| < ADDRSTRLEN && Parse6(addr) == Some(dst))
    ensures af == AF_OTHER ==> rc == EAFNOSUPPORT
  {
    hide Parse4, Parse6;
    var r: Option<seq<Byte>>;
    match af {
      case AF_INET => r := Pton4(src);
      case AF_INET6 =>
        var p := Index(src, '%');
        if p.None? {
          r := Pton6(src);
        } else {
          FirstPercent(src, p.value);
          if p.value > ADDRSTRLEN - 1 { return EINVAL, []; }
          r := Pton6(src[..p.value]);
        }
      case AF_OTHER => return EAFNOSUPPORT, [];
    }
    match r {
      case None => return EINVAL, [];
      case Some(bytes) => return OK, bytes;
    }
  }

  lemma FirstPercent(src: string, p: nat)
    requires Index(src, '%') == Some(p)
    ensures forall addr, zone :: src == addr + "%" + zone && '%' !in addr ==> addr == src[..p]
  {
    forall addr, zone | src == addr + "%" + zone && '%' !in addr ensures addr == src[..p] {
      IndexPast(addr, "%" + zone);
      assert src == addr + ("%" + zone);
    }
  }

  lemma {:induction false} IndexPast(addr: string, rest: string)
    requires '%' !in addr && rest != "" && rest[0] == '%'
    ensures Index(addr + rest, '%') == Some(|addr|)
  {
    if addr == "" {
      assert addr + rest == rest;
    } else {
      assert (addr + rest)[1..] == addr[1..] + rest;
      assert addr[0] in addr && forall c :: c in addr[1..] ==> c in addr;
      IndexPast(addr[1..], rest);
    }
  }
}
