/**
 Line information of a function: one signed byte per instruction with the
 difference from the previous line, and absolute entries where that does not fit
 or after many relative ones.  Written by the code generator, read back by the
 debug interface.
 */
module LuaLines {

  /** Maximum number of successive instructions without absolute line information. */
  const MAXIWTHABS := 120
  /** Limit for the difference between lines in relative information. */
  const LIMLINEDIFF := 0x80
  /** Marks an instruction with absolute information. */
  const ABSLINEINFO := -0x80

  /** A signed byte. */
  type LsByte = i: int | -128 <= i <= 127

  datatype AbsLine = AbsLine(pc: nat, line: int)

  /** What is left of the writer's work in a finished function. */
  datatype Proto = Proto(linedefined: int, lineinfo: seq<LsByte>, abslineinfo: seq<AbsLine>)

  ghost predicate Sorted(a: seq<AbsLine>) {
    forall i, j :: 0 <= i < j < |a| ==> a[i].pc < a[j].pc
  }

  ghost predicate HasEntry(p: Proto, pc: nat, line: int) {
    AbsLine(pc, line) in p.abslineinfo
  }

  /** The information stored for instruction `pc` means line `lines[pc]`. */
  ghost predicate RecordsAt(p: Proto, lines: seq<int>, pc: nat)
    requires pc < |lines| && pc < |p.lineinfo|
  {
    if p.lineinfo[pc] == ABSLINEINFO then HasEntry(p, pc, lines[pc])
    else lines[pc] == p.lineinfo[pc] + LineBefore(p.linedefined, lines, pc)
  }

  ghost function LineBefore(linedefined: int, lines: seq<int>, pc: nat): int
    requires pc <= |lines|
  {
    if pc == 0 then linedefined else lines[pc - 1]
  }

  /** `p` records exactly the lines `lines`, one per instruction. */
  ghost predicate Records(p: Proto, lines: seq<int>) {
    && |p.lineinfo| == |lines|
    && Sorted(p.abslineinfo)
    && (forall a :: a in p.abslineinfo ==> a.pc < |lines| && p.lineinfo[a.pc] == ABSLINEINFO && a.line == lines[a.pc])
    && (forall pc :: 0 <= pc < |lines| ==> RecordsAt(p, lines, pc))
  }

  /** How many instructions at the end have relative information. */
  ghost function Trailing(lineinfo: seq<LsByte>): nat {
    if lineinfo == [] || lineinfo[|lineinfo| - 1] == ABSLINEINFO then 0
    else 1 + Trailing(lineinfo[..|lineinfo| - 1])
  }

  /** Absolute information is never more than `MAXIWTHABS + 1` instructions back. */
  ghost predicate Spaced(lineinfo: seq<LsByte>) {
    forall n :: 0 <= n <= |lineinfo| ==> Trailing(lineinfo[..n]) <= 121
  }

  lemma SpacedMore(lineinfo: seq<LsByte>, d: LsByte)
    requires Spaced(lineinfo)
    ensures Trailing(lineinfo + [d]) == if d == ABSLINEINFO then 0 else 1 + Trailing(lineinfo)
    ensures Trailing(lineinfo + [d]) <= MAXIWTHABS + 1 ==> Spaced(lineinfo + [d])
  {
    var more := lineinfo + [d];
    assert more[..|lineinfo|] == lineinfo;
    forall n | 0 <= n <= |more| && Trailing(more) <= MAXIWTHABS + 1 ensures Trailing(more[..n]) <= MAXIWTHABS + 1 {
      if n <= |lineinfo| { assert more[..n] == lineinfo[..n]; } else { assert more[..n] == more; }
    }
  }

  lemma SpacedLess(lineinfo: seq<LsByte>)
    requires Spaced(lineinfo) && lineinfo != []
    ensures Spaced(lineinfo[..|lineinfo| - 1])
  {
    var less := lineinfo[..|lineinfo| - 1];
    forall n | 0 <= n <= |less| ensures Trailing(less[..n]) <= MAXIWTHABS + 1 {
      assert less[..n] == lineinfo[..n];
    }
  }

  /** `p'` has the information of `p` and that of one more instruction. */
  ghost predicate OneMore(p: Proto, p': Proto, lines: seq<int>, line: int, absolute: bool) {
    p'.linedefined == p.linedefined &&
    |p'.lineinfo| == |lines| + 1 && p'.lineinfo[..|lines|] == p.lineinfo &&
    (absolute <==> p'.lineinfo[|lines|] == ABSLINEINFO) &&
    p'.abslineinfo == if absolute then p.abslineinfo + [AbsLine(|lines|, line)] else p.abslineinfo
  }

  lemma OldRecorded(p: Proto, p': Proto, lines: seq<int>, line: int, absolute: bool)
    requires Records(p, lines) && OneMore(p, p', lines, line, absolute)
    ensures forall pc :: 0 <= pc < |lines| ==> RecordsAt(p', lines + [line], pc)
  {
    hide Sorted;
    forall pc | 0 <= pc < |lines| ensures RecordsAt(p', lines + [line], pc) {
      assert RecordsAt(p, lines, pc);
      assert p'.lineinfo[pc] == p.lineinfo[pc];
    }
  }

  lemma EntriesMore(p: Proto, p': Proto, lines: seq<int>, line: int, absolute: bool)
    requires Records(p, lines) && OneMore(p, p', lines, line, absolute)
    ensures Sorted(p'.abslineinfo)
    ensures forall a :: a in p'.abslineinfo ==>
      a.pc < |lines| + 1 && p'.lineinfo[a.pc] == ABSLINEINFO && a.line == (lines + [line])[a.pc]
  {
    hide RecordsAt;
    forall a | a in p.abslineinfo ensures p'.lineinfo[a.pc] == ABSLINEINFO && a.pc < |lines| {
      assert p'.lineinfo[a.pc] == p.lineinfo[a.pc];
    }
    if absolute {
      forall i | 0 <= i < |p.abslineinfo| ensures p.abslineinfo[i].pc < |lines| {
        assert p.abslineinfo[i] in p.abslineinfo;
      }
    }
  }

  lemma LastRecorded(p: Proto, p': Proto, lines: seq<int>, line: int, absolute: bool)
    requires OneMore(p, p', lines, line, absolute)
    ensures RecordsAt(p', lines + [line], |lines|)
       <==> absolute || line == p'.lineinfo[|lines|] + LineBefore(p.linedefined, lines, |lines|)
  {
    if absolute { assert p'.abslineinfo[|p.abslineinfo|] == AbsLine(|lines|, line); }
  }

  /** Once all but the last are recorded it is the last one that counts. */
  lemma LastCounts(p: Proto, lines: seq<int>, n: nat)
    requires |lines| == |p.lineinfo| == n + 1 && Sorted(p.abslineinfo)
    requires forall a :: a in p.abslineinfo ==>
      a.pc < n + 1 && p.lineinfo[a.pc] == ABSLINEINFO && a.line == lines[a.pc]
    requires forall pc :: 0 <= pc < n ==> RecordsAt(p, lines, pc)
    ensures Records(p, lines) <==> RecordsAt(p, lines, n)
  {
    hide Sorted, RecordsAt;
  }

  lemma RecordsMore(p: Proto, p': Proto, lines: seq<int>, line: int, absolute: bool)
    requires Records(p, lines) && OneMore(p, p', lines, line, absolute)
    ensures Records(p', lines + [line])
       <==> absolute || line == p'.lineinfo[|lines|] + LineBefore(p.linedefined, lines, |lines|)
  {
    OldRecorded(p, p', lines, line, absolute);
    EntriesMore(p, p', lines, line, absolute);
    LastRecorded(p, p', lines, line, absolute);
    hide Records, Sorted, RecordsAt, LineBefore;
    LastCounts(p', lines + [line], |lines|);
  }

  lemma LastEntry(p: Proto, lines: seq<int>)
    requires Records(p, lines) && lines != [] && p.lineinfo[|lines| - 1] == ABSLINEINFO
    ensures |p.abslineinfo| > 0 && p.abslineinfo[|p.abslineinfo| - 1] == AbsLine(|lines| - 1, lines[|lines| - 1])
  {
    assert RecordsAt(p, lines, |lines| - 1);
    var i :| 0 <= i < |p.abslineinfo| && p.abslineinfo[i] == AbsLine(|lines| - 1, lines[|lines| - 1]);
    var last := p.abslineinfo[|p.abslineinfo| - 1];
    assert last in p.abslineinfo;
  }

  /** `p'` lacks the information of the last instruction of `p`. */
  ghost predicate OneLess(p: Proto, p': Proto, lines: seq<int>) {
    lines != [] && |p.lineinfo| == |lines| && p'.linedefined == p.linedefined &&
    p'.lineinfo == p.lineinfo[..|lines| - 1] &&
    if p.lineinfo[|lines| - 1] == ABSLINEINFO then
      |p.abslineinfo| > 0 && p'.abslineinfo == p.abslineinfo[..|p.abslineinfo| - 1]
    else p'.abslineinfo == p.abslineinfo
  }

  lemma EntriesLess(p: Proto, p': Proto, lines: seq<int>)
    requires Records(p, lines) && OneLess(p, p', lines)
    ensures Sorted(p'.abslineinfo)
    ensures forall a :: a in p'.abslineinfo ==>
      a.pc < |lines| - 1 && p'.lineinfo[a.pc] == ABSLINEINFO && a.line == lines[..|lines| - 1][a.pc]
  {
    hide RecordsAt;
    var n := |lines| - 1;
    if p.lineinfo[n] == ABSLINEINFO { LastEntry(p, lines); }
    forall a | a in p'.abslineinfo
      ensures a.pc < n && p'.lineinfo[a.pc] == ABSLINEINFO && a.line == lines[..n][a.pc]
    {
      var i :| 0 <= i < |p'.abslineinfo| && p'.abslineinfo[i] == a;
      assert p.abslineinfo[i] == a && a in p.abslineinfo;
    }
  }

  lemma RecordsLess(p: Proto, p': Proto, lines: seq<int>)
    requires Records(p, lines) && OneLess(p, p', lines)
    ensures Records(p', lines[..|lines| - 1])
  {
    hide LineBefore, Sorted, RecordsAt;
    var n := |lines| - 1;
    EntriesLess(p, p', lines);
    if p.lineinfo[n] == ABSLINEINFO { LastEntry(p, lines); }
    forall pc | 0 <= pc < n ensures RecordsAt(p', lines[..n], pc) {
      RecordsAtLess(p, p', lines, pc);
    }
  }

  lemma RecordsAtLess(p: Proto, p': Proto, lines: seq<int>, pc: nat)
    requires Records(p, lines) && pc < |lines| - 1 && p'.linedefined == p.linedefined
    requires p'.lineinfo == p.lineinfo[..|lines| - 1]
    requires p'.abslineinfo == p.abslineinfo
          || (|p.abslineinfo| > 0 && p'.abslineinfo == p.abslineinfo[..|p.abslineinfo| - 1]
              && p.abslineinfo[|p.abslineinfo| - 1].pc == |lines| - 1)
    ensures RecordsAt(p', lines[..|lines| - 1], pc)
  {
    assert RecordsAt(p, lines, pc);
    if p.lineinfo[pc] == ABSLINEINFO {
      var i :| 0 <= i < |p.abslineinfo| && p.abslineinfo[i] == AbsLine(pc, lines[pc]);
      assert i < |p'.abslineinfo| && p'.abslineinfo[i] == AbsLine(pc, lines[pc]);
    }
  }

  // ---------- The writer ----------

  /** The line-related fields of the function being compiled; `lines` is what the
      compiler has said so far. */
  class LineState {
    const linedefined: int
    var lineinfo: seq<LsByte>
    var abslineinfo: seq<AbsLine>
    var previousline: int
    var iwthabs: nat
    ghost var lines: seq<int>

    ghost function Info(): Proto
      reads this
    {
      Proto(linedefined, lineinfo, abslineinfo)
    }

    ghost predicate Valid()
      reads this
    {
      && Records(Info(), lines)
      && Trailing(lineinfo) <= iwthabs <= MAXIWTHABS + 1
      && Spaced(lineinfo)
    }

    /** `previousline` is the line of the last instruction. */
    ghost predicate Fresh()
      reads this
      requires |lineinfo| == |lines|
    {
      previousline == LineBefore(linedefined, lines, |lines|)
    }

    /** The next line will be recorded correctly: `previousline` is fresh, or the
        counter forces absolute information. */
    ghost predicate Coherent()
      reads this
      requires |lineinfo| == |lines|
    {
      Fresh() || iwthabs > MAXIWTHABS
    }

    predicate Far(line: int)
      reads this
    {
      line - previousline >= LIMLINEDIFF || previousline - line >= LIMLINEDIFF
    }

    constructor (linedefined: int)
      ensures Valid() && lines == [] && Fresh() && this.linedefined == linedefined
      ensures iwthabs == 0 && lineinfo == [] && abslineinfo == []
    {
      this.linedefined := linedefined;
      lineinfo, abslineinfo, previousline, iwthabs := [], [], linedefined, 0;
      lines := [];
    }

    /** Saves the line of a new instruction: recorded correctly exactly in a coherent
        state, or if the line is too far away to be relative. */
    method SaveLineInfo(line: int)
      requires Valid()
      modifies this
      ensures lines == old(lines) + [line] && |lineinfo| == |lines| && Fresh()
      ensures var absolute := old(Far(line) || iwthabs > MAXIWTHABS);
              && lineinfo == old(lineinfo) + [if absolute then ABSLINEINFO else line - old(previousline)]
              && abslineinfo == old(abslineinfo) + (if absolute then [AbsLine(|old(lines)|, line)] else [])
              && iwthabs == (if absolute then 0 else old(iwthabs) + 1)
      ensures Valid() <==> old(Coherent() || Far(line))
    {
      var linedif := line - previousline;
      var pc := |lineinfo|;
      ghost var p0 := Info();
      var absolute := linedif >= LIMLINEDIFF || -linedif >= LIMLINEDIFF;
      if !absolute {
        absolute := iwthabs > MAXIWTHABS;
        iwthabs := iwthabs + 1;
      }
      if absolute {
        abslineinfo := abslineinfo + [AbsLine(pc, line)];
        linedif := ABSLINEINFO;
        iwthabs := 0;
      }
      SpacedMore(lineinfo, linedif);
      lineinfo := lineinfo + [linedif];
      previousline := line;
      lines := lines + [line];
      assert lineinfo[..pc] == p0.lineinfo;
      RecordsMore(p0, Info(), old(lines), line, absolute);
    }

    /** Removes the line of the last instruction.  The state stays coherent exactly
        if the removed information was absolute or the state was fresh. */
    method RemoveLastLineInfo()
      requires Valid() && lines != []
      modifies this
      ensures Valid() && lines == old(lines)[..|old(lines)| - 1]
      ensures lineinfo == old(lineinfo)[..|old(lines)| - 1]
      ensures var last := old(lineinfo[|lines| - 1]);
              if last == ABSLINEINFO then previousline == old(previousline) && iwthabs == MAXIWTHABS + 1
              else previousline == old(previousline) - last && iwthabs == old(iwthabs) - 1
      ensures Coherent() <==> old(lineinfo[|lines| - 1] == ABSLINEINFO || Fresh())
      ensures old(Fresh() && lineinfo[|lines| - 1] != ABSLINEINFO) ==> Fresh()
    {
      var pc := |lineinfo| - 1;
      ghost var p0 := Info();
      assert RecordsAt(p0, lines, pc);
      if lineinfo[pc] != ABSLINEINFO {
        previousline := previousline - lineinfo[pc];
        iwthabs := iwthabs - 1;
      } else {
        LastEntry(p0, lines);
        assert abslineinfo[|abslineinfo| - 1].pc == pc;
        abslineinfo := abslineinfo[..|abslineinfo| - 1];
        iwthabs := MAXIWTHABS + 1;
        assert Spaced(lineinfo) && Trailing(lineinfo[..pc]) <= MAXIWTHABS + 1;
      }
      SpacedLess(lineinfo);
      lineinfo := lineinfo[..pc];
      lines := lines[..pc];
      RecordsLess(p0, Info(), old(lines));
    }

    /** Changes the line of the last instruction. */
    method FixLine(line: int)
      requires Valid() && lines != [] && Fresh()
      modifies this
      ensures Valid() && Fresh() && lines == old(lines)[|old(lines)| - 1 := line]
    {
      RemoveLastLineInfo();
      SaveLineInfo(line);
    }
  }

  // ---------- Sequences of requests ----------

  /** What the code generator asks for: emit an instruction, change the last line,
      remove the last instruction. */
  datatype LineOp = Emit(line: int) | Fix(line: int) | Remove

  /** The lines of the instructions that remain. */
  function LinesOf(ops: seq<LineOp>): seq<int> {
    if ops == [] then []
    else
      var before := LinesOf(ops[..|ops| - 1]);
      match ops[|ops| - 1]
      case Emit(line) => before + [line]
      case Fix(line) => if before == [] then [] else before[|before| - 1 := line]
      case Remove => if before == [] then [] else before[..|before| - 1]
  }

  /** There is an instruction to change or remove, and a removal is followed at once
      by an emission. */
  predicate WellPaced(ops: seq<LineOp>) {
    forall i :: 0 <= i < |ops| && !ops[i].Emit? ==>
      LinesOf(ops[..i]) != [] && (i > 0 ==> !ops[i - 1].Remove?)
  }

  /** Whatever the code generator asks for, at that pace, ends up recorded. */
  method WriteLines(linedefined: int, ops: seq<LineOp>) returns (p: Proto)
    requires WellPaced(ops)
    ensures Records(p, LinesOf(ops)) && p.linedefined == linedefined
    ensures Spaced(p.lineinfo)
  {
    var st := new LineState(linedefined);
    var i := 0;
    while i < |ops|
      invariant 0 <= i <= |ops|
      invariant fresh(st) && st.linedefined == linedefined
      invariant st.Valid() && st.lines == LinesOf(ops[..i]) && st.Coherent()
      invariant (i > 0 && ops[i - 1].Remove?) || st.Fresh()
    {
      assert ops[..i + 1][..i] == ops[..i];
      match ops[i] {
        case Emit(line) => st.SaveLineInfo(line);
        case Fix(line) => st.FixLine(line);
        case Remove => st.RemoveLastLineInfo();
      }
      i := i + 1;
    }
    assert ops[..i] == ops;
    p := Proto(st.linedefined, st.lineinfo, st.abslineinfo);
  }

  /** Why the pace is asked for: two removals in a row, the first of an absolute entry, would
      leave a stale line behind, and the next line read back would be wrong.  The code generator
      never does this. */
  method TwoRemovalsLoseALine() returns (p: Proto, ghost lines: seq<int>)
    ensures lines == LinesOf([Emit(1), Emit(500), Remove, Remove, Emit(501)])
    ensures |p.lineinfo| == |lines| && !Records(p, lines)
  {
    var st := new LineState(1);
    st.SaveLineInfo(1);
    st.SaveLineInfo(500);
    assert st.lines == [1, 500] && st.lineinfo == [0, ABSLINEINFO];
    st.RemoveLastLineInfo();
    assert st.lineinfo == [0] && st.iwthabs == MAXIWTHABS + 1;
    st.RemoveLastLineInfo();
    assert st.iwthabs == MAXIWTHABS && st.previousline == 500;
    st.SaveLineInfo(501);
    p, lines := Proto(st.linedefined, st.lineinfo, st.abslineinfo), st.lines;
    assert p.lineinfo == [1];
    assert !RecordsAt(p, lines, 0);
    LinesOfExample();
  }

  lemma LinesOfExample()
    ensures LinesOf([Emit(1), Emit(500), Remove, Remove, Emit(501)]) == [501]
  {
    var ops := [Emit(1), Emit(500), Remove, Remove, Emit(501)];
    assert ops[..4] == [Emit(1), Emit(500), Remove, Remove];
    assert ops[..4][..3] == [Emit(1), Emit(500), Remove];
    assert [Emit(1), Emit(500), Remove][..2] == [Emit(1), Emit(500)];
    assert [Emit(1), Emit(500)][..1] == [Emit(1)];
    assert LinesOf([Emit(1)]) == [1];
    assert LinesOf([Emit(1), Emit(500)]) == [1, 500];
    assert LinesOf([Emit(1), Emit(500), Remove]) == [1];
    assert LinesOf([Emit(1), Emit(500), Remove, Remove]) == [];
  }

  // ---------- The reader ----------

  /** The base for finding the line of `pc`: the last absolute entry at or before it,
      or the function's own line (`basepc` is then -1). */
  method GetBaseLine(p: Proto, pc: nat, ghost lines: seq<int>) returns (line: int, basepc: int)
    requires Records(p, lines) && pc < |lines|
    ensures -1 <= basepc <= pc
    ensures line == if basepc == -1 then p.linedefined else lines[basepc]
    ensures forall q :: basepc < q <= pc ==> p.lineinfo[q] != ABSLINEINFO
  {
    var a := p.abslineinfo;
    if |a| == 0 || pc < a[0].pc {
      NoEntryBetween(p, lines, pc, 0);
      return p.linedefined, -1;
    }
    var i: nat;
    if pc >= a[|a| - 1].pc {
      i := |a| - 1;
    } else {
      var j := |a| - 1;
      i := 0;
      while i < j - 1
        invariant 0 <= i < j < |a| && a[i].pc <= pc < a[j].pc
      {
        var m := (j + i) / 2;
        if pc >= a[m].pc {
          i := m;
        } else {
          j := m;
        }
      }
    }
    assert a[i] in a;
    NoEntryBetween(p, lines, pc, i + 1);
    return a[i].line, a[i].pc;
  }

  lemma NoEntryBetween(p: Proto, lines: seq<int>, pc: nat, i: nat)
    requires Records(p, lines) && pc < |lines| && i <= |p.abslineinfo|
    requires i < |p.abslineinfo| ==> pc < p.abslineinfo[i].pc
    ensures forall q :: 0 <= q <= pc && (i > 0 ==> p.abslineinfo[i - 1].pc < q) ==> p.lineinfo[q] != ABSLINEINFO
  {
    forall q | 0 <= q <= pc && (i > 0 ==> p.abslineinfo[i - 1].pc < q) ensures p.lineinfo[q] != ABSLINEINFO {
      assert RecordsAt(p, lines, q);
      forall x | 0 <= x < |p.abslineinfo| ensures p.abslineinfo[x].pc != q { }
    }
  }

  /** The line of an instruction is the last one recorded for it, and the walk from
      the base never meets an absolute marker. */
  method GetFuncLine(p: Proto, pc: nat, ghost lines: seq<int>) returns (line: int)
    requires Records(p, lines) && pc < |lines|
    ensures line == lines[pc]
  {
    var basepc;
    line, basepc := GetBaseLine(p, pc, lines);
    while basepc < pc
      invariant -1 <= basepc <= pc
      invariant line == if basepc == -1 then p.linedefined else lines[basepc]
      invariant forall q :: basepc < q <= pc ==> p.lineinfo[q] != ABSLINEINFO
    {
      basepc := basepc + 1;
      assert RecordsAt(p, lines, basepc);
      assert p.lineinfo[basepc] != ABSLINEINFO;
      line := line + p.lineinfo[basepc];
    }
  }

  /** Is the instruction at `newpc` on another line than the earlier one at `oldpc`? */
  method ChangedLine(p: Proto, oldpc: nat, newpc: nat, ghost lines: seq<int>) returns (b: bool)
    requires Records(p, lines) && oldpc <= newpc < |lines|
    ensures b <==> lines[oldpc] != lines[newpc]
  {
    var pc := oldpc;
    while pc < newpc
      invariant oldpc <= pc <= newpc
      invariant lines[pc] == lines[oldpc]
    {
      pc := pc + 1;
      assert RecordsAt(p, lines, pc);
      if p.lineinfo[pc] != 0 {
        var l1 := GetFuncLine(p, pc - 1, lines);
        var l2 := GetFuncLine(p, newpc, lines);
        return l1 != l2;
      }
    }
    return false;
  }

  /** The walk from the base is never longer than `MAXIWTHABS + 1` instructions. */
  lemma {:induction false} WalkIsShort(p: Proto, lines: seq<int>, basepc: int, pc: nat)
    requires Records(p, lines) && Spaced(p.lineinfo) && -1 <= basepc <= pc < |lines|
    requires forall q :: basepc < q <= pc ==> p.lineinfo[q] != ABSLINEINFO
    ensures pc - basepc <= MAXIWTHABS + 1
  {
    TrailingAtLeast(p.lineinfo[..pc + 1], pc - basepc);
    assert Trailing(p.lineinfo[..pc + 1]) <= MAXIWTHABS + 1;
  }

  lemma {:induction false} TrailingAtLeast(lineinfo: seq<LsByte>, n: nat)
    requires n <= |lineinfo| && forall q :: |lineinfo| - n <= q < |lineinfo| ==> lineinfo[q] != ABSLINEINFO
    ensures Trailing(lineinfo) >= n
  {
    if n > 0 { TrailingAtLeast(lineinfo[..|lineinfo| - 1], n - 1); }
  }
}
