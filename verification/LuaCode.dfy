/**
 The code generator for expressions: one function's state, patch lists threaded
 through its code, and the translation of `not`, `and`, `or` and comparisons into
 conditional jumps.
 */
module LuaCode {
  import opened LuaMachine
  import opened LuaExpressions

  /** The only error expression code can raise: too many registers. */
  datatype Result<+T> = Success(value: T) | TooManyRegisters {
    predicate IsFailure() { TooManyRegisters? }
    function PropagateFailure<U>(): Result<U> requires TooManyRegisters? { TooManyRegisters }
    function Extract(): T requires Success? { value }
  }

  /** Largest constant index that fits an instruction's 8-bit operand. */
  const MAXINDEXRK := 255
  /** Range of the 17-bit signed operand of LOADI. */
  const OFFSET_sBx := 65535
  const MAXARG_Bx := 131071
  /** Range of the 8-bit signed operand of a comparison. */
  const OFFSET_sC := 127
  const MAXARG_C := 255

  predicate FitsBx(i: int) { -OFFSET_sBx <= i <= MAXARG_Bx - OFFSET_sBx }
  predicate FitsC(i: int) { 0 <= i + OFFSET_sC <= MAXARG_C }

  /** All that the fields hold counts as fitting. */
  lemma FieldRanges(i: int)
    ensures FitsBx(i) <==> -65535 <= i <= 65536
    ensures FitsC(i) <==> -127 <= i <= 128
  {
  }

  predicate IsKInt(d: ExpDesc) { d.k.VKInt? && !HasJumps(d) }
  predicate IsSCNumber(d: ExpDesc) { IsKInt(d) && FitsC(d.k.i) }

  predicate IsConst(d: ExpDesc) {
    d.k.VNil? || d.k.VTrue? || d.k.VFalse? || d.k.VKInt? || d.k.VKStr? || d.k.VK?
  }

  function ConstValue(d: ExpDesc): Value {
    match d.k
    case VTrue => Bool(true)
    case VFalse => Bool(false)
    case VKInt(i) => Int(i)
    case VKStr(t) => Str(t)
    case _ => Nil
  }

  /** A relocatable instruction, told where to put its result. */
  function SetA(i: Instr, reg: Arg): Instr {
    match i
    case Not(_, b) => Not(reg, b)
    case GetUpval(_, b) => GetUpval(reg, b)
    case _ => i
  }

  function Negate(i: Instr): Instr
    requires IsComparison(i)
  {
    match i
    case Eq(a, b, k) => Eq(a, b, !k)
    case Lt(a, b, k) => Lt(a, b, !k)
    case Le(a, b, k) => Le(a, b, !k)
    case EqK(a, b, k) => EqK(a, b, !k)
    case EqI(a, im, k) => EqI(a, im, !k)
    case LtI(a, im, k) => LtI(a, im, !k)
    case LeI(a, im, k) => LeI(a, im, !k)
    case GtI(a, im, k) => GtI(a, im, !k)
    case GeI(a, im, k) => GeI(a, im, !k)
  }

  /** A LOADNIL range that covers exactly another one and `n` registers from `from`. */
  predicate NilsJoin(narrow: Instr, wide: Instr, from: Arg, n: nat) {
    && narrow.LoadNil? && wide.LoadNil? && n > 0
    && (narrow.a <= from <= narrow.a + narrow.more + 1 || from <= narrow.a <= from + n)
    && wide.a == (if narrow.a < from then narrow.a else from)
    && wide.a + wide.more + 1 ==
         (if narrow.a + narrow.more + 1 > from + n then narrow.a + narrow.more + 1 else from + n)
  }

  lemma NilsJoinWidens(w: World, k: seq<Value>, narrow: Instr, wide: Instr, from: Arg, n: nat)
    requires NilsJoin(narrow, wide, from, n)
    ensures Widens(w, k, narrow, wide, from, n)
  {
    forall x: Regs ensures Effect(w, k, wide, x) == PutNils(Effect(w, k, narrow, x), from, n) {
      PutNilsUnion(x, narrow.a, narrow.more + 1, from, n, wide.a, wide.more + 1);
    }
  }

  /** How a constant or a variable starts out as a descriptor. */
  function LeafKind(e: Expr): Kind {
    match e
    case ETrue => VTrue
    case EFalse => VFalse
    case EInt(i) => VKInt(i)
    case EStr(t) => VKStr(t)
    case ELocal(reg) => VLocal(reg)
    case EUpval(idx) => VUpval(idx)
    case _ => VNil
  }

  function Flip(op: CmpOp): CmpOp {
    match op
    case OpLt => OpGt
    case OpLe => OpGe
    case OpGt => OpLt
    case OpGe => OpLe
    case _ => op
  }

  /** The two operands of a comparison being compiled: `c` is the context of the
      first one, `s1` and `fr2` what the second one started from. */
  datatype Operands = Operands(c: Ctx, s1: Frag, fr2: nat, a: Expr, b: Expr, da: ExpDesc, db: ExpDesc,
                               T: seq<nat>, F: seq<nat>)

  ghost function SecondCtx(o: Operands): Ctx {
    CtxFor(o.c.w, o.s1, o.c.base, o.c.stops, o.fr2, o.b)
  }

  predicate TempAt(d: ExpDesc, nactvar: nat) { d.k.VNonReloc? && d.k.reg >= nactvar }

  ghost predicate FirstSettled(o: Operands) {
    && o.c == CtxFor(o.c.w, o.c.origin, o.c.base, o.c.stops, o.c.fr, o.a)
    && Denotes(o.c, o.s1, o.da, {}, {}) && Settled(o.da)
    && o.fr2 == o.c.fr + (if TempAt(o.da, o.s1.nactvar) then 1 else 0)
    && (TempAt(o.da, o.s1.nactvar) ==> o.da.k.reg == o.c.fr)
    && Scoped(o.b, o.s1.nactvar, |o.c.w.up|)
  }

  /** Where the code of an expression starts: a preceding LOADNIL that may still be
      widened belongs to it. */
  ghost function Entry(s: Frag): nat {
    if NilSafe(s.code, s.lasttarget) then |s.code| else |s.code| - 1
  }

  /** Registers when control reaches the end of the code the expression is added to. */
  ghost function Entered(w: World, s: Frag, r: Regs): Regs {
    if NilSafe(s.code, s.lasttarget) then r else Effect(w, s.k, s.code[|s.code| - 1], r)
  }

  /** Executing the grown code from the start of the expression reaches its end with
      the expression's value in `reg` and the other registers below `fr` unchanged. */
  ghost predicate Computes(w: World, s: Frag, s': Frag, e: Expr, reg: Arg, fr: nat, r: Regs) {
    var env := Entered(w, s, r);
    exists n: nat, r': Regs ::
      && Steps(w, s'.k, s'.code, n, Running(Entry(s), r)) == Running(|s'.code|, r')
      && Get(r', reg) == Eval(w, e, env)
      && forall i :: 0 <= i < fr && i < MAXREGS && i != reg ==> r'[i] == env[i]
  }

  lemma DeliveredComputes(c: Ctx, s': Frag, d: ExpDesc, e: Expr, reg: Arg, r: Regs)
    requires c == CtxFor(c.w, c.origin, Entry(c.origin), {}, c.fr, e).(ex := c.ex)
    requires Denotes(c, s', d, {}, {}) && d.k == VNonReloc(reg) && (c.ex == -1 || c.ex == reg)
    ensures Computes(c.w, c.origin, s', e, reg, c.fr, r)
  {
    assert MatchAt(c, s', d, {}, {}, r);
    assert c.stops + {} + {} == {};
    var out := Run(c.w, s'.k, s'.code, {}, c.base, true, r);
    var env := Entered(c.w, c.origin, r);
    assert Flow(c.w, c.origin, c.base, {}, r).Fall? && Flow(c.w, c.origin, c.base, {}, r).regs == env by {
      if !NilSafe(c.origin.code, c.origin.lasttarget) {
        assert Run(c.w, c.origin.k, c.origin.code, {}, |c.origin.code|, false, env) == Fall(env, false);
      }
    }
    var n := RunIsExecution(c.w, s'.k, s'.code, c.base, true, r);
    assert Steps(c.w, s'.k, s'.code, n, Running(Entry(c.origin), r)) == Running(|s'.code|, out.regs);
  }

  class FuncState {
    const nactvar: nat
    var code: seq<Instr>
    var k: seq<Value>
    var lasttarget: int
    var freereg: Arg
    var maxstack: nat

    constructor (nactvar: nat)
      requires nactvar < MAXREGS
      ensures Valid() && this.nactvar == nactvar && code == [] && k == [] && lasttarget == 0 && freereg == nactvar
    {
      this.nactvar := nactvar;
      code, k, lasttarget, freereg := [], [], 0, nactvar;
      maxstack := if nactvar > 2 then nactvar else 2;
    }

    ghost predicate Valid()
      reads this
    {
      && nactvar <= freereg <= maxstack < MAXREGS
      && (forall i :: 0 <= i < |k| ==> !k[i].Obj?)
      && (|code| > 0 ==> !IsTest(code[|code| - 1]))
    }

    ghost function Fragment(): Frag
      reads this
    {
      Frag(code, k, lasttarget, nactvar)
    }

    /** `d`, with patch lists `T` and `F`, is what context `c` asks for. */
    ghost predicate Holds(c: Ctx, d: ExpDesc, T: seq<nat>, F: seq<nat>)
      reads this
    {
      && Valid()
      && Denotes(c, Fragment(), d, Elems(T), Elems(F))
      && List(code, d.t, T) && List(code, d.f, F)
    }

    predicate IsTemp(d: ExpDesc) { d.k.VNonReloc? && d.k.reg >= nactvar }

    /** Every register below the context's first free one is still in use, and at
        most the expression's own value is above. */
    ghost predicate FreeIs(c: Ctx, d: ExpDesc)
      reads this
    {
      && freereg == c.fr + (if IsTemp(d) then 1 else 0)
      && (IsTemp(d) ==> d.k.reg == c.fr)
    }

    // ---------- Emitting ----------

    method Code(i: Instr) returns (pc: nat)
      modifies this`code
      ensures code == old(code) + [i] && pc == |old(code)|
    {
      pc := |code|;
      code := code + [i];
    }

    method GetLabel() returns (pc: nat)
      modifies this`lasttarget
      ensures pc == |code| == lasttarget
    {
      lasttarget := |code|;
      pc := |code|;
    }

    method Jump() returns (pc: nat)
      modifies this`code
      ensures code == old(code) + [Jmp(NO_JUMP)] && pc == |old(code)|
    {
      pc := Code(Jmp(NO_JUMP));
    }

    method CondJump(test: Instr) returns (pc: nat)
      modifies this`code
      ensures code == old(code) + [test, Jmp(NO_JUMP)] && pc == |old(code)| + 1
    {
      var _ := Code(test);
      pc := Jump();
    }

    /** Sets `n` registers from `from` to nil, by widening the previous
        instruction if that is a LOADNIL no jump can have skipped. */
    method CodeNil(from: Arg, n: nat)
      requires n > 0
      modifies this`code
      ensures
        || code == old(code) + [LoadNil(from, n - 1)]
        || (&& |old(code)| > 0 && lasttarget < |old(code)|
            && |code| == |old(code)| && code[..|code| - 1] == old(code)[..|code| - 1]
            && NilsJoin(old(code)[|code| - 1], code[|code| - 1], from, n))
    {
      var from', l := from, from + n - 1;
      if |code| > lasttarget && |code| > 0 && code[|code| - 1].LoadNil? {
        var previous := code[|code| - 1];
        var pfrom, pl := previous.a, previous.a + previous.more;
        if (pfrom <= from && from <= pl + 1) || (from <= pfrom && pfrom <= l + 1) {
          if pfrom < from { from' := pfrom; }
          if pl > l { l := pl; }
          code := code[|code| - 1 := LoadNil(from', l - from')];
          return;
        }
      }
      var _ := Code(LoadNil(from, n - 1));
    }

    /** Index of a constant, reusing an equal one. */
    method AddK(v: Value) returns (idx: nat)
      requires !v.Obj?
      modifies this`k
      ensures old(k) <= k && idx < |k| && k[idx] == v
      ensures k == old(k) || (v !in old(k) && k == old(k) + [v])
    {
      idx := 0;
      while idx < |k|
        invariant idx <= |k| && v !in k[..idx]
      {
        if k[idx] == v { return; }
        idx := idx + 1;
      }
      k := k + [v];
    }

    // ---------- Patch lists ----------

    method FixJump(pc: nat, dest: nat)
      requires pc < |code| && code[pc].Jmp?
      modifies this`code
      ensures code == old(code)[pc := Jmp(dest - (pc + 1))]
    {
      code := code[pc := Jmp(dest - (pc + 1))];
    }

    /** Appends list `l2` to list `l1`, by linking the last jump of `l1` to `l2`. */
    method Concat(l1: int, l2: int, ghost js1: seq<nat>, ghost js2: seq<nat>) returns (l: int)
      requires List(code, l1, js1) && List(code, l2, js2) && Elems(js1) !! Elems(js2)
      modifies this`code
      ensures List(code, l, js1 + js2)
      ensures OnlyLinks(old(code), code, Elems(js1))
    {
      if l2 == NO_JUMP {
        assert js2 == [];
        assert js1 + js2 == js1;
        l := l1;
      } else if l1 == NO_JUMP {
        assert js1 == [];
        assert js1 + js2 == js2;
        l := l2;
      } else {
        assert js1 != [] && js2 != [];
        ghost var i := 0;
        var list: nat := l1;
        assert Linked(code, js1, 0);
        while NextJump(code, list) != NO_JUMP
          invariant i < |js1| && list == js1[i] && Linked(code, js1, i)
          decreases |js1| - i
        {
          list := NextJump(code, list);
          i := i + 1;
          assert Linked(code, js1, i);
        }
        assert i == |js1| - 1;
        assert Linked(code, js2, 0);
        FixJump(list, l2);
        l := l1;
        assert js1[i] in js1 && js2[0] in js2;
        ConcatLists(old(code), code, l1, l2, js1, js2);
      }
    }

    /** Final destination of a value-producing test: its register, or none. */
    method PatchTestReg(node: nat, reg: Arg) returns (b: bool)
      requires node < |code|
      modifies this`code
      ensures b == Producer(old(code), node)
      ensures code == if b then old(code)[node - 1 := PatchedTest(old(code)[node - 1], reg)] else old(code)
    {
      if node >= 1 && code[node - 1].TestSet? {
        code := code[node - 1 := PatchedTest(code[node - 1], reg)];
        return true;
      }
      return false;
    }

    /** Makes sure no test of a list produces a value. */
    method RemoveValues(list: int, ghost js: seq<nat>)
      requires List(code, list, js)
      modifies this`code
      ensures Demoted(old(code), code, Elems(js)) && List(code, list, js)
    {
      ghost var i := 0;
      var l := list;
      assert js[..0] == [];
      while l != NO_JUMP
        invariant i <= |js| && l == HeadOf(js, i)
        invariant Demoted(old(code), code, Elems(js[..i]))
        decreases |js| - i
      {
        assert i < |js| && Linked(old(code), js, i);
        assert code[js[i]] == DemotedInstr(old(code), Elems(js[..i]), js[i]);
        DemotedStep(old(code), code, js, i);
        var _ := PatchTestReg(l, NO_REG);
        i := i + 1;
        l := NextJump(code, l);
      }
      assert i == |js|;
      assert js[..i] == js;
      forall j | j in js ensures j < |old(code)| && code[j] == old(code)[j] {
        var x :| 0 <= x < |js| && js[x] == j;
        assert Linked(old(code), js, x);
        assert code[j] == DemotedInstr(old(code), Elems(js), j);
      }
      ListKept(old(code), code, list, js);
    }

    /** Is there a jump in the list whose test does not produce a value? */
    method NeedValue(list: int, ghost js: seq<nat>) returns (b: bool)
      requires List(code, list, js)
      ensures b <==> exists j :: j in js && !Producer(code, j)
    {
      ghost var i := 0;
      var l := list;
      while l != NO_JUMP
        invariant i <= |js| && l == HeadOf(js, i)
        invariant forall x :: 0 <= x < i ==> Producer(code, js[x])
        decreases |js| - i
      {
        assert i < |js| && Linked(code, js, i);
        if !(l >= 1 && code[l - 1].TestSet?) {
          assert js[i] in js && !Producer(code, js[i]);
          return true;
        }
        l := NextJump(code, l);
        i := i + 1;
      }
      assert i == |js|;
      return false;
    }

    /** Gives every jump of the list its destination: `vtarget` for those whose test
        puts the value in `reg`, `dtarget` for the others. */
    method PatchListAux(list: int, vtarget: nat, reg: Arg, dtarget: int, ghost js: seq<nat>)
      requires List(code, list, js)
      requires dtarget >= 0 || forall j :: j in js ==> Producer(code, j)
      modifies this`code
      ensures Patched(old(code), code, Elems(js), vtarget, reg, dtarget)
    {
      hide Run, RunJump, Flow, MatchAt, GoesAt;
      ghost var i := 0;
      var l := list;
      assert js[..0] == [];
      while l != NO_JUMP
        invariant i <= |js| && l == HeadOf(js, i)
        invariant Patched(old(code), code, Elems(js[..i]), vtarget, reg, dtarget)
        decreases |js| - i
      {
        assert i < |js| && Linked(old(code), js, i) && js[i] in js;
        assert code[js[i]] == PatchedInstr(old(code), Elems(js[..i]), vtarget, reg, dtarget, js[i]);
        ghost var before := code;
        PatchedStep(old(code), code, js, i, vtarget, reg, dtarget);
        var next := NextJump(code, l);
        var producer := PatchTestReg(l, reg);
        if producer {
          FixJump(l, vtarget);
        } else {
          FixJump(l, dtarget);
        }
        l := next;
        i := i + 1;
      }
      assert i == |js|;
      assert js[..i] == js;
    }

    method PatchToHere(list: int, ghost js: seq<nat>)
      requires List(code, list, js)
      modifies this`code, this`lasttarget
      ensures lasttarget == |old(code)|
      ensures Patched(old(code), code, Elems(js), |old(code)|, NO_REG, |old(code)|)
    {
      var hr := GetLabel();
      PatchListAux(list, hr, NO_REG, hr, js);
    }

    // ---------- Registers ----------

    method ReserveRegs(n: nat) returns (r: Result<()>)
      requires Valid()
      modifies this`freereg, this`maxstack
      ensures r.Success? <==> old(freereg) + n <= old(maxstack) || old(freereg) + n < MAXREGS
      ensures r.Success? ==> Valid() && freereg == old(freereg) + n
    {
      var newstack := freereg + n;
      if newstack > maxstack {
        if newstack >= MAXREGS {
          return TooManyRegisters;
        }
        maxstack := newstack;
      }
      freereg := newstack;
      return Success(());
    }

    /** Frees a temporary register, which must be the last one in use. */
    method FreeReg(reg: Arg)
      requires Valid()
      requires reg >= nactvar ==> reg + 1 == freereg
      modifies this`freereg
      ensures Valid() && freereg == old(freereg) - if reg >= nactvar then 1 else 0
    {
      if reg >= nactvar {
        freereg := freereg - 1;
        assert reg == freereg;
      }
    }

    method FreeExp(d: ExpDesc)
      requires Valid()
      requires IsTemp(d) ==> d.k.reg + 1 == freereg
      modifies this`freereg
      ensures Valid() && freereg == old(freereg) - if IsTemp(d) then 1 else 0
    {
      if d.k.VNonReloc? {
        FreeReg(d.k.reg);
      }
    }

    // ---------- Discharging descriptors ----------

    /** The value stops being a variable (the patch lists stay). */
    method DischargeVars(d: ExpDesc, ghost c: Ctx, ghost T: seq<nat>, ghost F: seq<nat>) returns (d': ExpDesc)
      requires Holds(c, d, T, F)
      modifies this`code
      ensures Holds(c, d', T, F)
      ensures !d'.k.VLocal? && !d'.k.VUpval? && d'.t == d.t && d'.f == d.f
      ensures !d.k.VUpval? ==> code == old(code)
      ensures !d.k.VLocal? && !d.k.VUpval? ==> d' == d
      ensures (d.k.VUpval? ==> d'.k.VReloc?) && (d.k.VLocal? ==> d'.k == VNonReloc(d.k.sidx))
      ensures IsTemp(d') == IsTemp(d)
    {
      hide Run, RunJump, Flow, MatchAt, GoesAt, Extends, Pending;
      d' := d;
      match d.k
      case VLocal(sidx) =>
        d' := d.(k := VNonReloc(sidx));
        LocalDenotes(c, Fragment(), d, d', Elems(T), Elems(F));
      case VUpval(_) =>
        d' := GetUpvalue(d, c, T, F);
      case _ =>
    }

    method GetUpvalue(d: ExpDesc, ghost c: Ctx, ghost T: seq<nat>, ghost F: seq<nat>) returns (d': ExpDesc)
      requires Holds(c, d, T, F) && d.k.VUpval?
      modifies this`code
      ensures Holds(c, d', T, F) && d'.k.VReloc? && d'.t == d.t && d'.f == d.f
    {
      hide Run, RunJump, Flow, MatchAt, GoesAt, Extends, Pending, Denotes, List, RelocValue, MainValue, Relocatable;
      ghost var s := Fragment();
      UpvalueReads(c, s, d, Elems(T), Elems(F));
      var info := Code(GetUpval(0, d.k.up));
      d' := d.(k := VReloc(info));
      RelocDenotes(c, s, Fragment(), d, d', Elems(T), Elems(F));
      ListGrown(s.code, code, d.t, T);
      ListGrown(s.code, code, d.f, F);
    }

    /** The main value goes into `reg`, unless it is a comparison (the patch lists stay). */
    method Discharge2Reg(d: ExpDesc, reg: Arg, ghost c: Ctx, ghost T: seq<nat>, ghost F: seq<nat>) returns (d': ExpDesc)
      requires Holds(c, d, T, F)
      requires reg < MAXREGS && (reg == c.fr || reg == c.ex)
      modifies this`code, this`k
      ensures Holds(c, d', T, F) && d'.t == d.t && d'.f == d.f
      ensures if d.k.VJmp? then d' == d && code == old(code) else d'.k == VNonReloc(reg)
    {
      var d1 := DischargeVars(d, c, T, F);
      ghost var s := Fragment();
      d' := d1.(k := VNonReloc(reg));
      if d1.k.VNil? {
        DischargeNil(d1, reg, c, T, F);
      } else if d1.k.VReloc? {
        var info := d1.k.ipc;
        code := code[info := SetA(code[info], reg)];
        RelocLoads(c, s, Fragment(), d1, Elems(T), Elems(F), reg);
        LoadHolds(c, s, Fragment(), d1, T, F, SetA(s.code[info], reg), reg);
      } else if d1.k.VNonReloc? {
        var info := d1.k.reg;
        if reg != info {
          var _ := Code(Move(reg, info));
          MoveLoads(c.w, s, d1, reg);
          LoadHolds(c, s, Fragment(), d1, T, F, Move(reg, info), reg);
        }
      } else if d1.k.VJmp? {
        d' := d1;
      } else {
        DischargeConstant(d1, reg, c, T, F);
      }
    }

    method DischargeNil(d: ExpDesc, reg: Arg, ghost c: Ctx, ghost T: seq<nat>, ghost F: seq<nat>)
      requires Holds(c, d, T, F) && d.k.VNil?
      requires reg < MAXREGS && (reg == c.fr || reg == c.ex)
      modifies this`code
      ensures Holds(c, d.(k := VNonReloc(reg)), T, F)
    {
      hide Run, RunJump, Flow, MatchAt, GoesAt, Eval, List, CtxShape;
      ghost var s := Fragment();
      CodeNil(reg, 1);
      if |code| == |s.code| {
        NilsJoinWidens(c.w, k, s.code[|s.code| - 1], code[|code| - 1], reg, 1);
        assert forall p :: 0 <= p < |code| - 1 ==> code[p] == code[..|code| - 1][p];
        NilDenotes(c, s, Fragment(), d, reg, Elems(T), Elems(F));
        LoadKeepsLists(c, s, Fragment(), d, T, F);
      } else {
        forall r: Regs ensures Effect(c.w, k, LoadNil(reg, 0), r) == Put(r, reg, Nil) {
          assert PutNils(r, reg, 1) == PutNils(Put(r, reg, Nil), reg + 1, 0);
        }
        LoadHolds(c, s, Fragment(), d, T, F, LoadNil(reg, 0), reg);
      }
    }

    method DischargeConstant(d: ExpDesc, reg: Arg, ghost c: Ctx, ghost T: seq<nat>, ghost F: seq<nat>)
      requires Holds(c, d, T, F) && (d.k.VFalse? || d.k.VTrue? || d.k.VK? || d.k.VKStr? || d.k.VKInt?)
      requires reg < MAXREGS && (reg == c.fr || reg == c.ex)
      modifies this`code, this`k
      ensures Holds(c, d.(k := VNonReloc(reg)), T, F)
    {
      ghost var s := Fragment();
      var i: Instr;
      match d.k {
        case VFalse => i := LoadFalse(reg);
        case VTrue => i := LoadTrue(reg);
        case VKStr(str) => var idx := AddK(Str(str)); i := LoadK(reg, idx);
        case VK(idx) => i := LoadK(reg, idx);
        case VKInt(n) =>
          if FitsBx(n) {
            i := LoadI(reg, n);
          } else {
            var idx := AddK(Int(n));
            i := LoadK(reg, idx);
          }
      }
      assert Loads(c.w, s, d, k, i, reg);
      var _ := Code(i);
      LoadHolds(c, s, Fragment(), d, T, F, i, reg);
    }

    // ---------- The final result into a register ----------

    /** Loads of false and true for jumps that do not produce a value, with a jump
        around them unless control only arrives there when a test has failed. */
    method LoadBools(reg: Arg, afterTest: bool) returns (p_f: nat, p_t: nat)
      requires Valid()
      modifies this`code, this`lasttarget
      ensures Valid() && lasttarget == |code|
      ensures p_f == |code| - 2 && p_t == |code| - 1
      ensures code == old(code) + (if afterTest then [] else [Jmp(2)]) + [LFalseSkip(reg), LoadTrue(reg)]
    {
      var fj := NO_JUMP;
      ghost var fjs: seq<nat> := [];
      if !afterTest {
        var j := Jump();
        fj, fjs := j, [j];
      }
      var _ := GetLabel();
      p_f := Code(LFalseSkip(reg));
      var _ := GetLabel();
      p_t := Code(LoadTrue(reg));
      ghost var before := code;
      assert List(before, fj, fjs) by {
        if fjs != [] { assert Linked(before, fjs, 0); }
      }
      PatchToHere(fj, fjs);
      JumpAround(old(code), before, code, reg, fj, fjs);
    }

    /** The expression's result, including what its jumps produce, ends up in `reg`. */
    method Exp2Reg(d: ExpDesc, reg: Arg, ghost c: Ctx, ghost T: seq<nat>, ghost F: seq<nat>) returns (d': ExpDesc)
      requires Holds(c, d, T, F)
      requires reg < MAXREGS && (reg == c.fr || reg == c.ex)
      modifies this`code, this`k, this`lasttarget
      ensures d' == ExpDesc(VNonReloc(reg), NO_JUMP, NO_JUMP)
      ensures Holds(c, d', [], [])
    {
      var d1 := Discharge2Reg(d, reg, c, T, F);
      d' := ExpDesc(VNonReloc(reg), NO_JUMP, NO_JUMP);
      if d1.k.VJmp? {
        Test2Reg(d1, reg, c, T, F);
      } else if HasJumps(d1) {
        Jumps2Reg(d1, reg, c, T, F);
      } else {
        NoJumps(code, d1, T, F);
      }
    }

    /** `Exp2Reg` for a comparison, whose own jump joins the list of true exits. */
    method Test2Reg(d: ExpDesc, reg: Arg, ghost c: Ctx, ghost T: seq<nat>, ghost F: seq<nat>)
      requires Holds(c, d, T, F) && d.k.VJmp?
      requires reg < MAXREGS && (reg == c.fr || reg == c.ex)
      modifies this`code, this`lasttarget
      ensures Holds(c, ExpDesc(VNonReloc(reg), NO_JUMP, NO_JUMP), [], [])
    {
      hide Run, RunJump, Flow, MatchAt, GoesAt, Pending, PendingAt, OnlyLinks, Grown, IsComparison, Body;
      ghost var s := Fragment();
      ghost var j := TestGoes(c, s, d, Elems(T), Elems(F));
      ghost var T' := T + [j];
      assert Elems(T') == Elems(T) + {j};
      assert List(code, j, [j]) by { assert Linked(code, [j], 0); }
      var t := Concat(d.t, d.k.jpc, T, [j]);
      ghost var s1 := Fragment();
      GoesRelinked(c, s, s1, false, true, Elems(T'), Elems(F));
      LinksKeepList(s.code, code, Elems(T), d.f, F);
      assert |code| > 0 && code[|code| - 1].Jmp?;

      var p_f, p_t := LoadBools(reg, true);
      ghost var s2 := Fragment();
      assert code == s1.code + [LFalseSkip(reg), LoadTrue(reg)];
      BoolsAfterTest(c, s1, s2, ExpDesc(VNonReloc(reg), NO_JUMP, NO_JUMP), reg, Elems(T'), Elems(F));
      ListGrown(s1.code, code, t, T');
      ListGrown(s1.code, code, d.f, F);
      PatchBoth(t, d.f, reg, p_f, p_t, c, T', F);
    }

    /** `Exp2Reg` for a value already in `reg` that jumps may replace. */
    method Jumps2Reg(d: ExpDesc, reg: Arg, ghost c: Ctx, ghost T: seq<nat>, ghost F: seq<nat>)
      requires Holds(c, d, T, F) && d.k == VNonReloc(reg)
      requires reg < MAXREGS && (reg == c.fr || reg == c.ex)
      modifies this`code, this`lasttarget
      ensures Holds(c, ExpDesc(VNonReloc(reg), NO_JUMP, NO_JUMP), [], [])
    {
      hide Run, RunJump, Flow, MatchAt, GoesAt, Eval, MainValue, Effect, Denotes, Goes;
      ghost var s := Fragment();
      var p_f, p_t := NO_JUMP, NO_JUMP;
      var need := NeedValue(d.t, T);
      if !need { need := NeedValue(d.f, F); }
      if need {
        p_f, p_t := LoadBools(reg, false);
        assert code == s.code + [Jmp(2), LFalseSkip(reg), LoadTrue(reg)];
        BoolsAfterValue(c, s, Fragment(), d, reg, Elems(T), Elems(F));
        ListGrown(s.code, code, d.t, T);
        ListGrown(s.code, code, d.f, F);
      } else {
        var _ := GetLabel();
        LabelDenotes(c, s, d, Elems(T), Elems(F));
      }
      DenotesSameKind(c, Fragment(), d, ExpDesc(VNonReloc(reg), NO_JUMP, NO_JUMP), Elems(T), Elems(F));
      PatchBoth(d.t, d.f, reg, p_f, p_t, c, T, F);
    }

    /** Both lists get their final destinations. */
    method PatchBoth(t: int, f: int, reg: Arg, p_f: int, p_t: int, ghost c: Ctx, ghost T: seq<nat>, ghost F: seq<nat>)
      requires Valid() && lasttarget == |code|
      requires Denotes(c, Fragment(), ExpDesc(VNonReloc(reg), NO_JUMP, NO_JUMP), Elems(T), Elems(F))
      requires List(code, t, T) && List(code, f, F)
      requires reg == c.fr || reg == c.ex
      requires (LoadsBool(code, p_f, reg, false) && LoadsBool(code, p_t, reg, true))
            || (forall j :: j in T || j in F ==> Producer(code, j))
      modifies this`code, this`lasttarget
      ensures Holds(c, ExpDesc(VNonReloc(reg), NO_JUMP, NO_JUMP), [], [])
    {
      hide Run, RunJump, Flow, MatchAt, GoesAt, Pending, Relocatable, PatchedTest, CtxShape, Extends, KnownTest;
      ghost var s := Fragment();
      var final := GetLabel();
      PatchListAux(f, final, reg, p_f, F);
      ghost var s1 := Fragment();
      assert Elems(T) !! Elems(F);
      PatchedKeepsList(s.code, code, Elems(F), final, reg, p_f, t, T);
      PatchedKeepsBools(c, s.code, code, Elems(F), final, reg, p_f, Elems(T));
      PatchListAux(t, final, reg, p_t, T);
      PatchedBoth(c, s, s1, Fragment(), reg, Elems(T), Elems(F), p_t, p_f);
      assert Elems([]) == {};
    }

    /** The final result goes into the next available register. */
    method Exp2NextReg(d: ExpDesc, ghost c: Ctx, ghost T: seq<nat>, ghost F: seq<nat>) returns (r: Result<ExpDesc>)
      requires Holds(c, d, T, F) && FreeIs(c, d)
      modifies this
      ensures r.Success? ==> r.value == ExpDesc(VNonReloc(c.fr), NO_JUMP, NO_JUMP)
      ensures r.Success? ==> Holds(c, r.value, [], []) && freereg == c.fr + 1
      ensures c.fr + 1 < MAXREGS ==> r.Success?
    {
      var d1 := DischargeVars(d, c, T, F);
      FreeExp(d1);
      var _ :- ReserveRegs(1);
      var d' := Exp2Reg(d1, freereg - 1, c, T, F);
      return Success(d');
    }

    /** The final result goes into some register, of its own choice if it has one. */
    method Exp2AnyReg(d: ExpDesc, ghost c: Ctx, ghost T: seq<nat>, ghost F: seq<nat>) returns (r: Result<ExpDesc>)
      requires Holds(c, d, T, F) && FreeIs(c, d)
      modifies this
      ensures r.Success? ==> r.value.k.VNonReloc? && r.value.t == NO_JUMP && r.value.f == NO_JUMP
      ensures r.Success? ==> Holds(c, r.value, [], []) && FreeIs(c, r.value)
      ensures c.fr + 1 < MAXREGS ==> r.Success?
      ensures d.k.VNonReloc? && !HasJumps(d) ==>
        r == Success(d) && code == old(code) && k == old(k) && lasttarget == old(lasttarget) && freereg == old(freereg)
    {
      var d1 := DischargeVars(d, c, T, F);
      if d1.k.VNonReloc? {
        if !HasJumps(d1) {
          NoJumps(code, d1, T, F);
          return Success(d1);
        }
        if d1.k.reg >= nactvar {
          var d2 := Exp2Reg(d1, d1.k.reg, c, T, F);
          return Success(d2);
        }
      }
      r := Exp2NextReg(d1, c, T, F);
    }

    /** Tries to make the expression a constant whose index fits an operand. */
    method Exp2K(d: ExpDesc) returns (isK: bool, d': ExpDesc)
      modifies this`k
      ensures old(k) <= k
      ensures !isK ==> d' == d
      ensures isK ==> IsConst(d) && !HasJumps(d) && d'.k.VK? && d' == d.(k := d'.k) && d'.k.idx <= MAXINDEXRK
      ensures isK && !d.k.VK? ==> d'.k.idx < |k| && k[d'.k.idx] == ConstValue(d)
      ensures d.k.VK? ==> d' == d
      ensures (forall i :: 0 <= i < |old(k)| ==> !old(k)[i].Obj?) ==> forall i :: 0 <= i < |k| ==> !k[i].Obj?
    {
      isK, d' := false, d;
      if !HasJumps(d) {
        var info;
        match d.k {
          case VTrue => info := AddK(Bool(true));
          case VFalse => info := AddK(Bool(false));
          case VNil => info := AddK(Nil);
          case VKInt(i) => info := AddK(Int(i));
          case VKStr(t) => info := AddK(Str(t));
          case VK(idx) => info := idx;
          case _ => return;
        }
        if info <= MAXINDEXRK {
          isK, d' := true, d.(k := VK(info));
        }
      }
    }

    // ---------- Conditions ----------

    /** Ensures the value is in a register, without touching the patch lists. */
    method Discharge2AnyReg(d: ExpDesc, ghost c: Ctx, ghost T: seq<nat>, ghost F: seq<nat>) returns (r: Result<ExpDesc>)
      requires Holds(c, d, T, F) && FreeIs(c, d) && !d.k.VJmp?
      modifies this
      ensures r.Success? ==> r.value.k.VNonReloc? && r.value.t == d.t && r.value.f == d.f
      ensures r.Success? ==> Holds(c, r.value, T, F) && FreeIs(c, r.value)
      ensures c.fr + 1 < MAXREGS ==> r.Success?
    {
      var d' := d;
      if !d.k.VNonReloc? {
        var _ :- ReserveRegs(1);
        d' := Discharge2Reg(d, freereg - 1, c, T, F);
      }
      return Success(d');
    }

    /** Emits a jump taken when the value's truth is `cond`; a final `not` is
        removed and the condition inverted instead. */
    method JumpOnCond(d: ExpDesc, cond: bool, ghost c: Ctx, ghost T: seq<nat>,
        ghost F: seq<nat>) returns (r: Result<nat>)
      requires Holds(c, d, T, F) && FreeIs(c, d) && !d.k.VJmp?
      modifies this
      ensures c.fr + 1 < MAXREGS ==> r.Success?
      ensures r.Success? ==>
        && Valid() && freereg == c.fr
        && List(code, d.t, T) && List(code, d.f, F)
        && CondJumped(c, Fragment(), cond, r.value, Elems(T), Elems(F))
    {
      hide Run, RunJump, Flow, MatchAt, GoesAt, Extends, Pending;
      if d.k.VReloc? && code[d.k.ipc].Not? {
        ghost var s := Fragment();
        var b := code[d.k.ipc].b;
        code := code[..|code| - 1];
        var pc := CondJump(Test(b, !cond));
        JumpsOnNot(c, s, Fragment(), d, T, F, cond);
        return Success(pc);
      }
      r := JumpOnReg(d, cond, c, T, F);
    }

    method JumpOnReg(d: ExpDesc, cond: bool, ghost c: Ctx, ghost T: seq<nat>,
        ghost F: seq<nat>) returns (r: Result<nat>)
      requires Holds(c, d, T, F) && FreeIs(c, d) && !d.k.VJmp?
      modifies this
      ensures c.fr + 1 < MAXREGS ==> r.Success?
      ensures r.Success? ==>
        && Valid() && freereg == c.fr
        && List(code, d.t, T) && List(code, d.f, F)
        && CondJumped(c, Fragment(), cond, r.value, Elems(T), Elems(F))
    {
      hide Run, RunJump, Flow, MatchAt, GoesAt, Eval, MainValue, Effect, Denotes, Goes;
      var d1 :- Discharge2AnyReg(d, c, T, F);
      FreeExp(d1);
      ghost var s := Fragment();
      var pc := CondJump(TestSet(NO_REG, d1.k.reg, cond));
      JumpsOnReg(c, s, Fragment(), d1, T, F, cond);
      return Success(pc);
    }

    /** Flips a comparison, so that its jump is taken in the opposite case. */
    method NegateCondition(d: ExpDesc)
      requires d.k.VJmp? && 1 <= d.k.jpc < |code| && IsComparison(code[d.k.jpc - 1])
      modifies this`code
      ensures code == old(code)[d.k.jpc - 1 := Negate(old(code)[d.k.jpc - 1])]
    {
      code := code[d.k.jpc - 1 := Negate(code[d.k.jpc - 1])];
    }

    /** Runs go through with truth `b`, or wait in list `js` with the other truth. */
    ghost predicate Gone(c: Ctx, b: bool, list: int, js: seq<nat>)
      reads this
    {
      && Valid() && freereg == c.fr && lasttarget == |code|
      && List(code, list, js)
      && Goes(c, Fragment(), b, false, if b then {} else Elems(js), if b then Elems(js) else {})
    }

    /** The new jump `pc` joins the list of exits, and the other list comes to here. */
    method JoinExits(list: int, pc: int, other: int, b: bool, ghost c: Ctx,
                     ghost js: seq<nat>, ghost pcs: seq<nat>, ghost os: seq<nat>) returns (l: int)
      requires Valid() && freereg == c.fr
      requires List(code, list, js) && List(code, pc, pcs) && List(code, other, os) && Elems(js) !! Elems(pcs)
      requires Goes(c, Fragment(), b, false, if b then Elems(os) else Elems(js + pcs), if b then
        Elems(js + pcs) else Elems(os))
      modifies this`code, this`lasttarget
      ensures Gone(c, b, l, js + pcs)
    {
      hide Run, RunJump, Flow, MatchAt, GoesAt, Extends, Pending;
      ghost var s := Fragment();
      assert Elems(js + pcs) == Elems(js) + Elems(pcs);
      l := Concat(list, pc, js, pcs);
      ghost var s1 := Fragment();
      GoesRelinked(c, s, s1, b, false, if b then Elems(os) else Elems(js + pcs), if b then
        Elems(js + pcs) else Elems(os));
      LinksKeepList(s.code, code, Elems(js), other, os);
      PatchToHere(other, os);
      PatchedHereGoes(c, s1, Fragment(), b, false, if b then Elems(os) else Elems(js + pcs), if b then
        Elems(js + pcs) else Elems(os));
      PatchedKeepsList(s1.code, code, Elems(os), |code|, NO_REG, |code|, l, js + pcs);
      LastKept(s.code, s1.code, code, Elems(js), Elems(os));
    }

    /** Code goes through when the expression is true, and leaves by the returned
        list of false exits otherwise. */
    method GoIfTrue(d: ExpDesc, ghost c: Ctx, ghost T: seq<nat>, ghost F: seq<nat>)
      returns (r: Result<ExpDesc>, ghost F': seq<nat>)
      requires Holds(c, d, T, F) && FreeIs(c, d)
      requires d.k.VK? ==> Truthy(k[d.k.idx])
      modifies this
      ensures c.fr + 1 < MAXREGS ==> r.Success?
      ensures r.Success? ==> Gone(c, true, r.value.f, F') && r.value.t == NO_JUMP
    {
      hide Run, RunJump, Flow, MatchAt, GoesAt, Extends, Pending;
      F' := F;
      var d1 := DischargeVars(d, c, T, F);
      var pc: int;
      ghost var pcs: seq<nat> := [];
      if d1.k.VJmp? {
        ghost var s := Fragment();
        NegateCondition(d1);
        pc := d1.k.jpc;
        NegatedJumps(c, s, Fragment(), d1, T, F);
        pcs := [d1.k.jpc];
      } else if d1.k.VK? || d1.k.VKInt? || d1.k.VKStr? || d1.k.VTrue? {
        pc := NO_JUMP;
        ConstantGoes(c, Fragment(), d1, T, F, true);
      } else {
        var j :- JumpOnCond(d1, false, c, T, F);
        pc, pcs := j, [j];
      }
      F' := F + pcs;
      if pcs != [] { ElemsPlus(F, pcs[0]); } else { assert F' == F; }
      var f := JoinExits(d1.f, pc, d1.t, true, c, F, pcs, T);
      return Success(d1.(t := NO_JUMP, f := f)), F';
    }

    /** Code goes through when the expression is false, and leaves by the returned
        list of true exits otherwise. */
    method GoIfFalse(d: ExpDesc, ghost c: Ctx, ghost T: seq<nat>, ghost F: seq<nat>)
      returns (r: Result<ExpDesc>, ghost T': seq<nat>)
      requires Holds(c, d, T, F) && FreeIs(c, d)
      modifies this
      ensures c.fr + 1 < MAXREGS ==> r.Success?
      ensures r.Success? ==> Gone(c, false, r.value.t, T') && r.value.f == NO_JUMP
    {
      hide Run, RunJump, Flow, MatchAt, GoesAt;
      T' := T;
      var d1 := DischargeVars(d, c, T, F);
      var pc: int;
      ghost var pcs: seq<nat> := [];
      if d1.k.VJmp? {
        pc := d1.k.jpc;
        ghost var _ := TestGoes(c, Fragment(), d1, Elems(T), Elems(F));
        GoesInexact(c, Fragment(), false, true, Elems(T) + {d1.k.jpc}, Elems(F));
        pcs := [d1.k.jpc];
      } else if d1.k.VNil? || d1.k.VFalse? {
        pc := NO_JUMP;
        ConstantGoes(c, Fragment(), d1, T, F, false);
      } else {
        var j :- JumpOnCond(d1, true, c, T, F);
        pc, pcs := j, [j];
      }
      T' := T + pcs;
      if pcs != [] { ElemsPlus(T, pcs[0]); } else { assert T' == T; }
      var t := JoinExits(d1.t, pc, d1.f, false, c, T, pcs, F);
      return Success(d1.(t := t, f := NO_JUMP)), T';
    }

    // ---------- not ----------

    /** Codes `not d`: the two lists change roles and no longer produce values. */
    method CodeNot(d: ExpDesc, ghost c: Ctx, ghost c': Ctx, ghost T: seq<nat>,
        ghost F: seq<nat>) returns (r: Result<ExpDesc>)
      requires Holds(c, d, T, F) && FreeIs(c, d) && !d.k.VLocal? && !d.k.VUpval?
      requires d.k.VK? ==> Truthy(k[d.k.idx])
      requires c' == c.(want := c'.want) && forall x: Regs :: c'.want(x) == Negated(c.want(x))
      modifies this
      ensures c.fr + 1 < MAXREGS ==> r.Success?
      ensures r.Success? ==> Holds(c', r.value, F, T) && FreeIs(c', r.value) && !r.value.k.VK?
    {
      hide Run, RunJump, Flow, MatchAt, GoesAt, Denotes, Goes;
      ghost var s, d0;
      var d1;
      r, s, d0 := NegateMain(d, c, T, F);
      if r.TooManyRegisters? { return; }
      d1 := r.value;
      ghost var s1 := Fragment();
      var d2 := ExpDesc(d1.k, d1.f, d1.t);
      RemoveValues(d2.f, T);
      ghost var code1 := code;
      DemotedKeepsList(s1.code, code, Elems(T), d2.t, F);
      RemoveValues(d2.t, F);
      DemotedKeepsList(code1, code, Elems(F), d2.f, T);
      DemotedTwice(s1.code, code1, code, Elems(T), Elems(F));
      NotMainSameKind(c, s, s1, d0, d1, d2);
      NotFinished(c, c', s, s1, Fragment(), d0, d2, Elems(T), Elems(F));
      return Success(d2);
    }

    /** The part of `CodeNot` that deals with the main value. */
    method NegateMain(d: ExpDesc, ghost c: Ctx, ghost T: seq<nat>, ghost F: seq<nat>)
      returns (r: Result<ExpDesc>, ghost s: Frag, ghost d0: ExpDesc)
      requires Holds(c, d, T, F) && FreeIs(c, d) && !d.k.VLocal? && !d.k.VUpval?
      requires d.k.VK? ==> Truthy(k[d.k.idx])
      modifies this
      ensures c.fr + 1 < MAXREGS ==> r.Success?
      ensures r.Success? ==>
        && Valid() && FreeIs(c, r.value) && !r.value.k.VK?
        && Denotes(c, s, d0, Elems(T), Elems(F)) && NotMain(c, s, Fragment(), d0, r.value)
        && List(code, r.value.t, T) && List(code, r.value.f, F)
    {
      s, d0 := Fragment(), d;
      if d.k.VNil? || d.k.VFalse? {
        ConstNegated(c, s, d, d.(k := VTrue), Elems(T), Elems(F));
        return Success(d.(k := VTrue)), s, d0;
      } else if d.k.VK? || d.k.VKInt? || d.k.VKStr? || d.k.VTrue? {
        ConstNegated(c, s, d, d.(k := VFalse), Elems(T), Elems(F));
        return Success(d.(k := VFalse)), s, d0;
      } else if d.k.VJmp? {
        NegateCondition(d);
        NegatedMain(c, s, Fragment(), d, Elems(T), Elems(F));
        LoadKeepsLists(c, s, Fragment(), d, T, F);
        return Success(d), s, d0;
      } else {
        r, s, d0 := EmitNot(d, c, T, F);
      }
    }

    method EmitNot(d: ExpDesc, ghost c: Ctx, ghost T: seq<nat>, ghost F: seq<nat>)
      returns (r: Result<ExpDesc>, ghost s: Frag, ghost d0: ExpDesc)
      requires Holds(c, d, T, F) && FreeIs(c, d) && !d.k.VJmp?
      modifies this
      ensures c.fr + 1 < MAXREGS ==> r.Success?
      ensures r.Success? ==>
        && Valid() && FreeIs(c, r.value) && r.value.k.VReloc?
        && Denotes(c, s, d0, Elems(T), Elems(F)) && NotMain(c, s, Fragment(), d0, r.value)
        && List(code, r.value.t, T) && List(code, r.value.f, F)
    {
      hide Run, RunJump, Flow, MatchAt, GoesAt, CtxShape, Extends, NotMain, List, Get, KnownTest;
      s, d0 := Fragment(), d;
      var d1 :- Discharge2AnyReg(d, c, T, F);
      FreeExp(d1);
      s, d0 := Fragment(), d1;
      var info := Code(Not(0, d1.k.reg));
      var d2 := d1.(k := VReloc(info));
      NotEmitted(c, s, Fragment(), d1, d2);
      LoadKeepsLists(c, s, Fragment(), d1, T, F);
      return Success(d2), s, d0;
    }

    // ---------- Comparisons ----------

    /** The first operand is settled, the second has just been compiled. */
    ghost predicate Waiting(o: Operands)
      reads this
    {
      && nactvar == o.s1.nactvar && FirstSettled(o)
      && Holds(SecondCtx(o), o.db, o.T, o.F) && FreeIs(SecondCtx(o), o.db)
    }

    /** Both operands are settled. */
    ghost predicate Ready(o: Operands)
      reads this
    {
      && Valid() && nactvar <= o.c.fr
      && Pair(o.c, Fragment(), o.da, o.db, o.a, o.b)
      && freereg == o.c.fr + (if IsTemp(o.da) then 1 else 0) + (if IsTemp(o.db) then 1 else 0)
      && (IsTemp(o.da) ==> o.c.fr <= o.da.k.reg < freereg)
      && (IsTemp(o.db) ==> o.c.fr <= o.db.k.reg < freereg)
      && (IsTemp(o.da) && IsTemp(o.db) ==> o.da.k.reg != o.db.k.reg)
    }

    ghost predicate InPhase(o: Operands, ready: bool)
      reads this
    {
      if ready then Ready(o) else Waiting(o)
    }

    /** One operand of a comparison (the second one, if `second`) goes to a register. */
    method OperandToReg(d: ExpDesc, ghost second: bool, ghost ready: bool, ghost o: Operands)
      returns (r: Result<ExpDesc>, ghost ready': bool, ghost o': Operands)
      requires InPhase(o, ready) && d == (if second then o.db else o.da)
      requires !second && !ready ==> d.k.VNonReloc?
      modifies this
      ensures o.c.fr + 2 < MAXREGS ==> r.Success?
      ensures r.Success? ==>
        && r.value.k.VNonReloc?
        && ready' == (ready || second) && InPhase(o', ready')
        && o' == (if second then o.(db := r.value) else o.(da := r.value))
    {
      hide Run, RunJump, Flow, MatchAt, GoesAt, Denotes, Goes;
      ready', o' := ready, o;
      if d.k.VNonReloc? && !HasJumps(d) {
        if second && !ready {
          SettleSecond(o);
          ready' := true;
        }
        return Success(d), ready', o';
      }
      ghost var cl := if ready then CtxLate(o.c.w, Fragment(), o.c.base, o.c.stops, freereg, d) else SecondCtx(o);
      ghost var s := Fragment();
      ghost var fr := freereg;
      if ready {
        LateDenotes(o.c, s, freereg, d);
        assert Elems([]) == {};
      }
      var d' :- Exp2AnyReg(d, cl, if ready then [] else o.T, if ready then [] else o.F);
      assert Elems([]) == {};
      o' := if second then o.(db := d') else o.(da := d');
      ready' := true;
      if ready {
        LateSettled(o, o', s, Fragment(), fr, second, nactvar);
      } else {
        PairIntro(o.c, o.s1, Fragment(), o.fr2, o.da, d', o.a, o.b);
      }
      return Success(d'), ready', o';
    }

    /** A second operand without pending code is settled as it is. */
    lemma SettleSecond(o: Operands)
      requires Waiting(o) && (o.db.k.VNonReloc? || IsConst(o.db)) && !HasJumps(o.db)
      ensures Ready(o)
    {
      NoJumps(code, o.db, o.T, o.F);
      assert Elems([]) == {};
      PairIntro(o.c, o.s1, Fragment(), o.fr2, o.da, o.db, o.a, o.b);
    }

    /** Frees the operands' registers, the higher one first. */
    method FreeExps(e1: ExpDesc, e2: ExpDesc, ghost o: Operands)
      requires Ready(o) && ((e1 == o.da && e2 == o.db) || (e1 == o.db && e2 == o.da))
      modifies this`freereg
      ensures Valid() && freereg == o.c.fr
    {
      var r1: int := if e1.k.VNonReloc? then e1.k.reg else -1;
      var r2: int := if e2.k.VNonReloc? then e2.k.reg else -1;
      if r1 > r2 {
        FreeExp(e1);
        FreeExp(e2);
      } else {
        FreeExp(e2);
        FreeExp(e1);
      }
    }

    /** Emits the comparison and its jump, and frees the operands. */
    method EmitComparison(e1: ExpDesc, e2: ExpDesc, test: Instr, ghost o: Operands, ghost op: CmpOp,
        ghost prim: bool) returns (d: ExpDesc)
      requires Ready(o) && ((e1 == o.da && e2 == o.db) || (e1 == o.db && e2 == o.da))
      requires Tests(o.c.w, Fragment(), o.da, o.db, test, op, prim)
      requires prim ==> forall r: Regs :: PrimAt(o.c, o.a, r)
      modifies this
      ensures Holds(CtxFor(o.c.w, o.c.origin, o.c.base, o.c.stops, o.c.fr, ECmp(op, o.a, o.b)), d, [], [])
      ensures freereg == o.c.fr && d.k.VJmp?
    {
      ghost var s := Fragment();
      FreeExps(e1, e2, o);
      var pc := CondJump(test);
      d := ExpDesc(VJmp(pc), NO_JUMP, NO_JUMP);
      CompareDenotes(o.c, s, Fragment(), o.da, o.db, d, o.a, o.b, op, test, prim);
      assert Elems([]) == {};
    }

    /** Codes `<` and `<=` (and, with operands swapped, `>` and `>=`). */
    method CodeOrder(op: CmpOp, e1: ExpDesc, e2: ExpDesc, ghost swapped: bool,
        ghost o: Operands) returns (r: Result<ExpDesc>)
      requires op.OpLt? || op.OpLe?
      requires Waiting(o) && (o.da.k.VNonReloc? || IsSCNumber(o.da))
      requires if swapped then e1 == o.db && e2 == o.da else e1 == o.da && e2 == o.db
      modifies this
      ensures o.c.fr + 2 < MAXREGS ==> r.Success?
      ensures r.Success? ==>
        && Holds(CtxFor(o.c.w, o.c.origin, o.c.base, o.c.stops, o.c.fr,
          ECmp(if swapped then Flip(op) else op, o.a, o.b)), r.value, [], [])
        && freereg == o.c.fr && r.value.k.VJmp?
    {
      if IsSCNumber(e2) {
        r := CompareImmediate(op, e1, e2, swapped, o);
      } else if IsSCNumber(e1) {
        r := ImmediateCompare(op, e1, e2, swapped, o);
      } else {
        r := CompareRegisters(op, e1, e2, swapped, o);
      }
    }

    method CompareImmediate(op: CmpOp, e1: ExpDesc, e2: ExpDesc, ghost swapped: bool,
        ghost o: Operands) returns (r: Result<ExpDesc>)
      requires op.OpLt? || op.OpLe?
      requires Waiting(o) && (o.da.k.VNonReloc? || IsSCNumber(o.da))
      requires if swapped then e1 == o.db && e2 == o.da else e1 == o.da && e2 == o.db
      requires IsSCNumber(e2)
      modifies this
      ensures o.c.fr + 2 < MAXREGS ==> r.Success?
      ensures r.Success? ==>
        && Holds(CtxFor(o.c.w, o.c.origin, o.c.base, o.c.stops, o.c.fr,
          ECmp(if swapped then Flip(op) else op, o.a, o.b)), r.value, [], [])
        && freereg == o.c.fr && r.value.k.VJmp?
    {
      ghost var ready, o1 := false, o;
      if !swapped {
        SettleSecond(o);
        ready := true;
      }
      var y1;
      y1, ready, o1 := OperandToReg(e1, swapped, ready, o1);
      var x1 :- y1;
      var test := if op.OpLt? then LtI(x1.k.reg, e2.k.i, true) else LeI(x1.k.reg, e2.k.i, true);
      var d := EmitComparison(x1, e2, test, o1, if swapped then Flip(op) else op, false);
      return Success(d);
    }

    /** `(A < B)` with `A` an immediate operand becomes `(B > A)`. */
    method ImmediateCompare(op: CmpOp, e1: ExpDesc, e2: ExpDesc, ghost swapped: bool,
        ghost o: Operands) returns (r: Result<ExpDesc>)
      requires op.OpLt? || op.OpLe?
      requires Waiting(o) && (o.da.k.VNonReloc? || IsSCNumber(o.da))
      requires if swapped then e1 == o.db && e2 == o.da else e1 == o.da && e2 == o.db
      requires IsSCNumber(e1) && !IsSCNumber(e2)
      modifies this
      ensures o.c.fr + 2 < MAXREGS ==> r.Success?
      ensures r.Success? ==>
        && Holds(CtxFor(o.c.w, o.c.origin, o.c.base, o.c.stops, o.c.fr,
          ECmp(if swapped then Flip(op) else op, o.a, o.b)), r.value, [], [])
        && freereg == o.c.fr && r.value.k.VJmp?
    {
      ghost var ready, o1 := false, o;
      if swapped {
        SettleSecond(o);
        ready := true;
      }
      var y2;
      y2, ready, o1 := OperandToReg(e2, !swapped, ready, o1);
      var x2 :- y2;
      var test := if op.OpLt? then GtI(x2.k.reg, e1.k.i, true) else GeI(x2.k.reg, e1.k.i, true);
      var d := EmitComparison(e1, x2, test, o1, if swapped then Flip(op) else op, false);
      return Success(d);
    }

    method CompareRegisters(op: CmpOp, e1: ExpDesc, e2: ExpDesc, ghost swapped: bool,
        ghost o: Operands) returns (r: Result<ExpDesc>)
      requires op.OpLt? || op.OpLe?
      requires Waiting(o) && (o.da.k.VNonReloc? || IsSCNumber(o.da))
      requires if swapped then e1 == o.db && e2 == o.da else e1 == o.da && e2 == o.db
      requires o.da.k.VNonReloc?
      modifies this
      ensures o.c.fr + 2 < MAXREGS ==> r.Success?
      ensures r.Success? ==>
        && Holds(CtxFor(o.c.w, o.c.origin, o.c.base, o.c.stops, o.c.fr,
          ECmp(if swapped then Flip(op) else op, o.a, o.b)), r.value, [], [])
        && freereg == o.c.fr && r.value.k.VJmp?
    {
      ghost var ready, o1 := false, o;
      var y1, y2;
      y1, ready, o1 := OperandToReg(e1, swapped, ready, o1);
      var x1 :- y1;
      y2, ready, o1 := OperandToReg(e2, !swapped, ready, o1);
      var x2 :- y2;
      var test := if op.OpLt? then Lt(x1.k.reg, x2.k.reg, true) else Le(x1.k.reg, x2.k.reg, true);
      var d := EmitComparison(x1, x2, test, o1, if swapped then Flip(op) else op, false);
      return Success(d);
    }

    /** An operand becomes a constant with a small index, or goes to a register. */
    method OperandToRK(d: ExpDesc, ghost second: bool, ghost ready: bool, ghost o: Operands)
      returns (r: Result<(bool, ExpDesc)>, ghost o': Operands)
      requires InPhase(o, ready) && d == (if second then o.db else o.da) && second == !ready
      modifies this
      ensures o.c.fr + 2 < MAXREGS ==> r.Success?
      ensures r.Success? ==>
        && (if r.value.0 then r.value.1.k.VK? && r.value.1.k.idx <= MAXINDEXRK else r.value.1.k.VNonReloc?)
        && Ready(o')
        && o' == (if second then o.(db := r.value.1) else o.(da := r.value.1))
    {
      hide Run, RunJump, Flow, MatchAt, GoesAt, Extends, Pending;
      o' := o;
      ghost var s := Fragment();
      if second && IsConst(d) && !HasJumps(d) { SettleSecond(o); }
      var isK, d' := Exp2K(d);
      if isK {
        o' := if second then o.(db := d') else o.(da := d');
        ConstantSettled(o, o', s, Fragment(), second);
        return Success((true, d')), o';
      }
      ghost var ready' := ready;
      if second {
        MoreConstantsDenotes(SecondCtx(o), s, Fragment(), o.db, Elems(o.T), Elems(o.F));
      } else {
        PairMoreConstants(o.c, s, Fragment(), o.da, o.da, o.db, o.a, o.b);
      }
      var y;
      y, ready', o' := OperandToReg(d, second, ready, o);
      var x :- y;
      return Success((false, x)), o';
    }

    /** Codes `==` and `~=`; a constant first operand changes places with the second. */
    method CodeEq(isEq: bool, e1: ExpDesc, e2: ExpDesc, ghost o: Operands) returns (r: Result<ExpDesc>)
      requires Waiting(o) && e1 == o.da && e2 == o.db
      requires e1.k.VNonReloc? || e1.k.VK? || e1.k.VKInt?
      modifies this
      ensures o.c.fr + 2 < MAXREGS ==> r.Success?
      ensures r.Success? ==>
        && Holds(CtxFor(o.c.w, o.c.origin, o.c.base, o.c.stops, o.c.fr, ECmp(if isEq then OpEq else OpNe, o.a, o.b)),
          r.value, [], [])
        && freereg == o.c.fr && r.value.k.VJmp?
    {
      hide Run, RunJump, Flow;
      var x1, x2 := e1, e2;
      ghost var swapped, ready, o1 := false, false, o;
      if !e1.k.VNonReloc? {
        x1, x2 := e2, e1;
        swapped := true;
        forall x: Regs ensures PrimAt(o.c, o.a, x) {
          ConstantIsPrim(o.c, o.s1, o.da, o.a, x);
        }
      }
      var y1;
      y1, ready, o1 := OperandToReg(x1, swapped, false, o1);
      x1 :- y1;
      if IsSCNumber(x2) {
        if !ready { SettleSecond(o1); }
        var test := EqI(x1.k.reg, x2.k.i, isEq);
        var d := EmitComparison(x1, x2, test, o1, if isEq then OpEq else OpNe, swapped);
        return Success(d);
      }
      var y2;
      y2, o1 := OperandToRK(x2, !swapped, ready, o1);
      var rk :- y2;
      var test := if rk.0 then EqK(x1.k.reg, rk.1.k.idx, isEq) else Eq(x1.k.reg, rk.1.k.reg, isEq);
      EqualityTests(o1, Fragment(), test, isEq, swapped);
      var d := EmitComparison(x1, rk.1, test, o1, if isEq then OpEq else OpNe, swapped);
      return Success(d);
    }

    // ---------- Operators ----------

    /** First operand of an equality, before the second is read: a constant is kept,
        anything else goes to a register. */
    method InfixEq(d: ExpDesc, ghost c: Ctx, ghost T: seq<nat>, ghost F: seq<nat>) returns (r: Result<ExpDesc>)
      requires Holds(c, d, T, F) && FreeIs(c, d)
      modifies this
      ensures c.fr + 1 < MAXREGS ==> r.Success?
      ensures r.Success? ==>
        && (r.value.k.VNonReloc? || r.value.k.VK? || r.value.k.VKInt?) && Settled(r.value)
        && Holds(c, r.value, [], []) && FreeIs(c, r.value)
    {
      var d1 := DischargeVars(d, c, T, F);
      if IsKInt(d1) {
        NoJumps(code, d1, T, F);
        return Success(d1);
      }
      ghost var s := Fragment();
      var isK, d2 := Exp2K(d1);
      MoreConstantsDenotes(c, s, Fragment(), d1, Elems(T), Elems(F));
      if isK {
        NoJumps(code, d1, T, F);
        ConstDenotes(c, Fragment(), d1, d2, Elems(T), Elems(F));
        return Success(d2);
      }
      r := Exp2AnyReg(d1, c, T, F);
    }

    /** First operand of an order comparison: only a small integer stays a constant. */
    method InfixOrder(d: ExpDesc, ghost c: Ctx, ghost T: seq<nat>, ghost F: seq<nat>) returns (r: Result<ExpDesc>)
      requires Holds(c, d, T, F) && FreeIs(c, d)
      modifies this
      ensures c.fr + 1 < MAXREGS ==> r.Success?
      ensures r.Success? ==>
        && (r.value.k.VNonReloc? || IsSCNumber(r.value)) && Settled(r.value)
        && Holds(c, r.value, [], []) && FreeIs(c, r.value)
    {
      var d1 := DischargeVars(d, c, T, F);
      if IsSCNumber(d1) {
        NoJumps(code, d1, T, F);
        return Success(d1);
      }
      r := Exp2AnyReg(d1, c, T, F);
    }

    /** First operand of a comparison, before the second is read. */
    method InfixCompare(op: CmpOp, d: ExpDesc, ghost c: Ctx, ghost T: seq<nat>,
        ghost F: seq<nat>) returns (r: Result<ExpDesc>)
      requires Holds(c, d, T, F) && FreeIs(c, d)
      modifies this
      ensures c.fr + 1 < MAXREGS ==> r.Success?
      ensures r.Success? ==>
        && (r.value.k.VNonReloc? ||
          (if op.OpEq? || op.OpNe? then r.value.k.VK? || r.value.k.VKInt? else IsSCNumber(r.value)))
        && Settled(r.value) && Holds(c, r.value, [], []) && FreeIs(c, r.value)
    {
      if op.OpEq? || op.OpNe? {
        r := InfixEq(d, c, T, F);
      } else {
        r := InfixOrder(d, c, T, F);
      }
    }

    /** Codes a comparison whose first operand is settled and whose second one has
        just been read; `>` and `>=` swap their operands. */
    method PosfixCompare(op: CmpOp, d1: ExpDesc, d2: ExpDesc, ghost o: Operands) returns (r: Result<ExpDesc>)
      requires Waiting(o) && d1 == o.da && d2 == o.db
      requires
        if op.OpEq? || op.OpNe? then d1.k.VNonReloc? || d1.k.VK? || d1.k.VKInt?
        else d1.k.VNonReloc? || IsSCNumber(d1)
      modifies this
      ensures o.c.fr + 2 < MAXREGS ==> r.Success?
      ensures r.Success? ==>
        && Holds(CtxFor(o.c.w, o.c.origin, o.c.base, o.c.stops, o.c.fr, ECmp(op, o.a, o.b)), r.value, [], [])
        && freereg == o.c.fr && r.value.k.VJmp?
    {
      var e2 := DischargeVars(d2, SecondCtx(o), o.T, o.F);
      ghost var o1 := o.(db := e2);
      match op {
        case OpEq => r := CodeEq(true, d1, e2, o1);
        case OpNe => r := CodeEq(false, d1, e2, o1);
        case OpLt => r := CodeOrder(OpLt, d1, e2, false, o1);
        case OpLe => r := CodeOrder(OpLe, d1, e2, false, o1);
        case OpGt => r := CodeOrder(OpLt, e2, d1, true, o1);
        case OpGe => r := CodeOrder(OpLe, e2, d1, true, o1);
      }
    }

    /** Registers an expression needs above the first free one. */
    ghost function Need(e: Expr): (n: nat)
      ensures n >= 1
    {
      match e
      case ENot(e) => Need(e)
      case EAnd(a, b) => if Need(a) > Need(b) then Need(a) else Need(b)
      case EOr(a, b) => if Need(a) > Need(b) then Need(a) else Need(b)
      case ECmp(_, a, b) => if Need(a) > Need(b) + 1 then Need(a) else Need(b) + 1
      case _ => 1
    }

    ghost predicate StopsOK(stops: set<nat>)
      reads this
    {
      forall j :: j in stops ==> j < |code| && code[j].Jmp?
    }

    /** Translates an expression, as the parser drives the code generator: the
        descriptor and lists it leaves denote the expression. */
    method Compile(e: Expr, ghost w: World, ghost base: nat, ghost stops: set<nat>)
      returns (r: Result<ExpDesc>, ghost T: seq<nat>, ghost F: seq<nat>)
      requires Valid() && base <= |code| && StopsOK(stops) && Scoped(e, nactvar, |w.up|)
      modifies this
      ensures old(freereg) + Need(e) < MAXREGS ==> r.Success?
      ensures r.Success? ==>
        && Holds(CtxFor(w, old(Fragment()), base, stops, old(freereg), e), r.value, T, F)
        && FreeIs(CtxFor(w, old(Fragment()), base, stops, old(freereg), e), r.value)
        && !r.value.k.VK?
      decreases e, 1
    {
      T, F := [], [];
      assert Elems([]) == {};
      ghost var s, fr := Fragment(), freereg;
      match e {
        case ENot(e1) =>
          var y;
          y, T, F := Compile(e1, w, base, stops);
          var d :- y;
          r := PrefixNot(d, e1, CtxFor(w, s, base, stops, fr, e1), T, F);
          T, F := F, T;
        case EAnd(a, b) =>
          r, T, F := CompileLogic(e, w, base, stops);
        case EOr(a, b) =>
          r, T, F := CompileLogic(e, w, base, stops);
        case ECmp(op, a, b) =>
          r := CompileCompare(e, w, base, stops);
        case _ =>
          var d := ExpDesc(LeafKind(e), NO_JUMP, NO_JUMP);
          LeafDenotes(w, s, base, stops, fr, e, d);
          r := Success(d);
      }
    }

    method PrefixNot(d: ExpDesc, ghost e: Expr, ghost c: Ctx, ghost T: seq<nat>,
        ghost F: seq<nat>) returns (r: Result<ExpDesc>)
      requires Holds(c, d, T, F) && FreeIs(c, d) && !d.k.VK?
      requires c == CtxFor(c.w, c.origin, c.base, c.stops, c.fr, e)
      modifies this
      ensures c.fr + 1 < MAXREGS ==> r.Success?
      ensures r.Success? ==>
        && Holds(CtxFor(c.w, c.origin, c.base, c.stops, c.fr, ENot(e)), r.value, F, T)
        && FreeIs(CtxFor(c.w, c.origin, c.base, c.stops, c.fr, ENot(e)), r.value)
        && !r.value.k.VK?
    {
      var d1 := DischargeVars(d, c, T, F);
      r := CodeNot(d1, c, CtxFor(c.w, c.origin, c.base, c.stops, c.fr, ENot(e)), T, F);
    }

    /** `a and b` or `a or b`. */
    method CompileLogic(e: Expr, ghost w: World, ghost base: nat, ghost stops: set<nat>)
      returns (r: Result<ExpDesc>, ghost T: seq<nat>, ghost F: seq<nat>)
      requires e.EAnd? || e.EOr?
      requires Valid() && base <= |code| && StopsOK(stops) && Scoped(e, nactvar, |w.up|)
      modifies this
      ensures old(freereg) + Need(e) < MAXREGS ==> r.Success?
      ensures r.Success? ==>
        && Holds(CtxFor(w, old(Fragment()), base, stops, old(freereg), e), r.value, T, F)
        && FreeIs(CtxFor(w, old(Fragment()), base, stops, old(freereg), e), r.value)
        && !r.value.k.VK?
      decreases e, 0
    {
      ghost var c := CtxFor(w, Fragment(), base, stops, freereg, e.a);
      var y;
      ghost var js: seq<nat>;
      y, T, F := Compile(e.a, w, base, stops);
      var d1 :- y;
      if e.EAnd? {
        y, js := GoIfTrue(d1, c, T, F);
      } else {
        y, js := GoIfFalse(d1, c, T, F);
      }
      d1 :- y;
      ghost var s1 := Fragment();
      forall j | j in stops + Elems(js) ensures j < |code| && code[j].Jmp? {
        if j in Elems(js) { assert PendingAt(c, code, j); }
      }
      y, T, F := Compile(e.b, w, base, stops + Elems(js));
      var d2 :- y;
      var d;
      d, T, F := PosfixLogic(e, d1, d2, c, s1, js, T, F);
      r := Success(d);
    }

    /** The second operand's descriptor takes over the exits of the first one. */
    method PosfixLogic(e: Expr, d1: ExpDesc, d2: ExpDesc, ghost c: Ctx, ghost s1: Frag,
                       ghost js: seq<nat>, ghost T: seq<nat>, ghost F: seq<nat>)
      returns (d: ExpDesc, ghost T': seq<nat>, ghost F': seq<nat>)
      requires (e.EAnd? || e.EOr?) && c == CtxFor(c.w, c.origin, c.base, c.stops, c.fr, e.a)
      requires s1.nactvar == nactvar && Scoped(e.b, nactvar, |c.w.up|)
      requires Goes(c, s1, e.EAnd?, false, if e.EAnd? then {} else Elems(js), if e.EAnd? then Elems(js) else {})
      requires List(s1.code, if e.EAnd? then d1.f else d1.t, js)
      requires Holds(CtxFor(c.w, s1, c.base, c.stops + Elems(js), c.fr, e.b), d2, T, F) && !d2.k.VK?
      requires FreeIs(CtxFor(c.w, s1, c.base, c.stops + Elems(js), c.fr, e.b), d2)
      modifies this`code
      ensures Holds(CtxFor(c.w, c.origin, c.base, c.stops, c.fr, e), d, T', F')
      ensures FreeIs(CtxFor(c.w, c.origin, c.base, c.stops, c.fr, e), d) && !d.k.VK?
    {
      hide Run, RunJump, Flow, MatchAt, GoesAt, Eval, MainValue, Effect, Denotes, Goes, List, Extends, IsComparison,
        IsTest, OnlyLinks, After, Producer, Linked;
      ghost var cb := CtxFor(c.w, s1, c.base, c.stops + Elems(js), c.fr, e.b);
      var e2 := DischargeVars(d2, cb, T, F);
      ghost var s := Fragment();
      ShortCircuitDenotes(c, s1, s, e2, e.EAnd?, false, Elems(js), Elems(T), Elems(F), e.a, e.b);
      ExitsApart(cb, s, e2, Elems(T), Elems(F));
      ListExtends(s1, s, if e.EAnd? then d1.f else d1.t, js);
      if e.EAnd? {
        var f := Concat(e2.f, d1.f, F, js);
        T', F', d := T, F + js, e2.(f := f);
        JoinedLists(CtxFor(c.w, c.origin, c.base, c.stops, c.fr, e), s, Fragment(), e2, d, F, js, e2.t, T, false);
      } else {
        var t := Concat(e2.t, d1.t, T, js);
        T', F', d := T + js, F, e2.(t := t);
        JoinedLists(CtxFor(c.w, c.origin, c.base, c.stops, c.fr, e), s, Fragment(), e2, d, T, js, e2.f, F, true);
      }
    }

    method CompileCompare(e: Expr, ghost w: World, ghost base: nat, ghost stops: set<nat>) returns (r: Result<ExpDesc>)
      requires e.ECmp?
      requires Valid() && base <= |code| && StopsOK(stops) && Scoped(e, nactvar, |w.up|)
      modifies this
      ensures old(freereg) + Need(e) < MAXREGS ==> r.Success?
      ensures r.Success? ==>
        && Holds(CtxFor(w, old(Fragment()), base, stops, old(freereg), e), r.value, [], [])
        && FreeIs(CtxFor(w, old(Fragment()), base, stops, old(freereg), e), r.value)
        && r.value.k.VJmp?
      decreases e, 0
    {
      hide Run, RunJump, Flow, MatchAt, GoesAt, Extends, Pending;
      ghost var c := CtxFor(w, Fragment(), base, stops, freereg, e.a);
      var y;
      ghost var T, F: seq<nat>;
      y, T, F := Compile(e.a, w, base, stops);
      var d1 :- y;
      d1 :- InfixCompare(e.op, d1, c, T, F);
      ghost var s1, fr2 := Fragment(), freereg;
      assert FirstSettled(Operands(c, s1, fr2, e.a, e.b, d1, d1, [], [])) by { assert Elems([]) == {}; }
      y, T, F := Compile(e.b, w, base, stops);
      var d2 :- y;
      r := PosfixCompare(e.op, d1, d2, Operands(c, s1, fr2, e.a, e.b, d1, d2, T, F));
    }

    // ---------- Whole expressions ----------

    /** An expression's value goes to the next free register.  Executing the function
        from where the expression's code starts reaches exactly its end, with Lua's
        value of the expression there and every register in use unchanged. */
    method ExpToNextReg(e: Expr, ghost w: World) returns (r: Result<nat>)
      requires Valid() && Scoped(e, nactvar, |w.up|)
      modifies this
      ensures old(freereg) + Need(e) < MAXREGS ==> r.Success?
      ensures r.Success? ==>
        && Valid() && r.value == old(freereg) && freereg == old(freereg) + 1
        && Extends(old(Fragment()), Fragment())
        && forall x: Regs :: Computes(w, old(Fragment()), Fragment(), e, r.value, old(freereg), x)
    {
      ghost var s, fr := Fragment(), freereg;
      ghost var T, F: seq<nat>;
      var y;
      y, T, F := Compile(e, w, Entry(s), {});
      var d :- y;
      ghost var c := CtxFor(w, s, Entry(s), {}, fr, e);
      var d1 :- Exp2NextReg(d, c, T, F);
      assert Elems([]) == {};
      forall x: Regs ensures Computes(w, s, Fragment(), e, fr, fr, x) {
        DeliveredComputes(c, Fragment(), d1, e, fr, x);
      }
      return Success(d1.k.reg);
    }

    /** `local = e`: the value goes straight into the local variable's register,
        which the expression may itself mention. */
    method StoreLocal(e: Expr, reg: Arg, ghost w: World) returns (r: Result<()>)
      requires Valid() && Scoped(e, nactvar, |w.up|) && reg < nactvar
      modifies this
      ensures old(freereg) + Need(e) < MAXREGS ==> r.Success?
      ensures r.Success? ==>
        && Valid() && freereg == old(freereg)
        && Extends(old(Fragment()), Fragment())
        && forall x: Regs :: Computes(w, old(Fragment()), Fragment(), e, reg, old(freereg), x)
    {
      ghost var s, fr := Fragment(), freereg;
      ghost var T, F: seq<nat>;
      var y;
      y, T, F := Compile(e, w, Entry(s), {});
      var d :- y;
      ghost var c := CtxFor(w, s, Entry(s), {}, fr, e);
      FreeExp(d);
      ExemptDenotes(c, Fragment(), d, Elems(T), Elems(F), reg);
      var d1 := Exp2Reg(d, reg, c.(ex := reg), T, F);
      assert Elems([]) == {};
      forall x: Regs ensures Computes(w, s, Fragment(), e, reg, fr, x) {
        DeliveredComputes(c.(ex := reg), Fragment(), d1, e, reg, x);
      }
      return Success(());
    }
  }

  lemma ConcatLists(code: seq<Instr>, code': seq<Instr>, l1: int, l2: int, js1: seq<nat>, js2: seq<nat>)
    requires List(code, l1, js1) && List(code, l2, js2) && Elems(js1) !! Elems(js2)
    requires js1 != [] && js2 != []
    requires js1[|js1| - 1] < |code| && code' == code[js1[|js1| - 1] := Jmp(js2[0] as int - (js1[|js1| - 1] + 1))]
    ensures List(code', l1, js1 + js2)
  {
    var js := js1 + js2;
    assert forall j :: j in js1 ==> j in Elems(js1);
    assert forall j :: j in js2 ==> j in Elems(js2);
    forall i | 0 <= i < |js| ensures Linked(code', js, i) {
      if i < |js1| {
        assert Linked(code, js1, i);
        assert js1[i] in js1 && js2[0] in js2 && js1[|js1| - 1] in js1;
      } else {
        assert Linked(code, js2, i - |js1|);
        assert js2[i - |js1|] in js2 && js1[|js1| - 1] in js1;
      }
    }
    forall i, j | 0 <= i < j < |js| ensures js[i] != js[j] {
      if i < |js1| <= j { assert js1[i] in js1 && js2[j - |js1|] in js2; }
    }
  }

  lemma DemotedStep(code0: seq<Instr>, code: seq<Instr>, js: seq<nat>, i: nat)
    requires i < |js| && List(code0, HeadOf(js, 0), js)
    requires Demoted(code0, code, Elems(js[..i]))
    ensures js[i] < |code| && code[js[i]] == code0[js[i]]
    ensures Producer(code, js[i]) == Producer(code0, js[i])
    ensures Producer(code, js[i]) ==>
              Demoted(code0, code[js[i] - 1 := PatchedTest(code[js[i] - 1], NO_REG)], Elems(js[..i + 1]))
    ensures !Producer(code, js[i]) ==> Demoted(code0, code, Elems(js[..i + 1]))
  {
    var j := js[i];
    assert Linked(code0, js, i);
    assert code[j] == DemotedInstr(code0, Elems(js[..i]), j);
    assert j !in Elems(js[..i]);
    assert Elems(js[..i + 1]) == Elems(js[..i]) + {j};
    if j >= 1 { assert code[j - 1] == DemotedInstr(code0, Elems(js[..i]), j - 1); }
    var code' := if Producer(code, j) then code[j - 1 := PatchedTest(code[j - 1], NO_REG)] else code;
    forall p | 0 <= p < |code0| ensures code'[p] == DemotedInstr(code0, Elems(js[..i + 1]), p) {
      assert code[p] == DemotedInstr(code0, Elems(js[..i]), p);
    }
  }

  lemma PatchedStep(code0: seq<Instr>, code: seq<Instr>, js: seq<nat>, i: nat, vtarget: nat, reg: Arg, dtarget: int)
    requires i < |js| && List(code0, HeadOf(js, 0), js)
    requires Patched(code0, code, Elems(js[..i]), vtarget, reg, dtarget)
    ensures js[i] < |code| && code[js[i]] == code0[js[i]]
    ensures Producer(code, js[i]) == Producer(code0, js[i])
    ensures var tested := if Producer(code, js[i]) then code[js[i] - 1 := PatchedTest(code[js[i] - 1], reg)] else code;
            var dest := if Producer(code, js[i]) then vtarget else dtarget;
            Patched(code0, tested[js[i] := Jmp(dest - (js[i] + 1))], Elems(js[..i + 1]), vtarget, reg, dtarget)
  {
    var j := js[i];
    assert Linked(code0, js, i);
    var done := Elems(js[..i]);
    assert j !in done;
    assert Elems(js[..i + 1]) == done + {j};
    assert code[j] == PatchedInstr(code0, done, vtarget, reg, dtarget, j);
    forall x | x in done ensures x < |code0| && code0[x].Jmp? {
      var y :| 0 <= y < i && js[y] == x;
      assert Linked(code0, js, y);
    }
    if j >= 1 { assert code[j - 1] == PatchedInstr(code0, done, vtarget, reg, dtarget, j - 1); }
    var tested := if Producer(code, j) then code[j - 1 := PatchedTest(code[j - 1], reg)] else code;
    var dest := if Producer(code, j) then vtarget else dtarget;
    var code' := tested[j := Jmp(dest - (j + 1))];
    forall p | 0 <= p < |code0| ensures code'[p] == PatchedInstr(code0, done + {j}, vtarget, reg, dtarget, p) {
      assert code[p] == PatchedInstr(code0, done, vtarget, reg, dtarget, p);
    }
  }

  lemma ListGrown(code: seq<Instr>, code': seq<Instr>, list: int, js: seq<nat>)
    requires List(code, list, js) && Grown(code, code')
    ensures List(code', list, js)
  {
    forall j | j in js ensures j < |code| && code'[j] == code[j] {
      var i :| 0 <= i < |js| && js[i] == j;
      assert Linked(code, js, i);
    }
    ListKept(code, code', list, js);
  }

  /** Lists lie in the body, so they survive what replaces the main value. */
  lemma LoadKeepsLists(c: Ctx, s: Frag, s': Frag, d: ExpDesc, T: seq<nat>, F: seq<nat>)
    requires Denotes(c, s, d, Elems(T), Elems(F))
    requires List(s.code, d.t, T) && List(s.code, d.f, F)
    requires Grown(Body(s, d).code, s'.code)
    ensures List(s'.code, d.t, T) && List(s'.code, d.f, F)
  {
    forall j | j in T || j in F ensures j < |Body(s, d).code| && s'.code[j] == s.code[j] {
      assert j in Elems(T) || j in Elems(F);
      assert PendingAt(c, Body(s, d).code, j);
    }
    ListKept(s.code, s'.code, d.t, T);
    ListKept(s.code, s'.code, d.f, F);
  }

  lemma LoadHolds(c: Ctx, s: Frag, s': Frag, d: ExpDesc, T: seq<nat>, F: seq<nat>, i: Instr, reg: Arg)
    requires Denotes(c, s, d, Elems(T), Elems(F))
    requires List(s.code, d.t, T) && List(s.code, d.f, F)
    requires s' == s.(code := Body(s, d).code + [i], k := s'.k)
    requires Loads(c.w, s, d, s'.k, i, reg)
    requires reg < MAXREGS && (reg == c.fr || reg == c.ex)
    ensures Denotes(c, s', d.(k := VNonReloc(reg)), Elems(T), Elems(F))
    ensures List(s'.code, d.t, T) && List(s'.code, d.f, F)
    ensures !IsTest(s'.code[|s'.code| - 1])
  {
    LoadDenotes(c, s, s', d, Elems(T), Elems(F), i, reg);
    LoadKeepsLists(c, s, s', d, T, F);
  }

  lemma RelocLoads(c: Ctx, s: Frag, s': Frag, d: ExpDesc, ts: set<nat>, fs: set<nat>, reg: Arg)
    requires Denotes(c, s, d, ts, fs) && d.k.VReloc?
    requires s' == s.(code := s.code[d.k.ipc := SetA(s.code[d.k.ipc], reg)])
    ensures s'.code == Body(s, d).code + [SetA(s.code[d.k.ipc], reg)]
    ensures Loads(c.w, s, d, s.k, SetA(s.code[d.k.ipc], reg), reg)
  {
  }

  lemma MoveLoads(w: World, s: Frag, d: ExpDesc, reg: Arg)
    requires d.k.VNonReloc?
    ensures Loads(w, s, d, s.k, Move(reg, d.k.reg), reg)
  {
  }

  lemma LocalDenotes(c: Ctx, s: Frag, d: ExpDesc, d': ExpDesc, ts: set<nat>, fs: set<nat>)
    requires Denotes(c, s, d, ts, fs) && d.k.VLocal? && d' == d.(k := VNonReloc(d.k.sidx))
    ensures Denotes(c, s, d', ts, fs)
  {
    forall r: Regs ensures MatchAt(c, s, d', ts, fs, r) {
      assert MatchAt(c, s, d, ts, fs, r);
    }
  }

  lemma UpvalueReads(c: Ctx, s: Frag, d: ExpDesc, ts: set<nat>, fs: set<nat>)
    requires Denotes(c, s, d, ts, fs) && d.k.VUpval?
    ensures Relocatable(c.w, GetUpval(0, d.k.up))
    ensures forall r: Regs :: RelocValue(c.w, GetUpval(0, d.k.up), r) == MainValue(c.w, s, d, r)
  {
    hide CtxShape, Pending, MatchAt;
  }

  lemma RelocDenotes(c: Ctx, s: Frag, s': Frag, d: ExpDesc, d': ExpDesc, ts: set<nat>, fs: set<nat>)
    requires Denotes(c, s, d, ts, fs) && !d.k.VJmp? && !d.k.VReloc?
    requires |s'.code| == |s.code| + 1 && s' == s.(code := s.code + [s'.code[|s.code|]])
    requires d' == d.(k := VReloc(|s.code|)) && Relocatable(c.w, s'.code[|s.code|])
    requires forall r: Regs :: RelocValue(c.w, s'.code[|s.code|], r) == MainValue(c.w, s, d, r)
    ensures Denotes(c, s', d', ts, fs)
  {
    assert Body(s', d') == s by { assert s'.code[..|s.code|] == s.code; }
    forall p | 0 <= p < |s.code| ensures s'.code[p] == s.code[p] { }
    ExtendsTransitive(c.origin, s, s');
    forall j | j in c.stops ensures s'.code[j].Jmp? { assert s.code[j].Jmp?; }
    forall r: Regs ensures MatchAt(c, s', d', ts, fs, r) {
      assert MatchAt(c, s, d, ts, fs, r);
      var out := Flow(c.w, s, c.base, c.stops + ts + fs, r);
      if out.Stop? && c.want(r).Val? {
        ExitsKept(c, s.code, s'.code, ts, fs, out.at, out.regs, c.want(r).v, c.want(r).env);
      }
    }
  }

  lemma JumpAround(code0: seq<Instr>, before: seq<Instr>, code: seq<Instr>, reg: Arg, fj: int, fjs: seq<nat>)
    requires |code0| > 0 ==> !IsTest(code0[|code0| - 1])
    requires if fj == NO_JUMP then fjs == [] else fjs == [|code0|]
    requires before == code0 + (if fj == NO_JUMP then [] else [Jmp(NO_JUMP)]) + [LFalseSkip(reg), LoadTrue(reg)]
    requires Patched(before, code, Elems(fjs), |before|, NO_REG, |before|)
    ensures code == code0 + (if fj == NO_JUMP then [] else [Jmp(2)]) + [LFalseSkip(reg), LoadTrue(reg)]
  {
    var code' := code0 + (if fj == NO_JUMP then [] else [Jmp(2)]) + [LFalseSkip(reg), LoadTrue(reg)];
    assert |code'| == |code|;
    forall p | 0 <= p < |code| ensures code[p] == code'[p] {
      assert code[p] == PatchedInstr(before, Elems(fjs), |before|, NO_REG, |before|, p);
    }
  }

  lemma HeadIsElem(js: seq<nat>)
    ensures js != [] ==> HeadOf(js, 0) == js[0] && js[0] in Elems(js)
  {
  }

  lemma ElemsPlus(js: seq<nat>, j: nat)
    ensures Elems(js + [j]) == Elems(js) + {j} && Elems([j]) == {j} && js + [] == js
  {
  }

  lemma NoJumps(code: seq<Instr>, d: ExpDesc, T: seq<nat>, F: seq<nat>)
    requires List(code, d.t, T) && List(code, d.f, F) && Elems(T) !! Elems(F) && !HasJumps(d)
    ensures T == [] && F == [] && d.t == NO_JUMP && d.f == NO_JUMP
  {
    HeadIsElem(T);
    HeadIsElem(F);
  }

  /** A comparison's own jump is taken exactly when the value is true. */
  lemma TestGoes(c: Ctx, s: Frag, d: ExpDesc, ts: set<nat>, fs: set<nat>) returns (j: nat)
    requires Denotes(c, s, d, ts, fs) && d.k.VJmp?
    ensures j == d.k.jpc && j !in ts + fs && PendingAt(c, s.code, j)
    ensures Goes(c, s, false, true, ts + {j}, fs)
  {
    var n := |s.code|;
    var test := s.code[n - 2];
    assert s.code == Body(s, d).code + [test, Jmp(NO_JUMP)];
    forall r: Regs ensures DecidesAt(c.w, s, d, test, true, r) { }
    j := CondGoes(c, s, s, d, ts, fs, test, true);
  }

  lemma LinksKeepList(code: seq<Instr>, code': seq<Instr>, js: set<nat>, list: int, ls: seq<nat>)
    requires OnlyLinks(code, code', js) && List(code, list, ls) && Elems(ls) !! js
    ensures List(code', list, ls)
  {
    forall j | j in ls ensures j < |code| && code'[j] == code[j] {
      var i :| 0 <= i < |ls| && ls[i] == j;
      assert Linked(code, ls, i);
      assert j in Elems(ls);
    }
    ListKept(code, code', list, ls);
  }

  lemma PatchedKeepsList(code: seq<Instr>, code': seq<Instr>, js: set<nat>, vtarget: int, reg: Arg, dtarget: int,
                         list: int, ls: seq<nat>)
    requires Patched(code, code', js, vtarget, reg, dtarget) && List(code, list, ls) && Elems(ls) !! js
    ensures List(code', list, ls)
  {
    forall j | j in ls ensures j < |code| && code'[j] == code[j] {
      var i :| 0 <= i < |ls| && ls[i] == j;
      assert Linked(code, ls, i);
      assert j in Elems(ls);
      assert code'[j] == PatchedInstr(code, js, vtarget, reg, dtarget, j);
    }
    ListKept(code, code', list, ls);
  }

  lemma PatchedKeepsBools(c: Ctx, code: seq<Instr>, code': seq<Instr>, js: set<nat>, vtarget: int, reg: Arg,
      dtarget: int,
                          rest: set<nat>)
    requires Patched(code, code', js, vtarget, reg, dtarget) && Pending(c, code, js) && Pending(c, code, rest) &&
      js !! rest
    ensures forall p, b :: LoadsBool(code, p, reg, b) ==> LoadsBool(code', p, reg, b)
    ensures forall j :: j in rest ==> Producer(code', j) == Producer(code, j)
    ensures |code| > 0 && !IsTest(code[|code| - 1]) ==> !IsTest(code'[|code| - 1])
  {
    forall j | j in js ensures j < |code| && code[j].Jmp? { assert PendingAt(c, code, j); }
    if |code| > 0 { assert code'[|code| - 1] == PatchedInstr(code, js, vtarget, reg, dtarget, |code| - 1); }
    if |code| > 1 { assert code'[|code| - 2] == PatchedInstr(code, js, vtarget, reg, dtarget, |code| - 2); }
    forall j | j in rest ensures Producer(code', j) == Producer(code, j) {
      assert PendingAt(c, code, j);
      assert code'[j - 1] == PatchedInstr(code, js, vtarget, reg, dtarget, j - 1);
    }
  }

  lemma PatchedBoth(c: Ctx, s: Frag, s1: Frag, s2: Frag, reg: Arg, ts: set<nat>, fs: set<nat>, p_t: int, p_f: int)
    requires Denotes(c, s, ExpDesc(VNonReloc(reg), NO_JUMP, NO_JUMP), ts, fs) && (reg == c.fr || reg == c.ex)
    requires s.lasttarget == |s.code| && s1 == s.(code := s1.code) && s2 == s1.(code := s2.code)
    requires (LoadsBool(s.code, p_f, reg, false) && LoadsBool(s.code, p_t, reg, true))
          || (forall j :: j in ts || j in fs ==> Producer(s.code, j))
    requires Patched(s.code, s1.code, fs, |s.code|, reg, p_f) && Patched(s1.code, s2.code, ts, |s.code|, reg, p_t)
    ensures Denotes(c, s2, ExpDesc(VNonReloc(reg), NO_JUMP, NO_JUMP), {}, {})
    ensures |s.code| > 0 && !IsTest(s.code[|s.code| - 1]) ==> !IsTest(s2.code[|s.code| - 1])
  {
    hide PatchedInstr, Producer, CtxShape, PendingAt, MainValue, LoadsBool;
    var d := ExpDesc(VNonReloc(reg), NO_JUMP, NO_JUMP);
    PatchedDenotes(c, s, s1, d, reg, ts, fs, false, p_f);
    PatchedKeepsBools(c, s.code, s1.code, fs, |s.code|, reg, p_f, ts);
    PatchedDenotes(c, s1, s2, d, reg, ts, {}, true, p_t);
    PatchedKeepsBools(c, s1.code, s2.code, ts, |s.code|, reg, p_t, {});
  }

  lemma LabelDenotes(c: Ctx, s: Frag, d: ExpDesc, ts: set<nat>, fs: set<nat>)
    requires Denotes(c, s, d, ts, fs)
    ensures Denotes(c, s.(lasttarget := |s.code|), d, ts, fs)
  {
    var s' := s.(lasttarget := |s.code|);
    forall r: Regs ensures MatchAt(c, s', d, ts, fs, r) {
      assert MatchAt(c, s, d, ts, fs, r);
    }
  }

  /** Denotation does not look at the list heads, only at the jumps in the lists. */
  lemma DenotesSameKind(c: Ctx, s: Frag, d: ExpDesc, d': ExpDesc, ts: set<nat>, fs: set<nat>)
    requires Denotes(c, s, d, ts, fs) && d'.k == d.k
    ensures Denotes(c, s, d', ts, fs)
  {
    forall r: Regs ensures MatchAt(c, s, d', ts, fs, r) {
      assert MatchAt(c, s, d, ts, fs, r);
    }
  }

  lemma LastKept(code: seq<Instr>, code1: seq<Instr>, code2: seq<Instr>, js: set<nat>, os: set<nat>)
    requires OnlyLinks(code, code1, js) && Patched(code1, code2, os, |code1|, NO_REG, |code1|)
    requires |code| > 0 ==> !IsTest(code[|code| - 1])
    ensures |code2| > 0 ==> !IsTest(code2[|code2| - 1])
  {
    if |code| > 0 {
      assert !IsTest(code1[|code| - 1]);
      assert code2[|code| - 1] == PatchedInstr(code1, os, |code1|, NO_REG, |code1|, |code| - 1);
    }
  }

  lemma GoesInexact(c: Ctx, s: Frag, b: bool, exact: bool, ts: set<nat>, fs: set<nat>)
    requires Goes(c, s, b, exact, ts, fs)
    ensures Goes(c, s, b, false, ts, fs)
  {
    forall r: Regs ensures GoesAt(c, s, b, false, ts, fs, r) {
      assert GoesAt(c, s, b, exact, ts, fs, r);
    }
  }

  /** A jump just emitted at `pc` leaves with truth `cond`. */
  ghost predicate CondJumped(c: Ctx, s: Frag, cond: bool, pc: nat, ts: set<nat>, fs: set<nat>) {
    && pc !in ts + fs && pc < |s.code| && s.code[pc] == Jmp(NO_JUMP)
    && Goes(c, s, !cond, false, if cond then ts + {pc} else ts, if cond then fs else fs + {pc})
  }

  lemma JumpsOnNot(c: Ctx, s: Frag, s': Frag, d: ExpDesc, T: seq<nat>, F: seq<nat>, cond: bool)
    requires Denotes(c, s, d, Elems(T), Elems(F)) && List(s.code, d.t, T) && List(s.code, d.f, F)
    requires d.k.VReloc? && s.code[d.k.ipc].Not?
    requires s' == s.(code := s.code[..|s.code| - 1] + [Test(s.code[d.k.ipc].b, !cond), Jmp(NO_JUMP)])
    ensures CondJumped(c, s', cond, |s'.code| - 1, Elems(T), Elems(F))
    ensures List(s'.code, d.t, T) && List(s'.code, d.f, F)
  {
    var test := Test(s.code[d.k.ipc].b, !cond);
    forall r: Regs ensures DecidesAt(c.w, s, d, test, cond, r) { }
    var _ := CondGoes(c, s, s', d, Elems(T), Elems(F), test, cond);
    GoesInexact(c, s', !cond, true, if cond then Elems(T) + {|s'.code| - 1} else Elems(T),
                if cond then Elems(F) else Elems(F) + {|s'.code| - 1});
    LoadKeepsLists(c, s, s', d, T, F);
  }

  lemma JumpsOnReg(c: Ctx, s: Frag, s': Frag, d: ExpDesc, T: seq<nat>, F: seq<nat>, cond: bool)
    requires Denotes(c, s, d, Elems(T), Elems(F)) && List(s.code, d.t, T) && List(s.code, d.f, F)
    requires d.k.VNonReloc?
    requires s' == s.(code := s.code + [TestSet(NO_REG, d.k.reg, cond), Jmp(NO_JUMP)])
    ensures CondJumped(c, s', cond, |s'.code| - 1, Elems(T), Elems(F))
    ensures List(s'.code, d.t, T) && List(s'.code, d.f, F)
  {
    var test := TestSet(NO_REG, d.k.reg, cond);
    forall r: Regs ensures DecidesAt(c.w, s, d, test, cond, r) { }
    var _ := CondGoes(c, s, s', d, Elems(T), Elems(F), test, cond);
    LoadKeepsLists(c, s, s', d, T, F);
  }

  lemma NegatedJumps(c: Ctx, s: Frag, s': Frag, d: ExpDesc, T: seq<nat>, F: seq<nat>)
    requires Denotes(c, s, d, Elems(T), Elems(F)) && List(s.code, d.t, T) && List(s.code, d.f, F)
    requires d.k.VJmp? && s' == s.(code := s.code[d.k.jpc - 1 := Negate(s.code[d.k.jpc - 1])])
    ensures CondJumped(c, s', false, d.k.jpc, Elems(T), Elems(F))
    ensures List(s'.code, d.t, T) && List(s'.code, d.f, F)
  {
    var test := Negate(s.code[d.k.jpc - 1]);
    assert s'.code == Body(s, d).code + [test, Jmp(NO_JUMP)];
    forall r: Regs ensures DecidesAt(c.w, s, d, test, false, r) { NegateTaken(c.w, s.k, s.code[d.k.jpc - 1], r); }
    var j := CondGoes(c, s, s', d, Elems(T), Elems(F), test, false);
    GoesInexact(c, s', true, true, Elems(T), Elems(F) + {j});
    LoadKeepsLists(c, s, s', d, T, F);
  }

  lemma NegateTaken(w: World, k: seq<Value>, i: Instr, r: Regs)
    requires IsComparison(i)
    ensures IsComparison(Negate(i)) && (KnownTest(k, i) ==> KnownTest(k, Negate(i)))
    ensures Taken(w, k, Negate(i), r) == !Taken(w, k, i, r)
  {
  }

  lemma ConstantGoes(c: Ctx, s: Frag, d: ExpDesc, T: seq<nat>, F: seq<nat>, b: bool)
    requires Denotes(c, s, d, Elems(T), Elems(F))
    requires if b then d.k.VK? || d.k.VKInt? || d.k.VKStr? || d.k.VTrue? else d.k.VNil? || d.k.VFalse?
    requires d.k.VK? ==> d.k.idx < |s.k| && Truthy(s.k[d.k.idx])
    ensures Goes(c, s, b, false, Elems(T), Elems(F))
  {
    ConstGoes(c, s, d, Elems(T), Elems(F), b);
  }

  lemma ConstNegated(c: Ctx, s: Frag, d: ExpDesc, d': ExpDesc, ts: set<nat>, fs: set<nat>)
    requires Denotes(c, s, d, ts, fs)
    requires || ((d.k.VNil? || d.k.VFalse?) && d' == d.(k := VTrue))
             || ((d.k.VK? || d.k.VKInt? || d.k.VKStr? || d.k.VTrue?) && d' == d.(k := VFalse))
    requires d.k.VK? ==> Truthy(s.k[d.k.idx])
    ensures NotMain(c, s, s, d, d')
  {
  }

  lemma NotMainSameKind(c: Ctx, s: Frag, s': Frag, d: ExpDesc, d1: ExpDesc, d2: ExpDesc)
    requires NotMain(c, s, s', d, d1) && d2.k == d1.k
    ensures NotMain(c, s, s', d, d2)
  {
  }

  lemma NegatedMain(c: Ctx, s: Frag, s': Frag, d: ExpDesc, ts: set<nat>, fs: set<nat>)
    requires Denotes(c, s, d, ts, fs) && d.k.VJmp?
    requires s' == s.(code := s.code[d.k.jpc - 1 := Negate(s.code[d.k.jpc - 1])])
    ensures NotMain(c, s, s', d, d)
  {
    forall r: Regs ensures MainValue(c.w, s', d, r) == Bool(!Truthy(MainValue(c.w, s, d, r))) {
      NegateTaken(c.w, s.k, s.code[d.k.jpc - 1], r);
    }
    forall p | 0 <= p < |c.origin.code| ensures s'.code[p] == s.code[p] { }
    ExtendsTransitive(c.origin, Body(s, d), s');
  }

  lemma NotEmitted(c: Ctx, s: Frag, s': Frag, d: ExpDesc, d': ExpDesc)
    requires CtxShape(c, s) && d.k.VNonReloc? && d' == d.(k := VReloc(|s.code|))
    requires s' == s.(code := s.code + [Not(0, d.k.reg)])
    ensures NotMain(c, s, s', d, d')
  {
    forall p | 0 <= p < |s.code| ensures s'.code[p] == s.code[p] { }
    ExtendsTransitive(c.origin, s, s');
    forall j | j in c.stops ensures s'.code[j].Jmp? { assert s.code[j].Jmp?; }
  }

  /** `d'` in `s'` has the negated main value of `d` in `s`, after the same body. */
  ghost predicate NotMain(c: Ctx, s: Frag, s': Frag, d: ExpDesc, d': ExpDesc) {
    && CtxShape(c, s') && MainShape(c, s', d')
    && s'.lasttarget == s.lasttarget && s'.k == s.k
    && Body(s', d').code == Body(s, d).code
    && forall r: Regs :: MainValue(c.w, s', d', r) == Bool(!Truthy(MainValue(c.w, s, d, r)))
  }

  lemma DemotedKeepsList(code: seq<Instr>, code': seq<Instr>, js: set<nat>, list: int, ls: seq<nat>)
    requires Demoted(code, code', js) && List(code, list, ls)
    ensures List(code', list, ls)
  {
    forall j | j in ls ensures j < |code| && code'[j] == code[j] {
      var i :| 0 <= i < |ls| && ls[i] == j;
      assert Linked(code, ls, i);
      assert code'[j] == DemotedInstr(code, js, j);
    }
    ListKept(code, code', list, ls);
  }

  lemma DemotedTwice(code: seq<Instr>, code1: seq<Instr>, code2: seq<Instr>, js1: set<nat>, js2: set<nat>)
    requires Demoted(code, code1, js1) && Demoted(code1, code2, js2)
    ensures Demoted(code, code2, js1 + js2)
    ensures |code| > 0 && !IsTest(code[|code| - 1]) ==> !IsTest(code2[|code| - 1])
  {
    forall p | 0 <= p < |code| ensures code2[p] == DemotedInstr(code, js1 + js2, p) {
      assert code1[p] == DemotedInstr(code, js1, p);
      assert code2[p] == DemotedInstr(code1, js2, p);
    }
  }

  lemma NotFinished(c: Ctx, c': Ctx, s: Frag, s1: Frag, s': Frag, d: ExpDesc, d': ExpDesc, ts: set<nat>, fs: set<nat>)
    requires Denotes(c, s, d, ts, fs)
    requires c' == c.(want := c'.want) && forall r: Regs :: c'.want(r) == Negated(c.want(r))
    requires NotMain(c, s, s1, d, d')
    requires s' == s1.(code := s'.code) && Demoted(s1.code, s'.code, ts + fs)
    ensures Denotes(c', s', d', fs, ts)
  {
    var body := Body(s, d).code;
    forall j | j in ts + fs ensures |c.origin.code| < j < |body| { assert PendingAt(c, body, j); }
    forall p | 0 <= p < |s1.code| ensures s'.code[p] == DemotedInstr(s1.code, ts + fs, p) { }
    forall p | 0 <= p < |body| ensures Body(s', d').code[p] == DemotedInstr(body, ts + fs, p) {
      assert s'.code[p] == DemotedInstr(s1.code, ts + fs, p);
    }
    forall p | |body| <= p < |s1.code| ensures s'.code[p] == s1.code[p] {
      assert s'.code[p] == DemotedInstr(s1.code, ts + fs, p);
    }
    forall p | 0 <= p < |c.origin.code| ensures s'.code[p] == s1.code[p] {
      assert s'.code[p] == DemotedInstr(s1.code, ts + fs, p);
    }
    ExtendsTransitive(c.origin, s1, s1);
    NotFinishedCtx(c, c', s1, s', d');
    forall r: Regs ensures MainValue(c.w, s', d', r) == Bool(!Truthy(MainValue(c.w, s, d, r))) {
      MainValueKept(c.w, s1, s', d', r);
    }
    NotDenotes(c, c', s, s', d, d', ts, fs);
  }

  lemma NotFinishedCtx(c: Ctx, c': Ctx, s1: Frag, s': Frag, d': ExpDesc)
    requires c' == c.(want := c'.want) && CtxShape(c, s1) && MainShape(c, s1, d')
    requires s' == s1.(code := s'.code) && |s'.code| == |s1.code|
    requires forall p :: 0 <= p < |c.origin.code| ==> s'.code[p] == s1.code[p]
    requires forall p :: |Body(s1, d').code| <= p < |s1.code| ==> s'.code[p] == s1.code[p]
    ensures CtxShape(c', s') && MainShape(c', s', d')
  {
    forall p | 0 <= p < |c.origin.code|
      ensures s'.code[p] == c.origin.code[p] ||
        (p == |c.origin.code| - 1 && c.origin.code[p].LoadNil? && s'.code[p].LoadNil?)
    {
      assert s'.code[p] == s1.code[p];
    }
  }

  /** An operand moved to a register after the other one was settled. */
  lemma LateSettled(o: Operands, o': Operands, s: Frag, s': Frag, fr: nat, second: bool, nactvar: nat)
    requires Pair(o.c, s, o.da, o.db, o.a, o.b) && o.c.fr <= fr
    requires BelowFree(if second then o.da else o.db, fr)
    requires o' == if second then o.(db := o'.db) else o.(da := o'.da)
    requires var d, d' := if second then o.db else o.da, if second then o'.db else o'.da;
             Settled(d') && Denotes(CtxLate(o.c.w, s, o.c.base, o.c.stops, fr, d), s', d', {}, {})
    ensures Pair(o.c, s', o'.da, o'.db, o.a, o.b)
  {
    if second {
      PairSwap(o.c, s, o.da, o.db, o.a, o.b);
      PairLate(o.c, s, s', fr, o.db, o'.db, o.da, o.b, o.a);
      PairSwap(o.c, s', o'.db, o.da, o.b, o.a);
    } else {
      PairLate(o.c, s, s', fr, o.da, o'.da, o.db, o.a, o.b);
    }
  }

  lemma ConstantSettled(o: Operands, o': Operands, s: Frag, s': Frag, second: bool)
    requires Pair(o.c, s, o.da, o.db, o.a, o.b) && s' == s.(k := s'.k) && s.k <= s'.k
    requires o' == if second then o.(db := o'.db) else o.(da := o'.da)
    requires var d, d' := if second then o.db else o.da, if second then o'.db else o'.da;
             IsConst(d) && d'.k.VK? && d' == d.(k := d'.k) &&
             (if d.k.VK? then d' == d else d'.k.idx < |s'.k| && s'.k[d'.k.idx] == ConstValue(d))
    ensures Pair(o.c, s', o'.da, o'.db, o.a, o.b)
  {
    if second {
      PairSwap(o.c, s, o.da, o.db, o.a, o.b);
      PairMoreConstants(o.c, s, s', o.db, o'.db, o.da, o.b, o.a);
      PairSwap(o.c, s', o'.db, o.da, o.b, o.a);
    } else {
      PairMoreConstants(o.c, s, s', o.da, o'.da, o.db, o.a, o.b);
    }
  }

  /** Equality with a constant is raw and symmetric, as constants are never objects. */
  lemma EqualityTests(o: Operands, s: Frag, test: Instr, isEq: bool, swapped: bool)
    requires forall i :: 0 <= i < |s.k| ==> !s.k[i].Obj?
    requires MainIndex(s, o.da) && MainIndex(s, o.db)
    requires var x1, x2 := if swapped then o.db else o.da, if swapped then o.da else o.db;
             && x1.k.VNonReloc? && (x2.k.VNonReloc? || (x2.k.VK? && x2.k.idx <= MAXINDEXRK))
             && test == (if x2.k.VK? then EqK(x1.k.reg, x2.k.idx, isEq) else Eq(x1.k.reg, x2.k.reg, isEq))
    ensures Tests(o.c.w, s, o.da, o.db, test, if isEq then OpEq else OpNe, swapped)
  {
  }

  lemma ConstDenotes(c: Ctx, s: Frag, d: ExpDesc, d': ExpDesc, ts: set<nat>, fs: set<nat>)
    requires Denotes(c, s, d, ts, fs) && IsConst(d)
    requires d' == d || (d'.k.VK? && !d.k.VK? && d'.k.idx < |s.k| && s.k[d'.k.idx] == ConstValue(d))
    ensures Denotes(c, s, d', ts, fs)
  {
    forall r: Regs ensures MatchAt(c, s, d', ts, fs, r) {
      assert MatchAt(c, s, d, ts, fs, r);
    }
  }

  /** Linking the first operand's exits behind the second one's changes no meaning. */
  lemma JoinedLists(c: Ctx, s: Frag, s': Frag, d: ExpDesc, d': ExpDesc, ls: seq<nat>, js: seq<nat>,
                    other: int, os: seq<nat>, b: bool)
    requires Denotes(c, s, d, if b then Elems(ls) + Elems(js) else Elems(os), if b then
      Elems(os) else Elems(ls) + Elems(js))
    requires s' == s.(code := s'.code) && OnlyLinks(s.code, s'.code, Elems(ls)) && d'.k == d.k
    requires List(s.code, other, os)
    requires |s.code| > 0 ==> !IsTest(s.code[|s.code| - 1])
    ensures Denotes(c, s', d', if b then Elems(ls + js) else Elems(os), if b then Elems(os) else Elems(ls + js))
    ensures List(s'.code, other, os)
    ensures |s'.code| > 0 ==> !IsTest(s'.code[|s'.code| - 1])
  {
    assert Elems(ls + js) == Elems(ls) + Elems(js);
    var ts := if b then Elems(ls + js) else Elems(os);
    var fs := if b then Elems(os) else Elems(ls + js);
    DenotesRelinked(c, s, s', d, ts, fs);
    DenotesSameKind(c, s', d, d', ts, fs);
    LinksKeepList(s.code, s'.code, Elems(ls), other, os);
    if |s.code| > 0 { assert s'.code[|s.code| - 1] == s'.code[|s.code| - 1]; }
  }
}
