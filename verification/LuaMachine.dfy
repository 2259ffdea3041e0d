/**
 The slice of the Lua 5.4 virtual machine that expression code runs on: the
 load, move, `not`, test, comparison and jump instructions, executed over a
 fixed set of registers.

 `Step` is one turn of the interpreter loop.  `Run` follows the same
 instructions from a position to the end of a piece of code, but stops at jumps
 whose destination is still unknown ("pending" jumps, threaded into patch lists
 by the code generator).  `RunIsExecution` ties the two together.
 */
module LuaMachine {

  /** `NO_JUMP` in a jump's offset marks the end of a patch list. */
  const NO_JUMP := -1
  /** An invalid register that still fits in 8 bits. */
  const NO_REG := 255
  /** Maximum number of registers in a Lua function. */
  const MAXREGS := 255

  datatype Value = Nil | Bool(b: bool) | Int(i: int) | Str(s: string) | Obj(id: nat)

  type Regs = r: seq<Value> | |r| == MAXREGS witness seq(MAXREGS, _ => Nil)

  /** What the code generator cannot know: the upvalues, and the meaning of the
      ordering operators and of `__eq` on objects. */
  datatype World = World(up: seq<Value>, lt: (Value, Value) -> bool, le: (Value, Value) -> bool,
                         eqtm: (nat, nat) -> bool)

  /** What fits in the fields of an instruction of 32 bits. */
  type Arg = a: nat | a < 256
  type ArgsBx = i: int | -65535 <= i <= 65536
  type ArgsC = i: int | -127 <= i <= 128

  datatype Instr =
    | Move(a: Arg, b: Arg)
    | LoadI(a: Arg, i: ArgsBx)
    | LoadK(a: Arg, bx: nat)
    | LoadFalse(a: Arg)
    | LFalseSkip(a: Arg)
    | LoadTrue(a: Arg)
    | LoadNil(a: Arg, more: nat)
    | GetUpval(a: Arg, b: Arg)
    | Not(a: Arg, b: Arg)
    | Jmp(sj: int)
    | Test(a: Arg, kbit: bool)
    | TestSet(a: Arg, b: Arg, kbit: bool)
    | Eq(a: Arg, b: Arg, kbit: bool)
    | Lt(a: Arg, b: Arg, kbit: bool)
    | Le(a: Arg, b: Arg, kbit: bool)
    | EqK(a: Arg, b: Arg, kbit: bool)
    | EqI(a: Arg, im: ArgsC, kbit: bool)
    | LtI(a: Arg, im: ArgsC, kbit: bool)
    | LeI(a: Arg, im: ArgsC, kbit: bool)
    | GtI(a: Arg, im: ArgsC, kbit: bool)
    | GeI(a: Arg, im: ArgsC, kbit: bool)
    | Return(a: Arg, b: Arg, c: nat, kbit: bool)
    | Return0
    | Return1(a: Arg)
    | TailCall(a: Arg, b: Arg, c: nat, kbit: bool)
    | Other(op: nat)

  /** Instructions that are always followed by the jump they control. */
  predicate IsTest(i: Instr) {
    i.Test? || i.TestSet? || IsComparison(i)
  }

  predicate IsComparison(i: Instr) {
    i.Eq? || i.Lt? || i.Le? || i.EqK? || i.EqI? || i.LtI? || i.LeI? || i.GtI? || i.GeI?
  }

  /** Only nil and false count as false. */
  predicate Truthy(v: Value) {
    v != Nil && v != Bool(false)
  }

  function Get(r: Regs, a: nat): Value {
    if a < MAXREGS then r[a] else Nil
  }

  function Put(r: Regs, a: nat, v: Value): Regs {
    if a < MAXREGS then r[a := v] else r
  }

  function PutNils(r: Regs, from: nat, n: nat): Regs
    decreases n
  {
    if n == 0 then r else PutNils(Put(r, from, Nil), from + 1, n - 1)
  }

  predicate ValueEq(w: World, x: Value, y: Value) {
    x == y || (x.Obj? && y.Obj? && w.eqtm(x.id, y.id))
  }

  /** Straight-line instructions: those that only write registers. */
  predicate IsLoad(k: seq<Value>, up: seq<Value>, i: Instr) {
    match i
    case Move(_, _) => true
    case LoadI(_, _) => true
    case LoadK(_, bx) => bx < |k|
    case LoadFalse(_) => true
    case LoadTrue(_) => true
    case LoadNil(_, _) => true
    case GetUpval(_, b) => b < |up|
    case Not(_, _) => true
    case _ => false
  }

  function Effect(w: World, k: seq<Value>, i: Instr, r: Regs): Regs {
    match i
    case Move(a, b) => Put(r, a, Get(r, b))
    case LoadI(a, n) => Put(r, a, Int(n))
    case LoadK(a, bx) => if bx < |k| then Put(r, a, k[bx]) else r
    case LoadFalse(a) => Put(r, a, Bool(false))
    case LoadTrue(a) => Put(r, a, Bool(true))
    case LoadNil(a, b) => PutNils(r, a, b + 1)
    case GetUpval(a, b) => if b < |w.up| then Put(r, a, w.up[b]) else r
    case Not(a, b) => Put(r, a, Bool(!Truthy(Get(r, b))))
    case TestSet(a, b, _) => Put(r, a, Get(r, b))
    case LFalseSkip(a) => Put(r, a, Bool(false))
    case _ => r
  }

  /** The condition a test instruction evaluates. */
  predicate Condition(w: World, k: seq<Value>, i: Instr, r: Regs)
    requires IsTest(i)
  {
    match i
    case Test(a, _) => Truthy(Get(r, a))
    case TestSet(_, b, _) => Truthy(Get(r, b))
    case Eq(a, b, _) => ValueEq(w, Get(r, a), Get(r, b))
    case Lt(a, b, _) => w.lt(Get(r, a), Get(r, b))
    case Le(a, b, _) => w.le(Get(r, a), Get(r, b))
    case EqK(a, b, _) => b < |k| && Get(r, a) == k[b]
    case EqI(a, im, _) => Get(r, a) == Int(im)
    case LtI(a, im, _) => w.lt(Get(r, a), Int(im))
    case LeI(a, im, _) => w.le(Get(r, a), Int(im))
    case GtI(a, im, _) => w.lt(Int(im), Get(r, a))
    case GeI(a, im, _) => w.le(Int(im), Get(r, a))
  }

  /** A test lets its jump happen when the condition equals its `k` bit. */
  predicate Taken(w: World, k: seq<Value>, i: Instr, r: Regs)
    requires IsTest(i)
  {
    Condition(w, k, i, r) == i.kbit
  }

  predicate KnownTest(k: seq<Value>, i: Instr) {
    IsTest(i) && (i.EqK? ==> i.b < |k|)
  }

  /** One turn of the interpreter loop; a test executes the jump after it. */
  datatype Config = Running(pc: int, r: Regs) | Wrong

  function Step(w: World, k: seq<Value>, code: seq<Instr>, c: Config): Config {
    if c.Wrong? || !(0 <= c.pc < |code|) then Wrong else
    var i := code[c.pc];
    if IsLoad(k, w.up, i) then Running(c.pc + 1, Effect(w, k, i, c.r))
    else if i.LFalseSkip? then Running(c.pc + 2, Effect(w, k, i, c.r))
    else if i.Jmp? then Running(c.pc + 1 + i.sj, c.r)
    else if KnownTest(k, i) then
      if !Taken(w, k, i, c.r) then Running(c.pc + 2, c.r)
      else if c.pc + 1 < |code| && code[c.pc + 1].Jmp? then
        Running(c.pc + 2 + code[c.pc + 1].sj, Effect(w, k, i, c.r))
      else Wrong
    else Wrong
  }

  function Steps(w: World, k: seq<Value>, code: seq<Instr>, n: nat, c: Config): Config
    decreases n
  {
    if n == 0 then c else Steps(w, k, code, n - 1, Step(w, k, code, c))
  }

  /** How a run over a piece of code ends: past its last instruction (`jumped`
      tells whether a jump or skip landed there), at a pending jump, or not in
      any of the ways the code generator intends. */
  datatype Outcome = Fall(regs: Regs, jumped: bool) | Stop(at: nat, regs: Regs) | Stuck

  function Run(w: World, k: seq<Value>, code: seq<Instr>, stops: set<nat>,
               pc: nat, jumped: bool, r: Regs): Outcome
    decreases |code| - pc
  {
    if pc > |code| then Stuck
    else if pc == |code| then Fall(r, jumped)
    else
      var i := code[pc];
      if IsLoad(k, w.up, i) then Run(w, k, code, stops, pc + 1, false, Effect(w, k, i, r))
      else if i.LFalseSkip? then Run(w, k, code, stops, pc + 2, true, Effect(w, k, i, r))
      else if i.Jmp? then
        if pc > 0 && IsTest(code[pc - 1]) then Stuck else RunJump(w, k, code, stops, pc, r)
      else if KnownTest(k, i) then
        if !(pc + 1 < |code| && code[pc + 1].Jmp?) then Stuck
        else if !Taken(w, k, i, r) then Run(w, k, code, stops, pc + 2, false, r)
        else RunJump(w, k, code, stops, pc + 1, Effect(w, k, i, r))
      else Stuck
  }

  function RunJump(w: World, k: seq<Value>, code: seq<Instr>, stops: set<nat>, at: nat, r: Regs): Outcome
    requires at < |code| && code[at].Jmp?
    decreases |code| - at, 0
  {
    if at in stops then Stop(at, r)
    else
      var target := at + 1 + code[at].sj;
      if at < target <= |code| then Run(w, k, code, stops, target, true, r) else Stuck
  }

  // ---------- Running and executing are the same ----------

  lemma StepsCompose(w: World, k: seq<Value>, code: seq<Instr>, m: nat, n: nat, c: Config)
    ensures Steps(w, k, code, m + n, c) == Steps(w, k, code, n, Steps(w, k, code, m, c))
  {
    if m > 0 {
      StepsCompose(w, k, code, m - 1, n, Step(w, k, code, c));
    }
  }

  /** A run with no pending jump left that falls off the end is an execution of
      the interpreter that reaches exactly the end with those registers. */
  lemma {:induction false} RunIsExecution(w: World, k: seq<Value>, code: seq<Instr>, pc: nat, jumped: bool, r: Regs)
    returns (n: nat)
    requires Run(w, k, code, {}, pc, jumped, r).Fall?
    ensures Steps(w, k, code, n, Running(pc, r)) == Running(|code|, Run(w, k, code, {}, pc, jumped, r).regs)
    decreases |code| - pc
  {
    if pc == |code| {
      n := 0;
    } else {
      var i := code[pc];
      var m;
      if IsLoad(k, w.up, i) {
        m := RunIsExecution(w, k, code, pc + 1, false, Effect(w, k, i, r));
      } else if i.LFalseSkip? {
        m := RunIsExecution(w, k, code, pc + 2, true, Effect(w, k, i, r));
      } else if i.Jmp? {
        m := RunIsExecution(w, k, code, pc + 1 + i.sj, true, r);
      } else if !Taken(w, k, i, r) {
        m := RunIsExecution(w, k, code, pc + 2, false, r);
      } else {
        m := RunIsExecution(w, k, code, pc + 2 + code[pc + 1].sj, true, Effect(w, k, i, r));
      }
      n := m + 1;
    }
  }

  // ---------- How editing code changes its runs ----------

  /** Appending instructions lets runs that fell off the end continue, and
      changes no run that stopped earlier. */
  lemma {:induction false} RunAppend(w: World, k: seq<Value>, code: seq<Instr>, tail: seq<Instr>, stops: set<nat>,
                  pc: nat, jumped: bool, r: Regs)
    requires pc <= |code|
    ensures var out := Run(w, k, code, stops, pc, jumped, r);
            var out' := Run(w, k, code + tail, stops, pc, jumped, r);
            && (out.Stop? ==> out' == out)
            && (out.Fall? ==> out' == Run(w, k, code + tail, stops, |code|, out.jumped, out.regs))
    decreases |code| - pc
  {
    if pc < |code| {
      var i := code[pc];
      if IsLoad(k, w.up, i) {
        RunAppend(w, k, code, tail, stops, pc + 1, false, Effect(w, k, i, r));
      } else if i.LFalseSkip? {
        if pc + 2 <= |code| { RunAppend(w, k, code, tail, stops, pc + 2, true, Effect(w, k, i, r)); }
      } else if i.Jmp? {
        if pc !in stops && pc < pc + 1 + i.sj <= |code| {
          RunAppend(w, k, code, tail, stops, pc + 1 + i.sj, true, r);
        }
      } else if KnownTest(k, i) && pc + 1 < |code| && code[pc + 1].Jmp? {
        if !Taken(w, k, i, r) {
          RunAppend(w, k, code, tail, stops, pc + 2, false, r);
        } else if pc + 1 !in stops && pc + 1 < pc + 2 + code[pc + 1].sj <= |code| {
          RunAppend(w, k, code, tail, stops, pc + 2 + code[pc + 1].sj, true, Effect(w, k, i, r));
        }
      }
    }
  }

  /** Pending jumps added beyond the code do not affect its runs. */
  lemma {:induction false} RunExtraStops(w: World, k: seq<Value>, code: seq<Instr>, stops: set<nat>, extra: set<nat>,
                  pc: nat, jumped: bool, r: Regs)
    requires forall x :: x in extra ==> x >= |code|
    ensures Run(w, k, code, stops + extra, pc, jumped, r) == Run(w, k, code, stops, pc, jumped, r)
    decreases |code| - pc
  {
    if pc < |code| {
      var i := code[pc];
      if IsLoad(k, w.up, i) {
        RunExtraStops(w, k, code, stops, extra, pc + 1, false, Effect(w, k, i, r));
      } else if i.LFalseSkip? {
        RunExtraStops(w, k, code, stops, extra, pc + 2, true, Effect(w, k, i, r));
      } else if i.Jmp? {
        if pc !in stops && pc < pc + 1 + i.sj <= |code| {
          RunExtraStops(w, k, code, stops, extra, pc + 1 + i.sj, true, r);
        }
      } else if KnownTest(k, i) && pc + 1 < |code| && code[pc + 1].Jmp? {
        if !Taken(w, k, i, r) {
          RunExtraStops(w, k, code, stops, extra, pc + 2, false, r);
        } else if pc + 1 !in stops && pc + 1 < pc + 2 + code[pc + 1].sj <= |code| {
          RunExtraStops(w, k, code, stops, extra, pc + 2 + code[pc + 1].sj, true, Effect(w, k, i, r));
        }
      }
    }
  }

  /** New constants do not disturb code that already runs. */
  lemma {:induction false} RunMoreConstants(w: World, k: seq<Value>, k': seq<Value>, code: seq<Instr>, stops: set<nat>,
                  pc: nat, jumped: bool, r: Regs)
    requires k <= k'
    ensures var out := Run(w, k, code, stops, pc, jumped, r);
            !out.Stuck? ==> Run(w, k', code, stops, pc, jumped, r) == out
    decreases |code| - pc
  {
    if pc < |code| {
      var i := code[pc];
      if IsLoad(k, w.up, i) {
        RunMoreConstants(w, k, k', code, stops, pc + 1, false, Effect(w, k, i, r));
      } else if i.LFalseSkip? {
        RunMoreConstants(w, k, k', code, stops, pc + 2, true, Effect(w, k, i, r));
      } else if i.Jmp? {
        if pc !in stops && pc < pc + 1 + i.sj <= |code| {
          RunMoreConstants(w, k, k', code, stops, pc + 1 + i.sj, true, r);
        }
      } else if KnownTest(k, i) && pc + 1 < |code| && code[pc + 1].Jmp? {
        if !Taken(w, k, i, r) {
          RunMoreConstants(w, k, k', code, stops, pc + 2, false, r);
        } else if pc + 1 !in stops && pc + 1 < pc + 2 + code[pc + 1].sj <= |code| {
          RunMoreConstants(w, k, k', code, stops, pc + 2 + code[pc + 1].sj, true, Effect(w, k, i, r));
        }
      }
    }
  }

  /** The instruction in front of a jump that decides it, if it also produces a value. */
  predicate Producer(code: seq<Instr>, at: nat) {
    1 <= at <= |code| && code[at - 1].TestSet?
  }

  /** `code'` differs from `code` only where pending jumps are linked, and in
      value-producing tests demoted to plain tests while they have no register. */
  ghost predicate Relinked(code: seq<Instr>, code': seq<Instr>, stops: set<nat>) {
    && |code'| == |code|
    && forall p :: 0 <= p < |code| ==>
         || code'[p] == code[p]
         || (p in stops && code[p].Jmp? && code'[p].Jmp?)
         || (code[p].TestSet? && code[p].a == NO_REG && code'[p] == Test(code[p].b, code[p].kbit))
  }

  lemma {:induction false} RunRelinked(w: World, k: seq<Value>, code: seq<Instr>, code': seq<Instr>, stops: set<nat>,
                  pc: nat, jumped: bool, r: Regs)
    requires Relinked(code, code', stops)
    ensures Run(w, k, code', stops, pc, jumped, r) == Run(w, k, code, stops, pc, jumped, r)
    decreases |code| - pc
  {
    hide ValueEq, PutNils, Get, Truthy;
    if pc < |code| {
      var i := code[pc];
      if IsLoad(k, w.up, i) {
        RunRelinked(w, k, code, code', stops, pc + 1, false, Effect(w, k, i, r));
      } else if i.LFalseSkip? {
        RunRelinked(w, k, code, code', stops, pc + 2, true, Effect(w, k, i, r));
      } else if i.Jmp? {
        if pc !in stops && pc < pc + 1 + i.sj <= |code| {
          RunRelinked(w, k, code, code', stops, pc + 1 + i.sj, true, r);
        }
      } else if KnownTest(k, i) && pc + 1 < |code| && code[pc + 1].Jmp? {
        if !Taken(w, k, i, r) {
          RunRelinked(w, k, code, code', stops, pc + 2, false, r);
        } else if pc + 1 !in stops && pc + 1 < pc + 2 + code[pc + 1].sj <= |code| {
          RunRelinked(w, k, code, code', stops, pc + 2 + code[pc + 1].sj, true, Effect(w, k, i, r));
        }
      }
    }
  }

  /** What `patchlistaux` leaves behind: every jump of the list gets its final
      destination, and every value-producing test its register (or becomes a
      plain test, if there is no register or the value is already in it). */
  ghost predicate Patched(code: seq<Instr>, code': seq<Instr>, list: set<nat>, vtarget: int, reg: Arg, dtarget: int) {
    && |code'| == |code|
    && forall p :: 0 <= p < |code| ==> code'[p] == PatchedInstr(code, list, vtarget, reg, dtarget, p)
  }

  ghost function PatchedInstr(code: seq<Instr>, list: set<nat>, vtarget: int, reg: Arg, dtarget: int, p: nat): Instr
    requires p < |code|
  {
    if p in list then Jmp((if Producer(code, p) then vtarget else dtarget) - (p + 1))
    else if p + 1 in list && code[p].TestSet? then PatchedTest(code[p], reg)
    else code[p]
  }

  function PatchedTest(i: Instr, reg: Arg): Instr
    requires i.TestSet?
  {
    if reg != NO_REG && reg != i.b then TestSet(reg, i.b, i.kbit) else Test(i.b, i.kbit)
  }

  /** Registers after a patched jump is taken. */
  function Produced(code: seq<Instr>, at: nat, reg: nat, r: Regs): Regs {
    if Producer(code, at) && reg != NO_REG then Put(r, reg, Get(r, code[at - 1].b)) else r
  }

  ghost predicate Patchable(code: seq<Instr>, list: set<nat>, vtarget: int, dtarget: int) {
    forall j :: j in list ==>
      && j < |code| && code[j].Jmp?
      && (Producer(code, j) ==> code[j - 1].a == NO_REG)
      && j < (if Producer(code, j) then vtarget else dtarget) <= |code|
  }

  /** Patching keeps what a test decides, and gives it the effect `Produced` says. */
  lemma PatchedTestStep(w: World, k: seq<Value>, code: seq<Instr>, code': seq<Instr>, list: set<nat>,
                        vtarget: int, reg: Arg, dtarget: int, pc: nat, r: Regs)
    requires Patched(code, code', list, vtarget, reg, dtarget) && Patchable(code, list, vtarget, dtarget)
    requires pc < |code| && KnownTest(k, code[pc])
    ensures KnownTest(k, code'[pc]) && Taken(w, k, code'[pc], r) == Taken(w, k, code[pc], r)
    ensures pc + 1 !in list ==> code'[pc] == code[pc]
    ensures pc + 1 in list ==> Effect(w, k, code'[pc], r) == Produced(code, pc + 1, reg, Effect(w, k, code[pc], r))
  {
    assert pc !in list;
    if pc + 1 in list && code[pc].TestSet? {
      assert Producer(code, pc + 1);
      assert Effect(w, k, code[pc], r) == r;
      if reg == code[pc].b {
        assert Put(r, reg, Get(r, reg)) == r;
      }
    }
  }

  // One step of a run at each kind of instruction.

  lemma RunAtJump(w: World, k: seq<Value>, code: seq<Instr>, stops: set<nat>, pc: nat, jumped: bool, r: Regs)
    requires pc < |code| && code[pc].Jmp?
    ensures Run(w, k, code, stops, pc, jumped, r) == if pc > 0 &&
      IsTest(code[pc - 1]) then Stuck else RunJump(w, k, code, stops, pc, r)
  {
  }

  lemma RunAtTest(w: World, k: seq<Value>, code: seq<Instr>, stops: set<nat>, pc: nat, jumped: bool, r: Regs)
    requires pc < |code| && KnownTest(k, code[pc])
    ensures !(pc + 1 < |code| && code[pc + 1].Jmp?) ==> Run(w, k, code, stops, pc, jumped, r) == Stuck
    ensures pc + 1 < |code| && code[pc + 1].Jmp? && !Taken(w, k, code[pc], r) ==>
      Run(w, k, code, stops, pc, jumped, r) == Run(w, k, code, stops, pc + 2, false, r)
    ensures pc + 1 < |code| && code[pc + 1].Jmp? && Taken(w, k, code[pc], r) ==>
      Run(w, k, code, stops, pc, jumped, r) == RunJump(w, k, code, stops, pc + 1, Effect(w, k, code[pc], r))
  {
  }

  /** How the end of a run changes when the jumps of `list` are patched. */
  ghost predicate PatchedEnd(w: World, k: seq<Value>, code: seq<Instr>, code': seq<Instr>, stops: set<nat>,
                             list: set<nat>, vtarget: int, reg: Arg, dtarget: int, out: Outcome, out': Outcome) {
    && (out.Fall? || (out.Stop? && out.at !in list) ==> out' == out)
    && (out.Stop? && out.at in list ==> 0 <= (if Producer(code, out.at) then vtarget else dtarget))
    && (out.Stop? && out.at in list ==>
          out' == Run(w, k, code', stops - list, if Producer(code, out.at) then vtarget else dtarget, true,
                      Produced(code, out.at, reg, out.regs)))
  }

  lemma {:induction false} RunPatched(w: World, k: seq<Value>, code: seq<Instr>, code': seq<Instr>, stops: set<nat>,
                  list: set<nat>, vtarget: int, reg: Arg, dtarget: int, pc: nat, jumped: bool, r: Regs)
    requires Patched(code, code', list, vtarget, reg, dtarget) && Patchable(code, list, vtarget, dtarget)
    requires list <= stops
    ensures PatchedEnd(w, k, code, code', stops, list, vtarget, reg, dtarget,
                       Run(w, k, code, stops, pc, jumped, r), Run(w, k, code', stops - list, pc, jumped, r))
    decreases |code| - pc, 2
  {
    if pc < |code| {
      var i := code[pc];
      if IsLoad(k, w.up, i) {
        RunPatched(w, k, code, code', stops, list, vtarget, reg, dtarget, pc + 1, false, Effect(w, k, i, r));
      } else if i.LFalseSkip? {
        RunPatched(w, k, code, code', stops, list, vtarget, reg, dtarget, pc + 2, true, Effect(w, k, i, r));
      } else if i.Jmp? {
        RunPatchedJump(w, k, code, code', stops, list, vtarget, reg, dtarget, pc, r);
      } else if KnownTest(k, i) && pc + 1 < |code| && code[pc + 1].Jmp? {
        RunPatchedTest(w, k, code, code', stops, list, vtarget, reg, dtarget, pc, r);
      }
    }
  }

  /** A run that takes the jump at `at`, patched or not. */
  lemma {:induction false} RunPatchedTaken(w: World, k: seq<Value>, code: seq<Instr>, code': seq<Instr>,
      stops: set<nat>,
                  list: set<nat>, vtarget: int, reg: Arg, dtarget: int, at: nat, r: Regs)
    requires Patched(code, code', list, vtarget, reg, dtarget) && Patchable(code, list, vtarget, dtarget)
    requires list <= stops && at < |code| && code[at].Jmp?
    ensures at < |code'| && code'[at].Jmp?
    ensures var out := RunJump(w, k, code, stops, at, r);
            var out' := RunJump(w, k, code', stops - list, at, if at in list then Produced(code, at, reg, r) else r);
            PatchedEnd(w, k, code, code', stops, list, vtarget, reg, dtarget, out, out')
    decreases |code| - at, 0
  {
    hide Run, Produced, Producer;
    if at !in stops && at < at + 1 + code[at].sj <= |code| {
      RunPatched(w, k, code, code', stops, list, vtarget, reg, dtarget, at + 1 + code[at].sj, true, r);
    }
  }

  lemma {:induction false} RunPatchedJump(w: World, k: seq<Value>, code: seq<Instr>, code': seq<Instr>, stops: set<nat>,
                  list: set<nat>, vtarget: int, reg: Arg, dtarget: int, pc: nat, r: Regs)
    requires Patched(code, code', list, vtarget, reg, dtarget) && Patchable(code, list, vtarget, dtarget)
    requires list <= stops && pc < |code| && code[pc].Jmp?
    ensures PatchedEnd(w, k, code, code', stops, list, vtarget, reg, dtarget,
                       Run(w, k, code, stops, pc, false, r), Run(w, k, code', stops - list, pc, false, r))
    decreases |code| - pc, 1
  {
    hide Run, RunJump;
    RunPatchedTaken(w, k, code, code', stops, list, vtarget, reg, dtarget, pc, r);
    RunAtJump(w, k, code, stops, pc, false, r);
    RunAtJump(w, k, code', stops - list, pc, false, r);
    if pc > 0 { assert IsTest(code'[pc - 1]) == IsTest(code[pc - 1]); }
    assert pc == 0 || !IsTest(code[pc - 1]) ==> Produced(code, pc, reg, r) == r;
  }

  lemma {:induction false} RunPatchedTest(w: World, k: seq<Value>, code: seq<Instr>, code': seq<Instr>, stops: set<nat>,
                  list: set<nat>, vtarget: int, reg: Arg, dtarget: int, pc: nat, r: Regs)
    requires Patched(code, code', list, vtarget, reg, dtarget) && Patchable(code, list, vtarget, dtarget)
    requires list <= stops && pc + 1 < |code| && KnownTest(k, code[pc]) && code[pc + 1].Jmp?
    ensures PatchedEnd(w, k, code, code', stops, list, vtarget, reg, dtarget,
                       Run(w, k, code, stops, pc, false, r), Run(w, k, code', stops - list, pc, false, r))
    decreases |code| - pc, 0
  {
    hide Run, RunJump, Taken, Effect, Produced, Producer, PatchedInstr;
    PatchedTestStep(w, k, code, code', list, vtarget, reg, dtarget, pc, r);
    RunPatchedTaken(w, k, code, code', stops, list, vtarget, reg, dtarget, pc + 1, Effect(w, k, code[pc], r));
    RunAtTest(w, k, code, stops, pc, false, r);
    RunAtTest(w, k, code', stops - list, pc, false, r);
    if !Taken(w, k, code[pc], r) {
      RunPatched(w, k, code, code', stops, list, vtarget, reg, dtarget, pc + 2, false, r);
    }
  }

  // ---------- Widening a LOADNIL ----------

  lemma {:induction false} PutNilsAt(r: Regs, from: nat, n: nat, i: nat)
    requires i < MAXREGS
    ensures PutNils(r, from, n)[i] == if from <= i < from + n then Nil else r[i]
    decreases n
  {
    if n > 0 {
      PutNilsAt(Put(r, from, Nil), from + 1, n - 1, i);
    }
  }

  /** Two overlapping or adjacent nil ranges amount to their union. */
  lemma PutNilsUnion(r: Regs, a: nat, n: nat, a': nat, n': nat, from: nat, m: nat)
    requires n > 0 && n' > 0
    requires a <= a' <= a + n || a' <= a <= a' + n'
    requires from == (if a < a' then a else a')
    requires from + m == (if a + n > a' + n' then a + n else a' + n')
    ensures PutNils(PutNils(r, a, n), a', n') == PutNils(r, from, m)
  {
    forall i: nat | i < MAXREGS
      ensures PutNils(PutNils(r, a, n), a', n')[i] == PutNils(r, from, m)[i]
    {
      PutNilsAt(r, a, n, i);
      PutNilsAt(PutNils(r, a, n), a', n', i);
      PutNilsAt(r, from, m, i);
    }
  }

  /** Executing `wide` is executing `narrow` and then setting `n` registers from `from` to nil. */
  ghost predicate Widens(w: World, k: seq<Value>, narrow: Instr, wide: Instr, from: nat, n: nat) {
    && narrow.LoadNil? && wide.LoadNil?
    && forall x: Regs :: Effect(w, k, wide, x) == PutNils(Effect(w, k, narrow, x), from, n)
  }

  /** A run that gets stuck in a piece of code gets past one more load only by jumping over it. */
  lemma {:induction false} RunOverLoad(w: World, k: seq<Value>, code: seq<Instr>, load: Instr, stops: set<nat>,
                  pc: nat, jumped: bool, r: Regs)
    requires pc <= |code| && load.LoadNil?
    requires Run(w, k, code, stops, pc, jumped, r).Stuck?
    ensures var out := Run(w, k, code + [load], stops, pc, jumped, r);
            out.Stuck? || (out.Fall? && out.jumped)
    decreases |code| - pc, 1
  {
    var i := code[pc];
    if IsLoad(k, w.up, i) {
      RunOverLoad(w, k, code, load, stops, pc + 1, false, Effect(w, k, i, r));
    } else if i.LFalseSkip? {
      if pc + 2 <= |code| { RunOverLoad(w, k, code, load, stops, pc + 2, true, Effect(w, k, i, r)); }
    } else if i.Jmp? {
      if pc > 0 && IsTest(code[pc - 1]) {
        assert (code + [load])[pc - 1] == code[pc - 1];
      } else {
        JumpOverLoad(w, k, code, load, stops, pc, r);
      }
    } else if KnownTest(k, i) && pc + 1 < |code| && code[pc + 1].Jmp? {
      if !Taken(w, k, i, r) {
        RunOverLoad(w, k, code, load, stops, pc + 2, false, r);
      } else {
        JumpOverLoad(w, k, code, load, stops, pc + 1, Effect(w, k, i, r));
      }
    }
  }

  lemma {:induction false} JumpOverLoad(w: World, k: seq<Value>, code: seq<Instr>, load: Instr, stops: set<nat>,
                  at: nat, r: Regs)
    requires at < |code| && code[at].Jmp? && load.LoadNil?
    requires RunJump(w, k, code, stops, at, r).Stuck?
    ensures var out := RunJump(w, k, code + [load], stops, at, r);
            out.Stuck? || (out.Fall? && out.jumped)
    decreases |code| - at, 0
  {
    var target := at + 1 + code[at].sj;
    if at < target <= |code| {
      RunOverLoad(w, k, code, load, stops, target, true, r);
    }
  }

  /** Widening a final LOADNIL adds the new range to every run that executed it:
      sound only for runs that did not jump past it. */
  lemma RunWidened(w: World, k: seq<Value>, code: seq<Instr>, narrow: Instr, wide: Instr, stops: set<nat>,
                   pc: nat, r: Regs, from: nat, n: nat)
    requires Widens(w, k, narrow, wide, from, n)
    ensures var out := Run(w, k, code + [narrow], stops, pc, true, r);
            var out' := Run(w, k, code + [wide], stops, pc, true, r);
            && (out.Stop? ==> out' == out)
            && (out.Fall? && !out.jumped ==> out' == Fall(PutNils(out.regs, from, n), false))
  {
    if pc <= |code| {
      RunAppend(w, k, code, [narrow], stops, pc, true, r);
      RunAppend(w, k, code, [wide], stops, pc, true, r);
      var mid := Run(w, k, code, stops, pc, true, r);
      if mid.Stuck? {
        RunOverLoad(w, k, code, narrow, stops, pc, true, r);
      } else if mid.Fall? {
        assert (code + [narrow])[|code|] == narrow && (code + [wide])[|code|] == wide;
      }
    }
  }
}
