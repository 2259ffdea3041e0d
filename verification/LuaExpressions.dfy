/**
 Expressions, their Lua meaning, and what an expression descriptor with pending
 jumps means for the code emitted so far.

 A descriptor is a main value plus two patch lists.  `Denotes` says: every run of
 the code so far either falls through with the main value equal to the
 expression's value, or waits at a jump of the "exit when true" list with a true
 value, or at one of the "exit when false" list with a false one; and whatever
 happens, no register below the first free one has changed.
 */
module LuaExpressions {
  import opened LuaMachine

  datatype CmpOp = OpEq | OpLt | OpLe | OpNe | OpGt | OpGe

  datatype Expr =
    | ENil | ETrue | EFalse
    | EInt(i: int) | EStr(s: string)
    | ELocal(reg: Arg) | EUpval(idx: Arg)
    | ENot(e: Expr)
    | EAnd(a: Expr, b: Expr) | EOr(a: Expr, b: Expr)
    | ECmp(op: CmpOp, a: Expr, b: Expr)

  /** The expression only names active locals and existing upvalues. */
  predicate Scoped(e: Expr, nactvar: nat, nup: nat) {
    match e
    case ELocal(reg) => reg < nactvar
    case EUpval(idx) => idx < nup
    case ENot(e) => Scoped(e, nactvar, nup)
    case EAnd(a, b) => Scoped(a, nactvar, nup) && Scoped(b, nactvar, nup)
    case EOr(a, b) => Scoped(a, nactvar, nup) && Scoped(b, nactvar, nup)
    case ECmp(_, a, b) => Scoped(a, nactvar, nup) && Scoped(b, nactvar, nup)
    case _ => true
  }

  function Compare(w: World, op: CmpOp, x: Value, y: Value): bool {
    match op
    case OpEq => ValueEq(w, x, y)
    case OpNe => !ValueEq(w, x, y)
    case OpLt => w.lt(x, y)
    case OpLe => w.le(x, y)
    case OpGt => w.lt(y, x)
    case OpGe => w.le(y, x)
  }

  /** Sections 3.4.4 and 3.4.5 of the Lua 5.4 Reference Manual. */
  function Eval(w: World, e: Expr, r: Regs): Value {
    match e
    case ENil => Nil
    case ETrue => Bool(true)
    case EFalse => Bool(false)
    case EInt(i) => Int(i)
    case EStr(s) => Str(s)
    case ELocal(reg) => Get(r, reg)
    case EUpval(idx) => if idx < |w.up| then w.up[idx] else Nil
    case ENot(e) => Bool(!Truthy(Eval(w, e, r)))
    case EAnd(a, b) => if Truthy(Eval(w, a, r)) then Eval(w, b, r) else Eval(w, a, r)
    case EOr(a, b) => if Truthy(Eval(w, a, r)) then Eval(w, a, r) else Eval(w, b, r)
    case ECmp(op, a, b) => Bool(Compare(w, op, Eval(w, a, r), Eval(w, b, r)))
  }

  /** Evaluation only looks at the active locals. */
  lemma {:induction false} EvalAgree(w: World, e: Expr, r: Regs, r': Regs, nactvar: nat)
    requires Scoped(e, nactvar, |w.up|)
    requires nactvar <= MAXREGS && forall i :: 0 <= i < nactvar ==> r[i] == r'[i]
    ensures Eval(w, e, r) == Eval(w, e, r')
  {
    match e
    case ENot(e) => EvalAgree(w, e, r, r', nactvar);
    case EAnd(a, b) => EvalAgree(w, a, r, r', nactvar); EvalAgree(w, b, r, r', nactvar);
    case EOr(a, b) => EvalAgree(w, a, r, r', nactvar); EvalAgree(w, b, r, r', nactvar);
    case ECmp(_, a, b) => EvalAgree(w, a, r, r', nactvar); EvalAgree(w, b, r, r', nactvar);
    case _ =>
  }

  // ---------- Descriptors ----------

  datatype Kind =
    | VNil | VTrue | VFalse
    | VK(idx: nat) | VKInt(i: int) | VKStr(s: string)
    | VNonReloc(reg: Arg) | VLocal(sidx: Arg) | VUpval(up: Arg)
    | VJmp(jpc: nat) | VReloc(ipc: nat)

  /** `t` and `f` head the patch lists of "exit when true" and "exit when false". */
  datatype ExpDesc = ExpDesc(k: Kind, t: int, f: int)

  predicate HasJumps(d: ExpDesc) { d.t != d.f }

  /** The part of the function being compiled that expression code depends on. */
  datatype Frag = Frag(code: seq<Instr>, k: seq<Value>, lasttarget: int, nactvar: nat)

  function NextJump(code: seq<Instr>, pc: nat): int
    requires pc < |code| && code[pc].Jmp?
  {
    if code[pc].sj == NO_JUMP then NO_JUMP else pc + 1 + code[pc].sj
  }

  /** `list` heads the patch list with elements `js`, threaded through the jumps themselves. */
  ghost predicate List(code: seq<Instr>, list: int, js: seq<nat>) {
    && list == HeadOf(js, 0)
    && (forall i :: 0 <= i < |js| ==> Linked(code, js, i))
    && (forall i, j :: 0 <= i < j < |js| ==> js[i] != js[j])
  }

  ghost function HeadOf(js: seq<nat>, i: nat): int {
    if i < |js| then js[i] else NO_JUMP
  }

  ghost predicate Linked(code: seq<Instr>, js: seq<nat>, i: nat)
    requires i < |js|
  {
    js[i] < |code| && code[js[i]].Jmp? && NextJump(code, js[i]) == HeadOf(js, i + 1)
  }

  ghost function Elems(js: seq<nat>): set<nat> { set j | j in js }

  /** `s1` continues `s0`: nothing already emitted changed, but for a final LOADNIL
      that may have been widened. */
  ghost predicate Extends(s0: Frag, s1: Frag) {
    && |s0.code| <= |s1.code|
    && s0.k <= s1.k
    && s0.nactvar == s1.nactvar
    && forall p :: 0 <= p < |s0.code| ==>
         s1.code[p] == s0.code[p] || (p == |s0.code| - 1 && s0.code[p].LoadNil? && s1.code[p].LoadNil?)
  }

  /** What the runs of a piece of code owe to their context: a value to produce
      (`env` being the registers the expression starts from), or an earlier stop
      to leave alone. */
  datatype Expect = Val(v: Value, env: Regs) | Early(at: nat, regs: Regs) | Any

  /** `origin` is the code before the expression, `base` where runs start, `stops`
      the jumps pending outside the expression, `fr` the first free register, `ex`
      a register the expression may overwrite although it is below `fr` (or -1). */
  datatype Ctx = Ctx(w: World, origin: Frag, base: nat, stops: set<nat>, fr: nat, ex: int, want: Regs -> Expect)

  /** No run may have jumped over a final LOADNIL that is still open to widening. */
  predicate NilSafe(code: seq<Instr>, lasttarget: int) {
    lasttarget >= |code| || |code| == 0 || !code[|code| - 1].LoadNil?
  }

  ghost function Flow(w: World, s: Frag, base: nat, stops: set<nat>, r: Regs): Outcome {
    var out := Run(w, s.k, s.code, stops, base, true, r);
    if out.Fall? && out.jumped && !NilSafe(s.code, s.lasttarget) then Stuck else out
  }

  /** What an expression `e` compiled right after the code of `s` has to deliver. */
  ghost function After(w: World, s: Frag, base: nat, stops: set<nat>, e: Expr, r: Regs): Expect {
    match Flow(w, s, base, stops, r)
    case Fall(r1, _) => Val(Eval(w, e, r1), r1)
    case Stop(j, r1) => if j in stops then Early(j, r1) else Any
    case Stuck => Any
  }

  /** The code whose runs arrive at the main value: all of it, without the
      relocatable instruction or the comparison that still stands for the value. */
  ghost function Body(s: Frag, d: ExpDesc): Frag {
    if d.k.VReloc? && |s.code| >= 1 then s.(code := s.code[..|s.code| - 1])
    else if d.k.VJmp? && |s.code| >= 2 then s.(code := s.code[..|s.code| - 2])
    else s
  }

  ghost function MainValue(w: World, s: Frag, d: ExpDesc, r: Regs): Value {
    match d.k
    case VNil => Nil
    case VTrue => Bool(true)
    case VFalse => Bool(false)
    case VK(idx) => if idx < |s.k| then s.k[idx] else Nil
    case VKInt(i) => Int(i)
    case VKStr(t) => Str(t)
    case VNonReloc(reg) => Get(r, reg)
    case VLocal(reg) => Get(r, reg)
    case VUpval(up) => if up < |w.up| then w.up[up] else Nil
    case VJmp(_) =>
      if |s.code| >= 2 && IsTest(s.code[|s.code| - 2]) then Bool(Taken(w, s.k, s.code[|s.code| - 2], r)) else Nil
    case VReloc(_) => if |s.code| >= 1 then RelocValue(w, s.code[|s.code| - 1], r) else Nil
  }

  /** The value a relocatable instruction puts in whatever register it is given. */
  ghost function RelocValue(w: World, i: Instr, r: Regs): Value {
    if i.Not? then Bool(!Truthy(Get(r, i.b)))
    else if i.GetUpval? && i.b < |w.up| then w.up[i.b]
    else Nil
  }

  ghost predicate Relocatable(w: World, i: Instr) {
    i.Not? || (i.GetUpval? && i.b < |w.up|)
  }

  ghost predicate MainShape(c: Ctx, s: Frag, d: ExpDesc) {
    match d.k
    case VK(idx) => idx < |s.k|
    case VNonReloc(reg) => reg < MAXREGS && (reg < s.nactvar || reg == c.fr || reg == c.ex)
    case VLocal(reg) => reg < s.nactvar
    case VUpval(up) => up < |c.w.up|
    case VJmp(j) =>
      && |s.code| >= 2 && j == |s.code| - 1 && s.code[j] == Jmp(NO_JUMP)
      && KnownTest(s.k, s.code[j - 1]) && IsComparison(s.code[j - 1])
    case VReloc(p) => |s.code| >= 1 && p == |s.code| - 1 && Relocatable(c.w, s.code[p])
    case _ => true
  }

  /** Jumps of this expression: emitted after its start, before its main value,
      and whatever value they produce has no register yet. */
  ghost predicate PendingAt(c: Ctx, code: seq<Instr>, j: nat) {
    && |c.origin.code| < j < |code| && code[j].Jmp?
    && (Producer(code, j) ==> code[j - 1].a == NO_REG)
  }

  ghost predicate Pending(c: Ctx, code: seq<Instr>, js: set<nat>) {
    && (forall j :: j in js ==> PendingAt(c, code, j))
    && js !! c.stops
  }

  ghost predicate CtxShape(c: Ctx, s: Frag) {
    && Extends(c.origin, s)
    && c.base <= |c.origin.code|
    && s.nactvar <= c.fr <= MAXREGS
    && (forall j :: j in c.stops ==> j < |c.origin.code| && s.code[j].Jmp?)
  }

  ghost predicate Agree(c: Ctx, r: Regs, env: Regs) {
    c.fr <= MAXREGS && forall i :: 0 <= i < c.fr && i != c.ex ==> r[i] == env[i]
  }

  /** The value `v` leaves through jump `j` of the list for truth value `b`: either
      the jump's test puts it in a register, or it is exactly the boolean `b`. */
  ghost predicate Exits(code: seq<Instr>, j: nat, r: Regs, v: Value, b: bool) {
    && Truthy(v) == b
    && (if Producer(code, j) then Get(r, code[j - 1].b) == v else v == Bool(b))
  }

  ghost predicate ExitsAt(c: Ctx, code: seq<Instr>, ts: set<nat>, fs: set<nat>, j: nat, r: Regs, v: Value, env: Regs) {
    Agree(c, r, env) && ((j in ts && Exits(code, j, r, v, true)) || (j in fs && Exits(code, j, r, v, false)))
  }

  ghost predicate MatchAt(c: Ctx, s: Frag, d: ExpDesc, ts: set<nat>, fs: set<nat>, r: Regs) {
    var out := Flow(c.w, Body(s, d), c.base, c.stops + ts + fs, r);
    match c.want(r)
    case Any => true
    case Early(j, r0) => j in c.stops && out == Stop(j, r0)
    case Val(v, env) =>
      match out
      case Stuck => false
      case Fall(r', _) => Agree(c, r', env) && MainValue(c.w, s, d, r') == v
      case Stop(j, r') => ExitsAt(c, s.code, ts, fs, j, r', v, env)
  }

  ghost predicate Denotes(c: Ctx, s: Frag, d: ExpDesc, ts: set<nat>, fs: set<nat>) {
    && CtxShape(c, s)
    && |c.origin.code| <= |Body(s, d).code|
    && MainShape(c, s, d)
    && ts !! fs
    && Pending(c, Body(s, d).code, ts) && Pending(c, Body(s, d).code, fs)
    && forall r: Regs :: MatchAt(c, s, d, ts, fs, r)
  }

  /** Code for a condition: a run falls through with the value's truth equal to
      `b` (and, when `exact`, the value equal to the boolean `b`), or has left
      through one of the pending jumps. */
  ghost predicate GoesAt(c: Ctx, s: Frag, b: bool, exact: bool, ts: set<nat>, fs: set<nat>, r: Regs) {
    var out := Flow(c.w, s, c.base, c.stops + ts + fs, r);
    match c.want(r)
    case Any => true
    case Early(j, r0) => j in c.stops && out == Stop(j, r0)
    case Val(v, env) =>
      match out
      case Stuck => false
      case Fall(r', _) => Agree(c, r', env) && Truthy(v) == b && (exact ==> v == Bool(b))
      case Stop(j, r') => ExitsAt(c, s.code, ts, fs, j, r', v, env)
  }

  ghost predicate Goes(c: Ctx, s: Frag, b: bool, exact: bool, ts: set<nat>, fs: set<nat>) {
    && CtxShape(c, s)
    && ts !! fs
    && Pending(c, s.code, ts) && Pending(c, s.code, fs)
    && forall r: Regs :: GoesAt(c, s, b, exact, ts, fs, r)
  }

  lemma ExitsApart(c: Ctx, s: Frag, d: ExpDesc, ts: set<nat>, fs: set<nat>)
    requires Denotes(c, s, d, ts, fs)
    ensures Extends(c.origin, s) && ts !! fs && ts !! c.stops && fs !! c.stops
  {
  }

  // ---------- Lists survive edits elsewhere ----------

  lemma ListKept(code: seq<Instr>, code': seq<Instr>, list: int, js: seq<nat>)
    requires List(code, list, js)
    requires |code| <= |code'| || forall j :: j in js ==> j < |code'|
    requires forall j :: j in js ==> j < |code| && j < |code'| && code'[j] == code[j]
    ensures List(code', list, js)
  {
    forall i | 0 <= i < |js| ensures Linked(code', js, i) {
      assert Linked(code, js, i);
      assert js[i] in js;
    }
  }

  lemma ExtendsTransitive(s0: Frag, s1: Frag, s2: Frag)
    requires Extends(s0, s1) && Extends(s1, s2)
    ensures Extends(s0, s2)
  {
    forall p | 0 <= p < |s0.code|
      ensures s2.code[p] == s0.code[p] || (p == |s0.code| - 1 && s0.code[p].LoadNil? && s2.code[p].LoadNil?)
    {
      assert s1.code[p] == s1.code[p];
    }
  }

  lemma ListExtends(s0: Frag, s1: Frag, list: int, js: seq<nat>)
    requires Extends(s0, s1) && List(s0.code, list, js)
    ensures List(s1.code, list, js)
  {
    forall j | j in js ensures j < |s0.code| && s1.code[j] == s0.code[j] {
      var i :| 0 <= i < |js| && js[i] == j;
      assert Linked(s0.code, js, i);
    }
    ListKept(s0.code, s1.code, list, js);
  }

  /** `code'` starts with `code`, up to the widening of a final LOADNIL. */
  ghost predicate Grown(code: seq<Instr>, code': seq<Instr>) {
    && |code| <= |code'|
    && forall p :: 0 <= p < |code| ==>
         code'[p] == code[p] || (p == |code| - 1 && code[p].LoadNil? && code'[p].LoadNil?)
  }

  lemma PendingKept(c: Ctx, code: seq<Instr>, code': seq<Instr>, js: set<nat>)
    requires Pending(c, code, js) && Grown(code, code')
    ensures Pending(c, code', js)
  {
    forall j | j in js ensures PendingAt(c, code', j) {
      assert PendingAt(c, code, j);
      assert code'[j] == code[j] && code'[j - 1].TestSet? == code[j - 1].TestSet?;
    }
  }

  lemma ExitsKept(c: Ctx, code: seq<Instr>, code': seq<Instr>, ts: set<nat>, fs: set<nat>, j: nat, r: Regs, v: Value,
      env: Regs)
    requires Pending(c, code, ts) && Pending(c, code, fs) && Grown(code, code')
    ensures ExitsAt(c, code', ts, fs, j, r, v, env) == ExitsAt(c, code, ts, fs, j, r, v, env)
  {
    if j in ts || j in fs {
      assert PendingAt(c, code, j);
      assert code'[j - 1].TestSet? == code[j - 1].TestSet?;
      if code[j - 1].TestSet? { assert code'[j - 1] == code[j - 1]; }
    }
  }

  // ---------- The main value goes into a register ----------

  /** Executing `i` puts the main value of `d` in `reg`. */
  ghost predicate Loads(w: World, s: Frag, d: ExpDesc, k: seq<Value>, i: Instr, reg: Arg) {
    && IsLoad(k, w.up, i) && s.k <= k
    && forall r: Regs :: Effect(w, k, i, r) == Put(r, reg, MainValue(w, s, d, r))
  }

  lemma LoadDenotes(c: Ctx, s: Frag, s': Frag, d: ExpDesc, ts: set<nat>, fs: set<nat>, i: Instr, reg: Arg)
    requires Denotes(c, s, d, ts, fs)
    requires s' == s.(code := Body(s, d).code + [i], k := s'.k)
    requires Loads(c.w, s, d, s'.k, i, reg)
    requires reg < MAXREGS && (reg == c.fr || reg == c.ex)
    ensures Denotes(c, s', d.(k := VNonReloc(reg)), ts, fs)
  {
    var d' := d.(k := VNonReloc(reg));
    PendingKept(c, Body(s, d).code, s'.code, ts);
    PendingKept(c, Body(s, d).code, s'.code, fs);
    forall r: Regs ensures MatchAt(c, s', d', ts, fs, r) {
      LoadMatch(c, s, s', d, ts, fs, i, reg, r);
    }
  }

  lemma LoadMatch(c: Ctx, s: Frag, s': Frag, d: ExpDesc, ts: set<nat>, fs: set<nat>, i: Instr, reg: Arg, r: Regs)
    requires Denotes(c, s, d, ts, fs)
    requires s' == s.(code := Body(s, d).code + [i], k := s'.k)
    requires Loads(c.w, s, d, s'.k, i, reg)
    requires reg < MAXREGS && (reg == c.fr || reg == c.ex)
    ensures MatchAt(c, s', d.(k := VNonReloc(reg)), ts, fs, r)
  {
    hide Extends, Effect, NilSafe;
    assert MatchAt(c, s, d, ts, fs, r);
    var body := Body(s, d).code;
    var stops := c.stops + ts + fs;
    RunMoreConstants(c.w, s.k, s'.k, body, stops, c.base, true, r);
    RunAppend(c.w, s'.k, body, [i], stops, c.base, true, r);
    var out := Run(c.w, s'.k, body, stops, c.base, true, r);
    match c.want(r)
    case Any =>
    case Early(_, _) =>
    case Val(v, env) =>
      if out.Fall? {
        assert s'.code[|body|] == i;
        assert Run(c.w, s'.k, s'.code, stops, |body|, out.jumped, out.regs)
            == Fall(Put(out.regs, reg, v), false);
      } else if out.Stop? {
        ExitsKept(c, body, s.code, ts, fs, out.at, out.regs, v, env);
        ExitsKept(c, body, s'.code, ts, fs, out.at, out.regs, v, env);
      }
  }

  // ---------- The main value decides a jump ----------

  /** `test` followed by a jump leaves exactly when the main value's truth is `b`,
      and either produces the value or stands for a boolean. */
  ghost predicate Decides(w: World, s: Frag, d: ExpDesc, test: Instr, b: bool) {
    && KnownTest(s.k, test)
    && (test.TestSet? ==> test.a == NO_REG)
    && forall r: Regs :: DecidesAt(w, s, d, test, b, r)
  }

  ghost predicate DecidesAt(w: World, s: Frag, d: ExpDesc, test: Instr, b: bool, r: Regs)
    requires KnownTest(s.k, test)
  {
    var v := MainValue(w, s, d, r);
    && Taken(w, s.k, test, r) == (Truthy(v) == b)
    && (if test.TestSet? then Get(r, test.b) == v else v.Bool?)
  }

  lemma CondGoes(c: Ctx, s: Frag, s': Frag, d: ExpDesc, ts: set<nat>, fs: set<nat>, test: Instr, b: bool)
    returns (j: nat)
    requires Denotes(c, s, d, ts, fs) && Decides(c.w, s, d, test, b)
    requires s' == s.(code := Body(s, d).code + [test, Jmp(NO_JUMP)])
    ensures j == |s'.code| - 1 && j !in ts + fs && PendingAt(c, s'.code, j)
    ensures Goes(c, s', !b, !test.TestSet?, if b then ts + {j} else ts, if b then fs else fs + {j})
  {
    j := |s'.code| - 1;
    var body := Body(s, d).code;
    assert s'.code[j] == Jmp(NO_JUMP) && s'.code[j - 1] == test;
    PendingKept(c, body, s'.code, ts);
    PendingKept(c, body, s'.code, fs);
    forall x | x in ts + fs ensures x < |body| { assert PendingAt(c, body, x); }
    var ts' := if b then ts + {j} else ts;
    var fs' := if b then fs else fs + {j};
    assert Pending(c, s'.code, ts') && Pending(c, s'.code, fs');
    var through, exact := !b, !test.TestSet?;
    forall r: Regs ensures GoesAt(c, s', through, exact, ts', fs', r) {
      CondGoesAt(c, s, s', d, ts, fs, test, b, j, r);
    }
  }

  lemma CondGoesAt(c: Ctx, s: Frag, s': Frag, d: ExpDesc, ts: set<nat>, fs: set<nat>, test: Instr, b: bool, j: nat,
      r: Regs)
    requires Denotes(c, s, d, ts, fs) && Decides(c.w, s, d, test, b)
    requires s' == s.(code := Body(s, d).code + [test, Jmp(NO_JUMP)])
    requires j == |Body(s, d).code| + 1
    ensures GoesAt(c, s', !b, !test.TestSet?, if b then ts + {j} else ts, if b then fs else fs + {j}, r)
  {
    hide Run, RunJump, Effect, IsLoad, Condition, Eval, Extends;
    assert MatchAt(c, s, d, ts, fs, r);
    var body := Body(s, d).code;
    var stops := c.stops + ts + fs;
    var ts' := if b then ts + {j} else ts;
    var fs' := if b then fs else fs + {j};
    var stops' := c.stops + ts' + fs';
    assert stops' == stops + {j};
    RunExtraStops(c.w, s.k, body, stops, {j}, c.base, true, r);
    RunAppend(c.w, s.k, body, [test, Jmp(NO_JUMP)], stops', c.base, true, r);
    assert s'.code[j] == Jmp(NO_JUMP) && s'.code[j - 1] == test;
    var out := Run(c.w, s.k, body, stops, c.base, true, r);
    match c.want(r)
    case Any =>
    case Early(_, _) =>
    case Val(v, env) =>
      if out.Fall? {
        assert DecidesAt(c.w, s, d, test, b, out.regs);
        TestedEnd(c.w, s.k, s'.code, stops', out.jumped, out.regs);
      } else if out.Stop? {
        ExitsKept(c, body, s.code, ts, fs, out.at, out.regs, v, env);
        ExitsKept(c, body, s'.code, ts, fs, out.at, out.regs, v, env);
      }
  }

  /** Running a final test and its pending jump. */
  lemma TestedEnd(w: World, k: seq<Value>, code: seq<Instr>, stops: set<nat>, jumped: bool, r: Regs)
    requires |code| >= 2 && code[|code| - 1].Jmp? && KnownTest(k, code[|code| - 2])
    requires code[|code| - 2].TestSet? ==> code[|code| - 2].a == NO_REG
    requires |code| - 1 in stops
    ensures Run(w, k, code, stops, |code| - 2, jumped, r)
         == if Taken(w, k, code[|code| - 2], r) then Stop(|code| - 1, r) else Fall(r, false)
  {
  }

  /** A main value whose truth is known without looking. */
  lemma ConstGoes(c: Ctx, s: Frag, d: ExpDesc, ts: set<nat>, fs: set<nat>, b: bool)
    requires Denotes(c, s, d, ts, fs)
    requires !d.k.VJmp? && !d.k.VReloc? && forall r: Regs :: Truthy(MainValue(c.w, s, d, r)) == b
    ensures Goes(c, s, b, false, ts, fs)
  {
    forall r: Regs ensures GoesAt(c, s, b, false, ts, fs, r) {
      assert MatchAt(c, s, d, ts, fs, r);
    }
  }

  // ---------- Edits of pending jumps ----------

  lemma RelinkedKeeps(c: Ctx, code: seq<Instr>, code': seq<Instr>, js: set<nat>, stops: set<nat>)
    requires Pending(c, code, js) && Relinked(code, code', stops)
    ensures Pending(c, code', js)
  {
    forall j | j in js ensures PendingAt(c, code', j) {
      assert PendingAt(c, code, j);
      assert code'[j] == code'[j] && code'[j - 1] == code'[j - 1];
    }
  }

  /** Only links between this expression's own jumps changed. */
  ghost predicate OnlyLinks(code: seq<Instr>, code': seq<Instr>, js: set<nat>) {
    && |code'| == |code|
    && forall p :: 0 <= p < |code| ==> code'[p] == code[p] || (p in js && code[p].Jmp? && code'[p].Jmp?)
  }

  lemma GoesRelinked(c: Ctx, s: Frag, s': Frag, b: bool, exact: bool, ts: set<nat>, fs: set<nat>)
    requires Goes(c, s, b, exact, ts, fs)
    requires s' == s.(code := s'.code) && OnlyLinks(s.code, s'.code, ts + fs)
    ensures Goes(c, s', b, exact, ts, fs)
  {
    var stops := c.stops + ts + fs;
    assert Relinked(s.code, s'.code, stops);
    RelinkedKeeps(c, s.code, s'.code, ts, stops);
    RelinkedKeeps(c, s.code, s'.code, fs, stops);
    RelinkedCtx(c, s, s', ts + fs);
    forall r: Regs ensures GoesAt(c, s', b, exact, ts, fs, r) {
      assert GoesAt(c, s, b, exact, ts, fs, r);
      RunRelinked(c.w, s.k, s.code, s'.code, stops, c.base, true, r);
      var out := Run(c.w, s.k, s.code, stops, c.base, true, r);
      if out.Stop? && c.want(r).Val? {
        LinkedExits(c, s.code, s'.code, ts, fs, out.at, out.regs, c.want(r).v, c.want(r).env);
      }
    }
  }

  lemma LinkedExits(c: Ctx, code: seq<Instr>, code': seq<Instr>, ts: set<nat>, fs: set<nat>, j: nat, r: Regs,
      v: Value, env: Regs)
    requires OnlyLinks(code, code', ts + fs)
    ensures ExitsAt(c, code', ts, fs, j, r, v, env) == ExitsAt(c, code, ts, fs, j, r, v, env)
  {
    if 1 <= j <= |code| {
      assert code'[j - 1] == code'[j - 1];
    }
  }

  lemma RelinkedCtx(c: Ctx, s: Frag, s': Frag, js: set<nat>)
    requires CtxShape(c, s) && s' == s.(code := s'.code) && OnlyLinks(s.code, s'.code, js)
    requires forall j :: j in js ==> j > |c.origin.code|
    ensures CtxShape(c, s')
  {
    forall p | 0 <= p < |c.origin.code| ensures s'.code[p] == s.code[p] { }
    forall p | 0 <= p < |c.origin.code|
      ensures s'.code[p] == c.origin.code[p] ||
        (p == |c.origin.code| - 1 && c.origin.code[p].LoadNil? && s'.code[p].LoadNil?)
    {
      assert s'.code[p] == s.code[p];
    }
  }

  lemma DenotesRelinked(c: Ctx, s: Frag, s': Frag, d: ExpDesc, ts: set<nat>, fs: set<nat>)
    requires Denotes(c, s, d, ts, fs)
    requires s' == s.(code := s'.code) && OnlyLinks(s.code, s'.code, ts + fs)
    ensures Denotes(c, s', d, ts, fs)
  {
    var body, body' := Body(s, d).code, Body(s', d).code;
    var stops := c.stops + ts + fs;
    forall j | j in ts + fs ensures |c.origin.code| < j < |body| { assert PendingAt(c, body, j); }
    assert OnlyLinks(body, body', ts + fs);
    RelinkedKeeps(c, body, body', ts, stops);
    RelinkedKeeps(c, body, body', fs, stops);
    RelinkedCtx(c, s, s', ts + fs);
    forall p | |body| <= p < |s.code| ensures s'.code[p] == s.code[p] { }
    forall r: Regs ensures MatchAt(c, s', d, ts, fs, r) {
      RelinkedMatch(c, s, s', d, ts, fs, r);
    }
  }

  lemma RelinkedMatch(c: Ctx, s: Frag, s': Frag, d: ExpDesc, ts: set<nat>, fs: set<nat>, r: Regs)
    requires MatchAt(c, s, d, ts, fs, r)
    requires s' == s.(code := s'.code) && OnlyLinks(s.code, s'.code, ts + fs)
    requires OnlyLinks(Body(s, d).code, Body(s', d).code, ts + fs)
    requires forall p :: |Body(s, d).code| <= p < |s.code| ==> s'.code[p] == s.code[p]
    ensures MatchAt(c, s', d, ts, fs, r)
  {
    var body, body' := Body(s, d), Body(s', d);
    RelinkedFlow(c.w, body, body', c.base, c.stops + ts + fs, ts + fs, r);
    var out := Flow(c.w, body, c.base, c.stops + ts + fs, r);
    match c.want(r)
    case Any =>
    case Early(_, _) =>
    case Val(v, env) =>
      match out
      case Stuck =>
      case Fall(r', _) => MainValueKept(c.w, s, s', d, r');
      case Stop(j, r') => LinkedExits(c, s.code, s'.code, ts, fs, j, r', v, env);
  }

  lemma RelinkedFlow(w: World, s: Frag, s': Frag, base: nat, stops: set<nat>, js: set<nat>, r: Regs)
    requires s' == s.(code := s'.code) && OnlyLinks(s.code, s'.code, js) && js <= stops
    ensures Flow(w, s', base, stops, r) == Flow(w, s, base, stops, r)
  {
    RunRelinked(w, s.k, s.code, s'.code, stops, base, true, r);
  }

  lemma MainValueKept(w: World, s: Frag, s': Frag, d: ExpDesc, r: Regs)
    requires s' == s.(code := s'.code) && |s'.code| == |s.code|
    requires forall p :: |Body(s, d).code| <= p < |s.code| ==> s'.code[p] == s.code[p]
    ensures MainValue(w, s', d, r) == MainValue(w, s, d, r)
  {
  }

  /** Jumps of one list come to the end of the code, where the value they carry is not needed. */
  lemma PatchedHereGoes(c: Ctx, s: Frag, s': Frag, b: bool, exact: bool, ts: set<nat>, fs: set<nat>)
    requires Goes(c, s, b, exact, ts, fs)
    requires s' == s.(code := s'.code, lasttarget := |s.code|)
    requires Patched(s.code, s'.code, if b then ts else fs, |s.code|, NO_REG, |s.code|)
    ensures Goes(c, s', b, false, if b then {} else ts, if b then fs else {})
  {
    var js := if b then ts else fs;
    var ts', fs' := if b then {} else ts, if b then fs else {};
    forall j | j in js ensures j < |s.code| && s.code[j].Jmp? && (Producer(s.code, j) ==> s.code[j - 1].a == NO_REG) {
      assert PendingAt(c, s.code, j);
    }
    assert Patchable(s.code, js, |s.code|, |s.code|);
    PatchedKeeps(c, s, s'.code, js, |s.code|, NO_REG, |s.code|, ts');
    PatchedKeeps(c, s, s'.code, js, |s.code|, NO_REG, |s.code|, fs');
    PatchedCtx(c, s, s', js, |s.code|, NO_REG, |s.code|);
    var exact' := false;
    forall r: Regs ensures GoesAt(c, s', b, exact', ts', fs', r) {
      assert GoesAt(c, s, b, exact, ts, fs, r);
      var stops := c.stops + ts + fs;
      assert stops - js == c.stops + ts' + fs';
      RunPatched(c.w, s.k, s.code, s'.code, stops, js, |s.code|, NO_REG, |s.code|, c.base, true, r);
      var out := Run(c.w, s.k, s.code, stops, c.base, true, r);
      if out.Stop? && out.at !in js && c.want(r).Val? {
        PatchedExits(c, s, s'.code, js, |s.code|, NO_REG, |s.code|, ts', fs', out.at, out.regs, c.want(r).v,
          c.want(r).env);
      }
    }
  }

  lemma PatchedKeeps(c: Ctx, s: Frag, code': seq<Instr>, js: set<nat>, vtarget: int, reg: Arg, dtarget: int,
      rest: set<nat>)
    requires Patched(s.code, code', js, vtarget, reg, dtarget)
    requires Pending(c, s.code, rest) && rest !! js
    ensures Pending(c, code', rest)
  {
    forall j | j in rest ensures PendingAt(c, code', j) {
      assert PendingAt(c, s.code, j);
      assert code'[j] == s.code[j];
      assert code'[j - 1] == PatchedInstr(s.code, js, vtarget, reg, dtarget, j - 1);
    }
  }

  lemma PatchedExits(c: Ctx, s: Frag, code': seq<Instr>, js: set<nat>, vtarget: int, reg: Arg, dtarget: int,
                     ts: set<nat>, fs: set<nat>, j: nat, r: Regs, v: Value, env: Regs)
    requires Patched(s.code, code', js, vtarget, reg, dtarget) && j !in js && Pending(c, s.code, js)
    requires j in ts || j in fs ==> PendingAt(c, s.code, j)
    ensures ExitsAt(c, code', ts, fs, j, r, v, env) == ExitsAt(c, s.code, ts, fs, j, r, v, env)
  {
    if j in ts || j in fs {
      if j - 1 in js { assert PendingAt(c, s.code, j - 1); }
      assert code'[j - 1] == PatchedInstr(s.code, js, vtarget, reg, dtarget, j - 1);
    }
  }

  lemma PatchedCtx(c: Ctx, s: Frag, s': Frag, js: set<nat>, vtarget: int, reg: Arg, dtarget: int)
    requires CtxShape(c, s) && Patched(s.code, s'.code, js, vtarget, reg, dtarget) && Pending(c, s.code, js)
    requires s'.k == s.k && s'.nactvar == s.nactvar
    ensures CtxShape(c, s')
  {
    forall j | j in js ensures j > |c.origin.code| { assert PendingAt(c, s.code, j); }
    forall p | 0 <= p < |c.origin.code| ensures s'.code[p] == s.code[p] {
      assert p !in js && p + 1 !in js;
    }
    forall p | 0 <= p < |c.origin.code|
      ensures s'.code[p] == c.origin.code[p] ||
        (p == |c.origin.code| - 1 && c.origin.code[p].LoadNil? && s'.code[p].LoadNil?)
    {
      assert s'.code[p] == s.code[p];
    }
  }

  /** The load instruction at `p` near the end of the code puts the boolean `b` in
      `reg` and goes to the end. */
  ghost predicate LoadsBool(code: seq<Instr>, p: int, reg: Arg, b: bool) {
    && |code| >= 2
    && code[|code| - 2] == LFalseSkip(reg) && code[|code| - 1] == LoadTrue(reg)
    && p == if b then |code| - 1 else |code| - 2
  }

  /** Jumps of one list get their final destination: the end of the code for those
      that put the value in `reg` themselves, a load of the boolean for the others. */
  lemma PatchedDenotes(c: Ctx, s: Frag, s': Frag, d: ExpDesc, reg: Arg, ts: set<nat>, fs: set<nat>, b: bool,
      dtarget: int)
    requires Denotes(c, s, d, ts, fs) && d.k == VNonReloc(reg) && (reg == c.fr || reg == c.ex)
    requires s.lasttarget == |s.code| && s' == s.(code := s'.code)
    requires Patched(s.code, s'.code, if b then ts else fs, |s.code|, reg, dtarget)
    requires LoadsBool(s.code, dtarget, reg, b) || forall j :: j in (if b then ts else fs) ==> Producer(s.code, j)
    ensures Denotes(c, s', d, if b then {} else ts, if b then fs else {})
  {
    var js := if b then ts else fs;
    var ts', fs' := if b then {} else ts, if b then fs else {};
    forall j | j in js ensures
      && j < |s.code| && s.code[j].Jmp? && (Producer(s.code, j) ==> s.code[j - 1].a == NO_REG)
      && (LoadsBool(s.code, dtarget, reg, b) ==> j < dtarget)
    {
      assert PendingAt(c, s.code, j);
    }
    assert Patchable(s.code, js, |s.code|, dtarget);
    PatchedKeeps(c, s, s'.code, js, |s.code|, reg, dtarget, ts');
    PatchedKeeps(c, s, s'.code, js, |s.code|, reg, dtarget, fs');
    PatchedCtx(c, s, s', js, |s.code|, reg, dtarget);
    forall r: Regs ensures MatchAt(c, s', d, ts', fs', r) {
      PatchedMatch(c, s, s', d, reg, ts, fs, b, dtarget, r);
    }
  }

  lemma PatchedMatch(c: Ctx, s: Frag, s': Frag, d: ExpDesc, reg: Arg, ts: set<nat>, fs: set<nat>, b: bool,
      dtarget: int, r: Regs)
    requires Denotes(c, s, d, ts, fs) && d.k == VNonReloc(reg) && (reg == c.fr || reg == c.ex)
    requires s.lasttarget == |s.code| && s' == s.(code := s'.code)
    requires Patched(s.code, s'.code, if b then ts else fs, |s.code|, reg, dtarget)
    requires Patchable(s.code, if b then ts else fs, |s.code|, dtarget)
    requires LoadsBool(s.code, dtarget, reg, b) || forall j :: j in (if b then ts else fs) ==> Producer(s.code, j)
    ensures MatchAt(c, s', d, if b then {} else ts, if b then fs else {}, r)
  {
    hide Run, RunJump, Effect, IsLoad, Condition, Eval, Extends;
    var js := if b then ts else fs;
    var ts', fs' := if b then {} else ts, if b then fs else {};
    assert MatchAt(c, s, d, ts, fs, r);
    var stops := c.stops + ts + fs;
    assert stops - js == c.stops + ts' + fs';
    RunPatched(c.w, s.k, s.code, s'.code, stops, js, |s.code|, reg, dtarget, c.base, true, r);
    var out := Run(c.w, s.k, s.code, stops, c.base, true, r);
    if out.Stop? && c.want(r).Val? {
      if out.at !in js {
        PatchedExits(c, s, s'.code, js, |s.code|, reg, dtarget, ts', fs', out.at, out.regs, c.want(r).v, c.want(r).env);
      } else if !Producer(s.code, out.at) {
        BoolLoaded(c, s, s'.code, js, reg, b, dtarget, stops - js, out.regs);
      } else {
        RunAtEnd(c.w, s.k, s'.code, stops - js, true, Produced(s.code, out.at, reg, out.regs));
      }
    }
  }

  lemma BoolLoaded(c: Ctx, s: Frag, code': seq<Instr>, js: set<nat>, reg: Arg, b: bool, p: int, stops: set<nat>,
      r: Regs)
    requires LoadsBool(s.code, p, reg, b) && Patched(s.code, code', js, |s.code|, reg, p)
    requires Patchable(s.code, js, |s.code|, p)
    ensures p >= 0 && Run(c.w, s.k, code', stops, p, true, r) == Fall(Put(r, reg, Bool(b)), !b)
  {
    assert |code'| - 2 !in js && |code'| - 1 !in js;
    assert code'[|code'| - 2] == LFalseSkip(reg) && code'[|code'| - 1] == LoadTrue(reg);
  }

  /** Loads of both booleans with a jump around them do nothing to a run that reaches the jump. */
  lemma AroundBools(w: World, k: seq<Value>, code: seq<Instr>, stops: set<nat>, pc: nat, reg: Arg, jumped: bool,
      r: Regs)
    requires pc + 3 == |code| && code[pc..] == [Jmp(2), LFalseSkip(reg), LoadTrue(reg)] && pc !in stops
    requires pc > 0 ==> !IsTest(code[pc - 1])
    ensures Run(w, k, code, stops, pc, jumped, r) == Fall(r, true)
  {
    hide Run, Effect, IsLoad, Condition;
    assert code[pc] == code[pc..][0];
    RunAtJump(w, k, code, stops, pc, jumped, r);
    RunAtEnd(w, k, code, stops, true, r);
  }

  lemma RunAtEnd(w: World, k: seq<Value>, code: seq<Instr>, stops: set<nat>, jumped: bool, r: Regs)
    ensures Run(w, k, code, stops, |code|, jumped, r) == Fall(r, jumped)
  {
  }

  /** Loads of both booleans behind a value already in `reg`, with a jump around them. */
  lemma BoolsAfterValue(c: Ctx, s: Frag, s': Frag, d: ExpDesc, reg: Arg, ts: set<nat>, fs: set<nat>)
    requires Denotes(c, s, d, ts, fs) && d.k == VNonReloc(reg)
    requires |s.code| > 0 ==> !IsTest(s.code[|s.code| - 1])
    requires s' == s.(code := s.code + [Jmp(2), LFalseSkip(reg), LoadTrue(reg)], lasttarget := |s.code| + 3)
    ensures Denotes(c, s', d, ts, fs)
  {
    hide Run, RunJump, Effect, IsLoad, Condition, Eval;
    PendingKept(c, s.code, s'.code, ts);
    PendingKept(c, s.code, s'.code, fs);
    forall x | x in c.stops + ts + fs ensures x < |s.code| {
      if x in ts + fs { assert PendingAt(c, s.code, x); }
    }
    forall r: Regs ensures MatchAt(c, s', d, ts, fs, r) {
      assert MatchAt(c, s, d, ts, fs, r);
      var stops := c.stops + ts + fs;
      RunAppend(c.w, s.k, s.code, [Jmp(2), LFalseSkip(reg), LoadTrue(reg)], stops, c.base, true, r);
      var out := Run(c.w, s.k, s.code, stops, c.base, true, r);
      if out.Fall? {
        AroundBools(c.w, s.k, s'.code, stops, |s.code|, reg, out.jumped, out.regs);
      } else if out.Stop? && c.want(r).Val? {
        ExitsKept(c, s.code, s'.code, ts, fs, out.at, out.regs, c.want(r).v, c.want(r).env);
      }
    }
  }

  /** Loads of both booleans behind a comparison that has not jumped, hence is false. */
  lemma BoolsAfterTest(c: Ctx, s: Frag, s': Frag, d: ExpDesc, reg: Arg, ts: set<nat>, fs: set<nat>)
    requires Goes(c, s, false, true, ts, fs) && d.k == VNonReloc(reg)
    requires reg < MAXREGS && (reg == c.fr || reg == c.ex)
    requires s' == s.(code := s.code + [LFalseSkip(reg), LoadTrue(reg)], lasttarget := |s.code| + 2)
    ensures Denotes(c, s', d, ts, fs)
  {
    PendingKept(c, s.code, s'.code, ts);
    PendingKept(c, s.code, s'.code, fs);
    forall r: Regs ensures MatchAt(c, s', d, ts, fs, r) {
      assert GoesAt(c, s, false, true, ts, fs, r);
      var stops := c.stops + ts + fs;
      RunAppend(c.w, s.k, s.code, [LFalseSkip(reg), LoadTrue(reg)], stops, c.base, true, r);
      var out := Run(c.w, s.k, s.code, stops, c.base, true, r);
      if out.Fall? {
        assert s'.code[|s.code|] == LFalseSkip(reg);
        assert Run(c.w, s.k, s'.code, stops, |s.code|, out.jumped, out.regs) == Fall(Put(out.regs, reg, Bool(false)),
          true);
      } else if out.Stop? && c.want(r).Val? {
        ExitsKept(c, s.code, s'.code, ts, fs, out.at, out.regs, c.want(r).v, c.want(r).env);
      }
    }
  }

  // ---------- Nil into a register, widening an earlier LOADNIL ----------

  lemma NilDenotes(c: Ctx, s: Frag, s': Frag, d: ExpDesc, reg: Arg, ts: set<nat>, fs: set<nat>)
    requires Denotes(c, s, d, ts, fs) && d.k == VNil
    requires |s.code| > 0 && s.lasttarget < |s.code| && s.code[|s.code| - 1].LoadNil?
    requires s' == s.(code := s'.code) && |s'.code| == |s.code|
    requires s'.code[..|s.code| - 1] == s.code[..|s.code| - 1]
    requires Widens(c.w, s.k, s.code[|s.code| - 1], s'.code[|s.code| - 1], reg, 1)
    requires reg < MAXREGS && (reg == c.fr || reg == c.ex)
    ensures Denotes(c, s', d.(k := VNonReloc(reg)), ts, fs)
  {
    var d' := d.(k := VNonReloc(reg));
    var p := |s.code| - 1;
    var pre := s.code[..p];
    assert s.code == pre + [s.code[p]] && s'.code == pre + [s'.code[p]];
    forall q | 0 <= q < p ensures s'.code[q] == s.code[q] {
      assert s'.code[q] == pre[q];
    }
    PendingKept(c, s.code, s'.code, ts);
    PendingKept(c, s.code, s'.code, fs);
    forall j | j in c.stops ensures s'.code[j].Jmp? { assert s.code[j].Jmp?; }
    forall r: Regs ensures MatchAt(c, s', d', ts, fs, r) {
      assert MatchAt(c, s, d, ts, fs, r);
      RunWidened(c.w, s.k, pre, s.code[p], s'.code[p], c.stops + ts + fs, c.base, r, reg, 1);
      var out := Flow(c.w, s, c.base, c.stops + ts + fs, r);
      if out.Stop? && c.want(r).Val? {
        ExitsKept(c, s.code, s'.code, ts, fs, out.at, out.regs, c.want(r).v, c.want(r).env);
      } else if out.Fall? {
        assert PutNils(out.regs, reg, 1) == Put(out.regs, reg, Nil);
      }
    }
  }

  lemma MoreConstantsDenotes(c: Ctx, s: Frag, s': Frag, d: ExpDesc, ts: set<nat>, fs: set<nat>)
    requires Denotes(c, s, d, ts, fs) && s' == s.(k := s'.k) && s.k <= s'.k
    ensures Denotes(c, s', d, ts, fs)
  {
    forall r: Regs ensures MatchAt(c, s', d, ts, fs, r) {
      assert MatchAt(c, s, d, ts, fs, r);
      MoreConstantsMatch(c, s, s', d, ts, fs, r);
    }
  }

  lemma MoreConstantsMatch(c: Ctx, s: Frag, s': Frag, d: ExpDesc, ts: set<nat>, fs: set<nat>, r: Regs)
    requires MatchAt(c, s, d, ts, fs, r) && MainShape(c, s, d) && s' == s.(k := s'.k) && s.k <= s'.k
    ensures MatchAt(c, s', d, ts, fs, r)
  {
    RunMoreConstants(c.w, s.k, s'.k, Body(s, d).code, c.stops + ts + fs, c.base, true, r);
    var out := Flow(c.w, Body(s, d), c.base, c.stops + ts + fs, r);
    if out.Fall? {
      MoreConstantsMain(c, s, s', d, out.regs);
    }
  }

  lemma MoreConstantsMain(c: Ctx, s: Frag, s': Frag, d: ExpDesc, r: Regs)
    requires MainShape(c, s, d) && s' == s.(k := s'.k) && s.k <= s'.k
    ensures MainValue(c.w, s', d, r) == MainValue(c.w, s, d, r)
  {
  }

  // ---------- `not` ----------

  /** The tests that produced values for the jumps in `js` no longer do. */
  ghost predicate Demoted(code: seq<Instr>, code': seq<Instr>, js: set<nat>) {
    && |code'| == |code|
    && forall p :: 0 <= p < |code| ==> code'[p] == DemotedInstr(code, js, p)
  }

  ghost function DemotedInstr(code: seq<Instr>, js: set<nat>, p: nat): Instr
    requires p < |code|
  {
    if p + 1 in js && code[p].TestSet? then Test(code[p].b, code[p].kbit) else code[p]
  }

  ghost function Negated(x: Expect): Expect {
    if x.Val? then Val(Bool(!Truthy(x.v)), x.env) else x
  }

  lemma NotDenotes(c: Ctx, c': Ctx, s: Frag, s': Frag, d: ExpDesc, d': ExpDesc, ts: set<nat>, fs: set<nat>)
    requires Denotes(c, s, d, ts, fs)
    requires c' == c.(want := c'.want) && forall r: Regs :: c'.want(r) == Negated(c.want(r))
    requires CtxShape(c', s') && MainShape(c', s', d')
    requires s'.lasttarget == s.lasttarget && s'.k == s.k
    requires Demoted(Body(s, d).code, Body(s', d').code, ts + fs) && Grown(Body(s', d').code, s'.code)
    requires forall r: Regs :: MainValue(c.w, s', d', r) == Bool(!Truthy(MainValue(c.w, s, d, r)))
    ensures Denotes(c', s', d', fs, ts)
  {
    var body, body' := Body(s, d).code, Body(s', d').code;
    forall j | j in ts + fs ensures PendingAt(c, body', j) && !Producer(body', j) {
      assert PendingAt(c, body, j);
      assert body'[j] == DemotedInstr(body, ts + fs, j) && body'[j - 1] == DemotedInstr(body, ts + fs, j - 1);
    }
    forall r: Regs ensures MatchAt(c', s', d', fs, ts, r) {
      assert MatchAt(c, s, d, ts, fs, r);
      NotMatch(c, c', s, s', d, d', ts, fs, r);
    }
  }

  lemma DemotedRun(c: Ctx, k: seq<Value>, body: seq<Instr>, body': seq<Instr>, js: set<nat>, stops: set<nat>, r: Regs)
    requires Demoted(body, body', js) && Pending(c, body, js)
    ensures Run(c.w, k, body', stops, c.base, true, r) == Run(c.w, k, body, stops, c.base, true, r)
  {
    forall p | 0 <= p < |body|
      ensures body'[p] == body[p] ||
        (body[p].TestSet? && body[p].a == NO_REG && body'[p] == Test(body[p].b, body[p].kbit))
    {
      assert body'[p] == DemotedInstr(body, js, p);
      if p + 1 in js { assert PendingAt(c, body, p + 1); }
    }
    assert Relinked(body, body', stops);
    RunRelinked(c.w, k, body, body', stops, c.base, true, r);
  }

  lemma NotMatch(c: Ctx, c': Ctx, s: Frag, s': Frag, d: ExpDesc, d': ExpDesc, ts: set<nat>, fs: set<nat>, r: Regs)
    requires c' == c.(want := c'.want) && c'.want(r) == Negated(c.want(r))
    requires s'.lasttarget == s.lasttarget && s'.k == s.k
    requires Demoted(Body(s, d).code, Body(s', d').code, ts + fs) && Grown(Body(s', d').code, s'.code)
    requires forall j :: j in ts + fs ==> PendingAt(c, Body(s', d').code, j) && !Producer(Body(s', d').code, j)
    requires MatchAt(c, s, d, ts, fs, r) && Pending(c, Body(s, d).code, ts + fs)
    requires forall x: Regs :: MainValue(c.w, s', d', x) == Bool(!Truthy(MainValue(c.w, s, d, x)))
    ensures MatchAt(c', s', d', fs, ts, r)
  {
    var stops := c.stops + ts + fs;
    assert stops == c.stops + fs + ts;
    NotFlow(c, s, s', d, d', ts + fs, stops, r);
    match c.want(r)
    case Any =>
    case Early(_, _) =>
    case Val(v, env) =>
      match Flow(c.w, Body(s, d), c.base, stops, r)
      case Stuck =>
      case Fall(r', _) =>
      case Stop(j, r') =>
        assert PendingAt(c, Body(s', d').code, j) && !Producer(s'.code, j);
        assert ExitsAt(c, s.code, ts, fs, j, r', v, env);
        assert ExitsAt(c', s'.code, fs, ts, j, r', Bool(!Truthy(v)), env);
  }

  lemma NotFlow(c: Ctx, s: Frag, s': Frag, d: ExpDesc, d': ExpDesc, js: set<nat>, stops: set<nat>, r: Regs)
    requires Pending(c, Body(s, d).code, js)
    requires s'.lasttarget == s.lasttarget && s'.k == s.k
    requires Demoted(Body(s, d).code, Body(s', d').code, js)
    ensures Flow(c.w, Body(s', d'), c.base, stops, r) == Flow(c.w, Body(s, d), c.base, stops, r)
  {
    var body, body' := Body(s, d).code, Body(s', d').code;
    DemotedRun(c, s.k, body, body', js, stops, r);
    if |body| > 0 {
      assert body'[|body| - 1] == DemotedInstr(body, js, |body| - 1);
    }
  }

  // ---------- `and` and `or` ----------

  ghost function CtxFor(w: World, s: Frag, base: nat, stops: set<nat>, fr: nat, e: Expr): Ctx {
    Ctx(w, s, base, stops, fr, -1, (r: Regs) => After(w, s, base, stops, e, r))
  }

  /** The second operand of `and` (`conj`) or `or`, compiled after code that goes
      through when the first operand does not decide, completes the expression. */
  lemma ShortCircuitDenotes(c: Ctx, s1: Frag, s2: Frag, d: ExpDesc, conj: bool, exact: bool, js: set<nat>,
                            ts: set<nat>, fs: set<nat>, a: Expr, b: Expr)
    requires c == CtxFor(c.w, c.origin, c.base, c.stops, c.fr, a)
    requires Goes(c, s1, conj, exact, if conj then {} else js, if conj then js else {})
    requires Denotes(CtxFor(c.w, s1, c.base, c.stops + js, c.fr, b), s2, d, ts, fs)
    requires Scoped(b, s1.nactvar, |c.w.up|)
    ensures Denotes(CtxFor(c.w, c.origin, c.base, c.stops, c.fr, if conj then EAnd(a, b) else EOr(a, b)),
                    s2, d, if conj then ts else ts + js, if conj then fs + js else fs)
  {
    var cb := CtxFor(c.w, s1, c.base, c.stops + js, c.fr, b);
    var e := if conj then EAnd(a, b) else EOr(a, b);
    var ce := CtxFor(c.w, c.origin, c.base, c.stops, c.fr, e);
    var ts' := if conj then ts else ts + js;
    var fs' := if conj then fs + js else fs;
    var body := Body(s2, d).code;
    ExtendsTransitive(c.origin, s1, s2);
    forall j | j in js ensures PendingAt(ce, body, j) && j < |s1.code| {
      assert PendingAt(c, s1.code, j);
      assert s2.code[j] == s1.code[j] && s2.code[j - 1].TestSet? == s1.code[j - 1].TestSet?;
    }
    forall j | j in ts + fs ensures PendingAt(ce, body, j) && j > |s1.code| {
      assert PendingAt(cb, body, j);
    }
    forall j | j in c.stops ensures j < |c.origin.code| && s2.code[j].Jmp? { assert j in cb.stops; }
    forall r: Regs ensures MatchAt(ce, s2, d, ts', fs', r) {
      if conj { AndMatch(c, s1, s2, d, exact, js, ts, fs, a, b, r); } else { OrMatch(c, s1, s2, d, exact, js, ts, fs,
        a, b, r); }
    }
  }

  lemma AndMatch(c: Ctx, s1: Frag, s2: Frag, d: ExpDesc, exact: bool, js: set<nat>, ts: set<nat>, fs: set<nat>,
      a: Expr, b: Expr, r: Regs)
    requires c == CtxFor(c.w, c.origin, c.base, c.stops, c.fr, a)
    requires Goes(c, s1, true, exact, {}, js)
    requires Denotes(CtxFor(c.w, s1, c.base, c.stops + js, c.fr, b), s2, d, ts, fs)
    requires Scoped(b, s1.nactvar, |c.w.up|)
    ensures MatchAt(CtxFor(c.w, c.origin, c.base, c.stops, c.fr, EAnd(a, b)), s2, d, ts, fs + js, r)
  {
    hide Run, RunJump, Effect, IsLoad, Condition, Extends, Flow;
    var cb := CtxFor(c.w, s1, c.base, c.stops + js, c.fr, b);
    assert c.stops + {} + js == c.stops + js;
    assert cb.stops + ts + fs == c.stops + ts + (fs + js);
    assert GoesAt(c, s1, true, exact, {}, js, r);
    assert MatchAt(cb, s2, d, ts, fs, r);
    assert Pending(c, s1.code, js) && Extends(s1, s2);
    hide Denotes, Goes, CtxShape, MainShape, MainValue, Agree, Body;
    var out0 := Flow(c.w, c.origin, c.base, c.stops, r);
    var out1 := Flow(c.w, s1, c.base, c.stops + js, r);
    if out0.Fall? {
      if out1.Fall? {
        EvalAgree(c.w, b, out1.regs, out0.regs, s1.nactvar);
      } else if out1.Stop? && out1.at in js {
        assert PendingAt(c, s1.code, out1.at);
        SameTest(s1, s2, out1.at);
      }
    }
  }

  lemma OrMatch(c: Ctx, s1: Frag, s2: Frag, d: ExpDesc, exact: bool, js: set<nat>, ts: set<nat>, fs: set<nat>,
      a: Expr, b: Expr, r: Regs)
    requires c == CtxFor(c.w, c.origin, c.base, c.stops, c.fr, a)
    requires Goes(c, s1, false, exact, js, {})
    requires Denotes(CtxFor(c.w, s1, c.base, c.stops + js, c.fr, b), s2, d, ts, fs)
    requires Scoped(b, s1.nactvar, |c.w.up|)
    ensures MatchAt(CtxFor(c.w, c.origin, c.base, c.stops, c.fr, EOr(a, b)), s2, d, ts + js, fs, r)
  {
    hide Run, RunJump, Effect, IsLoad, Condition, Extends, Flow;
    var cb := CtxFor(c.w, s1, c.base, c.stops + js, c.fr, b);
    assert c.stops + js + {} == c.stops + js;
    assert cb.stops + ts + fs == c.stops + (ts + js) + fs;
    assert GoesAt(c, s1, false, exact, js, {}, r);
    assert MatchAt(cb, s2, d, ts, fs, r);
    assert Pending(c, s1.code, js) && Extends(s1, s2);
    hide Denotes, Goes, CtxShape, MainShape, MainValue, Agree, Body;
    var out0 := Flow(c.w, c.origin, c.base, c.stops, r);
    var out1 := Flow(c.w, s1, c.base, c.stops + js, r);
    if out0.Fall? {
      if out1.Fall? {
        EvalAgree(c.w, b, out1.regs, out0.regs, s1.nactvar);
      } else if out1.Stop? && out1.at in js {
        assert PendingAt(c, s1.code, out1.at);
        SameTest(s1, s2, out1.at);
      }
    }
  }

  /** Code that goes on keeps the instruction before a jump, as far as a waiting value is concerned. */
  lemma SameTest(s1: Frag, s2: Frag, j: nat)
    requires Extends(s1, s2) && 1 <= j < |s1.code| && s1.code[j].Jmp?
    ensures s2.code[j - 1].TestSet? == s1.code[j - 1].TestSet?
    ensures s1.code[j - 1].TestSet? ==> s2.code[j - 1] == s1.code[j - 1]
  {
    var p := j - 1;
    assert s2.code[p] == s1.code[p] || p == |s1.code| - 1;
  }

  // ---------- Comparisons ----------

  /** An operand that needs no more code: in a register or a constant, no pending jumps. */
  predicate Settled(d: ExpDesc) {
    !d.k.VJmp? && !d.k.VReloc? && !d.k.VLocal? && !d.k.VUpval? && d.t == NO_JUMP && d.f == NO_JUMP
  }

  /** Both operands of a comparison are at hand when the code falls through. */
  ghost predicate PairAt(c: Ctx, s: Frag, da: ExpDesc, db: ExpDesc, a: Expr, b: Expr, r: Regs) {
    var out := Flow(c.w, s, c.base, c.stops, r);
    match Flow(c.w, c.origin, c.base, c.stops, r)
    case Stuck => true
    case Stop(j, r1) => j in c.stops ==> out == Stop(j, r1)
    case Fall(r1, _) =>
      && out.Fall? && Agree(c, out.regs, r1)
      && MainValue(c.w, s, da, out.regs) == Eval(c.w, a, r1)
      && MainValue(c.w, s, db, out.regs) == Eval(c.w, b, r1)
  }

  ghost predicate Pair(c: Ctx, s: Frag, da: ExpDesc, db: ExpDesc, a: Expr, b: Expr) {
    && CtxShape(c, s) && c.ex == -1
    && Settled(da) && Settled(db) && MainIndex(s, da) && MainIndex(s, db)
    && forall r: Regs :: PairAt(c, s, da, db, a, b, r)
  }

  ghost predicate MainIndex(s: Frag, d: ExpDesc) {
    (d.k.VK? ==> d.k.idx < |s.k|) && (d.k.VNonReloc? ==> d.k.reg < MAXREGS)
  }

  ghost predicate BelowFree(d: ExpDesc, fr: nat) {
    d.k.VNonReloc? ==> d.k.reg < fr
  }

  lemma MainValueLater(w: World, s: Frag, s': Frag, d: ExpDesc, fr: nat, r: Regs, r': Regs)
    requires Settled(d) && MainIndex(s, d) && BelowFree(d, fr) && s.k <= s'.k
    requires fr <= MAXREGS && forall i :: 0 <= i < fr ==> r'[i] == r[i]
    ensures MainValue(w, s', d, r') == MainValue(w, s, d, r)
  {
  }

  lemma PairIntro(c: Ctx, s1: Frag, s2: Frag, fr2: nat, da: ExpDesc, db: ExpDesc, a: Expr, b: Expr)
    requires c == CtxFor(c.w, c.origin, c.base, c.stops, c.fr, a) && c.fr <= fr2
    requires Denotes(c, s1, da, {}, {}) && Settled(da) && BelowFree(da, fr2)
    requires Denotes(CtxFor(c.w, s1, c.base, c.stops, fr2, b), s2, db, {}, {}) && Settled(db)
    requires Scoped(b, s1.nactvar, |c.w.up|)
    ensures Pair(c, s2, da, db, a, b)
  {
    var cb := CtxFor(c.w, s1, c.base, c.stops, fr2, b);
    ExtendsTransitive(c.origin, s1, s2);
    forall r: Regs ensures PairAt(c, s2, da, db, a, b, r) {
      assert MatchAt(c, s1, da, {}, {}, r);
      assert MatchAt(cb, s2, db, {}, {}, r);
      PairIntroAt(c, s1, s2, fr2, da, db, a, b, r);
    }
  }

  lemma PairIntroAt(c: Ctx, s1: Frag, s2: Frag, fr2: nat, da: ExpDesc, db: ExpDesc, a: Expr, b: Expr, r: Regs)
    requires c == CtxFor(c.w, c.origin, c.base, c.stops, c.fr, a) && s1.nactvar <= c.fr <= fr2 <= MAXREGS
    requires MatchAt(c, s1, da, {}, {}, r) && Settled(da) && BelowFree(da, fr2) && MainIndex(s1, da)
    requires MatchAt(CtxFor(c.w, s1, c.base, c.stops, fr2, b), s2, db, {}, {}, r) && Settled(db)
    requires Scoped(b, s1.nactvar, |c.w.up|) && s1.k <= s2.k
    ensures PairAt(c, s2, da, db, a, b, r)
  {
    var cb := CtxFor(c.w, s1, c.base, c.stops, fr2, b);
    assert c.stops + {} + {} == c.stops;
    var out0 := Flow(c.w, c.origin, c.base, c.stops, r);
    var out1 := Flow(c.w, s1, c.base, c.stops, r);
    var out2 := Flow(c.w, s2, c.base, c.stops, r);
    match out0
    case Stuck =>
    case Stop(j, r1) =>
    case Fall(r1, _) =>
      assert out1.Fall?;
      assert cb.want(r) == Val(Eval(c.w, b, out1.regs), out1.regs);
      assert out2.Fall?;
      EvalAgree(c.w, b, out1.regs, r1, s1.nactvar);
      MainValueLater(c.w, s1, s2, da, fr2, out1.regs, out2.regs);
  }

  /** Context in which a settled operand is moved to a register after the other one. */
  ghost function CtxLate(w: World, s: Frag, base: nat, stops: set<nat>, fr: nat, d: ExpDesc): Ctx {
    Ctx(w, s, base, stops, fr, -1, (r: Regs) => Late(w, s, base, stops, d, r))
  }

  ghost function Late(w: World, s: Frag, base: nat, stops: set<nat>, d: ExpDesc, r: Regs): Expect {
    match Flow(w, s, base, stops, r)
    case Fall(r1, _) => Val(MainValue(w, s, d, r1), r1)
    case Stop(j, r1) => if j in stops then Early(j, r1) else Any
    case Stuck => Any
  }

  lemma LateDenotes(c: Ctx, s: Frag, fr: nat, d: ExpDesc)
    requires CtxShape(c, s) && Settled(d) && MainIndex(s, d) && !d.k.VNonReloc?
    requires s.nactvar <= fr <= MAXREGS
    ensures Denotes(CtxLate(c.w, s, c.base, c.stops, fr, d), s, d, {}, {})
  {
    var cl := CtxLate(c.w, s, c.base, c.stops, fr, d);
    forall r: Regs ensures MatchAt(cl, s, d, {}, {}, r) {
      assert c.stops + {} + {} == c.stops;
    }
  }

  lemma PairLate(c: Ctx, s: Frag, s': Frag, fr: nat, da: ExpDesc, da': ExpDesc, db: ExpDesc, a: Expr, b: Expr)
    requires Pair(c, s, da, db, a, b) && BelowFree(db, fr) && c.fr <= fr
    requires Denotes(CtxLate(c.w, s, c.base, c.stops, fr, da), s', da', {}, {}) && Settled(da')
    ensures Pair(c, s', da', db, a, b)
  {
    var cl := CtxLate(c.w, s, c.base, c.stops, fr, da);
    ExtendsTransitive(c.origin, s, s');
    forall r: Regs ensures PairAt(c, s', da', db, a, b, r) {
      assert PairAt(c, s, da, db, a, b, r);
      assert MatchAt(cl, s', da', {}, {}, r);
      assert c.stops + {} + {} == c.stops;
      var out, out' := Flow(c.w, s, c.base, c.stops, r), Flow(c.w, s', c.base, c.stops, r);
      if out.Fall? && out'.Fall? {
        MainValueLater(c.w, s, s', db, fr, out.regs, out'.regs);
      }
    }
  }

  lemma PairSwap(c: Ctx, s: Frag, da: ExpDesc, db: ExpDesc, a: Expr, b: Expr)
    requires Pair(c, s, da, db, a, b)
    ensures Pair(c, s, db, da, b, a)
  {
    forall r: Regs ensures PairAt(c, s, db, da, b, a, r) {
      assert PairAt(c, s, da, db, a, b, r);
    }
  }

  lemma PairMoreConstants(c: Ctx, s: Frag, s': Frag, da: ExpDesc, da': ExpDesc, db: ExpDesc, a: Expr, b: Expr)
    requires Pair(c, s, da, db, a, b) && s' == s.(k := s'.k) && s.k <= s'.k
    requires Settled(da') && MainIndex(s', da') &&
      forall r: Regs :: MainValue(c.w, s', da', r) == MainValue(c.w, s, da, r)
    ensures Pair(c, s', da', db, a, b)
  {
    hide Run, RunJump, Flow, MainValue, Eval, Agree, PairAt;
    forall r: Regs ensures PairAt(c, s', da', db, a, b, r) {
      PairAtMore(c, s, s', da, da', db, a, b, r);
    }
  }

  lemma PairAtMore(c: Ctx, s: Frag, s': Frag, da: ExpDesc, da': ExpDesc, db: ExpDesc, a: Expr, b: Expr, r: Regs)
    requires PairAt(c, s, da, db, a, b, r) && s' == s.(k := s'.k) && s.k <= s'.k && Settled(db) && MainIndex(s, db)
    requires forall r: Regs :: MainValue(c.w, s', da', r) == MainValue(c.w, s, da, r)
    ensures PairAt(c, s', da', db, a, b, r)
  {
    hide Run, RunJump, MainValue, Eval, Agree, MainIndex;
    RunMoreConstants(c.w, s.k, s'.k, s.code, c.stops, c.base, true, r);
    var out := Flow(c.w, s, c.base, c.stops, r);
    if out.Fall? { MainValueMore(c.w, s, s', db, out.regs); }
  }

  lemma MainValueMore(w: World, s: Frag, s': Frag, d: ExpDesc, r: Regs)
    requires Settled(d) && MainIndex(s, d) && s' == s.(k := s'.k) && s.k <= s'.k
    ensures MainIndex(s', d) && MainValue(w, s', d, r) == MainValue(w, s, d, r)
  {
  }

  /** `test` is taken exactly when the comparison holds of the two operands (if
      `prim`, provided the first one is not an object). */
  ghost predicate Tests(w: World, s: Frag, da: ExpDesc, db: ExpDesc, test: Instr, op: CmpOp, prim: bool) {
    && KnownTest(s.k, test) && IsComparison(test)
    && forall r: Regs :: (prim ==> !MainValue(w, s, da, r).Obj?) ==>
         Taken(w, s.k, test, r) == Compare(w, op, MainValue(w, s, da, r), MainValue(w, s, db, r))
  }

  /** The first operand is never an object when the code reaches it. */
  ghost predicate PrimAt(c: Ctx, a: Expr, r: Regs) {
    var out := Flow(c.w, c.origin, c.base, c.stops, r);
    out.Fall? ==> !Eval(c.w, a, out.regs).Obj?
  }

  lemma ConstantIsPrim(c: Ctx, s: Frag, d: ExpDesc, a: Expr, r: Regs)
    requires c == CtxFor(c.w, c.origin, c.base, c.stops, c.fr, a)
    requires Denotes(c, s, d, {}, {}) && (d.k.VKInt? || d.k.VK?)
    requires forall i :: 0 <= i < |s.k| ==> !s.k[i].Obj?
    ensures PrimAt(c, a, r)
  {
    assert MatchAt(c, s, d, {}, {}, r);
  }

  lemma CompareDenotes(c: Ctx, s: Frag, s': Frag, da: ExpDesc, db: ExpDesc, d: ExpDesc, a: Expr, b: Expr,
                       op: CmpOp, test: Instr, prim: bool)
    requires Pair(c, s, da, db, a, b) && Tests(c.w, s, da, db, test, op, prim)
    requires prim ==> forall r: Regs :: PrimAt(c, a, r)
    requires s' == s.(code := s.code + [test, Jmp(NO_JUMP)]) && d.k == VJmp(|s.code| + 1)
    ensures Denotes(CtxFor(c.w, c.origin, c.base, c.stops, c.fr, ECmp(op, a, b)), s', d, {}, {})
  {
    hide Run, RunJump, Effect, IsLoad;
    var ce := CtxFor(c.w, c.origin, c.base, c.stops, c.fr, ECmp(op, a, b));
    assert s'.code[|s.code|] == test && s'.code[|s.code| + 1] == Jmp(NO_JUMP);
    assert Body(s', d) == s by { assert s'.code[..|s.code|] == s.code; }
    forall p | 0 <= p < |s.code| ensures s'.code[p] == s.code[p] { }
    ExtendsTransitive(c.origin, s, s');
    forall r: Regs ensures MatchAt(ce, s', d, {}, {}, r) {
      assert PairAt(c, s, da, db, a, b, r);
      assert prim ==> PrimAt(c, a, r);
      assert c.stops + {} + {} == c.stops;
    }
  }

  /** A constant-free leaf: nothing emitted, the descriptor is the expression. */
  lemma LeafDenotes(w: World, s: Frag, base: nat, stops: set<nat>, fr: nat, e: Expr, d: ExpDesc)
    requires base <= |s.code| && s.nactvar <= fr <= MAXREGS
    requires forall j :: j in stops ==> j < |s.code| && s.code[j].Jmp?
    requires !d.k.VJmp? && !d.k.VReloc? && !d.k.VNonReloc? && !d.k.VK?
    requires d.k.VLocal? ==> d.k.sidx < s.nactvar
    requires d.k.VUpval? ==> d.k.up < |w.up|
    requires forall r: Regs :: MainValue(w, s, d, r) == Eval(w, e, r)
    ensures Denotes(CtxFor(w, s, base, stops, fr, e), s, d, {}, {})
  {
    var c := CtxFor(w, s, base, stops, fr, e);
    forall r: Regs ensures MatchAt(c, s, d, {}, {}, r) {
      assert stops + {} + {} == stops;
    }
  }

  /** Letting the expression overwrite one register asks for less. */
  lemma ExemptDenotes(c: Ctx, s: Frag, d: ExpDesc, ts: set<nat>, fs: set<nat>, reg: Arg)
    requires Denotes(c, s, d, ts, fs) && c.ex == -1
    ensures Denotes(c.(ex := reg), s, d, ts, fs)
  {
    var c' := c.(ex := reg);
    forall j | j in ts ensures PendingAt(c', Body(s, d).code, j) { assert PendingAt(c, Body(s, d).code, j); }
    forall j | j in fs ensures PendingAt(c', Body(s, d).code, j) { assert PendingAt(c, Body(s, d).code, j); }
    forall r: Regs ensures MatchAt(c', s, d, ts, fs, r) {
      assert MatchAt(c, s, d, ts, fs, r);
    }
  }
}
