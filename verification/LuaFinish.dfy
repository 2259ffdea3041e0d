/**
 The final pass over a function's code: jumps to jumps are threaded to their
 final target, in place, and returns learn what extra work they have to do.
 */
module LuaFinish {
  import opened LuaMachine

  /** Range of the 25-bit signed jump offset. */
  const MAXARG_sJ := 33554431
  const OFFSET_sJ := 16777215

  /** How many jumps `FinalTarget` follows before it gives up. */
  const MAX_HOPS := 100

  /** Where one turn of the interpreter leads from a jump. */
  function Hop(code: seq<Instr>, pc: nat): int
    requires pc < |code| && code[pc].Jmp?
  {
    pc + 1 + code[pc].sj
  }

  /** Every jump stays inside the code. */
  ghost predicate Closed(code: seq<Instr>) {
    forall pc :: 0 <= pc < |code| && code[pc].Jmp? ==> 0 <= Hop(code, pc) < |code|
  }

  /** Control at `pc` reaches instruction `at`, the first that is not a jump, after exactly `n` jumps. */
  ghost predicate Lands(code: seq<Instr>, pc: nat, n: nat, at: nat)
    decreases n
  {
    pc < |code| &&
    if n == 0 then pc == at && !code[pc].Jmp?
    else code[pc].Jmp? && Hop(code, pc) >= 0 && Lands(code, Hop(code, pc), n - 1, at)
  }

  /** Control at `pc` executes `at` after some jumps. */
  ghost predicate Reaches(code: seq<Instr>, pc: nat, at: nat) {
    exists n :: Lands(code, pc, n, at)
  }

  /** Control at `pc` jumps forever. */
  ghost predicate Diverges(code: seq<Instr>, pc: nat) {
    forall at :: !Reaches(code, pc, at)
  }

  /** `to` is `n` jumps further than `pc`. */
  ghost predicate Leads(code: seq<Instr>, pc: nat, n: nat, to: nat)
    decreases n
  {
    pc < |code| &&
    if n == 0 then pc == to
    else code[pc].Jmp? && Hop(code, pc) >= 0 && Leads(code, Hop(code, pc), n - 1, to)
  }

  lemma {:induction false} LeadsThenLands(code: seq<Instr>, pc: nat, m: nat, mid: nat, n: nat, at: nat)
    requires Leads(code, pc, m, mid) && Lands(code, mid, n, at)
    ensures Lands(code, pc, m + n, at)
    decreases m
  {
    if m > 0 {
      LeadsThenLands(code, Hop(code, pc), m - 1, mid, n, at);
    }
  }

  /** What lies ahead of a position on the way also lies ahead further on. */
  lemma {:induction false} LandsAfterLeads(code: seq<Instr>, pc: nat, m: nat, mid: nat, n: nat, at: nat)
    requires Leads(code, pc, m, mid) && Lands(code, pc, n, at)
    ensures m <= n && Lands(code, mid, n - m, at)
    decreases m
  {
    if m > 0 {
      LandsAfterLeads(code, Hop(code, pc), m - 1, mid, n - 1, at);
    }
  }

  lemma {:induction false} LeadsSnoc(code: seq<Instr>, pc: nat, n: nat, mid: nat)
    requires Leads(code, pc, n, mid) && mid < |code| && code[mid].Jmp? && 0 <= Hop(code, mid) < |code|
    ensures Leads(code, pc, n + 1, Hop(code, mid))
    decreases n
  {
    if n > 0 {
      LeadsSnoc(code, Hop(code, pc), n - 1, mid);
    }
  }

  lemma {:induction false} LandsUnique(code: seq<Instr>, pc: nat, m: nat, a: nat, n: nat, b: nat)
    requires Lands(code, pc, m, a) && Lands(code, pc, n, b)
    ensures a == b && m == n
    decreases m
  {
    if m > 0 {
      LandsUnique(code, Hop(code, pc), m - 1, a, n - 1, b);
    }
  }

  // ---------- One rewritten jump ----------

  /** The jump at `i` now goes where it got after `k` jumps. */
  ghost predicate Rethreaded(code: seq<Instr>, code': seq<Instr>, i: nat, k: nat, target: nat) {
    && i < |code| && code[i].Jmp? && k > 0 && Leads(code, i, k, target)
    && code' == code[i := Jmp(target - (i + 1))]
  }

  lemma {:induction false} RethreadedLandsForward(code: seq<Instr>, code': seq<Instr>, i: nat, k: nat, target: nat,
                                                  pc: nat, n: nat, at: nat) returns (n': nat)
    requires Rethreaded(code, code', i, k, target) && Lands(code, pc, n, at)
    ensures n' <= n && Lands(code', pc, n', at)
    decreases n
  {
    if n == 0 {
      n' := 0;
    } else if pc == i {
      LandsAfterLeads(code, i, k, target, n, at);
      var m := RethreadedLandsForward(code, code', i, k, target, target, n - k, at);
      n' := m + 1;
    } else {
      var m := RethreadedLandsForward(code, code', i, k, target, Hop(code, pc), n - 1, at);
      n' := m + 1;
    }
  }

  lemma {:induction false} RethreadedLandsBack(code: seq<Instr>, code': seq<Instr>, i: nat, k: nat, target: nat,
                                               pc: nat, n: nat, at: nat) returns (n': nat)
    requires Rethreaded(code, code', i, k, target) && Lands(code', pc, n, at)
    ensures Lands(code, pc, n', at)
    decreases n
  {
    if n == 0 {
      n' := 0;
    } else if pc == i {
      var m := RethreadedLandsBack(code, code', i, k, target, target, n - 1, at);
      LeadsThenLands(code, i, k, target, m, at);
      n' := k + m;
    } else {
      var m := RethreadedLandsBack(code, code', i, k, target, Hop(code, pc), n - 1, at);
      n' := m + 1;
    }
  }

  lemma RethreadedReaches(code: seq<Instr>, code': seq<Instr>, i: nat, k: nat, target: nat)
    requires Rethreaded(code, code', i, k, target)
    ensures SameControl(code, code')
  {
    forall pc: nat, at: nat ensures Reaches(code', pc, at) <==> Reaches(code, pc, at) {
      if Reaches(code, pc, at) {
        var n :| Lands(code, pc, n, at);
        var _ := RethreadedLandsForward(code, code', i, k, target, pc, n, at);
      }
      if Reaches(code', pc, at) {
        var n :| Lands(code', pc, n, at);
        var _ := RethreadedLandsBack(code, code', i, k, target, pc, n, at);
      }
    }
  }

  /** Control reaches the same instructions from every position. */
  ghost predicate SameControl(code: seq<Instr>, code': seq<Instr>) {
    forall pc: nat, at: nat :: Reaches(code', pc, at) <==> Reaches(code, pc, at)
  }

  // ---------- Returns ----------

  /** What the pass turns an instruction other than a jump into. */
  function FinishReturn(i: Instr, needclose: bool, isVararg: bool, numparams: nat): Instr {
    match i
    case Return0 => if needclose ||
      isVararg then FinishCall(Return(0, 1, 0, false), needclose, isVararg, numparams) else i
    case Return1(a) => if needclose ||
      isVararg then FinishCall(Return(a, 2, 0, false), needclose, isVararg, numparams) else i
    case Return(_, _, _, _) => FinishCall(i, needclose, isVararg, numparams)
    case TailCall(_, _, _, _) => FinishCall(i, needclose, isVararg, numparams)
    case _ => i
  }

  function FinishCall(i: Instr, needclose: bool, isVararg: bool, numparams: nat): Instr
    requires i.Return? || i.TailCall?
  {
    var c := if isVararg then numparams + 1 else i.c;
    var k := if needclose then true else i.kbit;
    if i.Return? then Return(i.a, i.b, c, k) else TailCall(i.a, i.b, c, k)
  }

  predicate LeavesFunction(i: Instr) {
    i.Return? || i.Return0? || i.Return1? || i.TailCall?
  }

  /** What the interpreter does where it leaves a function: whether it calls another in its place,
      how many values it takes from which register on (-1 for all up to the top), whether it closes
      upvalues, and by how much more than the extra arguments it takes the frame back, if at all. */
  datatype Exit = Exit(tail: bool, first: nat, values: int, closes: bool, back: nat)

  function ExitOf(i: Instr): Exit
    requires LeavesFunction(i)
  {
    match i
    case Return(a, b, c, k) => Exit(false, if b == 1 then 0 else a, b - 1, k, c)
    case Return0 => Exit(false, 0, 0, false, 0)
    case Return1(a) => Exit(false, a, 1, false, 0)
    case TailCall(a, b, c, k) => Exit(true, a, b - 1, k, c)
  }

  /** Where the frame of a call starts: a vararg function with `args` arguments moves it behind
      them. */
  function Entered(func: nat, isVararg: bool, args: nat): nat {
    if isVararg then func + args + 1 else func
  }

  /** Where it starts when the function has been left. */
  function LeftAt(e: Exit, func: int, extra: nat): int {
    if e.back != 0 then func - (extra + e.back) else func
  }

  /** The pass leaves the values returned, or the function and arguments of a tail call, as they
      are, and adds the work that is to be done: upvalues are closed if the function needs it, and
      the frame of a vararg function, whatever its number of arguments, goes back to where it was. */
  lemma ReturnDone(i: Instr, needclose: bool, isVararg: bool, numparams: nat, func: nat, args: nat)
    requires LeavesFunction(i) && ExitOf(i).back == 0 && args >= numparams
    ensures
      var i' := FinishReturn(i, needclose, isVararg, numparams);
      LeavesFunction(i') && ExitOf(i').tail == ExitOf(i).tail && ExitOf(i').first == ExitOf(i).first &&
      ExitOf(i').values == ExitOf(i).values &&
      (ExitOf(i').closes <==> needclose || ExitOf(i).closes) &&
      LeftAt(ExitOf(i'), Entered(func, isVararg, args), args - numparams) == func
  {
  }

  lemma SameJumpsSameControl(code: seq<Instr>, code': seq<Instr>)
    requires |code| == |code'|
    requires forall p :: 0 <= p < |code| ==> code'[p] == code[p] || (!code[p].Jmp? && !code'[p].Jmp?)
    ensures SameControl(code, code')
  {
    forall pc: nat, at: nat ensures Reaches(code', pc, at) <==> Reaches(code, pc, at) {
      if Reaches(code, pc, at) {
        var n :| Lands(code, pc, n, at);
        SameJumpsLands(code, code', pc, n, at);
      }
      if Reaches(code', pc, at) {
        var n :| Lands(code', pc, n, at);
        SameJumpsLands(code', code, pc, n, at);
      }
    }
  }

  lemma {:induction false} SameJumpsLands(code: seq<Instr>, code': seq<Instr>, pc: nat, n: nat, at: nat)
    requires |code| == |code'|
    requires forall p :: 0 <= p < |code| ==> code'[p] == code[p] || (!code[p].Jmp? && !code'[p].Jmp?)
    requires Lands(code, pc, n, at)
    ensures Lands(code', pc, n, at)
    decreases n
  {
    if n > 0 {
      SameJumpsLands(code, code', Hop(code, pc), n - 1, at);
    }
  }

  // ---------- The pass ----------

  /** The final target of a jump, skipping jumps to jumps, but at most 100 of them. */
  method FinalTarget(code: array<Instr>, i: nat) returns (target: nat, ghost hops: nat)
    requires i < code.Length && Closed(code[..])
    ensures Leads(code[..], i, hops, target) && target < code.Length
    ensures hops <= MAX_HOPS && (hops < MAX_HOPS ==> !code[target].Jmp?)
    ensures code[i].Jmp? ==> hops > 0
  {
    target, hops := i, 0;
    var count := 0;
    while count < MAX_HOPS && code[target].Jmp?
      invariant count == hops <= MAX_HOPS && target < code.Length
      invariant Leads(code[..], i, hops, target)
      invariant code[i].Jmp? && hops == 0 ==> target == i
    {
      LeadsSnoc(code[..], i, hops, target);
      target := target + 1 + code[target].sj;
      count, hops := count + 1, hops + 1;
    }
  }

  predicate FitsJump(offset: int) {
    -OFFSET_sJ <= offset <= MAXARG_sJ - OFFSET_sJ
  }

  /** `to` is at least `n` jumps further than `pc`. */
  ghost predicate LeadsFar(code: seq<Instr>, pc: nat, n: nat, to: nat) {
    exists m: nat :: m >= n && Leads(code, pc, m, to)
  }

  /** Whatever is some jumps further in the new code is as many or more further in the old. */
  ghost predicate SameWay(code: seq<Instr>, code': seq<Instr>) {
    forall pc: nat, n: nat, to: nat :: Leads(code', pc, n, to) ==> LeadsFar(code, pc, n, to)
  }

  /** Control lands in the new code where it landed in the old, after no more jumps. */
  ghost predicate NoFurther(code: seq<Instr>, code': seq<Instr>) {
    forall pc: nat, n: nat, at: nat :: Lands(code, pc, n, at) ==> LandsWithin(code', pc, n, at)
  }

  ghost predicate LandsWithin(code: seq<Instr>, pc: nat, n: nat, at: nat) {
    exists m: nat :: m <= n && Lands(code, pc, m, at)
  }

  lemma RethreadedNear(code0: seq<Instr>, code: seq<Instr>, code': seq<Instr>, i: nat, k: nat, target: nat)
    requires NoFurther(code0, code) && Rethreaded(code, code', i, k, target)
    ensures NoFurther(code0, code')
  {
    forall pc: nat, n: nat, at: nat | Lands(code0, pc, n, at) ensures LandsWithin(code', pc, n, at) {
      var m: nat :| m <= n && Lands(code, pc, m, at);
      var m' := RethreadedLandsForward(code, code', i, k, target, pc, m, at);
    }
  }

  lemma SameJumpsNear(code0: seq<Instr>, code: seq<Instr>, code': seq<Instr>)
    requires NoFurther(code0, code) && |code| == |code'|
    requires forall p :: 0 <= p < |code| ==> code'[p] == code[p] || (!code[p].Jmp? && !code'[p].Jmp?)
    ensures NoFurther(code0, code')
  {
    forall pc: nat, n: nat, at: nat | Lands(code0, pc, n, at) ensures LandsWithin(code', pc, n, at) {
      var m: nat :| m <= n && Lands(code, pc, m, at);
      SameJumpsLands(code, code', pc, m, at);
    }
  }

  /** The target found is where control lands, if it lands within a hundred jumps. */
  lemma TargetFound(code0: seq<Instr>, code: seq<Instr>, i: nat, hops: nat, target: nat)
    requires NoFurther(code0, code) && Leads(code, i, hops, target) && target < |code|
    requires hops <= MAX_HOPS && (hops < MAX_HOPS ==> !code[target].Jmp?)
    ensures forall n: nat, at: nat :: n <= MAX_HOPS && Lands(code0, i, n, at) ==> target == at
  {
    forall n: nat, at: nat | n <= MAX_HOPS && Lands(code0, i, n, at) ensures target == at {
      var m: nat :| m <= n && Lands(code, i, m, at);
      LandsAfterLeads(code, i, hops, target, m, at);
    }
  }

  /** The jump at `p` goes straight to where control landed within a hundred jumps. */
  ghost predicate Straight(code0: seq<Instr>, p: nat, i: Instr) {
    forall n: nat, at: nat :: n <= 100 && Lands(code0, p, n, at) ==> i == Jmp(at - (p + 1))
  }

  lemma {:induction false} LeadsThenLeads(code: seq<Instr>, pc: nat, m: nat, mid: nat, n: nat, to: nat)
    requires Leads(code, pc, m, mid) && Leads(code, mid, n, to)
    ensures Leads(code, pc, m + n, to)
    decreases m
  {
    if m > 0 { LeadsThenLeads(code, Hop(code, pc), m - 1, mid, n, to); }
  }

  lemma {:induction false} RethreadedLeads(code: seq<Instr>, code': seq<Instr>, i: nat, k: nat, target: nat, pc: nat,
                                           n: nat, to: nat) returns (m: nat)
    requires Rethreaded(code, code', i, k, target) && Leads(code', pc, n, to)
    ensures m >= n && Leads(code, pc, m, to)
    decreases n
  {
    if n == 0 {
      m := 0;
    } else if pc == i {
      var rest := RethreadedLeads(code, code', i, k, target, target, n - 1, to);
      LeadsThenLeads(code, i, k, target, rest, to);
      m := k + rest;
    } else {
      var rest := RethreadedLeads(code, code', i, k, target, Hop(code, pc), n - 1, to);
      m := rest + 1;
    }
  }

  lemma RethreadedWay(code0: seq<Instr>, code: seq<Instr>, code': seq<Instr>, i: nat, k: nat, target: nat)
    requires SameWay(code0, code) && Rethreaded(code, code', i, k, target)
    ensures SameWay(code0, code')
  {
    forall pc: nat, n: nat, to: nat | Leads(code', pc, n, to) ensures LeadsFar(code0, pc, n, to) {
      var m := RethreadedLeads(code, code', i, k, target, pc, n, to);
      assert LeadsFar(code0, pc, m, to);
    }
  }

  lemma {:induction false} SameJumpsLeads(code: seq<Instr>, code': seq<Instr>, pc: nat, n: nat, to: nat)
    requires |code| == |code'| && Leads(code', pc, n, to)
    requires forall p :: 0 <= p < |code| ==> code'[p] == code[p] || (!code[p].Jmp? && !code'[p].Jmp?)
    ensures Leads(code, pc, n, to)
    decreases n
  {
    if n > 0 { SameJumpsLeads(code, code', Hop(code', pc), n - 1, to); }
  }

  lemma SameJumpsWay(code0: seq<Instr>, code: seq<Instr>, code': seq<Instr>)
    requires SameWay(code0, code) && |code| == |code'|
    requires forall p :: 0 <= p < |code| ==> code'[p] == code[p] || (!code[p].Jmp? && !code'[p].Jmp?)
    ensures SameWay(code0, code')
  {
    forall pc: nat, n: nat, to: nat | Leads(code', pc, n, to) ensures LeadsFar(code0, pc, n, to) {
      SameJumpsLeads(code, code', pc, n, to);
    }
  }

  lemma NoFurtherSame(code: seq<Instr>)
    ensures NoFurther(code, code)
  {
    forall pc: nat, n: nat, at: nat | Lands(code, pc, n, at) ensures LandsWithin(code, pc, n, at) { }
  }

  lemma SameWaySame(code: seq<Instr>)
    ensures SameWay(code, code)
  {
    forall pc: nat, n: nat, to: nat | Leads(code, pc, n, to) ensures LeadsFar(code, pc, n, to) { }
  }

  /** The jump at `p` leads out of its reach: to the first instruction that is not a jump, or, if
      that is more than a hundred jumps further, to some jump on the way. */
  ghost predicate OutOfReach(code: seq<Instr>, p: nat, to: nat) {
    p < |code| && code[p].Jmp? && to < |code| && !(-16777215 <= to - (p + 1) <= 16777216) &&
    LeadsFar(code, p, if code[to].Jmp? then 100 else 1, to)
  }

  /** The two codes have their jumps at the same places and agree on every other
      instruction the machine executes. */
  ghost predicate SameWork(code: seq<Instr>, code': seq<Instr>) {
    && |code'| == |code|
    && forall p :: 0 <= p < |code| ==> SameWorkAt(code[p], code'[p])
  }

  predicate SameValues(e: Exit, e': Exit) {
    e'.tail == e.tail && e'.first == e.first && e'.values == e.values
  }

  ghost predicate SameWorkAt(i: Instr, i': Instr) {
    if i.Jmp? then i'.Jmp?
    else i' == i || (LeavesFunction(i) && LeavesFunction(i') && SameValues(ExitOf(i), ExitOf(i')))
  }

  /** What the pass makes of instruction `p`. */
  ghost predicate FinishedAt(code0: seq<Instr>, p: nat, i: Instr, needclose: bool, isVararg: bool, numparams: nat)
    requires p < |code0|
  {
    if code0[p].Jmp? then i.Jmp? && FitsJump(i.sj) && Straight(code0, p, i)
    else i == FinishReturn(code0[p], needclose, isVararg, numparams)
  }

  /** The pass has come to instruction `n`. */
  ghost predicate Finishing(code0: seq<Instr>, code: seq<Instr>, n: nat, needclose: bool, isVararg: bool,
      numparams: nat)
  {
    n <= |code| == |code0| && Closed(code) &&
    SameControl(code0, code) && SameWay(code0, code) && NoFurther(code0, code) &&
    (forall p :: 0 <= p < n ==> FinishedAt(code0, p, code[p], needclose, isVararg, numparams)) &&
    (forall p :: n <= p < |code| ==> code[p] == code0[p])
  }

  lemma FinishStarts(code: seq<Instr>, needclose: bool, isVararg: bool, numparams: nat)
    requires Closed(code)
    ensures Finishing(code, code, 0, needclose, isVararg, numparams)
  {
    SameWaySame(code);
    NoFurtherSame(code);
  }

  lemma FinishReads(code0: seq<Instr>, code: seq<Instr>, n: nat, needclose: bool, isVararg: bool, numparams: nat)
    requires Finishing(code0, code, n, needclose, isVararg, numparams)
    ensures Closed(code) && |code| == |code0|
  {
  }

  lemma JumpsStay(code0: seq<Instr>, code: seq<Instr>, n: nat, needclose: bool, isVararg: bool, numparams: nat)
    requires Finishing(code0, code, n, needclose, isVararg, numparams)
    ensures |code| == |code0| && forall p :: 0 <= p < |code| ==> code[p].Jmp? == code0[p].Jmp?
  {
    forall p | 0 <= p < |code| ensures code[p].Jmp? == code0[p].Jmp? {
      if p < n { assert FinishedAt(code0, p, code[p], needclose, isVararg, numparams); }
    }
  }

  /** A jump is led to its target. */
  lemma FinishJump(code0: seq<Instr>, code: seq<Instr>, code': seq<Instr>, i: nat, hops: nat, target: nat,
      needclose: bool, isVararg: bool, numparams: nat)
    requires Finishing(code0, code, i, needclose, isVararg, numparams) && i < |code|
    requires Rethreaded(code, code', i, hops, target) && target < |code| && FitsJump(target - (i + 1))
    requires hops <= MAX_HOPS && (hops < MAX_HOPS ==> !code[target].Jmp?)
    ensures Finishing(code0, code', i + 1, needclose, isVararg, numparams)
  {
    hide SameControl, SameWay, NoFurther, FinishReturn, Leads;
    TargetFound(code0, code, i, hops, target);
    RethreadedReaches(code, code', i, hops, target);
    ControlTwice(code0, code, code');
    RethreadedNear(code0, code, code', i, hops, target);
    RethreadedWay(code0, code, code', i, hops, target);
    assert FinishedAt(code0, i, code'[i], needclose, isVararg, numparams);
    forall p | 0 <= p < i ensures FinishedAt(code0, p, code'[p], needclose, isVararg, numparams) {
      assert code'[p] == code[p];
    }
  }

  lemma ControlTwice(code0: seq<Instr>, code: seq<Instr>, code': seq<Instr>)
    requires SameControl(code0, code) && SameControl(code, code')
    ensures SameControl(code0, code')
  {
    hide Reaches;
  }

  /** Any other instruction learns what it has to do. */
  lemma FinishOther(code0: seq<Instr>, code: seq<Instr>, code': seq<Instr>, i: nat, needclose: bool, isVararg: bool,
      numparams: nat)
    requires Finishing(code0, code, i, needclose, isVararg, numparams) && i < |code| && !code[i].Jmp?
    requires code' == code[i := FinishReturn(code[i], needclose, isVararg, numparams)]
    ensures Finishing(code0, code', i + 1, needclose, isVararg, numparams)
  {
    hide SameControl, SameWay, NoFurther;
    SameJumpsSameControl(code, code');
    ControlTwice(code0, code, code');
    SameJumpsNear(code0, code, code');
    SameJumpsWay(code0, code, code');
    forall p | 0 <= p < i ensures FinishedAt(code0, p, code'[p], needclose, isVararg, numparams) {
      assert code'[p] == code[p];
    }
  }

  lemma FinishEnds(code0: seq<Instr>, code: seq<Instr>, needclose: bool, isVararg: bool, numparams: nat)
    requires Finishing(code0, code, |code|, needclose, isVararg, numparams)
    ensures |code| == |code0| && Closed(code) && SameControl(code0, code) && SameWork(code0, code)
    ensures forall p :: 0 <= p < |code| ==> FinishedAt(code0, p, code[p], needclose, isVararg, numparams)
  {
    hide SameControl, SameWay, NoFurther, Closed, Straight;
    forall p | 0 <= p < |code| ensures SameWorkAt(code0[p], code[p]) {
      assert FinishedAt(code0, p, code[p], needclose, isVararg, numparams);
    }
  }

  lemma Stranded(code0: seq<Instr>, code: seq<Instr>, i: nat, hops: nat, target: nat, needclose: bool,
      isVararg: bool, numparams: nat)
    requires Finishing(code0, code, i, needclose, isVararg, numparams) && i < |code| && code[i].Jmp?
    requires Leads(code, i, hops, target) && target < |code| && hops > 0 && !FitsJump(target - (i + 1))
    requires hops < MAX_HOPS ==> !code[target].Jmp?
    ensures OutOfReach(code0, i, target)
  {
    JumpsStay(code0, code, i, needclose, isVararg, numparams);
    assert LeadsFar(code0, i, hops, target);
  }

  /** The pass itself.  It fails ("control structure too long") only if some jump's
      final target is out of the offset's reach.  From every position, control then
      reaches exactly the instruction it reached before (hence diverges in jumps
      exactly when it did before), and that instruction is the one it was, up to the
      extra work of returns.  Jumps stay jumps and go straight to where they led within a
      hundred jumps. */
  method Finish(code: array<Instr>, needclose: bool, isVararg: bool, numparams: nat) returns (ok: bool)
    requires Closed(code[..])
    modifies code
    ensures ok ==> Closed(code[..]) && SameControl(old(code[..]), code[..])
    ensures ok ==> forall p :: 0 <= p < code.Length && !old(code[p]).Jmp? ==>
              code[p] == FinishReturn(old(code[p]), needclose, isVararg, numparams)
    ensures ok ==> forall p :: 0 <= p < code.Length && old(code[p]).Jmp? ==>
              code[p].Jmp? && -16777215 <= code[p].sj <= 16777216
    ensures ok ==> forall p :: 0 <= p < code.Length && old(code[p]).Jmp? ==> Straight(old(code[..]), p, code[p])
    ensures ok ==> SameWork(old(code[..]), code[..])
    ensures !ok ==> exists p: nat, to: nat :: OutOfReach(old(code[..]), p, to)
    ensures code.Length <= OFFSET_sJ ==> ok
  {
    hide Finishing, FinishReturn, SameControl, SameWork, Straight, OutOfReach;
    ghost var code0 := code[..];
    FinishStarts(code0, needclose, isVararg, numparams);
    var i := 0;
    while i < code.Length
      invariant 0 <= i <= code.Length && Finishing(code0, code[..], i, needclose, isVararg, numparams)
    {
      ghost var before := code[..];
      FinishReads(code0, before, i, needclose, isVararg, numparams);
      if code[i].Jmp? {
        var target;
        ghost var hops;
        target, hops := FinalTarget(code, i);
        var offset := target - (i + 1);
        if !FitsJump(offset) {
          Stranded(code0, before, i, hops, target, needclose, isVararg, numparams);
          return false;
        }
        code[i] := Jmp(offset);
        assert code[..] == before[i := Jmp(offset)];
        FinishJump(code0, before, code[..], i, hops, target, needclose, isVararg, numparams);
      } else {
        code[i] := FinishReturn(code[i], needclose, isVararg, numparams);
        assert code[..] == before[i := FinishReturn(before[i], needclose, isVararg, numparams)];
        FinishOther(code0, before, code[..], i, needclose, isVararg, numparams);
      }
      i := i + 1;
    }
    FinishEnds(code0, code[..], needclose, isVararg, numparams);
    forall p | 0 <= p < code.Length
      ensures FinishedAt(code0, p, code[p], needclose, isVararg, numparams) && code0[p] == old(code[p])
    {
      assert code[..][p] == code[p];
    }
    return true;
  }

  /** Same control implies diverging in jumps exactly when the original did. */
  lemma SameControlDiverges(code: seq<Instr>, code': seq<Instr>, pc: nat)
    requires SameControl(code, code')
    ensures Diverges(code', pc) <==> Diverges(code, pc)
  {
    assert forall at: nat :: Reaches(code', pc, at) <==> Reaches(code, pc, at);
  }

  // ---------- Execution ----------

  lemma {:induction false} WrongStays(w: World, k: seq<Value>, code: seq<Instr>, n: nat)
    ensures Steps(w, k, code, n, Wrong) == Wrong
  {
    if n > 0 { WrongStays(w, k, code, n - 1); }
  }

  lemma {:induction false} LandsExecutes(w: World, k: seq<Value>, code: seq<Instr>, pc: nat, n: nat, at: nat, r: Regs)
    requires Lands(code, pc, n, at)
    ensures Steps(w, k, code, n, Running(pc, r)) == Running(at, r)
    decreases n
  {
    if n > 0 { LandsExecutes(w, k, code, Hop(code, pc), n - 1, at, r); }
  }

  /** An execution that ends at an instruction other than a jump first lands somewhere. */
  lemma {:induction false} ExecutionLands(w: World, k: seq<Value>, code: seq<Instr>, pc: int, n: nat, r: Regs, q: nat,
      r': Regs)
    returns (m: nat, at: nat)
    requires Steps(w, k, code, n, Running(pc, r)) == Running(q, r')
    requires q < |code| && !code[q].Jmp?
    ensures pc >= 0 && m <= n && Lands(code, pc, m, at)
    ensures Steps(w, k, code, n - m, Running(at, r)) == Running(q, r')
    decreases n
  {
    if n == 0 {
      m, at := 0, q;
    } else {
      if !(0 <= pc < |code|) { WrongStays(w, k, code, n - 1); }
      if code[pc].Jmp? {
        m, at := ExecutionLands(w, k, code, Hop(code, pc), n - 1, r, q, r');
        m := m + 1;
      } else {
        m, at := 0, pc;
      }
    }
  }

  /** Whatever one code executes up to an instruction other than a jump, the other
      executes too, with the same registers. */
  lemma {:induction false} ExecutionKept(w: World, k: seq<Value>, code: seq<Instr>, code': seq<Instr>,
                                         pc: int, n: nat, r: Regs, q: nat, r': Regs) returns (n': nat)
    requires SameControl(code, code') && SameWork(code, code')
    requires Steps(w, k, code, n, Running(pc, r)) == Running(q, r')
    requires q < |code| && !code[q].Jmp?
    ensures Steps(w, k, code', n', Running(pc, r)) == Running(q, r')
    decreases n
  {
    var m, at := ExecutionLands(w, k, code, pc, n, r, q, r');
    assert Reaches(code, pc, at);
    var m' :| Lands(code', pc, m', at);
    LandsExecutes(w, k, code', pc, m', at, r);
    if n == m {
      n' := m';
    } else {
      LandedNotJump(code, pc, m, at);
      var o := KeptFrom(w, k, code, code', at, n - m, r, q, r');
      StepsCompose(w, k, code', m', o, Running(pc, r));
      n' := m' + o;
    }
  }

  lemma {:induction false} LandedNotJump(code: seq<Instr>, pc: nat, n: nat, at: nat)
    requires Lands(code, pc, n, at)
    ensures at < |code| && !code[at].Jmp?
    decreases n
  {
    if n > 0 { LandedNotJump(code, Hop(code, pc), n - 1, at); }
  }

  /** Both codes do the same step at an instruction other than a jump, up to where a taken jump leads. */
  lemma StepKept(w: World, k: seq<Value>, code: seq<Instr>, code': seq<Instr>, at: nat, r: Regs)
    requires SameWork(code, code') && at < |code| && !code[at].Jmp? && !Step(w, k, code, Running(at, r)).Wrong?
    ensures code'[at] == code[at]
    ensures !(IsTest(code[at]) && Taken(w, k, code[at], r)) ==>
      Step(w, k, code', Running(at, r)) == Step(w, k, code, Running(at, r))
    ensures IsTest(code[at]) && Taken(w, k, code[at], r) ==>
      && at + 1 < |code| && code[at + 1].Jmp? && code'[at + 1].Jmp?
      && Step(w, k, code, Running(at, r)) == Running(Hop(code, at + 1), Effect(w, k, code[at], r))
      && Step(w, k, code', Running(at, r)) == Running(Hop(code', at + 1), Effect(w, k, code[at], r))
  {
    assert SameWorkAt(code[at], code'[at]);
    if at + 1 < |code| { assert SameWorkAt(code[at + 1], code'[at + 1]); }
  }

  /** `ExecutionKept` from an instruction other than a jump. */
  lemma {:induction false} KeptFrom(w: World, k: seq<Value>, code: seq<Instr>, code': seq<Instr>,
                                    at: nat, n: nat, r: Regs, q: nat, r': Regs) returns (n': nat)
    requires SameControl(code, code') && SameWork(code, code')
    requires at < |code| && !code[at].Jmp? && n > 0
    requires Steps(w, k, code, n, Running(at, r)) == Running(q, r')
    requires q < |code| && !code[q].Jmp?
    ensures Steps(w, k, code', n', Running(at, r)) == Running(q, r')
    decreases n, 0
  {
    hide Effect, Condition, Taken, Step, SameWork;
    var c1 := Step(w, k, code, Running(at, r));
    if c1.Wrong? { WrongStays(w, k, code, n - 1); }
    StepKept(w, k, code, code', at, r);
    if IsTest(code[at]) && Taken(w, k, code[at], r) {
      var m, land := ExecutionLands(w, k, code, c1.pc, n - 1, c1.r, q, r');
      assert Lands(code, at + 1, m + 1, land);
      assert Reaches(code, at + 1, land);
      var m' :| Lands(code', at + 1, m', land);
      LandsExecutes(w, k, code', Hop(code', at + 1), m' - 1, land, c1.r);
      LandedNotJump(code, c1.pc, m, land);
      var o := 0;
      if n - 1 - m > 0 {
        o := KeptFrom(w, k, code, code', land, n - 1 - m, c1.r, q, r');
      }
      StepsCompose(w, k, code', m' - 1, o, Running(Hop(code', at + 1), c1.r));
      n' := m' + o;
    } else {
      var o := ExecutionKept(w, k, code, code', c1.pc, n - 1, c1.r, q, r');
      n' := 1 + o;
    }
  }

  /** Threading jumps neither adds nor removes executions: registers and position at
      every instruction other than a jump are the same. */
  lemma ExecutionSame(w: World, k: seq<Value>, code: seq<Instr>, code': seq<Instr>, pc: nat, r: Regs, q: nat, r': Regs)
    requires SameControl(code, code') && SameWork(code, code') && q < |code| && !code[q].Jmp?
    ensures (exists n :: Steps(w, k, code', n, Running(pc, r)) == Running(q, r'))
       <==> (exists n :: Steps(w, k, code, n, Running(pc, r)) == Running(q, r'))
  {
    if n :| Steps(w, k, code, n, Running(pc, r)) == Running(q, r') {
      var _ := ExecutionKept(w, k, code, code', pc, n, r, q, r');
    }
    if n :| Steps(w, k, code', n, Running(pc, r)) == Running(q, r') {
      forall p | 0 <= p < |code| ensures SameWorkAt(code'[p], code[p]) { assert SameWorkAt(code[p], code'[p]); }
      assert SameWorkAt(code[q], code'[q]);
      assert SameControl(code', code);
      var _ := ExecutionKept(w, k, code', code, pc, n, r, q, r');
    }
  }
}
