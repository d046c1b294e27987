/** The emitted code of a statement does, dispatch by dispatch, what the structured statement means. */
module StatementProof {
  import opened Values
  import opened Machine
  import opened Codegen
  import opened ExpressionProof
  import opened Statements

  // ---------------------------------------------------------------- conditions

  /** The comparison a condition is, through parentheses, if it is one. */
  function ComparisonOf(e: Expr): Option<CmpOp> {
    match e
    case Group(e1) => ComparisonOf(e1)
    case Bin(BLt, _, _) => Some(CLt)
    case Bin(BGt, _, _) => Some(CLt)
    case Bin(BLe, _, _) => Some(CLe)
    case Bin(BGe, _, _) => Some(CLe)
    case Bin(BEq, _, _) => Some(CEq)
    case Bin(BNe, _, _) => Some(CNe)
    case _ => None
  }

  /** `>` and `>=` compare their operands the other way round. */
  predicate Swapped(op: BinOp) { op.BGt? || op.BGe? }

  /** The operands a comparison compares, and the heap it finds them in. */
  datatype Sides = Sides(x: Value, y: Value, heap: Heap)

  function SidesOf(p: Prims, e: Expr, env: Env): Sides
    requires ComparisonOf(e).Some?
  {
    match e
    case Group(e1) => SidesOf(p, e1, env)
    case Bin(op, l, r) =>
      var a := Eval(p, l, env);
      var b := Eval(p, r, After(env, a));
      if Swapped(op) then Sides(b.v, a.v, b.h) else Sides(a.v, b.v, b.h)
  }

  /** The only conditions on which a branch goes the wrong way: orderings of two strings that come out
      otherwise than that of zero and zero. */
  predicate CondTrap(p: Prims, e: Expr, env: Env) {
    ComparisonOf(e).Some? && var s := SidesOf(p, e, env); StringOrder(p, s.heap, ComparisonOf(e).value, s.x, s.y)
  }

  /** Whether the emitted branch lets execution into the body. */
  predicate Taken(p: Prims, e: Expr, env: Env) {
    if ComparisonOf(e).Some? then var s := SidesOf(p, e, env); FusedTest(p, s.heap, ComparisonOf(e).value, s.x, s.y)
    else Truthy(Eval(p, e, env).v)
  }

  lemma ComparisonTruth(p: Prims, e: Expr, env: Env)
    requires ComparisonOf(e).Some?
    ensures var s := SidesOf(p, e, env);
            Truthy(Eval(p, e, env).v) == PlainTest(p, s.heap, ComparisonOf(e).value, s.x, s.y) &&
            Eval(p, e, env).h == s.heap
  {
    match e
    case Group(e1) => ComparisonTruth(p, e1, env);
    case Bin(_, _, _) =>
  }

  /** The branch follows the condition exactly outside the trap. */
  lemma TakenExact(p: Prims, e: Expr, env: Env)
    requires SaneZero(p)
    ensures Taken(p, e, env) == Truthy(Eval(p, e, env).v) <==> !CondTrap(p, e, env)
  {
    hide Eval, FusedTest, PlainTest, StringOrder, SidesOf;
    if ComparisonOf(e).Some? {
      var s := SidesOf(p, e, env);
      ComparisonTruth(p, e, env);
      FusionExact(p, s.heap, ComparisonOf(e).value, s.x, s.y);
    }
  }

  /** Parentheses disappear. */
  function Strip(e: Expr): Expr { if e.Group? then Strip(e.e) else e }

  lemma StripFacts(e: Expr, next: int, pool: seq<Const>, sc: Scope)
    ensures Compile(e, -1, false, next, pool, sc) == Compile(Strip(e), -1, false, next, pool, sc)
    ensures ComparisonOf(e) == ComparisonOf(Strip(e)) && IsJoin(e) == IsJoin(Strip(e)) && !Strip(e).Group?
    ensures Safe(e) ==> Safe(Strip(e))
  {
  }

  /** The fused instruction, its operands in the order the comparison reads them. */
  function FusedInstr(e: Expr, cmp: CmpOp, ra: int, rb: int): Instr
    requires e.Bin?
  {
    if Swapped(e.bop) then CmpJmpIfNot(cmp, rb, ra) else CmpJmpIfNot(cmp, ra, rb)
  }

  /** Fusion happens exactly for comparisons, and then the code is the operands' code and the
      two-word branch. */
  lemma FusionShape(e: Expr, next: int, pool: seq<Const>, sc: Scope, skip: int)
    requires Safe(e) && !e.Group? && Layout(sc.locals, -1, next)
    ensures var o := Compile(e, -1, false, next, pool, sc);
            var f := FusedWith(sc.locals, IsJoin(e), o);
            if ComparisonOf(e).None? then f.None?
            else
              var a := Compile(e.l, -1, true, next, pool, sc);
              var b := Compile(e.r, -1, false, a.next + 1, a.pool, sc);
              f == Some(ComparisonOf(e).value) && o.pool == b.pool &&
              BranchCode(sc.locals, IsJoin(e), o, skip) == (a.code + b.code) +
                  [FusedInstr(e, f.value, a.reg, b.reg), Jmp(skip)]
  {
    hide Compile, BranchCode, FusedWith, EmitBin;
    if e.Bin? {
      UnfoldBin(e, -1, false, next, pool, sc);
      var a := Compile(e.l, -1, true, next, pool, sc);
      var b := Compile(e.r, -1, false, a.next + 1, a.pool, sc);
      Discipline(e.l, -1, true, next, pool, sc);
      LeftFacts(sc.locals, -1, next, pool, a);
      FusionBin(sc.locals, e, a.next, a, b, skip);
    } else if !IsJoin(e) {
      NoFusion(e, next, pool, sc);
    } else {
      JoinedPlain(sc.locals, Compile(e, -1, false, next, pool, sc));
    }
  }

  lemma JoinedPlain(L: seq<Local>, o: Out)
    ensures FusedWith(L, true, o).None?
  {
  }

  lemma FusionBin(L: seq<Local>, e: Expr, reg: int, a: Out, b: Out, skip: int)
    requires e.Bin? && !IsLocal(L, reg)
    ensures var o := EmitBin(L, e.bop, reg, a, b);
            var f := FusedWith(L, false, o);
            if ComparisonOf(e).None? then f.None?
            else f == Some(ComparisonOf(e).value) && o.pool == b.pool &&
                 BranchCode(L, false, o, skip) == (a.code + b.code) + [FusedInstr(e, f.value, a.reg, b.reg), Jmp(skip)]
  {
    hide FusedWith, BranchCode;
    var o := EmitBin(L, e.bop, reg, a, b);
    var pre := a.code + b.code;
    if e.bop.BNe? {
      assert o.code == pre + [Arith(Eq, reg, a.reg, b.reg), Unary(Not, reg, reg)];
      FuseNe(L, pre, reg, a.reg, b.reg, o, skip);
    } else if ComparisonOf(e).Some? {
      FuseOne(L, pre, BinCode(e.bop, reg, a.reg, b.reg), o, skip);
    } else {
      BinShape(L, e.bop, reg, a, b);
      NoFuse(L, e, reg, a, b);
    }
  }

  lemma NoFuse(L: seq<Local>, e: Expr, reg: int, a: Out, b: Out)
    requires e.Bin? && ComparisonOf(e).None?
    ensures FusedWith(L, false, EmitBin(L, e.bop, reg, a, b)).None?
  {
    var c := EmitBin(L, e.bop, reg, a, b).code;
    assert c != [] && !Last(c).Unary? && (Last(c).Arith? ==> !Last(c).op.Lt? && !Last(c).op.Le? && !Last(c).op.Eq?);
  }

  lemma FuseOne(L: seq<Local>, pre: seq<Instr>, i: Instr, o: Out, skip: int)
    requires o.code == pre + [i] && i.Arith? && (i.op.Lt? || i.op.Le? || i.op.Eq?) && i.a == o.reg && !IsLocal(L, o.reg)
    ensures var c := if i.op.Lt? then CLt else if i.op.Le? then CLe else CEq;
            FusedWith(L, false, o) == Some(c) &&
            BranchCode(L, false, o, skip) == pre + [CmpJmpIfNot(c, i.b, i.c), Jmp(skip)]
  {
    assert Front(o.code) == pre;
  }

  lemma FuseNe(L: seq<Local>, pre: seq<Instr>, reg: int, ra: int, rb: int, o: Out, skip: int)
    requires o.code == pre + [Arith(Eq, reg, ra, rb), Unary(Not, reg, reg)] && o.reg == reg && !IsLocal(L, reg)
    ensures FusedWith(L, false, o) == Some(CNe) &&
            BranchCode(L, false, o, skip) == pre + [CmpJmpIfNot(CNe, ra, rb), Jmp(skip)]
  {
    assert o.code[..|o.code| - 2] == pre;
  }

  lemma NoFusion(e: Expr, next: int, pool: seq<Const>, sc: Scope)
    requires !e.Bin? && !e.Group? && !IsJoin(e) && Safe(e) && Layout(sc.locals, -1, next)
    ensures FusedWith(sc.locals, false, Compile(e, -1, false, next, pool, sc)).None?
  {
    if e.Un? {
      UnfoldUn(e, -1, false, next, pool, sc);
      var a := Compile(e.e, -1, false, next + 1, pool, sc);
      InnerLayouts(sc.locals, -1, next, pool, a);
      Discipline(e.e, -1, false, next + 1, pool, sc);
      assert a.reg != next;
    } else if e.PowE? {
      UnfoldPow(e, -1, false, next, pool, sc);
    }
  }

  /** Running a condition and its branch: into the body or past skip words. It goes where the condition
      says, exactly when the condition does not order two strings in the way that is lost by fusing. */
  lemma BranchCorrect(p: Program, s: State, e: Expr, next: int, pool: seq<Const>, sc: Scope, env: Env,
                      at: int, skip: int) returns (n: nat, t: State)
    requires Safe(e)
    requires var o := Compile(e, -1, false, next, pool, sc);
             Ready(p, s, sc, env, BranchCode(sc.locals, IsJoin(e), o, skip), o.pool, at, -1, next)
    ensures var o := Compile(e, -1, false, next, pool, sc);
            var end := at + |BranchCode(sc.locals, IsJoin(e), o, skip)|;
            var v := Eval(p.prims, e, env);
            Run(p, s, n) == Some(t) && n > 0 && Frame(s.regs, t.regs, -1, next) && t.globals == s.globals &&
            t.out == s.out && t.heap == v.h &&
            t.pc == end + (if Taken(p.prims, e, env) then 0 else skip) &&
            (SaneZero(p.prims) ==>
                  (t.pc == end + (if Truthy(v.v) then 0 else skip) <==> skip == 0 || !CondTrap(p.prims, e, env)))
  {
    hide Compile, Eval, Run, Step, At, Ready, Layout, FusedTest, PlainTest, BranchCode, FusedWith, SidesOf, CondTrap;
    StripFacts(e, next, pool, sc);
    StripValue(p.prims, e, env);
    var e' := Strip(e);
    var o := Compile(e', -1, false, next, pool, sc);
    var code := BranchCode(sc.locals, IsJoin(e'), o, skip);
    ReadyMeans(p, s, sc, env, code, o.pool, at, -1, next);
    FusionShape(e', next, pool, sc, skip);
    if ComparisonOf(e').Some? {
      n, t := FusedBranch(p, s, e', next, pool, sc, env, at, skip);
    } else {
      PlainBranch(sc.locals, IsJoin(e'), o, skip);
      AtSplit(p.code, at, o.code, [JmpIfNot(o.reg, skip)]);
      StartFirst(p, s, sc, env, code, o.pool, o, at, -1, next);
      var k, u := ExpressionCorrect(p, s, e', -1, false, next, pool, sc, env, at);
      t := ExecCondJump(p, s, k, u, at + |o.code|, o.reg, skip, -1, next, Eval(p.prims, e', env));
      n := k + 1;
    }
    if SaneZero(p.prims) { TakenExact(p.prims, e, env); }
  }

  lemma StripValue(p: Prims, e: Expr, env: Env)
    ensures Eval(p, e, env) == Eval(p, Strip(e), env) && Taken(p, e, env) == Taken(p, Strip(e), env)
  {
  }

  lemma PlainBranch(L: seq<Local>, joined: bool, o: Out, skip: int)
    requires FusedWith(L, joined, o).None?
    ensures BranchCode(L, joined, o, skip) == o.code + [JmpIfNot(o.reg, skip)]
  {
  }

  lemma FusedBranch(p: Program, s: State, e: Expr, next: int, pool: seq<Const>, sc: Scope, env: Env,
                    at: int, skip: int) returns (n: nat, t: State)
    requires e.Bin? && Safe(e) && ComparisonOf(e).Some?
    requires var o := Compile(e, -1, false, next, pool, sc);
             Ready(p, s, sc, env, BranchCode(sc.locals, IsJoin(e), o, skip), o.pool, at, -1, next)
    ensures var o := Compile(e, -1, false, next, pool, sc);
            var end := at + |BranchCode(sc.locals, IsJoin(e), o, skip)|;
            Run(p, s, n) == Some(t) && n > 0 && Frame(s.regs, t.regs, -1, next) && t.globals == s.globals &&
            t.out == s.out &&
            t.heap == Eval(p.prims, e, env).h && t.pc == end + (if Taken(p.prims, e, env) then 0 else skip)
  {
    hide Compile, Eval, Run, At, Ready, Layout, FusedTest, PlainTest, BranchCode, FusedWith, Frame, Step;
    var o := Compile(e, -1, false, next, pool, sc);
    var code := BranchCode(sc.locals, IsJoin(e), o, skip);
    ReadyMeans(p, s, sc, env, code, o.pool, at, -1, next);
    FusionShape(e, next, pool, sc, skip);
    ComparisonTruth(p.prims, e, env);
    var a := Compile(e.l, -1, true, next, pool, sc);
    var b := Compile(e.r, -1, false, a.next + 1, a.pool, sc);
    var i := FusedInstr(e, ComparisonOf(e).value, a.reg, b.reg);
    AtSplit(p.code, at, a.code + b.code, [i, Jmp(skip)]);
    StartCode(p, s, sc, env, code, o.pool, at, -1, next, a.code + b.code, b.pool);
    var k, u := OperandsReady(p, s, e, -1, false, next, pool, sc, env, at);
    var vb := Eval(p.prims, e.r, After(env, Eval(p.prims, e.l, env)));
    n, t := CmpStep(p, s, k, u, at + |a.code| + |b.code|, b.reg, vb, next, i, skip);
  }

  /** The two-word compare-and-branch. */
  lemma CmpStep(p: Program, s: State, n: nat, t: State, pc: int, reg: int, v: Res, next: int, i: Instr, skip: int)
    returns (n': nat, t': State)
    requires Ends(p, s, n, t, pc, reg, v, -1, next) && i.CmpJmpIfNot? && At(p.code, pc, [i, Jmp(skip)])
    ensures Run(p, s, n') == Some(t') && n' > 0 && Frame(s.regs, t'.regs, -1, next) && t'.globals == s.globals &&
            t'.out == s.out && t'.heap == v.h
    ensures t'.pc == pc + 2 + (if FusedTest(p.prims, v.h, i.cmp, Get(t.regs, i.b), Get(t.regs, i.c)) then 0 else skip)
  {
    hide FusedTest;
    assert p.code[pc..pc + 2][0] == i && p.code[pc..pc + 2][1] == Jmp(skip);
    t' := t.(pc := pc + 2 + (if FusedTest(p.prims, v.h, i.cmp, Get(t.regs, i.b), Get(t.regs, i.c)) then 0 else skip));
    assert Step(p, t) == Some(t');
    OneStep(p, t);
    RunTrans(p, s, n, t, 1, t');
    n' := n + 1;
  }

  // ---------------------------------------------------------------- one program for the trap

  const TWO_LOCALS := [Local("x", 1, 0), Local("y", 1, 1)]
  const X_BELOW_Y := Bin(BLt, Var("x"), Var("y"))
  const A_AND_B := [StringObj("a", true, 0), StringObj("b", true, 0)]

  lemma BelowEmits(sc: Scope, skip: int)
    requires sc.locals == TWO_LOCALS
    ensures BranchCode(sc.locals, false, Compile(X_BELOW_Y, -1, false, 2, [], sc), skip) ==
            [CmpJmpIfNot(CLt, 0, 1), Jmp(skip)]
  {
    assert TWO_LOCALS[0].reg == 0 && TWO_LOCALS[1].reg == 1 && TWO_LOCALS[..1] == [TWO_LOCALS[0]];
    assert Resolve(TWO_LOCALS[..1], "x") == 0;
    assert IsLocal(TWO_LOCALS, 0) && IsLocal(TWO_LOCALS, 1) && !IsLocal(TWO_LOCALS, 2);
    var x := Compile(Var("x"), -1, true, 2, [], sc);
    var y := Compile(Var("y"), -1, false, 3, [], sc);
    assert x == Out([], 0, 2, 2, []) && y == Out([], 1, 3, 3, []);
    var o := Compile(X_BELOW_Y, -1, false, 2, [], sc);
    assert o == EmitBin(TWO_LOCALS, BLt, 2, x, y);
    assert o.code == [Arith(Lt, 2, 0, 1)] && o.reg == 2;
    FuseOne(TWO_LOCALS, [], Arith(Lt, 2, 0, 1), o, skip);
  }

  /** `if (x < y)` with "a" in x and "b" in y skips its body, although the comparison is true. */
  lemma FusionFails(p: Prims, slot: string -> int, skip: nat) returns (t: State)
    requires SaneZero(p) && p.strcmp("a", "b") < 0
    ensures var code := BranchCode(TWO_LOCALS, false, Compile(X_BELOW_Y, -1, false, 2, [], Scope(TWO_LOCALS, slot)),
            skip);
            Run(Program(p, code, []), State(0, map[0 := Str(0), 1 := Str(1)], map[], [], A_AND_B), 1) == Some(t) &&
            t.pc == |code| + skip
    ensures Truthy(Eval(p, X_BELOW_Y, Env(v => if v == "x" then Str(0) else Str(1), A_AND_B)).v)
  {
    hide Compile, BranchCode, Run, Step, Eval;
    BelowEmits(Scope(TWO_LOCALS, slot), skip);
    t := BelowRuns(p, skip);
    BelowMeans(p);
  }

  lemma BelowRuns(p: Prims, skip: nat) returns (t: State)
    requires SaneZero(p)
    ensures Run(Program(p, [CmpJmpIfNot(CLt, 0, 1), Jmp(skip)], []),
            State(0, map[0 := Str(0), 1 := Str(1)], map[], [], A_AND_B), 1) == Some(t)
    ensures t.pc == 2 + skip
  {
    var s := State(0, map[0 := Str(0), 1 := Str(1)], map[], [], A_AND_B);
    t := s.(pc := 2 + skip);
    OneStep(Program(p, [CmpJmpIfNot(CLt, 0, 1), Jmp(skip)], []), s);
  }

  lemma BelowMeans(p: Prims)
    requires p.strcmp("a", "b") < 0
    ensures Truthy(Eval(p, X_BELOW_Y, Env(v => if v == "x" then Str(0) else Str(1), A_AND_B)).v)
  {
    var env := Env(v => if v == "x" then Str(0) else Str(1), A_AND_B);
    assert Eval(p, Var("x"), env) == Res(Str(0), A_AND_B) && Eval(p, Var("y"), env) == Res(Str(1), A_AND_B);
  }
}
