/** Compiled expressions compute what the source expression means. */
module ExpressionProof {
  import opened Values
  import opened Machine
  import opened Codegen

  // ---------------------------------------------------------------- meaning

  /** What an expression is evaluated in: what its variables hold and the string objects. */
  datatype Env = Env(vars: string -> Value, heap: Heap)

  /** Where the operand after r is evaluated. */
  function After(env: Env, r: Res): Env { env.(heap := r.h) }

  /** The value of an expression and the heap it leaves, operands from left to right. */
  function Eval(p: Prims, e: Expr, env: Env): Res {
    match e
    case Lit(n) => Res(Int(n), env.heap)
    case StrLit(s) => NewString(env.heap, s, true, 0)
    case True => Res(Bool(true), env.heap)
    case False => Res(Bool(false), env.heap)
    case NilLit => Res(Nil, env.heap)
    case Var(x) => Res(env.vars(x), env.heap)
    case Un(u, e1) => UnaryRes(p, u, Eval(p, e1, env))
    case Bin(op, l, r) => var a := Eval(p, l, env); BinValue(p, op, a.v, Eval(p, r, After(env, a)))
    case PowE(l, r) => var a := Eval(p, l, env); PowValue(p, a.v, Eval(p, r, After(env, a)))
    case And(l, r) => var a := Eval(p, l, env); if Truthy(a.v) then Eval(p, r, After(env, a)) else a
    case Or(l, r) => var a := Eval(p, l, env); if Truthy(a.v) then a else Eval(p, r, After(env, a))
    case Cond(c, t, f) => var a := Eval(p, c, env);
    if Truthy(a.v) then Eval(p, t, After(env, a)) else Eval(p, f, After(env, a))
    case Group(e1) => Eval(p, e1, env)
    case Assign(_, e1) => Eval(p, e1, env)
  }

  function UnaryRes(p: Prims, u: UnOp, a: Res): Res { Res(UnaryValue(p, u, a.v), a.h) }

  function PowValue(p: Prims, x: Value, b: Res): Res { ArithValues(p, b.h, Pow, x, b.v) }

  /** A binary operation on a left value and the result of the right operand, in whose heap it happens. */
  function BinValue(p: Prims, op: BinOp, x: Value, b: Res): Res {
    var h, y := b.h, b.v;
    match op
    case BAdd => ArithValues(p, h, Add, x, y)
    case BSub => ArithValues(p, h, Sub, x, y)
    case BMul => ArithValues(p, h, Mul, x, y)
    case BDiv => ArithValues(p, h, Div, x, y)
    case BMod => ArithValues(p, h, Mod, x, y)
    case BIDiv => ArithValues(p, h, IDiv, x, y)
    case BEq => ArithValues(p, h, Eq, x, y)
    case BNe => UnaryRes(p, Not, ArithValues(p, h, Eq, x, y))
    case BLt => ArithValues(p, h, Lt, x, y)
    case BLe => ArithValues(p, h, Le, x, y)
    case BGt => ArithValues(p, h, Lt, y, x)
    case BGe => ArithValues(p, h, Le, y, x)
    case BShl => ArithValues(p, h, Shl, x, y)
    case BShr => ArithValues(p, h, Shr, x, y)
    case BBitAnd => ArithValues(p, h, BAnd, x, y)
    case BBitOr => ArithValues(p, h, BOr, x, y)
    case BBitXor => ArithValues(p, h, BXor, x, y)
  }

  /** An expression that is, through parentheses, an `and`, an `or` or a ternary: its code has
      jumps that land behind its last instruction. */
  predicate IsJoin(e: Expr) {
    e.And? || e.Or? || e.Cond? || (e.Group? && IsJoin(e.e))
  }

  /** The operand such an expression evaluates last. */
  function Tail(e: Expr): Expr {
    match e
    case And(_, r) => Tail(r)
    case Or(_, r) => Tail(r)
    case Cond(_, _, f) => Tail(f)
    case Group(e1) => Tail(e1)
    case _ => e
  }

  predicate SmallInt(e: Expr) { e.Lit? && -128 <= e.n <= 127 }

  /** The right operands on which the immediate-operand peephole goes wrong. */
  predicate FoldTrap(op: BinOp, r: Expr) {
    (op.BAdd? || op.BSub?) && IsJoin(r) && SmallInt(Tail(r))
  }

  predicate NoAssign(e: Expr) {
    match e
    case Un(_, e1) => NoAssign(e1)
    case Bin(_, l, r) => NoAssign(l) && NoAssign(r)
    case PowE(l, r) => NoAssign(l) && NoAssign(r)
    case And(l, r) => NoAssign(l) && NoAssign(r)
    case Or(l, r) => NoAssign(l) && NoAssign(r)
    case Cond(c, t, f) => NoAssign(c) && NoAssign(t) && NoAssign(f)
    case Group(e1) => NoAssign(e1)
    case Assign(_, _) => false
    case _ => true
  }

  /** Side-effect free, and no peephole trap anywhere inside. */
  predicate Safe(e: Expr) {
    match e
    case Un(_, e1) => Safe(e1)
    case Bin(op, l, r) => Safe(l) && Safe(r) && !FoldTrap(op, r)
    case PowE(l, r) => Safe(l) && Safe(r)
    case And(l, r) => Safe(l) && Safe(r)
    case Or(l, r) => Safe(l) && Safe(r)
    case Cond(c, t, f) => Safe(c) && Safe(t) && Safe(f)
    case Group(e1) => Safe(e1)
    case Assign(_, _) => false
    case _ => true
  }

  lemma SafeNoAssign(e: Expr)
    requires Safe(e)
    ensures NoAssign(e)
  {
  }

  // ---------------------------------------------------------------- registers

  /** Locals sit below the first free register; dest is absent or an older temporary. */
  ghost predicate Layout(L: seq<Local>, dest: int, next: int) {
    (forall i :: 0 <= i < |L| ==> 0 <= L[i].reg < next) &&
    0 <= next && -1 <= dest < next && !IsLocal(L, dest)
  }

  lemma LocalBelow(L: seq<Local>, dest: int, next: int, reg: int)
    requires Layout(L, dest, next) && IsLocal(L, reg)
    ensures 0 <= reg < next && reg != dest
  {
  }

  /** Where an expression may leave its result. */
  ghost predicate Placed(L: seq<Local>, dest: int, infixNext: bool, next: int, o: Out) {
    if dest >= 0 then o.reg == dest || (infixNext && IsLocal(L, o.reg))
    else IsLocal(L, o.reg) || next <= o.reg < o.next
  }

  /** Nothing below next is released, the result is where it should be, the high-water mark
      covers the counter, constants are only added. */
  ghost predicate Disciplined(L: seq<Local>, dest: int, infixNext: bool, next: int, pool: seq<Const>, o: Out) {
    o.next >= next && o.hi >= o.next && pool <= o.pool && Placed(L, dest, infixNext, next, o)
  }

  lemma DisciplineUnary(L: seq<Local>, u: UnOp, dest: int, inf: bool, next: int, pool: seq<Const>, a: Out)
    requires Layout(L, dest, next) && Disciplined(L, -1, inf, Take(dest, next), pool, a)
    ensures Disciplined(L, dest, inf, next, pool, EmitUnary(L, u, Dest(dest, next), a))
  {
  }

  lemma DisciplineBin(L: seq<Local>, op: BinOp, dest: int, inf: bool, next: int, pool: seq<Const>, a: Out, b: Out)
    requires Layout(L, dest, next) && Disciplined(L, dest, true, next, pool, a)
    requires Disciplined(L, -1, inf, Take(dest, a.next), a.pool, b)
    ensures Disciplined(L, dest, inf, next, pool, EmitBin(L, op, Dest(dest, a.next), a, b))
  {
    var n := if Folds(L, op, a.reg, b.reg, a.code + b.code) then Free(L, b.next, b.reg) else b.next;
    assert n >= Take(dest, a.next);
  }

  lemma DisciplinePow(L: seq<Local>, dest: int, inf: bool, next: int, pool: seq<Const>, a: Out, b: Out)
    requires Layout(L, dest, next) && Disciplined(L, dest, true, next, pool, a)
    requires Disciplined(L, -1, inf, a.next, a.pool, b)
    ensures Disciplined(L, dest, inf, next, pool, EmitPow(L, dest, a, b))
  {
  }

  lemma DisciplineJoin(L: seq<Local>, isAnd: bool, dest: int, inf: bool, next: int, pool: seq<Const>, a: Out, b: Out)
    requires Layout(L, dest, next) && Disciplined(L, dest, true, next, pool, a)
    requires Disciplined(L, JoinReg(L, dest, a), inf, JoinNext(L, dest, a), a.pool, b)
    ensures Disciplined(L, dest, inf, next, pool, EmitJoin(L, isAnd, JoinReg(L, dest, a), a, b))
  {
  }

  lemma DisciplineCond(L: seq<Local>, dest: int, inf: bool, next: int, pool: seq<Const>, a: Out, x: Out, y: Out)
    requires Layout(L, dest, next) && Disciplined(L, dest, true, next, pool, a)
    requires Disciplined(L, Dest(dest, a.next), false, Take(dest, a.next), a.pool, x)
    requires Disciplined(L, Dest(dest, a.next), inf, FreeUnless(L, x.next, x.reg, Dest(dest, a.next)), x.pool, y)
    ensures Disciplined(L, dest, inf, next, pool, EmitCond(L, Dest(dest, a.next), a, x, y))
  {
    assert x.reg == Dest(dest, a.next);
  }

  /** The layout under which the operands of each construct are compiled. */
  lemma InnerLayouts(L: seq<Local>, dest: int, next: int, pool: seq<Const>, a: Out)
    requires Layout(L, dest, next)
    ensures Layout(L, -1, next) && Layout(L, -1, Take(dest, next)) && Layout(L, next, next + 1)
    ensures Disciplined(L, dest, true, next, pool, a) ==>
              Layout(L, -1, a.next) && Layout(L, -1, Take(dest, a.next)) &&
              Layout(L, JoinReg(L, dest, a), JoinNext(L, dest, a)) &&
              Layout(L, Dest(dest, a.next), Take(dest, a.next))
  {
    assert forall i :: 0 <= i < |L| ==> L[i].reg < next;
    assert !IsLocal(L, -1) && !IsLocal(L, next);
    if Disciplined(L, dest, true, next, pool, a) {
      assert !IsLocal(L, a.next);
    }
  }

  lemma DisciplineAtom(e: Expr, dest: int, inf: bool, next: int, pool: seq<Const>, sc: Scope)
    requires e.Lit? || e.StrLit? || e.True? || e.False? || e.NilLit? || e.Var?
    requires Layout(sc.locals, dest, next)
    ensures Disciplined(sc.locals, dest, inf, next, pool, Compile(e, dest, inf, next, pool, sc))
  {
  }

  lemma DisciplineAssign(L: seq<Local>, home: int, g: int, dest: int, inf: bool, next: int, pool: seq<Const>, a: Out)
    requires Layout(L, dest, next)
    ensures IsLocal(L, home) && Disciplined(L, -1, false, next, pool, a) ==>
              Disciplined(L, dest, inf, next, pool, EmitAssignLocal(L, home, dest, next, a))
    ensures Disciplined(L, next, false, next + 1, pool, a) ==>
              Disciplined(L, dest, inf, next, pool, EmitAssignGlobal(L, g, dest, next, a))
  {
  }

  lemma UnfoldAssignAny(e: Expr, dest: int, inf: bool, next: int, pool: seq<Const>, sc: Scope)
    requires e.Assign?
    ensures var home := Resolve(sc.locals, e.name);
            Compile(e, dest, inf, next, pool, sc) ==
              if home != -1 then EmitAssignLocal(sc.locals, home, dest, next, Compile(e.e, -1, false, next, pool, sc))
              else EmitAssignGlobal(sc.locals, sc.slot(e.name), dest, next,
                  Compile(e.e, next, false, next + 1, pool, sc))
  {
  }

  lemma UnfoldGroup(e: Expr, dest: int, inf: bool, next: int, pool: seq<Const>, sc: Scope)
    requires e.Group?
    ensures Compile(e, dest, inf, next, pool, sc) == Compile(e.e, dest, false, next, pool, sc)
  {
  }

  lemma GroupDisciplined(L: seq<Local>, dest: int, inf: bool, next: int, pool: seq<Const>, o: Out)
    requires Disciplined(L, dest, false, next, pool, o)
    ensures Disciplined(L, dest, inf, next, pool, o)
  {
  }

  lemma {:induction false} Discipline(e: Expr, dest: int, infixNext: bool, next: int, pool: seq<Const>, sc: Scope)
    requires Layout(sc.locals, dest, next)
    ensures Disciplined(sc.locals, dest, infixNext, next, pool, Compile(e, dest, infixNext, next, pool, sc))
    decreases e, 1
  {
    hide Compile, Layout, Disciplined, EmitUnary, EmitAssignLocal, EmitAssignGlobal, Dest, Take;
    match e
    case Un(u, e1) =>
      UnfoldUn(e, dest, infixNext, next, pool, sc);
      InnerLayouts(sc.locals, dest, next, pool, Load(Halt, dest, next, pool));
      Discipline(e1, -1, infixNext, Take(dest, next), pool, sc);
      DisciplineUnary(sc.locals, u, dest, infixNext, next, pool,
          Compile(e1, -1, infixNext, Take(dest, next), pool, sc));
    case Group(e1) =>
      UnfoldGroup(e, dest, infixNext, next, pool, sc);
      Discipline(e1, dest, false, next, pool, sc);
      GroupDisciplined(sc.locals, dest, infixNext, next, pool, Compile(e1, dest, false, next, pool, sc));
    case Assign(x, e1) =>
      UnfoldAssignAny(e, dest, infixNext, next, pool, sc);
      InnerLayouts(sc.locals, dest, next, pool, Load(Halt, dest, next, pool));
      var home := Resolve(sc.locals, x);
      if home != -1 {
        Discipline(e1, -1, false, next, pool, sc);
        DisciplineAssign(sc.locals, home, 0, dest, infixNext, next, pool, Compile(e1, -1, false, next, pool, sc));
      } else {
        Discipline(e1, next, false, next + 1, pool, sc);
        DisciplineAssign(sc.locals, 0, sc.slot(x), dest, infixNext, next, pool,
            Compile(e1, next, false, next + 1, pool, sc));
      }
    case Bin(_, l, _) => DisciplineInfix(e, l, dest, infixNext, next, pool, sc);
    case PowE(l, _) => DisciplineInfix(e, l, dest, infixNext, next, pool, sc);
    case And(l, _) => DisciplineInfix(e, l, dest, infixNext, next, pool, sc);
    case Or(l, _) => DisciplineInfix(e, l, dest, infixNext, next, pool, sc);
    case Cond(c, _, _) => DisciplineInfix(e, c, dest, infixNext, next, pool, sc);
    case _ => DisciplineAtom(e, dest, infixNext, next, pool, sc);
  }

  /** The infix constructs, which all compile their left operand first. */
  lemma {:induction false} DisciplineInfix(e: Expr, l: Expr, dest: int, infixNext: bool, next: int, pool: seq<Const>,
        sc: Scope)
    requires (e.Bin? && l == e.l) || (e.PowE? && l == e.l) || (e.And? && l == e.l) || (e.Or? && l == e.l) ||
             (e.Cond? && l == e.c)
    requires Layout(sc.locals, dest, next)
    ensures Disciplined(sc.locals, dest, infixNext, next, pool, Compile(e, dest, infixNext, next, pool, sc))
    decreases e, 0
  {
    hide Compile, Layout, Disciplined, EmitBin, EmitPow, EmitJoin, EmitCond, JoinReg, JoinNext, Dest, Take;
    if e.Bin? { UnfoldBin(e, dest, infixNext, next, pool, sc); }
    else if e.PowE? { UnfoldPow(e, dest, infixNext, next, pool, sc); }
    else if e.Cond? { UnfoldCond(e, dest, infixNext, next, pool, sc); }
    else { UnfoldJoin(e, dest, infixNext, next, pool, sc); }
    var L := sc.locals;
    Discipline(l, dest, true, next, pool, sc);
    var a := Compile(l, dest, true, next, pool, sc);
    InnerLayouts(L, dest, next, pool, a);
    match e
    case Bin(op, _, r) =>
      Discipline(r, -1, infixNext, Take(dest, a.next), a.pool, sc);
      DisciplineBin(L, op, dest, infixNext, next, pool, a, Compile(r, -1, infixNext, Take(dest, a.next), a.pool, sc));
    case PowE(_, r) =>
      Discipline(r, -1, infixNext, a.next, a.pool, sc);
      DisciplinePow(L, dest, infixNext, next, pool, a, Compile(r, -1, infixNext, a.next, a.pool, sc));
    case And(_, r) =>
      Discipline(r, JoinReg(L, dest, a), infixNext, JoinNext(L, dest, a), a.pool, sc);
      DisciplineJoin(L, true, dest, infixNext, next, pool, a,
                     Compile(r, JoinReg(L, dest, a), infixNext, JoinNext(L, dest, a), a.pool, sc));
    case Or(_, r) =>
      Discipline(r, JoinReg(L, dest, a), infixNext, JoinNext(L, dest, a), a.pool, sc);
      DisciplineJoin(L, false, dest, infixNext, next, pool, a,
                     Compile(r, JoinReg(L, dest, a), infixNext, JoinNext(L, dest, a), a.pool, sc));
    case Cond(_, t, f) =>
      var reg := Dest(dest, a.next);
      var n1 := Take(dest, a.next);
      Discipline(t, reg, false, n1, a.pool, sc);
      var x := Compile(t, reg, false, n1, a.pool, sc);
      LeftFacts(L, dest, next, pool, a);
      PoolOf(L, reg, false, n1, a.pool, x);
      HigherLayout(L, reg, n1, x.next);
      Discipline(f, reg, infixNext, x.next, x.pool, sc);
      DisciplineCond(L, dest, infixNext, next, pool, a, x, Compile(f, reg, infixNext, x.next, x.pool, sc));
  }

  // ---------------------------------------------------------------- execution

  /** Registers below next other than dest keep their values. */
  ghost predicate Frame(R: Bank, R': Bank, dest: int, next: int) {
    forall r :: 0 <= r < next && r != dest ==> Get(R', r) == Get(R, r)
  }

  /** n dispatches lead from s to t, which stands at pc with v in reg; nothing older changed. */
  ghost predicate Ends(p: Program, s: State, n: nat, t: State, pc: int, reg: int, v: Res, dest: int, next: int) {
    Run(p, s, n) == Some(t) && t.pc == pc && t.globals == s.globals && t.out == s.out && t.heap == v.h &&
    Get(t.regs, reg) == v.v && Frame(s.regs, t.regs, dest, next)
  }

  function ReadVar(sc: Scope, R: Bank, G: Bank, x: string): Value {
    var home := Resolve(sc.locals, x);
    if home != -1 then Get(R, home) else Get(G, sc.slot(x))
  }

  ghost predicate Reads(sc: Scope, R: Bank, G: Bank, env: Env) {
    forall x :: env.vars(x) == ReadVar(sc, R, G, x)
  }

  lemma ReadsKept(sc: Scope, R: Bank, R': Bank, G: Bank, env: Env, dest: int, next: int)
    requires Layout(sc.locals, dest, next) && Reads(sc, R, G, env) && Frame(R, R', dest, next)
    ensures Reads(sc, R', G, env)
  {
    forall x ensures env.vars(x) == ReadVar(sc, R', G, x) {
      assert env.vars(x) == ReadVar(sc, R, G, x);
      var home := Resolve(sc.locals, x);
      if home != -1 { LocalBelow(sc.locals, dest, next, home); }
    }
  }

  lemma InstrAt(p: Program, s: State, at: int, i: Instr)
    requires At(p.code, at, [i]) && s.pc == at
    ensures 0 <= at < |p.code| && p.code[at] == i
  {
    assert p.code[at..at + 1][0] == i;
  }

  /** One more instruction writing reg extends an execution. */
  lemma Append(p: Program, s: State, n: nat, t: State, pc: int, reg: int, v: Res, dest: int, next: int,
               i: Instr, reg': int, v': Res) returns (t': State)
    requires Ends(p, s, n, t, pc, reg, v, dest, next)
    requires At(p.code, pc, [i])
    requires reg' == dest || reg' >= next
    requires Step(p, t) == Some(t.(pc := pc + 1, regs := t.regs[reg' := v'.v], heap := v'.h))
    ensures Ends(p, s, n + 1, t', pc + 1, reg', v', dest, next)
  {
    t' := t.(pc := pc + 1, regs := t.regs[reg' := v'.v], heap := v'.h);
    OneStep(p, t);
    RunTrans(p, s, n, t, 1, t');
  }

  /** A jump extends an execution without touching a register. */
  lemma Jump(p: Program, s: State, n: nat, t: State, pc: int, reg: int, v: Res, dest: int, next: int, pc': int)
    returns (t': State)
    requires Ends(p, s, n, t, pc, reg, v, dest, next)
    requires Step(p, t) == Some(t.(pc := pc'))
    ensures t' == t.(pc := pc') && Ends(p, s, n + 1, t', pc', reg, v, dest, next)
  {
    t' := t.(pc := pc');
    OneStep(p, t);
    RunTrans(p, s, n, t, 1, t');
  }

  /** Two executions in a row; the second runs with a register window at least as high. */
  lemma Chain(p: Program, s: State, n: nat, t: State, pc: int, reg: int, v: Res, dest: int, next: int,
              k: nat, u: State, pc': int, reg': int, v': Res, dest': int, next': int)
    requires Ends(p, s, n, t, pc, reg, v, dest, next)
    requires Ends(p, t, k, u, pc', reg', v', dest', next')
    requires next <= next' && (dest' < 0 || dest' == dest || dest' >= next)
    ensures Ends(p, s, n + k, u, pc', reg', v', dest, next)
  {
    RunTrans(p, s, n, t, k, u);
    forall r | 0 <= r < next && r != dest ensures Get(u.regs, r) == Get(s.regs, r) {
      assert Get(t.regs, r) == Get(s.regs, r);
      if r != dest' { assert Get(u.regs, r) == Get(t.regs, r); }
    }
  }

  /** Running a fragment, then the copy of its result into reg. */
  lemma ExecInto(p: Program, s: State, n: nat, t: State, at: int, o: Out, v: Res, dest: int, next: int, reg: int)
    returns (n': nat, t': State)
    requires Ends(p, s, n, t, at + |o.code|, o.reg, v, dest, next)
    requires At(p.code, at, Into(reg, o)) && (reg == dest || reg >= next)
    ensures Ends(p, s, n', t', at + |Into(reg, o)|, reg, v, dest, next)
  {
    n', t' := n, t;
    if reg != o.reg {
      AtSplit(p.code, at, o.code, [Move(reg, o.reg)]);
      InstrAt(p, t, at + |o.code|, Move(reg, o.reg));
      t' := Append(p, s, n, t, at + |o.code|, o.reg, v, dest, next, Move(reg, o.reg), reg, v);
      n' := n + 1;
    }
  }

  lemma ExecLoad(p: Program, s: State, at: int, i: Instr, dest: int, next: int, v: Res) returns (n: nat, t: State)
    requires Layout([], dest, next) && At(p.code, at, [i]) && s.pc == at
    requires Step(p, s) == Some(s.(pc := at + 1, regs := s.regs[Dest(dest, next) := v.v], heap := v.h))
    ensures Ends(p, s, n, t, at + 1, Dest(dest, next), v, dest, next)
  {
    n := 1;
    t := s.(pc := at + 1, regs := s.regs[Dest(dest, next) := v.v], heap := v.h);
    OneStep(p, s);
  }

  /** Code that ends with a copy or with the last operand's own last instruction. */
  lemma LastOfInto(L: seq<Local>, pre: seq<Instr>, reg: int, b: Out)
    requires !IsLocal(L, reg) && (b.code == [] ==> IsLocal(L, b.reg))
    ensures var code := pre + Into(reg, b);
            |code| > 0 && (code[|code| - 1].Move? || (|b.code| > 0 && code[|code| - 1] == b.code[|b.code| - 1]))
  {
  }

  lemma LastOfJoin(L: seq<Local>, isAnd: bool, reg: int, a: Out, b: Out)
    requires !IsLocal(L, reg) && (b.code == [] ==> IsLocal(L, b.reg))
    ensures var code := EmitJoin(L, isAnd, reg, a, b).code;
            |code| > 0 && (code[|code| - 1].Move? || (|b.code| > 0 && code[|code| - 1] == b.code[|b.code| - 1]))
  {
    var rest := Into(reg, b);
    var pre := Into(reg, a) + [if isAnd then JmpIfNot(reg, |rest|) else JmpIf(reg, |rest|)];
    assert EmitJoin(L, isAnd, reg, a, b).code == pre + rest;
    LastOfInto(L, pre, reg, b);
  }

  lemma LastOfCond(L: seq<Local>, reg: int, a: Out, x: Out, y: Out)
    requires !IsLocal(L, reg) && (y.code == [] ==> IsLocal(L, y.reg))
    ensures var code := EmitCond(L, reg, a, x, y).code;
            |code| > 0 && (code[|code| - 1].Move? || (|y.code| > 0 && code[|code| - 1] == y.code[|y.code| - 1]))
  {
    var pre := Into(reg, a) + ([JmpIfNot(reg, |Into(reg, x)| + 1)] + Into(reg, x) + [Jmp(|Into(reg, y)|)]);
    assert EmitCond(L, reg, a, x, y).code == pre + Into(reg, y);
    LastOfInto(L, pre, reg, y);
  }

  /** Operations that end in one instruction computing the result. */
  predicate Producer(e: Expr) { e.Un? || e.Bin? || e.PowE? }

  /** The last instruction of a compiled expression, if it loads a small integer: that integer is
      the operand evaluated last, and unless the expression is a join nothing else was emitted.
      If it computes: the operand evaluated last is an operation. */
  ghost predicate LoadsTail(L: seq<Local>, e: Expr, o: Out) {
    (o.code == [] ==> IsLocal(L, o.reg)) &&
    (|o.code| > 0 && Retargetable(o.code[|o.code| - 1]) ==> Producer(Tail(e))) &&
    (|o.code| > 0 && o.code[|o.code| - 1].LoadI? ==>
       Tail(e) == Lit(o.code[|o.code| - 1].n) && (!IsJoin(e) ==> o.code == [o.code[|o.code| - 1]]))
  }

  lemma {:induction false} LastLoad(e: Expr, dest: int, infixNext: bool, next: int, pool: seq<Const>, sc: Scope)
    requires NoAssign(e) && Layout(sc.locals, dest, next)
    ensures LoadsTail(sc.locals, e, Compile(e, dest, infixNext, next, pool, sc))
    decreases e, 1
  {
    match e
    case Group(e1) => LastLoad(e1, dest, false, next, pool, sc);
    case And(l, r) => LastLoadJoin(e, l, dest, infixNext, next, pool, sc);
    case Or(l, r) => LastLoadJoin(e, l, dest, infixNext, next, pool, sc);
    case Cond(c, t, f) => LastLoadJoin(e, c, dest, infixNext, next, pool, sc);
    case Bin(_, _, _) => LastLoadBin(e, dest, infixNext, next, pool, sc);
    case _ =>
  }

  lemma LastLoadBin(e: Expr, dest: int, infixNext: bool, next: int, pool: seq<Const>, sc: Scope)
    requires e.Bin?
    ensures LoadsTail(sc.locals, e, Compile(e, dest, infixNext, next, pool, sc))
    decreases e, 0
  {
    hide Compile;
    UnfoldBin(e, dest, infixNext, next, pool, sc);
    var a := Compile(e.l, dest, true, next, pool, sc);
    BinShape(sc.locals, e.bop, Dest(dest, a.next), a, Compile(e.r, -1, infixNext, Take(dest, a.next), a.pool, sc));
  }

  lemma {:induction false} LastLoadJoin(e: Expr, l: Expr, dest: int, infixNext: bool, next: int, pool: seq<Const>,
        sc: Scope)
    requires (e.And? && l == e.l) || (e.Or? && l == e.l) || (e.Cond? && l == e.c)
    requires NoAssign(e) && Layout(sc.locals, dest, next)
    ensures LoadsTail(sc.locals, e, Compile(e, dest, infixNext, next, pool, sc))
    decreases e, 0
  {
    hide Compile, Placed, Layout, EmitCond, EmitJoin, JoinReg, JoinNext;
    if e.Cond? { UnfoldCond(e, dest, infixNext, next, pool, sc); }
        else { UnfoldJoin(e, dest, infixNext, next, pool, sc); }
    var L := sc.locals;
    Discipline(l, dest, true, next, pool, sc);
    var a := Compile(l, dest, true, next, pool, sc);
    InnerLayouts(L, dest, next, pool, a);
    if e.Cond? {
      var reg, n1 := Dest(dest, a.next), Take(dest, a.next);
      Discipline(e.t, reg, false, n1, a.pool, sc);
      var x := Compile(e.t, reg, false, n1, a.pool, sc);
      LeftFacts(L, dest, next, pool, a);
      PoolOf(L, reg, false, n1, a.pool, x);
      HigherLayout(L, reg, n1, x.next);
      LastLoad(e.f, reg, infixNext, x.next, x.pool, sc);
      LastOfCond(L, reg, a, x, Compile(e.f, reg, infixNext, x.next, x.pool, sc));
    } else {
      var reg := JoinReg(L, dest, a);
      LastLoad(e.r, reg, infixNext, JoinNext(L, dest, a), a.pool, sc);
      LastOfJoin(L, e.And?, reg, a, Compile(e.r, reg, infixNext, JoinNext(L, dest, a), a.pool, sc));
    }
  }

  function Last(c: seq<Instr>): Instr
    requires c != []
  {
    c[|c| - 1]
  }

  function Front(c: seq<Instr>): seq<Instr>
    requires c != []
  {
    c[..|c| - 1]
  }

  /** What an instruction that only loads or computes would write, and the heap it would leave. */
  function InstrValue(p: Prims, i: Instr, R: Bank, h: Heap): Res {
    match i
    case LoadI(_, n) => Res(Int(n), h)
    case Arith(op, _, b, c) => ArithValues(p, h, op, Get(R, b), Get(R, c))
    case AddI(_, b, k) => AddImmediate(p, h, Get(R, b), k)
    case SubI(_, b, k) => Res(SubImmediate(p, Get(R, b), k), h)
    case Unary(u, _, b) => Res(UnaryValue(p, u, Get(R, b)), h)
    case _ => Res(Nil, h)
  }

  /** n dispatches lead from s to t, which stands at pc where executing i would produce v;
      nothing older changed. */
  ghost predicate Poised(p: Program, s: State, n: nat, t: State, pc: int, i: Instr, v: Res, dest: int, next: int) {
    Run(p, s, n) == Some(t) && t.pc == pc && t.globals == s.globals && t.out == s.out &&
    InstrValue(p.prims, i, t.regs, t.heap) == v && Frame(s.regs, t.regs, dest, next)
  }

  /** Executing the poised instruction, whatever register it was told to write. */
  lemma FinalStep(p: Program, s: State, n: nat, t: State, pc: int, i: Instr, v: Res, dest: int, next: int, reg: int)
    returns (t': State)
    requires Poised(p, s, n, t, pc, i, v, dest, next)
    requires Retargetable(i) && At(p.code, pc, [WithDest(i, reg)])
    ensures t' == t.(pc := pc + 1, regs := t.regs[reg := v.v], heap := v.h) && Run(p, s, n + 1) == Some(t')
    ensures reg == dest || reg >= next ==> Ends(p, s, n + 1, t', pc + 1, reg, v, dest, next)
  {
    InstrAt(p, t, pc, WithDest(i, reg));
    t' := t.(pc := pc + 1, regs := t.regs[reg := v.v], heap := v.h);
    OneStep(p, t);
    RunTrans(p, s, n, t, 1, t');
  }

  lemma BinCodeValue(p: Prims, op: BinOp, reg: int, ra: int, rb: int, R: Bank, h: Heap)
    requires !op.BNe?
    ensures InstrValue(p, BinCode(op, reg, ra, rb), R, h) == BinValue(p, op, Get(R, ra), Res(Get(R, rb), h))
    ensures Retargetable(BinCode(op, reg, ra, rb)) && BinCode(op, reg, ra, rb).a == reg
  {
  }

  /** Both operands are in registers: the code up to the last instruction of the operation. */
  lemma PoiseBin(p: Program, s: State, n: nat, t: State, pc: int, L: seq<Local>, op: BinOp, reg: int, a: Out, b: Out,
                 va: Res, vb: Res, dest: int, next: int) returns (n': nat, t': State)
    requires Ends(p, s, n, t, pc + |a.code| + |b.code|, b.reg, vb, dest, next) && Get(t.regs, a.reg) == va.v
    requires reg == dest || reg >= next
    requires !Folds(L, op, a.reg, b.reg, a.code + b.code)
    requires At(p.code, pc, Front(EmitBin(L, op, reg, a, b).code))
    ensures var c := EmitBin(L, op, reg, a, b).code;
            Poised(p, s, n', t', pc + |c| - 1, Last(c), BinValue(p.prims, op, va.v, vb), dest, next)
  {
    hide At, Run, Folds;
    var c := EmitBin(L, op, reg, a, b).code;
    assert |c| == |a.code| + |b.code| + (if op.BNe? then 2 else 1);
    if op.BNe? {
      var eq := Arith(Eq, reg, a.reg, b.reg);
      assert Front(c) == (a.code + b.code) + [eq];
      AtSplit(p.code, pc, a.code + b.code, [eq]);
      InstrAt(p, t, pc + |a.code + b.code|, eq);
      t' := Append(p, s, n, t, pc + |a.code| + |b.code|, b.reg, vb, dest, next, eq, reg,
          ArithValues(p.prims, vb.h, Eq, va.v, vb.v));
      n' := n + 1;
    } else {
      BinCodeValue(p.prims, op, reg, a.reg, b.reg, t.regs, t.heap);
      n', t' := n, t;
    }
  }

  /** Where the pieces of a short-circuit expression are. */
  lemma JoinParts(code: seq<Instr>, at: int, L: seq<Local>, isAnd: bool, reg: int, a: Out, b: Out)
    requires At(code, at, EmitJoin(L, isAnd, reg, a, b).code)
    ensures var pc := at + |Into(reg, a)|;
            At(code, at, a.code) && At(code, at, Into(reg, a)) &&
            At(code, pc, [if isAnd then JmpIfNot(reg, |Into(reg, b)|) else JmpIf(reg, |Into(reg, b)|)]) &&
            At(code, pc + 1, Into(reg, b)) && At(code, pc + 1, b.code)
    ensures |EmitJoin(L, isAnd, reg, a, b).code| == |Into(reg, a)| + 1 + |Into(reg, b)|
  {
    hide At, Into;
    var rest := Into(reg, b);
    var j := [if isAnd then JmpIfNot(reg, |rest|) else JmpIf(reg, |rest|)];
    AtSplit(code, at, Into(reg, a), j + rest);
    AtSplit(code, at + |Into(reg, a)|, j, rest);
    IntoParts(code, at, reg, a);
    IntoParts(code, at + |Into(reg, a)| + 1, reg, b);
  }

  lemma IntoParts(code: seq<Instr>, at: int, reg: int, o: Out)
    requires At(code, at, Into(reg, o))
    ensures At(code, at, o.code)
  {
    hide At;
    AtSplit(code, at, o.code, MoveTo(reg, o.reg));
  }

  /** The conditional jump of `and` / `or`, reached with the left value in reg: fall through to the
      right operand, or leave for the end. */
  lemma ExecJoinJump(p: Program, s: State, n: nat, t: State, pc: int, isAnd: bool, reg: int, skip: int,
                     dest: int, next: int, v: Res) returns (t': State)
    requires Ends(p, s, n, t, pc, reg, v, dest, next)
    requires At(p.code, pc, [if isAnd then JmpIfNot(reg, skip) else JmpIf(reg, skip)])
    ensures Ends(p, s, n + 1, t', if Truthy(v.v) == isAnd then pc + 1 else pc + 1 + skip, reg, v, dest, next)
  {
    InstrAt(p, t, pc, if isAnd then JmpIfNot(reg, skip) else JmpIf(reg, skip));
    t' := Jump(p, s, n, t, pc, reg, v, dest, next, if Truthy(v.v) == isAnd then pc + 1 else pc + 1 + skip);
  }

  /** Where the pieces of a ternary's branches are. */
  lemma BranchParts(code: seq<Instr>, pc: int, reg: int, tc: seq<Instr>, ec: seq<Instr>)
    requires At(code, pc, Branches(reg, tc, ec))
    ensures At(code, pc, [JmpIfNot(reg, |tc| + 1)]) && At(code, pc + 1, tc)
    ensures At(code, pc + 1 + |tc|, [Jmp(|ec|)]) && At(code, pc + 2 + |tc|, ec)
    ensures |Branches(reg, tc, ec)| == 2 + |tc| + |ec|
  {
    var j, k := [JmpIfNot(reg, |tc| + 1)], [Jmp(|ec|)];
    assert Branches(reg, tc, ec) == ((j + tc) + k) + ec;
    AtSplit(code, pc, (j + tc) + k, ec);
    AtSplit(code, pc, j + tc, k);
    AtSplit(code, pc, j, tc);
  }

  /** The conditional jump of a ternary, reached with the condition in reg. */
  lemma ExecCondJump(p: Program, s: State, n: nat, t: State, pc: int, reg: int, skip: int, dest: int, next: int, v: Res)
    returns (t': State)
    requires Ends(p, s, n, t, pc, reg, v, dest, next) && At(p.code, pc, [JmpIfNot(reg, skip)])
    ensures Ends(p, s, n + 1, t', if Truthy(v.v) then pc + 1 else pc + 1 + skip, reg, v, dest, next)
  {
    InstrAt(p, t, pc, JmpIfNot(reg, skip));
    t' := Jump(p, s, n, t, pc, reg, v, dest, next, if Truthy(v.v) then pc + 1 else pc + 1 + skip);
  }

  lemma ExecJmp(p: Program, s: State, n: nat, t: State, pc: int, skip: int, reg: int, v: Res, dest: int, next: int)
    returns (t': State)
    requires Ends(p, s, n, t, pc, reg, v, dest, next) && At(p.code, pc, [Jmp(skip)])
    ensures Ends(p, s, n + 1, t', pc + 1 + skip, reg, v, dest, next)
  {
    InstrAt(p, t, pc, Jmp(skip));
    t' := Jump(p, s, n, t, pc, reg, v, dest, next, pc + 1 + skip);
  }

  // ---------------------------------------------------------------- the theorem

  // The cases of code generation and of evaluation, one at a time.

  lemma UnfoldUn(e: Expr, dest: int, inf: bool, next: int, pool: seq<Const>, sc: Scope)
    requires e.Un?
    ensures Compile(e, dest, inf, next, pool, sc) ==
              EmitUnary(sc.locals, e.uop, Dest(dest, next), Compile(e.e, -1, inf, Take(dest, next), pool, sc))
  {
  }

  lemma UnfoldBin(e: Expr, dest: int, inf: bool, next: int, pool: seq<Const>, sc: Scope)
    requires e.Bin?
    ensures var a := Compile(e.l, dest, true, next, pool, sc);
            Compile(e, dest, inf, next, pool, sc) ==
              EmitBin(sc.locals, e.bop, Dest(dest, a.next), a, Compile(e.r, -1, inf, Take(dest, a.next), a.pool, sc))
  {
  }

  lemma UnfoldPow(e: Expr, dest: int, inf: bool, next: int, pool: seq<Const>, sc: Scope)
    requires e.PowE?
    ensures var a := Compile(e.l, dest, true, next, pool, sc);
            Compile(e, dest, inf, next, pool, sc) ==
                EmitPow(sc.locals, dest, a, Compile(e.r, -1, inf, a.next, a.pool, sc))
  {
  }

  lemma UnfoldJoin(e: Expr, dest: int, inf: bool, next: int, pool: seq<Const>, sc: Scope)
    requires e.And? || e.Or?
    ensures var a := Compile(e.l, dest, true, next, pool, sc);
            var reg := JoinReg(sc.locals, dest, a);
            Compile(e, dest, inf, next, pool, sc) ==
              EmitJoin(sc.locals, e.And?, reg, a, Compile(e.r, reg, inf, JoinNext(sc.locals, dest, a), a.pool, sc))
  {
  }

  lemma UnfoldCond(e: Expr, dest: int, inf: bool, next: int, pool: seq<Const>, sc: Scope)
    requires e.Cond?
    ensures var a := Compile(e.c, dest, true, next, pool, sc);
            var reg := Dest(dest, a.next);
            var x := Compile(e.t, reg, false, Take(dest, a.next), a.pool, sc);
            Compile(e, dest, inf, next, pool, sc) ==
              EmitCond(sc.locals, reg, a, x,
                       Compile(e.f, reg, inf, FreeUnless(sc.locals, x.next, x.reg, reg), x.pool, sc))
  {
  }

  lemma ValueOf(p: Prims, e: Expr, env: Env)
    ensures e.Un? ==> Eval(p, e, env) == UnaryRes(p, e.uop, Eval(p, e.e, env))
    ensures e.Bin? ==> var a := Eval(p, e.l, env);
            Eval(p, e, env) == BinValue(p, e.bop, a.v, Eval(p, e.r, After(env, a)))
    ensures e.PowE? ==> var a := Eval(p, e.l, env); Eval(p, e, env) == PowValue(p, a.v, Eval(p, e.r, After(env, a)))
    ensures e.And? || e.Or? ==>
              var a := Eval(p, e.l, env); Eval(p, e, env) == if Truthy(a.v) == e.And? then Eval(p, e.r, After(env, a))
                  else a
    ensures e.Cond? ==>
              var a := Eval(p, e.c, env);
              Eval(p, e, env) == if Truthy(a.v) then Eval(p, e.t, After(env, a)) else Eval(p, e.f, After(env, a))
  {
  }

  /** Everything a compiled expression needs around it: its code in place, its constants in the
      pool, the machine at its first instruction, and registers that agree with env. */
  ghost predicate Ready(p: Program, s: State, sc: Scope, env: Env,
                        code: seq<Instr>, pool: seq<Const>, at: int, dest: int, next: int) {
    Layout(sc.locals, dest, next) && Reads(sc, s.regs, s.globals, env) &&
    At(p.code, at, code) && pool <= p.consts && s.pc == at && s.heap == env.heap
  }

  /** The code of an operation ends in an instruction that computes into the result register. */
  lemma ProducerShape(e: Expr, dest: int, inf: bool, next: int, pool: seq<Const>, sc: Scope)
    requires Producer(e)
    ensures var o := Compile(e, dest, inf, next, pool, sc);
            o.code != [] && Retargetable(Last(o.code)) && Last(o.code).a == o.reg &&
            WithDest(Last(o.code), o.reg) == Last(o.code) && (dest >= 0 ==> o.reg == dest)
  {
    hide Compile;
    match e
    case Un(_, _) => UnfoldUn(e, dest, inf, next, pool, sc);
    case Bin(op, l, r) =>
      UnfoldBin(e, dest, inf, next, pool, sc);
      var a := Compile(l, dest, true, next, pool, sc);
      BinShape(sc.locals, op, Dest(dest, a.next), a, Compile(r, -1, inf, Take(dest, a.next), a.pool, sc));
    case PowE(_, _) => UnfoldPow(e, dest, inf, next, pool, sc);
  }

  lemma BinShape(L: seq<Local>, op: BinOp, reg: int, a: Out, b: Out)
    ensures var c := EmitBin(L, op, reg, a, b).code;
            c != [] && Retargetable(Last(c)) && Last(c).a == reg && WithDest(Last(c), reg) == Last(c)
  {
  }

  /** Running the code of a side-effect-free expression falls through to its end with the result
      register holding the expression's value and every local and older temporary unchanged. */
  lemma {:induction false} ExpressionCorrect(p: Program, s: State, e: Expr, dest: int, inf: bool, next: int,
      pool: seq<Const>, sc: Scope, env: Env, at: int) returns (n: nat, t: State)
    requires Safe(e)
    requires var o := Compile(e, dest, inf, next, pool, sc); Ready(p, s, sc, env, o.code, o.pool, at, dest, next)
    ensures var o := Compile(e, dest, inf, next, pool, sc);
            Ends(p, s, n, t, at + |o.code|, o.reg, Eval(p.prims, e, env), dest, next)
    decreases e, 2
  {
    if Producer(e) {
      n, t := OperationCorrect(p, s, e, dest, inf, next, pool, sc, env, at);
    } else if e.And? || e.Or? {
      n, t := JoinCorrect(p, s, e, dest, inf, next, pool, sc, env, at);
    } else if e.Cond? {
      n, t := CondCorrect(p, s, e, dest, inf, next, pool, sc, env, at);
    } else if e.Group? {
      n, t := ExpressionCorrect(p, s, e.e, dest, false, next, pool, sc, env, at);
    } else {
      n, t := AtomCorrect(p, s, e, dest, inf, next, pool, sc, env, at);
    }
  }

  /** Literals and variables: at most one instruction. */
  lemma AtomCorrect(p: Program, s: State, e: Expr, dest: int, inf: bool, next: int,
      pool: seq<Const>, sc: Scope, env: Env, at: int) returns (n: nat, t: State)
    requires e.Lit? || e.StrLit? || e.True? || e.False? || e.NilLit? || e.Var?
    requires var o := Compile(e, dest, inf, next, pool, sc); Ready(p, s, sc, env, o.code, o.pool, at, dest, next)
    ensures var o := Compile(e, dest, inf, next, pool, sc);
            Ends(p, s, n, t, at + |o.code|, o.reg, Eval(p.prims, e, env), dest, next)
  {
    var o := Compile(e, dest, inf, next, pool, sc);
    var v := Eval(p.prims, e, env);
    if e.Var? {
      assert env.vars(e.name) == ReadVar(sc, s.regs, s.globals, e.name);
    }
    if o.code == [] {
      n, t := 0, s;
    } else {
      InstrAt(p, s, at, o.code[0]);
      n, t := ExecLoad(p, s, at, o.code[0], dest, next, v);
    }
  }

  /** An operation: its code up to the last instruction, then that instruction. */
  lemma {:induction false} OperationCorrect(p: Program, s: State, e: Expr, dest: int, inf: bool, next: int,
      pool: seq<Const>, sc: Scope, env: Env, at: int) returns (n: nat, t: State)
    requires Producer(e) && Safe(e)
    requires var o := Compile(e, dest, inf, next, pool, sc); Ready(p, s, sc, env, o.code, o.pool, at, dest, next)
    ensures var o := Compile(e, dest, inf, next, pool, sc);
            Ends(p, s, n, t, at + |o.code|, o.reg, Eval(p.prims, e, env), dest, next)
    decreases e, 1
  {
    hide Compile, Eval, Run, Step;
    var o := Compile(e, dest, inf, next, pool, sc);
    ProducerShape(e, dest, inf, next, pool, sc);
    Discipline(e, dest, inf, next, pool, sc);
    assert o.code == Front(o.code) + [Last(o.code)];
    AtSplit(p.code, at, Front(o.code), [Last(o.code)]);
    var k, u := OperationPoised(p, s, e, dest, inf, next, pool, sc, env, at);
    FreshResult(sc.locals, e, dest, inf, next, pool, sc);
    t := FinalStep(p, s, k, u, at + |o.code| - 1, Last(o.code), Eval(p.prims, e, env), dest, next, o.reg);
    n := k + 1;
  }

  /** An operation's result is never left in a local. */
  lemma FreshResult(L: seq<Local>, e: Expr, dest: int, inf: bool, next: int, pool: seq<Const>, sc: Scope)
    requires Producer(e) && Layout(sc.locals, dest, next)
    ensures var o := Compile(e, dest, inf, next, pool, sc); if dest >= 0 then o.reg == dest else o.reg >= next
  {
    if dest >= 0 {
      ProducerShape(e, dest, inf, next, pool, sc);
    } else {
      match e
      case Un(_, _) =>
      case Bin(_, l, _) => Discipline(l, dest, true, next, pool, sc);
      case PowE(l, r) =>
        Discipline(l, dest, true, next, pool, sc);
        var a := Compile(l, dest, true, next, pool, sc);
        InnerLayouts(sc.locals, dest, next, pool, a);
        Discipline(r, -1, inf, a.next, a.pool, sc);
    }
  }

  /** The code of an operation except its last instruction leads to where that instruction
      computes the operation's value. */
  lemma {:induction false} OperationPoised(p: Program, s: State, e: Expr, dest: int, inf: bool, next: int,
      pool: seq<Const>, sc: Scope, env: Env, at: int) returns (n: nat, t: State)
    requires Producer(e)
    requires Safe(e)
    requires var o := Compile(e, dest, inf, next, pool, sc);
             o.code != [] && Ready(p, s, sc, env, Front(o.code), o.pool, at, dest, next)
    ensures var o := Compile(e, dest, inf, next, pool, sc);
            Poised(p, s, n, t, at + |o.code| - 1, Last(o.code), Eval(p.prims, e, env), dest, next)
    decreases e, 0
  {
    match e
    case Un(u, e1) =>
      var a := Compile(e1, -1, inf, Take(dest, next), pool, sc);
      InnerLayouts(sc.locals, dest, next, pool, a);
      assert Front(a.code + [Unary(u, Dest(dest, next), a.reg)]) == a.code;
      n, t := ExpressionCorrect(p, s, e1, -1, inf, Take(dest, next), pool, sc, env, at);
    case Bin(_, _, _) => n, t := BinPoised(p, s, e, dest, inf, next, pool, sc, env, at);
    case PowE(_, _) => n, t := PowPoised(p, s, e, dest, inf, next, pool, sc, env, at);
  }

  lemma ReadyMeans(p: Program, s: State, sc: Scope, env: Env, code: seq<Instr>, pool: seq<Const>, at: int, dest: int,
        next: int)
    requires Ready(p, s, sc, env, code, pool, at, dest, next)
    ensures Layout(sc.locals, dest, next) && At(p.code, at, code) && pool <= p.consts && s.pc == at
  {
  }

  /** The first operand starts where the whole expression does. */
  lemma StartFirst(p: Program, s: State, sc: Scope, env: Env, code: seq<Instr>, pool: seq<Const>, a: Out, at: int,
        dest: int, next: int)
    requires Ready(p, s, sc, env, code, pool, at, dest, next) && At(p.code, at, a.code) && a.pool <= pool
    ensures Ready(p, s, sc, env, a.code, a.pool, at, dest, next)
  {
  }

  lemma StartCode(p: Program, s: State, sc: Scope, env: Env, code: seq<Instr>, pool: seq<Const>, at: int, dest: int,
        next: int,
                  code': seq<Instr>, pool': seq<Const>)
    requires Ready(p, s, sc, env, code, pool, at, dest, next) && At(p.code, at, code') && pool' <= pool
    ensures Ready(p, s, sc, env, code', pool', at, dest, next)
  {
  }

  /** A later operand starts where an execution has arrived. */
  lemma StartNext(p: Program, s: State, sc: Scope, env: Env, code: seq<Instr>, pool: seq<Const>, at: int, dest: int,
        next: int,
                  n: nat, t: State, pc: int, reg: int, v: Res, code': seq<Instr>, pool': seq<Const>, dest': int,
                      next': int)
    requires Ready(p, s, sc, env, code, pool, at, dest, next) && Ends(p, s, n, t, pc, reg, v, dest, next)
    requires At(p.code, pc, code') && pool' <= pool && Layout(sc.locals, dest', next')
    ensures Ready(p, t, sc, After(env, v), code', pool', pc, dest', next')
  {
    ReadsKept(sc, s.regs, t.regs, s.globals, env, dest, next);
  }

  /** What the register discipline of the left operand means for the code after it. */
  lemma LeftFacts(L: seq<Local>, dest: int, next: int, pool: seq<Const>, a: Out)
    requires Layout(L, dest, next) && Disciplined(L, dest, true, next, pool, a)
    ensures a.next >= next && pool <= a.pool && 0 <= a.reg < Take(dest, a.next) && a.reg < a.next
    ensures JoinReg(L, dest, a) == dest || JoinReg(L, dest, a) >= next
    ensures JoinReg(L, dest, a) >= 0 && JoinNext(L, dest, a) >= next && (dest >= 0 ==> JoinReg(L, dest, a) == dest)
    ensures Dest(dest, a.next) == dest || Dest(dest, a.next) >= next
    ensures Take(dest, a.next) >= next && Dest(dest, a.next) >= 0
    ensures Layout(L, -1, a.next) && Layout(L, -1, Take(dest, a.next))
    ensures Layout(L, JoinReg(L, dest, a), JoinNext(L, dest, a)) && Layout(L, Dest(dest, a.next), Take(dest, a.next))
  {
    InnerLayouts(L, dest, next, pool, a);
  }

  lemma PoolOf(L: seq<Local>, dest: int, inf: bool, next: int, pool: seq<Const>, o: Out)
    requires Disciplined(L, dest, inf, next, pool, o)
    ensures pool <= o.pool && o.next >= next && (dest >= 0 && !inf ==> o.reg == dest)
  {
  }

  lemma {:induction false} BinPoised(p: Program, s: State, e: Expr, dest: int, inf: bool, next: int,
      pool: seq<Const>, sc: Scope, env: Env, at: int) returns (n: nat, t: State)
    requires e.Bin? && Safe(e)
    requires var o := Compile(e, dest, inf, next, pool, sc);
             o.code != [] && Ready(p, s, sc, env, Front(o.code), o.pool, at, dest, next)
    ensures var o := Compile(e, dest, inf, next, pool, sc);
            Poised(p, s, n, t, at + |o.code| - 1, Last(o.code), Eval(p.prims, e, env), dest, next)
    decreases e, 0, 1
  {
    hide Compile, Eval, Run, Step, At, Ends, Ready, Disciplined, Layout, Into, Branches, BinTail, Folds, EmitBin,
        EmitPow;
    UnfoldBin(e, dest, inf, next, pool, sc);
    ValueOf(p.prims, e, env);
    var L := sc.locals;
    var o := Compile(e, dest, inf, next, pool, sc);
    var a := Compile(e.l, dest, true, next, pool, sc);
    var b := Compile(e.r, -1, inf, Take(dest, a.next), a.pool, sc);
    var reg := Dest(dest, a.next);
    ReadyMeans(p, s, sc, env, Front(o.code), o.pool, at, dest, next);
    Discipline(e.l, dest, true, next, pool, sc);
    LeftFacts(L, dest, next, pool, a);
    Discipline(e.r, -1, inf, Take(dest, a.next), a.pool, sc);
    PoolOf(L, -1, inf, Take(dest, a.next), a.pool, b);
    SafeNoAssign(e.r);
    LastLoad(e.r, -1, inf, Take(dest, a.next), a.pool, sc);
    LoadsTailMeans(L, e.r, b);
    BinParts(p.code, at, L, e.bop, reg, a, b);
    var va := Eval(p.prims, e.l, env);
    var vb := Eval(p.prims, e.r, After(env, va));
    if Folds(L, e.bop, a.reg, b.reg, a.code + b.code) {
      StartFirst(p, s, sc, env, Front(o.code), o.pool, a, at, dest, next);
      var n1, t1 := ExpressionCorrect(p, s, e.l, dest, true, next, pool, sc, env, at);
      FoldsLiteral(L, e.bop, e.r, a, b);
      TailValue(p.prims, e.r, After(env, va));
      PoiseFold(p, s, n1, t1, at, L, e.bop, reg, dest, next, a, b, va, b.code[0].n);
      n, t := n1, t1;
    } else {
      StartCode(p, s, sc, env, Front(o.code), o.pool, at, dest, next, a.code + b.code, b.pool);
      var n2, t2 := OperandsReady(p, s, e, dest, inf, next, pool, sc, env, at);
      n, t := PoiseBin(p, s, n2, t2, at, L, e.bop, reg, a, b, va, vb, dest, next);
    }
  }

  /** Both operands of a binary expression that is not folded have been computed. */
  lemma {:induction false} OperandsReady(p: Program, s: State, e: Expr, dest: int, inf: bool, next: int,
      pool: seq<Const>, sc: Scope, env: Env, at: int) returns (n: nat, t: State)
    requires e.Bin? && Safe(e.l) && Safe(e.r)
    requires var a := Compile(e.l, dest, true, next, pool, sc);
             var b := Compile(e.r, -1, inf, Take(dest, a.next), a.pool, sc);
             Ready(p, s, sc, env, a.code + b.code, b.pool, at, dest, next)
    ensures var a := Compile(e.l, dest, true, next, pool, sc);
            var b := Compile(e.r, -1, inf, Take(dest, a.next), a.pool, sc);
            var va := Eval(p.prims, e.l, env);
            Ends(p, s, n, t, at + |a.code| + |b.code|, b.reg, Eval(p.prims, e.r, After(env, va)), dest, next) &&
            Get(t.regs, a.reg) == va.v
    decreases e, 0, 0
  {
    hide Compile, Eval, Run, Step, At, Ends, Ready, Disciplined, Layout;
    var L := sc.locals;
    var a := Compile(e.l, dest, true, next, pool, sc);
    var next' := Take(dest, a.next);
    var b := Compile(e.r, -1, inf, next', a.pool, sc);
    ReadyMeans(p, s, sc, env, a.code + b.code, b.pool, at, dest, next);
    AtSplit(p.code, at, a.code, b.code);
    Discipline(e.l, dest, true, next, pool, sc);
    LeftFacts(L, dest, next, pool, a);
    Discipline(e.r, -1, inf, next', a.pool, sc);
    PoolOf(L, -1, inf, next', a.pool, b);
    var va := Eval(p.prims, e.l, env);
    var vb := Eval(p.prims, e.r, After(env, va));
    StartFirst(p, s, sc, env, a.code + b.code, b.pool, a, at, dest, next);
    var n1, t1 := ExpressionCorrect(p, s, e.l, dest, true, next, pool, sc, env, at);
    StartNext(p, s, sc, env, a.code + b.code, b.pool, at, dest, next, n1, t1, at + |a.code|, a.reg, va, b.code, b.pool,
        -1, next');
    var n2, t2 := ExpressionCorrect(p, t1, e.r, -1, inf, next', a.pool, sc, After(env, va), at + |a.code|);
    Kept(p, s, n1, t1, at + |a.code|, a.reg, va, dest, next, n2, t2, at + |a.code| + |b.code|, b.reg, vb, -1, next');
    n, t := n1 + n2, t2;
  }

  lemma LoadsTailMeans(L: seq<Local>, e: Expr, o: Out)
    requires LoadsTail(L, e, o)
    ensures o.code == [] ==> IsLocal(L, o.reg)
  {
  }

  /** With the peephole: the literal travels inside the instruction. */
  lemma PoiseFold(p: Program, s: State, n: nat, t: State, at: int, L: seq<Local>, op: BinOp, reg: int,
                  dest: int, next: int, a: Out, b: Out, va: Res, k: int)
    requires Ends(p, s, n, t, at + |a.code|, a.reg, va, dest, next)
    requires Folds(L, op, a.reg, b.reg, a.code + b.code) && b.code == [LoadI(b.reg, k)]
    ensures var c := EmitBin(L, op, reg, a, b).code;
            c != [] && Poised(p, s, n, t, at + |c| - 1, Last(c), BinValue(p.prims, op, va.v, Res(Int(k), va.h)), dest,
                next)
  {
    ImmediateExact(p.prims, va.h, va.v, k);
    assert (a.code + b.code)[|a.code + b.code| - 1] == LoadI(b.reg, k);
  }

  /** The operands' code inside a binary expression's. */
  lemma BinParts(code: seq<Instr>, at: int, L: seq<Local>, op: BinOp, reg: int, a: Out, b: Out)
    requires EmitBin(L, op, reg, a, b).code != [] && At(code, at, Front(EmitBin(L, op, reg, a, b).code))
    requires b.code == [] ==> IsLocal(L, b.reg)
    ensures At(code, at, a.code) && EmitBin(L, op, reg, a, b).pool == b.pool
    ensures !Folds(L, op, a.reg, b.reg, a.code + b.code) ==> At(code, at, a.code + b.code)
  {
    var c := Front(EmitBin(L, op, reg, a, b).code);
    assert c == a.code + c[|a.code|..];
    AtSplit(code, at, a.code, c[|a.code|..]);
    if !Folds(L, op, a.reg, b.reg, a.code + b.code) {
      assert c == (a.code + b.code) + c[|a.code + b.code|..];
      AtSplit(code, at, a.code + b.code, c[|a.code + b.code|..]);
    }
  }

  /** Outside the trap, the peephole only ever meets a literal. */
  lemma FoldsLiteral(L: seq<Local>, op: BinOp, r: Expr, a: Out, b: Out)
    requires Folds(L, op, a.reg, b.reg, a.code + b.code) && !FoldTrap(op, r) && LoadsTail(L, r, b)
    ensures |b.code| == 1 && b.code == [LoadI(b.reg, b.code[0].n)] && Tail(r) == Lit(b.code[0].n) && !IsJoin(r)
  {
    assert b.code != [];
  }

  lemma TailValue(p: Prims, e: Expr, env: Env)
    requires !IsJoin(e) && Tail(e).Lit?
    ensures Eval(p, e, env) == Res(Int(Tail(e).n), env.heap)
  {
  }

  lemma {:induction false} PowPoised(p: Program, s: State, e: Expr, dest: int, inf: bool, next: int,
      pool: seq<Const>, sc: Scope, env: Env, at: int) returns (n: nat, t: State)
    requires e.PowE?
    requires Safe(e)
    requires var o := Compile(e, dest, inf, next, pool, sc);
             o.code != [] && Ready(p, s, sc, env, Front(o.code), o.pool, at, dest, next)
    ensures var o := Compile(e, dest, inf, next, pool, sc);
            Poised(p, s, n, t, at + |o.code| - 1, Last(o.code), Eval(p.prims, e, env), dest, next)
    decreases e, 0, 0
  {
    hide Compile, Eval, Run, Step, At, Ends, Ready, Disciplined, Layout, Into, Branches, BinTail, Folds, EmitBin,
        EmitPow;
    UnfoldPow(e, dest, inf, next, pool, sc);
    ValueOf(p.prims, e, env);
    var L := sc.locals;
    var o := Compile(e, dest, inf, next, pool, sc);
    var a := Compile(e.l, dest, true, next, pool, sc);
    var b := Compile(e.r, -1, inf, a.next, a.pool, sc);
    ReadyMeans(p, s, sc, env, Front(o.code), o.pool, at, dest, next);
    Discipline(e.l, dest, true, next, pool, sc);
    LeftFacts(L, dest, next, pool, a);
    Discipline(e.r, -1, inf, a.next, a.pool, sc);
    PoolOf(L, -1, inf, a.next, a.pool, b);
    PowParts(p.code, at, L, dest, a, b);
    var va := Eval(p.prims, e.l, env);
    var vb := Eval(p.prims, e.r, After(env, va));
    StartFirst(p, s, sc, env, Front(o.code), o.pool, a, at, dest, next);
    var n1, t1 := ExpressionCorrect(p, s, e.l, dest, true, next, pool, sc, env, at);
    StartNext(p, s, sc, env, Front(o.code), o.pool, at, dest, next, n1, t1, at + |a.code|, a.reg, va, b.code, b.pool,
        -1, a.next);
    var n2, t2 := ExpressionCorrect(p, t1, e.r, -1, inf, a.next, a.pool, sc, After(env, va), at + |a.code|);
    Kept(p, s, n1, t1, at + |a.code|, a.reg, va, dest, next, n2, t2, at + |a.code| + |b.code|, b.reg, vb, -1, a.next);
    n, t := n1 + n2, t2;
    PoisePow(p, s, n, t, at, L, dest, next, a, b, va, vb);
  }

  lemma PoisePow(p: Program, s: State, n: nat, t: State, at: int, L: seq<Local>, dest: int, next: int, a: Out, b: Out,
        va: Res, vb: Res)
    requires Ends(p, s, n, t, at + |a.code| + |b.code|, b.reg, vb, dest, next) && Get(t.regs, a.reg) == va.v
    ensures var c := EmitPow(L, dest, a, b).code;
            c != [] && Poised(p, s, n, t, at + |c| - 1, Last(c), PowValue(p.prims, va.v, vb), dest, next)
  {
  }

  lemma PowParts(code: seq<Instr>, at: int, L: seq<Local>, dest: int, a: Out, b: Out)
    requires EmitPow(L, dest, a, b).code != [] && At(code, at, Front(EmitPow(L, dest, a, b).code))
    ensures At(code, at, a.code) && At(code, at + |a.code|, b.code) && EmitPow(L, dest, a, b).pool == b.pool
  {
    assert Front(EmitPow(L, dest, a, b).code) == a.code + b.code;
    AtSplit(code, at, a.code, b.code);
  }

  /** After a second operand the first one's result is still in its register. */
  lemma Kept(p: Program, s: State, n: nat, t: State, pc: int, reg: int, v: Res, dest: int, next: int,
             k: nat, u: State, pc': int, reg': int, v': Res, dest': int, next': int)
    requires Ends(p, s, n, t, pc, reg, v, dest, next) && Ends(p, t, k, u, pc', reg', v', dest', next')
    requires next <= next' && dest' == -1 && 0 <= reg < next'
    ensures Ends(p, s, n + k, u, pc', reg', v', dest, next) && Get(u.regs, reg) == v.v
  {
    Chain(p, s, n, t, pc, reg, v, dest, next, k, u, pc', reg', v', dest', next');
  }

  lemma {:induction false} JoinCorrect(p: Program, s: State, e: Expr, dest: int, inf: bool, next: int,
      pool: seq<Const>, sc: Scope, env: Env, at: int) returns (n: nat, t: State)
    requires (e.And? || e.Or?) && Safe(e)
    requires var o := Compile(e, dest, inf, next, pool, sc); Ready(p, s, sc, env, o.code, o.pool, at, dest, next)
    ensures var o := Compile(e, dest, inf, next, pool, sc);
            Ends(p, s, n, t, at + |o.code|, o.reg, Eval(p.prims, e, env), dest, next)
    decreases e, 0
  {
    hide Compile, Eval, Run, Step, At, Ends, Ready, Disciplined, Layout, Into, Branches, BinTail, Folds, EmitBin,
        EmitPow;
    UnfoldJoin(e, dest, inf, next, pool, sc);
    ValueOf(p.prims, e, env);
    var L := sc.locals;
    var o := Compile(e, dest, inf, next, pool, sc);
    var a := Compile(e.l, dest, true, next, pool, sc);
    var reg, n1 := JoinReg(L, dest, a), JoinNext(L, dest, a);
    var b := Compile(e.r, reg, inf, n1, a.pool, sc);
    ReadyMeans(p, s, sc, env, o.code, o.pool, at, dest, next);
    Discipline(e.l, dest, true, next, pool, sc);
    LeftFacts(L, dest, next, pool, a);
    Discipline(e.r, reg, inf, n1, a.pool, sc);
    PoolOf(L, reg, inf, n1, a.pool, b);
    JoinParts(p.code, at, L, e.And?, reg, a, b);
    var va := Eval(p.prims, e.l, env);
    var pc := at + |Into(reg, a)|;
    StartFirst(p, s, sc, env, o.code, o.pool, a, at, dest, next);
    var k1, t1 := ExpressionCorrect(p, s, e.l, dest, true, next, pool, sc, env, at);
    var k2, t2 := ExecInto(p, s, k1, t1, at, a, va, dest, next, reg);
    var t3 := ExecJoinJump(p, s, k2, t2, pc, e.And?, reg, |Into(reg, b)|, dest, next, va);
    if Truthy(va.v) == e.And? {
      StartNext(p, s, sc, env, o.code, o.pool, at, dest, next, k2 + 1, t3, pc + 1, reg, va, b.code, b.pool, reg, n1);
      var k4, t4 := ExpressionCorrect(p, t3, e.r, reg, inf, n1, a.pool, sc, After(env, va), pc + 1);
      n, t := SecondInto(p, s, k2 + 1, t3, pc + 1, reg, va, dest, next, k4, t4, b, Eval(p.prims, e.r, After(env, va)),
          reg, n1);
    } else {
      n, t := k2 + 1, t3;
    }
  }

  /** A later operand has run; its result is copied to reg and the whole run is one execution. */
  lemma SecondInto(p: Program, s: State, n: nat, t: State, pc: int, r: int, v: Res, dest: int, next: int,
                   k: nat, u: State, b: Out, vb: Res, reg: int, next': int) returns (n': nat, u': State)
    requires Ends(p, s, n, t, pc, r, v, dest, next) && Ends(p, t, k, u, pc + |b.code|, b.reg, vb, reg, next')
    requires At(p.code, pc, Into(reg, b)) && next <= next' && (reg == dest || reg >= next)
    ensures Ends(p, s, n', u', pc + |Into(reg, b)|, reg, vb, dest, next)
  {
    hide Run, At, Step, Into;
    var k2, u2 := ExecInto(p, t, k, u, pc, b, vb, reg, next', reg);
    Chain(p, s, n, t, pc, r, v, dest, next, k2, u2, pc + |Into(reg, b)|, reg, vb, reg, next');
    n', u' := n + k2, u2;
  }

  lemma {:induction false} CondCorrect(p: Program, s: State, e: Expr, dest: int, inf: bool, next: int,
      pool: seq<Const>, sc: Scope, env: Env, at: int) returns (n: nat, t: State)
    requires e.Cond? && Safe(e)
    requires var o := Compile(e, dest, inf, next, pool, sc); Ready(p, s, sc, env, o.code, o.pool, at, dest, next)
    ensures var o := Compile(e, dest, inf, next, pool, sc);
            Ends(p, s, n, t, at + |o.code|, o.reg, Eval(p.prims, e, env), dest, next)
    decreases e, 0
  {
    hide Compile, Eval, Run, Step, At, Ends, Ready, Disciplined, Layout, Into, Branches, BinTail, Folds, EmitBin,
        EmitPow;
    UnfoldCond(e, dest, inf, next, pool, sc);
    ValueOf(p.prims, e, env);
    var L := sc.locals;
    var o := Compile(e, dest, inf, next, pool, sc);
    var a := Compile(e.c, dest, true, next, pool, sc);
    var reg, n1 := Dest(dest, a.next), Take(dest, a.next);
    var x := Compile(e.t, reg, false, n1, a.pool, sc);
    ReadyMeans(p, s, sc, env, o.code, o.pool, at, dest, next);
    Discipline(e.c, dest, true, next, pool, sc);
    LeftFacts(L, dest, next, pool, a);
    Discipline(e.t, reg, false, n1, a.pool, sc);
    PoolOf(L, reg, false, n1, a.pool, x);
    var y := Compile(e.f, reg, inf, x.next, x.pool, sc);
    HigherLayout(L, reg, n1, x.next);
    Discipline(e.f, reg, inf, x.next, x.pool, sc);
    PoolOf(L, reg, inf, x.next, x.pool, y);
    CondParts(p.code, at, L, reg, a, x, y);
    var v := Eval(p.prims, e.c, env);
    var pc := at + |Into(reg, a)|;
    StartFirst(p, s, sc, env, o.code, o.pool, a, at, dest, next);
    var k1, t1 := ExpressionCorrect(p, s, e.c, dest, true, next, pool, sc, env, at);
    var k2, t2 := ExecInto(p, s, k1, t1, at, a, v, dest, next, reg);
    var tl := |Into(reg, x)|;
    var t3 := ExecCondJump(p, s, k2, t2, pc, reg, tl + 1, dest, next, v);
    if Truthy(v.v) {
      StartNext(p, s, sc, env, o.code, o.pool, at, dest, next, k2 + 1, t3, pc + 1, reg, v, x.code, x.pool, reg, n1);
      var k4, t4 := ExpressionCorrect(p, t3, e.t, reg, false, n1, a.pool, sc, After(env, v), pc + 1);
      var vt := Eval(p.prims, e.t, After(env, v));
      var k5, t5 := SecondInto(p, s, k2 + 1, t3, pc + 1, reg, v, dest, next, k4, t4, x, vt, reg, n1);
      t := ExecJmp(p, s, k5, t5, pc + 1 + tl, |Into(reg, y)|, reg, vt, dest, next);
      n := k5 + 1;
    } else {
      StartNext(p, s, sc, env, o.code, o.pool, at, dest, next, k2 + 1, t3, pc + 2 + tl, reg, v, y.code, y.pool, reg,
          x.next);
      var k4, t4 := ExpressionCorrect(p, t3, e.f, reg, inf, x.next, x.pool, sc, After(env, v), pc + 2 + tl);
      n, t := SecondInto(p, s, k2 + 1, t3, pc + 2 + tl, reg, v, dest, next, k4, t4, y,
          Eval(p.prims, e.f, After(env, v)), reg, x.next);
    }
  }

  lemma HigherLayout(L: seq<Local>, dest: int, next: int, next': int)
    requires Layout(L, dest, next) && next <= next'
    ensures Layout(L, dest, next')
  {
  }

  /** Where the pieces of a ternary are. */
  lemma CondParts(code: seq<Instr>, at: int, L: seq<Local>, reg: int, a: Out, x: Out, y: Out)
    requires At(code, at, EmitCond(L, reg, a, x, y).code)
    ensures var pc := at + |Into(reg, a)|;
            var tl, el := |Into(reg, x)|, |Into(reg, y)|;
            At(code, at, a.code) && At(code, at, Into(reg, a)) && At(code, pc, [JmpIfNot(reg, tl + 1)]) &&
            At(code, pc + 1, Into(reg, x)) && At(code, pc + 1, x.code) && At(code, pc + 1 + tl, [Jmp(el)]) &&
            At(code, pc + 2 + tl, Into(reg, y)) && At(code, pc + 2 + tl, y.code) &&
            |EmitCond(L, reg, a, x, y).code| == |Into(reg, a)| + 2 + tl + el
  {
    hide At, Branches, Into;
    var pc, tc, ec := at + |Into(reg, a)|, Into(reg, x), Into(reg, y);
    AtSplit(code, at, Into(reg, a), Branches(reg, tc, ec));
    BranchParts(code, pc, reg, tc, ec);
    IntoParts(code, at, reg, a);
    IntoParts(code, pc + 1, reg, x);
    IntoParts(code, pc + 2 + |tc|, reg, y);
  }
}
