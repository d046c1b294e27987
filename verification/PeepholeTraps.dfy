/** Two peepholes rewrite the last instruction emitted without asking whether a jump lands behind
    it: the immediate-operand fold and the redirection of an assignment's last instruction. Here is
    exactly what the code then does, and when that is still right. */
module PeepholeTraps {
  import opened Values
  import opened Machine
  import opened Codegen
  import opened ExpressionProof

  /** Evaluation gets to the last operand: no `and`, `or` or ternary on the way leaves early. */
  predicate TailReached(p: Prims, e: Expr, env: Env) {
    match e
    case And(l, r) => var a := Eval(p, l, env); Truthy(a.v) && TailReached(p, r, After(env, a))
    case Or(l, r) => var a := Eval(p, l, env); !Truthy(a.v) && TailReached(p, r, After(env, a))
    case Cond(c, _, f) => var a := Eval(p, c, env); !Truthy(a.v) && TailReached(p, f, After(env, a))
    case Group(e1) => TailReached(p, e1, env)
    case _ => true
  }

  /** Expressions whose code ends in the last operand's own last instruction. */
  predicate EndsInTail(e: Expr) { Producer(Tail(e)) || SmallInt(Tail(e)) }

  ghost predicate TailShaped(e: Expr, dest: int, next: int, o: Out) {
    o.code != [] && (if dest >= 0 then o.reg == dest else o.reg >= next) &&
    (Producer(Tail(e)) ==> Retargetable(Last(o.code)) && Last(o.code).a == o.reg) &&
    (SmallInt(Tail(e)) ==> Last(o.code) == LoadI(o.reg, Tail(e).n))
  }

  lemma {:induction false} TailShape(e: Expr, dest: int, inf: bool, next: int, pool: seq<Const>, sc: Scope)
    requires EndsInTail(e) && Layout(sc.locals, dest, next)
    ensures TailShaped(e, dest, next, Compile(e, dest, inf, next, pool, sc))
    decreases e
  {
    hide Compile;
    var L := sc.locals;
    if Producer(e) {
      ProducerShape(e, dest, inf, next, pool, sc);
      FreshResult(L, e, dest, inf, next, pool, sc);
    } else if e.Lit? {
      LitShape(e.n, dest, inf, next, pool, sc);
    } else if e.Group? {
      TailShape(e.e, dest, false, next, pool, sc);
      UnfoldGroup(e, dest, inf, next, pool, sc);
    } else if e.Cond? {
      UnfoldCond(e, dest, inf, next, pool, sc);
      var a := Compile(e.c, dest, true, next, pool, sc);
      var reg, n1 := Dest(dest, a.next), Take(dest, a.next);
      var x := Compile(e.t, reg, false, n1, a.pool, sc);
      Discipline(e.c, dest, true, next, pool, sc);
      LeftFacts(L, dest, next, pool, a);
      Discipline(e.t, reg, false, n1, a.pool, sc);
      PoolOf(L, reg, false, n1, a.pool, x);
      HigherLayout(L, reg, n1, x.next);
      TailShape(e.f, reg, inf, x.next, x.pool, sc);
      CondTail(L, reg, a, x, Compile(e.f, reg, inf, x.next, x.pool, sc));
    } else {
      UnfoldJoin(e, dest, inf, next, pool, sc);
      var a := Compile(e.l, dest, true, next, pool, sc);
      Discipline(e.l, dest, true, next, pool, sc);
      LeftFacts(L, dest, next, pool, a);
      var reg := JoinReg(L, dest, a);
      TailShape(e.r, reg, inf, JoinNext(L, dest, a), a.pool, sc);
      JoinTail(L, e.And?, reg, a, Compile(e.r, reg, inf, JoinNext(L, dest, a), a.pool, sc));
    }
  }

  lemma LitShape(n: int, dest: int, inf: bool, next: int, pool: seq<Const>, sc: Scope)
    requires -128 <= n <= 127
    ensures Compile(Lit(n), dest, inf, next, pool, sc) == Load(LoadI(Dest(dest, next), n), dest, next, pool)
  {
  }

  /** The code of a join whose right side needs no copy: its front and its last instruction. */
  lemma JoinTail(L: seq<Local>, isAnd: bool, reg: int, a: Out, b: Out)
    requires b.code != [] && b.reg == reg
    ensures var c := EmitJoin(L, isAnd, reg, a, b).code;
            c != [] && Last(c) == Last(b.code) &&
            Front(c) == Into(reg, a) + ([if isAnd then JmpIfNot(reg, |b.code|) else JmpIf(reg, |b.code|)] +
                Front(b.code)) &&
            |c| == |Into(reg, a)| + 1 + |b.code| && EmitJoin(L, isAnd, reg, a, b).reg == reg
  {
    assert Into(reg, b) == b.code;
  }

  lemma CondTail(L: seq<Local>, reg: int, a: Out, x: Out, y: Out)
    requires y.code != [] && y.reg == reg
    ensures var c := EmitCond(L, reg, a, x, y).code;
            var tc := Into(reg, x);
            c != [] && Last(c) == Last(y.code) &&
            Front(c) == Into(reg, a) + ([JmpIfNot(reg, |tc| + 1)] + (tc + ([Jmp(|y.code|)] + Front(y.code)))) &&
            |c| == |Into(reg, a)| + 2 + |tc| + |y.code| && EmitCond(L, reg, a, x, y).reg == reg
  {
    assert Into(reg, y) == y.code;
    var tc := Into(reg, x);
    assert Branches(reg, tc, y.code) == ([JmpIfNot(reg, |tc| + 1)] + (tc + ([Jmp(|y.code|)] + Front(y.code)))) +
        [Last(y.code)];
  }

  /** Where a run of the code without its last instruction stops: before that instruction, about
      to compute the value, if the tail is reached; else behind it, with the value in place. */
  ghost predicate TailRun(p: Program, s: State, n: nat, t: State, e: Expr, env: Env, o: Out, at: int,
                          dest: int, next: int) {
    var v := Eval(p.prims, e, env);
    o.code != [] &&
    if TailReached(p.prims, e, env) then Poised(p, s, n, t, at + |o.code| - 1, Last(o.code), v, dest, next)
    else Ends(p, s, n, t, at + |o.code|, o.reg, v, dest, next)
  }

  /** TailRun for every expression that ends in its tail, with only the front of its code in place. */
  lemma {:induction false} RunToTail(p: Program, s: State, e: Expr, dest: int, inf: bool, next: int,
      pool: seq<Const>, sc: Scope, env: Env, at: int) returns (n: nat, t: State)
    requires EndsInTail(e) && Safe(e)
    requires var o := Compile(e, dest, inf, next, pool, sc);
             o.code != [] && Ready(p, s, sc, env, Front(o.code), o.pool, at, dest, next)
    ensures TailRun(p, s, n, t, e, env, Compile(e, dest, inf, next, pool, sc), at, dest, next)
    decreases e, 1
  {
    hide Compile, Eval, Run, Step, At, Ends, Ready;
    if Producer(e) {
      n, t := OperationPoised(p, s, e, dest, inf, next, pool, sc, env, at);
    } else if e.Lit? {
      LitShape(e.n, dest, inf, next, pool, sc);
      n, t := LitPoised(p, s, e, sc, env, at, dest, next, pool);
    } else if e.Group? {
      UnfoldGroup(e, dest, inf, next, pool, sc);
      GroupValue(p.prims, e, env);
      n, t := RunToTail(p, s, e.e, dest, false, next, pool, sc, env, at);
    } else if e.Cond? {
      n, t := RunToTailCond(p, s, e, dest, inf, next, pool, sc, env, at);
    } else {
      n, t := RunToTailJoin(p, s, e, dest, inf, next, pool, sc, env, at);
    }
  }

  lemma GroupValue(p: Prims, e: Expr, env: Env)
    requires e.Group?
    ensures Eval(p, e, env) == Eval(p, e.e, env)
  {
  }

  lemma LitPoised(p: Program, s: State, e: Expr, sc: Scope, env: Env, at: int, dest: int, next: int, pool: seq<Const>)
    returns (n: nat, t: State)
    requires e.Lit? && Ready(p, s, sc, env, [], pool, at, dest, next)
    ensures Poised(p, s, n, t, at, LoadI(Dest(dest, next), e.n), Eval(p.prims, e, env), dest, next)
  {
    n, t := 0, s;
  }

  lemma {:induction false} RunToTailJoin(p: Program, s: State, e: Expr, dest: int, inf: bool, next: int,
      pool: seq<Const>, sc: Scope, env: Env, at: int) returns (n: nat, t: State)
    requires (e.And? || e.Or?) && EndsInTail(e) && Safe(e)
    requires var o := Compile(e, dest, inf, next, pool, sc);
             o.code != [] && Ready(p, s, sc, env, Front(o.code), o.pool, at, dest, next)
    ensures TailRun(p, s, n, t, e, env, Compile(e, dest, inf, next, pool, sc), at, dest, next)
    decreases e, 0
  {
    hide Compile, Eval, Run, Step, At, Ends, Poised, Ready, Disciplined, Layout, Into;
    UnfoldJoin(e, dest, inf, next, pool, sc);
    ValueOf(p.prims, e, env);
    var L := sc.locals;
    var o := Compile(e, dest, inf, next, pool, sc);
    var a := Compile(e.l, dest, true, next, pool, sc);
    var reg, n1 := JoinReg(L, dest, a), JoinNext(L, dest, a);
    var b := Compile(e.r, reg, inf, n1, a.pool, sc);
    ReadyMeans(p, s, sc, env, Front(o.code), o.pool, at, dest, next);
    Discipline(e.l, dest, true, next, pool, sc);
    LeftFacts(L, dest, next, pool, a);
    Discipline(e.r, reg, inf, n1, a.pool, sc);
    PoolOf(L, reg, inf, n1, a.pool, b);
    TailShape(e.r, reg, inf, n1, a.pool, sc);
    JoinTail(L, e.And?, reg, a, b);
    var j := if e.And? then JmpIfNot(reg, |b.code|) else JmpIf(reg, |b.code|);
    var pc := at + |Into(reg, a)|;
    AtSplit(p.code, at, Into(reg, a), [j] + Front(b.code));
    AtSplit(p.code, pc, [j], Front(b.code));
    IntoParts(p.code, at, reg, a);
    var va := Eval(p.prims, e.l, env);
    StartFirst(p, s, sc, env, Front(o.code), o.pool, a, at, dest, next);
    var k1, t1 := ExpressionCorrect(p, s, e.l, dest, true, next, pool, sc, env, at);
    var k2, t2 := ExecInto(p, s, k1, t1, at, a, va, dest, next, reg);
    var t3 := ExecJoinJump(p, s, k2, t2, pc, e.And?, reg, |b.code|, dest, next, va);
    if Truthy(va.v) == e.And? {
      StartNext(p, s, sc, env, Front(o.code), o.pool, at, dest, next, k2 + 1, t3, pc + 1, reg, va, Front(b.code),
          b.pool, reg, n1);
      var k4, t4 := RunToTail(p, t3, e.r, reg, inf, n1, a.pool, sc, After(env, va), pc + 1);
      ChainTail(p, s, k2 + 1, t3, pc + 1, reg, va, dest, next, k4, t4, e.r, After(env, va), b, pc + 1, n1);
      n, t := k2 + 1 + k4, t4;
    } else {
      n, t := k2 + 1, t3;
    }
  }

  /** A run up to an operand, followed by that operand's run to its tail. */
  lemma ChainTail(p: Program, s: State, n: nat, t: State, pc: int, reg: int, v: Res, dest: int, next: int,
                  k: nat, u: State, e: Expr, env: Env, o: Out, at: int, next': int)
    requires Ends(p, s, n, t, pc, reg, v, dest, next) && TailRun(p, t, k, u, e, env, o, at, reg, next')
    requires next <= next' && (reg == dest || reg >= next)
    ensures TailRun(p, s, n + k, u, e, env, o, at, dest, next)
  {
    RunTrans(p, s, n, t, k, u);
    forall r | 0 <= r < next && r != dest ensures Get(u.regs, r) == Get(s.regs, r) {
      assert Get(t.regs, r) == Get(s.regs, r);
      assert Get(u.regs, r) == Get(t.regs, r);
    }
  }

  lemma {:induction false} RunToTailCond(p: Program, s: State, e: Expr, dest: int, inf: bool, next: int,
      pool: seq<Const>, sc: Scope, env: Env, at: int) returns (n: nat, t: State)
    requires e.Cond? && EndsInTail(e) && Safe(e)
    requires var o := Compile(e, dest, inf, next, pool, sc);
             o.code != [] && Ready(p, s, sc, env, Front(o.code), o.pool, at, dest, next)
    ensures TailRun(p, s, n, t, e, env, Compile(e, dest, inf, next, pool, sc), at, dest, next)
    decreases e, 0
  {
    hide Compile, Eval, Run, Step, At, Ends, Poised, Ready, Disciplined, Layout, Into, Retargetable, Branches, Free;
    UnfoldCond(e, dest, inf, next, pool, sc);
    ValueOf(p.prims, e, env);
    var L := sc.locals;
    var o := Compile(e, dest, inf, next, pool, sc);
    var a := Compile(e.c, dest, true, next, pool, sc);
    var reg, n1 := Dest(dest, a.next), Take(dest, a.next);
    var x := Compile(e.t, reg, false, n1, a.pool, sc);
    ReadyMeans(p, s, sc, env, Front(o.code), o.pool, at, dest, next);
    Discipline(e.c, dest, true, next, pool, sc);
    LeftFacts(L, dest, next, pool, a);
    Discipline(e.t, reg, false, n1, a.pool, sc);
    PoolOf(L, reg, false, n1, a.pool, x);
    HigherLayout(L, reg, n1, x.next);
    var y := Compile(e.f, reg, inf, x.next, x.pool, sc);
    Discipline(e.f, reg, inf, x.next, x.pool, sc);
    PoolOf(L, reg, inf, x.next, x.pool, y);
    TailShape(e.f, reg, inf, x.next, x.pool, sc);
    CondTail(L, reg, a, x, y);
    CondFrontParts(p.code, at, reg, a, x, y);
    var pc, tl := at + |Into(reg, a)|, |Into(reg, x)|;
    var v := Eval(p.prims, e.c, env);
    StartFirst(p, s, sc, env, Front(o.code), o.pool, a, at, dest, next);
    var k1, t1 := ExpressionCorrect(p, s, e.c, dest, true, next, pool, sc, env, at);
    var k2, t2 := ExecInto(p, s, k1, t1, at, a, v, dest, next, reg);
    var t3 := ExecCondJump(p, s, k2, t2, pc, reg, tl + 1, dest, next, v);
    if Truthy(v.v) {
      StartNext(p, s, sc, env, Front(o.code), o.pool, at, dest, next, k2 + 1, t3, pc + 1, reg, v, x.code, x.pool, reg,
          n1);
      var k4, t4 := ExpressionCorrect(p, t3, e.t, reg, false, n1, a.pool, sc, After(env, v), pc + 1);
      var vt := Eval(p.prims, e.t, After(env, v));
      var k5, t5 := SecondInto(p, s, k2 + 1, t3, pc + 1, reg, v, dest, next, k4, t4, x, vt, reg, n1);
      t := ExecJmp(p, s, k5, t5, pc + 1 + tl, |y.code|, reg, vt, dest, next);
      n := k5 + 1;
    } else {
      StartNext(p, s, sc, env, Front(o.code), o.pool, at, dest, next, k2 + 1, t3, pc + 2 + tl, reg, v, Front(y.code),
          y.pool, reg, x.next);
      var k4, t4 := RunToTail(p, t3, e.f, reg, inf, x.next, x.pool, sc, After(env, v), pc + 2 + tl);
      ChainTail(p, s, k2 + 1, t3, pc + 2 + tl, reg, v, dest, next, k4, t4, e.f, After(env, v), y, pc + 2 + tl, x.next);
      n, t := k2 + 1 + k4, t4;
    }
  }

  lemma CondFrontParts(code: seq<Instr>, at: int, reg: int, a: Out, x: Out, y: Out)
    requires y.code != []
    requires var tc := Into(reg, x);
             At(code, at, Into(reg, a) + ([JmpIfNot(reg, |tc| + 1)] + (tc + ([Jmp(|y.code|)] + Front(y.code)))))
    ensures var pc, tl := at + |Into(reg, a)|, |Into(reg, x)|;
            At(code, at, a.code) && At(code, at, Into(reg, a)) && At(code, pc, [JmpIfNot(reg, tl + 1)]) &&
            At(code, pc + 1, x.code) && At(code, pc + 1, Into(reg, x)) && At(code, pc + 1 + tl, [Jmp(|y.code|)]) &&
            At(code, pc + 2 + tl, Front(y.code))
  {
    var pc, tc := at + |Into(reg, a)|, Into(reg, x);
    var j, k, f := [JmpIfNot(reg, |tc| + 1)], [Jmp(|y.code|)], Front(y.code);
    AtSplit(code, at, Into(reg, a), j + (tc + (k + f)));
    AtSplit(code, pc, j, tc + (k + f));
    AtSplit(code, pc + 1, tc, k + f);
    AtSplit(code, pc + 1 + |tc|, k, f);
    IntoParts(code, at, reg, a);
    IntoParts(code, pc + 1, reg, x);
  }

  // ---------------------------------------------------------------- the fold

  /** `l + r` and `l - r` where r falls into the trap: the addition is executed only if r's last
      operand is reached; otherwise the result register keeps what it held after l. So the result
      is right exactly when the tail is reached or the stale content happens to equal it. */
  lemma FoldExact(p: Program, s: State, op: BinOp, l: Expr, r: Expr, dest: int, inf: bool, next: int,
      pool: seq<Const>, sc: Scope, env: Env, at: int) returns (n1: nat, t1: State, n: nat, t: State)
    requires Safe(l) && Safe(r) && FoldTrap(op, r)
    requires var o := Compile(Bin(op, l, r), dest, inf, next, pool, sc);
             Ready(p, s, sc, env, o.code, o.pool, at, dest, next)
    ensures var o := Compile(Bin(op, l, r), dest, inf, next, pool, sc);
            var v := Eval(p.prims, Bin(op, l, r), env);
            var a := Compile(l, dest, true, next, pool, sc);
            var left := Eval(p.prims, l, env);
            var stale := Res(Get(t1.regs, o.reg), Eval(p.prims, r, After(env, left)).h);
            Ends(p, s, n1, t1, at + |a.code|, a.reg, left, dest, next) &&
            Ends(p, s, n, t, at + |o.code|, o.reg, if TailReached(p.prims, r, After(env, left)) then v
                else stale, dest, next) &&
            (Res(Get(t.regs, o.reg), t.heap) == v <==> TailReached(p.prims, r, After(env, left)) || stale == v)
  {
    hide Compile, Eval, Run, Step, At, Ready, Disciplined, Layout;
    var e := Bin(op, l, r);
    var L := sc.locals;
    UnfoldBin(e, dest, inf, next, pool, sc);
    ValueOf(p.prims, e, env);
    var o := Compile(e, dest, inf, next, pool, sc);
    var a := Compile(l, dest, true, next, pool, sc);
    var next' := Take(dest, a.next);
    var b := Compile(r, -1, inf, next', a.pool, sc);
    ReadyMeans(p, s, sc, env, o.code, o.pool, at, dest, next);
    Discipline(l, dest, true, next, pool, sc);
    LeftFacts(L, dest, next, pool, a);
    Discipline(r, -1, inf, next', a.pool, sc);
    PoolOf(L, -1, inf, next', a.pool, b);
    TailShape(r, -1, inf, next', a.pool, sc);
    TrapFolds(L, op, next', r, a, b);
    var k := Tail(r).n;
    var reg := Dest(dest, a.next);
    var i := if op.BAdd? then AddI(reg, a.reg, k) else SubI(reg, a.reg, k);
    TrapParts(p.code, at, L, op, reg, a, b, k);
    var va := Eval(p.prims, l, env);
    var env' := After(env, va);
    var vr := Eval(p.prims, r, env');
    StartFirst(p, s, sc, env, o.code, o.pool, a, at, dest, next);
    n1, t1 := ExpressionCorrect(p, s, l, dest, true, next, pool, sc, env, at);
    StartNext(p, s, sc, env, o.code, o.pool, at, dest, next, n1, t1, at + |a.code|, a.reg, va, Front(b.code), b.pool,
        -1, next');
    var n2, t2 := RunToTail(p, t1, r, -1, inf, next', a.pool, sc, env', at + |a.code|);
    TailIsValue(p.prims, r, env');
    if TailReached(p.prims, r, env') {
      n, t := AddAtTail(p, s, n1, t1, at, dest, next, a, va, n2, t2, b, vr, next', op, reg, k);
    } else {
      AfterTrap(p, s, n1, t1, at + |a.code|, a.reg, va, dest, next, n2, t2, at + |a.code| + |b.code|, b.reg, vr, next',
          reg);
      n, t := n1 + n2, t2;
    }
  }

  /** In the trap the guard of the peephole always holds. */
  lemma TrapFolds(L: seq<Local>, op: BinOp, next: int, r: Expr, a: Out, b: Out)
    requires FoldTrap(op, r) && TailShaped(r, -1, next, b) && Layout(L, -1, next) && 0 <= a.reg < next
    ensures Folds(L, op, a.reg, b.reg, a.code + b.code)
  {
    assert (a.code + b.code)[|a.code + b.code| - 1] == Last(b.code);
  }

  lemma TrapParts(code: seq<Instr>, at: int, L: seq<Local>, op: BinOp, reg: int, a: Out, b: Out, k: int)
    requires Folds(L, op, a.reg, b.reg, a.code + b.code) && b.code != [] && Last(b.code) == LoadI(b.reg, k)
    requires At(code, at, EmitBin(L, op, reg, a, b).code)
    ensures At(code, at, a.code) && At(code, at + |a.code|, Front(b.code))
    ensures At(code, at + |a.code| + |b.code| - 1, [if op.BAdd? then AddI(reg, a.reg, k) else SubI(reg, a.reg, k)])
    ensures |EmitBin(L, op, reg, a, b).code| == |a.code| + |b.code| && EmitBin(L, op, reg, a, b).pool == b.pool
  {
    var i := [if op.BAdd? then AddI(reg, a.reg, k) else SubI(reg, a.reg, k)];
    assert EmitBin(L, op, reg, a, b).code == a.code + (Front(b.code) + i);
    AtSplit(code, at, a.code, Front(b.code) + i);
    AtSplit(code, at + |a.code|, Front(b.code), i);
  }

  lemma TailIsValue(p: Prims, e: Expr, env: Env)
    requires Tail(e).Lit?
    ensures TailReached(p, e, env) ==> Eval(p, e, env).v == Int(Tail(e).n)
  {
  }

  lemma AddAtTail(p: Program, s: State, n1: nat, t1: State, at: int, dest: int, next: int, a: Out, va: Res,
      n2: nat, t2: State, b: Out, vr: Res, next': int, op: BinOp, reg: int, k: int) returns (n: nat, t: State)
    requires Ends(p, s, n1, t1, at + |a.code|, a.reg, va, dest, next) && (op.BAdd? || op.BSub?)
    requires b.code != [] && Poised(p, t1, n2, t2, at + |a.code| + |b.code| - 1, Last(b.code), vr, -1, next') &&
             Last(b.code).LoadI?
    requires next <= next' && 0 <= a.reg < next' && (reg == dest || reg >= next)
    requires At(p.code, at + |a.code| + |b.code| - 1, [if op.BAdd? then AddI(reg, a.reg, k) else SubI(reg, a.reg, k)])
    ensures Ends(p, s, n, t, at + |a.code| + |b.code|, reg, BinValue(p.prims, op, va.v, Res(Int(k), vr.h)), dest, next)
  {
    hide Run, At, Step, ArithValues, AddImmediate, SubImmediate;
    var i := if op.BAdd? then AddI(reg, a.reg, k) else SubI(reg, a.reg, k);
    RunTrans(p, s, n1, t1, n2, t2);
    ImmediateExact(p.prims, vr.h, va.v, k);
    assert Get(t2.regs, a.reg) == Get(t1.regs, a.reg);
    n := n1 + n2 + 1;
    t := FinalStep(p, s, n1 + n2, t2, at + |a.code| + |b.code| - 1, i, BinValue(p.prims, op, va.v, Res(Int(k), vr.h)),
        dest, next, reg);
  }

  lemma AfterTrap(p: Program, s: State, n: nat, t: State, pc: int, r: int, v: Res, dest: int, next: int,
      k: nat, u: State, pc': int, r': int, v': Res, next': int, reg: int)
    requires Ends(p, s, n, t, pc, r, v, dest, next) && Ends(p, t, k, u, pc', r', v', -1, next')
    requires next <= next' && 0 <= reg < next'
    ensures Ends(p, s, n + k, u, pc', reg, Res(Get(t.regs, reg), v'.h), dest, next)
  {
    Chain(p, s, n, t, pc, r, v, dest, next, k, u, pc', r', v', -1, next');
  }

  // ---------------------------------------------------------------- assignment

  /** A join whose last operand is an operation: redirecting that operation's result to the local
      misses the jumps that leave early. */
  predicate RetargetTrap(e: Expr) { IsJoin(e) && Producer(Tail(e)) }

  /** `x = e` for a local x: the local ends up with e's value, except that in the trap it keeps its
      old value whenever e's last operand is not reached. */
  lemma AssignExact(p: Program, s: State, x: string, e: Expr, next: int, pool: seq<Const>, sc: Scope,
      env: Env, at: int) returns (n: nat, t: State)
    requires Safe(e) && Resolve(sc.locals, x) != -1
    requires var o := Compile(Assign(x, e), -1, false, next, pool, sc);
             Ready(p, s, sc, env, o.code, o.pool, at, -1, next)
    ensures var o := Compile(Assign(x, e), -1, false, next, pool, sc);
            var v := Eval(p.prims, e, env);
            var home := Resolve(sc.locals, x);
            o.reg == home && o.next == next &&
            Ends(p, s, n, t, at + |o.code|, home,
                 Res(if RetargetTrap(e) && !TailReached(p.prims, e, env) then env.vars(x) else v.v, v.h), home, next) &&
            (Get(t.regs, home) == v.v <==> !RetargetTrap(e) || TailReached(p.prims, e, env) || env.vars(x) == v.v)
  {
    hide Compile, Eval, Run, Step, At, Ends, Poised, Ready, Disciplined, Layout, StoreLocal;
    var L := sc.locals;
    var home := Resolve(L, x);
    var o := Compile(Assign(x, e), -1, false, next, pool, sc);
    var a := Compile(e, -1, false, next, pool, sc);
    UnfoldAssign(x, e, next, pool, sc);
    ReadyMeans(p, s, sc, env, o.code, o.pool, at, -1, next);
    HomeBelow(L, next, home);
    Discipline(e, -1, false, next, pool, sc);
    PoolOf(L, -1, false, next, pool, a);
    SafeNoAssign(e);
    LastLoad(e, -1, false, next, pool, sc);
    NoTrapReached(p.prims, e, env);
    HomeValue(p, s, sc, env, o.code, o.pool, at, next, x);
    if Producer(Tail(e)) {
      TailShape(e, -1, false, next, pool, sc);
      StoredTail(p.code, at, L, home, next, e, a);
      StartCode(p, s, sc, env, o.code, o.pool, at, -1, next, Front(a.code), a.pool);
      var k, u := RunToTail(p, s, e, -1, false, next, pool, sc, env, at);
      if TailReached(p.prims, e, env) {
        n, t := StoreTail(p, s, k, u, at, a, Eval(p.prims, e, env), next, home);
      } else {
        KeptHome(p, s, k, u, at + |a.code|, a.reg, Eval(p.prims, e, env), next, home);
        n, t := k, u;
      }
    } else {
      StoredCopy(p.code, at, L, home, e, a);
      StartFirst(p, s, sc, env, o.code, o.pool, a, at, -1, next);
      var k, u := ExpressionCorrect(p, s, e, -1, false, next, pool, sc, env, at);
      n, t := CopyHome(p, s, k, u, at, L, a, Eval(p.prims, e, env), next, home);
    }
    ReadBack(p, s, n, t, at + |o.code|, home, next);
  }

  lemma UnfoldAssign(x: string, e: Expr, next: int, pool: seq<Const>, sc: Scope)
    requires Resolve(sc.locals, x) != -1
    ensures var o := Compile(Assign(x, e), -1, false, next, pool, sc);
            var a := Compile(e, -1, false, next, pool, sc);
            var home := Resolve(sc.locals, x);
            o == Out(StoreLocal(sc.locals, a.code, a.reg, home), home, next, a.hi, a.pool)
  {
  }

  lemma HomeBelow(L: seq<Local>, next: int, home: int)
    requires Layout(L, -1, next) && IsLocal(L, home)
    ensures 0 <= home < next
  {
  }

  lemma HomeValue(p: Program, s: State, sc: Scope, env: Env, code: seq<Instr>, pool: seq<Const>, at: int, next: int,
        x: string)
    requires Ready(p, s, sc, env, code, pool, at, -1, next) && Resolve(sc.locals, x) != -1
    ensures env.vars(x) == Get(s.regs, Resolve(sc.locals, x))
  {
    assert env.vars(x) == ReadVar(sc, s.regs, s.globals, x);
  }

  lemma NoTrapReached(p: Prims, e: Expr, env: Env)
    ensures !IsJoin(e) ==> TailReached(p, e, env)
  {
  }

  lemma StoredTail(code: seq<Instr>, at: int, L: seq<Local>, home: int, next: int, e: Expr, a: Out)
    requires At(code, at, StoreLocal(L, a.code, a.reg, home)) && TailShaped(e, -1, next, a) && Producer(Tail(e))
    requires Layout(L, -1, next) && 0 <= home < next
    ensures |StoreLocal(L, a.code, a.reg, home)| == |a.code| && a.code != [] && Retargetable(Last(a.code))
    ensures At(code, at, Front(a.code)) && At(code, at + |a.code| - 1, [WithDest(Last(a.code), home)])
  {
    assert StoreLocal(L, a.code, a.reg, home) == Front(a.code) + [WithDest(Last(a.code), home)];
    AtSplit(code, at, Front(a.code), [WithDest(Last(a.code), home)]);
  }

  lemma StoredCopy(code: seq<Instr>, at: int, L: seq<Local>, home: int, e: Expr, a: Out)
    requires At(code, at, StoreLocal(L, a.code, a.reg, home)) && LoadsTail(L, e, a) && !Producer(Tail(e))
    ensures StoreLocal(L, a.code, a.reg, home) == Into(home, a) && At(code, at, a.code) && At(code, at, Into(home, a))
  {
    AtSplit(code, at, a.code, MoveTo(home, a.reg));
  }

  lemma StoreTail(p: Program, s: State, n: nat, t: State, at: int, a: Out, v: Res, next: int, home: int)
    returns (n': nat, t': State)
    requires a.code != [] && Retargetable(Last(a.code)) &&
             Poised(p, s, n, t, at + |a.code| - 1, Last(a.code), v, -1, next)
    requires At(p.code, at + |a.code| - 1, [WithDest(Last(a.code), home)])
    ensures Ends(p, s, n', t', at + |a.code|, home, v, home, next)
  {
    n' := n + 1;
    t' := FinalStep(p, s, n, t, at + |a.code| - 1, Last(a.code), v, home, next, home);
  }

  lemma KeptHome(p: Program, s: State, n: nat, t: State, pc: int, reg: int, v: Res, next: int, home: int)
    requires Ends(p, s, n, t, pc, reg, v, -1, next) && 0 <= home < next
    ensures Ends(p, s, n, t, pc, home, Res(Get(s.regs, home), v.h), home, next)
  {
  }

  lemma CopyHome(p: Program, s: State, n: nat, t: State, at: int, L: seq<Local>, a: Out, v: Res, next: int, home: int)
    returns (n': nat, t': State)
    requires Ends(p, s, n, t, at + |a.code|, a.reg, v, -1, next) && At(p.code, at, Into(home, a))
    ensures Ends(p, s, n', t', at + |Into(home, a)|, home, v, home, next)
  {
    n', t' := ExecInto(p, s, n, t, at, a, v, home, next, home);
  }

  lemma ReadBack(p: Program, s: State, n: nat, t: State, pc: int, reg: int, next: int)
    ensures forall v :: Ends(p, s, n, t, pc, reg, v, reg, next) ==> Get(t.regs, reg) == v.v
  {
  }

  // ---------------------------------------------------------------- one program for each trap

  const ONE_PLUS := Bin(BAdd, Lit(1), Group(And(False, Lit(5))))

  lemma JoinEmits(sc: Scope)
    requires sc.locals == []
    ensures Compile(Group(And(False, Lit(5))), -1, false, 2, [], sc) ==
            Out([LoadBool(2, false), JmpIfNot(2, 1), LoadI(2, 5)], 2, 3, 3, [])
  {
    var l := Compile(False, -1, true, 2, [], sc);
    assert l == Out([LoadBool(2, false)], 2, 3, 3, []);
    assert !IsLocal([], 2) && !IsLocal([], 3);
    var r := Compile(Lit(5), 2, false, 3, [], sc);
    assert r == Out([LoadI(2, 5)], 2, 3, 3, []);
    var j := Compile(And(False, Lit(5)), -1, false, 2, [], sc);
    assert j == EmitJoin([], true, 2, l, r);
    assert Into(2, l) == [LoadBool(2, false)] && Into(2, r) == [LoadI(2, 5)];
    assert j.code == [LoadBool(2, false), JmpIfNot(2, 1), LoadI(2, 5)];
  }

  lemma FoldEmits(sc: Scope)
    requires sc.locals == []
    ensures Compile(ONE_PLUS, -1, false, 0, [], sc).code ==
            [LoadI(0, 1), LoadBool(2, false), JmpIfNot(2, 1), AddI(1, 0, 5)]
    ensures Compile(ONE_PLUS, -1, false, 0, [], sc).reg == 1 && Compile(ONE_PLUS, -1, false, 0, [], sc).pool == []
  {
    hide EmitBin, Compile;
    JoinEmits(sc);
    UnfoldBin(ONE_PLUS, -1, false, 0, [], sc);
    var a := LitEmits(sc);
    var j := Compile(Group(And(False, Lit(5))), -1, false, 2, [], sc);
    FoldCode(a, j);
  }

  lemma LitEmits(sc: Scope) returns (a: Out)
    ensures a == Compile(Lit(1), -1, true, 0, [], sc) == Out([LoadI(0, 1)], 0, 1, 1, [])
  {
    a := Compile(Lit(1), -1, true, 0, [], sc);
  }

  lemma FoldCode(a: Out, j: Out)
    requires a == Out([LoadI(0, 1)], 0, 1, 1, []) &&
             j == Out([LoadBool(2, false), JmpIfNot(2, 1), LoadI(2, 5)], 2, 3, 3, [])
    ensures EmitBin([], BAdd, 1, a, j).code == [LoadI(0, 1), LoadBool(2, false), JmpIfNot(2, 1), AddI(1, 0, 5)]
    ensures EmitBin([], BAdd, 1, a, j).reg == 1 && EmitBin([], BAdd, 1, a, j).pool == []
  {
    assert a.code + j.code == [LoadI(0, 1), LoadBool(2, false), JmpIfNot(2, 1), LoadI(2, 5)];
    assert !IsLocal([], 2);
  }

  lemma FoldRuns(p: Prims)
    ensures Run(Program(p, [LoadI(0, 1), LoadBool(2, false), JmpIfNot(2, 1), AddI(1, 0, 5)], []),
            State(0, map[], map[], [], []), 3)
         == Some(State(4, map[0 := Int(1), 2 := Bool(false)], map[], [], []))
  {
    var prog := Program(p, [LoadI(0, 1), LoadBool(2, false), JmpIfNot(2, 1), AddI(1, 0, 5)], []);
    var s0 := State(0, map[], map[], [], []);
    var s1 := State(1, map[0 := Int(1)], map[], [], []);
    var s2 := State(2, map[0 := Int(1), 2 := Bool(false)], map[], [], []);
    var s3 := State(4, map[0 := Int(1), 2 := Bool(false)], map[], [], []);
    assert Step(prog, s0) == Some(s1) && Step(prog, s1) == Some(s2) && Step(prog, s2) == Some(s3);
    assert Run(prog, s3, 0) == Some(s3);
    assert Run(prog, s2, 1) == Some(s3);
    assert Run(prog, s1, 2) == Some(s3);
  }

  /** `1 + (false and 5)`: the jump of the `and` skips the addition, and the result register is still
      nil where the sum should be. */
  lemma FoldFails(p: Prims, slot: string -> int) returns (t: State)
    ensures var o := Compile(ONE_PLUS, -1, false, 0, [], Scope([], slot));
            Run(Program(p, o.code, o.pool), State(0, map[], map[], [], []), 3) == Some(t) && t.pc == |o.code| &&
            Get(t.regs, o.reg) == Nil && Eval(p, ONE_PLUS, Env(x => Nil, [])).v != Nil
  {
    hide Compile, Run, Step, Eval;
    t := State(4, map[0 := Int(1), 2 := Bool(false)], map[], [], []);
    FoldEmits(Scope([], slot));
    FoldRuns(p);
    FoldMeans(p, Env(x => Nil, []));
  }

  lemma FoldMeans(p: Prims, env: Env)
    ensures Eval(p, ONE_PLUS, env).v != Nil
  {
    assert Eval(p, And(False, Lit(5)), env) == Eval(p, False, env) == Res(Bool(false), env.heap);
    assert Eval(p, Group(And(False, Lit(5))), env) == Res(Bool(false), env.heap);
    assert Eval(p, Lit(1), env) == Res(Int(1), env.heap);
    assert Eval(p, ONE_PLUS, env) == AddValues(p, env.heap, Int(1), Bool(false));
  }

  const THE_LOCAL := [Local("x", 1, 0)]
  const SMALLER := And(False, Bin(BLt, NilLit, NilLit))

  lemma SmallerEmits(sc: Scope)
    requires sc.locals == THE_LOCAL
    ensures Compile(SMALLER, -1, false, 1, [], sc).code ==
            [LoadBool(1, false), JmpIfNot(1, 3), LoadNil(1), LoadNil(2), Arith(Lt, 1, 1, 2)]
    ensures Compile(SMALLER, -1, false, 1, [], sc).reg == 1 && Compile(SMALLER, -1, false, 1, [], sc).pool == []
  {
    var L := THE_LOCAL;
    assert L[0].reg == 0;
    assert !IsLocal(L, 1) && !IsLocal(L, 2);
    var l := Compile(False, -1, true, 1, [], sc);
    assert l == Out([LoadBool(1, false)], 1, 2, 2, []);
    var x := Compile(NilLit, 1, true, 2, [], sc);
    assert x == Out([LoadNil(1)], 1, 2, 2, []);
    var y := Compile(NilLit, -1, false, 2, [], sc);
    assert y == Out([LoadNil(2)], 2, 3, 3, []);
    var b := Compile(Bin(BLt, NilLit, NilLit), 1, false, 2, [], sc);
    assert b == EmitBin(L, BLt, 1, x, y);
    assert x.code + y.code == [LoadNil(1), LoadNil(2)];
    assert b.code == [LoadNil(1), LoadNil(2), Arith(Lt, 1, 1, 2)] && b.reg == 1;
    var j := Compile(SMALLER, -1, false, 1, [], sc);
    assert j == EmitJoin(L, true, 1, l, b);
    assert Into(1, l) == [LoadBool(1, false)] && Into(1, b) == b.code;
  }

  lemma SmallerStored(sc: Scope)
    requires sc.locals == THE_LOCAL
    ensures Compile(Assign("x", SMALLER), -1, false, 1, [], sc).code ==
            [LoadBool(1, false), JmpIfNot(1, 3), LoadNil(1), LoadNil(2), Arith(Lt, 0, 1, 2)]
    ensures Compile(Assign("x", SMALLER), -1, false, 1, [], sc).pool == []
  {
    hide Compile;
    SmallerEmits(sc);
    UnfoldAssign("x", SMALLER, 1, [], sc);
    assert Resolve(THE_LOCAL, "x") == 0 && !IsLocal(THE_LOCAL, 1);
    var code := Compile(SMALLER, -1, false, 1, [], sc).code;
    assert code[..|code| - 1] == [LoadBool(1, false), JmpIfNot(1, 3), LoadNil(1), LoadNil(2)];
  }

  lemma SmallerRuns(p: Prims)
    ensures Run(Program(p, [LoadBool(1, false), JmpIfNot(1, 3), LoadNil(1), LoadNil(2), Arith(Lt, 0, 1, 2)], []),
            State(0, map[0 := Int(7)], map[], [], []), 2)
         == Some(State(5, map[0 := Int(7), 1 := Bool(false)], map[], [], []))
  {
    var prog := Program(p, [LoadBool(1, false), JmpIfNot(1, 3), LoadNil(1), LoadNil(2), Arith(Lt, 0, 1, 2)], []);
    var s0 := State(0, map[0 := Int(7)], map[], [], []);
    var s1 := State(1, map[0 := Int(7), 1 := Bool(false)], map[], [], []);
    var s2 := State(5, map[0 := Int(7), 1 := Bool(false)], map[], [], []);
    assert Step(prog, s0) == Some(s1) && Step(prog, s1) == Some(s2);
    assert Run(prog, s2, 0) == Some(s2);
    assert Run(prog, s1, 1) == Some(s2);
  }

  /** `x = false and (nil < nil)` for a local x that holds 7: the jump of the `and` skips the redirected
      comparison, and x is still 7 where it should be false. */
  lemma AssignFails(p: Prims, slot: string -> int) returns (t: State)
    ensures var o := Compile(Assign("x", SMALLER), -1, false, 1, [], Scope(THE_LOCAL, slot));
            Run(Program(p, o.code, o.pool), State(0, map[0 := Int(7)], map[], [], []), 2) == Some(t) &&
            t.pc == |o.code| &&
            Get(t.regs, 0) == Int(7) && Eval(p, SMALLER, Env(x => Int(7), [])).v == Bool(false)
  {
    hide Compile, Run, Step;
    t := State(5, map[0 := Int(7), 1 := Bool(false)], map[], [], []);
    SmallerStored(Scope(THE_LOCAL, slot));
    SmallerRuns(p);
  }
}
