/** The structured meaning of statements, what their code does, and the simulation of the latter. */
module Simulation {
  import opened Values
  import opened Machine
  import opened Codegen
  import opened ExpressionProof
  import opened PeepholeTraps
  import opened Statements
  import opened StatementProof
  import opened Aliasing

  // ---------------------------------------------------------------- meaning

  datatype Mem = Mem(vars: seq<(string, Value)>, globals: Bank, out: seq<string>, heap: Heap)

  /** Trapped: the run met one of the peephole traps. Timeout: still looping when fuel ran out. */
  datatype Outcome = Normal(m: Mem) | Broke(m: Mem) | Continued(m: Mem) | Timeout(out: seq<string>) | Trapped

  /** Meant: statements do what the language says, until a peephole trap. Done: they do what their code
      does, also where that is something else. Ideal: what the language says, over strings that never
      change and without traps. */
  datatype View = Meant | Done | Ideal

  function ValueIn(p: Prims, e: Expr, env: Env, w: View): Res {
    if w.Ideal? then Copied(p, e, env) else Eval(p, e, env)
  }

  function Lookup(vars: seq<(string, Value)>, G: Bank, slot: string -> int, x: string): Value {
    if vars == [] then Get(G, slot(x))
    else if vars[|vars| - 1].0 == x then vars[|vars| - 1].1
    else Lookup(vars[..|vars| - 1], G, slot, x)
  }

  function EnvOf(m: Mem, slot: string -> int): Env { Env(x => Lookup(m.vars, m.globals, slot, x), m.heap) }

  /** The innermost variable of a name, or -1. */
  function IndexOfVar(vars: seq<(string, Value)>, x: string): (i: int)
    ensures -1 <= i < |vars| && (i >= 0 ==> vars[i].0 == x)
  {
    if vars == [] then -1
    else if vars[|vars| - 1].0 == x then |vars| - 1
    else IndexOfVar(vars[..|vars| - 1], x)
  }

  function Trunc(m: Mem, k: nat): Mem {
    if k <= |m.vars| then m.(vars := m.vars[..k]) else m
  }

  function LeaveScope(o: Outcome, k: nat): Outcome {
    match o
    case Normal(m) => Normal(Trunc(m, k))
    case Broke(m) => Broke(Trunc(m, k))
    case Continued(m) => Continued(Trunc(m, k))
    case _ => o
  }

  /** The one assignment whose target keeps its old value. */
  predicate AssignTrap(p: Prims, e: Expr, env: Env)
    requires e.Assign?
  {
    RetargetTrap(e.e) && !TailReached(p, e.e, env) && env.vars(e.name) != Eval(p, e.e, env).v
  }

  function ExecExpr(p: Prims, slot: string -> int, e: Expr, m: Mem, w: View): Outcome {
    var env := EnvOf(m, slot);
    var r := ValueIn(p, e, env, w);
    if e.Assign? then
      var i := IndexOfVar(m.vars, e.name);
      if i < 0 then Normal(m.(globals := m.globals[slot(e.name) := r.v], heap := r.h))
      else if !w.Ideal? && AssignTrap(p, e, env) then if w.Meant? then Trapped else Normal(m.(heap := r.h))
      else Normal(m.(vars := m.vars[i := (e.name, r.v)], heap := r.h))
    else Normal(m.(heap := r.h))
  }

  function ExecPrint(p: Prims, slot: string -> int, e: Expr, m: Mem, w: View): Mem {
    var r := ValueIn(p, e, EnvOf(m, slot), w);
    m.(out := m.out + [Show(p, r.h, r.v)], heap := r.h)
  }

  function ExecVar(p: Prims, slot: string -> int, x: string, init: Option<Expr>, m: Mem, depth: nat, w: View): Outcome {
    var r := if init.Some? then ValueIn(p, init.value, EnvOf(m, slot), w) else Res(Nil, m.heap);
    if depth > 0 then Normal(m.(vars := m.vars + [(x, r.v)], heap := r.h))
    else if init.Some? then Normal(m.(globals := m.globals[slot(x) := r.v], heap := r.h))
    else Normal(m)
  }

  /** What becomes of a condition: whether its body is entered, and the memory then; None in a trap. */
  function ExecCond(p: Prims, slot: string -> int, c: Expr, m: Mem, w: View): Option<(bool, Mem)> {
    var env := EnvOf(m, slot);
    var r := ValueIn(p, c, env, w);
    if w.Done? then Some((Taken(p, c, env), m.(heap := r.h)))
    else if w.Meant? && CondTrap(p, c, env) then None
    else Some((Truthy(r.v), m.(heap := r.h)))
  }

  function Exec(p: Prims, slot: string -> int, s: Stmt, m: Mem, depth: nat, fuel: nat, w: View): Outcome
    decreases fuel, s, 1
  {
    match s
    case Skip => Normal(m)
    case ExprStmt(e) => ExecExpr(p, slot, e, m, w)
    case PrintStmt(e) => Normal(ExecPrint(p, slot, e, m, w))
    case VarDecl(x, init) => ExecVar(p, slot, x, init, m, depth, w)
    case Block(ss) => LeaveScope(ExecSeq(p, slot, ss, m, depth + 1, fuel, w), |m.vars|)
    case If(c, t, e) =>
      (match ExecCond(p, slot, c, m, w)
       case None => Trapped
       case Some((true, m1)) => Exec(p, slot, t, m1, depth, fuel, w)
       case Some((false, m1)) => Exec(p, slot, e, m1, depth, fuel, w))
    case While(c, body) =>
      if fuel == 0 then Timeout(m.out)
      else
        (match ExecCond(p, slot, c, m, w)
         case None => Trapped
         case Some((false, m1)) => Normal(m1)
         case Some((true, m1)) =>
           var o := Exec(p, slot, body, m1, depth, fuel, w);
           if o.Normal? || o.Continued? then Exec(p, slot, s, o.m, depth, fuel - 1, w)
           else if o.Broke? then Normal(o.m)
           else o)
    case Break => Broke(m)
    case Continue => Continued(m)
  }

  function ExecSeq(p: Prims, slot: string -> int, ss: seq<Stmt>, m: Mem, depth: nat, fuel: nat, w: View): Outcome
    decreases fuel, ss, 0
  {
    if ss == [] then Normal(m)
    else
      var o := Exec(p, slot, ss[0], m, depth, fuel, w);
      if o.Normal? then ExecSeq(p, slot, ss[1..], o.m, depth, fuel, w) else o
  }

  // ---------------------------------------------------------------- meaning against doing

  /** What happens is what is meant, or a trap was met. */
  ghost predicate AsMeant(meant: Outcome, done: Outcome) { meant == done || meant.Trapped? }

  lemma {:induction false} DoneAsMeant(p: Prims, slot: string -> int, s: Stmt, m: Mem, depth: nat, fuel: nat)
    requires SaneZero(p)
    ensures AsMeant(Exec(p, slot, s, m, depth, fuel, Meant), Exec(p, slot, s, m, depth, fuel, Done))
    decreases fuel, s, 1
  {
    hide Eval, EnvOf, Taken, CondTrap, AssignTrap;
    match s
    case Block(ss) => SeqAsMeant(p, slot, ss, m, depth + 1, fuel);
    case If(c, t, e) =>
      TakenExact(p, c, EnvOf(m, slot));
      var m1 := m.(heap := Eval(p, c, EnvOf(m, slot)).h);
      DoneAsMeant(p, slot, t, m1, depth, fuel);
      DoneAsMeant(p, slot, e, m1, depth, fuel);
    case While(c, body) =>
      if fuel > 0 && !CondTrap(p, c, EnvOf(m, slot)) {
        TakenExact(p, c, EnvOf(m, slot));
        var m1 := m.(heap := Eval(p, c, EnvOf(m, slot)).h);
        DoneAsMeant(p, slot, body, m1, depth, fuel);
        var o := Exec(p, slot, body, m1, depth, fuel, Meant);
        if o.Normal? || o.Continued? { DoneAsMeant(p, slot, s, o.m, depth, fuel - 1); }
      }
    case _ =>
  }

  lemma {:induction false} SeqAsMeant(p: Prims, slot: string -> int, ss: seq<Stmt>, m: Mem, depth: nat, fuel: nat)
    requires SaneZero(p)
    ensures AsMeant(ExecSeq(p, slot, ss, m, depth, fuel, Meant), ExecSeq(p, slot, ss, m, depth, fuel, Done))
    decreases fuel, ss, 0
  {
    hide Exec;
    if ss != [] {
      DoneAsMeant(p, slot, ss[0], m, depth, fuel);
      var o := Exec(p, slot, ss[0], m, depth, fuel, Meant);
      if o.Normal? { SeqAsMeant(p, slot, ss[1..], o.m, depth, fuel); }
    }
  }

  /** Bodies are scopes, expressions are free of side effects except for an assignment that is a
      statement of its own, and no addition falls into the trap of the immediate fold. */
  predicate WellFormed(s: Stmt): (r: bool)
    ensures r ==> Formed(s)
  {
    match s
    case ExprStmt(e) => if e.Assign? then Safe(e.e) else Safe(e)
    case PrintStmt(e) => Safe(e)
    case VarDecl(_, init) => init.Some? ==> Safe(init.value)
    case Block(ss) => forall i :: 0 <= i < |ss| ==> WellFormed(ss[i])
    case If(c, t, e) => Safe(c) && t.Block? && WellFormed(t) && (e.Skip? || e.If? || e.Block?) && WellFormed(e)
    case While(c, body) => Safe(c) && body.Block? && WellFormed(body)
    case _ => true
  }

  /** The part of it that is about expressions. */
  predicate Clear(s: Stmt) {
    match s
    case ExprStmt(e) => if e.Assign? then Safe(e.e) else Safe(e)
    case PrintStmt(e) => Safe(e)
    case VarDecl(_, init) => init.Some? ==> Safe(init.value)
    case Block(ss) => forall i :: 0 <= i < |ss| ==> Clear(ss[i])
    case If(c, t, e) => Safe(c) && Clear(t) && Clear(e)
    case While(c, body) => Safe(c) && Clear(body)
    case _ => true
  }

  lemma {:induction false} WellFormedIs(s: Stmt)
    ensures WellFormed(s) <==> Formed(s) && Clear(s)
    decreases s
  {
    hide Safe;
    match s
    case Block(ss) => forall i | 0 <= i < |ss| ensures WellFormed(ss[i]) <==>
          Formed(ss[i]) && Clear(ss[i]) { WellFormedIs(ss[i]); }
    case If(_, t, e) => WellFormedIs(t); WellFormedIs(e);
    case While(_, body) => WellFormedIs(body);
    case _ =>
  }

  // ---------------------------------------------------------------- relation

  /** Registers hold the variables in scope. */
  ghost predicate Holds(L: seq<Local>, R: Bank, vars: seq<(string, Value)>) {
    |L| <= |vars| && forall i :: 0 <= i < |L| ==> L[i].name == vars[i].0 && Get(R, L[i].reg) == vars[i].1
  }

  ghost predicate Ascending(L: seq<Local>) {
    forall i, j :: 0 <= i < j < |L| ==> L[i].reg < L[j].reg && L[i].depth <= L[j].depth
  }

  ghost predicate Sound(st: Scopes) {
    Layout(st.locals, -1, st.next) && Ascending(st.locals) &&
    forall i :: 0 <= i < |st.locals| ==> 0 < st.locals[i].depth <= st.depth
  }

  /** Globals, output and heap are the same. */
  ghost predicate Shares(s: State, m: Mem) { s.globals == m.globals && s.out == m.out && s.heap == m.heap }

  ghost predicate Agrees(s: State, L: seq<Local>, m: Mem) {
    Holds(L, s.regs, m.vars) && |m.vars| == |L| && Shares(s, m)
  }

  /** The fragment is in place, its waiting jumps aimed at brk. */
  ghost predicate InPlace(code: seq<Instr>, at: int, frag: seq<Instr>, breaks: seq<int>, brk: int) {
    0 <= at && at + |frag| <= |code| &&
    forall i {:trigger frag[i]} :: 0 <= i < |frag| ==>
      code[at + i] == if at + i in breaks then Jmp(brk - (at + i + 1)) else frag[i]
  }

  lemma {:induction false} ResolveIndex(L: seq<Local>, R: Bank, vars: seq<(string, Value)>, x: string)
    requires Holds(L, R, vars) && |L| == |vars|
    ensures var i := IndexOfVar(vars, x);
            if i < 0 then Resolve(L, x) == -1 else Resolve(L, x) == L[i].reg
    decreases |L|
  {
    if L != [] {
      ResolveIndex(L[..|L| - 1], R, vars[..|vars| - 1], x);
    }
  }

  lemma {:induction false} LookupIndex(vars: seq<(string, Value)>, G: Bank, slot: string -> int, x: string)
    ensures var i := IndexOfVar(vars, x);
            Lookup(vars, G, slot, x) == if i < 0 then Get(G, slot(x)) else vars[i].1
    decreases |vars|
  {
    if vars != [] { LookupIndex(vars[..|vars| - 1], G, slot, x); }
  }

  /** Agreement is what expressions need of the machine. */
  lemma AgreesReads(s: State, st: Scopes, m: Mem, slot: string -> int)
    requires Sound(st) && Agrees(s, st.locals, m)
    ensures Reads(ScopeOf(st, slot), s.regs, s.globals, EnvOf(m, slot))
  {
    forall x ensures EnvOf(m, slot).vars(x) == ReadVar(ScopeOf(st, slot), s.regs, s.globals, x) {
      ResolveIndex(st.locals, s.regs, m.vars, x);
      LookupIndex(m.vars, m.globals, slot, x);
      var i := IndexOfVar(m.vars, x);
      if i >= 0 { assert st.locals[i].reg >= 0; }
    }
  }

  // ---------------------------------------------------------------- shapes

  /** Statements only add locals of the current depth, keep the state sound, add constants, and
      leave their waiting jumps inside their own code. */
  ghost predicate Shaped(s: Stmt, at: int, st: Scopes, o: SOut) {
    Sound(o.st) && o.st.depth == st.depth && st.pool <= o.st.pool && st.locals <= o.st.locals &&
    (!s.VarDecl? ==> o.st.locals == st.locals) && Within(o.breaks, at, at + |o.code|)
  }

  lemma ExprState(e: Expr, dest: int, st: Scopes, slot: string -> int, next: int)
    requires Sound(st) && ((dest == -1 && next == st.next) || (dest == st.next && next == st.next + 1))
    ensures Layout(st.locals, dest, next) && st.next >= 0
    ensures var o := Compile(e, dest, false, next, st.pool, ScopeOf(st, slot));
            o.next >= next && st.pool <= o.pool && Free(st.locals, o.next, o.reg) >= st.next &&
            (dest >= 0 ==> o.reg == dest)
  {
    hide Compile;
    assert !IsLocal(st.locals, st.next);
    Discipline(e, dest, false, next, st.pool, ScopeOf(st, slot));
  }

  lemma SoundNext(st: Scopes, next: int, pool: seq<Const>)
    requires Sound(st) && next >= st.next
    ensures Sound(st.(next := next, pool := pool))
  {
  }

  lemma {:induction false} PopLocals(L: seq<Local>, L': seq<Local>, depth: int)
    requires L <= L' && (forall i :: 0 <= i < |L| ==> L[i].depth <= depth)
    requires forall i :: |L| <= i < |L'| ==> L'[i].depth > depth
    ensures PopScope(L', depth) == L
    decreases |L'|
  {
    if |L'| > |L| {
      PopLocals(L, L'[..|L'| - 1], depth);
    }
  }

  lemma WindowSound(st: Scopes, pool: seq<Const>)
    requires Sound(st)
    ensures Sound(Scopes(st.locals, st.depth, WindowEnd(st.locals), pool))
  {
    if st.locals != [] {
      assert forall i :: 0 <= i < |st.locals| ==> st.locals[i].reg <= st.locals[|st.locals| - 1].reg;
    }
  }

  /** A new local above all others. */
  lemma ExtendSound(st: Scopes, x: string, next: int, pool: seq<Const>)
    requires Sound(st) && st.depth > 0 && next > st.next
    ensures Sound(Scopes(st.locals + [Local(x, st.depth, st.next)], st.depth, next, pool))
  {
  }

  lemma VarShape(x: string, init: Option<Expr>, at: int, st: Scopes, slot: string -> int)
    requires Sound(st)
    ensures Shaped(VarDecl(x, init), at, st, CompileVar(x, init, st, slot))
    ensures forall i :: |st.locals| <= i < |CompileVar(x, init, st, slot).st.locals| ==>
              CompileVar(x, init, st, slot).st.locals[i].depth == st.depth
  {
    hide Compile, Sound, Redeclared;
    var o := if init.Some? then Compile(init.value, st.next, false, st.next + 1, st.pool, ScopeOf(st, slot))
             else Out([], 0, st.next + 1, 0, st.pool);
    if init.Some? {
      ExprState(init.value, st.next, st, slot, st.next + 1);
    }
    if st.depth > 0 {
      ExtendSound(st, x, o.next, o.pool);
    } else if init.Some? {
      SoundNext(st, Free(st.locals, o.next, st.next), o.pool);
    }
  }

  lemma {:induction false} StmtShape(s: Stmt, at: int, lp: LoopCtx, st: Scopes, slot: string -> int)
    requires Sound(st) && Formed(s)
    ensures Shaped(s, at, st, CompileStmt(s, at, lp, st, slot))
    ensures var o := CompileStmt(s, at, lp, st, slot);
            forall i :: |st.locals| <= i < |o.st.locals| ==> o.st.locals[i].depth == st.depth
    decreases s, 1
  {
    hide Compile, BranchCode, Layout;
    match s
    case ExprStmt(e) =>
      ExprState(e, -1, st, slot, st.next);
      SoundNext(st, st.next, Compile(e, -1, false, st.next, st.pool, ScopeOf(st, slot)).pool);
    case PrintStmt(e) =>
      ExprState(e, -1, st, slot, st.next);
      var o := Compile(e, -1, false, st.next, st.pool, ScopeOf(st, slot));
      SoundNext(st, Free(st.locals, o.next, o.reg), o.pool);
    case VarDecl(x, init) => VarShape(x, init, at, st, slot);
    case Block(ss) => BlockShape(ss, at, lp, st, slot);
    case If(_, _, _) => IfShape(s, at, lp, st, slot);
    case While(_, _) => WhileShape(s, at, lp, st, slot);
    case _ =>
  }

  lemma {:induction false} IfShape(s: Stmt, at: int, lp: LoopCtx, st: Scopes, slot: string -> int)
    requires s.If? && Sound(st) && Formed(s)
    ensures Shaped(s, at, st, CompileStmt(s, at, lp, st, slot))
    decreases s, 0
  {
    hide Compile, CompileStmt, AfterCond, CondCode, Sound;
    var st1 := AfterCond(s.cond, st, slot);
    var size := |CondCode(s.cond, st, slot, 0)|;
    var a := CompileStmt(s.then_, at + size, lp, st1, slot);
    UnfoldIf(s, at, lp, st, slot);
    CondState(s.cond, st, slot, |a.code| + 1);
    StmtShape(s.then_, at + size, lp, st1, slot);
    StmtShape(s.els, at + size + |a.code| + 1, lp, a.st, slot);
  }

  lemma {:induction false} WhileShape(s: Stmt, at: int, lp: LoopCtx, st: Scopes, slot: string -> int)
    requires s.While? && Sound(st) && Formed(s)
    ensures Shaped(s, at, st, CompileStmt(s, at, lp, st, slot))
    decreases s, 0
  {
    hide Compile, CompileStmt, AfterCond, CondCode, Sound, PatchAll;
    UnfoldWhile(s, at, lp, st, slot);
    CondState(s.cond, st, slot, 0);
    StmtShape(s.loop, at + |CondCode(s.cond, st, slot, 0)|, LoopCtx(at, lp.open + 1), AfterCond(s.cond, st, slot),
        slot);
  }

  /** The distance does not change how long the branch is. */
  lemma BranchLength(L: seq<Local>, joined: bool, o: Out, skip: int, skip': int)
    ensures |BranchCode(L, joined, o, skip)| == |BranchCode(L, joined, o, skip')|
  {
  }

  lemma {:induction false} BlockShape(ss: seq<Stmt>, at: int, lp: LoopCtx, st: Scopes, slot: string -> int)
    requires Sound(st) && Formed(Block(ss))
    ensures Shaped(Block(ss), at, st, CompileStmt(Block(ss), at, lp, st, slot))
    ensures CompileStmt(Block(ss), at, lp, st, slot).st.locals == st.locals
    decreases ss, 1
  {
    var st1 := st.(depth := st.depth + 1);
    assert Sound(st1);
    SeqShape(ss, at, lp, st1, slot);
    var o := CompileSeq(ss, at, lp, st1, slot);
    PopLocals(st.locals, o.st.locals, st.depth);
    WindowSound(st, o.st.pool);
  }

  /** Two pieces one after the other. */
  lemma ShapedJoin(at: int, st: Scopes, a: SOut, b: SOut, s: Stmt)
    requires Shaped(s, at, st, a) && Shaped(VarDecl("", None), at + |a.code|, a.st, b)
    requires forall i :: |st.locals| <= i < |a.st.locals| ==> a.st.locals[i].depth == st.depth
    requires forall i :: |a.st.locals| <= i < |b.st.locals| ==> b.st.locals[i].depth == a.st.depth
    ensures Shaped(VarDecl("", None), at, st,
            SOut(a.code + b.code, a.breaks + b.breaks, b.st, Max(a.hi, b.hi), a.err || b.err))
    ensures forall i :: |st.locals| <= i < |b.st.locals| ==> b.st.locals[i].depth == st.depth
  {
    hide Sound;
    forall i | |st.locals| <= i < |b.st.locals| ensures b.st.locals[i].depth == st.depth {
      if i < |a.st.locals| { assert b.st.locals[i] == a.st.locals[i]; }
    }
  }

  lemma {:induction false} SeqShape(ss: seq<Stmt>, at: int, lp: LoopCtx, st: Scopes, slot: string -> int)
    requires Sound(st) && forall i :: 0 <= i < |ss| ==> Formed(ss[i])
    ensures var o := CompileSeq(ss, at, lp, st, slot);
            Shaped(VarDecl("", None), at, st, o) &&
            forall i :: |st.locals| <= i < |o.st.locals| ==> o.st.locals[i].depth == st.depth
    decreases ss, 0
  {
    hide Layout, CompileStmt, Formed, Sound;
    if ss != [] {
      StmtShape(ss[0], at, lp, st, slot);
      var a := CompileStmt(ss[0], at, lp, st, slot);
      SeqShape(ss[1..], at + |a.code|, lp, a.st, slot);
      ShapedJoin(at, st, a, CompileSeq(ss[1..], at + |a.code|, lp, a.st, slot), ss[0]);
    }
  }

  // ---------------------------------------------------------------- placement

  lemma InPlaceSplit(code: seq<Instr>, at: int, a: seq<Instr>, b: seq<Instr>, xs: seq<int>, ys: seq<int>, brk: int)
    requires InPlace(code, at, a + b, xs + ys, brk) && Within(xs, at, at + |a|) && Within(ys, at + |a|, at + |a| + |b|)
    ensures InPlace(code, at, a, xs, brk) && InPlace(code, at + |a|, b, ys, brk)
  {
    forall i {:trigger a[i]} | 0 <= i < |a|
      ensures code[at + i] == if at + i in xs then Jmp(brk - (at + i + 1)) else a[i]
    {
      assert (a + b)[i] == a[i];
    }
    forall i {:trigger b[i]} | 0 <= i < |b|
      ensures code[at + |a| + i] == if at + |a| + i in ys then Jmp(brk - (at + |a| + i + 1)) else b[i]
    {
      assert (a + b)[|a| + i] == b[i];
    }
  }

  /** Code without waiting jumps is simply there. */
  lemma InPlaceAt(code: seq<Instr>, at: int, frag: seq<Instr>, brk: int)
    requires InPlace(code, at, frag, [], brk)
    ensures At(code, at, frag)
  {
    assert forall i :: 0 <= i < |frag| ==> code[at..at + |frag|][i] == frag[i];
  }

  /** Once patched in place, the waiting jumps of a loop's code aim at the loop's end. */
  lemma PatchedInPlace(code: seq<Instr>, at: int, frag: seq<Instr>, breaks: seq<int>, brk: int, target: int)
    requires InPlace(code, at, PatchAll(frag, at, breaks, target), [], brk) && Within(breaks, at, at + |frag|)
    ensures InPlace(code, at, frag, breaks, target)
  {
    var f := PatchAll(frag, at, breaks, target);
    forall i {:trigger frag[i]} | 0 <= i < |frag|
      ensures code[at + i] == if at + i in breaks then Jmp(target - (at + i + 1)) else frag[i]
    {
      PatchAt(frag, at, breaks, target, i);
      assert code[at + i] == f[i];
    }
  }

  // ---------------------------------------------------------------- simulation

  /** What the machine does against what the statement means, for each way it can end. */
  ghost predicate Simulates(p: Program, s: State, n: nat, t: State, at: int, lp: LoopCtx, brk: int, st: Scopes,
                            code: seq<Instr>, st': Scopes, o: Outcome, fuel: nat) {
    match o
    case Normal(m) => Run(p, s, n) == Some(t) && t.pc == at + |code| && Agrees(t, st'.locals, m)
    case Broke(m) => Run(p, s, n) == Some(t) && t.pc == brk && Holds(st.locals, t.regs, m.vars) && Shares(t, m)
    case Continued(m) => Run(p, s, n) == Some(t) && t.pc == lp.start && Holds(st.locals, t.regs, m.vars) && Shares(t, m)
    case Timeout(out) => Run(p, s, n) == Some(t) && t.out == out && n >= fuel
    case Trapped => false
  }

  /** What a statement's code needs around it. */
  ghost predicate Poise(p: Program, s: State, o: SOut, at: int, brk: int, st: Scopes, m: Mem) {
    Sound(st) && Agrees(s, st.locals, m) && s.pc == at && InPlace(p.code, at, o.code, o.breaks, brk) &&
    o.st.pool <= p.consts
  }

  lemma RunExpr(p: Program, s: State, e: Expr, dest: int, next: int, at: int, st: Scopes, slot: string -> int, m: Mem)
    returns (n: nat, t: State)
    requires Safe(e) && Sound(st) && Agrees(s, st.locals, m) && s.pc == at
    requires (dest == -1 && next == st.next) || (dest == st.next && next == st.next + 1)
    requires var o := Compile(e, dest, false, next, st.pool, ScopeOf(st, slot));
             At(p.code, at, o.code) && o.pool <= p.consts
    ensures var o := Compile(e, dest, false, next, st.pool, ScopeOf(st, slot));
            var v := Eval(p.prims, e, EnvOf(m, slot));
            Ends(p, s, n, t, at + |o.code|, o.reg, v, dest, next) && Agrees(t, st.locals, m.(heap := v.h))
  {
    hide Compile, Eval, Run, Step, Layout, At;
    ExprState(e, dest, st, slot, next);
    AgreesReads(s, st, m, slot);
    n, t := ExpressionCorrect(p, s, e, dest, false, next, st.pool, ScopeOf(st, slot), EnvOf(m, slot), at);
    EndsAgrees(p, s, n, t, st, m, dest, next);
  }

  lemma EndsAgrees(p: Program, s: State, n: nat, t: State, st: Scopes, m: Mem, dest: int, next: int)
    requires Sound(st) && Agrees(s, st.locals, m)
    requires (dest == -1 && next == st.next) || (dest == st.next && next == st.next + 1)
    requires Frame(s.regs, t.regs, dest, next) && t.globals == s.globals && t.out == s.out
    ensures Agrees(t, st.locals, m.(heap := t.heap))
  {
  }

  lemma {:induction false} SimExpr(p: Program, slot: string -> int, e: Expr, at: int, lp: LoopCtx, brk: int, st: Scopes,
                                   s: State, m: Mem, fuel: nat) returns (n: nat, t: State)
    requires WellFormed(ExprStmt(e)) && Poise(p, s, CompileStmt(ExprStmt(e), at, lp, st, slot), at, brk, st, m)
    ensures var o := CompileStmt(ExprStmt(e), at, lp, st, slot);
            Simulates(p, s, n, t, at, lp, brk, st, o.code, o.st, ExecExpr(p.prims, slot, e, m, Done), fuel)
  {
    hide Compile, Eval, Run, Step, Layout, At;
    var o := Compile(e, -1, false, st.next, st.pool, ScopeOf(st, slot));
    InPlaceAt(p.code, at, o.code, brk);
    if !e.Assign? {
      n, t := RunExpr(p, s, e, -1, st.next, at, st, slot, m);
    } else if Resolve(st.locals, e.name) != -1 {
      n, t := SimAssignLocal(p, slot, e, at, st, s, m);
    } else {
      n, t := SimAssignGlobal(p, slot, e, at, st, s, m);
    }
  }

  lemma SimAssignLocal(p: Program, slot: string -> int, e: Expr, at: int, st: Scopes, s: State, m: Mem)
    returns (n: nat, t: State)
    requires e.Assign? && Safe(e.e) && Resolve(st.locals, e.name) != -1
    requires Sound(st) && Agrees(s, st.locals, m) && s.pc == at
    requires var o := Compile(e, -1, false, st.next, st.pool, ScopeOf(st, slot));
             At(p.code, at, o.code) && o.pool <= p.consts
    ensures var o := Compile(e, -1, false, st.next, st.pool, ScopeOf(st, slot));
            var r := ExecExpr(p.prims, slot, e, m, Done);
            r.Normal? && Run(p, s, n) == Some(t) && t.pc == at + |o.code| && Agrees(t, st.locals, r.m)
  {
    hide Compile, Eval, Run, Step, At, Sound, TailReached, RetargetTrap;
    var env := EnvOf(m, slot);
    AgreesReads(s, st, m, slot);
    SoundLayout(st);
    n, t := AssignExact(p, s, e.name, e.e, st.next, st.pool, ScopeOf(st, slot), env, at);
    ResolveIndex(st.locals, s.regs, m.vars, e.name);
    LookupIndex(m.vars, m.globals, slot, e.name);
    var i := IndexOfVar(m.vars, e.name);
    var v := Eval(p.prims, e.e, env).v;
    AssignedValue(p.prims, e, env);
    StoreAgrees(s, t, st, m, i, e.name, if AssignTrap(p.prims, e, env) then env.vars(e.name) else v);
  }

  lemma AssignedValue(p: Prims, e: Expr, env: Env)
    requires e.Assign?
    ensures Eval(p, e, env) == Eval(p, e.e, env)
  {
  }

  lemma SoundLayout(st: Scopes)
    requires Sound(st)
    ensures Layout(st.locals, -1, st.next)
  {
  }

  /** One register of one variable changed, and nothing else below the window. */
  lemma StoreAgrees(s: State, t: State, st: Scopes, m: Mem, i: int, x: string, v: Value)
    requires Sound(st) && Agrees(s, st.locals, m) && 0 <= i < |m.vars| && m.vars[i].0 == x
    requires Frame(s.regs, t.regs, st.locals[i].reg, st.next) && Get(t.regs, st.locals[i].reg) == v
    requires t.globals == s.globals && t.out == s.out
    ensures Agrees(t, st.locals, m.(vars := m.vars[i := (x, v)], heap := t.heap))
    ensures v == m.vars[i].1 ==> Agrees(t, st.locals, m.(heap := t.heap))
  {
  }

  lemma SimAssignGlobal(p: Program, slot: string -> int, e: Expr, at: int, st: Scopes, s: State, m: Mem)
    returns (n: nat, t: State)
    requires e.Assign? && Safe(e.e) && Resolve(st.locals, e.name) == -1
    requires Sound(st) && Agrees(s, st.locals, m) && s.pc == at
    requires var o := Compile(e, -1, false, st.next, st.pool, ScopeOf(st, slot));
             At(p.code, at, o.code) && o.pool <= p.consts
    ensures var o := Compile(e, -1, false, st.next, st.pool, ScopeOf(st, slot));
            var r := ExecExpr(p.prims, slot, e, m, Done);
            r.Normal? && Run(p, s, n) == Some(t) && t.pc == at + |o.code| && Agrees(t, st.locals, r.m)
  {
    hide Compile, Eval, Run, Step, At, Sound;
    var sc := ScopeOf(st, slot);
    AssignedValue(p.prims, e, EnvOf(m, slot));
    UnfoldAssignAny(e, -1, false, st.next, st.pool, sc);
    var a := Compile(e.e, st.next, false, st.next + 1, st.pool, sc);
    SoundLayout(st);
    ResolveIndex(st.locals, s.regs, m.vars, e.name);
    assert forall k :: 0 <= k < |st.locals| ==> st.locals[k].reg >= 0;
    n, t := StoreGlobal(p, slot, e.e, at, st, s, m, slot(e.name));
  }

  /** An initializer or right-hand side computed into the next register and stored in a global. */
  lemma StoreGlobal(p: Program, slot: string -> int, e: Expr, at: int, st: Scopes, s: State, m: Mem, g: int)
    returns (n: nat, t: State)
    requires Safe(e) && Sound(st) && Agrees(s, st.locals, m) && s.pc == at
    requires var a := Compile(e, st.next, false, st.next + 1, st.pool, ScopeOf(st, slot));
             At(p.code, at, a.code + [SetGlobal(st.next, g)]) && a.pool <= p.consts
    ensures var a := Compile(e, st.next, false, st.next + 1, st.pool, ScopeOf(st, slot));
            Run(p, s, n) == Some(t) && t.pc == at + |a.code| + 1 &&
            var r := Eval(p.prims, e, EnvOf(m, slot));
            Agrees(t, st.locals, m.(globals := m.globals[g := r.v], heap := r.h))
  {
    hide Compile, Eval, Run, At, Sound;
    var a := Compile(e, st.next, false, st.next + 1, st.pool, ScopeOf(st, slot));
    AtSplit(p.code, at, a.code, [SetGlobal(st.next, g)]);
    var k, u := RunExpr(p, s, e, st.next, st.next + 1, at, st, slot, m);
    ExprState(e, st.next, st, slot, st.next + 1);
    InstrAt(p, u, at + |a.code|, SetGlobal(st.next, g));
    t := u.(pc := u.pc + 1, globals := u.globals[g := Get(u.regs, st.next)]);
    OneStep(p, u);
    RunTrans(p, s, k, u, 1, t);
    n := k + 1;
  }

  lemma SimPrint(p: Program, slot: string -> int, e: Expr, at: int, lp: LoopCtx, brk: int, st: Scopes,
                 s: State, m: Mem) returns (n: nat, t: State)
    requires Safe(e) && Poise(p, s, CompileStmt(PrintStmt(e), at, lp, st, slot), at, brk, st, m)
    ensures var o := CompileStmt(PrintStmt(e), at, lp, st, slot);
            Run(p, s, n) == Some(t) && t.pc == at + |o.code| &&
            Agrees(t, st.locals, ExecPrint(p.prims, slot, e, m, Done))
  {
    hide Compile, Eval, Run, At, Sound;
    var a := Compile(e, -1, false, st.next, st.pool, ScopeOf(st, slot));
    InPlaceAt(p.code, at, a.code + [Print(a.reg)], brk);
    AtSplit(p.code, at, a.code, [Print(a.reg)]);
    var k, u := RunExpr(p, s, e, -1, st.next, at, st, slot, m);
    InstrAt(p, u, at + |a.code|, Print(a.reg));
    t := u.(pc := u.pc + 1, out := u.out + [Show(p.prims, u.heap, Get(u.regs, a.reg))]);
    OneStep(p, u);
    RunTrans(p, s, k, u, 1, t);
    n := k + 1;
  }

  lemma SimVar(p: Program, slot: string -> int, x: string, init: Option<Expr>, at: int, brk: int, st: Scopes,
               s: State, m: Mem) returns (n: nat, t: State)
    requires WellFormed(VarDecl(x, init)) && Poise(p, s, CompileVar(x, init, st, slot), at, brk, st, m)
    ensures var o := CompileVar(x, init, st, slot);
            var r := ExecVar(p.prims, slot, x, init, m, st.depth, Done);
            r.Normal? && Run(p, s, n) == Some(t) && t.pc == at + |o.code| && Agrees(t, o.st.locals, r.m)
  {
    hide Compile, Eval, Run, At, Sound;
    var o := CompileVar(x, init, st, slot);
    InPlaceAt(p.code, at, o.code, brk);
    if init.Some? {
      var a := Compile(init.value, st.next, false, st.next + 1, st.pool, ScopeOf(st, slot));
      if st.depth > 0 {
        n, t := RunExpr(p, s, init.value, st.next, st.next + 1, at, st, slot, m);
        ExprState(init.value, st.next, st, slot, st.next + 1);
        var r := Eval(p.prims, init.value, EnvOf(m, slot));
        DeclareAgrees(t, st, m.(heap := r.h), x, r.v);
      } else {
        n, t := StoreGlobal(p, slot, init.value, at, st, s, m, slot(x));
      }
    } else if st.depth > 0 {
      InstrAt(p, s, at, LoadNil(st.next));
      t := s.(pc := at + 1, regs := s.regs[st.next := Nil]);
      n := 1;
      OneStep(p, s);
      SoundLayout(st);
      EndsAgrees(p, s, n, t, st, m, st.next, st.next + 1);
      DeclareAgrees(t, st, m, x, Nil);
    } else {
      n, t := 0, s;
      RunZero(p, s);
    }
  }

  lemma RunZero(p: Program, s: State)
    ensures Run(p, s, 0) == Some(s)
  {
  }

  lemma DeclareAgrees(t: State, st: Scopes, m: Mem, x: string, v: Value)
    requires Agrees(t, st.locals, m) && Get(t.regs, st.next) == v
    ensures Agrees(t, st.locals + [Local(x, st.depth, st.next)], m.(vars := m.vars + [(x, v)]))
  {
  }

  // ---------------------------------------------------------------- composition

  /** A first run that ends normally, then another statement's run. */
  lemma Then(p: Program, s: State, n: nat, t: State, k: nat, u: State, at: int, lp: LoopCtx, brk: int,
             st: Scopes, st1: Scopes, len: int, code: seq<Instr>, code1: seq<Instr>, st2: Scopes, o: Outcome, fuel: nat)
    requires Run(p, s, n) == Some(t) && Simulates(p, t, k, u, at + len, lp, brk, st1, code1, st2, o, fuel)
    requires st.locals <= st1.locals && |code| == len + |code1|
    ensures Simulates(p, s, n + k, u, at, lp, brk, st, code, st2, o, fuel)
  {
    hide Run, Step;
    RunTrans(p, s, n, t, k, u);
  }

  /** Code laid out as two fragments in a row, the first without waiting jumps. */
  lemma HeadInPlace(code: seq<Instr>, at: int, a: seq<Instr>, b: seq<Instr>, ys: seq<int>, brk: int)
    requires InPlace(code, at, a + b, ys, brk) && Within(ys, at + |a|, at + |a| + |b|)
    ensures At(code, at, a) && InPlace(code, at + |a|, b, ys, brk)
  {
    assert [] + ys == ys;
    InPlaceSplit(code, at, a, b, [], ys, brk);
    InPlaceAt(code, at, a, brk);
  }

  // The composite cases of code generation and of meaning, one at a time.

  lemma UnfoldSeq(ss: seq<Stmt>, at: int, lp: LoopCtx, st: Scopes, slot: string -> int)
    requires ss != []
    ensures var a := CompileStmt(ss[0], at, lp, st, slot);
            var b := CompileSeq(ss[1..], at + |a.code|, lp, a.st, slot);
            var o := CompileSeq(ss, at, lp, st, slot);
            o.code == a.code + b.code && o.breaks == a.breaks + b.breaks && o.st == b.st
  {
  }

  lemma UnfoldExecSeq(p: Prims, slot: string -> int, ss: seq<Stmt>, m: Mem, depth: nat, fuel: nat)
    requires ss != []
    ensures var o := Exec(p, slot, ss[0], m, depth, fuel, Done);
            ExecSeq(p, slot, ss, m, depth, fuel, Done) == if o.Normal? then ExecSeq(p, slot, ss[1..], o.m, depth, fuel,
                Done) else o
  {
  }

  /** The compile-time state after a condition. */
  lemma CondState(c: Expr, st: Scopes, slot: string -> int, skip: int)
    requires Sound(st)
    ensures var st1 := AfterCond(c, st, slot);
            Sound(st1) && st1.locals == st.locals && st1.depth == st.depth && st.pool <= st1.pool
    ensures |CondCode(c, st, slot, skip)| == |CondCode(c, st, slot, 0)|
  {
    hide Compile;
    ExprState(c, -1, st, slot, st.next);
    var o := Compile(c, -1, false, st.next, st.pool, ScopeOf(st, slot));
    SoundNext(st, Free(st.locals, o.next, o.reg), o.pool);
    BranchLength(st.locals, IsJoin(c), o, 0, skip);
  }

  lemma UnfoldIf(c: Stmt, at: int, lp: LoopCtx, st: Scopes, slot: string -> int)
    requires c.If?
    ensures var st1 := AfterCond(c.cond, st, slot);
            var size := |CondCode(c.cond, st, slot, 0)|;
            var a := CompileStmt(c.then_, at + size, lp, st1, slot);
            var b := CompileStmt(c.els, at + size + |a.code| + 1, lp, a.st, slot);
            var o := CompileStmt(c, at, lp, st, slot);
            o.code == CondCode(c.cond, st, slot, |a.code| + 1) + (a.code + ([Jmp(|b.code|)] + b.code)) &&
            o.breaks == a.breaks + b.breaks && o.st == b.st
  {
    hide Compile, AfterCond, CondCode, CondHi, Branchings, PatchAll, PopScope, WindowEnd, CompileVar, CompileSeq;
  }

  /** The memory after a condition. */
  function AfterTest(p: Prims, c: Expr, m: Mem, slot: string -> int): Mem { m.(heap := Eval(p, c, EnvOf(m, slot)).h) }

  lemma UnfoldExecIf(p: Prims, slot: string -> int, c: Stmt, m: Mem, depth: nat, fuel: nat)
    requires c.If?
    ensures Exec(p, slot, c, m, depth, fuel, Done) ==
              var m1 := AfterTest(p, c.cond, m, slot);
              if Taken(p, c.cond, EnvOf(m, slot)) then Exec(p, slot, c.then_, m1, depth, fuel, Done)
              else Exec(p, slot, c.els, m1, depth, fuel, Done)
  {
  }

  lemma UnfoldWhile(c: Stmt, at: int, lp: LoopCtx, st: Scopes, slot: string -> int)
    requires c.While?
    ensures var st1 := AfterCond(c.cond, st, slot);
            var size := |CondCode(c.cond, st, slot, 0)|;
            var a := CompileStmt(c.loop, at + size, LoopCtx(at, lp.open + 1), st1, slot);
            var code := CondCode(c.cond, st, slot, |a.code| + 1) + (a.code + [Jmp(-(size + |a.code| + 1))]);
            var o := CompileStmt(c, at, lp, st, slot);
            o.code == PatchAll(code, at, a.breaks, at + |code|) && o.breaks == [] && o.st == a.st
  {
    hide Compile, CondCode, AfterCond, PatchAll;
  }

  lemma UnfoldExecWhile(p: Prims, slot: string -> int, c: Stmt, m: Mem, depth: nat, fuel: nat)
    requires c.While?
    ensures var r := Exec(p, slot, c, m, depth, fuel, Done);
            var m1 := AfterTest(p, c.cond, m, slot);
            if fuel == 0 then r == Timeout(m.out)
            else if !Taken(p, c.cond, EnvOf(m, slot)) then r == Normal(m1)
            else
              var o := Exec(p, slot, c.loop, m1, depth, fuel, Done);
              r == if o.Normal? || o.Continued? then Exec(p, slot, c, o.m, depth, fuel - 1, Done)
                   else if o.Broke? then Normal(o.m) else o
  {
  }

  lemma PoiseMeans(p: Program, s: State, o: SOut, at: int, brk: int, st: Scopes, m: Mem)
    requires Poise(p, s, o, at, brk, st, m)
    ensures Sound(st) && Agrees(s, st.locals, m) && s.pc == at && InPlace(p.code, at, o.code, o.breaks, brk) &&
            o.st.pool <= p.consts
  {
  }

  lemma MakePoise(p: Program, s: State, o: SOut, at: int, brk: int, st: Scopes, m: Mem)
    requires Sound(st) && Agrees(s, st.locals, m) && s.pc == at && InPlace(p.code, at, o.code, o.breaks, brk) &&
             o.st.pool <= p.consts
    ensures Poise(p, s, o, at, brk, st, m)
  {
  }

  lemma NormalMeans(p: Program, s: State, n: nat, t: State, at: int, lp: LoopCtx, brk: int, st: Scopes,
                    code: seq<Instr>, st': Scopes, o: Outcome, fuel: nat)
    requires Simulates(p, s, n, t, at, lp, brk, st, code, st', o, fuel)
    ensures o.Normal? ==> Run(p, s, n) == Some(t) && t.pc == at + |code| && Agrees(t, st'.locals, o.m)
  {
  }

  /** Ending other than normally does not depend on how long the code goes on. */
  lemma Abrupt(p: Program, s: State, n: nat, t: State, at: int, lp: LoopCtx, brk: int, st: Scopes,
               code: seq<Instr>, st': Scopes, code': seq<Instr>, st'': Scopes, o: Outcome, fuel: nat)
    requires Simulates(p, s, n, t, at, lp, brk, st, code, st', o, fuel) && !o.Normal?
    ensures Simulates(p, s, n, t, at, lp, brk, st, code', st'', o, fuel)
  {
  }

  lemma ShapedMeans(s: Stmt, at: int, st: Scopes, o: SOut)
    requires Shaped(s, at, st, o)
    ensures Sound(o.st) && o.st.depth == st.depth && st.pool <= o.st.pool && st.locals <= o.st.locals
    ensures Within(o.breaks, at, at + |o.code|) && (!s.VarDecl? ==> o.st.locals == st.locals)
  {
  }

  lemma {:induction false} StatementCorrect(p: Program, slot: string -> int, c: Stmt, at: int, lp: LoopCtx, brk: int,
        st: Scopes,
                                            s: State, m: Mem, fuel: nat) returns (n: nat, t: State)
    requires WellFormed(c) && Poise(p, s, CompileStmt(c, at, lp, st, slot), at, brk, st, m)
    ensures var o := CompileStmt(c, at, lp, st, slot);
            Simulates(p, s, n, t, at, lp, brk, st, o.code, o.st, Exec(p.prims, slot, c, m, st.depth, fuel, Done), fuel)
    decreases fuel, c, 2
  {
    hide Compile, Eval, Run, Step, Layout, At, Sound, BranchCode, PatchAll, ExecExpr, ExecVar, EnvOf, CompileVar;
    match c
    case Skip =>
      n, t := 0, s;
      RunZero(p, s);
    case ExprStmt(e) => n, t := SimExpr(p, slot, e, at, lp, brk, st, s, m, fuel);
    case PrintStmt(e) => n, t := SimPrint(p, slot, e, at, lp, brk, st, s, m);
    case VarDecl(x, init) => n, t := SimVar(p, slot, x, init, at, brk, st, s, m);
    case Block(ss) => n, t := SimBlock(p, slot, ss, at, lp, brk, st, s, m, fuel);
    case If(_, _, _) => n, t := SimIf(p, slot, c, at, lp, brk, st, s, m, fuel);
    case While(_, _) => n, t := SimWhile(p, slot, c, at, lp, brk, st, s, m, fuel);
    case Break => n, t := SimJump(p, at, [Jmp(0)], [at], brk, s, brk);
    case Continue => n, t := SimJump(p, at, [Jmp(lp.start - (at + 1))], [], brk, s, lp.start);
  }

  lemma SimJump(p: Program, at: int, frag: seq<Instr>, breaks: seq<int>, brk: int, s: State, target: int)
    returns (n: nat, t: State)
    requires InPlace(p.code, at, frag, breaks, brk) && s.pc == at && |frag| == 1
    requires if at in breaks then target == brk else frag[0] == Jmp(target - (at + 1))
    ensures Run(p, s, n) == Some(t) && t == s.(pc := target)
  {
    assert frag[0] == frag[0];
    t := s.(pc := target);
    assert Step(p, s) == Some(t);
    OneStep(p, s);
    n := 1;
  }

  lemma {:induction false} SimBlock(p: Program, slot: string -> int, ss: seq<Stmt>, at: int, lp: LoopCtx, brk: int,
        st: Scopes,
                                    s: State, m: Mem, fuel: nat) returns (n: nat, t: State)
    requires WellFormed(Block(ss)) && Poise(p, s, CompileStmt(Block(ss), at, lp, st, slot), at, brk, st, m)
    ensures var o := CompileStmt(Block(ss), at, lp, st, slot);
            Simulates(p, s, n, t, at, lp, brk, st, o.code, o.st,
                Exec(p.prims, slot, Block(ss), m, st.depth, fuel, Done), fuel)
    decreases fuel, ss, 1
  {
    hide Run, Step, At, Layout, InPlace, Within, Compile, BranchCode, PopScope, WindowEnd;
    var st1 := st.(depth := st.depth + 1);
    DeeperSound(st);
    var o1 := CompileSeq(ss, at, lp, st1, slot);
    SeqShape(ss, at, lp, st1, slot);
    BlockShape(ss, at, lp, st, slot);
    n, t := SimSeq(p, slot, ss, at, lp, brk, st1, s, m, fuel);
    var r := ExecSeq(p.prims, slot, ss, m, st.depth + 1, fuel, Done);
    if r.Normal? || r.Broke? || r.Continued? {
      ShorterHolds(st.locals, if r.Normal? then o1.st.locals else st1.locals, t.regs, r.m.vars);
    }
  }

  lemma DeeperSound(st: Scopes)
    requires Sound(st)
    ensures Sound(st.(depth := st.depth + 1))
  {
  }

  /** Leaving a scope forgets its variables. */
  lemma ShorterHolds(L: seq<Local>, L': seq<Local>, R: Bank, vars: seq<(string, Value)>)
    requires L <= L' && Holds(L', R, vars)
    ensures Holds(L, R, vars[..|L|])
  {
    assert forall i :: 0 <= i < |L| ==> L[i] == L'[i];
  }

  lemma {:induction false} SimSeq(p: Program, slot: string -> int, ss: seq<Stmt>, at: int, lp: LoopCtx, brk: int,
        st: Scopes,
                                  s: State, m: Mem, fuel: nat) returns (n: nat, t: State)
    requires (forall i :: 0 <= i < |ss| ==> WellFormed(ss[i])) &&
             Poise(p, s, CompileSeq(ss, at, lp, st, slot), at, brk, st, m)
    ensures var o := CompileSeq(ss, at, lp, st, slot);
            Simulates(p, s, n, t, at, lp, brk, st, o.code, o.st, ExecSeq(p.prims, slot, ss, m, st.depth, fuel, Done),
                fuel)
    decreases fuel, ss, 0, 1
  {
    if ss == [] {
      n, t := 0, s;
      RunZero(p, s);
    } else {
      n, t := SimCons(p, slot, ss, at, lp, brk, st, s, m, fuel);
    }
  }

  lemma {:induction false} SimCons(p: Program, slot: string -> int, ss: seq<Stmt>, at: int, lp: LoopCtx, brk: int,
        st: Scopes,
                                   s: State, m: Mem, fuel: nat) returns (n: nat, t: State)
    requires ss != []
    requires (forall i :: 0 <= i < |ss| ==> WellFormed(ss[i])) &&
             Poise(p, s, CompileSeq(ss, at, lp, st, slot), at, brk, st, m)
    ensures var o := CompileSeq(ss, at, lp, st, slot);
            Simulates(p, s, n, t, at, lp, brk, st, o.code, o.st, ExecSeq(p.prims, slot, ss, m, st.depth, fuel, Done),
                fuel)
    decreases fuel, ss, 0, 0
  {
    hide Run, Step, At, Layout, InPlace, Sound, Within, Compile, BranchCode, Free, Taken, AfterTest, EnvOf, PatchAll,
        CompileStmt, CompileSeq, Exec, ExecSeq, Simulates, Shaped, Poise, Agrees, AfterCond, CondCode;
    var o := CompileSeq(ss, at, lp, st, slot);
    UnfoldSeq(ss, at, lp, st, slot);
    UnfoldExecSeq(p.prims, slot, ss, m, st.depth, fuel);
    PoiseMeans(p, s, o, at, brk, st, m);
    StmtShape(ss[0], at, lp, st, slot);
    var a := CompileStmt(ss[0], at, lp, st, slot);
    ShapedMeans(ss[0], at, st, a);
    SeqShape(ss[1..], at + |a.code|, lp, a.st, slot);
    var b := CompileSeq(ss[1..], at + |a.code|, lp, a.st, slot);
    ShapedMeans(VarDecl("", None), at + |a.code|, a.st, b);
    InPlaceSplit(p.code, at, a.code, b.code, a.breaks, b.breaks, brk);
    MakePoise(p, s, a, at, brk, st, m);
    n, t := StatementCorrect(p, slot, ss[0], at, lp, brk, st, s, m, fuel);
    var r := Exec(p.prims, slot, ss[0], m, st.depth, fuel, Done);
    NormalMeans(p, s, n, t, at, lp, brk, st, a.code, a.st, r, fuel);
    if r.Normal? {
      MakePoise(p, t, b, at + |a.code|, brk, a.st, r.m);
      var k, u := SimSeq(p, slot, ss[1..], at + |a.code|, lp, brk, a.st, t, r.m, fuel);
      Then(p, s, n, t, k, u, at, lp, brk, st, a.st, |a.code|, o.code, b.code, b.st,
           ExecSeq(p.prims, slot, ss[1..], r.m, st.depth, fuel, Done), fuel);
      n, t := n + k, u;
    } else {
      Abrupt(p, s, n, t, at, lp, brk, st, a.code, a.st, o.code, b.st, r, fuel);
    }
  }

  /** A condition at a statement boundary. */
  lemma SimBranch(p: Program, slot: string -> int, c: Expr, at: int, skip: int, st: Scopes, s: State, m: Mem)
    returns (n: nat, t: State)
    requires Safe(c) && Sound(st) && Agrees(s, st.locals, m) && s.pc == at
    requires At(p.code, at, CondCode(c, st, slot, skip)) && AfterCond(c, st, slot).pool <= p.consts
    ensures Run(p, s, n) == Some(t) && n > 0 && Agrees(t, st.locals, AfterTest(p.prims, c, m, slot)) &&
            t.pc == at + |CondCode(c, st, slot, skip)| + (if Taken(p.prims, c, EnvOf(m, slot)) then 0 else skip)
  {
    hide Compile, Eval, Run, Step, At, Sound, BranchCode, CondTrap, Taken;
    AgreesReads(s, st, m, slot);
    SoundLayout(st);
    n, t := BranchCorrect(p, s, c, st.next, st.pool, ScopeOf(st, slot), EnvOf(m, slot), at, skip);
    EndsAgrees(p, s, n, t, st, m, -1, st.next);
  }

  lemma {:induction false} SimIf(p: Program, slot: string -> int, c: Stmt, at: int, lp: LoopCtx, brk: int, st: Scopes,
                                 s: State, m: Mem, fuel: nat) returns (n: nat, t: State)
    requires c.If? && WellFormed(c) && Poise(p, s, CompileStmt(c, at, lp, st, slot), at, brk, st, m)
    ensures var o := CompileStmt(c, at, lp, st, slot);
            Simulates(p, s, n, t, at, lp, brk, st, o.code, o.st, Exec(p.prims, slot, c, m, st.depth, fuel, Done), fuel)
    decreases fuel, c, 1
  {
    hide Run, Step, At, Layout, InPlace, Sound, Within, Compile, BranchCode, Free, Taken, AfterTest, EnvOf, PatchAll,
        CompileStmt, CompileSeq, Exec, ExecSeq, Simulates, Shaped, Poise, Agrees, AfterCond, CondCode;
    var o := CompileStmt(c, at, lp, st, slot);
    UnfoldIf(c, at, lp, st, slot);
    UnfoldExecIf(p.prims, slot, c, m, st.depth, fuel);
    PoiseMeans(p, s, o, at, brk, st, m);
    var st1 := AfterCond(c.cond, st, slot);
    var size := |CondCode(c.cond, st, slot, 0)|;
    var a := CompileStmt(c.then_, at + size, lp, st1, slot);
    var skip := |a.code| + 1;
    CondState(c.cond, st, slot, skip);
    StmtShape(c.then_, at + size, lp, st1, slot);
    ShapedMeans(c.then_, at + size, st1, a);
    var b := CompileStmt(c.els, at + size + skip, lp, a.st, slot);
    StmtShape(c.els, at + size + skip, lp, a.st, slot);
    ShapedMeans(c.els, at + size + skip, a.st, b);
    IfParts(p.code, at, CondCode(c.cond, st, slot, skip), a, b, brk);
    var n1, t1 := SimBranch(p, slot, c.cond, at, skip, st, s, m);
    var m1 := AfterTest(p.prims, c.cond, m, slot);
    if Taken(p.prims, c.cond, EnvOf(m, slot)) {
      MakePoise(p, t1, a, at + size, brk, st1, m1);
      var k, u := StatementCorrect(p, slot, c.then_, at + size, lp, brk, st1, t1, m1, fuel);
      n, t := SimThenEnd(p, s, n1, t1, k, u, at, lp, brk, st, st1, size, a, b, o.code,
                         Exec(p.prims, slot, c.then_, m1, st.depth, fuel, Done), fuel);
    } else {
      MakePoise(p, t1, b, at + size + skip, brk, a.st, m1);
      var k, u := StatementCorrect(p, slot, c.els, at + size + skip, lp, brk, a.st, t1, m1, fuel);
      Then(p, s, n1, t1, k, u, at, lp, brk, st, a.st, size + skip, o.code, b.code, b.st,
           Exec(p.prims, slot, c.els, m1, st.depth, fuel, Done), fuel);
      n, t := n1 + k, u;
    }
  }

  /** The then-branch, and from its end the jump over the else-branch. */
  lemma SimThenEnd(p: Program, s: State, n1: nat, t1: State, k: nat, u: State, at: int, lp: LoopCtx, brk: int,
                   st: Scopes, st1: Scopes, size: int, a: SOut, b: SOut, code: seq<Instr>, o: Outcome, fuel: nat)
    returns (n: nat, t: State)
    requires Run(p, s, n1) == Some(t1) && Simulates(p, t1, k, u, at + size, lp, brk, st1, a.code, a.st, o, fuel)
    requires st.locals == st1.locals && a.st.locals == b.st.locals && |code| == size + |a.code| + 1 + |b.code|
    requires At(p.code, at + size + |a.code|, [Jmp(|b.code|)])
    ensures Simulates(p, s, n, t, at, lp, brk, st, code, b.st, o, fuel)
  {
    hide Run;
    RunTrans(p, s, n1, t1, k, u);
    n, t := n1 + k, u;
    if o.Normal? {
      InstrAt(p, u, at + size + |a.code|, Jmp(|b.code|));
      t := u.(pc := at + |code|);
      OneStep(p, u);
      RunTrans(p, s, n1 + k, u, 1, t);
      n := n1 + k + 1;
    }
  }

  lemma IfParts(code: seq<Instr>, at: int, br: seq<Instr>, a: SOut, b: SOut, brk: int)
    requires InPlace(code, at, br + (a.code + ([Jmp(|b.code|)] + b.code)), a.breaks + b.breaks, brk)
    requires Within(a.breaks, at + |br|, at + |br| + |a.code|)
    requires Within(b.breaks, at + |br| + |a.code| + 1, at + |br| + |a.code| + 1 + |b.code|)
    ensures At(code, at, br) && InPlace(code, at + |br|, a.code, a.breaks, brk)
    ensures At(code, at + |br| + |a.code|, [Jmp(|b.code|)])
    ensures InPlace(code, at + |br| + |a.code| + 1, b.code, b.breaks, brk)
  {
    hide InPlace, At;
    var j := [Jmp(|b.code|)];
    HeadInPlace(code, at, br, a.code + (j + b.code), a.breaks + b.breaks, brk);
    InPlaceSplit(code, at + |br|, a.code, j + b.code, a.breaks, b.breaks, brk);
    HeadInPlace(code, at + |br| + |a.code|, j, b.code, b.breaks, brk);
  }

  lemma {:induction false} SimWhile(p: Program, slot: string -> int, c: Stmt, at: int, lp: LoopCtx, brk: int,
        st: Scopes,
                                    s: State, m: Mem, fuel: nat) returns (n: nat, t: State)
    requires c.While? && WellFormed(c) && Poise(p, s, CompileStmt(c, at, lp, st, slot), at, brk, st, m)
    ensures var o := CompileStmt(c, at, lp, st, slot);
            Simulates(p, s, n, t, at, lp, brk, st, o.code, o.st, Exec(p.prims, slot, c, m, st.depth, fuel, Done), fuel)
    decreases fuel, c, 1
  {
    hide Run, Step, At, Layout, InPlace, Sound, Within, Compile, BranchCode, Free, Taken, AfterTest, EnvOf, PatchAll,
        CompileStmt, CompileSeq, Exec, ExecSeq, Simulates, Shaped, Poise, Agrees, AfterCond, CondCode;
    var o := CompileStmt(c, at, lp, st, slot);
    UnfoldWhile(c, at, lp, st, slot);
    UnfoldExecWhile(p.prims, slot, c, m, st.depth, fuel);
    PoiseMeans(p, s, o, at, brk, st, m);
    var st1 := AfterCond(c.cond, st, slot);
    var size := |CondCode(c.cond, st, slot, 0)|;
    var lp1 := LoopCtx(at, lp.open + 1);
    var a := CompileStmt(c.loop, at + size, lp1, st1, slot);
    var skip := |a.code| + 1;
    CondState(c.cond, st, slot, skip);
    StmtShape(c.loop, at + size, lp1, st1, slot);
    ShapedMeans(c.loop, at + size, st1, a);
    var back := [Jmp(-(size + skip))];
    WhileParts(p.code, at, CondCode(c.cond, st, slot, skip), a, back, brk);
    var end := at + size + |a.code| + 1;
    var rest := Exec(p.prims, slot, c, m, st.depth, fuel, Done);
    n, t := 0, s;
    RunZero(p, s);
    if fuel == 0 {
      StillRunning(p, s, at, lp, brk, st, o.code, o.st, m);
    } else {
      var n1, t1 := SimBranch(p, slot, c.cond, at, skip, st, s, m);
      var m1 := AfterTest(p.prims, c.cond, m, slot);
      if !Taken(p.prims, c.cond, EnvOf(m, slot)) {
        n, t := n1, t1;
        NormalEnd(p, s, n, t, at, lp, brk, st, o.code, o.st, m1, fuel);
      } else {
        MakePoise(p, t1, a, at + size, end, st1, m1);
        var k, u := StatementCorrect(p, slot, c.loop, at + size, lp1, end, st1, t1, m1, fuel);
        var r := Exec(p.prims, slot, c.loop, m1, st.depth, fuel, Done);
        AgreesLength(t1, st.locals, m1);
        if r.Normal? || r.Continued? {
          var k2, u2 := SimBack(p, s, n1, t1, k, u, at, lp1, end, st, st1, size, a, r, fuel, m1, c.loop, slot);
          MakePoise(p, u2, o, at, brk, st, r.m);
          var k3, u3 := SimWhile(p, slot, c, at, lp, brk, st, u2, r.m, fuel - 1);
          SimAgain(p, s, k2, u2, k3, u3, at, lp, brk, st, o.code, o.st, rest, fuel);
          n, t := k2 + k3, u3;
        } else if r.Broke? {
          SimOut(p, s, n1, t1, k, u, at, lp1, end, st, st1, size, a, r, fuel, m1, c.loop, slot);
          n, t := n1 + k, u;
          NormalEnd(p, s, n, t, at, lp, brk, st, o.code, o.st, r.m, fuel);
        } else {
          NoEnd(p, s, n1, t1, k, u, at, size, lp, lp1, brk, end, st, st1, a, o, r, fuel);
          n, t := n1 + k, u;
        }
      }
    }
  }

  lemma StillRunning(p: Program, s: State, at: int, lp: LoopCtx, brk: int, st: Scopes, code: seq<Instr>, st': Scopes,
        m: Mem)
    requires Agrees(s, st.locals, m)
    ensures Simulates(p, s, 0, s, at, lp, brk, st, code, st', Timeout(m.out), 0)
  {
  }

  lemma NormalEnd(p: Program, s: State, n: nat, t: State, at: int, lp: LoopCtx, brk: int, st: Scopes,
                  code: seq<Instr>, st': Scopes, m: Mem, fuel: nat)
    requires Run(p, s, n) == Some(t) && t.pc == at + |code| && Agrees(t, st'.locals, m)
    ensures Simulates(p, s, n, t, at, lp, brk, st, code, st', Normal(m), fuel)
  {
  }

  lemma AgreesLength(s: State, L: seq<Local>, m: Mem)
    requires Agrees(s, L, m)
    ensures |m.vars| == |L|
  {
  }

  /** The body timed out. */
  lemma NoEnd(p: Program, s: State, n1: nat, t1: State, k: nat, u: State, at: int, size: int, lp: LoopCtx, lp1: LoopCtx,
        brk: int, end: int,
              st: Scopes, st1: Scopes, a: SOut, o: SOut, r: Outcome, fuel: nat)
    requires Run(p, s, n1) == Some(t1) && !r.Normal? && !r.Broke? && !r.Continued?
    requires Simulates(p, t1, k, u, at + size, lp1, end, st1, a.code, a.st, r, fuel)
    ensures Simulates(p, s, n1 + k, u, at, lp, brk, st, o.code, o.st, r, fuel)
  {
    hide Run;
    RunTrans(p, s, n1, t1, k, u);
  }

  lemma WhileParts(code: seq<Instr>, at: int, br: seq<Instr>, a: SOut, back: seq<Instr>, brk: int)
    requires Within(a.breaks, at + |br|, at + |br| + |a.code|)
    requires var frag := br + (a.code + back); InPlace(code, at, PatchAll(frag, at, a.breaks, at + |frag|), [], brk)
    ensures var end := at + |br| + |a.code| + |back|;
            At(code, at, br) && InPlace(code, at + |br|, a.code, a.breaks, end) && At(code, at + |br| + |a.code|, back)
  {
    hide InPlace, At, PatchAll;
    var frag := br + (a.code + back);
    var end := at + |frag|;
    PatchedInPlace(code, at, frag, a.breaks, brk, end);
    HeadInPlace(code, at, br, a.code + back, a.breaks, end);
    assert a.breaks + [] == a.breaks;
    InPlaceSplit(code, at + |br|, a.code, back, a.breaks, [], end);
    InPlaceAt(code, at + |br| + |a.code|, back, end);
  }

  /** A block leaves no more variables than it found. */
  lemma BlockVars(p: Prims, slot: string -> int, s: Stmt, m: Mem, depth: nat, fuel: nat)
    requires s.Block?
    ensures var r := Exec(p, slot, s, m, depth, fuel, Done);
            r.Normal? || r.Broke? || r.Continued? ==>
                  |r.m.vars| <= |m.vars| || r.m.vars == ExecSeq(p, slot, s.body, m, depth + 1, fuel, Done).m.vars
    ensures var r := Exec(p, slot, s, m, depth, fuel, Done);
            r.Normal? || r.Broke? || r.Continued? ==> |r.m.vars| <= |m.vars|
  {
  }

  /** The body ran to its end or hit `continue`: back at the condition. */
  lemma SimBack(p: Program, s: State, n1: nat, t1: State, k: nat, u: State, at: int, lp1: LoopCtx, end: int, st: Scopes,
        st1: Scopes,
                size: int, a: SOut, r: Outcome, fuel: nat, m: Mem, body: Stmt, slot: string -> int)
                    returns (n: nat, t: State)
    requires Run(p, s, n1) == Some(t1) && n1 > 0 && (r.Normal? || r.Continued?) && lp1.start == at
    requires Simulates(p, t1, k, u, at + size, lp1, end, st1, a.code, a.st, r, fuel)
    requires body.Block? && r == Exec(p.prims, slot, body, m, st.depth, fuel, Done) && |m.vars| == |st.locals|
    requires st1.locals == st.locals && a.st.locals == st.locals
    requires At(p.code, at + size + |a.code|, [Jmp(-(size + |a.code| + 1))])
    ensures Run(p, s, n) == Some(t) && n > 0 && t.pc == at && Agrees(t, st.locals, r.m)
  {
    hide Run, Exec;
    RunTrans(p, s, n1, t1, k, u);
    n, t := n1 + k, u;
    BlockVars(p.prims, slot, body, m, st.depth, fuel);
    if r.Normal? {
      InstrAt(p, u, at + size + |a.code|, Jmp(-(size + |a.code| + 1)));
      t := u.(pc := at);
      OneStep(p, u);
      RunTrans(p, s, n1 + k, u, 1, t);
      n := n1 + k + 1;
    }
  }

  lemma SimOut(p: Program, s: State, n1: nat, t1: State, k: nat, u: State, at: int, lp1: LoopCtx, end: int, st: Scopes,
        st1: Scopes,
               size: int, a: SOut, r: Outcome, fuel: nat, m: Mem, body: Stmt, slot: string -> int)
    requires Run(p, s, n1) == Some(t1) && r.Broke?
    requires Simulates(p, t1, k, u, at + size, lp1, end, st1, a.code, a.st, r, fuel)
    requires body.Block? && r == Exec(p.prims, slot, body, m, st.depth, fuel, Done) && |m.vars| == |st.locals|
    requires st1.locals == st.locals
    ensures Run(p, s, n1 + k) == Some(u) && u.pc == end && Agrees(u, st.locals, r.m)
  {
    hide Run, Exec;
    RunTrans(p, s, n1, t1, k, u);
    BlockVars(p.prims, slot, body, m, st.depth, fuel);
  }

  /** One more iteration in front of a loop's run. */
  lemma SimAgain(p: Program, s: State, n: nat, t: State, k: nat, u: State, at: int, lp: LoopCtx, brk: int, st: Scopes,
                 code: seq<Instr>, st': Scopes, o: Outcome, fuel: nat)
    requires Run(p, s, n) == Some(t) && n > 0 && fuel > 0
    requires Simulates(p, t, k, u, at, lp, brk, st, code, st', o, fuel - 1)
    ensures Simulates(p, s, n + k, u, at, lp, brk, st, code, st', o, fuel)
  {
    hide Run;
    RunTrans(p, s, n, t, k, u);
  }
}
