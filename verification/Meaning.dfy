/** Whole runs against strings that never change: as long as no addition appends to a string that some
    other variable holds, a script prints what it would if every addition made a new string. */
module Meaning {
  import opened Values
  import opened Machine
  import opened Codegen
  import opened ExpressionProof
  import opened PeepholeTraps
  import opened Statements
  import opened StatementProof
  import opened Aliasing
  import opened Simulation

  // ---------------------------------------------------------------- memories that look the same

  ghost predicate AlikeVars(h: Heap, vars: seq<(string, Value)>, h': Heap, vars': seq<(string, Value)>) {
    |vars| == |vars'| &&
    forall k :: 0 <= k < |vars| ==> vars[k].0 == vars'[k].0 && Alike(h, vars[k].1, h', vars'[k].1)
  }

  ghost predicate AlikeBank(h: Heap, G: Bank, h': Heap, G': Bank) {
    forall g :: Alike(h, Get(G, g), h', Get(G', g))
  }

  ghost predicate AlikeMem(m: Mem, m': Mem) {
    AlikeVars(m.heap, m.vars, m'.heap, m'.vars) && AlikeBank(m.heap, m.globals, m'.heap, m'.globals) && m.out == m'.out
  }

  ghost predicate AlikeOutcome(o: Outcome, o': Outcome) {
    match (o, o')
    case (Normal(m), Normal(m')) => AlikeMem(m, m')
    case (Broke(m), Broke(m')) => AlikeMem(m, m')
    case (Continued(m), Continued(m')) => AlikeMem(m, m')
    case (Timeout(a), Timeout(b)) => a == b
    case _ => false
  }

  lemma {:induction false} AlikeLookup(h: Heap, vars: seq<(string, Value)>, G: Bank, h': Heap,
        vars': seq<(string, Value)>,
                                       G': Bank, slot: string -> int, x: string)
    requires AlikeVars(h, vars, h', vars') && AlikeBank(h, G, h', G')
    ensures Alike(h, Lookup(vars, G, slot, x), h', Lookup(vars', G', slot, x))
    ensures IndexOfVar(vars, x) == IndexOfVar(vars', x)
    decreases |vars|
  {
    hide Alike;
    if vars != [] {
      var n := |vars| - 1;
      AlikeLookup(h, vars[..n], G, h', vars'[..n], G', slot, x);
    }
  }

  lemma MemEnv(m: Mem, m': Mem, slot: string -> int, e: Expr)
    requires AlikeMem(m, m')
    ensures AlikeEnv(e, EnvOf(m, slot), EnvOf(m', slot))
  {
    hide Alike;
    forall x | x in Vars(e) ensures Alike(m.heap, EnvOf(m, slot).vars(x), m'.heap, EnvOf(m', slot).vars(x)) {
      AlikeLookup(m.heap, m.vars, m.globals, m'.heap, m'.vars, m'.globals, slot, x);
    }
  }

  // ---------------------------------------------------------------- quiet expressions

  /** The variable a statement stores its expression's value in. */
  datatype Target = Nothing | AtVar(k: int) | AtGlobal(g: int)

  /** No variable but the target holds one of the objects. */
  ghost predicate Spares(m: Mem, t: Target, w: set<nat>) {
    (forall k :: 0 <= k < |m.vars| && t != AtVar(k) ==> Apart(m.vars[k].1, w)) &&
    forall g :: t != AtGlobal(g) ==> Apart(Get(m.globals, g), w)
  }

  /** What an expression's last operation appends to, if that is an addition. */
  function OwnWrite(p: Prims, e: Expr, env: Env): set<nat> {
    if e.Bin? && IsAdd(e.bop) then
      var a := Eval(p, e.l, env);
      var b := Eval(p, e.r, After(env, a));
      Written(b.h, a.v, b.v)
    else {}
  }

  /** What everything before its last operation appends to. */
  function InnerWrites(p: Prims, e: Expr, env: Env): set<nat> {
    if e.Bin? then Touched(p, e.l, env) + Touched(p, e.r, After(env, Eval(p, e.l, env))) else Touched(p, e, env)
  }

  /** On the way nothing that a variable holds is appended to, and at the end at most what the target
      held: so `s = s + x` is quiet when nothing else holds s's object. */
  ghost predicate QuietExpr(p: Prims, slot: string -> int, e: Expr, m: Mem, t: Target) {
    var env := EnvOf(m, slot);
    Spares(m, Nothing, InnerWrites(p, e, env)) && Spares(m, t, OwnWrite(p, e, env))
  }

  lemma TouchedSplit(p: Prims, e: Expr, env: Env)
    ensures Touched(p, e, env) == InnerWrites(p, e, env) + OwnWrite(p, e, env)
  {
    hide Eval, Written;
  }

  lemma HeldAreVariables(m: Mem, slot: string -> int, e: Expr, w: set<nat>)
    requires Spares(m, Nothing, w)
    ensures w !! Held(e, EnvOf(m, slot))
  {
    forall k | k in Held(e, EnvOf(m, slot)) ensures k !in w {
      var x :| x in Vars(e) && EnvOf(m, slot).vars(x) == Str(k);
      LookupIndex(m.vars, m.globals, slot, x);
      var i := IndexOfVar(m.vars, x);
      assert Apart(if i < 0 then Get(m.globals, slot(x)) else m.vars[i].1, w);
    }
  }

  /** The value is what it would be over strings that never change. */
  lemma QuietValue(p: Prims, slot: string -> int, e: Expr, m: Mem, m': Mem, t: Target)
    requires AlikeMem(m, m') && QuietExpr(p, slot, e, m, t)
    ensures var r, r' := Eval(p, e, EnvOf(m, slot)), Copied(p, e, EnvOf(m', slot)); AlikeRes(r, r') && m'.heap <= r'.h
  {
    hide Eval, Copied, Touched, Alike, AlikeMem, Held, Written, CopiedAdd;
    var env, env' := EnvOf(m, slot), EnvOf(m', slot);
    MemEnv(m, m', slot, e);
    HeldAreVariables(m, slot, e, InnerWrites(p, e, env));
    if e.Bin? {
      CopyPair(p, e, e.l, e.r, env, env');
      var a, a' := Eval(p, e.l, env), Copied(p, e.l, env');
      var b, b' := Eval(p, e.r, After(env, a)), Copied(p, e.r, After(env', a'));
      AlikeBin(p, e.bop, a.v, b, a'.v, b');
      ValueOf(p, e, env);
      CopiedBin(p, e, env');
    } else {
      CopyMeaning(p, e, env, env');
    }
  }

  lemma CopiedBin(p: Prims, e: Expr, env: Env)
    requires e.Bin?
    ensures var a := Copied(p, e.l, env);
            var b := Copied(p, e.r, After(env, a));
            Copied(p, e, env) == if IsAdd(e.bop) then CopiedAdd(p, a.v, b) else BinValue(p, e.bop, a.v, b)
  {
  }

  /** Everything but the target still looks the same afterwards. */
  ghost predicate AlikeBut(m: Mem, m': Mem, t: Target) {
    |m.vars| == |m'.vars| && m.out == m'.out && (forall k :: 0 <= k < |m.vars| ==> m.vars[k].0 == m'.vars[k].0) &&
    (forall k :: 0 <= k < |m.vars| && t != AtVar(k) ==> Alike(m.heap, m.vars[k].1, m'.heap, m'.vars[k].1)) &&
    forall g :: t != AtGlobal(g) ==> Alike(m.heap, Get(m.globals, g), m'.heap, Get(m'.globals, g))
  }

  lemma QuietMem(p: Prims, slot: string -> int, e: Expr, m: Mem, m': Mem, t: Target)
    requires AlikeMem(m, m') && QuietExpr(p, slot, e, m, t)
    ensures var r, r' := Eval(p, e, EnvOf(m, slot)), Copied(p, e, EnvOf(m', slot));
            AlikeRes(r, r') && AlikeBut(m.(heap := r.h), m'.(heap := r'.h), t)
  {
    hide Eval, Copied, Touched, Alike, Held, Written, Accounted, InnerWrites, OwnWrite, Apart, Writes;
    var env := EnvOf(m, slot);
    var r, r' := Eval(p, e, env), Copied(p, e, EnvOf(m', slot));
    QuietValue(p, slot, e, m, m', t);
    MemEnv(m, m', slot, e);
    AlikeRefers(e, env, EnvOf(m', slot));
    TouchedExact(p, e, env);
    TouchedSplit(p, e, env);
    var w := Touched(p, e, env);
    assert Writes(m.heap, r.h, w) by { AccountedWrites(e, env, r, w); }
    forall k | 0 <= k < |m.vars| && t != AtVar(k) ensures Alike(r.h, m.vars[k].1, r'.h, m'.vars[k].1) {
      ApartBoth(m.vars[k].1, InnerWrites(p, e, env), OwnWrite(p, e, env));
      StillAlike(m.heap, r.h, w, m.vars[k].1, m'.heap, r'.h, m'.vars[k].1);
    }
    forall g | t != AtGlobal(g) ensures Alike(r.h, Get(m.globals, g), r'.h, Get(m'.globals, g)) {
      ApartBoth(Get(m.globals, g), InnerWrites(p, e, env), OwnWrite(p, e, env));
      StillAlike(m.heap, r.h, w, Get(m.globals, g), m'.heap, r'.h, Get(m'.globals, g));
    }
  }

  lemma AccountedWrites(e: Expr, env: Env, r: Res, w: set<nat>)
    requires Accounted(e, env, r, w)
    ensures Writes(env.heap, r.h, w)
  {
  }

  lemma ApartBoth(v: Value, w: set<nat>, w': set<nat>)
    requires Apart(v, w) && Apart(v, w')
    ensures Apart(v, w + w')
  {
  }

  // ---------------------------------------------------------------- storing

  lemma NothingStored(m: Mem, m': Mem)
    requires AlikeBut(m, m', Nothing)
    ensures AlikeMem(m, m')
  {
    hide Alike;
  }

  lemma StoredVar(m: Mem, m': Mem, i: int, v: Value, v': Value)
    requires 0 <= i < |m.vars| && AlikeBut(m, m', AtVar(i)) && Alike(m.heap, v, m'.heap, v')
    ensures AlikeMem(m.(vars := m.vars[i := (m.vars[i].0, v)]), m'.(vars := m'.vars[i := (m.vars[i].0, v')]))
  {
    hide Alike;
    assert forall k :: 0 <= k < |m.vars| && k != i ==> AtVar(i) != AtVar(k);
  }

  lemma StoredGlobal(m: Mem, m': Mem, g: int, v: Value, v': Value)
    requires AlikeBut(m, m', AtGlobal(g)) && Alike(m.heap, v, m'.heap, v')
    ensures AlikeMem(m.(globals := m.globals[g := v]), m'.(globals := m'.globals[g := v']))
  {
    hide Alike;
    var n, n' := m.globals[g := v], m'.globals[g := v'];
    forall k ensures Alike(m.heap, Get(n, k), m'.heap, Get(n', k)) {
      if k != g { assert AtGlobal(g) != AtGlobal(k); }
    }
  }

  lemma Declared(m: Mem, m': Mem, x: string, v: Value, v': Value)
    requires AlikeMem(m, m') && Alike(m.heap, v, m'.heap, v')
    ensures AlikeMem(m.(vars := m.vars + [(x, v)]), m'.(vars := m'.vars + [(x, v')]))
  {
    hide Alike;
  }

  // ---------------------------------------------------------------- quiet runs

  function TargetOf(m: Mem, slot: string -> int, x: string): Target {
    var i := IndexOfVar(m.vars, x);
    if i < 0 then AtGlobal(slot(x)) else AtVar(i)
  }

  /** Every expression that the run evaluates is quiet. */
  ghost predicate Quiet(p: Prims, slot: string -> int, s: Stmt, m: Mem, depth: nat, fuel: nat)
    decreases fuel, s, 1
  {
    match s
    case ExprStmt(e) => if e.Assign? then QuietExpr(p, slot, e.e, m, TargetOf(m, slot, e.name))
        else QuietExpr(p, slot, e, m, Nothing)
    case PrintStmt(e) => QuietExpr(p, slot, e, m, Nothing)
    case VarDecl(x, init) =>
      init.Some? ==> QuietExpr(p, slot, init.value, m, if depth > 0 then Nothing else AtGlobal(slot(x)))
    case Block(ss) => QuietSeq(p, slot, ss, m, depth + 1, fuel)
    case If(c, t, e) =>
      QuietExpr(p, slot, c, m, Nothing) &&
      (match ExecCond(p, slot, c, m, Meant)
       case None => true
       case Some((true, m1)) => Quiet(p, slot, t, m1, depth, fuel)
       case Some((false, m1)) => Quiet(p, slot, e, m1, depth, fuel))
    case While(c, body) =>
      fuel > 0 ==>
        QuietExpr(p, slot, c, m, Nothing) &&
        (match ExecCond(p, slot, c, m, Meant)
         case Some((true, m1)) =>
           var o := Exec(p, slot, body, m1, depth, fuel, Meant);
           Quiet(p, slot, body, m1, depth, fuel) &&
           (o.Normal? || o.Continued? ==> Quiet(p, slot, s, o.m, depth, fuel - 1))
         case _ => true)
    case _ => true
  }

  ghost predicate QuietSeq(p: Prims, slot: string -> int, ss: seq<Stmt>, m: Mem, depth: nat, fuel: nat)
    decreases fuel, ss, 0
  {
    ss != [] ==>
      var o := Exec(p, slot, ss[0], m, depth, fuel, Meant);
      Quiet(p, slot, ss[0], m, depth, fuel) && (o.Normal? ==> QuietSeq(p, slot, ss[1..], o.m, depth, fuel))
  }

  /** The two runs end alike, or the first met a trap. */
  ghost predicate Follows(o: Outcome, o': Outcome) { o.Trapped? || AlikeOutcome(o, o') }

  lemma AssignAlike(p: Prims, slot: string -> int, e: Expr, m: Mem, m': Mem)
    requires e.Assign? && AlikeMem(m, m') && QuietExpr(p, slot, e.e, m, TargetOf(m, slot, e.name))
    ensures Follows(ExecExpr(p, slot, e, m, Meant), ExecExpr(p, slot, e, m', Ideal))
  {
    hide Eval, Copied, QuietExpr, AlikeBut, AlikeMem, Alike, AssignTrap;
    AssignedValue(p, e, EnvOf(m, slot));
    AssignedCopy(p, e, EnvOf(m', slot));
    var r, r' := Eval(p, e.e, EnvOf(m, slot)), Copied(p, e.e, EnvOf(m', slot));
    QuietMem(p, slot, e.e, m, m', TargetOf(m, slot, e.name));
    var i := IndexOfVar(m.vars, e.name);
    assert IndexOfVar(m'.vars, e.name) == i by { SameIndex(m, m', e.name); }
    if i < 0 {
      StoredGlobal(m.(heap := r.h), m'.(heap := r'.h), slot(e.name), r.v, r'.v);
    } else {
      StoredVar(m.(heap := r.h), m'.(heap := r'.h), i, r.v, r'.v);
    }
  }

  lemma SameIndex(m: Mem, m': Mem, x: string)
    requires AlikeMem(m, m')
    ensures IndexOfVar(m'.vars, x) == IndexOfVar(m.vars, x)
  {
    AlikeLookup(m.heap, m.vars, m.globals, m'.heap, m'.vars, m'.globals, y => 0, x);
  }

  lemma AssignedCopy(p: Prims, e: Expr, env: Env)
    requires e.Assign?
    ensures Copied(p, e, env) == Copied(p, e.e, env)
  {
  }

  lemma PlainAlike(p: Prims, slot: string -> int, e: Expr, m: Mem, m': Mem)
    requires AlikeMem(m, m') && QuietExpr(p, slot, e, m, Nothing)
    ensures var r, r' := Eval(p, e, EnvOf(m, slot)), Copied(p, e, EnvOf(m', slot));
            AlikeMem(m.(heap := r.h), m'.(heap := r'.h)) && AlikeRes(r, r') && Truthy(r.v) == Truthy(r'.v)
    ensures Show(p, Eval(p, e, EnvOf(m, slot)).h, Eval(p, e, EnvOf(m, slot)).v) ==
            Show(p, Copied(p, e, EnvOf(m', slot)).h, Copied(p, e, EnvOf(m', slot)).v)
  {
    hide Eval, Copied, QuietExpr, AlikeBut, AlikeMem;
    var r, r' := Eval(p, e, EnvOf(m, slot)), Copied(p, e, EnvOf(m', slot));
    QuietMem(p, slot, e, m, m', Nothing);
    NothingStored(m.(heap := r.h), m'.(heap := r'.h));
  }

  lemma PrintAlike(p: Prims, slot: string -> int, e: Expr, m: Mem, m': Mem)
    requires AlikeMem(m, m') && QuietExpr(p, slot, e, m, Nothing)
    ensures AlikeMem(ExecPrint(p, slot, e, m, Meant), ExecPrint(p, slot, e, m', Ideal))
  {
    hide Eval, Copied, QuietExpr, Alike;
    PlainAlike(p, slot, e, m, m');
  }

  lemma VarAlike(p: Prims, slot: string -> int, x: string, init: Option<Expr>, m: Mem, m': Mem, depth: nat)
    requires AlikeMem(m, m') && (init.Some? ==>
               QuietExpr(p, slot, init.value, m, if depth > 0 then Nothing else AtGlobal(slot(x))))
    ensures AlikeOutcome(ExecVar(p, slot, x, init, m, depth, Meant), ExecVar(p, slot, x, init, m', depth, Ideal))
  {
    hide Eval, Copied, QuietExpr, AlikeBut, AlikeMem;
    if init.Some? {
      var e := init.value;
      var r, r' := Eval(p, e, EnvOf(m, slot)), Copied(p, e, EnvOf(m', slot));
      if depth > 0 {
        PlainAlike(p, slot, e, m, m');
        Declared(m.(heap := r.h), m'.(heap := r'.h), x, r.v, r'.v);
      } else {
        QuietMem(p, slot, e, m, m', AtGlobal(slot(x)));
        StoredGlobal(m.(heap := r.h), m'.(heap := r'.h), slot(x), r.v, r'.v);
      }
    } else if depth > 0 {
      Declared(m, m', x, Nil, Nil);
    }
  }

  lemma CondAlike(p: Prims, slot: string -> int, c: Expr, m: Mem, m': Mem)
    requires AlikeMem(m, m') && QuietExpr(p, slot, c, m, Nothing)
    ensures var x, x' := ExecCond(p, slot, c, m, Meant), ExecCond(p, slot, c, m', Ideal);
            x'.Some? && (x.Some? ==> x.value.0 == x'.value.0 && AlikeMem(x.value.1, x'.value.1))
  {
    hide Eval, Copied, QuietExpr, AlikeMem, CondTrap;
    PlainAlike(p, slot, c, m, m');
  }

  lemma LeftAlike(o: Outcome, o': Outcome, k: nat)
    requires Follows(o, o')
    ensures Follows(LeaveScope(o, k), LeaveScope(o', k))
  {
    hide Alike, AlikeBank;
    if o.Normal? || o.Broke? || o.Continued? { TruncAlike(o.m, o'.m, k); }
  }

  lemma TruncAlike(m: Mem, m': Mem, k: nat)
    requires AlikeMem(m, m')
    ensures AlikeMem(Trunc(m, k), Trunc(m', k))
  {
    hide Alike;
  }

  lemma SameLength(m: Mem, m': Mem)
    requires AlikeMem(m, m')
    ensures |m.vars| == |m'.vars| && m.out == m'.out
  {
  }

  // ---------------------------------------------------------------- the theorem

  lemma {:induction false} StmtIdeal(p: Prims, slot: string -> int, s: Stmt, m: Mem, m': Mem, depth: nat, fuel: nat)
    requires AlikeMem(m, m') && Quiet(p, slot, s, m, depth, fuel)
    ensures Follows(Exec(p, slot, s, m, depth, fuel, Meant), Exec(p, slot, s, m', depth, fuel, Ideal))
    decreases fuel, s, 1
  {
    hide Eval, Copied, QuietExpr, AlikeMem, ExecCond, ExecPrint, ExecVar, Trunc;
    SameLength(m, m');
    match s
    case ExprStmt(e) =>
      if e.Assign? {
        hide ExecExpr;
        AssignAlike(p, slot, e, m, m');
      } else {
        PlainAlike(p, slot, e, m, m');
      }
    case PrintStmt(e) => PrintAlike(p, slot, e, m, m');
    case VarDecl(x, init) => VarAlike(p, slot, x, init, m, m', depth);
    case Block(ss) =>
      SeqIdeal(p, slot, ss, m, m', depth + 1, fuel);
      LeftAlike(ExecSeq(p, slot, ss, m, depth + 1, fuel, Meant), ExecSeq(p, slot, ss, m', depth + 1, fuel, Ideal),
          |m.vars|);
    case If(c, t, e) =>
      CondAlike(p, slot, c, m, m');
      var x, x' := ExecCond(p, slot, c, m, Meant), ExecCond(p, slot, c, m', Ideal);
      if x.Some? {
        StmtIdeal(p, slot, if x.value.0 then t else e, x.value.1, x'.value.1, depth, fuel);
      }
    case While(_, _) => if fuel > 0 { WhileIdeal(p, slot, s, m, m', depth, fuel); }
    case _ =>
  }

  lemma {:induction false} WhileIdeal(p: Prims, slot: string -> int, s: Stmt, m: Mem, m': Mem, depth: nat, fuel: nat)
    requires s.While? && fuel > 0 && AlikeMem(m, m') && Quiet(p, slot, s, m, depth, fuel)
    ensures Follows(Exec(p, slot, s, m, depth, fuel, Meant), Exec(p, slot, s, m', depth, fuel, Ideal))
    decreases fuel, s, 0
  {
    hide QuietExpr, AlikeMem, ExecCond;
    CondAlike(p, slot, s.cond, m, m');
    var x, x' := ExecCond(p, slot, s.cond, m, Meant), ExecCond(p, slot, s.cond, m', Ideal);
    if x.Some? && x.value.0 {
      StmtIdeal(p, slot, s.loop, x.value.1, x'.value.1, depth, fuel);
      var o, o' := Exec(p, slot, s.loop, x.value.1, depth, fuel, Meant),
          Exec(p, slot, s.loop, x'.value.1, depth, fuel, Ideal);
      if o.Normal? || o.Continued? { StmtIdeal(p, slot, s, o.m, o'.m, depth, fuel - 1); }
    }
  }

  lemma {:induction false} SeqIdeal(p: Prims, slot: string -> int, ss: seq<Stmt>, m: Mem, m': Mem, depth: nat,
        fuel: nat)
    requires AlikeMem(m, m') && QuietSeq(p, slot, ss, m, depth, fuel)
    ensures Follows(ExecSeq(p, slot, ss, m, depth, fuel, Meant), ExecSeq(p, slot, ss, m', depth, fuel, Ideal))
    decreases fuel, ss, 0
  {
    hide Quiet, Exec, AlikeMem;
    if ss != [] {
      StmtIdeal(p, slot, ss[0], m, m', depth, fuel);
      var o, o' := Exec(p, slot, ss[0], m, depth, fuel, Meant), Exec(p, slot, ss[0], m', depth, fuel, Ideal);
      if o.Normal? { SeqIdeal(p, slot, ss[1..], o.m, o'.m, depth, fuel); }
    }
  }
}
