/** Strings as a program sees them. OP_ADD may append to its left operand's own object, so every other
    register, variable or global that refers to the object sees it change: here is exactly when, for one
    dispatch, for the code of an expression, and against a meaning in which strings never change. */
module Aliasing {
  import opened Values
  import opened Machine
  import opened Codegen
  import opened ExpressionProof

  // ---------------------------------------------------------------- what is seen

  /** A reference refers to an object. */
  predicate Refers(h: Heap, v: Value) { v.Str? ==> v.id < |h| }

  /** A value looks the same in two heaps. */
  predicate Unchanged(h: Heap, h': Heap, v: Value) { v.Str? ==> Chars(h, v.id) == Chars(h', v.id) }

  ghost predicate BankRefers(h: Heap, m: Bank) { forall r :: Refers(h, Get(m, r)) }

  /** No dangling references: what every run keeps. */
  ghost predicate Valid(s: State) { BankRefers(s.heap, s.regs) && BankRefers(s.heap, s.globals) }

  /** Objects stay, and only grow at their ends. */
  ghost predicate Grown(h: Heap, h': Heap) {
    |h| <= |h'| && forall k :: 0 <= k < |h| ==>
      h[k].chars <= h'[k].chars && h[k].interned == h'[k].interned && h[k].capacity == h'[k].capacity
  }

  lemma GrownTrans(h: Heap, h': Heap, h'': Heap)
    requires Grown(h, h') && Grown(h', h'')
    ensures Grown(h, h'')
  {
    forall k | 0 <= k < |h|
      ensures h[k].chars <= h''[k].chars && h[k].interned == h''[k].interned && h[k].capacity == h''[k].capacity
    {
      assert h[k].chars <= h'[k].chars && h'[k].chars <= h''[k].chars;
    }
  }

  /** The object an addition writes to, if it writes to one. */
  function Written(h: Heap, x: Value, y: Value): set<nat> {
    if x.Str? && y.Str? &&
       var a, b := ObjAt(h, x.id), ObjAt(h, y.id);
       Extends(a.interned, |a.chars|, a.capacity, |b.chars|)
    then {x.id} else {}
  }

  /** From h to h', exactly the objects of w changed. */
  ghost predicate Writes(h: Heap, h': Heap, w: set<nat>) {
    Grown(h, h') && forall k :: 0 <= k < |h| ==> (h'[k].chars == h[k].chars <==> k !in w)
  }

  lemma WritesThen(h: Heap, h': Heap, h'': Heap, w: set<nat>, w': set<nat>)
    requires Writes(h, h', w) && Writes(h', h'', w')
    ensures Writes(h, h'', w + w')
  {
    GrownTrans(h, h', h'');
    forall k | 0 <= k < |h| ensures h''[k].chars == h[k].chars <==> k !in w + w' {
      assert h[k].chars <= h'[k].chars && h'[k].chars <= h''[k].chars;
      assert h''[k].chars == h[k].chars ==> |h''[k].chars| == |h'[k].chars|;
    }
  }

  /** Whatever the operands, an operation changes exactly the object it writes to, and refers to
      an object that was there or is new. */
  lemma ArithWrites(p: Prims, h: Heap, op: ArithOp, x: Value, y: Value)
    requires Refers(h, x) && Refers(h, y)
    ensures var r := ArithValues(p, h, op, x, y);
            Writes(h, r.h, if op.Add? then Written(h, x, y) else {}) && Refers(r.h, r.v) &&
            (r.v.Str? ==> r.v == x || r.v == y || r.v.id >= |h|)
  {
    if op.Add? && x.Str? && y.Str? {
      var a, b := h[x.id], h[y.id];
      assert a.chars + b.chars == a.chars ==> |b.chars| == 0;
    }
  }

  /** What an addition of two strings yields. */
  lemma AddedText(p: Prims, h: Heap, x: Value, y: Value)
    requires x.Str? && y.Str? && Refers(h, x) && Refers(h, y)
    ensures var r := ArithValues(p, h, Add, x, y); r.v.Str? && Chars(r.h, r.v.id) == Chars(h, x.id) + Chars(h, y.id)
  {
    var a, b := Chars(h, x.id), Chars(h, y.id);
    if a == "" { assert a + b == b; }
    if b == "" { assert a + b == a; }
  }

  // ---------------------------------------------------------------- one dispatch

  /** The object the next dispatch writes to. */
  function WrittenNext(p: Program, s: State): set<nat>
    requires Step(p, s).Some?
  {
    var i := p.code[s.pc];
    if i.Arith? && i.op.Add? then Written(s.heap, Get(s.regs, i.b), Get(s.regs, i.c)) else {}
  }

  /** Every dispatch keeps references good and changes exactly that object. */
  lemma StepWrites(p: Program, s: State)
    requires Valid(s) && Step(p, s).Some?
    ensures var t := Step(p, s).value; Valid(t) && Writes(s.heap, t.heap, WrittenNext(p, s))
  {
    hide ArithValues, Written, FusedTest, Show;
    var i := p.code[s.pc];
    var t := Step(p, s).value;
    if i.Arith? {
      ArithWrites(p.prims, s.heap, i.op, Get(s.regs, i.b), Get(s.regs, i.c));
    }
    assert |s.heap| <= |t.heap|;
    forall r ensures Refers(t.heap, Get(t.regs, r)) {
      assert Refers(s.heap, Get(s.regs, r));
      if i.Move? { assert Refers(s.heap, Get(s.regs, i.b)); }
      if i.GetGlobal? { assert Refers(s.heap, Get(s.globals, i.g)); }
    }
    forall r ensures Refers(t.heap, Get(t.globals, r)) {
      assert Refers(s.heap, Get(s.globals, r));
      if i.SetGlobal? { assert Refers(s.heap, Get(s.regs, i.a)); }
    }
  }

  lemma {:induction false} RunKeepsValid(p: Program, s: State, n: nat, t: State)
    requires Valid(s) && Run(p, s, n) == Some(t)
    ensures Valid(t) && Grown(s.heap, t.heap)
    decreases n
  {
    if n > 0 {
      StepWrites(p, s);
      var u := Step(p, s).value;
      RunKeepsValid(p, u, n - 1, t);
      GrownTrans(s.heap, u.heap, t.heap);
    }
  }

  /** Another register or a global refers to the object. */
  ghost predicate Shared(s: State, a: int, id: nat) {
    (exists r :: r != a && Get(s.regs, r) == Str(id)) || exists g :: Get(s.globals, g) == Str(id)
  }

  /** Everything but register a looks as before. */
  ghost predicate OthersKept(s: State, t: State, a: int) {
    (forall r :: r != a ==> Get(t.regs, r) == Get(s.regs, r) && Unchanged(s.heap, t.heap, Get(s.regs, r))) &&
    forall g :: Get(t.globals, g) == Get(s.globals, g) && Unchanged(s.heap, t.heap, Get(s.globals, g))
  }

  /** `R[a] = R[b] + R[c]` for any operands: nothing else is seen to change, exactly when the left operand
      is not a string that is extended in place or nothing else refers to it. */
  lemma AppendExact(p: Program, s: State, a: int, b: int, c: int) returns (t: State)
    requires Valid(s) && At(p.code, s.pc, [Arith(Add, a, b, c)])
    ensures Step(p, s) == Some(t)
    ensures var x, y := Get(s.regs, b), Get(s.regs, c);
            OthersKept(s, t, a) <==>
              !x.Str? || !y.Str? || !Shared(s, a, x.id) ||
              var l, r := s.heap[x.id], s.heap[y.id];
              l.interned || l.chars == "" || r.chars == "" || l.capacity < |l.chars| + |r.chars| + 1
  {
    InstrAt(p, s, s.pc, Arith(Add, a, b, c));
    t := Step(p, s).value;
    StepWrites(p, s);
    var x, y := Get(s.regs, b), Get(s.regs, c);
    assert Refers(s.heap, x) && Refers(s.heap, y);
    var w := Written(s.heap, x, y);
    forall v: Value | Refers(s.heap, v) ensures Unchanged(s.heap, t.heap, v) <==> !v.Str? || v.id !in w {
    }
    if w != {} && Shared(s, a, x.id) {
      if r :| r != a && Get(s.regs, r) == Str(x.id) {
        assert !Unchanged(s.heap, t.heap, Get(s.regs, r));
      } else {
        var g :| Get(s.globals, g) == Str(x.id);
        assert !Unchanged(s.heap, t.heap, Get(s.globals, g));
      }
    }
    forall r | r != a ensures Get(t.regs, r) == Get(s.regs, r) &&
        (w == {} || !Shared(s, a, x.id) ==> Unchanged(s.heap, t.heap, Get(s.regs, r))) {
      assert Refers(s.heap, Get(s.regs, r));
    }
    forall g ensures w == {} || !Shared(s, a, x.id) ==> Unchanged(s.heap, t.heap, Get(s.globals, g)) {
      assert Refers(s.heap, Get(s.globals, g));
    }
  }

  // ---------------------------------------------------------------- expressions

  predicate IsAdd(op: BinOp) { op.BAdd? }

  /** The objects evaluating an expression writes to. */
  function Touched(p: Prims, e: Expr, env: Env): set<nat> {
    match e
    case Un(_, e1) => Touched(p, e1, env)
    case Bin(op, l, r) =>
      var a := Eval(p, l, env);
      var b := Eval(p, r, After(env, a));
      Touched(p, l, env) + Touched(p, r, After(env, a)) + (if IsAdd(op) then Written(b.h, a.v, b.v) else {})
    case PowE(l, r) => Touched(p, l, env) + Touched(p, r, After(env, Eval(p, l, env)))
    case And(l, r) =>
      var a := Eval(p, l, env);
      Touched(p, l, env) + (if Truthy(a.v) then Touched(p, r, After(env, a)) else {})
    case Or(l, r) =>
      var a := Eval(p, l, env);
      Touched(p, l, env) + (if Truthy(a.v) then {} else Touched(p, r, After(env, a)))
    case Cond(c, t, f) =>
      var a := Eval(p, c, env);
      Touched(p, c, env) + (if Truthy(a.v) then Touched(p, t, After(env, a)) else Touched(p, f, After(env, a)))
    case Group(e1) => Touched(p, e1, env)
    case Assign(_, e1) => Touched(p, e1, env)
    case _ => {}
  }

  /** The variables an expression reads. */
  function Vars(e: Expr): set<string> {
    match e
    case Var(x) => {x}
    case Un(_, e1) => Vars(e1)
    case Bin(_, l, r) => Vars(l) + Vars(r)
    case PowE(l, r) => Vars(l) + Vars(r)
    case And(l, r) => Vars(l) + Vars(r)
    case Or(l, r) => Vars(l) + Vars(r)
    case Cond(c, t, f) => Vars(c) + Vars(t) + Vars(f)
    case Group(e1) => Vars(e1)
    case Assign(_, e1) => Vars(e1)
    case _ => {}
  }

  /** The objects its variables hold. */
  function Held(e: Expr, env: Env): set<nat> {
    set x | x in Vars(e) && env.vars(x).Str? :: env.vars(x).id
  }

  ghost predicate EnvRefers(e: Expr, env: Env) {
    forall x :: x in Vars(e) ==> Refers(env.heap, env.vars(x))
  }

  /** All that is known of evaluating e: what changes, and where the result and the writes come from. */
  ghost predicate Accounted(e: Expr, env: Env, r: Res, w: set<nat>) {
    Writes(env.heap, r.h, w) && Refers(r.h, r.v) && (r.v.Str? ==> r.v.id in Held(e, env) || r.v.id >= |env.heap|) &&
    forall k :: k in w ==> k < |r.h| && (k in Held(e, env) || k >= |env.heap|)
  }

  lemma Wider(e: Expr, l: Expr, env: Env, a: Res, w: set<nat>)
    requires Vars(l) <= Vars(e) && Accounted(l, env, a, w)
    ensures Accounted(e, env, a, w)
  {
    forall k | k in Held(l, env) ensures k in Held(e, env) {
      var x :| x in Vars(l) && env.vars(x).Str? && env.vars(x).id == k;
      assert x in Vars(e);
    }
  }

  /** Where a value met on the way may come from. */
  ghost predicate Reachable(e: Expr, env: Env, v: Value) {
    v.Str? ==> v.id in Held(e, env) || v.id >= |env.heap|
  }

  /** One operand after another. */
  lemma InTurn(e: Expr, l: Expr, r: Expr, env: Env, a: Res, wl: set<nat>, b: Res, wr: set<nat>)
    requires Vars(l) <= Vars(e) && Vars(r) <= Vars(e) && Accounted(l, env, a, wl) && Accounted(r, After(env, a), b, wr)
    ensures Accounted(e, env, b, wl + wr) && Refers(b.h, a.v) && Reachable(e, env, a.v)
  {
    Wider(e, l, env, a, wl);
    Wider(e, r, After(env, a), b, wr);
    assert Held(e, After(env, a)) == Held(e, env);
    WritesThen(env.heap, a.h, b.h, wl, wr);
  }

  lemma RefersLater(e: Expr, env: Env, a: Res, w: set<nat>, r: Expr)
    requires EnvRefers(e, env) && Accounted(e, env, a, w) && Vars(r) <= Vars(e)
    ensures EnvRefers(r, After(env, a))
  {
    forall x | x in Vars(r) ensures Refers(a.h, env.vars(x)) { assert Refers(env.heap, env.vars(x)); }
  }

  lemma WrittenOld(h: Heap, x: Value, y: Value)
    requires Refers(h, x)
    ensures forall k :: k in Written(h, x, y) ==> x == Str(k) && k < |h|
  {
  }

  lemma WritesNotLess(h: Heap, h': Heap, w: set<nat>)
    requires Writes(h, h', w)
    ensures |h| <= |h'|
  {
  }

  /** The operation after its operands. */
  lemma Operated(p: Prims, e: Expr, env: Env, b: Res, w: set<nat>, op: ArithOp, x: Value, y: Value)
    requires Accounted(e, env, b, w)
    requires Refers(b.h, x) && Refers(b.h, y) && Reachable(e, env, x) && Reachable(e, env, y)
    ensures Accounted(e, env, ArithValues(p, b.h, op, x, y), w + (if op.Add? then Written(b.h, x, y) else {}))
  {
    hide ArithValues, Written, Held, Grown;
    ArithWrites(p, b.h, op, x, y);
    var r := ArithValues(p, b.h, op, x, y);
    var w' := if op.Add? then Written(b.h, x, y) else {};
    WrittenOld(b.h, x, y);
    WritesThen(env.heap, b.h, r.h, w, w');
    WritesNotLess(env.heap, b.h, w);
    WritesNotLess(b.h, r.h, w');
  }

  lemma OperatedBin(p: Prims, e: Expr, env: Env, b: Res, w: set<nat>, x: Value)
    requires e.Bin? && Accounted(e, env, b, w) && Refers(b.h, x) && Reachable(e, env, x)
    ensures Accounted(e, env, BinValue(p, e.bop, x, b), w + (if IsAdd(e.bop) then Written(b.h, x, b.v) else {}))
  {
    hide ArithValues, Accounted, Written;
    assert Refers(b.h, b.v) && Reachable(e, env, b.v) by { AccountedMeans(e, env, b, w); }
    match e.bop
    case BAdd => Operated(p, e, env, b, w, Add, x, b.v);
    case BSub => Operated(p, e, env, b, w, Sub, x, b.v);
    case BMul => Operated(p, e, env, b, w, Mul, x, b.v);
    case BDiv => Operated(p, e, env, b, w, Div, x, b.v);
    case BMod => Operated(p, e, env, b, w, Mod, x, b.v);
    case BIDiv => Operated(p, e, env, b, w, IDiv, x, b.v);
    case BEq => Operated(p, e, env, b, w, Eq, x, b.v);
    case BNe => Operated(p, e, env, b, w, Eq, x, b.v); Negated(e, env, ArithValues(p, b.h, Eq, x, b.v), w + {}, p, Not);
    case BLt => Operated(p, e, env, b, w, Lt, x, b.v);
    case BLe => Operated(p, e, env, b, w, Le, x, b.v);
    case BGt => Operated(p, e, env, b, w, Lt, b.v, x);
    case BGe => Operated(p, e, env, b, w, Le, b.v, x);
    case BShl => Operated(p, e, env, b, w, Shl, x, b.v);
    case BShr => Operated(p, e, env, b, w, Shr, x, b.v);
    case BBitAnd => Operated(p, e, env, b, w, BAnd, x, b.v);
    case BBitOr => Operated(p, e, env, b, w, BOr, x, b.v);
    case BBitXor => Operated(p, e, env, b, w, BXor, x, b.v);
  }

  lemma AccountedMeans(e: Expr, env: Env, r: Res, w: set<nat>)
    requires Accounted(e, env, r, w)
    ensures Refers(r.h, r.v) && Reachable(e, env, r.v)
  {
  }

  lemma Negated(e: Expr, env: Env, a: Res, w: set<nat>, p: Prims, u: UnOp)
    requires Accounted(e, env, a, w)
    ensures Accounted(e, env, UnaryRes(p, u, a), w)
  {
  }

  /** Evaluating an expression leaves references good and changes exactly the objects it touches. */
  lemma {:induction false} TouchedExact(p: Prims, e: Expr, env: Env)
    requires EnvRefers(e, env)
    ensures Accounted(e, env, Eval(p, e, env), Touched(p, e, env))
    decreases e, 1
  {
    hide Accounted, ArithValues, Written, Refers;
    match e
    case Un(u, e1) =>
      TouchedExact(p, e1, env);
      Wider(e, e1, env, Eval(p, e1, env), Touched(p, e1, env));
      Negated(e, env, Eval(p, e1, env), Touched(p, e1, env), p, u);
    case Bin(op, l, r) =>
      TouchedPair(p, e, l, r, env);
      var a := Eval(p, l, env);
      OperatedBin(p, e, env, Eval(p, r, After(env, a)), Touched(p, l, env) + Touched(p, r, After(env, a)), a.v);
    case PowE(l, r) =>
      TouchedPair(p, e, l, r, env);
      var a := Eval(p, l, env);
      var b := Eval(p, r, After(env, a));
      var w := Touched(p, l, env) + Touched(p, r, After(env, a));
      AccountedMeans(e, env, b, w);
      Operated(p, e, env, b, w, Pow, a.v, b.v);
      assert w + {} == w;
    case And(l, r) => TouchedBranch(p, e, l, r, env, Truthy(Eval(p, l, env).v));
    case Or(l, r) => TouchedBranch(p, e, l, r, env, !Truthy(Eval(p, l, env).v));
    case Cond(c, t, f) => TouchedBranch(p, e, c, if Truthy(Eval(p, c, env).v) then t else f, env, true);
    case Group(e1) =>
      TouchedExact(p, e1, env);
      Wider(e, e1, env, Eval(p, e1, env), Touched(p, e1, env));
    case Assign(_, e1) =>
      TouchedExact(p, e1, env);
      Wider(e, e1, env, Eval(p, e1, env), Touched(p, e1, env));
    case _ => AtomAccounted(p, e, env);
  }

  lemma AtomAccounted(p: Prims, e: Expr, env: Env)
    requires EnvRefers(e, env) && (e.Lit? || e.StrLit? || e.True? || e.False? || e.NilLit? || e.Var?)
    ensures Accounted(e, env, Eval(p, e, env), {})
  {
    if e.Var? {
      assert e.name in Vars(e) && Refers(env.heap, env.vars(e.name));
      assert env.vars(e.name).Str? ==> env.vars(e.name).id in Held(e, env);
    }
  }

  lemma {:induction false} TouchedPair(p: Prims, e: Expr, l: Expr, r: Expr, env: Env)
    requires EnvRefers(e, env) && Vars(l) <= Vars(e) && Vars(r) <= Vars(e) && l < e && r < e
    ensures var a := Eval(p, l, env);
            var b := Eval(p, r, After(env, a));
            Accounted(l, env, a, Touched(p, l, env)) && EnvRefers(r, After(env, a)) &&
            Accounted(r, After(env, a), b, Touched(p, r, After(env, a))) &&
            Accounted(e, env, b, Touched(p, l, env) + Touched(p, r, After(env, a))) && Refers(b.h, a.v) &&
            Reachable(e, env, a.v)
    decreases e, 0, 0
  {
    hide Accounted, Refers, Eval, Touched;
    var a := Eval(p, l, env);
    TouchedExact(p, l, env);
    Wider(e, l, env, a, Touched(p, l, env));
    RefersLater(e, env, a, Touched(p, l, env), r);
    TouchedExact(p, r, After(env, a));
    InTurn(e, l, r, env, a, Touched(p, l, env), Eval(p, r, After(env, a)), Touched(p, r, After(env, a)));
  }

  /** A first operand, and a second one only if it is needed. */
  lemma {:induction false} TouchedBranch(p: Prims, e: Expr, l: Expr, r: Expr, env: Env, goes: bool)
    requires EnvRefers(e, env) && Vars(l) <= Vars(e) && Vars(r) <= Vars(e) && l < e && r < e
    ensures var a := Eval(p, l, env);
            Accounted(e, env, if goes then Eval(p, r, After(env, a))
                else a, Touched(p, l, env) + if goes then Touched(p, r, After(env, a)) else {})
    decreases e, 0, 1
  {
    hide Accounted, Refers, Eval, Touched;
    if goes {
      TouchedPair(p, e, l, r, env);
    } else {
      TouchedExact(p, l, env);
      Wider(e, l, env, Eval(p, l, env), Touched(p, l, env));
      assert Touched(p, l, env) + {} == Touched(p, l, env);
    }
  }

  lemma EnvOfState(s: State, sc: Scope, env: Env, e: Expr)
    requires Valid(s) && Reads(sc, s.regs, s.globals, env) && s.heap == env.heap
    ensures EnvRefers(e, env)
  {
    forall x | x in Vars(e) ensures Refers(env.heap, env.vars(x)) {
      assert env.vars(x) == ReadVar(sc, s.regs, s.globals, x);
      assert Refers(s.heap, Get(s.regs, Resolve(sc.locals, x))) && Refers(s.heap, Get(s.globals, sc.slot(x)));
    }
  }

  /** A value refers to none of the objects. */
  predicate Apart(v: Value, w: set<nat>) { v.Str? ==> v.id !in w }

  lemma SeenExact(h: Heap, h': Heap, w: set<nat>, v: Value)
    requires Writes(h, h', w) && Refers(h, v)
    ensures Unchanged(h, h', v) <==> Apart(v, w)
  {
  }

  /** Running an expression's code: a local, an older temporary or a global looks as before, exactly when
      it refers to none of the objects the expression touches. */
  lemma ExpressionSeen(p: Program, s: State, e: Expr, dest: int, inf: bool, next: int,
      pool: seq<Const>, sc: Scope, env: Env, at: int) returns (n: nat, t: State)
    requires Safe(e) && Valid(s)
    requires var o := Compile(e, dest, inf, next, pool, sc); Ready(p, s, sc, env, o.code, o.pool, at, dest, next)
    ensures var o := Compile(e, dest, inf, next, pool, sc);
            Ends(p, s, n, t, at + |o.code|, o.reg, Eval(p.prims, e, env), dest, next) && Valid(t)
    ensures forall r :: 0 <= r < next && r != dest ==>
              var v := Get(s.regs, r);
              Get(t.regs, r) == v && (Unchanged(s.heap, t.heap, v) <==> Apart(v, Touched(p.prims, e, env)))
    ensures forall g ::
              var v := Get(s.globals, g);
              Get(t.globals, g) == v && (Unchanged(s.heap, t.heap, v) <==> Apart(v, Touched(p.prims, e, env)))
  {
    hide Compile, Eval, Run, Step, At, Layout, Touched, Reads, Unchanged, Apart, Writes;
    n, t := ExpressionCorrect(p, s, e, dest, inf, next, pool, sc, env, at);
    RunKeepsValid(p, s, n, t);
    EnvOfState(s, sc, env, e);
    TouchedExact(p.prims, e, env);
    var w := Touched(p.prims, e, env);
    forall r | 0 <= r < next && r != dest ensures Unchanged(s.heap, t.heap, Get(s.regs, r)) <==>
          Apart(Get(s.regs, r), w) {
      SeenExact(s.heap, t.heap, w, Get(s.regs, r));
    }
    forall g ensures Unchanged(s.heap, t.heap, Get(s.globals, g)) <==> Apart(Get(s.globals, g), w) {
      SeenExact(s.heap, t.heap, w, Get(s.globals, g));
    }
  }

  // ---------------------------------------------------------------- strings that never change

  /** A string with no room for one more character, or that nobody may extend. */
  predicate Full(o: StringObj) { o.interned || o.chars == "" || o.capacity < |o.chars| + 2 }

  /** Only what was made on the way is touched. */
  predicate Fresh(env: Env, w: set<nat>) { forall k :: k in w ==> k >= |env.heap| }

  ghost predicate AllFull(e: Expr, env: Env) {
    EnvRefers(e, env) && forall k :: k in Held(e, env) ==> Full(ObjAt(env.heap, k))
  }

  lemma FreshKeeps(e: Expr, env: Env, r: Res, w: set<nat>)
    requires Accounted(e, env, r, w) && Fresh(env, w)
    ensures env.heap <= r.h
  {
    forall k | 0 <= k < |env.heap| ensures r.h[k] == env.heap[k] { assert k !in w; }
  }

  lemma FullLater(e: Expr, env: Env, h: Heap, r: Expr)
    requires AllFull(e, env) && env.heap <= h && Vars(r) <= Vars(e)
    ensures AllFull(r, env.(heap := h))
  {
    forall x | x in Vars(r) ensures Refers(h, env.vars(x)) { assert Refers(env.heap, env.vars(x)); }
    forall k | k in Held(r, env.(heap := h)) ensures Full(ObjAt(h, k)) {
      var x :| x in Vars(r) && env.vars(x).Str? && env.vars(x).id == k;
      assert k in Held(e, env) && Refers(env.heap, env.vars(x));
    }
  }

  /** A guard that can be checked before the evaluation: if no variable of the expression holds a string
      with room to grow, no object that was there changes at all. */
  lemma {:induction false} FullUntouched(p: Prims, e: Expr, env: Env)
    requires AllFull(e, env)
    ensures Fresh(env, Touched(p, e, env)) && env.heap <= Eval(p, e, env).h
    decreases e, 1
  {
    hide Full, Written, ArithValues, Accounted, AllFull, Held, Fresh;
    assert EnvRefers(e, env) by { AllFullMeans(e, env); }
    TouchedExact(p, e, env);
    match e {
      case Un(_, e1) => FullPart(p, e, e1, env);
      case Bin(op, l, r) =>
        FullPair(p, e, l, r, env);
        var a := Eval(p, l, env);
        NoWrite(e, env, a.v, Eval(p, r, After(env, a)));
        var w := if IsAdd(op) then Written(Eval(p, r, After(env, a)).h, a.v, Eval(p, r, After(env, a)).v) else {};
        FreshUnion(env, Touched(p, l, env) + Touched(p, r, After(env, a)), w);
      case PowE(l, r) => FullPair(p, e, l, r, env);
      case And(l, r) => FullBranch(p, e, l, r, env, Truthy(Eval(p, l, env).v));
      case Or(l, r) => FullBranch(p, e, l, r, env, !Truthy(Eval(p, l, env).v));
      case Cond(c, t, f) => FullBranch(p, e, c, if Truthy(Eval(p, c, env).v) then t else f, env, true);
      case Group(e1) => FullPart(p, e, e1, env);
      case Assign(_, e1) => FullPart(p, e, e1, env);
      case _ => FreshNone(env);
    }
    FreshKeeps(e, env, Eval(p, e, env), Touched(p, e, env));
  }

  lemma AllFullMeans(e: Expr, env: Env)
    requires AllFull(e, env)
    ensures EnvRefers(e, env)
  {
  }

  lemma FreshNone(env: Env)
    ensures Fresh(env, {})
  {
  }

  lemma FreshUnion(env: Env, w: set<nat>, w': set<nat>)
    requires Fresh(env, w) && Fresh(env, w')
    ensures Fresh(env, w + w')
  {
  }

  /** An addition whose left operand is full or new does not write to what was there. */
  lemma NoWrite(e: Expr, env: Env, x: Value, b: Res)
    requires AllFull(e, env) && env.heap <= b.h && Reachable(e, env, x)
    ensures Fresh(env, Written(b.h, x, b.v))
  {
    if x.Str? && x.id < |env.heap| {
      assert ObjAt(b.h, x.id) == ObjAt(env.heap, x.id);
      assert Full(ObjAt(env.heap, x.id));
    }
  }

  lemma {:induction false} FullPart(p: Prims, e: Expr, l: Expr, env: Env)
    requires AllFull(e, env) && Vars(l) <= Vars(e) && l < e
    ensures Fresh(env, Touched(p, l, env)) && env.heap <= Eval(p, l, env).h
    decreases e, 0, 0
  {
    hide Eval, Touched, Fresh, AllFull;
    assert env.(heap := env.heap) == env;
    FullLater(e, env, env.heap, l);
    FullUntouched(p, l, env);
  }

  lemma {:induction false} FullPair(p: Prims, e: Expr, l: Expr, r: Expr, env: Env)
    requires AllFull(e, env) && Vars(l) <= Vars(e) && Vars(r) <= Vars(e) && l < e && r < e
    ensures var a := Eval(p, l, env);
            var b := Eval(p, r, After(env, a));
            Fresh(env, Touched(p, l, env) + Touched(p, r, After(env, a))) && env.heap <= b.h && Reachable(e, env, a.v)
    decreases e, 0, 1
  {
    hide Eval, Touched, AllFull, Accounted, Reachable;
    assert EnvRefers(e, env) by { AllFullMeans(e, env); }
    var a := Eval(p, l, env);
    FullPart(p, e, l, env);
    FullLater(e, env, a.h, r);
    FullUntouched(p, r, After(env, a));
    TouchedPair(p, e, l, r, env);
  }

  lemma {:induction false} FullBranch(p: Prims, e: Expr, l: Expr, r: Expr, env: Env, goes: bool)
    requires AllFull(e, env) && Vars(l) <= Vars(e) && Vars(r) <= Vars(e) && l < e && r < e
    ensures Fresh(env, Touched(p, l, env) + if goes then Touched(p, r, After(env, Eval(p, l, env))) else {})
    decreases e, 0, 2
  {
    hide Eval, Touched, AllFull;
    if goes { FullPair(p, e, l, r, env); } else { FullPart(p, e, l, env); }
  }

  /** Addition as if strings never changed: always a new one. */
  function CopiedAdd(p: Prims, x: Value, b: Res): Res {
    if x.Str? && b.v.Str? then NewString(b.h, Chars(b.h, x.id) + Chars(b.h, b.v.id), true, 0)
        else ArithValues(p, b.h, Add, x, b.v)
  }

  /** The meaning of an expression over strings that are never written to. */
  function Copied(p: Prims, e: Expr, env: Env): Res {
    match e
    case Un(u, e1) => UnaryRes(p, u, Copied(p, e1, env))
    case Bin(op, l, r) =>
      var a := Copied(p, l, env);
      var b := Copied(p, r, After(env, a));
      if IsAdd(op) then CopiedAdd(p, a.v, b) else BinValue(p, op, a.v, b)
    case PowE(l, r) => var a := Copied(p, l, env); PowValue(p, a.v, Copied(p, r, After(env, a)))
    case And(l, r) => var a := Copied(p, l, env); if Truthy(a.v) then Copied(p, r, After(env, a)) else a
    case Or(l, r) => var a := Copied(p, l, env); if Truthy(a.v) then a else Copied(p, r, After(env, a))
    case Cond(c, t, f) =>
      var a := Copied(p, c, env); if Truthy(a.v) then Copied(p, t, After(env, a)) else Copied(p, f, After(env, a))
    case Group(e1) => Copied(p, e1, env)
    case Assign(_, e1) => Copied(p, e1, env)
    case _ => Eval(p, e, env)
  }

  /** Two values a program cannot tell apart. */
  predicate Alike(h: Heap, v: Value, h': Heap, v': Value) {
    Refers(h, v) && Refers(h', v') && if v.Str? then v'.Str? && Chars(h, v.id) == Chars(h', v'.id) else v' == v
  }

  predicate AlikeRes(r: Res, r': Res) { Alike(r.h, r.v, r'.h, r'.v) }

  ghost predicate AlikeEnv(e: Expr, env: Env, env': Env) {
    forall x :: x in Vars(e) ==> Alike(env.heap, env.vars(x), env'.heap, env'.vars(x))
  }

  lemma AlikeRefers(e: Expr, env: Env, env': Env)
    requires AlikeEnv(e, env, env')
    ensures EnvRefers(e, env)
  {
  }

  lemma AlikeArith(p: Prims, op: ArithOp, h: Heap, x: Value, y: Value, h': Heap, x': Value, y': Value)
    requires Alike(h, x, h', x') && Alike(h, y, h', y') && !(op.Add? && x.Str? && y.Str?)
    ensures AlikeRes(ArithValues(p, h, op, x, y), ArithValues(p, h', op, x', y')) &&
            h' <= ArithValues(p, h', op, x', y').h
  {
    if op.Add? {
      assert Show(p, h, x) == Show(p, h', x') && Show(p, h, y) == Show(p, h', y');
    }
  }

  lemma AlikeAdd(p: Prims, x: Value, b: Res, x': Value, b': Res)
    requires Alike(b.h, x, b'.h, x') && AlikeRes(b, b')
    ensures AlikeRes(ArithValues(p, b.h, Add, x, b.v), CopiedAdd(p, x', b')) && b'.h <= CopiedAdd(p, x', b').h
  {
    if x.Str? && b.v.Str? {
      AddedText(p, b.h, x, b.v);
      ArithWrites(p, b.h, Add, x, b.v);
    } else {
      AlikeArith(p, Add, b.h, x, b.v, b'.h, x', b'.v);
    }
  }

  lemma AlikeBin(p: Prims, op: BinOp, x: Value, b: Res, x': Value, b': Res)
    requires Alike(b.h, x, b'.h, x') && AlikeRes(b, b')
    ensures var r := if IsAdd(op) then CopiedAdd(p, x', b') else BinValue(p, op, x', b');
            AlikeRes(BinValue(p, op, x, b), r) && b'.h <= r.h
  {
    hide ArithValues, CopiedAdd, Alike;
    if IsAdd(op) {
      AlikeAdd(p, x, b, x', b');
    } else {
      var o := BinCode(op, 0, 0, 0).op;
      if op.BGt? || op.BGe? {
        AlikeArith(p, o, b.h, b.v, x, b'.h, b'.v, x');
      } else {
        AlikeArith(p, o, b.h, x, b.v, b'.h, x', b'.v);
      }
      if op.BNe? { AlikeUnary(p, Not, ArithValues(p, b.h, Eq, x, b.v), ArithValues(p, b'.h, Eq, x', b'.v)); }
    }
  }

  lemma AlikeUnary(p: Prims, u: UnOp, a: Res, a': Res)
    requires AlikeRes(a, a')
    ensures AlikeRes(UnaryRes(p, u, a), UnaryRes(p, u, a')) && a'.h <= UnaryRes(p, u, a').h
  {
  }

  /** A value that the writes leave alone still looks like its copy. */
  lemma StillAlike(h: Heap, h1: Heap, w: set<nat>, v: Value, k: Heap, k1: Heap, v': Value)
    requires Alike(h, v, k, v') && Writes(h, h1, w) && Apart(v, w) && k <= k1
    ensures Alike(h1, v, k1, v')
  {
    if v.Str? { assert k1[v'.id] == k[v'.id]; }
  }

  /** Variables none of which hold a written object. */
  lemma StillAlikeEnv(e: Expr, env: Env, env': Env, a: Res, a': Res, w: set<nat>, r: Expr)
    requires AlikeEnv(e, env, env') && Writes(env.heap, a.h, w) && w !! Held(e, env) && env'.heap <= a'.h &&
             Vars(r) <= Vars(e)
    ensures AlikeEnv(r, After(env, a), After(env', a'))
    ensures Held(r, After(env, a)) <= Held(e, env)
  {
    forall x | x in Vars(r) ensures Alike(a.h, env.vars(x), a'.h, env'.vars(x)) {
      assert x in Vars(e);
      assert env.vars(x).Str? ==> env.vars(x).id in Held(e, env);
      StillAlike(env.heap, a.h, w, env.vars(x), env'.heap, a'.h, env'.vars(x));
    }
  }

  /** As long as no object held by one of its variables is touched, an expression means what it would
      if every addition of strings made a new one. */
  lemma {:induction false} CopyMeaning(p: Prims, e: Expr, env: Env, env': Env)
    requires AlikeEnv(e, env, env') && Touched(p, e, env) !! Held(e, env)
    ensures AlikeRes(Eval(p, e, env), Copied(p, e, env')) && env'.heap <= Copied(p, e, env').h
    decreases e, 1
  {
    hide Alike, AlikeEnv, Held, ArithValues, CopiedAdd, Written;
    match e
    case Un(u, e1) =>
      CopyPart(p, e, e1, env, env');
      AlikeUnary(p, u, Eval(p, e1, env), Copied(p, e1, env'));
    case Bin(op, l, r) =>
      CopyPair(p, e, l, r, env, env');
      var a, a' := Eval(p, l, env), Copied(p, l, env');
      AlikeBin(p, op, a.v, Eval(p, r, After(env, a)), a'.v, Copied(p, r, After(env', a')));
    case PowE(l, r) =>
      CopyPair(p, e, l, r, env, env');
      var a, a' := Eval(p, l, env), Copied(p, l, env');
      var b, b' := Eval(p, r, After(env, a)), Copied(p, r, After(env', a'));
      AlikeArith(p, Pow, b.h, a.v, b.v, b'.h, a'.v, b'.v);
    case And(l, r) => CopyBranch(p, e, l, r, env, env', Truthy(Eval(p, l, env).v));
    case Or(l, r) => CopyBranch(p, e, l, r, env, env', !Truthy(Eval(p, l, env).v));
    case Cond(c, t, f) => CopyBranch(p, e, c, if Truthy(Eval(p, c, env).v) then t else f, env, env', true);
    case Group(e1) => CopyPart(p, e, e1, env, env');
    case Assign(_, e1) => CopyPart(p, e, e1, env, env');
    case _ => CopyAtom(p, e, env, env');
  }

  lemma CopyAtom(p: Prims, e: Expr, env: Env, env': Env)
    requires AlikeEnv(e, env, env') && (e.Lit? || e.StrLit? || e.True? || e.False? || e.NilLit? || e.Var?)
    ensures AlikeRes(Eval(p, e, env), Copied(p, e, env')) && env'.heap <= Copied(p, e, env').h
  {
    if e.Var? { assert e.name in Vars(e); }
  }

  lemma {:induction false} CopyPart(p: Prims, e: Expr, l: Expr, env: Env, env': Env)
    requires AlikeEnv(e, env, env') && Touched(p, l, env) !! Held(e, env) && Vars(l) <= Vars(e) && l < e
    ensures AlikeRes(Eval(p, l, env), Copied(p, l, env')) && env'.heap <= Copied(p, l, env').h
    ensures Truthy(Eval(p, l, env).v) == Truthy(Copied(p, l, env').v)
    decreases e, 0, 0
  {
    hide Eval, Copied, Touched;
    assert AlikeEnv(l, env, env');
    assert Held(l, env) <= Held(e, env);
    CopyMeaning(p, l, env, env');
  }

  lemma {:induction false} CopyPair(p: Prims, e: Expr, l: Expr, r: Expr, env: Env, env': Env)
    requires AlikeEnv(e, env, env') && Vars(l) <= Vars(e) && Vars(r) <= Vars(e) && l < e && r < e
    requires Touched(p, l, env) + Touched(p, r, After(env, Eval(p, l, env))) !! Held(e, env)
    ensures var a, a' := Eval(p, l, env), Copied(p, l, env');
            var b, b' := Eval(p, r, After(env, a)), Copied(p, r, After(env', a'));
            Truthy(a.v) == Truthy(a'.v) && AlikeRes(b, b') && Alike(b.h, a.v, b'.h, a'.v) && env'.heap <= b'.h
    decreases e, 0, 1
  {
    hide Eval, Copied, Touched, Alike, AlikeEnv, Held, Written, Writes;
    AlikeRefers(e, env, env');
    var a, a' := Eval(p, l, env), Copied(p, l, env');
    CopyPart(p, e, l, env, env');
    TouchedPair(p, e, l, r, env);
    var wl, wr := Touched(p, l, env), Touched(p, r, After(env, a));
    StillAlikeEnv(e, env, env', a, a', wl, r);
    CopyMeaning(p, r, After(env, a), After(env', a'));
    LeftApart(e, l, r, env, a, wl, Eval(p, r, After(env, a)), wr);
    StillAlike(a.h, Eval(p, r, After(env, a)).h, wr, a.v, a'.h, Copied(p, r, After(env', a')).h, a'.v);
  }

  /** The right operand does not write to what the left one yielded. */
  lemma LeftApart(e: Expr, l: Expr, r: Expr, env: Env, a: Res, wl: set<nat>, b: Res, wr: set<nat>)
    requires Accounted(l, env, a, wl) && Accounted(r, After(env, a), b, wr) && EnvRefers(e, env)
    requires Vars(l) <= Vars(e) && Vars(r) <= Vars(e) && wl + wr !! Held(e, env)
    ensures Apart(a.v, wr)
  {
    Wider(e, l, env, a, wl);
    Wider(e, r, After(env, a), b, wr);
    assert Held(e, After(env, a)) == Held(e, env);
  }

  lemma {:induction false} CopyBranch(p: Prims, e: Expr, l: Expr, r: Expr, env: Env, env': Env, goes: bool)
    requires AlikeEnv(e, env, env') && Vars(l) <= Vars(e) && Vars(r) <= Vars(e) && l < e && r < e
    requires Touched(p, l, env) + (if goes then Touched(p, r, After(env, Eval(p, l, env))) else {}) !! Held(e, env)
    ensures var a, a' := Eval(p, l, env), Copied(p, l, env');
            var x := if goes then Eval(p, r, After(env, a)) else a;
            var x' := if goes then Copied(p, r, After(env', a')) else a';
            Truthy(a.v) == Truthy(a'.v) && AlikeRes(x, x') && env'.heap <= x'.h
    decreases e, 0, 2
  {
    hide Eval, Copied, Touched, Alike, AlikeEnv, Held;
    if goes { CopyPair(p, e, l, r, env, env'); } else { CopyPart(p, e, l, env, env'); }
  }

  /** So it does whenever its variables' strings have no room to grow. */
  lemma FullMeaning(p: Prims, e: Expr, env: Env, env': Env)
    requires AllFull(e, env) && AlikeEnv(e, env, env')
    ensures AlikeRes(Eval(p, e, env), Copied(p, e, env'))
  {
    hide Eval, Copied, Touched, Full, Alike;
    FullUntouched(p, e, env);
    forall k | k in Held(e, env) ensures k !in Touched(p, e, env) {
      var x :| x in Vars(e) && env.vars(x).Str? && env.vars(x).id == k;
      assert Refers(env.heap, env.vars(x));
    }
    CopyMeaning(p, e, env, env');
  }

  // ---------------------------------------------------------------- one program for the write

  const S_PLUS_Y := Bin(BAdd, Var("s"), Var("y"))

  /** `s = a + b` with more than 128 characters between them, then `s + y` for a non-empty y no longer
      than s: the sum is s's own object, so s has changed too. Each such s is one example. */
  lemma AppendFails(p: Prims, a: string, b: string, y: string) returns (s: Value, h: Heap, r: Res)
    requires a != "" && b != "" && |a| + |b| > SHORT && 0 < |y| <= |a| + |b|
    ensures var texts := [StringObj(a, true, 0), StringObj(b, true, 0), StringObj(y, true, 0)];
            var made := Eval(p, Bin(BAdd, Var("a"), Var("b")), Env(v => if v == "a" then Str(0) else Str(1), texts));
            s == made.v && h == made.h && s.Str? && Chars(h, s.id) == a + b
    ensures r == Eval(p, S_PLUS_Y, Env(v => if v == "s" then s else Str(2), h)) && r.v == s && s.Str?
    ensures Chars(r.h, s.id) == a + b + y && !Unchanged(h, r.h, s)
  {
    var texts := [StringObj(a, true, 0), StringObj(b, true, 0), StringObj(y, true, 0)];
    var env := Env(v => if v == "a" then Str(0) else Str(1), texts);
    assert Eval(p, Var("a"), env) == Res(Str(0), texts) && Eval(p, Var("b"), env) == Res(Str(1), texts);
    var made := Eval(p, Bin(BAdd, Var("a"), Var("b")), env);
    assert made == AppendStrings(texts, 0, 1) == Concat(texts, 0, 1);
    s, h := made.v, made.h;
    assert s == Str(3) && h[3] == StringObj(a + b, false, Roomy(|a + b| + 1));
    var env2 := Env(v => if v == "s" then s else Str(2), h);
    r := Eval(p, S_PLUS_Y, env2);
    assert Eval(p, Var("s"), env2) == Res(s, h) && Eval(p, Var("y"), env2) == Res(Str(2), h);
    assert r == AppendStrings(h, 3, 2);
    assert |Chars(r.h, 3)| > |Chars(h, 3)|;
  }
}
