/** What the compiler emits for statements: scopes, conditional and loop jumps patched once their
    targets are known, and the fusion of a comparison into the branch that tests it. */
module Statements {
  import opened Values
  import opened Machine
  import opened Codegen
  import opened ExpressionProof

  /** els is Skip, the If of an `elif`, or the Block of an `else`. */
  datatype Stmt =
    | Skip
    | ExprStmt(e: Expr)
    | PrintStmt(e: Expr)
    | VarDecl(name: string, init: Option<Expr>)
    | Block(body: seq<Stmt>)
    | If(cond: Expr, then_: Stmt, els: Stmt)
    | While(cond: Expr, loop: Stmt)
    | Break
    | Continue

  /** Bodies are blocks, and behind an `if` comes nothing, another `if` or a block. */
  predicate Formed(s: Stmt) {
    match s
    case Block(ss) => forall i :: 0 <= i < |ss| ==> Formed(ss[i])
    case If(_, t, e) => t.Block? && Formed(t) && (e.Skip? || e.If? || e.Block?) && Formed(e)
    case While(_, body) => body.Block? && Formed(body)
    case _ => true
  }

  const MAX_REGS := 250
  const MAX_LOCALS := 256
  const MAX_BREAKS := 256
  const MAX_BRANCHES := 256
  const MAX_LOOPS := 16

  /** Compile-time state between statements. */
  datatype Scopes = Scopes(locals: seq<Local>, depth: nat, next: int, pool: seq<Const>)

  /** The enclosing loop: where it starts (-1 outside loops) and how many loops are open. */
  datatype LoopCtx = LoopCtx(start: int, open: nat)

  /** breaks are the offsets of the jumps that wait for the end of the enclosing loop. */
  datatype SOut = SOut(code: seq<Instr>, breaks: seq<int>, st: Scopes, hi: int, err: bool)

  // ---------------------------------------------------------------- conditions

  /** The comparison a branch can absorb, when the code ends in one whose result is a temporary
      and no jump lands behind it. */
  function FusedWith(L: seq<Local>, joined: bool, o: Out): Option<CmpOp> {
    if joined || IsLocal(L, o.reg) || o.code == [] then None
    else
      var i := Last(o.code);
      if i.Arith? && i.a == o.reg && (i.op.Lt? || i.op.Le? || i.op.Eq?) then
        Some(if i.op.Lt? then CLt else if i.op.Le? then CLe else CEq)
      else if i.Unary? && i.uop.Not? && i.a == o.reg && i.b == o.reg && |o.code| >= 2 then
        var c := o.code[|o.code| - 2];
        if c.Arith? && c.op.Eq? && c.a == o.reg then Some(CNe) else None
      else None
  }

  /** A condition's code up to and including the branch; the last word carries the distance. */
  function BranchCode(L: seq<Local>, joined: bool, o: Out, skip: int): seq<Instr> {
    match FusedWith(L, joined, o)
    case None => o.code + [JmpIfNot(o.reg, skip)]
    case Some(CNe) =>
      var c := o.code[|o.code| - 2];
      o.code[..|o.code| - 2] + [CmpJmpIfNot(CNe, c.b, c.c), Jmp(skip)]
    case Some(cmp) => Front(o.code) + [CmpJmpIfNot(cmp, Last(o.code).b, Last(o.code).c), Jmp(skip)]
  }

  // ---------------------------------------------------------------- scopes

  function PopScope(L: seq<Local>, depth: int): seq<Local> {
    if L != [] && L[|L| - 1].depth > depth then PopScope(L[..|L| - 1], depth) else L
  }

  function WindowEnd(L: seq<Local>): int {
    if L == [] then 0 else L[|L| - 1].reg + 1
  }

  /** The name is already declared in the innermost scope. */
  predicate Redeclared(L: seq<Local>, depth: int, name: string) {
    L != [] && L[|L| - 1].depth >= depth && (L[|L| - 1].name == name || Redeclared(L[..|L| - 1], depth, name))
  }

  // ---------------------------------------------------------------- statements

  /** Every waiting jump gets the distance to target. */
  function PatchAll(code: seq<Instr>, base: int, holes: seq<int>, target: int): (r: seq<Instr>)
    ensures |r| == |code|
    decreases |holes|
  {
    if holes == [] then code
    else
      var h := holes[0];
      var code' := if 0 <= h - base < |code| then code[h - base := Jmp(target - (h + 1))] else code;
      PatchAll(code', base, holes[1..], target)
  }

  ghost predicate Within(breaks: seq<int>, lo: int, hi: int) {
    forall h :: h in breaks ==> lo <= h < hi
  }

  lemma {:induction false} PatchAt(code: seq<Instr>, base: int, holes: seq<int>, target: int, i: int)
    requires 0 <= i < |code| && Within(holes, base, base + |code|)
    ensures PatchAll(code, base, holes, target)[i] == if base + i in holes then Jmp(target - (base + i + 1))
            else code[i]
    decreases |holes|
  {
    if holes != [] {
      var h := holes[0];
      assert h in holes && forall g :: g in holes[1..] ==> g in holes;
      assert forall g :: g in holes ==> g == h || g in holes[1..];
      var code' := code[h - base := Jmp(target - (h + 1))];
      PatchAt(code', base, holes[1..], target, i);
    }
  }

  function Branchings(s: Stmt): nat { if s.If? then 1 + Branchings(s.els) else 0 }

  function ScopeOf(st: Scopes, slot: string -> int): Scope { Scope(st.locals, slot) }

  /** The state after a condition: its register is free again. */
  function AfterCond(c: Expr, st: Scopes, slot: string -> int): Scopes {
    var o := Compile(c, -1, false, st.next, st.pool, ScopeOf(st, slot));
    st.(next := Free(st.locals, o.next, o.reg), pool := o.pool)
  }

  function CondCode(c: Expr, st: Scopes, slot: string -> int, skip: int): seq<Instr> {
    BranchCode(st.locals, IsJoin(c), Compile(c, -1, false, st.next, st.pool, ScopeOf(st, slot)), skip)
  }

  function CondHi(c: Expr, st: Scopes, slot: string -> int): int {
    Compile(c, -1, false, st.next, st.pool, ScopeOf(st, slot)).hi
  }

  function CompileStmt(s: Stmt, at: int, lp: LoopCtx, st: Scopes, slot: string -> int): (o: SOut)
    decreases s, 1
  {
    var L := st.locals;
    match s
    case Skip => SOut([], [], st, st.next, false)
    case ExprStmt(e) =>
      var o := Compile(e, -1, false, st.next, st.pool, ScopeOf(st, slot));
      SOut(o.code, [], st.(pool := o.pool), o.hi, o.hi > MAX_REGS)
    case PrintStmt(e) =>
      var o := Compile(e, -1, false, st.next, st.pool, ScopeOf(st, slot));
      SOut(o.code + [Print(o.reg)], [], st.(next := Free(L, o.next, o.reg), pool := o.pool), o.hi, o.hi > MAX_REGS)
    case VarDecl(x, init) => CompileVar(x, init, st, slot)
    case Block(ss) =>
      var o := CompileSeq(ss, at, lp, st.(depth := st.depth + 1), slot);
      var L' := PopScope(o.st.locals, st.depth);
      o.(st := Scopes(L', st.depth, WindowEnd(L'), o.st.pool))
    case If(c, t, e) =>
      var size := |CondCode(c, st, slot, 0)|;
      var a := CompileStmt(t, at + size, lp, AfterCond(c, st, slot), slot);
      var b := CompileStmt(e, at + size + |a.code| + 1, lp, a.st, slot);
      var hi := CondHi(c, st, slot);
      SOut(CondCode(c, st, slot, |a.code| + 1) + (a.code + ([Jmp(|b.code|)] + b.code)),
           a.breaks + b.breaks, b.st, Max(hi, Max(a.hi, b.hi)),
           hi > MAX_REGS || a.err || b.err || Branchings(s) > MAX_BRANCHES)
    case While(c, body) =>
      var size := |CondCode(c, st, slot, 0)|;
      var a := CompileStmt(body, at + size, LoopCtx(at, lp.open + 1), AfterCond(c, st, slot), slot);
      var code := CondCode(c, st, slot, |a.code| + 1) + (a.code + [Jmp(-(size + |a.code| + 1))]);
      var hi := CondHi(c, st, slot);
      SOut(PatchAll(code, at, a.breaks, at + |code|), [], a.st, Max(hi, a.hi),
           hi > MAX_REGS || a.err || lp.open >= MAX_LOOPS || |a.breaks| > MAX_BREAKS)
    case Break => SOut([Jmp(0)], [at], st, st.next, lp.start < 0)
    case Continue => SOut([Jmp(lp.start - (at + 1))], [], st, st.next, lp.start < 0)
  }

  function CompileSeq(ss: seq<Stmt>, at: int, lp: LoopCtx, st: Scopes, slot: string -> int): (o: SOut)
    decreases ss, 0
  {
    if ss == [] then SOut([], [], st, st.next, false)
    else
      var a := CompileStmt(ss[0], at, lp, st, slot);
      var b := CompileSeq(ss[1..], at + |a.code|, lp, a.st, slot);
      SOut(a.code + b.code, a.breaks + b.breaks, b.st, Max(a.hi, b.hi), a.err || b.err)
  }

  /** Inside a scope a variable gets the next register, and its name only after its initializer;
      at script level it is a global. */
  function CompileVar(x: string, init: Option<Expr>, st: Scopes, slot: string -> int): (o: SOut) {
    var L := st.locals;
    var reg := st.next;
    if st.depth > 0 then
      var o := if init.Some? then Compile(init.value, reg, false, reg + 1, st.pool, ScopeOf(st, slot))
               else Out([LoadNil(reg)], reg, reg + 1, reg + 1, st.pool);
      SOut(o.code, [], Scopes(L + [Local(x, st.depth, reg)], st.depth, o.next, o.pool), o.hi,
           o.hi > MAX_REGS || Redeclared(L, st.depth, x) || |L| >= MAX_LOCALS)
    else if init.Some? then
      var o := Compile(init.value, reg, false, reg + 1, st.pool, ScopeOf(st, slot));
      SOut(o.code + [SetGlobal(reg, slot(x))], [], st.(next := Free(L, o.next, reg), pool := o.pool), o.hi,
          o.hi > MAX_REGS)
    else SOut([], [], st, st.next, false)
  }
}
