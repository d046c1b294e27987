/** What the single-pass compiler emits for an expression: register choice, destination passing,
    patched jumps and the immediate-operand peephole. */
module Codegen {
  import opened Values
  import opened Machine

  datatype BinOp =
    | BAdd | BSub | BMul | BDiv | BMod | BIDiv
    | BEq | BNe | BLt | BLe | BGt | BGe
    | BShl | BShr | BBitAnd | BBitOr | BBitXor

  datatype Expr =
    | Lit(n: int)
    | StrLit(s: string)
    | True | False | NilLit
    | Var(name: string)
    | Un(uop: UnOp, e: Expr)
    | Bin(bop: BinOp, l: Expr, r: Expr)
    | PowE(l: Expr, r: Expr)
    | And(l: Expr, r: Expr)
    | Or(l: Expr, r: Expr)
    | Cond(c: Expr, t: Expr, f: Expr)
    | Group(e: Expr)
    | Assign(name: string, e: Expr)

  // ---------------------------------------------------------------- scopes

  datatype Local = Local(name: string, depth: int, reg: int)

  /** Registers owned by named locals. */
  predicate IsLocal(L: seq<Local>, reg: int) {
    exists i :: 0 <= i < |L| && L[i].reg == reg
  }

  /** The innermost declaration of a name, or -1. */
  function Resolve(L: seq<Local>, name: string): (r: int)
    ensures r == -1 || IsLocal(L, r)
  {
    if L == [] then -1
    else if L[|L| - 1].name == name then assert L[|L| - 1].reg == L[|L| - 1].reg; L[|L| - 1].reg
    else var r := Resolve(L[..|L| - 1], name); r
  }

  /** What stays fixed while one expression is compiled: the locals in scope and the slot each
      global name has in the global table. */
  datatype Scope = Scope(locals: seq<Local>, slot: string -> int)

  // ---------------------------------------------------------------- emission

  /** A compiled expression: its code, the register that holds the result, the next free
      register, the highest value that counter took, and the constants so far. */
  datatype Out = Out(code: seq<Instr>, reg: int, next: int, hi: int, pool: seq<Const>)

  function Max(a: int, b: int): int { if a < b then b else a }

  /** Registers are released only from the top, and never a local's. */
  function Free(L: seq<Local>, next: int, reg: int): int {
    if reg == next - 1 && !IsLocal(L, reg) then next - 1 else next
  }

  function FreeUnless(L: seq<Local>, next: int, reg: int, keep: int): int {
    if reg != keep then Free(L, next, reg) else next
  }

  function MoveTo(dst: int, src: int): seq<Instr> {
    if dst != src then [Move(dst, src)] else []
  }

  /** The constant pool holds each constant once. */
  function IndexOf(pool: seq<Const>, n: Const): (k: nat)
    ensures k <= |pool|
    ensures k < |pool| ==> pool[k] == n
    ensures k == |pool| <==> n !in pool
  {
    if pool == [] then 0 else if pool[0] == n then 0 else 1 + IndexOf(pool[1..], n)
  }

  function Intern(pool: seq<Const>, n: Const): seq<Const> {
    if n in pool then pool else pool + [n]
  }

  function BinCode(op: BinOp, reg: int, left: int, right: int): Instr {
    match op
    case BAdd => Arith(Add, reg, left, right)
    case BSub => Arith(Sub, reg, left, right)
    case BMul => Arith(Mul, reg, left, right)
    case BDiv => Arith(Div, reg, left, right)
    case BMod => Arith(Mod, reg, left, right)
    case BIDiv => Arith(IDiv, reg, left, right)
    case BEq => Arith(Eq, reg, left, right)
    case BNe => Arith(Eq, reg, left, right)
    case BLt => Arith(Lt, reg, left, right)
    case BLe => Arith(Le, reg, left, right)
    case BGt => Arith(Lt, reg, right, left)
    case BGe => Arith(Le, reg, right, left)
    case BShl => Arith(Shl, reg, left, right)
    case BShr => Arith(Shr, reg, left, right)
    case BBitAnd => Arith(BAnd, reg, left, right)
    case BBitOr => Arith(BOr, reg, left, right)
    case BBitXor => Arith(BXor, reg, left, right)
  }

  /** The peephole's guard: the word before the arithmetic instruction loads a small integer
      into the right operand's register, which is a temporary distinct from the left one. */
  predicate Folds(L: seq<Local>, op: BinOp, left: int, right: int, before: seq<Instr>) {
    (op.BAdd? || op.BSub?) && |before| > 0 && right != left && !IsLocal(L, right) &&
    before[|before| - 1].LoadI? && before[|before| - 1].a == right && -128 <= before[|before| - 1].n <= 127
  }

  /** Operands' code followed by the operation, with the peephole applied. */
  function BinTail(L: seq<Local>, op: BinOp, reg: int, left: int, right: int, before: seq<Instr>): seq<Instr> {
    if Folds(L, op, left, right, before) then
      var k := before[|before| - 1].n;
      before[..|before| - 1] + [if op.BAdd? then AddI(reg, left, k) else SubI(reg, left, k)]
    else if op.BNe? then before + [BinCode(op, reg, left, right), Unary(Not, reg, reg)]
    else before + [BinCode(op, reg, left, right)]
  }

  /** Opcodes whose destination an assignment may redirect. */
  predicate Retargetable(i: Instr) {
    i.Arith? || i.AddI? || i.SubI? || i.Unary?
  }

  function WithDest(i: Instr, a: int): Instr
    requires Retargetable(i)
  {
    match i
    case Arith(op, _, b, c) => Arith(op, a, b, c)
    case AddI(_, b, k) => AddI(a, b, k)
    case SubI(_, b, k) => SubI(a, b, k)
    case Unary(u, _, b) => Unary(u, a, b)
  }

  /** Storing a computed value into a local: redirect the instruction that produced it, or copy. */
  function StoreLocal(L: seq<Local>, code: seq<Instr>, src: int, dst: int): seq<Instr> {
    if src == dst then code
    else if !IsLocal(L, src) && |code| > 0 && Retargetable(code[|code| - 1]) && code[|code| - 1].a == src then
      code[..|code| - 1] + [WithDest(code[|code| - 1], dst)]
    else code + [Move(dst, src)]
  }

  /** The register an operation writes, asked for or newly taken, and the counter after taking it. */
  function Dest(dest: int, next: int): int { if dest >= 0 then dest else next }

  function Take(dest: int, next: int): int { if dest >= 0 then next else next + 1 }

  function Load(i: Instr, dest: int, next: int, pool: seq<Const>): Out {
    Out([i], Dest(dest, next), Take(dest, next), Take(dest, next), pool)
  }

  function EmitLit(n: int, dest: int, next: int, pool: seq<Const>): Out {
    if -32768 <= n <= 32767 then Load(LoadI(Dest(dest, next), n), dest, next, pool)
    else EmitConst(KInt(n), dest, next, pool)
  }

  function EmitConst(c: Const, dest: int, next: int, pool: seq<Const>): Out {
    Load(LoadK(Dest(dest, next), IndexOf(pool, c)), dest, next, Intern(pool, c))
  }

  /** A local is read in place unless its value is wanted elsewhere and no operator follows. */
  function EmitVar(sc: Scope, x: string, dest: int, infixNext: bool, next: int, pool: seq<Const>): Out {
    var home := Resolve(sc.locals, x);
    if home == -1 then Load(GetGlobal(Dest(dest, next), sc.slot(x)), dest, next, pool)
    else if dest >= 0 && dest != home && !infixNext then Out([Move(dest, home)], dest, next, next, pool)
    else Out([], home, next, next, pool)
  }

  function EmitUnary(L: seq<Local>, u: UnOp, reg: int, a: Out): Out {
    Out(a.code + [Unary(u, reg, a.reg)], reg, FreeUnless(L, a.next, a.reg, reg), a.hi, a.pool)
  }

  function EmitBin(L: seq<Local>, op: BinOp, reg: int, a: Out, b: Out): Out {
    var before := a.code + b.code;
    var n := if Folds(L, op, a.reg, b.reg, before) then Free(L, b.next, b.reg) else b.next;
    Out(BinTail(L, op, reg, a.reg, b.reg, before), reg,
        FreeUnless(L, FreeUnless(L, n, b.reg, reg), a.reg, reg), Max(a.hi, b.hi), b.pool)
  }

  function EmitPow(L: seq<Local>, dest: int, a: Out, b: Out): Out {
    var reg := Dest(dest, b.next);
    var n := Take(dest, b.next);
    Out(a.code + b.code + [Arith(Pow, reg, a.reg, b.reg)], reg,
        FreeUnless(L, FreeUnless(L, n, b.reg, reg), a.reg, reg), Max(a.hi, Max(b.hi, n)), b.pool)
  }

  /** `and` and `or` put both sides in one register: the one asked for, else the left side's own
      if that is a temporary, else a new one. */
  function JoinReg(L: seq<Local>, dest: int, a: Out): int {
    if dest >= 0 then dest else if IsLocal(L, a.reg) then a.next else a.reg
  }

  function JoinNext(L: seq<Local>, dest: int, a: Out): int {
    if dest < 0 && IsLocal(L, a.reg) then a.next + 1 else a.next
  }

  function Into(reg: int, o: Out): seq<Instr> { o.code + MoveTo(reg, o.reg) }

  function JumpOver(isAnd: bool, reg: int, rest: seq<Instr>): seq<Instr> {
    [if isAnd then JmpIfNot(reg, |rest|) else JmpIf(reg, |rest|)] + rest
  }

  function EmitJoin(L: seq<Local>, isAnd: bool, reg: int, a: Out, b: Out): Out {
    Out(Into(reg, a) + JumpOver(isAnd, reg, Into(reg, b)), reg,
        FreeUnless(L, FreeUnless(L, b.next, b.reg, reg), a.reg, reg), Max(a.hi, b.hi), b.pool)
  }

  function Branches(reg: int, thenCode: seq<Instr>, elseCode: seq<Instr>): seq<Instr> {
    [JmpIfNot(reg, |thenCode| + 1)] + thenCode + [Jmp(|elseCode|)] + elseCode
  }

  function EmitCond(L: seq<Local>, reg: int, a: Out, x: Out, y: Out): Out {
    Out(Into(reg, a) + Branches(reg, Into(reg, x), Into(reg, y)), reg,
        FreeUnless(L, FreeUnless(L, y.next, y.reg, reg), a.reg, reg), Max(a.hi, Max(x.hi, y.hi)), y.pool)
  }

  /** Assignment to a local restores the register counter; its value is the local itself. */
  function EmitAssignLocal(L: seq<Local>, home: int, dest: int, next: int, a: Out): Out {
    var stored := StoreLocal(L, a.code, a.reg, home);
    if dest >= 0 then Out(stored + MoveTo(dest, home), dest, next, a.hi, a.pool)
    else Out(stored, home, next, a.hi, a.pool)
  }

  function EmitAssignGlobal(L: seq<Local>, g: int, dest: int, val: int, a: Out): Out {
    var stored := a.code + [SetGlobal(val, g)];
    if dest >= 0 then Out(stored + MoveTo(dest, val), dest, FreeUnless(L, a.next, val, dest), a.hi, a.pool)
    else Out(stored, val, a.next, a.hi, a.pool)
  }

  /** The code of an expression. dest is the register asked for, or -1; infixNext says whether
      the token after the expression is an infix operator. */
  function Compile(e: Expr, dest: int, infixNext: bool, next: int, pool: seq<Const>, sc: Scope): (o: Out)
    decreases e
  {
    var L := sc.locals;
    match e
    case Lit(n) => EmitLit(n, dest, next, pool)
    case StrLit(s) => EmitConst(KStr(s), dest, next, pool)
    case True => Load(LoadBool(Dest(dest, next), true), dest, next, pool)
    case False => Load(LoadBool(Dest(dest, next), false), dest, next, pool)
    case NilLit => Load(LoadNil(Dest(dest, next)), dest, next, pool)
    case Var(x) => EmitVar(sc, x, dest, infixNext, next, pool)
    case Un(u, e1) => EmitUnary(L, u, Dest(dest, next), Compile(e1, -1, infixNext, Take(dest, next), pool, sc))
    case Bin(op, l, r) =>
      var a := Compile(l, dest, true, next, pool, sc);
      EmitBin(L, op, Dest(dest, a.next), a, Compile(r, -1, infixNext, Take(dest, a.next), a.pool, sc))
    case PowE(l, r) =>
      var a := Compile(l, dest, true, next, pool, sc);
      EmitPow(L, dest, a, Compile(r, -1, infixNext, a.next, a.pool, sc))
    case And(l, r) =>
      var a := Compile(l, dest, true, next, pool, sc);
      EmitJoin(L, true, JoinReg(L, dest, a), a,
               Compile(r, JoinReg(L, dest, a), infixNext, JoinNext(L, dest, a), a.pool, sc))
    case Or(l, r) =>
      var a := Compile(l, dest, true, next, pool, sc);
      EmitJoin(L, false, JoinReg(L, dest, a), a,
               Compile(r, JoinReg(L, dest, a), infixNext, JoinNext(L, dest, a), a.pool, sc))
    case Cond(c, t, f) =>
      var a := Compile(c, dest, true, next, pool, sc);
      var reg := Dest(dest, a.next);
      var x := Compile(t, reg, false, Take(dest, a.next), a.pool, sc);
      EmitCond(L, reg, a, x, Compile(f, reg, infixNext, FreeUnless(L, x.next, x.reg, reg), x.pool, sc))
    case Group(e1) => Compile(e1, dest, false, next, pool, sc)
    case Assign(x, e1) =>
      var home := Resolve(L, x);
      if home != -1 then EmitAssignLocal(L, home, dest, next, Compile(e1, -1, false, next, pool, sc))
      else EmitAssignGlobal(L, sc.slot(x), dest, next, Compile(e1, next, false, next + 1, pool, sc))
  }
}
