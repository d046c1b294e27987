/** Instruction words: how the emitter packs an instruction into 32 bits, when unpacking gives it back,
    and that every instruction of a compiled script of bounded length is one of those. */
module Encoding {
  import opened Values
  import opened Machine
  import opened Codegen
  import opened ExpressionProof
  import opened Statements
  import opened Simulation
  import opened Scripts

  // ---------------------------------------------------------------- words

  function OpOfArith(op: ArithOp): nat {
    match op
    case Add => 7 case Sub => 8 case Mul => 9 case Div => 10 case Mod => 11 case IDiv => 12
    case BAnd => 25 case BOr => 26 case BXor => 27 case Shl => 29 case Shr => 30
    case Eq => 31 case Lt => 32 case Le => 33 case Pow => 82
  }

  function OpOfUnary(u: UnOp): nat {
    match u case Neg => 13 case BNot => 28 case Not => 34
  }

  function OpOfCmp(c: CmpOp): nat {
    match c case CLt => 91 case CLe => 92 case CEq => 107 case CNe => 108
  }

  function Word(op: nat, a: int, b: int, c: int): int {
    op * 0x100_0000 + a * 0x1_0000 + b * 0x100 + c
  }

  /** A 16-bit operand keeps only its low half. */
  function WordX(op: nat, a: int, bx: int): int {
    op * 0x100_0000 + a * 0x1_0000 + bx % 0x1_0000
  }

  /** A signed 16-bit operand is stored with an offset. */
  function WordS(op: nat, a: int, s: int): int {
    WordX(op, a, s + 0x8000)
  }

  function Encode(i: Instr): int {
    match i
    case LoadNil(a) => Word(0, a, 0, 0)
    case LoadBool(a, v) => Word(1, a, if v then 1 else 0, 0)
    case LoadK(a, k) => WordX(2, a, k)
    case LoadI(a, n) => WordS(3, a, n)
    case Move(a, b) => Word(4, a, b, 0)
    case GetGlobal(a, g) => WordX(5, a, g)
    case SetGlobal(a, g) => WordX(6, a, g)
    case Arith(op, a, b, c) => Word(OpOfArith(op), a, b, c)
    case AddI(a, b, k) => Word(23, a, b, k % 256)
    case SubI(a, b, k) => Word(24, a, b, k % 256)
    case Unary(u, a, b) => Word(OpOfUnary(u), a, b, 0)
    case Jmp(off) => WordS(35, 0, off)
    case JmpIf(a, off) => WordS(36, a, off)
    case JmpIfNot(a, off) => WordS(37, a, off)
    case CmpJmpIfNot(c, b, d) => Word(OpOfCmp(c), 0, b, d)
    case Print(a) => Word(73, a, 1, 0)   // 1: the line ends here
    case Halt => Word(112, 0, 0, 0)
  }

  function Signed8(c: int): int { if c >= 128 then c - 256 else c }

  /** The instruction in a word. */
  function Decode(w: int): Option<Instr> {
    var op, a, b, c := w / 0x100_0000, w / 0x1_0000 % 256, w / 0x100 % 256, w % 256;
    var bx := w % 0x1_0000;
    if op == 0 then Some(LoadNil(a))
    else if op == 1 then Some(LoadBool(a, b != 0))
    else if op == 2 then Some(LoadK(a, bx))
    else if op == 3 then Some(LoadI(a, bx - 0x8000))
    else if op == 4 then Some(Move(a, b))
    else if op == 5 then Some(GetGlobal(a, bx))
    else if op == 6 then Some(SetGlobal(a, bx))
    else if op == 7 then Some(Arith(Add, a, b, c))
    else if op == 8 then Some(Arith(Sub, a, b, c))
    else if op == 9 then Some(Arith(Mul, a, b, c))
    else if op == 10 then Some(Arith(Div, a, b, c))
    else if op == 11 then Some(Arith(Mod, a, b, c))
    else if op == 12 then Some(Arith(IDiv, a, b, c))
    else if op == 13 then Some(Unary(Neg, a, b))
    else if op == 23 then Some(AddI(a, b, Signed8(c)))
    else if op == 24 then Some(SubI(a, b, Signed8(c)))
    else if op == 25 then Some(Arith(BAnd, a, b, c))
    else if op == 26 then Some(Arith(BOr, a, b, c))
    else if op == 27 then Some(Arith(BXor, a, b, c))
    else if op == 28 then Some(Unary(BNot, a, b))
    else if op == 29 then Some(Arith(Shl, a, b, c))
    else if op == 30 then Some(Arith(Shr, a, b, c))
    else if op == 31 then Some(Arith(Eq, a, b, c))
    else if op == 32 then Some(Arith(Lt, a, b, c))
    else if op == 33 then Some(Arith(Le, a, b, c))
    else if op == 34 then Some(Unary(Not, a, b))
    else if op == 35 then Some(Jmp(bx - 0x8000))
    else if op == 36 then Some(JmpIf(a, bx - 0x8000))
    else if op == 37 then Some(JmpIfNot(a, bx - 0x8000))
    else if op == 73 && b == 1 && c == 0 then Some(Print(a))
    else if op == 82 then Some(Arith(Pow, a, b, c))
    else if op == 91 then Some(CmpJmpIfNot(CLt, b, c))
    else if op == 92 then Some(CmpJmpIfNot(CLe, b, c))
    else if op == 107 then Some(CmpJmpIfNot(CEq, b, c))
    else if op == 108 then Some(CmpJmpIfNot(CNe, b, c))
    else if op == 112 then Some(Halt)
    else None
  }

  predicate Byte(n: int) { 0 <= n < 256 }

  /** Registers are bytes. */
  predicate RegsFit(i: Instr) {
    match i
    case LoadNil(a) => Byte(a)
    case LoadBool(a, _) => Byte(a)
    case LoadK(a, _) => Byte(a)
    case LoadI(a, _) => Byte(a)
    case Move(a, b) => Byte(a) && Byte(b)
    case GetGlobal(a, _) => Byte(a)
    case SetGlobal(a, _) => Byte(a)
    case Arith(_, a, b, c) => Byte(a) && Byte(b) && Byte(c)
    case AddI(a, b, _) => Byte(a) && Byte(b)
    case SubI(a, b, _) => Byte(a) && Byte(b)
    case Unary(_, a, b) => Byte(a) && Byte(b)
    case JmpIf(a, _) => Byte(a)
    case JmpIfNot(a, _) => Byte(a)
    case CmpJmpIfNot(_, b, c) => Byte(b) && Byte(c)
    case Print(a) => Byte(a)
    case _ => true
  }

  /** Constants, globals, immediates and distances are in the range of their fields. */
  predicate FieldsFit(i: Instr) {
    match i
    case LoadK(_, k) => 0 <= k < 0x1_0000
    case GetGlobal(_, g) => 0 <= g < 0x1_0000
    case SetGlobal(_, g) => 0 <= g < 0x1_0000
    case LoadI(_, n) => -0x8000 <= n < 0x8000
    case AddI(_, _, k) => -128 <= k < 128
    case SubI(_, _, k) => -128 <= k < 128
    case Jmp(off) => -0x8000 <= off < 0x8000
    case JmpIf(_, off) => -0x8000 <= off < 0x8000
    case JmpIfNot(_, off) => -0x8000 <= off < 0x8000
    case _ => true
  }

  lemma WordParts(op: nat, a: int, b: int, c: int)
    requires Byte(a) && Byte(b) && Byte(c)
    ensures var w := Word(op, a, b, c);
            w / 0x100_0000 == op && w / 0x1_0000 % 256 == a && w / 0x100 % 256 == b && w % 256 == c
  {
    var w := Word(op, a, b, c);
    assert w / 0x100 == op * 0x1_0000 + a * 0x100 + b;
    assert w / 0x1_0000 == op * 0x100 + a;
  }

  lemma WordXParts(op: nat, a: int, bx: int)
    requires Byte(a)
    ensures var w := WordX(op, a, bx); w / 0x100_0000 == op && w / 0x1_0000 % 256 == a && w % 0x1_0000 == bx % 0x1_0000
  {
    var w := WordX(op, a, bx);
    assert w / 0x1_0000 == op * 0x100 + a;
  }

  lemma SignedBack(s: int)
    ensures (s + 0x8000) % 0x1_0000 - 0x8000 == s <==> -0x8000 <= s < 0x8000
    ensures Signed8(s % 256) == s <==> -128 <= s < 128
  {
  }

  lemma DecodeArith(op: ArithOp, a: int, b: int, c: int)
    requires Byte(a) && Byte(b) && Byte(c)
    ensures Decode(Encode(Arith(op, a, b, c))) == Some(Arith(op, a, b, c))
  {
    hide Word;
    WordParts(OpOfArith(op), a, b, c);
  }

  lemma DecodeJump(i: Instr)
    requires RegsFit(i) && (i.Jmp? || i.JmpIf? || i.JmpIfNot? || i.LoadI?)
    ensures Decode(Encode(i)) == Some(i) <==> FieldsFit(i)
  {
    hide Word, WordX, Signed8;
    match i
    case LoadI(a, n) => WordXParts(3, a, n + 0x8000); SignedBack(n);
    case Jmp(off) => WordXParts(35, 0, off + 0x8000); SignedBack(off);
    case JmpIf(a, off) => WordXParts(36, a, off + 0x8000); SignedBack(off);
    case JmpIfNot(a, off) => WordXParts(37, a, off + 0x8000); SignedBack(off);
  }

  lemma DecodeImmediate(i: Instr)
    requires RegsFit(i) && (i.AddI? || i.SubI? || i.Unary? || i.CmpJmpIfNot?)
    ensures Decode(Encode(i)) == Some(i) <==> FieldsFit(i)
  {
    hide Word, WordX, Signed8;
    match i
    case AddI(a, b, k) => WordParts(23, a, b, k % 256); SignedBack(k);
    case SubI(a, b, k) => WordParts(24, a, b, k % 256); SignedBack(k);
    case Unary(u, a, b) => WordParts(OpOfUnary(u), a, b, 0);
    case CmpJmpIfNot(c, b, d) => WordParts(OpOfCmp(c), 0, b, d);
  }

  lemma DecodeWide(i: Instr)
    requires RegsFit(i) && (i.LoadK? || i.GetGlobal? || i.SetGlobal?)
    ensures Decode(Encode(i)) == Some(i) <==> FieldsFit(i)
  {
    hide Word, WordX, Signed8;
    match i
    case LoadK(a, k) => WordXParts(2, a, k);
    case GetGlobal(a, g) => WordXParts(5, a, g);
    case SetGlobal(a, g) => WordXParts(6, a, g);
  }

  lemma DecodePlain(i: Instr)
    requires RegsFit(i) && (i.LoadNil? || i.LoadBool? || i.Move? || i.Print? || i.Halt?)
    ensures Decode(Encode(i)) == Some(i) && FieldsFit(i)
  {
    hide Word, Signed8;
    match i
    case LoadNil(a) => WordParts(0, a, 0, 0);
    case LoadBool(a, v) => WordParts(1, a, if v then 1 else 0, 0);
    case Move(a, b) => WordParts(4, a, b, 0);
    case Print(a) => WordParts(73, a, 1, 0);
    case Halt => WordParts(112, 0, 0, 0);
  }

  /** An instruction comes back out of its word exactly when its fields fit: beyond that the emitter
      drops bits without a word. */
  lemma DecodeExact(i: Instr)
    requires RegsFit(i)
    ensures Decode(Encode(i)) == Some(i) <==> FieldsFit(i)
  {
    hide Encode, Decode;
    if i.Arith? {
      DecodeArith(i.op, i.a, i.b, i.c);
    } else if i.Jmp? || i.JmpIf? || i.JmpIfNot? || i.LoadI? {
      DecodeJump(i);
    } else if i.AddI? || i.SubI? || i.Unary? || i.CmpJmpIfNot? {
      DecodeImmediate(i);
    } else if i.LoadK? || i.GetGlobal? || i.SetGlobal? {
      DecodeWide(i);
    } else {
      DecodePlain(i);
    }
  }

  // ---------------------------------------------------------------- what the compiler emits fits

  /** Registers below a bound, distances within a reach, constants in the pool, globals in the table. */
  predicate Tidy(i: Instr, regs: int, reach: int, consts: int) {
    match i
    case LoadNil(a) => 0 <= a < regs
    case LoadBool(a, _) => 0 <= a < regs
    case LoadK(a, k) => 0 <= a < regs && 0 <= k < consts
    case LoadI(a, n) => 0 <= a < regs && -0x8000 <= n < 0x8000
    case Move(a, b) => 0 <= a < regs && 0 <= b < regs
    case GetGlobal(a, g) => 0 <= a < regs && 0 <= g < 0x1_0000
    case SetGlobal(a, g) => 0 <= a < regs && 0 <= g < 0x1_0000
    case Arith(_, a, b, c) => 0 <= a < regs && 0 <= b < regs && 0 <= c < regs
    case AddI(a, b, k) => 0 <= a < regs && 0 <= b < regs && -128 <= k < 128
    case SubI(a, b, k) => 0 <= a < regs && 0 <= b < regs && -128 <= k < 128
    case Unary(_, a, b) => 0 <= a < regs && 0 <= b < regs
    case Jmp(off) => -reach <= off <= reach
    case JmpIf(a, off) => 0 <= a < regs && -reach <= off <= reach
    case JmpIfNot(a, off) => 0 <= a < regs && -reach <= off <= reach
    case CmpJmpIfNot(_, b, c) => 0 <= b < regs && 0 <= c < regs
    case Print(a) => 0 <= a < regs
    case Halt => true
  }

  predicate AllTidy(code: seq<Instr>, regs: int, reach: int, consts: int) {
    forall k :: 0 <= k < |code| ==> Tidy(code[k], regs, reach, consts)
  }

  ghost predicate Slots(slot: string -> int) {
    forall x :: 0 <= slot(x) < 0x1_0000
  }

  lemma TidyMore(code: seq<Instr>, regs: int, reach: int, consts: int, moreRegs: int, moreReach: int, moreConsts: int)
    requires AllTidy(code, regs, reach, consts) && regs <= moreRegs && reach <= moreReach && consts <= moreConsts
    ensures AllTidy(code, moreRegs, moreReach, moreConsts)
  {
  }

  lemma TidyJoin(a: seq<Instr>, b: seq<Instr>, regs: int, reach: int, consts: int)
    requires AllTidy(a, regs, reach, consts) && AllTidy(b, regs, reach, consts)
    ensures AllTidy(a + b, regs, reach, consts)
  {
  }

  /** An expression's code is tidy, with its result in one of the registers. */
  ghost predicate TidyOut(o: Out) {
    AllTidy(o.code, o.hi, |o.code|, |o.pool|) && 0 <= o.reg < o.hi
  }

  lemma ResultBelow(L: seq<Local>, dest: int, inf: bool, next: int, pool: seq<Const>, o: Out)
    requires Layout(L, dest, next) && Disciplined(L, dest, inf, next, pool, o)
    ensures 0 <= o.reg < o.hi && next <= o.hi && o.next <= o.hi && |pool| <= |o.pool|
  {
  }

  lemma TidyInto(reg: int, o: Out, regs: int, reach: int, consts: int)
    requires AllTidy(o.code, regs, reach, consts) && 0 <= reg < regs && 0 <= o.reg < regs
    ensures AllTidy(Into(reg, o), regs, reach, consts)
  {
  }

  lemma TidyUnary(L: seq<Local>, u: UnOp, reg: int, a: Out)
    requires TidyOut(a) && 0 <= reg < a.hi
    ensures TidyOut(EmitUnary(L, u, reg, a))
  {
    TidyMore(a.code, a.hi, |a.code|, |a.pool|, a.hi, |a.code| + 1, |a.pool|);
  }

  lemma TidyBin(L: seq<Local>, op: BinOp, reg: int, a: Out, b: Out)
    requires TidyOut(a) && TidyOut(b) && 0 <= reg < Max(a.hi, b.hi) && |a.pool| <= |b.pool|
    ensures TidyOut(EmitBin(L, op, reg, a, b))
  {
    var hi, n := Max(a.hi, b.hi), |a.code| + |b.code|;
    hide Tidy;
    TidyMore(a.code, a.hi, |a.code|, |a.pool|, hi, n, |b.pool|);
    TidyMore(b.code, b.hi, |b.code|, |b.pool|, hi, n, |b.pool|);
    TidyJoin(a.code, b.code, hi, n, |b.pool|);
    TidyTail(L, op, reg, a.reg, b.reg, a.code + b.code, hi, |b.pool|);
  }

  lemma TidyTail(L: seq<Local>, op: BinOp, reg: int, left: int, right: int, before: seq<Instr>, regs: int, consts: int)
    requires AllTidy(before, regs, |before|, consts) && 0 <= reg < regs && 0 <= left < regs && 0 <= right < regs
    ensures AllTidy(BinTail(L, op, reg, left, right, before), regs, |BinTail(L, op, reg, left, right, before)|, consts)
  {
    var t := BinTail(L, op, reg, left, right, before);
    if Folds(L, op, left, right, before) {
      assert |t| == |before|;
    } else {
      TidyMore(before, regs, |before|, consts, regs, |t|, consts);
    }
  }

  lemma TidyPow(L: seq<Local>, dest: int, a: Out, b: Out)
    requires TidyOut(a) && TidyOut(b) && |a.pool| <= |b.pool| && dest < Max(a.hi, b.hi) && 0 <= b.next
    ensures TidyOut(EmitPow(L, dest, a, b))
  {
    var o := EmitPow(L, dest, a, b);
    TidyMore(a.code, a.hi, |a.code|, |a.pool|, o.hi, |o.code|, |b.pool|);
    TidyMore(b.code, b.hi, |b.code|, |b.pool|, o.hi, |o.code|, |b.pool|);
  }

  lemma TidyJoinOut(L: seq<Local>, isAnd: bool, reg: int, a: Out, b: Out)
    requires TidyOut(a) && TidyOut(b) && |a.pool| <= |b.pool| && 0 <= reg < Max(a.hi, b.hi)
    ensures TidyOut(EmitJoin(L, isAnd, reg, a, b))
  {
    var o := EmitJoin(L, isAnd, reg, a, b);
    TidyMore(a.code, a.hi, |a.code|, |a.pool|, o.hi, |o.code|, |b.pool|);
    TidyMore(b.code, b.hi, |b.code|, |b.pool|, o.hi, |o.code|, |b.pool|);
    TidyInto(reg, a, o.hi, |o.code|, |b.pool|);
    TidyInto(reg, b, o.hi, |o.code|, |b.pool|);
  }

  lemma TidyCond(L: seq<Local>, reg: int, a: Out, x: Out, y: Out)
    requires TidyOut(a) && TidyOut(x) && TidyOut(y) && |a.pool| <= |x.pool| <= |y.pool| &&
             0 <= reg < Max(a.hi, Max(x.hi, y.hi))
    ensures TidyOut(EmitCond(L, reg, a, x, y))
  {
    var o := EmitCond(L, reg, a, x, y);
    TidyMore(a.code, a.hi, |a.code|, |a.pool|, o.hi, |o.code|, |y.pool|);
    TidyMore(x.code, x.hi, |x.code|, |x.pool|, o.hi, |o.code|, |y.pool|);
    TidyMore(y.code, y.hi, |y.code|, |y.pool|, o.hi, |o.code|, |y.pool|);
    TidyInto(reg, a, o.hi, |o.code|, |y.pool|);
    TidyInto(reg, x, o.hi, |o.code|, |y.pool|);
    TidyInto(reg, y, o.hi, |o.code|, |y.pool|);
    TidyBranches(reg, Into(reg, x), Into(reg, y), o.hi, |o.code|, |y.pool|);
    TidyJoin(Into(reg, a), Branches(reg, Into(reg, x), Into(reg, y)), o.hi, |o.code|, |y.pool|);
  }

  lemma TidyBranches(reg: int, t: seq<Instr>, e: seq<Instr>, regs: int, reach: int, consts: int)
    requires AllTidy(t, regs, reach, consts) && AllTidy(e, regs, reach, consts) && 0 <= reg < regs &&
             |t| + 1 <= reach && |e| <= reach
    ensures AllTidy(Branches(reg, t, e), regs, reach, consts)
  {
  }

  lemma TidyAssign(L: seq<Local>, home: int, g: int, dest: int, val: int, next: int, a: Out)
    requires TidyOut(a) && dest < a.hi && 0 <= g < 0x1_0000
    ensures 0 <= home < a.hi ==> TidyOut(EmitAssignLocal(L, home, dest, next, a))
    ensures 0 <= val < a.hi ==> TidyOut(EmitAssignGlobal(L, g, dest, val, a))
  {
    TidyMore(a.code, a.hi, |a.code|, |a.pool|, a.hi, |a.code| + 1, |a.pool|);
    TidyMore(a.code, a.hi, |a.code|, |a.pool|, a.hi, |a.code| + 2, |a.pool|);
  }

  lemma TidyAtom(e: Expr, dest: int, inf: bool, next: int, pool: seq<Const>, sc: Scope)
    requires e.Lit? || e.StrLit? || e.True? || e.False? || e.NilLit? || e.Var?
    requires Layout(sc.locals, dest, next) && Slots(sc.slot)
    ensures TidyOut(Compile(e, dest, inf, next, pool, sc))
  {
  }

  lemma {:induction false} TidyExpr(e: Expr, dest: int, inf: bool, next: int, pool: seq<Const>, sc: Scope)
    requires Layout(sc.locals, dest, next) && Slots(sc.slot)
    ensures TidyOut(Compile(e, dest, inf, next, pool, sc))
    decreases e, 1
  {
    hide Compile, Layout, Disciplined, TidyOut, EmitUnary, EmitAssignLocal, EmitAssignGlobal, Slots;
    var L := sc.locals;
    Discipline(e, dest, inf, next, pool, sc);
    ResultBelow(L, dest, inf, next, pool, Compile(e, dest, inf, next, pool, sc));
    match e
    case Un(u, e1) =>
      UnfoldUn(e, dest, inf, next, pool, sc);
      InnerLayouts(L, dest, next, pool, Load(Halt, dest, next, pool));
      TidyExpr(e1, -1, inf, Take(dest, next), pool, sc);
      var a := Compile(e1, -1, inf, Take(dest, next), pool, sc);
      Discipline(e1, -1, inf, Take(dest, next), pool, sc);
      ResultBelow(L, -1, inf, Take(dest, next), pool, a);
      DestBelow(L, dest, next);
      TidyUnary(L, u, Dest(dest, next), a);
    case Group(e1) =>
      UnfoldGroup(e, dest, inf, next, pool, sc);
      TidyExpr(e1, dest, false, next, pool, sc);
    case Assign(x, e1) => TidyAssigned(e, dest, inf, next, pool, sc);
    case Bin(_, l, _) => TidyInfix(e, l, dest, inf, next, pool, sc);
    case PowE(l, _) => TidyInfix(e, l, dest, inf, next, pool, sc);
    case And(l, _) => TidyInfix(e, l, dest, inf, next, pool, sc);
    case Or(l, _) => TidyInfix(e, l, dest, inf, next, pool, sc);
    case Cond(c, _, _) => TidyInfix(e, c, dest, inf, next, pool, sc);
    case _ => TidyAtom(e, dest, inf, next, pool, sc);
  }

  lemma DestBelow(L: seq<Local>, dest: int, next: int)
    requires Layout(L, dest, next)
    ensures 0 <= Dest(dest, next) < Take(dest, next) && -1 <= dest < next && 0 <= next
  {
  }

  lemma {:induction false} TidyAssigned(e: Expr, dest: int, inf: bool, next: int, pool: seq<Const>, sc: Scope)
    requires e.Assign? && Layout(sc.locals, dest, next) && Slots(sc.slot)
    ensures TidyOut(Compile(e, dest, inf, next, pool, sc))
    decreases e, 0
  {
    hide Compile, Layout, Disciplined, TidyOut, EmitAssignLocal, EmitAssignGlobal;
    var L := sc.locals;
    UnfoldAssignAny(e, dest, inf, next, pool, sc);
    InnerLayouts(L, dest, next, pool, Load(Halt, dest, next, pool));
    DestBelow(L, dest, next);
    var home := Resolve(L, e.name);
    if home != -1 {
      TidyExpr(e.e, -1, false, next, pool, sc);
      var a := Compile(e.e, -1, false, next, pool, sc);
      Discipline(e.e, -1, false, next, pool, sc);
      ResultBelow(L, -1, false, next, pool, a);
      LocalBelow(L, dest, next, home);
      TidyAssign(L, home, 0, dest, 0, next, a);
    } else {
      TidyExpr(e.e, next, false, next + 1, pool, sc);
      var a := Compile(e.e, next, false, next + 1, pool, sc);
      Discipline(e.e, next, false, next + 1, pool, sc);
      ResultBelow(L, next, false, next + 1, pool, a);
      TidyAssign(L, 0, sc.slot(e.name), dest, next, next, a);
    }
  }

  lemma {:induction false} TidyInfix(e: Expr, l: Expr, dest: int, inf: bool, next: int, pool: seq<Const>, sc: Scope)
    requires (e.Bin? && l == e.l) || (e.PowE? && l == e.l) || (e.And? && l == e.l) || (e.Or? && l == e.l) ||
             (e.Cond? && l == e.c)
    requires Layout(sc.locals, dest, next) && Slots(sc.slot)
    ensures TidyOut(Compile(e, dest, inf, next, pool, sc))
    decreases e, 0
  {
    hide Compile, Layout, Disciplined, TidyOut, EmitBin, EmitPow, EmitJoin, EmitCond, Slots, JoinReg, JoinNext, Dest,
        Take;
    var L := sc.locals;
    TidyExpr(l, dest, true, next, pool, sc);
    var a := Compile(l, dest, true, next, pool, sc);
    Discipline(l, dest, true, next, pool, sc);
    LeftFacts(L, dest, next, pool, a);
    ResultBelow(L, dest, true, next, pool, a);
    InnerLayouts(L, dest, next, pool, a);
    DestBelow(L, dest, a.next) by { HigherLayout(L, dest, next, a.next); }
    match e
    case Bin(op, _, r) =>
      UnfoldBin(e, dest, inf, next, pool, sc);
      var b := TidyOperand(r, -1, inf, Take(dest, a.next), a.pool, sc);
      TidyBin(L, op, Dest(dest, a.next), a, b);
    case PowE(_, r) =>
      UnfoldPow(e, dest, inf, next, pool, sc);
      var b := TidyOperand(r, -1, inf, a.next, a.pool, sc);
      TidyPow(L, dest, a, b);
    case And(_, r) =>
      UnfoldJoin(e, dest, inf, next, pool, sc);
      JoinBelow(L, dest, next, a);
      var b := TidyOperand(r, JoinReg(L, dest, a), inf, JoinNext(L, dest, a), a.pool, sc);
      TidyJoinOut(L, true, JoinReg(L, dest, a), a, b);
    case Or(_, r) =>
      UnfoldJoin(e, dest, inf, next, pool, sc);
      JoinBelow(L, dest, next, a);
      var b := TidyOperand(r, JoinReg(L, dest, a), inf, JoinNext(L, dest, a), a.pool, sc);
      TidyJoinOut(L, false, JoinReg(L, dest, a), a, b);
    case Cond(_, t, f) =>
      UnfoldCond(e, dest, inf, next, pool, sc);
      var reg := Dest(dest, a.next);
      var x := TidyOperand(t, reg, false, Take(dest, a.next), a.pool, sc);
      Discipline(t, reg, false, Take(dest, a.next), a.pool, sc);
      PoolOf(L, reg, false, Take(dest, a.next), a.pool, x);
      HigherLayout(L, reg, Take(dest, a.next), x.next);
      var y := TidyOperand(f, reg, inf, x.next, x.pool, sc);
      TidyCond(L, reg, a, x, y);
  }

  lemma JoinBelow(L: seq<Local>, dest: int, next: int, a: Out)
    requires Layout(L, JoinReg(L, dest, a), JoinNext(L, dest, a))
    ensures JoinReg(L, dest, a) < JoinNext(L, dest, a)
  {
  }

  lemma {:induction false} TidyOperand(e: Expr, dest: int, inf: bool, next: int, pool: seq<Const>, sc: Scope)
    returns (o: Out)
    requires Layout(sc.locals, dest, next) && Slots(sc.slot)
    ensures o == Compile(e, dest, inf, next, pool, sc) && TidyOut(o) && |pool| <= |o.pool| && next <= o.next <= o.hi &&
            0 <= next
    decreases e, 2
  {
    hide Compile, TidyOut, Slots;
    o := Compile(e, dest, inf, next, pool, sc);
    TidyExpr(e, dest, inf, next, pool, sc);
    Discipline(e, dest, inf, next, pool, sc);
  }

  // ---------------------------------------------------------------- statements

  /** A branch is tidy when its condition is and its distance is in reach. */
  lemma TidyBranch(L: seq<Local>, joined: bool, o: Out, skip: int, reach: int)
    requires TidyOut(o) && o.hi <= MAX_REGS && |o.code| <= reach && 0 <= skip <= reach
    ensures AllTidy(BranchCode(L, joined, o, skip), MAX_REGS, reach, |o.pool|)
  {
    TidyMore(o.code, o.hi, |o.code|, |o.pool|, MAX_REGS, reach, |o.pool|);
  }

  lemma TidyPlain(o: Out, reach: int)
    requires TidyOut(o) && o.hi <= MAX_REGS && |o.code| <= reach
    ensures AllTidy(o.code, MAX_REGS, reach, |o.pool|) && 0 <= o.reg < MAX_REGS
  {
    TidyMore(o.code, o.hi, |o.code|, |o.pool|, MAX_REGS, reach, |o.pool|);
  }

  lemma {:induction false} TidyPatch(code: seq<Instr>, base: int, holes: seq<int>, target: int, regs: int, reach: int,
        consts: int)
    requires AllTidy(code, regs, reach, consts) && Within(holes, base, base + |code|) &&
             base <= target <= base + |code| && |code| <= reach
    ensures AllTidy(PatchAll(code, base, holes, target), regs, reach, consts)
    decreases |holes|
  {
    if holes != [] {
      assert holes[0] in holes;
      assert Within(holes[1..], base, base + |code|) by { assert forall h :: h in holes[1..] ==> h in holes; }
      TidyPatch(code[holes[0] - base := Jmp(target - (holes[0] + 1))], base, holes[1..], target, regs, reach, consts);
    }
  }

  lemma TidyCode(c: Expr, dest: int, next: int, st: Scopes, slot: string -> int) returns (o: Out)
    requires Sound(st) && Slots(slot) && ((dest == -1 && next == st.next) || (dest == st.next && next == st.next + 1))
    ensures o == Compile(c, dest, false, next, st.pool, ScopeOf(st, slot)) && TidyOut(o) && |st.pool| <= |o.pool|
  {
    hide Compile, TidyOut, Sound, Slots;
    o := Compile(c, dest, false, next, st.pool, ScopeOf(st, slot));
    ExprState(c, dest, st, slot, next);
    TidyExpr(c, dest, false, next, st.pool, ScopeOf(st, slot));
  }

  lemma TidyVar(x: string, init: Option<Expr>, st: Scopes, slot: string -> int, reach: int)
    requires Sound(st) && Slots(slot) && !CompileVar(x, init, st, slot).err &&
             |CompileVar(x, init, st, slot).code| <= reach
    ensures AllTidy(CompileVar(x, init, st, slot).code, MAX_REGS, reach, |CompileVar(x, init, st, slot).st.pool|)
  {
    hide Compile, Redeclared, TidyOut, Free;
    VarRegister(st);
    if init.Some? {
      var o := TidyCode(init.value, st.next, st.next + 1, st, slot);
      ExprState(init.value, st.next, st, slot, st.next + 1);
      TidyPlain(o, reach);
    }
  }

  lemma VarRegister(st: Scopes)
    requires Sound(st)
    ensures st.next >= 0
  {
  }

  lemma TidyCondCode(c: Expr, st: Scopes, slot: string -> int, skip: int, reach: int)
    requires Sound(st) && Slots(slot) && CondHi(c, st, slot) <= MAX_REGS && |CondCode(c, st, slot, 0)| <= reach &&
             0 <= skip <= reach
    ensures AllTidy(CondCode(c, st, slot, skip), MAX_REGS, reach, |AfterCond(c, st, slot).pool|)
  {
    hide Compile, BranchCode, TidyOut;
    var o := TidyCode(c, -1, st.next, st, slot);
    BranchLonger(st.locals, IsJoin(c), o, 0);
    TidyBranch(st.locals, IsJoin(c), o, skip, reach);
  }

  lemma BranchLonger(L: seq<Local>, joined: bool, o: Out, skip: int)
    ensures |o.code| <= |BranchCode(L, joined, o, skip)|
  {
  }

  /** In a function of bounded length everything a statement emits is tidy. */
  lemma {:induction false} TidyStmt(s: Stmt, at: int, lp: LoopCtx, st: Scopes, slot: string -> int, reach: int)
    requires Sound(st) && WellFormed(s) && Slots(slot) && -1 <= lp.start <= at && 0 <= at
    requires !CompileStmt(s, at, lp, st, slot).err && at + |CompileStmt(s, at, lp, st, slot).code| <= reach
    ensures AllTidy(CompileStmt(s, at, lp, st, slot).code, MAX_REGS, reach, |CompileStmt(s, at, lp, st, slot).st.pool|)
    decreases s, 1
  {
    hide Compile, AllTidy, TidyOut, BranchCode, Sound, Slots;
    match s
    case Skip => NothingTidy(reach, |st.pool|);
    case ExprStmt(e) =>
      var o := TidyCode(e, -1, st.next, st, slot);
      TidyPlain(o, reach);
    case PrintStmt(e) =>
      var o := TidyCode(e, -1, st.next, st, slot);
      TidyPlain(o, reach);
      PrintTidy(o.code, o.reg, reach, |o.pool|);
    case VarDecl(x, init) => TidyVar(x, init, st, slot, reach);
    case Block(ss) =>
      DeeperSound(st);
      TidySeq(ss, at, lp, st.(depth := st.depth + 1), slot, reach);
    case If(_, _, _) => TidyIf(s, at, lp, st, slot, reach);
    case While(_, _) => TidyWhile(s, at, lp, st, slot, reach);
    case Break => JumpTidy(0, reach, |st.pool|);
    case Continue => JumpTidy(lp.start - (at + 1), reach, |st.pool|);
  }

  lemma NothingTidy(reach: int, consts: int)
    ensures AllTidy([], MAX_REGS, reach, consts)
  {
  }

  lemma JumpTidy(off: int, reach: int, consts: int)
    requires -reach <= off <= reach
    ensures AllTidy([Jmp(off)], MAX_REGS, reach, consts)
  {
  }

  lemma PrintTidy(code: seq<Instr>, reg: int, reach: int, consts: int)
    requires AllTidy(code, MAX_REGS, reach, consts) && 0 <= reg < MAX_REGS
    ensures AllTidy(code + [Print(reg)], MAX_REGS, reach, consts)
  {
  }

  lemma ErrIf(c: Stmt, at: int, lp: LoopCtx, st: Scopes, slot: string -> int)
    requires c.If? && !CompileStmt(c, at, lp, st, slot).err
    ensures CondHi(c.cond, st, slot) <= MAX_REGS
    ensures var size := |CondCode(c.cond, st, slot, 0)|;
            var a := CompileStmt(c.then_, at + size, lp, AfterCond(c.cond, st, slot), slot);
            !a.err && !CompileStmt(c.els, at + size + |a.code| + 1, lp, a.st, slot).err
  {
    hide Compile, AfterCond, CondCode, CondHi, Branchings;
  }

  lemma {:induction false} TidyIf(s: Stmt, at: int, lp: LoopCtx, st: Scopes, slot: string -> int, reach: int)
    requires s.If? && Sound(st) && WellFormed(s) && Slots(slot) && -1 <= lp.start <= at && 0 <= at
    requires !CompileStmt(s, at, lp, st, slot).err && at + |CompileStmt(s, at, lp, st, slot).code| <= reach
    ensures AllTidy(CompileStmt(s, at, lp, st, slot).code, MAX_REGS, reach, |CompileStmt(s, at, lp, st, slot).st.pool|)
    decreases s, 0
  {
    hide Compile, CompileStmt, AfterCond, CondCode, CondHi, Sound, Slots, AllTidy;
    var st1 := AfterCond(s.cond, st, slot);
    var size := |CondCode(s.cond, st, slot, 0)|;
    var a := CompileStmt(s.then_, at + size, lp, st1, slot);
    var b := CompileStmt(s.els, at + size + |a.code| + 1, lp, a.st, slot);
    UnfoldIf(s, at, lp, st, slot);
    ErrIf(s, at, lp, st, slot);
    CondState(s.cond, st, slot, |a.code| + 1);
    StmtShape(s.then_, at + size, lp, st1, slot);
    StmtShape(s.els, at + size + |a.code| + 1, lp, a.st, slot);
    TidyCondCode(s.cond, st, slot, |a.code| + 1, reach);
    TidyStmt(s.then_, at + size, lp, st1, slot, reach);
    TidyStmt(s.els, at + size + |a.code| + 1, lp, a.st, slot, reach);
    var n := |b.st.pool|;
    var br := CondCode(s.cond, st, slot, |a.code| + 1);
    TidyMore(br, MAX_REGS, reach, |st1.pool|, MAX_REGS, reach, n);
    TidyMore(a.code, MAX_REGS, reach, |a.st.pool|, MAX_REGS, reach, n);
    JumpTidy(|b.code|, reach, n);
    TidyJoin([Jmp(|b.code|)], b.code, MAX_REGS, reach, n);
    TidyJoin(a.code, [Jmp(|b.code|)] + b.code, MAX_REGS, reach, n);
    TidyJoin(br, a.code + ([Jmp(|b.code|)] + b.code), MAX_REGS, reach, n);
  }

  lemma ErrWhile(c: Stmt, at: int, lp: LoopCtx, st: Scopes, slot: string -> int)
    requires c.While? && !CompileStmt(c, at, lp, st, slot).err
    ensures CondHi(c.cond, st, slot) <= MAX_REGS
    ensures !CompileStmt(c.loop, at + |CondCode(c.cond, st, slot, 0)|, LoopCtx(at, lp.open + 1),
            AfterCond(c.cond, st, slot), slot).err
  {
    hide Compile, AfterCond, CondCode, CondHi, PatchAll;
  }

  lemma {:induction false} TidyWhile(s: Stmt, at: int, lp: LoopCtx, st: Scopes, slot: string -> int, reach: int)
    requires s.While? && Sound(st) && WellFormed(s) && Slots(slot) && -1 <= lp.start <= at && 0 <= at
    requires !CompileStmt(s, at, lp, st, slot).err && at + |CompileStmt(s, at, lp, st, slot).code| <= reach
    ensures AllTidy(CompileStmt(s, at, lp, st, slot).code, MAX_REGS, reach, |CompileStmt(s, at, lp, st, slot).st.pool|)
    decreases s, 0
  {
    hide Compile, CompileStmt, AfterCond, CondCode, CondHi, Sound, Slots, AllTidy, PatchAll, Within;
    var st1 := AfterCond(s.cond, st, slot);
    var size := |CondCode(s.cond, st, slot, 0)|;
    var inner := LoopCtx(at, lp.open + 1);
    var a := CompileStmt(s.loop, at + size, inner, st1, slot);
    var br := CondCode(s.cond, st, slot, |a.code| + 1);
    var back := -(size + |a.code| + 1);
    var code := br + (a.code + [Jmp(back)]);
    UnfoldWhile(s, at, lp, st, slot);
    ErrWhile(s, at, lp, st, slot);
    CondState(s.cond, st, slot, |a.code| + 1);
    StmtShape(s.loop, at + size, inner, st1, slot);
    TidyCondCode(s.cond, st, slot, |a.code| + 1, reach);
    TidyStmt(s.loop, at + size, inner, st1, slot, reach);
    var n := |a.st.pool|;
    TidyMore(br, MAX_REGS, reach, |st1.pool|, MAX_REGS, reach, n);
    JumpTidy(back, reach, n);
    TidyJoin(a.code, [Jmp(back)], MAX_REGS, reach, n);
    TidyJoin(br, a.code + [Jmp(back)], MAX_REGS, reach, n);
    WithinWider(a.breaks, at + size, at + size + |a.code|, at, at + |code|);
    TidyPatch(code, at, a.breaks, at + |code|, MAX_REGS, reach, n);
  }

  lemma WithinWider(holes: seq<int>, lo: int, hi: int, wideLo: int, wideHi: int)
    requires Within(holes, lo, hi) && wideLo <= lo && hi <= wideHi
    ensures Within(holes, wideLo, wideHi)
  {
  }

  lemma {:induction false} TidySeq(ss: seq<Stmt>, at: int, lp: LoopCtx, st: Scopes, slot: string -> int, reach: int)
    requires Sound(st) && (forall i :: 0 <= i < |ss| ==> WellFormed(ss[i])) && Slots(slot) && -1 <= lp.start <= at &&
             0 <= at
    requires !CompileSeq(ss, at, lp, st, slot).err && at + |CompileSeq(ss, at, lp, st, slot).code| <= reach
    ensures AllTidy(CompileSeq(ss, at, lp, st, slot).code, MAX_REGS, reach, |CompileSeq(ss, at, lp, st, slot).st.pool|)
    decreases ss, 0
  {
    hide Compile, CompileStmt, AllTidy, Sound, Slots, WellFormed;
    if ss == [] {
      NothingTidy(reach, |st.pool|);
    } else {
      var a := CompileStmt(ss[0], at, lp, st, slot);
      StmtShape(ss[0], at, lp, st, slot);
      TidyStmt(ss[0], at, lp, st, slot, reach);
      TidySeq(ss[1..], at + |a.code|, lp, a.st, slot, reach);
      var b := CompileSeq(ss[1..], at + |a.code|, lp, a.st, slot);
      SeqShape(ss[1..], at + |a.code|, lp, a.st, slot);
      TidyMore(a.code, MAX_REGS, reach, |a.st.pool|, MAX_REGS, reach, |b.st.pool|);
      TidyJoin(a.code, b.code, MAX_REGS, reach, |b.st.pool|);
    }
  }

  // ---------------------------------------------------------------- whole scripts

  function EncodeAll(code: seq<Instr>): (words: seq<int>)
    ensures |words| == |code|
  {
    if code == [] then [] else [Encode(code[0])] + EncodeAll(code[1..])
  }

  function DecodeAll(words: seq<int>): Option<seq<Instr>> {
    if words == [] then Some([])
    else
      var i, rest := Decode(words[0]), DecodeAll(words[1..]);
      if i.None? || rest.None? then None else Some([i.value] + rest.value)
  }

  predicate AllRegsFit(code: seq<Instr>) { forall k :: 0 <= k < |code| ==> RegsFit(code[k]) }

  predicate AllFieldsFit(code: seq<Instr>) { forall k :: 0 <= k < |code| ==> FieldsFit(code[k]) }

  /** Words are read back as the instructions they were made from exactly when every field fits. */
  lemma {:induction false} CodeExact(code: seq<Instr>)
    requires AllRegsFit(code)
    ensures DecodeAll(EncodeAll(code)) == Some(code) <==> AllFieldsFit(code)
  {
    hide Encode, Decode, RegsFit, FieldsFit;
    if code != [] {
      var i, rest := code[0], code[1..];
      DecodeExact(i);
      CodeExact(rest);
      assert EncodeAll(code)[0] == Encode(i) && EncodeAll(code)[1..] == EncodeAll(rest);
      FieldsCons(i, rest);
      assert [i] + rest == code;
      var d, ds := Decode(Encode(i)), DecodeAll(EncodeAll(rest));
      if d.Some? && ds.Some? { ConsInjective(d.value, ds.value, i, rest); }
    }
  }

  lemma ConsInjective<T>(x: T, xs: seq<T>, y: T, ys: seq<T>)
    ensures [x] + xs == [y] + ys ==> x == y && xs == ys
  {
    if [x] + xs == [y] + ys {
      assert x == ([x] + xs)[0] && y == ([y] + ys)[0];
      assert xs == ([x] + xs)[1..] && ys == ([y] + ys)[1..];
    }
  }

  lemma FieldsCons(i: Instr, rest: seq<Instr>)
    ensures AllFieldsFit([i] + rest) <==> FieldsFit(i) && AllFieldsFit(rest)
  {
    hide FieldsFit;
    var code := [i] + rest;
    if AllFieldsFit(code) {
      assert FieldsFit(code[0]);
      forall k | 0 <= k < |rest| ensures FieldsFit(rest[k]) { assert code[k + 1] == rest[k]; }
    }
  }

  lemma TidyFits(code: seq<Instr>, regs: int, reach: int, consts: int)
    requires AllTidy(code, regs, reach, consts) && regs <= 256
    ensures AllRegsFit(code)
    ensures reach < 0x8000 && consts <= 0x1_0000 ==> AllFieldsFit(code)
  {
    forall k | 0 <= k < |code| ensures RegsFit(code[k]) &&
        (reach < 0x8000 && consts <= 0x1_0000 ==> FieldsFit(code[k])) {
      assert Tidy(code[k], regs, reach, consts);
    }
  }

  lemma ScriptTidy(ss: seq<Stmt>, slot: string -> int, fn: Function)
    requires CompileStmts(ss, slot) == Some(fn) && (forall i :: 0 <= i < |ss| ==> WellFormed(ss[i])) && Slots(slot)
    ensures |fn.code| >= 2 && AllTidy(fn.code, MAX_REGS, |fn.code| - 2, |fn.consts|)
  {
    hide CompileSeq, Slots, WellFormed, AllTidy;
    var o := CompileSeq(ss, 0, TOP, EMPTY, slot);
    EmptySound();
    TidySeq(ss, 0, TOP, EMPTY, slot, |o.code|);
    HaltTidy(|o.code|, |fn.consts|);
    TidyJoin(o.code, ENDING, MAX_REGS, |o.code|, |fn.consts|);
  }

  /** The words of any compiled script are read back as its instructions exactly when every immediate,
      distance and index fits its field. */
  lemma ScriptExact(ss: seq<Stmt>, slot: string -> int, fn: Function)
    requires CompileStmts(ss, slot) == Some(fn) && (forall i :: 0 <= i < |ss| ==> WellFormed(ss[i])) && Slots(slot)
    ensures DecodeAll(EncodeAll(fn.code)) == Some(fn.code) <==> forall k :: 0 <= k < |fn.code| ==> FieldsFit(fn.code[k])
  {
    hide CompileStmts, Slots, DecodeAll, EncodeAll, WellFormed, AllTidy, RegsFit, FieldsFit, AllRegsFit;
    ScriptTidy(ss, slot, fn);
    TidyFits(fn.code, MAX_REGS, |fn.code| - 2, |fn.consts|);
    CodeExact(fn.code);
  }

  /** So they are for every script short enough for its jumps, with at most 65536 constants. */
  lemma ScriptEncodes(ss: seq<Stmt>, slot: string -> int, fn: Function)
    requires CompileStmts(ss, slot) == Some(fn) && (forall i :: 0 <= i < |ss| ==> WellFormed(ss[i])) && Slots(slot)
    requires |fn.code| <= 0x8001 && |fn.consts| <= 0x1_0000
    ensures DecodeAll(EncodeAll(fn.code)) == Some(fn.code)
  {
    hide CompileStmts, Slots, DecodeAll, EncodeAll, WellFormed, AllTidy, RegsFit, FieldsFit, AllRegsFit;
    ScriptTidy(ss, slot, fn);
    TidyFits(fn.code, MAX_REGS, |fn.code| - 2, |fn.consts|);
    ScriptExact(ss, slot, fn);
  }

  // ---------------------------------------------------------------- a script for every length beyond

  function Copies<T>(n: nat, x: T): (r: seq<T>)
    ensures |r| == n && forall k :: 0 <= k < n ==> r[k] == x
  {
    seq(n, _ => x)
  }

  /** `if (true) { true; true; … }` with n statements in its body. */
  function LongIf(n: nat): Stmt { If(True, Block(Copies(n, ExprStmt(True))), Skip) }

  lemma {:induction false} CopiesCompile(n: nat, at: int, lp: LoopCtx, st: Scopes, slot: string -> int)
    requires 0 <= st.next < MAX_REGS
    ensures var o := CompileSeq(Copies(n, ExprStmt(True)), at, lp, st, slot);
            o.code == Copies(n, LoadBool(st.next, true)) && o.breaks == [] && o.st == st && !o.err && o.hi <= MAX_REGS
    decreases n
  {
    if n > 0 {
      var ss := Copies(n, ExprStmt(True));
      assert ss[1..] == Copies(n - 1, ExprStmt(True));
      assert CompileStmt(ss[0], at, lp, st, slot) == SOut([LoadBool(st.next, true)], [], st, st.next + 1, false);
      CopiesCompile(n - 1, at + 1, lp, st, slot);
      assert [LoadBool(st.next, true)] + Copies(n - 1, LoadBool(st.next, true)) == Copies(n, LoadBool(st.next, true));
    }
  }

  lemma TrueBranch(st: Scopes, slot: string -> int, skip: int)
    requires st == EMPTY
    ensures CondCode(True, st, slot, skip) == [LoadBool(0, true), JmpIfNot(0, skip)]
    ensures AfterCond(True, st, slot) == EMPTY && CondHi(True, st, slot) == 1
  {
    assert !IsLocal([], 0);
  }

  lemma LongIfCompiles(n: nat, slot: string -> int)
    ensures var o := CompileStmt(LongIf(n), 0, TOP, EMPTY, slot);
            !o.err && o.st == EMPTY && o.hi <= MAX_REGS &&
            o.code == [LoadBool(0, true), JmpIfNot(0, n + 1)] + (Copies(n, LoadBool(0, true)) + [Jmp(0)])
  {
    hide Compile, CondCode, AfterCond, CondHi, CompileSeq;
    TrueBranch(EMPTY, slot, 0);
    TrueBranch(EMPTY, slot, n + 1);
    CopiesCompile(n, 2, TOP, EMPTY.(depth := 1), slot);
    var a := CompileStmt(Block(Copies(n, ExprStmt(True))), 2, TOP, EMPTY, slot);
    assert PopScope([], 0) == [] && WindowEnd([]) == 0;
    assert a.code == Copies(n, LoadBool(0, true)) && a.st == EMPTY && !a.err;
    assert CompileStmt(Skip, n + 3, TOP, EMPTY, slot) == SOut([], [], EMPTY, 0, false);
    assert [Jmp(0)] + [] == [Jmp(0)];
  }

  /** With 32767 statements or more in its body, `if (true) { true; true; … }` compiles to a branch whose
      distance does not fit: its words are not read back as its code. */
  lemma EncodingFails(n: nat, slot: string -> int) returns (fn: Function)
    requires n >= 0x7FFF && Slots(slot)
    ensures CompileStmts([LongIf(n)], slot) == Some(fn) && DecodeAll(EncodeAll(fn.code)) != Some(fn.code)
    ensures |fn.code| > 2 && fn.code[1] == JmpIfNot(0, n + 1)
  {
    hide DecodeAll, EncodeAll, CompileStmt, Slots;
    LongIfCompiles(n, slot);
    var o := CompileStmt(LongIf(n), 0, TOP, EMPTY, slot);
    var ss := [LongIf(n)];
    assert ss[1..] == [] && o.code + [] == o.code;
    assert CompileSeq([], |o.code|, TOP, o.st, slot) == SOut([], [], o.st, o.st.next, false);
    assert CompileSeq(ss, 0, TOP, EMPTY, slot).code == o.code && !CompileSeq(ss, 0, TOP, EMPTY, slot).err;
    fn := CompileStmts(ss, slot).value;
    assert fn.code == o.code + ENDING;
    LongIfFormed(n);
    assert !FieldsFit(fn.code[1]);
    ScriptExact(ss, slot, fn);
  }

  lemma LongIfFormed(n: nat)
    ensures WellFormed(LongIf(n))
  {
    var body := Copies(n, ExprStmt(True));
    assert WellFormed(Block(body));
  }

  lemma HaltTidy(reach: int, consts: int)
    ensures AllTidy(ENDING, MAX_REGS, reach, consts)
  {
  }

  lemma EmptySound()
    ensures Sound(EMPTY)
  {
  }
}
