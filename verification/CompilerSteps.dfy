/** What each step of the single pass contributes: from the state before an operator, and the state
    its operand leaves, to the code of the whole expression. Nothing here touches the heap. */
module PassSteps {
  import opened Values
  import opened Machine
  import opened Codegen
  import opened ExpressionProof
  import opened Statements
  import opened Grammar

  /** The comparison and NOT shapes a branch may absorb end strictly behind the last patched jump
      unless the expression is a join. */
  ghost predicate Marked(L: seq<Local>, e: Expr, o: Out, size: nat, patched: nat) {
    patched <= size && (IsJoin(e) ==> patched == size) &&
    (!IsJoin(e) && FusedWith(L, false, o).Some? ==> patched < size)
  }

  lemma FreeLess(L: seq<Local>, next: int, reg: int, keep: int)
    ensures FreeUnless(L, next, reg, keep) <= next
  {
  }

  /** The high-water mark covers the register counter, before and after. */
  lemma {:induction false} HiBounds(e: Expr, dest: int, inf: bool, next: int, pool: seq<Const>, sc: Scope)
    ensures var o := Compile(e, dest, inf, next, pool, sc); o.hi >= next && o.hi >= o.next
    decreases e, 1
  {
    hide Compile, FreeUnless, EmitLit, EmitVar;
    if e.Un? {
      HiBounds(e.e, -1, inf, Take(dest, next), pool, sc);
      UnfoldUn(e, dest, inf, next, pool, sc);
      var a := Compile(e.e, -1, inf, Take(dest, next), pool, sc);
      FreeLess(sc.locals, a.next, a.reg, Dest(dest, next));
    } else if e.Bin? {
      HiBin(e, dest, inf, next, pool, sc);
    } else if e.PowE? {
      HiPow(e, dest, inf, next, pool, sc);
    } else if e.And? || e.Or? {
      HiJoin(e, dest, inf, next, pool, sc);
    } else if e.Cond? {
      HiCond(e, dest, inf, next, pool, sc);
    } else if e.Group? {
      HiBounds(e.e, dest, false, next, pool, sc);
      UnfoldGroup(e, dest, inf, next, pool, sc);
    } else if e.Assign? {
      HiAssign(e, dest, inf, next, pool, sc);
    } else {
      HiAtom(e, dest, inf, next, pool, sc);
    }
  }

  lemma HiAtom(e: Expr, dest: int, inf: bool, next: int, pool: seq<Const>, sc: Scope)
    requires e.Lit? || e.StrLit? || e.True? || e.False? || e.NilLit? || e.Var?
    ensures var o := Compile(e, dest, inf, next, pool, sc); o.hi >= next && o.hi >= o.next
  {
    hide IndexOf, Intern, IsLocal;
  }

  lemma {:induction false} HiBin(e: Expr, dest: int, inf: bool, next: int, pool: seq<Const>, sc: Scope)
    requires e.Bin?
    ensures var o := Compile(e, dest, inf, next, pool, sc); o.hi >= next && o.hi >= o.next
    decreases e, 0
  {
    hide Compile, BinTail, Folds, IsLocal;
    UnfoldBin(e, dest, inf, next, pool, sc);
    HiBounds(e.l, dest, true, next, pool, sc);
    var a := Compile(e.l, dest, true, next, pool, sc);
    HiBounds(e.r, -1, inf, Take(dest, a.next), a.pool, sc);
  }

  lemma {:induction false} HiPow(e: Expr, dest: int, inf: bool, next: int, pool: seq<Const>, sc: Scope)
    requires e.PowE?
    ensures var o := Compile(e, dest, inf, next, pool, sc); o.hi >= next && o.hi >= o.next
    decreases e, 0
  {
    hide Compile, IsLocal;
    UnfoldPow(e, dest, inf, next, pool, sc);
    HiBounds(e.l, dest, true, next, pool, sc);
    var a := Compile(e.l, dest, true, next, pool, sc);
    HiBounds(e.r, -1, inf, a.next, a.pool, sc);
  }

  lemma {:induction false} HiJoin(e: Expr, dest: int, inf: bool, next: int, pool: seq<Const>, sc: Scope)
    requires e.And? || e.Or?
    ensures var o := Compile(e, dest, inf, next, pool, sc); o.hi >= next && o.hi >= o.next
    decreases e, 0
  {
    hide Compile, IsLocal, Into, JumpOver;
    UnfoldJoin(e, dest, inf, next, pool, sc);
    HiBounds(e.l, dest, true, next, pool, sc);
    var L := sc.locals;
    var a := Compile(e.l, dest, true, next, pool, sc);
    HiBounds(e.r, JoinReg(L, dest, a), inf, JoinNext(L, dest, a), a.pool, sc);
  }

  lemma {:induction false} HiCond(e: Expr, dest: int, inf: bool, next: int, pool: seq<Const>, sc: Scope)
    requires e.Cond?
    ensures var o := Compile(e, dest, inf, next, pool, sc); o.hi >= next && o.hi >= o.next
    decreases e, 0
  {
    hide Compile, IsLocal, Into, Branches;
    UnfoldCond(e, dest, inf, next, pool, sc);
    HiBounds(e.c, dest, true, next, pool, sc);
    var a := Compile(e.c, dest, true, next, pool, sc);
    var reg := Dest(dest, a.next);
    HiBounds(e.t, reg, false, Take(dest, a.next), a.pool, sc);
    var x := Compile(e.t, reg, false, Take(dest, a.next), a.pool, sc);
    HiBounds(e.f, reg, inf, FreeUnless(sc.locals, x.next, x.reg, reg), x.pool, sc);
  }

  lemma {:induction false} HiAssign(e: Expr, dest: int, inf: bool, next: int, pool: seq<Const>, sc: Scope)
    requires e.Assign?
    ensures var o := Compile(e, dest, inf, next, pool, sc); o.hi >= next && o.hi >= o.next
    decreases e, 0
  {
    hide Compile, IsLocal, StoreLocal;
    UnfoldAssignAny(e, dest, inf, next, pool, sc);
    HiBounds(e.e, -1, false, next, pool, sc);
    HiBounds(e.e, next, false, next + 1, pool, sc);
  }

  /** What an expression's compilation reads and changes. */
  datatype Snap = Snap(code: seq<Instr>, next: int, pool: seq<Const>, max: int, patched: nat, err: bool)

  /** Between two calls while no error has occurred. */
  ghost predicate Going(ts: seq<Token>, n: Snap, pos: nat) {
    !n.err && pos <= |ts| && n.patched <= |n.code| && n.next <= n.max && n.next <= MAX_REGS
  }

  /** From m to n the compiler has produced exactly the code of e. */
  ghost predicate Produced(sc: Scope, e: Expr, dest: int, inf: bool, reg: int, m: Snap, n: Snap) {
    var o := Compile(e, dest, inf, m.next, m.pool, sc);
    n.code == m.code + o.code && reg == o.reg && n.next == o.next && n.pool == o.pool &&
    n.max == Max(m.max, o.hi) && o.hi <= MAX_REGS && Marked(sc.locals, e, o, |n.code|, n.patched)
  }

  /** The tokens are not an expression, or it needs too many registers. */
  ghost predicate Failed(ts: seq<Token>, sc: Scope, r: Option<Parsed<Expr>>, dest: int, m: Snap) {
    r.None? || Compile(r.value.tree, dest, IsInfix(Tok(ts, r.value.at)), m.next, m.pool, sc).hi > MAX_REGS
  }

  /** What a parsing method leaves, given what the grammar makes of the tokens. */
  ghost predicate Result(ts: seq<Token>, sc: Scope, r: Option<Parsed<Expr>>, dest: int, reg: int, m: Snap, n: Snap,
        pos: nat) {
    (n.err <==> Failed(ts, sc, r, dest, m)) && pos <= |ts| &&
    (!n.err ==> pos == r.value.at && Produced(sc, r.value.tree, dest, IsInfix(Tok(ts, pos)), reg, m, n))
  }

  /** After a register has been taken, if none was asked for. */
  function Taken(n: Snap, dest: int): Snap {
    n.(next := Take(dest, n.next), max := Max(n.max, Take(dest, n.next)))
  }

  lemma StillReady(ts: seq<Token>, sc: Scope, e: Expr, dest: int, inf: bool, reg: int, m: Snap, n: Snap, pos: nat)
    requires Produced(sc, e, dest, inf, reg, m, n) && !n.err && pos <= |ts|
    ensures Going(ts, n, pos) && Compile(e, dest, inf, m.next, m.pool, sc).hi <= MAX_REGS
  {
    hide Compile;
    HiBounds(e, dest, inf, m.next, m.pool, sc);
  }

  lemma LeftIs(sc: Scope, l: Expr, dest: int, left: int, m: Snap, n: Snap)
    requires Produced(sc, l, dest, true, left, m, n)
    ensures var a := Compile(l, dest, true, m.next, m.pool, sc);
            n.code == m.code + a.code && left == a.reg && n.next == a.next && n.pool == a.pool &&
            n.max == Max(m.max, a.hi) &&
            n.patched <= |n.code| && a.hi <= MAX_REGS
  {
    hide Compile;
  }

  /** What a successful call says, part by part. */
  lemma Extract(ts: seq<Token>, sc: Scope, r: Option<Parsed<Expr>>, dest: int, reg: int, m: Snap, n: Snap, pos: nat)
    requires Result(ts, sc, r, dest, reg, m, n, pos) && !n.err
    ensures r.Some? && pos == r.value.at && Going(ts, n, pos)
    ensures var o := Compile(r.value.tree, dest, IsInfix(Tok(ts, pos)), m.next, m.pool, sc);
            n.code == m.code + o.code && reg == o.reg && n.next == o.next && n.pool == o.pool &&
            n.max == Max(m.max, o.hi) &&
            o.hi <= MAX_REGS && Marked(sc.locals, r.value.tree, o, |n.code|, n.patched)
  {
    hide Compile;
    StillReady(ts, sc, r.value.tree, dest, IsInfix(Tok(ts, pos)), reg, m, n, pos);
  }

  lemma GoesOn(ts: seq<Token>, sc: Scope, r: Option<Parsed<Expr>>, dest: int, reg: int, m: Snap, n: Snap, pos: nat)
    requires Result(ts, sc, r, dest, reg, m, n, pos) && !n.err
    ensures r.Some? && pos == r.value.at && Going(ts, n, pos)
  {
    hide Compile, Result;
    Extract(ts, sc, r, dest, reg, m, n, pos);
  }

  lemma InRange(ts: seq<Token>, sc: Scope, r: Option<Parsed<Expr>>, dest: int, reg: int, m: Snap, n: Snap, pos: nat)
    requires Result(ts, sc, r, dest, reg, m, n, pos)
    ensures pos <= |ts|
  {
    hide Compile;
  }

  /** What was there stays there. */
  lemma GrewBy(ts: seq<Token>, sc: Scope, r: Option<Parsed<Expr>>, dest: int, reg: int, m: Snap, n: Snap, pos: nat)
    requires Result(ts, sc, r, dest, reg, m, n, pos) && !n.err
    ensures |m.code| <= |n.code| && forall k :: 0 <= k < |m.code| ==> n.code[k] == m.code[k]
  {
    hide Compile;
  }

  lemma Conclude(ts: seq<Token>, sc: Scope, r: Option<Parsed<Expr>>, dest: int, reg: int, m: Snap, n: Snap, pos: nat,
        o: Out)
    requires r.Some? && pos == r.value.at && pos <= |ts| && reg == o.reg && o.hi <= MAX_REGS
    requires o == Compile(r.value.tree, dest, IsInfix(Tok(ts, pos)), m.next, m.pool, sc)
    requires n == Snap(m.code + o.code, o.next, o.pool, Max(m.max, o.hi), n.patched, false)
    requires Marked(sc.locals, r.value.tree, o, |n.code|, n.patched)
    ensures Result(ts, sc, r, dest, reg, m, n, pos)
  {
    hide Compile;
  }

  lemma Fails(ts: seq<Token>, sc: Scope, r: Option<Parsed<Expr>>, dest: int, reg: int, m: Snap, n: Snap, pos: nat)
    requires n.err && pos <= |ts|
    requires r.Some? ==> Compile(r.value.tree, dest, IsInfix(Tok(ts, r.value.at)), m.next, m.pool, sc).hi > MAX_REGS
    ensures Result(ts, sc, r, dest, reg, m, n, pos)
  {
    hide Compile;
  }

  lemma HasFailed(ts: seq<Token>, sc: Scope, r: Option<Parsed<Expr>>, dest: int, reg: int, m: Snap, n: Snap, pos: nat)
    requires n.err && Result(ts, sc, r, dest, reg, m, n, pos)
    ensures pos <= |ts|
    ensures r.Some? ==> Compile(r.value.tree, dest, IsInfix(Tok(ts, r.value.at)), m.next, m.pool, sc).hi > MAX_REGS
  {
    hide Compile;
  }

  function WithOffset(i: Instr, off: int): Instr
    requires i.Jmp? || i.JmpIf? || i.JmpIfNot?
  {
    match i
    case Jmp(_) => Jmp(off)
    case JmpIf(a, _) => JmpIf(a, off)
    case JmpIfNot(a, _) => JmpIfNot(a, off)
  }

  lemma IndexOfFirst(pool: seq<Const>, n: Const, k: nat)
    requires k <= |pool| && n !in pool[..k] && (k < |pool| ==> pool[k] == n)
    ensures IndexOf(pool, n) == k
  {
    if k > 0 {
      assert pool[0] == pool[..k][0];
      assert pool[1..][..k - 1] == pool[..k][1..];
      IndexOfFirst(pool[1..], n, k - 1);
    }
  }

  /** Only a local read in place needs no code. */
  lemma EmptyCode(e: Expr, dest: int, inf: bool, next: int, pool: seq<Const>, sc: Scope)
    requires Compile(e, dest, inf, next, pool, sc).code == []
    ensures IsLocal(sc.locals, Compile(e, dest, inf, next, pool, sc).reg)
  {
    hide IsLocal, Folds, IndexOf, Intern;
    if e.Group? {
      EmptyCode(e.e, dest, false, next, pool, sc);
    }
  }

  lemma NoPrefix(ts: seq<Token>, i: nat, prec: nat, d: nat)
    requires i < |ts| ==>
               !(ts[i].TInt? || ts[i].TStr? || ts[i].TIdent? || ts[i].TTrue? || ts[i].TFalse? || ts[i].TNil? ||
               ts[i] == TOp(BSub) ||
                            ts[i].TNot? || ts[i].TTilde? || ts[i].TLParen?)
    requires d > 0
    ensures ParsePrec(ts, i, prec, d - 1) == None
  {
    hide ParseLoop;
  }

  lemma LoopUnfold(ts: seq<Token>, l: Expr, i: nat, prec: nat, d: nat)
    requires i <= |ts| && prec > 0
    ensures ParseLoop(ts, l, i, prec, d) ==
              if prec > TokPrec(Tok(ts, i)) then Some(Parsed(l, i))
              else match ParseInfix(ts, l, i, d)
                case None => None
                case Some(e) => ParseLoop(ts, e.tree, e.at, prec, d)
  {
    hide ParseInfix;
  }

  /** Operators behind an operand never lower the register count it needs. */
  lemma {:induction false} LoopHi(ts: seq<Token>, l: Expr, i: nat, prec: nat, d: nat, dest: int, m: Snap, sc: Scope)
    requires i <= |ts| && prec > 0
    ensures var r := ParseLoop(ts, l, i, prec, d);
            r.Some? ==> Compile(r.value.tree, dest, IsInfix(Tok(ts, r.value.at)), m.next, m.pool, sc).hi >=
                        Compile(l, dest, IsInfix(Tok(ts, i)), m.next, m.pool, sc).hi
    decreases |ts| - i
  {
    hide Compile, ParseInfix;
    LoopUnfold(ts, l, i, prec, d);
    if prec <= TokPrec(Tok(ts, i)) {
      var r := ParseInfix(ts, l, i, d);
      if r.Some? {
        InfixHi(ts, l, i, d, dest, m, sc);
        LoopHi(ts, r.value.tree, r.value.at, prec, d, dest, m, sc);
      }
    }
  }

  lemma InfixHi(ts: seq<Token>, l: Expr, i: nat, d: nat, dest: int, m: Snap, sc: Scope)
    requires i < |ts| && IsInfix(ts[i])
    ensures var r := ParseInfix(ts, l, i, d);
            r.Some? ==> Compile(r.value.tree, dest, IsInfix(Tok(ts, r.value.at)), m.next, m.pool, sc).hi >=
                        Compile(l, dest, true, m.next, m.pool, sc).hi
  {
    hide ParsePrec, ParseInfix, Compile, FreeUnless, IsLocal, Into, Branches, EmitBin, EmitJoin;
    var r := ParseInfix(ts, l, i, d);
    if ts[i].TQuestion? {
      CondOf(ts, l, i, d);
      if r.Some? { TernaryHi(r.value.tree, dest, IsInfix(Tok(ts, r.value.at)), m, sc); }
    } else if ts[i].TLParen? {
      CallNone(ts, l, i, d);
    } else {
      RightOf(ts, l, i, d);
      if r.Some? { SidesHi(r.value.tree, dest, IsInfix(Tok(ts, r.value.at)), m, sc); }
    }
  }

  lemma SidesHi(e: Expr, dest: int, inf: bool, m: Snap, sc: Scope)
    requires TwoSided(e)
    ensures Compile(e, dest, inf, m.next, m.pool, sc).hi >= Compile(e.l, dest, true, m.next, m.pool, sc).hi
  {
    hide Compile, FreeUnless, IsLocal, Into, JumpWord, EmitBin, EmitPow, EmitJoin;
    if e.Bin? {
      BinaryHi(e, dest, inf, m, sc);
    } else if e.PowE? {
      PowHi(e, dest, inf, m, sc);
    } else {
      JoinHi(e, dest, inf, m, sc);
    }
  }

  /** What the grammar makes of a question mark. */
  lemma CondOf(ts: seq<Token>, l: Expr, i: nat, d: nat)
    requires i < |ts| && ts[i].TQuestion?
    ensures var x, r := ParsePrec(ts, i + 1, PREC_OR, d), ParseInfix(ts, l, i, d);
            if x.None? || !Tok(ts, x.value.at).TColon? then r.None?
            else var y := ParsePrec(ts, x.value.at + 1, PREC_OR, d);
                 if y.None? then r.None? else r == Some(Parsed(Cond(l, x.value.tree, y.value.tree), y.value.at))
  {
    hide ParsePrec;
  }

  // ---------------------------------------------------------------- `**`

  lemma PowHi(e: Expr, dest: int, inf: bool, m: Snap, sc: Scope)
    requires e.PowE?
    ensures var a := Compile(e.l, dest, true, m.next, m.pool, sc);
            var b := Compile(e.r, -1, inf, a.next, a.pool, sc);
            var o := EmitPow(sc.locals, dest, a, b);
            Compile(e, dest, inf, m.next, m.pool, sc) == o && o.hi == Max(a.hi, Max(b.hi, Take(dest, b.next)))
  {
    hide Compile, Free;
    UnfoldPow(e, dest, inf, m.next, m.pool, sc);
  }

  lemma PowMarked(L: seq<Local>, e: Expr, dest: int, a: Out, b: Out, start: nat, patched: nat)
    requires e.PowE? && patched <= start + |a.code| + |b.code|
    ensures var o := EmitPow(L, dest, a, b); Marked(L, e, o, start + |o.code|, patched)
  {
    hide IsLocal, Free;
  }

  lemma PowEnds(ts: seq<Token>, sc: Scope, l: Expr, i: nat, d: nat, dest: int, left: int, right: int,
                m: Snap, was: Snap, aft: Snap, fin: Snap, pos: nat)
    requires i < |ts| && ts[i].TStarStar? && Produced(sc, l, dest, true, left, m, was)
    requires Result(ts, sc, ParsePrec(ts, i + 1, PREC_POWER, d), -1, right, was, aft, pos)
    requires var reg := Dest(dest, aft.next);
             if aft.err || Take(dest, aft.next) > MAX_REGS then fin.err
             else fin == Taken(aft, dest).(code := aft.code + [Arith(Pow, reg, left, right)],
                                           next := FreeUnless(sc.locals, FreeUnless(sc.locals, Take(dest, aft.next),
                                               right, reg), left, reg))
    ensures Result(ts, sc, ParseInfix(ts, l, i, d), dest, if fin.err then -1 else Dest(dest, aft.next), m, fin, pos)
    ensures fin.err ==> forall reg :: Result(ts, sc, ParseInfix(ts, l, i, d), dest, reg, m, fin, pos)
  {
    hide Compile, ParsePrec, ParseInfix, IsLocal, Produced, Marked, Free, FreeUnless;
    RightOf(ts, l, i, d);
    var r := ParsePrec(ts, i + 1, PREC_POWER, d);
    LeftIs(sc, l, dest, left, m, was);
    if r.Some? { PowHi(PowE(l, r.value.tree), dest, IsInfix(Tok(ts, r.value.at)), m, sc); }
    if aft.err {
      HasFailed(ts, sc, r, -1, right, was, aft, pos);
    } else {
      Extract(ts, sc, r, -1, right, was, aft, pos);
      var e := PowE(l, r.value.tree);
      var a := Compile(l, dest, true, m.next, m.pool, sc);
      var b := Compile(e.r, -1, IsInfix(Tok(ts, pos)), a.next, a.pool, sc);
      if !fin.err {
        MarkedFits(sc.locals, e.r, b, |aft.code|, aft.patched);
        PowMarked(sc.locals, e, dest, a, b, |m.code|, aft.patched);
        var o := EmitPow(sc.locals, dest, a, b);
        assert fin.code == m.code + o.code;
        Conclude(ts, sc, ParseInfix(ts, l, i, d), dest, o.reg, m, fin, pos, o);
      }
    }
  }

  // ---------------------------------------------------------------- `and`, `or`

  /** After the result register of a short-circuit operator has been chosen. */
  function JoinTaken(L: seq<Local>, dest: int, left: int, n: Snap): Snap {
    if dest < 0 && IsLocal(L, left) then Taken(n, -1) else n
  }

  function JumpWord(isAnd: bool, reg: int, off: int): Instr {
    if isAnd then JmpIfNot(reg, off) else JmpIf(reg, off)
  }

  /** The left value is in the result register, and a jump waits behind it. */
  predicate JoinStarted(L: seq<Local>, isAnd: bool, dest: int, left: int, reg: int, was: Snap, mid: Snap) {
    (reg == if dest >= 0 then dest else if IsLocal(L, left) then was.next else left) &&
    mid == JoinTaken(L, dest, left, was).(code := was.code + MoveTo(reg, left) + [JumpWord(isAnd, reg, 0)])
  }

  /** A jump that waits for its distance. */
  predicate Aimable(code: seq<Instr>, offset: nat) {
    offset < |code| && (code[offset].Jmp? || code[offset].JmpIf? || code[offset].JmpIfNot?)
  }

  /** The code with the jump at offset aimed at its end. */
  function Patched(code: seq<Instr>, offset: nat): (r: seq<Instr>)
    ensures |r| == |code|
  {
    if Aimable(code, offset) then code[offset := WithOffset(code[offset], |code| - (offset + 1))] else code
  }

  lemma PatchedIs(before: seq<Instr>, j: Instr, rest: seq<Instr>)
    requires j.Jmp? || j.JmpIf? || j.JmpIfNot?
    ensures var code := before + [j] + rest;
            Aimable(code, |before|) && Patched(code, |before|) == before + ([WithOffset(j, |rest|)] + rest)
  {
  }

  lemma JoinHi(e: Expr, dest: int, inf: bool, m: Snap, sc: Scope)
    requires e.And? || e.Or?
    ensures var a := Compile(e.l, dest, true, m.next, m.pool, sc);
            var b := Compile(e.r, JoinReg(sc.locals, dest, a), inf, JoinNext(sc.locals, dest, a), a.pool, sc);
            var o := EmitJoin(sc.locals, e.And?, JoinReg(sc.locals, dest, a), a, b);
            Compile(e, dest, inf, m.next, m.pool, sc) == o && o.hi == Max(a.hi, b.hi) &&
            b.hi >= JoinNext(sc.locals, dest, a) &&
            o.reg == JoinReg(sc.locals, dest, a) && o.pool == b.pool &&
            o.next == FreeUnless(sc.locals, FreeUnless(sc.locals, b.next, b.reg, o.reg), a.reg, o.reg) &&
            o.code == Into(o.reg, a) + ([JumpWord(e.And?, o.reg, |Into(o.reg, b)|)] + Into(o.reg, b))
  {
    hide Compile, FreeUnless, Free, IsLocal;
    UnfoldJoin(e, dest, inf, m.next, m.pool, sc);
    var a := Compile(e.l, dest, true, m.next, m.pool, sc);
    HiBounds(e.r, JoinReg(sc.locals, dest, a), inf, JoinNext(sc.locals, dest, a), a.pool, sc);
  }

  lemma JoinCode(m: seq<Instr>, a: Out, b: Out, isAnd: bool, reg: int, was: seq<Instr>, aft: seq<Instr>)
    requires was == m + a.code && aft == was + MoveTo(reg, a.reg) + [JumpWord(isAnd, reg, 0)] + b.code
    ensures var all, jump := aft + MoveTo(reg, b.reg), |was + MoveTo(reg, a.reg)|;
            Aimable(all, jump) &&
            Patched(all, jump) == m + (Into(reg, a) + ([JumpWord(isAnd, reg, |Into(reg, b)|)] + Into(reg, b)))
  {
    hide Patched;
    var before, j, rest := was + MoveTo(reg, a.reg), JumpWord(isAnd, reg, 0), Into(reg, b);
    assert aft + MoveTo(reg, b.reg) == before + [j] + rest;
    PatchedIs(before, j, rest);
    var tail := [JumpWord(isAnd, reg, |rest|)] + rest;
    assert before + tail == m + (Into(reg, a) + tail);
  }

  lemma JoinAimable(ts: seq<Token>, sc: Scope, i: nat, d: nat, reg: int, right: int, jump: nat, mid: Snap, aft: Snap,
        pos: nat)
    requires i < |ts| && (ts[i].TAnd? || ts[i].TOr?) && jump + 1 == |mid.code| &&
             mid.code[jump] == JumpWord(ts[i].TAnd?, reg, 0)
    requires Result(ts, sc, ParsePrec(ts, i + 1, TokPrec(ts[i]), d), reg, right, mid, aft, pos) && !aft.err
    ensures Aimable(aft.code + MoveTo(reg, right), jump)
  {
    hide Compile, ParsePrec, Result;
    GrewBy(ts, sc, ParsePrec(ts, i + 1, TokPrec(ts[i]), d), reg, right, mid, aft, pos);
  }

  lemma JoinEnds(ts: seq<Token>, sc: Scope, l: Expr, i: nat, d: nat, dest: int, left: int, reg: int, right: int,
                 m: Snap, was: Snap, mid: Snap, aft: Snap, fin: Snap, pos: nat)
    requires i < |ts| && (ts[i].TAnd? || ts[i].TOr?) && Produced(sc, l, dest, true, left, m, was)
    requires JoinStarted(sc.locals, ts[i].TAnd?, dest, left, reg, was, mid)
    requires Result(ts, sc, ParsePrec(ts, i + 1, TokPrec(ts[i]), d), reg, right, mid, aft, pos)
    requires if aft.err then fin == aft
             else var all, jump := aft.code + MoveTo(reg, right), |was.code + MoveTo(reg, left)|;
                  fin == aft.(code := Patched(all, jump), patched := Max(aft.patched, |all|),
                              next := FreeUnless(sc.locals, FreeUnless(sc.locals, aft.next, right, reg), left, reg))
    ensures Result(ts, sc, ParseInfix(ts, l, i, d), dest, reg, m, fin, pos)
  {
    hide Compile, ParsePrec, ParseInfix, IsLocal, Produced, Result, Free, FreeUnless, Patched, EmitJoin, FusedWith,
        Into, MoveTo, JumpWord;
    RightOf(ts, l, i, d);
    var r := ParsePrec(ts, i + 1, TokPrec(ts[i]), d);
    LeftIs(sc, l, dest, left, m, was);
    var r' := ParseInfix(ts, l, i, d);
    if r.Some? { JoinHi(r'.value.tree, dest, IsInfix(Tok(ts, r.value.at)), m, sc); }
    if aft.err {
      HasFailed(ts, sc, r, reg, right, mid, aft, pos);
      Fails(ts, sc, r', dest, reg, m, fin, pos);
    } else {
      Extract(ts, sc, r, reg, right, mid, aft, pos);
      var e := r'.value.tree;
      var a := Compile(l, dest, true, m.next, m.pool, sc);
      var b := Compile(e.r, reg, IsInfix(Tok(ts, pos)), mid.next, a.pool, sc);
      var o := Compile(e, dest, IsInfix(Tok(ts, pos)), m.next, m.pool, sc);
      JoinCode(m.code, a, b, ts[i].TAnd?, reg, was.code, aft.code);
      MarkedFits(sc.locals, e.r, b, |aft.code|, aft.patched);
      Conclude(ts, sc, r', dest, reg, m, fin, pos, o);
    }
  }

  /** A short-circuit operator whose register could not be had. */
  lemma JoinFails(ts: seq<Token>, sc: Scope, l: Expr, i: nat, d: nat, dest: int, left: int, reg: int, m: Snap,
        was: Snap, n: Snap, pos: nat)
    requires i < |ts| && (ts[i].TAnd? || ts[i].TOr?) && Produced(sc, l, dest, true, left, m, was) && n.err &&
             pos <= |ts|
    requires JoinTaken(sc.locals, dest, left, was).next > MAX_REGS
    ensures Result(ts, sc, ParseInfix(ts, l, i, d), dest, reg, m, n, pos)
  {
    hide Compile, ParsePrec, ParseInfix, IsLocal, Result, Free, FreeUnless, EmitJoin;
    RightOf(ts, l, i, d);
    var r := ParseInfix(ts, l, i, d);
    if r.Some? { JoinHi(r.value.tree, dest, IsInfix(Tok(ts, r.value.at)), m, sc); }
    Fails(ts, sc, r, dest, reg, m, n, pos);
  }

  // ---------------------------------------------------------------- `?:`

  lemma TernaryHi(e: Expr, dest: int, inf: bool, m: Snap, sc: Scope)
    requires e.Cond?
    ensures var a := Compile(e.c, dest, true, m.next, m.pool, sc);
            var reg := Dest(dest, a.next);
            var x := Compile(e.t, reg, false, Take(dest, a.next), a.pool, sc);
            var y := Compile(e.f, reg, inf, FreeUnless(sc.locals, x.next, x.reg, reg), x.pool, sc);
            var o := Compile(e, dest, inf, m.next, m.pool, sc);
            o.reg == reg && o.pool == y.pool && o.hi == Max(a.hi, Max(x.hi, y.hi)) && x.hi >= Take(dest, a.next) &&
            x.hi >= x.next &&
            o.next == FreeUnless(sc.locals, FreeUnless(sc.locals, y.next, y.reg, reg), a.reg, reg) &&
            o.code == Into(reg, a) + Branches(reg, Into(reg, x), Into(reg, y))
  {
    hide Compile, FreeUnless, Free, Branches, Into;
    UnfoldCond(e, dest, inf, m.next, m.pool, sc);
    var a := Compile(e.c, dest, true, m.next, m.pool, sc);
    HiBounds(e.t, Dest(dest, a.next), false, Take(dest, a.next), a.pool, sc);
  }

  /** After the condition: its value in place, and a jump that waits. */
  function CondStarted(n: Snap, dest: int, reg: int, cond: int): Snap {
    Taken(n, dest).(code := n.code + MoveTo(reg, cond) + [JmpIfNot(reg, 0)])
  }

  /** After a branch: its value in place, and the waiting jump aimed behind it; another jump waits
      when the other branch follows. */
  function ThenEnded(L: seq<Local>, n: Snap, reg: int, v: int, jump: nat): Snap
  {
    var all := n.code + MoveTo(reg, v) + [Jmp(0)];
    n.(code := Patched(all, jump), patched := Max(n.patched, |all|), next := FreeUnless(L, n.next, v, reg))
  }

  function ElseEnded(L: seq<Local>, n: Snap, reg: int, v: int, cond: int, jump: nat): Snap
  {
    var all := n.code + MoveTo(reg, v);
    n.(code := Patched(all, jump), patched := Max(n.patched, |all|),
        next := FreeUnless(L, FreeUnless(L, n.next, v, reg), cond, reg))
  }

  lemma ThenCode(start: seq<Instr>, reg: int, x: Out, aft: seq<Instr>)
    requires aft == start + [JmpIfNot(reg, 0)] + x.code
    ensures var all := aft + MoveTo(reg, x.reg) + [Jmp(0)];
            Aimable(all, |start|) &&
            Patched(all, |start|) == start + [JmpIfNot(reg, |Into(reg, x)| + 1)] + Into(reg, x) + [Jmp(0)]
  {
    hide Patched;
    var tail := Into(reg, x) + [Jmp(0)];
    assert aft + MoveTo(reg, x.reg) + [Jmp(0)] == start + [JmpIfNot(reg, 0)] + tail;
    PatchedIs(start, JmpIfNot(reg, 0), tail);
  }

  lemma ElseCode(m: seq<Instr>, reg: int, a: Out, tc: seq<Instr>, y: Out, aft: seq<Instr>)
    requires aft == m + Into(reg, a) + [JmpIfNot(reg, |tc| + 1)] + tc + [Jmp(0)] + y.code
    ensures var all, jump := aft + MoveTo(reg, y.reg), |m| + |Into(reg, a)| + 1 + |tc|;
            Aimable(all, jump) && Patched(all, jump) == m + (Into(reg, a) + Branches(reg, tc, Into(reg, y)))
  {
    hide Patched, Into;
    var before := m + Into(reg, a) + [JmpIfNot(reg, |tc| + 1)] + tc;
    assert aft + MoveTo(reg, y.reg) == before + [Jmp(0)] + (y.code + MoveTo(reg, y.reg));
    assert y.code + MoveTo(reg, y.reg) == Into(reg, y) by { IntoIs(reg, y); }
    PatchedIs(before, Jmp(0), Into(reg, y));
  }

  lemma IntoIs(reg: int, o: Out)
    ensures Into(reg, o) == o.code + MoveTo(reg, o.reg)
  {
  }

  /** A ternary that ended in an error. */
  lemma CondFails(ts: seq<Token>, sc: Scope, l: Expr, i: nat, d: nat, dest: int, cond: int, reg: int, m: Snap,
        was: Snap, n: Snap, pos: nat)
    requires i < |ts| && ts[i].TQuestion? && Produced(sc, l, dest, true, cond, m, was) && n.err && pos <= |ts|
    requires var x := ParsePrec(ts, i + 1, PREC_OR, d);
             Take(dest, was.next) > MAX_REGS || x.None? || !Tok(ts, x.value.at).TColon? ||
             Compile(x.value.tree, Dest(dest, was.next), false, Take(dest, was.next), was.pool, sc).hi > MAX_REGS
    ensures Result(ts, sc, ParseInfix(ts, l, i, d), dest, reg, m, n, pos)
  {
    hide Compile, ParsePrec, ParseInfix, IsLocal, Result, Free, FreeUnless, Branches, Into;
    CondOf(ts, l, i, d);
    var r := ParseInfix(ts, l, i, d);
    if r.Some? { TernaryHi(r.value.tree, dest, IsInfix(Tok(ts, r.value.at)), m, sc); }
    Fails(ts, sc, r, dest, reg, m, n, pos);
  }

  /** The then-branch of the ternary at i has just been compiled, and a colon follows. */
  ghost predicate ThenDone(ts: seq<Token>, sc: Scope, l: Expr, i: nat, d: nat, dest: int, cond: int, reg: int, v: int,
                           m: Snap, was: Snap, aft: Snap, pos: nat) {
    i < |ts| && ts[i].TQuestion? && Produced(sc, l, dest, true, cond, m, was) && reg == Dest(dest, was.next) &&
    Result(ts, sc, ParsePrec(ts, i + 1, PREC_OR, d), reg, v, CondStarted(was, dest, reg, cond), aft, pos) &&
    !aft.err && Tok(ts, pos).TColon?
  }

  /** The state between the two branches. */
  lemma ThenState(ts: seq<Token>, sc: Scope, l: Expr, i: nat, d: nat, dest: int, cond: int, reg: int, v: int,
                  m: Snap, was: Snap, aft: Snap, pos: nat)
    requires ThenDone(ts, sc, l, i, d, dest, cond, reg, v, m, was, aft, pos)
    ensures var a := Compile(l, dest, true, m.next, m.pool, sc);
            var t := ParsePrec(ts, i + 1, PREC_OR, d);
            t.Some? && t.value.at == pos < |ts| && Tok(ts, pos) == TColon &&
            var x := Compile(t.value.tree, reg, false, Take(dest, a.next), a.pool, sc);
            var jump := |was.code + MoveTo(reg, cond)|;
            jump == |m.code| + |Into(reg, a)| && Aimable(aft.code + MoveTo(reg, v) + [Jmp(0)], jump) && v == x.reg &&
            |aft.code + MoveTo(reg, v)| == jump + 1 + |Into(reg, x)| &&
            cond == a.reg && was.code == m.code + a.code && was.next == a.next && was.pool == a.pool &&
            a.hi <= MAX_REGS && x.hi <= MAX_REGS &&
            ThenEnded(sc.locals, aft, reg, v, jump) ==
              Snap(m.code + Into(reg, a) + [JmpIfNot(reg, |Into(reg, x)| + 1)] + Into(reg, x) + [Jmp(0)],
                  FreeUnless(sc.locals, x.next, x.reg, reg), x.pool,
                   Max(Max(Max(m.max, a.hi), Take(dest, a.next)), x.hi), |aft.code + MoveTo(reg, v)| + 1, false) &&
            Going(ts, ThenEnded(sc.locals, aft, reg, v, jump), pos + 1)
  {
    hide Compile, ParsePrec, IsLocal, Produced, Result, Free, FreeUnless, Patched, Into;
    var t := ParsePrec(ts, i + 1, PREC_OR, d);
    var mid := CondStarted(was, dest, reg, cond);
    LeftIs(sc, l, dest, cond, m, was);
    Extract(ts, sc, t, reg, v, mid, aft, pos);
    var a := Compile(l, dest, true, m.next, m.pool, sc);
    var x := Compile(t.value.tree, reg, false, Take(dest, a.next), a.pool, sc);
    MarkedFits(sc.locals, t.value.tree, x, |aft.code|, aft.patched);
    HiBounds(t.value.tree, reg, false, Take(dest, a.next), a.pool, sc);
    FreeLess(sc.locals, x.next, x.reg, reg);
    var start := was.code + MoveTo(reg, cond);
    assert start == m.code + Into(reg, a) by { IntoIs(reg, a); }
    IntoIs(reg, x);
    ThenCode(start, reg, x, aft.code);
  }

  /** The jump over the else-branch still waits where it was emitted. */
  lemma CondAimable(ts: seq<Token>, sc: Scope, l: Expr, i: nat, d: nat, dest: int, cond: int, reg: int, v: int, w: int,
                    m: Snap, was: Snap, aft: Snap, pos: nat, aft': Snap, pos': nat)
    requires ThenDone(ts, sc, l, i, d, dest, cond, reg, v, m, was, aft, pos) && !aft'.err
    requires Result(ts, sc, ParsePrec(ts, pos + 1, PREC_OR, d), reg, w,
             ThenEnded(sc.locals, aft, reg, v, |was.code + MoveTo(reg, cond)|), aft', pos')
    ensures Aimable(aft'.code + MoveTo(reg, w), |aft.code + MoveTo(reg, v)|)
  {
    hide Compile, ParsePrec, ParseInfix, IsLocal, Produced, Result, Free, FreeUnless, Patched, Into, ThenEnded,
        Branches;
    ThenState(ts, sc, l, i, d, dest, cond, reg, v, m, was, aft, pos);
    GrewBy(ts, sc, ParsePrec(ts, pos + 1, PREC_OR, d), reg, w,
        ThenEnded(sc.locals, aft, reg, v, |was.code + MoveTo(reg, cond)|), aft', pos');
  }

  lemma CondEnds(ts: seq<Token>, sc: Scope, l: Expr, i: nat, d: nat, dest: int, cond: int, reg: int, v: int, w: int,
                 m: Snap, was: Snap, aft: Snap, pos: nat, aft': Snap, fin: Snap, pos': nat)
    requires ThenDone(ts, sc, l, i, d, dest, cond, reg, v, m, was, aft, pos)
    requires var jump := |was.code + MoveTo(reg, cond)|;
             Result(ts, sc, ParsePrec(ts, pos + 1, PREC_OR, d), reg, w, ThenEnded(sc.locals, aft, reg, v, jump), aft',
                 pos')
    requires var jump := |aft.code + MoveTo(reg, v)|;
             if aft'.err then fin == aft'
             else fin == ElseEnded(sc.locals, aft', reg, w, cond, jump)
    ensures Result(ts, sc, ParseInfix(ts, l, i, d), dest, reg, m, fin, pos')
  {
    hide Compile, ParsePrec, ParseInfix, IsLocal, Produced, Result, Free, FreeUnless, Patched, Into, ThenEnded,
        Branches, FusedWith, MoveTo;
    ThenState(ts, sc, l, i, d, dest, cond, reg, v, m, was, aft, pos);
    CondOf(ts, l, i, d);
    var r, t, u := ParseInfix(ts, l, i, d), ParsePrec(ts, i + 1, PREC_OR, d), ParsePrec(ts, pos + 1, PREC_OR, d);
    var mid := ThenEnded(sc.locals, aft, reg, v, |was.code + MoveTo(reg, cond)|);
    if u.Some? { TernaryHi(r.value.tree, dest, IsInfix(Tok(ts, u.value.at)), m, sc); }
    if aft'.err {
      HasFailed(ts, sc, u, reg, w, mid, aft', pos');
      Fails(ts, sc, r, dest, reg, m, fin, pos');
    } else {
      Extract(ts, sc, u, reg, w, mid, aft', pos');
      var e := r.value.tree;
      var a := Compile(l, dest, true, m.next, m.pool, sc);
      var x := Compile(e.t, reg, false, Take(dest, a.next), a.pool, sc);
      var y := Compile(e.f, reg, IsInfix(Tok(ts, pos')), mid.next, x.pool, sc);
      MarkedFits(sc.locals, e.f, y, |aft'.code|, aft'.patched);
      ElseCode(m.code, reg, a, Into(reg, x), y, aft'.code);
      Conclude(ts, sc, r, dest, reg, m, fin, pos', Compile(e, dest, IsInfix(Tok(ts, pos')), m.next, m.pool, sc));
    }
  }

  // ---------------------------------------------------------------- assignment

  function Assigned(x: string, r: Option<Parsed<Expr>>): Option<Parsed<Expr>> {
    if r.None? then None else Some(Parsed(Assign(x, r.value.tree), r.value.at))
  }

  /** Only the value's own code can be redirected. */
  lemma StoreBehind(L: seq<Local>, m: seq<Instr>, code: seq<Instr>, src: int, dst: int)
    requires code == [] ==> IsLocal(L, src)
    ensures StoreLocal(L, m + code, src, dst) == m + StoreLocal(L, code, src, dst)
  {
    hide IsLocal;
    if code == [] {
      assert m + code == m;
      assert m + [Move(dst, src)] == m + (code + [Move(dst, src)]);
    } else {
      var whole := m + code;
      assert whole[|whole| - 1] == code[|code| - 1];
      assert whole[..|whole| - 1] == m + code[..|code| - 1];
      if Retargetable(code[|code| - 1]) {
        var i := WithDest(code[|code| - 1], dst);
        assert (m + code[..|code| - 1]) + [i] == m + (code[..|code| - 1] + [i]);
      }
      assert whole + [Move(dst, src)] == m + (code + [Move(dst, src)]);
    }
  }

  lemma StoreMarked(L: seq<Local>, e: Expr, home: int, dest: int, next: int, a: Out, start: nat, patched: nat)
    requires e.Assign? && IsLocal(L, home) && patched <= start + |a.code|
    ensures var o := EmitAssignLocal(L, home, dest, next, a); Marked(L, e, o, start + |o.code|, patched)
  {
    hide IsLocal;
  }

  lemma AssignLocalHi(e: Expr, dest: int, inf: bool, m: Snap, sc: Scope, home: int)
    requires e.Assign? && home == Resolve(sc.locals, e.name) && home != -1
    ensures Compile(e, dest, inf, m.next, m.pool, sc) ==
              EmitAssignLocal(sc.locals, home, dest, m.next, Compile(e.e, -1, false, m.next, m.pool, sc))
  {
    hide Compile, EmitAssignLocal;
    UnfoldAssignAny(e, dest, inf, m.next, m.pool, sc);
  }

  lemma AssignGlobalHi(e: Expr, dest: int, inf: bool, m: Snap, sc: Scope)
    requires e.Assign? && Resolve(sc.locals, e.name) == -1
    ensures var a := Compile(e.e, m.next, false, m.next + 1, m.pool, sc);
            var o := EmitAssignGlobal(sc.locals, sc.slot(e.name), dest, m.next, a);
            Compile(e, dest, inf, m.next, m.pool, sc) == o && o.hi == a.hi && a.hi >= m.next + 1
  {
    hide Compile;
    UnfoldAssignAny(e, dest, inf, m.next, m.pool, sc);
    HiBounds(e.e, m.next, false, m.next + 1, m.pool, sc);
  }

  /** An operand parsed at the lowest precedence takes in every operator that follows. */
  lemma NoInfixAfter(ts: seq<Token>, i: nat, d: nat)
    ensures var r := ParsePrec(ts, i, PREC_ASSIGNMENT, d); r.Some? ==> !IsInfix(Tok(ts, r.value.at))
  {
    hide ParseLoop, ParsePrefix;
    if d < MAX_PARSE_DEPTH && i < |ts| {
      var l := ParsePrefix(ts, i, PREC_ASSIGNMENT, d + 1);
      if l.Some? { LoopStops(ts, l.value.tree, l.value.at, d + 1); }
    }
  }

  lemma {:induction false} LoopStops(ts: seq<Token>, l: Expr, i: nat, d: nat)
    requires i <= |ts|
    ensures var r := ParseLoop(ts, l, i, PREC_ASSIGNMENT, d); r.Some? ==> !IsInfix(Tok(ts, r.value.at))
    decreases |ts| - i
  {
    hide ParseInfix;
    if IsInfix(Tok(ts, i)) {
      var r := ParseInfix(ts, l, i, d);
      if r.Some? { LoopStops(ts, r.value.tree, r.value.at, d); }
    }
  }

  lemma AssignLocalEnds(ts: seq<Token>, sc: Scope, x: string, i: nat, d: nat, dest: int, home: int, rhs: int,
                        m: Snap, aft: Snap, fin: Snap, pos: nat)
    requires home == Resolve(sc.locals, x) && home != -1
    requires Result(ts, sc, ParsePrec(ts, i, PREC_ASSIGNMENT, d), -1, rhs, m, aft, pos)
    requires if aft.err then fin == aft
             else fin == aft.(code := StoreLocal(sc.locals, aft.code, rhs, home) +
                 (if dest >= 0 then MoveTo(dest, home) else []), next := m.next)
    ensures Result(ts, sc, Assigned(x, ParsePrec(ts, i, PREC_ASSIGNMENT, d)), dest, if dest >= 0 then dest
            else home, m, fin, pos)
    ensures fin.err ==> Result(ts, sc, Assigned(x, ParsePrec(ts, i, PREC_ASSIGNMENT, d)), dest, -1, m, fin, pos)
  {
    hide Compile, ParsePrec, IsLocal, Result, StoreLocal;
    var r := ParsePrec(ts, i, PREC_ASSIGNMENT, d);
    NoInfixAfter(ts, i, d);
    if r.Some? { AssignLocalHi(Assign(x, r.value.tree), dest, false, m, sc, home); }
    if aft.err {
      HasFailed(ts, sc, r, -1, rhs, m, aft, pos);
      Fails(ts, sc, Assigned(x, r), dest, if dest >= 0 then dest else home, m, fin, pos);
      Fails(ts, sc, Assigned(x, r), dest, -1, m, fin, pos);
    } else {
      Extract(ts, sc, r, -1, rhs, m, aft, pos);
      var a := Compile(r.value.tree, -1, false, m.next, m.pool, sc);
      if a.code == [] { EmptyCode(r.value.tree, -1, false, m.next, m.pool, sc); }
      MarkedFits(sc.locals, r.value.tree, a, |aft.code|, aft.patched);
      StoreBehind(sc.locals, m.code, a.code, rhs, home);
      StoreMarked(sc.locals, Assign(x, r.value.tree), home, dest, m.next, a, |m.code|, aft.patched);
      var o := EmitAssignLocal(sc.locals, home, dest, m.next, a);
      assert fin.code == m.code + o.code;
      Conclude(ts, sc, Assigned(x, r), dest, o.reg, m, fin, pos, o);
    }
  }

  lemma AssignGlobalEnds(ts: seq<Token>, sc: Scope, x: string, i: nat, d: nat, dest: int, unused: int,
                         m: Snap, aft: Snap, fin: Snap, pos: nat)
    requires Resolve(sc.locals, x) == -1
    requires Result(ts, sc, ParsePrec(ts, i, PREC_ASSIGNMENT, d), m.next, unused, Taken(m, -1), aft, pos)
    requires if aft.err then fin == aft
             else fin == aft.(code := aft.code + [SetGlobal(m.next, sc.slot(x))] +
                 (if dest >= 0 then MoveTo(dest, m.next) else []),
                              next := if dest >= 0 then FreeUnless(sc.locals, aft.next, m.next, dest) else aft.next)
    ensures Result(ts, sc, Assigned(x, ParsePrec(ts, i, PREC_ASSIGNMENT, d)), dest, if dest >= 0 then dest
            else m.next, m, fin, pos)
    ensures fin.err ==> Result(ts, sc, Assigned(x, ParsePrec(ts, i, PREC_ASSIGNMENT, d)), dest, m.next, m, fin, pos)
  {
    hide Compile, ParsePrec, IsLocal, Result, Free;
    var r := ParsePrec(ts, i, PREC_ASSIGNMENT, d);
    NoInfixAfter(ts, i, d);
    if r.Some? { AssignGlobalHi(Assign(x, r.value.tree), dest, false, m, sc); }
    if aft.err {
      HasFailed(ts, sc, r, m.next, unused, Taken(m, -1), aft, pos);
      Fails(ts, sc, Assigned(x, r), dest, if dest >= 0 then dest else m.next, m, fin, pos);
      Fails(ts, sc, Assigned(x, r), dest, m.next, m, fin, pos);
    } else {
      Extract(ts, sc, r, m.next, unused, Taken(m, -1), aft, pos);
      var a := Compile(r.value.tree, m.next, false, m.next + 1, m.pool, sc);
      MarkedFits(sc.locals, r.value.tree, a, |aft.code|, aft.patched);
      var o := EmitAssignGlobal(sc.locals, sc.slot(x), dest, m.next, a);
      assert fin.code == m.code + o.code;
      Conclude(ts, sc, Assigned(x, r), dest, o.reg, m, fin, pos, o);
    }
  }

  // ---------------------------------------------------------------- prefix operators

  lemma UnaryEnds(ts: seq<Token>, sc: Scope, u: UnOp, i: nat, d: nat, dest: int, reg: int, operand: int, m: Snap,
        aft: Snap, fin: Snap, pos: nat)
    requires i < |ts| && reg == Dest(dest, m.next) &&
             Result(ts, sc, ParsePrec(ts, i + 1, PREC_POWER, d), -1, operand, Taken(m, dest), aft, pos)
    requires if aft.err then fin == aft
             else fin == aft.(code := aft.code + [Unary(u, reg, operand)],
                 next := FreeUnless(sc.locals, aft.next, operand, reg))
    ensures Result(ts, sc, ParseUnary(ts, i, u, d), dest, reg, m, fin, pos)
  {
    hide Compile, ParsePrec, IsLocal, Result, FreeUnless;
    var r := ParsePrec(ts, i + 1, PREC_POWER, d);
    if r.Some? { UnaryHi(u, r.value.tree, dest, IsInfix(Tok(ts, r.value.at)), m, sc); }
    if aft.err {
      HasFailed(ts, sc, r, -1, operand, Taken(m, dest), aft, pos);
      Fails(ts, sc, ParseUnary(ts, i, u, d), dest, reg, m, fin, pos);
    } else {
      Extract(ts, sc, r, -1, operand, Taken(m, dest), aft, pos);
      var b := Compile(r.value.tree, -1, IsInfix(Tok(ts, pos)), Take(dest, m.next), m.pool, sc);
      MarkedFits(sc.locals, r.value.tree, b, |aft.code|, aft.patched);
      var o := EmitUnary(sc.locals, u, reg, b);
      UnaryMarked(sc.locals, Un(u, r.value.tree), reg, b, |m.code|, aft.patched);
      assert fin.code == m.code + o.code;
      Conclude(ts, sc, ParseUnary(ts, i, u, d), dest, reg, m, fin, pos, o);
    }
  }

  lemma UnaryMarked(L: seq<Local>, e: Expr, reg: int, b: Out, start: nat, patched: nat)
    requires e.Un? && patched <= start + |b.code|
    ensures var o := EmitUnary(L, e.uop, reg, b); Marked(L, e, o, start + |o.code|, patched)
  {
    hide IsLocal;
  }

  lemma GroupingEnds(ts: seq<Token>, sc: Scope, prec: nat, i: nat, d: nat, dest: int, reg: int, m: Snap, aft: Snap,
        pos: nat, fin: Snap, pos': nat)
    requires i < |ts| && ts[i].TLParen? &&
             Result(ts, sc, ParsePrec(ts, i + 1, PREC_ASSIGNMENT, d), dest, reg, m, aft, pos)
    requires if aft.err then fin == aft && pos' == pos
             else if Tok(ts, pos).TRParen? then fin == aft && pos' == pos + 1 else fin.err && pos' == pos
    ensures Result(ts, sc, ParsePrefix(ts, i, prec, d), dest, reg, m, fin, pos')
  {
    hide Compile, ParsePrec, Result, FusedWith;
    var r := ParsePrec(ts, i + 1, PREC_ASSIGNMENT, d);
    var r' := ParsePrefix(ts, i, prec, d);
    NoInfixAfter(ts, i + 1, d);
    if r.Some? { GroupSame(r.value.tree, dest, IsInfix(Tok(ts, r.value.at + 1)), m, sc); }
    if aft.err {
      HasFailed(ts, sc, r, dest, reg, m, aft, pos);
      Fails(ts, sc, r', dest, reg, m, fin, pos');
    } else {
      Extract(ts, sc, r, dest, reg, m, aft, pos);
      if fin.err {
        Fails(ts, sc, r', dest, reg, m, fin, pos');
      } else {
        Conclude(ts, sc, r', dest, reg, m, fin, pos', Compile(r.value.tree, dest, false, m.next, m.pool, sc));
      }
    }
  }

  lemma GroupSame(e: Expr, dest: int, inf: bool, m: Snap, sc: Scope)
    ensures Compile(Group(e), dest, inf, m.next, m.pool, sc) == Compile(e, dest, false, m.next, m.pool, sc)
  {
    hide Compile;
    UnfoldGroup(Group(e), dest, inf, m.next, m.pool, sc);
  }

  // ---------------------------------------------------------------- operators behind an operand

  /** The operand l, with the operators up to pos, has been compiled; the rest is still to come. */
  ghost predicate Looping(ts: seq<Token>, sc: Scope, l: Expr, i: nat, prec: nat, d: nat, dest: int, reg: int, m: Snap,
        n: Snap, pos: nat) {
    i < pos <= |ts| && Going(ts, n, pos) && Produced(sc, l, dest, IsInfix(Tok(ts, pos)), reg, m, n) && d > 0 &&
    ParsePrec(ts, i, prec, d - 1) == Finish(ts, ParseLoop(ts, l, pos, prec, d), prec)
  }

  lemma LoopStarts(ts: seq<Token>, sc: Scope, i: nat, prec: nat, d: nat, dest: int, reg: int, m: Snap, n: Snap,
        pos: nat)
    requires i < |ts| && prec > 0 && 0 < d <= MAX_PARSE_DEPTH &&
             Result(ts, sc, ParsePrefix(ts, i, prec, d), dest, reg, m, n, pos)
    ensures if n.err then Result(ts, sc, ParsePrec(ts, i, prec, d - 1), dest, reg, m, n, pos)
            else var r := ParsePrefix(ts, i, prec, d);
            r.Some? && i < pos <= |ts| && Looping(ts, sc, r.value.tree, i, prec, d, dest, reg, m, n, pos)
  {
    hide Compile, ParsePrefix, ParseLoop, Produced;
    var r := ParsePrefix(ts, i, prec, d);
    if n.err {
      if r.Some? { LoopHi(ts, r.value.tree, r.value.at, prec, d, dest, m, sc); }
    } else {
      GoesOn(ts, sc, r, dest, reg, m, n, pos);
    }
  }

  lemma LoopNeeds(ts: seq<Token>, sc: Scope, l: Expr, i: nat, prec: nat, d: nat, dest: int, reg: int, m: Snap, n: Snap,
        pos: nat)
    requires prec > 0 && Looping(ts, sc, l, i, prec, d, dest, reg, m, n, pos) && prec <= TokPrec(Tok(ts, pos))
    ensures pos < |ts| && IsInfix(ts[pos]) && Going(ts, n, pos + 1) && Produced(sc, l, dest, true, reg, m, n)
  {
    hide Compile, ParsePrec, ParseLoop, Produced;
  }

  lemma LoopGoes(ts: seq<Token>, sc: Scope, l: Expr, i: nat, prec: nat, d: nat, dest: int, left: int, reg: int,
                 m: Snap, was: Snap, at: nat, n: Snap, pos: nat)
    requires prec > 0 && Looping(ts, sc, l, i, prec, d, dest, left, m, was, at) && prec <= TokPrec(Tok(ts, at)) &&
             at < |ts|
    requires Result(ts, sc, ParseInfix(ts, l, at, d), dest, reg, m, n, pos)
    ensures if n.err then Result(ts, sc, ParsePrec(ts, i, prec, d - 1), dest, reg, m, n, pos)
            else var r := ParseInfix(ts, l, at, d);
            r.Some? && at < pos <= |ts| && Looping(ts, sc, r.value.tree, i, prec, d, dest, reg, m, n, pos)
  {
    hide Compile, ParsePrec, ParseInfix, ParseLoop, Produced;
    LoopUnfold(ts, l, at, prec, d);
    var r := ParseInfix(ts, l, at, d);
    if n.err {
      if r.Some? { LoopHi(ts, r.value.tree, r.value.at, prec, d, dest, m, sc); }
    } else {
      GoesOn(ts, sc, r, dest, reg, m, n, pos);
    }
  }

  lemma LoopEnds(ts: seq<Token>, sc: Scope, l: Expr, i: nat, prec: nat, d: nat, dest: int, reg: int, m: Snap, n: Snap,
        at: nat, fin: Snap, pos: nat)
    requires prec > 0 && Looping(ts, sc, l, i, prec, d, dest, reg, m, n, at) && prec > TokPrec(Tok(ts, at))
    requires if prec <= PREC_ASSIGNMENT && Tok(ts, at).TEq? then fin.err && pos <= |ts| else fin == n && pos == at
    ensures Result(ts, sc, ParsePrec(ts, i, prec, d - 1), dest, reg, m, fin, pos)
  {
    hide Compile, ParsePrec, ParseInfix, ParseLoop, Produced;
    LoopUnfold(ts, l, at, prec, d);
    StillReady(ts, sc, l, dest, IsInfix(Tok(ts, at)), reg, m, n, at);
  }

  lemma CallNone(ts: seq<Token>, l: Expr, i: nat, d: nat)
    requires i < |ts| && ts[i].TLParen?
    ensures ParseInfix(ts, l, i, d) == None
  {
  }

  lemma UnaryHi(u: UnOp, e: Expr, dest: int, inf: bool, m: Snap, sc: Scope)
    ensures var b := Compile(e, -1, inf, Take(dest, m.next), m.pool, sc);
            var o := Compile(Un(u, e), dest, inf, m.next, m.pool, sc);
            o == EmitUnary(sc.locals, u, Dest(dest, m.next), b) && o.hi == b.hi && b.hi >= Take(dest, m.next)
  {
    hide Compile, FreeUnless;
    UnfoldUn(Un(u, e), dest, inf, m.next, m.pool, sc);
    HiBounds(e, -1, inf, Take(dest, m.next), m.pool, sc);
  }

  /** A binary expression needs at least the registers its parts need. */
  lemma BinaryHi(e: Expr, dest: int, inf: bool, m: Snap, sc: Scope)
    requires e.Bin?
    ensures var a := Compile(e.l, dest, true, m.next, m.pool, sc);
            var b := Compile(e.r, -1, inf, Take(dest, a.next), a.pool, sc);
            var o := EmitBin(sc.locals, e.bop, Dest(dest, a.next), a, b);
            Compile(e, dest, inf, m.next, m.pool, sc) == o && o.hi == Max(a.hi, b.hi) && o.reg == Dest(dest, a.next) &&
            o.pool == b.pool &&
            b.hi >= Take(dest, a.next) && b.hi >= b.next && (b.code == [] ==> IsLocal(sc.locals, b.reg))
  {
    hide Compile, BinTail, Folds, Free, IsLocal;
    UnfoldBin(e, dest, inf, m.next, m.pool, sc);
    var a := Compile(e.l, dest, true, m.next, m.pool, sc);
    HiBounds(e.r, -1, inf, Take(dest, a.next), a.pool, sc);
    if Compile(e.r, -1, inf, Take(dest, a.next), a.pool, sc).code == [] {
      EmptyCode(e.r, -1, inf, Take(dest, a.next), a.pool, sc);
    }
  }

  /** The peephole leaves an instruction no branch absorbs. */
  lemma BinMarked(L: seq<Local>, e: Expr, reg: int, a: Out, b: Out, start: nat, patched: nat)
    requires e.Bin? && patched <= start + |a.code| + |b.code|
    ensures var o := EmitBin(L, e.bop, reg, a, b); Marked(L, e, o, start + |o.code|, patched)
  {
    hide IsLocal;
  }

  /** The register counter after the peephole. */
  function AfterFold(L: seq<Local>, op: BinOp, left: int, right: int, before: seq<Instr>, next: int): int {
    if Folds(L, op, left, right, before) then Free(L, next, right) else next
  }

  lemma EmitBinIs(L: seq<Local>, op: BinOp, reg: int, a: Out, b: Out)
    ensures var o, before := EmitBin(L, op, reg, a, b), a.code + b.code;
            o.code == BinTail(L, op, reg, a.reg, b.reg, before) && o.reg == reg && o.hi == Max(a.hi, b.hi) &&
            o.pool == b.pool &&
            o.next == FreeUnless(L, FreeUnless(L, AfterFold(L, op, a.reg, b.reg, before, b.next), b.reg, reg), a.reg,
                reg)
  {
    hide BinTail, Folds, Free;
  }

  /** A binary operator at i whose result register could not be had. */
  lemma BinaryFails(ts: seq<Token>, sc: Scope, l: Expr, i: nat, d: nat, dest: int, left: int, reg: int, m: Snap,
        was: Snap, n: Snap, pos: nat)
    requires i < |ts| && ts[i].TOp? && Produced(sc, l, dest, true, left, m, was) && Take(dest, was.next) > MAX_REGS &&
             n.err && pos <= |ts|
    ensures Result(ts, sc, ParseInfix(ts, l, i, d), dest, reg, m, n, pos)
  {
    hide Compile, ParsePrec, ParseInfix, Marked, BinTail, Folds, Free, IsLocal, Result, EmitBin;
    RightOf(ts, l, i, d);
    var r := ParseInfix(ts, l, i, d);
    if r.Some? { BinaryHi(r.value.tree, dest, IsInfix(Tok(ts, r.value.at)), m, sc); }
    Fails(ts, sc, r, dest, reg, m, n, pos);
  }

  /** After both operands: the state the operation starts from. */
  lemma OperandCode(ts: seq<Token>, sc: Scope, l: Expr, i: nat, d: nat, dest: int, left: int, right: int,
                    m: Snap, was: Snap, aft: Snap, pos: nat)
    requires i < |ts| && ts[i].TOp? && Produced(sc, l, dest, true, left, m, was) && !aft.err
    requires Result(ts, sc, ParsePrec(ts, i + 1, OpPrec(ts[i].op) + 1, d), -1, right, Taken(was, dest), aft, pos)
    ensures var a := Compile(l, dest, true, m.next, m.pool, sc);
            var r := ParsePrec(ts, i + 1, OpPrec(ts[i].op) + 1, d);
            r.Some? &&
            var b := Compile(r.value.tree, -1, IsInfix(Tok(ts, pos)), Take(dest, a.next), a.pool, sc);
            |m.code| <= |aft.code| && aft.code == m.code + (a.code + b.code) &&
            aft.code[|m.code|..] == a.code + b.code &&
            left == a.reg && right == b.reg && aft.next == b.next && aft.pool == b.pool &&
            aft.max == Max(Max(Max(m.max, a.hi), Take(dest, a.next)), b.hi) &&
            aft.patched <= |aft.code| && a.hi <= MAX_REGS && b.hi <= MAX_REGS && r.value.at == pos <= |ts| &&
            (a.code + b.code == [] ==> IsLocal(sc.locals, right))
  {
    hide Compile, ParsePrec, IsLocal, Produced, Result, Marked, IsInfix;
    var r := ParsePrec(ts, i + 1, OpPrec(ts[i].op) + 1, d);
    LeftIs(sc, l, dest, left, m, was);
    Extract(ts, sc, r, -1, right, Taken(was, dest), aft, pos);
    MarkedFits(sc.locals, r.value.tree,
        Compile(r.value.tree, -1, IsInfix(Tok(ts, pos)), Taken(was, dest).next, was.pool, sc), |aft.code|, aft.patched);
    if aft.code[|m.code|..] == [] {
      EmptyCode(r.value.tree, -1, IsInfix(Tok(ts, pos)), Taken(was, dest).next, was.pool, sc);
    }
  }

  lemma MarkedFits(L: seq<Local>, e: Expr, o: Out, size: nat, patched: nat)
    requires Marked(L, e, o, size, patched)
    ensures patched <= size
  {
  }

  lemma BinaryEnds(ts: seq<Token>, sc: Scope, l: Expr, i: nat, d: nat, dest: int, left: int, reg: int, right: int,
                   m: Snap, was: Snap, aft: Snap, fin: Snap, pos: nat)
    requires i < |ts| && ts[i].TOp? && Produced(sc, l, dest, true, left, m, was) && reg == Dest(dest, was.next)
    requires Result(ts, sc, ParsePrec(ts, i + 1, OpPrec(ts[i].op) + 1, d), -1, right, Taken(was, dest), aft, pos)
    requires if aft.err then fin == aft
             else |m.code| <= |aft.code| && var before := aft.code[|m.code|..];
                  fin == aft.(code := m.code + BinTail(sc.locals, ts[i].op, reg, left, right, before),
                              next := FreeUnless(sc.locals, FreeUnless(sc.locals,
                                  AfterFold(sc.locals, ts[i].op, left, right, before, aft.next), right, reg), left,
                                  reg))
    ensures Result(ts, sc, ParseInfix(ts, l, i, d), dest, reg, m, fin, pos)
  {
    hide Compile, ParsePrec, ParseInfix, IsLocal, Produced, Result, Marked, BinTail, Folds, Free, FreeUnless, EmitBin;
    RightOf(ts, l, i, d);
    var r := ParsePrec(ts, i + 1, OpPrec(ts[i].op) + 1, d);
    LeftIs(sc, l, dest, left, m, was);
    if aft.err {
      HasFailed(ts, sc, r, -1, right, Taken(was, dest), aft, pos);
      if r.Some? { BinaryHi(Bin(ts[i].op, l, r.value.tree), dest, IsInfix(Tok(ts, r.value.at)), m, sc); }
      Fails(ts, sc, ParseInfix(ts, l, i, d), dest, reg, m, fin, pos);
    } else {
      OperandCode(ts, sc, l, i, d, dest, left, right, m, was, aft, pos);
      var e := Bin(ts[i].op, l, r.value.tree);
      var a := Compile(l, dest, true, m.next, m.pool, sc);
      var b := Compile(e.r, -1, IsInfix(Tok(ts, pos)), Take(dest, a.next), a.pool, sc);
      EmitBinIs(sc.locals, ts[i].op, reg, a, b);
      BinMarked(sc.locals, e, reg, a, b, |m.code|, aft.patched);
      BinaryHi(e, dest, IsInfix(Tok(ts, pos)), m, sc);
      Conclude(ts, sc, ParseInfix(ts, l, i, d), dest, reg, m, fin, pos, EmitBin(sc.locals, ts[i].op, reg, a, b));
    }
  }

  /** What the grammar makes of an operator with a right operand. */
  lemma RightOf(ts: seq<Token>, l: Expr, i: nat, d: nat)
    requires i < |ts| && (ts[i].TOp? || ts[i].TStarStar? || ts[i].TAnd? || ts[i].TOr?)
    ensures var r := ParsePrec(ts, i + 1, RightPrec(ts[i]), d);
            ParseInfix(ts, l, i, d) == if r.None? then None
                else Some(Parsed(Combine(ts[i], l, r.value.tree), r.value.at))
  {
    hide ParsePrec;
  }
}
