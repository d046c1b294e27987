/** The compiler as it runs: one pass over the tokens that appends to the code buffer, counts
    registers up and down, rewrites the last instruction and patches jumps. Its methods are proved
    to accept exactly the grammar and to leave exactly the code the functions of Codegen and
    Statements describe. After the first error a method only unwinds: nothing it produced is kept. */
module SinglePass {
  import opened Values
  import opened Machine
  import opened Codegen
  import opened ExpressionProof
  import opened Statements
  import opened Grammar
  import opened PassSteps
  import opened StatementSteps
  import opened Scripts

  class Compiler {
    const tokens: seq<Token>
    const slot: string -> int
    var pos: nat
    var code: seq<Instr>
    var pool: seq<Const>
    var lastPatched: nat
    var locals: seq<Local>
    var depth: nat
    var nextReg: int
    var maxReg: int
    var loops: seq<Loop>
    var recursion: nat
    var hadError: bool

    ghost function Now(): Snap
      reads `code, `nextReg, `pool, `maxReg, `lastPatched, `hadError
    {
      Snap(code, nextReg, pool, maxReg, lastPatched, hadError)
    }

    ghost function All(): World
      reads this
    {
      World(code, Scopes(locals, depth, nextReg, pool), maxReg, lastPatched, hadError, loops)
    }

    // -------------------------------------------------------------- infrastructure

    method Error()
      modifies `hadError
      ensures hadError
    {
      hadError := true;
    }

    method Advance()
      modifies `pos
      ensures pos == if old(pos) < |tokens| then old(pos) + 1 else old(pos)
    {
      if pos < |tokens| {
        pos := pos + 1;
      }
    }

    function Current(): Token
      reads this
    {
      Tok(tokens, pos)
    }

    method Consume(t: Token)
      requires t != TEof
      modifies `pos, `hadError
      ensures hadError == (old(hadError) || old(Current()) != t)
      ensures pos == if old(Current()) == t then old(pos) + 1 else old(pos)
      ensures pos > old(pos) ==> pos <= |tokens|
    {
      if Current() == t {
        Advance();
      } else {
        Error();
      }
    }

    method ConsumeBoth(t: Token, u: Token)
      requires t != TEof && u != TEof && !hadError && pos <= |tokens|
      modifies `pos, `hadError
      ensures hadError == !(old(Current()) == t && Tok(tokens, old(pos) + 1) == u) && old(pos) <= pos <= |tokens|
      ensures !hadError ==> pos == old(pos) + 2
    {
      Consume(t);
      if !hadError {
        Consume(u);
      }
    }

    // -------------------------------------------------------------- registers

    method AllocReg() returns (reg: int)
      modifies `nextReg, `maxReg, `hadError
      ensures hadError == (old(hadError) || old(nextReg) >= MAX_REGS)
      ensures old(nextReg) < MAX_REGS ==> reg == old(nextReg) && nextReg == old(nextReg) + 1
      ensures maxReg == Max(old(maxReg), nextReg)
    {
      reg := nextReg;
      nextReg := nextReg + 1;
      if reg >= MAX_REGS {
        Error();
        nextReg := MAX_REGS;
        reg := MAX_REGS - 1;
      }
      if nextReg > maxReg {
        maxReg := nextReg;
      }
    }

    method FreeReg(reg: int)
      modifies `nextReg
      ensures nextReg == Free(locals, old(nextReg), reg)
    {
      if reg == nextReg - 1 && !IsLocal(locals, reg) {
        nextReg := nextReg - 1;
      }
    }

    /** The asked-for register, or a new one. */
    method Target(dest: int) returns (reg: int)
      modifies `nextReg, `maxReg, `hadError
      ensures hadError == (old(hadError) || Take(dest, old(nextReg)) > Max(MAX_REGS, old(nextReg)))
      ensures !hadError ==> reg == Dest(dest, old(nextReg)) && nextReg == Take(dest, old(nextReg))
      ensures old(nextReg) <= old(maxReg) && !hadError ==> Now() == Taken(old(Now()), dest)
    {
      if dest >= 0 {
        reg := dest;
      } else {
        reg := AllocReg();
      }
    }

    method ResolveLocal(name: string) returns (reg: int)
      ensures reg == Resolve(locals, name)
    {
      var i := |locals|;
      assert locals[..i] == locals;
      while i > 0
        invariant 0 <= i <= |locals| && Resolve(locals, name) == Resolve(locals[..i], name)
      {
        i := i - 1;
        assert locals[..i + 1][..i] == locals[..i];
        if locals[i].name == name {
          return locals[i].reg;
        }
      }
      return -1;
    }

    // -------------------------------------------------------------- emitter

    method Emit(i: Instr)
      modifies `code
      ensures code == old(code) + [i]
    {
      code := code + [i];
    }

    method RewindTo(offset: nat)
      requires offset <= |code|
      modifies `code
      ensures code == old(code)[..offset]
    {
      code := code[..offset];
    }

    method EmitMove(dst: int, src: int)
      modifies `code
      ensures code == old(code) + MoveTo(dst, src)
    {
      if dst != src {
        Emit(Move(dst, src));
      }
    }

    /** The placeholder at offset gets the distance from behind it to the end of the code. */
    method PatchJump(offset: nat)
      requires Aimable(code, offset)
      modifies `code, `lastPatched
      ensures code == Patched(old(code), offset) && lastPatched == Max(old(lastPatched), |code|)
    {
      if |code| > lastPatched {
        lastPatched := |code|;
      }
      code := code[offset := WithOffset(code[offset], |code| - (offset + 1))];
    }

    method AddConstant(n: Const) returns (k: nat)
      modifies `pool
      ensures k == IndexOf(old(pool), n) && pool == Intern(old(pool), n)
    {
      k := 0;
      while k < |pool|
        invariant k <= |pool| && n !in pool[..k] && pool == old(pool)
      {
        if pool[k] == n {
          IndexOfFirst(pool, n, k);
          return;
        }
        k := k + 1;
      }
      IndexOfFirst(pool, n, k);
      pool := pool + [n];
    }

    // -------------------------------------------------------------- expressions

    method ParsePrecedence(prec: nat, dest: int) returns (reg: int)
      requires Going(tokens, Now(), pos) && prec > 0
      modifies `pos, `code, `pool, `lastPatched, `nextReg, `maxReg, `recursion, `hadError
      ensures recursion == old(recursion) && pos >= old(pos)
      ensures Result(tokens, Scope(locals, slot), ParsePrec(tokens, old(pos), prec, old(recursion)), dest, reg,
              old(Now()), Now(), pos)
      decreases |tokens| - pos, 4
    {
      hide Compile, ParsePrefix, ParseLoop, ParseInfix, Produced, IsInfix, Finish;
      recursion := recursion + 1;
      if recursion > MAX_PARSE_DEPTH {
        Error();
        reg := Target(dest);
      } else {
        reg := OperandAndOperators(prec, dest);
      }
      recursion := recursion - 1;
    }

    predicate IsPrefix(t: Token) {
      t.TInt? || t.TStr? || t.TIdent? || t.TTrue? || t.TFalse? || t.TNil? || t == TOp(BSub) || t.TNot? || t.TTilde? ||
      t.TLParen?
    }

    method OperandAndOperators(prec: nat, dest: int) returns (reg: int)
      requires Going(tokens, Now(), pos) && prec > 0 && 0 < recursion <= MAX_PARSE_DEPTH
      modifies `pos, `code, `pool, `lastPatched, `nextReg, `maxReg, `recursion, `hadError
      ensures recursion == old(recursion) && pos >= old(pos)
      ensures Result(tokens, Scope(locals, slot), ParsePrec(tokens, old(pos), prec, old(recursion) - 1), dest, reg,
              old(Now()), Now(), pos)
      decreases |tokens| - pos, 3
    {
      hide Compile, ParsePrec, ParsePrefix, ParseLoop, ParseInfix, Produced, Result, Looping;
      ghost var i, m, d, sc := pos, Now(), recursion, Scope(locals, slot);
      var token := Current();
      Advance();
      if !IsPrefix(token) {
        NoPrefix(tokens, i, prec, d);
        Error();
        reg := Target(dest);
        Fails(tokens, sc, ParsePrec(tokens, i, prec, d - 1), dest, reg, m, Now(), pos);
        return;
      }
      reg := PrefixRule(token, dest, prec);
      LoopStarts(tokens, sc, i, prec, d, dest, reg, m, Now(), pos);
      if hadError { return; }
      ghost var l := ParsePrefix(tokens, i, prec, d).value.tree;
      while prec <= TokPrec(Current())
        invariant recursion == d && i < pos <= |tokens| && Looping(tokens, sc, l, i, prec, d, dest, reg, m, Now(), pos)
        decreases |tokens| - pos
      {
        ghost var left, was, at := reg, Now(), pos;
        LoopNeeds(tokens, sc, l, i, prec, d, dest, left, m, was, at);
        var op := Current();
        Advance();
        reg := InfixRule(op, reg, dest, l, m);
        LoopGoes(tokens, sc, l, i, prec, d, dest, left, reg, m, was, at, Now(), pos);
        if hadError { return; }
        l := ParseInfix(tokens, l, at, d).value.tree;
      }
      ghost var was, at := Now(), pos;
      if prec <= PREC_ASSIGNMENT && Current() == TEq {
        Advance();
        Error();
      }
      LoopEnds(tokens, sc, l, i, prec, d, dest, reg, m, was, at, Now(), pos);
    }

    method PrefixRule(token: Token, dest: int, prec: nat) returns (reg: int)
      requires Going(tokens, Now(), pos) && pos > 0 && tokens[pos - 1] == token && IsPrefix(token)
      modifies `pos, `code, `pool, `lastPatched, `nextReg, `maxReg, `recursion, `hadError
      ensures recursion == old(recursion) && pos >= old(pos)
      ensures Result(tokens, Scope(locals, slot), ParsePrefix(tokens, old(pos) - 1, prec, old(recursion)), dest, reg,
              old(Now()), Now(), pos)
      decreases |tokens| - pos, 6
    {
      hide Compile, ParsePrec, Produced, Failed;
      if token.TInt? {
        reg := Number(token, dest);
      } else if token.TStr? {
        reg := StringLiteral(token, dest);
      } else if token.TIdent? {
        reg := Variable(token.name, dest, prec <= PREC_ASSIGNMENT, prec);
      } else if token.TOp? {
        reg := UnaryRule(Neg, dest);
      } else if token.TNot? {
        reg := UnaryRule(UnOp.Not, dest);
      } else if token.TTilde? {
        reg := UnaryRule(BNot, dest);
      } else if token.TLParen? {
        reg := Grouping(dest, prec);
      } else {
        reg := Literal(token, dest);
      }
    }

    method Number(token: Token, dest: int) returns (reg: int)
      requires Going(tokens, Now(), pos) && token.TInt?
      modifies `code, `pool, `nextReg, `maxReg, `hadError
      ensures Result(tokens, Scope(locals, slot), match LiteralOf(token) case None => None case Some(n) =>
              Some(Parsed(Lit(n), pos)), dest, reg, old(Now()), Now(), pos)
    {
      reg := Target(dest);
      match LiteralOf(token)
      case None => Error();
      case Some(n) =>
        if -32768 <= n <= 32767 {
          Emit(LoadI(reg, n));
        } else {
          var k := AddConstant(KInt(n));
          Emit(LoadK(reg, k));
        }
    }

    method StringLiteral(token: Token, dest: int) returns (reg: int)
      requires Going(tokens, Now(), pos) && token.TStr?
      modifies `code, `pool, `nextReg, `maxReg, `hadError
      ensures Result(tokens, Scope(locals, slot), Some(Parsed(StrLit(token.s), pos)), dest, reg, old(Now()), Now(), pos)
    {
      reg := Target(dest);
      var k := AddConstant(KStr(token.s));
      Emit(LoadK(reg, k));
    }

    method Literal(token: Token, dest: int) returns (reg: int)
      requires Going(tokens, Now(), pos) && (token.TTrue? || token.TFalse? || token.TNil?)
      modifies `code, `nextReg, `maxReg, `hadError
      ensures Result(tokens, Scope(locals, slot),
              Some(Parsed(if token.TTrue? then True else if token.TFalse? then False else NilLit, pos)), dest, reg,
              old(Now()), Now(), pos)
    {
      reg := Target(dest);
      if token.TNil? {
        Emit(LoadNil(reg));
      } else {
        Emit(LoadBool(reg, token.TTrue?));
      }
    }

    method Variable(x: string, dest: int, canAssign: bool, ghost prec: nat) returns (reg: int)
      requires Going(tokens, Now(), pos) && pos > 0 && tokens[pos - 1] == TIdent(x) &&
               canAssign == (prec <= PREC_ASSIGNMENT)
      modifies `pos, `code, `pool, `lastPatched, `nextReg, `maxReg, `recursion, `hadError
      ensures recursion == old(recursion) && pos >= old(pos)
      ensures Result(tokens, Scope(locals, slot), ParsePrefix(tokens, old(pos) - 1, prec, old(recursion)), dest, reg,
              old(Now()), Now(), pos)
      decreases |tokens| - pos, 5
    {
      hide Compile, ParsePrec, Result;
      var home := ResolveLocal(x);
      if canAssign && Current() == TEq {
        Advance();
        if home != -1 {
          reg := AssignLocal(x, home, dest);
        } else {
          reg := AssignGlobal(x, dest);
        }
      } else {
        reg := ReadVariable(x, home, dest);
      }
    }

    /** The value is computed into a temporary, since it may read the local it is assigned to. */
    method AssignLocal(x: string, home: int, dest: int) returns (reg: int)
      requires Going(tokens, Now(), pos) && home == Resolve(locals, x) && home != -1
      modifies `pos, `code, `pool, `lastPatched, `nextReg, `maxReg, `recursion, `hadError
      ensures recursion == old(recursion) && pos >= old(pos)
      ensures Result(tokens, Scope(locals, slot),
              Assigned(x, ParsePrec(tokens, old(pos), PREC_ASSIGNMENT, old(recursion))), dest, reg,
                     old(Now()), Now(), pos)
      decreases |tokens| - pos, 5
    {
      hide Compile, ParsePrec, Result, IsLocal;
      ghost var i, m := pos, Now();
      var saved := nextReg;
      var rhs := ParsePrecedence(PREC_ASSIGNMENT, -1);
      ghost var aft := Now();
      reg := -1;
      if !hadError {
        StoreInto(rhs, home);
        nextReg := saved;
        reg := home;
        if dest >= 0 && dest != home {
          EmitMove(dest, home);
          reg := dest;
        }
      }
      AssignLocalEnds(tokens, Scope(locals, slot), x, i, recursion, dest, home, rhs, m, aft, Now(), pos);
    }

    method StoreInto(src: int, dst: int)
      modifies `code
      ensures code == StoreLocal(locals, old(code), src, dst)
    {
      hide IsLocal;
      if src != dst {
        var redirected := RetargetLastProducer(src, dst);
        if !redirected {
          EmitMove(dst, src);
        }
      }
    }

    method AssignGlobal(x: string, dest: int) returns (reg: int)
      requires Going(tokens, Now(), pos) && Resolve(locals, x) == -1
      modifies `pos, `code, `pool, `lastPatched, `nextReg, `maxReg, `recursion, `hadError
      ensures recursion == old(recursion) && pos >= old(pos)
      ensures Result(tokens, Scope(locals, slot),
              Assigned(x, ParsePrec(tokens, old(pos), PREC_ASSIGNMENT, old(recursion))), dest, reg,
                     old(Now()), Now(), pos)
      decreases |tokens| - pos, 5
    {
      hide Compile, ParsePrec, Result, IsLocal, Free;
      ghost var i, m, sc := pos, Now(), Scope(locals, slot);
      var val := Target(-1);
      reg := val;
      if hadError {
        ghost var r := ParsePrec(tokens, i, PREC_ASSIGNMENT, recursion);
        if r.Some? { AssignGlobalHi(Assign(x, r.value.tree), dest, IsInfix(Tok(tokens, r.value.at)), m, sc); }
        Fails(tokens, sc, Assigned(x, r), dest, reg, m, Now(), pos);
        return;
      }
      var unused := ParsePrecedence(PREC_ASSIGNMENT, val);
      ghost var aft := Now();
      if !hadError {
        Emit(SetGlobal(val, slot(x)));
        if dest >= 0 && dest != val {
          EmitMove(dest, val);
          FreeReg(val);
          reg := dest;
        }
      }
      AssignGlobalEnds(tokens, sc, x, i, recursion, dest, unused, m, aft, Now(), pos);
    }

    method ReadVariable(x: string, home: int, dest: int) returns (reg: int)
      requires Going(tokens, Now(), pos) && home == Resolve(locals, x)
      modifies `code, `nextReg, `maxReg, `hadError
      ensures Result(tokens, Scope(locals, slot), Some(Parsed(Var(x), pos)), dest, reg, old(Now()), Now(), pos)
    {
      hide IsLocal;
      if home != -1 {
        if dest >= 0 && dest != home {
          if TokPrec(Current()) > 0 {
            return home;
          }
          EmitMove(dest, home);
          return dest;
        }
        return home;
      }
      reg := Target(dest);
      Emit(GetGlobal(reg, slot(x)));
    }

    /** Redirects the last instruction when it computed src into a temporary. */
    method RetargetLastProducer(src: int, dst: int) returns (done: bool)
      modifies `code
      ensures done == (src != dst && !IsLocal(locals, src) && |old(code)| > 0 && Retargetable(Last(old(code))) &&
              Last(old(code)).a == src)
      ensures code == if done then Front(old(code)) + [WithDest(Last(old(code)), dst)] else old(code)
    {
      if src == dst || IsLocal(locals, src) {
        return false;
      }
      var off := |code| - 1;
      if off < 0 {
        return false;
      }
      var i := code[off];
      if !Retargetable(i) || i.a != src {
        return false;
      }
      code := code[off := WithDest(i, dst)];
      return true;
    }

    method UnaryRule(u: UnOp, dest: int) returns (reg: int)
      requires Going(tokens, Now(), pos) && pos > 0
      modifies `pos, `code, `pool, `lastPatched, `nextReg, `maxReg, `recursion, `hadError
      ensures recursion == old(recursion) && pos >= old(pos)
      ensures Result(tokens, Scope(locals, slot), ParseUnary(tokens, old(pos) - 1, u, old(recursion)), dest, reg,
              old(Now()), Now(), pos)
      decreases |tokens| - pos, 5
    {
      hide Compile, ParsePrec, IsLocal, Result, Free, FreeUnless;
      ghost var m, i, sc := Now(), pos - 1, Scope(locals, slot);
      reg := Target(dest);
      if hadError {
        ghost var r := ParsePrec(tokens, i + 1, PREC_POWER, recursion);
        if r.Some? { UnaryHi(u, r.value.tree, dest, IsInfix(Tok(tokens, r.value.at)), m, sc); }
        Fails(tokens, sc, ParseUnary(tokens, i, u, recursion), dest, reg, m, Now(), pos);
        return;
      }
      var operand := ParsePrecedence(PREC_POWER, -1);
      ghost var aft := Now();
      if !hadError {
        Emit(Unary(u, reg, operand));
        FreeOperand(reg, operand);
      }
      UnaryEnds(tokens, sc, u, i, recursion, dest, reg, operand, m, aft, Now(), pos);
    }

    method FreeOperand(reg: int, operand: int)
      modifies `nextReg
      ensures nextReg == FreeUnless(locals, old(nextReg), operand, reg)
    {
      hide IsLocal, Free;
      if operand != reg {
        FreeReg(operand);
      }
    }

    method Grouping(dest: int, ghost prec: nat) returns (reg: int)
      requires Going(tokens, Now(), pos) && pos > 0 && tokens[pos - 1] == TLParen
      modifies `pos, `code, `pool, `lastPatched, `nextReg, `maxReg, `recursion, `hadError
      ensures recursion == old(recursion) && pos >= old(pos)
      ensures Result(tokens, Scope(locals, slot), ParsePrefix(tokens, old(pos) - 1, prec, old(recursion)), dest, reg,
              old(Now()), Now(), pos)
      decreases |tokens| - pos, 5
    {
      hide Compile, ParsePrec, ParsePrefix, Result;
      ghost var m, i := Now(), pos - 1;
      reg := ParsePrecedence(PREC_ASSIGNMENT, dest);
      ghost var aft, at := Now(), pos;
      if !hadError {
        Consume(TRParen);
      }
      GroupingEnds(tokens, Scope(locals, slot), prec, i, recursion, dest, reg, m, aft, at, Now(), pos);
    }

    /** One infix operator. Its left operand l has just been compiled, since m. */
    method InfixRule(op: Token, left: int, dest: int, ghost l: Expr, ghost m: Snap) returns (reg: int)
      requires Going(tokens, Now(), pos) && pos > 0 && tokens[pos - 1] == op && IsInfix(op) &&
               Produced(Scope(locals, slot), l, dest, true, left, m, Now())
      modifies `pos, `code, `pool, `lastPatched, `nextReg, `maxReg, `recursion, `hadError
      ensures recursion == old(recursion) && pos >= old(pos)
      ensures Result(tokens, Scope(locals, slot), ParseInfix(tokens, l, old(pos) - 1, old(recursion)), dest, reg, m,
              Now(), pos)
      decreases |tokens| - pos, 6
    {
      hide Compile, ParseInfix, Produced;
      if op.TOp? {
        reg := Binary(op.op, left, dest, l, m);
      } else if op.TStarStar? {
        reg := PowExpr(left, dest, l, m);
      } else if op.TQuestion? {
        reg := TernaryExpr(left, dest, l, m);
      } else if op.TAnd? || op.TOr? {
        reg := ShortCircuit(op.TAnd?, left, dest, l, m);
      } else {
        CallNone(tokens, l, pos - 1, recursion);
        Error();
        reg := left;
      }
    }

    method Binary(op: BinOp, left: int, dest: int, ghost l: Expr, ghost m: Snap) returns (reg: int)
      requires Going(tokens, Now(), pos) && pos > 0 && tokens[pos - 1] == TOp(op) &&
               Produced(Scope(locals, slot), l, dest, true, left, m, Now())
      modifies `pos, `code, `pool, `lastPatched, `nextReg, `maxReg, `recursion, `hadError
      ensures recursion == old(recursion) && pos >= old(pos)
      ensures Result(tokens, Scope(locals, slot), ParseInfix(tokens, l, old(pos) - 1, old(recursion)), dest, reg, m,
              Now(), pos)
      decreases |tokens| - pos, 5
    {
      hide Compile, ParsePrec, ParseInfix, IsLocal, Marked, BinTail, EmitBin, FreeUnless, Folds, Free, Result, Produced,
          Failed;
      ghost var i, was := pos - 1, Now();
      reg := Target(dest);
      if hadError {
        BinaryFails(tokens, Scope(locals, slot), l, i, recursion, dest, left, reg, m, was, Now(), pos);
        return;
      }
      var right := ParsePrecedence(OpPrec(op) + 1, -1);
      ghost var aft := Now();
      if !hadError {
        OperandCode(tokens, Scope(locals, slot), l, i, recursion, dest, left, right, m, was, aft, pos);
        EmitOperation(op, reg, left, right, m.code, code[|m.code|..]);
        FreeOperands(reg, left, right);
      }
      BinaryEnds(tokens, Scope(locals, slot), l, i, recursion, dest, left, reg, right, m, was, aft, Now(), pos);
    }

    /** Emits the operation on the two operands, which have just been compiled behind start, and
        applies the immediate-operand peephole. */
    method EmitOperation(op: BinOp, reg: int, left: int, right: int, ghost start: seq<Instr>, ghost before: seq<Instr>)
      requires code == start + before && (before == [] ==> IsLocal(locals, right))
      modifies `code, `nextReg
      ensures code == start + BinTail(locals, op, reg, left, right, before)
      ensures nextReg == AfterFold(locals, op, left, right, before, old(nextReg))
    {
      hide IsLocal, Free;
      Emit(BinCode(op, reg, left, right));
      assert code == start + (before + [BinCode(op, reg, left, right)]);
      if op.BAdd? || op.BSub? {
        var off := |code| - 1;
        if off >= 1 {
          var load := code[off - 1];
          assert before != [] ==> load == before[|before| - 1];
          if load.LoadI? && load.a == right && right != left && !IsLocal(locals, right) {
            if -128 <= load.n <= 127 {
              RewindTo(off - 1);
              assert code == start + before[..|before| - 1];
              Emit(if op.BAdd? then AddI(reg, left, load.n) else SubI(reg, left, load.n));
              FreeReg(right);
            }
          }
        }
      }
      if op.BNe? {
        Emit(Unary(UnOp.Not, reg, reg));
      }
    }

    /** Temporaries other than the result are released, the later one first. */
    method FreeOperands(reg: int, left: int, right: int)
      modifies `nextReg
      ensures nextReg == FreeUnless(locals, FreeUnless(locals, old(nextReg), right, reg), left, reg)
    {
      hide IsLocal, Free;
      FreeOperand(reg, right);
      FreeOperand(reg, left);
    }

    method PowExpr(left: int, dest: int, ghost l: Expr, ghost m: Snap) returns (reg: int)
      requires Going(tokens, Now(), pos) && pos > 0 && tokens[pos - 1] == TStarStar &&
               Produced(Scope(locals, slot), l, dest, true, left, m, Now())
      modifies `pos, `code, `pool, `lastPatched, `nextReg, `maxReg, `recursion, `hadError
      ensures recursion == old(recursion) && pos >= old(pos)
      ensures Result(tokens, Scope(locals, slot), ParseInfix(tokens, l, old(pos) - 1, old(recursion)), dest, reg, m,
              Now(), pos)
      decreases |tokens| - pos, 5
    {
      hide Compile, ParsePrec, ParseInfix, IsLocal, Free, FreeUnless, Produced, Result;
      ghost var i, was := pos - 1, Now();
      reg := -1;
      var right := ParsePrecedence(PREC_POWER, -1);
      ghost var aft := Now();
      if !hadError {
        GoesOn(tokens, Scope(locals, slot), ParsePrec(tokens, i + 1, PREC_POWER, recursion), -1, right, was, aft, pos);
        reg := Target(dest);
        if !hadError {
          Emit(Arith(Pow, reg, left, right));
          FreeOperands(reg, left, right);
        }
      }
      PowEnds(tokens, Scope(locals, slot), l, i, recursion, dest, left, right, m, was, aft, Now(), pos);
    }

    /** The register both sides go to: never a local the caller did not ask for. */
    method JoinTarget(left: int, dest: int) returns (reg: int)
      modifies `nextReg, `maxReg, `hadError
      ensures hadError == (old(hadError) ||
              JoinTaken(locals, dest, left, old(Now())).next > Max(MAX_REGS, old(nextReg)))
      ensures !hadError ==> reg == if dest >= 0 then dest else if IsLocal(locals, left) then old(nextReg) else left
      ensures old(nextReg) <= old(maxReg) && !hadError ==> Now() == JoinTaken(locals, dest, left, old(Now()))
    {
      hide IsLocal;
      if dest >= 0 {
        reg := dest;
      } else if IsLocal(locals, left) {
        reg := AllocReg();
      } else {
        reg := left;
      }
    }

    /** Up to the jump over the right side. */
    method JoinStart(isAnd: bool, left: int, dest: int) returns (reg: int, jump: nat)
      requires Going(tokens, Now(), pos)
      modifies `code, `nextReg, `maxReg, `hadError
      ensures hadError == (JoinTaken(locals, dest, left, old(Now())).next > MAX_REGS)
      ensures !hadError ==> JoinStarted(locals, isAnd, dest, left, reg, old(Now()), Now()) && Going(tokens, Now(), pos)
      ensures !hadError ==>
                jump == |old(code) + MoveTo(reg, left)| && jump + 1 == |code| && code[jump] == JumpWord(isAnd, reg, 0)
    {
      hide IsLocal, MoveTo;
      jump := 0;
      reg := JoinTarget(left, dest);
      if !hadError {
        EmitMove(reg, left);
        jump := |code|;
        Emit(JumpWord(isAnd, reg, 0));
      }
    }

    /** `and` and `or`: the right side is compiled into the register that holds the left. */
    method ShortCircuit(isAnd: bool, left: int, dest: int, ghost l: Expr, ghost m: Snap) returns (reg: int)
      requires Going(tokens, Now(), pos) && pos > 0 && tokens[pos - 1] == (if isAnd then TAnd else TOr)
      requires Produced(Scope(locals, slot), l, dest, true, left, m, Now())
      modifies `pos, `code, `pool, `lastPatched, `nextReg, `maxReg, `recursion, `hadError
      ensures recursion == old(recursion) && pos >= old(pos)
      ensures Result(tokens, Scope(locals, slot), ParseInfix(tokens, l, old(pos) - 1, old(recursion)), dest, reg, m,
              Now(), pos)
      decreases |tokens| - pos, 5
    {
      hide Compile, ParsePrec, ParseInfix, IsLocal, Free, FreeUnless, Produced, Result, Patched, MoveTo, JoinTaken,
          JoinStarted, JumpWord;
      ghost var i, was := pos - 1, Now();
      var jump: nat;
      reg, jump := JoinStart(isAnd, left, dest);
      if hadError {
        JoinFails(tokens, Scope(locals, slot), l, i, recursion, dest, left, reg, m, was, Now(), pos);
        return;
      }
      ghost var mid := Now();
      var right := ParsePrecedence(if isAnd then PREC_AND else PREC_OR, reg);
      ghost var aft := Now();
      if !hadError {
        JoinAimable(tokens, Scope(locals, slot), i, recursion, reg, right, jump, mid, aft, pos);
        EmitMove(reg, right);
        PatchJump(jump);
        FreeOperands(reg, left, right);
      }
      JoinEnds(tokens, Scope(locals, slot), l, i, recursion, dest, left, reg, right, m, was, mid, aft, Now(), pos);
    }

    /** The end of a ternary's then-branch: its value into reg, the jump over the else-branch, and
        the condition's jump aimed at the else-branch. */
    method EndThen(reg: int, value: int, jumpElse: nat) returns (jumpEnd: nat)
      requires Aimable(code + MoveTo(reg, value) + [Jmp(0)], jumpElse)
      modifies `code, `lastPatched, `nextReg
      ensures Now() == ThenEnded(locals, old(Now()), reg, value, jumpElse) &&
              jumpEnd == |old(code) + MoveTo(reg, value)|
    {
      hide Free, Patched;
      EmitMove(reg, value);
      FreeOperand(reg, value);
      assert code == old(code) + MoveTo(reg, value);
      jumpEnd := |code|;
      Emit(Jmp(0));
      PatchJump(jumpElse);
    }

    method EndElse(reg: int, value: int, cond: int, jumpEnd: nat)
      requires Aimable(code + MoveTo(reg, value), jumpEnd)
      modifies `code, `lastPatched, `nextReg
      ensures Now() == ElseEnded(locals, old(Now()), reg, value, cond, jumpEnd)
    {
      hide Free, Patched;
      EmitMove(reg, value);
      FreeOperand(reg, value);
      assert code == old(code) + MoveTo(reg, value);
      PatchJump(jumpEnd);
      FreeOperand(reg, cond);
    }

    method TernaryExpr(cond: int, dest: int, ghost l: Expr, ghost m: Snap) returns (reg: int)
      requires Going(tokens, Now(), pos) && pos > 0 && tokens[pos - 1] == TQuestion &&
               Produced(Scope(locals, slot), l, dest, true, cond, m, Now())
      modifies `pos, `code, `pool, `lastPatched, `nextReg, `maxReg, `recursion, `hadError
      ensures recursion == old(recursion) && pos >= old(pos)
      ensures Result(tokens, Scope(locals, slot), ParseInfix(tokens, l, old(pos) - 1, old(recursion)), dest, reg, m,
              Now(), pos)
      decreases |tokens| - pos, 5
    {
      hide Compile, ParsePrec, ParseInfix, IsLocal, Free, FreeUnless, Produced, Result, Patched, MoveTo, Into,
          ThenEnded, ElseEnded, Aimable, Branches;
      ghost var i, was, sc := pos - 1, Now(), Scope(locals, slot);
      reg := Target(dest);
      if hadError {
        CondFails(tokens, sc, l, i, recursion, dest, cond, reg, m, was, Now(), pos);
        return;
      }
      EmitMove(reg, cond);
      var jumpElse := |code|;
      Emit(JmpIfNot(reg, 0));
      var thenReg := ParsePrecedence(PREC_OR, reg);
      if hadError {
        HasFailed(tokens, sc, ParsePrec(tokens, i + 1, PREC_OR, recursion), reg, thenReg,
            CondStarted(was, dest, reg, cond), Now(), pos);
        CondFails(tokens, sc, l, i, recursion, dest, cond, reg, m, was, Now(), pos);
        return;
      }
      GoesOn(tokens, sc, ParsePrec(tokens, i + 1, PREC_OR, recursion), reg, thenReg, CondStarted(was, dest, reg, cond),
          Now(), pos);
      if Current() != TColon {
        Error();
        CondFails(tokens, sc, l, i, recursion, dest, cond, reg, m, was, Now(), pos);
        return;
      }
      TernaryElse(cond, dest, reg, thenReg, jumpElse, l, m, was, i);
    }

    /** The rest of a ternary, from the end of its then-branch. */
    method TernaryElse(cond: int, dest: int, reg: int, thenReg: int, jumpElse: nat, ghost l: Expr, ghost m: Snap,
          ghost was: Snap, ghost i: nat)
      requires ThenDone(tokens, Scope(locals, slot), l, i, recursion, dest, cond, reg, thenReg, m, was, Now(), pos)
      requires jumpElse == |was.code + MoveTo(reg, cond)|
      modifies `pos, `code, `pool, `lastPatched, `nextReg, `maxReg, `recursion, `hadError
      ensures recursion == old(recursion) && pos >= old(pos)
      ensures Result(tokens, Scope(locals, slot), ParseInfix(tokens, l, i, old(recursion)), dest, reg, m, Now(), pos)
      decreases |tokens| - pos, 7
    {
      hide Compile, ParsePrec, ParseInfix, IsLocal, Free, FreeUnless, Produced, Result, Patched, MoveTo, Into,
          ThenEnded, ElseEnded, Aimable, Branches,
           ThenDone;
      ghost var aft, colon, sc := Now(), pos, Scope(locals, slot);
      ThenState(tokens, sc, l, i, recursion, dest, cond, reg, thenReg, m, was, aft, colon);
      var jumpEnd := EndThen(reg, thenReg, jumpElse);
      Consume(TColon);
      var elseReg := ParsePrecedence(PREC_OR, reg);
      ghost var aft' := Now();
      if !hadError {
        CondAimable(tokens, sc, l, i, recursion, dest, cond, reg, thenReg, elseReg, m, was, aft, colon, aft', pos);
        EndElse(reg, elseReg, cond, jumpEnd);
      }
      CondEnds(tokens, sc, l, i, recursion, dest, cond, reg, thenReg, elseReg, m, was, aft, colon, aft', Now(), pos);
    }

    // -------------------------------------------------------------- scopes

    method BeginScope()
      modifies `depth
      ensures depth == old(depth) + 1
    {
      depth := depth + 1;
    }

    method EndScope()
      requires depth > 0
      modifies `depth, `locals, `nextReg
      ensures All() == Shallower(old(All()))
    {
      depth := depth - 1;
      while |locals| > 0 && locals[|locals| - 1].depth > depth
        invariant depth == old(depth) - 1 && PopScope(locals, depth) == PopScope(old(locals), depth)
        decreases |locals|
      {
        locals := locals[..|locals| - 1];
      }
      if |locals| > 0 {
        nextReg := locals[|locals| - 1].reg + 1;
      } else {
        nextReg := 0;
      }
    }

    /** Whether the innermost scope already has the name. */
    method IsRedeclared(x: string) returns (found: bool)
      ensures found == Redeclared(locals, depth, x)
    {
      var i := |locals|;
      assert locals[..i] == locals;
      while i > 0 && locals[i - 1].depth >= depth
        invariant 0 <= i <= |locals| && Redeclared(locals, depth, x) == Redeclared(locals[..i], depth, x)
      {
        i := i - 1;
        assert locals[..i + 1][..i] == locals[..i];
        if locals[i].name == x {
          return true;
        }
      }
      return false;
    }

    // -------------------------------------------------------------- simple statements

    method ExpressionStatement()
      requires Steady(tokens, All(), pos)
      modifies this
      ensures recursion == old(recursion) && pos >= old(pos)
      ensures var e := ParsePrec(tokens, old(pos), PREC_ASSIGNMENT, old(recursion));
              StmtResult(tokens, slot, if e.None? then None
                  else Closed(tokens, ExprStmt(e.value.tree), e.value.at, TSemi), old(All()), All(), pos)
      decreases |tokens| - pos, 5
    {
      hide Compile, ParsePrec, Result, Steady;
      ghost var m, i := All(), pos;
      SteadyNext(tokens, m, i);
      var saved := nextReg;
      var reg := ParsePrecedence(PREC_ASSIGNMENT, -1);
      ghost var aft, at := Now(), pos;
      if !hadError {
        FreeReg(reg);
        GoesOn(tokens, Scope(locals, slot), ParsePrec(tokens, i, PREC_ASSIGNMENT, recursion), -1, reg, SnapOf(m), aft,
            at);
        Consume(TSemi);
        nextReg := saved;
      } else {
        HasFailed(tokens, Scope(locals, slot), ParsePrec(tokens, i, PREC_ASSIGNMENT, recursion), -1, reg, SnapOf(m),
            aft, at);
      }
      ExprStmtEnds(tokens, slot, i, recursion, reg, m, i, aft, at, All(), pos);
    }

    method PrintStatement()
      requires Steady(tokens, All(), pos)
      modifies this
      ensures recursion == old(recursion) && pos >= old(pos)
      ensures StmtResult(tokens, slot, PrintOf(tokens, ParseCondition(tokens, old(pos), old(recursion))), old(All()),
              All(), pos)
    {
      hide Compile, ParsePrec, Result, Steady, StmtResult, Free, PrintOf, ParseCondition, IsLocal;
      ghost var m, i, sc := All(), pos, Scope(locals, slot);
      SteadyNext(tokens, m, i);
      Consume(TLParen);
      if hadError {
        NoParenthesis(tokens, slot, i, recursion, m, All(), pos);
        return;
      }
      var reg := ParsePrecedence(PREC_ASSIGNMENT, -1);
      ghost var aft, at := Now(), pos;
      InRange(tokens, sc, ParsePrec(tokens, i + 1, PREC_ASSIGNMENT, recursion), -1, reg, SnapOf(m), aft, at);
      if !hadError {
        EndPrint(reg);
      }
      PrintBodyEnds(tokens, slot, i, recursion, reg, m, i, aft, at, All(), pos);
    }

    method EndPrint(reg: int)
      requires !hadError && pos <= |tokens|
      modifies `code, `nextReg, `pos, `hadError
      ensures code == old(code) + [Instr.Print(reg)] && nextReg == Free(locals, old(nextReg), reg)
      ensures hadError == !(Tok(tokens, old(pos)).TRParen? && Tok(tokens, old(pos) + 1) == TSemi) &&
              old(pos) <= pos <= |tokens|
      ensures !hadError ==> pos == old(pos) + 2
    {
      hide Free;
      Emit(Instr.Print(reg));
      FreeReg(reg);
      ConsumeBoth(TRParen, TSemi);
    }

    method BreakStatement()
      requires Steady(tokens, All(), pos)
      modifies this
      ensures recursion == old(recursion) && pos >= old(pos)
      ensures StmtResult(tokens, slot, Closed(tokens, Break, old(pos), TSemi), old(All()), All(), pos)
    {
      hide StmtResult, Steady, Closed;
      ghost var m, i := All(), pos;
      SteadyNext(tokens, m, i);
      if |loops| == 0 {
        Error();
        Consume(TSemi);
      } else {
        Consume(TSemi);
        if !hadError {
          var loop := loops[|loops| - 1];
          if |loop.breaks| >= MAX_BREAKS {
            Error();
          } else {
            loops := loops[..|loops| - 1] + [Loop(loop.start, loop.breaks + [|code|])];
            Emit(Jmp(0));
          }
        }
      }
      BreakEnds(tokens, slot, i, m, i, All(), pos);
    }

    method ContinueStatement()
      requires Steady(tokens, All(), pos)
      modifies this
      ensures recursion == old(recursion) && pos >= old(pos)
      ensures StmtResult(tokens, slot, Closed(tokens, Continue, old(pos), TSemi), old(All()), All(), pos)
    {
      hide StmtResult, Steady, Closed;
      ghost var m, i := All(), pos;
      SteadyNext(tokens, m, i);
      if |loops| == 0 {
        Error();
        Consume(TSemi);
      } else {
        Consume(TSemi);
        if !hadError {
          EmitLoop(loops[|loops| - 1].start);
        }
      }
      ContinueEnds(tokens, slot, i, m, i, All(), pos);
    }

    method EmitLoop(start: int)
      modifies `code
      ensures code == old(code) + [Jmp(start - (|old(code)| + 1))]
    {
      Emit(Jmp(start - (|code| + 1)));
    }

    // -------------------------------------------------------------- declarations

    method VarDeclaration()
      requires Steady(tokens, All(), pos)
      modifies this
      ensures recursion == old(recursion) && pos >= old(pos)
      ensures StmtResult(tokens, slot, ParseVar(tokens, old(pos), old(recursion)), old(All()), All(), pos)
      decreases |tokens| - pos, 5
    {
      hide ParseVar, StmtResult, Steady, ParsePrec, VarOf, Closed;
      VarIs(tokens, pos, recursion);
      SteadyNext(tokens, All(), pos);
      if !Current().TIdent? {
        Error();
        NoName(tokens, slot, ParseVar(tokens, old(pos), recursion), old(All()), All(), pos);
        return;
      }
      var x := Current().name;
      ghost var m, i := All(), pos;
      Advance();
      SteadyMoves(tokens, m, i, pos);
      if depth > 0 {
        LocalDeclaration(x);
      } else {
        GlobalDeclaration(x);
      }
    }

    /** The name becomes visible only behind its initializer. */
    method LocalDeclaration(x: string)
      requires Steady(tokens, All(), pos) && depth > 0
      modifies this
      ensures recursion == old(recursion) && pos >= old(pos)
      ensures StmtResult(tokens, slot,
                         if Tok(tokens, old(pos)).TEq? then
                             VarOf(tokens, x, ParsePrec(tokens, old(pos) + 1, PREC_ASSIGNMENT, old(recursion)))
                         else Closed(tokens, VarDecl(x, None), old(pos), TSemi),
                         old(All()), All(), pos)
      decreases |tokens| - pos, 5
    {
      hide StmtResult, Steady, ParsePrec, Compile, Closed, VarOf, Result, Redeclared;
      ghost var m, i := All(), pos;
      SteadyNext(tokens, m, i);
      var reg := Target(-1);
      if hadError {
        NoInfixAfter(tokens, i + 1, recursion);
        if Tok(tokens, i).TEq? {
          VarFails(tokens, slot, x, ParsePrec(tokens, i + 1, PREC_ASSIGNMENT, recursion), m, All(), pos);
        } else {
          NilLocalEnds(tokens, slot, x, i, m, i, All(), pos);
        }
        return;
      }
      if Current() == TEq {
        Advance();
        var unused := ParsePrecedence(PREC_ASSIGNMENT, reg);
        ghost var aft, at := Now(), pos;
        InRange(tokens, Scope(locals, slot), ParsePrec(tokens, i + 1, PREC_ASSIGNMENT, recursion), reg, unused,
            Taken(SnapOf(m), -1), aft, at);
        if !hadError {
          Declare(x, reg);
        }
        LocalEnds(tokens, slot, x, i + 1, recursion, unused, m, i, aft, at, All(), pos);
      } else {
        Emit(LoadNil(reg));
        Declare(x, reg);
        NilLocalEnds(tokens, slot, x, i, m, i, All(), pos);
      }
    }

    /** Registers the name, unless the scope already has it or is full, up to the semicolon. */
    method Declare(x: string, reg: int)
      requires !hadError && pos <= |tokens|
      modifies `locals, `hadError, `pos
      ensures hadError == !(!Refused(old(All()).st, x) && Tok(tokens, old(pos)) == TSemi) && old(pos) <= pos <= |tokens|
      ensures !hadError ==> pos == old(pos) + 1 && locals == old(locals) + [Local(x, depth, reg)]
    {
      hide Redeclared;
      var found := IsRedeclared(x);
      if found || |locals| >= MAX_LOCALS {
        Error();
      }
      locals := locals + [Local(x, depth, reg)];
      Consume(TSemi);
    }

    method GlobalDeclaration(x: string)
      requires Steady(tokens, All(), pos) && depth == 0
      modifies this
      ensures recursion == old(recursion) && pos >= old(pos)
      ensures StmtResult(tokens, slot,
                         if Tok(tokens, old(pos)).TEq? then
                             VarOf(tokens, x, ParsePrec(tokens, old(pos) + 1, PREC_ASSIGNMENT, old(recursion)))
                         else Closed(tokens, VarDecl(x, None), old(pos), TSemi),
                         old(All()), All(), pos)
      decreases |tokens| - pos, 5
    {
      hide StmtResult, Steady, ParsePrec, Closed, VarOf;
      ghost var m, i := All(), pos;
      SteadyNext(tokens, m, i);
      if Current() == TEq {
        Advance();
        SteadyMoves(tokens, m, i, pos);
        GlobalInitializer(x);
      } else {
        Consume(TSemi);
        NoCodeEnds(tokens, slot, x, i, m, i, All(), pos);
      }
    }

    method GlobalInitializer(x: string)
      requires Steady(tokens, All(), pos) && depth == 0
      modifies this
      ensures recursion == old(recursion) && pos >= old(pos)
      ensures StmtResult(tokens, slot, VarOf(tokens, x, ParsePrec(tokens, old(pos), PREC_ASSIGNMENT, old(recursion))),
              old(All()), All(), pos)
      decreases |tokens| - pos, 5
    {
      hide StmtResult, Steady, ParsePrec, Compile, VarOf, Result, Free;
      ghost var m, i := All(), pos;
      SteadyNext(tokens, m, i);
      var reg := Target(-1);
      if hadError {
        NoInfixAfter(tokens, i, recursion);
        VarFails(tokens, slot, x, ParsePrec(tokens, i, PREC_ASSIGNMENT, recursion), m, All(), pos);
        return;
      }
      var unused := ParsePrecedence(PREC_ASSIGNMENT, reg);
      ghost var aft, at := Now(), pos;
      InRange(tokens, Scope(locals, slot), ParsePrec(tokens, i, PREC_ASSIGNMENT, recursion), reg, unused,
          Taken(SnapOf(m), -1), aft, at);
      if !hadError {
        StoreGlobal(x, reg);
        Consume(TSemi);
      }
      GlobalEnds(tokens, slot, x, i, recursion, unused, m, i, aft, at, All(), pos);
    }

    method StoreGlobal(x: string, reg: int)
      modifies `code, `nextReg
      ensures code == old(code) + [SetGlobal(reg, slot(x))] && nextReg == Free(locals, old(nextReg), reg)
    {
      hide Free;
      Emit(SetGlobal(reg, slot(x)));
      FreeReg(reg);
    }

    // -------------------------------------------------------------- branches

    method Condition() returns (reg: int)
      requires Going(tokens, Now(), pos)
      modifies `pos, `code, `pool, `lastPatched, `nextReg, `maxReg, `recursion, `hadError
      ensures recursion == old(recursion) && pos >= old(pos)
      ensures CondResult(tokens, Scope(locals, slot), ParseCondition(tokens, old(pos), old(recursion)), reg, old(Now()),
              Now(), pos)
      decreases |tokens| - pos, 5
    {
      hide Compile, ParsePrec, Result, CondResult, ParseCondition;
      ghost var m, i, sc := Now(), pos, Scope(locals, slot);
      reg := -1;
      Consume(TLParen);
      if hadError {
        NoCondition(tokens, sc, i, recursion, reg, m, Now(), pos);
        return;
      }
      reg := ParsePrecedence(PREC_ASSIGNMENT, -1);
      ghost var aft, at := Now(), pos;
      InRange(tokens, sc, ParsePrec(tokens, i + 1, PREC_ASSIGNMENT, recursion), -1, reg, m, aft, at);
      if !hadError {
        Consume(TRParen);
      }
      ConditionEnds(tokens, sc, i, recursion, reg, m, aft, at, Now(), pos);
    }

    /** Branches on a condition that has just been compiled behind start, fusing the comparison when
        nothing jumps behind it and its result is a temporary. */
    method EmitCondFalseJump(cond: int, ghost start: seq<Instr>, ghost e: Expr, ghost o: Out)
      returns (jump: nat, fused: bool)
      requires code == start + o.code && cond == o.reg && Fusable(locals, e, o, |code|, lastPatched)
      modifies `code, `nextReg
      ensures var b := BranchCode(locals, IsJoin(e), o, 0);
              b != [] && code == start + b && jump == |start| + |b| - 1 && nextReg == Free(locals, old(nextReg), cond)
      ensures Aimable(code, jump) && (fused ==> code[jump].Jmp?)
    {
      hide IsLocal, Free;
      var off := |code| - 1;
      var targeted := lastPatched >= |code|;
      if off >= 0 && !targeted && !IsLocal(locals, cond) {
        var i := code[off];
        assert o.code != [] && i == Last(o.code);
        if i.Arith? && (i.op.Lt? || i.op.Le? || i.op.Eq?) && i.a == cond {
          RewindTo(off);
          FreeReg(cond);
          jump := EmitCmpJmpIfNot(if i.op.Lt? then CLt else if i.op.Le? then CLe else CEq, i.b, i.c);
          assert code == start + (Front(o.code) +
              [CmpJmpIfNot(if i.op.Lt? then CLt else if i.op.Le? then CLe else CEq, i.b, i.c), Jmp(0)]);
          return jump, true;
        }
        if i.Unary? && i.uop.Not? && i.a == cond && i.b == cond && off >= 1 {
          var cmp := code[off - 1];
          assert |o.code| >= 2 && cmp == o.code[|o.code| - 2];
          if cmp.Arith? && cmp.op.Eq? && cmp.a == cond {
            RewindTo(off - 1);
            FreeReg(cond);
            jump := EmitCmpJmpIfNot(CNe, cmp.b, cmp.c);
            assert code == start + (o.code[..|o.code| - 2] + [CmpJmpIfNot(CNe, cmp.b, cmp.c), Jmp(0)]);
            return jump, true;
          }
        }
      }
      jump, fused := |code|, false;
      Emit(JmpIfNot(cond, 0));
      assert code == start + (o.code + [JmpIfNot(cond, 0)]);
      FreeReg(cond);
    }

    /** The two words of a fused branch; the second one waits for the distance. */
    method EmitCmpJmpIfNot(cmp: CmpOp, b: int, c: int) returns (offset: nat)
      modifies `code
      ensures code == old(code) + [CmpJmpIfNot(cmp, b, c), Jmp(0)] && offset == |old(code)| + 1
    {
      Emit(CmpJmpIfNot(cmp, b, c));
      offset := |code|;
      Emit(Jmp(0));
    }

    method PatchCondJump(offset: nat, fused: bool)
      requires Aimable(code, offset) && (fused ==> code[offset].Jmp?)
      modifies `code, `lastPatched
      ensures code == Patched(old(code), offset) && lastPatched <= Max(old(lastPatched), |code|)
    {
      if fused {
        code := code[offset := Jmp(|code| - (offset + 1))];
      } else {
        PatchJump(offset);
      }
    }

    /** Aims every jump that waits at holes behind the last instruction. */
    method PatchAllHere(holes: seq<int>)
      requires Holes(code, holes) && lastPatched <= |code|
      modifies `code, `lastPatched
      ensures code == PatchAll(old(code), 0, holes, |old(code)|) && lastPatched <= |code|
    {
      hide PatchAll;
      var i := 0;
      NoHoles(code, |code|);
      while i < |holes|
        invariant 0 <= i <= |holes| && |code| == |old(code)| && lastPatched <= |code|
        invariant code == PatchAll(old(code), 0, holes[..i], |old(code)|) && Holes(code, holes)
      {
        assert holes[..i + 1] == holes[..i] + [holes[i]] && holes[i] in holes;
        PatchSnoc(old(code), holes[..i], holes[i], |code|);
        PatchJump(holes[i]);
        i := i + 1;
      }
      assert holes[..i] == holes;
    }

    // -------------------------------------------------------------- structured statements

    method Block()
      requires Steady(tokens, All(), pos)
      modifies this
      ensures recursion == old(recursion) && pos >= old(pos)
      ensures SeqResult(tokens, slot, ParseBlock(tokens, old(pos), old(recursion)), old(All()), All(), pos)
      decreases |tokens| - pos, 10
    {
      hide SeqResult, StmtResult, Steady, ParseBlock, ParseDecl, InBlock, CompileStmt;
      ghost var m, i, d := All(), pos, recursion;
      BlockStarts(tokens, slot, i, d, m);
      ghost var done: seq<Stmt> := [];
      BlockSteady(tokens, slot, i, d, done, m, All(), pos);
      while Current() != TRBrace && Current() != TEof
        invariant recursion == d && i <= pos <= |tokens| && InBlock(tokens, slot, i, d, done, m, All(), pos)
        decreases |tokens| - pos
      {
        ghost var w, at := All(), pos;
        BlockSteady(tokens, slot, i, d, done, m, w, at);
        Declaration();
        BlockGoes(tokens, slot, i, d, done, m, w, at, All(), pos);
        if hadError { return; }
        done := done + [ParseDecl(tokens, at, d).value.tree];
        BlockSteady(tokens, slot, i, d, done, m, All(), pos);
      }
      ghost var w, at := All(), pos;
      Consume(TRBrace);
      BlockEnds(tokens, slot, i, d, done, m, w, at, All(), pos);
    }

    /** A block of its own, or a single declaration: either way a scope. */
    method ScopedBody()
      requires Steady(tokens, All(), pos)
      modifies this
      ensures recursion == old(recursion) && pos >= old(pos)
      ensures StmtResult(tokens, slot, ParseBody(tokens, old(pos), old(recursion)), old(All()), All(), pos)
      decreases |tokens| - pos, 11
    {
      hide StmtResult, Steady, ParseBlock, ParseDecl, ParseBody;
      ghost var m, i, d := All(), pos, recursion;
      SteadyNext(tokens, m, i);
      var braced := Current() == TLBrace;
      if braced {
        Advance();
        SteadyMoves(tokens, m, i, pos);
      }
      BodyIs(tokens, i, d);
      if braced {
        Braces();
      } else {
        SingleDeclaration();
      }
    }

    method SingleDeclaration()
      requires Steady(tokens, All(), pos)
      modifies this
      ensures recursion == old(recursion) && pos >= old(pos)
      ensures StmtResult(tokens, slot, BlockOf(Alone(ParseDecl(tokens, old(pos), old(recursion)))), old(All()), All(),
              pos)
      decreases |tokens| - pos, 10
    {
      hide SeqResult, StmtResult, Steady, ParseDecl, Shallower;
      ghost var m, i := All(), pos;
      SteadyNext(tokens, m, i);
      SteadyScope(tokens, m, pos);
      BeginScope();
      Declaration();
      ghost var w, r := All(), ParseDecl(tokens, i, recursion);
      OneDecl(tokens, slot, r, Deeper(m), i, w, pos);
      if !hadError {
        ScopeDepth(tokens, slot, Alone(r), Deeper(m), w, pos);
        EndScope();
      }
      ScopeEnds(tokens, slot, Alone(r), m, i, w, pos, All());
    }

    /** One `if` or `elif`: its branch, its body, and a jump that waits for the end of the chain. */
    method CompileArm(count: nat)
      requires Steady(tokens, All(), pos)
      modifies this
      ensures recursion == old(recursion) && pos >= old(pos)
      ensures ArmResult(tokens, slot, ParseArm(tokens, old(pos), old(recursion)), count, old(All()), All(), pos)
      decreases |tokens| - pos, 12
    {
      hide StmtResult, Steady, ParseBody, ParseArm, ParseCondition, CondResult, ArmResult, CondCode, Compile, AfterCond,
          CondHi, Fusable;
      ghost var m, i, d := All(), pos, recursion;
      SteadyNext(tokens, m, i);
      var cond := Condition();
      ghost var c := ParseCondition(tokens, i, d);
      if hadError {
        ArmFails(tokens, slot, i, d, count, cond, m, i, Now(), pos, All());
        return;
      }
      CondStarts(tokens, slot, c, cond, m, i, Now(), pos);
      var jump, fused := EmitCondFalseJump(cond, m.code, c.value.tree,
          Compile(c.value.tree, -1, false, m.st.next, m.st.pool, ScopeOf(m.st, slot)));
      ghost var patched := lastPatched;
      IsConded(c.value.tree, m, slot, All());
      ScopedBody();
      ghost var w := All();
      if !hadError {
        BodyAimable(tokens, slot, i, d, c, m, patched, w, pos, Jmp(0));
        if count >= MAX_BRANCHES {
          Error();
        } else {
          Emit(Jmp(0));
          PatchCondJump(jump, fused);
        }
      }
      ArmDone(tokens, slot, i, d, count, c, m, i, patched, w, pos, lastPatched, All());
    }

    method IfStatement()
      requires Steady(tokens, All(), pos)
      modifies this
      ensures recursion == old(recursion) && pos >= old(pos)
      ensures StmtResult(tokens, slot, ParseIf(tokens, old(pos), old(recursion)), old(All()), All(), pos)
      decreases |tokens| - pos, 13
    {
      hide StmtResult, Steady, ParseIf, ParseTail, ParseArm, ArmResult, InChain, Holes, PatchAll, CompileStmt;
      ghost var m, i, d := All(), pos, recursion;
      SteadyNext(tokens, m, i);
      CompileArm(0);
      ChainStarts(tokens, slot, i, d, m, i, All(), pos);
      if hadError { return; }
      ghost var arms := [ParseArm(tokens, i, d).value.tree];
      var endJumps := [|code| - 1];
      while Current() == TElif
        invariant recursion == d && i <= pos && InChain(tokens, slot, i, d, arms, endJumps, m, All(), pos) &&
                  |endJumps| == |arms|
        decreases |tokens| - pos
      {
        ghost var w, at := All(), pos;
        ChainSteady(tokens, slot, i, d, arms, endJumps, m, w, at);
        Advance();
        SteadyMoves(tokens, w, at, pos);
        CompileArm(|endJumps|);
        ChainGoes(tokens, slot, i, d, arms, endJumps, m, w, at, All(), pos);
        if hadError { return; }
        arms := arms + [ParseArm(tokens, at + 1, d).value.tree];
        endJumps := endJumps + [|code| - 1];
      }
      ElsePart(i, arms, endJumps, m);
    }

    /** The else-part, if there is one, and the end of the chain. */
    method ElsePart(ghost i: nat, ghost arms: seq<Arm>, endJumps: seq<int>, ghost m: World)
      requires InChain(tokens, slot, i, recursion, arms, endJumps, m, All(), pos) && Current() != TElif
      modifies this
      ensures recursion == old(recursion) && pos >= old(pos)
      ensures StmtResult(tokens, slot, ParseIf(tokens, i, old(recursion)), m, All(), pos)
      decreases |tokens| - pos, 12
    {
      hide StmtResult, Steady, ParseIf, ParseBody, InChain, Holes, PatchAll, CompileStmt;
      ghost var w, at, d := All(), pos, recursion;
      ChainSteady(tokens, slot, i, d, arms, endJumps, m, w, at);
      if Current() == TElse {
        Advance();
        SteadyMoves(tokens, w, at, pos);
        ScopedBody();
      } else {
        SkipEnds(tokens, slot, w, at);
      }
      TailIs(tokens, at, d);
      ghost var w' := All();
      if !hadError {
        ChainWaits(tokens, slot, i, d, arms, endJumps, m, w, at, w', pos);
        PatchAllHere(endJumps);
      }
      ChainEnds(tokens, slot, i, d, arms, endJumps, m, w, at, w', pos, All(), lastPatched);
    }

    method WhileStatement()
      requires Steady(tokens, All(), pos)
      modifies this
      ensures recursion == old(recursion) && pos >= old(pos)
      ensures StmtResult(tokens, slot, ParseWhile(tokens, old(pos), old(recursion)), old(All()), All(), pos)
      decreases |tokens| - pos, 13
    {
      hide StmtResult, Steady, ParseBody, ParseWhile, ParseCondition, CondResult, CondCode, Compile, AfterCond, CondHi,
          Fusable, Looped;
      ghost var m, i, d := All(), pos, recursion;
      SteadyNext(tokens, m, i);
      if |loops| >= MAX_LOOPS {
        Error();
        WhileFails(tokens, slot, i, d, m, i, All(), pos);
        return;
      }
      var start := |code|;
      loops := loops + [Loop(start, [])];
      LoopedIs(m);
      SteadyLooped(tokens, m, i);
      var cond := Condition();
      ghost var c := ParseCondition(tokens, i, d);
      if hadError {
        CondFailed(tokens, slot, c, cond, m, Now(), pos);
        WhileFails(tokens, slot, i, d, m, i, All(), pos);
        return;
      }
      CondStarts(tokens, slot, c, cond, Looped(m), i, Now(), pos);
      var jump, fused := EmitCondFalseJump(cond, m.code, c.value.tree,
          Compile(c.value.tree, -1, false, m.st.next, m.st.pool, ScopeOf(m.st, slot)));
      IsConded(c.value.tree, Looped(m), slot, All());
      WhileBody(start, jump, fused, i, c, m, lastPatched);
    }

    /** A loop's body, the jump back, and the end of the loop. */
    method WhileBody(start: int, jump: nat, fused: bool, ghost i: nat, ghost c: Option<Parsed<Expr>>, ghost m: World,
          ghost patched: nat)
      requires Steady(tokens, All(), pos) && Steady(tokens, m, i) && i <= pos && |m.loops| < MAX_LOOPS
      requires c == ParseCondition(tokens, i, recursion) && c.Some? && c.value.at == pos &&
               CondHi(c.value.tree, m.st, slot) <= MAX_REGS
      requires CondCode(c.value.tree, m.st, slot, 0) != [] && All() == Conded(Looped(m), c.value.tree, slot, patched)
      requires start == |m.code| && jump == BranchAt(m, c.value.tree, slot) && Aimable(code, jump) &&
               (fused ==> code[jump].Jmp?)
      modifies this
      ensures recursion == old(recursion) && pos >= old(pos)
      ensures StmtResult(tokens, slot, ParseWhile(tokens, i, old(recursion)), m, All(), pos)
      decreases |tokens| - pos, 13
    {
      hide StmtResult, Steady, ParseBody, ParseWhile, ParseCondition, CondCode, Compile, AfterCond, CondHi, Looped,
          Patched, Holes, PatchAll, CompileStmt;
      ghost var w0, d := All(), recursion;
      SteadyNext(tokens, m, i);
      LoopedIs(m);
      ScopedBody();
      ghost var w, aimed := All(), 0;
      if !hadError {
        LoopAimable(tokens, slot, i, d, c, m, patched, w, pos, Jmp(start - (|code| + 1)));
        assert w0.code == m.code + CondCode(c.value.tree, m.st, slot, 0);
        EmitLoop(start);
        PatchCondJump(jump, fused);
        aimed := lastPatched;
        var loop := loops[|loops| - 1];
        PatchAllHere(loop.breaks);
        loops := loops[..|loops| - 1];
      }
      WhileEnds(tokens, slot, i, d, c, m, i, patched, w, pos, aimed, All(), lastPatched);
    }

    method Statement()
      requires Steady(tokens, All(), pos)
      modifies this
      ensures recursion == old(recursion) && pos >= old(pos)
      ensures StmtResult(tokens, slot, ParseStatement(tokens, old(pos), old(recursion)), old(All()), All(), pos)
      decreases |tokens| - pos, 7
    {
      recursion := recursion + 1;
      if recursion > MAX_PARSE_DEPTH {
        hide Steady;
        SteadyNext(tokens, old(All()), old(pos));
        Error();
        NoName(tokens, slot, ParseStatement(tokens, old(pos), old(recursion)), old(All()), All(), pos);
      } else {
        StatementBody();
      }
      recursion := recursion - 1;
    }

    method StatementBody()
      requires Steady(tokens, All(), pos) && 0 < recursion <= MAX_PARSE_DEPTH
      modifies this
      ensures recursion == old(recursion) && pos >= old(pos)
      ensures StmtResult(tokens, slot, ParseStatement(tokens, old(pos), old(recursion) - 1), old(All()), All(), pos)
      decreases |tokens| - pos, 6
    {
      hide StmtResult, Steady, ParseIf, ParseWhile, ParseBlock, ParseCondition, ParsePrec, Closed, Shallower, SeqResult;
      ghost var m, i, d := All(), pos, recursion;
      var t := Current();
      SteadyNext(tokens, m, i);
      if t != TEof { SteadyMoves(tokens, m, i, i + 1); }
      if t == TIf {
        Advance();
        IfStatement();
      } else if t == TWhile {
        Advance();
        WhileStatement();
      } else if t == TBreak {
        Advance();
        BreakStatement();
      } else if t == TContinue {
        Advance();
        ContinueStatement();
      } else if t == TPrint {
        Advance();
        PrintStatement();
      } else if t == TLBrace {
        Advance();
        Braces();
      } else {
        ExpressionStatement();
      }
      StatementIs(tokens, i, d - 1);
    }

    method Braces()
      requires Steady(tokens, All(), pos)
      modifies this
      ensures recursion == old(recursion) && pos >= old(pos)
      ensures StmtResult(tokens, slot, BlockOf(ParseBlock(tokens, old(pos), old(recursion))), old(All()), All(), pos)
      decreases |tokens| - pos, 11
    {
      hide SeqResult, StmtResult, Steady, ParseBlock, Shallower;
      ghost var m, i := All(), pos;
      SteadyNext(tokens, m, i);
      SteadyScope(tokens, m, pos);
      BeginScope();
      Block();
      ghost var w := All();
      if !hadError {
        ScopeDepth(tokens, slot, ParseBlock(tokens, i, recursion), Deeper(m), w, pos);
        EndScope();
      }
      ScopeEnds(tokens, slot, ParseBlock(tokens, i, recursion), m, i, w, pos, All());
    }

    method Declaration()
      requires Steady(tokens, All(), pos)
      modifies this
      ensures recursion == old(recursion) && pos >= old(pos)
      ensures StmtResult(tokens, slot, ParseDecl(tokens, old(pos), old(recursion)), old(All()), All(), pos)
      decreases |tokens| - pos, 8
    {
      hide StmtResult, Steady, ParseVar, ParseStatement;
      ghost var m, i := All(), pos;
      SteadyNext(tokens, m, i);
      recursion := recursion + 1;
      if recursion > MAX_PARSE_DEPTH {
        Error();
        Advance();
        NoName(tokens, slot, ParseDecl(tokens, i, recursion - 1), m, All(), pos);
      } else if Current() == TVar {
        Advance();
        SteadyMoves(tokens, m, i, pos);
        VarDeclaration();
      } else {
        Statement();
      }
      recursion := recursion - 1;
    }

    // -------------------------------------------------------------- scripts

    constructor (tokens: seq<Token>, slot: string -> int)
      ensures this.tokens == tokens && this.slot == slot && pos == 0 && recursion == 0 && All() == Blank()
    {
      this.tokens, this.slot := tokens, slot;
      pos, code, pool, lastPatched := 0, [], [], 0;
      locals, depth, nextReg, maxReg, loops := [], 0, 0, 0, [];
      recursion, hadError := 0, false;
    }

    /** Every function ends in a halt, whatever was emitted before. */
    method EndFunction()
      modifies `code
      ensures code == old(code) + [Halt]
    {
      Emit(Halt);
    }

    /** Compiles everything up to the end of the tokens. */
    method CompileScript() returns (fn: Option<Function>)
      requires pos == 0 && recursion == 0 && All() == Blank()
      modifies this
      ensures fn == CompileTokens(tokens, slot)
    {
      hide StmtResult, Steady, ParseDecl, InScript, CompileTokens;
      ghost var done: seq<Stmt> := [];
      ScriptStarts(tokens, slot);
      while Current() != TEof
        invariant recursion == 0 && pos <= |tokens| && InScript(tokens, slot, done, All(), pos)
        decreases |tokens| - pos
      {
        ghost var w, at := All(), pos;
        InScriptSteady(tokens, slot, done, w, at);
        Declaration();
        ScriptGoes(tokens, slot, done, w, at, All(), pos);
        if hadError { return None; }
        done := done + [ParseDecl(tokens, at, 0).value.tree];
        InScriptSteady(tokens, slot, done, All(), pos);
      }
      ScriptEnds(tokens, slot, done, All(), pos);
      assert code + [Halt] + [Halt] == code + ENDING;
      Emit(Halt);
      EndFunction();
      fn := Some(Function(code, pool, maxReg));
    }
  }
}
