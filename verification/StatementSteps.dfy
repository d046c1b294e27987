/** What each statement method of the single pass contributes, on values: scopes, loops with their
    waiting jumps, and the chain of an `if`. */
module StatementSteps {
  import opened Values
  import opened Machine
  import opened Codegen
  import opened ExpressionProof
  import opened Statements
  import opened Grammar
  import opened PassSteps

  /** An open loop: where it starts, and the jumps that wait for its end. */
  datatype Loop = Loop(start: int, breaks: seq<int>)

  /** Everything a statement's compilation reads and changes. */
  datatype World = World(code: seq<Instr>, st: Scopes, max: int, patched: nat, err: bool, loops: seq<Loop>)

  function SnapOf(w: World): Snap {
    Snap(w.code, w.st.next, w.st.pool, w.max, w.patched, w.err)
  }

  function Ctx(loops: seq<Loop>): LoopCtx {
    LoopCtx(if loops == [] then -1 else loops[|loops| - 1].start, |loops|)
  }

  function Waiting(loops: seq<Loop>): nat {
    if loops == [] then 0 else |loops[|loops| - 1].breaks|
  }

  /** The innermost loop gets further waiting jumps. */
  function Noted(loops: seq<Loop>, breaks: seq<int>): seq<Loop> {
    if loops == [] then []
        else loops[..|loops| - 1] + [Loop(loops[|loops| - 1].start, loops[|loops| - 1].breaks + breaks)]
  }

  ghost predicate Holes(code: seq<Instr>, holes: seq<int>) {
    forall h :: h in holes ==> 0 <= h < |code| && code[h].Jmp?
  }

  /** Between two statements while no error has occurred. */
  ghost predicate Steady(ts: seq<Token>, n: World, pos: nat) {
    Going(ts, SnapOf(n), pos) && 0 <= n.max &&
    (forall i :: 0 <= i < |n.st.locals| ==> n.st.locals[i].reg < n.max && n.st.locals[i].reg < MAX_REGS) &&
    (forall i :: 0 <= i < |n.loops| ==> Holes(n.code, n.loops[i].breaks)) &&
    (forall i :: 0 <= i < |n.loops| ==> 0 <= n.loops[i].start && |n.loops[i].breaks| <= MAX_BREAKS)
  }

  ghost predicate StmtCode(slot: string -> int, o: SOut, m: World, n: World) {
    n.code == m.code + o.code && n.st == o.st && n.max == Max(m.max, o.hi) && n.loops == Noted(m.loops, o.breaks)
  }

  ghost predicate TooMany(o: SOut, m: World) {
    o.err || (m.loops != [] && Waiting(m.loops) + |o.breaks| > MAX_BREAKS)
  }

  function OutOf(s: Stmt, m: World, slot: string -> int): SOut {
    CompileStmt(s, |m.code|, Ctx(m.loops), m.st, slot)
  }

  function OutOfSeq(ss: seq<Stmt>, m: World, slot: string -> int): SOut {
    CompileSeq(ss, |m.code|, Ctx(m.loops), m.st, slot)
  }

  /** What a statement method leaves, given what the grammar makes of the tokens. */
  ghost predicate StmtResult(ts: seq<Token>, slot: string -> int, r: Option<Parsed<Stmt>>, m: World, n: World,
        pos: nat) {
    pos <= |ts| && (n.err <==> r.None? || TooMany(OutOf(r.value.tree, m, slot), m)) &&
    (!n.err ==> pos == r.value.at && Steady(ts, n, pos) && StmtCode(slot, OutOf(r.value.tree, m, slot), m, n))
  }

  ghost predicate SeqResult(ts: seq<Token>, slot: string -> int, r: Option<Parsed<seq<Stmt>>>, m: World, n: World,
        pos: nat) {
    pos <= |ts| && (n.err <==> r.None? || TooMany(OutOfSeq(r.value.tree, m, slot), m)) &&
    (!n.err ==> pos == r.value.at && Steady(ts, n, pos) && StmtCode(slot, OutOfSeq(r.value.tree, m, slot), m, n))
  }

  /** A condition in parentheses: as an expression that nothing follows. */
  ghost predicate CondResult(ts: seq<Token>, sc: Scope, r: Option<Parsed<Expr>>, reg: int, m: Snap, n: Snap, pos: nat) {
    pos <= |ts| && (n.err <==> r.None? || Compile(r.value.tree, -1, false, m.next, m.pool, sc).hi > MAX_REGS) &&
    (!n.err ==> pos == r.value.at && Produced(sc, r.value.tree, -1, false, reg, m, n))
  }

  // ---------------------------------------------------------------- expressions in statements

  /** After an expression statement's expression. */
  function Plain(m: World, n: Snap): World {
    World(n.code, m.st.(next := n.next, pool := n.pool), n.max, n.patched, n.err, m.loops)
  }

  /** Code is only added, so what was steady stays so. */
  lemma SteadyGrows(ts: seq<Token>, m: World, pos: nat, n: Snap, next: int, pos': nat, more: seq<Instr>)
    requires Steady(ts, m, pos) && n.code == m.code + more && m.max <= n.max && next <= n.max && next <= MAX_REGS &&
             n.patched <= |n.code| &&
             pos' <= |ts| && !n.err
    ensures Steady(ts, Plain(m, n.(next := next)), pos')
  {
  }

  lemma NotedNone(loops: seq<Loop>)
    ensures Noted(loops, []) == loops
  {
    if loops != [] {
      var l := loops[|loops| - 1];
      assert l.breaks + [] == l.breaks;
    }
  }

  lemma NotedTwice(loops: seq<Loop>, xs: seq<int>, ys: seq<int>)
    ensures Noted(Noted(loops, xs), ys) == Noted(loops, xs + ys) && Ctx(Noted(loops, xs)) == Ctx(loops)
    ensures Waiting(Noted(loops, xs)) == if loops == [] then 0 else Waiting(loops) + |xs|
  {
    if loops != [] {
      var l := loops[|loops| - 1];
      assert (l.breaks + xs) + ys == l.breaks + (xs + ys);
    }
  }

  lemma ExprStmtEnds(ts: seq<Token>, slot: string -> int, i: nat, d: nat, reg: int, m: World, pos0: nat, aft: Snap,
        at: nat, fin: World, pos: nat)
    requires Steady(ts, m, pos0) && pos <= |ts|
    requires Result(ts, ScopeOf(m.st, slot), ParsePrec(ts, i, PREC_ASSIGNMENT, d), -1, reg, SnapOf(m), aft, at)
    requires if aft.err then fin.err
             else if Tok(ts, at) == TSemi then pos == at + 1 && fin == Plain(m, aft.(next := m.st.next))
             else fin.err
    ensures var e := ParsePrec(ts, i, PREC_ASSIGNMENT, d);
            StmtResult(ts, slot, if e.None? then None
                else Closed(ts, ExprStmt(e.value.tree), e.value.at, TSemi), m, fin, pos)
  {
    hide Compile, ParsePrec, Result, Steady, Marked, Noted;
    var e := ParsePrec(ts, i, PREC_ASSIGNMENT, d);
    NoInfixAfter(ts, i, d);
    NotedNone(m.loops);
    if aft.err {
      HasFailed(ts, ScopeOf(m.st, slot), e, -1, reg, SnapOf(m), aft, at);
    } else {
      Extract(ts, ScopeOf(m.st, slot), e, -1, reg, SnapOf(m), aft, at);
      SteadyNext(ts, m, pos0);
      if !fin.err {
        var o := Compile(e.value.tree, -1, false, m.st.next, m.st.pool, ScopeOf(m.st, slot));
        MarkedFits(m.st.locals, e.value.tree, o, |aft.code|, aft.patched);
        SteadyGrows(ts, m, pos0, aft, m.st.next, pos, o.code);
        SteadyWaits(ts, m, pos0);
      }
    }
  }

  lemma SteadyNext(ts: seq<Token>, m: World, pos: nat)
    requires Steady(ts, m, pos)
    ensures m.st.next <= m.max && m.st.next <= MAX_REGS && m.patched <= |m.code| && !m.err && Going(ts, SnapOf(m), pos)
  {
  }

  lemma SteadyWaits(ts: seq<Token>, m: World, pos: nat)
    requires Steady(ts, m, pos)
    ensures m.loops != [] ==> Waiting(m.loops) <= MAX_BREAKS
  {
  }

  // ---------------------------------------------------------------- conditions

  /** A parenthesised expression: what follows the closing parenthesis does not matter. */
  lemma ConditionEnds(ts: seq<Token>, sc: Scope, i: nat, d: nat, reg: int, m: Snap, aft: Snap, at: nat, fin: Snap,
        pos: nat)
    requires pos <= |ts| && Tok(ts, i).TLParen? &&
             Result(ts, sc, ParsePrec(ts, i + 1, PREC_ASSIGNMENT, d), -1, reg, m, aft, at)
    requires if aft.err then fin.err else if Tok(ts, at).TRParen? then fin == aft && pos == at + 1 else fin.err
    ensures CondResult(ts, sc, ParseCondition(ts, i, d), reg, m, fin, pos)
  {
    hide Compile, ParsePrec, Result, Produced;
    var e := ParsePrec(ts, i + 1, PREC_ASSIGNMENT, d);
    NoInfixAfter(ts, i + 1, d);
    if aft.err {
      HasFailed(ts, sc, e, -1, reg, m, aft, at);
    } else {
      Extract(ts, sc, e, -1, reg, m, aft, at);
      IsProduced(ts, sc, e, reg, m, aft, at);
    }
  }

  lemma IsProduced(ts: seq<Token>, sc: Scope, r: Option<Parsed<Expr>>, reg: int, m: Snap, n: Snap, pos: nat)
    requires Result(ts, sc, r, -1, reg, m, n, pos) && !n.err
    ensures r.Some? && pos == r.value.at && Produced(sc, r.value.tree, -1, IsInfix(Tok(ts, pos)), reg, m, n)
  {
    hide Compile, Produced;
  }

  lemma PrintEnds(ts: seq<Token>, slot: string -> int, i: nat, d: nat, reg: int, m: World, pos0: nat, aft: Snap,
        at: nat, fin: World, pos: nat)
    requires Steady(ts, m, pos0) && pos <= |ts|
    requires CondResult(ts, ScopeOf(m.st, slot), ParseCondition(ts, i, d), reg, SnapOf(m), aft, at)
    requires if aft.err then fin.err
             else if Tok(ts, at) == TSemi then
               pos == at + 1 && fin == Plain(m,
                   aft.(code := aft.code + [Instr.Print(reg)], next := Free(m.st.locals, aft.next, reg)))
             else fin.err
    ensures var e := ParseCondition(ts, i, d);
            StmtResult(ts, slot, if e.None? then None
                else Closed(ts, PrintStmt(e.value.tree), e.value.at, TSemi), m, fin, pos)
  {
    hide Compile, ParseCondition, Steady, Marked, Noted, IsLocal;
    var e := ParseCondition(ts, i, d);
    NotedNone(m.loops);
    SteadyNext(ts, m, pos0);
    if !fin.err {
      var o := Compile(e.value.tree, -1, false, m.st.next, m.st.pool, ScopeOf(m.st, slot));
      MarkedFits(m.st.locals, e.value.tree, o, |aft.code|, aft.patched);
      HiBounds(e.value.tree, -1, false, m.st.next, m.st.pool, ScopeOf(m.st, slot));
      assert aft.code + [Instr.Print(reg)] == m.code + (o.code + [Instr.Print(reg)]);
      SteadyGrows(ts, m, pos0, aft.(code := aft.code + [Instr.Print(reg)]), Free(m.st.locals, aft.next, reg), pos,
          o.code + [Instr.Print(reg)]);
      SteadyWaits(ts, m, pos0);
    }
  }

  function PrintOf(ts: seq<Token>, e: Option<Parsed<Expr>>): Option<Parsed<Stmt>>
    requires e.Some? ==> e.value.at >= 0
  {
    if e.None? then None else Closed(ts, PrintStmt(e.value.tree), e.value.at, TSemi)
  }

  /** The same, when the word is emitted before the parenthesis is closed. */
  lemma PrintBodyEnds(ts: seq<Token>, slot: string -> int, i: nat, d: nat, reg: int, m: World, pos0: nat, aft: Snap,
        at: nat, fin: World, pos: nat)
    requires Steady(ts, m, pos0) && pos <= |ts| && Tok(ts, i).TLParen?
    requires Result(ts, ScopeOf(m.st, slot), ParsePrec(ts, i + 1, PREC_ASSIGNMENT, d), -1, reg, SnapOf(m), aft, at)
    requires if !aft.err && Tok(ts, at).TRParen? && Tok(ts, at + 1) == TSemi then
               pos == at + 2 && fin == Plain(m,
                   aft.(code := aft.code + [Instr.Print(reg)], next := Free(m.st.locals, aft.next, reg)))
             else fin.err
    ensures StmtResult(ts, slot, PrintOf(ts, ParseCondition(ts, i, d)), m, fin, pos)
  {
    hide Compile, ParseCondition, Steady, ParsePrec, IsLocal, Result, CondResult, StmtResult, Free;
    var closed := !aft.err && Tok(ts, at).TRParen?;
    var aft', at' := if closed then aft else aft.(err := true), if closed then at + 1 else pos;
    ConditionEnds(ts, ScopeOf(m.st, slot), i, d, reg, SnapOf(m), aft, at, aft', at');
    PrintEnds(ts, slot, i, d, reg, m, pos0, aft', at', fin, pos);
  }

  // ---------------------------------------------------------------- variables

  /** A local added on top. */
  function Declared(m: World, n: Snap, x: string): World {
    var w := Plain(m, n);
    w.(st := w.st.(locals := m.st.locals + [Local(x, m.st.depth, m.st.next)]))
  }

  lemma SteadyDeclares(ts: seq<Token>, m: World, pos: nat, n: Snap, x: string, pos': nat, more: seq<Instr>)
    requires Steady(ts, m, pos) && n.code == m.code + more && m.max <= n.max && n.next <= n.max && n.next <= MAX_REGS &&
             n.patched <= |n.code| &&
             pos' <= |ts| && !n.err && m.st.next < n.max && m.st.next < MAX_REGS
    ensures Steady(ts, Declared(m, n, x), pos')
  {
    hide Going;
    SteadyGrows(ts, m, pos, n, n.next, pos', more);
    hide Holes;
    assert Going(ts, SnapOf(Plain(m, n)), pos') && SnapOf(Declared(m, n, x)) == SnapOf(Plain(m, n));
  }

  function VarOf(ts: seq<Token>, x: string, e: Option<Parsed<Expr>>): Option<Parsed<Stmt>>
    requires e.Some? ==> e.value.at >= 0
  {
    if e.None? then None else Closed(ts, VarDecl(x, Some(e.value.tree)), e.value.at, TSemi)
  }

  predicate Refused(st: Scopes, x: string) {
    Redeclared(st.locals, st.depth, x) || |st.locals| >= MAX_LOCALS
  }

  lemma LocalEnds(ts: seq<Token>, slot: string -> int, x: string, i: nat, d: nat, unused: int, m: World, pos0: nat,
        aft: Snap, at: nat, fin: World, pos: nat)
    requires Steady(ts, m, pos0) && pos <= |ts| && m.st.depth > 0
    requires Result(ts, ScopeOf(m.st, slot), ParsePrec(ts, i, PREC_ASSIGNMENT, d), m.st.next, unused,
             Taken(SnapOf(m), -1), aft, at)
    requires if !aft.err && !Refused(m.st, x) && Tok(ts, at) == TSemi then pos == at + 1 && fin == Declared(m, aft, x)
             else fin.err
    ensures StmtResult(ts, slot, VarOf(ts, x, ParsePrec(ts, i, PREC_ASSIGNMENT, d)), m, fin, pos)
  {
    hide Compile, ParsePrec, Result, Steady, Marked, Noted, Redeclared;
    var e, sc := ParsePrec(ts, i, PREC_ASSIGNMENT, d), ScopeOf(m.st, slot);
    NoInfixAfter(ts, i, d);
    NotedNone(m.loops);
    SteadyNext(ts, m, pos0);
    SteadyWaits(ts, m, pos0);
    if e.Some? { HiBounds(e.value.tree, m.st.next, false, m.st.next + 1, m.st.pool, sc); }
    if aft.err {
      HasFailed(ts, sc, e, m.st.next, unused, Taken(SnapOf(m), -1), aft, at);
    } else {
      Extract(ts, sc, e, m.st.next, unused, Taken(SnapOf(m), -1), aft, at);
      if !fin.err {
        var o := Compile(e.value.tree, m.st.next, false, m.st.next + 1, m.st.pool, sc);
        MarkedFits(m.st.locals, e.value.tree, o, |aft.code|, aft.patched);
        SteadyDeclares(ts, m, pos0, aft, x, pos, o.code);
      }
    }
  }

  lemma NilLocalEnds(ts: seq<Token>, slot: string -> int, x: string, i: nat, m: World, pos0: nat, fin: World, pos: nat)
    requires Steady(ts, m, pos0) && pos <= |ts| && m.st.depth > 0
    requires if m.st.next < MAX_REGS && !Refused(m.st, x) && Tok(ts, i) == TSemi then
               pos == i + 1 && fin == Declared(m, Taken(SnapOf(m), -1).(code := m.code + [LoadNil(m.st.next)]), x)
             else fin.err
    ensures StmtResult(ts, slot, Closed(ts, VarDecl(x, None), i, TSemi), m, fin, pos)
  {
    hide Steady, Noted, Redeclared;
    NotedNone(m.loops);
    SteadyNext(ts, m, pos0);
    SteadyWaits(ts, m, pos0);
    if !fin.err {
      SteadyDeclares(ts, m, pos0, Taken(SnapOf(m), -1).(code := m.code + [LoadNil(m.st.next)]), x, pos,
          [LoadNil(m.st.next)]);
    }
  }

  lemma GlobalEnds(ts: seq<Token>, slot: string -> int, x: string, i: nat, d: nat, unused: int, m: World, pos0: nat,
        aft: Snap, at: nat, fin: World, pos: nat)
    requires Steady(ts, m, pos0) && pos <= |ts| && m.st.depth == 0
    requires Result(ts, ScopeOf(m.st, slot), ParsePrec(ts, i, PREC_ASSIGNMENT, d), m.st.next, unused,
             Taken(SnapOf(m), -1), aft, at)
    requires if !aft.err && Tok(ts, at) == TSemi then
               pos == at + 1 &&
               fin == Plain(m, aft.(code := aft.code + [SetGlobal(m.st.next, slot(x))],
                   next := Free(m.st.locals, aft.next, m.st.next)))
             else fin.err
    ensures StmtResult(ts, slot, VarOf(ts, x, ParsePrec(ts, i, PREC_ASSIGNMENT, d)), m, fin, pos)
  {
    hide Compile, ParsePrec, Result, Steady, Marked, Noted, IsLocal;
    var e, sc := ParsePrec(ts, i, PREC_ASSIGNMENT, d), ScopeOf(m.st, slot);
    NoInfixAfter(ts, i, d);
    NotedNone(m.loops);
    SteadyNext(ts, m, pos0);
    SteadyWaits(ts, m, pos0);
    if e.Some? { HiBounds(e.value.tree, m.st.next, false, m.st.next + 1, m.st.pool, sc); }
    if aft.err {
      HasFailed(ts, sc, e, m.st.next, unused, Taken(SnapOf(m), -1), aft, at);
    } else {
      Extract(ts, sc, e, m.st.next, unused, Taken(SnapOf(m), -1), aft, at);
      if !fin.err {
        var o := Compile(e.value.tree, m.st.next, false, m.st.next + 1, m.st.pool, sc);
        MarkedFits(m.st.locals, e.value.tree, o, |aft.code|, aft.patched);
        var store := [SetGlobal(m.st.next, slot(x))];
        assert aft.code + store == m.code + (o.code + store);
        SteadyGrows(ts, m, pos0, aft.(code := aft.code + store), Free(m.st.locals, aft.next, m.st.next), pos,
            o.code + store);
      }
    }
  }

  /** A variable whose register could not be had. */
  lemma VarFails(ts: seq<Token>, slot: string -> int, x: string, e: Option<Parsed<Expr>>, m: World, fin: World,
        pos: nat)
    requires fin.err && pos <= |ts| && m.st.next >= MAX_REGS && (e.Some? ==> e.value.at >= 0) &&
             !(e.Some? && IsInfix(Tok(ts, e.value.at)))
    ensures StmtResult(ts, slot, VarOf(ts, x, e), m, fin, pos)
  {
    hide Compile, Steady;
    if e.Some? { HiBounds(e.value.tree, m.st.next, false, m.st.next + 1, m.st.pool, ScopeOf(m.st, slot)); }
  }

  lemma NoCodeEnds(ts: seq<Token>, slot: string -> int, x: string, i: nat, m: World, pos0: nat, fin: World, pos: nat)
    requires Steady(ts, m, pos0) && pos <= |ts| && m.st.depth == 0
    requires if Tok(ts, i) == TSemi then pos == i + 1 && fin == m else fin.err
    ensures StmtResult(ts, slot, Closed(ts, VarDecl(x, None), i, TSemi), m, fin, pos)
  {
    hide Noted;
    NotedNone(m.loops);
    SteadyNext(ts, m, pos0);
    SteadyWaits(ts, m, pos0);
  }

  // ---------------------------------------------------------------- break, continue

  lemma BreakEnds(ts: seq<Token>, slot: string -> int, i: nat, m: World, pos0: nat, fin: World, pos: nat)
    requires Steady(ts, m, pos0) && pos <= |ts|
    requires if m.loops != [] && Tok(ts, i) == TSemi && Waiting(m.loops) < MAX_BREAKS then
               pos == i + 1 && fin == m.(code := m.code + [Jmp(0)], loops := Noted(m.loops, [|m.code|]))
             else fin.err
    ensures StmtResult(ts, slot, Closed(ts, Break, i, TSemi), m, fin, pos)
  {
    SteadyNext(ts, m, pos0);
    if !fin.err {
      var hs := m.loops[|m.loops| - 1].breaks;
      forall h | h in hs + [|m.code|] ensures 0 <= h < |fin.code| && fin.code[h].Jmp? {
        assert h in hs || h == |m.code|;
      }
      forall k | 0 <= k < |m.loops| - 1 ensures Holes(fin.code, fin.loops[k].breaks) {
        assert fin.loops[k] == m.loops[k] && Holes(m.code, m.loops[k].breaks);
      }
    }
  }

  lemma ContinueEnds(ts: seq<Token>, slot: string -> int, i: nat, m: World, pos0: nat, fin: World, pos: nat)
    requires Steady(ts, m, pos0) && pos <= |ts|
    requires if m.loops != [] && Tok(ts, i) == TSemi then
               pos == i + 1 && fin == m.(code := m.code + [Jmp(Ctx(m.loops).start - (|m.code| + 1))])
             else fin.err
    ensures StmtResult(ts, slot, Closed(ts, Continue, i, TSemi), m, fin, pos)
  {
    NotedNone(m.loops);
    SteadyNext(ts, m, pos0);
    SteadyWaits(ts, m, pos0);
    if !fin.err {
      var n := SnapOf(m).(code := fin.code);
      SteadyGrows(ts, m, pos0, n, m.st.next, pos, [Jmp(Ctx(m.loops).start - (|m.code| + 1))]);
      assert Plain(m, n) == fin;
    }
  }

  // ---------------------------------------------------------------- the branch on a condition

  ghost predicate LoneNot(o: Out) {
    |o.code| == 1 && o.code[0].Unary? && o.code[0].b == o.code[0].a == o.reg
  }

  lemma BinAlone(L: seq<Local>, op: BinOp, reg: int, a: Out, b: Out)
    ensures !LoneNot(EmitBin(L, op, reg, a, b))
  {
    hide Free;
  }

  lemma JumpAlone(L: seq<Local>, isAnd: bool, dest: int, reg: int, a: Out, b: Out, c: Out)
    ensures !LoneNot(EmitPow(L, dest, a, b)) && !LoneNot(EmitJoin(L, isAnd, reg, a, b)) &&
            !LoneNot(EmitCond(L, reg, a, b, c))
  {
    hide Free, FreeUnless;
    var o := EmitJoin(L, isAnd, reg, a, b);
    var rest := Into(reg, b);
    assert o.code[|Into(reg, a)|] == JumpOver(isAnd, reg, rest)[0];
  }

  lemma StoreAlone(L: seq<Local>, home: int, g: int, next: int, val: int, a: Out)
    requires LoneNot(EmitAssignLocal(L, home, -1, next, a)) || LoneNot(EmitAssignGlobal(L, g, -1, val, a))
    ensures EmitAssignLocal(L, home, -1, next, a).reg == home && !LoneNot(EmitAssignGlobal(L, g, -1, val, a))
  {
    hide Free, FreeUnless, StoreLocal;
  }

  /** A NOT on its own register is the second half of a `!=`: no other code consists of it alone. */
  lemma NotAlone(e: Expr, inf: bool, next: int, pool: seq<Const>, sc: Scope)
    requires LoneNot(Compile(e, -1, inf, next, pool, sc))
    ensures IsLocal(sc.locals, Compile(e, -1, inf, next, pool, sc).reg)
  {
    hide IsLocal, Compile, EmitBin, EmitPow, EmitJoin, EmitCond, EmitAssignLocal, EmitAssignGlobal;
    var L := sc.locals;
    if e.Group? {
      UnfoldGroup(e, -1, inf, next, pool, sc);
      NotAlone(e.e, false, next, pool, sc);
    } else if e.Un? {
      UnfoldUn(e, -1, inf, next, pool, sc);
      EmptyCode(e.e, -1, inf, next + 1, pool, sc);
    } else if e.Assign? {
      UnfoldAssignAny(e, -1, inf, next, pool, sc);
      var home := Resolve(L, e.name);
      if home != -1 {
        StoreAlone(L, home, 0, next, 0, Compile(e.e, -1, false, next, pool, sc));
      } else {
        StoreAlone(L, home, sc.slot(e.name), next, next, Compile(e.e, next, false, next + 1, pool, sc));
      }
    } else if e.Bin? {
      UnfoldBin(e, -1, inf, next, pool, sc);
      var a := Compile(e.l, -1, true, next, pool, sc);
      BinAlone(L, e.bop, a.next, a, Compile(e.r, -1, inf, a.next + 1, a.pool, sc));
    } else if e.PowE? {
      UnfoldPow(e, -1, inf, next, pool, sc);
      var a := Compile(e.l, -1, true, next, pool, sc);
      JumpAlone(L, true, -1, 0, a, Compile(e.r, -1, inf, a.next, a.pool, sc), a);
    } else if e.And? || e.Or? {
      UnfoldJoin(e, -1, inf, next, pool, sc);
      var a := Compile(e.l, -1, true, next, pool, sc);
      var reg := JoinReg(L, -1, a);
      JumpAlone(L, e.And?, -1, reg, a, Compile(e.r, reg, inf, JoinNext(L, -1, a), a.pool, sc), a);
    } else if e.Cond? {
      UnfoldCond(e, -1, inf, next, pool, sc);
      var a := Compile(e.c, -1, true, next, pool, sc);
      var x := Compile(e.t, a.next, false, a.next + 1, a.pool, sc);
      JumpAlone(L, true, -1, a.next, a, x, Compile(e.f, a.next, inf, FreeUnless(L, x.next, x.reg, a.next), x.pool, sc));
    } else {
      AtomAlone(e, inf, next, pool, sc);
    }
  }

  lemma AtomAlone(e: Expr, inf: bool, next: int, pool: seq<Const>, sc: Scope)
    requires e.Lit? || e.StrLit? || e.True? || e.False? || e.NilLit? || e.Var?
    ensures var o := Compile(e, -1, inf, next, pool, sc); o.code != [] ==> !o.code[0].Unary?
  {
    hide IsLocal, IndexOf, Intern;
  }

  /** The compiled condition a branch may be fused with. */
  ghost predicate Fusable(L: seq<Local>, e: Expr, o: Out, size: nat, patched: nat) {
    Marked(L, e, o, size, patched) && (o.code == [] ==> IsLocal(L, o.reg)) &&
    (LoneNot(o) ==> IsLocal(L, o.reg))
  }

  lemma CondFusable(sc: Scope, e: Expr, reg: int, m: Snap, n: Snap)
    requires Produced(sc, e, -1, false, reg, m, n)
    ensures var o := Compile(e, -1, false, m.next, m.pool, sc);
            n.code == m.code + o.code && reg == o.reg && Fusable(sc.locals, e, o, |n.code|, n.patched) &&
            n.next == o.next && n.pool == o.pool &&
            n.max == Max(m.max, o.hi) && o.hi <= MAX_REGS && o.next <= o.hi && o.hi >= m.next
  {
    hide Compile, Marked, IsLocal;
    var o := Compile(e, -1, false, m.next, m.pool, sc);
    HiBounds(e, -1, false, m.next, m.pool, sc);
    if o.code == [] { EmptyCode(e, -1, false, m.next, m.pool, sc); }
    if LoneNot(o) { NotAlone(e, false, m.next, m.pool, sc); }
  }

  /** Aiming the branch at the end of what follows it. */
  lemma BranchAimed(start: seq<Instr>, L: seq<Local>, joined: bool, o: Out, rest: seq<Instr>)
    ensures var b := BranchCode(L, joined, o, 0);
            b != [] && Aimable(start + b + rest, |start| + |b| - 1) && |BranchCode(L, joined, o, |rest|)| == |b| &&
            Patched(start + b + rest, |start| + |b| - 1) == start + BranchCode(L, joined, o, |rest|) + rest
  {
    hide FusedWith, IsLocal;
    var b := BranchCode(L, joined, o, 0);
    assert Front(BranchCode(L, joined, o, |rest|)) == Front(b);
    assert start + b + rest == (start + Front(b)) + [Last(b)] + rest;
    PatchedIs(start + Front(b), Last(b), rest);
    assert BranchCode(L, joined, o, |rest|) == Front(b) + [WithOffset(Last(b), |rest|)];
    assert (start + Front(b)) + ([WithOffset(Last(b), |rest|)] + rest) == start +
        (Front(b) + [WithOffset(Last(b), |rest|)]) + rest;
  }

  // ---------------------------------------------------------------- arms of an `if`

  /** One `if` or `elif` with its body. */
  datatype Arm = Arm(c: Expr, t: Stmt)

  function ParseArm(ts: seq<Token>, i: nat, d: nat): (r: Option<Parsed<Arm>>)
    requires i <= |ts|
    ensures r.Some? ==> i < r.value.at <= |ts|
  {
    match ParseCondition(ts, i, d)
    case None => None
    case Some(c) =>
      match ParseBody(ts, c.at, d)
      case None => None
      case Some(t) => Some(Parsed(Arm(c.tree, t.tree), t.at))
  }

  /** An arm's code, with the jump to the end of the chain still waiting. */
  function ArmOut(x: Arm, at: int, lp: LoopCtx, st: Scopes, slot: string -> int): SOut {
    var size := |CondCode(x.c, st, slot, 0)|;
    var a := CompileStmt(x.t, at + size, lp, AfterCond(x.c, st, slot), slot);
    SOut(CondCode(x.c, st, slot, |a.code| + 1) + (a.code + [Jmp(0)]), a.breaks, a.st, Max(CondHi(x.c, st, slot), a.hi),
         CondHi(x.c, st, slot) > MAX_REGS || a.err)
  }

  function ArmsOut(arms: seq<Arm>, at: int, lp: LoopCtx, st: Scopes, slot: string -> int): SOut
    decreases |arms|
  {
    if arms == [] then SOut([], [], st, st.next, false)
    else
      var p := ArmsOut(arms[..|arms| - 1], at, lp, st, slot);
      var x := ArmOut(arms[|arms| - 1], at + |p.code|, lp, p.st, slot);
      SOut(p.code + x.code, p.breaks + x.breaks, x.st, Max(p.hi, x.hi), p.err || x.err)
  }

  /** Where the arms' jumps to the end of the chain are. */
  function ArmEnds(arms: seq<Arm>, at: int, lp: LoopCtx, st: Scopes, slot: string -> int): seq<int>
    decreases |arms|
  {
    if arms == [] then []
    else ArmEnds(arms[..|arms| - 1], at, lp, st, slot) + [at + |ArmsOut(arms, at, lp, st, slot).code| - 1]
  }

  function Chain(arms: seq<Arm>, rest: Stmt): Stmt {
    if arms == [] then rest else If(arms[0].c, arms[0].t, Chain(arms[1..], rest))
  }

  lemma {:induction false} ChainSnoc(arms: seq<Arm>, x: Arm, rest: Stmt)
    ensures Chain(arms + [x], rest) == Chain(arms, If(x.c, x.t, rest))
    ensures Branchings(Chain(arms, rest)) == |arms| + Branchings(rest)
    decreases |arms|
  {
    if arms == [] {
      assert [x][1..] == [];
    } else {
      assert (arms + [x])[1..] == arms[1..] + [x];
      ChainSnoc(arms[1..], x, rest);
    }
  }

  /** Every arm ends in a waiting jump. */
  lemma {:induction false} EndsWait(arms: seq<Arm>, at: int, lp: LoopCtx, st: Scopes, slot: string -> int)
    ensures var s, ends := ArmsOut(arms, at, lp, st, slot), ArmEnds(arms, at, lp, st, slot);
            |ends| == |arms| && Within(ends, at, at + |s.code|) && forall h :: h in ends ==> s.code[h - at] == Jmp(0)
    decreases |arms|
  {
    hide CompileStmt, CondCode, CondHi, AfterCond;
    if arms != [] {
      var front := arms[..|arms| - 1];
      EndsWait(front, at, lp, st, slot);
      var p, s := ArmsOut(front, at, lp, st, slot), ArmsOut(arms, at, lp, st, slot);
      forall h | h in ArmEnds(arms, at, lp, st, slot) ensures at <= h < at + |s.code| && s.code[h - at] == Jmp(0) {
        if h in ArmEnds(front, at, lp, st, slot) { assert s.code[h - at] == p.code[h - at]; }
      }
    }
  }

  lemma SplitIf(x: Arm, rest: Stmt, at: int, lp: LoopCtx, st: Scopes, slot: string -> int)
    ensures var s := ArmOut(x, at, lp, st, slot);
            var b := CompileStmt(rest, at + |s.code|, lp, s.st, slot);
            var o := CompileStmt(If(x.c, x.t, rest), at, lp, st, slot);
            s.code != [] && |o.code| == |s.code| + |b.code| &&
            o.code == s.code[..|s.code| - 1] + [Jmp(|b.code|)] + b.code &&
            s.code[|s.code| - 1] == Jmp(0) && o.breaks == s.breaks + b.breaks && o.st == b.st &&
            o.hi == Max(s.hi, b.hi) &&
            (o.err <==> s.err || b.err || 1 + Branchings(rest) > MAX_BRANCHES)
  {
    hide CondCode, CondHi, AfterCond, CompileStmt;
    var size := |CondCode(x.c, st, slot, 0)|;
    var a := CompileStmt(x.t, at + size, lp, AfterCond(x.c, st, slot), slot);
    CondLength(x.c, st, slot, |a.code| + 1);
    var cond := CondCode(x.c, st, slot, |a.code| + 1);
    var s := ArmOut(x, at, lp, st, slot);
    assert |s.code| == size + |a.code| + 1;
    var b := CompileStmt(rest, at + |s.code|, lp, s.st, slot);
    IfIs(x, rest, at, lp, st, slot, a, b);
    assert cond + (a.code + ([Jmp(|b.code|)] + b.code)) == (cond + a.code) + [Jmp(|b.code|)] + b.code;
    assert s.code[..|s.code| - 1] == cond + a.code;
  }

  lemma IfIs(x: Arm, rest: Stmt, at: int, lp: LoopCtx, st: Scopes, slot: string -> int, a: SOut, b: SOut)
    requires var size := |CondCode(x.c, st, slot, 0)|;
             a == CompileStmt(x.t, at + size, lp, AfterCond(x.c, st, slot), slot) &&
             b == CompileStmt(rest, at + size + |a.code| + 1, lp, a.st, slot)
    ensures var o := CompileStmt(If(x.c, x.t, rest), at, lp, st, slot);
            o.code == CondCode(x.c, st, slot, |a.code| + 1) + (a.code + ([Jmp(|b.code|)] + b.code)) &&
            o.breaks == a.breaks + b.breaks && o.st == b.st && o.hi == Max(CondHi(x.c, st, slot), Max(a.hi, b.hi)) &&
            o.err == (CondHi(x.c, st, slot) > MAX_REGS || a.err || b.err || 1 + Branchings(rest) > MAX_BRANCHES)
  {
    hide CondCode, CondHi, AfterCond, Compile, CompileSeq, CompileVar, PatchAll, PopScope, WindowEnd, Free, Branchings;
    ArmCount(x, rest);
  }

  lemma ArmCount(x: Arm, rest: Stmt)
    ensures Branchings(If(x.c, x.t, rest)) == 1 + Branchings(rest)
  {
  }

  lemma CondLength(c: Expr, st: Scopes, slot: string -> int, skip: int)
    ensures |CondCode(c, st, slot, skip)| == |CondCode(c, st, slot, 0)|
  {
    hide Compile, FusedWith;
  }

  /** Aiming all waiting jumps of the arms at the end gives the code of the nested conditional. */
  lemma {:induction false} ChainOut(arms: seq<Arm>, rest: Stmt, at: int, lp: LoopCtx, st: Scopes, slot: string -> int)
    requires arms != []
    ensures var s := ArmsOut(arms, at, lp, st, slot);
            var b := CompileStmt(rest, at + |s.code|, lp, s.st, slot);
            var o := CompileStmt(Chain(arms, rest), at, lp, st, slot);
            o.code == PatchAll(s.code + b.code, at, ArmEnds(arms, at, lp, st, slot), at + |s.code| + |b.code|) &&
            o.breaks == s.breaks + b.breaks && o.st == b.st && Max(st.next, o.hi) == Max(s.hi, b.hi) &&
            (o.err <==> s.err || b.err || |arms| + Branchings(rest) > MAX_BRANCHES)
    decreases |arms|
  {
    hide CompileStmt, ArmOut, PatchAll, ArmEnds, Chain, CondCode, Branchings;
    var k := |arms| - 1;
    var front, x := arms[..k], arms[k];
    assert arms == front + [x];
    ArmCount(x, rest);
    ChainSnoc(front, x, rest);
    var p := ArmsOut(front, at, lp, st, slot);
    SplitIf(x, rest, at + |p.code|, lp, p.st, slot);
    if front != [] {
      ChainOut(front, If(x.c, x.t, rest), at, lp, st, slot);
    } else {
      ChainNone(If(x.c, x.t, rest), at, lp, st, slot);
    }
    ChainPatch(arms, rest, at, lp, st, slot);
  }

  lemma ChainNone(rest: Stmt, at: int, lp: LoopCtx, st: Scopes, slot: string -> int)
    ensures Chain([], rest) == rest && ArmsOut([], at, lp, st, slot) == SOut([], [], st, st.next, false) &&
            ArmEnds([], at, lp, st, slot) == []
    ensures forall code: seq<Instr>, target :: PatchAll(code, at, [], target) == code
  {
  }

  lemma ChainPatch(arms: seq<Arm>, rest: Stmt, at: int, lp: LoopCtx, st: Scopes, slot: string -> int)
    requires arms != []
    ensures var k := |arms| - 1;
            var p, s := ArmsOut(arms[..k], at, lp, st, slot), ArmsOut(arms, at, lp, st, slot);
            var b := CompileStmt(rest, at + |s.code|, lp, s.st, slot);
            var i := CompileStmt(If(arms[k].c, arms[k].t, rest), at + |p.code|, lp, p.st, slot);
            var end := at + |s.code| + |b.code|;
            |p.code + i.code| == |s.code + b.code| &&
            PatchAll(p.code + i.code, at, ArmEnds(arms[..k], at, lp, st, slot), end) ==
                PatchAll(s.code + b.code, at, ArmEnds(arms, at, lp, st, slot), end)
  {
    hide CompileStmt, ArmOut, PatchAll;
    var k := |arms| - 1;
    var p, s := ArmsOut(arms[..k], at, lp, st, slot), ArmsOut(arms, at, lp, st, slot);
    var b := CompileStmt(rest, at + |s.code|, lp, s.st, slot);
    var i := CompileStmt(If(arms[k].c, arms[k].t, rest), at + |p.code|, lp, p.st, slot);
    SplitIf(arms[k], rest, at + |p.code|, lp, p.st, slot);
    EndsWait(arms[..k], at, lp, st, slot);
    EndsWait(arms, at, lp, st, slot);
    var e, e', h := ArmEnds(arms[..k], at, lp, st, slot), ArmEnds(arms, at, lp, st, slot), |s.code| - 1;
    OneMoreHole(p.code + i.code, s.code + b.code, at, e, h, at + |s.code| + |b.code|);
  }

  lemma InSnoc(holes: seq<int>, h: int, k: int)
    ensures k in holes + [h] <==> k in holes || k == h
  {
  }

  /** Two codes that differ in one place, where the second has a waiting jump and the first already
      aims at the target. */
  lemma OneMoreHole(code: seq<Instr>, code': seq<Instr>, at: int, holes: seq<int>, h: nat, target: int)
    requires |code| == |code'| && h < |code| && (forall k :: 0 <= k < |code| && k != h ==> code[k] == code'[k])
    requires code[h] == Jmp(target - (at + h + 1)) && Within(holes, at, at + |code|)
    ensures PatchAll(code, at, holes, target) == PatchAll(code', at, holes + [at + h], target)
  {
    hide PatchAll, Within;
    MoreWithin(holes, at, at + |code|, at + h);
    var x, y := PatchAll(code, at, holes, target), PatchAll(code', at, holes + [at + h], target);
    forall k | 0 <= k < |code| ensures x[k] == y[k] {
      PatchAt(code, at, holes, target, k);
      PatchAt(code', at, holes + [at + h], target, k);
      InSnoc(holes, at + h, at + k);
    }
  }

  lemma MoreWithin(holes: seq<int>, lo: int, hi: int, h: int)
    requires Within(holes, lo, hi) && lo <= h < hi
    ensures Within(holes + [h], lo, hi)
  {
  }

  // ---------------------------------------------------------------- waiting jumps

  /** Aiming a jump leaves every waiting jump a jump. */
  lemma HolesKept(code: seq<Instr>, more: seq<Instr>, j: nat, holes: seq<int>)
    requires Holes(code, holes)
    ensures Holes(code + more, holes) && Holes(Patched(code + more, j), holes)
  {
  }

  lemma {:induction false} AllKept(code: seq<Instr>, ends: seq<int>, target: int, holes: seq<int>)
    requires Holes(code, holes)
    ensures Holes(PatchAll(code, 0, ends, target), holes)
    decreases |ends|
  {
    if ends != [] {
      var h := ends[0];
      AllKept(if 0 <= h < |code| then code[h := Jmp(target - (h + 1))] else code, ends[1..], target, holes);
    }
  }

  lemma {:induction false} PatchSnoc(code: seq<Instr>, ends: seq<int>, h: int, target: int)
    ensures PatchAll(code, 0, ends + [h], target) ==
              var c := PatchAll(code, 0, ends, target); if 0 <= h < |c| then c[h := Jmp(target - (h + 1))] else c
    decreases |ends|
  {
    if ends == [] {
      assert [h][1..] == [] && ([] + [h]) == [h];
    } else {
      assert (ends + [h])[1..] == ends[1..] + [h];
      var g := ends[0];
      PatchSnoc(if 0 <= g < |code| then code[g := Jmp(target - (g + 1))] else code, ends[1..], h, target);
    }
  }

  /** Offsets in the whole code, or in the part that was added. */
  lemma PatchShift(m: seq<Instr>, x: seq<Instr>, holes: seq<int>, target: int)
    requires Within(holes, |m|, |m| + |x|)
    ensures PatchAll(m + x, 0, holes, target) == m + PatchAll(x, |m|, holes, target)
  {
    hide PatchAll;
    var a, b := PatchAll(m + x, 0, holes, target), m + PatchAll(x, |m|, holes, target);
    assert Within(holes, 0, |m + x|);
    forall k | 0 <= k < |a| ensures a[k] == b[k] {
      PatchAt(m + x, 0, holes, target, k);
      if k >= |m| { PatchAt(x, |m|, holes, target, k - |m|); }
    }
  }

  lemma WithinJoin(xs: seq<int>, ys: seq<int>, lo: int, mid: int, hi: int)
    requires Within(xs, lo, mid) && Within(ys, mid, hi) && lo <= mid <= hi
    ensures Within(xs + ys, lo, hi)
  {
  }

  /** A statement's waiting jumps lie in its own code. */
  lemma {:induction false} BreaksWithin(s: Stmt, at: int, lp: LoopCtx, st: Scopes, slot: string -> int)
    ensures var o := CompileStmt(s, at, lp, st, slot); Within(o.breaks, at, at + |o.code|)
    decreases s, 1
  {
    hide Compile, CompileStmt, CondCode, AfterCond, CondHi, PatchAll, Within, CompileSeq;
    if s.Block? {
      SeqBreaksWithin(s.body, at, lp, st.(depth := st.depth + 1), slot);
      BlockIs(s, at, lp, st, slot);
    } else if s.If? {
      var size := |CondCode(s.cond, st, slot, 0)|;
      var a := CompileStmt(s.then_, at + size, lp, AfterCond(s.cond, st, slot), slot);
      var b := CompileStmt(s.els, at + size + |a.code| + 1, lp, a.st, slot);
      CondLength(s.cond, st, slot, |a.code| + 1);
      BreaksWithin(s.then_, at + size, lp, AfterCond(s.cond, st, slot), slot);
      BreaksWithin(s.els, at + size + |a.code| + 1, lp, a.st, slot);
      IfBreaks(a.breaks, b.breaks, at, size, |a.code|, |b.code|);
      IfIs(Arm(s.cond, s.then_), s.els, at, lp, st, slot, a, b);
    } else {
      LeafBreaks(s, at, lp, st, slot);
    }
  }

  lemma BlockIs(s: Stmt, at: int, lp: LoopCtx, st: Scopes, slot: string -> int)
    requires s.Block?
    ensures var o, b := CompileStmt(s, at, lp, st, slot), CompileSeq(s.body, at, lp, st.(depth := st.depth + 1), slot);
            o.code == b.code && o.breaks == b.breaks
  {
    hide CompileSeq;
  }

  lemma IfBreaks(xs: seq<int>, ys: seq<int>, at: int, size: nat, a: nat, b: nat)
    requires Within(xs, at + size, at + size + a) && Within(ys, at + size + a + 1, at + size + a + 1 + b)
    ensures Within(xs + ys, at, at + size + a + 1 + b)
  {
  }

  lemma LeafBreaks(s: Stmt, at: int, lp: LoopCtx, st: Scopes, slot: string -> int)
    requires !s.Block? && !s.If?
    ensures var o := CompileStmt(s, at, lp, st, slot); Within(o.breaks, at, at + |o.code|)
  {
    hide Compile, CondCode, AfterCond, CondHi, PatchAll, Redeclared;
  }

  lemma {:induction false} SeqBreaksWithin(ss: seq<Stmt>, at: int, lp: LoopCtx, st: Scopes, slot: string -> int)
    ensures var o := CompileSeq(ss, at, lp, st, slot); Within(o.breaks, at, at + |o.code|)
    decreases ss, 0
  {
    hide CompileStmt, Within, Max;
    if ss != [] {
      var a := CompileStmt(ss[0], at, lp, st, slot);
      BreaksWithin(ss[0], at, lp, st, slot);
      var b := CompileSeq(ss[1..], at + |a.code|, lp, a.st, slot);
      SeqBreaksWithin(ss[1..], at + |a.code|, lp, a.st, slot);
      WithinJoin(a.breaks, b.breaks, at, at + |a.code|, at + |a.code| + |b.code|);
    } else {
      NoBreaks(at);
    }
  }

  lemma NoBreaks(at: int)
    ensures Within([], at, at)
  {
  }

  // ---------------------------------------------------------------- conditions and arms in the world

  /** The condition's code is there up to the branch, whose distance still waits. */
  function Conded(m: World, c: Expr, slot: string -> int, patched: nat): World {
    m.(code := m.code + CondCode(c, m.st, slot, 0), st := AfterCond(c, m.st, slot),
        max := Max(m.max, CondHi(c, m.st, slot)), patched := patched)
  }

  /** Where the branch's distance stands. */
  function BranchAt(m: World, c: Expr, slot: string -> int): nat {
    |m.code| + if CondCode(c, m.st, slot, 0) == [] then 0 else |CondCode(c, m.st, slot, 0)| - 1
  }

  lemma CondSteady(ts: seq<Token>, slot: string -> int, c: Expr, m: World, pos0: nat, n: Snap, reg: int, pos: nat)
    requires Steady(ts, m, pos0) && Produced(ScopeOf(m.st, slot), c, -1, false, reg, SnapOf(m), n) && pos <= |ts|
    ensures Steady(ts, Conded(m, c, slot, n.patched), pos) && CondHi(c, m.st, slot) <= MAX_REGS &&
            CondCode(c, m.st, slot, 0) != []
    ensures Waiting(m.loops) <= MAX_BREAKS && Conded(m, c, slot, n.patched).loops == m.loops
  {
    hide Compile, Steady, Going, Fusable, FusedWith, IsLocal, Produced;
    var o := Compile(c, -1, false, m.st.next, m.st.pool, ScopeOf(m.st, slot));
    CondFusable(ScopeOf(m.st, slot), c, reg, SnapOf(m), n);
    SteadyNext(ts, m, pos0);
    SteadyWaits(ts, m, pos0);
    FusableFits(m.st.locals, c, o, |n.code|, n.patched);
    BranchGrows(m.st.locals, IsJoin(c), o);
    BranchAimed([], m.st.locals, IsJoin(c), o, []);
    var w := Conded(m, c, slot, n.patched);
    var n' := SnapOf(w);
    FreeDown(m.st.locals, o.next, o.reg);
    SteadyGrows(ts, m, pos0, n'.(err := false), n'.next, pos, CondCode(c, m.st, slot, 0));
    assert Plain(m, n'.(err := false).(next := n'.next)) == w;
  }

  lemma FusableFits(L: seq<Local>, e: Expr, o: Out, size: nat, patched: nat)
    requires Fusable(L, e, o, size, patched)
    ensures patched <= size
  {
  }

  lemma FreeDown(L: seq<Local>, next: int, reg: int)
    ensures Free(L, next, reg) <= next
  {
  }

  /** Fusing a comparison never makes the code shorter. */
  lemma BranchGrows(L: seq<Local>, joined: bool, o: Out)
    ensures |BranchCode(L, joined, o, 0)| >= |o.code|
  {
  }

  ghost predicate ArmResult(ts: seq<Token>, slot: string -> int, r: Option<Parsed<Arm>>, count: nat, m: World, n: World,
        pos: nat) {
    pos <= |ts| &&
    (n.err <==> r.None? || count >= MAX_BRANCHES || TooMany(ArmOut(r.value.tree, |m.code|, Ctx(m.loops), m.st, slot),
        m)) &&
    (!n.err ==> pos == r.value.at && Steady(ts, n, pos) && StmtCode(slot,
        ArmOut(r.value.tree, |m.code|, Ctx(m.loops), m.st, slot), m, n))
  }

  /** After a branch and its body: the body ended, the jump to the end emitted, the branch aimed. */
  lemma ArmAimed(ts: seq<Token>, slot: string -> int, c: Expr, t: Stmt, m: World, patched: nat, w: World, pos: nat,
        last: Instr, patched': nat)
    requires Steady(ts, w, pos) &&
             StmtCode(slot, OutOf(t, Conded(m, c, slot, patched), slot), Conded(m, c, slot, patched), w)
    requires CondCode(c, m.st, slot, 0) != [] && patched' <= |w.code| + 1 && m.st.next <= m.max
    ensures var w1 := Conded(m, c, slot, patched);
            var a := OutOf(t, w1, slot);
            var jump := BranchAt(m, c, slot);
            var n := w.(code := Patched(w.code + [last], jump), patched := patched');
            Aimable(w.code + [last], jump) && Steady(ts, n, pos) &&
            n.code == m.code + (CondCode(c, m.st, slot, |a.code| + 1) + (a.code + [last])) && n.st == a.st &&
            n.max == Max(m.max, Max(CondHi(c, m.st, slot), a.hi)) && n.loops == Noted(m.loops, a.breaks)
  {
    hide Compile, CompileStmt, Steady, Patched, Noted, FusedWith;
    var w1 := Conded(m, c, slot, patched);
    var a := OutOf(t, w1, slot);
    var o := Compile(c, -1, false, m.st.next, m.st.pool, ScopeOf(m.st, slot));
    BranchAimed(m.code, m.st.locals, IsJoin(c), o, a.code + [last]);
    var jump := BranchAt(m, c, slot);
    assert w.code + [last] == m.code + CondCode(c, m.st, slot, 0) + (a.code + [last]);
    SteadyPatched(ts, w, pos, last, jump, patched');
    assert m.code + CondCode(c, m.st, slot, |a.code| + 1) + (a.code + [last]) == m.code +
        (CondCode(c, m.st, slot, |a.code| + 1) + (a.code + [last]));
  }

  lemma SteadyPatched(ts: seq<Token>, w: World, pos: nat, last: Instr, jump: nat, patched: nat)
    requires Steady(ts, w, pos) && patched <= |w.code| + 1
    ensures Steady(ts, w.(code := Patched(w.code + [last], jump), patched := patched), pos)
  {
    hide Holes, Patched;
    forall i | 0 <= i < |w.loops| ensures Holes(Patched(w.code + [last], jump), w.loops[i].breaks) {
      HolesKept(w.code, [last], jump, w.loops[i].breaks);
    }
  }

  lemma ArmDone(ts: seq<Token>, slot: string -> int, i: nat, d: nat, count: nat, c: Option<Parsed<Expr>>, m: World,
        pos0: nat, patched: nat,
                w: World, pos: nat, patched': nat, n: World)
    requires Steady(ts, m, pos0) && i <= |ts| && c == ParseCondition(ts, i, d) && c.Some? &&
             CondCode(c.value.tree, m.st, slot, 0) != []
    requires CondHi(c.value.tree, m.st, slot) <= MAX_REGS
    requires StmtResult(ts, slot, ParseBody(ts, c.value.at, d), Conded(m, c.value.tree, slot, patched), w, pos)
    requires if w.err || count >= MAX_BRANCHES then n.err
             else patched' <= |w.code| + 1 && n == w.(code := Patched(w.code + [Jmp(0)],
                 BranchAt(m, c.value.tree, slot)), patched := patched')
    ensures ArmResult(ts, slot, ParseArm(ts, i, d), count, m, n, pos)
  {
    hide Compile, CompileStmt, ParseBody, ParseCondition, Steady, Patched, Noted, CondCode, AfterCond, CondHi;
    SteadyNext(ts, m, pos0);
    if !n.err {
      var t := ParseBody(ts, c.value.at, d);
      ArmAimed(ts, slot, c.value.tree, t.value.tree, m, patched, w, pos, Jmp(0), patched');
    }
  }

  function ArmsHere(arms: seq<Arm>, m: World, slot: string -> int): SOut {
    ArmsOut(arms, |m.code|, Ctx(m.loops), m.st, slot)
  }

  function Chained(arms: seq<Arm>, r: Option<Parsed<Stmt>>): Option<Parsed<Stmt>> {
    if r.None? then None else Some(Parsed(Chain(arms, r.value.tree), r.value.at))
  }

  /** Some arms of the `if` whose condition starts at i have been compiled since m; their jumps to
      the end wait at ends. */
  ghost predicate InChain(ts: seq<Token>, slot: string -> int, i: nat, d: nat, arms: seq<Arm>, ends: seq<int>, m: World,
        n: World, pos: nat) {
    i <= |ts| && pos <= |ts| && m.st.next <= m.max && 0 < |arms| <= MAX_BRANCHES && Steady(ts, n, pos) &&
    StmtCode(slot, ArmsHere(arms, m, slot), m, n) &&
    !TooMany(ArmsHere(arms, m, slot), m) && ends == ArmEnds(arms, |m.code|, Ctx(m.loops), m.st, slot) &&
    ParseIf(ts, i, d) == Chained(arms, ParseTail(ts, pos, d))
  }

  lemma IfOfArm(ts: seq<Token>, i: nat, d: nat)
    requires i <= |ts|
    ensures var x := ParseArm(ts, i, d);
            ParseIf(ts, i, d) == if x.None? then None else Chained([x.value.tree], ParseTail(ts, x.value.at, d))
  {
    hide ParseCondition, ParseBody, ParseTail;
    var x := ParseArm(ts, i, d);
    if x.Some? {
      var t := ParseTail(ts, x.value.at, d);
      if t.Some? { assert Chain([x.value.tree], t.value.tree) == If(x.value.tree.c, x.value.tree.t, t.value.tree); }
    }
  }

  lemma OneArm(x: Arm, at: int, lp: LoopCtx, st: Scopes, slot: string -> int)
    ensures var s, y := ArmsOut([x], at, lp, st, slot), ArmOut(x, at, lp, st, slot);
            s.code == y.code && s.breaks == y.breaks && s.st == y.st && s.hi == Max(st.next, y.hi) && s.err == y.err
  {
    hide ArmOut;
    ArmsGrow([], x, at, lp, st, slot);
  }

  lemma ArmsUnfold(more: seq<Arm>, at: int, lp: LoopCtx, st: Scopes, slot: string -> int)
    requires more != []
    ensures var front, x := more[..|more| - 1], more[|more| - 1];
            var p, s := ArmsOut(front, at, lp, st, slot), ArmsOut(more, at, lp, st, slot);
            var y := ArmOut(x, at + |p.code|, lp, p.st, slot);
            s == SOut(p.code + y.code, p.breaks + y.breaks, y.st, Max(p.hi, y.hi), p.err || y.err) &&
            ArmEnds(more, at, lp, st, slot) == ArmEnds(front, at, lp, st, slot) + [at + |s.code| - 1]
  {
    hide ArmOut;
  }

  lemma ArmsGrow(arms: seq<Arm>, x: Arm, at: int, lp: LoopCtx, st: Scopes, slot: string -> int)
    ensures var p := ArmsOut(arms, at, lp, st, slot);
            var y := ArmOut(x, at + |p.code|, lp, p.st, slot);
            ArmsOut(arms + [x], at, lp, st, slot) ==
                SOut(p.code + y.code, p.breaks + y.breaks, y.st, Max(p.hi, y.hi), p.err || y.err) &&
            ArmEnds(arms + [x], at, lp, st, slot) == ArmEnds(arms, at, lp, st, slot) + [at + |p.code| + |y.code| - 1]
  {
    hide ArmOut, ArmsOut, ArmEnds;
    var more := arms + [x];
    assert more[..|more| - 1] == arms;
    ArmsUnfold(more, at, lp, st, slot);
  }

  lemma ChainStarts(ts: seq<Token>, slot: string -> int, i: nat, d: nat, m: World, pos0: nat, n: World, pos: nat)
    requires Steady(ts, m, pos0) && i <= |ts| && ArmResult(ts, slot, ParseArm(ts, i, d), 0, m, n, pos)
    ensures n.err ==> StmtResult(ts, slot, ParseIf(ts, i, d), m, n, pos)
    ensures !n.err ==> var x := ParseArm(ts, i, d);
            x.Some? && InChain(ts, slot, i, d, [x.value.tree], [|n.code| - 1], m, n, pos)
  {
    hide Compile, CompileStmt, ParseArm, ParseIf, ParseTail, Steady, Noted, ArmOut, ArmsOut, ArmEnds;
    IfOfArm(ts, i, d);
    var x := ParseArm(ts, i, d);
    SteadyNext(ts, m, pos0);
    if x.Some? {
      OneArm(x.value.tree, |m.code|, Ctx(m.loops), m.st, slot);
      ArmsGrow([], x.value.tree, |m.code|, Ctx(m.loops), m.st, slot);
      NoArms(|m.code|, Ctx(m.loops), m.st, slot);
      assert [] + [x.value.tree] == [x.value.tree];
      if n.err && ParseIf(ts, i, d).Some? {
        ChainRejects([x.value.tree], ParseTail(ts, x.value.at, d).value.tree, m, slot);
      }
    }
  }

  lemma NoArms(at: int, lp: LoopCtx, st: Scopes, slot: string -> int)
    ensures ArmsOut([], at, lp, st, slot) == SOut([], [], st, st.next, false) && ArmEnds([], at, lp, st, slot) == []
  {
  }

  /** An arm that is refused makes the whole conditional refused. */
  lemma ChainRejects(arms: seq<Arm>, rest: Stmt, m: World, slot: string -> int)
    requires arms != [] && (TooMany(ArmsHere(arms, m, slot), m) || |arms| > MAX_BRANCHES)
    ensures TooMany(OutOf(Chain(arms, rest), m, slot), m)
  {
    hide CompileStmt, ArmsOut, Chain, PatchAll, ArmEnds;
    ChainOut(arms, rest, |m.code|, Ctx(m.loops), m.st, slot);
  }

  /** A further arm, an `elif`, whose condition starts behind pos. */
  lemma ChainGoes(ts: seq<Token>, slot: string -> int, i: nat, d: nat, arms: seq<Arm>, ends: seq<int>, m: World,
        w: World, pos: nat,
                  n: World, pos': nat)
    requires InChain(ts, slot, i, d, arms, ends, m, w, pos) && Tok(ts, pos).TElif? && pos < |ts|
    requires ArmResult(ts, slot, ParseArm(ts, pos + 1, d), |arms|, w, n, pos')
    ensures n.err ==> StmtResult(ts, slot, ParseIf(ts, i, d), m, n, pos')
    ensures !n.err ==> var x := ParseArm(ts, pos + 1, d);
                       x.Some? && pos' > pos && InChain(ts, slot, i, d, arms + [x.value.tree], ends + [|n.code| - 1], m,
                           n, pos')
  {
    hide Compile, CompileStmt, ParseArm, ParseIf, Steady, Noted, ArmOut, ArmsOut, ArmEnds, Chain, ParseBody;
    IfOfArm(ts, pos + 1, d);
    var x := ParseArm(ts, pos + 1, d);
    var p := ArmsHere(arms, m, slot);
    NotedTwice(m.loops, p.breaks, []);
    if x.Some? {
      var y := ArmOut(x.value.tree, |w.code|, Ctx(w.loops), w.st, slot);
      NotedTwice(m.loops, p.breaks, y.breaks);
      ArmsGrow(arms, x.value.tree, |m.code|, Ctx(m.loops), m.st, slot);
      var more := arms + [x.value.tree];
      var tail := ParseTail(ts, x.value.at, d);
      ChainMore(arms, x.value.tree, tail);
      if n.err && tail.Some? {
        ChainRejects(more, tail.value.tree, m, slot);
      }
      if !n.err {
        assert n.code == m.code + (p.code + y.code);
      }
    }
  }

  lemma ChainMore(arms: seq<Arm>, x: Arm, r: Option<Parsed<Stmt>>)
    ensures Chained(arms, Chained([x], r)) == Chained(arms + [x], r)
  {
    if r.Some? {
      ChainSnoc(arms, x, r.value.tree);
      assert Chain([x], r.value.tree) == If(x.c, x.t, r.value.tree);
    }
  }

  /** The end of the chain: the else-part is compiled, and all jumps are aimed at what follows. */
  lemma ChainEnds(ts: seq<Token>, slot: string -> int, i: nat, d: nat, arms: seq<Arm>, ends: seq<int>, m: World,
        w: World, pos: nat,
                  w': World, pos': nat, n: World, patched: nat)
    requires InChain(ts, slot, i, d, arms, ends, m, w, pos) && !Tok(ts, pos).TElif? &&
             StmtResult(ts, slot, ParseTail(ts, pos, d), w, w', pos')
    requires if w'.err then n.err
             else n == w'.(code := PatchAll(w'.code, 0, ends, |w'.code|), patched := patched) && patched <= |w'.code|
    ensures StmtResult(ts, slot, ParseIf(ts, i, d), m, n, pos')
  {
    hide Compile, CompileStmt, ParseIf, ParseTail, Steady, Noted, ArmOut, ArmsOut, ArmEnds, Chain, PatchAll, Within;
    var tail := ParseTail(ts, pos, d);
    var p := ArmsHere(arms, m, slot);
    NotedTwice(m.loops, p.breaks, []);
    if tail.Some? {
      var b := OutOf(tail.value.tree, w, slot);
      NotedTwice(m.loops, p.breaks, b.breaks);
      ChainOut(arms, tail.value.tree, |m.code|, Ctx(m.loops), m.st, slot);
      TailPlain(ts, pos, d);
      if !w'.err {
        EndsWait(arms, |m.code|, Ctx(m.loops), m.st, slot);
        assert w'.code == m.code + (p.code + b.code);
        WiderWithin(ends, |m.code|, |m.code| + |p.code|, |m.code| + |p.code + b.code|);
        PatchShift(m.code, p.code + b.code, ends, |w'.code|);
        SteadyAimed(ts, w', pos', ends, |w'.code|, patched);
        MaxChain(m.max, w.max, w'.max, m.st.next, p.hi, b.hi, OutOf(Chain(arms, tail.value.tree), m, slot).hi);
      }
    }
  }

  lemma MaxChain(m: int, w: int, w': int, next: int, p: int, b: int, o: int)
    requires w == Max(m, p) && w' == Max(w, b) && Max(next, o) == Max(p, b)
    ensures next <= m ==> w' == Max(m, o)
  {
  }

  lemma WiderWithin(holes: seq<int>, lo: int, mid: int, hi: int)
    requires Within(holes, lo, mid) && mid <= hi
    ensures Within(holes, lo, hi)
  {
  }

  /** An else-part has no arms of its own. */
  lemma TailPlain(ts: seq<Token>, pos: nat, d: nat)
    requires pos <= |ts| && !Tok(ts, pos).TElif? && ParseTail(ts, pos, d).Some?
    ensures Branchings(ParseTail(ts, pos, d).value.tree) == 0
  {
    hide ParseBlock, ParseDecl;
  }

  lemma SteadyAimed(ts: seq<Token>, w: World, pos: nat, ends: seq<int>, target: int, patched: nat)
    requires Steady(ts, w, pos) && patched <= |w.code|
    ensures Steady(ts, w.(code := PatchAll(w.code, 0, ends, target), patched := patched), pos)
  {
    hide Holes, PatchAll;
    forall i | 0 <= i < |w.loops| ensures Holes(PatchAll(w.code, 0, ends, target), w.loops[i].breaks) {
      AllKept(w.code, ends, target, w.loops[i].breaks);
    }
  }

  // ---------------------------------------------------------------- loops

  /** Inside a new loop that starts here. */
  function Looped(m: World): World {
    m.(loops := m.loops + [Loop(|m.code|, [])])
  }

  lemma SteadyLooped(ts: seq<Token>, m: World, pos: nat)
    requires Steady(ts, m, pos)
    ensures Steady(ts, Looped(m), pos) && Waiting(Looped(m).loops) == 0 &&
            Ctx(Looped(m).loops) == LoopCtx(|m.code|, |m.loops| + 1)
    ensures forall bs :: Noted(Looped(m).loops, bs) == m.loops + [Loop(|m.code|, bs)]
  {
    hide Going;
    var n := Looped(m);
    forall i | 0 <= i < |n.loops| ensures Holes(n.code, n.loops[i].breaks) && 0 <= n.loops[i].start &&
        |n.loops[i].breaks| <= MAX_BREAKS {
      if i < |m.loops| { assert n.loops[i] == m.loops[i]; }
    }
    forall bs ensures Noted(n.loops, bs) == m.loops + [Loop(|m.code|, bs)] {
      assert [] + bs == bs;
    }
  }

  lemma WhileIs(c: Expr, body: Stmt, at: int, lp: LoopCtx, st: Scopes, slot: string -> int, a: SOut)
    requires a == CompileStmt(body, at + |CondCode(c, st, slot, 0)|, LoopCtx(at, lp.open + 1), AfterCond(c, st, slot),
             slot)
    ensures var size := |CondCode(c, st, slot, 0)|;
            var code := CondCode(c, st, slot, |a.code| + 1) + (a.code + [Jmp(-(size + |a.code| + 1))]);
            var o := CompileStmt(While(c, body), at, lp, st, slot);
            o.code == PatchAll(code, at, a.breaks, at + |code|) && o.breaks == [] && o.st == a.st &&
            o.hi == Max(CondHi(c, st, slot), a.hi) &&
            (o.err <==> CondHi(c, st, slot) > MAX_REGS || a.err || lp.open >= MAX_LOOPS || |a.breaks| > MAX_BREAKS)
  {
    hide CondCode, CondHi, AfterCond, PatchAll, Compile, CompileVar, CompileSeq, PopScope, WindowEnd, Branchings, Free;
  }

  /** A `while` whose loop could not be opened, or whose condition or body was refused. */
  lemma WhileFails(ts: seq<Token>, slot: string -> int, i: nat, d: nat, m: World, pos0: nat, n: World, pos: nat)
    requires Steady(ts, m, pos0) && i <= |ts| && pos <= |ts| && n.err
    requires var c := ParseCondition(ts, i, d);
             |m.loops| >= MAX_LOOPS || c.None? || CondHi(c.value.tree, m.st, slot) > MAX_REGS
    ensures StmtResult(ts, slot, ParseWhile(ts, i, d), m, n, pos)
  {
    hide Compile, CompileStmt, ParseCondition, ParseBody, Steady, CondCode, CondHi, AfterCond, PatchAll;
    var r := ParseWhile(ts, i, d);
    if r.Some? {
      var c, b := r.value.tree.cond, r.value.tree.loop;
      var a := CompileStmt(b, |m.code| + |CondCode(c, m.st, slot, 0)|, LoopCtx(|m.code|, |m.loops| + 1),
          AfterCond(c, m.st, slot), slot);
      WhileIs(c, b, |m.code|, Ctx(m.loops), m.st, slot, a);
    }
  }

  /** The end of a `while`: the jump back, the branch aimed behind it, the breaks aimed there too, the
      loop closed. */
  lemma WhileEnds(ts: seq<Token>, slot: string -> int, i: nat, d: nat, c: Option<Parsed<Expr>>, m: World, pos0: nat,
        patched: nat,
                  w: World, pos: nat, patched': nat, n: World, patched'': nat)
    requires Steady(ts, m, pos0) && |m.loops| < MAX_LOOPS && i <= |ts| && c == ParseCondition(ts, i, d) && c.Some?
    requires CondHi(c.value.tree, m.st, slot) <= MAX_REGS && CondCode(c.value.tree, m.st, slot, 0) != []
    requires StmtResult(ts, slot, ParseBody(ts, c.value.at, d), Conded(Looped(m), c.value.tree, slot, patched), w, pos)
    requires if w.err then n.err
             else var jump := BranchAt(m, c.value.tree, slot);
                  var code := Patched(w.code + [Jmp(|m.code| - (|w.code| + 1))], jump);
                  w.loops != [] && patched' <= |code| && patched'' <= |code| &&
                  n == w.(code := PatchAll(code, 0, w.loops[|w.loops| - 1].breaks, |code|), patched := patched'',
                      loops := m.loops)
    ensures StmtResult(ts, slot, ParseWhile(ts, i, d), m, n, pos)
  {
    hide Compile, CompileStmt, ParseBody, ParseCondition, Steady, Patched, Noted, CondCode, AfterCond, CondHi, PatchAll,
        Within, Ctx;
    var e, b, r := c.value.tree, ParseBody(ts, c.value.at, d), ParseWhile(ts, i, d);
    SteadyLooped(ts, m, pos0);
    SteadyNext(ts, m, pos0);
    SteadyWaits(ts, m, pos0);
    NotedNone(m.loops);
    if b.Some? {
      var w1 := Conded(Looped(m), e, slot, patched);
      var a := OutOf(b.value.tree, w1, slot);
      CtxOpen(m.loops);
      WhileIs(e, b.value.tree, |m.code|, Ctx(m.loops), m.st, slot, a);
      if !w.err {
        var back := Jmp(|m.code| - (|w.code| + 1));
        var part := CondCode(e, m.st, slot, |a.code| + 1) + (a.code + [back]);
        ArmAimed(ts, slot, e, b.value.tree, Looped(m), patched, w, pos, back, patched');
        CondLength(e, m.st, slot, |a.code| + 1);
        BreaksWithin(b.value.tree, |w1.code|, Ctx(w1.loops), w1.st, slot);
        WithinWider(a.breaks, |w1.code|, |w1.code| + |a.code|, |m.code|, |m.code| + |part|);
        PatchShift(m.code, part, a.breaks, |m.code| + |part|);
        var w2 := w.(code := m.code + part, patched := patched');
        SteadyAimed(ts, w2, pos, a.breaks, |w2.code|, patched'');
        SteadyFewer(ts, n.(loops := w.loops), pos, m.loops);
      }
    }
  }

  lemma CtxOpen(loops: seq<Loop>)
    ensures Ctx(loops).open == |loops|
  {
  }

  lemma WithinWider(holes: seq<int>, lo: int, hi: int, lo': int, hi': int)
    requires Within(holes, lo, hi) && lo' <= lo && hi <= hi'
    ensures Within(holes, lo', hi')
  {
  }

  lemma SteadyFewer(ts: seq<Token>, n: World, pos: nat, loops: seq<Loop>)
    requires Steady(ts, n, pos) && loops <= n.loops
    ensures Steady(ts, n.(loops := loops), pos)
  {
    hide Going, Holes;
    assert forall i :: 0 <= i < |loops| ==> loops[i] == n.loops[i];
  }

  // ---------------------------------------------------------------- blocks

  lemma SeqUnfold(ss: seq<Stmt>, at: int, lp: LoopCtx, st: Scopes, slot: string -> int)
    requires ss != []
    ensures var a := CompileStmt(ss[0], at, lp, st, slot);
            var b := CompileSeq(ss[1..], at + |a.code|, lp, a.st, slot);
            CompileSeq(ss, at, lp, st, slot) ==
                SOut(a.code + b.code, a.breaks + b.breaks, b.st, Max(a.hi, b.hi), a.err || b.err)
  {
    hide CompileStmt;
  }

  lemma SeqEmpty(at: int, lp: LoopCtx, st: Scopes, slot: string -> int)
    ensures CompileSeq([], at, lp, st, slot) == SOut([], [], st, st.next, false)
  {
  }

  lemma {:induction false} SeqSnoc(ss: seq<Stmt>, x: Stmt, at: int, lp: LoopCtx, st: Scopes, slot: string -> int)
    ensures var a := CompileSeq(ss, at, lp, st, slot);
            var b := CompileStmt(x, at + |a.code|, lp, a.st, slot);
            var o := CompileSeq(ss + [x], at, lp, st, slot);
            o.code == a.code + b.code && o.breaks == a.breaks + b.breaks && o.st == b.st && o.err == (a.err || b.err) &&
            b.hi <= o.hi <= Max(a.hi, Max(b.hi, b.st.next)) && b.st.next <= o.hi && a.hi <= Max(o.hi, a.st.next)
    decreases |ss|
  {
    hide CompileStmt, CompileSeq;
    SeqUnfold(ss + [x], at, lp, st, slot);
    if ss == [] {
      assert (ss + [x])[1..] == [];
      var b := CompileStmt(x, at, lp, st, slot);
      SeqEmpty(at + |b.code|, lp, b.st, slot);
      SeqEmpty(at, lp, st, slot);
      assert [] + b.code == b.code == b.code + [] && [] + b.breaks == b.breaks == b.breaks + [];
    } else {
      assert (ss + [x])[1..] == ss[1..] + [x];
      SeqUnfold(ss, at, lp, st, slot);
      var a := CompileStmt(ss[0], at, lp, st, slot);
      SeqSnoc(ss[1..], x, at + |a.code|, lp, a.st, slot);
      var a1 := CompileSeq(ss[1..], at + |a.code|, lp, a.st, slot);
      var b := CompileStmt(x, at + |a.code| + |a1.code|, lp, a1.st, slot);
      assert a.code + (a1.code + b.code) == (a.code + a1.code) + b.code;
      assert a.breaks + (a1.breaks + b.breaks) == (a.breaks + a1.breaks) + b.breaks;
    }
  }

  lemma {:induction false} StmtHi(s: Stmt, at: int, lp: LoopCtx, st: Scopes, slot: string -> int)
    ensures CompileStmt(s, at, lp, st, slot).hi >= st.next
  {
    hide Compile, CondCode, AfterCond, PatchAll, Redeclared, PopScope, WindowEnd, Free, Branchings;
    var sc := ScopeOf(st, slot);
    match s
    case ExprStmt(e) => HiBounds(e, -1, false, st.next, st.pool, sc);
    case PrintStmt(e) => HiBounds(e, -1, false, st.next, st.pool, sc);
    case VarDecl(_, init) => if init.Some? { HiBounds(init.value, st.next, false, st.next + 1, st.pool, sc); }
    case Block(ss) =>
      var st1 := st.(depth := st.depth + 1);
      if ss != [] { StmtHi(ss[0], at, lp, st1, slot); }
    case If(c, _, _) => HiBounds(c, -1, false, st.next, st.pool, sc);
    case While(c, _) => HiBounds(c, -1, false, st.next, st.pool, sc);
    case _ =>
  }

  /** Some declarations of the block that starts at i have been compiled since m. */
  ghost predicate InBlock(ts: seq<Token>, slot: string -> int, i: nat, d: nat, ss: seq<Stmt>, m: World, n: World,
        pos: nat) {
    i <= pos <= |ts| && Steady(ts, n, pos) && StmtCode(slot, OutOfSeq(ss, m, slot), m, n) &&
    !TooMany(OutOfSeq(ss, m, slot), m) &&
    ParseBlock(ts, i, d) == Before(ss, ParseBlock(ts, pos, d))
  }

  function Before(ss: seq<Stmt>, r: Option<Parsed<seq<Stmt>>>): Option<Parsed<seq<Stmt>>> {
    if r.None? then None else Some(Parsed(ss + r.value.tree, r.value.at))
  }

  lemma BlockStarts(ts: seq<Token>, slot: string -> int, i: nat, d: nat, m: World)
    requires Steady(ts, m, i)
    ensures InBlock(ts, slot, i, d, [], m, m, i)
  {
    hide ParseBlock;
    NotedNone(m.loops);
    SteadyNext(ts, m, i);
    SteadyWaits(ts, m, i);
    var r := ParseBlock(ts, i, d);
    if r.Some? { assert [] + r.value.tree == r.value.tree; }
  }

  /** What further declarations do to the ones before them. */
  lemma SeqMore(slot: string -> int, ss: seq<Stmt>, x: Stmt, m: World, w: World)
    requires StmtCode(slot, OutOfSeq(ss, m, slot), m, w)
    ensures var o, b := OutOfSeq(ss + [x], m, slot), OutOf(x, w, slot);
            o.code == OutOfSeq(ss, m, slot).code + b.code && o.breaks == OutOfSeq(ss, m, slot).breaks + b.breaks &&
            o.st == b.st &&
            o.err == (OutOfSeq(ss, m, slot).err || b.err)
    ensures forall n :: StmtCode(slot, OutOf(x, w, slot), w, n) && n.st.next <= n.max ==>
              StmtCode(slot, OutOfSeq(ss + [x], m, slot), m, n)
  {
    hide CompileStmt, CompileSeq, Noted;
    var a := OutOfSeq(ss, m, slot);
    NotedTwice(m.loops, a.breaks, []);
    SeqSnoc(ss, x, |m.code|, Ctx(m.loops), m.st, slot);
    var b := OutOf(x, w, slot);
    NotedTwice(m.loops, a.breaks, b.breaks);
    StmtHi(x, |w.code|, Ctx(w.loops), w.st, slot);
    assert m.code + (a.code + b.code) == (m.code + a.code) + b.code;
  }

  lemma {:induction false} SeqErr(ss: seq<Stmt>, more: seq<Stmt>, at: int, lp: LoopCtx, st: Scopes, slot: string -> int)
    ensures var a, o := CompileSeq(ss, at, lp, st, slot), CompileSeq(ss + more, at, lp, st, slot);
            (a.err ==> o.err) && |a.breaks| <= |o.breaks|
    decreases |ss|
  {
    hide CompileStmt;
    if ss != [] {
      assert (ss + more)[1..] == ss[1..] + more;
      var a := CompileStmt(ss[0], at, lp, st, slot);
      SeqErr(ss[1..], more, at + |a.code|, lp, a.st, slot);
    }
  }

  lemma BlockUnfold(ts: seq<Token>, i: nat, d: nat)
    requires i <= |ts| && !Tok(ts, i).TRBrace? && !Tok(ts, i).TEof?
    ensures var s := ParseDecl(ts, i, d);
            ParseBlock(ts, i, d) == if s.None? then None else Before([s.value.tree], ParseBlock(ts, s.value.at, d))
  {
    hide ParseDecl;
  }

  lemma BeforeTwice(ss: seq<Stmt>, x: Stmt, r: Option<Parsed<seq<Stmt>>>)
    ensures Before(ss, Before([x], r)) == Before(ss + [x], r)
  {
    if r.Some? { assert ss + ([x] + r.value.tree) == (ss + [x]) + r.value.tree; }
  }

  /** A refused declaration makes every block that starts with it refused. */
  lemma SeqRejects(slot: string -> int, ss: seq<Stmt>, more: seq<Stmt>, m: World)
    requires TooMany(OutOfSeq(ss, m, slot), m)
    ensures TooMany(OutOfSeq(ss + more, m, slot), m)
  {
    hide CompileSeq;
    SeqErr(ss, more, |m.code|, Ctx(m.loops), m.st, slot);
  }

  lemma BlockGoes(ts: seq<Token>, slot: string -> int, i: nat, d: nat, ss: seq<Stmt>, m: World, w: World, pos: nat,
        n: World, pos': nat)
    requires InBlock(ts, slot, i, d, ss, m, w, pos) && !Tok(ts, pos).TRBrace? && !Tok(ts, pos).TEof?
    requires StmtResult(ts, slot, ParseDecl(ts, pos, d), w, n, pos')
    ensures n.err ==> SeqResult(ts, slot, ParseBlock(ts, i, d), m, n, pos')
    ensures !n.err ==> var x := ParseDecl(ts, pos, d);
            x.Some? && pos < pos' && InBlock(ts, slot, i, d, ss + [x.value.tree], m, n, pos')
  {
    hide CompileStmt, CompileSeq, Steady, Noted, ParseDecl, ParseBlock, StmtCode;
    BlockUnfold(ts, pos, d);
    var x := ParseDecl(ts, pos, d);
    if x.Some? {
      SeqMore(slot, ss, x.value.tree, m, w);
      WaitingAfter(slot, OutOfSeq(ss, m, slot), m, w);
      BeforeTwice(ss, x.value.tree, ParseBlock(ts, x.value.at, d));
      if n.err {
        var r := ParseBlock(ts, x.value.at, d);
        if r.Some? { SeqRejects(slot, ss + [x.value.tree], r.value.tree, m); }
      } else {
        SteadyNext(ts, n, pos');
      }
    }
  }

  lemma WaitingAfter(slot: string -> int, o: SOut, m: World, w: World)
    requires StmtCode(slot, o, m, w)
    ensures Waiting(w.loops) == (if m.loops == [] then 0 else Waiting(m.loops) + |o.breaks|) &&
            (w.loops == [] <==> m.loops == [])
  {
  }

  lemma BlockEnds(ts: seq<Token>, slot: string -> int, i: nat, d: nat, ss: seq<Stmt>, m: World, w: World, pos: nat,
        n: World, pos': nat)
    requires InBlock(ts, slot, i, d, ss, m, w, pos) && (Tok(ts, pos).TRBrace? || Tok(ts, pos).TEof?)
    requires if Tok(ts, pos).TRBrace? then n == w && pos' == pos + 1 else n.err && pos' == pos
    ensures SeqResult(ts, slot, ParseBlock(ts, i, d), m, n, pos')
  {
    hide CompileStmt, CompileSeq, Noted, ParseDecl, StmtCode, Holes;
    assert ss + [] == ss;
  }

  // ---------------------------------------------------------------- scopes

  function BlockOf(r: Option<Parsed<seq<Stmt>>>): Option<Parsed<Stmt>> {
    if r.None? then None else Some(Parsed(Stmt.Block(r.value.tree), r.value.at))
  }

  function Alone(r: Option<Parsed<Stmt>>): Option<Parsed<seq<Stmt>>> {
    if r.None? then None else Some(Parsed([r.value.tree], r.value.at))
  }

  function Deeper(m: World): World {
    m.(st := m.st.(depth := m.st.depth + 1))
  }

  function Shallower(n: World): World
    requires n.st.depth > 0
  {
    var L := PopScope(n.st.locals, n.st.depth - 1);
    n.(st := Scopes(L, n.st.depth - 1, WindowEnd(L), n.st.pool))
  }

  lemma {:induction false} PopPrefix(L: seq<Local>, depth: int)
    ensures PopScope(L, depth) <= L
    decreases |L|
  {
    if L != [] && L[|L| - 1].depth > depth {
      PopPrefix(L[..|L| - 1], depth);
    }
  }

  lemma SteadyScope(ts: seq<Token>, m: World, pos: nat)
    requires Steady(ts, m, pos)
    ensures Steady(ts, Deeper(m), pos)
    ensures m.st.depth > 0 ==> Steady(ts, Shallower(m), pos)
  {
    hide Holes;
    if m.st.depth > 0 {
      PopPrefix(m.st.locals, m.st.depth - 1);
    }
  }

  lemma {:induction false} DepthKept(s: Stmt, at: int, lp: LoopCtx, st: Scopes, slot: string -> int)
    ensures CompileStmt(s, at, lp, st, slot).st.depth == st.depth
    decreases s, 1
  {
    hide Compile, CondCode, CondHi, PatchAll, Redeclared, PopScope, WindowEnd, Free, Branchings;
    if s.If? {
      var size := |CondCode(s.cond, st, slot, 0)|;
      var a := CompileStmt(s.then_, at + size, lp, AfterCond(s.cond, st, slot), slot);
      DepthKept(s.then_, at + size, lp, AfterCond(s.cond, st, slot), slot);
      DepthKept(s.els, at + size + |a.code| + 1, lp, a.st, slot);
    } else if s.While? {
      DepthKept(s.loop, at + |CondCode(s.cond, st, slot, 0)|, LoopCtx(at, lp.open + 1), AfterCond(s.cond, st, slot),
          slot);
    }
  }

  lemma {:induction false} SeqDepthKept(ss: seq<Stmt>, at: int, lp: LoopCtx, st: Scopes, slot: string -> int)
    ensures CompileSeq(ss, at, lp, st, slot).st.depth == st.depth
    decreases |ss|
  {
    hide CompileStmt;
    if ss != [] {
      var a := CompileStmt(ss[0], at, lp, st, slot);
      DepthKept(ss[0], at, lp, st, slot);
      SeqDepthKept(ss[1..], at + |a.code|, lp, a.st, slot);
    }
  }

  /** A scope: its declarations one level deeper, then its locals dropped. */
  lemma ScopeEnds(ts: seq<Token>, slot: string -> int, r: Option<Parsed<seq<Stmt>>>, m: World, pos0: nat, w: World,
        pos: nat, n: World)
    requires Steady(ts, m, pos0) && SeqResult(ts, slot, r, Deeper(m), w, pos)
    requires if w.err then n.err else w.st.depth > 0 && n == Shallower(w)
    ensures StmtResult(ts, slot, BlockOf(r), m, n, pos)
  {
    hide CompileSeq, Noted, PopScope, WindowEnd, Steady;
    if r.Some? {
      SeqDepthKept(r.value.tree, |m.code|, Ctx(m.loops), m.st.(depth := m.st.depth + 1), slot);
      if !n.err {
        SteadyNext(ts, m, pos0);
        SteadyScope(ts, w, pos);
      }
    }
  }

  /** One declaration as a block of its own. */
  lemma OneDecl(ts: seq<Token>, slot: string -> int, r: Option<Parsed<Stmt>>, m: World, pos0: nat, n: World, pos: nat)
    requires Steady(ts, m, pos0) && StmtResult(ts, slot, r, m, n, pos)
    ensures SeqResult(ts, slot, Alone(r), m, n, pos)
  {
    hide CompileStmt, CompileSeq, Noted, Steady, StmtCode;
    SteadyNext(ts, m, pos0);
    if r.Some? {
      SeqNone(m, slot);
      assert [] + [r.value.tree] == [r.value.tree];
      SeqMore(slot, [], r.value.tree, m, m);
      if !n.err { SteadyNext(ts, n, pos); }
    }
  }

  lemma SeqNone(m: World, slot: string -> int)
    requires m.st.next <= m.max
    ensures StmtCode(slot, OutOfSeq([], m, slot), m, m) && OutOfSeq([], m, slot) == SOut([], [], m.st, m.st.next, false)
  {
    NotedNone(m.loops);
  }

  lemma NoParenthesis(ts: seq<Token>, slot: string -> int, i: nat, d: nat, m: World, n: World, pos: nat)
    requires !Tok(ts, i).TLParen? && n.err && pos <= |ts|
    ensures ParseCondition(ts, i, d).None? && StmtResult(ts, slot, PrintOf(ts, ParseCondition(ts, i, d)), m, n, pos)
  {
  }

  // ---------------------------------------------------------------- dispatch

  /** The `var` at i - 1. */
  lemma VarIs(ts: seq<Token>, i: nat, d: nat)
    ensures ParseVar(ts, i, d) ==
              if !Tok(ts, i).TIdent? then None
              else if Tok(ts, i + 1).TEq? then VarOf(ts, Tok(ts, i).name, ParsePrec(ts, i + 2, PREC_ASSIGNMENT, d))
              else Closed(ts, VarDecl(Tok(ts, i).name, None), i + 1, TSemi)
  {
    hide ParsePrec;
  }

  lemma NoName(ts: seq<Token>, slot: string -> int, r: Option<Parsed<Stmt>>, m: World, n: World, pos: nat)
    requires r.None? && n.err && pos <= |ts|
    ensures StmtResult(ts, slot, r, m, n, pos)
  {
  }

  lemma SteadyMoves(ts: seq<Token>, m: World, pos: nat, pos': nat)
    requires Steady(ts, m, pos) && pos' <= |ts|
    ensures Steady(ts, m, pos')
  {
    hide Holes;
  }

  lemma NoCondition(ts: seq<Token>, sc: Scope, i: nat, d: nat, reg: int, m: Snap, n: Snap, pos: nat)
    requires !Tok(ts, i).TLParen? && n.err && pos <= |ts|
    ensures CondResult(ts, sc, ParseCondition(ts, i, d), reg, m, n, pos)
  {
  }

  lemma NoHoles(code: seq<Instr>, target: int)
    ensures PatchAll(code, 0, [], target) == code
  {
  }

  // ---------------------------------------------------------------- glue

  lemma BlockSteady(ts: seq<Token>, slot: string -> int, i: nat, d: nat, ss: seq<Stmt>, m: World, n: World, pos: nat)
    requires InBlock(ts, slot, i, d, ss, m, n, pos)
    ensures Steady(ts, n, pos) && i <= pos <= |ts| && (!Tok(ts, pos).TEof? ==> pos < |ts|) && !n.err
  {
    hide CompileSeq;
  }

  lemma ScopeDepth(ts: seq<Token>, slot: string -> int, r: Option<Parsed<seq<Stmt>>>, m: World, w: World, pos: nat)
    requires SeqResult(ts, slot, r, m, w, pos) && !w.err
    ensures w.st.depth == m.st.depth
  {
    hide CompileSeq, Steady;
    SeqDepthKept(r.value.tree, |m.code|, Ctx(m.loops), m.st, slot);
  }

  lemma ArmFails(ts: seq<Token>, slot: string -> int, i: nat, d: nat, count: nat, reg: int, m: World, pos0: nat,
        aft: Snap, pos: nat, n: World)
    requires Steady(ts, m, pos0) && i <= |ts| && n.err && aft.err
    requires CondResult(ts, ScopeOf(m.st, slot), ParseCondition(ts, i, d), reg, SnapOf(m), aft, pos)
    ensures ArmResult(ts, slot, ParseArm(ts, i, d), count, m, n, pos)
  {
    hide Compile, CompileStmt, ParseCondition, ParseBody, CondCode, AfterCond, Steady;
  }

  lemma CondStarts(ts: seq<Token>, slot: string -> int, c: Option<Parsed<Expr>>, reg: int, m: World, pos0: nat, n: Snap,
        pos: nat)
    requires Steady(ts, m, pos0) && CondResult(ts, ScopeOf(m.st, slot), c, reg, SnapOf(m), n, pos) && !n.err
    ensures c.Some? && pos == c.value.at <= |ts|
    ensures var e := c.value.tree;
            var o := Compile(e, -1, false, m.st.next, m.st.pool, ScopeOf(m.st, slot));
            n.code == m.code + o.code && reg == o.reg && Fusable(m.st.locals, e, o, |n.code|, n.patched) &&
            n.next == o.next && n.pool == o.pool &&
            n.max == Max(m.max, CondHi(e, m.st, slot)) && CondHi(e, m.st, slot) <= MAX_REGS &&
            CondCode(e, m.st, slot, 0) != [] && Steady(ts, Conded(m, e, slot, n.patched), pos)
  {
    hide Compile, Steady, CondCode, Fusable, Produced, AfterCond;
    CondFusable(ScopeOf(m.st, slot), c.value.tree, reg, SnapOf(m), n);
    CondSteady(ts, slot, c.value.tree, m, pos0, n, reg, pos);
  }

  /** The state after the branch has been emitted. */
  lemma IsConded(c: Expr, m: World, slot: string -> int, w: World)
    requires var o := Compile(c, -1, false, m.st.next, m.st.pool, ScopeOf(m.st, slot));
             w.code == m.code + BranchCode(m.st.locals, IsJoin(c), o, 0) &&
             w.max == Max(m.max, CondHi(c, m.st, slot)) &&
             w.st == m.st.(next := Free(m.st.locals, o.next, o.reg), pool := o.pool)
    requires w.err == m.err && w.loops == m.loops
    ensures w == Conded(m, c, slot, w.patched)
  {
    hide Compile, BranchCode, Free;
  }

  lemma BodyAimable(ts: seq<Token>, slot: string -> int, i: nat, d: nat, c: Option<Parsed<Expr>>, m: World,
        patched: nat, w: World, pos: nat, last: Instr)
    requires c.Some? && 0 <= c.value.at <= |ts| && CondCode(c.value.tree, m.st, slot, 0) != [] && !w.err &&
             m.st.next <= m.max
    requires StmtResult(ts, slot, ParseBody(ts, c.value.at, d), Conded(m, c.value.tree, slot, patched), w, pos)
    ensures var jump := BranchAt(m, c.value.tree, slot);
            Aimable(w.code + [last], jump) && w.patched <= |w.code| &&
            (w.code + [last])[jump] == (m.code + CondCode(c.value.tree, m.st, slot, 0))[jump]
  {
    hide CompileStmt, ParseBody, Steady, CondCode, AfterCond, CondHi, Aimable;
    var t := ParseBody(ts, c.value.at, d);
    SteadyNext(ts, w, pos);
    ArmAimed(ts, slot, c.value.tree, t.value.tree, m, patched, w, pos, last, 0);
  }

  lemma BodyIs(ts: seq<Token>, i: nat, d: nat)
    requires i <= |ts|
    ensures ParseBody(ts, i, d) == if Tok(ts, i).TLBrace? then BlockOf(ParseBlock(ts, i + 1, d))
            else BlockOf(Alone(ParseDecl(ts, i, d)))
  {
    hide ParseBlock, ParseDecl;
  }

  lemma TailIs(ts: seq<Token>, i: nat, d: nat)
    requires i <= |ts| && !Tok(ts, i).TElif?
    ensures ParseTail(ts, i, d) == if Tok(ts, i).TElse? then ParseBody(ts, i + 1, d) else Some(Parsed(Skip, i))
  {
    hide ParseBody;
  }

  lemma StatementIs(ts: seq<Token>, i: nat, d: nat)
    requires i <= |ts| && d < MAX_PARSE_DEPTH
    ensures ParseStatement(ts, i, d) ==
              if Tok(ts, i).TIf? then ParseIf(ts, i + 1, d + 1)
              else if Tok(ts, i).TWhile? then ParseWhile(ts, i + 1, d + 1)
              else if Tok(ts, i).TBreak? then Closed(ts, Break, i + 1, TSemi)
              else if Tok(ts, i).TContinue? then Closed(ts, Continue, i + 1, TSemi)
              else if Tok(ts, i).TPrint? then PrintOf(ts, ParseCondition(ts, i + 1, d + 1))
              else if Tok(ts, i).TLBrace? then BlockOf(ParseBlock(ts, i + 1, d + 1))
              else var e := ParsePrec(ts, i, PREC_ASSIGNMENT, d + 1);
                   if e.None? then None else Closed(ts, ExprStmt(e.value.tree), e.value.at, TSemi)
  {
    hide ParseIf, ParseWhile, ParseCondition, ParseBlock, ParsePrec;
  }

  lemma ChainSteady(ts: seq<Token>, slot: string -> int, i: nat, d: nat, arms: seq<Arm>, ends: seq<int>, m: World,
        n: World, pos: nat)
    requires InChain(ts, slot, i, d, arms, ends, m, n, pos)
    ensures Steady(ts, n, pos) && pos <= |ts| && !n.err && (!Tok(ts, pos).TEof? ==> pos < |ts|)
  {
    hide ParseIf, ParseTail, ArmsOut, ArmEnds;
  }

  /** No else-part: nothing happens. */
  lemma SkipEnds(ts: seq<Token>, slot: string -> int, m: World, pos: nat)
    requires Steady(ts, m, pos)
    ensures StmtResult(ts, slot, Some(Parsed(Skip, pos)), m, m, pos)
  {
    NotedNone(m.loops);
    SteadyNext(ts, m, pos);
    SteadyWaits(ts, m, pos);
  }

  /** The arms' jumps still wait when the else-part has been compiled. */
  lemma ChainWaits(ts: seq<Token>, slot: string -> int, i: nat, d: nat, arms: seq<Arm>, ends: seq<int>, m: World,
        w: World, pos: nat, w': World, pos': nat)
    requires InChain(ts, slot, i, d, arms, ends, m, w, pos) &&
             StmtResult(ts, slot, ParseTail(ts, pos, d), w, w', pos') && !w'.err
    ensures Holes(w'.code, ends) && w'.patched <= |w'.code|
  {
    hide CompileStmt, ParseIf, ParseTail, ArmsOut, ArmEnds, Steady;
    SteadyNext(ts, w', pos');
    EndsWait(arms, |m.code|, Ctx(m.loops), m.st, slot);
    var b := OutOf(ParseTail(ts, pos, d).value.tree, w, slot);
    forall h | h in ends ensures 0 <= h < |w'.code| && w'.code[h].Jmp? {
      assert w'.code[h] == w.code[h] == ArmsHere(arms, m, slot).code[h - |m.code|];
    }
  }

  lemma LoopedIs(m: World)
    ensures Looped(m) == m.(loops := m.loops + [Loop(|m.code|, [])])
  {
  }

  lemma CondFailed(ts: seq<Token>, slot: string -> int, c: Option<Parsed<Expr>>, reg: int, m: World, n: Snap, pos: nat)
    requires CondResult(ts, ScopeOf(m.st, slot), c, reg, SnapOf(m), n, pos) && n.err
    ensures pos <= |ts| && (c.None? || CondHi(c.value.tree, m.st, slot) > MAX_REGS)
  {
    hide Compile;
  }

  lemma LoopAimable(ts: seq<Token>, slot: string -> int, i: nat, d: nat, c: Option<Parsed<Expr>>, m: World,
        patched: nat, w: World, pos: nat, last: Instr)
    requires c.Some? && 0 <= c.value.at <= |ts| && CondCode(c.value.tree, m.st, slot, 0) != [] && !w.err &&
             m.st.next <= m.max
    requires StmtResult(ts, slot, ParseBody(ts, c.value.at, d), Conded(Looped(m), c.value.tree, slot, patched), w, pos)
    ensures var jump := BranchAt(m, c.value.tree, slot);
            Aimable(w.code + [last], jump) && w.patched <= |w.code| &&
            (w.code + [last])[jump] == (m.code + CondCode(c.value.tree, m.st, slot, 0))[jump]
    ensures w.loops != [] && w.loops[..|w.loops| - 1] == m.loops &&
            Holes(Patched(w.code + [last], BranchAt(m, c.value.tree, slot)), w.loops[|w.loops| - 1].breaks)
  {
    hide CompileStmt, ParseBody, Steady, CondCode, AfterCond, CondHi, Aimable, Patched, Holes;
    BodyAimable(ts, slot, i, d, c, Looped(m), patched, w, pos, last);
    SteadyHoles(ts, w, pos, |w.loops| - 1);
    HolesKept(w.code, [last], BranchAt(m, c.value.tree, slot), w.loops[|w.loops| - 1].breaks);
  }

  lemma SteadyHoles(ts: seq<Token>, w: World, pos: nat, i: nat)
    requires Steady(ts, w, pos) && i < |w.loops|
    ensures Holes(w.code, w.loops[i].breaks)
  {
    hide Holes;
  }
}
