/** Which scripts the compiler refuses: what a script may not do, said about its statements alone, and what
    it needs more registers for than there are. */
module Legality {
  import opened Values
  import opened Machine
  import opened Codegen
  import opened ExpressionProof
  import opened Statements
  import opened StatementProof
  import opened Simulation
  import Grammar
  import Printing
  import Scripts
  import StatementSteps

  /** The breaks that leave the loop around a statement. */
  function Breaks(s: Stmt): nat {
    match s
    case Block(ss) => BreaksAll(ss)
    case If(_, t, e) => Breaks(t) + Breaks(e)
    case Break => 1
    case _ => 0
  }

  function BreaksAll(ss: seq<Stmt>): nat {
    if ss == [] then 0 else Breaks(ss[0]) + BreaksAll(ss[1..])
  }

  /** The conditions of an `if` and the `elif`s behind it. */
  function Arms(s: Stmt): nat { if s.If? then 1 + Arms(s.els) else 0 }

  /** What a statement may do inside so many loops, in a block that has declared these names, or at the top,
      where a name may be declared again: leave or go on with a loop only inside one, and have at most 16
      loops around one another, 256 breaks to a loop and 256 conditions to an `if`. */
  predicate Legal(s: Stmt, loops: nat, names: seq<string>, top: bool)
    decreases s, 1
  {
    match s
    case VarDecl(x, _) => top || x !in names
    case Block(ss) => LegalAll(ss, loops, [], false)
    case If(_, t, e) => Legal(t, loops, names, top) && Legal(e, loops, names, top) && Arms(s) <= 256
    case While(_, body) => loops < 16 && Legal(body, loops + 1, names, top) && Breaks(body) <= 256
    case Break => loops > 0
    case Continue => loops > 0
    case _ => true
  }

  /** The names after a statement. */
  function Named(s: Stmt, names: seq<string>, top: bool): seq<string> {
    if s.VarDecl? && !top then names + [s.name] else names
  }

  predicate LegalAll(ss: seq<Stmt>, loops: nat, names: seq<string>, top: bool)
    decreases ss, 0
  {
    ss == [] || (Legal(ss[0], loops, names, top) && LegalAll(ss[1..], loops, Named(ss[0], names, top), top))
  }

  // ---------------------------------------------------------------- the compiler's counts

  lemma {:induction false} CountBreaks(s: Stmt, at: int, lp: LoopCtx, st: Scopes, slot: string -> int)
    ensures |CompileStmt(s, at, lp, st, slot).breaks| == Breaks(s)
    decreases s, 1
  {
    hide Compile, CompileStmt, CompileSeq, CondCode, AfterCond, PatchAll, BreaksAll;
    match s
    case Block(ss) =>
      CountAll(ss, at, lp, st.(depth := st.depth + 1), slot);
      StatementSteps.BlockIs(s, at, lp, st, slot);
    case If(c, t, e) =>
      var size := |CondCode(c, st, slot, 0)|;
      var a := CompileStmt(t, at + size, lp, AfterCond(c, st, slot), slot);
      CountBreaks(t, at + size, lp, AfterCond(c, st, slot), slot);
      CountBreaks(e, at + size + |a.code| + 1, lp, a.st, slot);
      UnfoldIf(s, at, lp, st, slot);
    case While(_, _) => UnfoldWhile(s, at, lp, st, slot);
    case _ => LeafCount(s, at, lp, st, slot);
  }

  lemma LeafCount(s: Stmt, at: int, lp: LoopCtx, st: Scopes, slot: string -> int)
    requires !s.Block? && !s.If? && !s.While?
    ensures |CompileStmt(s, at, lp, st, slot).breaks| == Breaks(s)
  {
    hide Compile;
  }

  lemma {:induction false} CountAll(ss: seq<Stmt>, at: int, lp: LoopCtx, st: Scopes, slot: string -> int)
    ensures |CompileSeq(ss, at, lp, st, slot).breaks| == BreaksAll(ss)
    decreases ss, 0
  {
    hide CompileStmt, Breaks;
    if ss != [] {
      var a := CompileStmt(ss[0], at, lp, st, slot);
      CountBreaks(ss[0], at, lp, st, slot);
      CountAll(ss[1..], at + |a.code|, lp, a.st, slot);
    }
  }

  lemma {:induction false} ArmsAre(s: Stmt)
    ensures Arms(s) == Branchings(s)
  {
    if s.If? { ArmsAre(s.els); }
  }

  /** The high-water mark covers the register counter before and after. */
  ghost predicate Covered(st: Scopes, o: SOut) { st.next <= o.hi && o.st.next <= o.hi }

  lemma ExprCovers(e: Expr, dest: int, st: Scopes, slot: string -> int, next: int)
    requires Sound(st) && ((dest == -1 && next == st.next) || (dest == st.next && next == st.next + 1))
    ensures var o := Compile(e, dest, false, next, st.pool, ScopeOf(st, slot));
            st.next <= next <= o.next <= o.hi && Free(st.locals, o.next, o.reg) <= o.next
  {
    hide Compile;
    ExprState(e, dest, st, slot, next);
    assert !IsLocal(st.locals, st.next) by {}
    Discipline(e, dest, false, next, st.pool, ScopeOf(st, slot));
  }

  lemma CondCovers(c: Expr, st: Scopes, slot: string -> int)
    requires Sound(st)
    ensures st.next <= CondHi(c, st, slot) && AfterCond(c, st, slot).next <= CondHi(c, st, slot)
  {
    hide Compile, Sound;
    ExprCovers(c, -1, st, slot, st.next);
  }

  lemma {:induction false} Covers(s: Stmt, at: int, lp: LoopCtx, st: Scopes, slot: string -> int)
    requires Sound(st) && Formed(s)
    ensures Covered(st, CompileStmt(s, at, lp, st, slot))
    decreases s, 1
  {
    hide Compile, CompileStmt, CondCode, AfterCond, CondHi, Layout;
    match s
    case Block(ss) => CoversBlock(ss, at, lp, st, slot);
    case If(c, t, e) =>
      var size := |CondCode(c, st, slot, 0)|;
      var st1 := AfterCond(c, st, slot);
      var a := CompileStmt(t, at + size, lp, st1, slot);
      CondState(c, st, slot, 0);
      CondCovers(c, st, slot);
      StmtShape(t, at + size, lp, st1, slot);
      Covers(t, at + size, lp, st1, slot);
      Covers(e, at + size + |a.code| + 1, lp, a.st, slot);
      UnfoldIf(s, at, lp, st, slot);
      IfErr(s, at, lp, st, slot, []);
    case While(c, body) =>
      CondState(c, st, slot, 0);
      CondCovers(c, st, slot);
      Covers(body, at + |CondCode(c, st, slot, 0)|, LoopCtx(at, lp.open + 1), AfterCond(c, st, slot), slot);
      UnfoldWhile(s, at, lp, st, slot);
      WhileErr(s, at, lp, st, slot, []);
    case _ => CoversLeaf(s, at, lp, st, slot);
  }

  lemma CoversLeaf(s: Stmt, at: int, lp: LoopCtx, st: Scopes, slot: string -> int)
    requires Sound(st) && !s.Block? && !s.If? && !s.While?
    ensures Covered(st, CompileStmt(s, at, lp, st, slot))
  {
    hide Compile, Sound;
    match s
    case ExprStmt(e) => ExprCovers(e, -1, st, slot, st.next);
    case PrintStmt(e) => ExprCovers(e, -1, st, slot, st.next);
    case VarDecl(x, init) =>
      if init.Some? { ExprCovers(init.value, st.next, st, slot, st.next + 1); }
    case _ =>
  }

  lemma {:induction false} CoversBlock(ss: seq<Stmt>, at: int, lp: LoopCtx, st: Scopes, slot: string -> int)
    requires Sound(st) && Formed(Block(ss))
    ensures Covered(st, CompileStmt(Block(ss), at, lp, st, slot))
    decreases ss, 1
  {
    var st1 := st.(depth := st.depth + 1);
    assert Sound(st1);
    hide CompileSeq;
    CoversAll(ss, at, lp, st1, slot);
    BlockShape(ss, at, lp, st, slot);
    WindowBelow(st);
  }

  lemma WindowBelow(st: Scopes)
    requires Sound(st)
    ensures WindowEnd(st.locals) <= st.next
  {
  }

  lemma {:induction false} CoversAll(ss: seq<Stmt>, at: int, lp: LoopCtx, st: Scopes, slot: string -> int)
    requires Sound(st) && forall i :: 0 <= i < |ss| ==> Formed(ss[i])
    ensures Covered(st, CompileSeq(ss, at, lp, st, slot))
    decreases ss, 0
  {
    hide CompileStmt, Formed, Sound;
    if ss != [] {
      var a := CompileStmt(ss[0], at, lp, st, slot);
      StmtShape(ss[0], at, lp, st, slot);
      Covers(ss[0], at, lp, st, slot);
      CoversAll(ss[1..], at + |a.code|, lp, a.st, slot);
    }
  }

  // ---------------------------------------------------------------- names

  /** The locals of the innermost block are the ones with these names. */
  ghost predicate Inner(st: Scopes, names: seq<string>) {
    var k := |st.locals| - |names|;
    st.depth > 0 ==>
      k >= 0 && (forall i :: 0 <= i < k ==> st.locals[i].depth < st.depth) &&
      forall i :: k <= i < |st.locals| ==> st.locals[i].depth == st.depth && st.locals[i].name == names[i - k]
  }

  lemma {:induction false} RedeclaredIs(L: seq<Local>, depth: int, names: seq<string>, x: string)
    requires |names| <= |L|
    requires forall i :: 0 <= i < |L| - |names| ==> L[i].depth < depth
    requires forall i :: |L| - |names| <= i < |L| ==> L[i].depth == depth && L[i].name == names[i - (|L| - |names|)]
    ensures Redeclared(L, depth, x) <==> x in names
    decreases |L|
  {
    if |names| > 0 {
      var rest := names[..|names| - 1];
      RedeclaredIs(L[..|L| - 1], depth, rest, x);
      assert names == rest + [names[|names| - 1]];
    }
  }

  /** Every local has a register of its own, so that there are never more of them than registers. */
  lemma {:induction false} LocalsFit(L: seq<Local>, n: nat)
    requires n <= |L| && (forall i :: 0 <= i < |L| ==> 0 <= L[i].reg) &&
             forall i, j :: 0 <= i < j < |L| ==> L[i].reg < L[j].reg
    ensures n > 0 ==> n - 1 <= L[n - 1].reg
  {
    if n > 1 { LocalsFit(L, n - 1); }
  }

  lemma FewLocals(st: Scopes)
    requires Sound(st)
    ensures |st.locals| <= st.next
  {
    LocalsFit(st.locals, |st.locals|);
  }

  lemma InnerSame(st: Scopes, st': Scopes, names: seq<string>)
    requires Inner(st, names) && st'.locals == st.locals && st'.depth == st.depth
    ensures Inner(st', names)
  {
  }

  // ---------------------------------------------------------------- refusals

  /** The compiler reports an error exactly for what is not legal or needs more than 250 registers. */
  ghost predicate Refused(legal: bool, o: SOut) { o.err <==> !legal || o.hi > 250 }

  /** Loops are counted from the script level on. */
  ghost predicate Counted(lp: LoopCtx) { lp.start < 0 <==> lp.open == 0 }

  lemma VarRefused(x: string, init: Option<Expr>, at: int, lp: LoopCtx, st: Scopes, slot: string -> int,
        names: seq<string>)
    requires Sound(st) && Inner(st, names) && st.next <= 250
    ensures Refused(Legal(VarDecl(x, init), lp.open, names, st.depth == 0),
                    CompileStmt(VarDecl(x, init), at, lp, st, slot))
    ensures Inner(CompileStmt(VarDecl(x, init), at, lp, st, slot).st, Named(VarDecl(x, init), names, st.depth == 0))
  {
    hide Compile, Redeclared;
    FewLocals(st);
    if st.depth > 0 { RedeclaredIs(st.locals, st.depth, names, x); }
  }

  lemma {:induction false} StmtRefused(s: Stmt, at: nat, lp: LoopCtx, st: Scopes, slot: string -> int,
        names: seq<string>)
    requires Sound(st) && Formed(s) && Inner(st, names) && Counted(lp) && st.next <= 250
    ensures Refused(Legal(s, lp.open, names, st.depth == 0), CompileStmt(s, at, lp, st, slot))
    decreases s, 1
  {
    hide Compile, CondCode, AfterCond, CondHi, PatchAll, Sound, Inner, Arms, Branchings, Breaks, CompileVar;
    match s
    case VarDecl(x, init) => VarRefused(x, init, at, lp, st, slot, names);
    case Block(ss) => BlockRefused(ss, at, lp, st, slot, names);
    case If(_, _, _) => IfRefused(s, at, lp, st, slot, names);
    case While(_, _) => WhileRefused(s, at, lp, st, slot, names);
    case _ =>
  }

  lemma {:induction false} BlockRefused(ss: seq<Stmt>, at: nat, lp: LoopCtx, st: Scopes, slot: string -> int,
        names: seq<string>)
    requires Sound(st) && Formed(Block(ss)) && Counted(lp) && st.next <= 250
    ensures Refused(Legal(Block(ss), lp.open, names, st.depth == 0), CompileStmt(Block(ss), at, lp, st, slot))
    decreases ss, 1
  {
    var st1 := st.(depth := st.depth + 1);
    assert Sound(st1) && Inner(st1, []);
    hide CompileSeq, LegalAll, PopScope, Sound, Inner;
    SeqRefused(ss, at, lp, st1, slot, []);
  }

  lemma {:induction false} IfRefused(s: Stmt, at: nat, lp: LoopCtx, st: Scopes, slot: string -> int,
        names: seq<string>)
    requires s.If? && Sound(st) && Formed(s) && Inner(st, names) && Counted(lp) && st.next <= 250
    ensures Refused(Legal(s, lp.open, names, st.depth == 0), CompileStmt(s, at, lp, st, slot))
    decreases s, 0
  {
    hide Compile, CompileStmt, CondCode, AfterCond, CondHi, Sound, Inner, Legal;
    var size := |CondCode(s.cond, st, slot, 0)|;
    var st1 := AfterCond(s.cond, st, slot);
    var a := CompileStmt(s.then_, at + size, lp, st1, slot);
    CondState(s.cond, st, slot, 0);
    CondCovers(s.cond, st, slot);
    InnerSame(st, st1, names);
    StmtShape(s.then_, at + size, lp, st1, slot);
    InnerSame(st, a.st, names);
    Covers(s.then_, at + size, lp, st1, slot);
    if CondHi(s.cond, st, slot) <= 250 {
      StmtRefused(s.then_, at + size, lp, st1, slot, names);
      if a.hi <= 250 { StmtRefused(s.els, at + size + |a.code| + 1, lp, a.st, slot, names); }
    }
    IfErr(s, at, lp, st, slot, names);
  }

  lemma IfErr(s: Stmt, at: int, lp: LoopCtx, st: Scopes, slot: string -> int, names: seq<string>)
    requires s.If?
    ensures var size := |CondCode(s.cond, st, slot, 0)|;
            var a := CompileStmt(s.then_, at + size, lp, AfterCond(s.cond, st, slot), slot);
            var b := CompileStmt(s.els, at + size + |a.code| + 1, lp, a.st, slot);
            var o, top := CompileStmt(s, at, lp, st, slot), st.depth == 0;
            var h := CondHi(s.cond, st, slot);
            (o.err <==> h > 250 || a.err || b.err || Arms(s) > 256) && o.hi == Max(h, Max(a.hi, b.hi)) &&
            (Legal(s, lp.open, names, top) <==>
             Legal(s.then_, lp.open, names, top) && Legal(s.els, lp.open, names, top) && Arms(s) <= 256)
  {
    hide Compile, CondCode, AfterCond, CondHi;
    ArmsAre(s);
    hide Arms, Branchings;
  }

  lemma {:induction false} WhileRefused(s: Stmt, at: nat, lp: LoopCtx, st: Scopes, slot: string -> int,
        names: seq<string>)
    requires s.While? && Sound(st) && Formed(s) && Inner(st, names) && Counted(lp) && st.next <= 250
    ensures Refused(Legal(s, lp.open, names, st.depth == 0), CompileStmt(s, at, lp, st, slot))
    decreases s, 0
  {
    hide Compile, CompileStmt, CondCode, AfterCond, CondHi, Sound, Inner, Legal;
    var size := |CondCode(s.cond, st, slot, 0)|;
    var st1 := AfterCond(s.cond, st, slot);
    CondState(s.cond, st, slot, 0);
    CondCovers(s.cond, st, slot);
    InnerSame(st, st1, names);
    if CondHi(s.cond, st, slot) <= 250 {
      StmtRefused(s.loop, at + size, LoopCtx(at, lp.open + 1), st1, slot, names);
    }
    WhileErr(s, at, lp, st, slot, names);
  }

  lemma WhileErr(s: Stmt, at: int, lp: LoopCtx, st: Scopes, slot: string -> int, names: seq<string>)
    requires s.While?
    ensures var size := |CondCode(s.cond, st, slot, 0)|;
            var a := CompileStmt(s.loop, at + size, LoopCtx(at, lp.open + 1), AfterCond(s.cond, st, slot), slot);
            var o, top := CompileStmt(s, at, lp, st, slot), st.depth == 0;
            var h := CondHi(s.cond, st, slot);
            (o.err <==> h > 250 || a.err || lp.open >= 16 || Breaks(s.loop) > 256) && o.hi == Max(h, a.hi) &&
            (Legal(s, lp.open, names, top) <==>
             lp.open < 16 && Legal(s.loop, lp.open + 1, names, top) && Breaks(s.loop) <= 256)
  {
    hide Compile, CondCode, AfterCond, CondHi, PatchAll, Breaks;
    CountBreaks(s.loop, at + |CondCode(s.cond, st, slot, 0)|, LoopCtx(at, lp.open + 1), AfterCond(s.cond, st, slot),
                slot);
  }

  lemma NamesAfter(s: Stmt, at: nat, lp: LoopCtx, st: Scopes, slot: string -> int, names: seq<string>)
    requires Sound(st) && Formed(s) && Inner(st, names) && st.next <= 250
    ensures Inner(CompileStmt(s, at, lp, st, slot).st, Named(s, names, st.depth == 0))
  {
    StmtShape(s, at, lp, st, slot);
    if s.VarDecl? {
      VarRefused(s.name, s.init, at, lp, st, slot, names);
    } else {
      hide CompileStmt;
      InnerSame(st, CompileStmt(s, at, lp, st, slot).st, names);
    }
  }

  lemma {:induction false} SeqRefused(ss: seq<Stmt>, at: nat, lp: LoopCtx, st: Scopes, slot: string -> int,
        names: seq<string>)
    requires Sound(st) && (forall i :: 0 <= i < |ss| ==> Formed(ss[i])) && Inner(st, names) && Counted(lp)
    requires st.next <= 250
    ensures Refused(LegalAll(ss, lp.open, names, st.depth == 0), CompileSeq(ss, at, lp, st, slot))
    decreases ss, 0
  {
    hide CompileStmt, Formed, Sound, Inner, Legal, Named;
    if ss != [] {
      var a := CompileStmt(ss[0], at, lp, st, slot);
      StmtShape(ss[0], at, lp, st, slot);
      Covers(ss[0], at, lp, st, slot);
      StmtRefused(ss[0], at, lp, st, slot, names);
      if a.hi <= 250 {
        NamesAfter(ss[0], at, lp, st, slot, names);
        SeqRefused(ss[1..], at + |a.code|, lp, a.st, slot, Named(ss[0], names, st.depth == 0));
      }
    }
  }

  /** The registers a script takes. */
  function Registers(ss: seq<Stmt>, slot: string -> int): int {
    CompileSeq(ss, 0, Scripts.TOP, Scripts.EMPTY, slot).hi
  }

  /** A script is compiled exactly when it is legal and takes at most 250 registers, and then it takes those. */
  lemma ScriptRefused(ss: seq<Stmt>, slot: string -> int)
    requires forall i :: 0 <= i < |ss| ==> Formed(ss[i])
    ensures var fn := Scripts.CompileStmts(ss, slot);
            (fn.Some? <==> LegalAll(ss, 0, [], true) && Registers(ss, slot) <= 250) &&
            (fn.Some? ==> 0 <= fn.value.regs <= 250)
  {
    hide CompileSeq, LegalAll, Formed;
    SeqRefused(ss, 0, Scripts.TOP, Scripts.EMPTY, slot, []);
  }

  /** What the compiler makes of tokens: nothing if they are no script, or one that is refused. */
  lemma TokensRefused(ts: seq<Grammar.Token>, slot: string -> int)
    ensures var parsed := Grammar.ParseScript(ts, 0);
            Scripts.CompileTokens(ts, slot).Some? <==>
            parsed.Some? && LegalAll(parsed.value, 0, [], true) && Registers(parsed.value, slot) <= 250
  {
    hide LegalAll, Registers, Grammar.ParseScript, Scripts.CompileStmts;
    if Grammar.ParseScript(ts, 0).Some? {
      Printing.ScriptFormed(ts, 0);
      ScriptRefused(Grammar.ParseScript(ts, 0).value, slot);
    }
  }
}
