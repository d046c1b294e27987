/** A whole script: from tokens to the function the machine runs, and what that run does. */
module Scripts {
  import opened Values
  import opened Machine
  import opened Codegen
  import opened ExpressionProof
  import opened Statements
  import opened StatementProof
  import opened Simulation
  import opened Grammar
  import opened PassSteps
  import opened StatementSteps
  import Meaning
  import Printing

  /** A compiled script: its code, its constants, the registers it needs. */
  datatype Function = Function(code: seq<Instr>, consts: seq<Const>, regs: int)

  const TOP := LoopCtx(-1, 0)
  const EMPTY := Scopes([], 0, 0, [])

  /** One halt is the compiler's, the other the emitter's. */
  const ENDING := [Halt, Halt]

  function CompileStmts(ss: seq<Stmt>, slot: string -> int): Option<Function> {
    var o := CompileSeq(ss, 0, TOP, EMPTY, slot);
    if o.err then None else Some(Function(o.code + ENDING, o.st.pool, Max(0, o.hi)))
  }

  /** What compiling the tokens yields: nothing if they are not a script, or one that breaks a limit
      of the compiler. */
  function CompileTokens(ts: seq<Token>, slot: string -> int): Option<Function> {
    match ParseScript(ts, 0)
    case None => None
    case Some(ss) => CompileStmts(ss, slot)
  }

  /** Compiling a script as it is written down compiles its statements. */
  lemma WrittenScript(ss: seq<Stmt>, slot: string -> int)
    requires forall k :: 0 <= k < |ss| ==> Printing.Writable(ss[k]) && Printing.Depth(ss[k]) <= MAX_PARSE_DEPTH
    ensures CompileTokens(Printing.PrintAll(ss) + [TEof], slot) == CompileStmts(ss, slot)
  {
    hide CompileStmts, ParseScript, Printing.PrintAll, Printing.Writable, Printing.Depth;
    var ts := Printing.PrintAll(ss) + [TEof];
    assert ts[0..] == ts;
    Printing.ScriptBack(ts, 0, ss);
  }

  /** Some declarations of the script have been compiled. */
  ghost predicate InScript(ts: seq<Token>, slot: string -> int, ss: seq<Stmt>, n: World, pos: nat) {
    pos <= |ts| && Steady(ts, n, pos) && StmtCode(slot, OutOfSeq(ss, Blank(), slot), Blank(), n) &&
    !OutOfSeq(ss, Blank(), slot).err &&
    ParseScript(ts, 0) == Preceded(ss, ParseScript(ts, pos))
  }

  function Preceded(ss: seq<Stmt>, r: Option<seq<Stmt>>): Option<seq<Stmt>> {
    if r.None? then None else Some(ss + r.value)
  }

  function Blank(): World { World([], EMPTY, 0, 0, false, []) }

  lemma ScriptStarts(ts: seq<Token>, slot: string -> int)
    ensures InScript(ts, slot, [], Blank(), 0)
  {
    hide ParseScript;
    var r := ParseScript(ts, 0);
    if r.Some? { assert [] + r.value == r.value; }
  }

  lemma InScriptSteady(ts: seq<Token>, slot: string -> int, ss: seq<Stmt>, n: World, pos: nat)
    requires InScript(ts, slot, ss, n, pos)
    ensures Steady(ts, n, pos) && !n.err && pos <= |ts| && (!Tok(ts, pos).TEof? ==> pos < |ts|)
  {
    hide CompileSeq, ParseScript;
  }

  lemma ScriptUnfold(ts: seq<Token>, pos: nat)
    requires pos <= |ts| && !Tok(ts, pos).TEof?
    ensures var x := ParseDecl(ts, pos, 0);
            ParseScript(ts, pos) == if x.None? then None else Preceded([x.value.tree], ParseScript(ts, x.value.at))
  {
    hide ParseDecl;
  }

  lemma ScriptGoes(ts: seq<Token>, slot: string -> int, ss: seq<Stmt>, w: World, pos: nat, n: World, pos': nat)
    requires InScript(ts, slot, ss, w, pos) && !Tok(ts, pos).TEof? &&
             StmtResult(ts, slot, ParseDecl(ts, pos, 0), w, n, pos')
    ensures n.err ==> CompileTokens(ts, slot) == None
    ensures !n.err ==> var x := ParseDecl(ts, pos, 0);
                       x.Some? && pos < pos' && InScript(ts, slot, ss + [x.value.tree], n, pos')
  {
    hide CompileStmt, CompileSeq, Steady, Noted, ParseDecl, ParseScript, StmtCode;
    ScriptUnfold(ts, pos);
    var x := ParseDecl(ts, pos, 0);
    if x.Some? {
      SeqMore(slot, ss, x.value.tree, Blank(), w);
      WaitingAfter(slot, OutOfSeq(ss, Blank(), slot), Blank(), w);
      var r := ParseScript(ts, x.value.at);
      if r.Some? {
        assert ss + ([x.value.tree] + r.value) == (ss + [x.value.tree]) + r.value;
        if n.err { SeqErr(ss + [x.value.tree], r.value, 0, TOP, EMPTY, slot); }
      }
      if !n.err { SteadyNext(ts, n, pos'); }
    }
  }

  lemma ScriptEnds(ts: seq<Token>, slot: string -> int, ss: seq<Stmt>, n: World, pos: nat)
    requires InScript(ts, slot, ss, n, pos) && Tok(ts, pos).TEof?
    ensures CompileTokens(ts, slot) == Some(Function(n.code + ENDING, n.st.pool, n.max))
  {
    hide CompileSeq, Steady;
    assert ss + [] == ss;
    assert [] + OutOfSeq(ss, Blank(), slot).code == OutOfSeq(ss, Blank(), slot).code;
  }

  // ---------------------------------------------------------------- behaviour

  /** Outside loops nothing waits for a loop's end, and nothing leaves a loop. */
  lemma {:induction false} NothingStray(p: Prims, s: Stmt, at: int, lp: LoopCtx, st: Scopes, slot: string -> int,
        m: Mem, depth: nat, fuel: nat, w: View)
    requires lp.start < 0 && !CompileStmt(s, at, lp, st, slot).err
    ensures CompileStmt(s, at, lp, st, slot).breaks == []
    ensures var r := Exec(p, slot, s, m, depth, fuel, w); !r.Broke? && !r.Continued?
    decreases fuel, s, 1
  {
    hide Compile, CondCode, AfterCond, CondHi, PatchAll, PopScope, WindowEnd, Branchings, CompileVar, ExecCond,
        ExecExpr, CompileSeq, ExecSeq;
    if s.Block? {
      SeqNothingStray(p, s.body, at, lp, st.(depth := st.depth + 1), slot, m, depth + 1, fuel, w);
      BlockIs(s, at, lp, st, slot);
    } else if s.If? {
      var size := |CondCode(s.cond, st, slot, 0)|;
      var a := CompileStmt(s.then_, at + size, lp, AfterCond(s.cond, st, slot), slot);
      var c := ExecCond(p, slot, s.cond, m, w);
      var m1 := if c.Some? then c.value.1 else m;
      NothingStray(p, s.then_, at + size, lp, AfterCond(s.cond, st, slot), slot, m1, depth, fuel, w);
      NothingStray(p, s.els, at + size + |a.code| + 1, lp, a.st, slot, m1, depth, fuel, w);
    } else if s.While? {
      WhileStays(p, slot, s, m, depth, fuel, w);
    } else {
      LeafStays(p, s, at, lp, st, slot, m, depth, fuel, w);
    }
  }

  lemma LeafStays(p: Prims, s: Stmt, at: int, lp: LoopCtx, st: Scopes, slot: string -> int, m: Mem, depth: nat,
        fuel: nat, w: View)
    requires !s.Block? && !s.If? && !s.While? && lp.start < 0 && !CompileStmt(s, at, lp, st, slot).err
    ensures CompileStmt(s, at, lp, st, slot).breaks == []
    ensures var r := Exec(p, slot, s, m, depth, fuel, w); !r.Broke? && !r.Continued?
  {
    hide Compile, Eval, EnvOf, Redeclared;
  }

  lemma {:induction false} WhileStays(p: Prims, slot: string -> int, s: Stmt, m: Mem, depth: nat, fuel: nat, w: View)
    requires s.While?
    ensures var r := Exec(p, slot, s, m, depth, fuel, w); !r.Broke? && !r.Continued?
    decreases fuel
  {
    hide ExecCond;
    if fuel > 0 {
      match ExecCond(p, slot, s.cond, m, w)
      case Some((true, m1)) =>
        var o := Exec(p, slot, s.loop, m1, depth, fuel, w);
        if o.Normal? || o.Continued? { WhileStays(p, slot, s, o.m, depth, fuel - 1, w); }
      case _ =>
    }
  }

  lemma {:induction false} SeqNothingStray(p: Prims, ss: seq<Stmt>, at: int, lp: LoopCtx, st: Scopes,
        slot: string -> int, m: Mem, depth: nat, fuel: nat, w: View)
    requires lp.start < 0 && !CompileSeq(ss, at, lp, st, slot).err
    ensures CompileSeq(ss, at, lp, st, slot).breaks == []
    ensures var r := ExecSeq(p, slot, ss, m, depth, fuel, w); !r.Broke? && !r.Continued?
    decreases fuel, ss, 0
  {
    hide CompileStmt, Exec;
    if ss != [] {
      var a := CompileStmt(ss[0], at, lp, st, slot);
      NothingStray(p, ss[0], at, lp, st, slot, m, depth, fuel, w);
      var r := Exec(p, slot, ss[0], m, depth, fuel, w);
      SeqNothingStray(p, ss[1..], at + |a.code|, lp, a.st, slot, if r.Normal? then r.m else m, depth, fuel, w);
    }
  }

  const START := State(0, map[], map[], [], [])
  const NOTHING := Mem([], map[], [], [])

  /** The machine runs the compiled script to its first halt with the given output and globals; while the
      script still loops, the machine keeps running with the same output. */
  ghost predicate Ran(p: Prims, fn: Function, o: Outcome, fuel: nat, n: nat, t: State) {
    var prog := Program(p, fn.code, fn.consts);
    match o
    case Normal(m) => Run(prog, START, n) == Some(t) && Shares(t, m) && t.pc == |fn.code| - 2 && Step(prog, t) == None
    case Timeout(out) => Run(prog, START, n) == Some(t) && t.out == out && n >= fuel
    case _ => false
  }

  /** Every compiled script runs as its statements' code is said to do, traps included; and if no trap
      is met, that is what the script means. */
  lemma ScriptCorrect(p: Prims, ss: seq<Stmt>, slot: string -> int, fn: Function, fuel: nat) returns (n: nat, t: State)
    requires CompileStmts(ss, slot) == Some(fn) && forall i :: 0 <= i < |ss| ==> WellFormed(ss[i])
    ensures Ran(p, fn, ExecSeq(p, slot, ss, NOTHING, 0, fuel, Done), fuel, n, t)
    ensures SaneZero(p) ==>
              var meant := ExecSeq(p, slot, ss, NOTHING, 0, fuel, Meant);
              meant.Trapped? || Ran(p, fn, meant, fuel, n, t)
  {
    hide Run, CompileSeq, ExecSeq, InPlace, Sound, Agrees, Layout;
    var prog := Program(p, fn.code, fn.consts);
    var o := CompileSeq(ss, 0, TOP, EMPTY, slot);
    SeqNothingStray(p, ss, 0, TOP, EMPTY, slot, NOTHING, 0, fuel, Done);
    ScriptPoised(prog, o);
    n, t := SimSeq(prog, slot, ss, 0, TOP, 0, EMPTY, START, NOTHING, fuel);
    var r := ExecSeq(p, slot, ss, NOTHING, 0, fuel, Done);
    if r.Normal? {
      HaltsThere(prog, o.code, t);
      AgreesMeans(t, o.st.locals, r.m);
    }
    if SaneZero(p) { SeqAsMeant(p, slot, ss, NOTHING, 0, fuel); }
  }

  /** Whatever tokens compile: the script they are parsed to runs as said, if its expressions have no fold
      trap and no assignment inside; everything else about its shape is the parser's doing. */
  lemma TokensCorrect(p: Prims, ts: seq<Token>, slot: string -> int, fn: Function, fuel: nat)
    returns (ss: seq<Stmt>, n: nat, t: State)
    requires CompileTokens(ts, slot) == Some(fn) && forall i :: 0 <= i < |ParseScript(ts, 0).value| ==>
               Clear(ParseScript(ts, 0).value[i])
    ensures ParseScript(ts, 0) == Some(ss) && Ran(p, fn, ExecSeq(p, slot, ss, NOTHING, 0, fuel, Done), fuel, n, t)
    ensures SaneZero(p) ==>
              var meant := ExecSeq(p, slot, ss, NOTHING, 0, fuel, Meant);
              meant.Trapped? || Ran(p, fn, meant, fuel, n, t)
  {
    hide Run, Step, CompileStmts, ExecSeq, ParseScript, WellFormed, Formed, Clear;
    ss := ParseScript(ts, 0).value;
    Printing.ScriptFormed(ts, 0);
    forall i | 0 <= i < |ss| ensures WellFormed(ss[i]) { WellFormedIs(ss[i]); }
    n, t := ScriptCorrect(p, ss, slot, fn, fuel);
  }

  /** What the machine does against the language over strings that never change: the same output, then a
      halt, or as long a run with the same output. */
  ghost predicate Printed(p: Prims, fn: Function, ideal: Outcome, fuel: nat, n: nat, t: State) {
    var prog := Program(p, fn.code, fn.consts);
    match ideal
    case Normal(m) => Run(prog, START, n) == Some(t) && t.out == m.out && Step(prog, t) == None
    case Timeout(out) => Run(prog, START, n) == Some(t) && t.out == out && n >= fuel
    case _ => false
  }

  /** A script prints what it should, strings being values and every condition and assignment being
      what it says, if its run meets no trap and appends to no string that another variable holds. */
  lemma ScriptIdeal(p: Prims, ss: seq<Stmt>, slot: string -> int, fn: Function, fuel: nat) returns (n: nat, t: State)
    requires SaneZero(p) && CompileStmts(ss, slot) == Some(fn) && forall i :: 0 <= i < |ss| ==> WellFormed(ss[i])
    requires !ExecSeq(p, slot, ss, NOTHING, 0, fuel, Meant).Trapped? && Meaning.QuietSeq(p, slot, ss, NOTHING, 0, fuel)
    ensures Printed(p, fn, ExecSeq(p, slot, ss, NOTHING, 0, fuel, Ideal), fuel, n, t)
  {
    hide Run, Step, CompileStmts, ExecSeq, WellFormed, Meaning.QuietSeq, Meaning.AlikeVars, Meaning.AlikeBank;
    n, t := ScriptCorrect(p, ss, slot, fn, fuel);
    NothingAlike();
    Meaning.SeqIdeal(p, slot, ss, NOTHING, NOTHING, 0, fuel);
  }

  lemma NothingAlike()
    ensures Meaning.AlikeMem(NOTHING, NOTHING)
  {
  }

  lemma AgreesMeans(s: State, L: seq<Local>, m: Mem)
    requires Agrees(s, L, m)
    ensures Shares(s, m)
  {
  }

  lemma ScriptPoised(prog: Program, o: SOut)
    requires o.breaks == [] && prog.code == o.code + ENDING && prog.consts == o.st.pool
    ensures Poise(prog, START, o, 0, 0, EMPTY, NOTHING)
  {
    assert START.pc == 0;
  }

  lemma HaltsThere(prog: Program, code: seq<Instr>, t: State)
    requires prog.code == code + ENDING && t.pc == |code|
    ensures Step(prog, t) == None
  {
    assert prog.code[t.pc] == Halt;
  }

  // ---------------------------------------------------------------- one script for the trap

  const A_BELOW_B := Bin(BLt, StrLit("a"), StrLit("b"))
  const PRINTS_ONE := If(A_BELOW_B, Block([PrintStmt(Lit(1))]), Skip)

  lemma BelowTaken(p: Prims, m: Mem, slot: string -> int)
    requires SaneZero(p) && p.strcmp("a", "b") < 0 && m.heap == []
    ensures Truthy(Eval(p, A_BELOW_B, EnvOf(m, slot)).v) && !StatementProof.Taken(p, A_BELOW_B, EnvOf(m, slot)) &&
            CondTrap(p, A_BELOW_B, EnvOf(m, slot))
  {
    var env := EnvOf(m, slot);
    var a := Eval(p, StrLit("a"), env);
    assert a == Res(Str(0), [StringObj("a", true, 0)]);
    var b := Eval(p, StrLit("b"), After(env, a));
    assert b == Res(Str(1), [StringObj("a", true, 0), StringObj("b", true, 0)]);
    assert SidesOf(p, A_BELOW_B, env) == Sides(Str(0), Str(1), b.h);
  }

  /** `if ("a" < "b") { print(1); }` compiles and halts without printing, although the condition is true. */
  lemma BranchFails(p: Prims, slot: string -> int, fn: Function) returns (n: nat, t: State)
    requires SaneZero(p) && p.strcmp("a", "b") < 0 && CompileStmts([PRINTS_ONE], slot) == Some(fn)
    ensures Truthy(Eval(p, A_BELOW_B, EnvOf(NOTHING, slot)).v) &&
            ExecSeq(p, slot, [PRINTS_ONE], NOTHING, 0, 0, Meant) == Trapped
    ensures var prog := Program(p, fn.code, fn.consts);
            Run(prog, START, n) == Some(t) && Step(prog, t) == None && t.out == []
  {
    hide Run, Step, Eval, CompileStmts, StatementProof.Taken, CondTrap;
    BelowTaken(p, NOTHING, slot);
    n, t := ScriptCorrect(p, [PRINTS_ONE], slot, fn, 0);
    var m := NOTHING.(heap := Eval(p, A_BELOW_B, EnvOf(NOTHING, slot)).h);
    assert Exec(p, slot, PRINTS_ONE, NOTHING, 0, 0, Done) == Normal(m);
    assert Exec(p, slot, PRINTS_ONE, NOTHING, 0, 0, Meant) == Trapped;
    assert [PRINTS_ONE][1..] == [];
    assert ExecSeq(p, slot, [], m, 0, 0, Done) == Normal(m);
  }

  lemma BranchCompiles(slot: string -> int)
    ensures CompileStmts([PRINTS_ONE], slot).Some?
  {
    hide IndexOf, Intern, BranchCode, Free, IsLocal;
    var ss := [PRINTS_ONE];
    CondHiSmall(slot);
    var st1 := AfterCond(A_BELOW_B, EMPTY, slot);
    var size := |CondCode(A_BELOW_B, EMPTY, slot, 0)|;
    BodySmall(size, st1, slot);
    assert !CompileStmt(PRINTS_ONE, 0, TOP, EMPTY, slot).err;
    assert ss[1..] == [];
    assert !CompileSeq(ss, 0, TOP, EMPTY, slot).err;
  }

  lemma CondHiSmall(slot: string -> int)
    ensures CondHi(A_BELOW_B, EMPTY, slot) <= 10 && AfterCond(A_BELOW_B, EMPTY, slot).next <= 10
  {
    hide IndexOf, Intern, BranchCode, IsLocal, BinTail, Folds;
    var sc := ScopeOf(EMPTY, slot);
    var a := Compile(StrLit("a"), -1, true, 0, [], sc);
    assert a.next == 1 && a.hi == 1;
    var b := Compile(StrLit("b"), -1, false, 2, a.pool, sc);
    assert b.next == 3 && b.hi == 3;
    assert Compile(A_BELOW_B, -1, false, 0, [], sc) == EmitBin([], BLt, 1, a, b);
  }

  lemma BodySmall(at: int, st: Scopes, slot: string -> int)
    requires st.next <= 10
    ensures !CompileStmt(Block([PrintStmt(Lit(1))]), at, TOP, st, slot).err
  {
    hide IndexOf, Intern, IsLocal, Free, PopScope, WindowEnd;
    var st1 := st.(depth := st.depth + 1);
    var o := Compile(Lit(1), -1, false, st1.next, st1.pool, ScopeOf(st1, slot));
    assert o.hi == st.next + 1;
    var p := CompileStmt(PrintStmt(Lit(1)), at, TOP, st1, slot);
    assert !p.err;
    assert [PrintStmt(Lit(1))][1..] == [];
    assert !CompileSeq([PrintStmt(Lit(1))], at, TOP, st1, slot).err;
  }

  // ---------------------------------------------------------------- one script for the append

  function SharesString(a: string, b: string, y: string): seq<Stmt> {
    [VarDecl("s", Some(Bin(BAdd, StrLit(a), StrLit(b)))), VarDecl("t", Some(Bin(BAdd, Var("s"), StrLit(y)))),
        PrintStmt(Var("s"))]
  }

  lemma SharesWellFormed(a: string, b: string, y: string)
    ensures forall i :: 0 <= i < 3 ==> WellFormed(SharesString(a, b, y)[i])
  {
    assert Safe(StrLit(a)) && Safe(StrLit(b)) && Safe(StrLit(y)) && Safe(Var("s"));
    assert Safe(Bin(BAdd, StrLit(a), StrLit(b))) && Safe(Bin(BAdd, Var("s"), StrLit(y)));
  }

  /** The first declaration makes a string with room to grow. */
  lemma MadeRoomy(p: Prims, a: string, b: string, env: Env)
    requires a != "" && b != "" && |a| + |b| > SHORT && env.heap == []
    ensures Eval(p, Bin(BAdd, StrLit(a), StrLit(b)), env) ==
              Res(Str(2), [StringObj(a, true, 0), StringObj(b, true, 0), StringObj(a + b, false, Roomy(|a + b| + 1))])
  {
    var x := Eval(p, StrLit(a), env);
    assert x == Res(Str(0), [StringObj(a, true, 0)]);
    var z := Eval(p, StrLit(b), After(env, x));
    assert z == Res(Str(1), [StringObj(a, true, 0), StringObj(b, true, 0)]);
    assert AppendStrings(z.h, 0, 1) == Concat(z.h, 0, 1);
  }

  /** The second one writes to it. */
  lemma WritesInPlace(p: Prims, s: string, y: string, env: Env)
    requires |env.heap| == 3 && env.heap[2] == StringObj(s, false, Roomy(|s| + 1)) && env.vars("s") == Str(2) &&
             0 < |y| <= |s|
    ensures var r := Eval(p, Bin(BAdd, Var("s"), StrLit(y)), env); r.v == Str(2) && |r.h| == 4 && r.h[2].chars == s + y
  {
    var z := Eval(p, StrLit(y), env);
    assert z == Res(Str(3), env.heap + [StringObj(y, true, 0)]);
  }

  /** `var s = a + b; var t = s + y; print(s);` prints `a + b + y`, for all long enough a and b and every
      non-empty y no longer than both together. */
  lemma AppendPrints(p: Prims, slot: string -> int, a: string, b: string, y: string, fn: Function)
    returns (n: nat, t: State)
    requires a != "" && b != "" && |a| + |b| > SHORT && 0 < |y| <= |a| + |b| && slot("s") != slot("t")
    requires CompileStmts(SharesString(a, b, y), slot) == Some(fn)
    ensures var prog := Program(p, fn.code, fn.consts);
            Run(prog, START, n) == Some(t) && Step(prog, t) == None && t.out == [a + b + y]
  {
    hide Run, Step, CompileStmts, Eval, WellFormed;
    var ss := SharesString(a, b, y);
    SharesWellFormed(a, b, y);
    n, t := ScriptCorrect(p, ss, slot, fn, 0);
    MadeRoomy(p, a, b, EnvOf(NOTHING, slot));
    var r := Eval(p, Bin(BAdd, StrLit(a), StrLit(b)), EnvOf(NOTHING, slot));
    var m1 := NOTHING.(globals := map[slot("s") := r.v], heap := r.h);
    assert Exec(p, slot, ss[0], NOTHING, 0, 0, Done) == Normal(m1);
    WritesInPlace(p, a + b, y, EnvOf(m1, slot));
    var q := Eval(p, Bin(BAdd, Var("s"), StrLit(y)), EnvOf(m1, slot));
    var m2 := m1.(globals := m1.globals[slot("t") := q.v], heap := q.h);
    assert Exec(p, slot, ss[1], m1, 0, 0, Done) == Normal(m2);
    ReadsGlobal(p, m2, slot, "s");
    var m3 := ExecPrint(p, slot, Var("s"), m2, Done);
    assert Exec(p, slot, ss[2], m2, 0, 0, Done) == Normal(m3);
    ThreeInTurn(p, slot, ss, NOTHING, m1, m2, m3);
  }

  lemma ReadsGlobal(p: Prims, m: Mem, slot: string -> int, x: string)
    requires m.vars == []
    ensures Eval(p, Var(x), EnvOf(m, slot)) == Res(Get(m.globals, slot(x)), m.heap)
  {
  }

  lemma ThreeInTurn(p: Prims, slot: string -> int, ss: seq<Stmt>, m: Mem, m1: Mem, m2: Mem, m3: Mem)
    requires |ss| == 3 && Exec(p, slot, ss[0], m, 0, 0, Done) == Normal(m1)
    requires Exec(p, slot, ss[1], m1, 0, 0, Done) == Normal(m2) && Exec(p, slot, ss[2], m2, 0, 0, Done) == Normal(m3)
    ensures ExecSeq(p, slot, ss, m, 0, 0, Done) == Normal(m3)
  {
    hide Exec;
    assert ss[1..][0] == ss[1] && ss[1..][1..] == ss[2..] && ss[2..][0] == ss[2] && ss[2..][1..] == [];
    assert ExecSeq(p, slot, ss[2..], m2, 0, 0, Done) == Normal(m3);
    assert ExecSeq(p, slot, ss[1..], m1, 0, 0, Done) == Normal(m3);
  }

  /** Such a script compiles. */
  lemma AppendCompiles(a: string, b: string, y: string, slot: string -> int)
    ensures CompileStmts(SharesString(a, b, y), slot).Some?
  {
    hide CompileSeq, Compile, IndexOf, Intern, IsLocal;
    var ss := SharesString(a, b, y);
    SumCompiles("s", StrLit(a), b, EMPTY, slot);
    var st1 := CompileStmt(ss[0], 0, TOP, EMPTY, slot).st;
    SumCompiles("t", Var("s"), y, st1, slot);
    var at1 := |CompileStmt(ss[0], 0, TOP, EMPTY, slot).code|;
    var st2 := CompileStmt(ss[1], at1, TOP, st1, slot).st;
    PrintCompiles("s", st2, slot);
    NoErrors(ss, slot);
  }

  lemma SumCompiles(x: string, l: Expr, r: string, st: Scopes, slot: string -> int)
    requires st.locals == [] && st.depth == 0 && st.next == 0 && (l.StrLit? || l.Var?)
    ensures var o := CompileVar(x, Some(Bin(BAdd, l, StrLit(r))), st, slot);
            !o.err && o.st.locals == [] && o.st.depth == 0 && o.st.next == 0
  {
    hide IndexOf, Intern, BinTail, Folds;
    var sc := ScopeOf(st, slot);
    var a := Compile(l, 0, true, 1, st.pool, sc);
    assert a.next == 1 && a.hi == 1 && a.reg == 0;
    var b := Compile(StrLit(r), -1, false, 1, a.pool, sc);
    assert b.next == 2 && b.hi == 2 && b.reg == 1;
    SumFolds(a, b);
    assert Compile(Bin(BAdd, l, StrLit(r)), 0, false, 1, st.pool, sc) == EmitBin([], BAdd, 0, a, b);
  }

  lemma SumFolds(a: Out, b: Out)
    requires b.code != [] && b.code[|b.code| - 1].LoadK?
    ensures !Folds([], BAdd, a.reg, b.reg, a.code + b.code)
  {
  }

  lemma PrintCompiles(x: string, st: Scopes, slot: string -> int)
    requires st.locals == [] && st.next == 0
    ensures forall at :: !CompileStmt(PrintStmt(Var(x)), at, TOP, st, slot).err
  {
  }

  lemma NoErrors(ss: seq<Stmt>, slot: string -> int)
    requires |ss| == 3
    requires var a := CompileStmt(ss[0], 0, TOP, EMPTY, slot);
             var b := CompileStmt(ss[1], |a.code|, TOP, a.st, slot);
             !a.err && !b.err && !CompileStmt(ss[2], |a.code| + |b.code|, TOP, b.st, slot).err
    ensures CompileStmts(ss, slot).Some?
  {
    hide CompileStmt;
    var a := CompileStmt(ss[0], 0, TOP, EMPTY, slot);
    var b := CompileStmt(ss[1], |a.code|, TOP, a.st, slot);
    assert ss[1..][0] == ss[1] && ss[1..][1..] == ss[2..] && ss[2..][0] == ss[2] && ss[2..][1..] == [];
    assert !CompileSeq(ss[2..], |a.code| + |b.code|, TOP, b.st, slot).err;
    assert !CompileSeq(ss[1..], |a.code|, TOP, a.st, slot).err;
  }
}
