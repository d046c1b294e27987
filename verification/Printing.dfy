/** Statements and scripts as tokens, and that the grammar reads every printed one back. */
module Printing {
  import opened Values
  import Machine
  import opened Codegen
  import opened Statements
  import opened Grammar

  function PrintOne(s: Stmt): seq<Token>
    decreases s, 2
  {
    match s
    case Skip => []
    case ExprStmt(e) => Print(e) + [TSemi]
    case PrintStmt(e) => [TPrint] + (InParens(e) + [TSemi])
    case VarDecl(x, init) => [TVar, TIdent(x)] + if init.Some? then [TEq] + (Print(init.value) + [TSemi]) else [TSemi]
    case Block(ss) => [TLBrace] + (PrintAll(ss) + [TRBrace])
    case If(_, _, _) => [TIf] + PrintArms(s)
    case While(c, b) => [TWhile] + (InParens(c) + PrintOne(b))
    case Break => [TBreak, TSemi]
    case Continue => [TContinue, TSemi]
  }

  function InParens(e: Expr): seq<Token> { [TLParen] + (Print(e) + [TRParen]) }

  /** An `if` or `elif` without its keyword. */
  function PrintArms(s: Stmt): seq<Token>
    requires s.If?
    decreases s, 0
  {
    InParens(s.cond) + (PrintOne(s.then_) + PrintTail(s.els))
  }

  function PrintTail(s: Stmt): seq<Token>
    decreases s, 3
  {
    match s
    case Skip => []
    case If(_, _, _) => [TElif] + PrintArms(s)
    case _ => [TElse] + PrintOne(s)
  }

  function PrintAll(ss: seq<Stmt>): seq<Token>
    decreases ss, 0
  {
    if ss == [] then [] else PrintOne(ss[0]) + PrintAll(ss[1..])
  }

  /** Trees that can be written down: expressions with the parentheses they need, bodies in braces. */
  predicate Writable(s: Stmt) {
    match s
    case Skip => false
    case ExprStmt(e) => Standing(e, PREC_ASSIGNMENT)
    case PrintStmt(e) => Standing(e, PREC_ASSIGNMENT)
    case VarDecl(_, init) => init.Some? ==> Standing(init.value, PREC_ASSIGNMENT)
    case Block(ss) => forall k :: 0 <= k < |ss| ==> Writable(ss[k])
    case If(c, t, e) => Standing(c, PREC_ASSIGNMENT) && t.Block? && Writable(t) &&
    (e.Skip? || ((e.If? || e.Block?) && Writable(e)))
    case While(c, b) => Standing(c, PREC_ASSIGNMENT) && b.Block? && Writable(b)
    case _ => true
  }

  /** How many nested parser calls a statement takes. */
  function Depth(s: Stmt): nat
    decreases s, 0
  {
    match s
    case ExprStmt(e) => 2 + Nesting(e)
    case PrintStmt(e) => 2 + Nesting(e)
    case VarDecl(_, init) => 1 + if init.Some? then Nesting(init.value) else 0
    case Block(ss) => 2 + DepthAll(ss)
    case If(c, t, e) => Most(2 + Nesting(c), Most(Depth(t), Depth(e)))
    case While(c, b) => Most(2 + Nesting(c), Depth(b))
    case _ => 2
  }

  function DepthAll(ss: seq<Stmt>): nat
    decreases ss, 1
  {
    if ss == [] then 0 else Most(Depth(ss[0]), DepthAll(ss[1..]))
  }

  /** Tokens that would continue an `if`. */
  predicate Continues(t: Token) { t.TElif? || t.TElse? }

  lemma {:induction false} FirstOfExpr(e: Expr)
    ensures var t := Print(e)[0];
            t.TInt? || t.TStr? || t.TTrue? || t.TFalse? || t.TNil? || t.TIdent? || t.TOp? || t.TNot? || t.TTilde? ||
            t.TLParen?
    decreases e
  {
    match e
    case Bin(_, l, _) => FirstOfExpr(l);
    case PowE(l, _) => FirstOfExpr(l);
    case And(l, _) => FirstOfExpr(l);
    case Or(l, _) => FirstOfExpr(l);
    case Cond(c, _, _) => FirstOfExpr(c);
    case _ =>
  }

  /** No printed statement begins with a token that would continue an `if`, end a block or end the script. */
  lemma FirstOfStmt(s: Stmt)
    requires Writable(s)
    ensures PrintOne(s) != [] && !Continues(PrintOne(s)[0]) && !PrintOne(s)[0].TRBrace? && !PrintOne(s)[0].TEof?
  {
    if s.ExprStmt? { FirstOfExpr(s.e); }
  }

  lemma HasHead(ts: seq<Token>, i: int, t: Token, rest: seq<Token>)
    requires Has(ts, i, [t] + rest)
    ensures Tok(ts, i) == t && Has(ts, i + 1, rest) && 0 <= i < |ts|
  {
    HasSplit(ts, i, [t], rest);
    HasFirst(ts, i, t);
  }

  /** An expression closed by a token that no expression takes in. */
  lemma ExprThen(ts: seq<Token>, i: nat, e: Expr, t: Token, rest: seq<Token>, d: nat)
    requires Has(ts, i, Print(e) + ([t] + rest)) && Standing(e, PREC_ASSIGNMENT) && d + Nesting(e) <= MAX_PARSE_DEPTH
    requires t.TSemi? || t.TRParen?
    ensures ParsePrec(ts, i, PREC_ASSIGNMENT, d) == Machine.Some(Parsed(e, i + |Print(e)|))
    ensures Tok(ts, i + |Print(e)|) == t && Has(ts, i + |Print(e)| + 1, rest) && i + |Print(e)| < |ts|
  {
    hide ParsePrec, Print, Standing, Has, Swallows, Nesting;
    HasSplit(ts, i, Print(e), [t] + rest);
    HasHead(ts, i + |Print(e)|, t, rest);
    SwallowsPositive(e);
    ParseOperand(ts, i, e, PREC_ASSIGNMENT, d);
  }

  lemma ParensThen(e: Expr, rest: seq<Token>)
    ensures InParens(e) + rest == [TLParen] + (Print(e) + ([TRParen] + rest)) && |InParens(e)| == |Print(e)| + 2
  {
    hide Print;
  }

  lemma ConditionBack(ts: seq<Token>, i: nat, e: Expr, rest: seq<Token>, d: nat)
    requires Has(ts, i, InParens(e) + rest) && Standing(e, PREC_ASSIGNMENT) && d + Nesting(e) <= MAX_PARSE_DEPTH
    ensures ParseCondition(ts, i, d) == Machine.Some(Parsed(e, i + |InParens(e)|)) &&
            Has(ts, i + |InParens(e)|, rest) && i + |InParens(e)| <= |ts|
  {
    hide ParsePrec, Print, Standing, Has, Swallows, Nesting, InParens;
    ParensThen(e, rest);
    HasHead(ts, i, TLParen, Print(e) + ([TRParen] + rest));
    ExprThen(ts, i + 1, e, TRParen, rest, d);
  }

  /** A printed statement is parsed back, provided what follows does not continue an `if`. */
  lemma {:induction false} StmtBack(ts: seq<Token>, i: nat, s: Stmt, d: nat)
    requires i <= |ts| && Has(ts, i, PrintOne(s)) && Writable(s) && d + Depth(s) <= MAX_PARSE_DEPTH
    requires !Continues(Tok(ts, i + |PrintOne(s)|))
    ensures ParseDecl(ts, i, d) == Machine.Some(Parsed(s, i + |PrintOne(s)|))
    decreases s, 3
  {
    hide ParsePrec, Has, Print, Standing, Nesting, ParseVar, ParseIf, ParseWhile, ParseBlock, PrintAll, PrintArms,
        DepthAll;
    match s
    case ExprStmt(e) => ExprBack(ts, i, e, d);
    case PrintStmt(e) => PrintBack(ts, i, e, d);
    case VarDecl(x, init) => VarBack(ts, i, x, init, d);
    case Block(ss) =>
      HasHead(ts, i, TLBrace, PrintAll(ss) + [TRBrace]);
      BlockBack(ts, i + 1, ss, d + 2);
    case If(_, _, _) =>
      HasHead(ts, i, TIf, PrintArms(s));
      ArmsBack(ts, i + 1, s, d + 2);
    case While(c, b) => WhileBack(ts, i, s, d);
    case Break => HasTwo(ts, i, TBreak, TSemi);
    case Continue => HasTwo(ts, i, TContinue, TSemi);
  }

  lemma ExprBack(ts: seq<Token>, i: nat, e: Expr, d: nat)
    requires Has(ts, i, PrintOne(ExprStmt(e))) && Standing(e, PREC_ASSIGNMENT) && d + 2 + Nesting(e) <= MAX_PARSE_DEPTH
    ensures i <= |ts| && ParseDecl(ts, i, d) == Machine.Some(Parsed(ExprStmt(e), i + |PrintOne(ExprStmt(e))|))
  {
    hide ParsePrec, Has, Standing, Print, Nesting, ParseVar, ParseIf, ParseWhile, ParseBlock, ParseCondition;
    assert [TSemi] + [] == [TSemi];
    ExprThen(ts, i, e, TSemi, [], d + 2);
    FirstOfExpr(e);
    FirstHere(ts, i, Print(e), [TSemi]);
    NestingPositive(e);
  }

  lemma FirstHere(ts: seq<Token>, i: int, a: seq<Token>, b: seq<Token>)
    requires Has(ts, i, a + b) && a != []
    ensures Tok(ts, i) == a[0]
  {
    assert ts[i..i + |a + b|][0] == a[0];
  }

  lemma NestingPositive(e: Expr)
    ensures Nesting(e) > 0
  {
  }

  lemma PrintBack(ts: seq<Token>, i: nat, e: Expr, d: nat)
    requires Has(ts, i, PrintOne(PrintStmt(e))) && Standing(e, PREC_ASSIGNMENT) && d + 2 + Nesting(e) <= MAX_PARSE_DEPTH
    ensures i <= |ts| && ParseDecl(ts, i, d) == Machine.Some(Parsed(PrintStmt(e), i + |PrintOne(PrintStmt(e))|))
  {
    hide ParsePrec, Has, Standing, Print, ParseCondition, InParens, Nesting, ParseVar, ParseIf, ParseWhile, ParseBlock;
    HasHead(ts, i, TPrint, InParens(e) + [TSemi]);
    ConditionBack(ts, i + 1, e, [TSemi], d + 2);
    assert [TSemi] == [TSemi] + [];
    HasHead(ts, i + 1 + |InParens(e)|, TSemi, []);
    NestingPositive(e);
  }

  lemma VarBack(ts: seq<Token>, i: nat, x: string, init: Machine.Option<Expr>, d: nat)
    requires Has(ts, i, PrintOne(VarDecl(x, init))) && (init.Some? ==> Standing(init.value, PREC_ASSIGNMENT)) &&
             d + Depth(VarDecl(x, init)) <= MAX_PARSE_DEPTH
    ensures i <= |ts| && ParseDecl(ts, i, d) == Machine.Some(Parsed(VarDecl(x, init), i + |PrintOne(VarDecl(x, init))|))
  {
    hide ParsePrec, Has, Standing, Print, Nesting;
    if init.Some? {
      var e := init.value;
      HasSplit(ts, i, [TVar, TIdent(x)], [TEq] + (Print(e) + [TSemi]));
      HasTwo(ts, i, TVar, TIdent(x));
      HasHead(ts, i + 2, TEq, Print(e) + [TSemi]);
      assert Print(e) + [TSemi] == Print(e) + ([TSemi] + []);
      ExprThen(ts, i + 3, e, TSemi, [], d + 1);
    } else {
      HasSplit(ts, i, [TVar, TIdent(x)], [TSemi]);
      HasTwo(ts, i, TVar, TIdent(x));
      HasFirst(ts, i + 2, TSemi);
    }
  }

  /** The declarations of a block and its closing brace. */
  lemma {:induction false} BlockBack(ts: seq<Token>, i: nat, ss: seq<Stmt>, d: nat)
    requires i <= |ts| && Has(ts, i, PrintAll(ss) + [TRBrace]) && (forall k :: 0 <= k < |ss| ==> Writable(ss[k])) &&
             d + DepthAll(ss) <= MAX_PARSE_DEPTH
    ensures ParseBlock(ts, i, d) == Machine.Some(Parsed(ss, i + |PrintAll(ss)| + 1))
    decreases ss, 0
  {
    hide Has, Writable, Depth, PrintOne, ParseDecl;
    if ss == [] {
      assert PrintAll(ss) + [TRBrace] == [TRBrace];
      HasFirst(ts, i, TRBrace);
    } else {
      var rest := PrintAll(ss[1..]) + [TRBrace];
      var j := i + |PrintOne(ss[0])|;
      assert PrintAll(ss) + [TRBrace] == PrintOne(ss[0]) + rest;
      HasSplit(ts, i, PrintOne(ss[0]), rest);
      HasEnd(ts, i, PrintOne(ss[0]));
      FirstOfStmt(ss[0]);
      FirstHere(ts, i, PrintOne(ss[0]), rest);
      FirstOfRest(ts, j, ss[1..], TRBrace);
      StmtBack(ts, i, ss[0], d);
      BlockBack(ts, j, ss[1..], d);
      assert [ss[0]] + ss[1..] == ss;
    }
  }

  /** What follows a statement in a list does not continue an `if`. */
  lemma FirstOfRest(ts: seq<Token>, i: int, ss: seq<Stmt>, end: Token)
    requires Has(ts, i, PrintAll(ss) + [end]) && (forall k :: 0 <= k < |ss| ==> Writable(ss[k])) && !Continues(end)
    ensures !Continues(Tok(ts, i))
  {
    hide Has, PrintOne, Writable;
    if ss == [] {
      assert PrintAll(ss) + [end] == [end];
      HasFirst(ts, i, end);
    } else {
      FirstOfStmt(ss[0]);
      assert PrintAll(ss) + [end] == PrintOne(ss[0]) + (PrintAll(ss[1..]) + [end]);
      FirstHere(ts, i, PrintOne(ss[0]), PrintAll(ss[1..]) + [end]);
    }
  }

  lemma {:induction false} BodyBack(ts: seq<Token>, i: nat, b: Stmt, rest: seq<Token>, d: nat)
    requires b.Block? && i <= |ts| && Has(ts, i, PrintOne(b) + rest) && Writable(b) &&
             d + DepthAll(b.body) <= MAX_PARSE_DEPTH
    ensures ParseBody(ts, i, d) == Machine.Some(Parsed(b, i + |PrintOne(b)|)) && Has(ts, i + |PrintOne(b)|, rest) &&
            i + |PrintOne(b)| <= |ts|
    decreases b, 1
  {
    hide Has, PrintAll, ParseBlock, DepthAll;
    HasSplit(ts, i, PrintOne(b), rest);
    HasEnd(ts, i, PrintOne(b));
    HasHead(ts, i, TLBrace, PrintAll(b.body) + [TRBrace]);
    BlockBack(ts, i + 1, b.body, d);
  }

  lemma {:induction false} WhileBack(ts: seq<Token>, i: nat, s: Stmt, d: nat)
    requires s.While? && i <= |ts| && Has(ts, i, PrintOne(s)) && Writable(s) && d + Depth(s) <= MAX_PARSE_DEPTH
    ensures ParseDecl(ts, i, d) == Machine.Some(Parsed(s, i + |PrintOne(s)|))
    decreases s, 2
  {
    hide Has, ParseCondition, ParseBody, InParens, Standing, Nesting, PrintAll, DepthAll;
    HasHead(ts, i, TWhile, InParens(s.cond) + PrintOne(s.loop));
    ConditionBack(ts, i + 1, s.cond, PrintOne(s.loop), d + 2);
    assert PrintOne(s.loop) == PrintOne(s.loop) + [];
    NestingPositive(s.cond);
    BodyBack(ts, i + 1 + |InParens(s.cond)|, s.loop, [], d + 2);
    assert ParseWhile(ts, i + 1, d + 2) == Machine.Some(Parsed(s, i + |PrintOne(s)|));
  }

  /** An `if` or `elif` behind its keyword. */
  lemma {:induction false} ArmsBack(ts: seq<Token>, i: nat, s: Stmt, d: nat)
    requires s.If? && i <= |ts| && Has(ts, i, PrintArms(s)) && Writable(s) && d + Depth(s) <= MAX_PARSE_DEPTH + 2
    requires !Continues(Tok(ts, i + |PrintArms(s)|))
    ensures ParseIf(ts, i, d) == Machine.Some(Parsed(s, i + |PrintArms(s)|))
    decreases s, 2
  {
    hide Has, ParseCondition, ParseBody, ParseTail, InParens, Standing, Nesting, PrintOne, PrintTail, PrintAll,
        DepthAll;
    ConditionBack(ts, i, s.cond, PrintOne(s.then_) + PrintTail(s.els), d);
    var j := i + |InParens(s.cond)|;
    BodyBack(ts, j, s.then_, PrintTail(s.els), d);
    TailBack(ts, j + |PrintOne(s.then_)|, s.els, d);
  }

  lemma {:induction false} TailBack(ts: seq<Token>, i: nat, s: Stmt, d: nat)
    requires i <= |ts| && Has(ts, i, PrintTail(s)) && (s.Skip? || ((s.If? || s.Block?) && Writable(s))) &&
             d + Depth(s) <= MAX_PARSE_DEPTH + 2
    requires !Continues(Tok(ts, i + |PrintTail(s)|))
    ensures ParseTail(ts, i, d) == Machine.Some(Parsed(s, i + |PrintTail(s)|))
    decreases s, 3
  {
    hide Has, ParseIf, ParseBody, PrintArms, PrintAll, DepthAll;
    if s.If? {
      HasHead(ts, i, TElif, PrintArms(s));
      ArmsBack(ts, i + 1, s, d);
    } else if s.Block? {
      HasHead(ts, i, TElse, PrintOne(s));
      assert PrintOne(s) == PrintOne(s) + [];
      BodyBack(ts, i + 1, s, [], d);
    }
  }

  lemma TwoParts(ts: seq<Token>, i: nat, a: seq<Token>, b: seq<Token>)
    requires i <= |ts| && ts[i..] == a + b
    ensures Has(ts, i, a + b) && Has(ts, i, a) && Has(ts, i + |a|, b) && ts[i + |a|..] == b
  {
    assert ts[i..i + |a + b|] == ts[i..];
    HasSplit(ts, i, a, b);
    assert ts[i + |a|..] == ts[i..][|a|..];
  }

  /** Every script that can be written down is what its tokens parse to. */
  lemma {:induction false} ScriptBack(ts: seq<Token>, i: nat, ss: seq<Stmt>)
    requires i <= |ts| && ts[i..] == PrintAll(ss) + [TEof]
    requires forall k :: 0 <= k < |ss| ==> Writable(ss[k]) && Depth(ss[k]) <= MAX_PARSE_DEPTH
    ensures ParseScript(ts, i) == Machine.Some(ss)
    decreases ss
  {
    hide Writable, Depth, PrintOne, ParseDecl, Has;
    if ss == [] {
      assert ts[i..][0] == TEof;
    } else {
      var rest := PrintAll(ss[1..]) + [TEof];
      var j := i + |PrintOne(ss[0])|;
      assert ts[i..] == PrintOne(ss[0]) + rest;
      TwoParts(ts, i, PrintOne(ss[0]), rest);
      FirstOfStmt(ss[0]);
      FirstHere(ts, i, PrintOne(ss[0]), rest);
      FirstOfRest(ts, j, ss[1..], TEof);
      StmtBack(ts, i, ss[0], 0);
      ScriptBack(ts, j, ss[1..]);
      assert [ss[0]] + ss[1..] == ss;
    }
  }

  // ---------------------------------------------------------------- the shape of what is parsed

  ghost predicate FormedIf(r: Machine.Option<Parsed<Stmt>>) { r.Some? ==> Formed(r.value.tree) }

  /** Everything parsed as a declaration has the shape of a statement. */
  lemma {:induction false} DeclFormed(ts: seq<Token>, i: nat, d: nat)
    requires i <= |ts|
    ensures FormedIf(ParseDecl(ts, i, d))
    decreases |ts| - i, 4
  {
    hide ParsePrec, ParseStatement, Formed;
    if !Tok(ts, i).TVar? { StatementFormed(ts, i, d + 1); } else { LeafFormed(ts, i + 1, d + 1); }
  }

  lemma LeafFormed(ts: seq<Token>, i: nat, d: nat)
    ensures FormedIf(ParseVar(ts, i, d))
  {
    hide ParsePrec;
  }

  lemma {:induction false} StatementFormed(ts: seq<Token>, i: nat, d: nat)
    requires i <= |ts|
    ensures FormedIf(ParseStatement(ts, i, d))
    decreases |ts| - i, 3
  {
    hide ParsePrec, ParseIf, ParseWhile, ParseBlock, ParseCondition;
    if d < MAX_PARSE_DEPTH && i < |ts| {
      if ts[i].TIf? {
        IfFormed(ts, i + 1, d + 1);
      } else if ts[i].TWhile? {
        WhileFormed(ts, i + 1, d + 1);
      } else if ts[i].TLBrace? {
        BlockFormed(ts, i + 1, d + 1);
      }
    }
  }

  lemma {:induction false} IfFormed(ts: seq<Token>, i: nat, d: nat)
    requires i <= |ts|
    ensures FormedIf(ParseIf(ts, i, d)) && (ParseIf(ts, i, d).Some? ==> ParseIf(ts, i, d).value.tree.If?)
    decreases |ts| - i, 2
  {
    hide ParseCondition, ParseBody, ParseTail;
    var c := ParseCondition(ts, i, d);
    if c.Some? {
      BodyFormed(ts, c.value.at, d);
      var t := ParseBody(ts, c.value.at, d);
      if t.Some? { TailFormed(ts, t.value.at, d); }
    }
  }

  lemma {:induction false} TailFormed(ts: seq<Token>, i: nat, d: nat)
    requires i <= |ts|
    ensures var r := ParseTail(ts, i, d);
            FormedIf(r) && (r.Some? ==> r.value.tree.Skip? || r.value.tree.If? || r.value.tree.Block?)
    decreases |ts| - i, 3
  {
    hide ParseIf, ParseBody;
    if Tok(ts, i).TElif? {
      IfFormed(ts, i + 1, d);
    } else if Tok(ts, i).TElse? {
      BodyFormed(ts, i + 1, d);
    }
  }

  lemma {:induction false} WhileFormed(ts: seq<Token>, i: nat, d: nat)
    requires i <= |ts|
    ensures FormedIf(ParseWhile(ts, i, d))
    decreases |ts| - i, 2
  {
    hide ParseCondition, ParseBody;
    var c := ParseCondition(ts, i, d);
    if c.Some? { BodyFormed(ts, c.value.at, d); }
  }

  lemma {:induction false} BodyFormed(ts: seq<Token>, i: nat, d: nat)
    requires i <= |ts|
    ensures FormedIf(ParseBody(ts, i, d)) && (ParseBody(ts, i, d).Some? ==> ParseBody(ts, i, d).value.tree.Block?)
    decreases |ts| - i, 5
  {
    hide ParseBlock, ParseDecl;
    if Tok(ts, i).TLBrace? {
      BlockFormed(ts, i + 1, d);
    } else {
      DeclFormed(ts, i, d);
    }
  }

  lemma {:induction false} BlockFormed(ts: seq<Token>, i: nat, d: nat)
    requires i <= |ts|
    ensures var r := ParseBlock(ts, i, d); r.Some? ==> Formed(Block(r.value.tree))
    decreases |ts| - i, 5
  {
    hide ParseDecl;
    if !Tok(ts, i).TRBrace? && !Tok(ts, i).TEof? {
      DeclFormed(ts, i, d);
      var s := ParseDecl(ts, i, d);
      if s.Some? { BlockFormed(ts, s.value.at, d); }
    }
  }

  /** Every script that is parsed has the shape. */
  lemma {:induction false} ScriptFormed(ts: seq<Token>, i: nat)
    requires i <= |ts|
    ensures var r := ParseScript(ts, i); r.Some? ==> forall k :: 0 <= k < |r.value| ==> Formed(r.value[k])
    decreases |ts| - i
  {
    hide ParseDecl, Formed;
    if !Tok(ts, i).TEof? {
      DeclFormed(ts, i, 0);
      var s := ParseDecl(ts, i, 0);
      if s.Some? { ScriptFormed(ts, s.value.at); }
    }
  }
}
