/** The token grammar the compiler accepts: precedence climbing for expressions, one token of
    lookahead for statements. Every expression without missing parentheses is the one its printed
    tokens parse to; Printing does the same for statements and scripts. */
module Grammar {
  import opened Values
  import opened Machine
  import opened Codegen
  import opened Statements

  /** Tokens of the modelled constructs. TOther stands for every token that belongs to another
      construct of the language; TInt carries the magnitude read by the lexer, TStr the
      characters a literal stands for. */
  datatype Token =
    | TInt(n: nat, hex: bool) | TStr(s: string) | TIdent(name: string) | TTrue | TFalse | TNil
    | TOp(op: BinOp) | TStarStar | TNot | TTilde | TAnd | TOr | TQuestion | TColon
    | TLParen | TRParen | TLBrace | TRBrace | TSemi | TEq
    | TVar | TIf | TElif | TElse | TWhile | TBreak | TContinue | TPrint
    | TOther | TEof

  const PREC_ASSIGNMENT := 1
  const PREC_TERNARY := 2
  const PREC_OR := 3
  const PREC_AND := 4
  const PREC_POWER := 13
  const PREC_CALL := 15
  const PREC_PRIMARY := 16
  const MAX_PARSE_DEPTH := 400

  function OpPrec(op: BinOp): nat {
    match op
    case BBitOr => 5
    case BBitXor => 6
    case BBitAnd => 7
    case BEq => 8
    case BNe => 8
    case BLt => 9
    case BLe => 9
    case BGt => 9
    case BGe => 9
    case BShl => 10
    case BShr => 10
    case BAdd => 11
    case BSub => 11
    case BMul => 12
    case BDiv => 12
    case BMod => 12
    case BIDiv => 12
  }

  /** 0 for tokens that are not infix operators. */
  function TokPrec(t: Token): nat {
    match t
    case TOp(op) => OpPrec(op)
    case TStarStar => PREC_POWER
    case TAnd => PREC_AND
    case TOr => PREC_OR
    case TQuestion => PREC_TERNARY
    case TLParen => PREC_CALL
    case _ => 0
  }

  predicate IsInfix(t: Token) { TokPrec(t) > 0 }

  function Tok(ts: seq<Token>, i: int): Token {
    if 0 <= i < |ts| then ts[i] else TEof
  }

  /** A literal is read as an unsigned magnitude and reinterpreted as int64; only a decimal one
      beyond 2^63 is rejected. */
  function LiteralOf(t: Token): Option<int>
    requires t.TInt?
  {
    var u := if t.n < 0x1_0000_0000_0000_0000 then t.n else 0xFFFF_FFFF_FFFF_FFFF;
    if !t.hex && u > TWO63 then None else Some(if u >= TWO63 then u - 0x1_0000_0000_0000_0000 else u)
  }

  // ---------------------------------------------------------------- expressions

  datatype Parsed<T> = Parsed(tree: T, at: int)

  /** One call of the expression parser at nesting depth d. */
  function ParsePrec(ts: seq<Token>, i: nat, prec: nat, d: nat): (r: Option<Parsed<Expr>>)
    ensures r.Some? ==> i < r.value.at <= |ts|
    decreases |ts| - i, 2
  {
    if d >= MAX_PARSE_DEPTH || i >= |ts| then None
    else
      match ParsePrefix(ts, i, prec, d + 1)
      case None => None
      case Some(l) => Finish(ts, ParseLoop(ts, l.tree, l.at, prec, d + 1), prec)
  }

  /** After an expression that could have been an assignment target, `=` is an error. */
  function Finish(ts: seq<Token>, r: Option<Parsed<Expr>>, prec: nat): Option<Parsed<Expr>> {
    if r.Some? && prec <= PREC_ASSIGNMENT && Tok(ts, r.value.at).TEq? then None else r
  }

  function ParsePrefix(ts: seq<Token>, i: nat, prec: nat, d: nat): (r: Option<Parsed<Expr>>)
    requires i < |ts|
    ensures r.Some? ==> i < r.value.at <= |ts|
    decreases |ts| - i, 1
  {
    match ts[i]
    case TInt(_, _) => (match LiteralOf(ts[i]) case None => None case Some(n) => Some(Parsed(Lit(n), i + 1)))
    case TStr(s) => Some(Parsed(StrLit(s), i + 1))
    case TTrue => Some(Parsed(True, i + 1))
    case TFalse => Some(Parsed(False, i + 1))
    case TNil => Some(Parsed(NilLit, i + 1))
    case TIdent(x) =>
      if prec <= PREC_ASSIGNMENT && Tok(ts, i + 1).TEq? then
        match ParsePrec(ts, i + 2, PREC_ASSIGNMENT, d)
        case None => None
        case Some(e) => Some(Parsed(Assign(x, e.tree), e.at))
      else Some(Parsed(Var(x), i + 1))
    case TOp(BSub) => ParseUnary(ts, i, Neg, d)
    case TNot => ParseUnary(ts, i, Not, d)
    case TTilde => ParseUnary(ts, i, BNot, d)
    case TLParen =>
      (match ParsePrec(ts, i + 1, PREC_ASSIGNMENT, d)
       case None => None
       case Some(e) => if Tok(ts, e.at).TRParen? then Some(Parsed(Group(e.tree), e.at + 1)) else None)
    case _ => None
  }

  function ParseUnary(ts: seq<Token>, i: nat, u: UnOp, d: nat): (r: Option<Parsed<Expr>>)
    requires i < |ts|
    ensures r.Some? ==> i < r.value.at <= |ts|
    decreases |ts| - i, 0
  {
    match ParsePrec(ts, i + 1, PREC_POWER, d)
    case None => None
    case Some(e) => Some(Parsed(Un(u, e.tree), e.at))
  }

  /** The operators after an operand, as long as they bind at least as tightly as prec. */
  function ParseLoop(ts: seq<Token>, l: Expr, i: nat, prec: nat, d: nat): (r: Option<Parsed<Expr>>)
    requires i <= |ts|
    ensures r.Some? ==> i <= r.value.at <= |ts|
    decreases |ts| - i, 1
  {
    var t := Tok(ts, i);
    if !IsInfix(t) || prec > TokPrec(t) then Some(Parsed(l, i))
    else
      match ParseInfix(ts, l, i, d)
      case None => None
      case Some(e) => ParseLoop(ts, e.tree, e.at, prec, d)
  }

  /** One operator and its right operand, or the two branches of a ternary. A call is outside the
      modelled fragment. */
  function ParseInfix(ts: seq<Token>, l: Expr, i: nat, d: nat): (r: Option<Parsed<Expr>>)
    requires i < |ts| && IsInfix(ts[i])
    ensures r.Some? ==> i < r.value.at <= |ts|
    decreases |ts| - i, 0
  {
    match ts[i]
    case TQuestion =>
      (match ParsePrec(ts, i + 1, PREC_OR, d)
       case None => None
       case Some(x) =>
         if !Tok(ts, x.at).TColon? then None
         else
           match ParsePrec(ts, x.at + 1, PREC_OR, d)
           case None => None
           case Some(y) => Some(Parsed(Cond(l, x.tree, y.tree), y.at)))
    case TLParen => None
    case _ =>
      match ParsePrec(ts, i + 1, RightPrec(ts[i]), d)
      case None => None
      case Some(r) => Some(Parsed(Combine(ts[i], l, r.tree), r.at))
  }

  /** Binary operators associate to the left; `**`, `and` and `or` to the right. */
  function RightPrec(t: Token): nat {
    match t
    case TOp(op) => OpPrec(op) + 1
    case _ => TokPrec(t)
  }

  function Combine(t: Token, l: Expr, r: Expr): Expr {
    match t
    case TOp(op) => Bin(op, l, r)
    case TStarStar => PowE(l, r)
    case TAnd => And(l, r)
    case _ => Or(l, r)
  }

  // ---------------------------------------------------------------- printing

  function OpOf(e: Expr): Token {
    match e
    case Bin(op, _, _) => TOp(op)
    case PowE(_, _) => TStarStar
    case And(_, _) => TAnd
    case _ => TOr
  }

  function UnToken(u: UnOp): Token { match u case Neg => TOp(BSub) case Not => TNot case BNot => TTilde }

  predicate TwoSided(e: Expr) { e.Bin? || e.PowE? || e.And? || e.Or? }

  function Print(e: Expr): (ts: seq<Token>)
    ensures |ts| > 0
  {
    match e
    case Lit(n) => [if n >= 0 then TInt(n, false)
        else TInt(if n + 0x1_0000_0000_0000_0000 >= 0 then n + 0x1_0000_0000_0000_0000 else 0, true)]
    case StrLit(s) => [TStr(s)]
    case True => [TTrue]
    case False => [TFalse]
    case NilLit => [TNil]
    case Var(x) => [TIdent(x)]
    case Un(u, e1) => [UnToken(u)] + Print(e1)
    case Bin(_, l, r) => Print(l) + [OpOf(e)] + Print(r)
    case PowE(l, r) => Print(l) + [OpOf(e)] + Print(r)
    case And(l, r) => Print(l) + [OpOf(e)] + Print(r)
    case Or(l, r) => Print(l) + [OpOf(e)] + Print(r)
    case Cond(c, t, f) => Print(c) + [TQuestion] + Print(t) + [TColon] + Print(f)
    case Group(e1) => [TLParen] + Print(e1) + [TRParen]
    case Assign(x, e1) => [TIdent(x), TEq] + Print(e1)
  }

  /** The precedence at which an expression can stand without parentheses. */
  function Level(e: Expr): nat {
    if TwoSided(e) then TokPrec(OpOf(e)) else if e.Cond? then PREC_TERNARY else if e.Assign? then PREC_ASSIGNMENT
        else PREC_PRIMARY
  }

  /** The weakest operator that an expression's right edge would swallow if it followed. */
  function Swallows(e: Expr): nat {
    match e
    case Un(_, e1) => Min(PREC_POWER, Swallows(e1))
    case Bin(op, _, r) => Min(OpPrec(op) + 1, Swallows(r))
    case PowE(_, r) => Min(PREC_POWER, Swallows(r))
    case And(_, r) => Min(PREC_AND, Swallows(r))
    case Or(_, r) => Min(PREC_OR, Swallows(r))
    case Cond(_, _, f) => Min(PREC_OR, Swallows(f))
    case Assign(_, e1) => Min(PREC_ASSIGNMENT, Swallows(e1))
    case _ => PREC_PRIMARY + 1
  }

  function Min(a: nat, b: nat): nat { if a < b then a else b }

  /** Trees that need no more parentheses than they have. */
  predicate Standing(e: Expr, prec: nat) {
    prec <= Level(e) &&
    match e
    case Lit(n) => -TWO63 <= n < TWO63
    case Un(_, e1) => Standing(e1, PREC_POWER)
    case Bin(op, l, r) => Standing(l, OpPrec(op)) && OpPrec(op) < Swallows(l) && Standing(r, OpPrec(op) + 1)
    case PowE(l, r) => Standing(l, PREC_POWER) && PREC_POWER < Swallows(l) && Standing(r, PREC_POWER)
    case And(l, r) => Standing(l, PREC_AND) && PREC_AND < Swallows(l) && Standing(r, PREC_AND)
    case Or(l, r) => Standing(l, PREC_OR) && PREC_OR < Swallows(l) && Standing(r, PREC_OR)
    case Cond(c, t, f) => Standing(c, PREC_TERNARY) && PREC_TERNARY < Swallows(c) && Standing(t, PREC_OR) &&
    Standing(f, PREC_OR)
    case Group(e1) => Standing(e1, PREC_ASSIGNMENT)
    case Assign(_, e1) => Standing(e1, PREC_ASSIGNMENT)
    case _ => true
  }

  /** How many nested parser calls an expression takes. */
  function Nesting(e: Expr): nat {
    match e
    case Un(_, e1) => 1 + Nesting(e1)
    case Bin(_, l, r) => Most(Nesting(l), 1 + Nesting(r))
    case PowE(l, r) => Most(Nesting(l), 1 + Nesting(r))
    case And(l, r) => Most(Nesting(l), 1 + Nesting(r))
    case Or(l, r) => Most(Nesting(l), 1 + Nesting(r))
    case Cond(c, t, f) => Most(Nesting(c), Most(1 + Nesting(t), 1 + Nesting(f)))
    case Group(e1) => 1 + Nesting(e1)
    case Assign(_, e1) => 1 + Nesting(e1)
    case _ => 1
  }

  function Most(a: nat, b: nat): nat { if a < b then b else a }

  ghost predicate Has(ts: seq<Token>, i: int, part: seq<Token>) {
    0 <= i && i + |part| <= |ts| && ts[i..i + |part|] == part
  }

  lemma HasSplit(ts: seq<Token>, i: int, a: seq<Token>, b: seq<Token>)
    requires Has(ts, i, a + b)
    ensures Has(ts, i, a) && Has(ts, i + |a|, b)
  {
    var w := ts[i..i + |a + b|];
    assert ts[i..i + |a|] == w[..|a|];
    assert ts[i + |a|..i + |a| + |b|] == w[|a|..];
  }

  lemma HasFirst(ts: seq<Token>, i: int, t: Token)
    requires Has(ts, i, [t])
    ensures 0 <= i < |ts| && ts[i] == t
  {
    assert ts[i..i + 1][0] == t;
  }

  lemma HasTwo(ts: seq<Token>, i: int, t: Token, u: Token)
    requires Has(ts, i, [t, u])
    ensures 0 <= i < |ts| - 1 && ts[i] == t && ts[i + 1] == u
  {
    assert ts[i..i + 2][0] == t && ts[i..i + 2][1] == u;
  }

  /** What the parser makes of a printed tree: the operand, and on with the operators behind it. */
  lemma {:induction false} ParsePrinted(ts: seq<Token>, i: nat, e: Expr, prec: nat, d: nat)
    requires Has(ts, i, Print(e)) && Standing(e, prec) && d + Nesting(e) <= MAX_PARSE_DEPTH
    requires var next := Tok(ts, i + |Print(e)|); !next.TEq? && TokPrec(next) < Swallows(e)
    ensures ParsePrec(ts, i, prec, d) == Finish(ts, ParseLoop(ts, e, i + |Print(e)|, prec, d + 1), prec)
    decreases e, 1
  {
    hide ParsePrec, ParseLoop, Has, Standing, Print, Swallows;
    if TwoSided(e) {
      ParseTwoSided(ts, i, e, prec, d);
    } else if e.Cond? {
      ParseCond(ts, i, e, prec, d);
    } else if e.Un? {
      ParseUn(ts, i, e, prec, d);
    } else if e.Group? {
      ParseGroup(ts, i, e, prec, d);
    } else if e.Assign? {
      ParseAssign(ts, i, e, prec, d);
    } else {
      ParseAtom(ts, i, e, prec, d);
    }
  }

  /** An operand whose follower binds too loosely to be taken in is exactly what is parsed. */
  lemma ParseOperand(ts: seq<Token>, i: nat, e: Expr, prec: nat, d: nat)
    requires Has(ts, i, Print(e)) && Standing(e, prec) && d + Nesting(e) <= MAX_PARSE_DEPTH
    requires var next := Tok(ts, i + |Print(e)|); !next.TEq? && TokPrec(next) < Swallows(e) && TokPrec(next) < prec
    ensures ParsePrec(ts, i, prec, d) == Some(Parsed(e, i + |Print(e)|))
    decreases e, 2
  {
    hide ParsePrec, Print, Has, Standing, Swallows, Nesting;
    ParsePrinted(ts, i, e, prec, d);
  }

  lemma FromPrefix(ts: seq<Token>, i: nat, e: Expr, j: nat, prec: nat, d: nat)
    requires i < |ts| && d < MAX_PARSE_DEPTH && j <= |ts| && ParsePrefix(ts, i, prec, d + 1) == Some(Parsed(e, j))
    ensures ParsePrec(ts, i, prec, d) == Finish(ts, ParseLoop(ts, e, j, prec, d + 1), prec)
  {
    hide ParsePrefix, ParseLoop;
  }

  lemma UnaryPrefix(ts: seq<Token>, i: nat, e: Expr, j: int, prec: nat, d: nat)
    requires i < |ts| && e.Un? && ts[i] == UnToken(e.uop) && ParsePrec(ts, i + 1, PREC_POWER, d) == Some(Parsed(e.e, j))
    ensures ParsePrefix(ts, i, prec, d) == Some(Parsed(e, j))
  {
    hide ParsePrec;
    assert ParseUnary(ts, i, e.uop, d) == Some(Parsed(e, j));
  }

  lemma GroupPrefix(ts: seq<Token>, i: nat, e: Expr, j: int, prec: nat, d: nat)
    requires i < |ts| && e.Group? && ts[i] == TLParen &&
             ParsePrec(ts, i + 1, PREC_ASSIGNMENT, d) == Some(Parsed(e.e, j))
    requires Tok(ts, j) == TRParen
    ensures ParsePrefix(ts, i, prec, d) == Some(Parsed(e, j + 1))
  {
    hide ParsePrec;
  }

  lemma AssignPrefix(ts: seq<Token>, i: nat, e: Expr, j: int, prec: nat, d: nat)
    requires i < |ts| && e.Assign? && ts[i] == TIdent(e.name) && Tok(ts, i + 1) == TEq && prec <= PREC_ASSIGNMENT
    requires ParsePrec(ts, i + 2, PREC_ASSIGNMENT, d) == Some(Parsed(e.e, j))
    ensures ParsePrefix(ts, i, prec, d) == Some(Parsed(e, j))
  {
    hide ParsePrec;
  }

  lemma AtomPrefix(ts: seq<Token>, i: nat, e: Expr, prec: nat, d: nat)
    requires e.Lit? || e.StrLit? || e.True? || e.False? || e.NilLit? || e.Var?
    requires i < |ts| && [ts[i]] == Print(e) && Standing(e, prec) && !Tok(ts, i + 1).TEq?
    ensures ParsePrefix(ts, i, prec, d) == Some(Parsed(e, i + 1)) && |Print(e)| == 1
  {
    hide ParsePrec;
  }

  lemma StandingInner(e: Expr, prec: nat)
    requires (e.Un? || e.Group? || e.Assign?) && Standing(e, prec)
    ensures Nesting(e) == 1 + Nesting(e.e) && Swallows(e.e) > 0
    ensures e.Un? ==>
              Print(e) == [UnToken(e.uop)] + Print(e.e) && Swallows(e) == Min(PREC_POWER, Swallows(e.e)) &&
              Standing(e.e, PREC_POWER)
    ensures e.Group? ==> Print(e) == [TLParen] + (Print(e.e) + [TRParen]) && Standing(e.e, PREC_ASSIGNMENT)
    ensures e.Assign? ==>
              Print(e) == [TIdent(e.name), TEq] + Print(e.e) && Swallows(e) == Min(PREC_ASSIGNMENT, Swallows(e.e)) &&
                          Standing(e.e, PREC_ASSIGNMENT) && prec <= PREC_ASSIGNMENT
  {
    SwallowsPositive(e.e);
    if e.Group? { assert Print(e) == [TLParen] + Print(e.e) + [TRParen]; }
  }

  lemma {:induction false} ParseUn(ts: seq<Token>, i: nat, e: Expr, prec: nat, d: nat)
    requires e.Un?
    requires Has(ts, i, Print(e)) && Standing(e, prec) && d + Nesting(e) <= MAX_PARSE_DEPTH
    requires var next := Tok(ts, i + |Print(e)|); !next.TEq? && TokPrec(next) < Swallows(e)
    ensures ParsePrec(ts, i, prec, d) == Finish(ts, ParseLoop(ts, e, i + |Print(e)|, prec, d + 1), prec)
    decreases e, 0
  {
    hide ParsePrec, ParsePrefix, ParseLoop, Print, Has, Standing, Swallows, Nesting, UnToken, Finish;
    StandingInner(e, prec);
    var j := i + |Print(e)|;
    HasEnd(ts, i, Print(e));
    HasSplit(ts, i, [UnToken(e.uop)], Print(e.e));
    HasFirst(ts, i, UnToken(e.uop));
    ParseOperand(ts, i + 1, e.e, PREC_POWER, d + 1);
    UnaryPrefix(ts, i, e, j, prec, d + 1);
    FromPrefix(ts, i, e, j, prec, d);
  }

  lemma {:induction false} ParseGroup(ts: seq<Token>, i: nat, e: Expr, prec: nat, d: nat)
    requires e.Group?
    requires Has(ts, i, Print(e)) && Standing(e, prec) && d + Nesting(e) <= MAX_PARSE_DEPTH
    requires var next := Tok(ts, i + |Print(e)|); !next.TEq? && TokPrec(next) < Swallows(e)
    ensures ParsePrec(ts, i, prec, d) == Finish(ts, ParseLoop(ts, e, i + |Print(e)|, prec, d + 1), prec)
    decreases e, 0
  {
    hide ParsePrec, ParsePrefix, ParseLoop, Print, Has, Standing, Swallows, Nesting, Finish;
    StandingInner(e, prec);
    var j := i + |Print(e)|;
    HasEnd(ts, i, Print(e));
    HasSplit(ts, i, [TLParen], Print(e.e) + [TRParen]);
    HasSplit(ts, i + 1, Print(e.e), [TRParen]);
    HasFirst(ts, i, TLParen);
    HasFirst(ts, j - 1, TRParen);
    ParseOperand(ts, i + 1, e.e, PREC_ASSIGNMENT, d + 1);
    GroupPrefix(ts, i, e, j - 1, prec, d + 1);
    FromPrefix(ts, i, e, j, prec, d);
  }

  lemma {:induction false} ParseAssign(ts: seq<Token>, i: nat, e: Expr, prec: nat, d: nat)
    requires e.Assign?
    requires Has(ts, i, Print(e)) && Standing(e, prec) && d + Nesting(e) <= MAX_PARSE_DEPTH
    requires var next := Tok(ts, i + |Print(e)|); !next.TEq? && TokPrec(next) < Swallows(e)
    ensures ParsePrec(ts, i, prec, d) == Finish(ts, ParseLoop(ts, e, i + |Print(e)|, prec, d + 1), prec)
    decreases e, 0
  {
    hide ParsePrec, ParsePrefix, ParseLoop, Print, Has, Standing, Swallows, Nesting, Finish;
    StandingInner(e, prec);
    var j := i + |Print(e)|;
    HasEnd(ts, i, Print(e));
    HasSplit(ts, i, [TIdent(e.name), TEq], Print(e.e));
    HasTwo(ts, i, TIdent(e.name), TEq);
    ParseOperand(ts, i + 2, e.e, PREC_ASSIGNMENT, d + 1);
    AssignPrefix(ts, i, e, j, prec, d + 1);
    FromPrefix(ts, i, e, j, prec, d);
  }

  lemma {:induction false} ParseAtom(ts: seq<Token>, i: nat, e: Expr, prec: nat, d: nat)
    requires e.Lit? || e.StrLit? || e.True? || e.False? || e.NilLit? || e.Var?
    requires Has(ts, i, Print(e)) && Standing(e, prec) && d + Nesting(e) <= MAX_PARSE_DEPTH
    requires var next := Tok(ts, i + |Print(e)|); !next.TEq? && TokPrec(next) < Swallows(e)
    ensures ParsePrec(ts, i, prec, d) == Finish(ts, ParseLoop(ts, e, i + |Print(e)|, prec, d + 1), prec)
    decreases e, 0
  {
    hide ParsePrec, ParsePrefix, ParseLoop;
    var j := i + |Print(e)|;
    HasEnd(ts, i, Print(e));
    HasFirst(ts, i, Print(e)[0]);
    AtomPrefix(ts, i, e, prec, d + 1);
    FromPrefix(ts, i, e, j, prec, d);
  }

  lemma SwallowsPositive(e: Expr)
    ensures Swallows(e) > 0
  {
  }

  lemma LoopStep(ts: seq<Token>, l: Expr, i: nat, prec: nat, d: nat, e: Expr, j: nat)
    requires i < |ts| && IsInfix(ts[i]) && prec <= TokPrec(ts[i]) && j <= |ts| &&
             ParseInfix(ts, l, i, d) == Some(Parsed(e, j))
    ensures ParseLoop(ts, l, i, prec, d) == ParseLoop(ts, e, j, prec, d)
  {
  }

  lemma InfixTwoSided(ts: seq<Token>, i: nat, e: Expr, d: nat, j: int)
    requires TwoSided(e) && i < |ts| && ts[i] == OpOf(e) &&
             ParsePrec(ts, i + 1, RightPrec(ts[i]), d) == Some(Parsed(e.r, j))
    ensures ParseInfix(ts, e.l, i, d) == Some(Parsed(e, j))
  {
    hide ParsePrec;
    match e
    case Bin(_, _, _) =>
    case PowE(_, _) =>
    case And(_, _) =>
    case Or(_, _) =>
  }

  lemma StandingWeaken(e: Expr, prec: nat, prec': nat)
    requires Standing(e, prec) && prec' <= prec
    ensures Standing(e, prec')
  {
  }

  lemma StandingSides(e: Expr, prec: nat)
    requires TwoSided(e) && Standing(e, prec)
    ensures IsInfix(OpOf(e)) && prec <= TokPrec(OpOf(e)) < Swallows(e.l) && Standing(e.r, RightPrec(OpOf(e)))
    ensures Standing(e.l, TokPrec(OpOf(e))) && Standing(e.l, prec)
  {
    StandingOperands(e, prec);
    hide Standing, Swallows;
    StandingWeaken(e.l, TokPrec(OpOf(e)), prec);
  }

  lemma StandingOperands(e: Expr, prec: nat)
    requires TwoSided(e) && Standing(e, prec)
    ensures TokPrec(OpOf(e)) < Swallows(e.l) && Standing(e.r, RightPrec(OpOf(e))) && Standing(e.l, TokPrec(OpOf(e)))
  {
  }

  lemma SidesMeasure(e: Expr)
    requires TwoSided(e)
    ensures Swallows(e) == Min(RightPrec(OpOf(e)), Swallows(e.r)) && Nesting(e) == Most(Nesting(e.l), 1 + Nesting(e.r))
    ensures Print(e) == Print(e.l) + [OpOf(e)] + Print(e.r)
  {
    hide Standing, Print;
    SidesPrinted(e);
  }

  lemma SidesPrinted(e: Expr)
    requires TwoSided(e)
    ensures Print(e) == Print(e.l) + [OpOf(e)] + Print(e.r)
  {
    hide Standing, Swallows, Nesting;
  }

  lemma {:induction false} ParseTwoSided(ts: seq<Token>, i: nat, e: Expr, prec: nat, d: nat)
    requires TwoSided(e)
    requires Has(ts, i, Print(e)) && Standing(e, prec) && d + Nesting(e) <= MAX_PARSE_DEPTH
    requires var next := Tok(ts, i + |Print(e)|); !next.TEq? && TokPrec(next) < Swallows(e)
    ensures ParsePrec(ts, i, prec, d) == Finish(ts, ParseLoop(ts, e, i + |Print(e)|, prec, d + 1), prec)
    decreases e, 0
  {
    hide ParsePrec, ParseLoop, ParseInfix, Print, Has, Standing, Swallows, Nesting, OpOf, OpPrec;
    StandingSides(e, prec);
    SidesMeasure(e);
    var op := OpOf(e);
    var j := i + |Print(e.l)|;
    assert Print(e.l) + [op] + Print(e.r) == Print(e.l) + ([op] + Print(e.r));
    HasSplit(ts, i, Print(e.l), [op] + Print(e.r));
    HasSplit(ts, j, [op], Print(e.r));
    HasFirst(ts, j, op);
    ParsePrinted(ts, i, e.l, prec, d);
    ParseOperand(ts, j + 1, e.r, RightPrec(op), d + 1);
    InfixTwoSided(ts, j, e, d + 1, i + |Print(e)|);
    HasEnd(ts, i, Print(e));
    LoopStep(ts, e.l, j, prec, d + 1, e, i + |Print(e)|);
  }

  lemma HasEnd(ts: seq<Token>, i: int, part: seq<Token>)
    requires Has(ts, i, part)
    ensures i + |part| <= |ts|
  {
  }

  lemma InfixCond(ts: seq<Token>, i: nat, e: Expr, d: nat, k: nat, j: int)
    requires e.Cond? && i < |ts| && ts[i] == TQuestion && ParsePrec(ts, i + 1, PREC_OR, d) == Some(Parsed(e.t, k))
    requires Tok(ts, k) == TColon && ParsePrec(ts, k + 1, PREC_OR, d) == Some(Parsed(e.f, j))
    ensures ParseInfix(ts, e.c, i, d) == Some(Parsed(e, j))
  {
    hide ParsePrec;
  }

  lemma StandingCond(e: Expr, prec: nat)
    requires e.Cond? && Standing(e, prec)
    ensures prec <= PREC_TERNARY < Swallows(e.c) && Standing(e.c, prec) && Standing(e.t, PREC_OR) &&
            Standing(e.f, PREC_OR)
    ensures Swallows(e) == Min(PREC_OR, Swallows(e.f)) && Swallows(e.t) > 0
    ensures Nesting(e) == Most(Nesting(e.c), Most(1 + Nesting(e.t), 1 + Nesting(e.f)))
    ensures Print(e) == Print(e.c) + ([TQuestion] + (Print(e.t) + ([TColon] + Print(e.f))))
  {
    hide Print, Standing, Swallows, Nesting;
    SwallowsPositive(e.t);
    CondOperands(e, prec);
    CondMeasure(e);
    CondPrinted(e);
  }

  lemma CondOperands(e: Expr, prec: nat)
    requires e.Cond? && Standing(e, prec)
    ensures prec <= PREC_TERNARY < Swallows(e.c) && Standing(e.c, prec) && Standing(e.t, PREC_OR) &&
            Standing(e.f, PREC_OR)
  {
    StandingWeaken(e.c, PREC_TERNARY, prec);
  }

  lemma CondMeasure(e: Expr)
    requires e.Cond?
    ensures Swallows(e) == Min(PREC_OR, Swallows(e.f)) &&
            Nesting(e) == Most(Nesting(e.c), Most(1 + Nesting(e.t), 1 + Nesting(e.f)))
  {
  }

  lemma CondPrinted(e: Expr)
    requires e.Cond?
    ensures Print(e) == Print(e.c) + ([TQuestion] + (Print(e.t) + ([TColon] + Print(e.f))))
  {
    hide Standing, Swallows, Nesting;
    FiveParts(Print(e.c), [TQuestion], Print(e.t), [TColon], Print(e.f));
  }

  lemma FiveParts<T>(a: seq<T>, b: seq<T>, c: seq<T>, d: seq<T>, e: seq<T>)
    ensures a + b + c + d + e == a + (b + (c + (d + e)))
  {
    assert a + b + c + d + e == a + b + c + (d + e);
    assert a + b + c + (d + e) == a + b + (c + (d + e));
  }

  /** Where the five parts of a printed ternary lie. */
  lemma CondParts(ts: seq<Token>, i: nat, e: Expr, j: int, k: int)
    requires e.Cond? && Has(ts, i, Print(e)) && j == i + |Print(e.c)| && k == j + 1 + |Print(e.t)|
    requires Print(e) == Print(e.c) + ([TQuestion] + (Print(e.t) + ([TColon] + Print(e.f))))
    ensures Has(ts, i, Print(e.c)) && Has(ts, j + 1, Print(e.t)) && Has(ts, k + 1, Print(e.f))
    ensures Tok(ts, j) == TQuestion && Tok(ts, k) == TColon && i <= j < k < i + |Print(e)| <= |ts|
    ensures k + 1 + |Print(e.f)| == i + |Print(e)|
  {
    hide Print, Has;
    HasEnd(ts, i, Print(e));
    HasSplit(ts, i, Print(e.c), [TQuestion] + (Print(e.t) + ([TColon] + Print(e.f))));
    HasSplit(ts, j, [TQuestion], Print(e.t) + ([TColon] + Print(e.f)));
    HasSplit(ts, j + 1, Print(e.t), [TColon] + Print(e.f));
    HasSplit(ts, k, [TColon], Print(e.f));
    HasFirst(ts, j, TQuestion);
    HasFirst(ts, k, TColon);
  }

  lemma {:induction false} ParseCond(ts: seq<Token>, i: nat, e: Expr, prec: nat, d: nat)
    requires e.Cond?
    requires Has(ts, i, Print(e)) && Standing(e, prec) && d + Nesting(e) <= MAX_PARSE_DEPTH
    requires var next := Tok(ts, i + |Print(e)|); !next.TEq? && TokPrec(next) < Swallows(e)
    ensures ParsePrec(ts, i, prec, d) == Finish(ts, ParseLoop(ts, e, i + |Print(e)|, prec, d + 1), prec)
    decreases e, 0
  {
    hide ParsePrec, ParseLoop, ParseInfix, Print, Has, Standing, Swallows, Nesting, OpPrec, Finish;
    StandingCond(e, prec);
    var j := i + |Print(e.c)|;
    var k := j + 1 + |Print(e.t)|;
    CondParts(ts, i, e, j, k);
    ParsePrinted(ts, i, e.c, prec, d);
    ParseOperand(ts, j + 1, e.t, PREC_OR, d + 1);
    ParseOperand(ts, k + 1, e.f, PREC_OR, d + 1);
    InfixCond(ts, j, e, d + 1, k, i + |Print(e)|);
    LoopStep(ts, e.c, j, prec, d + 1, e, i + |Print(e)|);
  }

  /** `a ? b : c ? d : e` is `(a ? b : c) ? d : e`: ternaries associate to the left. */
  lemma TernaryLeft(a: string, b: string, c: string, d: string, e: string)
    ensures var ts := [TIdent(a), TQuestion, TIdent(b), TColon, TIdent(c), TQuestion, TIdent(d), TColon, TIdent(e)];
            ParsePrec(ts, 0, PREC_ASSIGNMENT, 0) ==
                Some(Parsed(Cond(Cond(Var(a), Var(b), Var(c)), Var(d), Var(e)), |ts|))
  {
    hide ParsePrec;
    var ts := [TIdent(a), TQuestion, TIdent(b), TColon, TIdent(c), TQuestion, TIdent(d), TColon, TIdent(e)];
    var inner := Cond(Var(a), Var(b), Var(c));
    assert Print(inner) == [TIdent(a), TQuestion, TIdent(b), TColon, TIdent(c)];
    var outer := Cond(inner, Var(d), Var(e));
    assert Print(outer) == Print(inner) + [TQuestion] + [TIdent(d)] + [TColon] + [TIdent(e)] == ts;
    assert Standing(Var(a), PREC_TERNARY) && Standing(Var(b), PREC_OR) && Standing(Var(c), PREC_OR);
    assert Standing(inner, PREC_TERNARY);
    assert Swallows(inner) == PREC_OR && Nesting(inner) == 2;
    ParseOperand(ts, 0, outer, PREC_ASSIGNMENT, 0);
  }

  // ---------------------------------------------------------------- statements

  /** One declaration or statement, at nesting depth d. */
  function ParseDecl(ts: seq<Token>, i: nat, d: nat): (r: Option<Parsed<Stmt>>)
    requires i <= |ts|
    ensures r.Some? ==> i < r.value.at <= |ts|
    decreases |ts| - i, 4
  {
    if d >= MAX_PARSE_DEPTH then None
    else if Tok(ts, i).TVar? then ParseVar(ts, i + 1, d + 1)
    else ParseStatement(ts, i, d + 1)
  }

  function ParseVar(ts: seq<Token>, i: nat, d: nat): (r: Option<Parsed<Stmt>>)
    ensures r.Some? ==> i < r.value.at <= |ts|
  {
    if !Tok(ts, i).TIdent? then None
    else if Tok(ts, i + 1).TEq? then
      match ParsePrec(ts, i + 2, PREC_ASSIGNMENT, d)
      case None => None
      case Some(e) => Closed(ts, VarDecl(ts[i].name, Some(e.tree)), e.at, TSemi)
    else Closed(ts, VarDecl(ts[i].name, None), i + 1, TSemi)
  }

  /** The tree, if the token t stands behind it. */
  function Closed<T>(ts: seq<Token>, tree: T, at: nat, t: Token): (r: Option<Parsed<T>>)
    requires t != TEof
    ensures r.Some? ==> r.value.at == at + 1 <= |ts|
  {
    if Tok(ts, at) == t then Some(Parsed(tree, at + 1)) else None
  }

  function ParseStatement(ts: seq<Token>, i: nat, d: nat): (r: Option<Parsed<Stmt>>)
    requires i <= |ts|
    ensures r.Some? ==> i < r.value.at <= |ts|
    decreases |ts| - i, 3
  {
    if d >= MAX_PARSE_DEPTH then None
    else if Tok(ts, i).TIf? then ParseIf(ts, i + 1, d + 1)
    else if Tok(ts, i).TWhile? then ParseWhile(ts, i + 1, d + 1)
    else if Tok(ts, i).TBreak? then Closed(ts, Break, i + 1, TSemi)
    else if Tok(ts, i).TContinue? then Closed(ts, Continue, i + 1, TSemi)
    else if Tok(ts, i).TPrint? then
      match ParseCondition(ts, i + 1, d + 1)
      case None => None
      case Some(e) => Closed(ts, PrintStmt(e.tree), e.at, TSemi)
    else if Tok(ts, i).TLBrace? then
      match ParseBlock(ts, i + 1, d + 1)
      case None => None
      case Some(b) => Some(Parsed(Block(b.tree), b.at))
    else
      match ParsePrec(ts, i, PREC_ASSIGNMENT, d + 1)
      case None => None
      case Some(e) => Closed(ts, ExprStmt(e.tree), e.at, TSemi)
  }

  /** An expression in parentheses. */
  function ParseCondition(ts: seq<Token>, i: nat, d: nat): (r: Option<Parsed<Expr>>)
    ensures r.Some? ==> i < r.value.at <= |ts|
  {
    if !Tok(ts, i).TLParen? then None
    else
      match ParsePrec(ts, i + 1, PREC_ASSIGNMENT, d)
      case None => None
      case Some(e) => Closed(ts, e.tree, e.at, TRParen)
  }

  function ParseIf(ts: seq<Token>, i: nat, d: nat): (r: Option<Parsed<Stmt>>)
    requires i <= |ts|
    ensures r.Some? ==> i < r.value.at <= |ts|
    decreases |ts| - i, 2
  {
    match ParseCondition(ts, i, d)
    case None => None
    case Some(c) =>
      match ParseBody(ts, c.at, d)
      case None => None
      case Some(t) =>
        match ParseTail(ts, t.at, d)
        case None => None
        case Some(e) => Some(Parsed(If(c.tree, t.tree, e.tree), e.at))
  }

  /** What follows the body of an `if` or `elif`. */
  function ParseTail(ts: seq<Token>, i: nat, d: nat): (r: Option<Parsed<Stmt>>)
    requires i <= |ts|
    ensures r.Some? ==> i <= r.value.at <= |ts|
    decreases |ts| - i, 3
  {
    if Tok(ts, i).TElif? then ParseIf(ts, i + 1, d)
    else if Tok(ts, i).TElse? then ParseBody(ts, i + 1, d)
    else Some(Parsed(Skip, i))
  }

  function ParseWhile(ts: seq<Token>, i: nat, d: nat): (r: Option<Parsed<Stmt>>)
    requires i <= |ts|
    ensures r.Some? ==> i < r.value.at <= |ts|
    decreases |ts| - i, 2
  {
    match ParseCondition(ts, i, d)
    case None => None
    case Some(c) =>
      match ParseBody(ts, c.at, d)
      case None => None
      case Some(b) => Some(Parsed(While(c.tree, b.tree), b.at))
  }

  /** A block, or one declaration standing for a block. */
  function ParseBody(ts: seq<Token>, i: nat, d: nat): (r: Option<Parsed<Stmt>>)
    requires i <= |ts|
    ensures r.Some? ==> i < r.value.at <= |ts|
    decreases |ts| - i, 5
  {
    if Tok(ts, i).TLBrace? then
      match ParseBlock(ts, i + 1, d)
      case None => None
      case Some(b) => Some(Parsed(Block(b.tree), b.at))
    else
      match ParseDecl(ts, i, d)
      case None => None
      case Some(s) => Some(Parsed(Block([s.tree]), s.at))
  }

  /** Declarations up to a closing brace. */
  function ParseBlock(ts: seq<Token>, i: nat, d: nat): (r: Option<Parsed<seq<Stmt>>>)
    requires i <= |ts|
    ensures r.Some? ==> i < r.value.at <= |ts|
    decreases |ts| - i, 5
  {
    if Tok(ts, i).TRBrace? then Some(Parsed([], i + 1))
    else if Tok(ts, i).TEof? then None
    else
      match ParseDecl(ts, i, d)
      case None => None
      case Some(s) =>
        match ParseBlock(ts, s.at, d)
        case None => None
        case Some(b) => Some(Parsed([s.tree] + b.tree, b.at))
  }

  /** A whole script. */
  function ParseScript(ts: seq<Token>, i: nat): (r: Option<seq<Stmt>>)
    requires i <= |ts|
    decreases |ts| - i
  {
    if Tok(ts, i).TEof? then Some([])
    else
      match ParseDecl(ts, i, 0)
      case None => None
      case Some(s) =>
        match ParseScript(ts, s.at)
        case None => None
        case Some(rest) => Some([s.tree] + rest)
  }
}
