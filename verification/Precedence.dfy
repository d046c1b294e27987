/** How tightly the operators bind, stated about the parser and without its precedence table. */
module Precedence {
  import opened Values
  import Machine
  import opened Codegen
  import opened Grammar

  /** The binary operators in classes, the loosest first. */
  const CLASSES: seq<set<Token>> := [
    {TOr}, {TAnd}, {TOp(BBitOr)}, {TOp(BBitXor)}, {TOp(BBitAnd)}, {TOp(BEq), TOp(BNe)},
    {TOp(BLt), TOp(BLe), TOp(BGt), TOp(BGe)}, {TOp(BShl), TOp(BShr)}, {TOp(BAdd), TOp(BSub)},
    {TOp(BMul), TOp(BDiv), TOp(BMod), TOp(BIDiv)}, {TStarStar}]

  predicate Infix(t: Token) { t.TOp? || t.TStarStar? || t.TAnd? || t.TOr? }

  /** The class of an operator. */
  predicate In(t: Token, i: nat) { i < |CLASSES| && t in CLASSES[i] }

  /** `and`, `or` and `**` associate to the right, all others to the left. */
  predicate RightOf(t: Token) { t.TAnd? || t.TOr? || t.TStarStar? }

  function Joined(t: Token, l: Expr, r: Expr): Expr
    requires Infix(t)
  {
    match t
    case TOp(op) => Bin(op, l, r)
    case TStarStar => PowE(l, r)
    case TAnd => And(l, r)
    case TOr => Or(l, r)
  }

  /** A literal, a name, or anything in parentheses. */
  predicate Operand(e: Expr) {
    match e
    case Lit(n) => -TWO63 <= n < TWO63
    case StrLit(_) => true
    case True => true
    case False => true
    case NilLit => true
    case Var(_) => true
    case Group(_) => Standing(e, PREC_PRIMARY) && Nesting(e) < MAX_PARSE_DEPTH - 2
    case _ => false
  }

  lemma OperandStands(e: Expr, prec: nat)
    requires Operand(e) && prec <= PREC_PRIMARY
    ensures Standing(e, prec) && Swallows(e) == PREC_PRIMARY + 1 && Nesting(e) < MAX_PARSE_DEPTH - 2
  {
  }

  /** Every operator is in one class. */
  lemma OneClass(t: Token)
    requires Infix(t)
    ensures exists i :: In(t, i) && forall j :: In(t, j) ==> j == i
  {
    var i := if t.TOr? then 0 else if t.TAnd? then 1 else if t.TStarStar? then 10 else ClassOf(t.op);
    assert In(t, i);
    forall j: nat | In(t, j) ensures j == i {}
  }

  function ClassOf(op: BinOp): nat {
    match op
    case BBitOr => 2
    case BBitXor => 3
    case BBitAnd => 4
    case BEq | BNe => 5
    case BLt | BLe | BGt | BGe => 6
    case BShl | BShr => 7
    case BAdd | BSub => 8
    case BMul | BDiv | BMod | BIDiv => 9
  }

  /** The table of the parser has the order of the classes. */
  lemma TableOrder(t: Token, i: nat)
    requires In(t, i)
    ensures Infix(t) && TokPrec(t) == i + PREC_OR && (RightOf(t) <==> i in {0, 1, 10})
  {
    var ops := CLASSES[i];
    assert i <= 10;
    if i >= 6 {
      assert i == 6 || i == 7 || i == 8 || i == 9 || i == 10;
    } else {
      assert i == 0 || i == 1 || i == 2 || i == 3 || i == 4 || i == 5;
    }
  }

  lemma JoinedShape(t: Token, l: Expr, r: Expr)
    requires Infix(t)
    ensures var e := Joined(t, l, r);
            TwoSided(e) && e.l == l && e.r == r && OpOf(e) == t
  {
    match t
    case TOp(_) =>
    case TStarStar =>
    case TAnd =>
    case TOr =>
  }

  lemma JoinedStanding(t: Token, l: Expr, r: Expr, prec: nat)
    requires Infix(t) && prec <= TokPrec(t)
    requires Standing(l, TokPrec(t)) && TokPrec(t) < Swallows(l) && Standing(r, RightPrec(t))
    ensures Standing(Joined(t, l, r), prec)
  {
    hide Print, Swallows, Nesting;
  }

  /** Two operands that may stand beside an operator, joined by it. */
  lemma JoinedStands(t: Token, l: Expr, r: Expr, prec: nat)
    requires Infix(t) && prec <= TokPrec(t)
    requires Standing(l, TokPrec(t)) && TokPrec(t) < Swallows(l) && Standing(r, RightPrec(t))
    ensures var e := Joined(t, l, r);
            Standing(e, prec) && Print(e) == Print(l) + [t] + Print(r) &&
            Swallows(e) == Min(RightPrec(t), Swallows(r)) && Nesting(e) == Most(Nesting(l), 1 + Nesting(r))
  {
    hide Print, Swallows, Nesting, Standing, Joined, OpOf;
    JoinedShape(t, l, r);
    JoinedStanding(t, l, r, prec);
    SidesMeasure(Joined(t, l, r));
  }

  lemma UnStands(u: UnOp, e: Expr, prec: nat)
    requires Standing(e, PREC_POWER) && prec <= PREC_PRIMARY
    ensures Standing(Un(u, e), prec) && Print(Un(u, e)) == [UnToken(u)] + Print(e)
    ensures Swallows(Un(u, e)) == Min(PREC_POWER, Swallows(e)) && Nesting(Un(u, e)) == 1 + Nesting(e)
  {
  }

  /** A whole sentence that prints as its tree is parsed to that tree. */
  lemma ParseWhole(ts: seq<Token>, e: Expr)
    requires ts == Print(e) && Standing(e, PREC_ASSIGNMENT) && Nesting(e) <= MAX_PARSE_DEPTH
    ensures ParsePrec(ts, 0, PREC_ASSIGNMENT, 0) == Machine.Some(Parsed(e, |ts|))
  {
    hide ParsePrec, Print, Standing, Nesting;
    SwallowsPositive(e);
    ParseOperand(ts, 0, e, PREC_ASSIGNMENT, 0);
  }

  lemma Regroup<T>(a: seq<T>, b: seq<T>, c: seq<T>)
    ensures a + (b + c) == a + b + c
  {
  }

  /** The second operator takes the middle one of three operands. */
  lemma ChainRight(a: Expr, b: Expr, c: Expr, p: Token, q: Token)
    requires Infix(p) && Infix(q) && PREC_ASSIGNMENT <= TokPrec(p)
    requires Standing(a, TokPrec(p)) && TokPrec(p) < Swallows(a) && Standing(c, RightPrec(q))
    requires Standing(b, TokPrec(q)) && TokPrec(q) < Swallows(b) && RightPrec(p) <= TokPrec(q)
    requires Nesting(a) < MAX_PARSE_DEPTH - 1 && Nesting(b) < MAX_PARSE_DEPTH - 1 && Nesting(c) < MAX_PARSE_DEPTH - 1
    ensures var ts := Print(a) + [p] + Print(b) + [q] + Print(c);
            ParsePrec(ts, 0, PREC_ASSIGNMENT, 0) == Machine.Some(Parsed(Joined(p, a, Joined(q, b, c)), |ts|))
  {
    hide Print, Standing, Swallows, Nesting, Joined, ParsePrec, TokPrec, RightPrec, Infix;
    var ts := Print(a) + [p] + Print(b) + [q] + Print(c);
    var r := Joined(q, b, c);
    JoinedStands(q, b, c, RightPrec(p));
    JoinedStands(p, a, r, PREC_ASSIGNMENT);
    Regroup(Print(a) + [p], Print(b) + [q], Print(c));
    Regroup(Print(a) + [p], Print(b), [q]);
    ParseWhole(ts, Joined(p, a, r));
  }

  /** The first operator takes it. */
  lemma ChainLeft(a: Expr, b: Expr, c: Expr, p: Token, q: Token)
    requires Infix(p) && Infix(q) && PREC_ASSIGNMENT <= TokPrec(q)
    requires Standing(a, TokPrec(p)) && TokPrec(p) < Swallows(a) && Standing(c, RightPrec(q))
    requires Standing(b, RightPrec(p)) && TokPrec(q) < Swallows(b) && TokPrec(q) <= TokPrec(p) &&
             TokPrec(q) < RightPrec(p)
    requires Nesting(a) < MAX_PARSE_DEPTH - 1 && Nesting(b) < MAX_PARSE_DEPTH - 1 && Nesting(c) < MAX_PARSE_DEPTH - 1
    ensures var ts := Print(a) + [p] + Print(b) + [q] + Print(c);
            ParsePrec(ts, 0, PREC_ASSIGNMENT, 0) == Machine.Some(Parsed(Joined(q, Joined(p, a, b), c), |ts|))
  {
    hide Print, Standing, Swallows, Nesting, Joined, ParsePrec, TokPrec, RightPrec, Infix;
    var l := Joined(p, a, b);
    JoinedStands(p, a, b, TokPrec(q));
    JoinedStands(q, l, c, PREC_ASSIGNMENT);
    ParseWhole(Print(l) + [q] + Print(c), Joined(q, l, c));
  }

  /** `a p b q c`: q takes b when its class is the tighter one, or the same and associating to the right. */
  lemma Climbs(a: Expr, b: Expr, c: Expr, p: Token, q: Token, i: nat, j: nat)
    requires Operand(a) && Operand(b) && Operand(c) && In(p, i) && In(q, j)
    ensures Infix(p) && Infix(q)
    ensures var ts := Print(a) + [p] + Print(b) + [q] + Print(c);
            ParsePrec(ts, 0, PREC_ASSIGNMENT, 0) ==
            Machine.Some(Parsed(if i < j || (i == j && RightOf(p)) then Joined(p, a, Joined(q, b, c))
                                else Joined(q, Joined(p, a, b), c), |ts|))
  {
    hide Print, Standing, Swallows, Nesting, Joined, Operand, ParsePrec;
    TableOrder(p, i);
    TableOrder(q, j);
    OperandStands(a, TokPrec(p));
    OperandStands(b, RightPrec(p));
    OperandStands(b, TokPrec(q));
    OperandStands(c, RightPrec(q));
    if i < j || (i == j && RightOf(p)) {
      ChainRight(a, b, c, p, q);
    } else {
      ChainLeft(a, b, c, p, q);
    }
  }

  /** A sign or a negation takes its operand alone, but reaches over a power. */
  lemma UnaryClimbs(u: UnOp, a: Expr, b: Expr, p: Token)
    requires Operand(a) && Operand(b) && Infix(p)
    ensures var ts := [UnToken(u)] + Print(a) + [p] + Print(b);
            ParsePrec(ts, 0, PREC_ASSIGNMENT, 0) ==
            Machine.Some(Parsed(if p == TStarStar then Un(u, PowE(a, b)) else Joined(p, Un(u, a), b), |ts|))
  {
    hide Print, Standing, Swallows, Nesting, Operand, ParsePrec, Joined;
    OneClass(p);
    var i :| In(p, i);
    TableOrder(p, i);
    OperandStands(a, TokPrec(p));
    OperandStands(a, PREC_POWER);
    OperandStands(b, RightPrec(p));
    var ts := [UnToken(u)] + Print(a) + [p] + Print(b);
    if p == TStarStar {
      JoinedStands(p, a, b, PREC_POWER);
      JoinedPower(a, b);
      UnStands(u, PowE(a, b), PREC_ASSIGNMENT);
      Regroup([UnToken(u)], Print(a) + [p], Print(b));
      Regroup([UnToken(u)], Print(a), [p]);
      ParseWhole(ts, Un(u, PowE(a, b)));
    } else {
      UnStands(u, a, TokPrec(p));
      JoinedStands(p, Un(u, a), b, PREC_ASSIGNMENT);
      ParseWhole(ts, Joined(p, Un(u, a), b));
    }
  }

  lemma JoinedPower(a: Expr, b: Expr)
    ensures Joined(TStarStar, a, b) == PowE(a, b)
  {
  }

  /** On the right of an operator a sign takes its operand, and what follows it is left to the operator. */
  lemma UnaryRight(u: UnOp, a: Expr, b: Expr, c: Expr, p: Token, q: Token, i: nat, j: nat)
    requires Operand(a) && Operand(b) && Operand(c) && In(p, i) && In(q, j) && q != TStarStar
    ensures Infix(p) && Infix(q)
    ensures var ts := Print(a) + [p] + ([UnToken(u)] + Print(b)) + [q] + Print(c);
            ParsePrec(ts, 0, PREC_ASSIGNMENT, 0) ==
            Machine.Some(Parsed(if i < j || (i == j && RightOf(p)) then Joined(p, a, Joined(q, Un(u, b), c))
                                else Joined(q, Joined(p, a, Un(u, b)), c), |ts|))
  {
    hide Print, Standing, Swallows, Nesting, Operand, ParsePrec, Joined;
    TableOrder(p, i);
    TableOrder(q, j);
    PowerClass(q, j);
    OperandStands(a, TokPrec(p));
    OperandStands(b, PREC_POWER);
    OperandStands(c, RightPrec(q));
    UnStands(u, b, RightPrec(p));
    UnStands(u, b, TokPrec(q));
    if i < j || (i == j && RightOf(p)) {
      ChainRight(a, Un(u, b), c, p, q);
    } else {
      ChainLeft(a, Un(u, b), c, p, q);
    }
  }

  lemma PowerClass(t: Token, i: nat)
    requires In(t, i)
    ensures i == 10 ==> t == TStarStar
  {
  }

  /** Every binary operator binds tighter than `? :` on both sides of it and between. */
  lemma TernaryClimbs(p: Token, q: Token, r: Token, a: Expr, b: Expr, c: Expr, d: Expr, e: Expr, f: Expr)
    requires Operand(a) && Operand(b) && Operand(c) && Operand(d) && Operand(e) && Operand(f)
    requires Infix(p) && Infix(q) && Infix(r)
    ensures var ts := (Print(a) + [p] + Print(b)) + [TQuestion] + (Print(c) + [q] + Print(d)) + [TColon] +
                      (Print(e) + [r] + Print(f));
            ParsePrec(ts, 0, PREC_ASSIGNMENT, 0) ==
            Machine.Some(Parsed(Cond(Joined(p, a, b), Joined(q, c, d), Joined(r, e, f)), |ts|))
  {
    hide Print, Standing, Swallows, Nesting, Operand, ParsePrec, Joined;
    SideStands(p, a, b, PREC_TERNARY);
    SideStands(q, c, d, PREC_OR);
    SideStands(r, e, f, PREC_OR);
    WholeCond(Joined(p, a, b), Joined(q, c, d), Joined(r, e, f));
  }

  lemma WholeCond(c: Expr, t: Expr, f: Expr)
    requires Standing(c, PREC_TERNARY) && PREC_TERNARY < Swallows(c) && Standing(t, PREC_OR) && Standing(f, PREC_OR)
    requires Nesting(c) < MAX_PARSE_DEPTH && Nesting(t) < MAX_PARSE_DEPTH && Nesting(f) < MAX_PARSE_DEPTH
    ensures var ts := Print(c) + [TQuestion] + Print(t) + [TColon] + Print(f);
            ParsePrec(ts, 0, PREC_ASSIGNMENT, 0) == Machine.Some(Parsed(Cond(c, t, f), |ts|))
  {
    hide Print, Standing, Swallows, Nesting, ParsePrec;
    CondStands(c, t, f);
    ParseWhole(Print(Cond(c, t, f)), Cond(c, t, f));
  }

  lemma CondStands(c: Expr, t: Expr, f: Expr)
    requires Standing(c, PREC_TERNARY) && PREC_TERNARY < Swallows(c) && Standing(t, PREC_OR) && Standing(f, PREC_OR)
    ensures var e := Cond(c, t, f);
            Standing(e, PREC_ASSIGNMENT) && Print(e) == Print(c) + [TQuestion] + Print(t) + [TColon] + Print(f) &&
            Nesting(e) == Most(Nesting(c), Most(1 + Nesting(t), 1 + Nesting(f)))
  {
  }

  /** An assignment takes everything behind it. */
  lemma AssignClimbs(x: string, p: Token, a: Expr, b: Expr)
    requires Operand(a) && Operand(b) && Infix(p)
    ensures var ts := [TIdent(x), TEq] + (Print(a) + [p] + Print(b));
            ParsePrec(ts, 0, PREC_ASSIGNMENT, 0) == Machine.Some(Parsed(Assign(x, Joined(p, a, b)), |ts|))
  {
    hide Swallows, Operand, ParsePrec, Joined;
    SideStands(p, a, b, PREC_ASSIGNMENT);
    ParseWhole(Print(Assign(x, Joined(p, a, b))), Assign(x, Joined(p, a, b)));
  }

  lemma SideStands(p: Token, a: Expr, b: Expr, prec: nat)
    requires Operand(a) && Operand(b) && Infix(p) && prec <= PREC_OR
    ensures var e := Joined(p, a, b);
            Standing(e, prec) && Print(e) == Print(a) + [p] + Print(b) && Swallows(e) > PREC_TERNARY &&
            Nesting(e) < MAX_PARSE_DEPTH
  {
    hide Print, Standing, Swallows, Nesting, Operand, Joined;
    OneClass(p);
    var i :| In(p, i);
    TableOrder(p, i);
    OperandStands(a, TokPrec(p));
    OperandStands(b, RightPrec(p));
    JoinedStands(p, a, b, prec);
  }

  /** An integer literal: decimal ones above 2^63 are refused and 2^63 itself is the least integer; hexadecimal
      ones are bit patterns, those too large for 64 bits all ones. */
  lemma LiteralReads(n: nat, hex: bool)
    ensures var r := ParsePrec([TInt(n, hex)], 0, PREC_ASSIGNMENT, 0);
            if n < 0x8000_0000_0000_0000 then r == Machine.Some(Parsed(Lit(n), 1))
            else if !hex then
              r == if n == 0x8000_0000_0000_0000 then Machine.Some(Parsed(Lit(-0x8000_0000_0000_0000), 1))
                   else Machine.None
            else
              r == Machine.Some(Parsed(Lit(if n < 0x1_0000_0000_0000_0000 then n - 0x1_0000_0000_0000_0000 else -1), 1))
  {
    var ts := [TInt(n, hex)];
    var l := LiteralOf(ts[0]);
    if l.Some? { assert ParseLoop(ts, Lit(l.value), 1, PREC_ASSIGNMENT, 1) == Machine.Some(Parsed(Lit(l.value), 1)); }
  }
}
