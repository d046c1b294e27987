/** Run-time values of zen and the primitive operations the dispatch loop applies to them
    (value.h and the arithmetic cases of vm_dispatch.cpp). Class instances, whose operators can
    be overloaded, are not part of the model. */
module Values {

  datatype ArithOp =
    | Add | Sub | Mul | Div | Mod | IDiv | Pow
    | BAnd | BOr | BXor | Shl | Shr
    | Eq | Lt | Le

  datatype UnOp = Neg | Not | BNot

  /** A float is carried as its 64-bit pattern, with IEEE arithmetic a parameter; a string is a reference
      to an object of the heap. */
  datatype Value = Nil | Bool(b: bool) | Int(i: int) | Flt(bits: int) | Str(id: nat)

  /** A string object. An interned one is shared and never written to; capacity is the room it was
      allocated with, 0 when there is none to spare. */
  datatype StringObj = StringObj(chars: string, interned: bool, capacity: int)

  type Heap = seq<StringObj>

  /** A computed value and the heap after computing it. */
  datatype Res = Res(v: Value, h: Heap)

  /** What the numeric operators see and produce. */
  type Plain = v: Value | !v.Str? witness Nil

  /** The operations the C++ compiler and C library supply. Everything the compiler's peepholes
      rely on (truthiness, integer wrap-around, string coercion) is defined below in terms of
      these, and nothing is assumed about them except where a lemma says so. */
  datatype Prims = Prims(
    ofInt: int -> int,
    fadd: (int, int) -> int,
    fsub: (int, int) -> int,
    fless: (int, int) -> bool,
    fleq: (int, int) -> bool,
    feq: (int, int) -> bool,
    showInt: int -> string,
    showFlt: int -> string,
    strcmp: (string, string) -> int,
    other: (ArithOp, Plain, Plain) -> Plain,
    neg: Plain -> Plain,
    bnot: Plain -> Plain)

  predicate Truthy(v: Value) {
    match v
    case Nil => false
    case Bool(b) => b
    case _ => true
  }

  /** Two's complement wrap-around of int64 arithmetic. */
  function Wrap64(n: int): (r: int)
    ensures -0x8000_0000_0000_0000 <= r < 0x8000_0000_0000_0000
    ensures (r - n) % 0x1_0000_0000_0000_0000 == 0
  {
    (n + 0x8000_0000_0000_0000) % 0x1_0000_0000_0000_0000 - 0x8000_0000_0000_0000
  }

  function ToNumber(p: Prims, v: Value): int {
    match v
    case Int(i) => p.ofInt(i)
    case Flt(f) => f
    case _ => p.ofInt(0)
  }

  // ---------------------------------------------------------------- strings

  const SHORT := 128

  /** Twice what is needed, rounded up to a multiple of 8. */
  function Roomy(needed: nat): (r: nat)
    ensures r >= 2 * needed && r % 8 == 0 && r < 2 * needed + 8
  {
    (needed * 2 + 7) / 8 * 8
  }

  /** Appending `more` characters to a string of this kind writes into the string itself. */
  predicate Extends(interned: bool, len: nat, capacity: int, more: nat) {
    !interned && len > 0 && more > 0 && capacity >= len + more + 1
  }

  /** A reference into nothing reads as an empty interned string. */
  function ObjAt(h: Heap, id: nat): StringObj {
    if id < |h| then h[id] else StringObj("", true, 0)
  }

  function Chars(h: Heap, id: nat): string { ObjAt(h, id).chars }

  function NewString(h: Heap, chars: string, interned: bool, capacity: int): Res {
    Res(Str(|h|), h + [StringObj(chars, interned, capacity)])
  }

  /** new_string_concat: one of the operands itself when the other is empty; else a new string, interned
      when short and with room to grow when long. Which of several equal interned objects is used makes
      no difference, as they are never written to and compare by their characters. */
  function Concat(h: Heap, x: nat, y: nat): Res {
    var s := Chars(h, x) + Chars(h, y);
    if Chars(h, x) == "" then Res(Str(y), h)
    else if Chars(h, y) == "" then Res(Str(x), h)
    else if |s| <= SHORT then NewString(h, s, true, 0)
    else NewString(h, s, false, Roomy(|s| + 1))
  }

  /** string_append_inplace. */
  function AppendStrings(h: Heap, x: nat, y: nat): Res {
    var a, b := ObjAt(h, x), ObjAt(h, y);
    var s := a.chars + b.chars;
    if a.interned || a.chars == "" then Concat(h, x, y)
    else if b.chars == "" then Res(Str(x), h)
    else if a.capacity >= |s| + 1 then Res(Str(x), h[x := a.(chars := s)])
    else NewString(h, s, false, Roomy(|s| + 1))
  }

  function Show(p: Prims, h: Heap, v: Value): string {
    match v
    case Nil => "nil"
    case Bool(b) => if b then "true" else "false"
    case Int(i) => p.showInt(i)
    case Flt(f) => p.showFlt(f)
    case Str(id) => Chars(h, id)
  }

  /** An entry of a function's constant pool. */
  datatype Const = KInt(n: int) | KStr(s: string)

  /** Loading a constant. A string constant is an interned object of its own. */
  function Loaded(h: Heap, c: Const): Res {
    match c
    case KInt(n) => Res(Int(n), h)
    case KStr(s) => NewString(h, s, true, 0)
  }

  // ---------------------------------------------------------------- operators

  function AddValues(p: Prims, h: Heap, x: Value, y: Value): Res {
    if x.Int? && y.Int? then Res(Int(Wrap64(x.i + y.i)), h)
    else if x.Str? && y.Str? then AppendStrings(h, x.id, y.id)
    else if x.Str? || y.Str? then NewString(h, Show(p, h, x) + Show(p, h, y), true, 0)
    else Res(Flt(p.fadd(ToNumber(p, x), ToNumber(p, y))), h)
  }

  function SubValues(p: Prims, x: Value, y: Value): Value {
    if x.Int? && y.Int? then Int(Wrap64(x.i - y.i))
    else Flt(p.fsub(ToNumber(p, x), ToNumber(p, y)))
  }

  predicate EqValues(p: Prims, h: Heap, x: Value, y: Value) {
    match (x, y)
    case (Nil, Nil) => true
    case (Bool(a), Bool(b)) => a == b
    case (Int(a), Int(b)) => a == b
    case (Str(a), Str(b)) => Chars(h, a) == Chars(h, b)
    case (Flt(a), Flt(b)) => p.feq(a, b)
    case (Int(a), Flt(b)) => p.feq(p.ofInt(a), b)
    case (Flt(a), Int(b)) => p.feq(a, p.ofInt(b))
    case _ => false
  }

  predicate LtValues(p: Prims, h: Heap, x: Value, y: Value) {
    if x.Str? && y.Str? then p.strcmp(Chars(h, x.id), Chars(h, y.id)) < 0
    else NumericLt(p, x, y)
  }

  predicate LeValues(p: Prims, h: Heap, x: Value, y: Value) {
    if x.Str? && y.Str? then p.strcmp(Chars(h, x.id), Chars(h, y.id)) <= 0
    else NumericLe(p, x, y)
  }

  /** What OP_LTJMPIFNOT computes: it has no string case. */
  predicate NumericLt(p: Prims, x: Value, y: Value) {
    if x.Int? && y.Int? then x.i < y.i else p.fless(ToNumber(p, x), ToNumber(p, y))
  }

  /** What OP_LEJMPIFNOT computes: it has no string case. */
  predicate NumericLe(p: Prims, x: Value, y: Value) {
    if x.Int? && y.Int? then x.i <= y.i else p.fleq(ToNumber(p, x), ToNumber(p, y))
  }

  /** To the numeric operators a string is the zero that nil is. */
  function Blur(v: Value): Plain { if v.Str? then Nil else v }

  /** Only the addition of two strings can write to the heap. */
  function ArithValues(p: Prims, h: Heap, op: ArithOp, x: Value, y: Value): Res {
    match op
    case Add => AddValues(p, h, x, y)
    case Sub => Res(SubValues(p, x, y), h)
    case Eq => Res(Bool(EqValues(p, h, x, y)), h)
    case Lt => Res(Bool(LtValues(p, h, x, y)), h)
    case Le => Res(Bool(LeValues(p, h, x, y)), h)
    case _ => Res(p.other(op, Blur(x), Blur(y)), h)
  }

  function UnaryValue(p: Prims, op: UnOp, x: Value): Value {
    match op
    case Not => Bool(!Truthy(x))
    case Neg => p.neg(Blur(x))
    case BNot => p.bnot(Blur(x))
  }

  /** OP_ADDI: its own case analysis, an integer, a string and a fall-back case. */
  function AddImmediate(p: Prims, h: Heap, x: Value, imm: int): Res {
    if x.Int? then Res(Int(Wrap64(x.i + imm)), h)
    else if x.Str? then NewString(h, Chars(h, x.id) + p.showInt(imm), true, 0)
    else Res(Flt(p.fadd(ToNumber(p, x), p.ofInt(imm))), h)
  }

  /** OP_SUBI. */
  function SubImmediate(p: Prims, x: Value, imm: int): Value {
    if x.Int? then Int(Wrap64(x.i - imm))
    else Flt(p.fsub(ToNumber(p, x), p.ofInt(imm)))
  }

  /** The immediate forms agree with the register forms on every left operand. */
  lemma ImmediateExact(p: Prims, h: Heap, x: Value, imm: int)
    ensures AddImmediate(p, h, x, imm) == ArithValues(p, h, Add, x, Int(imm))
    ensures Res(SubImmediate(p, x, imm), h) == ArithValues(p, h, Sub, x, Int(imm))
  {
  }

  // ---------------------------------------------------------------- laws

  const TWO63 := 0x8000_0000_0000_0000
  const TWO64 := 0x1_0000_0000_0000_0000

  /** Integers compare as integers, and add and subtract modulo 2^64 into the signed range. */
  lemma IntegerLaws(p: Prims, h: Heap, a: int, b: int, r: int)
    requires -TWO63 <= r < TWO63
    ensures ArithValues(p, h, Lt, Int(a), Int(b)) == Res(Bool(a < b), h)
    ensures ArithValues(p, h, Le, Int(a), Int(b)) == Res(Bool(a <= b), h)
    ensures ArithValues(p, h, Eq, Int(a), Int(b)) == Res(Bool(a == b), h)
    ensures ArithValues(p, h, Add, Int(a), Int(b)) == Res(Int(r), h) <==> (a + b - r) % TWO64 == 0
    ensures ArithValues(p, h, Sub, Int(a), Int(b)) == Res(Int(r), h) <==> (a - b - r) % TWO64 == 0
  {
    WrapIs(a + b, r);
    WrapIs(a - b, r);
    hide Wrap64;
  }

  /** Within the signed range there is one number for each residue. */
  lemma WrapIs(n: int, r: int)
    requires -TWO63 <= r < TWO63
    ensures Wrap64(n) == r <==> (n - r) % TWO64 == 0
  {
    var w := Wrap64(n);
    assert (n - w) % TWO64 == 0;
    if (n - r) % TWO64 == 0 {
      var i, j := (n - w) / TWO64, (n - r) / TWO64;
      assert w - r == (j - i) * TWO64;
      assert j - i == 0;
    }
  }

  /** With a float on one side, or anything that is no number, the floats decide; what is no number is 0. */
  lemma FloatLaws(p: Prims, h: Heap, x: Value, y: Value)
    requires !(x.Int? && y.Int?)
    ensures !(x.Str? && y.Str?) ==>
              forall a, b :: FloatOf(p, x, a) && FloatOf(p, y, b) ==>
                ArithValues(p, h, Lt, x, y) == Res(Bool(p.fless(a, b)), h) &&
                ArithValues(p, h, Le, x, y) == Res(Bool(p.fleq(a, b)), h)
    ensures forall a, b :: FloatOf(p, x, a) && FloatOf(p, y, b) ==>
              ArithValues(p, h, Sub, x, y) == Res(Flt(p.fsub(a, b)), h)
    ensures !x.Str? && !y.Str? ==>
              forall a, b :: FloatOf(p, x, a) && FloatOf(p, y, b) ==>
                ArithValues(p, h, Add, x, y) == Res(Flt(p.fadd(a, b)), h)
  {
  }

  /** The float a value counts as. */
  ghost predicate FloatOf(p: Prims, x: Value, f: int) {
    (x.Int? && f == p.ofInt(x.i)) || (x.Flt? && f == x.bits) || (!x.Int? && !x.Flt? && f == p.ofInt(0))
  }

  /** Strings compare by strcmp, equal strings being those with the same characters. */
  lemma StringLaws(p: Prims, h: Heap, x: nat, y: nat)
    ensures ArithValues(p, h, Lt, Str(x), Str(y)) == Res(Bool(p.strcmp(Chars(h, x), Chars(h, y)) < 0), h)
    ensures ArithValues(p, h, Le, Str(x), Str(y)) == Res(Bool(p.strcmp(Chars(h, x), Chars(h, y)) <= 0), h)
    ensures ArithValues(p, h, Eq, Str(x), Str(y)) == Res(Bool(Chars(h, x) == Chars(h, y)), h)
  {
  }

  /** What equality makes of two values: nil is nil, truth values and integers are what they are, floats compare
      as floats, an integer among them too, and nothing else is equal. */
  lemma EqualityLaws(p: Prims, h: Heap, x: Value, y: Value)
    ensures EqValues(p, h, x, y) <==>
            (x == y && !x.Flt?) || (x.Str? && y.Str? && Chars(h, x.id) == Chars(h, y.id)) ||
            ((x.Flt? || y.Flt?) && (x.Flt? || x.Int?) && (y.Flt? || y.Int?) &&
             exists a, b :: FloatOf(p, x, a) && FloatOf(p, y, b) && p.feq(a, b))
  {
    if (x.Flt? || x.Int?) && (y.Flt? || y.Int?) {
      assert FloatOf(p, x, ToNumber(p, x)) && FloatOf(p, y, ToNumber(p, y));
    }
  }

  /** Adding to a string gives a string with the characters of both, shown as print shows them. */
  lemma AppendLaws(p: Prims, h: Heap, x: Value, y: Value)
    requires (x.Str? ==> x.id < |h|) && (y.Str? ==> y.id < |h|) && (x.Str? || y.Str?)
    ensures var r := ArithValues(p, h, Add, x, y);
            r.v.Str? && r.v.id < |r.h| && Chars(r.h, r.v.id) == Show(p, h, x) + Show(p, h, y)
  {
  }

  /** What print shows. */
  lemma ShownAs(p: Prims, h: Heap, x: Value)
    ensures x == Nil ==> Show(p, h, x) == ['n', 'i', 'l']
    ensures x == Bool(true) ==> Show(p, h, x) == ['t', 'r', 'u', 'e']
    ensures x == Bool(false) ==> Show(p, h, x) == ['f', 'a', 'l', 's', 'e']
    ensures x.Int? ==> Show(p, h, x) == p.showInt(x.i)
    ensures x.Flt? ==> Show(p, h, x) == p.showFlt(x.bits)
    ensures x.Str? && x.id < |h| ==> Show(p, h, x) == h[x.id].chars
  {
  }

  /** Only nil and false are false. */
  lemma TruthLaws(p: Prims, x: Value)
    ensures Truthy(x) <==> x != Nil && x != Bool(false)
    ensures UnaryValue(p, Not, x) == Bool(x == Nil || x == Bool(false))
  {
  }

  /** Every other operator is the primitive of its name, on values of which a string counts as nil. */
  lemma OtherLaws(p: Prims, h: Heap, op: ArithOp, x: Plain, y: Plain)
    ensures UnaryValue(p, Neg, x) == p.neg(x) && UnaryValue(p, BNot, x) == p.bnot(x)
    ensures op in {Mul, Div, Mod, IDiv, Pow, BAnd, BOr, BXor, Shl, Shr} ==>
              ArithValues(p, h, op, x, y) == Res(p.other(op, x, y), h)
    ensures forall s :: UnaryValue(p, Neg, Str(s)) == p.neg(Nil) && UnaryValue(p, BNot, Str(s)) == p.bnot(Nil)
  {
  }

  // ---------------------------------------------------------------- fused comparisons

  /** Zero is neither below itself nor apart from itself: all that is needed of the floats. */
  ghost predicate SaneZero(p: Prims) {
    !p.fless(p.ofInt(0), p.ofInt(0)) && p.fleq(p.ofInt(0), p.ofInt(0))
  }

  datatype CmpOp = CLt | CLe | CEq | CNe

  /** The test inside a fused compare-and-branch instruction. */
  predicate FusedTest(p: Prims, h: Heap, c: CmpOp, x: Value, y: Value) {
    match c
    case CLt => NumericLt(p, x, y)
    case CLe => NumericLe(p, x, y)
    case CEq => EqValues(p, h, x, y)
    case CNe => !EqValues(p, h, x, y)
  }

  /** The test the unfused pair (comparison, then branch on its boolean) makes. */
  predicate PlainTest(p: Prims, h: Heap, c: CmpOp, x: Value, y: Value) {
    match c
    case CLt => Truthy(ArithValues(p, h, Lt, x, y).v)
    case CLe => Truthy(ArithValues(p, h, Le, x, y).v)
    case CEq => Truthy(ArithValues(p, h, Eq, x, y).v)
    case CNe => Truthy(UnaryValue(p, Not, ArithValues(p, h, Eq, x, y).v))
  }

  /** An ordering of two strings that comes out otherwise than that of zero and zero. */
  predicate StringOrder(p: Prims, h: Heap, c: CmpOp, x: Value, y: Value) {
    x.Str? && y.Str? &&
    var d := p.strcmp(Chars(h, x.id), Chars(h, y.id));
    (c.CLt? && d < 0) || (c.CLe? && d > 0)
  }

  /** Fusing a comparison into a branch changes its outcome exactly when it orders two strings that do
      not compare as the floats 0.0 and 0.0 do: a true `<` and a false `<=`. */
  lemma FusionExact(p: Prims, h: Heap, c: CmpOp, x: Value, y: Value)
    requires SaneZero(p)
    ensures FusedTest(p, h, c, x, y) == PlainTest(p, h, c, x, y) <==> !StringOrder(p, h, c, x, y)
  {
  }
}
