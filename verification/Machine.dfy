/** The register machine that runs compiled code: the opcodes of opcodes.h the modelled part of
    the compiler emits, with the behaviour vm_dispatch.cpp gives them. */
module Machine {
  import opened Values

  datatype Instr =
    | LoadNil(a: int)
    | LoadBool(a: int, v: bool)
    | LoadI(a: int, n: int)
    | LoadK(a: int, k: int)
    | Move(a: int, b: int)
    | GetGlobal(a: int, g: int)
    | SetGlobal(a: int, g: int)
    | Arith(op: ArithOp, a: int, b: int, c: int)
    | AddI(a: int, b: int, imm: int)
    | SubI(a: int, b: int, imm: int)
    | Unary(uop: UnOp, a: int, b: int)
    | Jmp(off: int)
    | JmpIf(a: int, off: int)
    | JmpIfNot(a: int, off: int)
    | CmpJmpIfNot(cmp: CmpOp, b: int, c: int)   // first word; the second is a Jmp carrying sBx
    | Print(a: int)
    | Halt

  type Bank = map<int, Value>

  /** Registers and globals start out as nil. */
  function Get(m: Bank, i: int): Value {
    if i in m then m[i] else Nil
  }

  /** out is what has been printed. */
  datatype State = State(pc: int, regs: Bank, globals: Bank, out: seq<string>, heap: Heap)

  /** A result stored in a register. */
  function Store(s: State, a: int, r: Res): State {
    s.(pc := s.pc + 1, regs := s.regs[a := r.v], heap := r.h)
  }

  datatype Program = Program(prims: Prims, code: seq<Instr>, consts: seq<Const>)

  datatype Option<T> = None | Some(value: T)

  /** One dispatch. None when the machine halts or the program counter leaves the code. */
  function Step(p: Program, s: State): Option<State> {
    if !(0 <= s.pc < |p.code|) then None else
    var next := s.(pc := s.pc + 1);
    match p.code[s.pc]
    case LoadNil(a) => Some(next.(regs := s.regs[a := Nil]))
    case LoadBool(a, v) => Some(next.(regs := s.regs[a := Bool(v)]))
    case LoadI(a, n) => Some(next.(regs := s.regs[a := Int(n)]))
    case LoadK(a, k) =>
      if 0 <= k < |p.consts| then Some(Store(s, a, Loaded(s.heap, p.consts[k]))) else None
    case Move(a, b) => Some(next.(regs := s.regs[a := Get(s.regs, b)]))
    case GetGlobal(a, g) => Some(next.(regs := s.regs[a := Get(s.globals, g)]))
    case SetGlobal(a, g) => Some(next.(globals := s.globals[g := Get(s.regs, a)]))
    case Arith(op, a, b, c) =>
      Some(Store(s, a, ArithValues(p.prims, s.heap, op, Get(s.regs, b), Get(s.regs, c))))
    case AddI(a, b, imm) => Some(Store(s, a, AddImmediate(p.prims, s.heap, Get(s.regs, b), imm)))
    case SubI(a, b, imm) => Some(next.(regs := s.regs[a := SubImmediate(p.prims, Get(s.regs, b), imm)]))
    case Unary(uop, a, b) => Some(next.(regs := s.regs[a := UnaryValue(p.prims, uop, Get(s.regs, b))]))
    case Jmp(off) => Some(next.(pc := s.pc + 1 + off))
    case JmpIf(a, off) => Some(if Truthy(Get(s.regs, a)) then next.(pc := s.pc + 1 + off) else next)
    case JmpIfNot(a, off) => Some(if Truthy(Get(s.regs, a)) then next else next.(pc := s.pc + 1 + off))
    case CmpJmpIfNot(cmp, b, c) =>
      if s.pc + 1 < |p.code| && p.code[s.pc + 1].Jmp? then
        var skip := s.(pc := s.pc + 2);
        Some(if FusedTest(p.prims, s.heap, cmp, Get(s.regs, b), Get(s.regs, c)) then skip
             else skip.(pc := s.pc + 2 + p.code[s.pc + 1].off))
      else None
    case Print(a) => Some(next.(out := s.out + [Show(p.prims, s.heap, Get(s.regs, a))]))
    case Halt => None
  }

  /** The state after exactly n dispatches, if the machine gets that far. */
  function Run(p: Program, s: State, n: nat): Option<State>
    decreases n
  {
    if n == 0 then Some(s)
    else match Step(p, s)
      case None => None
      case Some(t) => Run(p, t, n - 1)
  }

  lemma {:induction false} RunTrans(p: Program, s: State, n: nat, t: State, k: nat, u: State)
    requires Run(p, s, n) == Some(t)
    requires Run(p, t, k) == Some(u)
    ensures Run(p, s, n + k) == Some(u)
    decreases n
  {
    if n > 0 {
      var s1 := Step(p, s).value;
      assert Run(p, s1, n - 1) == Some(t);
      RunTrans(p, s1, n - 1, t, k, u);
    }
  }

  lemma OneStep(p: Program, s: State)
    requires Step(p, s).Some?
    ensures Run(p, s, 1) == Some(Step(p, s).value)
  {
    assert Run(p, Step(p, s).value, 0) == Some(Step(p, s).value);
  }

  /** A fragment sits at an offset of the code. */
  predicate At(code: seq<Instr>, pos: int, frag: seq<Instr>) {
    0 <= pos && pos + |frag| <= |code| && code[pos..pos + |frag|] == frag
  }

  lemma AtSplit(code: seq<Instr>, pos: int, a: seq<Instr>, b: seq<Instr>)
    requires At(code, pos, a + b)
    ensures At(code, pos, a) && At(code, pos + |a|, b)
  {
    var whole := code[pos..pos + |a + b|];
    assert code[pos..pos + |a|] == whole[..|a|];
    assert code[pos + |a|..pos + |a| + |b|] == whole[|a|..];
  }
}
