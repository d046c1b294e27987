/** The bytecode format: what a function tree is written as, what is read back, and the partnership
    of the two at every minor version, with and without debug information. */
module Bytecode {
  type byte = x: int | 0 <= x < 256

  datatype Option<T> = None | Some(value: T)

  const TWO31 := 0x8000_0000
  const TWO32 := 0x1_0000_0000
  const TWO63 := 0x8000_0000_0000_0000
  const TWO64 := 0x1_0000_0000_0000_0000

  type Text = seq<byte>

  /** A constant. Float64 carries the bits of the double; Opaque stands for values that cannot be
      written (raw pointers, arrays, maps and other run-time objects). */
  datatype Const =
    | Nil
    | Bool(b: bool)
    | Int64(n: int)
    | Float64(bits: nat)
    | Str(s: Text)
    | FuncC(fn: Func)
    | ClosureC(fn: Func, upvalues: nat)
    | StructDef(name: Text, fields: seq<Text>)
    | Opaque

  datatype UpvalDesc = UpvalDesc(index: byte, isLocal: byte)

  datatype Func = Func(arity: int, regs: int, isProcess: bool, privates: seq<byte>, code: seq<nat>, lines: seq<int>,
                       constants: seq<Const>, upvals: seq<UpvalDesc>, name: Option<Text>, source: Option<Text>,
                           genericArity: int)

  // ---------------------------------------------------------------- integers

  /** The k lowest bytes of n, lowest first. */
  function LE(n: nat, k: nat): (r: seq<byte>)
    ensures |r| == k
  {
    if k == 0 then [] else [n % 256] + LE(n / 256, k - 1)
  }

  function UnLE(b: seq<byte>): nat {
    if b == [] then 0 else b[0] + 256 * UnLE(b[1..])
  }

  function Pow256(k: nat): nat { if k == 0 then 1 else 256 * Pow256(k - 1) }

  lemma {:induction false} UnLEOfLE(n: nat, k: nat)
    requires n < Pow256(k)
    ensures UnLE(LE(n, k)) == n
    decreases k
  {
    if k > 0 {
      UnLEOfLE(n / 256, k - 1);
      assert LE(n, k)[1..] == LE(n / 256, k - 1);
    }
  }

  lemma {:induction false} UnLEBound(b: seq<byte>)
    ensures UnLE(b) < Pow256(|b|)
  {
    if b != [] { UnLEBound(b[1..]); }
  }

  lemma Powers()
    ensures Pow256(1) == 256 && Pow256(4) == TWO32 && Pow256(8) == TWO64
  {
    assert Pow256(2) == 65536;
    assert Pow256(4) == 256 * (256 * Pow256(2));
    assert Pow256(6) == 256 * (256 * Pow256(4));
    assert Pow256(8) == 256 * (256 * Pow256(6));
  }

  /** Two's complement on 32 and on 64 bits. */
  function Unsigned(n: int, modulus: nat): nat
    requires n + modulus >= 0
  {
    if n < 0 then n + modulus else n
  }

  function Signed(u: nat, modulus: nat): int {
    if 2 * u >= modulus then u - modulus else u
  }

  // ---------------------------------------------------------------- writing

  function WriteI32(n: int): seq<byte>
    requires -TWO31 <= n < TWO31
  {
    LE(Unsigned(n, TWO32), 4)
  }

  function WriteU32s(ws: seq<nat>): (r: seq<byte>)
    ensures |r| == 4 * |ws|
  {
    if ws == [] then [] else LE(ws[0], 4) + WriteU32s(ws[1..])
  }

  function Flag(b: bool): byte { if b then 1 else 0 }

  function WriteText(s: Text): seq<byte> { LE(|s|, 4) + s }

  function WriteOptional(s: Option<Text>): seq<byte> {
    if s.None? then [0] else [1] + WriteText(s.value)
  }

  function WriteTexts(ss: seq<Text>): seq<byte> {
    if ss == [] then [] else WriteText(ss[0]) + WriteTexts(ss[1..])
  }

  function WriteUpvals(us: seq<UpvalDesc>): (r: seq<byte>)
    ensures |r| == 2 * |us|
  {
    if us == [] then [] else [us[0].index, us[0].isLocal] + WriteUpvals(us[1..])
  }

  /** Integers fit their widths, counts fit 32 bits, flags are flags. */
  predicate Fits(f: Func)
    decreases f, 1
  {
    -TWO31 <= f.arity < TWO31 && -TWO31 <= f.regs < TWO31 && |f.privates| == 16 && -TWO31 <= f.genericArity < TWO31 &&
    |f.code| < TWO31 && |f.lines| == |f.code| && |f.constants| < TWO31 && |f.upvals| < TWO31 &&
    (forall i :: 0 <= i < |f.code| ==> f.code[i] < TWO32) &&
    (forall i :: 0 <= i < |f.lines| ==> -TWO31 <= f.lines[i] < TWO31) &&
    (forall i :: 0 <= i < |f.upvals| ==> f.upvals[i].isLocal <= 1) &&
    (f.name.Some? ==> |f.name.value| < TWO31) && (f.source.Some? ==> |f.source.value| < TWO31) &&
    forall i :: 0 <= i < |f.constants| ==> FitsConst(f.constants[i])
  }

  predicate FitsConst(c: Const)
    decreases c, 0
  {
    match c
    case Int64(n) => -TWO63 <= n < TWO63
    case Float64(bits) => bits < TWO64
    case Str(s) => |s| < TWO31
    case FuncC(fn) => Fits(fn)
    case ClosureC(fn, _) => Fits(fn)
    case StructDef(name, fields) => |name| < TWO31 && |fields| < TWO31 && forall i :: 0 <= i < |fields| ==>
          |fields[i]| < TWO31
    case _ => true
  }

  datatype Header = Header(arity: int, regs: int, isProcess: bool, privates: seq<byte>, codes: int, lines: int,
      consts: int, upvals: int)

  predicate FitsHeader(h: Header) {
    -TWO31 <= h.arity < TWO31 && -TWO31 <= h.regs < TWO31 && |h.privates| == 16 &&
    -TWO31 <= h.codes < TWO31 && -TWO31 <= h.lines < TWO31 && -TWO31 <= h.consts < TWO31 && -TWO31 <= h.upvals < TWO31
  }

  function WriteHeader(h: Header): (r: seq<byte>)
    requires FitsHeader(h)
    ensures |r| == 41
  {
    WriteI32(h.arity) + WriteI32(h.regs) + [Flag(h.isProcess)] + h.privates + WriteI32(h.codes) + WriteI32(h.lines) +
    WriteI32(h.consts) + WriteI32(h.upvals)
  }

  function HeaderOf(f: Func, strip: bool): Header {
    Header(f.arity, f.regs, f.isProcess, f.privates, |f.code|, if strip then 0 else |f.code|, |f.constants|, |f.upvals|)
  }

  function LineWords(lines: seq<int>): (r: seq<nat>)
    requires forall i :: 0 <= i < |lines| ==> -TWO31 <= lines[i] < TWO31
    ensures |r| == |lines| && forall i :: 0 <= i < |r| ==> r[i] == Unsigned(lines[i], TWO32)
  {
    seq(|lines|, i requires 0 <= i < |lines| => Unsigned(lines[i], TWO32))
  }

  /** What a function is written as, or nothing when some constant cannot be written. */
  function WriteFunc(f: Func, strip: bool, minor: nat): Option<seq<byte>>
    requires Fits(f)
    decreases f, 1
  {
    match WriteConsts(f.constants, strip, minor)
    case None => None
    case Some(cs) =>
      Some(WriteHeader(HeaderOf(f, strip)) + WriteU32s(f.code) + (if strip then [] else WriteU32s(LineWords(f.lines))) +
          cs +
           WriteUpvals(f.upvals) + WriteOptional(if strip then None else f.name) +
               WriteOptional(if strip then None else f.source) +
           if minor >= 2 then WriteI32(f.genericArity) else [])
  }

  function WriteConsts(cs: seq<Const>, strip: bool, minor: nat): Option<seq<byte>>
    requires forall i :: 0 <= i < |cs| ==> FitsConst(cs[i])
    decreases cs, 0
  {
    if cs == [] then Some([])
    else
      match WriteConst(cs[0], strip, minor)
      case None => None
      case Some(b) =>
        match WriteConsts(cs[1..], strip, minor)
        case None => None
        case Some(rest) => Some(b + rest)
  }

  function WriteConst(c: Const, strip: bool, minor: nat): Option<seq<byte>>
    requires FitsConst(c)
    decreases c, 0
  {
    match c
    case Nil => Some([0])
    case Bool(b) => Some([1, Flag(b)])
    case Int64(n) => Some([2] + LE(Unsigned(n, TWO64), 8))
    case Float64(bits) => Some([3] + LE(bits, 8))
    case Str(s) => Some([4] + WriteText(s))
    case FuncC(fn) => Tagged(5, WriteFunc(fn, strip, minor))
    case ClosureC(fn, upvalues) => if upvalues != 0 then None else Tagged(6, WriteFunc(fn, strip, minor))
    case StructDef(name, fields) => Some([8] + WriteText(name) + LE(|fields|, 4) + WriteTexts(fields))
    case Opaque => None
  }

  function Tagged(tag: byte, b: Option<seq<byte>>): Option<seq<byte>> {
    if b.None? then None else Some([tag] + b.value)
  }

  // ---------------------------------------------------------------- reading

  datatype Res<T> = Fail | Got(v: T, at: nat)

  function Raw(data: seq<byte>, at: nat, n: nat): (r: Res<seq<byte>>)
    ensures r.Got? ==> r.at == at + n <= |data| && |r.v| == n
  {
    if at + n <= |data| then Got(data[at..at + n], at + n) else Fail
  }

  function ReadU8(data: seq<byte>, at: nat): (r: Res<byte>)
    ensures r.Got? ==> r.at == at + 1 <= |data|
  {
    match Raw(data, at, 1) case Fail => Fail case Got(b, e) => Got(b[0], e)
  }

  function ReadLE(data: seq<byte>, at: nat, k: nat): (r: Res<nat>)
    ensures r.Got? ==> r.at == at + k <= |data|
  {
    match Raw(data, at, k) case Fail => Fail case Got(b, e) => Got(UnLE(b), e)
  }

  function ReadI32(data: seq<byte>, at: nat): (r: Res<int>)
    ensures r.Got? ==> r.at == at + 4 <= |data|
  {
    match ReadLE(data, at, 4) case Fail => Fail case Got(u, e) => Got(Signed(u, TWO32), e)
  }

  function ReadText(data: seq<byte>, at: nat): (r: Res<Text>)
    ensures r.Got? ==> at < r.at <= |data|
  {
    match ReadLE(data, at, 4)
    case Fail => Fail
    case Got(len, e) => if len >= TWO31 then Fail else Raw(data, e, len)
  }

  function ReadOptional(data: seq<byte>, at: nat): (r: Res<Option<Text>>)
    ensures r.Got? ==> at < r.at <= |data|
  {
    match ReadU8(data, at)
    case Fail => Fail
    case Got(flag, e) =>
      if flag == 0 then Got(None, e)
      else if flag != 1 then Fail
      else match ReadText(data, e) case Fail => Fail case Got(s, e') => Got(Some(s), e')
  }

  function ReadTexts(data: seq<byte>, at: nat, n: nat): (r: Res<seq<Text>>)
    ensures r.Got? ==> at <= r.at && (n > 0 ==> at < r.at <= |data|) && |r.v| == n
    decreases n
  {
    if n == 0 then Got([], at)
    else
      match ReadText(data, at)
      case Fail => Fail
      case Got(s, e) =>
        match ReadTexts(data, e, n - 1)
        case Fail => Fail
        case Got(rest, e') => Got([s] + rest, e')
  }

  function ReadU32s(data: seq<byte>, at: nat, n: nat): (r: Res<seq<nat>>)
    ensures r.Got? ==> r.at == at + 4 * n && |r.v| == n && (n > 0 ==> r.at <= |data|)
    decreases n
  {
    if n == 0 then Got([], at)
    else
      match ReadLE(data, at, 4)
      case Fail => Fail
      case Got(w, e) =>
        match ReadU32s(data, e, n - 1)
        case Fail => Fail
        case Got(rest, e') => Got([w] + rest, e')
  }

  function ReadUpvals(data: seq<byte>, at: nat, n: nat): (r: Res<seq<UpvalDesc>>)
    ensures r.Got? ==> r.at == at + 2 * n && |r.v| == n && (n > 0 ==> r.at <= |data|)
    decreases n
  {
    if n == 0 then Got([], at)
    else
      match Raw(data, at, 2)
      case Fail => Fail
      case Got(b, e) =>
        match ReadUpvals(data, e, n - 1)
        case Fail => Fail
        case Got(rest, e') => Got([UpvalDesc(b[0], Flag(b[1] != 0))] + rest, e')
  }

  function ReadHeader(data: seq<byte>, at: nat): (r: Res<Header>)
    ensures r.Got? ==> r.at == at + 41 <= |data|
  {
    match Raw(data, at, 41)
    case Fail => Fail
    case Got(b, e) =>
      Got(Header(ReadI32(b, 0).v, ReadI32(b, 4).v, b[8] != 0, b[9..25], ReadI32(b, 25).v, ReadI32(b, 29).v,
          ReadI32(b, 33).v, ReadI32(b, 37).v), e)
  }

  /** Counts are not negative, and there are as many lines as instructions, or none. */
  predicate SaneHeader(h: Header) {
    h.codes >= 0 && h.lines >= 0 && h.consts >= 0 && h.upvals >= 0 && (h.lines == 0 || h.lines == h.codes)
  }

  function SignedAll(ws: seq<nat>): (r: seq<int>)
    ensures |r| == |ws| && forall i :: 0 <= i < |r| ==> r[i] == Signed(ws[i], TWO32)
  {
    seq(|ws|, i requires 0 <= i < |ws| => Signed(ws[i], TWO32))
  }

  function Zeros(n: nat): (r: seq<int>)
    ensures |r| == n && forall i :: 0 <= i < n ==> r[i] == 0
  {
    seq(n, _ => 0)
  }

  datatype Tail = Tail(upvals: seq<UpvalDesc>, name: Option<Text>, source: Option<Text>, genericArity: int)

  /** What follows the constants. Files of minor version 1 end before the number of type parameters. */
  function ReadTail(data: seq<byte>, at: nat, n: nat, minor: nat): (r: Res<Tail>)
    ensures r.Got? ==> at < r.at <= |data|
  {
    match ReadUpvals(data, at, n)
    case Fail => Fail
    case Got(us, e) =>
      match ReadOptional(data, e)
      case Fail => Fail
      case Got(name, e') =>
        match ReadOptional(data, e')
        case Fail => Fail
        case Got(source, e'') =>
          if minor < 2 then Got(Tail(us, name, source, 0), e'')
          else match ReadI32(data, e'') case Fail => Fail case Got(g, end) => Got(Tail(us, name, source, g), end)
  }

  function ReadFunc(data: seq<byte>, at: nat, minor: nat): (r: Res<Func>)
    ensures r.Got? ==> at < r.at <= |data|
    decreases |data| - at, 0, 2
  {
    match ReadHeader(data, at)
    case Fail => Fail
    case Got(h, e) =>
      if !SaneHeader(h) then Fail
      else
        match ReadU32s(data, e, h.codes)
        case Fail => Fail
        case Got(code, e1) =>
          match ReadU32s(data, e1, h.lines)
          case Fail => Fail
          case Got(ls, e2) =>
            match ReadConsts(data, e2, h.consts, minor)
            case Fail => Fail
            case Got(cs, e3) =>
              match ReadTail(data, e3, h.upvals, minor)
              case Fail => Fail
              case Got(t, end) =>
                Got(Func(h.arity, h.regs, h.isProcess, h.privates, code, if h.lines == 0 then Zeros(h.codes)
                    else SignedAll(ls), cs,
                         t.upvals, t.name, t.source, t.genericArity), end)
  }

  function ReadConsts(data: seq<byte>, at: nat, n: nat, minor: nat): (r: Res<seq<Const>>)
    ensures r.Got? ==> at <= r.at && (n > 0 ==> at < r.at <= |data|) && |r.v| == n
    decreases |data| - at, n, 1
  {
    if n == 0 then Got([], at)
    else
      match ReadConst(data, at, minor)
      case Fail => Fail
      case Got(c, e) =>
        match ReadConsts(data, e, n - 1, minor)
        case Fail => Fail
        case Got(rest, e') => Got([c] + rest, e')
  }

  function ReadConst(data: seq<byte>, at: nat, minor: nat): (r: Res<Const>)
    ensures r.Got? ==> at < r.at <= |data|
    decreases |data| - at, 0, 0
  {
    match ReadU8(data, at)
    case Fail => Fail
    case Got(tag, e) =>
      if tag == 0 then Got(Nil, e)
      else if tag == 1 then (match ReadU8(data, e) case Fail => Fail case Got(b, e') => Got(Bool(b != 0), e'))
      else if tag == 2 then (match ReadLE(data, e, 8) case Fail => Fail case Got(u, e') =>
          Got(Int64(Signed(u, TWO64)), e'))
      else if tag == 3 then (match ReadLE(data, e, 8) case Fail => Fail case Got(u, e') => Got(Float64(u), e'))
      else if tag == 4 then (match ReadText(data, e) case Fail => Fail case Got(s, e') => Got(Str(s), e'))
      else if tag == 5 then (match ReadFunc(data, e, minor) case Fail => Fail case Got(f, e') => Got(FuncC(f), e'))
      else if tag == 6 then (match ReadFunc(data, e, minor) case Fail => Fail case Got(f, e') =>
          Got(ClosureC(f, 0), e'))
      else if tag == 8 then ReadStructDef(data, e)
      else Fail
  }

  function ReadStructDef(data: seq<byte>, at: nat): (r: Res<Const>)
    ensures r.Got? ==> at < r.at <= |data|
  {
    match ReadText(data, at)
    case Fail => Fail
    case Got(name, e) =>
      match ReadLE(data, e, 4)
      case Fail => Fail
      case Got(n, e') =>
        match ReadTexts(data, e', n)
        case Fail => Fail
        case Got(fields, end) => Got(StructDef(name, fields), end)
  }
}
