/** The writer and the reader themselves: bytes appended while everything goes well, an offset that
    advances over the input, and the recursive procedures over function trees. */
module BytecodeIO {
  import opened Bytecode

  class Writer {
    var out: seq<byte>
    var ok: bool

    constructor ()
      ensures out == [] && ok
    {
      out, ok := [], true;
    }

    method WriteRaw(data: seq<byte>) returns (done: bool)
      modifies this
      ensures done == old(ok) && ok == old(ok) && out == if old(ok) then old(out) + data else old(out)
    {
      if !ok { return false; }
      out := out + data;
      return true;
    }

    method WriteU8(value: byte) returns (done: bool)
      modifies this
      ensures done == old(ok) && ok == old(ok) && out == if old(ok) then old(out) + [value] else old(out)
    {
      done := WriteRaw([value]);
    }

    method WriteU32(value: nat) returns (done: bool)
      requires value < TWO32
      modifies this
      ensures done == old(ok) && ok == old(ok) && out == if old(ok) then old(out) + LE(value, 4) else old(out)
    {
      var data := [value % 256, value / 0x100 % 256, value / 0x10000 % 256, value / 0x1000000 % 256];
      FourBytes(value);
      done := WriteRaw(data);
    }

    method WriteI32Word(value: int) returns (done: bool)
      requires -TWO31 <= value < TWO31
      modifies this
      ensures done == old(ok) && ok == old(ok) && out == if old(ok) then old(out) + WriteI32(value) else old(out)
    {
      done := WriteU32(if value < 0 then value + TWO32 else value);
    }

    /** Eight bytes of a 64-bit pattern, lowest first. */
    method WriteBits(bits: nat) returns (done: bool)
      requires bits < TWO64
      modifies this
      ensures done == old(ok) && ok == old(ok) && out == if old(ok) then old(out) + LE(bits, 8) else old(out)
    {
      var data: seq<byte> := [];
      var rest := bits;
      for i := 0 to 8
        invariant data + LE(rest, 8 - i) == LE(bits, 8)
      {
        assert LE(rest, 8 - i) == [rest % 256] + LE(rest / 256, 8 - i - 1);
        assert data + ([rest % 256] + LE(rest / 256, 8 - i - 1)) == (data + [rest % 256]) + LE(rest / 256, 8 - i - 1);
        data := data + [rest % 256];
        rest := rest / 256;
      }
      assert data + LE(rest, 0) == data;
      done := WriteRaw(data);
    }

    method WriteString(s: Text) returns (done: bool)
      requires ok && |s| < TWO31
      modifies this
      ensures ok && done && out == old(out) + WriteText(s)
    {
      done := WriteU32(|s|);
      assert out == old(out) + LE(|s|, 4);
      if |s| > 0 {
        done := WriteRaw(s);
      }
    }

    method WriteOptionalString(s: Option<Text>) returns (done: bool)
      requires ok && (s.Some? ==> |s.value| < TWO31)
      modifies this
      ensures ok && done && out == old(out) + WriteOptional(s)
    {
      hide WriteText;
      done := WriteU8(if s.Some? then 1 else 0);
      if s.Some? {
        done := WriteString(s.value);
      }
    }

    method WriteWords(ws: seq<nat>)
      requires ok && forall i :: 0 <= i < |ws| ==> ws[i] < TWO32
      modifies this
      ensures ok && out == old(out) + WriteU32s(ws)
    {
      hide LE;
      var i := 0;
      while i < |ws|
        invariant 0 <= i <= |ws| && ok && out + WriteU32s(ws[i..]) == old(out) + WriteU32s(ws)
      {
        assert ws[i..][1..] == ws[i + 1..];
        assert out + (LE(ws[i], 4) + WriteU32s(ws[i + 1..])) == (out + LE(ws[i], 4)) + WriteU32s(ws[i + 1..]);
        var _ := WriteU32(ws[i]);
        i := i + 1;
      }
      assert ws[i..] == [] && out + [] == out;
    }

    method WriteDescriptors(us: seq<UpvalDesc>)
      requires ok
      modifies this
      ensures ok && out == old(out) + WriteUpvals(us)
    {
      var i := 0;
      while i < |us|
        invariant 0 <= i <= |us| && ok && out + WriteUpvals(us[i..]) == old(out) + WriteUpvals(us)
      {
        var d := us[i];
        assert us[i..][1..] == us[i + 1..];
        assert out + ([d.index, d.isLocal] + WriteUpvals(us[i + 1..])) == (out + [d.index] + [d.isLocal]) +
            WriteUpvals(us[i + 1..]);
        var _ := WriteU8(d.index);
        var _ := WriteU8(d.isLocal);
        i := i + 1;
      }
      assert us[i..] == [] && out + [] == out;
    }

    method WriteNames(ss: seq<Text>)
      requires ok && forall i :: 0 <= i < |ss| ==> |ss[i]| < TWO31
      modifies this
      ensures ok && out == old(out) + WriteTexts(ss)
    {
      hide WriteText;
      var i := 0;
      while i < |ss|
        invariant 0 <= i <= |ss| && ok && out + WriteTexts(ss[i..]) == old(out) + WriteTexts(ss)
      {
        assert ss[i..][1..] == ss[i + 1..];
        assert out + (WriteText(ss[i]) + WriteTexts(ss[i + 1..])) == (out + WriteText(ss[i])) + WriteTexts(ss[i + 1..]);
        var _ := WriteString(ss[i]);
        i := i + 1;
      }
      assert ss[i..] == [] && out + [] == out;
    }

    method WriteHead(f: Func, strip: bool)
      requires ok && Fits(f)
      modifies this
      ensures ok && out == old(out) + WriteHeader(HeaderOf(f, strip))
    {
      hide WriteI32, FitsConst;
      ghost var was := out;
      var _ := WriteI32Word(f.arity);
      var _ := WriteI32Word(f.regs);
      var _ := WriteU8(if f.isProcess then 1 else 0);
      var _ := WriteRaw(f.privates);
      ghost var a := WriteI32(f.arity) + WriteI32(f.regs) + [Flag(f.isProcess)] + f.privates;
      assert out == was + a;
      var codes, lines := |f.code|, if strip then 0 else |f.code|;
      WriteCounts(codes, lines, |f.constants|, |f.upvals|);
      HeaderIs(HeaderOf(f, strip), was, a);
    }

    method WriteCounts(codes: int, lines: int, consts: int, upvals: int)
      requires ok && -TWO31 <= codes < TWO31 && -TWO31 <= lines < TWO31 && -TWO31 <= consts < TWO31 &&
               -TWO31 <= upvals < TWO31
      modifies this
      ensures ok && out == old(out) + WriteI32(codes) + WriteI32(lines) + WriteI32(consts) + WriteI32(upvals)
    {
      hide WriteI32;
      var _ := WriteI32Word(codes);
      var _ := WriteI32Word(lines);
      var _ := WriteI32Word(consts);
      var _ := WriteI32Word(upvals);
    }

    /** False, with the output spoilt, exactly when some constant in the tree cannot be written. */
    method WriteFunction(f: Func, strip: bool) returns (done: bool)
      requires ok && Fits(f)
      modifies this
      ensures ok && done == WriteFunc(f, strip, 2).Some?
      ensures done ==> out == old(out) + WriteFunc(f, strip, 2).value
      decreases f, 2
    {
      hide WriteHeader, WriteU32s, WriteConsts, WriteConst, WriteUpvals, WriteOptional, WriteI32, FitsConst;
      ghost var was := out;
      WriteHead(f, strip);
      WriteWords(f.code);
      if !strip {
        WriteWords(LineWords(f.lines));
      }
      ghost var mid := WriteHeader(HeaderOf(f, strip)) + WriteU32s(f.code) +
          (if strip then [] else WriteU32s(LineWords(f.lines)));
      assert out == was + mid;
      done := WriteConstants(f.constants, strip);
      if !done { return; }
      ghost var cs := WriteConsts(f.constants, strip, 2).value;
      assert out == was + (mid + cs);
      WriteEnd(f, strip);
      hide WriteFunc;
      FuncEnd(f, strip, mid, cs);
      EndJoins(was, mid + cs, WriteUpvals(f.upvals), WriteOptional(if strip then None else f.name),
               WriteOptional(if strip then None else f.source), WriteI32(f.genericArity));
    }

    method WriteEnd(f: Func, strip: bool)
      requires ok && Fits(f)
      modifies this
      ensures ok && out == old(out) + (WriteUpvals(f.upvals) + WriteOptional(if strip then None else f.name) +
                           WriteOptional(if strip then None else f.source) + WriteI32(f.genericArity))
    {
      hide WriteUpvals, WriteOptional, WriteI32, FitsConst;
      WriteDescriptors(f.upvals);
      var _ := WriteOptionalString(if strip then None else f.name);
      var _ := WriteOptionalString(if strip then None else f.source);
      var _ := WriteI32Word(f.genericArity);
    }

    method WriteConstants(cs: seq<Const>, strip: bool) returns (done: bool)
      requires ok && forall i :: 0 <= i < |cs| ==> FitsConst(cs[i])
      modifies this
      ensures ok && done == WriteConsts(cs, strip, 2).Some?
      ensures done ==> out == old(out) + WriteConsts(cs, strip, 2).value
      decreases cs, 1
    {
      hide WriteConst, FitsConst;
      var i := 0;
      while i < |cs|
        invariant 0 <= i <= |cs| && ok
        invariant WriteConsts(cs, strip, 2).Some? <==> WriteConsts(cs[i..], strip, 2).Some?
        invariant WriteConsts(cs, strip, 2).Some? ==>
                    out + WriteConsts(cs[i..], strip, 2).value == old(out) + WriteConsts(cs, strip, 2).value
      {
        assert cs[i..][1..] == cs[i + 1..];
        ghost var was := out;
        var d := WriteValue(cs[i], strip);
        if !d { return false; }
        ghost var b, rest := WriteConst(cs[i], strip, 2).value, WriteConsts(cs[i + 1..], strip, 2);
        if rest.Some? { assert was + (b + rest.value) == (was + b) + rest.value; }
        i := i + 1;
      }
      assert cs[i..] == [] && out + [] == out;
      return true;
    }

    method WriteValue(c: Const, strip: bool) returns (done: bool)
      requires ok && FitsConst(c)
      modifies this
      ensures ok && done == WriteConst(c, strip, 2).Some?
      ensures done ==> out == old(out) + WriteConst(c, strip, 2).value
      decreases c, 0
    {
      hide WriteFunc, WriteText, LE, WriteTexts, Fits;
      match c
      case Nil => done := WriteU8(0);
      case Bool(b) =>
        done := WriteU8(1);
        done := WriteU8(if b then 1 else 0);
      case Int64(n) =>
        done := WriteU8(2);
        done := WriteBits(if n < 0 then n + TWO64 else n);
      case Float64(bits) =>
        done := WriteU8(3);
        done := WriteBits(bits);
      case Str(s) =>
        done := WriteU8(4);
        done := WriteString(s);
      case FuncC(fn) =>
        done := WriteU8(5);
        done := WriteFunction(fn, strip);
      case ClosureC(fn, upvalues) =>
        if upvalues != 0 { return false; }
        done := WriteU8(6);
        done := WriteFunction(fn, strip);
      case StructDef(name, fields) =>
        done := WriteU8(8);
        done := WriteString(name);
        done := WriteU32(|fields|);
        WriteNames(fields);
      case Opaque => done := false;
    }
  }

  lemma HeaderIs(h: Header, was: seq<byte>, a: seq<byte>)
    requires FitsHeader(h) && a == WriteI32(h.arity) + WriteI32(h.regs) + [Flag(h.isProcess)] + h.privates
    ensures was + a + WriteI32(h.codes) + WriteI32(h.lines) + WriteI32(h.consts) + WriteI32(h.upvals) == was +
            WriteHeader(h)
  {
    hide WriteI32;
  }

  lemma EndJoins(was: seq<byte>, mid: seq<byte>, a: seq<byte>, b: seq<byte>, c: seq<byte>, d: seq<byte>)
    ensures was + mid + (a + b + c + d) == was + (mid + a + b + c + d)
  {
  }

  lemma FuncEnd(f: Func, strip: bool, mid: seq<byte>, cs: seq<byte>)
    requires Fits(f) && WriteConsts(f.constants, strip, 2) == Some(cs)
    requires mid == WriteHeader(HeaderOf(f, strip)) + WriteU32s(f.code) +
             (if strip then [] else WriteU32s(LineWords(f.lines)))
    ensures WriteFunc(f, strip, 2) ==
            Some(mid + cs + WriteUpvals(f.upvals) + WriteOptional(if strip then None else f.name) +
                                           WriteOptional(if strip then None else f.source) + WriteI32(f.genericArity))
  {
    hide WriteHeader, WriteU32s, WriteUpvals, WriteOptional, WriteI32, WriteConsts;
  }

  lemma FourBytes(v: nat)
    ensures LE(v, 4) == [v % 256, v / 0x100 % 256, v / 0x10000 % 256, v / 0x1000000 % 256]
  {
    assert v / 256 / 256 == v / 0x10000 && v / 256 / 256 / 256 == v / 0x1000000;
    assert LE(v, 4) == [v % 256] + LE(v / 256, 3);
    assert LE(v / 256, 3) == [v / 256 % 256] + LE(v / 256 / 256, 2);
    assert LE(v / 256 / 256, 2) == [v / 256 / 256 % 256] + LE(v / 256 / 256 / 256, 1);
    assert LE(v / 256 / 256 / 256, 1) == [v / 256 / 256 / 256 % 256] + LE(v / 256 / 256 / 256 / 256, 0);
  }

  /** Eight bytes as one number, lowest first. */
  method Decode(b: seq<byte>) returns (bits: nat)
    requires |b| == 8
    ensures bits == UnLE(b)
  {
    bits := 0;
    var shift: nat := 1;
    assert b[0..] == b;
    for i := 0 to 8
      invariant bits + shift * UnLE(b[i..]) == UnLE(b)
    {
      assert b[i..][1..] == b[i + 1..] && b[i..][0] == b[i];
      assert UnLE(b[i..]) == b[i] as int + 256 * UnLE(b[i + 1..]);
      DigitStep(bits, shift, b[i], UnLE(b[i + 1..]));
      bits := bits + (b[i] as int) * shift;
      shift := shift * 256;
    }
    assert b[8..] == [];
  }

  /** What was read before in front of what is still to be read. */
  function Before<T>(done: seq<T>, r: Res<seq<T>>): Res<seq<T>> {
    if r.Fail? then Fail else Got(done + r.v, r.at)
  }

  lemma BeforeMore<T>(done: seq<T>, x: T, r: Res<seq<T>>)
    ensures Before(done, Before([x], r)) == Before(done + [x], r)
  {
    if r.Got? { assert done + ([x] + r.v) == (done + [x]) + r.v; }
  }

  lemma BeforeNone<T>(r: Res<seq<T>>)
    ensures Before([], r) == r
  {
    if r.Got? { assert [] + r.v == r.v; }
  }

  lemma BeforeAll<T>(done: seq<T>, at: nat)
    ensures Before(done, Got([], at)) == Got(done, at) && Before([], Got(done, at)) == Got(done, at)
  {
    assert done + [] == done && [] + done == done;
  }

  class Reader {
    const data: seq<byte>
    var offset: nat
    var ok: bool

    constructor (data: seq<byte>)
      ensures this.data == data && offset == 0 && ok
    {
      this.data, offset, ok := data, 0, true;
    }

    /** Nothing has gone wrong yet. */
    ghost predicate Going()
      reads this
    {
      ok && offset <= |data|
    }

    method ReadRaw(size: nat) returns (done: bool, bytes: seq<byte>)
      requires offset <= |data|
      modifies this
      ensures done == (old(ok) && Raw(data, old(offset), size).Got?) && offset <= |data|
      ensures ok == done && offset == old(offset) + if done then size else 0
      ensures done ==> bytes == Raw(data, old(offset), size).v
    {
      if !ok { return false, []; }
      if size == 0 { return true, []; }
      if offset > |data| || size > |data| - offset {
        ok := false;
        return false, [];
      }
      bytes := data[offset..offset + size];
      offset := offset + size;
      return true, bytes;
    }

    method ReadByte() returns (done: bool, value: byte)
      requires Going()
      modifies this
      ensures done == ReadU8(data, old(offset)).Got?
      ensures done ==> Going() && Got(value, offset) == ReadU8(data, old(offset))
    {
      var d, b := ReadRaw(1);
      if d { return true, b[0]; }
      return false, 0;
    }

    method ReadU32() returns (done: bool, value: nat)
      requires Going()
      modifies this
      ensures done == ReadLE(data, old(offset), 4).Got?
      ensures done ==> Going() && Got(value, offset) == ReadLE(data, old(offset), 4)
    {
      var d, b := ReadRaw(4);
      if !d { return false, 0; }
      FourDigits(b);
      return true, b[0] as int + (b[1] as int) * 0x100 + (b[2] as int) * 0x10000 + (b[3] as int) * 0x1000000;
    }

    method ReadInt() returns (done: bool, value: int)
      requires Going()
      modifies this
      ensures done == ReadI32(data, old(offset)).Got?
      ensures done ==> Going() && Got(value, offset) == ReadI32(data, old(offset))
    {
      var d, u := ReadU32();
      return d, Signed(u, TWO32);
    }

    method ReadBits() returns (done: bool, bits: nat)
      requires Going()
      modifies this
      ensures done == ReadLE(data, old(offset), 8).Got?
      ensures done ==> Going() && Got(bits, offset) == ReadLE(data, old(offset), 8)
    {
      var d, b := ReadRaw(8);
      if !d { return false, 0; }
      bits := Decode(b);
      return true, bits;
    }

    method ReadString() returns (done: bool, s: Text)
      requires Going()
      modifies this
      ensures done == ReadText(data, old(offset)).Got?
      ensures done ==> Going() && Got(s, offset) == ReadText(data, old(offset))
    {
      hide ReadLE;
      var d, len := ReadU32();
      if !d || len >= TWO31 { return false, []; }
      var d', b := ReadRaw(len);
      return d', b;
    }

    method ReadOptionalString() returns (done: bool, s: Option<Text>)
      requires Going()
      modifies this
      ensures done == ReadOptional(data, old(offset)).Got?
      ensures done ==> Going() && Got(s, offset) == ReadOptional(data, old(offset))
    {
      hide ReadText, ReadU8;
      var d, flag := ReadByte();
      if !d { return false, None; }
      if flag == 0 { return true, None; }
      if flag != 1 { return false, None; }
      var d', t := ReadString();
      return d', Some(t);
    }

    method ReadWords(n: nat) returns (done: bool, ws: seq<nat>)
      requires Going()
      modifies this
      ensures done == ReadU32s(data, old(offset), n).Got?
      ensures done ==> Going() && Got(ws, offset) == ReadU32s(data, old(offset), n)
    {
      hide ReadLE;
      ws := [];
      var i := 0;
      ghost var start := offset;
      if n == 0 { return true, []; }
      BeforeNone(ReadU32s(data, start, n));
      while i < n
        invariant 0 <= i <= n && Going() && ReadU32s(data, start, n) == Before(ws, ReadU32s(data, offset, n - i))
      {
        ghost var at := offset;
        var d, w := ReadU32();
        if !d { return false, []; }
        BeforeMore(ws, w, ReadU32s(data, offset, n - i - 1));
        ws := ws + [w];
        i := i + 1;
      }
      BeforeAll(ws, offset);
      return true, ws;
    }

    method ReadNames(n: nat) returns (done: bool, ss: seq<Text>)
      requires Going()
      modifies this
      ensures done == ReadTexts(data, old(offset), n).Got?
      ensures done ==> Going() && Got(ss, offset) == ReadTexts(data, old(offset), n)
    {
      hide ReadText;
      ss := [];
      var i := 0;
      ghost var start := offset;
      BeforeNone(ReadTexts(data, start, n));
      while i < n
        invariant 0 <= i <= n && Going() && ReadTexts(data, start, n) == Before(ss, ReadTexts(data, offset, n - i))
      {
        var d, t := ReadString();
        if !d { return false, []; }
        BeforeMore(ss, t, ReadTexts(data, offset, n - i - 1));
        ss := ss + [t];
        i := i + 1;
      }
      BeforeAll(ss, offset);
      return true, ss;
    }

    method ReadDescriptors(n: nat) returns (done: bool, us: seq<UpvalDesc>)
      requires Going()
      modifies this
      ensures done == ReadUpvals(data, old(offset), n).Got?
      ensures done ==> Going() && Got(us, offset) == ReadUpvals(data, old(offset), n)
    {
      us := [];
      var i := 0;
      ghost var start := offset;
      BeforeNone(ReadUpvals(data, start, n));
      while i < n
        invariant 0 <= i <= n && Going() && ReadUpvals(data, start, n) == Before(us, ReadUpvals(data, offset, n - i))
      {
        ghost var at := offset;
        var d, index := ReadByte();
        if !d { return false, []; }
        var d', isLocal := ReadByte();
        if !d' { return false, []; }
        var desc := UpvalDesc(index, if isLocal != 0 then 1 else 0);
        assert Raw(data, at, 2).Got? && Raw(data, at, 2).v == [index, isLocal];
        BeforeMore(us, desc, ReadUpvals(data, offset, n - i - 1));
        us := us + [desc];
        i := i + 1;
      }
      BeforeAll(us, offset);
      return true, us;
    }

    method ReadHead() returns (done: bool, h: Header)
      requires Going()
      modifies this
      ensures done == ReadHeader(data, old(offset)).Got?
      ensures done ==> Going() && Got(h, offset) == ReadHeader(data, old(offset))
    {
      hide UnLE, Raw;
      ghost var at := offset;
      h := Header(0, 0, false, [], 0, 0, 0, 0);
      RawFits(data);
      var d, arity := ReadInt();
      if !d { return false, h; }
      var d1, regs := ReadInt();
      if !d1 { return false, h; }
      var d2, isProcess := ReadByte();
      if !d2 { return false, h; }
      var d3, privates := ReadRaw(16);
      if !d3 { return false, h; }
      var d4, codes := ReadInt();
      if !d4 { return false, h; }
      var d5, lines := ReadInt();
      if !d5 { return false, h; }
      var d6, consts := ReadInt();
      if !d6 { return false, h; }
      var d7, upvals := ReadInt();
      if !d7 { return false, h; }
      HeaderPieces(data, at);
      return true, Header(arity, regs, isProcess != 0, privates, codes, lines, consts, upvals);
    }

    method ReadEnd(n: nat, minor: nat) returns (done: bool, t: Bytecode.Tail)
      requires Going()
      modifies this
      ensures done == ReadTail(data, old(offset), n, minor).Got?
      ensures done ==> Going() && Got(t, offset) == ReadTail(data, old(offset), n, minor)
    {
      hide ReadUpvals, ReadOptional, ReadLE;
      t := Bytecode.Tail([], None, None, 0);
      var d, us := ReadDescriptors(n);
      if !d { return false, t; }
      var d1, name := ReadOptionalString();
      if !d1 { return false, t; }
      var d2, source := ReadOptionalString();
      if !d2 { return false, t; }
      var g := 0;
      if minor >= 2 {
        var d3, generic := ReadInt();
        if !d3 { return false, t; }
        g := generic;
      }
      return true, Bytecode.Tail(us, name, source, g);
    }

    /** A function, or nothing. */
    method ReadFunction(minor: nat) returns (fn: Option<Func>)
      requires Going()
      modifies this
      ensures fn.Some? == ReadFunc(data, old(offset), minor).Got?
      ensures fn.Some? ==> Going() && Got(fn.value, offset) == ReadFunc(data, old(offset), minor)
      decreases |data| - offset, 0, 2
    {
      hide ReadHeader, ReadU32s, ReadConsts, ReadTail;
      var d, h := ReadHead();
      if !d || !SaneHeader(h) { return None; }
      var d1, code := ReadWords(h.codes);
      if !d1 { return None; }
      var d2, ls := ReadWords(h.lines);
      if !d2 { return None; }
      var d3, cs := ReadConstants(h.consts, minor);
      if !d3 { return None; }
      var d4, t := ReadEnd(h.upvals, minor);
      if !d4 { return None; }
      return Some(Func(h.arity, h.regs, h.isProcess, h.privates, code, if h.lines == 0 then Zeros(h.codes)
          else SignedAll(ls), cs,
                       t.upvals, t.name, t.source, t.genericArity));
    }

    method ReadConstants(n: nat, minor: nat) returns (done: bool, cs: seq<Const>)
      requires Going()
      modifies this
      ensures done == ReadConsts(data, old(offset), n, minor).Got?
      ensures done ==> Going() && Got(cs, offset) == ReadConsts(data, old(offset), n, minor)
      decreases |data| - offset, 0, 1
    {
      hide ReadConst;
      cs := [];
      var i := 0;
      ghost var start := offset;
      BeforeNone(ReadConsts(data, start, n, minor));
      while i < n
        invariant 0 <= i <= n && Going() && offset >= start &&
                  ReadConsts(data, start, n, minor) == Before(cs, ReadConsts(data, offset, n - i, minor))
      {
        var d, c := ReadValue(minor);
        if !d { return false, []; }
        BeforeMore(cs, c, ReadConsts(data, offset, n - i - 1, minor));
        cs := cs + [c];
        i := i + 1;
      }
      BeforeAll(cs, offset);
      return true, cs;
    }

    method ReadValue(minor: nat) returns (done: bool, c: Const)
      requires Going()
      modifies this
      ensures done == ReadConst(data, old(offset), minor).Got?
      ensures done ==> Going() && Got(c, offset) == ReadConst(data, old(offset), minor)
      decreases |data| - offset, 0, 0
    {
      hide ReadFunc, ReadText, ReadLE, ReadStructDef;
      c := Nil;
      var d, tag := ReadByte();
      if !d { return false, c; }
      if tag == 0 {
        return true, Nil;
      } else if tag == 1 {
        var d1, b := ReadByte();
        return d1, Bool(b != 0);
      } else if tag == 2 {
        var d1, u := ReadBits();
        return d1, Int64(Signed(u, TWO64));
      } else if tag == 3 {
        var d1, u := ReadBits();
        return d1, Float64(u);
      } else if tag == 4 {
        var d1, s := ReadString();
        return d1, Str(s);
      } else if tag == 5 || tag == 6 {
        var fn := ReadFunction(minor);
        if fn.None? { return false, c; }
        return true, if tag == 5 then FuncC(fn.value) else ClosureC(fn.value, 0);
      } else if tag == 8 {
        done, c := ReadStruct();
      } else {
        done := false;
      }
    }

    method ReadStruct() returns (done: bool, c: Const)
      requires Going()
      modifies this
      ensures done == ReadStructDef(data, old(offset)).Got?
      ensures done ==> Going() && Got(c, offset) == ReadStructDef(data, old(offset))
    {
      hide ReadText, ReadLE, ReadTexts;
      c := Nil;
      var d, name := ReadString();
      if !d { return false, c; }
      var d1, n := ReadU32();
      if !d1 { return false, c; }
      var d2, fields := ReadNames(n);
      if !d2 { return false, c; }
      return true, StructDef(name, fields);
    }
  }

  lemma RawFits(data: seq<byte>)
    ensures forall e: nat, n: nat :: Raw(data, e, n).Got? <==> e + n <= |data|
  {
  }

  lemma Sub(data: seq<byte>, at: nat, k: nat, n: nat)
    requires at + 41 <= |data| && k + n <= 41
    ensures data[at..at + 41][k..k + n] == data[at + k..at + k + n]
  {
    var x, y := data[at..at + 41][k..k + n], data[at + k..at + k + n];
    forall i | 0 <= i < n ensures x[i] == y[i] { assert data[at..at + 41][k + i] == data[at + k + i]; }
    assert x == y;
  }

  /** The fields of a header, read one after the other. */
  lemma HeaderPieces(data: seq<byte>, at: nat)
    requires at + 41 <= |data|
    ensures ReadHeader(data, at) ==
              Got(Header(ReadI32(data, at).v, ReadI32(data, at + 4).v, ReadU8(data, at + 8).v != 0,
                  Raw(data, at + 9, 16).v,
                         ReadI32(data, at + 25).v, ReadI32(data, at + 29).v, ReadI32(data, at + 33).v,
                             ReadI32(data, at + 37).v), at + 41)
  {
    hide ReadI32;
    I32Sub(data, at, 0); I32Sub(data, at, 4); I32Sub(data, at, 25); I32Sub(data, at, 29); I32Sub(data, at, 33);
    I32Sub(data, at, 37);
    Sub(data, at, 9, 16);
    assert data[at..at + 41][8] == data[at + 8..at + 9][0];
  }

  lemma I32Sub(data: seq<byte>, at: nat, k: nat)
    requires at + 41 <= |data| && k + 4 <= 41
    ensures ReadI32(data[at..at + 41], k).Got? && ReadI32(data, at + k).Got? &&
            ReadI32(data[at..at + 41], k).v == ReadI32(data, at + k).v
  {
    hide UnLE;
    Sub(data, at, k, 4);
  }

  lemma FourDigits(b: seq<byte>)
    requires |b| == 4
    ensures UnLE(b) == b[0] as int + (b[1] as int) * 0x100 + (b[2] as int) * 0x10000 + (b[3] as int) * 0x1000000
  {
    assert UnLE(b[1..]) == b[1] as int + 256 * UnLE(b[2..]) by { assert b[1..][1..] == b[2..]; }
    assert UnLE(b[2..]) == b[2] as int + 256 * UnLE(b[3..]) by { assert b[2..][1..] == b[3..]; }
    assert UnLE(b[3..]) == b[3] as int + 256 * UnLE(b[4..]) by { assert b[3..][1..] == b[4..]; }
  }

  lemma DigitStep(bits: nat, shift: nat, d: nat, rest: nat)
    ensures bits + shift * (d + 256 * rest) == (bits + d * shift) + (shift * 256) * rest
  {
  }
}
