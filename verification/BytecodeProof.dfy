/** Reading what was written: round trips, truncation, and older files. */
module BytecodeProof {
  import opened Bytecode

  /** b lies in data at the offset. */
  ghost predicate Has(data: seq<byte>, at: nat, b: seq<byte>) {
    at + |b| <= |data| && data[at..at + |b|] == b
  }

  lemma HasSplit(data: seq<byte>, at: nat, a: seq<byte>, b: seq<byte>)
    requires Has(data, at, a + b)
    ensures Has(data, at, a) && Has(data, at + |a|, b)
  {
    var w := data[at..at + |a + b|];
    assert data[at..at + |a|] == w[..|a|];
    assert data[at + |a|..at + |a| + |b|] == w[|a|..];
  }

  lemma RawBack(data: seq<byte>, at: nat, b: seq<byte>)
    requires Has(data, at, b)
    ensures Raw(data, at, |b|) == Got(b, at + |b|)
  {
  }

  lemma U8Back(data: seq<byte>, at: nat, b: byte)
    requires Has(data, at, [b])
    ensures ReadU8(data, at) == Got(b, at + 1)
  {
    RawBack(data, at, [b]);
  }

  lemma LEBack(data: seq<byte>, at: nat, n: nat, k: nat)
    requires Has(data, at, LE(n, k)) && n < Pow256(k)
    ensures ReadLE(data, at, k) == Got(n, at + k)
  {
    RawBack(data, at, LE(n, k));
    UnLEOfLE(n, k);
  }

  lemma I32Back(data: seq<byte>, at: nat, n: int)
    requires -TWO31 <= n < TWO31 && Has(data, at, WriteI32(n))
    ensures ReadI32(data, at) == Got(n, at + 4)
  {
    Powers();
    LEBack(data, at, Unsigned(n, TWO32), 4);
  }

  lemma TextBack(data: seq<byte>, at: nat, s: Text)
    requires |s| < TWO31 && Has(data, at, WriteText(s))
    ensures ReadText(data, at) == Got(s, at + |WriteText(s)|)
  {
    hide Has, Raw, ReadLE;
    Powers();
    HasSplit(data, at, LE(|s|, 4), s);
    LEBack(data, at, |s|, 4);
    RawBack(data, at + 4, s);
  }

  lemma OptionalBack(data: seq<byte>, at: nat, s: Option<Text>)
    requires (s.Some? ==> |s.value| < TWO31) && Has(data, at, WriteOptional(s))
    ensures ReadOptional(data, at) == Got(s, at + |WriteOptional(s)|)
  {
    hide Has, Raw, ReadText, ReadU8, WriteText;
    if s.None? {
      U8Back(data, at, 0);
    } else {
      HasSplit(data, at, [1], WriteText(s.value));
      U8Back(data, at, 1);
      TextBack(data, at + 1, s.value);
    }
  }

  lemma {:induction false} TextsBack(data: seq<byte>, at: nat, ss: seq<Text>)
    requires (forall i :: 0 <= i < |ss| ==> |ss[i]| < TWO31) && Has(data, at, WriteTexts(ss))
    ensures ReadTexts(data, at, |ss|) == Got(ss, at + |WriteTexts(ss)|)
    decreases |ss|
  {
    hide Has, ReadText, WriteText;
    if ss != [] {
      HasSplit(data, at, WriteText(ss[0]), WriteTexts(ss[1..]));
      TextBack(data, at, ss[0]);
      TextsBack(data, at + |WriteText(ss[0])|, ss[1..]);
      assert [ss[0]] + ss[1..] == ss;
    }
  }

  lemma {:induction false} U32sBack(data: seq<byte>, at: nat, ws: seq<nat>)
    requires (forall i :: 0 <= i < |ws| ==> ws[i] < TWO32) && Has(data, at, WriteU32s(ws))
    ensures ReadU32s(data, at, |ws|) == Got(ws, at + |WriteU32s(ws)|)
    decreases |ws|
  {
    hide Has, ReadLE, LE;
    if ws != [] {
      Powers();
      HasSplit(data, at, LE(ws[0], 4), WriteU32s(ws[1..]));
      LEBack(data, at, ws[0], 4);
      U32sBack(data, at + 4, ws[1..]);
      assert [ws[0]] + ws[1..] == ws;
    }
  }

  lemma {:induction false} UpvalsBack(data: seq<byte>, at: nat, us: seq<UpvalDesc>)
    requires (forall i :: 0 <= i < |us| ==> us[i].isLocal <= 1) && Has(data, at, WriteUpvals(us))
    ensures ReadUpvals(data, at, |us|) == Got(us, at + |WriteUpvals(us)|)
    decreases |us|
  {
    hide Has, Raw;
    if us != [] {
      var b := [us[0].index, us[0].isLocal];
      HasSplit(data, at, b, WriteUpvals(us[1..]));
      RawBack(data, at, b);
      UpvalsBack(data, at + 2, us[1..]);
      assert [us[0]] + us[1..] == us;
    }
  }

  lemma HeaderBack(data: seq<byte>, at: nat, h: Header)
    requires FitsHeader(h) && Has(data, at, WriteHeader(h))
    ensures ReadHeader(data, at) == Got(h, at + 41)
  {
    hide Has, Raw, ReadI32, WriteI32;
    var b := WriteHeader(h);
    RawBack(data, at, b);
    HeaderParts(h);
    I32Back(b, 0, h.arity);
    I32Back(b, 4, h.regs);
    I32Back(b, 25, h.codes);
    I32Back(b, 29, h.lines);
    I32Back(b, 33, h.consts);
    I32Back(b, 37, h.upvals);
  }

  lemma I32Size(n: int)
    requires -TWO31 <= n < TWO31
    ensures |WriteI32(n)| == 4
  {
  }

  /** Where the fields of a header are. */
  lemma HeaderParts(h: Header)
    requires FitsHeader(h)
    ensures var b := WriteHeader(h);
            |b| == 41 && Has(b, 0, WriteI32(h.arity)) && Has(b, 4, WriteI32(h.regs)) && b[8] == Flag(h.isProcess) &&
            b[9..25] == h.privates &&
            Has(b, 25, WriteI32(h.codes)) && Has(b, 29, WriteI32(h.lines)) && Has(b, 33, WriteI32(h.consts)) &&
            Has(b, 37, WriteI32(h.upvals))
  {
    hide WriteI32;
    I32Size(h.arity); I32Size(h.regs); I32Size(h.codes); I32Size(h.lines); I32Size(h.consts); I32Size(h.upvals);
  }

  // ---------------------------------------------------------------- round trip

  /** What a written function is read back as: without debug information there are no names, no
      source and only zero lines, at every level; before minor version 2 there are no type parameters. */
  function Loaded(f: Func, strip: bool, minor: nat): Func
    decreases f, 1
  {
    f.(lines := if strip then Zeros(|f.code|) else f.lines, constants := LoadedConsts(f.constants, strip, minor),
       name := if strip then None else f.name, source := if strip then None
           else f.source, genericArity := if minor >= 2 then f.genericArity else 0)
  }

  function LoadedConsts(cs: seq<Const>, strip: bool, minor: nat): (r: seq<Const>)
    ensures |r| == |cs|
    decreases cs, 0
  {
    if cs == [] then [] else [LoadedConst(cs[0], strip, minor)] + LoadedConsts(cs[1..], strip, minor)
  }

  function LoadedConst(c: Const, strip: bool, minor: nat): Const
    decreases c, 0
  {
    match c
    case FuncC(fn) => FuncC(Loaded(fn, strip, minor))
    case ClosureC(fn, n) => ClosureC(Loaded(fn, strip, minor), n)
    case _ => c
  }

  function TailBytes(upvals: seq<UpvalDesc>, name: Option<Text>, source: Option<Text>, g: int, minor: nat): seq<byte>
    requires -TWO31 <= g < TWO31
  {
    WriteUpvals(upvals) + (WriteOptional(name) + (WriteOptional(source) + if minor >= 2 then WriteI32(g) else []))
  }

  lemma TailBack(data: seq<byte>, at: nat, us: seq<UpvalDesc>, name: Option<Text>, source: Option<Text>, g: int,
        minor: nat)
    requires -TWO31 <= g < TWO31 && (forall i :: 0 <= i < |us| ==> us[i].isLocal <= 1)
    requires (name.Some? ==> |name.value| < TWO31) && (source.Some? ==> |source.value| < TWO31)
    requires Has(data, at, TailBytes(us, name, source, g, minor))
    ensures ReadTail(data, at, |us|, minor) ==
            Got(Tail(us, name, source, if minor >= 2 then g else 0), at + |TailBytes(us, name, source, g, minor)|)
  {
    hide Has, ReadUpvals, ReadOptional, ReadI32, WriteUpvals, WriteOptional, WriteI32;
    var last := if minor >= 2 then WriteI32(g) else [];
    HasSplit(data, at, WriteUpvals(us), WriteOptional(name) + (WriteOptional(source) + last));
    UpvalsBack(data, at, us);
    var e := at + |WriteUpvals(us)|;
    HasSplit(data, e, WriteOptional(name), WriteOptional(source) + last);
    OptionalBack(data, e, name);
    var e' := e + |WriteOptional(name)|;
    HasSplit(data, e', WriteOptional(source), last);
    OptionalBack(data, e', source);
    if minor >= 2 {
      I32Back(data, e' + |WriteOptional(source)|, g);
      I32Size(g);
    }
  }

  /** A function's bytes, grouped as they are read. */
  lemma FuncBytes(f: Func, strip: bool, minor: nat)
    requires Fits(f) && WriteFunc(f, strip, minor).Some?
    ensures WriteConsts(f.constants, strip, minor).Some?
    ensures WriteFunc(f, strip, minor).value ==
              WriteHeader(HeaderOf(f, strip)) +
                  (WriteU32s(f.code) + ((if strip then [] else WriteU32s(LineWords(f.lines))) +
              (WriteConsts(f.constants, strip, minor).value +
               TailBytes(f.upvals, if strip then None else f.name, if strip then None
                   else f.source, f.genericArity, minor))))
  {
    hide WriteHeader, WriteU32s, WriteUpvals, WriteOptional, WriteI32, WriteConsts;
  }

  lemma LinesBack(f: Func)
    requires Fits(f)
    ensures SignedAll(LineWords(f.lines)) == f.lines
  {
  }

  /** Every function that can be written is read back, whatever stands before and behind it, and
      exactly its bytes are consumed. */
  lemma {:induction false} FuncBack(data: seq<byte>, at: nat, f: Func, strip: bool, minor: nat)
    requires Fits(f) && WriteFunc(f, strip, minor).Some? && Has(data, at, WriteFunc(f, strip, minor).value)
    ensures ReadFunc(data, at, minor) == Got(Loaded(f, strip, minor), at + |WriteFunc(f, strip, minor).value|)
    decreases f, 1
  {
    hide Has, WriteHeader, WriteU32s, WriteConsts, WriteConst, TailBytes, WriteFunc, ReadFunc, ReadConsts, FitsConst,
        LoadedConsts, Loaded, ReadTail;
    FuncBytes(f, strip, minor);
    var cs := WriteConsts(f.constants, strip, minor).value;
    var ls := if strip then [] else WriteU32s(LineWords(f.lines));
    var tail := TailBytes(f.upvals, if strip then None else f.name, if strip then None
        else f.source, f.genericArity, minor);
    var c := WriteU32s(f.code);
    HasSplit(data, at, WriteHeader(HeaderOf(f, strip)), c + (ls + (cs + tail)));
    HasSplit(data, at + 41, c, ls + (cs + tail));
    var e := at + 41 + |c|;
    HasSplit(data, e, ls, cs + tail);
    HasSplit(data, e + |ls|, cs, tail);
    ConstsBack(data, e + |ls|, f.constants, strip, minor);
    Assembled(data, at, f, strip, minor, ls, |cs|, tail);
  }

  /** The parts of a function put together. */
  lemma Assembled(data: seq<byte>, at: nat, f: Func, strip: bool, minor: nat, ls: seq<byte>, size: nat, tail: seq<byte>)
    requires Fits(f) && Has(data, at, WriteHeader(HeaderOf(f, strip))) && Has(data, at + 41, WriteU32s(f.code))
    requires ls == (if strip then [] else WriteU32s(LineWords(f.lines))) && Has(data, at + 41 + |WriteU32s(f.code)|, ls)
    requires var e := at + 41 + |WriteU32s(f.code)| + |ls|;
             ReadConsts(data, e, |f.constants|, minor) == Got(LoadedConsts(f.constants, strip, minor), e + size) &&
             tail == TailBytes(f.upvals, if strip then None else f.name, if strip then None
                 else f.source, f.genericArity, minor) && Has(data, e + size, tail)
    ensures ReadFunc(data, at, minor) ==
            Got(Loaded(f, strip, minor), at + 41 + |WriteU32s(f.code)| + |ls| + size + |tail|)
  {
    hide Has, WriteHeader, WriteU32s, TailBytes, ReadHeader, ReadU32s, ReadConsts, ReadTail, FitsConst, LoadedConsts;
    HeaderBack(data, at, HeaderOf(f, strip));
    U32sBack(data, at + 41, f.code);
    var e := at + 41 + |WriteU32s(f.code)|;
    LineTable(data, e, f, strip);
    LinesBack(f);
    TailBack(data, e + |ls| + size, f.upvals, if strip then None else f.name, if strip then None
        else f.source, f.genericArity, minor);
  }

  lemma LineTable(data: seq<byte>, at: nat, f: Func, strip: bool)
    requires Fits(f) && Has(data, at, if strip then [] else WriteU32s(LineWords(f.lines)))
    ensures ReadU32s(data, at, HeaderOf(f, strip).lines) ==
              if strip then Got([], at) else Got(LineWords(f.lines), at + |WriteU32s(LineWords(f.lines))|)
  {
    hide Has, ReadLE;
    if !strip { U32sBack(data, at, LineWords(f.lines)); }
  }

  lemma {:induction false} ConstsBack(data: seq<byte>, at: nat, cs: seq<Const>, strip: bool, minor: nat)
    requires (forall i :: 0 <= i < |cs| ==> FitsConst(cs[i])) && WriteConsts(cs, strip, minor).Some?
    requires Has(data, at, WriteConsts(cs, strip, minor).value)
    ensures ReadConsts(data, at, |cs|, minor) ==
            Got(LoadedConsts(cs, strip, minor), at + |WriteConsts(cs, strip, minor).value|)
    decreases cs, 0
  {
    hide Has, ReadConst, WriteConst, LoadedConst, FitsConst;
    if cs != [] {
      var b := WriteConst(cs[0], strip, minor).value;
      HasSplit(data, at, b, WriteConsts(cs[1..], strip, minor).value);
      ConstBack(data, at, cs[0], strip, minor);
      ConstsBack(data, at + |b|, cs[1..], strip, minor);
    }
  }

  lemma {:induction false} ConstBack(data: seq<byte>, at: nat, c: Const, strip: bool, minor: nat)
    requires FitsConst(c) && WriteConst(c, strip, minor).Some? && Has(data, at, WriteConst(c, strip, minor).value)
    ensures ReadConst(data, at, minor) == Got(LoadedConst(c, strip, minor), at + |WriteConst(c, strip, minor).value|)
    decreases c, 0
  {
    hide Has, ReadFunc, WriteFunc, ReadText, WriteText, ReadU8, ReadLE, LE, ReadStructDef, Loaded, WriteTexts;
    if c.FuncC? || c.ClosureC? {
      var tag := if c.FuncC? then 5 else 6;
      HasSplit(data, at, [tag], WriteFunc(c.fn, strip, minor).value);
      U8Back(data, at, tag);
      FuncBack(data, at + 1, c.fn, strip, minor);
    } else {
      LeafBack(data, at, c, strip, minor);
    }
  }

  lemma LeafBack(data: seq<byte>, at: nat, c: Const, strip: bool, minor: nat)
    requires !c.FuncC? && !c.ClosureC?
    requires FitsConst(c) && WriteConst(c, strip, minor).Some? && Has(data, at, WriteConst(c, strip, minor).value)
    ensures ReadConst(data, at, minor) == Got(c, at + |WriteConst(c, strip, minor).value|)
  {
    hide Has, ReadText, WriteText, ReadU8, ReadLE, LE, ReadStructDef, WriteTexts;
    Powers();
    match c
    case Nil => U8Back(data, at, 0);
    case Bool(b) =>
      assert [1] + [Flag(b)] == [1, Flag(b)];
      HasSplit(data, at, [1], [Flag(b)]);
      U8Back(data, at, 1);
      U8Back(data, at + 1, Flag(b));
    case Int64(n) =>
      HasSplit(data, at, [2], LE(Unsigned(n, TWO64), 8));
      U8Back(data, at, 2);
      LEBack(data, at + 1, Unsigned(n, TWO64), 8);
    case Float64(bits) =>
      HasSplit(data, at, [3], LE(bits, 8));
      U8Back(data, at, 3);
      LEBack(data, at + 1, bits, 8);
    case Str(s) =>
      HasSplit(data, at, [4], WriteText(s));
      U8Back(data, at, 4);
      TextBack(data, at + 1, s);
    case StructDef(name, fields) =>
      var rest := WriteText(name) + (LE(|fields|, 4) + WriteTexts(fields));
      assert WriteConst(c, strip, minor).value == [8] + rest;
      HasSplit(data, at, [8], rest);
      U8Back(data, at, 8);
      StructDefBack(data, at + 1, name, fields);
  }

  lemma StructDefBack(data: seq<byte>, at: nat, name: Text, fields: seq<Text>)
    requires FitsConst(StructDef(name, fields)) &&
             Has(data, at, WriteText(name) + (LE(|fields|, 4) + WriteTexts(fields)))
    ensures ReadStructDef(data, at) ==
            Got(StructDef(name, fields), at + |WriteText(name) + (LE(|fields|, 4) + WriteTexts(fields))|)
  {
    hide Has, ReadText, WriteText, ReadLE, LE, ReadTexts, WriteTexts;
    Powers();
    HasSplit(data, at, WriteText(name), LE(|fields|, 4) + WriteTexts(fields));
    TextBack(data, at, name);
    var e := at + |WriteText(name)|;
    HasSplit(data, e, LE(|fields|, 4), WriteTexts(fields));
    LEBack(data, e, |fields|, 4);
    TextsBack(data, e + 4, fields);
  }

  /** A function is written unless somewhere in its tree there is a captured closure or a value that
      is not a constant. */
  predicate Dumpable(f: Func)
    decreases f, 1
  {
    forall i :: 0 <= i < |f.constants| ==> DumpableConst(f.constants[i])
  }

  predicate DumpableConst(c: Const)
    decreases c, 0
  {
    match c
    case FuncC(fn) => Dumpable(fn)
    case ClosureC(fn, n) => n == 0 && Dumpable(fn)
    case Opaque => false
    case _ => true
  }

  lemma {:induction false} WritesExactly(f: Func, strip: bool, minor: nat)
    requires Fits(f)
    ensures WriteFunc(f, strip, minor).Some? <==> Dumpable(f)
    decreases f, 1
  {
    hide FitsConst, WriteConst, DumpableConst, WriteHeader, WriteU32s, WriteUpvals, WriteOptional, WriteI32;
    ConstsExactly(f.constants, strip, minor);
  }

  lemma {:induction false} ConstsExactly(cs: seq<Const>, strip: bool, minor: nat)
    requires forall i :: 0 <= i < |cs| ==> FitsConst(cs[i])
    ensures WriteConsts(cs, strip, minor).Some? <==> forall i :: 0 <= i < |cs| ==> DumpableConst(cs[i])
    decreases cs, 0
  {
    hide WriteConst, DumpableConst, FitsConst;
    if cs != [] {
      ConstExactly(cs[0], strip, minor);
      ConstsExactly(cs[1..], strip, minor);
    }
  }

  lemma {:induction false} ConstExactly(c: Const, strip: bool, minor: nat)
    requires FitsConst(c)
    ensures WriteConst(c, strip, minor).Some? <==> DumpableConst(c)
    decreases c, 0
  {
    hide WriteFunc;
    if c.FuncC? || c.ClosureC? { WritesExactly(c.fn, strip, minor); }
  }

  // ---------------------------------------------------------------- locality

  /** Two inputs that agree up to e. */
  ghost predicate Same(data: seq<byte>, data': seq<byte>, e: nat) {
    e <= |data| && e <= |data'| && data[..e] == data'[..e]
  }

  lemma SameShorter(data: seq<byte>, data': seq<byte>, e: nat, e': nat)
    requires Same(data, data', e) && e' <= e
    ensures Same(data, data', e')
  {
    assert data[..e'] == data[..e][..e'];
    assert data'[..e'] == data'[..e][..e'];
  }

  lemma RawLocal(data: seq<byte>, data': seq<byte>, at: nat, n: nat)
    requires Raw(data, at, n).Got? && Same(data, data', at + n)
    ensures Raw(data', at, n) == Raw(data, at, n)
  {
    assert data[at..at + n] == data[..at + n][at..];
    assert data'[at..at + n] == data'[..at + n][at..];
  }

  lemma TextLocal(data: seq<byte>, data': seq<byte>, at: nat)
    requires ReadText(data, at).Got? && Same(data, data', ReadText(data, at).at)
    ensures ReadText(data', at) == ReadText(data, at)
  {
    hide Same, Raw;
    var end := ReadText(data, at).at;
    SameShorter(data, data', end, at + 4);
    RawLocal(data, data', at, 4);
    RawLocal(data, data', at + 4, ReadLE(data, at, 4).v);
  }

  lemma OptionalLocal(data: seq<byte>, data': seq<byte>, at: nat)
    requires ReadOptional(data, at).Got? && Same(data, data', ReadOptional(data, at).at)
    ensures ReadOptional(data', at) == ReadOptional(data, at)
  {
    hide Same, Raw, ReadText;
    SameShorter(data, data', ReadOptional(data, at).at, at + 1);
    RawLocal(data, data', at, 1);
    if ReadU8(data, at).v == 1 { TextLocal(data, data', at + 1); }
  }

  lemma {:induction false} TextsLocal(data: seq<byte>, data': seq<byte>, at: nat, n: nat)
    requires ReadTexts(data, at, n).Got? && Same(data, data', ReadTexts(data, at, n).at)
    ensures ReadTexts(data', at, n) == ReadTexts(data, at, n)
    decreases n
  {
    hide Same, ReadText;
    if n > 0 {
      var r := ReadText(data, at);
      SameShorter(data, data', ReadTexts(data, at, n).at, r.at);
      TextLocal(data, data', at);
      TextsLocal(data, data', r.at, n - 1);
    }
  }

  lemma {:induction false} U32sLocal(data: seq<byte>, data': seq<byte>, at: nat, n: nat)
    requires ReadU32s(data, at, n).Got? && Same(data, data', at + 4 * n)
    ensures ReadU32s(data', at, n) == ReadU32s(data, at, n)
    decreases n
  {
    hide Same, Raw;
    if n > 0 {
      SameShorter(data, data', at + 4 * n, at + 4);
      RawLocal(data, data', at, 4);
      U32sLocal(data, data', at + 4, n - 1);
    }
  }

  lemma {:induction false} UpvalsLocal(data: seq<byte>, data': seq<byte>, at: nat, n: nat)
    requires ReadUpvals(data, at, n).Got? && Same(data, data', at + 2 * n)
    ensures ReadUpvals(data', at, n) == ReadUpvals(data, at, n)
    decreases n
  {
    hide Same, Raw;
    if n > 0 {
      SameShorter(data, data', at + 2 * n, at + 2);
      RawLocal(data, data', at, 2);
      UpvalsLocal(data, data', at + 2, n - 1);
    }
  }

  lemma TailLocal(data: seq<byte>, data': seq<byte>, at: nat, n: nat, minor: nat)
    requires ReadTail(data, at, n, minor).Got? && Same(data, data', ReadTail(data, at, n, minor).at)
    ensures ReadTail(data', at, n, minor) == ReadTail(data, at, n, minor)
  {
    hide Same, Raw, ReadUpvals, ReadOptional;
    var end := ReadTail(data, at, n, minor).at;
    var e := at + 2 * n;
    var e' := ReadOptional(data, e).at;
    var e'' := ReadOptional(data, e').at;
    SameShorter(data, data', end, e);
    SameShorter(data, data', end, e');
    SameShorter(data, data', end, e'');
    UpvalsLocal(data, data', at, n);
    OptionalLocal(data, data', e);
    OptionalLocal(data, data', e');
    if minor >= 2 { RawLocal(data, data', e'', 4); }
  }

  /** Reading looks at nothing behind what it consumes. */
  lemma {:induction false} FuncLocal(data: seq<byte>, data': seq<byte>, at: nat, minor: nat)
    requires ReadFunc(data, at, minor).Got? && Same(data, data', ReadFunc(data, at, minor).at)
    ensures ReadFunc(data', at, minor) == ReadFunc(data, at, minor)
    decreases |data| - at, 0, 2
  {
    hide Same, Raw, ReadU32s, ReadConsts, ReadTail;
    var end := ReadFunc(data, at, minor).at;
    var h := ReadHeader(data, at).v;
    var e := at + 41;
    var e1 := e + 4 * h.codes;
    var e2 := e1 + 4 * h.lines;
    var e3 := ReadConsts(data, e2, h.consts, minor).at;
    SameShorter(data, data', end, e);
    SameShorter(data, data', end, e1);
    SameShorter(data, data', end, e2);
    SameShorter(data, data', end, e3);
    RawLocal(data, data', at, 41);
    U32sLocal(data, data', e, h.codes);
    U32sLocal(data, data', e1, h.lines);
    ConstsLocal(data, data', e2, h.consts, minor);
    TailLocal(data, data', e3, h.upvals, minor);
  }

  lemma {:induction false} ConstsLocal(data: seq<byte>, data': seq<byte>, at: nat, n: nat, minor: nat)
    requires ReadConsts(data, at, n, minor).Got? && at <= |data| && Same(data, data', ReadConsts(data, at, n, minor).at)
    ensures ReadConsts(data', at, n, minor) == ReadConsts(data, at, n, minor)
    decreases |data| - at, n, 1
  {
    hide Same, ReadConst;
    if n > 0 {
      var r := ReadConst(data, at, minor);
      SameShorter(data, data', ReadConsts(data, at, n, minor).at, r.at);
      ConstLocal(data, data', at, minor);
      ConstsLocal(data, data', r.at, n - 1, minor);
    }
  }

  lemma {:induction false} ConstLocal(data: seq<byte>, data': seq<byte>, at: nat, minor: nat)
    requires ReadConst(data, at, minor).Got? && at <= |data| && Same(data, data', ReadConst(data, at, minor).at)
    ensures ReadConst(data', at, minor) == ReadConst(data, at, minor)
    decreases |data| - at, 0, 0
  {
    hide Same, Raw, ReadText, ReadFunc, ReadStructDef;
    var end := ReadConst(data, at, minor).at;
    SameShorter(data, data', end, at + 1);
    RawLocal(data, data', at, 1);
    var tag := ReadU8(data, at).v;
    if tag == 1 {
      RawLocal(data, data', at + 1, 1);
    } else if tag == 2 || tag == 3 {
      RawLocal(data, data', at + 1, 8);
    } else if tag == 4 {
      TextLocal(data, data', at + 1);
    } else if tag == 5 || tag == 6 {
      FuncLocal(data, data', at + 1, minor);
    } else if tag == 8 {
      StructDefLocal(data, data', at + 1);
    }
  }

  lemma StructDefLocal(data: seq<byte>, data': seq<byte>, at: nat)
    requires ReadStructDef(data, at).Got? && Same(data, data', ReadStructDef(data, at).at)
    ensures ReadStructDef(data', at) == ReadStructDef(data, at)
  {
    hide Same, Raw, ReadText, ReadTexts;
    var end := ReadStructDef(data, at).at;
    var e := ReadText(data, at).at;
    SameShorter(data, data', end, e);
    SameShorter(data, data', end, e + 4);
    TextLocal(data, data', at);
    RawLocal(data, data', e, 4);
    TextsLocal(data, data', e + 4, ReadLE(data, e, 4).v);
  }

  // ---------------------------------------------------------------- the main results

  /** A written function read from the middle of anything: the same function, its bytes consumed. */
  lemma RoundTrip(f: Func, strip: bool, before: seq<byte>, rest: seq<byte>)
    requires Fits(f) && Dumpable(f)
    ensures WriteFunc(f, strip, 2).Some?
    ensures var b := WriteFunc(f, strip, 2).value;
            ReadFunc(before + b + rest, |before|, 2) == Got(Loaded(f, strip, 2), |before| + |b|)
  {
    hide WriteFunc, ReadFunc, Fits, Dumpable;
    WritesExactly(f, strip, 2);
    FuncBack(before + WriteFunc(f, strip, 2).value + rest, |before|, f, strip, 2);
  }

  /** With debug information nothing at all is lost. */
  lemma {:induction false} LoadedSame(f: Func)
    requires Dumpable(f)
    ensures Loaded(f, false, 2) == f
    decreases f, 1
  {
    hide DumpableConst, LoadedConst;
    LoadedConstsSame(f.constants);
  }

  lemma {:induction false} LoadedConstsSame(cs: seq<Const>)
    requires forall i :: 0 <= i < |cs| ==> DumpableConst(cs[i])
    ensures LoadedConsts(cs, false, 2) == cs
    decreases cs, 0
  {
    hide DumpableConst, LoadedConst;
    if cs != [] {
      LoadedConstSame(cs[0]);
      LoadedConstsSame(cs[1..]);
    }
  }

  lemma {:induction false} LoadedConstSame(c: Const)
    requires DumpableConst(c)
    ensures LoadedConst(c, false, 2) == c
    decreases c, 0
  {
    hide Loaded, Dumpable;
    if c.FuncC? || c.ClosureC? { LoadedSame(c.fn); }
  }

  /** A file cut short anywhere is refused. */
  lemma Truncated(f: Func, strip: bool, cut: seq<byte>)
    requires Fits(f) && Dumpable(f) && WriteFunc(f, strip, 2).Some? && cut < WriteFunc(f, strip, 2).value
    ensures ReadFunc(cut, 0, 2) == Fail
  {
    hide WriteFunc, ReadFunc, Fits, Dumpable;
    var b := WriteFunc(f, strip, 2).value;
    FuncBack(b, 0, f, strip, 2);
    if ReadFunc(cut, 0, 2).Got? {
      FuncLocal(cut, b, 0, 2);
    }
  }

  /** Bytes behind a function do not change how it is read. */
  lemma Appended(data: seq<byte>, more: seq<byte>, at: nat, minor: nat)
    requires ReadFunc(data, at, minor).Got?
    ensures ReadFunc(data + more, at, minor) == ReadFunc(data, at, minor)
  {
    FuncLocal(data, data + more, at, minor);
  }

  /** A file of minor version 1, which has no type-parameter counts, loads as the same function
      with none at any level. */
  lemma OlderFile(f: Func, strip: bool)
    requires Fits(f) && Dumpable(f)
    ensures WriteFunc(f, strip, 1).Some?
    ensures ReadFunc(WriteFunc(f, strip, 1).value, 0, 1) == Got(Loaded(f, strip, 1), |WriteFunc(f, strip, 1).value|)
  {
    hide WriteFunc, ReadFunc, Fits, Dumpable;
    WritesExactly(f, strip, 1);
    FuncBack(WriteFunc(f, strip, 1).value, 0, f, strip, 1);
  }
}
