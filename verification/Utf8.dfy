/** The utf8 module (RFC 3629): decoding and encoding of code points, whole strings, validity, and moving
    by code points. */
module Utf8 {
  import opened Widths

  type byte = x: int | 0 <= x < 256
  type Bytes = seq<byte>

  datatype Option<T> = None | Some(value: T)

  /** A decoded code point and the index after it. */
  datatype Decoded = Bad | Char(cp: int, next: nat)

  const MAX_UNICODE := 0x10FFFF

  predicate Scalar(cp: int) {
    0 <= cp <= MAX_UNICODE && !(0xD800 <= cp <= 0xDFFF)
  }

  predicate Continues(c: byte) { 0x80 <= c < 0xC0 }

  // ---------------------------------------------------------------- one code point

  /** How many continuation bytes a lead byte calls for, or -1. */
  function Extra(c: byte): int {
    if c < 0x80 then 0
    else if 0xC0 <= c < 0xE0 then 1
    else if 0xE0 <= c < 0xF0 then 2
    else if 0xF0 <= c < 0xF8 then 3
    else -1
  }

  /** The bits of the code point in a lead byte. */
  function LeadBits(c: byte): nat {
    if c < 0x80 then c else if c < 0xE0 then c % 32 else if c < 0xF0 then c % 16 else c % 8
  }

  /** Append the bits of k continuation bytes. */
  function Tail(s: Bytes, i: nat, k: nat, cp: nat): Option<nat>
    requires i + k <= |s|
    decreases k
  {
    if k == 0 then Some(cp) else if Continues(s[i]) then Tail(s, i + 1, k - 1, cp * 64 + s[i] % 64) else None
  }

  /** The least code point that needs n continuation bytes. */
  function Least(n: int): int {
    if n <= 0 then 0 else if n == 1 then 0x80 else if n == 2 then 0x800 else 0x10000
  }

  function DecodeOne(s: Bytes, i: nat): (r: Decoded)
    requires i < |s|
    ensures r.Char? ==> i < r.next <= |s|
  {
    var n := Extra(s[i]);
    if n < 0 || i + 1 + n > |s| then Bad
    else
      var cp := Tail(s, i + 1, n, LeadBits(s[i]));
      if cp.None? || !Scalar(cp.value) || cp.value < Least(n) then Bad else Char(cp.value, i + 1 + n)
  }

  function EncodeOne(cp: int): Bytes {
    if !Scalar(cp) then []
    else if cp < 0x80 then [cp]
    else if cp < 0x800 then [0xC0 + cp / 64, 0x80 + cp % 64]
    else if cp < 0x10000 then [0xE0 + cp / 4096, 0x80 + cp / 64 % 64, 0x80 + cp % 64]
    else [0xF0 + cp / 262144, 0x80 + cp / 4096 % 64, 0x80 + cp / 64 % 64, 0x80 + cp % 64]
  }

  predicate At(s: Bytes, i: nat, t: Bytes) {
    i + |t| <= |s| && forall k :: 0 <= k < |t| ==> s[i + k] == t[k]
  }

  lemma Tail1(s: Bytes, i: nat, cp: nat)
    requires i + 1 <= |s|
    ensures Tail(s, i, 1, cp) == if Continues(s[i]) then Some(cp * 64 + s[i] % 64) else None
  {
  }

  lemma Tail2(s: Bytes, i: nat, cp: nat)
    requires i + 2 <= |s|
    ensures Tail(s, i, 2, cp) == if Continues(s[i]) && Continues(s[i + 1]) then Some((cp * 64 + s[i] % 64) * 64 +
            s[i + 1] % 64) else None
  {
    Tail1(s, i + 1, cp * 64 + s[i] % 64);
  }

  lemma Tail3(s: Bytes, i: nat, cp: nat)
    requires i + 3 <= |s|
    ensures Tail(s, i, 3, cp) ==
      if Continues(s[i]) && Continues(s[i + 1]) && Continues(s[i + 2]) then Some(((cp * 64 + s[i] % 64) * 64 +
          s[i + 1] % 64) * 64 + s[i + 2] % 64) else None
  {
    Tail2(s, i + 1, cp * 64 + s[i] % 64);
  }

  lemma Shifts(cp: nat)
    ensures cp / 4096 == cp / 64 / 64 && cp / 262144 == cp / 64 / 64 / 64
  {
  }

  /** Four base-64 digits, joined and taken apart. */
  lemma Digits(a: nat, b: nat, c: nat, d: nat)
    requires b < 64 && c < 64 && d < 64
    ensures (a * 64 + b) / 64 == a && (a * 64 + b) % 64 == b
    ensures ((a * 64 + b) * 64 + c) / 64 == a * 64 + b && ((a * 64 + b) * 64 + c) % 64 == c
    ensures (((a * 64 + b) * 64 + c) * 64 + d) / 64 == (a * 64 + b) * 64 + c &&
            (((a * 64 + b) * 64 + c) * 64 + d) % 64 == d
  {
  }

  /** The lead bytes of the encodings. */
  lemma LeadOf(x: nat)
    ensures x < 32 ==> Extra(0xC0 + x) == 1 && LeadBits(0xC0 + x) == x
    ensures x < 16 ==> Extra(0xE0 + x) == 2 && LeadBits(0xE0 + x) == x
    ensures x < 8 ==> Extra(0xF0 + x) == 3 && LeadBits(0xF0 + x) == x
  {
  }

  lemma ContinuationOf(x: nat)
    requires x < 64
    ensures Continues(0x80 + x) && (0x80 + x) % 64 == x
  {
  }

  lemma LeadIs(c: byte)
    ensures Extra(c) == 0 ==> c == LeadBits(c) < 0x80
    ensures Extra(c) == 1 ==> c == 0xC0 + LeadBits(c) && LeadBits(c) < 32
    ensures Extra(c) == 2 ==> c == 0xE0 + LeadBits(c) && LeadBits(c) < 16
    ensures Extra(c) == 3 ==> c == 0xF0 + LeadBits(c) && LeadBits(c) < 8
    ensures -1 <= Extra(c) <= 3
  {
  }

  lemma ContinuationIs(c: byte)
    requires Continues(c)
    ensures c == 0x80 + c % 64
  {
  }

  /** An encoded scalar value decodes to itself. */
  lemma DecodeEncoded(s: Bytes, i: nat, cp: int)
    requires Scalar(cp) && At(s, i, EncodeOne(cp))
    ensures i < |s| && DecodeOne(s, i) == Char(cp, i + |EncodeOne(cp)|)
  {
    var t := EncodeOne(cp);
    assert s[i + 0] == t[0];
    if cp >= 0x10000 { Decode4(s, i, cp); } else if cp >= 0x800 { Decode3(s, i, cp); }
        else if cp >= 0x80 { Decode2(s, i, cp); }
  }

  lemma Decode2(s: Bytes, i: nat, cp: nat)
    requires 0x80 <= cp < 0x800 && At(s, i, EncodeOne(cp))
    ensures i < |s| && DecodeOne(s, i) == Char(cp, i + 2)
  {
    hide Tail, Extra, LeadBits, Continues;
    var t := EncodeOne(cp);
    assert s[i + 0] == t[0] && s[i + 1] == t[1];
    LeadOf(cp / 64);
    ContinuationOf(cp % 64);
    Tail1(s, i + 1, LeadBits(s[i]));
  }

  lemma Decode3(s: Bytes, i: nat, cp: nat)
    requires 0x800 <= cp < 0x10000 && Scalar(cp) && At(s, i, EncodeOne(cp))
    ensures i < |s| && DecodeOne(s, i) == Char(cp, i + 3)
  {
    hide Tail, Extra, LeadBits, Continues;
    var t := EncodeOne(cp);
    assert s[i + 0] == t[0] && s[i + 1] == t[1] && s[i + 2] == t[2];
    Shifts(cp);
    LeadOf(cp / 4096);
    ContinuationOf(cp / 64 % 64);
    ContinuationOf(cp % 64);
    Tail2(s, i + 1, LeadBits(s[i]));
  }

  lemma Decode4(s: Bytes, i: nat, cp: nat)
    requires 0x10000 <= cp && Scalar(cp) && At(s, i, EncodeOne(cp))
    ensures i < |s| && DecodeOne(s, i) == Char(cp, i + 4)
  {
    hide Tail, Extra, LeadBits, Continues;
    var t := EncodeOne(cp);
    assert s[i + 0] == t[0] && s[i + 1] == t[1] && s[i + 2] == t[2] && s[i + 3] == t[3];
    Shifts(cp);
    LeadOf(cp / 262144);
    ContinuationOf(cp / 4096 % 64);
    ContinuationOf(cp / 64 % 64);
    ContinuationOf(cp % 64);
    Tail3(s, i + 1, LeadBits(s[i]));
  }

  /** What decodes is the encoding of the scalar value it decodes to. */
  lemma EncodeDecoded(s: Bytes, i: nat)
    requires i < |s| && DecodeOne(s, i).Char?
    ensures Scalar(DecodeOne(s, i).cp) && s[i..DecodeOne(s, i).next] == EncodeOne(DecodeOne(s, i).cp)
  {
    LeadIs(s[i]);
    hide Tail, Extra, LeadBits, Continues;
    var n := Extra(s[i]);
    if n == 0 {
      TailNone(s, i + 1, LeadBits(s[i]));
    } else if n == 1 {
      Encode2(s, i);
    } else if n == 2 {
      Encode3(s, i);
    } else if n == 3 {
      Encode4(s, i);
    }
  }

  lemma Encode2(s: Bytes, i: nat)
    requires i < |s| && DecodeOne(s, i).Char? && Extra(s[i]) == 1
    ensures s[i..DecodeOne(s, i).next] == EncodeOne(DecodeOne(s, i).cp)
  {
    LeadIs(s[i]);
    hide Tail, Extra, LeadBits, Continues;
    var x := LeadBits(s[i]);
    Tail1(s, i + 1, x);
    ContinuationIs(s[i + 1]);
    Digits(x, s[i + 1] % 64, 0, 0);
  }

  lemma Encode3(s: Bytes, i: nat)
    requires i < |s| && DecodeOne(s, i).Char? && Extra(s[i]) == 2
    ensures s[i..DecodeOne(s, i).next] == EncodeOne(DecodeOne(s, i).cp)
  {
    LeadIs(s[i]);
    hide Tail, Extra, LeadBits, Continues;
    var x := LeadBits(s[i]);
    Tail2(s, i + 1, x);
    ContinuationIs(s[i + 1]);
    ContinuationIs(s[i + 2]);
    Digits(x, s[i + 1] % 64, s[i + 2] % 64, 0);
    Shifts(DecodeOne(s, i).cp);
  }

  lemma Encode4(s: Bytes, i: nat)
    requires i < |s| && DecodeOne(s, i).Char? && Extra(s[i]) == 3
    ensures s[i..DecodeOne(s, i).next] == EncodeOne(DecodeOne(s, i).cp)
  {
    LeadIs(s[i]);
    hide Tail, Extra, LeadBits, Continues;
    var x := LeadBits(s[i]);
    Tail3(s, i + 1, x);
    ContinuationIs(s[i + 1]);
    ContinuationIs(s[i + 2]);
    ContinuationIs(s[i + 3]);
    Digits(x, s[i + 1] % 64, s[i + 2] % 64, s[i + 3] % 64);
    Shifts(DecodeOne(s, i).cp);
  }

  lemma TailNone(s: Bytes, i: nat, cp: nat)
    requires i <= |s|
    ensures Tail(s, i, 0, cp) == Some(cp)
  {
  }

  // ---------------------------------------------------------------- whole strings

  /** The code points from index i on, if everything there decodes. */
  function Codepoints(s: Bytes, i: nat): (r: Option<seq<int>>)
    requires i <= |s|
    decreases |s| - i
  {
    if i == |s| then Some([])
    else
      var d := DecodeOne(s, i);
      if d.Bad? then None
      else
        var rest := Codepoints(s, d.next);
        if rest.None? then None else Some([d.cp] + rest.value)
  }

  function EncodeAll(cps: seq<int>): Bytes {
    if cps == [] then [] else EncodeOne(cps[0]) + EncodeAll(cps[1..])
  }

  predicate AllScalar(cps: seq<int>) {
    forall i :: 0 <= i < |cps| ==> Scalar(cps[i])
  }

  predicate Valid(s: Bytes) {
    Codepoints(s, 0).Some?
  }

  /** Encoded scalar values decode back. */
  lemma {:induction false} CodepointsBack(s: Bytes, i: nat, cps: seq<int>)
    requires AllScalar(cps) && i + |EncodeAll(cps)| == |s| && s[i..] == EncodeAll(cps)
    ensures Codepoints(s, i) == Some(cps)
    decreases |cps|
  {
    hide DecodeOne, EncodeOne, Scalar;
    if cps != [] {
      var t := EncodeOne(cps[0]);
      EncodeSome(cps[0]);
      forall k | 0 <= k < |t| ensures s[i + k] == t[k] { assert s[i..][k] == (t + EncodeAll(cps[1..]))[k]; }
      DecodeEncoded(s, i, cps[0]);
      assert s[i + |t|..] == s[i..][|t|..];
      CodepointsBack(s, i + |t|, cps[1..]);
      assert [cps[0]] + cps[1..] == cps;
    }
  }

  lemma EncodeSome(cp: int)
    ensures Scalar(cp) <==> EncodeOne(cp) != []
  {
  }

  /** The code points of a valid string encode back to it. */
  lemma {:induction false} EncodeBack(s: Bytes, i: nat)
    requires i <= |s| && Codepoints(s, i).Some?
    ensures AllScalar(Codepoints(s, i).value) && EncodeAll(Codepoints(s, i).value) == s[i..]
    decreases |s| - i
  {
    hide DecodeOne, EncodeOne, Scalar;
    if i < |s| {
      var d := DecodeOne(s, i);
      EncodeDecoded(s, i);
      EncodeBack(s, d.next);
      var cps := Codepoints(s, i).value;
      assert cps[1..] == Codepoints(s, d.next).value;
      assert s[i..] == s[i..d.next] + s[d.next..];
    }
  }

  /** codepoints and encode are inverse to each other, between sequences of scalar values and valid strings. */
  lemma RoundTrips(s: Bytes, cps: seq<int>)
    ensures AllScalar(cps) ==> Valid(EncodeAll(cps)) && Codepoints(EncodeAll(cps), 0) == Some(cps)
    ensures Valid(s) ==> AllScalar(Codepoints(s, 0).value) && EncodeAll(Codepoints(s, 0).value) == s
    ensures Valid(s) <==> exists c :: AllScalar(c) && EncodeAll(c) == s
  {
    hide Codepoints, EncodeAll, AllScalar;
    if AllScalar(cps) {
      assert EncodeAll(cps)[0..] == EncodeAll(cps);
      CodepointsBack(EncodeAll(cps), 0, cps);
    }
    if Valid(s) { EncodeBack(s, 0); assert s[0..] == s; }
    if exists c :: AllScalar(c) && EncodeAll(c) == s {
      var c :| AllScalar(c) && EncodeAll(c) == s;
      assert s[0..] == s;
      CodepointsBack(s, 0, c);
    }
  }

  // ---------------------------------------------------------------- the grammar of RFC 3629, section 4

  predicate In(s: Bytes, i: nat, lo: int, hi: int) {
    i < |s| && lo <= s[i] <= hi
  }

  /** The length of the UTF8-char that starts at i, by the ranges of the grammar, or 0. */
  function CharLength(s: Bytes, i: nat): (n: nat) {
    if In(s, i, 0x00, 0x7F) then 1
    else if In(s, i, 0xC2, 0xDF) && In(s, i + 1, 0x80, 0xBF) then 2
    else if In(s, i, 0xE0, 0xE0) && In(s, i + 1, 0xA0, 0xBF) && In(s, i + 2, 0x80, 0xBF) then 3
    else if In(s, i, 0xE1, 0xEC) && In(s, i + 1, 0x80, 0xBF) && In(s, i + 2, 0x80, 0xBF) then 3
    else if In(s, i, 0xED, 0xED) && In(s, i + 1, 0x80, 0x9F) && In(s, i + 2, 0x80, 0xBF) then 3
    else if In(s, i, 0xEE, 0xEF) && In(s, i + 1, 0x80, 0xBF) && In(s, i + 2, 0x80, 0xBF) then 3
    else if In(s, i, 0xF0, 0xF0) && In(s, i + 1, 0x90, 0xBF) && In(s, i + 2, 0x80, 0xBF) && In(s, i + 3, 0x80,
        0xBF) then 4
    else if In(s, i, 0xF1, 0xF3) && In(s, i + 1, 0x80, 0xBF) && In(s, i + 2, 0x80, 0xBF) && In(s, i + 3, 0x80,
        0xBF) then 4
    else if In(s, i, 0xF4, 0xF4) && In(s, i + 1, 0x80, 0x8F) && In(s, i + 2, 0x80, 0xBF) && In(s, i + 3, 0x80,
        0xBF) then 4
    else 0
  }

  /** A string of the grammar's UTF8-octets from i on. */
  predicate Octets(s: Bytes, i: nat)
    requires i <= |s|
    decreases |s| - i
  {
    i == |s| || (CharLength(s, i) > 0 && i + CharLength(s, i) <= |s| && Octets(s, i + CharLength(s, i)))
  }

  /** Decoding accepts exactly the characters of the grammar. */
  lemma DecodesGrammar(s: Bytes, i: nat)
    requires i < |s|
    ensures DecodeOne(s, i).Char? <==> CharLength(s, i) > 0
    ensures DecodeOne(s, i).Char? ==> DecodeOne(s, i).next == i + CharLength(s, i)
  {
    var n := Extra(s[i]);
    if n == 2 { Grammar3(s, i); } else if n == 3 { Grammar4(s, i); } else {
      hide Tail;
      if n == 0 { TailNone(s, i + 1, LeadBits(s[i])); }
      if n == 1 && i + 2 <= |s| { Tail1(s, i + 1, LeadBits(s[i])); }
    }
  }

  lemma Grammar3(s: Bytes, i: nat)
    requires i < |s| && Extra(s[i]) == 2
    ensures DecodeOne(s, i).Char? <==> CharLength(s, i) > 0
    ensures DecodeOne(s, i).Char? ==> DecodeOne(s, i).next == i + CharLength(s, i)
  {
    hide Tail;
    if i + 3 <= |s| { Tail2(s, i + 1, LeadBits(s[i])); }
  }

  lemma Grammar4(s: Bytes, i: nat)
    requires i < |s| && Extra(s[i]) == 3
    ensures DecodeOne(s, i).Char? <==> CharLength(s, i) > 0
    ensures DecodeOne(s, i).Char? ==> DecodeOne(s, i).next == i + CharLength(s, i)
  {
    hide Tail;
    if i + 4 <= |s| { Tail3(s, i + 1, LeadBits(s[i])); }
  }

  /** valid accepts exactly the grammar's strings. */
  lemma {:induction false} ValidGrammar(s: Bytes, i: nat)
    requires i <= |s|
    ensures Codepoints(s, i).Some? <==> Octets(s, i)
    decreases |s| - i
  {
    hide DecodeOne, CharLength;
    if i < |s| {
      DecodesGrammar(s, i);
      if DecodeOne(s, i).Char? { ValidGrammar(s, DecodeOne(s, i).next); }
    }
  }

  // ---------------------------------------------------------------- moving by code points

  /** The index after n more code points, or -1 if something does not decode or the string ends. */
  function Forward(s: Bytes, i: nat, n: nat): (j: int)
    requires i <= |s|
    ensures -1 <= j <= |s|
    decreases n
  {
    if n == 0 then i
    else if i == |s| then -1
    else
      var d := DecodeOne(s, i);
      if d.Bad? then -1 else Forward(s, d.next, n - 1)
  }

  /** The start of the character before or at i: back over continuation bytes. The byte after the string is 0. */
  function Start(s: Bytes, i: nat): (j: nat)
    requires i <= |s|
    ensures j <= i
  {
    if i > 0 && i < |s| && Continues(s[i]) then Start(s, i - 1) else i
  }

  /** The index n characters back, or -1 if the string starts before. */
  function Backward(s: Bytes, i: nat, n: nat): (j: int)
    requires i <= |s|
    ensures -1 <= j <= i
    decreases n
  {
    if n == 0 then i else if i == 0 then -1 else Backward(s, Start(s, i - 1), n - 1)
  }

  /** utf8.offset, its arguments as the native function holds them. */
  function Offset(s: Bytes, n: int, start: int): int {
    if start < 0 || start > |s| then -1
    else if n == 0 then Start(s, start)
    else if n > 0 then Forward(s, start, n)
    else Backward(s, start, -n)
  }

  /** A code point starts at i, or the string ends there: everything from i on decodes. */
  predicate Boundary(s: Bytes, i: nat) {
    i <= |s| && Codepoints(s, i).Some?
  }

  /** Stepping back over one decoded character gets to its first byte, and only there. */
  lemma StepBack(s: Bytes, i: nat)
    requires i < |s| && DecodeOne(s, i).Char?
    ensures Start(s, DecodeOne(s, i).next - 1) == i
    ensures forall k :: i <= k < DecodeOne(s, i).next ==> Start(s, k) == i
  {
    hide Tail;
    var n := Extra(s[i]);
    var x := LeadBits(s[i]);
    if n == 1 { Tail1(s, i + 1, x); }
    if n == 2 { Tail2(s, i + 1, x); }
    if n == 3 { Tail3(s, i + 1, x); }
    assert !Continues(s[i]);
    if n >= 1 { assert Start(s, i + 1) == i; }
    if n >= 2 { assert Start(s, i + 2) == i; }
    if n >= 3 { assert Start(s, i + 3) == i; }
    forall k | i <= k < DecodeOne(s, i).next ensures Start(s, k) == i {
      assert k == i || k == i + 1 || k == i + 2 || k == i + 3;
    }
  }

  lemma {:induction false} BackwardMore(s: Bytes, i: nat, n: nat, m: nat)
    requires i <= |s| && Backward(s, i, n) >= 0
    ensures Backward(s, i, n + m) == Backward(s, Backward(s, i, n), m)
    decreases n
  {
    if n > 0 { BackwardMore(s, Start(s, i - 1), n - 1, m); }
  }

  /** Going back as many characters as one went forward returns to where one was. */
  lemma {:induction false} BackUndoesForward(s: Bytes, i: nat, n: nat)
    requires i <= |s| && Forward(s, i, n) >= 0
    ensures Backward(s, Forward(s, i, n), n) == i
    decreases n
  {
    hide DecodeOne, Start;
    if n > 0 {
      var j := DecodeOne(s, i).next;
      BackUndoesForward(s, j, n - 1);
      BackwardMore(s, Forward(s, i, n), n - 1, 1);
      StepBack(s, i);
      assert Backward(s, j, 1) == Backward(s, Start(s, j - 1), 0);
    }
  }

  /** offset by -n undoes offset by n from any index where the string decodes that far. */
  lemma OffsetUndone(s: Bytes, n: int, start: int)
    requires n > 0 && Offset(s, n, start) >= 0
    ensures Offset(s, -n, Offset(s, n, start)) == start
  {
    BackUndoesForward(s, start, n);
  }

  /** From a boundary, offset moves exactly as long as there are code points left. */
  lemma {:induction false} ForwardReaches(s: Bytes, i: nat, n: nat)
    requires Boundary(s, i)
    ensures Forward(s, i, n) >= 0 <==> n <= |Codepoints(s, i).value|
    ensures Forward(s, i, n) >= 0 ==>
              Boundary(s, Forward(s, i, n)) && Codepoints(s, Forward(s, i, n)).value == Codepoints(s, i).value[n..]
    decreases n
  {
    hide DecodeOne;
    if n > 0 && i < |s| {
      var d := DecodeOne(s, i);
      ForwardReaches(s, d.next, n - 1);
      assert Codepoints(s, i).value[1..] == Codepoints(s, d.next).value;
      if Forward(s, i, n) >= 0 { assert Codepoints(s, i).value[n..] == Codepoints(s, i).value[1..][n - 1..]; }
    }
  }

  // ---------------------------------------------------------------- arguments

  /** The native functions hold their integer arguments in 32-bit variables. */
  function Narrowed(cps: seq<int>): (r: seq<int>)
    ensures |r| == |cps| && forall k :: 0 <= k < |r| ==> r[k] == Narrow(cps[k])
  {
    seq(|cps|, k requires 0 <= k < |cps| => Narrow(cps[k]))
  }

  /** What utf8.encode makes of an array. */
  function Encoded(cps: seq<int>): Option<Bytes> {
    if AllScalar(Narrowed(cps)) then Some(EncodeAll(Narrowed(cps))) else None
  }

  /** It refuses an array exactly when it has something that is no code point, unless all that it has of
      the kind narrows to code points; and what it accepts rightly, it encodes rightly. */
  lemma EncodeExact(cps: seq<int>)
    ensures (Encoded(cps).None? <==> !AllScalar(cps)) <==>
              AllScalar(cps) || exists k :: 0 <= k < |cps| && !Scalar(cps[k]) && !Scalar(Narrow(cps[k]))
    ensures AllScalar(cps) ==> Encoded(cps) == Some(EncodeAll(cps))
  {
    hide EncodeAll, Narrow;
    forall k | 0 <= k < |cps| ensures Scalar(cps[k]) ==> Narrow(cps[k]) == cps[k] { NarrowExact(cps[k]); }
    if AllScalar(cps) {
      assert Narrowed(cps) == cps;
    } else {
      var k :| 0 <= k < |cps| && !Scalar(cps[k]);
      if !AllScalar(Narrowed(cps)) {
        var m :| 0 <= m < |cps| && !Scalar(Narrowed(cps)[m]);
        assert !Scalar(cps[m]) && !Scalar(Narrow(cps[m]));
      } else {
        assert forall m :: 0 <= m < |cps| ==> Scalar(Narrowed(cps)[m]);
      }
    }
  }

  /** 0x100000041 is no code point, and is encoded as the letter A. */
  lemma EncodeFails()
    ensures !AllScalar([0x1_0000_0041]) && Encoded([0x1_0000_0041]) == Some([0x41])
  {
    var cps, cs: seq<int> := [0x1_0000_0041], [0x41];
    assert !Scalar(cps[0]);
    assert Narrow(cps[0]) == 0x41;
    assert Narrowed(cps) == cs;
    assert cs[1..] == [] && EncodeAll(cs) == EncodeOne(0x41) + EncodeAll([]);
    assert AllScalar(cs) && EncodeOne(0x41) == [0x41] && EncodeAll([]) == [];
    assert Encoded(cps) == Some(EncodeAll(cs));
    assert EncodeAll(cs) == [0x41];
    assert !AllScalar(cps);
  }

  /** utf8.offset. */
  function NativeOffset(s: Bytes, n: int, start: int): int { Offset(s, Narrow(n), Narrow(start)) }

  /** Going back by the same count undoes a move, and gets back to the argument exactly when that fits
      32 bits. */
  lemma NativeOffsetUndone(s: Bytes, n: int, start: int)
    requires |s| < 0x8000_0000 && Narrow(n) > 0 && NativeOffset(s, n, start) >= 0
    ensures var back := NativeOffset(s, -n, NativeOffset(s, n, start));
            back == Narrow(start) && (back == start <==> Fits(start))
  {
    hide Forward, Backward;
    NarrowNegated(n);
    NarrowExact(start);
    OffsetUndone(s, Narrow(n), Narrow(start));
    var r := NativeOffset(s, n, start);
    ForwardWithin(s, Narrow(n), Narrow(start));
    NarrowExact(r);
  }

  lemma ForwardWithin(s: Bytes, n: int, start: int)
    requires n > 0
    ensures Offset(s, n, start) <= |s|
  {
  }

  // ---------------------------------------------------------------- the native functions

  method DecodeAt(s: Bytes, i: nat) returns (r: Decoded)
    requires i < |s|
    ensures r == DecodeOne(s, i)
  {
    var c := s[i];
    var n := Extra(c);
    if n < 0 || i + 1 + n > |s| {
      return Bad;
    }
    var cp: nat := LeadBits(c);
    var k: int := 1;
    while k <= n
      invariant 1 <= k <= n + 1 && Tail(s, i + k, n - k + 1, cp) == Tail(s, i + 1, n, LeadBits(c))
    {
      var cc := s[i + k];
      if !Continues(cc) {
        return Bad;
      }
      cp := cp * 64 + cc % 64;
      k := k + 1;
    }
    if cp > MAX_UNICODE || 0xD800 <= cp <= 0xDFFF || cp < Least(n) {
      return Bad;
    }
    return Char(cp, i + 1 + n);
  }

  /** utf8.codepoints; its success is utf8.valid, and its length utf8.len. */
  method GetCodepoints(s: Bytes) returns (r: Option<seq<int>>)
    ensures r == Codepoints(s, 0)
  {
    hide DecodeOne;
    var p: nat, cps: seq<int> := 0, [];
    if Codepoints(s, 0).Some? { assert [] + Codepoints(s, 0).value == Codepoints(s, 0).value; }
    while p < |s|
      invariant p <= |s|
      invariant Codepoints(s, 0) == match Codepoints(s, p) { case None => None case Some(rest) => Some(cps + rest) }
    {
      var d := DecodeAt(s, p);
      if d.Bad? {
        return None;
      }
      if Codepoints(s, d.next).Some? { assert cps + ([d.cp] + Codepoints(s, d.next).value) == cps + [d.cp] +
          Codepoints(s, d.next).value; }
      cps := cps + [d.cp];
      p := d.next;
    }
    assert cps + [] == cps;
    return Some(cps);
  }

  /** utf8.encode of an array. */
  method EncodeArray(cps: seq<int>) returns (r: Option<Bytes>)
    ensures r == Encoded(cps)
  {
    hide EncodeOne, Scalar, Narrow;
    ghost var cs := Narrowed(cps);
    var buf: Bytes := [];
    var i := 0;
    assert cs[0..] == cs;
    while i < |cps|
      invariant 0 <= i <= |cps| && buf + EncodeAll(cs[i..]) == EncodeAll(cs)
      invariant forall k :: 0 <= k < i ==> Scalar(cs[k])
    {
      var cp := Narrow(cps[i]);
      EncodeSome(cp);
      var t := EncodeOne(cp);
      if |t| == 0 {
        assert !Scalar(cs[i]);
        return None;
      }
      assert cs[i..][1..] == cs[i + 1..];
      assert buf + (t + EncodeAll(cs[i + 1..])) == buf + t + EncodeAll(cs[i + 1..]);
      buf := buf + t;
      i := i + 1;
    }
    assert cs[i..] == [] && buf + [] == buf;
    return Some(buf);
  }

  /** utf8.offset. */
  method GetOffset(s: Bytes, count: int, from: int) returns (r: int)
    ensures r == NativeOffset(s, count, from)
  {
    hide DecodeOne, Start, Narrow;
    var n, start := Narrow(count), Narrow(from);
    if start < 0 || start > |s| {
      return -1;
    }
    var p: nat := start;
    if n == 0 {
      r := GetStart(s, p);
      return;
    }
    if n > 0 {
      var i := 0;
      while i < n
        invariant 0 <= i <= n && p <= |s| && Forward(s, p, n - i) == Forward(s, start, n)
      {
        if p >= |s| {
          return -1;
        }
        var d := DecodeAt(s, p);
        if d.Bad? {
          return -1;
        }
        p := d.next;
        i := i + 1;
      }
      return p;
    }
    var i := 0;
    while i > n
      invariant n <= i <= 0 && p <= |s| && Backward(s, p, i - n) == Backward(s, start, -n)
    {
      if p <= 0 {
        return -1;
      }
      p := p - 1;
      p := GetStart(s, p);
      i := i - 1;
    }
    return p;
  }

  method GetStart(s: Bytes, i: nat) returns (p: nat)
    requires i <= |s|
    ensures p == Start(s, i)
  {
    p := i;
    while p > 0 && p < |s| && Continues(s[p])
      invariant p <= |s| && Start(s, p) == Start(s, i)
    {
      p := p - 1;
    }
  }
}
