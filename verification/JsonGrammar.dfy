/** The grammar of JSON texts (RFC 8259 sections 2 to 7) written down apart from the parser: concrete
    syntax trees with the characters they stand for and the value they mean. The parser accepts exactly
    the texts of such trees, and gives their meaning. */
module JsonGrammar {
  import opened Json
  import U = Utf8

  // ---------------------------------------------------------------- characters of a string

  /** One element of a string: a plain byte, a two-character escape, a `\u` escape, or a surrogate pair of
      them. Hex digits are kept as they are written. */
  datatype Piece =
    | Raw(c: byte)
    | Esc(c: byte, stands: byte)
    | Uni(h: Bytes, cp: nat)
    | Pair(h: Bytes, l: Bytes, cp: nat)

  const LOWER: Bytes := [48, 49, 50, 51, 52, 53, 54, 55, 56, 57, 97, 98, 99, 100, 101, 102]
  const UPPER: Bytes := [48, 49, 50, 51, 52, 53, 54, 55, 56, 57, 65, 66, 67, 68, 69, 70]

  predicate HexIs(c: byte, v: int) { 0 <= v < 16 && (LOWER[v] == c || UPPER[v] == c) }

  /** Four hex digits, of either case, for a 16-bit number. */
  predicate HexWord(h: Bytes, v: nat) {
    |h| == 4 && v < 0x10000 &&
    HexIs(h[0], v / 4096) && HexIs(h[1], v / 256 % 16) && HexIs(h[2], v / 16 % 16) && HexIs(h[3], v % 16)
  }

  predicate EscapeIs(c: byte, stands: byte) {
    (c == 0x22 && stands == 0x22) || (c == 0x5C && stands == 0x5C) || (c == 0x2F && stands == 0x2F) ||
    (c == 0x62 && stands == 0x08) || (c == 0x66 && stands == 0x0C) || (c == 0x6E && stands == 0x0A) ||
    (c == 0x72 && stands == 0x0D) || (c == 0x74 && stands == 0x09)
  }

  predicate PieceOk(p: Piece) {
    match p
    case Raw(c) => c >= 0x20 && c != 0x22 && c != 0x5C
    case Esc(c, stands) => EscapeIs(c, stands)
    case Uni(h, cp) => U.Scalar(cp) && HexWord(h, cp)
    case Pair(h, l, cp) =>
      0x10000 <= cp <= 0x10FFFF && HexWord(h, 0xD800 + (cp - 0x10000) / 0x400) &&
      HexWord(l, 0xDC00 + (cp - 0x10000) % 0x400)
  }

  function PieceText(p: Piece): (t: Bytes)
    ensures |t| > 0
  {
    match p
    case Raw(c) => [c]
    case Esc(c, _) => [0x5C, c]
    case Uni(h, _) => [0x5C, 0x75] + h
    case Pair(h, l, _) => [0x5C, 0x75] + h + [0x5C, 0x75] + l
  }

  /** The bytes an element stands for: UTF-8 (RFC 3629) for the escapes. */
  function PieceBytes(p: Piece): Bytes {
    match p
    case Raw(c) => [c]
    case Esc(_, stands) => [stands]
    case Uni(_, cp) => U.EncodeOne(cp)
    case Pair(_, _, cp) => U.EncodeOne(cp)
  }

  predicate PiecesOk(ps: seq<Piece>) { forall k :: 0 <= k < |ps| ==> PieceOk(ps[k]) }

  function PiecesText(ps: seq<Piece>): Bytes {
    if ps == [] then [] else PieceText(ps[0]) + PiecesText(ps[1..])
  }

  function PiecesBytes(ps: seq<Piece>): Bytes {
    if ps == [] then [] else PieceBytes(ps[0]) + PiecesBytes(ps[1..])
  }

  function Quoted(ps: seq<Piece>): (t: Bytes)
    ensures |t| >= 2 && t[0] == 0x22
  {
    [0x22] + (PiecesText(ps) + [0x22])
  }

  lemma NibbleExact(c: byte, v: int)
    requires 0 <= v < 16
    ensures HexIs(c, v) <==> Nibble(c) == v
  {
  }

  lemma NibbleRange(c: byte)
    ensures -1 <= Nibble(c) < 16
  {
  }

  lemma HexParts(a: nat, b: nat, c: nat, d: nat)
    requires a < 16 && b < 16 && c < 16 && d < 16
    ensures var v := ((a * 16 + b) * 16 + c) * 16 + d;
            v < 0x10000 && v / 4096 == a && v / 256 % 16 == b && v / 16 % 16 == c && v % 16 == d
  {
  }

  lemma HexJoined(v: nat)
    requires v < 0x10000
    ensures ((v / 4096 * 16 + v / 256 % 16) * 16 + v / 16 % 16) * 16 + v % 16 == v && v / 4096 < 16
  {
  }

  lemma Hex4Reads(s: Bytes, i: nat, h: Bytes, v: nat)
    requires At(s, i, h) && HexWord(h, v)
    ensures Hex4(s, i) == Got(v, i + 4)
  {
    hide HexIs, Nibble;
    AtIndex(s, i, h, 0);
    AtIndex(s, i, h, 1);
    AtIndex(s, i, h, 2);
    AtIndex(s, i, h, 3);
    HexJoined(v);
    NibbleExact(h[0], v / 4096);
    NibbleExact(h[1], v / 256 % 16);
    NibbleExact(h[2], v / 16 % 16);
    NibbleExact(h[3], v % 16);
  }

  lemma Hex4Written(s: Bytes, i: nat)
    requires i <= |s| && Hex4(s, i).Got?
    ensures i + 4 <= |s| && HexWord(s[i..i + 4], Hex4(s, i).value)
  {
    hide HexIs, Nibble;
    var a, b, c, d := Nibble(s[i]), Nibble(s[i + 1]), Nibble(s[i + 2]), Nibble(s[i + 3]);
    NibbleRange(s[i]);
    NibbleRange(s[i + 1]);
    NibbleRange(s[i + 2]);
    NibbleRange(s[i + 3]);
    HexParts(a, b, c, d);
    NibbleExact(s[i], a);
    NibbleExact(s[i + 1], b);
    NibbleExact(s[i + 2], c);
    NibbleExact(s[i + 3], d);
  }

  lemma SurrogateJoined(cp: nat)
    requires 0x10000 <= cp <= 0x10FFFF
    ensures var hi, lo := 0xD800 + (cp - 0x10000) / 0x400, 0xDC00 + (cp - 0x10000) % 0x400;
            0xD800 <= hi <= 0xDBFF && 0xDC00 <= lo <= 0xDFFF &&
            0x10000 + (hi - 0xD800) * 0x400 + (lo - 0xDC00) == cp
  {
  }

  lemma SurrogateParts(hi: nat, lo: nat)
    requires 0xD800 <= hi <= 0xDBFF && 0xDC00 <= lo <= 0xDFFF
    ensures var cp := 0x10000 + (hi - 0xD800) * 0x400 + (lo - 0xDC00);
            0x10000 <= cp <= 0x10FFFF && hi == 0xD800 + (cp - 0x10000) / 0x400 && lo == 0xDC00 + (cp - 0x10000) % 0x400
  {
  }

  /** The bytes the parser writes for an escape are the UTF-8 encoding of its code point. */
  lemma EncodesAlike(cp: nat)
    requires U.Scalar(cp)
    ensures Utf8(cp) == U.EncodeOne(cp)
  {
  }

  /** Where the parts of a surrogate pair lie. */
  lemma PairPlaced(s: Bytes, i: nat, h: Bytes, l: Bytes)
    requires At(s, i, [0x5C, 0x75] + h + [0x5C, 0x75] + l) && |h| == 4
    ensures At(s, i + 2, h) && At(s, i + 8, l) && i + 8 <= |s| && s[i + 6] == 0x5C && s[i + 7] == 0x75
  {
    hide At;
    AtParts(s, i, [0x5C, 0x75] + h + [0x5C, 0x75], l);
    AtParts(s, i, [0x5C, 0x75] + h, [0x5C, 0x75]);
    AtParts(s, i, [0x5C, 0x75], h);
    AtIndex(s, i + 6, [0x5C, 0x75], 0);
    AtIndex(s, i + 6, [0x5C, 0x75], 1);
  }

  lemma UniReads(s: Bytes, i: nat, p: Piece)
    requires (p.Uni? || p.Pair?) && PieceOk(p) && At(s, i, PieceText(p))
    ensures i + 2 <= |s| && s[i] == 0x5C && s[i + 1] == 0x75 && U.Scalar(p.cp)
    ensures CodePoint(s, i + 2) == Got(p.cp, i + |PieceText(p)|)
  {
    hide HexWord, Hex4, At;
    assert PieceText(p)[0] == 0x5C && PieceText(p)[1] == 0x75;
    AtIndex(s, i, PieceText(p), 0);
    AtIndex(s, i, PieceText(p), 1);
    if p.Uni? {
      HexLength(p.h, p.cp);
      AtParts(s, i, [0x5C, 0x75], p.h);
      Hex4Reads(s, i + 2, p.h, p.cp);
    } else {
      HexLength(p.h, 0xD800 + (p.cp - 0x10000) / 0x400);
      HexLength(p.l, 0xDC00 + (p.cp - 0x10000) % 0x400);
      SurrogateJoined(p.cp);
      PairPlaced(s, i, p.h, p.l);
      Hex4Reads(s, i + 2, p.h, 0xD800 + (p.cp - 0x10000) / 0x400);
      Hex4Reads(s, i + 8, p.l, 0xDC00 + (p.cp - 0x10000) % 0x400);
    }
  }

  lemma HexLength(h: Bytes, v: nat)
    requires HexWord(h, v)
    ensures |h| == 4
  {
  }

  lemma PlainReads(s: Bytes, i: nat, p: Piece, acc: Bytes)
    requires (p.Raw? || p.Esc?) && PieceOk(p) && At(s, i, PieceText(p))
    ensures Chars(s, i, acc) == Chars(s, i + |PieceText(p)|, acc + PieceBytes(p))
  {
    hide CodePoint, Utf8;
    AtIndex(s, i, PieceText(p), 0);
    if p.Esc? {
      AtIndex(s, i, PieceText(p), 1);
      assert Unescape(p.c) == p.stands;
    }
  }

  /** Each element of a string is read as the bytes it stands for. */
  lemma PieceReads(s: Bytes, i: nat, p: Piece, acc: Bytes)
    requires PieceOk(p) && At(s, i, PieceText(p))
    ensures Chars(s, i, acc) == Chars(s, i + |PieceText(p)|, acc + PieceBytes(p))
  {
    hide CodePoint, PieceOk, At, PieceText, U.EncodeOne, Utf8, Unescape;
    if p.Uni? || p.Pair? {
      UniReads(s, i, p);
      EncodesAlike(p.cp);
    } else {
      PlainReads(s, i, p, acc);
    }
  }

  lemma {:induction false} PiecesRead(s: Bytes, i: nat, ps: seq<Piece>, acc: Bytes)
    requires PiecesOk(ps) && At(s, i, PiecesText(ps) + [0x22])
    ensures Chars(s, i, acc) == Got(acc + PiecesBytes(ps), i + |PiecesText(ps)| + 1)
    decreases |ps|
  {
    hide PieceOk, PieceText, PieceBytes, At, CodePoint, Utf8, Unescape;
    if ps == [] {
      assert PiecesText(ps) + [0x22] == [0x22];
      AtFirst(s, i, [0x22]);
      assert acc + [] == acc;
    } else {
      assert PiecesText(ps) + [0x22] == PieceText(ps[0]) + (PiecesText(ps[1..]) + [0x22]);
      AtParts(s, i, PieceText(ps[0]), PiecesText(ps[1..]) + [0x22]);
      PieceReads(s, i, ps[0], acc);
      PiecesRead(s, i + |PieceText(ps[0])|, ps[1..], acc + PieceBytes(ps[0]));
      assert acc + PieceBytes(ps[0]) + PiecesBytes(ps[1..]) == acc + PiecesBytes(ps);
    }
  }

  lemma StringReads(s: Bytes, i: nat, ps: seq<Piece>)
    requires PiecesOk(ps) && At(s, i, Quoted(ps))
    ensures ParseString(s, i) == Got(PiecesBytes(ps), i + |Quoted(ps)|)
  {
    hide At, Chars, PiecesOk;
    AtParts(s, i, [0x22], PiecesText(ps) + [0x22]);
    AtFirst(s, i, [0x22]);
    PiecesRead(s, i + 1, ps, []);
    assert [] + PiecesBytes(ps) == PiecesBytes(ps);
  }

  /** Where the parser reads an escape there is one. */
  lemma UniWritten(s: Bytes, i: nat) returns (p: Piece)
    requires i + 2 <= |s| && s[i] == 0x5C && s[i + 1] == 0x75 && CodePoint(s, i + 2).Got?
    ensures var r := CodePoint(s, i + 2);
            (p.Uni? || p.Pair?) && PieceOk(p) && p.cp == r.value && i + |PieceText(p)| == r.pos <= |s| &&
            s[i..r.pos] == PieceText(p)
  {
    hide HexWord, Hex4;
    var hi := Hex4(s, i + 2);
    Hex4Written(s, i + 2);
    if 0xD800 <= hi.value <= 0xDBFF {
      var lo := Hex4(s, i + 8);
      Hex4Written(s, i + 8);
      SurrogateParts(hi.value, lo.value);
      p := Pair(s[i + 2..i + 6], s[i + 8..i + 12], CodePoint(s, i + 2).value);
      assert s[i..i + 12] == [0x5C, 0x75] + s[i + 2..i + 6] + [0x5C, 0x75] + s[i + 8..i + 12];
    } else {
      p := Uni(s[i + 2..i + 6], hi.value);
      assert s[i..i + 6] == [0x5C, 0x75] + s[i + 2..i + 6];
    }
  }

  lemma UniReadAs(s: Bytes, i: nat, acc: Bytes)
    requires i + 1 < |s| && s[i] == 0x5C && s[i + 1] == 0x75 && Chars(s, i, acc).Got?
    ensures var cp := CodePoint(s, i + 2);
            cp.Got? && Chars(s, i, acc) == Chars(s, cp.pos, acc + Utf8(cp.value))
  {
    hide CodePoint, Utf8;
  }

  lemma PlainWritten(s: Bytes, i: nat, acc: Bytes) returns (p: Piece)
    requires i < |s| && s[i] != 0x22 && Chars(s, i, acc).Got? && !(s[i] == 0x5C && i + 1 < |s| && s[i + 1] == 0x75)
    ensures PieceOk(p) && i + |PieceText(p)| <= |s| && s[i..i + |PieceText(p)|] == PieceText(p)
    ensures Chars(s, i, acc) == Chars(s, i + |PieceText(p)|, acc + PieceBytes(p))
  {
    hide CodePoint, U.EncodeOne, Utf8, HexWord;
    if s[i] != 0x5C {
      p := Raw(s[i]);
    } else {
      p := Esc(s[i + 1], Unescape(s[i + 1]));
    }
  }

  lemma PieceWritten(s: Bytes, i: nat, acc: Bytes) returns (p: Piece)
    requires i < |s| && s[i] != 0x22 && Chars(s, i, acc).Got?
    ensures PieceOk(p) && i + |PieceText(p)| <= |s| && s[i..i + |PieceText(p)|] == PieceText(p)
    ensures Chars(s, i, acc) == Chars(s, i + |PieceText(p)|, acc + PieceBytes(p))
  {
    hide CodePoint, U.EncodeOne, Utf8, HexWord, Chars, PieceText;
    if s[i] == 0x5C && i + 1 < |s| && s[i + 1] == 0x75 {
      UniReadAs(s, i, acc);
      p := UniWritten(s, i);
      EncodesAlike(p.cp);
    } else {
      p := PlainWritten(s, i, acc);
    }
  }

  /** What the parser reads as the rest of a string is a row of elements and a quote. */
  lemma {:induction false} PiecesWritten(s: Bytes, i: nat, acc: Bytes) returns (ps: seq<Piece>)
    requires i <= |s| && Chars(s, i, acc).Got?
    ensures var r := Chars(s, i, acc);
            PiecesOk(ps) && r.value == acc + PiecesBytes(ps) && s[i..r.pos] == PiecesText(ps) + [0x22]
    decreases |s| - i
  {
    hide PieceOk, PieceText, PieceBytes, CodePoint, Utf8, Unescape;
    if s[i] == 0x22 {
      ps := [];
      assert s[i..i + 1] == [0x22] && acc + [] == acc;
    } else {
      var p := PieceWritten(s, i, acc);
      var j := i + |PieceText(p)|;
      var rest := PiecesWritten(s, j, acc + PieceBytes(p));
      ps := [p] + rest;
      var end := Chars(s, i, acc).pos;
      assert s[i..end] == s[i..j] + s[j..end];
      assert ps[1..] == rest;
      assert acc + PieceBytes(p) + PiecesBytes(rest) == acc + PiecesBytes(ps);
      assert PieceText(p) + (PiecesText(rest) + [0x22]) == PiecesText(ps) + [0x22];
    }
  }

  lemma StringWritten(s: Bytes, i: nat) returns (ps: seq<Piece>)
    requires i <= |s| && ParseString(s, i).Got?
    ensures var r := ParseString(s, i);
            PiecesOk(ps) && r.value == PiecesBytes(ps) && s[i..r.pos] == Quoted(ps)
  {
    ps := PiecesWritten(s, i + 1, []);
    var end := ParseString(s, i).pos;
    assert s[i..end] == [s[i]] + s[i + 1..end];
    assert [] + PiecesBytes(ps) == PiecesBytes(ps);
  }

  // ---------------------------------------------------------------- numbers

  predicate Decimal(c: byte) { 0x30 <= c <= 0x39 }

  predicate Decimals(d: Bytes) { d != [] && forall k :: 0 <= k < |d| ==> Decimal(d[k]) }

  /** A fraction is a point and digits; an exponent a letter, perhaps a sign, and digits. Either may be missing. */
  datatype Numeral = Numeral(neg: bool, whole: Bytes, frac: Bytes, exp: Bytes)

  predicate WholeOk(d: Bytes) { Decimals(d) && (d[0] == 0x30 ==> |d| == 1) }

  predicate FracOk(t: Bytes) { t == [] || (t[0] == 0x2E && Decimals(t[1..])) }

  predicate ExpOk(t: Bytes) {
    t == [] ||
    ((t[0] == 0x65 || t[0] == 0x45) &&
     Decimals(if |t| > 1 && (t[1] == 0x2B || t[1] == 0x2D) then t[2..] else t[1..]))
  }

  predicate NumeralOk(n: Numeral) { WholeOk(n.whole) && FracOk(n.frac) && ExpOk(n.exp) }

  function Sign(n: Numeral): Bytes { if n.neg then [0x2D] else [] }

  function NumeralText(n: Numeral): (t: Bytes) { Sign(n) + (n.whole + (n.frac + n.exp)) }

  /** The decimal value of digits. */
  function ValueOf(d: Bytes): int {
    if d == [] then 0
    else
      var c: int := d[|d| - 1];
      ValueOf(d[..|d| - 1]) * 10 + (c - 0x30)
  }

  /** An integer when it has no fraction and no exponent and fits 64 bits; else a float, of which the first
      63 characters are used. */
  function NumeralTree(n: Numeral): Tree {
    var v := if n.neg then -ValueOf(n.whole) else ValueOf(n.whole);
    var t := NumeralText(n);
    if n.frac == [] && n.exp == [] && -0x8000_0000_0000_0000 <= v <= 0x7FFF_FFFF_FFFF_FFFF then Int(v)
    else Float(if |t| > 63 then t[..63] else t)
  }

  lemma {:induction false} ValueIsNat(d: Bytes)
    ensures ValueOf(d) == NatOf(d)
  {
    if d != [] { ValueIsNat(d[..|d| - 1]); }
  }

  lemma {:induction false} ValueNat(d: Bytes)
    requires forall k :: 0 <= k < |d| ==> Decimal(d[k])
    ensures ValueOf(d) >= 0
  {
    if d != [] { ValueNat(d[..|d| - 1]); }
  }

  lemma {:induction false} ValueLong(d: Bytes)
    requires Decimals(d) && d[0] != 0x30
    ensures ValueOf(d) >= Power(|d| - 1)
  {
    if |d| > 1 {
      var r := d[..|d| - 1];
      ValueLong(r);
      assert Decimal(d[|d| - 1]);
    } else {
      assert d[..0] == [];
      assert Decimal(d[0]);
    }
  }

  lemma {:induction false} PowerGrows(k: nat, m: nat)
    requires m <= k
    ensures 0 < Power(m) <= Power(k)
    decreases k
  {
    if m < k {
      PowerGrows(k - 1, m);
    } else if k > 0 {
      PowerGrows(k - 1, k - 1);
    }
  }

  /** An integer of 20 digits or more is beyond 64 bits. */
  lemma LongIsLarge(d: Bytes)
    requires WholeOk(d) && |d| >= 20
    ensures ValueOf(d) > INT64_MAX + 1
  {
    hide Power;
    ValueLong(d);
    Power19();
    PowerGrows(|d| - 1, 19);
  }

  lemma {:induction false} DigitsStop(s: Bytes, i: nat)
    requires i <= |s|
    ensures forall k :: i <= k < SkipDigits(s, i) ==> Decimal(s[k])
    decreases |s| - i
  {
    if i < |s| && IsDigit(s[i]) { DigitsStop(s, i + 1); }
  }

  lemma DigitsRead(s: Bytes, i: nat, d: Bytes)
    requires At(s, i, d) && Decimals(d) && (i + |d| < |s| ==> !IsDigit(s[i + |d|]))
    ensures i < |s| && IsDigit(s[i]) && SkipDigits(s, i) == i + |d|
  {
    forall k | i <= k < i + |d| ensures IsDigit(s[k]) {
      AtIndex(s, i, d, k - i);
      assert Decimal(d[k - i]);
    }
    SkipDigitsStops(s, i, i + |d|);
  }

  lemma WholeReads(s: Bytes, i: nat, n: Numeral)
    requires WholeOk(n.whole) && At(s, i, Sign(n) + n.whole)
    requires var j := i + |Sign(n)| + |n.whole|; j < |s| ==> !IsDigit(s[j])
    ensures IntPart(s, i) == Got((), i + |Sign(n)| + |n.whole|)
  {
    AtParts(s, i, Sign(n), n.whole);
    var j := i + |Sign(n)|;
    AtFirst(s, j, n.whole);
    assert Decimal(n.whole[0]);
    if n.neg { AtFirst(s, i, Sign(n)); }
    if s[j] != 48 { DigitsRead(s, j, n.whole); }
  }

  lemma FracReads(s: Bytes, i: nat, t: Bytes)
    requires FracOk(t) && At(s, i, t)
    requires i + |t| < |s| ==> !IsDigit(s[i + |t|]) && (t == [] ==> s[i + |t|] != 46)
    ensures FracPart(s, i) == Got(t != [], i + |t|)
  {
    if t != [] {
      assert t == [46] + t[1..];
      AtParts(s, i, [46], t[1..]);
      AtFirst(s, i, [46]);
      DigitsRead(s, i + 1, t[1..]);
    }
  }

  /** The first of what follows a place: the text there, or what stands behind it. */
  lemma FirstOf(s: Bytes, i: nat, t: Bytes)
    requires At(s, i, t)
    ensures if t == [] then i + |t| == i else i < |s| && s[i] == t[0]
  {
    if t != [] { AtFirst(s, i, t); }
  }

  /** Where the digits of an exponent start. */
  function ExpSign(t: Bytes): (k: nat)
    requires |t| > 1
    ensures 1 <= k <= 2
  {
    if t[1] == 0x2B || t[1] == 0x2D then 2 else 1
  }

  lemma ExpDigits(t: Bytes)
    requires ExpOk(t) && t != []
    ensures |t| > 1 && (t[0] == 101 || t[0] == 69) && Decimals(t[ExpSign(t)..]) && Decimal(t[ExpSign(t)..][0])
  {
  }

  lemma ExpReads(s: Bytes, i: nat, t: Bytes)
    requires ExpOk(t) && At(s, i, t)
    requires i + |t| < |s| ==> !IsDigit(s[i + |t|]) && (t == [] ==> s[i + |t|] != 101 && s[i + |t|] != 69)
    ensures ExpPart(s, i) == Got(t != [], i + |t|)
  {
    hide ExpOk, Decimals, At;
    FirstOf(s, i, t);
    if t != [] {
      ExpDigits(t);
      var k := ExpSign(t);
      assert t == t[..k] + t[k..];
      AtParts(s, i, t[..k], t[k..]);
      AtIndex(s, i, t, 1);
      DigitsRead(s, i + k, t[k..]);
    }
  }

  lemma PartStarts(n: Numeral)
    requires NumeralOk(n)
    ensures n.frac != [] ==> !IsDigit(n.frac[0])
    ensures n.exp != [] ==> !IsDigit(n.exp[0]) && n.exp[0] != 46
  {
  }

  lemma NumberFrom(s: Bytes, i: nat, j: nat, k: nat, end: nat, frac: bool, exp: bool)
    requires i <= j <= k <= end <= |s|
    requires IntPart(s, i) == Got((), j) && FracPart(s, j) == Got(frac, k) && ExpPart(s, k) == Got(exp, end)
    ensures ParseNumber(s, i) == Got(NumberOf(s[i..end], !frac && !exp), end)
  {
    hide IntPart, FracPart, ExpPart, NumberOf;
  }

  /** Where the parts of a numeral lie. */
  lemma NumeralPlaced(s: Bytes, i: nat, n: Numeral, j: nat, k: nat)
    requires At(s, i, NumeralText(n)) && j == i + |Sign(n)| + |n.whole| && k == j + |n.frac|
    ensures At(s, i, Sign(n) + n.whole) && At(s, j, n.frac) && At(s, k, n.exp)
    ensures i <= j <= k <= k + |n.exp| <= |s| && k + |n.exp| == i + |NumeralText(n)|
    ensures s[i..k + |n.exp|] == NumeralText(n)
  {
    hide At, Sign;
    Regroup(Sign(n), n.whole, n.frac + n.exp);
    AtWhole(s, i, NumeralText(n));
    AtParts(s, i, Sign(n) + n.whole, n.frac + n.exp);
    AtParts(s, j, n.frac, n.exp);
  }

  /** A numeral, followed by nothing that would go on with it, is read to its end. */
  lemma NumeralReads(s: Bytes, i: nat, n: Numeral)
    requires NumeralOk(n) && At(s, i, NumeralText(n)) && Ends(s, i + |NumeralText(n)|)
    ensures ParseNumber(s, i) == Got(NumeralTree(n), i + |NumeralText(n)|)
  {
    hide IntPart, FracPart, ExpPart, WholeOk, FracOk, ExpOk, At, NumberOf, NumeralTree, ParseNumber, NumeralText, Sign;
    var j := i + |Sign(n)| + |n.whole|;
    var k := j + |n.frac|;
    NumeralPlaced(s, i, n, j, k);
    FirstOf(s, j, n.frac);
    FirstOf(s, k, n.exp);
    PartStarts(n);
    WholeReads(s, i, n);
    FracReads(s, j, n.frac);
    ExpReads(s, k, n.exp);
    NumberFrom(s, i, j, k, k + |n.exp|, n.frac != [], n.exp != []);
    NumberIsTree(n);
  }

  lemma Regroup(a: Bytes, b: Bytes, c: Bytes)
    ensures a + (b + c) == (a + b) + c
  {
  }

  lemma AtWhole(s: Bytes, i: nat, t: Bytes)
    requires At(s, i, t)
    ensures i + |t| <= |s| && s[i..i + |t|] == t
  {
  }

  /** The number that is made of a text is the one the numeral means. */
  lemma NumberIsTree(n: Numeral)
    requires NumeralOk(n)
    ensures NumberOf(NumeralText(n), n.frac == [] && n.exp == []) == NumeralTree(n)
  {
    hide NatOf, ValueOf, FracOk, ExpOk;
    var t := NumeralText(n);
    assert Decimal(n.whole[0]);
    if n.frac == [] && n.exp == [] {
      assert t == Sign(n) + n.whole;
      if |t| > 63 {
        CutWhole(n);
        LongIsLarge(n.whole);
      } else {
        IntOfText(n);
        if |t| == 63 { assert t[..63] == t; }
      }
    } else if |t| == 63 {
      assert t[..63] == t;
    }
  }

  lemma IntOfText(n: Numeral)
    requires WholeOk(n.whole)
    ensures IntOf(Sign(n) + n.whole) == if n.neg then -ValueOf(n.whole) else ValueOf(n.whole)
  {
    hide NatOf, ValueOf;
    ValueIsNat(n.whole);
    assert Decimal(n.whole[0]);
    if n.neg {
      assert (Sign(n) + n.whole)[1..] == n.whole;
    } else {
      assert Sign(n) + n.whole == n.whole;
    }
  }

  /** What is left of a long integer is still beyond 64 bits. */
  lemma CutWhole(n: Numeral)
    requires WholeOk(n.whole) && |Sign(n) + n.whole| > 63
    ensures !(INT64_MIN <= IntOf((Sign(n) + n.whole)[..63]) <= INT64_MAX)
  {
    hide NatOf, ValueOf;
    var m := n.(whole := n.whole[..63 - |Sign(n)|]);
    assert (Sign(n) + n.whole)[..63] == Sign(m) + m.whole;
    assert forall k :: 0 <= k < |m.whole| ==> m.whole[k] == n.whole[k] && Decimal(n.whole[k]);
    IntOfText(m);
    LongIsLarge(m.whole);
  }

  /** What is read as a number is a numeral. */
  lemma NumeralWritten(s: Bytes, i: nat) returns (n: Numeral)
    requires i <= |s| && ParseNumber(s, i).Got?
    ensures var r := ParseNumber(s, i);
            NumeralOk(n) && r.value == NumeralTree(n) && s[i..r.pos] == NumeralText(n)
  {
    hide NumberOf, NumeralTree, IntPart, FracPart, ExpPart, WholeOk, FracOk, ExpOk;
    var a := IntPart(s, i).pos;
    var f := FracPart(s, a);
    var e := ExpPart(s, f.pos);
    var neg := i < |s| && s[i] == 0x2D;
    var j := if neg then i + 1 else i;
    WholeWritten(s, i);
    FracWritten(s, a);
    ExpWritten(s, f.pos);
    n := Numeral(neg, s[j..a], s[a..f.pos], s[f.pos..e.pos]);
    assert s[i..j] == Sign(n);
    Slices(s, i, j, a, f.pos, e.pos);
    NumberIsTree(n);
  }

  lemma Slices(s: Bytes, a: nat, b: nat, c: nat, d: nat, e: nat)
    requires a <= b <= c <= d <= e <= |s|
    ensures s[a..e] == s[a..b] + (s[b..c] + (s[c..d] + s[d..e]))
  {
    assert s[c..e] == s[c..d] + s[d..e];
    assert s[b..e] == s[b..c] + s[c..e];
    assert s[a..e] == s[a..b] + s[b..e];
  }

  lemma WholeWritten(s: Bytes, i: nat)
    requires i <= |s| && IntPart(s, i).Got?
    ensures var j := if i < |s| && s[i] == 0x2D then i + 1 else i;
            j < IntPart(s, i).pos <= |s| && WholeOk(s[j..IntPart(s, i).pos])
  {
    var j := if i < |s| && s[i] == 0x2D then i + 1 else i;
    DigitsStop(s, j);
    var d := s[j..IntPart(s, i).pos];
    assert d[0] == s[j];
    assert Decimals(d);
  }

  lemma FracWritten(s: Bytes, i: nat)
    requires i <= |s| && FracPart(s, i).Got?
    ensures var r := FracPart(s, i);
            i <= r.pos <= |s| && FracOk(s[i..r.pos]) && (r.value <==> r.pos > i)
  {
    if i < |s| && s[i] == 46 {
      DigitsStop(s, i + 1);
      var t := s[i..FracPart(s, i).pos];
      assert t[1..] == s[i + 1..FracPart(s, i).pos];
    }
  }

  lemma ExpWritten(s: Bytes, i: nat)
    requires i <= |s| && ExpPart(s, i).Got?
    ensures var r := ExpPart(s, i);
            i <= r.pos <= |s| && ExpOk(s[i..r.pos]) && (r.value <==> r.pos > i)
  {
    if i < |s| && (s[i] == 101 || s[i] == 69) {
      var j := if i + 1 < |s| && (s[i + 1] == 43 || s[i + 1] == 45) then i + 2 else i + 1;
      DigitsStop(s, j);
      var t := s[i..ExpPart(s, i).pos];
      assert t[1] == s[i + 1];
      assert t[j - i..] == s[j..ExpPart(s, i).pos];
    }
  }

  // ---------------------------------------------------------------- values

  predicate White(c: byte) { c == 0x20 || c == 0x09 || c == 0x0A || c == 0x0D }

  predicate Whites(w: Bytes) { forall k :: 0 <= k < |w| ==> White(w[k]) }

  /** A value as it is written. A gap is the white space between empty brackets. */
  datatype Doc =
    | DNull | DTrue | DFalse
    | DNum(n: Numeral)
    | DStr(ps: seq<Piece>)
    | DArr(gap: Bytes, items: seq<Item>)
    | DObj(gap: Bytes, members: seq<Member>)

  /** A value with the white space around it. */
  datatype Item = Item(before: Bytes, doc: Doc, after: Bytes)

  /** A key with the white space around it, and the value. */
  datatype Member = Member(before: Bytes, key: seq<Piece>, mid: Bytes, item: Item)

  predicate DocOk(d: Doc)
    decreases d, 0
  {
    match d
    case DNum(n) => NumeralOk(n)
    case DStr(ps) => PiecesOk(ps)
    case DArr(gap, items) => Whites(gap) && forall k :: 0 <= k < |items| ==> ItemOk(items[k])
    case DObj(gap, members) => Whites(gap) && forall k :: 0 <= k < |members| ==> MemberOk(members[k])
    case _ => true
  }

  predicate ItemOk(it: Item)
    decreases it, 1
  {
    Whites(it.before) && DocOk(it.doc) && Whites(it.after)
  }

  predicate MemberOk(m: Member)
    decreases m, 2
  {
    Whites(m.before) && PiecesOk(m.key) && Whites(m.mid) && ItemOk(m.item)
  }

  function DocText(d: Doc): Bytes
    decreases d, 0
  {
    match d
    case DNull => [0x6E, 0x75, 0x6C, 0x6C]
    case DTrue => [0x74, 0x72, 0x75, 0x65]
    case DFalse => [0x66, 0x61, 0x6C, 0x73, 0x65]
    case DNum(n) => NumeralText(n)
    case DStr(ps) => Quoted(ps)
    case DArr(gap, items) => [0x5B] + ((if items == [] then gap else ItemsText(items)) + [0x5D])
    case DObj(gap, members) => [0x7B] + ((if members == [] then gap else MembersText(members)) + [0x7D])
  }

  function ItemText(it: Item): Bytes
    decreases it, 1
  {
    it.before + (DocText(it.doc) + it.after)
  }

  function ItemsText(items: seq<Item>): Bytes
    requires items != []
    decreases items, 2
  {
    ItemText(items[0]) + if |items| == 1 then [] else [0x2C] + ItemsText(items[1..])
  }

  function MemberText(m: Member): Bytes
    decreases m, 2
  {
    m.before + (Quoted(m.key) + (m.mid + ([0x3A] + ItemText(m.item))))
  }

  function MembersText(ms: seq<Member>): Bytes
    requires ms != []
    decreases ms, 3
  {
    MemberText(ms[0]) + if |ms| == 1 then [] else [0x2C] + MembersText(ms[1..])
  }

  /** What a written value means. A key that comes again keeps its place and takes the last value. */
  function TreeOf(d: Doc): Tree
    decreases d, 0
  {
    match d
    case DNull => Null
    case DTrue => Bool(true)
    case DFalse => Bool(false)
    case DNum(n) => NumeralTree(n)
    case DStr(ps) => Str(PiecesBytes(ps))
    case DArr(_, items) => Arr(TreesOf(items))
    case DObj(_, members) => Obj(SetAll([], EntriesOf(members)))
  }

  function TreesOf(items: seq<Item>): (r: seq<Tree>)
    decreases items, 1
  {
    if items == [] then [] else [TreeOf(items[0].doc)] + TreesOf(items[1..])
  }

  function EntriesOf(ms: seq<Member>): (r: seq<Entry>)
    decreases ms, 1
  {
    if ms == [] then [] else [EntryOf(ms[0])] + EntriesOf(ms[1..])
  }

  function EntryOf(m: Member): Entry
    decreases m, 0
  {
    Entry(PiecesBytes(m.key), TreeOf(m.item.doc))
  }

  function SetAll(acc: seq<Entry>, es: seq<Entry>): seq<Entry>
    decreases |es|
  {
    if es == [] then acc else SetAll(SetEntry(acc, es[0].key, es[0].value), es[1..])
  }

  // ---------------------------------------------------------------- written values are read

  lemma WhiteIs(c: byte)
    ensures White(c) <==> IsSpace(c)
  {
  }

  lemma WhitesSkip(s: Bytes, i: nat, w: Bytes)
    requires At(s, i, w) && Whites(w) && (i + |w| < |s| ==> !White(s[i + |w|]))
    ensures Skip(s, i) == i + |w|
  {
    forall k | i <= k < i + |w| ensures IsSpace(s[k]) {
      AtIndex(s, i, w, k - i);
      WhiteIs(w[k - i]);
    }
    if i + |w| < |s| { WhiteIs(s[i + |w|]); }
    SkipStops(s, i, i + |w|);
  }

  /** What may follow a value and the white space behind it. */
  predicate Delimits(c: byte) { c == 0x2C || c == 0x5D || c == 0x7D }

  /** A written value starts with none of these. */
  lemma DocStarts(d: Doc)
    requires DocOk(d)
    ensures DocText(d) != [] && !White(DocText(d)[0]) && !Delimits(DocText(d)[0])
  {
    if d.DNum? {
      assert Decimal(d.n.whole[0]);
    }
  }

  lemma LiteralReads(s: Bytes, i: nat, d: Doc)
    requires (d.DNull? || d.DTrue? || d.DFalse?) && At(s, i, DocText(d))
    ensures ParseValue(s, i) == Got(TreeOf(d), i + |DocText(d)|)
  {
    AtFirst(s, i, DocText(d));
    SkipStops(s, i, i);
  }

  lemma NumberStarts(s: Bytes, i: nat)
    requires i < |s| && (s[i] == 0x2D || Decimal(s[i]))
    ensures ParseValue(s, i) == ParseNumber(s, i)
  {
    hide ParseNumber, ParseString, ParseElems, ParseEntries, Literal;
    SkipStops(s, i, i);
  }

  lemma StringStarts(s: Bytes, i: nat)
    requires i < |s| && s[i] == 0x22
    ensures ParseValue(s, i) == var r := ParseString(s, i); if r.Fail? then Fail else Got(Str(r.value), r.pos)
  {
    hide ParseNumber, ParseString, ParseElems, ParseEntries, Literal;
    SkipStops(s, i, i);
  }

  lemma ScalarReads(s: Bytes, i: nat, d: Doc)
    requires (d.DNum? || d.DStr?) && DocOk(d) && At(s, i, DocText(d)) && Ends(s, i + |DocText(d)|)
    ensures ParseValue(s, i) == Got(TreeOf(d), i + |DocText(d)|)
  {
    hide ParseValue, ParseNumber, ParseString, At, NumeralTree;
    AtFirst(s, i, DocText(d));
    if d.DNum? {
      assert Decimal(d.n.whole[0]);
      NumberStarts(s, i);
      NumeralReads(s, i, d.n);
    } else {
      StringStarts(s, i);
      StringReads(s, i, d.ps);
    }
  }

  /** Brackets with nothing but white space between them. */
  lemma EmptyReads(s: Bytes, i: nat, d: Doc)
    requires (d.DArr? && d.items == []) || (d.DObj? && d.members == [])
    requires DocOk(d) && At(s, i, DocText(d))
    ensures ParseValue(s, i) == Got(TreeOf(d), i + |DocText(d)|)
  {
    hide At, ParseNumber, ParseString, ParseElems, ParseEntries, Literal, Skip;
    var open: Bytes := if d.DArr? then [0x5B] else [0x7B];
    var close: Bytes := if d.DArr? then [0x5D] else [0x7D];
    AtParts(s, i, open, d.gap + close);
    AtParts(s, i + 1, d.gap, close);
    AtFirst(s, i, open);
    AtFirst(s, i + 1 + |d.gap|, close);
    WhitesSkip(s, i + 1, d.gap);
    SkipStops(s, i, i);
  }

  /** What stands behind a written value ends it. */
  lemma AfterEnds(s: Bytes, k: nat, after: Bytes)
    requires At(s, k, after) && Whites(after)
    requires k + |after| < |s| ==> Delimits(s[k + |after|])
    ensures Ends(s, k) && Skip(s, k) == k + |after|
  {
    if after != [] {
      AtFirst(s, k, after);
      assert White(after[0]);
    }
    WhitesSkip(s, k, after);
  }

  /** A written value, followed by something that does not go on with it, is read as what it means. */
  lemma {:induction false} DocReads(s: Bytes, i: nat, d: Doc)
    requires DocOk(d) && At(s, i, DocText(d)) && Ends(s, i + |DocText(d)|)
    ensures ParseValue(s, i) == Got(TreeOf(d), i + |DocText(d)|)
    decreases d, 0
  {
    hide ParseValue, At, Ends, NumeralText, Quoted, NumeralTree, Whites, ItemsText, MembersText, PiecesBytes;
    match d
    case DArr(gap, items) =>
      if items == [] {
        EmptyReads(s, i, d);
      } else {
        AtParts(s, i, [0x5B], ItemsText(items) + [0x5D]);
        AtFirst(s, i, [0x5B]);
        ItemsRead(s, i + 1, items, []);
        ArrayOpens(s, i);
        assert [] + TreesOf(items) == TreesOf(items);
      }
    case DObj(gap, members) =>
      if members == [] {
        EmptyReads(s, i, d);
      } else {
        AtParts(s, i, [0x7B], MembersText(members) + [0x7D]);
        AtFirst(s, i, [0x7B]);
        MembersRead(s, i + 1, members, []);
        ObjectOpens(s, i);
      }
    case DNum(_) => ScalarReads(s, i, d);
    case DStr(_) => ScalarReads(s, i, d);
    case _ => LiteralReads(s, i, d);
  }

  /** A value with white space around it, up to a delimiter or the end. */
  lemma {:induction false} ItemReads(s: Bytes, i: nat, it: Item)
    requires ItemOk(it) && At(s, i, ItemText(it))
    requires i + |ItemText(it)| < |s| ==> Delimits(s[i + |ItemText(it)|])
    ensures Skip(s, i) < |s| && !Delimits(s[Skip(s, i)])
    ensures ParseValue(s, i).Got? && ParseValue(s, Skip(s, i)) == ParseValue(s, i)
    ensures ParseValue(s, i).value == TreeOf(it.doc) && Skip(s, ParseValue(s, i).pos) == i + |ItemText(it)|
    decreases it, 1
  {
    hide ParseValue, At, Skip, DocText, DocOk, TreeOf;
    var a := i + |it.before|;
    AtParts(s, i, it.before, DocText(it.doc) + it.after);
    AtParts(s, a, DocText(it.doc), it.after);
    DocStarts(it.doc);
    AtFirst(s, a, DocText(it.doc));
    WhitesSkip(s, i, it.before);
    LeadingSpace(s, i);
    AfterEnds(s, a + |DocText(it.doc)|, it.after);
    DocReads(s, a, it.doc);
  }

  lemma ItemsSplit(items: seq<Item>)
    requires items != []
    ensures |items| == 1 ==> ItemsText(items) + [0x5D] == ItemText(items[0]) + [0x5D]
    ensures |items| > 1 ==>
              ItemsText(items) + [0x5D] == ItemText(items[0]) + ([0x2C] + (ItemsText(items[1..]) + [0x5D])) &&
              |ItemsText(items)| == |ItemText(items[0])| + 1 + |ItemsText(items[1..])|
    ensures |items| == 1 ==> ItemsText(items) == ItemText(items[0])
  {
    hide ItemText;
  }

  lemma TreesSplit(items: seq<Item>, acc: seq<Tree>)
    requires items != []
    ensures acc + TreesOf(items) == acc + [TreeOf(items[0].doc)] + TreesOf(items[1..])
    ensures |items| == 1 ==> acc + TreesOf(items) == acc + [TreeOf(items[0].doc)]
  {
    TreesFirst(items);
    hide TreesOf, TreeOf;
    Gather(acc, [TreeOf(items[0].doc)], TreesOf(items[1..]));
  }

  lemma TreesFirst(items: seq<Item>)
    requires items != []
    ensures TreesOf(items) == [TreeOf(items[0].doc)] + TreesOf(items[1..])
    ensures |items| == 1 ==> TreesOf(items[1..]) == []
  {
    hide TreeOf;
  }

  lemma Gather(a: seq<Tree>, b: seq<Tree>, c: seq<Tree>)
    ensures a + (b + c) == a + b + c && (c == [] ==> a + (b + c) == a + b)
  {
  }

  lemma {:induction false} ItemsRead(s: Bytes, i: nat, items: seq<Item>, acc: seq<Tree>)
    requires items != [] && (forall k :: 0 <= k < |items| ==> ItemOk(items[k]))
    requires At(s, i, ItemsText(items) + [0x5D])
    ensures Skip(s, i) < |s| && s[Skip(s, i)] != 93
    ensures ParseElems(s, Skip(s, i), acc) == Got(Arr(acc + TreesOf(items)), i + |ItemsText(items)| + 1)
    decreases items, 2
  {
    hide ParseValue, ParseElems, At, Skip, ItemText, ItemsText, ItemOk, TreeOf, TreesOf;
    var it, more := items[0], items[1..];
    ItemsSplit(items);
    TreesSplit(items, acc);
    var j := i + |ItemText(it)|;
    if |items| == 1 {
      AtParts(s, i, ItemText(it), [0x5D]);
      AtFirst(s, j, [0x5D]);
    } else {
      AtParts(s, i, ItemText(it), [0x2C] + (ItemsText(more) + [0x5D]));
      AtParts(s, j, [0x2C], ItemsText(more) + [0x5D]);
      AtFirst(s, j, [0x2C]);
      ItemsRead(s, j + 1, more, acc + [TreeOf(it.doc)]);
    }
    ItemReads(s, i, it);
    ElemStep(s, Skip(s, i), TreeOf(it.doc), acc, ParseValue(s, i).pos);
  }

  /** A key, a colon, and where the value starts. */
  lemma KeyReads(s: Bytes, i: nat, m: Member)
    requires MemberOk(m) && At(s, i, MemberText(m))
    ensures var a := i + |m.before|;
            var c := a + |Quoted(m.key)| + |m.mid|;
            Skip(s, i) == a < |s| && s[a] == 0x22 &&
            ParseString(s, a) == Got(PiecesBytes(m.key), a + |Quoted(m.key)|) &&
            Skip(s, a + |Quoted(m.key)|) == c < |s| && s[c] == 0x3A && At(s, c + 1, ItemText(m.item)) &&
            i + |MemberText(m)| == c + 1 + |ItemText(m.item)|
  {
    hide At, Skip, ParseString, ItemText, ItemOk, Quoted, PiecesBytes, PiecesOk;
    var a := i + |m.before|;
    var q := Quoted(m.key);
    AtParts(s, i, m.before, q + (m.mid + ([0x3A] + ItemText(m.item))));
    AtParts(s, a, q, m.mid + ([0x3A] + ItemText(m.item)));
    AtParts(s, a + |q|, m.mid, [0x3A] + ItemText(m.item));
    AtParts(s, a + |q| + |m.mid|, [0x3A], ItemText(m.item));
    AtFirst(s, a, q);
    AtFirst(s, a + |q| + |m.mid|, [0x3A]);
    WhitesSkip(s, i, m.before);
    WhitesSkip(s, a + |q|, m.mid);
    StringReads(s, a, m.key);
  }

  /** Reading one member either finishes the object or goes on after a comma. */
  lemma MemberStep(s: Bytes, a: nat, k: Bytes, v: Tree, acc: seq<Entry>, q: nat, end: nat)
    requires a <= |s| && ParseString(s, a) == Got(k, q) && q <= |s| && Skip(s, q) < |s| && s[Skip(s, q)] == 58
    requires end <= |s| && ParseValue(s, Skip(s, q) + 1) == Got(v, end)
    ensures Skip(s, end) < |s| && s[Skip(s, end)] == 125 ==>
              ParseEntries(s, a, acc) == Got(Obj(SetEntry(acc, k, v)), Skip(s, end) + 1)
    ensures Skip(s, end) < |s| && s[Skip(s, end)] == 44 ==>
              ParseEntries(s, a, acc) == ParseEntries(s, Skip(s, Skip(s, end) + 1), SetEntry(acc, k, v))
  {
    hide Skip, ParseValue, ParseString, SetEntry;
  }

  lemma {:induction false} MemberReads(s: Bytes, i: nat, m: Member, acc: seq<Entry>)
    requires MemberOk(m) && At(s, i, MemberText(m))
    requires var j := i + |MemberText(m)|; j < |s| && (s[j] == 0x2C || s[j] == 0x7D)
    ensures var a, j := Skip(s, i), i + |MemberText(m)|;
            var all := SetEntry(acc, PiecesBytes(m.key), TreeOf(m.item.doc));
            a < |s| && s[a] == 0x22 &&
            ParseEntries(s, a, acc) ==
            if s[j] == 0x7D then Got(Obj(all), j + 1) else ParseEntries(s, Skip(s, j + 1), all)
    decreases m, 2
  {
    hide ParseValue, ParseEntries, ParseString, At, Skip, ItemText, ItemOk, TreeOf, MemberText, PiecesBytes, Quoted,
        SetEntry, PiecesOk, Whites;
    KeyReads(s, i, m);
    var a := i + |m.before|;
    var c := a + |Quoted(m.key)| + |m.mid|;
    ItemReads(s, c + 1, m.item);
    MemberStep(s, a, PiecesBytes(m.key), TreeOf(m.item.doc), acc, a + |Quoted(m.key)|, ParseValue(s, c + 1).pos);
  }

  lemma MembersSplit(ms: seq<Member>, acc: seq<Entry>)
    requires ms != []
    ensures |ms| == 1 ==>
              MembersText(ms) + [0x7D] == MemberText(ms[0]) + [0x7D] && MembersText(ms) == MemberText(ms[0])
    ensures |ms| > 1 ==>
              MembersText(ms) + [0x7D] == MemberText(ms[0]) + ([0x2C] + (MembersText(ms[1..]) + [0x7D])) &&
              |MembersText(ms)| == |MemberText(ms[0])| + 1 + |MembersText(ms[1..])|
    ensures var all := SetEntry(acc, PiecesBytes(ms[0].key), TreeOf(ms[0].item.doc));
            SetAll(acc, EntriesOf(ms)) == SetAll(all, EntriesOf(ms[1..])) &&
            (|ms| == 1 ==> SetAll(acc, EntriesOf(ms)) == all)
  {
    hide MemberText, SetEntry, TreeOf, PiecesBytes;
    assert EntriesOf(ms)[1..] == EntriesOf(ms[1..]);
  }

  lemma {:induction false} MembersRead(s: Bytes, i: nat, ms: seq<Member>, acc: seq<Entry>)
    requires ms != [] && (forall k :: 0 <= k < |ms| ==> MemberOk(ms[k]))
    requires At(s, i, MembersText(ms) + [0x7D])
    ensures Skip(s, i) < |s| && s[Skip(s, i)] != 125
    ensures ParseEntries(s, Skip(s, i), acc) == Got(Obj(SetAll(acc, EntriesOf(ms))), i + |MembersText(ms)| + 1)
    decreases ms, 3
  {
    hide ParseEntries, At, Skip, TreeOf, MemberText, MemberOk, MembersText, PiecesBytes, EntriesOf, SetEntry, SetAll;
    var m, more := ms[0], ms[1..];
    MembersSplit(ms, acc);
    var j := i + |MemberText(m)|;
    if |ms| == 1 {
      AtParts(s, i, MemberText(m), [0x7D]);
      AtFirst(s, j, [0x7D]);
    } else {
      AtParts(s, i, MemberText(m), [0x2C] + (MembersText(more) + [0x7D]));
      AtParts(s, j, [0x2C], MembersText(more) + [0x7D]);
      AtFirst(s, j, [0x2C]);
      MembersRead(s, j + 1, more, SetEntry(acc, PiecesBytes(m.key), TreeOf(m.item.doc)));
    }
    MemberReads(s, i, m, acc);
  }

  // ---------------------------------------------------------------- what is read was written

  lemma {:induction false} SkipWhites(s: Bytes, i: nat)
    requires i <= |s|
    ensures Whites(s[i..Skip(s, i)]) && (Skip(s, i) < |s| ==> !White(s[Skip(s, i)]))
    decreases |s| - i
  {
    if i < |s| && IsSpace(s[i]) {
      SkipWhites(s, i + 1);
      assert s[i..Skip(s, i)] == [s[i]] + s[i + 1..Skip(s, i)];
    }
  }

  lemma Slice2(s: Bytes, a: nat, b: nat, c: nat)
    requires a <= b <= c <= |s|
    ensures s[a..c] == s[a..b] + s[b..c]
  {
  }

  /** Where the parser reads a value one is written. */
  lemma {:induction false} DocWritten(s: Bytes, i: nat) returns (d: Doc)
    requires i <= |s| && ParseValue(s, i).Got? && Skip(s, i) == i
    ensures DocOk(d) && TreeOf(d) == ParseValue(s, i).value && s[i..ParseValue(s, i).pos] == DocText(d)
    decreases |s| - i, 0
  {
    hide ParseNumber, ParseString, ParseElems, ParseEntries, NumeralTree, NumeralText, NumeralOk, PiecesOk, PiecesBytes,
        Quoted, Skip;
    if s[i] == 0x22 {
      var ps := StringWritten(s, i);
      d := DStr(ps);
    } else if s[i] == 0x7B {
      d := ObjectWritten(s, i);
    } else if s[i] == 0x5B {
      d := ArrayWritten(s, i);
    } else if s[i] == 0x2D || IsDigit(s[i]) {
      var n := NumeralWritten(s, i);
      d := DNum(n);
    } else {
      d := if s[i] == 116 then DTrue else if s[i] == 102 then DFalse else DNull;
    }
  }

  lemma ArrayRead(s: Bytes, i: nat)
    requires i < |s| && s[i] == 0x5B && Skip(s, i) == i
    ensures var j := Skip(s, i + 1);
            ParseValue(s, i) == if j < |s| && s[j] == 93 then Got(Arr([]), j + 1) else ParseElems(s, j, [])
  {
    hide ParseElems, ParseEntries, ParseNumber, ParseString, Literal, Skip;
  }

  lemma ObjectRead(s: Bytes, i: nat)
    requires i < |s| && s[i] == 0x7B && Skip(s, i) == i
    ensures var j := Skip(s, i + 1);
            ParseValue(s, i) == if j < |s| && s[j] == 125 then Got(Obj([]), j + 1) else ParseEntries(s, j, [])
  {
    hide ParseElems, ParseEntries, ParseNumber, ParseString, Literal, Skip;
  }

  /** Text between brackets. */
  lemma Bracketed(s: Bytes, i: nat, end: nat)
    requires i + 1 < end <= |s|
    ensures s[i..end] == [s[i]] + s[i + 1..end]
    ensures s[i..end] == [s[i]] + (s[i + 1..end - 1] + [s[end - 1]])
  {
    assert s[i + 1..end] == s[i + 1..end - 1] + [s[end - 1]];
  }

  lemma EmptyArray(gap: Bytes)
    requires Whites(gap)
    ensures var d := DArr(gap, []);
            DocOk(d) && TreeOf(d) == Arr([]) && DocText(d) == [0x5B] + (gap + [0x5D])
  {
  }

  lemma FullArray(items: seq<Item>)
    requires items != [] && forall k :: 0 <= k < |items| ==> ItemOk(items[k])
    ensures var d := DArr([], items);
            DocOk(d) && TreeOf(d) == Arr([] + TreesOf(items)) && DocText(d) == [0x5B] + (ItemsText(items) + [0x5D])
  {
    hide ItemsText, ItemOk, TreesOf, PiecesOk, NumeralOk, MemberOk, Whites;
    NoWhite();
    assert [] + TreesOf(items) == TreesOf(items);
  }

  lemma {:induction false} ArrayWritten(s: Bytes, i: nat) returns (d: Doc)
    requires i < |s| && s[i] == 0x5B && ParseValue(s, i).Got? && Skip(s, i) == i
    ensures DocOk(d) && TreeOf(d) == ParseValue(s, i).value && s[i..ParseValue(s, i).pos] == DocText(d)
    decreases |s| - i - 1, 3
  {
    hide ParseValue, ParseElems, Skip, ItemsText, ItemOk, TreesOf, Whites, DocOk, TreeOf, DocText;
    var j := Skip(s, i + 1);
    ArrayRead(s, i);
    SkipWhites(s, i + 1);
    if j < |s| && s[j] == 93 {
      d := DArr(s[i + 1..j], []);
      EmptyArray(s[i + 1..j]);
      Bracketed(s, i, j + 1);
    } else {
      var items := ItemsWritten(s, i + 1, []);
      d := DArr([], items);
      FullArray(items);
      Bracketed(s, i, ParseValue(s, i).pos);
    }
  }

  lemma NoWhite()
    ensures Whites([])
  {
  }

  lemma EmptyObject(gap: Bytes)
    requires Whites(gap)
    ensures var d := DObj(gap, []);
            DocOk(d) && TreeOf(d) == Obj([]) && DocText(d) == [0x7B] + (gap + [0x7D])
  {
  }

  lemma FullObject(ms: seq<Member>)
    requires ms != [] && forall k :: 0 <= k < |ms| ==> MemberOk(ms[k])
    ensures var d := DObj([], ms);
            DocOk(d) && TreeOf(d) == Obj(SetAll([], EntriesOf(ms))) && DocText(d) == [0x7B] + (MembersText(ms) + [0x7D])
  {
    hide MembersText, MemberOk, EntriesOf, SetAll, PiecesOk, NumeralOk, ItemOk, Whites;
    NoWhite();
  }

  lemma {:induction false} ObjectWritten(s: Bytes, i: nat) returns (d: Doc)
    requires i < |s| && s[i] == 0x7B && ParseValue(s, i).Got? && Skip(s, i) == i
    ensures DocOk(d) && TreeOf(d) == ParseValue(s, i).value && s[i..ParseValue(s, i).pos] == DocText(d)
    decreases |s| - i - 1, 3
  {
    hide ParseValue, ParseEntries, Skip, MembersText, MemberOk, EntriesOf, SetAll, Whites, DocOk, TreeOf, DocText;
    var j := Skip(s, i + 1);
    ObjectRead(s, i);
    SkipWhites(s, i + 1);
    if j < |s| && s[j] == 125 {
      d := DObj(s[i + 1..j], []);
      EmptyObject(s[i + 1..j]);
      Bracketed(s, i, j + 1);
    } else {
      var ms := MembersWritten(s, i + 1, []);
      d := DObj([], ms);
      FullObject(ms);
      Bracketed(s, i, ParseValue(s, i).pos);
    }
  }

  /** A value and the white space around it. */
  lemma {:induction false} ItemWritten(s: Bytes, i: nat) returns (it: Item)
    requires i <= |s| && ParseValue(s, i).Got?
    ensures var r := ParseValue(s, i);
            ItemOk(it) && TreeOf(it.doc) == r.value && s[i..Skip(s, r.pos)] == ItemText(it)
    decreases |s| - i, 1
  {
    hide ParseValue, Skip, DocOk, TreeOf, DocText;
    var a, end := Skip(s, i), ParseValue(s, i).pos;
    var b := Skip(s, end);
    LeadingSpace(s, i);
    SkipTwice(s, i);
    SkipWhites(s, i);
    SkipWhites(s, end);
    var d := DocWritten(s, a);
    it := Item(s[i..a], d, s[end..b]);
    Slices(s, i, i, a, end, b);
  }

  lemma ElemsFirst(s: Bytes, a: nat, acc: seq<Tree>)
    requires a <= |s| && ParseElems(s, a, acc).Got?
    ensures ParseValue(s, a).Got? && Skip(s, ParseValue(s, a).pos) < |s|
    ensures var v, j := ParseValue(s, a).value, Skip(s, ParseValue(s, a).pos);
            if s[j] == 93 then ParseElems(s, a, acc) == Got(Arr(acc + [v]), j + 1)
            else s[j] == 44 && ParseElems(s, a, acc) == ParseElems(s, Skip(s, j + 1), acc + [v])
  {
    hide ParseValue, Skip;
  }

  lemma ItemsJoin(it: Item, more: seq<Item>)
    requires more != []
    ensures ItemsText([it] + more) == ItemText(it) + ([0x2C] + ItemsText(more))
    ensures TreesOf([it] + more) == [TreeOf(it.doc)] + TreesOf(more)
  {
    hide ItemText, TreeOf;
    assert ([it] + more)[1..] == more;
  }

  lemma ItemsOne(it: Item)
    ensures ItemsText([it]) == ItemText(it) && TreesOf([it]) == [TreeOf(it.doc)]
  {
    hide ItemText, TreeOf;
  }

  lemma {:induction false} ItemsWritten(s: Bytes, i: nat, acc: seq<Tree>) returns (items: seq<Item>)
    requires i <= |s| && ParseElems(s, Skip(s, i), acc).Got?
    ensures var r := ParseElems(s, Skip(s, i), acc);
            items != [] && (forall k :: 0 <= k < |items| ==> ItemOk(items[k])) &&
            r.value == Arr(acc + TreesOf(items)) && s[i..r.pos] == ItemsText(items) + [0x5D]
    decreases |s| - i, 2
  {
    hide ParseValue, ParseElems, Skip, ItemOk, ItemText, ItemsText, TreesOf, TreeOf;
    var r := ParseElems(s, Skip(s, i), acc);
    ElemsFirst(s, Skip(s, i), acc);
    LeadingSpace(s, i);
    SkipTwice(s, i);
    LeadingSpace(s, Skip(s, i));
    var it := ItemWritten(s, i);
    var j := Skip(s, ParseValue(s, i).pos);
    if s[j] == 93 {
      items := [it];
      ItemsOne(it);
      Slice2(s, i, j, j + 1);
    } else {
      var more := ItemsWritten(s, j + 1, acc + [TreeOf(it.doc)]);
      items := [it] + more;
      ItemsJoin(it, more);
      Gather(acc, [TreeOf(it.doc)], TreesOf(more));
      Slices(s, i, i, j, j + 1, r.pos);
    }
  }

  /** A key, a colon and a value are read at a. */
  predicate Keyed(s: Bytes, a: nat)
    requires a <= |s|
  {
    ParseString(s, a).Got? && Colon(s, a) < |s| && s[Colon(s, a)] == 58 && ParseValue(s, Colon(s, a) + 1).Got?
  }

  function Colon(s: Bytes, a: nat): nat
    requires a <= |s| && ParseString(s, a).Got?
  {
    Skip(s, ParseString(s, a).pos)
  }

  /** The entry read there, and where what follows it starts. */
  function EntryAt(s: Bytes, a: nat): Entry
    requires a <= |s| && Keyed(s, a)
  {
    Entry(ParseString(s, a).value, ParseValue(s, Colon(s, a) + 1).value)
  }

  function AfterEntry(s: Bytes, a: nat): (j: nat)
    requires a <= |s| && Keyed(s, a)
    ensures a <= j <= |s|
  {
    Skip(s, ParseValue(s, Colon(s, a) + 1).pos)
  }

  lemma EntriesFirst(s: Bytes, a: nat, acc: seq<Entry>)
    requires a <= |s| && ParseEntries(s, a, acc).Got?
    ensures Keyed(s, a) && AfterEntry(s, a) < |s|
    ensures var j, all := AfterEntry(s, a), SetEntry(acc, EntryAt(s, a).key, EntryAt(s, a).value);
            if s[j] == 125 then ParseEntries(s, a, acc) == Got(Obj(all), j + 1)
            else s[j] == 44 && ParseEntries(s, a, acc) == ParseEntries(s, Skip(s, j + 1), all)
  {
    hide ParseValue, ParseString, Skip, SetEntry;
  }

  lemma {:induction false} MemberWritten(s: Bytes, i: nat) returns (m: Member)
    requires i <= |s| && Keyed(s, Skip(s, i))
    ensures MemberOk(m) && EntryOf(m) == EntryAt(s, Skip(s, i)) && s[i..AfterEntry(s, Skip(s, i))] == MemberText(m)
    decreases |s| - i, 1
  {
    hide ParseValue, ParseString, Skip, ItemOk, ItemText, TreeOf, PiecesOk, PiecesBytes, Quoted, Whites;
    var a := Skip(s, i);
    var q := ParseString(s, a).pos;
    var c := Skip(s, q);
    SkipWhites(s, i);
    SkipWhites(s, q);
    var ps := StringWritten(s, a);
    var it := ItemWritten(s, c + 1);
    m := Member(s[i..a], ps, s[q..c], it);
    var end := Skip(s, ParseValue(s, c + 1).pos);
    Slice2(s, c, c + 1, end);
    Slices(s, i, a, q, c, end);
  }

  lemma MembersJoin(m: Member, more: seq<Member>, acc: seq<Entry>)
    requires more != []
    ensures MembersText([m] + more) == MemberText(m) + ([0x2C] + MembersText(more))
    ensures SetAll(acc, EntriesOf([m] + more)) ==
            SetAll(SetEntry(acc, EntryOf(m).key, EntryOf(m).value), EntriesOf(more))
  {
    hide MemberText, EntryOf, SetEntry;
    assert ([m] + more)[1..] == more;
    assert EntriesOf([m] + more)[1..] == EntriesOf(more);
  }

  lemma MembersOne(m: Member, acc: seq<Entry>)
    ensures MembersText([m]) == MemberText(m)
    ensures SetAll(acc, EntriesOf([m])) == SetEntry(acc, EntryOf(m).key, EntryOf(m).value)
  {
    hide MemberText, EntryOf, SetEntry;
    assert EntriesOf([m]) == [EntryOf(m)];
  }

  lemma {:induction false} MembersWritten(s: Bytes, i: nat, acc: seq<Entry>) returns (ms: seq<Member>)
    requires i <= |s| && ParseEntries(s, Skip(s, i), acc).Got?
    ensures var r := ParseEntries(s, Skip(s, i), acc);
            ms != [] && (forall k :: 0 <= k < |ms| ==> MemberOk(ms[k])) &&
            r.value == Obj(SetAll(acc, EntriesOf(ms))) && s[i..r.pos] == MembersText(ms) + [0x7D]
    decreases |s| - i, 2
  {
    hide ParseValue, ParseEntries, ParseString, Skip, MemberOk, MemberText, MembersText, EntriesOf, EntryOf, SetAll,
        SetEntry;
    var r := ParseEntries(s, Skip(s, i), acc);
    EntriesFirst(s, Skip(s, i), acc);
    var m := MemberWritten(s, i);
    var j := AfterEntry(s, Skip(s, i));
    if s[j] == 125 {
      ms := [m];
      MembersOne(m, acc);
      Slice2(s, i, j, j + 1);
    } else {
      var more := MembersWritten(s, j + 1, SetEntry(acc, EntryOf(m).key, EntryOf(m).value));
      ms := [m] + more;
      MembersJoin(m, more, acc);
      Slices(s, i, i, j, j + 1, r.pos);
    }
  }

  // ---------------------------------------------------------------- exactness

  /** The text is this value, written with white space around it. */
  ghost predicate Writes(it: Item, s: Bytes, v: Tree) {
    ItemOk(it) && ItemText(it) == s && TreeOf(it.doc) == v
  }

  /** json.parse gives a value exactly for the texts of the grammar, and then the one the text means. */
  lemma ParseExact(s: Bytes, v: Tree)
    ensures Parse(s).Got? && Parse(s).value == v <==> exists it :: Writes(it, s, v)
  {
    hide ParseValue, Skip, ItemOk, ItemText, TreeOf;
    if Parse(s).Got? && Parse(s).value == v {
      var it := ItemWritten(s, 0);
      assert s[0..|s|] == s;
      assert Writes(it, s, v);
    }
    if it :| Writes(it, s, v) {
      assert s[0..0 + |s|] == s;
      ItemReads(s, 0, it);
    }
  }

  // ---------------------------------------------------------------- what follows for escapes, keys and numbers

  /** A written value without white space around it is a text. */
  lemma BareParses(d: Doc)
    requires DocOk(d)
    ensures Parse(DocText(d)).Got? && Parse(DocText(d)).value == TreeOf(d)
  {
    var it := Item([], d, []);
    assert ItemOk(it) && ItemText(it) == DocText(d) by {
      hide DocOk, DocText;
      assert [] + (DocText(d) + []) == DocText(d);
    }
    hide DocOk, DocText, TreeOf, ItemOk, ItemText;
    assert Writes(it, DocText(d), TreeOf(d)) by { assert it.doc == d; }
    ParseExact(DocText(d), TreeOf(d));
  }

  /** A `\u` escape, or a surrogate pair of them, gives the UTF-8 encoding of its code point. */
  lemma EscapeMeans(p: Piece)
    requires (p.Uni? || p.Pair?) && PieceOk(p)
    ensures var r := Parse(Quoted([p]));
            r.Got? && r.value.Str? && U.Codepoints(r.value.s, 0) == U.Some([p.cp])
  {
    assert PiecesBytes([p]) == U.EncodeOne(p.cp) + PiecesBytes([]) == U.EncodeAll([p.cp]) by {
      assert U.EncodeAll([p.cp]) == U.EncodeOne(p.cp) + U.EncodeAll([]);
    }
    hide PieceOk, Quoted, U.EncodeOne, U.EncodeAll, U.Codepoints, Parse;
    assert PiecesOk([p]);
    BareParses(DStr([p]));
    assert U.AllScalar([p.cp]);
    U.RoundTrips([], [p.cp]);
  }

  /** The printer writes a byte as it is unless it has to be escaped, with two characters where there are such,
      and any other control byte in four hex digits. */
  lemma ShortestEscape(c: byte)
    ensures EscapeByte(c) == [c] <==> PieceOk(Raw(c))
    ensures (exists k :: EscapeByte(c) == [0x5C, k] && k != 0x2F && EscapeIs(k, c)) <==>
            (exists k :: k != 0x2F && EscapeIs(k, c))
    ensures |EscapeByte(c)| == 6 <==> c < 0x20 && !exists k :: EscapeIs(k, c)
  {
    var t := EscapeByte(c);
    if |t| == 2 {
      assert t == [0x5C, t[1]] && EscapeIs(t[1], c);
    }
  }

  /** Every scalar value can be written that way, in hex digits of either case. */
  lemma EscapeFor(cp: nat, h: Bytes, l: Bytes)
    requires U.Scalar(cp)
    requires if cp < 0x10000 then HexWord(h, cp)
             else HexWord(h, 0xD800 + (cp - 0x10000) / 0x400) && HexWord(l, 0xDC00 + (cp - 0x10000) % 0x400)
    ensures PieceOk(if cp < 0x10000 then Uni(h, cp) else Pair(h, l, cp))
  {
  }

  lemma HexOf(v: nat) returns (h: Bytes)
    requires v < 0x10000
    ensures HexWord(h, v)
  {
    HexJoined(v);
    h := [LOWER[v / 4096], UPPER[v / 256 % 16], LOWER[v / 16 % 16], UPPER[v % 16]];
  }

  /** A surrogate without its other half is refused. */
  lemma LoneSurrogate(h: Bytes, v: nat, rest: Bytes)
    requires HexWord(h, v) && 0xD800 <= v <= 0xDFFF
    requires v <= 0xDBFF ==>
               !(|rest| >= 6 && rest[0] == 0x5C && rest[1] == 0x75 &&
                 exists w :: 0xDC00 <= w <= 0xDFFF && HexWord(rest[2..6], w))
    ensures Parse([0x22, 0x5C, 0x75] + h + rest).Fail?
  {
    hide HexWord, Hex4;
    HexLength(h, v);
    var s := [0x22, 0x5C, 0x75] + h + rest;
    assert s[3..7] == h;
    Hex4Reads(s, 3, h, v);
    if v <= 0xDBFF && 9 <= |s| && s[7] == 0x5C && s[8] == 0x75 && Hex4(s, 9).Got? {
      Hex4Written(s, 9);
      assert s[9..13] == rest[2..6];
    }
    assert CodePoint(s, 3).Fail?;
    hide CodePoint;
    assert Chars(s, 1, []).Fail?;
    hide Chars;
    StringStarts(s, 0);
  }

  lemma {:induction false} ValueCut(d: Bytes, k: nat)
    requires k < |d| && forall i :: 0 <= i < |d| ==> Decimal(d[i])
    ensures 10 * ValueOf(d[..k]) <= ValueOf(d)
  {
    var r := d[..|d| - 1];
    assert Decimal(d[|d| - 1]);
    ValueNat(r);
    if k < |r| {
      ValueCut(r, k);
      assert r[..k] == d[..k];
    } else {
      assert d[..k] == r;
    }
  }

  /** A number that does not become an integer is read as the float its text says exactly when it has at most
      63 characters; a longer integer loses its last digits and comes out at a tenth or less. */
  lemma NumberCut(n: Numeral)
    requires NumeralOk(n)
    ensures NumeralTree(n).Float? ==>
              (NumeralTree(n).text == NumeralText(n) <==> |NumeralText(n)| <= 63)
    ensures n.frac == [] && n.exp == [] && |NumeralText(n)| > 63 ==>
              var m := n.(whole := n.whole[..63 - |Sign(n)|]);
              NumeralTree(n) == Float(NumeralText(m)) && NumeralOk(m) && 0 < ValueOf(m.whole) &&
              10 * ValueOf(m.whole) <= ValueOf(n.whole)
  {
    hide ValueOf;
    if n.frac == [] && n.exp == [] && |NumeralText(n)| > 63 {
      var m := n.(whole := n.whole[..63 - |Sign(n)|]);
      LongIsLarge(n.whole);
      assert NumeralText(n)[..63] == NumeralText(m);
      assert forall k :: 0 <= k < |m.whole| ==> m.whole[k] == n.whole[k] && Decimal(n.whole[k]);
      LongIsLarge(m.whole);
      ValueCut(n.whole, |m.whole|);
    }
  }

  /** So json.parse gives 64 digits the value of the first 63. */
  lemma NumberFails(d: Bytes)
    requires WholeOk(d) && |d| > 63
    ensures Parse(d).Got? && Parse(d).value == Float(d[..63]) && 10 * ValueOf(d[..63]) <= ValueOf(d)
  {
    hide ValueOf, WholeOk;
    var n := Numeral(false, d, [], []);
    assert NumeralText(n) == d;
    NumberCut(n);
    assert NumeralText(n.(whole := d[..63])) == d[..63];
    BareParses(DNum(n));
  }

  /** What the entries of a written object come to: every key once, in the order in which they first come,
      with the value that comes last. */
  ghost predicate Collapsed(ms: seq<Entry>, es: seq<Entry>) {
    Distinct(es) &&
    (forall i :: 0 <= i < |ms| ==> HasKey(es, ms[i].key)) &&
    (forall a :: 0 <= a < |es| ==> HasLast(ms, es[a])) &&
    forall a, b :: 0 <= a < b < |es| ==> Before(ms, es[a].key, es[b].key)
  }

  ghost predicate HasKey(es: seq<Entry>, k: Bytes) { exists i :: 0 <= i < |es| && es[i].key == k }

  /** The entry is the j-th, and no later one has its key. */
  ghost predicate LastOf(ms: seq<Entry>, j: int, e: Entry) {
    0 <= j < |ms| && ms[j] == e && forall l :: j < l < |ms| ==> ms[l].key != e.key
  }

  ghost predicate HasLast(ms: seq<Entry>, e: Entry) { exists j :: LastOf(ms, j, e) }

  ghost predicate FirstAt(ms: seq<Entry>, i: int, k: Bytes, l: Bytes) {
    0 <= i < |ms| && ms[i].key == k && forall j :: 0 <= j <= i ==> ms[j].key != l
  }

  /** The key k comes before l does. */
  ghost predicate Before(ms: seq<Entry>, k: Bytes, l: Bytes) { exists i :: FirstAt(ms, i, k, l) }

  lemma {:induction false} SetAllSnoc(acc: seq<Entry>, es: seq<Entry>, e: Entry)
    ensures SetAll(acc, es + [e]) == SetEntry(SetAll(acc, es), e.key, e.value)
    decreases |es|
  {
    if es == [] {
      assert (es + [e])[1..] == [];
    } else {
      assert (es + [e])[1..] == es[1..] + [e];
      SetAllSnoc(SetEntry(acc, es[0].key, es[0].value), es[1..], e);
    }
  }

  /** Setting a key replaces its entry or appends one. */
  lemma {:induction false} SetEntryIs(es: seq<Entry>, k: Bytes, v: Tree) returns (i: nat)
    ensures i <= |es| && (forall j :: 0 <= j < i ==> es[j].key != k)
    ensures i < |es| ==> es[i].key == k && SetEntry(es, k, v) == es[i := Entry(k, v)]
    ensures i == |es| ==> SetEntry(es, k, v) == es + [Entry(k, v)]
  {
    if es == [] || es[0].key == k {
      i := 0;
    } else {
      var j := SetEntryIs(es[1..], k, v);
      i := j + 1;
    }
  }

  /** One more entry: in the place of the one with its key, or at the end. */
  ghost predicate Grown(es: seq<Entry>, now: seq<Entry>, i: nat, e: Entry) {
    i <= |es| && (forall j :: 0 <= j < i ==> es[j].key != e.key) && (i < |es| ==> es[i].key == e.key) &&
    now == if i < |es| then es[i := e] else es + [e]
  }

  lemma GrownDistinct(es: seq<Entry>, now: seq<Entry>, i: nat, e: Entry)
    requires Distinct(es) && Grown(es, now, i, e)
    ensures Distinct(now) && |es| <= |now| && forall a :: 0 <= a < |es| ==> now[a].key == es[a].key
  {
  }

  lemma GrownKeys(ms: seq<Entry>, es: seq<Entry>, now: seq<Entry>, i: nat, e: Entry, j: nat)
    requires (forall k :: 0 <= k < |ms| ==> HasKey(es, ms[k].key)) && Grown(es, now, i, e) && j < |ms| + 1
    ensures HasKey(now, (ms + [e])[j].key)
  {
    if j < |ms| {
      var a :| 0 <= a < |es| && es[a].key == ms[j].key;
      assert now[a].key == ms[j].key;
    } else {
      assert now[i].key == e.key;
    }
  }

  lemma GrownLast(ms: seq<Entry>, es: seq<Entry>, now: seq<Entry>, i: nat, e: Entry, a: nat)
    requires Distinct(es) && (forall a :: 0 <= a < |es| ==> HasLast(ms, es[a])) && Grown(es, now, i, e)
    requires a < |now|
    ensures HasLast(ms + [e], now[a])
  {
    if a == i {
      assert LastOf(ms + [e], |ms|, now[a]);
    } else {
      assert HasLast(ms, es[a]);
      var j :| LastOf(ms, j, es[a]);
      assert es[a].key != e.key;
      assert LastOf(ms + [e], j, now[a]);
    }
  }

  lemma GrownOrder(ms: seq<Entry>, es: seq<Entry>, now: seq<Entry>, i: nat, e: Entry, a: nat, b: nat)
    requires Collapsed(ms, es) && Grown(es, now, i, e) && a < b < |now|
    ensures Before(ms + [e], now[a].key, now[b].key)
  {
    var more := ms + [e];
    if b < |es| {
      assert Before(ms, es[a].key, es[b].key);
      var f :| FirstAt(ms, f, es[a].key, es[b].key);
      assert FirstAt(more, f, now[a].key, now[b].key);
    } else {
      assert HasLast(ms, es[a]);
      var j :| LastOf(ms, j, es[a]);
      forall l | 0 <= l <= j ensures more[l].key != e.key {
        assert HasKey(es, ms[l].key);
      }
      assert FirstAt(more, j, now[a].key, now[b].key);
    }
  }

  lemma CollapsedMore(ms: seq<Entry>, es: seq<Entry>, e: Entry)
    requires Collapsed(ms, es)
    ensures Collapsed(ms + [e], SetEntry(es, e.key, e.value))
  {
    var i := SetEntryIs(es, e.key, e.value);
    var now := SetEntry(es, e.key, e.value);
    var more := ms + [e];
    assert Grown(es, now, i, e);
    hide Grown, HasKey, HasLast, Before, SetEntry;
    GrownDistinct(es, now, i, e);
    forall j | 0 <= j < |more| ensures HasKey(now, more[j].key) {
      GrownKeys(ms, es, now, i, e, j);
    }
    forall a | 0 <= a < |now| ensures HasLast(more, now[a]) {
      GrownLast(ms, es, now, i, e, a);
    }
    forall a, b | 0 <= a < b < |now| ensures Before(more, now[a].key, now[b].key) {
      GrownOrder(ms, es, now, i, e, a, b);
    }
  }

  /** The entries of a written object collapse in the order they come. */
  lemma {:induction false} KeysCollapse(ms: seq<Entry>)
    ensures Collapsed(ms, SetAll([], ms))
  {
    if ms != [] {
      var n := |ms| - 1;
      KeysCollapse(ms[..n]);
      CollapsedMore(ms[..n], SetAll([], ms[..n]), ms[n]);
      SetAllSnoc([], ms[..n], ms[n]);
      assert ms[..n] + [ms[n]] == ms;
    }
  }
}
