/** JSON text as the json module writes and reads it (RFC 8259 sections 5 to 7): printing a value in
    compact or pretty form, the recursive-descent parser, and the round trip. */
module Json {
  type byte = x: int | 0 <= x < 256
  type Bytes = seq<byte>

  /** Values as trees; a map is its entries in slot order. Float holds the text given to strtod. */
  datatype Tree =
    | Null
    | Bool(b: bool)
    | Int(n: int)
    | Float(text: Bytes)
    | Str(s: Bytes)
    | Arr(elems: seq<Tree>)
    | Obj(entries: seq<Entry>)
  datatype Entry = Entry(key: Bytes, value: Tree)

  datatype Layout = Layout(pretty: bool, width: nat)

  const INT64_MIN := -0x8000_0000_0000_0000
  const INT64_MAX := 0x7FFF_FFFF_FFFF_FFFF

  // ---------------------------------------------------------------- printing

  function Digits(n: nat): (r: Bytes)
    ensures r != []
  {
    if n < 10 then [48 + n] else Digits(n / 10) + [48 + n % 10]
  }

  function IntText(n: int): (r: Bytes)
    ensures r != []
  {
    if n < 0 then [45] + Digits(-n) else Digits(n)
  }

  function HexDigit(n: nat): byte
    requires n < 16
  {
    if n < 10 then 48 + n else 87 + n
  }

  function EscapeByte(c: byte): (r: Bytes)
    ensures r != []
  {
    if c == 34 then [92, 34]
    else if c == 92 then [92, 92]
    else if c == 8 then [92, 98]
    else if c == 12 then [92, 102]
    else if c == 10 then [92, 110]
    else if c == 13 then [92, 114]
    else if c == 9 then [92, 116]
    else if c < 32 then [92, 117, 48, 48, HexDigit(c / 16), HexDigit(c % 16)]
    else [c]
  }

  function EscapeAll(s: Bytes): Bytes {
    if s == [] then [] else EscapeByte(s[0]) + EscapeAll(s[1..])
  }

  function StringText(s: Bytes): (r: Bytes)
    ensures r != []
  {
    [34] + EscapeAll(s) + [34]
  }

  function Spaces(n: nat): (r: Bytes)
    ensures |r| == n && forall i :: 0 <= i < n ==> r[i] == 32
  {
    seq(n, _ => 32)
  }

  function Indent(l: Layout, depth: nat): Bytes {
    if l.pretty then Spaces(depth * l.width) else []
  }

  function Newline(l: Layout): Bytes {
    if l.pretty then [10] else []
  }

  function Print(v: Tree, l: Layout, depth: nat): (r: Bytes)
    decreases v, 1
  {
    match v
    case Null => [110, 117, 108, 108]
    case Bool(b) => if b then [116, 114, 117, 101] else [102, 97, 108, 115, 101]
    case Int(n) => IntText(n)
    case Float(text) => text
    case Str(s) => StringText(s)
    case Arr(elems) => if elems == [] then [91, 93]
        else [91] + Newline(l) + PrintElems(elems, l, depth) + Indent(l, depth) + [93]
    case Obj(entries) => if entries == [] then [123, 125]
        else [123] + Newline(l) + PrintEntries(entries, l, depth) + Newline(l) + Indent(l, depth) + [125]
  }

  /** The elements of an array, each on its own line when pretty. */
  function PrintElems(elems: seq<Tree>, l: Layout, depth: nat): Bytes
    decreases elems, 0
  {
    if elems == [] then []
    else Indent(l, depth + 1) + Print(elems[0], l, depth + 1) + (if |elems| > 1 then [44]
        else []) + Newline(l) + PrintElems(elems[1..], l, depth)
  }

  function PrintEntry(e: Entry, l: Layout, depth: nat): Bytes
    decreases e, 0
  {
    Indent(l, depth + 1) + StringText(e.key) + [58] + (if l.pretty then [32] else []) + Print(e.value, l, depth + 1)
  }

  /** The entries of a map, separated rather than terminated. */
  function PrintEntries(entries: seq<Entry>, l: Layout, depth: nat): Bytes
    requires entries != []
    decreases entries, 0
  {
    PrintEntry(entries[0], l, depth) + if |entries| == 1 then []
        else [44] + Newline(l) + PrintEntries(entries[1..], l, depth)
  }

  // ---------------------------------------------------------------- parsing

  /** What a parsing step gives: a result and the position after it, or an error. */
  datatype Parsed<T> = Fail | Got(value: T, pos: nat)

  predicate IsSpace(c: byte) { c == 32 || c == 9 || c == 13 || c == 10 }

  predicate IsDigit(c: byte) { 48 <= c <= 57 }

  function Skip(s: Bytes, i: nat): (j: nat)
    requires i <= |s|
    ensures i <= j <= |s| && (j < |s| ==> !IsSpace(s[j]))
    decreases |s| - i
  {
    if i < |s| && IsSpace(s[i]) then Skip(s, i + 1) else i
  }

  function Nibble(c: byte): int {
    if IsDigit(c) then c - 48 else if 97 <= c <= 102 then c - 87 else if 65 <= c <= 70 then c - 55 else -1
  }

  function Hex4(s: Bytes, i: nat): (r: Parsed<nat>)
    requires i <= |s|
    ensures r.Got? ==> r.pos == i + 4 <= |s| && r.value < 0x10000
  {
    if i + 4 > |s| then Fail
    else
      var a, b, c, d := Nibble(s[i]), Nibble(s[i + 1]), Nibble(s[i + 2]), Nibble(s[i + 3]);
      if a < 0 || b < 0 || c < 0 || d < 0 then Fail else Got(((a * 16 + b) * 16 + c) * 16 + d, i + 4)
  }

  function Utf8(cp: nat): Bytes
    requires cp < 0x110000
  {
    if cp < 0x80 then [cp]
    else if cp < 0x800 then [0xC0 + cp / 64, 0x80 + cp % 64]
    else if cp < 0x10000 then [0xE0 + cp / 4096, 0x80 + cp / 64 % 64, 0x80 + cp % 64]
    else [0xF0 + cp / 262144, 0x80 + cp / 4096 % 64, 0x80 + cp / 64 % 64, 0x80 + cp % 64]
  }

  /** The code point of the escape whose four digits start at i, with its low surrogate if it needs one. */
  function CodePoint(s: Bytes, i: nat): (r: Parsed<nat>)
    requires i <= |s|
    ensures r.Got? ==> i < r.pos <= |s| && r.value < 0x110000
  {
    var hi := Hex4(s, i);
    if hi.Fail? then Fail
    else if 0xD800 <= hi.value <= 0xDBFF then
      if hi.pos + 2 > |s| || s[hi.pos] != 92 || s[hi.pos + 1] != 117 then Fail
      else
        var lo := Hex4(s, hi.pos + 2);
        if lo.Fail? || lo.value < 0xDC00 || lo.value > 0xDFFF then Fail
        else Got(0x10000 + (hi.value - 0xD800) * 0x400 + (lo.value - 0xDC00), lo.pos)
    else if 0xDC00 <= hi.value <= 0xDFFF then Fail
    else hi
  }

  function Unescape(c: byte): (r: int)
    ensures r < 256
  {
    if c == 34 || c == 92 || c == 47 then c
    else if c == 98 then 8
    else if c == 102 then 12
    else if c == 110 then 10
    else if c == 114 then 13
    else if c == 116 then 9
    else -1
  }

  /** The characters of a string up to its closing quote. */
  function Chars(s: Bytes, i: nat, acc: Bytes): (r: Parsed<Bytes>)
    requires i <= |s|
    ensures r.Got? ==> i < r.pos <= |s|
    decreases |s| - i
  {
    if i >= |s| then Fail
    else if s[i] == 34 then Got(acc, i + 1)
    else if s[i] == 92 then
      if i + 1 >= |s| then Fail
      else if s[i + 1] == 117 then
        var cp := CodePoint(s, i + 2);
        if cp.Fail? then Fail else Chars(s, cp.pos, acc + Utf8(cp.value))
      else if Unescape(s[i + 1]) < 0 then Fail
      else Chars(s, i + 2, acc + [Unescape(s[i + 1])])
    else if s[i] < 32 then Fail
    else Chars(s, i + 1, acc + [s[i]])
  }

  function ParseString(s: Bytes, i: nat): (r: Parsed<Bytes>)
    requires i <= |s|
    ensures r.Got? ==> i < r.pos <= |s|
  {
    if i < |s| && s[i] == 34 then Chars(s, i + 1, []) else Fail
  }

  function SkipDigits(s: Bytes, i: nat): (j: nat)
    requires i <= |s|
    ensures i <= j <= |s| && (j < |s| ==> !IsDigit(s[j]))
    decreases |s| - i
  {
    if i < |s| && IsDigit(s[i]) then SkipDigits(s, i + 1) else i
  }

  /** Where the integer part that starts at i ends. */
  function IntPart(s: Bytes, i: nat): (r: Parsed<()>)
    requires i <= |s|
    ensures r.Got? ==> i < r.pos <= |s|
  {
    var j := if i < |s| && s[i] == 45 then i + 1 else i;
    if j >= |s| then Fail
    else if s[j] == 48 then (if j + 1 < |s| && IsDigit(s[j + 1]) then Fail else Got((), j + 1))
    else if !IsDigit(s[j]) then Fail
    else Got((), SkipDigits(s, j))
  }

  function FracPart(s: Bytes, i: nat): (r: Parsed<bool>)
    requires i <= |s|
    ensures r.Got? ==> i <= r.pos <= |s|
  {
    if i < |s| && s[i] == 46 then
      if i + 1 >= |s| || !IsDigit(s[i + 1]) then Fail else Got(true, SkipDigits(s, i + 1))
    else Got(false, i)
  }

  function ExpPart(s: Bytes, i: nat): (r: Parsed<bool>)
    requires i <= |s|
    ensures r.Got? ==> i <= r.pos <= |s|
  {
    if i < |s| && (s[i] == 101 || s[i] == 69) then
      var j := if i + 1 < |s| && (s[i + 1] == 43 || s[i + 1] == 45) then i + 2 else i + 1;
      if j >= |s| || !IsDigit(s[j]) then Fail else Got(true, SkipDigits(s, j))
    else Got(false, i)
  }

  function NatOf(ds: Bytes): int {
    if ds == [] then 0
    else
      var c: int := ds[|ds| - 1];
      NatOf(ds[..|ds| - 1]) * 10 + (c - 48)
  }

  function IntOf(text: Bytes): int {
    if text != [] && text[0] == 45 then -NatOf(text[1..]) else NatOf(text)
  }

  /** The number in a text: an integer when it has no fraction or exponent and fits 64 bits. Only 63
      characters of the text are looked at. */
  function NumberOf(text: Bytes, whole: bool): Tree {
    var t := if |text| >= 63 then text[..63] else text;
    if whole && INT64_MIN <= IntOf(t) <= INT64_MAX then Int(IntOf(t)) else Float(t)
  }

  function ParseNumber(s: Bytes, i: nat): (r: Parsed<Tree>)
    requires i <= |s|
    ensures r.Got? ==> i < r.pos <= |s|
  {
    var n := IntPart(s, i);
    if n.Fail? then Fail
    else
      var f := FracPart(s, n.pos);
      if f.Fail? then Fail
      else
        var e := ExpPart(s, f.pos);
        if e.Fail? then Fail else Got(NumberOf(s[i..e.pos], !f.value && !e.value), e.pos)
  }

  function Literal(s: Bytes, i: nat, lit: Bytes, v: Tree): (r: Parsed<Tree>)
    requires i <= |s| && lit != []
    ensures r.Got? ==> i < r.pos <= |s|
  {
    if i + |lit| > |s| || s[i..i + |lit|] != lit then Fail else Got(v, i + |lit|)
  }

  /** Setting a key: replace its value, or add it at the end. */
  function SetEntry(es: seq<Entry>, k: Bytes, v: Tree): seq<Entry> {
    if es == [] then [Entry(k, v)]
    else if es[0].key == k then [Entry(k, v)] + es[1..]
    else [es[0]] + SetEntry(es[1..], k, v)
  }

  function ParseValue(s: Bytes, i0: nat): (r: Parsed<Tree>)
    requires i0 <= |s|
    ensures r.Got? ==> i0 < r.pos <= |s|
    decreases |s| - i0, 0
  {
    var i := Skip(s, i0);
    if i >= |s| then Fail
    else if s[i] == 34 then
      var r := ParseString(s, i);
      if r.Fail? then Fail else Got(Str(r.value), r.pos)
    else if s[i] == 123 then
      var j := Skip(s, i + 1);
      if j < |s| && s[j] == 125 then Got(Obj([]), j + 1) else ParseEntries(s, j, [])
    else if s[i] == 91 then
      var j := Skip(s, i + 1);
      if j < |s| && s[j] == 93 then Got(Arr([]), j + 1) else ParseElems(s, j, [])
    else if s[i] == 116 then Literal(s, i, [116, 114, 117, 101], Bool(true))
    else if s[i] == 102 then Literal(s, i, [102, 97, 108, 115, 101], Bool(false))
    else if s[i] == 110 then Literal(s, i, [110, 117, 108, 108], Null)
    else if s[i] == 45 || IsDigit(s[i]) then ParseNumber(s, i)
    else Fail
  }

  function ParseElems(s: Bytes, i: nat, acc: seq<Tree>): (r: Parsed<Tree>)
    requires i <= |s|
    ensures r.Got? ==> i < r.pos <= |s|
    decreases |s| - i, 1
  {
    var e := ParseValue(s, i);
    if e.Fail? then Fail
    else
      var j := Skip(s, e.pos);
      if j < |s| && s[j] == 93 then Got(Arr(acc + [e.value]), j + 1)
      else if j < |s| && s[j] == 44 then ParseElems(s, Skip(s, j + 1), acc + [e.value])
      else Fail
  }

  function ParseEntries(s: Bytes, i: nat, acc: seq<Entry>): (r: Parsed<Tree>)
    requires i <= |s|
    ensures r.Got? ==> i < r.pos <= |s|
    decreases |s| - i, 1
  {
    var k := ParseString(s, i);
    if k.Fail? then Fail
    else
      var c := Skip(s, k.pos);
      if c >= |s| || s[c] != 58 then Fail
      else
        var e := ParseValue(s, c + 1);
        if e.Fail? then Fail
        else
          var j := Skip(s, e.pos);
          var all := SetEntry(acc, k.value, e.value);
          if j < |s| && s[j] == 125 then Got(Obj(all), j + 1)
          else if j < |s| && s[j] == 44 then ParseEntries(s, Skip(s, j + 1), all)
          else Fail
  }

  /** json.parse: one value and nothing but white space after it. */
  function Parse(s: Bytes): Parsed<Tree> {
    var r := ParseValue(s, 0);
    if r.Got? && Skip(s, r.pos) == |s| then r else Fail
  }

  // ---------------------------------------------------------------- the round trip

  predicate Distinct(es: seq<Entry>) {
    forall i, j :: 0 <= i < j < |es| ==> es[i].key != es[j].key
  }

  /** What the round trip is promised for: 64-bit integers, no floats, and maps, whose keys are distinct. */
  predicate Plain(v: Tree) {
    match v
    case Int(n) => INT64_MIN <= n <= INT64_MAX
    case Float(_) => false
    case Arr(elems) => forall i :: 0 <= i < |elems| ==> Plain(elems[i])
    case Obj(entries) => Distinct(entries) && forall i :: 0 <= i < |entries| ==> Plain(entries[i].value)
    case _ => true
  }

  /** The text t stands at position i. */
  predicate At(s: Bytes, i: nat, t: Bytes) {
    i + |t| <= |s| && s[i..i + |t|] == t
  }

  /** Nothing at i continues a number. */
  predicate Ends(s: Bytes, i: nat) {
    i < |s| ==> !IsDigit(s[i]) && s[i] != 46 && s[i] != 101 && s[i] != 69
  }

  lemma AtParts(s: Bytes, i: nat, a: Bytes, b: Bytes)
    requires At(s, i, a + b)
    ensures At(s, i, a) && At(s, i + |a|, b)
  {
    assert s[i..i + |a + b|][..|a|] == a;
    assert s[i..i + |a + b|][|a|..] == b;
  }

  lemma AtIndex(s: Bytes, i: nat, t: Bytes, k: nat)
    requires At(s, i, t) && k < |t|
    ensures i + k < |s| && s[i + k] == t[k]
  {
    assert s[i..i + |t|][k] == s[i + k];
  }

  lemma AtFirst(s: Bytes, i: nat, t: Bytes)
    requires At(s, i, t) && t != []
    ensures i < |s| && s[i] == t[0]
  {
    assert s[i..i + |t|][0] == s[i];
  }

  lemma {:induction false} DigitsBack(n: nat)
    ensures NatOf(Digits(n)) == n && (forall c :: c in Digits(n) ==> IsDigit(c)) && (n > 0 ==> Digits(n)[0] != 48)
    ensures Digits(n)[0] == 48 ==> |Digits(n)| == 1
  {
    if n >= 10 {
      DigitsBack(n / 10);
      var d := Digits(n);
      assert d[..|d| - 1] == Digits(n / 10);
      assert d[0] == Digits(n / 10)[0];
    }
  }

  lemma {:induction false} DigitsShort(n: nat, k: nat)
    requires k > 0 && n < Power(k)
    ensures |Digits(n)| <= k
  {
    if n >= 10 {
      DigitsShort(n / 10, k - 1);
    }
  }

  function Power(k: nat): nat { if k == 0 then 1 else 10 * Power(k - 1) }

  lemma {:induction false} SkipDigitsStops(s: Bytes, i: nat, j: nat)
    requires i <= j <= |s| && (forall k :: i <= k < j ==> IsDigit(s[k])) && (j < |s| ==> !IsDigit(s[j]))
    ensures SkipDigits(s, i) == j
    decreases j - i
  {
    if i < j { SkipDigitsStops(s, i + 1, j); }
  }

  lemma {:induction false} SkipStops(s: Bytes, i: nat, j: nat)
    requires i <= j <= |s| && (forall k :: i <= k < j ==> IsSpace(s[k])) && (j < |s| ==> !IsSpace(s[j]))
    ensures Skip(s, i) == j
    decreases j - i
  {
    if i < j { SkipStops(s, i + 1, j); }
  }

  lemma Power19()
    ensures Power(19) == 1_0000_0000_0000_0000_000
  {
    assert Power(3) == 1000;
    assert Power(5) == 1000_00;
    assert Power(7) == 1000_0000;
    assert Power(9) == 1000_0000_00;
    assert Power(11) == 1000_0000_0000;
    assert Power(13) == 1000_0000_0000_00;
    assert Power(15) == 1000_0000_0000_0000;
    assert Power(17) == 1000_0000_0000_0000_00;
  }

  /** A digit string without a leading zero, ended, is one integer part. */
  lemma IntPartBack(s: Bytes, i: nat, j: nat, d: Bytes)
    requires i <= j <= i + 1 && At(s, j, d) && d != [] && (forall c :: c in d ==> IsDigit(c)) &&
             (d[0] == 48 ==> |d| == 1)
    requires if j > i then i < |s| && s[i] == 45 else d[0] != 45
    requires Ends(s, j + |d|)
    ensures IntPart(s, i) == Got((), j + |d|)
  {
    var end := j + |d|;
    forall k | j <= k < end ensures IsDigit(s[k]) && s[k] == d[k - j] {
      assert s[j..end][k - j] == s[k];
      assert d[k - j] in d;
    }
    if s[j] != 48 { SkipDigitsStops(s, j, end); }
  }

  lemma IntTextValue(n: int)
    requires INT64_MIN <= n <= INT64_MAX
    ensures IntOf(IntText(n)) == n && |IntText(n)| <= 20
  {
    hide NatOf, Digits, Power;
    var m: nat := if n < 0 then -n else n;
    DigitsBack(m);
    assert Digits(m)[0] in Digits(m);
    Power19();
    DigitsShort(m, 19);
    if n < 0 { assert IntText(n)[1..] == Digits(m); }
  }

  /** An integer reads back. */
  lemma IntBack(s: Bytes, i: nat, n: int)
    requires INT64_MIN <= n <= INT64_MAX && At(s, i, IntText(n)) && Ends(s, i + |IntText(n)|)
    ensures ParseNumber(s, i) == Got(Int(n), i + |IntText(n)|)
  {
    hide IntPart, NatOf, Digits, IntOf;
    var t := IntText(n);
    IntTextPart(s, i, n);
    IntTextValue(n);
    assert FracPart(s, i + |t|) == Got(false, i + |t|) && ExpPart(s, i + |t|) == Got(false, i + |t|);
    assert s[i..i + |t|] == t;
  }

  lemma IntTextPart(s: Bytes, i: nat, n: int)
    requires At(s, i, IntText(n)) && Ends(s, i + |IntText(n)|)
    ensures IntPart(s, i) == Got((), i + |IntText(n)|)
  {
    hide IntPart, NatOf, Digits;
    var m: nat := if n < 0 then -n else n;
    var d := Digits(m);
    DigitsBack(m);
    assert d[0] in d;
    if n < 0 {
      AtParts(s, i, [45], d);
      AtFirst(s, i, [45]);
      IntPartBack(s, i, i + 1, d);
    } else {
      IntPartBack(s, i, i, d);
    }
  }

  lemma EscapeBack(s: Bytes, i: nat, c: byte, acc: Bytes)
    requires At(s, i, EscapeByte(c))
    ensures Chars(s, i, acc) == Chars(s, i + |EscapeByte(c)|, acc + [c])
  {
    var t := EscapeByte(c);
    AtIndex(s, i, t, 0);
    if t[0] == 92 {
      AtIndex(s, i, t, 1);
      if t[1] == 117 {
        AtIndex(s, i, t, 2);
        AtIndex(s, i, t, 3);
        AtIndex(s, i, t, 4);
        AtIndex(s, i, t, 5);
        assert Hex4(s, i + 2) == Got(c, i + 6);
        assert CodePoint(s, i + 2) == Got(c, i + 6);
      }
    }
  }

  lemma {:induction false} CharsBack(s: Bytes, i: nat, t: Bytes, acc: Bytes)
    requires At(s, i, EscapeAll(t) + [34])
    ensures Chars(s, i, acc) == Got(acc + t, i + |EscapeAll(t)| + 1)
    decreases |t|
  {
    if t == [] {
      AtFirst(s, i, [34]);
      assert acc + t == acc;
    } else {
      assert EscapeAll(t) + [34] == EscapeByte(t[0]) + (EscapeAll(t[1..]) + [34]);
      AtParts(s, i, EscapeByte(t[0]), EscapeAll(t[1..]) + [34]);
      EscapeBack(s, i, t[0], acc);
      CharsBack(s, i + |EscapeByte(t[0])|, t[1..], acc + [t[0]]);
      assert acc + [t[0]] + t[1..] == acc + t;
    }
  }

  /** Any byte string reads back from its escaped form. */
  lemma StringBack(s: Bytes, i: nat, t: Bytes)
    requires At(s, i, StringText(t))
    ensures ParseString(s, i) == Got(t, i + |StringText(t)|)
  {
    assert StringText(t) == [34] + (EscapeAll(t) + [34]);
    AtParts(s, i, [34], EscapeAll(t) + [34]);
    AtFirst(s, i, [34]);
    CharsBack(s, i + 1, t, []);
    assert [] + t == t;
  }

  // ---------------------------------------------------------------- white space around values

  predicate Blank(t: Bytes) {
    forall c :: c in t ==> IsSpace(c)
  }

  lemma SkipBlank(s: Bytes, i: nat, w: Bytes)
    requires At(s, i, w) && Blank(w) && (i + |w| < |s| ==> !IsSpace(s[i + |w|]))
    ensures Skip(s, i) == i + |w|
  {
    forall k | i <= k < i + |w| ensures IsSpace(s[k]) {
      assert s[i..i + |w|][k - i] == s[k];
      assert w[k - i] in w;
    }
    SkipStops(s, i, i + |w|);
  }

  lemma SkipTwice(s: Bytes, i: nat)
    requires i <= |s|
    ensures Skip(s, Skip(s, i)) == Skip(s, i)
  {
  }

  /** Leading white space does not matter to a value. */
  lemma LeadingSpace(s: Bytes, i: nat)
    requires i <= |s|
    ensures ParseValue(s, i) == ParseValue(s, Skip(s, i))
  {
    SkipTwice(s, i);
  }

  /** A printed value starts with a character that is neither space nor a closing bracket. */
  lemma PrintStarts(v: Tree, l: Layout, depth: nat)
    requires Plain(v)
    ensures Print(v, l, depth) != [] && !IsSpace(Print(v, l, depth)[0]) && Print(v, l, depth)[0] != 93
  {
    if v.Int? {
      var m: nat := if v.n < 0 then -v.n else v.n;
      DigitsBack(m);
      assert Digits(m)[0] in Digits(m);
    }
  }

  lemma IndentBlank(l: Layout, depth: nat)
    ensures Blank(Indent(l, depth)) && Blank(Newline(l)) && Blank(Newline(l) + Indent(l, depth))
  {
  }

  // ---------------------------------------------------------------- values read back

  lemma LiteralBack(s: Bytes, i: nat, v: Tree, l: Layout, depth: nat)
    requires (v.Null? || v.Bool?) && At(s, i, Print(v, l, depth))
    ensures ParseValue(s, i) == Got(v, i + |Print(v, l, depth)|)
  {
    AtFirst(s, i, Print(v, l, depth));
    SkipStops(s, i, i);
  }

  lemma EmptyBack(s: Bytes, i: nat, v: Tree, l: Layout, depth: nat)
    requires (v == Arr([]) || v == Obj([])) && At(s, i, Print(v, l, depth))
    ensures ParseValue(s, i) == Got(v, i + 2)
  {
    assert s[i] == s[i..i + 2][0] && s[i + 1] == s[i..i + 2][1];
    SkipStops(s, i, i);
    SkipStops(s, i + 1, i + 1);
  }

  lemma ScalarBack(s: Bytes, i: nat, v: Tree, l: Layout, depth: nat)
    requires (v.Int? || v.Str?) && Plain(v) && At(s, i, Print(v, l, depth)) && Ends(s, i + |Print(v, l, depth)|)
    ensures ParseValue(s, i) == Got(v, i + |Print(v, l, depth)|)
  {
    hide IntText, ParseNumber, ParseString, Skip, Digits;
    AtFirst(s, i, Print(v, l, depth));
    if v.Int? {
      IntBack(s, i, v.n);
      IntStarts(v.n);
    } else {
      StringBack(s, i, v.s);
    }
    SkipStops(s, i, i);
  }

  /** A printed value, followed by something that ends it, reads back. */
  lemma {:induction false} ValueBack(s: Bytes, i: nat, v: Tree, l: Layout, depth: nat)
    requires Plain(v) && At(s, i, Print(v, l, depth)) && Ends(s, i + |Print(v, l, depth)|)
    ensures ParseValue(s, i) == Got(v, i + |Print(v, l, depth)|)
    decreases v, 1
  {
    hide Plain, ParseValue, Ends, PrintElems, PrintEntries, Indent, Newline, StringText, IntText, At;
    match v
    case Null => LiteralBack(s, i, v, l, depth);
    case Bool(b) => LiteralBack(s, i, v, l, depth);
    case Int(n) => ScalarBack(s, i, v, l, depth);
    case Str(x) => ScalarBack(s, i, v, l, depth);
    case Arr(elems) => if elems == [] { EmptyBack(s, i, v, l, depth); } else { ArrayBack(s, i, elems, l, depth); }
    case Obj(entries) => if entries == [] { EmptyBack(s, i, v, l, depth); }
        else { ObjectBack(s, i, entries, l, depth); }
    case Float(_) => FloatNotPlain(v);
  }

  lemma FloatNotPlain(v: Tree)
    ensures v.Float? ==> !Plain(v)
  {
  }

  lemma IntStarts(n: int)
    ensures IntText(n)[0] == 45 || IsDigit(IntText(n)[0])
  {
    var m: nat := if n < 0 then -n else n;
    DigitsBack(m);
    assert Digits(m)[0] in Digits(m);
  }

  lemma ArrayText(elems: seq<Tree>, l: Layout, depth: nat)
    requires elems != []
    ensures Print(Arr(elems), l, depth) == [91] +
            (Newline(l) + (PrintElems(elems, l, depth) + (Indent(l, depth) + [93])))
  {
    hide Newline, PrintElems, Indent;
  }

  lemma ArrayOpens(s: Bytes, i: nat)
    requires i < |s| && s[i] == 91 && Skip(s, i + 1) < |s| && s[Skip(s, i + 1)] != 93
    ensures ParseValue(s, i) == ParseElems(s, Skip(s, i + 1), [])
  {
    SkipStops(s, i, i);
    hide Skip, ParseElems;
  }

  lemma {:induction false} ArrayBack(s: Bytes, i: nat, elems: seq<Tree>, l: Layout, depth: nat)
    requires elems != [] && Plain(Arr(elems)) && At(s, i, Print(Arr(elems), l, depth))
    ensures ParseValue(s, i) == Got(Arr(elems), i + |Print(Arr(elems), l, depth)|)
    decreases elems, 2
  {
    hide Skip, ParseValue, ParseElems, Print, PrintElems, Newline, Indent, Plain, At, Blank;
    var rest := PrintElems(elems, l, depth) + (Indent(l, depth) + [93]);
    ArrayText(elems, l, depth);
    AtParts(s, i, [91], Newline(l) + rest);
    AtFirst(s, i, [91]);
    AtParts(s, i + 1, Newline(l), rest);
    IndentBlank(l, depth);
    ElemsBack(s, i + 1, Newline(l), elems, l, depth, []);
    ArrayOpens(s, i);
    assert [] + elems == elems;
  }

  /** What follows a value inside a container ends it. */
  lemma FollowEnds(s: Bytes, i: nat, l: Layout, depth: nat, close: byte)
    requires At(s, i, Newline(l) + (Indent(l, depth) + [close])) && (close == 93 || close == 125)
    ensures Ends(s, i) && Skip(s, i) == i + |Newline(l)| + |Indent(l, depth)|
    ensures Skip(s, i) < |s| && s[Skip(s, i)] == close
  {
    var w := Newline(l) + Indent(l, depth);
    assert Newline(l) + (Indent(l, depth) + [close]) == w + [close];
    AtParts(s, i, w, [close]);
    AtFirst(s, i + |w|, [close]);
    IndentBlank(l, depth);
    SkipBlank(s, i, w);
    if w != [] {
      AtFirst(s, i, w);
      assert w[0] in w;
    }
  }

  /** Where the value after white space w and an indent starts. */
  lemma ValueStart(s: Bytes, i: nat, w: Bytes, l: Layout, depth: nat, t: Bytes)
    requires Blank(w) && At(s, i, w) && At(s, i + |w|, Indent(l, depth) + t) && t != [] && !IsSpace(t[0])
    ensures Skip(s, i) == i + |w| + |Indent(l, depth)| && At(s, Skip(s, i), t) && Skip(s, i) < |s| &&
            s[Skip(s, i)] == t[0]
  {
    var ind := Indent(l, depth);
    AtParts(s, i + |w|, ind, t);
    AtFirst(s, i + |w| + |ind|, t);
    IndentBlank(l, depth);
    assert s[i..i + |w + ind|] == s[i..i + |w|] + s[i + |w|..i + |w| + |ind|];
    SkipBlank(s, i, w + ind);
  }

  lemma ElemStep(s: Bytes, a: nat, v: Tree, acc: seq<Tree>, end: nat)
    requires a <= |s| && end <= |s| && ParseValue(s, a) == Got(v, end)
    ensures Skip(s, end) < |s| && s[Skip(s, end)] == 93 ==>
              ParseElems(s, a, acc) == Got(Arr(acc + [v]), Skip(s, end) + 1)
    ensures Skip(s, end) < |s| && s[Skip(s, end)] == 44 ==>
              ParseElems(s, a, acc) == ParseElems(s, Skip(s, Skip(s, end) + 1), acc + [v])
  {
    hide Skip, ParseValue;
  }

  /** One element with a comma after it. */
  lemma {:induction false} ElemThenComma(s: Bytes, i: nat, w: Bytes, v: Tree, l: Layout, depth: nat, acc: seq<Tree>,
        more: Bytes)
    requires Plain(v) && Blank(w) && At(s, i, w)
    requires At(s, i + |w|, Indent(l, depth) + (Print(v, l, depth) + ([44] + (Newline(l) + more))))
    ensures (
            var a := Skip(s, i);
            var c := a + |Print(v, l, depth)|;
            a == i + |w| + |Indent(l, depth)| && a < |s| && s[a] != 93 && At(s, c + 1, Newline(l)) &&
            At(s, c + 1 + |Newline(l)|, more) &&
            ParseElems(s, a, acc) == ParseElems(s, Skip(s, c + 1), acc + [v]))
    decreases v, 2
  {
    hide Skip, ParseElems, ParseValue, Indent, Newline, Print, At, Ends, Blank, Plain;
    var p := Print(v, l, depth);
    var tail := Newline(l) + more;
    PrintStarts(v, l, depth);
    ValueStart(s, i, w, l, depth, p + ([44] + tail));
    var a := Skip(s, i);
    AtParts(s, a, p, [44] + tail);
    AtParts(s, a + |p|, [44], tail);
    CommaEnds(s, a + |p|);
    ValueBack(s, a, v, l, depth);
    ElemStep(s, a, v, acc, a + |p|);
    AtParts(s, a + |p| + 1, Newline(l), more);
  }

  /** The last element. */
  lemma {:induction false} ElemThenClose(s: Bytes, i: nat, w: Bytes, v: Tree, l: Layout, depth: nat, acc: seq<Tree>)
    requires Plain(v) && Blank(w) && At(s, i, w)
    requires At(s, i + |w|, Indent(l, depth + 1) + (Print(v, l, depth + 1) + (Newline(l) + (Indent(l, depth) + [93]))))
    ensures (
            var a := Skip(s, i);
            a == i + |w| + |Indent(l, depth + 1)| && a < |s| && s[a] != 93 &&
            ParseElems(s, a, acc) == Got(Arr(acc + [v]),
                a + |Print(v, l, depth + 1)| + |Newline(l)| + |Indent(l, depth)| + 1))
    decreases v, 2
  {
    hide Skip, ParseElems, ParseValue, Indent, Newline, Print, At, Ends, Blank, Plain;
    var p := Print(v, l, depth + 1);
    var tail := Newline(l) + (Indent(l, depth) + [93]);
    PrintStarts(v, l, depth + 1);
    ValueStart(s, i, w, l, depth + 1, p + tail);
    var a := Skip(s, i);
    AtParts(s, a, p, tail);
    FollowEnds(s, a + |p|, l, depth, 93);
    ValueBack(s, a, v, l, depth + 1);
    ElemStep(s, a, v, acc, a + |p|);
  }

  lemma ElemsText(elems: seq<Tree>, l: Layout, depth: nat, close: Bytes)
    requires elems != []
    ensures |elems| == 1 ==>
              PrintElems(elems, l, depth) + close == Indent(l, depth + 1) +
              (Print(elems[0], l, depth + 1) + (Newline(l) + close))
    ensures |elems| > 1 ==> PrintElems(elems, l, depth) + close ==
                            Indent(l, depth + 1) + (Print(elems[0], l, depth + 1) +
                                ([44] + (Newline(l) + (PrintElems(elems[1..], l, depth) + close))))
    ensures |PrintElems(elems, l, depth)| == |Indent(l, depth + 1)| + |Print(elems[0], l, depth + 1)| + |Newline(l)| +
      (if |elems| == 1 then 0 else 1 + |PrintElems(elems[1..], l, depth)|)
  {
    hide Indent, Print, Newline;
  }

  /** The rest of an array, after white space w, reads back onto acc. */
  lemma {:induction false} ElemsBack(s: Bytes, i: nat, w: Bytes, elems: seq<Tree>, l: Layout, depth: nat,
        acc: seq<Tree>)
    requires elems != [] && Plain(Arr(elems)) && Blank(w)
    requires At(s, i, w) && At(s, i + |w|, PrintElems(elems, l, depth) + (Indent(l, depth) + [93]))
    ensures Skip(s, i) < |s| && s[Skip(s, i)] != 93
    ensures ParseElems(s, Skip(s, i), acc) ==
            Got(Arr(acc + elems), i + |w| + |PrintElems(elems, l, depth)| + |Indent(l, depth)| + 1)
    decreases elems, 1
  {
    hide Skip, ParseElems, Indent, Newline, Print, PrintElems, At, Ends, Blank;
    var close := Indent(l, depth) + [93];
    ElemsText(elems, l, depth, close);
    if |elems| == 1 {
      ElemThenClose(s, i, w, elems[0], l, depth, acc);
      assert acc + [elems[0]] == acc + elems;
    } else {
      var more := PrintElems(elems[1..], l, depth) + close;
      ElemThenComma(s, i, w, elems[0], l, depth + 1, acc, more);
      IndentBlank(l, depth);
      ElemsBack(s, i + |w| + |Indent(l, depth + 1)| + |Print(elems[0], l, depth + 1)| + 1, Newline(l), elems[1..], l,
          depth, acc + [elems[0]]);
      assert acc + [elems[0]] + elems[1..] == acc + elems;
    }
  }

  lemma CommaEnds(s: Bytes, i: nat)
    requires At(s, i, [44])
    ensures Ends(s, i) && Skip(s, i) == i < |s| && s[i] == 44
  {
    AtFirst(s, i, [44]);
    SkipStops(s, i, i);
  }

  lemma ObjectText(entries: seq<Entry>, l: Layout, depth: nat)
    requires entries != []
    ensures Print(Obj(entries), l, depth) == [123] +
            (Newline(l) + (PrintEntries(entries, l, depth) + (Newline(l) + (Indent(l, depth) + [125]))))
  {
    hide Newline, PrintEntries, Indent;
  }

  lemma ObjectOpens(s: Bytes, i: nat)
    requires i < |s| && s[i] == 123 && Skip(s, i + 1) < |s| && s[Skip(s, i + 1)] != 125
    ensures ParseValue(s, i) == ParseEntries(s, Skip(s, i + 1), [])
  {
    SkipStops(s, i, i);
    hide Skip, ParseEntries;
  }

  lemma {:induction false} ObjectBack(s: Bytes, i: nat, entries: seq<Entry>, l: Layout, depth: nat)
    requires entries != [] && Plain(Obj(entries)) && At(s, i, Print(Obj(entries), l, depth))
    ensures ParseValue(s, i) == Got(Obj(entries), i + |Print(Obj(entries), l, depth)|)
    decreases entries, 2
  {
    hide Skip, ParseValue, ParseEntries, Print, PrintEntries, Newline, Indent, At, Blank, Distinct;
    var rest := PrintEntries(entries, l, depth) + (Newline(l) + (Indent(l, depth) + [125]));
    ObjectText(entries, l, depth);
    AtParts(s, i, [123], Newline(l) + rest);
    AtFirst(s, i, [123]);
    AtParts(s, i + 1, Newline(l), rest);
    IndentBlank(l, depth);
    assert [] + entries == entries;
    EntriesBack(s, i + 1, Newline(l), entries, l, depth, []);
    ObjectOpens(s, i);
  }

  lemma {:induction false} SetAppends(es: seq<Entry>, k: Bytes, v: Tree)
    requires forall i :: 0 <= i < |es| ==> es[i].key != k
    ensures SetEntry(es, k, v) == es + [Entry(k, v)]
  {
    if es != [] { SetAppends(es[1..], k, v); }
  }

  lemma KeyBack(s: Bytes, a: nat, k: Bytes, rest: Bytes)
    requires At(s, a, StringText(k) + ([58] + rest))
    ensures ParseString(s, a) == Got(k, a + |StringText(k)|)
    ensures Skip(s, a + |StringText(k)|) == a + |StringText(k)| < |s| && s[a + |StringText(k)|] == 58
    ensures At(s, a + |StringText(k)| + 1, rest)
  {
    hide ParseString, StringText, Skip, At;
    AtParts(s, a, StringText(k), [58] + rest);
    StringBack(s, a, k);
    var c := a + |StringText(k)|;
    AtParts(s, c, [58], rest);
    AtFirst(s, c, [58]);
    SkipStops(s, c, c);
  }

  /** A value after the optional space that follows a colon. */
  lemma {:induction false} GapBack(s: Bytes, c: nat, v: Tree, l: Layout, depth: nat)
    requires Plain(v) && At(s, c, (if l.pretty then [32] else []) + Print(v, l, depth))
    requires Ends(s, c + (if l.pretty then 1 else 0) + |Print(v, l, depth)|)
    ensures c <= |s| && ParseValue(s, c) == Got(v, c + (if l.pretty then 1 else 0) + |Print(v, l, depth)|)
    decreases v, 2
  {
    hide ParseValue, Print, Ends, Plain, Skip, At;
    var gap: Bytes := if l.pretty then [32] else [];
    var p := Print(v, l, depth);
    AtParts(s, c, gap, p);
    PrintStarts(v, l, depth);
    AtFirst(s, c + |gap|, p);
    SkipBlank(s, c, gap);
    SkipStops(s, c + |gap|, c + |gap|);
    LeadingSpace(s, c);
    LeadingSpace(s, c + |gap|);
    ValueBack(s, c + |gap|, v, l, depth);
  }

  /** One key, colon and value. */
  lemma {:induction false} EntryBack(s: Bytes, a: nat, e: Entry, l: Layout, depth: nat)
    requires Plain(e.value) && At(s, a, EntryBody(e, l, depth)) && Ends(s, a + |EntryBody(e, l, depth)|)
    ensures ParseString(s, a) == Got(e.key, a + |StringText(e.key)|)
    ensures Skip(s, a + |StringText(e.key)|) == a + |StringText(e.key)| < |s| && s[a + |StringText(e.key)|] == 58
    ensures ParseValue(s, a + |StringText(e.key)| + 1) == Got(e.value, a + |EntryBody(e, l, depth)|)
    decreases e, 2
  {
    hide ParseValue, ParseString, Print, Ends, StringText, Plain, Skip, At;
    KeyBack(s, a, e.key, (if l.pretty then [32] else []) + Print(e.value, l, depth));
    BodyParts(e, l, depth);
    GapBack(s, a + |StringText(e.key)| + 1, e.value, l, depth);
  }

  lemma EntryLength(e: Entry, l: Layout, depth: nat)
    ensures PrintEntry(e, l, depth) == Indent(l, depth + 1) +
            (StringText(e.key) + ([58] + ((if l.pretty then [32] else []) + Print(e.value, l, depth + 1))))
    ensures |PrintEntry(e, l, depth)| == |Indent(l, depth + 1)| + |StringText(e.key)| + 1 +
            (if l.pretty then 1 else 0) + |Print(e.value, l, depth + 1)|
  {
  }

  /** Reading one entry either finishes the object or goes on after a comma. */
  lemma EntryStep(s: Bytes, a: nat, e: Entry, acc: seq<Entry>, c: nat, end: nat, all: seq<Entry>)
    requires a <= |s| && ParseString(s, a) == Got(e.key, c) && c < |s| && Skip(s, c) == c && s[c] == 58
    requires end <= |s| && ParseValue(s, c + 1) == Got(e.value, end) && SetEntry(acc, e.key, e.value) == all
    ensures Skip(s, end) < |s| && s[Skip(s, end)] == 125 ==> ParseEntries(s, a, acc) == Got(Obj(all), Skip(s, end) + 1)
    ensures Skip(s, end) < |s| && s[Skip(s, end)] == 44 ==>
              ParseEntries(s, a, acc) == ParseEntries(s, Skip(s, Skip(s, end) + 1), all)
  {
    hide Skip, ParseValue, ParseString, SetEntry;
  }

  function EntryBody(e: Entry, l: Layout, depth: nat): Bytes {
    StringText(e.key) + ([58] + ((if l.pretty then [32] else []) + Print(e.value, l, depth)))
  }

  lemma EntriesText(entries: seq<Entry>, l: Layout, depth: nat, close: Bytes)
    requires entries != []
    ensures |entries| == 1 ==>
              PrintEntries(entries, l, depth) + close == Indent(l, depth + 1) +
              (EntryBody(entries[0], l, depth + 1) + close)
    ensures |entries| > 1 ==> PrintEntries(entries, l, depth) + close ==
                              Indent(l, depth + 1) + (EntryBody(entries[0], l, depth + 1) +
                                  ([44] + (Newline(l) + (PrintEntries(entries[1..], l, depth) + close))))
    ensures |PrintEntries(entries, l, depth)| == |Indent(l, depth + 1)| + |EntryBody(entries[0], l, depth + 1)| +
      (if |entries| == 1 then 0 else 1 + |Newline(l)| + |PrintEntries(entries[1..], l, depth)|)
  {
    hide Newline, Indent, Print, StringText, PrintEntry;
    EntryLength(entries[0], l, depth);
  }

  lemma BodyParts(e: Entry, l: Layout, depth: nat)
    ensures EntryBody(e, l, depth) != [] && EntryBody(e, l, depth)[0] == 34
    ensures |EntryBody(e, l, depth)| == |StringText(e.key)| + 1 + (if l.pretty then 1 else 0) +
            |Print(e.value, l, depth)|
  {
    hide Print;
  }

  lemma {:induction false} EntryThenComma(s: Bytes, i: nat, w: Bytes, e: Entry, l: Layout, depth: nat, acc: seq<Entry>,
        more: Bytes)
    requires Plain(e.value) && Blank(w) && At(s, i, w) && SetEntry(acc, e.key, e.value) == acc + [e]
    requires At(s, i + |w|, Indent(l, depth) + (EntryBody(e, l, depth) + ([44] + (Newline(l) + more))))
    ensures (
            var a := Skip(s, i);
            var c := a + |EntryBody(e, l, depth)|;
            a == i + |w| + |Indent(l, depth)| && a < |s| && s[a] != 125 && At(s, c + 1, Newline(l)) &&
            At(s, c + 1 + |Newline(l)|, more) &&
            ParseEntries(s, a, acc) == ParseEntries(s, Skip(s, c + 1), acc + [e]))
    decreases e, 3
  {
    hide Skip, ParseValue, ParseString, ParseEntries, Indent, Newline, EntryBody, At, Ends, Blank, Plain, StringText,
        SetEntry;
    var body := EntryBody(e, l, depth);
    var tail := Newline(l) + more;
    BodyParts(e, l, depth);
    SpaceNot(34);
    ValueStart(s, i, w, l, depth, body + ([44] + tail));
    var a := Skip(s, i);
    AtParts(s, a, body, [44] + tail);
    AtParts(s, a + |body|, [44], tail);
    CommaEnds(s, a + |body|);
    EntryBack(s, a, e, l, depth);
    EntryStep(s, a, e, acc, a + |StringText(e.key)|, a + |body|, acc + [e]);
    AtParts(s, a + |body| + 1, Newline(l), more);
  }

  lemma {:induction false} EntryThenClose(s: Bytes, i: nat, w: Bytes, e: Entry, l: Layout, depth: nat, acc: seq<Entry>)
    requires Plain(e.value) && Blank(w) && At(s, i, w) && SetEntry(acc, e.key, e.value) == acc + [e]
    requires At(s, i + |w|, Indent(l, depth + 1) +
             (EntryBody(e, l, depth + 1) + (Newline(l) + (Indent(l, depth) + [125]))))
    ensures (
            var a := Skip(s, i);
            a == i + |w| + |Indent(l, depth + 1)| && a < |s| && s[a] != 125 &&
            ParseEntries(s, a, acc) == Got(Obj(acc + [e]),
                a + |EntryBody(e, l, depth + 1)| + |Newline(l)| + |Indent(l, depth)| + 1))
    decreases e, 3
  {
    hide Skip, ParseValue, ParseString, ParseEntries, Indent, Newline, EntryBody, At, Ends, Blank, Plain, StringText,
        SetEntry;
    var body := EntryBody(e, l, depth + 1);
    var tail := Newline(l) + (Indent(l, depth) + [125]);
    BodyParts(e, l, depth + 1);
    SpaceNot(34);
    ValueStart(s, i, w, l, depth + 1, body + tail);
    var a := Skip(s, i);
    AtParts(s, a, body, tail);
    FollowEnds(s, a + |body|, l, depth, 125);
    EntryBack(s, a, e, l, depth + 1);
    EntryStep(s, a, e, acc, a + |StringText(e.key)|, a + |body|, acc + [e]);
  }

  lemma SpaceNot(c: byte)
    ensures c == 34 ==> !IsSpace(c)
  {
  }

  /** The rest of an object, after white space w, reads back onto acc. */
  lemma {:induction false} EntriesBack(s: Bytes, i: nat, w: Bytes, entries: seq<Entry>, l: Layout, depth: nat,
        acc: seq<Entry>)
    requires entries != [] && (forall k :: 0 <= k < |entries| ==> Plain(entries[k].value)) && Distinct(acc + entries) &&
             Blank(w)
    requires At(s, i, w) && At(s, i + |w|, PrintEntries(entries, l, depth) + (Newline(l) + (Indent(l, depth) + [125])))
    ensures Skip(s, i) < |s| && s[Skip(s, i)] != 125
    ensures ParseEntries(s, Skip(s, i), acc) ==
      Got(Obj(acc + entries), i + |w| + |PrintEntries(entries, l, depth)| + |Newline(l)| + |Indent(l, depth)| + 1)
    decreases entries, 1
  {
    hide Skip, ParseEntries, Indent, Newline, PrintEntries, EntryBody, At, Blank, Plain, SetEntry, Distinct;
    var e := entries[0];
    var close := Newline(l) + (Indent(l, depth) + [125]);
    EntriesText(entries, l, depth, close);
    AppendNew(acc, entries);
    if |entries| == 1 {
      EntryThenClose(s, i, w, e, l, depth, acc);
      assert acc + [e] == acc + entries;
    } else {
      EntryThenComma(s, i, w, e, l, depth + 1, acc, PrintEntries(entries[1..], l, depth) + close);
      IndentBlank(l, depth);
      assert acc + [e] + entries[1..] == acc + entries;
      EntriesBack(s, i + |w| + |Indent(l, depth + 1)| + |EntryBody(e, l, depth + 1)| + 1, Newline(l), entries[1..], l,
          depth, acc + [e]);
    }
  }

  lemma AppendNew(acc: seq<Entry>, entries: seq<Entry>)
    requires entries != [] && Distinct(acc + entries)
    ensures SetEntry(acc, entries[0].key, entries[0].value) == acc + [entries[0]]
  {
    forall i | 0 <= i < |acc| ensures acc[i].key != entries[0].key {
      assert (acc + entries)[i].key != (acc + entries)[|acc|].key;
    }
    SetAppends(acc, entries[0].key, entries[0].value);
  }

  /** Parsing what stringify printed gives the value back, in compact form and with every indent width. */
  lemma RoundTrip(v: Tree, l: Layout)
    requires Plain(v)
    ensures Parse(Print(v, l, 0)) == Got(v, |Print(v, l, 0)|)
  {
    var s := Print(v, l, 0);
    assert s[0..0 + |s|] == s;
    ValueBack(s, 0, v, l, 0);
  }
}
