/** How printed JSON is laid out, as a machine that reads the text one character at a time and stops where
    the layout is not as it should be. Every printed value takes it to the end. */
module JsonLayout {
  import opened Json

  /** Where the reading is. After a line break the spaces are counted: before an element, or before the
      bracket that closes the container. */
  datatype Mode = Start | Opened | Comma | Colon | Before(n: nat) | Closing(n: nat) | Done | Quoted | Escaped

  /** The number of open brackets, and the mode. */
  datatype Place = Place(depth: nat, mode: Mode)

  predicate Opens(c: byte) { c == 0x5B || c == 0x7B }

  predicate Closes(c: byte) { c == 0x5D || c == 0x7D }

  predicate Special(c: byte) {
    c == 0x20 || c == 0x09 || c == 0x0A || c == 0x0D || c == 0x2C || c == 0x3A || Closes(c)
  }

  /** The first character of a value or a key. */
  function Begin(depth: nat, c: byte): Option<Place> {
    if c == 0x22 then Some(Place(depth, Quoted))
    else if Opens(c) then Some(Place(depth + 1, Opened))
    else if Special(c) then None
    else Some(Place(depth, Done))
  }

  datatype Option<T> = None | Some(value: T)

  function Leave(depth: nat): Option<Place> {
    if depth == 0 then None else Some(Place(depth - 1, Done))
  }

  /** One character. Pretty text breaks the line after an opening bracket, after a comma and before a closing
      bracket, indents by the width for each open bracket and puts a space behind a colon; compact text does
      nothing of the kind. Empty brackets stand together in both. */
  function Next(l: Layout, p: Place, c: byte): Option<Place> {
    match p.mode
    case Quoted => Some(p.(mode := if c == 0x22 then Done else if c == 0x5C then Escaped else Quoted))
    case Escaped => Some(p.(mode := Quoted))
    case Start => Begin(p.depth, c)
    case Opened =>
      if Closes(c) then Leave(p.depth)
      else if !l.pretty then Begin(p.depth, c)
      else if c == 0x0A then Some(p.(mode := Before(0)))
      else None
    case Comma =>
      if !l.pretty then Begin(p.depth, c) else if c == 0x0A then Some(p.(mode := Before(0))) else None
    case Colon =>
      if !l.pretty then Begin(p.depth, c) else if c == 0x20 then Some(p.(mode := Start)) else None
    case Before(n) =>
      if c == 0x20 then Some(p.(mode := Before(n + 1))) else if n == p.depth * l.width then Begin(p.depth, c) else None
    case Closing(n) =>
      if c == 0x20 then Some(p.(mode := Closing(n + 1)))
      else if Closes(c) && p.depth > 0 && n == (p.depth - 1) * l.width then Leave(p.depth)
      else None
    case Done =>
      if c == 0x2C then Some(p.(mode := Comma))
      else if c == 0x3A then Some(p.(mode := Colon))
      else if Closes(c) then (if l.pretty then None else Leave(p.depth))
      else if c == 0x0A then (if l.pretty then Some(p.(mode := Closing(0))) else None)
      else if Special(c) then None
      else Some(p)
  }

  /** Reading a text from a place. */
  function Read(l: Layout, p: Place, t: Bytes): Option<Place>
    decreases |t|
  {
    if t == [] then Some(p)
    else match Next(l, p, t[0]) case None => None case Some(q) => Read(l, q, t[1..])
  }

  lemma {:induction false} ReadParts(l: Layout, p: Place, a: Bytes, b: Bytes)
    ensures Read(l, p, a + b) == match Read(l, p, a) case None => None case Some(q) => Read(l, q, b)
    decreases |a|
  {
    hide Next;
    if a == [] {
      assert a + b == b;
    } else {
      assert (a + b)[1..] == a[1..] + b;
      match Next(l, p, a[0])
      case None =>
      case Some(q) => ReadParts(l, q, a[1..], b);
    }
  }

  lemma ReadOne(l: Layout, p: Place, c: byte)
    ensures Read(l, p, [c]) == Next(l, p, c)
  {
    assert [c][1..] == [];
  }

  /** Values whose floats are texts without layout in them. */
  predicate Laid(v: Tree) {
    match v
    case Float(t) => Token(t)
    case Arr(elems) => forall i :: 0 <= i < |elems| ==> Laid(elems[i])
    case Obj(entries) => forall i :: 0 <= i < |entries| ==> Laid(entries[i].value)
    case _ => true
  }

  predicate Token(t: Bytes) {
    t != [] && forall k :: 0 <= k < |t| ==> !Special(t[k]) && !Opens(t[k]) && t[k] != 0x22
  }

  /** Places where a value may begin. */
  predicate Ready(l: Layout, p: Place) {
    p.mode.Start? || (p.mode.Before? && p.mode.n == p.depth * l.width) ||
    (!l.pretty && (p.mode.Opened? || p.mode.Comma? || p.mode.Colon?))
  }

  lemma Begins(l: Layout, p: Place, c: byte)
    requires Ready(l, p) && c != 0x20 && c != 0x0A && !Closes(c)
    ensures Next(l, p, c) == Begin(p.depth, c)
  {
  }

  lemma {:induction false} TokenGoes(l: Layout, p: Place, t: Bytes)
    requires p.mode.Done? && forall k :: 0 <= k < |t| ==> !Special(t[k]) && !Opens(t[k]) && t[k] != 0x22
    ensures Read(l, p, t) == Some(p)
    decreases |t|
  {
    if t != [] { TokenGoes(l, p, t[1..]); }
  }

  lemma TokenRead(l: Layout, p: Place, t: Bytes)
    requires Ready(l, p) && Token(t)
    ensures Read(l, p, t) == Some(Place(p.depth, Done))
  {
    Begins(l, p, t[0]);
    TokenGoes(l, Place(p.depth, Done), t[1..]);
  }

  lemma IntToken(n: int)
    ensures Token(IntText(n))
  {
    var m: nat := if n < 0 then -n else n;
    var d := Digits(m);
    DigitsBack(m);
    hide Digits;
    var t := IntText(n);
    forall k | 0 <= k < |t| ensures t[k] == 45 || IsDigit(t[k]) {
      if n < 0 { assert k > 0 ==> t[k] == d[k - 1] && d[k - 1] in d; } else { assert t[k] == d[k] && d[k] in d; }
    }
  }

  lemma WordTokens()
    ensures Token([110, 117, 108, 108]) && Token([116, 114, 117, 101]) && Token([102, 97, 108, 115, 101])
  {
  }

  lemma EscapeRead(l: Layout, d: nat, c: byte)
    ensures Read(l, Place(d, Quoted), EscapeByte(c)) == Some(Place(d, Quoted))
  {
    var p, t := Place(d, Quoted), EscapeByte(c);
    if t[0] == 92 {
      assert Next(l, p, t[0]) == Some(Place(d, Escaped)) && Next(l, Place(d, Escaped), t[1]) == Some(p);
      if |t| == 6 {
        forall k | 2 <= k < 6 ensures t[k] != 34 && t[k] != 92 {}
        QuotedGoes(l, p, t[2..]);
        ReadParts(l, p, t[..2], t[2..]);
        assert t[..2] + t[2..] == t;
        ReadTwo(l, p, t[0], t[1]);
        assert t[..2] == [t[0], t[1]];
      } else {
        ReadTwo(l, p, t[0], t[1]);
        assert t == [t[0], t[1]];
      }
    } else {
      ReadOne(l, p, t[0]);
      assert t == [t[0]];
    }
  }

  lemma ReadTwo(l: Layout, p: Place, c: byte, d: byte)
    ensures Read(l, p, [c, d]) == match Next(l, p, c) case None => None case Some(q) => Next(l, q, d)
  {
    hide Next;
    ReadOne(l, p, c);
    ReadParts(l, p, [c], [d]);
    assert [c] + [d] == [c, d];
    if Next(l, p, c).Some? { ReadOne(l, Next(l, p, c).value, d); }
  }

  lemma {:induction false} QuotedGoes(l: Layout, p: Place, t: Bytes)
    requires p.mode.Quoted? && forall k :: 0 <= k < |t| ==> t[k] != 34 && t[k] != 92
    ensures Read(l, p, t) == Some(p)
    decreases |t|
  {
    if t != [] { QuotedGoes(l, p, t[1..]); }
  }

  lemma {:induction false} EscapesRead(l: Layout, d: nat, s: Bytes)
    ensures Read(l, Place(d, Quoted), EscapeAll(s)) == Some(Place(d, Quoted))
  {
    if s != [] {
      EscapeRead(l, d, s[0]);
      EscapesRead(l, d, s[1..]);
      ReadParts(l, Place(d, Quoted), EscapeByte(s[0]), EscapeAll(s[1..]));
    }
  }

  lemma StringRead(l: Layout, p: Place, s: Bytes)
    requires Ready(l, p)
    ensures Read(l, p, StringText(s)) == Some(Place(p.depth, Done))
  {
    var q := Place(p.depth, Quoted);
    Begins(l, p, 34);
    ReadOne(l, p, 34);
    EscapesRead(l, p.depth, s);
    ReadOne(l, q, 34);
    hide Next, EscapeAll;
    ReadParts(l, p, [34], EscapeAll(s));
    ReadParts(l, p, [34] + EscapeAll(s), [34]);
  }

  /** Spaces after a line break are counted. */
  lemma {:induction false} SpacesRead(l: Layout, p: Place, n: nat)
    requires p.mode.Before? || p.mode.Closing?
    ensures Read(l, p, Spaces(n)) ==
            Some(p.(mode := if p.mode.Before? then Before(p.mode.n + n) else Closing(p.mode.n + n)))
    decreases n
  {
    if n > 0 {
      var q := p.(mode := if p.mode.Before? then Before(p.mode.n + 1) else Closing(p.mode.n + 1));
      assert Next(l, p, 32) == Some(q);
      SpacesRead(l, q, n - 1);
      assert Spaces(n)[1..] == Spaces(n - 1);
    }
  }

  /** A line break and an indent before an element of a container d brackets deep. */
  lemma ElementReady(l: Layout, p: Place)
    requires p.mode.Opened? || p.mode.Comma?
    ensures var r := Read(l, p, Newline(l) + Spaces(if l.pretty then p.depth * l.width else 0));
            r.Some? && Ready(l, r.value) && r.value.depth == p.depth
  {
    if l.pretty {
      var q := Place(p.depth, Before(0));
      ReadOne(l, p, 10);
      SpacesRead(l, q, p.depth * l.width);
      hide Next;
      ReadParts(l, p, [10], Spaces(p.depth * l.width));
    } else {
      assert Newline(l) + Spaces(0) == [];
    }
  }

  /** A line break, an indent and the bracket that closes a container. */
  lemma CloserRead(l: Layout, p: Place, c: byte)
    requires p.mode.Done? && p.depth > 0 && Closes(c)
    ensures Read(l, p, Newline(l) + (Spaces(if l.pretty then (p.depth - 1) * l.width else 0) + [c])) ==
            Some(Place(p.depth - 1, Done))
  {
    if l.pretty {
      var n := (p.depth - 1) * l.width;
      ReadOne(l, p, 10);
      SpacesRead(l, Place(p.depth, Closing(0)), n);
      ReadOne(l, Place(p.depth, Closing(n)), c);
      hide Next;
      ReadParts(l, Place(p.depth, Closing(0)), Spaces(n), [c]);
      ReadParts(l, p, [10], Spaces(n) + [c]);
    } else {
      ReadOne(l, p, c);
      assert Newline(l) + (Spaces(0) + [c]) == [c];
    }
  }

  lemma IndentIs(l: Layout, depth: nat)
    ensures Indent(l, depth) == Spaces(if l.pretty then depth * l.width else 0)
  {
  }

  /** A printed value that starts where one may, inside as many brackets as its depth, is laid out as it
      should be. */
  lemma {:induction false} ValueRead(l: Layout, p: Place, v: Tree)
    requires Ready(l, p) && Laid(v)
    ensures Read(l, p, Print(v, l, p.depth)) == Some(Place(p.depth, Done))
    decreases v, 1
  {
    hide Ready, Read, StringText, IntText, PrintElems, PrintEntries, Token;
    match v
    case Null => WordTokens(); TokenRead(l, p, [110, 117, 108, 108]);
    case Bool(b) =>
      WordTokens();
      TokenRead(l, p, if b then [116, 114, 117, 101] else [102, 97, 108, 115, 101]);
    case Int(n) => IntToken(n); TokenRead(l, p, IntText(n));
    case Float(t) => TokenRead(l, p, t);
    case Str(x) => StringRead(l, p, x);
    case Arr(elems) => if elems == [] { EmptyRead(l, p, 0x5B, 0x5D); } else { ArrayRead(l, p, elems); }
    case Obj(entries) => if entries == [] { EmptyRead(l, p, 0x7B, 0x7D); } else { ObjectRead(l, p, entries); }
  }

  lemma EmptyRead(l: Layout, p: Place, open: byte, close: byte)
    requires Ready(l, p) && Opens(open) && Closes(close)
    ensures Read(l, p, [open, close]) == Some(Place(p.depth, Done))
  {
    Begins(l, p, open);
    ReadTwo(l, p, open, close);
  }

  lemma OpenRead(l: Layout, p: Place, c: byte, rest: Bytes)
    requires Ready(l, p) && Opens(c)
    ensures Read(l, p, [c] + rest) == Read(l, Place(p.depth + 1, Opened), rest)
  {
    Begins(l, p, c);
    ReadOne(l, p, c);
    hide Next;
    ReadParts(l, p, [c], rest);
  }

  lemma {:induction false} ArrayRead(l: Layout, p: Place, elems: seq<Tree>)
    requires Ready(l, p) && elems != [] && Laid(Arr(elems))
    ensures Read(l, p, Print(Arr(elems), l, p.depth)) == Some(Place(p.depth, Done))
    decreases elems, 2
  {
    hide Read, Ready, Print, PrintElems, Newline, Indent;
    ArrayText(elems, l, p.depth);
    OpenRead(l, p, 0x5B, Newline(l) + (PrintElems(elems, l, p.depth) + (Indent(l, p.depth) + [93])));
    ElemsRead(l, Place(p.depth + 1, Opened), elems);
  }

  /** An element on its line, and what stands behind it. */
  lemma {:induction false} ElementRead(l: Layout, p: Place, v: Tree, rest: Bytes)
    requires (p.mode.Opened? || p.mode.Comma?) && Laid(v)
    ensures Read(l, p, Newline(l) + (Indent(l, p.depth) + (Print(v, l, p.depth) + rest))) ==
            Read(l, Place(p.depth, Done), rest)
    decreases v, 2
  {
    hide Read, Ready, Print, Newline, Indent;
    var before := Newline(l) + Indent(l, p.depth);
    IndentIs(l, p.depth);
    ElementReady(l, p);
    var q := Read(l, p, before).value;
    ValueRead(l, q, v);
    ReadParts(l, q, Print(v, l, p.depth), rest);
    ReadParts(l, p, before, Print(v, l, p.depth) + rest);
    assert before + (Print(v, l, p.depth) + rest) ==
           Newline(l) + (Indent(l, p.depth) + (Print(v, l, p.depth) + rest));
  }

  lemma CommaRead(l: Layout, d: nat, rest: Bytes)
    ensures Read(l, Place(d, Done), [44] + rest) == Read(l, Place(d, Comma), rest)
  {
    ReadOne(l, Place(d, Done), 44);
    ReadParts(l, Place(d, Done), [44], rest);
  }

  lemma {:induction false} ElemsRead(l: Layout, p: Place, elems: seq<Tree>)
    requires (p.mode.Opened? || p.mode.Comma?) && p.depth > 0 && elems != [] && Laid(Arr(elems))
    ensures Read(l, p, Newline(l) + (PrintElems(elems, l, p.depth - 1) + (Indent(l, p.depth - 1) + [93]))) ==
            Some(Place(p.depth - 1, Done))
    decreases elems, 1
  {
    hide Read, Print, PrintElems, Newline, Indent;
    var d := p.depth - 1;
    var close := Indent(l, d) + [93];
    ElemsText(elems, l, d, close);
    if |elems| == 1 {
      ElementRead(l, p, elems[0], Newline(l) + close);
      IndentIs(l, d);
      CloserRead(l, Place(p.depth, Done), 93);
    } else {
      var rest := Newline(l) + (PrintElems(elems[1..], l, d) + close);
      ElementRead(l, p, elems[0], [44] + rest);
      CommaRead(l, p.depth, rest);
      ElemsRead(l, Place(p.depth, Comma), elems[1..]);
    }
  }

  lemma {:induction false} ObjectRead(l: Layout, p: Place, entries: seq<Entry>)
    requires Ready(l, p) && entries != [] && Laid(Obj(entries))
    ensures Read(l, p, Print(Obj(entries), l, p.depth)) == Some(Place(p.depth, Done))
    decreases entries, 2
  {
    hide Read, Ready, Print, PrintEntries, Newline, Indent;
    ObjectText(entries, l, p.depth);
    var d := p.depth;
    OpenRead(l, p, 0x7B, Newline(l) + (PrintEntries(entries, l, d) + (Newline(l) + (Indent(l, d) + [125]))));
    EntriesRead(l, Place(d + 1, Opened), entries);
  }

  lemma ColonRead(l: Layout, d: nat)
    ensures var r := Read(l, Place(d, Done), [58] + (if l.pretty then [32] else []));
            r.Some? && Ready(l, r.value) && r.value.depth == d
  {
    var p := Place(d, Done);
    if l.pretty {
      assert [58] + [32] == [58, 32];
      ReadTwo(l, p, 58, 32);
    } else {
      assert [58] + [] == [58];
      ReadOne(l, p, 58);
    }
  }

  /** A key, a colon and a value. */
  lemma {:induction false} EntryRead(l: Layout, p: Place, e: Entry)
    requires Ready(l, p) && Laid(e.value)
    ensures Read(l, p, EntryBody(e, l, p.depth)) == Some(Place(p.depth, Done))
    decreases e, 2
  {
    hide Read, Ready, Print, StringText;
    var d := p.depth;
    var colon := [58] + (if l.pretty then [32] else []);
    StringRead(l, p, e.key);
    ColonRead(l, d);
    var q := Read(l, Place(d, Done), colon).value;
    ValueRead(l, q, e.value);
    ReadParts(l, Place(d, Done), colon, Print(e.value, l, d));
    ReadParts(l, p, StringText(e.key), colon + Print(e.value, l, d));
    assert EntryBody(e, l, d) == StringText(e.key) + (colon + Print(e.value, l, d));
  }

  lemma {:induction false} EntriesRead(l: Layout, p: Place, entries: seq<Entry>)
    requires (p.mode.Opened? || p.mode.Comma?) && p.depth > 0 && entries != [] && Laid(Obj(entries))
    ensures var d := p.depth - 1;
            Read(l, p, Newline(l) + (PrintEntries(entries, l, d) + (Newline(l) + (Indent(l, d) + [125])))) ==
            Some(Place(d, Done))
    decreases entries, 1
  {
    hide Read, Print, PrintEntries, Newline, Indent, EntryBody, Ready;
    var d := p.depth - 1;
    var close := Newline(l) + (Indent(l, d) + [125]);
    var body := EntryBody(entries[0], l, p.depth);
    EntriesText(entries, l, d, close);
    var before := Newline(l) + Indent(l, p.depth);
    IndentIs(l, p.depth);
    ElementReady(l, p);
    var q := Read(l, p, before).value;
    EntryRead(l, q, entries[0]);
    var rest := if |entries| == 1 then close else [44] + (Newline(l) + (PrintEntries(entries[1..], l, d) + close));
    ReadParts(l, q, body, rest);
    ReadParts(l, p, before, body + rest);
    assert before + (body + rest) == Newline(l) + (Indent(l, p.depth) + (body + rest));
    if |entries| == 1 {
      IndentIs(l, d);
      CloserRead(l, Place(p.depth, Done), 125);
    } else {
      CommaRead(l, p.depth, Newline(l) + (PrintEntries(entries[1..], l, d) + close));
      EntriesRead(l, Place(p.depth, Comma), entries[1..]);
    }
  }

  /** What json.stringify writes is laid out as it should be, from its first character to its last. */
  lemma PrintedLaid(v: Tree, l: Layout)
    requires Laid(v)
    ensures Read(l, Place(0, Start), Print(v, l, 0)) == Some(Place(0, Done))
  {
    ValueRead(l, Place(0, Start), v);
  }
}
