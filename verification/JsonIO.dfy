/** The json module's imperative halves: a growable buffer that stringify writes to while it walks a
    heap of arrays and maps with a stack of the containers it is inside, and a parser with a cursor. */
module JsonIO {
  import opened Json
  import opened Widths
  import JsonGrammar
  import JsonLayout

  /** A value in the heap: containers are references, and maps have free slots among their nodes. */
  datatype Value = NilV | BoolV(b: bool) | IntV(n: int) | FloatV(finite: bool,
      text: Bytes) | StrV(s: Bytes) | RefV(id: nat) | OtherV
  datatype Slot = Free | Used(key: Bytes, value: Value)
  datatype Container = ArrayObj(elems: seq<Value>) | MapObj(slots: seq<Slot>, count: nat) | OtherObj
  type Heap = map<nat, Container>

  datatype Option<T> = None | Some(value: T)

  const MAX_STACK := 64

  function Live(slots: seq<Slot>): (n: nat) {
    if slots == [] then 0 else (if slots[0].Used? then 1 else 0) + Live(slots[1..])
  }

  /** References are good and map counts are exact. */
  ghost predicate WellFormed(heap: Heap) {
    forall id :: id in heap && heap[id].MapObj? ==> heap[id].count == Live(heap[id].slots)
  }

  // ---------------------------------------------------------------- the tree a value stands for

  /** The tree under a value, when it is serialisable and nests at most room containers. */
  ghost function Unfold(heap: Heap, v: Value, room: nat): Option<Tree>
    decreases room, 0, 1
  {
    match v
    case NilV => Some(Null)
    case BoolV(b) => Some(Bool(b))
    case IntV(n) => Some(Int(n))
    case FloatV(finite, text) => if finite then Some(Float(text)) else None
    case StrV(s) => Some(Str(s))
    case OtherV => None
    case RefV(id) =>
      if room == 0 || id !in heap then None
      else
        match heap[id]
        case ArrayObj(elems) => (
          var ts := UnfoldElems(heap, elems, room - 1);
          if ts.None? then None else Some(Arr(ts.value)))
        case MapObj(slots, _) => (
          var es := UnfoldSlots(heap, slots, room - 1);
          if es.None? then None else Some(Obj(es.value)))
        case OtherObj => None
  }

  ghost function UnfoldElems(heap: Heap, elems: seq<Value>, room: nat): (r: Option<seq<Tree>>)
    ensures r.Some? ==> |r.value| == |elems|
    decreases room, |elems| + 1, 0
  {
    if elems == [] then Some([])
    else
      var t, ts := Unfold(heap, elems[0], room), UnfoldElems(heap, elems[1..], room);
      if t.None? || ts.None? then None else Some([t.value] + ts.value)
  }

  ghost function UnfoldSlots(heap: Heap, slots: seq<Slot>, room: nat): (r: Option<seq<Entry>>)
    ensures r.Some? ==> |r.value| == Live(slots)
    decreases room, |slots| + 1, 0
  {
    if slots == [] then Some([])
    else if slots[0].Free? then UnfoldSlots(heap, slots[1..], room)
    else
      var t, es := Unfold(heap, slots[0].value, room), UnfoldSlots(heap, slots[1..], room);
      if t.None? || es.None? then None else Some([Entry(slots[0].key, t.value)] + es.value)
  }

  /** v is directly inside the container id. */
  predicate Inside(heap: Heap, id: nat, v: Value) {
    id in heap &&
    match heap[id]
    case ArrayObj(elems) => v in elems
    case MapObj(slots, _) => exists k :: 0 <= k < |slots| && slots[k].Used? && slots[k].value == v
    case OtherObj => false
  }

  lemma {:induction false} ElemsNone(heap: Heap, elems: seq<Value>, v: Value, room: nat)
    requires v in elems && Unfold(heap, v, room).None?
    ensures UnfoldElems(heap, elems, room).None?
  {
    if elems[0] != v { ElemsNone(heap, elems[1..], v, room); }
  }

  lemma {:induction false} SlotsNone(heap: Heap, slots: seq<Slot>, k: nat, room: nat)
    requires k < |slots| && slots[k].Used? && Unfold(heap, slots[k].value, room).None?
    ensures UnfoldSlots(heap, slots, room).None?
  {
    if k > 0 { SlotsNone(heap, slots[1..], k - 1, room); }
  }

  /** A container has no tree if something inside it has none. */
  lemma InsideNone(heap: Heap, id: nat, v: Value, room: nat)
    requires Inside(heap, id, v) && room > 0 && Unfold(heap, v, room - 1).None?
    ensures Unfold(heap, RefV(id), room).None?
  {
    match heap[id]
    case ArrayObj(elems) => ElemsNone(heap, elems, v, room - 1);
    case MapObj(slots, _) =>
      var k :| 0 <= k < |slots| && slots[k].Used? && slots[k].value == v;
      SlotsNone(heap, slots, k, room - 1);
    case OtherObj =>
  }

  function Step(path: seq<nat>, k: nat, v: Value): Value {
    if k + 1 < |path| then RefV(path[k + 1]) else v
  }

  /** Each container on the path holds the next one, and v is inside the last. */
  ghost predicate Chain(heap: Heap, path: seq<nat>, v: Value) {
    forall k :: 0 <= k < |path| ==> Inside(heap, path[k], Step(path, k, v))
  }

  /** On a cycle, nothing has a tree, however deep one is willing to look. */
  lemma {:induction false} CycleNone(heap: Heap, path: seq<nat>, j: nat, k: nat, room: nat)
    requires j <= k < |path| && Chain(heap, path, RefV(path[j]))
    ensures Unfold(heap, RefV(path[k]), room).None?
    decreases room
  {
    if room > 0 {
      var next := if k + 1 < |path| then k + 1 else j;
      CycleNone(heap, path, j, next, room - 1);
      assert Inside(heap, path[k], Step(path, k, RefV(path[j])));
      InsideNone(heap, path[k], RefV(path[next]), room);
    }
  }

  // ---------------------------------------------------------------- the growable buffer

  class StrBuf {
    var data: array<byte>
    var len: nat
    ghost var text: Bytes

    ghost predicate Valid()
      reads this, data
    {
      0 < data.Length && len <= data.Length && data[..len] == text
    }

    constructor ()
      ensures Valid() && fresh(data) && text == []
    {
      data := new byte[256](_ => 0);
      len := 0;
      text := [];
    }

    /** Make room for need more characters, doubling the capacity. */
    method Grow(need: nat)
      requires Valid()
      modifies this`data
      ensures Valid() && len + need <= data.Length
      ensures data == old(data) || fresh(data)
    {
      if len + need <= data.Length {
        return;
      }
      var cap := data.Length * 2;
      while cap < len + need
        invariant cap >= data.Length > 0
      {
        cap := cap * 2;
      }
      var bigger := new byte[cap](_ => 0);
      var i := 0;
      while i < len
        invariant data == old(data) && data[..len] == text
        invariant 0 <= i <= len <= data.Length && bigger[..i] == data[..i]
      {
        bigger[i] := data[i];
        i := i + 1;
      }
      data := bigger;
    }

    method Puts(s: Bytes)
      requires Valid()
      modifies this, data
      ensures Valid() && text == old(text) + s
      ensures data == old(data) || fresh(data)
    {
      Grow(|s|);
      var at := data;
      var i := 0;
      while i < |s|
        invariant 0 <= i <= |s| && data == at && len == |text| && text == old(text) && len + |s| <= at.Length
        invariant at[..len + i] == text + s[..i]
      {
        at[len + i] := s[i];
        i := i + 1;
      }
      len := len + |s|;
      text := text + s;
    }

    method Putc(c: byte)
      requires Valid()
      modifies this, data
      ensures Valid() && text == old(text) + [c]
      ensures data == old(data) || fresh(data)
    {
      Grow(1);
      data[len] := c;
      len := len + 1;
      text := text + [c];
    }

    method PutIndent(depth: nat, width: nat)
      requires Valid()
      modifies this, data
      ensures Valid() && text == old(text) + Spaces(depth * width)
      ensures data == old(data) || fresh(data)
    {
      if width == 0 || depth == 0 {
        return;
      }
      Puts(Spaces(depth * width));
    }
  }

  // ---------------------------------------------------------------- stringify

  /** The optional second argument of json.stringify. */
  datatype IndentArg = Absent | Flag(on: bool) | Number(n: int)

  function LayoutOf(a: IndentArg): Layout {
    match a
    case Absent => Layout(false, 0)
    case Flag(on) => Layout(on, if on then 2 else 0)
    case Number(n) =>
      var w := Narrow(n);
      var clamped := if w < 0 then 0 else if w > 16 then 16 else w;
      Layout(clamped > 0, clamped)
  }

  /** Nothing or false asks for compact text and true for two spaces; a number for that many spaces, 16 at most,
      none meaning compact. */
  lemma LayoutAsked(a: IndentArg)
    ensures a.Absent? ==> LayoutOf(a) == Layout(false, 0)
    ensures a.Flag? ==> LayoutOf(a).pretty == a.on && (a.on ==> LayoutOf(a).width == 2)
    ensures a.Number? && -0x8000_0000 <= a.n < 0x8000_0000 ==>
              (LayoutOf(a).pretty <==> 1 <= a.n) && LayoutOf(a).width <= 16 &&
              (1 <= a.n <= 16 ==> LayoutOf(a).width == a.n) && (16 < a.n ==> LayoutOf(a).width == 16)
  {
  }

  // What the loops over a container have done after some of its parts.

  function Join<T>(done: seq<T>, rest: Option<seq<T>>): Option<seq<T>> {
    if rest.None? then None else Some(done + rest.value)
  }

  lemma JoinNothing<T>(rest: Option<seq<T>>)
    ensures Join([], rest) == rest
  {
    if rest.Some? { assert [] + rest.value == rest.value; }
  }

  lemma JoinOne<T>(done: seq<T>, t: T, rest: Option<seq<T>>)
    ensures Join(done, Join([t], rest)) == Join(done + [t], rest)
  {
    if rest.Some? { assert done + ([t] + rest.value) == done + [t] + rest.value; }
  }

  function ElemLine(t: Tree, l: Layout, depth: nat, comma: bool): Bytes {
    Indent(l, depth + 1) + Print(t, l, depth + 1) + (if comma then [44] else []) + Newline(l)
  }

  /** The lines of the first elements of n. */
  function ElemLines(ts: seq<Tree>, n: nat, l: Layout, depth: nat): Bytes {
    if ts == [] then [] else ElemLines(ts[..|ts| - 1], n, l, depth) + ElemLine(ts[|ts| - 1], l, depth, |ts| < n)
  }

  lemma {:induction false} ElemLinesAre(done: seq<Tree>, rest: seq<Tree>, l: Layout, depth: nat)
    ensures ElemLines(done, |done| + |rest|, l, depth) + PrintElems(rest, l, depth) ==
            ElemLines(done + rest, |done| + |rest|, l, depth)
    decreases |rest|
  {
    hide ElemLine, Print;
    if rest == [] {
      assert done + rest == done;
    } else {
      var t := rest[0];
      ElemLinesAre(done + [t], rest[1..], l, depth);
      assert (done + [t])[..|done|] == done;
      assert done + [t] + rest[1..] == done + rest;
      ElemFirst(rest, l, depth);
    }
  }

  lemma ElemFirst(ts: seq<Tree>, l: Layout, depth: nat)
    requires ts != []
    ensures PrintElems(ts, l, depth) == ElemLine(ts[0], l, depth, |ts| > 1) + PrintElems(ts[1..], l, depth)
  {
  }

  ghost predicate ElemsDone(heap: Heap, elems: seq<Value>, room: nat, l: Layout, depth: nat, i: nat, done: seq<Tree>,
        out: Bytes) {
    i <= |elems| && |done| == i && UnfoldElems(heap, elems, room) == Join(done, UnfoldElems(heap, elems[i..], room)) &&
    out == ElemLines(done, |elems|, l, depth)
  }

  lemma ElemsStart(heap: Heap, elems: seq<Value>, room: nat, l: Layout, depth: nat)
    ensures ElemsDone(heap, elems, room, l, depth, 0, [], [])
  {
    assert elems[0..] == elems;
    JoinNothing(UnfoldElems(heap, elems, room));
  }

  lemma ElemsNext(heap: Heap, elems: seq<Value>, room: nat, l: Layout, depth: nat, i: nat, done: seq<Tree>, out: Bytes,
        t: Tree)
    requires ElemsDone(heap, elems, room, l, depth, i, done, out) && i < |elems| &&
             Unfold(heap, elems[i], room) == Some(t)
    ensures ElemsDone(heap, elems, room, l, depth, i + 1, done + [t], out + ElemLine(t, l, depth, i + 1 < |elems|))
  {
    hide ElemLine, Unfold;
    assert elems[i..][0] == elems[i] && elems[i..][1..] == elems[i + 1..];
    assert (done + [t])[..i] == done;
    var rest := UnfoldElems(heap, elems[i + 1..], room);
    if rest.Some? { assert done + ([t] + rest.value) == done + [t] + rest.value; }
  }

  lemma ElemsFail(heap: Heap, elems: seq<Value>, room: nat, i: nat)
    requires i < |elems| && Unfold(heap, elems[i], room).None?
    ensures UnfoldElems(heap, elems, room).None?
  {
    ElemsNone(heap, elems, elems[i], room);
  }

  lemma ElemsEnd(heap: Heap, elems: seq<Value>, room: nat, l: Layout, depth: nat, done: seq<Tree>, out: Bytes)
    requires ElemsDone(heap, elems, room, l, depth, |elems|, done, out)
    ensures UnfoldElems(heap, elems, room) == Some(done) && out == PrintElems(done, l, depth)
  {
    assert elems[|elems|..] == [];
    assert done + [] == done;
    ElemLinesAre([], done, l, depth);
    assert [] + done == done;
  }

  function EntryLines(es: seq<Entry>, l: Layout, depth: nat): Bytes {
    if es == [] then []
    else if |es| == 1 then PrintEntry(es[0], l, depth)
    else EntryLines(es[..|es| - 1], l, depth) + [44] + Newline(l) + PrintEntry(es[|es| - 1], l, depth)
  }

  lemma EntriesFirst(es: seq<Entry>, l: Layout, depth: nat)
    requires es != []
    ensures PrintEntries(es, l, depth) == PrintEntry(es[0], l, depth) + if |es| == 1 then []
            else [44] + Newline(l) + PrintEntries(es[1..], l, depth)
  {
  }

  lemma {:induction false} EntryLinesAre(done: seq<Entry>, rest: seq<Entry>, l: Layout, depth: nat)
    requires done != []
    ensures EntryLines(done + rest, l, depth) == EntryLines(done, l, depth) + if rest == [] then []
            else [44] + Newline(l) + PrintEntries(rest, l, depth)
    decreases |rest|
  {
    hide PrintEntry, EntryLines, PrintEntries, Newline;
    if rest == [] {
      assert done + rest == done;
    } else {
      EntryLinesAre(done + [rest[0]], rest[1..], l, depth);
      EntryLinesNext(done, rest[0], l, depth);
      EntriesFirst(rest, l, depth);
      assert done + [rest[0]] + rest[1..] == done + rest;
    }
  }

  ghost predicate SlotsDone(heap: Heap, slots: seq<Slot>, room: nat, l: Layout, depth: nat, i: nat, done: seq<Entry>,
        out: Bytes) {
    i <= |slots| && UnfoldSlots(heap, slots, room) == Join(done, UnfoldSlots(heap, slots[i..], room)) &&
    out == EntryLines(done, l, depth)
  }

  lemma SlotsStart(heap: Heap, slots: seq<Slot>, room: nat, l: Layout, depth: nat)
    ensures SlotsDone(heap, slots, room, l, depth, 0, [], [])
  {
    assert slots[0..] == slots;
    JoinNothing(UnfoldSlots(heap, slots, room));
  }

  lemma SlotsSkip(heap: Heap, slots: seq<Slot>, room: nat, l: Layout, depth: nat, i: nat, done: seq<Entry>, out: Bytes)
    requires SlotsDone(heap, slots, room, l, depth, i, done, out) && i < |slots| && slots[i].Free?
    ensures SlotsDone(heap, slots, room, l, depth, i + 1, done, out)
  {
    assert slots[i..][0] == slots[i] && slots[i..][1..] == slots[i + 1..];
  }

  lemma SlotsNext(heap: Heap, slots: seq<Slot>, room: nat, l: Layout, depth: nat, i: nat, done: seq<Entry>, out: Bytes,
        t: Tree)
    requires SlotsDone(heap, slots, room, l, depth, i, done, out) && i < |slots| && slots[i].Used? &&
             Unfold(heap, slots[i].value, room) == Some(t)
    ensures SlotsDone(heap, slots, room, l, depth, i + 1, done + [Entry(slots[i].key, t)],
            out + EntryLine(done == [], Entry(slots[i].key, t), l, depth))
  {
    hide PrintEntry, Unfold, EntryLines, Join;
    var e := Entry(slots[i].key, t);
    EntryLinesNext(done, e, l, depth);
    SlotsAhead(heap, slots, room, i, t);
    JoinOne(done, e, UnfoldSlots(heap, slots[i + 1..], room));
  }

  function EntryLine(first: bool, e: Entry, l: Layout, depth: nat): Bytes {
    (if first then [] else [44] + Newline(l)) + PrintEntry(e, l, depth)
  }

  lemma EntryLinesNext(done: seq<Entry>, e: Entry, l: Layout, depth: nat)
    ensures EntryLines(done + [e], l, depth) == EntryLines(done, l, depth) + EntryLine(done == [], e, l, depth)
  {
    hide PrintEntry, Newline;
    assert (done + [e])[..|done|] == done;
  }

  lemma SlotsAhead(heap: Heap, slots: seq<Slot>, room: nat, i: nat, t: Tree)
    requires i < |slots| && slots[i].Used? && Unfold(heap, slots[i].value, room) == Some(t)
    ensures UnfoldSlots(heap, slots[i..], room) ==
            Join([Entry(slots[i].key, t)], UnfoldSlots(heap, slots[i + 1..], room))
  {
    hide Unfold;
    assert slots[i..][0] == slots[i] && slots[i..][1..] == slots[i + 1..];
  }

  lemma SlotsEnd(heap: Heap, slots: seq<Slot>, room: nat, l: Layout, depth: nat, done: seq<Entry>, out: Bytes)
    requires SlotsDone(heap, slots, room, l, depth, |slots|, done, out)
    ensures UnfoldSlots(heap, slots, room) == Some(done) && (done != [] ==> out == PrintEntries(done, l, depth))
  {
    assert slots[|slots|..] == [];
    assert done + [] == done;
    if done != [] {
      EntryLinesAre([done[0]], done[1..], l, depth);
      assert [done[0]] + done[1..] == done;
    }
  }

  lemma {:induction false} NoSlots(heap: Heap, slots: seq<Slot>, room: nat)
    requires Live(slots) == 0
    ensures UnfoldSlots(heap, slots, room) == Some([])
  {
    if slots != [] { NoSlots(heap, slots[1..], room); }
  }

  /** Entering a container keeps the path a chain; being inside it already, or too deep, means no tree. */
  lemma Entering(heap: Heap, path: seq<nat>, id: nat, v: Value)
    requires Chain(heap, path, RefV(id)) && Inside(heap, id, v)
    ensures Chain(heap, path + [id], v)
  {
    var longer := path + [id];
    forall k | 0 <= k < |longer| ensures Inside(heap, longer[k], Step(longer, k, v)) {
      if k < |path| { assert Inside(heap, path[k], Step(path, k, RefV(id))); }
    }
  }

  lemma Refused(heap: Heap, path: seq<nat>, id: nat)
    requires Chain(heap, path, RefV(id)) && |path| <= MAX_STACK && (id in path || |path| == MAX_STACK)
    ensures Unfold(heap, RefV(id), MAX_STACK - |path|).None?
  {
    if id in path {
      var j :| 0 <= j < |path| && path[j] == id;
      CycleNone(heap, path, j, j, MAX_STACK - |path|);
    }
  }

  lemma EscapeStep(out: Bytes, s: Bytes, i: nat)
    requires i < |s|
    ensures out + EscapeByte(s[i]) + EscapeAll(s[i + 1..]) == out + EscapeAll(s[i..])
  {
    hide EscapeByte;
    assert s[i..][0] == s[i] && s[i..][1..] == s[i + 1..];
  }

  lemma EscapeEnd(out: Bytes, s: Bytes)
    requires out + EscapeAll(s[|s|..]) == [34] + EscapeAll(s)
    ensures out + [34] == StringText(s)
  {
    assert EscapeAll(s[|s|..]) == [];
    assert out == [34] + EscapeAll(s);
  }

  class Stringifier {
    const heap: Heap
    const layout: Layout
    const sb: StrBuf
    var stack: seq<nat>
    var stackDepth: nat

    ghost predicate Valid()
      reads this, sb, sb.data
    {
      WellFormed(heap) && |stack| == MAX_STACK && stackDepth <= MAX_STACK && sb.Valid()
    }

    ghost function Path(): seq<nat>
      reads this
      requires stackDepth <= |stack|
    {
      stack[..stackDepth]
    }

    constructor (heap: Heap, layout: Layout)
      requires WellFormed(heap)
      ensures Valid() && this.heap == heap && this.layout == layout && stackDepth == 0 && sb.text == []
      ensures fresh(sb) && fresh(sb.data)
    {
      this.heap := heap;
      this.layout := layout;
      sb := new StrBuf();
      stack := seq(MAX_STACK, _ => 0);
      stackDepth := 0;
    }

    /** Enter a container, unless we are already in it or too deep. */
    method Push(id: nat) returns (ok: bool)
      requires Valid()
      modifies this
      ensures Valid()
      ensures ok == (id !in old(Path()) && old(stackDepth) < MAX_STACK)
      ensures Path() == if ok then old(Path()) + [id] else old(Path())
    {
      var i := 0;
      while i < stackDepth
        invariant 0 <= i <= stackDepth && forall k :: 0 <= k < i ==> stack[k] != id
      {
        if stack[i] == id {
          return false;
        }
        i := i + 1;
      }
      if stackDepth >= MAX_STACK {
        return false;
      }
      stack := stack[stackDepth := id];
      stackDepth := stackDepth + 1;
      return true;
    }

    method Pop()
      requires Valid() && stackDepth > 0
      modifies this
      ensures Valid() && Path() == old(Path()[..stackDepth - 1])
    {
      stackDepth := stackDepth - 1;
    }

    method EscapeString(s: Bytes)
      requires Valid()
      modifies sb, sb.data
      ensures Valid() && sb.text == old(sb.text) + StringText(s)
      ensures sb.data == old(sb.data) || fresh(sb.data)
    {
      hide EscapeByte, EscapeAll;
      ghost var start := sb.text;
      sb.Putc(34);
      ghost var out: Bytes := [34];
      var i := 0;
      assert s[0..] == s;
      while i < |s|
        invariant 0 <= i <= |s| && sb.Valid() && (sb.data == old(sb.data) || fresh(sb.data))
        invariant sb.text == start + out && out + EscapeAll(s[i..]) == [34] + EscapeAll(s)
      {
        EscapeStep(out, s, i);
        sb.Puts(EscapeByte(s[i]));
        out := out + EscapeByte(s[i]);
        i := i + 1;
      }
      EscapeEnd(out, s);
      sb.Putc(34);
    }

    method PutNewline()
      requires Valid()
      modifies sb, sb.data
      ensures Valid() && sb.text == old(sb.text) + Newline(layout)
      ensures sb.data == old(sb.data) || fresh(sb.data)
    {
      if layout.pretty {
        sb.Putc(10);
      }
    }

    method PutIndent(depth: nat)
      requires Valid()
      modifies sb, sb.data
      ensures Valid() && sb.text == old(sb.text) + Indent(layout, depth)
      ensures sb.data == old(sb.data) || fresh(sb.data)
    {
      if layout.pretty {
        sb.PutIndent(depth, layout.width);
      }
    }

    /** Write the value, or fail if it has no tree within the stack's room. */
    method StringifyValue(v: Value, depth: nat) returns (ok: bool)
      requires Valid() && Chain(heap, Path(), v)
      modifies this, sb, sb.data
      ensures Valid() && Path() == old(Path()) && (sb.data == old(sb.data) || fresh(sb.data))
      ensures ok == Unfold(heap, v, MAX_STACK - old(stackDepth)).Some?
      ensures ok ==> sb.text == old(sb.text) + Print(Unfold(heap, v, MAX_STACK - old(stackDepth)).value, layout, depth)
      decreases MAX_STACK - stackDepth, 1
    {
      match v
      case NilV =>
        sb.Puts([110, 117, 108, 108]);
        return true;
      case BoolV(b) =>
        if b {
          sb.Puts([116, 114, 117, 101]);
        } else {
          sb.Puts([102, 97, 108, 115, 101]);
        }
        return true;
      case IntV(n) =>
        sb.Puts(IntText(n));
        return true;
      case FloatV(finite, text) =>
        if !finite {
          return false;
        }
        sb.Puts(text);
        return true;
      case StrV(s) =>
        EscapeString(s);
        return true;
      case RefV(id) =>
        if id !in heap {
          return false;
        }
        match heap[id] {
          case ArrayObj(elems) => ok := StringifyArray(id, elems, depth);
          case MapObj(slots, count) => ok := StringifyMap(id, slots, count, depth);
          case OtherObj => return false;
        }
      case OtherV => return false;
    }

    method StringifyArray(id: nat, elems: seq<Value>, depth: nat) returns (ok: bool)
      requires Valid() && Chain(heap, Path(), RefV(id)) && id in heap && heap[id] == ArrayObj(elems)
      modifies this, sb, sb.data
      ensures Valid() && Path() == old(Path()) && (sb.data == old(sb.data) || fresh(sb.data))
      ensures ok == Unfold(heap, RefV(id), MAX_STACK - old(stackDepth)).Some?
      ensures ok ==> sb.text == old(sb.text) + Print(Unfold(heap, RefV(id), MAX_STACK - old(stackDepth)).value, layout,
              depth)
      decreases MAX_STACK - stackDepth, 0
    {
      hide WellFormed, Unfold, UnfoldElems, Print, Indent, Newline, PrintElems, Chain;
      ghost var path := Path();
      ok := Push(id);
      if !ok {
        Refused(heap, path, id);
        return;
      }
      ArrayTree(heap, id, elems, MAX_STACK - stackDepth);
      ok := PutArray(id, elems, depth, path);
      Pop();
    }

    /** The text of the array just entered. */
    method PutArray(id: nat, elems: seq<Value>, depth: nat, ghost path: seq<nat>) returns (ok: bool)
      requires Valid() && Path() == path + [id] && Chain(heap, path, RefV(id)) && id in heap &&
               heap[id] == ArrayObj(elems)
      modifies this, sb, sb.data
      ensures Valid() && Path() == old(Path()) && (sb.data == old(sb.data) || fresh(sb.data))
      ensures ok == UnfoldElems(heap, elems, MAX_STACK - old(stackDepth)).Some?
      ensures ok ==> sb.text == old(sb.text) + Print(Arr(UnfoldElems(heap, elems, MAX_STACK - old(stackDepth)).value),
              layout, depth)
      decreases MAX_STACK - stackDepth, 4
    {
      hide WellFormed, Unfold, UnfoldElems, Print, Indent, Newline, PrintElems, Chain;
      ghost var start := sb.text;
      sb.Putc(91);
      if |elems| > 0 {
        PutNewline();
        ok := PutElems(id, elems, depth, path);
        if !ok {
          return;
        }
        PutIndent(depth);
      }
      ArrayEnds(heap, elems, MAX_STACK - stackDepth, layout, depth, start);
      sb.Putc(93);
      return true;
    }

    /** The elements of the container just entered. */
    method PutElems(id: nat, elems: seq<Value>, depth: nat, ghost path: seq<nat>) returns (ok: bool)
      requires Valid() && Path() == path + [id] && Chain(heap, path, RefV(id)) && id in heap &&
               heap[id] == ArrayObj(elems)
      modifies this, sb, sb.data
      ensures Valid() && Path() == old(Path()) && (sb.data == old(sb.data) || fresh(sb.data))
      ensures ok == UnfoldElems(heap, elems, MAX_STACK - old(stackDepth)).Some?
      ensures ok ==> sb.text == old(sb.text) + PrintElems(UnfoldElems(heap, elems, MAX_STACK - old(stackDepth)).value,
              layout, depth)
      decreases MAX_STACK - stackDepth, 3
    {
      hide WellFormed, Unfold, UnfoldElems, ElemsDone, ElemLine, PrintElems, Chain, Inside;
      ghost var room := MAX_STACK - stackDepth;
      ghost var head := sb.text;
      ghost var done: seq<Tree>, out: Bytes := [], [];
      ElemsStart(heap, elems, room, layout, depth);
      var i := 0;
      while i < |elems|
        invariant 0 <= i <= |elems| && Valid() && Path() == path + [id] && (sb.data == old(sb.data) || fresh(sb.data))
        invariant ElemsDone(heap, elems, room, layout, depth, i, done, out)
        invariant sb.text == head + out
      {
        ElemInside(heap, id, elems, i);
        Entering(heap, path, id, elems[i]);
        ok := StringifyElem(elems[i], depth, i + 1 < |elems|);
        if !ok {
          ElemsFail(heap, elems, room, i);
          return;
        }
        ghost var t := Unfold(heap, elems[i], room).value;
        ElemsNext(heap, elems, room, layout, depth, i, done, out, t);
        done, out := done + [t], out + ElemLine(t, layout, depth, i + 1 < |elems|);
        i := i + 1;
      }
      ElemsEnd(heap, elems, room, layout, depth, done, out);
      return true;
    }

    method StringifyMap(id: nat, slots: seq<Slot>, count: nat, depth: nat) returns (ok: bool)
      requires Valid() && Chain(heap, Path(), RefV(id)) && id in heap && heap[id] == MapObj(slots, count)
      modifies this, sb, sb.data
      ensures Valid() && Path() == old(Path()) && (sb.data == old(sb.data) || fresh(sb.data))
      ensures ok == Unfold(heap, RefV(id), MAX_STACK - old(stackDepth)).Some?
      ensures ok ==> sb.text == old(sb.text) + Print(Unfold(heap, RefV(id), MAX_STACK - old(stackDepth)).value, layout,
              depth)
      decreases MAX_STACK - stackDepth, 0
    {
      hide WellFormed, Unfold, UnfoldSlots, Print, Indent, Newline, PrintEntries, Chain, Live;
      ghost var path := Path();
      ok := Push(id);
      if !ok {
        Refused(heap, path, id);
        return;
      }
      MapTree(heap, id, slots, count, MAX_STACK - stackDepth);
      ok := PutMap(id, slots, count, depth, path);
      Pop();
    }

    /** The text of the map just entered. */
    method PutMap(id: nat, slots: seq<Slot>, count: nat, depth: nat, ghost path: seq<nat>) returns (ok: bool)
      requires Valid() && Path() == path + [id] && Chain(heap, path, RefV(id)) && id in heap &&
               heap[id] == MapObj(slots, count)
      modifies this, sb, sb.data
      ensures Valid() && Path() == old(Path()) && (sb.data == old(sb.data) || fresh(sb.data))
      ensures ok == UnfoldSlots(heap, slots, MAX_STACK - old(stackDepth)).Some?
      ensures ok ==> sb.text == old(sb.text) + Print(Obj(UnfoldSlots(heap, slots, MAX_STACK - old(stackDepth)).value),
              layout, depth)
      decreases MAX_STACK - stackDepth, 4
    {
      hide WellFormed, Unfold, UnfoldSlots, Print, Indent, Newline, PrintEntries, Chain, Live;
      ghost var start := sb.text;
      CountIsLive(heap, id, slots, count);
      sb.Putc(123);
      if count > 0 {
        PutNewline();
        ok := PutSlots(id, slots, count, depth, path);
        if !ok {
          return;
        }
        PutNewline();
        PutIndent(depth);
      }
      MapEnds(heap, slots, MAX_STACK - stackDepth, layout, depth, start);
      sb.Putc(125);
      return true;
    }

    /** The entries of the map just entered. */
    method PutSlots(id: nat, slots: seq<Slot>, count: nat, depth: nat, ghost path: seq<nat>) returns (ok: bool)
      requires Valid() && Path() == path + [id] && Chain(heap, path, RefV(id)) && id in heap &&
               heap[id] == MapObj(slots, count) && Live(slots) > 0
      modifies this, sb, sb.data
      ensures Valid() && Path() == old(Path()) && (sb.data == old(sb.data) || fresh(sb.data))
      ensures ok == UnfoldSlots(heap, slots, MAX_STACK - old(stackDepth)).Some?
      ensures ok ==> sb.text == old(sb.text) + PrintEntries(UnfoldSlots(heap, slots, MAX_STACK - old(stackDepth)).value,
              layout, depth)
      decreases MAX_STACK - stackDepth, 3
    {
      hide WellFormed, Unfold, UnfoldSlots, SlotsDone, EntryLine, PrintEntries, Chain, Inside, Live;
      ghost var room := MAX_STACK - stackDepth;
      ghost var head := sb.text;
      ghost var done: seq<Entry>, out: Bytes := [], [];
      SlotsStart(heap, slots, room, layout, depth);
      var first := true;
      var i := 0;
      while i < |slots|
        invariant 0 <= i <= |slots| && Valid() && Path() == path + [id] && (sb.data == old(sb.data) || fresh(sb.data))
        invariant SlotsDone(heap, slots, room, layout, depth, i, done, out)
        invariant sb.text == head + out && first == (done == [])
      {
        if slots[i].Free? {
          SlotsSkip(heap, slots, room, layout, depth, i, done, out);
          i := i + 1;
          continue;
        }
        SlotInside(heap, id, slots, count, i);
        Entering(heap, path, id, slots[i].value);
        ok := StringifyEntry(slots[i].key, slots[i].value, depth, first);
        if !ok {
          SlotsNone(heap, slots, i, room);
          return;
        }
        ghost var e := Entry(slots[i].key, Unfold(heap, slots[i].value, room).value);
        SlotsNext(heap, slots, room, layout, depth, i, done, out, e.value);
        done, out := done + [e], out + EntryLine(done == [], e, layout, depth);
        first := false;
        i := i + 1;
      }
      SlotsEnd(heap, slots, room, layout, depth, done, out);
      return true;
    }

    /** One element on its own line, with a comma unless it is the last. */
    method StringifyElem(v: Value, depth: nat, comma: bool) returns (ok: bool)
      requires Valid() && Chain(heap, Path(), v)
      modifies this, sb, sb.data
      ensures Valid() && Path() == old(Path()) && (sb.data == old(sb.data) || fresh(sb.data))
      ensures ok == Unfold(heap, v, MAX_STACK - old(stackDepth)).Some?
      ensures ok ==> sb.text == old(sb.text) + ElemLine(Unfold(heap, v, MAX_STACK - old(stackDepth)).value, layout,
              depth, comma)
      decreases MAX_STACK - stackDepth, 2
    {
      hide WellFormed, Unfold, Print, Indent, Newline, Chain, ElemLine;
      ghost var start := sb.text;
      PutIndent(depth + 1);
      ok := StringifyValue(v, depth + 1);
      if ok {
        PutLineEnd(comma);
        ElemLineIs(start, Unfold(heap, v, MAX_STACK - stackDepth).value, layout, depth, comma);
      }
    }

    method PutLineEnd(comma: bool)
      requires Valid()
      modifies sb, sb.data
      ensures Valid() && sb.text == (if comma then old(sb.text) + [44] else old(sb.text)) + Newline(layout)
      ensures sb.data == old(sb.data) || fresh(sb.data)
    {
      if comma {
        sb.Putc(44);
      }
      PutNewline();
    }

    /** One key and its value, after a comma unless it is the first. */
    method StringifyEntry(key: Bytes, v: Value, depth: nat, first: bool) returns (ok: bool)
      requires Valid() && Chain(heap, Path(), v)
      modifies this, sb, sb.data
      ensures Valid() && Path() == old(Path()) && (sb.data == old(sb.data) || fresh(sb.data))
      ensures ok == Unfold(heap, v, MAX_STACK - old(stackDepth)).Some?
      ensures ok ==> sb.text == old(sb.text) + EntryLine(first,
              Entry(key, Unfold(heap, v, MAX_STACK - old(stackDepth)).value), layout, depth)
      decreases MAX_STACK - stackDepth, 2
    {
      hide WellFormed, Unfold, Print, Indent, Newline, Chain, StringText, EntryLine, KeyText;
      ghost var start := sb.text;
      PutKey(key, depth, first);
      ok := StringifyValue(v, depth + 1);
      if ok {
        EntryTextIs(start, first, key, Unfold(heap, v, MAX_STACK - stackDepth).value, layout, depth);
      }
    }

    method PutKey(key: Bytes, depth: nat, first: bool)
      requires Valid()
      modifies sb, sb.data
      ensures Valid() && sb.text == KeyText(old(sb.text), first, key, layout, depth)
      ensures sb.data == old(sb.data) || fresh(sb.data)
    {
      hide WellFormed, Indent, Newline, StringText;
      if !first {
        sb.Putc(44);
        PutNewline();
      }
      PutIndent(depth + 1);
      EscapeString(key);
      sb.Putc(58);
      if layout.pretty {
        sb.Putc(32);
      }
    }
  }

  function KeyText(start: Bytes, first: bool, key: Bytes, l: Layout, depth: nat): Bytes {
    var head := (if first then start else start + [44] + Newline(l)) + Indent(l, depth + 1) + StringText(key) + [58];
    if l.pretty then head + [32] else head
  }

  lemma ArrayTree(heap: Heap, id: nat, elems: seq<Value>, room: nat)
    requires id in heap && heap[id] == ArrayObj(elems)
    ensures Unfold(heap, RefV(id), room + 1) == if UnfoldElems(heap, elems, room).None? then None
            else Some(Arr(UnfoldElems(heap, elems, room).value))
  {
  }

  lemma MapTree(heap: Heap, id: nat, slots: seq<Slot>, count: nat, room: nat)
    requires id in heap && heap[id] == MapObj(slots, count)
    ensures Unfold(heap, RefV(id), room + 1) == if UnfoldSlots(heap, slots, room).None? then None
            else Some(Obj(UnfoldSlots(heap, slots, room).value))
  {
  }

  lemma ElemInside(heap: Heap, id: nat, elems: seq<Value>, i: nat)
    requires id in heap && heap[id] == ArrayObj(elems) && i < |elems|
    ensures Inside(heap, id, elems[i])
  {
  }

  lemma SlotInside(heap: Heap, id: nat, slots: seq<Slot>, count: nat, i: nat)
    requires id in heap && heap[id] == MapObj(slots, count) && i < |slots| && slots[i].Used?
    ensures Inside(heap, id, slots[i].value)
  {
  }

  lemma ElemLineIs(head: Bytes, t: Tree, l: Layout, depth: nat, comma: bool)
    ensures var text := head + Indent(l, depth + 1) + Print(t, l, depth + 1);
            head + ElemLine(t, l, depth, comma) == (if comma then text + [44] else text) + Newline(l)
  {
    hide Indent, Print, Newline;
  }

  lemma EntryTextIs(start: Bytes, first: bool, key: Bytes, t: Tree, l: Layout, depth: nat)
    ensures start + EntryLine(first, Entry(key, t), l, depth) == KeyText(start, first, key, l, depth) +
            Print(t, l, depth + 1)
  {
    hide Indent, Print, StringText, Newline;
  }

  lemma CountIsLive(heap: Heap, id: nat, slots: seq<Slot>, count: nat)
    requires WellFormed(heap) && id in heap && heap[id] == MapObj(slots, count)
    ensures count == Live(slots)
  {
  }

  lemma ArrayEnds(heap: Heap, elems: seq<Value>, room: nat, l: Layout, depth: nat, start: Bytes)
    requires UnfoldElems(heap, elems, room).Some? || elems == []
    ensures elems == [] ==>
              UnfoldElems(heap, elems, room) == Some([]) && start + Print(Arr([]), l, depth) == start + [91] + [93]
    ensures elems != [] ==> start + Print(Arr(UnfoldElems(heap, elems, room).value), l, depth) ==
                            start + [91] + Newline(l) + PrintElems(UnfoldElems(heap, elems, room).value, l, depth) +
                                Indent(l, depth) + [93]
  {
    hide Unfold, Indent, Newline, PrintElems;
  }

  lemma MapEnds(heap: Heap, slots: seq<Slot>, room: nat, l: Layout, depth: nat, start: Bytes)
    requires UnfoldSlots(heap, slots, room).Some? || Live(slots) == 0
    ensures Live(slots) == 0 ==>
              UnfoldSlots(heap, slots, room) == Some([]) && start + Print(Obj([]), l, depth) == start + [123] + [125]
    ensures Live(slots) > 0 ==> UnfoldSlots(heap, slots, room).value != []
    ensures Live(slots) > 0 ==> start + Print(Obj(UnfoldSlots(heap, slots, room).value), l, depth) ==
                                start + [123] + Newline(l) + PrintEntries(UnfoldSlots(heap, slots, room).value, l,
                                    depth) + Newline(l) + Indent(l, depth) + [125]
  {
    hide Unfold, UnfoldSlots, Indent, Newline, PrintEntries, Live;
    if Live(slots) == 0 { NoSlots(heap, slots, room); }
  }

  /** json.stringify. */
  method Stringify(heap: Heap, v: Value, indent: IndentArg) returns (ok: bool, text: Bytes)
    requires WellFormed(heap)
    ensures ok == Unfold(heap, v, 64).Some?
    ensures ok ==> text == Print(Unfold(heap, v, 64).value, LayoutOf(indent), 0)
    ensures ok && JsonLayout.Laid(Unfold(heap, v, MAX_STACK).value) ==>
              JsonLayout.Read(LayoutOf(indent), JsonLayout.Place(0, JsonLayout.Start), text) ==
              JsonLayout.Some(JsonLayout.Place(0, JsonLayout.Done))
  {
    hide WellFormed, Unfold, Print, LayoutOf, JsonLayout.Laid, JsonLayout.Read;
    var ctx := new Stringifier(heap, LayoutOf(indent));
    ok := ctx.StringifyValue(v, 0);
    if ok {
      text := ctx.sb.data[..ctx.sb.len];
      if JsonLayout.Laid(Unfold(heap, v, MAX_STACK).value) {
        JsonLayout.PrintedLaid(Unfold(heap, v, MAX_STACK).value, LayoutOf(indent));
      }
    } else {
      text := [];
    }
  }

  /** A value whose tree has only what JSON can carry survives stringify and parse. */
  lemma HeapRoundTrip(heap: Heap, v: Value, indent: IndentArg)
    requires Unfold(heap, v, MAX_STACK).Some? && Plain(Unfold(heap, v, MAX_STACK).value)
    ensures Parse(Print(Unfold(heap, v, MAX_STACK).value, LayoutOf(indent), 0)).Got?
    ensures Parse(Print(Unfold(heap, v, MAX_STACK).value, LayoutOf(indent), 0)).value ==
            Unfold(heap, v, MAX_STACK).value
  {
    hide Unfold, Plain, Print, Parse, LayoutOf;
    RoundTrip(Unfold(heap, v, MAX_STACK).value, LayoutOf(indent));
  }

  // ---------------------------------------------------------------- parse

  class Parser {
    const src: Bytes
    var pos: nat

    ghost predicate Valid()
      reads this
    {
      pos <= |src|
    }

    constructor (src: Bytes)
      ensures Valid() && this.src == src && pos == 0
    {
      this.src := src;
      pos := 0;
    }

    method SkipWs()
      requires Valid()
      modifies this
      ensures Valid() && pos == Skip(src, old(pos))
    {
      while pos < |src| && IsSpace(src[pos])
        invariant pos <= |src| && Skip(src, pos) == Skip(src, old(pos))
      {
        pos := pos + 1;
      }
    }

    method Consume(c: byte) returns (ok: bool)
      requires Valid()
      modifies this
      ensures Valid() && ok == (old(pos) < |src| && src[old(pos)] == c) && pos == if ok then old(pos) + 1 else old(pos)
    {
      ok := pos < |src| && src[pos] == c;
      if ok {
        pos := pos + 1;
      }
    }

    /** What a parsing method did, against the specification's answer at its starting position. */
    ghost predicate Agrees<T>(r: Parsed<T>, ok: bool, v: T)
      reads this
    {
      Valid() && ok == r.Got? && (ok ==> v == r.value && pos == r.pos)
    }

    method ParseHex4() returns (ok: bool, val: nat)
      requires Valid()
      modifies this
      ensures Agrees(Hex4(src, old(pos)), ok, val)
    {
      val := 0;
      if pos + 4 > |src| {
        return false, 0;
      }
      ghost var start := pos;
      var i := 0;
      while i < 4
        invariant 0 <= i <= 4 && pos == start + i && start + 4 <= |src|
        invariant forall k :: start <= k < start + i ==> Nibble(src[k]) >= 0
        invariant val == HexPrefix(src, start, i)
      {
        var c := src[pos];
        pos := pos + 1;
        var nibble := Nibble(c);
        if nibble < 0 {
          return false, 0;
        }
        val := val * 16 + nibble;
        i := i + 1;
      }
      assert HexPrefix(src, start, 2) == Nibble(src[start]) * 16 + Nibble(src[start + 1]);
      return true, val;
    }

    method ParseCodePoint() returns (ok: bool, cp: nat)
      requires Valid()
      modifies this
      ensures Agrees(CodePoint(src, old(pos)), ok, cp)
    {
      hide Hex4;
      ok, cp := ParseHex4();
      if !ok {
        return;
      }
      var hi := cp;
      if 0xD800 <= hi <= 0xDBFF {
        if pos + 2 > |src| || src[pos] != 92 || src[pos + 1] != 117 {
          return false, 0;
        }
        pos := pos + 2;
        var lo;
        ok, lo := ParseHex4();
        if !ok {
          return;
        }
        if lo < 0xDC00 || lo > 0xDFFF {
          return false, 0;
        }
        cp := 0x10000 + (hi - 0xD800) * 0x400 + (lo - 0xDC00);
      } else if 0xDC00 <= hi <= 0xDFFF {
        return false, 0;
      }
    }

    method ParseStringToken() returns (ok: bool, out: Bytes)
      requires Valid()
      modifies this
      ensures Agrees(ParseString(src, old(pos)), ok, out)
    {
      hide CodePoint, Utf8, Unescape;
      out := [];
      ok := Consume(34);
      if !ok {
        return;
      }
      ghost var start := pos;
      while pos < |src|
        invariant pos <= |src| && Chars(src, pos, out) == Chars(src, start, [])
        decreases |src| - pos
      {
        var c: byte := src[pos];
        pos := pos + 1;
        if c == 34 {
          return true, out;
        }
        if c == 92 {
          if pos >= |src| {
            return false, out;
          }
          var esc := src[pos];
          pos := pos + 1;
          if esc == 117 {
            var cp;
            ok, cp := ParseCodePoint();
            if !ok {
              return;
            }
            out := out + Utf8(cp);
            continue;
          }
          var decoded := Unescape(esc);
          if decoded < 0 {
            return false, out;
          }
          c := decoded;
        } else if c < 32 {
          return false, out;
        }
        out := out + [c];
      }
      return false, out;
    }

    method Digits()
      requires Valid()
      modifies this
      ensures Valid() && pos == SkipDigits(src, old(pos))
    {
      while pos < |src| && IsDigit(src[pos])
        invariant pos <= |src| && SkipDigits(src, pos) == SkipDigits(src, old(pos))
      {
        pos := pos + 1;
      }
    }

    method ParseIntPart() returns (ok: bool)
      requires Valid()
      modifies this
      ensures Agrees(IntPart(src, old(pos)), ok, ())
    {
      hide SkipDigits;
      if pos < |src| && src[pos] == 45 {
        pos := pos + 1;
      }
      if pos >= |src| {
        return false;
      }
      if src[pos] == 48 {
        pos := pos + 1;
        return !(pos < |src| && IsDigit(src[pos]));
      }
      if !IsDigit(src[pos]) {
        return false;
      }
      Digits();
      return true;
    }

    method ParseFracPart() returns (ok: bool, hasFrac: bool)
      requires Valid()
      modifies this
      ensures Agrees(FracPart(src, old(pos)), ok, hasFrac)
    {
      hide SkipDigits;
      ok, hasFrac := true, false;
      if pos < |src| && src[pos] == 46 {
        hasFrac := true;
        pos := pos + 1;
        if pos >= |src| || !IsDigit(src[pos]) {
          return false, hasFrac;
        }
        Digits();
      }
    }

    method ParseExpPart() returns (ok: bool, hasExp: bool)
      requires Valid()
      modifies this
      ensures Agrees(ExpPart(src, old(pos)), ok, hasExp)
    {
      hide SkipDigits;
      ok, hasExp := true, false;
      if pos < |src| && (src[pos] == 101 || src[pos] == 69) {
        hasExp := true;
        pos := pos + 1;
        if pos < |src| && (src[pos] == 43 || src[pos] == 45) {
          pos := pos + 1;
        }
        if pos >= |src| || !IsDigit(src[pos]) {
          return false, hasExp;
        }
        Digits();
      }
    }

    method ParseNumberToken() returns (ok: bool, v: Tree)
      requires Valid()
      modifies this
      ensures Agrees(ParseNumber(src, old(pos)), ok, v)
    {
      hide NumberOf, IntPart, FracPart, ExpPart;
      v := Null;
      var start := pos;
      var hasFrac, hasExp;
      ok := ParseIntPart();
      if !ok {
        return;
      }
      ok, hasFrac := ParseFracPart();
      if !ok {
        return;
      }
      ok, hasExp := ParseExpPart();
      if ok {
        v := NumberOf(src[start..pos], !hasFrac && !hasExp);
      }
    }

    method ParseLiteral(lit: Bytes, v: Tree) returns (ok: bool, out: Tree)
      requires Valid() && lit != []
      modifies this
      ensures Agrees(Literal(src, old(pos), lit, v), ok, out)
    {
      out := v;
      if pos + |lit| > |src| || src[pos..pos + |lit|] != lit {
        return false, out;
      }
      pos := pos + |lit|;
      return true, out;
    }

    method ParseArray() returns (ok: bool, v: Tree)
      requires Valid() && pos < |src| && src[pos] == 91
      modifies this
      ensures Agrees(ParseValue(src, old(pos)), ok, v)
      decreases |src| - pos, 0
    {
      hide ParseValue, Skip;
      ghost var from := pos;
      ArrayValue(src, pos);
      pos := pos + 1;
      v := Null;
      SkipWs();
      ok := Consume(93);
      if ok {
        return true, Arr([]);
      }
      var elems: seq<Tree> := [];
      ghost var start := pos;
      while true
        invariant Valid() && start <= pos && from < pos && ParseElems(src, pos, elems) == ParseElems(src, start, [])
        decreases |src| - pos
      {
        var elem;
        ok, elem := ParseNext();
        if !ok {
          return;
        }
        elems := elems + [elem];
        SkipWs();
        ok := Consume(93);
        if ok {
          return true, Arr(elems);
        }
        ok := Consume(44);
        if !ok {
          return;
        }
        SkipWs();
      }
    }

    method ParseEntry() returns (ok: bool, key: Bytes, val: Tree)
      requires Valid()
      modifies this
      ensures Valid() && ok == EntryAt(src, old(pos)).Got?
      ensures ok ==> EntryAt(src, old(pos)) == Got(Entry(key, val), pos)
      decreases |src| - pos, 2
    {
      hide ParseValue, ParseString, Skip;
      val := Null;
      ok, key := ParseStringToken();
      if !ok {
        return;
      }
      SkipWs();
      ok := Consume(58);
      if !ok {
        return;
      }
      ok, val := ParseNext();
    }

    method ParseObject() returns (ok: bool, v: Tree)
      requires Valid() && pos < |src| && src[pos] == 123
      modifies this
      ensures Agrees(ParseValue(src, old(pos)), ok, v)
      decreases |src| - pos, 0
    {
      hide ParseValue, ParseEntries, EntryAt, Skip, SetEntry;
      ghost var from := pos;
      ObjectValue(src, pos);
      pos := pos + 1;
      v := Null;
      SkipWs();
      ok := Consume(125);
      if ok {
        return true, Obj([]);
      }
      var entries: seq<Entry> := [];
      ghost var start := pos;
      while true
        invariant Valid() && start <= pos && from < pos &&
                  ParseEntries(src, pos, entries) == ParseEntries(src, start, [])
        decreases |src| - pos
      {
        var key, val;
        EntryAtIs(src, pos, entries);
        ok, key, val := ParseEntry();
        if !ok {
          return;
        }
        entries := SetEntry(entries, key, val);
        SkipWs();
        ok := Consume(125);
        if ok {
          return true, Obj(entries);
        }
        ok := Consume(44);
        if !ok {
          return;
        }
        SkipWs();
      }
    }

    method ParseNext() returns (ok: bool, v: Tree)
      requires Valid()
      modifies this
      ensures Agrees(ParseValue(src, old(pos)), ok, v)
      decreases |src| - pos, 1
    {
      hide ParseString, ParseNumber, ParseElems, ParseEntries, Literal, Skip;
      LeadingSpace(src, pos);
      v := Null;
      SkipWs();
      if pos >= |src| {
        return false, v;
      }
      var c := src[pos];
      if c == 34 {
        var s;
        ok, s := ParseStringToken();
        v := Str(s);
      } else if c == 123 {
        ok, v := ParseObject();
      } else if c == 91 {
        ok, v := ParseArray();
      } else if c == 116 {
        ok, v := ParseLiteral([116, 114, 117, 101], Bool(true));
      } else if c == 102 {
        ok, v := ParseLiteral([102, 97, 108, 115, 101], Bool(false));
      } else if c == 110 {
        ok, v := ParseLiteral([110, 117, 108, 108], Null);
      } else if c == 45 || IsDigit(c) {
        ok, v := ParseNumberToken();
      } else {
        ok := false;
      }
    }
  }

  /** The value of the first k hexadecimal digits. */
  function HexPrefix(s: Bytes, i: nat, k: nat): int
    requires i + k <= |s|
  {
    if k == 0 then 0 else HexPrefix(s, i, k - 1) * 16 + Nibble(s[i + k - 1])
  }

  /** A key, a colon and a value. */
  function EntryAt(s: Bytes, i: nat): (r: Parsed<Entry>)
    requires i <= |s|
    ensures r.Got? ==> i < r.pos <= |s|
  {
    var k := ParseString(s, i);
    if k.Fail? then Fail
    else
      var c := Skip(s, k.pos);
      if c >= |s| || s[c] != 58 then Fail
      else
        var e := ParseValue(s, c + 1);
        if e.Fail? then Fail else Got(Entry(k.value, e.value), e.pos)
  }

  lemma EntryAtIs(s: Bytes, i: nat, acc: seq<Entry>)
    requires i <= |s|
    ensures EntryAt(s, i).Fail? ==> ParseEntries(s, i, acc).Fail?
    ensures EntryAt(s, i).Got? ==>
              ParseEntries(s, i, acc) == EntriesAfter(s,
                  SetEntry(acc, EntryAt(s, i).value.key, EntryAt(s, i).value.value), Skip(s, EntryAt(s, i).pos))
  {
    hide ParseString, ParseValue, Skip, SetEntry;
  }

  /** How an object goes on after one of its entries. */
  function EntriesAfter(s: Bytes, all: seq<Entry>, j: nat): Parsed<Tree>
    requires j <= |s|
  {
    if j < |s| && s[j] == 125 then Got(Obj(all), j + 1)
    else if j < |s| && s[j] == 44 then ParseEntries(s, Skip(s, j + 1), all)
    else Fail
  }

  lemma ArrayValue(s: Bytes, i: nat)
    requires i < |s| && s[i] == 91
    ensures var j := Skip(s, i + 1);
            ParseValue(s, i) == if j < |s| && s[j] == 93 then Got(Arr([]), j + 1) else ParseElems(s, j, [])
  {
    hide ParseElems;
    SkipStops(s, i, i);
  }

  lemma ObjectValue(s: Bytes, i: nat)
    requires i < |s| && s[i] == 123
    ensures var j := Skip(s, i + 1);
            ParseValue(s, i) == if j < |s| && s[j] == 125 then Got(Obj([]), j + 1) else ParseEntries(s, j, [])
  {
    hide ParseEntries;
    SkipStops(s, i, i);
  }

  /** json.parse. */
  method ParseText(text: Bytes) returns (ok: bool, v: Tree)
    ensures ok == Parse(text).Got? && (ok ==> v == Parse(text).value)
    ensures ok ==> exists it :: JsonGrammar.Writes(it, text, v)
    ensures forall it, w :: JsonGrammar.Writes(it, text, w) ==> ok && v == w
  {
    hide ParseValue, Skip, JsonGrammar.Writes;
    var p := new Parser(text);
    ok, v := p.ParseNext();
    if ok {
      p.SkipWs();
      ok := p.pos == |text|;
    }
    if ok { JsonGrammar.ParseExact(text, v); }
    forall it, w | JsonGrammar.Writes(it, text, w) ensures Parse(text).Got? && Parse(text).value == w {
      JsonGrammar.ParseExact(text, w);
    }
  }
}
