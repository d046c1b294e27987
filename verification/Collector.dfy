/** The stop-the-world collector: an intrusive list of all objects whose newborn prefix is black and
    whose old suffix is white, tri-colour marking with an explicit gray list, a sweep through the
    links, and an epoch flip in place of repainting. */
module Collector {
  datatype Color = White | Black | Gray

  datatype Val = Plain | Ref(o: Obj)

  /** A slot of a node pool; free slots carry the sentinel hash. */
  datatype Node = Node(free: bool, key: Val, value: Val)

  /** The fields of an object that the collector looks at, per object type. */
  datatype Body =
    | Str | Buffer | StructDef | NativeStructDef | NativeStruct | Process
    | Func(name: Obj?, constants: seq<Val>)
    | Native(name: Obj?)
    | Array(data: seq<Val>)
    | Map(nodes: seq<Node>)
    | Set(nodes: seq<Node>)
    | Class(name: Obj?, parent: Obj?, methods: Obj?, statics: Obj?, vtable: seq<Val>, operators: seq<Val>)
    | Instance(klass: Obj?, fields: seq<Val>)
    | Closure(func: Obj?, upvalues: seq<Obj?>)
    | Upvalue(closed: Val)
    | Fiber(stack: seq<Val>, frames: seq<Obj?>, open: seq<Obj?>, caller: Obj?, error: Obj?)
    | Struct(fields: seq<Val>)

  function RefOf(v: Val): Obj? { if v.Ref? then v.o else null }

  function RefsOf(vs: seq<Val>): (r: seq<Obj?>)
    ensures |r| == |vs| && forall i :: 0 <= i < |vs| ==> r[i] == RefOf(vs[i])
  {
    seq(|vs|, i requires 0 <= i < |vs| => RefOf(vs[i]))
  }

  /** Keys, and for maps values, of the occupied slots. */
  function NodeRefs(nodes: seq<Node>, values: bool): seq<Obj?> {
    if nodes == [] then []
    else (if nodes[0].free then [] else if values then [RefOf(nodes[0].key), RefOf(nodes[0].value)]
        else [RefOf(nodes[0].key)]) +
         NodeRefs(nodes[1..], values)
  }

  /** The references the collector follows out of an object, in the order it follows them. */
  function Kids(b: Body): seq<Obj?> {
    match b
    case Func(name, constants) => [name] + RefsOf(constants)
    case Native(name) => [name]
    case Array(data) => RefsOf(data)
    case Map(nodes) => NodeRefs(nodes, true)
    case Set(nodes) => NodeRefs(nodes, false)
    case Class(name, parent, methods, statics, vtable, operators) =>
      [name, parent, methods, statics] + RefsOf(vtable) + RefsOf(operators)
    case Instance(klass, fields) => [klass] + RefsOf(fields)
    case Closure(func, upvalues) => [func] + upvalues
    case Upvalue(closed) => [RefOf(closed)]
    case Fiber(stack, frames, open, caller, error) => RefsOf(stack) + frames + open + [caller, error]
    case Struct(fields) => RefsOf(fields)
    case _ => []
  }

  /** The value is a reference to the object. */
  predicate Is(v: Val, o: Obj) { v.Ref? && v.o == o }

  /** The object holds the other one: in which field, for each object type. */
  ghost predicate Holds(b: Body, o: Obj) {
    match b
    case Func(name, constants) => name == o || exists i :: 0 <= i < |constants| && Is(constants[i], o)
    case Native(name) => name == o
    case Array(data) => exists i :: 0 <= i < |data| && Is(data[i], o)
    case Map(nodes) =>
      exists i :: 0 <= i < |nodes| && !nodes[i].free && (Is(nodes[i].key, o) || Is(nodes[i].value, o))
    case Set(nodes) => exists i :: 0 <= i < |nodes| && !nodes[i].free && Is(nodes[i].key, o)
    case Class(name, parent, methods, statics, vtable, operators) =>
      name == o || parent == o || methods == o || statics == o ||
      (exists i :: 0 <= i < |vtable| && Is(vtable[i], o)) || exists i :: 0 <= i < |operators| && Is(operators[i], o)
    case Instance(klass, fields) => klass == o || exists i :: 0 <= i < |fields| && Is(fields[i], o)
    case Closure(func, upvalues) => func == o || exists i :: 0 <= i < |upvalues| && upvalues[i] == o
    case Upvalue(closed) => Is(closed, o)
    case Fiber(stack, frames, open, caller, error) =>
      (exists i :: 0 <= i < |stack| && Is(stack[i], o)) || (exists i :: 0 <= i < |frames| && frames[i] == o) ||
      (exists i :: 0 <= i < |open| && open[i] == o) || caller == o || error == o
    case Struct(fields) => exists i :: 0 <= i < |fields| && Is(fields[i], o)
    case Str | Buffer | StructDef | NativeStructDef | NativeStruct | Process => false
  }

  lemma RefsExact(vs: seq<Val>, o: Obj)
    ensures o in RefsOf(vs) <==> exists i :: 0 <= i < |vs| && Is(vs[i], o)
  {
    var r := RefsOf(vs);
    if o in r {
      var i :| 0 <= i < |r| && r[i] == o;
      assert Is(vs[i], o);
    }
    if i :| 0 <= i < |vs| && Is(vs[i], o) {
      assert r[i] == o;
    }
  }

  lemma {:induction false} NodesExact(nodes: seq<Node>, values: bool, o: Obj)
    ensures o in NodeRefs(nodes, values) <==>
            exists i :: 0 <= i < |nodes| && !nodes[i].free && (Is(nodes[i].key, o) || (values && Is(nodes[i].value, o)))
  {
    if nodes != [] {
      var rest := nodes[1..];
      NodesExact(rest, values, o);
      if i :| 0 <= i < |rest| && !rest[i].free && (Is(rest[i].key, o) || (values && Is(rest[i].value, o))) {
        assert nodes[i + 1] == rest[i];
      }
      if i :| 0 < i < |nodes| && !nodes[i].free && (Is(nodes[i].key, o) || (values && Is(nodes[i].value, o))) {
        assert rest[i - 1] == nodes[i];
      }
    }
  }

  /** The collector follows exactly the references that the object holds. */
  lemma KidsExact(b: Body, o: Obj)
    ensures o in Kids(b) <==> Holds(b, o)
  {
    hide RefsOf, NodeRefs;
    match b
    case Func(name, constants) => RefsExact(constants, o);
    case Array(data) => RefsExact(data, o);
    case Map(nodes) => NodesExact(nodes, true, o);
    case Set(nodes) => NodesExact(nodes, false, o);
    case Class(_, _, _, _, vtable, operators) =>
      RefsExact(vtable, o);
      RefsExact(operators, o);
    case Instance(_, fields) => RefsExact(fields, o);
    case Upvalue(closed) => assert o in [RefOf(closed)] <==> Is(closed, o);
    case Fiber(stack, _, _, _, _) => RefsExact(stack, o);
    case Struct(fields) => RefsExact(fields, o);
    case _ =>
  }

  class Obj {
    var color: Color
    var next: Obj?
    var body: Body

    constructor (color: Color, next: Obj?, body: Body)
      ensures this.color == color && this.next == next && this.body == body
    {
      this.color, this.next, this.body := color, next, body;
    }
  }

  // ---------------------------------------------------------------- reachability

  /** The references out of each listed object. */
  type Graph = map<Obj, seq<Obj?>>

  /** A path along references. */
  ghost predicate Path(g: Graph, older p: seq<Obj>) {
    p != [] && (forall i :: 0 <= i < |p| ==> p[i] in g) && forall i :: 0 < i < |p| ==> p[i] in g[p[i - 1]]
  }

  ghost predicate Reaches(g: Graph, roots: seq<Obj?>, older p: seq<Obj>, o: Obj) {
    Path(g, p) && p[0] in roots && p[|p| - 1] == o
  }

  ghost predicate Reachable(g: Graph, roots: seq<Obj?>, o: Obj) {
    exists p :: Reaches(g, roots, p, o)
  }

  /** References stay inside the graph. */
  ghost predicate Closed(g: Graph, roots: seq<Obj?>) {
    (forall r :: r in roots ==> r == null || r in g) &&
    (forall o, k :: o in g && k in g[o] ==> k == null || k in g)
  }

  lemma RootReachable(g: Graph, roots: seq<Obj?>, o: Obj)
    requires o in g && o in roots
    ensures Reachable(g, roots, o)
  {
    assert Reaches(g, roots, [o], o);
  }

  lemma KidReachable(g: Graph, roots: seq<Obj?>, o: Obj, k: Obj)
    requires Reachable(g, roots, o) && o in g && k in g[o] && k in g
    ensures Reachable(g, roots, k)
  {
    var p :| Reaches(g, roots, p, o);
    var q := p + [k];
    forall i | 0 < i < |q| ensures q[i] in g[q[i - 1]] {
      if i == |p| { assert q[i - 1] == o; }
    }
    assert Reaches(g, roots, q, k);
  }

  /** A set that has the roots and is closed under references has everything reachable. */
  lemma {:induction false} MarkedAll(g: Graph, roots: seq<Obj?>, marked: set<Obj>, p: seq<Obj>)
    requires Path(g, p) && p[0] in roots
    requires (forall r: Obj :: r in roots ==> r in marked)
    requires forall o, k: Obj :: o in g && o in marked && k in g[o] ==> k in marked
    ensures p[|p| - 1] in marked
    decreases |p|
  {
    if |p| > 1 {
      MarkedAll(g, roots, marked, p[..|p| - 1]);
      assert p[|p| - 1] in g[p[|p| - 2]];
    }
  }

  /** The objects of a list that are reachable, in list order. */
  ghost function Live(list: seq<Obj>, g: Graph, roots: seq<Obj?>): seq<Obj> {
    if list == [] then []
    else
      var o := list[|list| - 1];
      Live(list[..|list| - 1], g, roots) + if Reachable(g, roots, o) then [o] else []
  }

  lemma {:induction false} LiveIn(list: seq<Obj>, g: Graph, roots: seq<Obj?>, o: Obj)
    ensures o in Live(list, g, roots) <==> o in list && Reachable(g, roots, o)
  {
    if list != [] {
      LiveIn(list[..|list| - 1], g, roots, o);
    }
  }

  /** Dropping unreachable objects changes nothing about what is reachable. */
  lemma LiveReachable(g: Graph, g': Graph, roots: seq<Obj?>, o: Obj)
    requires Closed(g, roots) && g'.Keys <= g.Keys && (forall x :: x in g' ==> g'[x] == g[x])
    requires forall x :: x in g ==> (x in g' <==> Reachable(g, roots, x))
    ensures Reachable(g', roots, o) <==> Reachable(g, roots, o)
  {
    if Reachable(g', roots, o) {
      var p :| Reaches(g', roots, p, o);
      assert Reaches(g, roots, p, o);
    }
    if Reachable(g, roots, o) {
      var p :| Reaches(g, roots, p, o);
      forall i | 0 <= i < |p| ensures p[i] in g' {
        PrefixReachable(g, roots, p, i);
      }
      assert Reaches(g', roots, p, o);
    }
  }

  lemma PrefixReachable(g: Graph, roots: seq<Obj?>, p: seq<Obj>, i: nat)
    requires Path(g, p) && p[0] in roots && i < |p|
    ensures Reachable(g, roots, p[i])
  {
    assert Reaches(g, roots, p[..i + 1], p[i]);
  }

  lemma {:induction false} LiveAll(list: seq<Obj>, g: Graph, roots: seq<Obj?>)
    requires forall o :: o in list ==> Reachable(g, roots, o)
    ensures Live(list, g, roots) == list
  {
    if list != [] {
      LiveAll(list[..|list| - 1], g, roots);
    }
  }

  /** Collecting again without a change in between frees nothing. */
  lemma LiveTwice(list: seq<Obj>, g: Graph, g': Graph, roots: seq<Obj?>)
    requires Closed(g, roots) && g.Keys == (set o | o in list) && g'.Keys == (set o | o in Live(list, g, roots))
    requires forall o :: o in g' && o in g ==> g'[o] == g[o]
    ensures Live(Live(list, g, roots), g', roots) == Live(list, g, roots)
  {
    forall o ensures o in g' <==> o in g && Reachable(g, roots, o) {
      LiveIn(list, g, roots, o);
    }
    forall o | o in Live(list, g, roots) ensures Reachable(g', roots, o) {
      LiveIn(list, g, roots, o);
      LiveReachable(g, g', roots, o);
    }
    LiveAll(Live(list, g, roots), g', roots);
  }

  // ---------------------------------------------------------------- the list

  ghost predicate Distinct(list: seq<Obj>) {
    forall i, j :: 0 <= i < j < |list| ==> list[i] != list[j]
  }

  ghost function At(list: seq<Obj>, i: nat): Obj? {
    if i < |list| then list[i] else null
  }

  /** The objects are linked in list order. */
  ghost predicate Linked(list: seq<Obj>, head: Obj?)
    reads set o | o in list :: o`next
  {
    head == At(list, 0) && forall i :: 0 <= i < |list| ==> assert list[i] in list; list[i].next == At(list, i + 1)
  }

  ghost function GraphOf(list: seq<Obj>): Graph
    reads set o | o in list :: o`body
  {
    map o | o in list :: Kids(o.body)
  }

  /** A black prefix and a white rest. */
  ghost predicate Painted(list: seq<Obj>, newborn: nat, black: Color, white: Color)
    reads set o | o in list :: o`color
  {
    newborn <= |list| && (forall i :: 0 <= i < newborn ==> assert list[i] in list; list[i].color == black) &&
    forall i :: newborn <= i < |list| ==> assert list[i] in list; list[i].color == white
  }

  lemma Prepend(obj: Obj, list: seq<Obj>, head: Obj?, newborn: nat, black: Color, white: Color)
    requires Distinct(list) && Linked(list, head) && Painted(list, newborn, black, white) && obj !in list
    requires obj.next == head && obj.color == black
    ensures Distinct([obj] + list) && Linked([obj] + list, obj) && Painted([obj] + list, newborn + 1, black, white)
    ensures At([obj] + list, newborn + 1) == At(list, newborn)
  {
    var more := [obj] + list;
    assert forall i :: 0 < i < |more| ==> more[i] == list[i - 1];
  }

  lemma PrependGraph(obj: Obj, list: seq<Obj>, roots: seq<Obj?>, freed: set<Obj>)
    requires Closed(GraphOf(list), roots) && obj !in list &&
             (forall k :: k in Kids(obj.body) ==> k == null || k in list)
    requires obj !in freed && forall o :: o in list ==> o !in freed
    ensures Closed(GraphOf([obj] + list), roots) && forall o :: o in [obj] + list ==> o !in freed
  {
    hide Closed, Kids;
    ClosedGrows(GraphOf(list), GraphOf([obj] + list), roots, obj);
  }

  lemma ClosedGrows(g: Graph, g': Graph, roots: seq<Obj?>, obj: Obj)
    requires Closed(g, roots) && g'.Keys == g.Keys + {obj} && (forall o :: o in g && o != obj ==> g'[o] == g[o])
    requires forall k :: k in g'[obj] ==> k == null || k in g
    ensures Closed(g', roots)
  {
    forall o, k | o in g' && k in g'[o] ensures k == null || k in g' {
      if o != obj { assert k in g[o]; }
    }
  }

  ghost function ColorsOf(list: seq<Obj>): map<Obj, Color>
    reads set o | o in list :: o`color
  {
    map o | o in list :: o.color
  }

  /** The objects of a list that do not have the given color, in list order. */
  ghost function Without(list: seq<Obj>, colors: map<Obj, Color>, white: Color): seq<Obj> {
    if list == [] then []
    else
      var o := list[|list| - 1];
      Without(list[..|list| - 1], colors, white) + if o in colors && colors[o] == white then [] else [o]
  }

  /** What marking has found so far is reachable, and nothing behind a black object is missed. */
  ghost predicate Progress(g: Graph, roots: seq<Obj?>, marked: set<Obj>, blacks: set<Obj>) {
    (forall o :: o in marked ==> Reachable(g, roots, o)) &&
    (forall o: Obj :: o in roots ==> o in marked) &&
    forall o, k: Obj :: o in blacks && o in g && k in g[o] ==> k in marked
  }

  /** When no object is gray any more, the marked objects are the reachable ones. */
  lemma MarkedIsReachable(g: Graph, roots: seq<Obj?>, marked: set<Obj>)
    requires Closed(g, roots) && Progress(g, roots, marked, marked) && marked <= g.Keys
    ensures forall o :: o in g ==> (o in marked <==> Reachable(g, roots, o))
  {
    forall o | o in g && Reachable(g, roots, o) ensures o in marked {
      var p :| Reaches(g, roots, p, o);
      MarkedAll(g, roots, marked, p);
    }
  }

  lemma {:induction false} WithoutIsLive(list: seq<Obj>, colors: map<Obj, Color>, white: Color, g: Graph,
        roots: seq<Obj?>)
    requires forall o :: o in list ==> o in colors && (colors[o] != white <==> Reachable(g, roots, o))
    ensures Without(list, colors, white) == Live(list, g, roots)
  {
    if list != [] {
      WithoutIsLive(list[..|list| - 1], colors, white, g, roots);
    }
  }

  /** What is reachable refers only to what is reachable. */
  lemma LiveClosed(list: seq<Obj>, g: Graph, roots: seq<Obj?>, g': Graph)
    requires Closed(g, roots) && g.Keys == (set o | o in list) && g'.Keys == (set o | o in Live(list, g, roots))
    requires forall o :: o in g' && o in g ==> g'[o] == g[o]
    ensures Closed(g', roots)
  {
    forall r: Obj | r in roots ensures r in g' {
      RootReachable(g, roots, r);
      LiveIn(list, g, roots, r);
    }
    forall o, k: Obj | o in g' && k in g'[o] ensures k in g' {
      LiveIn(list, g, roots, o);
      KidReachable(g, roots, o, k);
      LiveIn(list, g, roots, k);
    }
  }

  lemma RootsListed(g: Graph, roots: seq<Obj?>)
    requires Closed(g, roots)
    ensures forall r: Obj :: r in roots ==> r in g
  {
  }

  lemma RootsProgress(g: Graph, roots: seq<Obj?>, marked: set<Obj>)
    requires Closed(g, roots) && marked == set r: Obj | r in roots
    ensures Progress(g, roots, marked, {})
  {
    forall o | o in marked ensures Reachable(g, roots, o) {
      RootReachable(g, roots, o);
    }
  }

  lemma KidsListed(g: Graph, roots: seq<Obj?>, obj: Obj)
    requires Closed(g, roots) && obj in g
    ensures forall k: Obj :: k in g[obj] ==> k in g
  {
  }

  /** What a listed object holds is listed. */
  lemma HeldListed(list: seq<Obj>, roots: seq<Obj?>, o: Obj, k: Obj)
    requires Closed(GraphOf(list), roots) && o in list && Holds(o.body, k)
    ensures k in list
  {
    hide Kids, Holds;
    KidsExact(o.body, k);
    KidsListed(GraphOf(list), roots, o);
    assert k in GraphOf(list)[o];
  }

  lemma Progresses(g: Graph, roots: seq<Obj?>, marked: set<Obj>, blacks: set<Obj>, obj: Obj, marked': set<Obj>)
    requires Closed(g, roots) && Progress(g, roots, marked, blacks) && obj in marked && obj in g
    requires marked' == marked + set k: Obj | k in g[obj]
    ensures Progress(g, roots, marked', blacks + {obj})
  {
    forall o | o in marked' ensures Reachable(g, roots, o) {
      if o !in marked { KidReachable(g, roots, obj, o); }
    }
  }

  lemma FewerLeft(all: set<Obj>, s: set<Obj>, t: set<Obj>)
    requires s < t <= all
    ensures |all - t| < |all - s|
  {
    assert all - s == (all - t) + (t - s);
    assert t - s != {};
  }

  lemma SplitAt(kept: seq<Obj>, all: seq<Obj>, i: nat)
    requires i < |all|
    ensures kept + all[i..] == kept + [all[i]] + all[i + 1..]
  {
  }

  lemma HeadIs(list: seq<Obj>, head: Obj?)
    requires Linked(list, head)
    ensures head == At(list, 0)
  {
  }

  lemma NextIs(pre: seq<Obj>, o: Obj, post: seq<Obj>, head: Obj?)
    requires Linked(pre + [o] + post, head)
    ensures o.next == At(post, 0)
  {
    var all := pre + [o] + post;
    assert all[|pre|] == o;
    assert post != [] ==> all[|pre| + 1] == post[0];
  }

  lemma DistinctWithout(pre: seq<Obj>, o: Obj, post: seq<Obj>)
    requires Distinct(pre + [o] + post)
    ensures Distinct(pre + post)
  {
    var was, now := pre + [o] + post, pre + post;
    forall i, j | 0 <= i < j < |now| ensures now[i] != now[j] {
      assert now[i] == was[if i < |pre| then i else i + 1] && now[j] == was[if j < |pre| then j else j + 1];
    }
  }

  lemma NoneWithout(colors: map<Obj, Color>, white: Color)
    ensures Without([], colors, white) == []
  {
  }

  lemma WithoutSnoc(list: seq<Obj>, i: nat, colors: map<Obj, Color>, white: Color)
    requires i < |list| && list[i] in colors
    ensures Without(list[..i + 1], colors, white) == Without(list[..i], colors,
            white) + if colors[list[i]] == white then [] else [list[i]]
  {
    assert list[..i + 1][..i] == list[..i];
  }

  class Gc {
    var objects: Obj?
    var firstOld: Obj?
    var grayList: seq<Obj>
    var white: Color
    var black: Color
    var roots: seq<Obj?>
    ghost var list: seq<Obj>
    ghost var newborn: nat
    ghost var freed: set<Obj>

    ghost predicate Colors()
      reads this
    {
      white != black && white != Gray && black != Gray
    }

    /** Newborns are black and come first; everything behind them is white. */
    ghost predicate Valid()
      reads this, list
    {
      Colors() && Distinct(list) && Linked(list, objects) && Painted(list, newborn, black, white) &&
      firstOld == At(list, newborn) &&
      Closed(GraphOf(list), roots) && forall o :: o in list ==> o !in freed
    }

    constructor ()
      ensures Valid() && list == [] && roots == [] && freed == {}
    {
      objects, firstOld, grayList, white, black := null, null, [], Color.White, Color.Black;
      roots, list, newborn, freed := [], [], 0, {};
    }

    // -------------------------------------------------------------- the mutator

    /** A new object is prepended, black. */
    method Alloc(body: Body) returns (obj: Obj)
      requires Valid() && forall k :: k in Kids(body) ==> k == null || k in list
      modifies this
      ensures Valid() && fresh(obj) && list == [obj] + old(list) && roots == old(roots) &&
              newborn == old(newborn) + 1 && freed == old(freed)
      ensures obj.body == body && obj.color == black
    {
      ghost var was := list;
      obj := new Obj(black, objects, body);
      objects := obj;
      list := [obj] + list;
      newborn := newborn + 1;
      hide Closed, Kids, Linked, Painted, Distinct, GraphOf, At;
      Prepend(obj, was, obj.next, newborn - 1, black, white);
      PrependGraph(obj, was, roots, freed);
    }

    /** The program stores into an object. */
    method Store(obj: Obj, body: Body)
      requires Valid() && obj in list && forall k :: k in Kids(body) ==> k == null || k in list
      modifies obj`body
      ensures Valid() && obj.body == body
    {
      obj.body := body;
      hide Closed, Kids;
      ClosedGrows(old(GraphOf(list)), GraphOf(list), roots, obj);
    }

    /** The program's stacks and globals change. */
    method SetRoots(refs: seq<Obj?>)
      requires Valid() && forall r :: r in refs ==> r == null || r in list
      modifies `roots
      ensures Valid() && roots == refs
    {
      roots := refs;
    }

    // -------------------------------------------------------------- marking

    /** During marking: the gray list holds exactly the gray objects, once each. */
    ghost predicate Marking()
      reads this, list
    {
      Colors() && (forall o :: o in list ==> o.color == white || o.color == Gray || o.color == black) &&
      Distinct(grayList) && (forall o :: o in grayList ==> o in list && o.color == Gray) &&
      forall o :: o in list && o.color == Gray ==> o in grayList
    }

    ghost function Marked(): set<Obj>
      reads `list, `white, set o | o in list :: o`color
    {
      set o | o in list && o.color != white
    }

    ghost function Blacks(): set<Obj>
      reads `list, `black, set o | o in list :: o`color
    {
      set o | o in list && o.color == black
    }

    method MarkObj(obj: Obj?)
      requires Marking() && (obj != null ==> obj in list)
      modifies `grayList, set o | o in list :: o`color
      ensures Marking() && Blacks() == old(Blacks())
      ensures Marked() == old(Marked()) + if obj == null then {} else {obj}
    {
      if obj == null || obj.color != white {
        return;
      }
      obj.color := Gray;
      grayList := grayList + [obj];
    }

    method MarkAll(refs: seq<Obj?>)
      requires Marking() && forall k: Obj :: k in refs ==> k in list
      modifies `grayList, set o | o in list :: o`color
      ensures Marking() && Blacks() == old(Blacks())
      ensures Marked() == old(Marked()) + set k: Obj | k in refs
    {
      var i := 0;
      while i < |refs|
        invariant 0 <= i <= |refs| && Marking() && Blacks() == old(Blacks())
        invariant Marked() == old(Marked()) + set k: Obj | k in refs[..i]
      {
        assert refs[..i + 1] == refs[..i] + [refs[i]];
        MarkObj(refs[i]);
        i := i + 1;
      }
      assert refs[..i] == refs;
    }

    /** Every object allocated since the last collection is repainted; the old ones are white already. */
    method WhitenNewborns()
      requires Valid()
      modifies set o | o in list :: o`color
      ensures forall o :: o in list ==> o.color == white
    {
      hide Closed, GraphOf;
      var o := objects;
      ghost var i := 0;
      while o != null && o != firstOld
        invariant 0 <= i <= newborn && o == At(list, i)
        invariant forall j :: 0 <= j < i ==> list[j].color == white
        invariant forall j :: newborn <= j < |list| ==> list[j].color == white
        decreases |list| - i
      {
        assert o == list[i] && o in list;
        o.color := white;
        o := o.next;
        i := i + 1;
      }
    }

    /** A gray object turns black and its references are marked. */
    method Blacken(obj: Obj)
      requires Colors() && obj in list && obj.color == Gray && Distinct(grayList)
      requires forall o :: o in list ==> o.color == white || o.color == Gray || o.color == black
      requires (forall o :: o in grayList ==> o in list && o.color == Gray && o != obj) && forall o ::
               o in list && o.color == Gray && o != obj ==> o in grayList
      requires forall k: Obj :: k in Kids(obj.body) ==> k in list
      modifies `grayList, set o | o in list :: o`color
      ensures Marking() && Blacks() == old(Blacks()) + {obj}
      ensures Marked() == old(Marked()) + set k: Obj | k in Kids(obj.body)
    {
      obj.color := black;
      MarkAll(Kids(obj.body));
    }

    ghost predicate Tracing(g: Graph)
      reads this, list
    {
      Marking() && g == GraphOf(list) && Closed(g, roots) && Progress(g, roots, Marked(), Blacks())
    }

    /** One object off the gray list. */
    method TraceOnce(ghost g: Graph)
      requires Tracing(g) && |grayList| > 0
      modifies `grayList, set o | o in list :: o`color
      ensures Tracing(g)
      ensures var obj := old(grayList)[|old(grayList)| - 1];
              obj in list && obj !in old(Blacks()) && Blacks() == old(Blacks()) + {obj}
    {
      hide Progress, Closed, Kids;
      var obj := grayList[|grayList| - 1];
      ghost var gray := grayList;
      grayList := grayList[..|grayList| - 1];
      assert forall o :: o in gray ==> o == obj || o in grayList;
      assert obj in gray;
      KidsListed(g, roots, obj);
      assert g[obj] == Kids(obj.body);
      Blacken(obj);
      assert GraphOf(list) == g;
      Progresses(g, roots, old(Marked()), old(Blacks()), obj, Marked());
    }

    method Trace(ghost g: Graph)
      requires Tracing(g)
      modifies `grayList, set o | o in list :: o`color
      ensures Tracing(g) && grayList == []
    {
      hide Tracing;
      ghost var all := set o | o in list;
      while |grayList| > 0
        invariant Tracing(g) && Blacks() <= all
        decreases |all - Blacks()|
      {
        ghost var blacks := Blacks();
        TraceOnce(g);
        FewerLeft(all, blacks, Blacks());
      }
    }

    // -------------------------------------------------------------- sweeping

    /** Takes dead out from between pre and post. */
    method Unlink(prev: Obj?, dead: Obj, ghost pre: seq<Obj>, ghost post: seq<Obj>)
      requires Distinct(pre + [dead] + post) && Linked(pre + [dead] + post, objects)
      requires prev == if pre == [] then null else pre[|pre| - 1]
      modifies `objects, set o | o in pre :: o`next
      ensures Linked(pre + post, objects)
    {
      ghost var was, now := pre + [dead] + post, pre + post;
      assert was[|pre|] == dead && dead.next == At(was, |pre| + 1);
      if prev == null {
        objects := dead.next;
      } else {
        assert prev in pre && was[|pre| - 1] == prev;
        prev.next := dead.next;
      }
      forall j | 0 <= j < |now| ensures now[j].next == At(now, j + 1) {
        if j < |pre| {
          assert now[j] == was[j];
          assert j < |pre| - 1 ==> now[j] != prev;
        } else {
          assert now[j] == was[j + 1];
          assert pre != [] ==> was[j + 1] != was[|pre| - 1];
        }
      }
    }

    /** Unlinks every white object; prev is the last survivor so far. */
    method Sweep()
      requires Distinct(list) && Linked(list, objects) && forall o :: o in list ==> o !in freed
      modifies `objects, `list, `freed, set o | o in list :: o`next
      ensures list == old(Without(list, ColorsOf(list), white)) && Distinct(list) && Linked(list, objects)
      ensures freed == old(freed) + set o | o in old(list) && o.color == white
    {
      hide Distinct, Linked, Without;
      ghost var all, i, colors := list, 0, ColorsOf(list);
      NoneWithout(colors, white);
      ghost var kept: seq<Obj> := [];
      var prev: Obj?, cur := null, objects;
      assert [] + all[0..] == all;
      HeadIs(all, objects);
      while cur != null
        invariant 0 <= i <= |all| && cur == At(all, i) && kept == Without(all[..i], colors, white)
        invariant prev == (if kept == [] then null else kept[|kept| - 1])
        invariant Distinct(kept + all[i..]) && Linked(kept + all[i..], objects)
        invariant forall o :: o in kept ==> o in all
        invariant list == all && freed == old(freed)
        decreases |all| - i
      {
        ghost var post := all[i + 1..];
        SplitAt(kept, all, i);
        WithoutSnoc(all, i, colors, white);
        NextIs(kept, cur, post, objects);
        if cur.color == white {
          var dead := cur;
          cur := dead.next;
          DistinctWithout(kept, dead, post);
          Unlink(prev, dead, kept, post);
        } else {
          prev := cur;
          kept := kept + [cur];
          cur := cur.next;
        }
        i := i + 1;
        assert all[i..] == post;
      }
      assert all[..i] == all && kept + all[i..] == kept;
      list := kept;
      freed := freed + set o | o in all && o.color == white;
    }

    // -------------------------------------------------------------- the collection

    ghost predicate AllWhite()
      reads this, list
    {
      Colors() && forall o :: o in list ==> o.color == white
    }

    /** Marks everything reachable from the roots. */
    method Mark(ghost g: Graph)
      requires AllWhite() && g == GraphOf(list) && Closed(g, roots)
      modifies `grayList, set o | o in list :: o`color
      ensures Colors() && g == GraphOf(list)
      ensures forall o :: o in list ==>
                (o.color == white || o.color == black) && (o.color != white <==> Reachable(g, roots, o))
    {
      hide Closed, Kids;
      grayList := [];
      assert Marking() && Marked() == {} && Blacks() == {};
      RootsListed(g, roots);
      MarkAll(roots);
      RootsProgress(g, roots, Marked());
      Trace(g);
      assert Blacks() == Marked();
      MarkedIsReachable(g, roots, Marked());
      assert forall o :: o in list ==> (o.color != white <==> o in Marked());
    }

    /** White and black change roles: the survivors are old, and white without being touched. */
    method FlipEpoch()
      requires Colors() && Distinct(list) && Linked(list, objects) && Closed(GraphOf(list), roots)
      requires forall o :: o in list ==> o.color == black && o !in freed
      modifies `white, `black, `firstOld, `newborn
      ensures Valid() && newborn == 0 && white == old(black) && black == old(white)
    {
      hide Closed, Kids, Distinct;
      var tmp := white;
      white := black;
      black := tmp;
      firstOld := objects;
      newborn := 0;
    }

    /** Marking and sweeping: the list keeps exactly the reachable objects, all of them black. */
    method MarkAndSweep(ghost g: Graph)
      requires AllWhite() && g == GraphOf(list) && Closed(g, roots)
      requires Distinct(list) && Linked(list, objects) && forall o :: o in list ==> o !in freed
      modifies `grayList, `objects, `list, `freed, list
      ensures Distinct(list) && Linked(list, objects) && list == Live(old(list), g, roots)
      ensures forall o :: o in old(list) ==> o.body == old(o.body)
      ensures forall o :: o in list ==> o in old(list) && o.color == black
      ensures freed == old(freed) + set o | o in old(list) && !Reachable(g, roots, o)
    {
      hide Closed, Kids, Distinct, Linked, Reachable;
      ghost var all := list;
      Mark(g);
      WithoutIsLive(list, ColorsOf(list), white, g, roots);
      Sweep();
      forall o | o in list ensures o in all && Reachable(g, roots, o) {
        LiveIn(all, g, roots, o);
      }
    }

    /** Frees exactly the unreachable objects and keeps the others in list order. */
    method Collect()
      requires Valid()
      modifies this, list
      ensures Valid() && newborn == 0 && roots == old(roots) && white == old(black) && black == old(white)
      ensures list == Live(old(list), old(GraphOf(list)), roots)
      ensures freed == old(freed) + set o | o in old(list) && !Reachable(old(GraphOf(list)), roots, o)
      ensures forall o :: o in old(list) ==> o.body == old(o.body)
      ensures forall o, k :: o in list && Holds(o.body, k) ==> k in list && k !in freed
    {
      hide Closed, Kids, Distinct, Linked, Reachable, Live, Holds;
      ghost var g, all := GraphOf(list), list;
      WhitenNewborns();
      MarkAndSweep(g);
      forall o | o in list ensures o !in freed {
        LiveIn(all, g, roots, o);
      }
      LiveClosed(all, g, roots, GraphOf(list));
      FlipEpoch();
      forall o, k | o in list && Holds(o.body, k) ensures k in list {
        HeldListed(list, roots, o, k);
      }
    }
  }

  /** A second collection in a row frees nothing more. */
  method CollectTwice(gc: Gc)
    requires gc.Valid()
    modifies gc, gc.list
    ensures gc.Valid() && gc.list == Live(old(gc.list), old(GraphOf(gc.list)), gc.roots)
    ensures gc.freed == old(gc.freed) + set o | o in old(gc.list) && !Reachable(old(GraphOf(gc.list)), gc.roots, o)
  {
    hide Closed, Kids, Distinct, Linked, Reachable, Live;
    ghost var all, g := gc.list, GraphOf(gc.list);
    assert Closed(g, gc.roots);
    gc.Collect();
    ghost var once, g' := gc.list, GraphOf(gc.list);
    forall o: Obj ensures o in once <==> o in all && Reachable(g, gc.roots, o) { LiveIn(all, g, gc.roots, o); }
    forall o | o in once ensures Reachable(g', gc.roots, o) { LiveReachable(g, g', gc.roots, o); }
    LiveTwice(all, g, g', gc.roots);
    assert forall i :: 0 <= i < |gc.list| ==> gc.list[i] in old(gc.list);
    gc.Collect();
  }
}
