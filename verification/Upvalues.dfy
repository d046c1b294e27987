/** Open upvalues: a linked list of the captured stack slots of a fiber, highest slot first, and their
    closing when the slots go away. */
module Upvalues {
  datatype Value = Nil | Number(n: int)

  /** A captured variable: its stack slot while open, its own storage once closed. */
  class Upvalue {
    var open: bool
    var slot: nat
    var closed: Value
    var next: Upvalue?

    constructor (slot: nat, closed: Value, next: Upvalue?)
      ensures open && this.slot == slot && this.closed == closed && this.next == next
    {
      open, this.slot, this.closed, this.next := true, slot, closed, next;
    }
  }

  predicate Descending(slots: seq<nat>) {
    forall i, j :: 0 <= i < j < |slots| ==> slots[i] > slots[j]
  }

  /** How many slots at the front are at or above a bound. */
  function Above(slots: seq<nat>, bound: nat): (n: nat)
    ensures n <= |slots| && (forall k :: 0 <= k < n ==> slots[k] >= bound) && (n < |slots| ==> slots[n] < bound)
  {
    if slots == [] || slots[0] < bound then 0 else 1 + Above(slots[1..], bound)
  }

  lemma {:induction false} AboveIs(slots: seq<nat>, bound: nat, n: nat)
    requires n <= |slots| && (forall k :: 0 <= k < n ==> slots[k] >= bound) && (n < |slots| ==> slots[n] < bound)
    ensures Above(slots, bound) == n
  {
    if n > 0 { AboveIs(slots[1..], bound, n - 1); }
  }

  /** In a descending list the front part is everything at or above the bound. */
  lemma AboveIsAll(slots: seq<nat>, bound: nat)
    requires Descending(slots)
    ensures forall k :: 0 <= k < |slots| ==> (slots[k] >= bound <==> k < Above(slots, bound))
  {
  }

  function FirstOf(l: seq<Upvalue>): Upvalue? { if l == [] then null else l[0] }

  function NextOf(l: seq<Upvalue>, i: nat): Upvalue? { if i + 1 < |l| then l[i + 1] else null }

  /** Open upvalues for these slots, linked in this order from a head. */
  ghost predicate Linked(head: Upvalue?, l: seq<Upvalue>, slots: seq<nat>)
    reads l
    requires |l| == |slots|
  {
    head == FirstOf(l) && (forall i, j :: 0 <= i < j < |l| ==> l[i] != l[j]) &&
    (forall i :: 0 <= i < |l| ==> l[i].open && l[i].slot == slots[i]) &&
    forall i :: 0 <= i < |l| ==> l[i].next == NextOf(l, i)
  }

  function Put<T>(s: seq<T>, i: nat, x: T): (r: seq<T>)
    requires i <= |s|
    ensures |r| == |s| + 1
  {
    s[..i] + [x] + s[i..]
  }

  lemma PutAt<T>(s: seq<T>, i: nat, x: T, k: nat)
    requires i <= |s| && k <= |s|
    ensures Put(s, i, x)[k] == if k < i then s[k] else if k == i then x else s[k - 1]
  {
  }

  /** The list with u put in at position i, once the pointers are set. */
  lemma InsertLinked(head: Upvalue?, was: seq<Upvalue>, at: seq<nat>, i: nat, u: Upvalue, local: nat)
    requires |was| == |at| && i <= |was| && u !in was && (forall a, b :: 0 <= a < b < |was| ==> was[a] != was[b])
    requires forall k :: 0 <= k < |was| ==> was[k].open && was[k].slot == at[k]
    requires forall k :: 0 <= k < |was| ==> was[k].next == if k + 1 == i then u else NextOf(was, k)
    requires u.open && u.slot == local && u.next == (if i < |was| then was[i] else null) && head == if i == 0 then u
             else FirstOf(was)
    ensures Linked(head, Put(was, i, u), Put(at, i, local))
  {
    hide Put;
    var l, t := Put(was, i, u), Put(at, i, local);
    PutAt(was, i, u, 0);
    forall k | 0 <= k < |l| ensures l[k].open && l[k].slot == t[k] && l[k].next == NextOf(l, k) {
      PutAt(was, i, u, k);
      PutAt(at, i, local, k);
      if k < |was| { PutAt(was, i, u, k + 1); }
    }
    forall a, b | 0 <= a < b < |l| ensures l[a] != l[b] {
      PutAt(was, i, u, a);
      PutAt(was, i, u, b);
    }
  }

  lemma InsertDescends(at: seq<nat>, i: nat, local: nat)
    requires Descending(at) && i <= |at| && (forall k :: 0 <= k < i ==> at[k] > local) && (i < |at| ==> at[i] < local)
    ensures Descending(Put(at, i, local)) && Above(at, local) == i && local !in at
  {
    AboveIs(at, local, i);
  }

  lemma BelowStack(at: seq<nat>, i: nat, local: nat, n: nat)
    requires i <= |at| && local < n && AllBelow(at, n)
    ensures AllBelow(Put(at, i, local), n)
  {
  }

  predicate AllBelow(slots: seq<nat>, n: nat) {
    forall k :: 0 <= k < |slots| ==> slots[k] < n
  }

  lemma PutAbove(at: seq<nat>, i: nat, local: nat)
    requires i <= |at| && forall k :: 0 <= k < i ==> at[k] > local
    ensures Above(Put(at, i, local), local + 1) == i && Put(at, i, local)[i] == local
  {
    AboveIs(Put(at, i, local), local + 1, i);
  }

  class Fiber {
    const stack: array<Value>
    var openUpvalues: Upvalue?
    /** The open list and its slots, front first. */
    ghost var list: seq<Upvalue>
    ghost var slots: seq<nat>

    /** The list is linked up, and its slots strictly descend. */
    ghost predicate Valid()
      reads this, list
    {
      |list| == |slots| && Descending(slots) && AllBelow(slots, stack.Length) &&
      Linked(openUpvalues, list, slots)
    }

    /** What reading a variable through its upvalue gives. */
    function See(u: Upvalue): Value
      reads this, stack, u
    {
      if u.open && u.slot < stack.Length then stack[u.slot] else u.closed
    }

    constructor (size: nat)
      ensures Valid() && list == [] && fresh(stack) && stack.Length == size
    {
      stack := new Value[size](_ => Nil);
      openUpvalues := null;
      list, slots := [], [];
    }

    /** The program assigns to a local. */
    method SetSlot(i: nat, v: Value)
      requires Valid() && i < stack.Length
      modifies stack
      ensures Valid() && stack[..] == old(stack[..])[i := v]
      ensures forall k :: 0 <= k < |list| ==> See(list[k]) == if slots[k] == i then v else old(See(list[k]))
    {
      stack[i] := v;
    }

    /** The upvalue of a stack slot: the open one it already has, or a new one put in its place in the order. */
    method Capture(local: nat) returns (u: Upvalue)
      requires Valid() && local < stack.Length
      modifies this`openUpvalues, this`list, this`slots, list
      ensures Valid() && u.open && u.slot == local && At(u, local)
      ensures local in old(slots) ==> u in old(list) && list == old(list) && slots == old(slots)
      ensures local !in old(slots) ==> fresh(u) && Inserted(old(list), old(slots), u, local)
      ensures forall k :: 0 <= k < |old(list)| ==>
                old(list)[k].open && old(list)[k].slot == old(slots)[k] && old(list)[k].closed == old(list[k].closed)
    {
      hide Descending, Above, Linked, Put, AllBelow;
      AllOpen();
      ghost var i;
      var prev, upval;
      prev, upval, i := Search(local);
      if upval != null && upval.slot == local {
        AboveIs(slots, local + 1, i);
        return upval;
      }
      InsertDescends(slots, i, local);
      u := new Upvalue(local, Nil, upval);
      Insert(prev, u, i, local);
      PutAbove(old(slots), i, local);
      PutAt(old(list), i, u, i);
    }

    /** The upvalue is the list's one for the slot, after those above it. */
    ghost predicate At(u: Upvalue, local: nat)
      reads this
    {
      Above(slots, local + 1) < |list| == |slots| && list[Above(slots, local + 1)] == u &&
      slots[Above(slots, local + 1)] == local
    }

    /** The last upvalue above a slot, and the one after it. */
    method Search(local: nat) returns (prev: Upvalue?, upval: Upvalue?, ghost i: nat)
      requires Valid()
      ensures i <= |list| && upval == (if i < |list| then list[i] else null) &&
              prev == (if i == 0 then null else list[i - 1])
      ensures (forall k :: 0 <= k < i ==> slots[k] > local) && (i < |list| ==> slots[i] <= local)
    {
      hide Descending;
      prev := null;
      upval := openUpvalues;
      i := 0;
      while upval != null && upval.slot > local
        invariant i <= |list| && upval == (if i < |list| then list[i] else null)
        invariant prev == (if i == 0 then null else list[i - 1])
        invariant forall k :: 0 <= k < i ==> slots[k] > local
        decreases |list| - i
      {
        prev := upval;
        upval := upval.next;
        i := i + 1;
      }
    }

    /** Link a new upvalue in after prev. */
    method Insert(prev: Upvalue?, u: Upvalue, ghost i: nat, ghost local: nat)
      requires Valid() && i <= |list| && u !in list && u.open && u.slot == local < stack.Length
      requires u.next == (if i < |list| then list[i] else null) && prev == (if i == 0 then null else list[i - 1])
      requires Descending(Put(slots, i, local))
      modifies this`openUpvalues, this`list, this`slots, prev
      ensures Valid() && list == Put(old(list), i, u) && slots == Put(old(slots), i, local)
      ensures prev != null ==>
                prev.open == old(prev.open) && prev.slot == old(prev.slot) && prev.closed == old(prev.closed)
    {
      hide Descending, Linked, Put, AllBelow;
      Parts();
      ghost var was, at := list, slots;
      if prev != null {
        prev.next := u;
      } else {
        openUpvalues := u;
      }
      list, slots := Put(was, i, u), Put(at, i, local);
      InsertLinked(openUpvalues, was, at, i, u, local);
      BelowStack(at, i, local, stack.Length);
    }

    ghost predicate Inserted(was: seq<Upvalue>, at: seq<nat>, u: Upvalue, local: nat)
      reads this
      requires |was| == |at|
    {
      var i := Above(at, local);
      list == Put(was, i, u) && slots == Put(at, i, local)
    }

    /** Close every upvalue at or above a slot: each takes its variable's value along. */
    method Close(last: nat)
      requires Valid()
      modifies this`openUpvalues, this`list, this`slots, list
      ensures Valid() && list == old(list)[Above(old(slots), last)..] && slots == old(slots)[Above(old(slots), last)..]
      ensures forall k :: 0 <= k < |slots| ==> slots[k] < last
      ensures forall k :: 0 <= k < |old(list)| ==> old(list)[k].open == (k >= Above(old(slots), last))
      ensures forall k :: 0 <= k < |old(list)| ==> See(old(list)[k]) == old(See(list[k]))
    {
      hide Descending, Above, Linked;
      ghost var n := 0;
      ghost var was, at := list, slots;
      AllOpen();
      while openUpvalues != null && openUpvalues.slot >= last
        invariant n <= |was| == |at| && list == was[n..] && slots == at[n..] && Valid()
        invariant forall k :: 0 <= k < n ==> at[k] >= last
        invariant forall k :: 0 <= k < n ==> !was[k].open && was[k].closed == stack[at[k]]
        decreases |was| - n
      {
        Front();
        CloseFirst();
        n := n + 1;
      }
      Front();
      AllOpen();
      AboveIs(at, last, n);
      AboveIsAll(at, last);
      forall k | n <= k < |was| ensures was[k].open && was[k].slot == at[k] {
        assert was[k] == list[k - n] && at[k] == slots[k - n];
      }
    }

    lemma Parts()
      requires Valid()
      ensures openUpvalues == FirstOf(list) && forall i, j :: 0 <= i < j < |list| ==> list[i] != list[j]
      ensures forall k :: 0 <= k < |list| ==> list[k].open && list[k].slot == slots[k] < stack.Length
      ensures forall k :: 0 <= k < |list| ==> list[k].next == NextOf(list, k)
    {
    }

    lemma AllOpen()
      requires Valid()
      ensures forall k :: 0 <= k < |list| ==> list[k].open && list[k].slot == slots[k] < stack.Length
    {
    }

    lemma Front()
      requires Valid()
      ensures openUpvalues == null <==> list == []
      ensures openUpvalues != null ==> openUpvalues == list[0] && openUpvalues.slot == slots[0]
    {
    }

    /** Close the upvalue at the front. */
    method CloseFirst()
      requires Valid() && openUpvalues != null
      modifies this`openUpvalues, this`list, this`slots, openUpvalues
      ensures Valid() && list == old(list)[1..] && slots == old(slots)[1..]
      ensures !old(openUpvalues).open && old(openUpvalues).closed == stack[old(slots)[0]]
    {
      var upval := openUpvalues;
      upval.closed := stack[upval.slot];
      upval.open := false;
      openUpvalues := upval.next;
      list, slots := list[1..], slots[1..];
    }
  }

  /** Capturing a slot twice gives the same upvalue, until it is closed. */
  method CaptureTwice(f: Fiber, local: nat) returns (u: Upvalue, v: Upvalue)
    requires f.Valid() && local < f.stack.Length
    modifies f`openUpvalues, f`list, f`slots, f.list
    ensures f.Valid() && u == v
  {
    hide Above, Linked, Descending;
    u := f.Capture(local);
    v := f.Capture(local);
  }
}
