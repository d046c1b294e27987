/** Compile-time capture: how a name in a nested function is resolved to a variable of an enclosing one
    through a chain of upvalue descriptors. Functions are listed outermost first. */
module Captures {
  datatype Local = Local(name: string, depth: int, reg: nat, captured: bool)

  /** A descriptor names a register of the enclosing function, or one of its upvalues. */
  datatype Descriptor = Descriptor(index: nat, isLocal: bool)

  datatype Func = Func(locals: seq<Local>, upvalues: seq<Descriptor>)

  datatype Variable = Nowhere | Variable(level: nat, reg: nat)

  const MAX_UPVALUES := 256

  // ---------------------------------------------------------------- what a name and an index mean

  /** The latest declaration of a name, or -1. */
  function Latest(locals: seq<Local>, name: string): (i: int)
    ensures -1 <= i < |locals| && (i >= 0 ==> locals[i].name == name)
    ensures forall k :: i < k < |locals| ==> locals[k].name != name
  {
    if locals == [] then -1
    else if locals[|locals| - 1].name == name then |locals| - 1
    else Latest(locals[..|locals| - 1], name)
  }

  /** The variable a name means in the functions enclosing the k-th: the nearest one that declares it. */
  function Meaning(funcs: seq<Func>, k: nat, name: string): Variable
    requires k <= |funcs|
  {
    if k == 0 then Nowhere
    else
      var i := Latest(funcs[k - 1].locals, name);
      if i >= 0 then Variable(k - 1, funcs[k - 1].locals[i].reg) else Meaning(funcs, k - 1, name)
  }

  /** The variable that an upvalue index of the k-th function reaches by following descriptors. */
  function Follow(funcs: seq<Func>, k: nat, i: nat): Variable
    requires k < |funcs|
  {
    if k == 0 || i >= |funcs[k].upvalues| then Nowhere
    else
      var d := funcs[k].upvalues[i];
      if d.isLocal then Variable(k - 1, d.index) else Follow(funcs, k - 1, d.index)
  }

  /** The descriptor at i of the k-th function is the one that resolving the name gives. */
  predicate Resolves(funcs: seq<Func>, k: nat, name: string, i: nat)
    requires k < |funcs|
  {
    k > 0 && i < |funcs[k].upvalues| &&
    var l := Latest(funcs[k - 1].locals, name);
    var d := funcs[k].upvalues[i];
    if l >= 0 then d == Descriptor(funcs[k - 1].locals[l].reg, true)
    else !d.isLocal && Resolves(funcs, k - 1, name, d.index)
  }

  predicate NoDup(ds: seq<Descriptor>) {
    forall i, j :: 0 <= i < j < |ds| ==> ds[i] != ds[j]
  }

  predicate DistinctRegs(locals: seq<Local>) {
    forall i, j :: 0 <= i < j < |locals| ==> locals[i].reg != locals[j].reg
  }

  predicate WellFormed(funcs: seq<Func>) {
    forall k :: 0 <= k < |funcs| ==> NoDup(funcs[k].upvalues) && DistinctRegs(funcs[k].locals)
  }

  /** The same locals up to capture flags, which are only ever set; and the same descriptors up to new ones. */
  predicate Grows(was: Func, now: Func) {
    |was.locals| == |now.locals| && was.upvalues <= now.upvalues &&
    forall i :: 0 <= i < |was.locals| ==>
          now.locals[i] == was.locals[i] || now.locals[i] == was.locals[i].(captured := true)
  }

  predicate GrowsAll(was: seq<Func>, now: seq<Func>) {
    |was| == |now| && forall k :: 0 <= k < |was| ==> Grows(was[k], now[k])
  }

  /** Resolving gives the variable that the name means. */
  lemma {:induction false} ResolvesRight(funcs: seq<Func>, k: nat, name: string, i: nat)
    requires k < |funcs| && Resolves(funcs, k, name, i)
    ensures Meaning(funcs, k, name).Variable? && Follow(funcs, k, i) == Meaning(funcs, k, name)
  {
    if Latest(funcs[k - 1].locals, name) < 0 { ResolvesRight(funcs, k - 1, name, funcs[k].upvalues[i].index); }
  }

  /** A name resolves to one index only. */
  lemma {:induction false} ResolvesOnce(funcs: seq<Func>, k: nat, name: string, i: nat, j: nat)
    requires k < |funcs| && WellFormed(funcs) && Resolves(funcs, k, name, i) && Resolves(funcs, k, name, j)
    ensures i == j
  {
    var ds := funcs[k].upvalues;
    if Latest(funcs[k - 1].locals, name) < 0 { ResolvesOnce(funcs, k - 1, name, ds[i].index, ds[j].index); }
    assert NoDup(ds);
  }

  lemma {:induction false} LatestSame(a: seq<Local>, b: seq<Local>, name: string)
    requires |a| == |b| && forall i :: 0 <= i < |a| ==> a[i].name == b[i].name
    ensures Latest(a, name) == Latest(b, name)
  {
    if a != [] { LatestSame(a[..|a| - 1], b[..|b| - 1], name); }
  }

  /** Later captures change neither what an index reaches nor what a name resolves to. */
  lemma {:induction false} FollowGrows(was: seq<Func>, now: seq<Func>, k: nat, i: nat)
    requires GrowsAll(was, now) && k < |was| && Follow(was, k, i).Variable?
    ensures Follow(now, k, i) == Follow(was, k, i)
  {
    assert Grows(was[k], now[k]);
    assert now[k].upvalues[i] == was[k].upvalues[i];
    if !was[k].upvalues[i].isLocal { FollowGrows(was, now, k - 1, was[k].upvalues[i].index); }
  }

  lemma {:induction false} ResolvesGrows(was: seq<Func>, now: seq<Func>, k: nat, name: string, i: nat)
    requires GrowsAll(was, now) && k < |was| && Resolves(was, k, name, i)
    ensures Resolves(now, k, name, i)
  {
    assert Grows(was[k], now[k]) && Grows(was[k - 1], now[k - 1]);
    LatestSame(was[k - 1].locals, now[k - 1].locals, name);
    assert now[k].upvalues[i] == was[k].upvalues[i];
    if Latest(was[k - 1].locals, name) < 0 { ResolvesGrows(was, now, k - 1, name, was[k].upvalues[i].index); }
  }

  lemma {:induction false} MeaningGrows(was: seq<Func>, now: seq<Func>, k: nat, name: string)
    requires GrowsAll(was, now) && k <= |was|
    ensures Meaning(now, k, name) == Meaning(was, k, name)
  {
    if k > 0 {
      assert Grows(was[k - 1], now[k - 1]);
      LatestSame(was[k - 1].locals, now[k - 1].locals, name);
      MeaningGrows(was, now, k - 1, name);
    }
  }

  lemma GrowsTwice(a: seq<Func>, b: seq<Func>, c: seq<Func>)
    requires GrowsAll(a, b) && GrowsAll(b, c)
    ensures GrowsAll(a, c)
  {
    forall k | 0 <= k < |a| ensures Grows(a[k], c[k]) {
      assert Grows(a[k], b[k]) && Grows(b[k], c[k]);
    }
  }

  /** The variable's declaration is marked as captured. */
  predicate Flagged(funcs: seq<Func>, v: Variable)
    requires v.Variable? && v.level < |funcs|
  {
    var locals := funcs[v.level].locals;
    exists i :: 0 <= i < |locals| && locals[i].reg == v.reg && locals[i].captured
  }

  lemma FlaggedGrows(was: seq<Func>, now: seq<Func>, v: Variable)
    requires GrowsAll(was, now) && v.Variable? && v.level < |was| && Flagged(was, v)
    ensures Flagged(now, v)
  {
    var i :| 0 <= i < |was[v.level].locals| && was[v.level].locals[i].reg == v.reg && was[v.level].locals[i].captured;
    assert Grows(was[v.level], now[v.level]);
    assert now[v.level].locals[i].captured;
  }

  // ---------------------------------------------------------------- the resolver

  lemma LocalResolved(was: seq<Func>, mid: seq<Func>, now: seq<Func>, k: nat, name: string, reg: nat)
    requires 0 < k < |was| && Latest(was[k - 1].locals, name) >= 0 &&
             was[k - 1].locals[Latest(was[k - 1].locals, name)].reg == reg
    requires GrowsAll(was, mid) && GrowsAll(mid, now) && Flagged(mid, Variable(k - 1, reg))
    ensures GrowsAll(was, now) && Meaning(was, k, name) == Variable(k - 1, reg) && Flagged(now, Variable(k - 1, reg))
    ensures forall r :: 0 <= r < |now[k].upvalues| && now[k].upvalues[r] == Descriptor(reg, true) ==>
              Resolves(now, k, name, r)
  {
    GrowsTwice(was, mid, now);
    FlaggedGrows(mid, now, Variable(k - 1, reg));
    assert Grows(was[k - 1], now[k - 1]);
    LatestSame(was[k - 1].locals, now[k - 1].locals, name);
  }

  lemma UpvalueResolved(was: seq<Func>, mid: seq<Func>, now: seq<Func>, k: nat, name: string, i: nat)
    requires 0 < k < |was| && Latest(was[k - 1].locals, name) < 0 && GrowsAll(was, mid) && GrowsAll(mid, now)
    ensures GrowsAll(was, now) && Meaning(was, k, name) == Meaning(was, k - 1, name)
    ensures var v := Meaning(was, k, name); v.Variable? && v.level < k && Flagged(mid, v) ==> Flagged(now, v)
    ensures Resolves(mid, k - 1, name, i) ==>
              forall r :: 0 <= r < |now[k].upvalues| && now[k].upvalues[r] == Descriptor(i, false) ==>
                    Resolves(now, k, name, r)
  {
    GrowsTwice(was, mid, now);
    assert Grows(was[k - 1], now[k - 1]);
    LatestSame(was[k - 1].locals, now[k - 1].locals, name);
    var v := Meaning(was, k, name);
    if v.Variable? && v.level < k && Flagged(mid, v) { FlaggedGrows(mid, now, v); }
    if Resolves(mid, k - 1, name, i) { ResolvesGrows(mid, now, k - 1, name, i); }
  }

  lemma Reached(was: seq<Func>, now: seq<Func>, k: nat, name: string, r: nat)
    requires k < |was| && GrowsAll(was, now)
    ensures Resolves(now, k, name, r) ==> Follow(now, k, r) == Meaning(was, k, name)
  {
    MeaningGrows(was, now, k, name);
    if Resolves(now, k, name, r) { ResolvesRight(now, k, name, r); }
  }

  lemma GrowsSame(funcs: seq<Func>)
    ensures GrowsAll(funcs, funcs)
  {
  }

  /** There is room for the descriptor, or it is there already. */
  predicate Fits(ds: seq<Descriptor>, d: Descriptor) {
    d in ds || |ds| < 256
  }

  class Resolver {
    var funcs: seq<Func>
    var overflowed: bool

    constructor (funcs: seq<Func>)
      ensures this.funcs == funcs && !overflowed
    {
      this.funcs, overflowed := funcs, false;
    }

    /** The register of the latest declaration of a name in the k-th function, or -1. */
    method ResolveLocal(k: nat, name: string) returns (reg: int)
      requires k < |funcs|
      ensures var i := Latest(funcs[k].locals, name); reg == if i >= 0 then funcs[k].locals[i].reg else -1
    {
      var locals := funcs[k].locals;
      var i := |locals| - 1;
      assert locals[..i + 1] == locals;
      while i >= 0
        invariant -1 <= i < |locals| && Latest(locals[..i + 1], name) == Latest(locals, name)
      {
        if locals[i].name == name {
          return locals[i].reg;
        }
        assert locals[..i + 1][..i] == locals[..i];
        i := i - 1;
      }
      return -1;
    }

    /** The index of a descriptor, which is added if it is new; overflow is reported. */
    method AddUpvalue(k: nat, index: nat, isLocal: bool) returns (r: nat)
      requires k < |funcs| && WellFormed(funcs)
      modifies this
      ensures |funcs| == |old(funcs)| && WellFormed(funcs) && GrowsAll(old(funcs), funcs)
      ensures forall j :: 0 <= j < |funcs| && j != k ==> funcs[j] == old(funcs)[j]
      ensures overflowed == (old(overflowed) || !Fits(old(funcs)[k].upvalues, Descriptor(index, isLocal)))
      ensures Fits(old(funcs)[k].upvalues, Descriptor(index, isLocal)) ==>
                r < |funcs[k].upvalues| && funcs[k].upvalues[r] == Descriptor(index, isLocal)
    {
      var ds := funcs[k].upvalues;
      var i := 0;
      while i < |ds|
        invariant 0 <= i <= |ds| && forall j :: 0 <= j < i ==> ds[j] != Descriptor(index, isLocal)
      {
        if ds[i].index == index && ds[i].isLocal == isLocal {
          return i;
        }
        i := i + 1;
      }
      if |ds| >= MAX_UPVALUES {
        overflowed := true;
        return 0;
      }
      funcs := funcs[k := funcs[k].(upvalues := ds + [Descriptor(index, isLocal)])];
      return |ds|;
    }

    /** Mark the local in a register of the k-th function as captured. */
    method MarkCaptured(k: nat, reg: int)
      requires k < |funcs| && WellFormed(funcs) && exists i ::
               0 <= i < |funcs[k].locals| && funcs[k].locals[i].reg == reg
      modifies `funcs
      ensures |funcs| == |old(funcs)| && WellFormed(funcs) && GrowsAll(old(funcs), funcs) && reg >= 0 &&
              Flagged(funcs, Variable(k, reg))
      ensures forall j :: 0 <= j < |funcs| && j != k ==> funcs[j] == old(funcs)[j]
      ensures funcs[k].upvalues == old(funcs)[k].upvalues
      ensures forall i :: 0 <= i < |funcs[k].locals| ==>
                var was := old(funcs)[k].locals[i];
                funcs[k].locals[i] == if was.reg == reg then was.(captured := true) else was
    {
      var locals := funcs[k].locals;
      var i := 0;
      while i < |locals|
        invariant 0 <= i <= |locals| && funcs == old(funcs) && forall j :: 0 <= j < i ==> locals[j].reg != reg
      {
        if locals[i].reg == reg {
          var now := locals[i := locals[i].(captured := true)];
          funcs := funcs[k := funcs[k].(locals := now)];
          assert now[i].captured;
          return;
        }
        i := i + 1;
      }
    }

    /** Resolve a name in the functions enclosing the k-th to an upvalue index of the k-th, or -1. */
    method ResolveUpvalue(k: nat, name: string) returns (r: int)
      requires k < |funcs| && WellFormed(funcs)
      modifies this
      ensures |funcs| == |old(funcs)| && WellFormed(funcs) && GrowsAll(old(funcs), funcs) &&
              (old(overflowed) ==> overflowed) && r >= -1
      ensures r == -1 <==> Meaning(old(funcs), k, name).Nowhere?
      ensures r == -1 ==> funcs == old(funcs)
      ensures r >= 0 && !overflowed ==>
                Resolves(funcs, k, name, r) && Follow(funcs, k, r) == Meaning(old(funcs), k, name)
      ensures r >= 0 ==> Meaning(old(funcs), k, name).level < k && Flagged(funcs, Meaning(old(funcs), k, name))
      decreases k
    {
      hide GrowsAll, WellFormed, Resolves, Flagged, Follow;
      ghost var was := funcs;
      GrowsSame(was);
      if k == 0 {
        return -1;
      }
      var local := ResolveLocal(k - 1, name);
      if local != -1 {
        MarkCaptured(k - 1, local);
        ghost var mid := funcs;
        r := AddUpvalue(k, local, true);
        LocalResolved(was, mid, funcs, k, name, local);
        Reached(was, funcs, k, name, r);
        return;
      }
      var upvalue := ResolveUpvalue(k - 1, name);
      if upvalue != -1 {
        ghost var mid := funcs;
        r := AddUpvalue(k, upvalue, false);
        UpvalueResolved(was, mid, funcs, k, name, upvalue);
        Reached(was, funcs, k, name, r);
        return;
      }
      return -1;
    }
  }
}
