/** The cooperative process scheduler: a pool that shrinks by moving its last slot into the gap, ticked
    while the processes it runs spawn, signal and change states. What a process does when it runs is a
    parameter: the k-th execution of a tick performs the k-th behaviour, and later ones only yield. */
module Scheduler {
  datatype State = Ready | Running | Suspended | Done | Error | Frozen | Sleeping

  datatype Signal = Kill | Freeze | Sleep | Wakeup

  /** A pool slot with the parts of its fiber that scheduling looks at. */
  datatype Slot = Slot(id: int, parent: int, lastChild: int, kind: nat, state: State, speed: int, waited: int)

  datatype Action =
    | Spawn(kind: nat, isGeneric: bool)
    | SignalId(id: int, sig: Signal)
    | SignalKind(kind: nat, sig: Signal)
    | LetMeAlone

  /** One execution: its actions, then how it leaves its own fiber, or a runtime error. */
  datatype Behaviour = Behaviour(actions: seq<Action>, finish: State, speed: int, fails: bool)

  /** A process with a generic body cannot be spawned: a runtime error. */
  predicate Refused(a: Action) { a.Spawn? && a.isGeneric }

  /** The execution ends in a runtime error. */
  predicate Fails(b: Behaviour) { b.fails || exists k :: 0 <= k < |b.actions| && Refused(b.actions[k]) }

  /** What a tick did with one process: its slot before and after, and whether it ran and was removed. */
  datatype Visit = Visit(before: Slot, after: Slot, ran: bool, removed: bool)

  function Idle(): Behaviour { Behaviour([], Suspended, 100, false) }

  lemma IdleRuns()
    ensures !Fails(Idle())
  {
  }

  predicate Dead(s: State) { s == Done || s == Error }

  function Applied(sig: Signal): State {
    match sig
    case Kill => Done
    case Freeze => Frozen
    case Sleep => Sleeping
    case Wakeup => Suspended
  }

  /** The process runs at this visit: a slowed one waits two milliseconds for each percent it is slowed by. */
  predicate Due(s: Slot, ms: int) {
    s.state == Ready || (s.state == Suspended && (s.speed >= 100 || s.waited + ms >= 2 * (100 - s.speed)))
  }

  // ---------------------------------------------------------------- ids in the pool

  ghost function Ids(pool: seq<Slot>): set<int> {
    set s | s in pool :: s.id
  }

  predicate Distinct(pool: seq<Slot>) {
    forall i, j :: 0 <= i < j < |pool| ==> pool[i].id != pool[j].id
  }

  predicate Below(pool: seq<Slot>, hi: int) {
    forall i :: 0 <= i < |pool| ==> 0 < pool[i].id < hi
  }

  lemma SameIds(pool: seq<Slot>, i: nat, s: Slot, hi: int)
    requires i < |pool| && s.id == pool[i].id && Distinct(pool) && Below(pool, hi)
    ensures Distinct(pool[i := s]) && Below(pool[i := s], hi)
  {
  }

  /** The same processes in the same places, then new ones numbered from lo. */
  predicate Extends(was: seq<Slot>, now: seq<Slot>, lo: int) {
    |was| <= |now| && (forall k :: 0 <= k < |was| ==> now[k].id == was[k].id) &&
    forall k :: |was| <= k < |now| ==> now[k].id == lo + (k - |was|)
  }

  lemma ExtendsTwice(a: seq<Slot>, b: seq<Slot>, c: seq<Slot>, lo: int)
    requires Extends(a, b, lo) && Extends(b, c, lo + |b| - |a|)
    ensures Extends(a, c, lo)
  {
  }

  lemma ExtendsSame(pool: seq<Slot>, lo: int)
    ensures Extends(pool, pool, lo)
  {
  }

  lemma ExtendsLike(was: seq<Slot>, mid: seq<Slot>, now: seq<Slot>, lo: int)
    requires Extends(was, mid, lo) && |now| == |mid| && forall k :: 0 <= k < |now| ==> now[k].id == mid[k].id
    ensures Extends(was, now, lo)
  {
  }

  lemma InIds(pool: seq<Slot>, x: int)
    ensures x in Ids(pool) <==> exists k :: 0 <= k < |pool| && pool[k].id == x
  {
    if x in Ids(pool) {
      var s :| s in pool && s.id == x;
    }
  }

  function Range(lo: int, hi: int): (r: set<int>)
    ensures forall x :: x in r <==> lo <= x < hi
    decreases hi - lo
  {
    if lo >= hi then {} else Range(lo, hi - 1) + {hi - 1}
  }

  lemma ExtendsIds(was: seq<Slot>, now: seq<Slot>, lo: int, i: nat)
    requires Extends(was, now, lo) && Distinct(was) && Below(was, lo) && lo > 0 && i <= |was|
    ensures Distinct(now) && Below(now, lo + |now| - |was|)
    ensures Ids(now) == Ids(was) + Range(lo, lo + |now| - |was|) && Ids(now[..i]) == Ids(was[..i])
  {
    forall x ensures x in Ids(now) <==> x in Ids(was) + Range(lo, lo + |now| - |was|) {
      InIds(now, x);
      InIds(was, x);
      if x in Ids(was) {
        var k :| 0 <= k < |was| && was[k].id == x;
        assert now[k].id == x;
      }
      if lo <= x < lo + |now| - |was| { assert now[|was| + (x - lo)].id == x; }
    }
    forall x ensures x in Ids(now[..i]) <==> x in Ids(was[..i]) {
      InIds(now[..i], x);
      InIds(was[..i], x);
      if x in Ids(was[..i]) {
        var k :| 0 <= k < i && was[..i][k].id == x;
        assert now[..i][k].id == x;
      }
      if x in Ids(now[..i]) {
        var k :| 0 <= k < i && now[..i][k].id == x;
        assert was[..i][k].id == x;
      }
    }
  }

  /** The pool with the last slot moved into the gap at i. */
  function Removed(pool: seq<Slot>, i: nat): seq<Slot>
    requires i < |pool|
  {
    pool[i := pool[|pool| - 1]][..|pool| - 1]
  }

  lemma RemovedIds(pool: seq<Slot>, i: nat)
    requires Distinct(pool) && i < |pool|
    ensures Distinct(Removed(pool, i)) && Ids(Removed(pool, i)) == Ids(pool) - {pool[i].id} && pool[i].id in Ids(pool)
    ensures Removed(pool, i)[..i] == pool[..i]
  {
    var r := Removed(pool, i);
    forall x ensures x in Ids(r) <==> x in Ids(pool) - {pool[i].id} {
      InIds(r, x);
      InIds(pool, x);
      if x in Ids(pool) && x != pool[i].id {
        var k :| 0 <= k < |pool| && pool[k].id == x;
        assert r[if k == |pool| - 1 then i else k].id == x;
      }
      if x in Ids(r) {
        var k :| 0 <= k < |r| && r[k].id == x;
        assert pool[if k == i then |pool| - 1 else k].id == x;
      }
    }
  }

  // ---------------------------------------------------------------- the log of a tick

  ghost function Visited(log: seq<Visit>): set<int> {
    set v | v in log :: v.before.id
  }

  ghost function Gone(log: seq<Visit>): set<int> {
    set v | v in log && v.removed :: v.before.id
  }

  predicate Once(log: seq<Visit>) {
    forall i, j :: 0 <= i < j < |log| ==> log[i].before.id != log[j].before.id
  }

  /** One visit did what the process's state called for. */
  predicate Proper(v: Visit, ms: int) {
    v.after.id == v.before.id && (v.ran <==> Due(v.before, ms)) &&
    (v.removed <==> v.after.state == Done || v.after.state == Error) &&
    (v.ran ==> v.after.waited == if v.before.state == Suspended && v.before.speed < 100 then 0 else v.before.waited) &&
    (!v.ran ==>
       v.after == if v.before.state == Suspended && v.before.speed < 100 then v.before.(waited := v.before.waited + ms)
                  else v.before)
  }

  ghost predicate AllProper(log: seq<Visit>, ms: int) {
    forall k :: 0 <= k < |log| ==> Proper(log[k], ms)
  }

  lemma ProperSnoc(log: seq<Visit>, v: Visit, ms: int)
    requires AllProper(log, ms) && Proper(v, ms)
    ensures AllProper(log + [v], ms)
  {
    hide Proper;
  }

  /** Where a tick is: the first i slots have been visited, and so has everything removed. */
  ghost predicate Tracked(start: set<int>, lo: int, hi: int, pool: seq<Slot>, i: nat, log: seq<Visit>) {
    i <= |pool| && 0 < lo <= hi && (forall x :: x in start ==> x < lo) && Distinct(pool) && Below(pool, hi) &&
    Once(log) &&
    Visited(log) == Ids(pool[..i]) + Gone(log) && Ids(pool) + Gone(log) == start + Range(lo, hi) &&
    Ids(pool) !! Gone(log)
  }

  lemma LogSnoc(log: seq<Visit>, v: Visit)
    ensures Visited(log + [v]) == Visited(log) + {v.before.id}
    ensures Gone(log + [v]) == Gone(log) + if v.removed then {v.before.id} else {}
  {
    var more := log + [v];
    assert v in more;
    forall u | u in log ensures u in more {}
    assert forall u :: u in more ==> u in log || u == v;
  }

  lemma VisitedIn(log: seq<Visit>, k: nat)
    requires k < |log|
    ensures log[k].before.id in Visited(log)
  {
  }

  lemma NotYetVisited(pool: seq<Slot>, i: nat, log: seq<Visit>)
    requires i < |pool| && Distinct(pool) && Visited(log) == Ids(pool[..i]) + Gone(log) && Ids(pool) !! Gone(log)
    ensures pool[i].id !in Visited(log) && pool[i].id in Ids(pool)
  {
    InIds(pool[..i], pool[i].id);
    InIds(pool, pool[i].id);
  }

  lemma OnceSnoc(log: seq<Visit>, v: Visit)
    requires Once(log) && v.before.id !in Visited(log)
    ensures Once(log + [v])
  {
    forall k | 0 <= k < |log| ensures log[k].before.id != v.before.id { VisitedIn(log, k); }
  }

  /** Processes spawned while one runs join the tick. */
  lemma TrackExtends(start: set<int>, lo: int, hi: int, pool: seq<Slot>, i: nat, log: seq<Visit>, now: seq<Slot>)
    requires Tracked(start, lo, hi, pool, i, log) && Extends(pool, now, hi)
    ensures Tracked(start, lo, hi + |now| - |pool|, now, i, log)
  {
    ExtendsIds(pool, now, hi, i);
    forall x | x in Gone(log) ensures x < hi {
      assert x in start + Range(lo, hi);
    }
    assert Ids(now) + Gone(log) == start + Range(lo, hi + |now| - |pool|);
  }

  /** A visit that leaves the process in place. */
  lemma TrackStays(start: set<int>, lo: int, hi: int, pool: seq<Slot>, i: nat, log: seq<Visit>, v: Visit)
    requires Tracked(start, lo, hi, pool, i, log) && i < |pool| && v.before.id == pool[i].id && !v.removed
    ensures Tracked(start, lo, hi, pool, i + 1, log + [v])
  {
    NotYetVisited(pool, i, log);
    OnceSnoc(log, v);
    LogSnoc(log, v);
    assert pool[..i + 1] == pool[..i] + [pool[i]];
    IdsSnoc(pool[..i], pool[i]);
  }

  lemma IdsSnoc(pool: seq<Slot>, s: Slot)
    ensures Ids(pool + [s]) == Ids(pool) + {s.id}
  {
    assert s in pool + [s];
    assert forall t :: t in pool + [s] <==> t in pool || t == s;
  }

  /** A visit that removes the process. */
  lemma TrackRemoves(start: set<int>, lo: int, hi: int, pool: seq<Slot>, i: nat, log: seq<Visit>, v: Visit)
    requires Tracked(start, lo, hi, pool, i, log) && i < |pool| && v.before.id == pool[i].id && v.removed
    ensures Tracked(start, lo, hi, Removed(pool, i), i, log + [v])
  {
    NotYetVisited(pool, i, log);
    OnceSnoc(log, v);
    LogSnoc(log, v);
    RemovedIds(pool, i);
    var r := Removed(pool, i);
    forall k | 0 <= k < |r| ensures 0 < r[k].id < hi { assert r[k] == pool[if k == i then |pool| - 1 else k]; }
    hide Removed;
  }

  /** When every slot has been visited, so has every process there ever was. */
  lemma TrackEnds(start: set<int>, lo: int, hi: int, pool: seq<Slot>, log: seq<Visit>)
    requires Tracked(start, lo, hi, pool, |pool|, log)
    ensures Visited(log) == start + Range(lo, hi) && Ids(pool) == Visited(log) - Gone(log)
  {
    assert pool[..|pool|] == pool;
  }

  // ---------------------------------------------------------------- who did what to whom

  /** An action and the process that took it. */
  datatype Deed = Deed(doer: int, action: Action)

  function By(me: int, actions: seq<Action>): (r: seq<Deed>)
    ensures |r| == |actions| && forall k :: 0 <= k < |r| ==> r[k] == Deed(me, actions[k])
  {
    seq(|actions|, k requires 0 <= k < |actions| => Deed(me, actions[k]))
  }

  /** The deed is about the process with this id and kind. */
  predicate Addresses(d: Deed, id: int, kind: nat) {
    match d.action
    case Spawn(_, _) => false
    case SignalId(to, _) => to == id
    case SignalKind(k, _) => k == kind
    case LetMeAlone => d.doer != id
  }

  /** The state in which a deed leaves those it addresses. */
  function Imposed(a: Action): State {
    if a.SignalId? || a.SignalKind? then Applied(a.sig) else Done
  }

  ghost predicate Last(ds: seq<Deed>, k: int, id: int, kind: nat) {
    0 <= k < |ds| && Addresses(ds[k], id, kind) && forall j :: k < j < |ds| ==> !Addresses(ds[j], id, kind)
  }

  /** The state is the one set by the last deed that addresses the process, or the same if none does. */
  ghost predicate Follows(was: State, now: State, ds: seq<Deed>, id: int, kind: nat) {
    (now == was && forall k :: 0 <= k < |ds| ==> !Addresses(ds[k], id, kind)) ||
    exists k :: Last(ds, k, id, kind) && now == Imposed(ds[k].action)
  }

  /** Nothing but the state of the slot has changed, and that as the deeds say. */
  ghost predicate Moved(was: Slot, now: Slot, ds: seq<Deed>) {
    now == was.(state := now.state) && Follows(was.state, now.state, ds, was.id, was.kind)
  }

  ghost function Spawns(ds: seq<Deed>): nat {
    if ds == [] then 0 else Spawns(ds[..|ds| - 1]) + if ds[|ds| - 1].action.Spawn? then 1 else 0
  }

  ghost predicate BornAt(s: Slot, ds: seq<Deed>, lo: int, d: nat) {
    d < |ds| && ds[d].action.Spawn? && s.id == lo + Spawns(ds[..d]) &&
    Moved(Slot(s.id, ds[d].doer, -1, ds[d].action.kind, Ready, 100, 0), s, ds[d + 1..])
  }

  /** One of the deeds spawned the process, and the later ones moved it. Ids are given out from lo. */
  ghost predicate Born(s: Slot, ds: seq<Deed>, lo: int) {
    exists d :: BornAt(s, ds, lo, d)
  }

  lemma FollowsThen(a: State, b: State, c: State, ds: seq<Deed>, es: seq<Deed>, id: int, kind: nat)
    requires Follows(a, b, ds, id, kind) && Follows(b, c, es, id, kind)
    ensures Follows(a, c, ds + es, id, kind)
  {
    var all := ds + es;
    if k :| Last(es, k, id, kind) && c == Imposed(es[k].action) {
      assert Last(all, |ds| + k, id, kind);
    } else if k :| Last(ds, k, id, kind) && b == Imposed(ds[k].action) {
      assert Last(all, k, id, kind);
    }
  }

  lemma MovedThen(a: Slot, b: Slot, c: Slot, ds: seq<Deed>, es: seq<Deed>)
    requires Moved(a, b, ds) && Moved(b, c, es)
    ensures Moved(a, c, ds + es)
  {
    FollowsThen(a.state, b.state, c.state, ds, es, a.id, a.kind);
  }

  lemma {:induction false} SpawnsSum(ds: seq<Deed>, es: seq<Deed>)
    ensures Spawns(ds + es) == Spawns(ds) + Spawns(es)
  {
    if es == [] {
      assert ds + es == ds;
    } else {
      assert (ds + es)[..|ds + es| - 1] == ds + es[..|es| - 1];
      SpawnsSum(ds, es[..|es| - 1]);
    }
  }

  lemma BornThen(s: Slot, t: Slot, ds: seq<Deed>, es: seq<Deed>, lo: int)
    requires Born(s, ds, lo) && Moved(s, t, es)
    ensures Born(t, ds + es, lo)
  {
    var d: nat :| BornAt(s, ds, lo, d);
    var all := ds + es;
    assert all[..d] == ds[..d] && all[d + 1..] == ds[d + 1..] + es;
    MovedThen(Slot(s.id, ds[d].doer, -1, ds[d].action.kind, Ready, 100, 0), s, t, ds[d + 1..], es);
    assert BornAt(t, all, lo, d);
  }

  lemma BornAfter(s: Slot, ds: seq<Deed>, es: seq<Deed>, lo: int)
    requires Born(s, es, lo + Spawns(ds))
    ensures Born(s, ds + es, lo)
  {
    var d: nat :| BornAt(s, es, lo + Spawns(ds), d);
    var all := ds + es;
    assert all[..|ds| + d] == ds + es[..d] && all[|ds| + d + 1..] == es[d + 1..];
    SpawnsSum(ds, es[..d]);
    assert BornAt(s, all, lo, |ds| + d);
  }

  /** The pool after some deeds of the process in slot i: the others as the deeds say, new ones behind. How
      slot i itself goes on is the behaviour's to say. */
  ghost predicate Acted(was: seq<Slot>, now: seq<Slot>, i: nat, ds: seq<Deed>, lo: int) {
    i < |was| && |now| == |was| + Spawns(ds) &&
    (forall k :: 0 <= k < |was| && k != i ==> Moved(was[k], now[k], ds)) &&
    (forall k :: |was| <= k < |now| ==> Born(now[k], ds, lo)) &&
    now[i].id == was[i].id && now[i].parent == was[i].parent && now[i].kind == was[i].kind &&
    now[i].lastChild == if Spawns(ds) == 0 then was[i].lastChild else lo + Spawns(ds) - 1
  }

  /** One deed of the process in slot i. */
  ghost predicate Does(was: seq<Slot>, now: seq<Slot>, i: nat, d: Deed, id: int) {
    i < |was| && |now| == |was| + (if d.action.Spawn? then 1 else 0) &&
    (forall k :: 0 <= k < |was| && k != i ==>
       now[k] == if Addresses(d, was[k].id, was[k].kind) then was[k].(state := Imposed(d.action)) else was[k]) &&
    (d.action.Spawn? ==> now[|was|] == Slot(id, d.doer, -1, d.action.kind, Ready, 100, 0)) &&
    now[i].(state := was[i].state) == was[i].(lastChild := if d.action.Spawn? then id else was[i].lastChild)
  }

  lemma ActedNone(pool: seq<Slot>, i: nat, lo: int)
    requires i < |pool|
    ensures Acted(pool, pool, i, [], lo)
  {
  }

  lemma ActedSize(was: seq<Slot>, now: seq<Slot>, i: nat, ds: seq<Deed>, lo: int)
    requires Acted(was, now, i, ds, lo)
    ensures |now| == |was| + Spawns(ds)
  {
  }

  lemma ActedEnds(was: seq<Slot>, now: seq<Slot>, i: nat, ds: seq<Deed>, lo: int, s: Slot)
    requires Acted(was, now, i, ds, lo) && s == now[i].(state := s.state, speed := s.speed)
    requires Extends(was, now, lo)
    ensures Extends(was, now[i := s], lo) && Acted(was, now[i := s], i, ds, lo)
  {
    hide Moved, Born;
  }

  /** What slot i is busy with makes no difference to the others. */
  lemma ActedFrom(was: seq<Slot>, mid: seq<Slot>, now: seq<Slot>, i: nat, ds: seq<Deed>, lo: int)
    requires i < |was| && Acted(mid, now, i, ds, lo)
    requires mid == was[i := was[i].(state := mid[i].state, speed := mid[i].speed, waited := mid[i].waited)]
    ensures Acted(was, now, i, ds, lo)
  {
    hide Moved, Born;
  }

  lemma ActedKeeps(was: seq<Slot>, now: seq<Slot>, i: nat, ds: seq<Deed>, lo: int)
    requires Acted(was, now, i, ds, lo)
    ensures |now| == |was| + Spawns(ds) && now[i].id == was[i].id && now[i].kind == was[i].kind &&
            now[i].parent == was[i].parent
  {
  }

  lemma ActedWaits(was: seq<Slot>, now: seq<Slot>, i: nat, lo: int)
    requires i < |was| == |now| && now == was[i := was[i].(waited := now[i].waited)]
    ensures Acted(was, now, i, [], lo)
  {
    forall k | 0 <= k < |was| && k != i ensures Moved(was[k], now[k], []) { MovedSame(was[k]); }
  }

  lemma DoneMoves(s: Slot, t: Slot, d: Deed)
    requires t == if Addresses(d, s.id, s.kind) then s.(state := Imposed(d.action)) else s
    ensures Moved(s, t, [d])
  {
    if Addresses(d, s.id, s.kind) { assert Last([d], 0, s.id, s.kind); }
  }

  lemma ActedThen(was: seq<Slot>, mid: seq<Slot>, now: seq<Slot>, i: nat, ds: seq<Deed>, d: Deed, lo: int)
    requires Acted(was, mid, i, ds, lo) && Does(mid, now, i, d, lo + Spawns(ds))
    ensures Acted(was, now, i, ds + [d], lo)
  {
    hide Moved, Born, Addresses;
    SpawnsSum(ds, [d]);
    assert Spawns([d]) == if d.action.Spawn? then 1 else 0;
    forall k | 0 <= k < |was| && k != i ensures Moved(was[k], now[k], ds + [d]) {
      DoneMoves(mid[k], now[k], d);
      MovedThen(was[k], mid[k], now[k], ds, [d]);
    }
    forall k | |was| <= k < |now| ensures Born(now[k], ds + [d], lo) {
      if k < |mid| {
        DoneMoves(mid[k], now[k], d);
        BornThen(mid[k], now[k], ds, [d], lo);
      } else {
        JustBorn(now[k], ds, d, lo);
      }
    }
  }

  lemma JustBorn(s: Slot, ds: seq<Deed>, d: Deed, lo: int)
    requires d.action.Spawn? && s == Slot(lo + Spawns(ds), d.doer, -1, d.action.kind, Ready, 100, 0)
    ensures Born(s, ds + [d], lo)
  {
    var all := ds + [d];
    assert all[..|ds|] == ds && all[|ds| + 1..] == [];
    assert BornAt(s, all, lo, |ds|);
  }

  // ---------------------------------------------------------------- the deeds of a tick

  ghost function Runs(log: seq<Visit>): nat {
    if log == [] then 0 else Runs(log[..|log| - 1]) + if log[|log| - 1].ran then 1 else 0
  }

  /** What a process does at a visit, after n processes have run. */
  ghost function DeedsOf(v: Visit, n: nat, bs: seq<Behaviour>): seq<Deed> {
    if v.ran && n < |bs| then By(v.before.id, bs[n].actions) else []
  }

  /** All that the visited processes did, in order. */
  ghost function Deeds(log: seq<Visit>, bs: seq<Behaviour>): seq<Deed> {
    if log == [] then []
    else
      var rest := log[..|log| - 1];
      Deeds(rest, bs) + DeedsOf(log[|log| - 1], Runs(rest), bs)
  }

  /** A process nobody has visited yet: as it was at the start or was spawned, but for what it was told. */
  ghost predicate Waiting(s: Slot, start: seq<Slot>, lo: int, ds: seq<Deed>) {
    (exists k :: 0 <= k < |start| && Moved(start[k], s, ds)) || Born(s, ds, lo)
  }

  ghost predicate LeftBy(s: Slot, log: seq<Visit>, bs: seq<Behaviour>, k: nat) {
    k < |log| && !log[k].removed && |Deeds(log[..k + 1], bs)| <= |Deeds(log, bs)| &&
    Moved(log[k].after, s, Deeds(log, bs)[|Deeds(log[..k + 1], bs)|..])
  }

  /** A process that has been visited: as the visit left it, but for what it was told since. */
  ghost predicate Settled(s: Slot, log: seq<Visit>, bs: seq<Behaviour>) {
    exists k :: LeftBy(s, log, bs, k)
  }

  /** A process that ran, the n-th to do so, is left as its behaviour says. */
  ghost predicate RanAs(v: Visit, n: nat, bs: seq<Behaviour>) {
    v.ran ==>
      v.after.kind == v.before.kind && v.after.parent == v.before.parent &&
      if n < |bs| then v.after.state == bs[n].finish && v.after.speed == bs[n].speed
      else v.after.state == Suspended && v.after.speed == 100
  }

  /** A process knows the last one it spawned. */
  ghost predicate Fathered(v: Visit, ds: seq<Deed>, es: seq<Deed>, lo: int) {
    v.ran ==>
      v.after.lastChild == if Spawns(es) == 0 then v.before.lastChild else lo + Spawns(ds) + Spawns(es) - 1
  }

  /** The k-th visit met a process in the state it was due to be in, and left it as its behaviour says. */
  ghost predicate Arrived(log: seq<Visit>, k: nat, start: seq<Slot>, lo: int, bs: seq<Behaviour>) {
    k < |log| && Waiting(log[k].before, start, lo, Deeds(log[..k], bs)) && RanAs(log[k], Runs(log[..k]), bs) &&
    Fathered(log[k], Deeds(log[..k], bs), DeedsOf(log[k], Runs(log[..k]), bs), lo)
  }

  ghost predicate Traced(start: seq<Slot>, lo: int, hi: int, bs: seq<Behaviour>, pool: seq<Slot>, i: nat,
        log: seq<Visit>) {
    i <= |pool| && hi == lo + Spawns(Deeds(log, bs)) &&
    (forall k :: 0 <= k < |log| ==> Arrived(log, k, start, lo, bs)) &&
    (forall k :: 0 <= k < i ==> Settled(pool[k], log, bs)) &&
    forall k :: i <= k < |pool| ==> Waiting(pool[k], start, lo, Deeds(log, bs))
  }

  lemma MovedSame(s: Slot)
    ensures Moved(s, s, [])
  {
  }

  lemma TraceStarts(pool: seq<Slot>, lo: int, bs: seq<Behaviour>)
    ensures Traced(pool, lo, lo, bs, pool, 0, []) && Runs([]) == 0
  {
    forall k | 0 <= k < |pool| ensures Waiting(pool[k], pool, lo, Deeds([], bs)) {
      MovedSame(pool[k]);
    }
  }

  lemma DeedsSnoc(log: seq<Visit>, v: Visit, bs: seq<Behaviour>)
    ensures Deeds(log + [v], bs) == Deeds(log, bs) + DeedsOf(v, Runs(log), bs)
    ensures Runs(log + [v]) == Runs(log) + if v.ran then 1 else 0
  {
    assert (log + [v])[..|log|] == log;
  }

  lemma WaitingMore(s: Slot, t: Slot, start: seq<Slot>, lo: int, ds: seq<Deed>, es: seq<Deed>)
    requires Waiting(s, start, lo, ds) && Moved(s, t, es)
    ensures Waiting(t, start, lo, ds + es)
  {
    hide Moved, Born;
    if k :| 0 <= k < |start| && Moved(start[k], s, ds) {
      MovedThen(start[k], s, t, ds, es);
    } else {
      BornThen(s, t, ds, es, lo);
    }
  }

  lemma SettledMore(s: Slot, t: Slot, log: seq<Visit>, v: Visit, bs: seq<Behaviour>)
    requires Settled(s, log, bs) && Moved(s, t, DeedsOf(v, Runs(log), bs))
    ensures Settled(t, log + [v], bs)
  {
    hide Moved, DeedsOf;
    var k: nat :| LeftBy(s, log, bs, k);
    var more := log + [v];
    DeedsSnoc(log, v, bs);
    assert more[..k + 1] == log[..k + 1];
    var n := |Deeds(log[..k + 1], bs)|;
    var es := DeedsOf(v, Runs(log), bs);
    assert Deeds(more, bs)[n..] == Deeds(log, bs)[n..] + es;
    MovedThen(log[k].after, s, t, Deeds(log, bs)[n..], es);
    assert LeftBy(t, more, bs, k);
  }

  lemma JustLeft(log: seq<Visit>, v: Visit, bs: seq<Behaviour>)
    requires !v.removed
    ensures Settled(v.after, log + [v], bs)
  {
    var more := log + [v];
    assert more[..|log| + 1] == more;
    assert Deeds(more, bs)[|Deeds(more, bs)|..] == [];
    MovedSame(v.after);
    assert LeftBy(v.after, more, bs, |log|);
  }

  lemma ArrivedSnoc(log: seq<Visit>, v: Visit, start: seq<Slot>, lo: int, bs: seq<Behaviour>)
    requires forall k :: 0 <= k < |log| ==> Arrived(log, k, start, lo, bs)
    requires Waiting(v.before, start, lo, Deeds(log, bs)) && RanAs(v, Runs(log), bs)
    requires Fathered(v, Deeds(log, bs), DeedsOf(v, Runs(log), bs), lo)
    ensures forall k :: 0 <= k < |log| + 1 ==> Arrived(log + [v], k, start, lo, bs)
  {
    hide Waiting, RanAs, Fathered, DeedsOf;
    var more := log + [v];
    forall k | 0 <= k < |more| ensures Arrived(more, k, start, lo, bs) {
      assert more[..k] == log[..k];
      if k == |log| {
        assert log[..k] == log;
      } else {
        assert Arrived(log, k, start, lo, bs);
      }
    }
  }

  /** A visit of slot i, before the slot is given up if the process is dead. */
  lemma TraceVisit(start: seq<Slot>, lo: int, hi: int, bs: seq<Behaviour>, pool: seq<Slot>, i: nat, log: seq<Visit>,
        v: Visit, now: seq<Slot>)
    requires Traced(start, lo, hi, bs, pool, i, log) && i < |pool| <= |now| && v.before == pool[i] && v.after == now[i]
    requires Acted(pool, now, i, DeedsOf(v, Runs(log), bs), hi) && RanAs(v, Runs(log), bs)
    ensures var more := log + [v];
            lo + Spawns(Deeds(more, bs)) == hi + |now| - |pool| &&
            (forall k :: 0 <= k < |more| ==> Arrived(more, k, start, lo, bs)) &&
            (forall k :: 0 <= k < i ==> Settled(now[k], more, bs)) &&
            forall k :: i < k < |now| ==> Waiting(now[k], start, lo, Deeds(more, bs))
  {
    hide Moved, Born, Settled, Waiting, DeedsOf, RanAs, Arrived;
    var es := DeedsOf(v, Runs(log), bs);
    DeedsSnoc(log, v, bs);
    SpawnsSum(Deeds(log, bs), es);
    ArrivedSnoc(log, v, start, lo, bs);
    forall k | 0 <= k < i ensures Settled(now[k], log + [v], bs) {
      SettledMore(pool[k], now[k], log, v, bs);
    }
    forall k | i < k < |now| ensures Waiting(now[k], start, lo, Deeds(log, bs) + es) {
      if k < |pool| {
        WaitingMore(pool[k], now[k], start, lo, Deeds(log, bs), es);
      } else {
        BornAfter(now[k], Deeds(log, bs), es, lo);
        BornWaits(now[k], start, lo, Deeds(log, bs) + es);
      }
    }
  }

  lemma BornWaits(s: Slot, start: seq<Slot>, lo: int, ds: seq<Deed>)
    requires Born(s, ds, lo)
    ensures Waiting(s, start, lo, ds)
  {
  }

  lemma TraceStays(start: seq<Slot>, lo: int, hi: int, bs: seq<Behaviour>, pool: seq<Slot>, i: nat, log: seq<Visit>,
        v: Visit, now: seq<Slot>)
    requires Traced(start, lo, hi, bs, pool, i, log) && i < |pool| <= |now| && v.before == pool[i] && v.after == now[i]
    requires Acted(pool, now, i, DeedsOf(v, Runs(log), bs), hi) && RanAs(v, Runs(log), bs)
    requires !v.removed
    ensures Traced(start, lo, hi + |now| - |pool|, bs, now, i + 1, log + [v])
  {
    hide Settled, Waiting, DeedsOf, RanAs, Arrived, Moved, Born;
    TraceVisit(start, lo, hi, bs, pool, i, log, v, now);
    JustLeft(log, v, bs);
  }

  lemma TraceRemoves(start: seq<Slot>, lo: int, hi: int, bs: seq<Behaviour>, pool: seq<Slot>, i: nat,
        log: seq<Visit>, v: Visit, now: seq<Slot>)
    requires Traced(start, lo, hi, bs, pool, i, log) && i < |pool| <= |now| && v.before == pool[i] && v.after == now[i]
    requires Acted(pool, now, i, DeedsOf(v, Runs(log), bs), hi) && RanAs(v, Runs(log), bs)
    ensures Traced(start, lo, hi + |now| - |pool|, bs, Removed(now, i), i, log + [v])
  {
    hide Settled, Waiting, DeedsOf, RanAs, Arrived, Moved, Born;
    TraceVisit(start, lo, hi, bs, pool, i, log, v, now);
    var r := Removed(now, i);
    assert forall k :: 0 <= k < |r| ==> r[k] == now[if k == i then |now| - 1 else k];
  }

  /** A process that was there at the start of the tick comes to its visit as all deeds so far leave it. */
  lemma ToldSinceStart(log: seq<Visit>, k: nat, start: seq<Slot>, lo: int, bs: seq<Behaviour>, j: nat)
    requires Arrived(log, k, start, lo, bs) && Distinct(start) && Below(start, lo)
    requires j < |start| && start[j].id == log[k].before.id
    ensures Moved(start[j], log[k].before, Deeds(log[..k], bs))
  {
    hide Moved, Born;
    var s, ds := log[k].before, Deeds(log[..k], bs);
    if Born(s, ds, lo) { BornLate(s, ds, lo); }
    var i :| 0 <= i < |start| && Moved(start[i], s, ds);
    MovedId(start[i], s, ds);
    assert i == j;
  }

  lemma BornLate(s: Slot, ds: seq<Deed>, lo: int)
    requires Born(s, ds, lo)
    ensures s.id >= lo
  {
  }

  lemma MovedId(s: Slot, t: Slot, ds: seq<Deed>)
    requires Moved(s, t, ds)
    ensures t.id == s.id
  {
  }

  /** The last deed that addresses a process before its visit decides what happens there: a killed one goes
      without running, a frozen or sleeping one is passed over, one that was woken runs when it is due. */
  lemma SignalsDecide(log: seq<Visit>, k: nat, start: seq<Slot>, lo: int, bs: seq<Behaviour>, ms: int, j: nat, d: int)
    requires Arrived(log, k, start, lo, bs) && Proper(log[k], ms) && Distinct(start) && Below(start, lo)
    requires j < |start| && start[j].id == log[k].before.id
    requires Last(Deeds(log[..k], bs), d, start[j].id, start[j].kind)
    ensures var v, a := log[k], Deeds(log[..k], bs)[d].action;
            var s := if a.LetMeAlone? then Kill else a.sig;
            (s.Kill? ==> v.removed && !v.ran) &&
            (s.Freeze? ==> v.before.state == Frozen) && (s.Sleep? ==> v.before.state == Sleeping) &&
            (s.Freeze? || s.Sleep? ==> !v.removed && !v.ran && v.after == v.before) &&
            (s.Wakeup? ==> (v.ran <==> v.before.speed >= 100 || v.before.waited + ms >= 2 * (100 - v.before.speed)))
  {
    hide Distinct, Below;
    ToldSinceStart(log, k, start, lo, bs, j);
    var ds := Deeds(log[..k], bs);
    var e :| Last(ds, e, start[j].id, start[j].kind) && log[k].before.state == Imposed(ds[e].action);
    assert e == d;
  }

  /** What a tick without an error has done. It visited every process there was and every one spawned, once;
      at each visit it met the process as told so far, ran it if it was due and removed it if it was dead; the
      others are left as told since. */
  ghost predicate Ticked(start: seq<Slot>, lo: int, pool: seq<Slot>, hi: int, ms: int, bs: seq<Behaviour>,
        log: seq<Visit>, used: nat) {
    Once(log) && Visited(log) == Ids(start) + Range(lo, hi) && Ids(pool) == Visited(log) - Gone(log) &&
    (forall k :: 0 <= k < |log| ==> Proper(log[k], ms) && Arrived(log, k, start, lo, bs)) &&
    (forall k :: 0 <= k < |pool| ==> Settled(pool[k], log, bs)) &&
    hi == lo + Spawns(Deeds(log, bs)) && used == if Runs(log) < |bs| then Runs(log) else |bs|
  }

  // ---------------------------------------------------------------- the machine

  class VM {
    var pool: seq<Slot>
    var nextId: int
    var currentId: int
    var currentSlot: int
    var hadError: bool

    ghost predicate Valid()
      reads this
    {
      nextId > 0 && Distinct(pool) && Below(pool, nextId) && -1 <= currentSlot < |pool| &&
      if currentSlot == -1 then currentId == -1 else pool[currentSlot].id == currentId
    }

    constructor ()
      ensures Valid() && pool == [] && nextId == 1 && currentSlot == -1 && !hadError
    {
      pool, nextId, currentId, currentSlot, hadError := [], 1, -1, -1, false;
    }

    /** The running process, if any, dies with the error. */
    method RuntimeError()
      requires Valid()
      modifies `pool, `hadError
      ensures Valid() && hadError && |pool| == |old(pool)|
      ensures forall k :: 0 <= k < |pool| ==> pool[k] == if k == currentSlot then old(pool)[k].(state := Error)
              else old(pool)[k]
    {
      hadError := true;
      if currentSlot >= 0 {
        pool := pool[currentSlot := pool[currentSlot].(state := Error)];
      }
    }

    /** Add a process, and tell its parent. */
    method SpawnProcess(kind: nat, isGeneric: bool) returns (id: int)
      requires Valid()
      modifies `pool, `nextId, `hadError
      ensures Valid() && Extends(old(pool), pool, old(nextId)) && hadError == (old(hadError) || isGeneric)
      ensures isGeneric ==> id == -1 && |pool| == |old(pool)| && nextId == old(nextId)
      ensures isGeneric ==> forall k :: 0 <= k < |pool| ==>
                pool[k] == if k == currentSlot then old(pool)[k].(state := Error) else old(pool)[k]
      ensures !isGeneric ==> id == old(nextId) && nextId == id + 1 && |pool| == |old(pool)| + 1
      ensures !isGeneric ==> pool[|old(pool)|] == Slot(id, currentId, -1, kind, Ready, 100, 0)
      ensures !isGeneric ==> forall k :: 0 <= k < |old(pool)| ==>
                pool[k] == if currentId >= 0 && old(pool)[k].id == currentId then old(pool)[k].(lastChild := id)
                    else old(pool)[k]
    {
      if isGeneric {
        RuntimeError();
        return -1;
      }
      id := nextId;
      nextId := nextId + 1;
      pool := pool + [Slot(id, currentId, -1, kind, Ready, 100, 0)];
      ghost var grown := pool;
      if currentId >= 0 {
        var i := 0;
        while i < |pool| - 1
          invariant 0 <= i <= |pool| - 1 && pool == grown && forall k :: 0 <= k < i ==> pool[k].id != currentId
        {
          if pool[i].id == currentId {
            pool := pool[i := pool[i].(lastChild := id)];
            break;
          }
          i := i + 1;
        }
      }
    }

    /** Signal the process with an id, if there is one. */
    method SignalProcess(id: int, sig: Signal)
      requires Valid()
      modifies `pool
      ensures Valid() && |pool| == |old(pool)|
      ensures forall k :: 0 <= k < |pool| ==>
                pool[k] == if old(pool)[k].id == id then old(pool)[k].(state := Applied(sig)) else old(pool)[k]
    {
      ghost var was := pool;
      var i := 0;
      while i < |pool|
        invariant 0 <= i <= |pool| && pool == was && forall k :: 0 <= k < i ==> pool[k].id != id
      {
        if pool[i].id == id {
          pool := pool[i := pool[i].(state := Applied(sig))];
          break;
        }
        i := i + 1;
      }
    }

    /** Signal every process of a kind. */
    method SignalType(kind: nat, sig: Signal)
      requires Valid()
      modifies `pool
      ensures Valid() && |pool| == |old(pool)|
      ensures forall k :: 0 <= k < |pool| ==>
                pool[k] == if old(pool)[k].kind == kind then old(pool)[k].(state := Applied(sig)) else old(pool)[k]
    {
      var i := 0;
      while i < |pool|
        invariant 0 <= i <= |pool| == |old(pool)|
        invariant forall k :: 0 <= k < i ==>
                    pool[k] == if old(pool)[k].kind == kind then old(pool)[k].(state := Applied(sig)) else old(pool)[k]
        invariant forall k :: i <= k < |pool| ==> pool[k] == old(pool)[k]
      {
        if pool[i].kind == kind {
          pool := pool[i := pool[i].(state := Applied(sig))];
        }
        i := i + 1;
      }
    }

    /** Kill every process but the running one. */
    method KillOthers()
      requires Valid()
      modifies `pool
      ensures Valid() && |pool| == |old(pool)|
      ensures forall k :: 0 <= k < |pool| ==>
                pool[k] == if old(pool)[k].id != currentId then old(pool)[k].(state := Done) else old(pool)[k]
    {
      var i := 0;
      while i < |pool|
        invariant 0 <= i <= |pool| == |old(pool)|
        invariant forall k :: 0 <= k < i ==>
                    pool[k] == if old(pool)[k].id != currentId then old(pool)[k].(state := Done) else old(pool)[k]
        invariant forall k :: i <= k < |pool| ==> pool[k] == old(pool)[k]
      {
        if pool[i].id != currentId {
          pool := pool[i := pool[i].(state := Done)];
        }
        i := i + 1;
      }
    }

    /** One action of the running process, the one in slot i. */
    method Act(i: nat, a: Action)
      requires Valid() && i == currentSlot && !hadError
      modifies `pool, `nextId, `hadError
      ensures Valid() && Extends(old(pool), pool, old(nextId)) && nextId == old(nextId) + |pool| - |old(pool)|
      ensures |old(pool)| <= |pool| <= |old(pool)| + 1 && hadError == Refused(a)
      ensures pool[i].waited == old(pool)[i].waited && (hadError ==> pool[i].state == Error)
      ensures !hadError ==> Does(old(pool), pool, i, Deed(currentId, a), old(nextId))
    {
      match a {
        case Spawn(kind, isGeneric) => var id := SpawnProcess(kind, isGeneric);
        case SignalId(id, sig) => SignalProcess(id, sig);
        case SignalKind(kind, sig) => SignalType(kind, sig);
        case LetMeAlone => KillOthers();
      }
    }

    /** Run the process in slot i through one behaviour. */
    method Execute(i: nat, b: Behaviour)
      requires Valid() && i == currentSlot && !hadError
      modifies `pool, `nextId, `hadError
      ensures Valid() && Extends(old(pool), pool, old(nextId)) && nextId == old(nextId) + |pool| - |old(pool)|
      ensures |pool| <= |old(pool)| + |b.actions| && hadError == Fails(b)
      ensures if hadError then pool[i].state == Error else
                pool[i].state == b.finish && pool[i].speed == b.speed && pool[i].waited == old(pool)[i].waited
      ensures !hadError ==> Acted(old(pool), pool, i, By(currentId, b.actions), old(nextId))
    {
      hide Distinct, Below, Acted, Does, Extends;
      ghost var was, from, me := pool, nextId, currentId;
      ActedNone(pool, i, from);
      ExtendsSame(pool, from);
      assert By(me, b.actions[..0]) == [];
      var a := 0;
      while a < |b.actions|
        invariant 0 <= a <= |b.actions| && Valid() && Extends(was, pool, from) && nextId == from + |pool| - |was|
        invariant |was| <= |pool| <= |was| + a && pool[i].waited == was[i].waited && !hadError
        invariant forall k :: 0 <= k < a ==> !Refused(b.actions[k])
        invariant Acted(was, pool, i, By(me, b.actions[..a]), from)
      {
        ghost var mid := pool;
        ActedSize(was, pool, i, By(me, b.actions[..a]), from);
        Act(i, b.actions[a]);
        ExtendsTwice(was, mid, pool, from);
        if hadError {
          assert Refused(b.actions[a]);
          return;
        }
        ActedThen(was, mid, pool, i, By(me, b.actions[..a]), Deed(me, b.actions[a]), from);
        assert By(me, b.actions[..a + 1]) == By(me, b.actions[..a]) + [Deed(me, b.actions[a])];
        a := a + 1;
      }
      assert b.actions[..a] == b.actions;
      if b.fails {
        ghost var mid := pool;
        RuntimeError();
        ExtendsLike(was, mid, pool, from);
        return;
      }
      ghost var s := pool[i].(state := b.finish, speed := b.speed);
      SameIds(pool, i, s, nextId);
      ActedSize(was, pool, i, By(me, b.actions), from);
      ActedEnds(was, pool, i, By(me, b.actions), from, s);
      pool := pool[i := pool[i].(state := b.finish, speed := b.speed)];
    }

    method KillAll()
      requires currentSlot == -1
      modifies `pool
      ensures pool == []
    {
      pool := [];
    }

    /** Change a slot's fiber in place. */
    method Touch(i: nat, s: Slot, ghost start: set<int>, ghost lo: int, ghost log: seq<Visit>)
      requires Valid() && i < |pool| && s.id == pool[i].id && Tracked(start, lo, nextId, pool, i, log)
      modifies `pool
      ensures Valid() && pool == old(pool)[i := s] && Tracked(start, lo, nextId, pool, i, log)
    {
      TrackExtends(start, lo, nextId, pool, i, log, pool[i := s]);
      pool := pool[i := s];
    }

    /** Whether the process in slot i runs at this visit; a slowed one counts the time. */
    method Gate(i: nat, ms: int, ghost start: set<int>, ghost lo: int, ghost log: seq<Visit>) returns (runs: bool)
      requires Valid() && i < |pool| && !Dead(pool[i].state) && Tracked(start, lo, nextId, pool, i, log)
      modifies `pool
      ensures Valid() && Tracked(start, lo, nextId, pool, i, log) && |pool| == |old(pool)| &&
              runs == Due(old(pool)[i], ms)
      ensures !runs ==> !Dead(pool[i].state) && Proper(Visit(old(pool)[i], pool[i], false, false), ms)
      ensures pool == old(pool)[i := old(pool)[i].(waited := pool[i].waited)]
      ensures runs ==>
                pool[i].waited ==
                  if old(pool)[i].state == Suspended && old(pool)[i].speed < 100 then 0 else old(pool)[i].waited
    {
      hide Tracked, Distinct, Below;
      if pool[i].state == Frozen || pool[i].state == Sleeping {
        return false;
      }
      if pool[i].state == Suspended && pool[i].speed < 100 {
        Touch(i, pool[i].(waited := pool[i].waited + ms), start, lo, log);
        var interval := (100 - pool[i].speed) * 2;
        if interval <= 0 {
          interval := 1;
        }
        if pool[i].waited < interval {
          return false;
        }
        Touch(i, pool[i].(waited := 0), start, lo, log);
      }
      return pool[i].state == Ready || pool[i].state == Suspended;
    }

    /** Give the process in slot i the processor. */
    method Resume(i: nat, b: Behaviour, ghost start: set<int>, ghost lo: int, ghost log: seq<Visit>)
      requires Valid() && i < |pool| && currentSlot == -1 && !hadError && Tracked(start, lo, nextId, pool, i, log)
      modifies this
      ensures Valid() && currentSlot == -1 && nextId == old(nextId) + |pool| - |old(pool)| &&
              |old(pool)| <= |pool| <= |old(pool)| + |b.actions| && hadError == Fails(b)
      ensures !hadError ==>
                Tracked(start, lo, nextId, pool, i, log) && pool[i].id == old(pool)[i].id &&
                pool[i].waited == old(pool)[i].waited
      ensures !hadError ==>
                pool[i].state == b.finish && pool[i].speed == b.speed &&
                Acted(old(pool), pool, i, By(old(pool)[i].id, b.actions), old(nextId))
    {
      hide Tracked, Distinct, Below, Acted;
      Touch(i, pool[i].(state := Running), start, lo, log);
      ghost var was, top := pool, nextId;
      currentId, currentSlot := pool[i].id, i;
      Execute(i, b);
      currentId, currentSlot := -1, -1;
      TrackExtends(start, lo, top, was, i, log, pool);
      if !hadError {
        ActedFrom(old(pool), was, pool, i, By(was[i].id, b.actions), top);
      }
    }

    /** Visit slot i: run the process if it is due, with the next behaviour. */
    method Attend(i: nat, ms: int, behaviours: seq<Behaviour>, next: nat, ghost start: set<int>, ghost lo: int,
          ghost log: seq<Visit>)
      returns (runs: bool, after: nat)
      requires Valid() && i < |pool| && currentSlot == -1 && !hadError && Tracked(start, lo, nextId, pool, i, log) &&
               next <= |behaviours|
      modifies this
      ensures Valid() && currentSlot == -1 && old(nextId) <= nextId && |old(pool)| <= |pool|
      ensures after == (if runs && next < |behaviours| then next + 1 else next)
      ensures after == next ==> !hadError && |pool| == |old(pool)|
      ensures after > next ==> hadError == Fails(behaviours[next])
      ensures !hadError ==>
                Tracked(start, lo, nextId, pool, i, log) && pool[i].id == old(pool)[i].id &&
                nextId == old(nextId) + |pool| - |old(pool)|
      ensures !hadError ==> Proper(Visit(old(pool)[i], pool[i], runs, Dead(pool[i].state)), ms)
      ensures !hadError ==>
                var v := Visit(old(pool)[i], pool[i], runs, Dead(pool[i].state));
                RanAs(v, next, behaviours) && Acted(old(pool), pool, i, DeedsOf(v, next, behaviours), old(nextId))
    {
      hide Tracked, Distinct, Below, Proper, Fails, Acted;
      ActedNone(pool, i, nextId);
      ghost var was, top := pool, nextId;
      after := next;
      runs := false;
      ghost var before := pool[i];
      if !Dead(pool[i].state) {
        runs := Gate(i, ms, start, lo, log);
        if runs {
          IdleRuns();
          var b := if next < |behaviours| then behaviours[next] else Idle();
          after := if next < |behaviours| then next + 1 else next;
          ghost var mid := pool;
          Resume(i, b, start, lo, log);
          if !hadError {
            ActedFrom(was, mid, pool, i, By(before.id, b.actions), top);
            ActedKeeps(was, pool, i, By(before.id, b.actions), top);
            assert next >= |behaviours| ==> By(before.id, b.actions) == [];
          }
        } else {
          ActedWaits(was, pool, i, top);
        }
      }
      if !hadError { VisitProper(Visit(before, pool[i], runs, Dead(pool[i].state)), ms); }
    }

    /** Where a tick is, and what it has done so far. */
    ghost predicate Ticking(first: seq<Slot>, lo: int, i: nat, ms: int, behaviours: seq<Behaviour>, next: nat,
          log: seq<Visit>)
      reads this
    {
      lo <= nextId && i <= |pool| &&
      Tracked(Ids(first), lo, nextId, pool, i, log) && Traced(first, lo, nextId, behaviours, pool, i, log) &&
      AllProper(log, ms) && NoneFails(behaviours, next) &&
      next == if Runs(log) < |behaviours| then Runs(log) else |behaviours|
    }

    /** Visit slot i and give it up if its process is dead. */
    method Turn(i: nat, ms: int, behaviours: seq<Behaviour>, next: nat, ghost first: seq<Slot>, ghost lo: int,
          ghost log: seq<Visit>)
      returns (stays: bool, after: nat, ghost v: Visit)
      requires Valid() && i < |pool| && currentSlot == -1 && !hadError
      requires Ticking(first, lo, i, ms, behaviours, next, log)
      modifies this
      ensures Valid() && currentSlot == -1 && old(nextId) <= nextId && next <= after <= next + 1
      ensures after <= |behaviours| && if after == next then !hadError else hadError == Fails(behaviours[next])
      ensures !hadError ==> Ticking(first, lo, if stays then i + 1 else i, ms, behaviours, after, log + [v])
      ensures !hadError && after == next ==> |pool| == |old(pool)| - if stays then 0 else 1
    {
      hide Tracked, Traced, Removed, Distinct, Below, Proper, Once, Fails, Due, Acted, RanAs, DeedsOf, Ids, Runs,
          NoneFails, AllProper;
      ghost var was, top := pool, nextId;
      stays := true;
      var runs;
      runs, after := Attend(i, ms, behaviours, next, Ids(first), lo, log);
      v := Visit(was[i], pool[i], runs, Dead(pool[i].state));
      if !hadError {
        NoneFailsMore(behaviours, next, after);
        ProperSnoc(log, v, ms);
        DeedsSnoc(log, v, behaviours);
        ActedNext(log, v, behaviours, next, was, pool, i, top);
        if Dead(pool[i].state) {
          TraceRemoves(first, lo, top, behaviours, was, i, log, v, pool);
          TrackRemoves(Ids(first), lo, nextId, pool, i, log, v);
          RemovedValid(pool, i, nextId);
          pool := Removed(pool, i);
          stays := false;
        } else {
          TraceStays(first, lo, top, behaviours, was, i, log, v, pool);
          TrackStays(Ids(first), lo, nextId, pool, i, log, v);
        }
      }
    }

    lemma TickStarts(ms: int, behaviours: seq<Behaviour>)
      requires Valid()
      ensures Ticking(pool, nextId, 0, ms, behaviours, 0, [])
    {
      TrackStarts(pool, nextId);
      TraceStarts(pool, nextId, behaviours);
    }

    lemma TickNow(first: seq<Slot>, lo: int, i: nat, ms: int, behaviours: seq<Behaviour>, next: nat, log: seq<Visit>)
      requires Ticking(first, lo, i, ms, behaviours, next, log)
      ensures i <= |pool| && lo <= nextId && NoneFails(behaviours, next) && next <= |behaviours|
    {
    }

    lemma TickEnds(first: seq<Slot>, lo: int, ms: int, behaviours: seq<Behaviour>, next: nat, log: seq<Visit>)
      requires Ticking(first, lo, |pool|, ms, behaviours, next, log)
      ensures Ticked(first, lo, pool, nextId, ms, behaviours, log, next)
    {
      hide Arrived, Settled, Proper;
      TrackEnds(Ids(first), lo, nextId, pool, log);
    }

    /** One tick: visit every process once, running those that are due and removing those that are dead. */
    method Tick(ms: int, behaviours: seq<Behaviour>) returns (alive: nat, ghost log: seq<Visit>, ghost used: nat)
      requires Valid() && currentSlot == -1
      modifies this
      ensures Valid() && currentSlot == -1 && alive == |pool| && old(nextId) <= nextId
      ensures hadError ==> pool == []
      ensures used <= |behaviours| && NoneFails(behaviours, used - 1)
      ensures hadError == (old(hadError) || (used > 0 && Fails(behaviours[used - 1])))
      ensures !hadError ==> Ticked(old(pool), old(nextId), pool, nextId, ms, behaviours, log, used)
    {
      log := [];
      used := 0;
      if hadError {
        KillAll();
        return 0, log, used;
      }
      ghost var first, lo := pool, nextId;
      TickStarts(ms, behaviours);
      hide Ticking, Ticked, Distinct, Below, Fails, NoneFails;
      var next := 0;
      var i := 0;
      while i < |pool|
        invariant i <= |pool| && Valid() && currentSlot == -1 && !hadError && next == used
        invariant Ticking(first, lo, i, ms, behaviours, next, log)
        decreases |behaviours| - next, |pool| - i
      {
        TickNow(first, lo, i, ms, behaviours, next, log);
        var stays;
        ghost var v;
        stays, next, v := Turn(i, ms, behaviours, next, first, lo, log);
        if hadError {
          used := next;
          KillAll();
          return 0, log, used;
        }
        used := next;
        log := log + [v];
        if stays {
          i := i + 1;
        }
        TickNow(first, lo, i, ms, behaviours, next, log);
      }
      TickNow(first, lo, i, ms, behaviours, next, log);
      TickEnds(first, lo, ms, behaviours, next, log);
      NoneFailsLess(behaviours, next);
      return |pool|, log, used;
    }
  }

  ghost predicate NoneFails(bs: seq<Behaviour>, n: int) {
    forall k :: 0 <= k < n && k < |bs| ==> !Fails(bs[k])
  }

  lemma NoneFailsMore(bs: seq<Behaviour>, n: nat, m: nat)
    requires NoneFails(bs, n) && (m == n || (m == n + 1 && n < |bs| && !Fails(bs[n])))
    ensures NoneFails(bs, m)
  {
    hide Fails;
  }

  lemma NoneFailsLess(bs: seq<Behaviour>, n: int)
    requires NoneFails(bs, n)
    ensures NoneFails(bs, n - 1) && (0 < n <= |bs| ==> !Fails(bs[n - 1]))
  {
  }

  /** The deeds of the next visit, counted by behaviours used or by processes run. */
  lemma ActedNext(log: seq<Visit>, v: Visit, bs: seq<Behaviour>, next: nat, was: seq<Slot>, now: seq<Slot>, i: nat,
        lo: int)
    requires next == if Runs(log) < |bs| then Runs(log) else |bs|
    requires RanAs(v, next, bs) && Acted(was, now, i, DeedsOf(v, next, bs), lo)
    ensures RanAs(v, Runs(log), bs) && Acted(was, now, i, DeedsOf(v, Runs(log), bs), lo)
  {
    hide Acted;
  }

  lemma VisitProper(v: Visit, ms: int)
    requires v.after.id == v.before.id && (v.removed <==> Dead(v.after.state))
    requires Dead(v.before.state) ==> !v.ran && v.after == v.before
    requires !Dead(v.before.state) ==> v.ran == Due(v.before, ms)
    requires v.ran ==>
               v.after.waited == if v.before.state == Suspended && v.before.speed < 100 then 0 else v.before.waited
    requires !Dead(v.before.state) && !v.ran ==> Proper(v, ms)
    ensures Proper(v, ms)
  {
  }

  lemma RemovedValid(pool: seq<Slot>, i: nat, hi: int)
    requires Distinct(pool) && Below(pool, hi) && i < |pool|
    ensures Distinct(Removed(pool, i)) && Below(Removed(pool, i), hi) && |Removed(pool, i)| == |pool| - 1
  {
  }

  lemma TrackStarts(pool: seq<Slot>, lo: int)
    requires Distinct(pool) && Below(pool, lo) && lo > 0
    ensures Tracked(Ids(pool), lo, lo, pool, 0, [])
  {
    assert Ids(pool[..0]) == {};
  }
}
