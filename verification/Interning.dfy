/** The string interning table: open addressing with linear probing over a power-of-two array, grown at
    three quarters load and rebuilt by the collector without the strings about to be freed. */
module Interning {
  import Values

  type byte = x: int | 0 <= x < 256
  type Bytes = seq<byte>

  datatype Option<T> = None | Some(value: T)

  // ---------------------------------------------------------------- probing

  /** What each slot's string is, if it has one. */
  type Slots = seq<Option<Bytes>>

  /** The slot d places after home, wrapping around. */
  function At(home: int, d: int, n: int): int {
    if home + d < n then home + d else home + d - n
  }

  /** How far slot j is from home, wrapping around. */
  function Far(home: int, j: int, n: int): int {
    if j >= home then j - home else j - home + n
  }

  /** Capacities are powers of two, so that masking a hash by capacity - 1 gives its remainder. */
  predicate PowerOfTwo(n: int) {
    n == 1 || (n > 1 && n % 2 == 0 && PowerOfTwo(n / 2))
  }

  function Home(hash: nat, n: nat): (r: nat)
    requires n > 0
    ensures r < n
  {
    hash % n
  }

  function Filled(keys: Slots): (c: nat)
    ensures c <= |keys|
  {
    if keys == [] then 0 else Filled(keys[..|keys| - 1]) + if keys[|keys| - 1].Some? then 1 else 0
  }

  /** The key in slot j is found by probing from its home: no gap comes before it. */
  predicate Found(keys: Slots, h: Bytes -> nat, j: nat)
    requires j < |keys| && keys[j].Some?
  {
    var home := Home(h(keys[j].value), |keys|);
    forall d :: 0 <= d < Far(home, j, |keys|) ==> keys[At(home, d, |keys|)].Some?
  }

  predicate Reached(keys: Slots, h: Bytes -> nat) {
    forall j :: 0 <= j < |keys| && keys[j].Some? ==> Found(keys, h, j)
  }

  predicate Unique(keys: Slots) {
    forall i, j :: 0 <= i < j < |keys| && keys[i].Some? && keys[j].Some? ==> keys[i].value != keys[j].value
  }

  predicate Holds(keys: Slots, k: Bytes) {
    exists j :: 0 <= j < |keys| && keys[j] == Some(k)
  }

  lemma {:induction false} HasGap(keys: Slots) returns (j: nat)
    requires Filled(keys) < |keys|
    ensures j < |keys| && keys[j].None?
  {
    if keys[|keys| - 1].None? {
      j := |keys| - 1;
    } else {
      j := HasGap(keys[..|keys| - 1]);
    }
  }

  lemma {:induction false} FilledMore(keys: Slots, j: nat, k: Bytes)
    requires j < |keys| && keys[j].None?
    ensures Filled(keys[j := Some(k)]) == Filled(keys) + 1
  {
    var n := |keys| - 1;
    var more := keys[j := Some(k)];
    if j < n {
      FilledMore(keys[..n], j, k);
      assert more[..n] == keys[..n][j := Some(k)];
    } else {
      assert more[..n] == keys[..n];
    }
  }

  lemma {:induction false} NothingFilled(keys: Slots)
    requires forall j :: 0 <= j < |keys| ==> keys[j].None?
    ensures Filled(keys) == 0
  {
    if keys != [] { NothingFilled(keys[..|keys| - 1]); }
  }

  /** Probing from home for d places found only other strings. */
  predicate Passed(keys: Slots, home: nat, d: nat, k: Bytes)
    requires home < |keys| && d <= |keys|
  {
    forall e :: 0 <= e < d ==> keys[At(home, e, |keys|)].Some? && keys[At(home, e, |keys|)].value != k
  }

  /** A gap after passing only other strings means the string is not in the table. */
  lemma GapMeansAbsent(keys: Slots, h: Bytes -> nat, k: Bytes, d: nat)
    requires |keys| > 0 && d < |keys| && Reached(keys, h)
    requires Passed(keys, Home(h(k), |keys|), d, k) && keys[At(Home(h(k), |keys|), d, |keys|)].None?
    ensures !Holds(keys, k)
  {
    var home := Home(h(k), |keys|);
    forall j | 0 <= j < |keys| && keys[j].Some? ensures keys[j].value != k {
      var f := Far(home, j, |keys|);
      assert At(home, f, |keys|) == j;
      assert Found(keys, h, j);
    }
  }

  /** Probing never wraps onto itself without meeting a gap. */
  lemma GapAhead(keys: Slots, home: nat, k: Bytes)
    requires home < |keys| && Filled(keys) < |keys|
    ensures !Passed(keys, home, |keys|, k)
  {
    var j := HasGap(keys);
    assert At(home, Far(home, j, |keys|), |keys|) == j;
  }

  /** Putting a new string into the first gap keeps every string reachable. */
  lemma InsertKeeps(keys: Slots, h: Bytes -> nat, k: Bytes, d: nat)
    requires |keys| > 0 && d < |keys| && Reached(keys, h) && Unique(keys) && !Holds(keys, k)
    requires Passed(keys, Home(h(k), |keys|), d, k) && keys[At(Home(h(k), |keys|), d, |keys|)].None?
    ensures var j := At(Home(h(k), |keys|), d, |keys|);
            Reached(keys[j := Some(k)], h) && Unique(keys[j := Some(k)]) &&
            Filled(keys[j := Some(k)]) == Filled(keys) + 1
  {
    var home := Home(h(k), |keys|);
    var j := At(home, d, |keys|);
    var more := keys[j := Some(k)];
    FilledMore(keys, j, k);
    forall i | 0 <= i < |more| && more[i].Some? ensures Found(more, h, i) {
      if i == j {
        assert Far(home, j, |keys|) == d;
      } else {
        assert Found(keys, h, i);
      }
    }
    forall a, b | 0 <= a < b < |more| && more[a].Some? && more[b].Some? ensures more[a].value != more[b].value {
      assert a == j ==> keys[b] != Some(k);
      assert b == j ==> keys[a] != Some(k);
    }
  }

  // ---------------------------------------------------------------- the table

  const INITIAL_CAPACITY := 64

  class StringObj {
    var chars: Bytes
    var hash: nat
    var interned: bool
    var capacity: nat

    constructor (chars: Bytes, hash: nat, interned: bool, capacity: nat)
      ensures this.chars == chars && this.hash == hash && this.interned == interned && this.capacity == capacity
    {
      this.chars, this.hash, this.interned, this.capacity := chars, hash, interned, capacity;
    }
  }

  /** A slot array agrees with what it stands for. */
  ghost predicate Matches(strings: seq<StringObj?>, keys: Slots, entry: map<Bytes, StringObj>) {
    |strings| == |keys| &&
    (forall i :: 0 <= i < |keys| ==> if keys[i].Some? then keys[i].value in entry && strings[i] == entry[keys[i].value]
        else strings[i] == null) &&
    forall k :: k in entry ==> Holds(keys, k)
  }

  /** The strings of a table hold their keys and hashes, are marked as interned and have no room to grow. */
  ghost predicate Sealed(entry: map<Bytes, StringObj>, h: Bytes -> nat)
    reads entry.Values
  {
    forall k :: k in entry ==>
      entry[k].chars == k && entry[k].hash == h(k) && entry[k].interned && entry[k].capacity == 0
  }

  /** What concatenation looks at in an operand, and promises of its result. */
  datatype Shape = Shape(len: nat, interned: bool, capacity: int)

  ghost function ShapeOf(s: StringObj): Shape
    reads s
  {
    Shape(|s.chars|, s.interned, s.capacity)
  }

  /** The shape of a string of the machine's heap. */
  ghost function ShapeAt(h: Values.Heap, x: nat): Shape {
    var o := Values.ObjAt(h, x);
    Shape(|o.chars|, o.interned, o.capacity)
  }

  /** What the machine's addition gives operands of these shapes. */
  ghost predicate AddsTo(a: Shape, b: Shape, r: Shape) {
    forall h, x, y :: ShapeAt(h, x) == a && ShapeAt(h, y) == b ==>
      var q := Values.Concat(h, x, y);
      q.v.Str? && ShapeAt(q.h, q.v.id) == r
  }

  ghost predicate AppendsTo(a: Shape, b: Shape, r: Shape) {
    forall h, x, y :: ShapeAt(h, x) == a && ShapeAt(h, y) == b ==>
      var q := Values.AppendStrings(h, x, y);
      q.v.Str? && ShapeAt(q.h, q.v.id) == r
  }

  lemma ConcatShape(a: Shape, b: Shape, r: Shape)
    requires a.len == 0 ==> r == b
    requires a.len > 0 && b.len == 0 ==> r == a
    requires a.len > 0 && b.len > 0 && a.len + b.len <= 128 ==> r == Shape(a.len + b.len, true, 0)
    requires a.len > 0 && b.len > 0 && a.len + b.len > 128 ==>
               r == Shape(a.len + b.len, false, Values.Roomy(a.len + b.len + 1))
    ensures AddsTo(a, b, r)
  {
  }

  lemma AppendShape(a: Shape, b: Shape, r: Shape)
    requires a.interned || a.len == 0 ==> AddsTo(a, b, r)
    requires !a.interned && a.len > 0 && b.len == 0 ==> r == a
    requires !a.interned && a.len > 0 && b.len > 0 ==>
               r == Shape(a.len + b.len, false,
                          if a.capacity > a.len + b.len then a.capacity else Values.Roomy(a.len + b.len + 1))
    ensures AppendsTo(a, b, r)
  {
    forall h, x, y | ShapeAt(h, x) == a && ShapeAt(h, y) == b
      ensures var q := Values.AppendStrings(h, x, y); q.v.Str? && ShapeAt(q.h, q.v.id) == r
    {
      if a.interned || a.len == 0 {
        assert Values.AppendStrings(h, x, y) == Values.Concat(h, x, y);
      }
    }
  }

  /** The strings that the collector keeps. */
  function Kept(entry: map<Bytes, StringObj>, white: set<StringObj>): map<Bytes, StringObj> {
    map k | k in entry && entry[k] !in white :: entry[k]
  }

  lemma MatchesUpdate(strings: seq<StringObj?>, keys: Slots, entry: map<Bytes, StringObj>, j: nat, k: Bytes,
        s: StringObj)
    requires Matches(strings, keys, entry) && j < |keys| && keys[j].None? && k !in entry
    ensures Matches(strings[j := s], keys[j := Some(k)], entry[k := s])
  {
    var more := keys[j := Some(k)];
    forall x | x in entry[k := s] ensures Holds(more, x) {
      if x == k {
        assert more[j] == Some(k);
      } else {
        var i :| 0 <= i < |keys| && keys[i] == Some(x);
        assert more[i] == Some(x);
      }
    }
  }

  lemma MatchesHolds(strings: seq<StringObj?>, keys: Slots, entry: map<Bytes, StringObj>, k: Bytes)
    requires Matches(strings, keys, entry)
    ensures Holds(keys, k) <==> k in entry
  {
  }

  class StringTable {
    var strings: array<StringObj?>
    var count: nat
    const hashOf: Bytes -> nat
    ghost var keys: Slots
    ghost var entry: map<Bytes, StringObj>

    /** The slots and their probe sequences are in order. */
    ghost predicate Probed()
      reads this, strings
    {
      strings.Length > 0 && Matches(strings[..], keys, entry) && Reached(keys, hashOf) && Unique(keys) &&
      count == Filled(keys)
    }

    ghost predicate Valid()
      reads this, strings, entry.Values
    {
      Probed() && Sealed(entry, hashOf) && count * 4 <= strings.Length * 3 && PowerOfTwo(strings.Length)
    }

    constructor (hashOf: Bytes -> nat)
      ensures Valid() && entry == map[] && fresh(strings) && this.hashOf == hashOf
    {
      this.hashOf := hashOf;
      strings := new StringObj?[INITIAL_CAPACITY](_ => null);
      count := 0;
      keys := seq(INITIAL_CAPACITY, _ => None);
      entry := map[];
      new;
      NothingFilled(keys);
      assert PowerOfTwo(8);
      assert PowerOfTwo(32);
    }

    /** The interned string with these characters, or null exactly when there is none. */
    method Find(chars: Bytes, hash: nat) returns (s: StringObj?)
      requires Valid() && hash == hashOf(chars)
      ensures s == if chars in entry then entry[chars] else null
    {
      MatchesHolds(strings[..], keys, entry, chars);
      if count == 0 {
        NoneHeld(keys, chars);
        return null;
      }
      var n := strings.Length;
      var idx := Home(hash, n);
      ghost var home, d: nat := idx, 0;
      GapAhead(keys, home, chars);
      while true
        invariant d < n && idx == At(home, d, n) && Passed(keys, home, d, chars)
        decreases n - d
      {
        s := strings[idx];
        if s == null {
          GapMeansAbsent(keys, hashOf, chars, d);
          return null;
        }
        if s.hash == hash && s.chars == chars {
          return s;
        }
        d := d + 1;
        idx := if idx + 1 == n then 0 else idx + 1;
      }
    }

    /** Put a string that is not there yet into the first gap of its probe sequence. */
    static method Place(table: array<StringObj?>, ghost ks: Slots, ghost part: map<Bytes, StringObj>,
          ghost h: Bytes -> nat, s: StringObj, hash: nat, ghost k: Bytes)
      returns (ghost j: nat)
      requires Matches(table[..], ks, part) && Reached(ks, h) && Unique(ks) && k !in part && Filled(ks) < |ks| &&
               hash == h(k)
      modifies table
      ensures j < |ks| && ks[j].None? && table[..] == old(table[..])[j := s]
      ensures Matches(table[..], ks[j := Some(k)], part[k := s]) && Reached(ks[j := Some(k)], h) &&
              Unique(ks[j := Some(k)])
      ensures Filled(ks[j := Some(k)]) == Filled(ks) + 1
    {
      var n := table.Length;
      var idx := Home(hash, n);
      ghost var d: nat := 0;
      GapAhead(ks, idx, k);
      ghost var home := idx;
      while table[idx] != null
        invariant d < n && idx == At(home, d, n) && Passed(ks, home, d, k)
        decreases n - d
      {
        assert ks[idx].value in part;
        d := d + 1;
        idx := if idx + 1 == n then 0 else idx + 1;
      }
      j := idx;
      MatchesHolds(table[..], ks, part, k);
      InsertKeeps(ks, h, k, d);
      MatchesUpdate(table[..], ks, part, j, k, s);
      table[idx] := s;
    }

    /** A new slot array of a capacity with the strings that are not white. */
    method Refill(capacity: nat, white: set<StringObj>) returns (table: array<StringObj?>, live: nat, ghost ks: Slots)
      requires Probed() && Sealed(entry, hashOf) && capacity >= strings.Length
      ensures fresh(table) && table.Length == capacity && Matches(table[..], ks, Kept(entry, white))
      ensures Reached(ks, hashOf) && Unique(ks) && live == Filled(ks) <= count && (white == {} ==> live == count)
    {
      hide Reached, Unique, Found, Matches, Collected, Sealed, Filled, Kept;
      MatchLengths(strings[..], keys, entry);
      table := new StringObj?[capacity](_ => null);
      live := 0;
      ks := seq(capacity, _ => None);
      ghost var part: map<Bytes, StringObj> := map[];
      NothingFilled(ks);
      EmptyReached(ks, hashOf);
      RefillStarts(table[..], ks, keys, entry, white);
      var i := 0;
      while i < strings.Length
        invariant 0 <= i <= strings.Length && |ks| == table.Length == capacity && fresh(table)
        invariant Matches(table[..], ks, part) && Reached(ks, hashOf) && Unique(ks) &&
                  live == Filled(ks) <= Filled(keys[..i]) && (white == {} ==> live == Filled(keys[..i]))
        invariant Collected(keys, entry, white, i, part)
      {
        var s := strings[i];
        CollectNext(strings[..], keys, entry, white, i, part);
        FilledNext(keys, i);
        if s != null && s !in white {
          ghost var k := keys[i].value;
          FilledPrefix(keys, i + 1);
          SealedAt(entry, hashOf, k);
          ghost var j := Place(table, ks, part, hashOf, s, s.hash, k);
          ks := ks[j := Some(k)];
          part := part[k := s];
          live := live + 1;
        }
        i := i + 1;
      }
      CollectEnd(strings[..], keys, entry, white, part);
      assert keys[..strings.Length] == keys;
    }

    method Grow()
      requires Valid()
      modifies this
      ensures Valid() && entry == old(entry) && fresh(strings) && strings.Length == 2 * old(strings).Length &&
              count == old(count)
    {
      hide Reached, Unique, Matches;
      KeptAll(entry);
      ghost var ks;
      var table, live;
      table, live, ks := Refill(strings.Length * 2, {});
      strings := table;
      keys := ks;
    }

    /** Before the sweep frees the white strings, drop them from the table. */
    method Rebuild(white: set<StringObj>)
      requires Valid()
      modifies this
      ensures Valid() && entry == Kept(old(entry), white) && fresh(strings) && strings.Length == old(strings).Length &&
              count <= old(count)
      ensures forall k :: k in entry ==> entry[k] !in white
    {
      hide Reached, Unique, Matches;
      ghost var ks;
      var table, live;
      table, live, ks := Refill(strings.Length, white);
      strings := table;
      count := live;
      keys := ks;
      entry := Kept(entry, white);
    }

    method Add(s: StringObj, ghost k: Bytes, hash: nat)
      requires Valid() && k !in entry && (count + 1) * 4 <= strings.Length * 3
      requires hash == hashOf(k) && s.chars == k && s.hash == hash && s.interned && s.capacity == 0
      modifies `keys, `entry, `count, strings
      ensures Valid() && entry == old(entry)[k := s]
    {
      hide Reached, Unique, Matches;
      MatchLengths(strings[..], keys, entry);
      ghost var j := Place(strings, keys, entry, hashOf, s, hash, k);
      keys := keys[j := Some(k)];
      entry := entry[k := s];
      count := count + 1;
    }

    /** The one string object with these characters. The allocation of a new one may collect garbage
        between the lookup and the insertion; white is what that collection frees. */
    method Intern(chars: Bytes, hash: nat, collects: bool, white: set<StringObj>) returns (s: StringObj)
      requires Valid() && hash == hashOf(chars)
      modifies this, strings
      ensures Valid() && (strings == old(strings) || fresh(strings)) && chars in entry && s == entry[chars]
      ensures chars in old(entry) ==> entry == old(entry)
      ensures chars !in old(entry) ==>
                fresh(s) && entry == (if collects then Kept(old(entry), white) else old(entry))[chars := s]
    {
      hide Reached, Unique, Matches, Sealed;
      var existing := Find(chars, hash);
      if existing != null {
        return existing;
      }
      if (count + 1) * 4 > strings.Length * 3 {
        Grow();
      }
      if collects {
        Rebuild(white);
      }
      s := new StringObj(chars, hash, true, 0);
      Add(s, chars, hash);
    }

    /** A hash that has been computed is that of the characters the string has now; 0 is one not computed yet. */
    ghost predicate Hashed(s: StringObj)
      reads s
    {
      s.hash == 0 || s.hash == hashOf(s.chars)
    }

    /** A string with both texts: an operand itself when the other is empty, interned when short, and else a
        new one with room to grow. */
    method Concat(a: StringObj, b: StringObj, collects: bool, white: set<StringObj>) returns (r: StringObj)
      requires Valid()
      modifies this, strings
      ensures Valid() && (strings == old(strings) || fresh(strings)) && r.chars == a.chars + b.chars
      ensures |a.chars| == 0 ==> r == b
      ensures |a.chars| > 0 && |b.chars| == 0 ==> r == a
      ensures |a.chars| > 0 && |b.chars| > 0 && |r.chars| <= 128 ==> r.chars in entry && r == entry[r.chars]
      ensures |a.chars| > 0 && |b.chars| > 0 && |r.chars| <= 128 && r.chars !in old(entry) ==>
                fresh(r) && entry == (if collects then Kept(old(entry), white) else old(entry))[r.chars := r]
      ensures |a.chars| > 0 && |b.chars| > 0 && |r.chars| > 128 ==>
                fresh(r) && !r.interned && r.capacity >= 2 * (|r.chars| + 1)
      ensures |a.chars| == 0 || |b.chars| == 0 || |r.chars| > 128 || r.chars in old(entry) ==> entry == old(entry)
      ensures Survives(old(entry), white) && AddsTo(ShapeOf(a), ShapeOf(b), ShapeOf(r))
      ensures Hashed(a) && Hashed(b) ==> Hashed(r)
    {
      hide Reached, Unique, Matches, Sealed, AddsTo;
      if |a.chars| == 0 {
        ConcatShape(ShapeOf(a), ShapeOf(b), ShapeOf(b));
        return b;
      }
      if |b.chars| == 0 {
        ConcatShape(ShapeOf(a), ShapeOf(b), ShapeOf(a));
        return a;
      }
      var text := a.chars + b.chars;
      if |text| <= Values.SHORT {
        r := Intern(text, hashOf(text), collects, white);
        InternedText(entry, hashOf, text);
        ConcatShape(ShapeOf(a), ShapeOf(b), ShapeOf(r));
        return;
      }
      r := new StringObj(text, 0, false, Values.Roomy(|text| + 1));
      ConcatShape(ShapeOf(a), ShapeOf(b), ShapeOf(r));
    }

    /** What was in the table before is unchanged or was collected. */
    ghost predicate Survives(was: map<Bytes, StringObj>, white: set<StringObj>)
      reads this
    {
      forall k :: k in was && was[k] !in white ==> k in entry && entry[k] == was[k]
    }

    /** Append to a string nobody has interned, in place when it has the room; else as Concat does, or into
        a new string with room when the left one had some use. */
    method AppendInPlace(a: StringObj, b: StringObj, collects: bool, white: set<StringObj>) returns (r: StringObj)
      requires Valid()
      modifies this, strings, a
      ensures Valid() && (strings == old(strings) || fresh(strings)) && r.chars == old(a.chars) + old(b.chars)
      ensures var grows := Values.Extends(old(a.interned), old(|a.chars|), old(a.capacity), old(|b.chars|));
              (a.chars != old(a.chars) <==> grows) && (grows ==> r == a && entry == old(entry))
      ensures b != a ==> b.chars == old(b.chars)
      ensures a.interned == old(a.interned) && a.capacity == old(a.capacity)
      ensures old(a.interned) && old(|a.chars|) > 0 && old(|b.chars|) > 0 && |r.chars| <= 128 ==>
                r.chars in entry && r == entry[r.chars]
      ensures !old(a.interned) && old(|a.chars|) > 0 ==>
                if old(|b.chars|) == 0 || a.capacity > |r.chars| then r == a
                else fresh(r) && !r.interned && r.capacity >= 2 * (|r.chars| + 1)
      ensures old(a.interned || |a.chars| == 0) ==>
                entry == if old(|a.chars|) == 0 || old(|b.chars|) == 0 || |r.chars| > 128 || r.chars in old(entry)
                         then old(entry)
                         else (if collects then Kept(old(entry), white) else old(entry))[r.chars := r]
      ensures old(!a.interned && |a.chars| > 0) ==>
                entry == if old(|b.chars|) == 0 || a.capacity > |r.chars| || !collects then old(entry)
                         else Kept(old(entry), white)
      ensures Survives(old(entry), white) && AppendsTo(old(ShapeOf(a)), old(ShapeOf(b)), ShapeOf(r))
      ensures old(Hashed(a)) && old(Hashed(b)) ==> Hashed(r) && Hashed(a)
    {
      hide Reached, Unique, Matches, AddsTo, AppendsTo;
      ghost var sa, sb := ShapeOf(a), ShapeOf(b);
      if a.interned || |a.chars| == 0 {
        r := Concat(a, b, collects, white);
        AppendShape(sa, sb, ShapeOf(r));
        return;
      }
      if |b.chars| == 0 {
        AppendShape(sa, sb, ShapeOf(a));
        return a;
      }
      var needed := |a.chars| + |b.chars| + 1;
      if a.capacity >= needed {
        assert |a.chars + b.chars| > |a.chars|;
        a.chars := a.chars + b.chars;
        a.hash := 0;
        AppendShape(sa, sb, ShapeOf(a));
        return a;
      }
      if collects {
        Rebuild(white);
      }
      r := new StringObj(a.chars + b.chars, 0, false, Values.Roomy(needed));
      AppendShape(sa, sb, ShapeOf(r));
    }
  }

  lemma {:induction false} NoneHeld(keys: Slots, k: Bytes)
    requires Filled(keys) == 0
    ensures !Holds(keys, k)
  {
    if keys != [] {
      NoneHeld(keys[..|keys| - 1], k);
      forall j | 0 <= j < |keys| ensures keys[j] != Some(k) {
        if j < |keys| - 1 { assert keys[..|keys| - 1][j] != Some(k); }
      }
    }
  }

  lemma SealedAt(entry: map<Bytes, StringObj>, h: Bytes -> nat, k: Bytes)
    requires Sealed(entry, h) && k in entry
    ensures entry[k].hash == h(k)
  {
  }

  lemma RefillStarts(table: seq<StringObj?>, ks: Slots, keys: Slots, entry: map<Bytes, StringObj>,
        white: set<StringObj>)
    requires |table| == |ks| && forall j :: 0 <= j < |ks| ==> ks[j].None? && table[j] == null
    ensures Matches(table, ks, map[]) && Collected(keys, entry, white, 0, map[]) && Filled(keys[..0]) == 0
  {
  }

  lemma EmptyReached(ks: Slots, h: Bytes -> nat)
    requires forall j :: 0 <= j < |ks| ==> ks[j].None?
    ensures Reached(ks, h) && Unique(ks)
  {
  }

  lemma FilledNext(keys: Slots, i: nat)
    requires i < |keys|
    ensures Filled(keys[..i + 1]) == Filled(keys[..i]) + if keys[i].Some? then 1 else 0
  {
    assert keys[..i + 1][..i] == keys[..i];
  }

  lemma {:induction false} FilledPrefix(keys: Slots, i: nat)
    requires i <= |keys|
    ensures Filled(keys[..i]) <= Filled(keys)
    decreases |keys|
  {
    if i < |keys| {
      FilledPrefix(keys[..|keys| - 1], i);
      assert keys[..|keys| - 1][..i] == keys[..i];
    } else {
      assert keys[..i] == keys;
    }
  }

  /** The kept strings among the first i slots. */
  ghost predicate Collected(keys: Slots, entry: map<Bytes, StringObj>, white: set<StringObj>, i: nat, part: map<Bytes,
        StringObj>) {
    i <= |keys| && (forall k :: k in part ==>
          k in entry && part[k] == entry[k] && entry[k] !in white && Holds(keys[..i], k)) &&
    forall k :: k in entry && entry[k] !in white && Holds(keys[..i], k) ==> k in part
  }

  lemma HoldsNext(keys: Slots, i: nat, k: Bytes)
    requires i < |keys|
    ensures Holds(keys[..i + 1], k) <==> Holds(keys[..i], k) || keys[i] == Some(k)
  {
    if Holds(keys[..i], k) {
      var j :| 0 <= j < i && keys[..i][j] == Some(k);
      assert keys[..i + 1][j] == Some(k);
    }
    if keys[i] == Some(k) { assert keys[..i + 1][i] == Some(k); }
    if Holds(keys[..i + 1], k) && keys[i] != Some(k) {
      var j :| 0 <= j < i + 1 && keys[..i + 1][j] == Some(k);
      assert keys[..i][j] == Some(k);
    }
  }

  lemma CollectNext(strings: seq<StringObj?>, keys: Slots, entry: map<Bytes, StringObj>, white: set<StringObj>, i: nat,
        part: map<Bytes, StringObj>)
    requires Matches(strings, keys, entry) && Unique(keys) && Collected(keys, entry, white, i, part) && i < |keys|
    ensures (strings[i] == null) == keys[i].None?
    ensures strings[i] != null && strings[i] !in white ==>
              keys[i].Some? && keys[i].value !in part && keys[i].value in entry && entry[keys[i].value] == strings[i]
    ensures strings[i] != null && strings[i] !in white ==>
              Collected(keys, entry, white, i + 1, part[keys[i].value := strings[i]])
    ensures strings[i] == null || strings[i] in white ==> Collected(keys, entry, white, i + 1, part)
  {
    hide Found;
    forall k ensures Holds(keys[..i + 1], k) <==> Holds(keys[..i], k) || keys[i] == Some(k) { HoldsNext(keys, i, k); }
    if keys[i].Some? {
      forall j | 0 <= j < i ensures keys[..i][j] != keys[i] { assert keys[j].Some? ==> keys[j].value != keys[i].value; }
    }
  }

  lemma CollectEnd(strings: seq<StringObj?>, keys: Slots, entry: map<Bytes, StringObj>, white: set<StringObj>,
        part: map<Bytes, StringObj>)
    requires Matches(strings, keys, entry) && Collected(keys, entry, white, |keys|, part)
    ensures part == Kept(entry, white)
  {
    assert keys[..|keys|] == keys;
  }

  lemma KeptAll(entry: map<Bytes, StringObj>)
    ensures Kept(entry, {}) == entry
  {
  }

  lemma MatchLengths(strings: seq<StringObj?>, keys: Slots, entry: map<Bytes, StringObj>)
    requires Matches(strings, keys, entry)
    ensures |strings| == |keys|
  {
  }

  lemma InternedText(entry: map<Bytes, StringObj>, h: Bytes -> nat, k: Bytes)
    requires Sealed(entry, h) && k in entry
    ensures entry[k].chars == k && entry[k].hash == h(k) && entry[k].interned && entry[k].capacity == 0
  {
  }
}
