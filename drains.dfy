/** How methods 1 and 2 compare a scan with the previous snapshot. The snapshot is a map
    from path to the value stored for it. Each scanned `(path, value)` pair is looked up:
    a missing path is a change, a present one is compared and then erased. Whatever is
    left in the map afterwards was not seen again, i.e. it was deleted. The same map is
    what loading a snapshot builds with `std::map::insert`, which keeps the first value
    stored for a path. */
module Drains {
  import opened PathStrings

  /** The snapshot map still to be drained, and the change flag. */
  datatype DrainState<V> = DrainState(prev: map<PathString, V>, changed: bool)

  /** The paths of `items`. */
  function Keys<V>(items: seq<(PathString, V)>): set<PathString> {
    set i | 0 <= i < |items| :: items[i].0
  }

  lemma {:induction false} KeysSnoc<V>(items: seq<(PathString, V)>)
    requires items != []
    ensures Keys(items) == Keys(items[..|items| - 1]) + {items[|items| - 1].0}
  {
    var init := items[..|items| - 1];
    forall k | k in Keys(items)
      ensures k in Keys(init) + {items[|items| - 1].0}
    {
      var i :| 0 <= i < |items| && items[i].0 == k;
      if i < |init| {
        assert init[i] == items[i];
      }
    }
    forall k | k in Keys(init)
      ensures k in Keys(items)
    {
      var i :| 0 <= i < |init| && init[i].0 == k;
      assert items[i] == init[i];
    }
  }

  /** The lookup-compare-erase step applied to each item in turn; `same(now, before)`
      says whether the value scanned now matches the stored one. */
  function Drain<V>(items: seq<(PathString, V)>, s: DrainState<V>, same: (V, V) -> bool): DrainState<V>
    decreases |items|
  {
    if items == [] then s
    else
      var r := Drain(items[..|items| - 1], s, same);
      var k := items[|items| - 1].0;
      if k !in r.prev then r.(changed := true)
      else DrainState(r.prev - {k}, r.changed || !same(items[|items| - 1].1, r.prev[k]))
  }

  /** Draining `a` and then `b` is draining `a + b`. */
  lemma {:induction false} DrainConcat<V>(a: seq<(PathString, V)>, b: seq<(PathString, V)>, s: DrainState<V>, same: (V, V) -> bool)
    ensures Drain(a + b, s, same) == Drain(b, Drain(a, s, same), same)
    decreases |b|
  {
    if b == [] {
      assert a + b == a;
    } else {
      DrainConcat(a, b[..|b| - 1], s, same);
      assert (a + b)[..|a + b| - 1] == a + b[..|b| - 1];
      assert (a + b)[|a + b| - 1] == b[|b| - 1];
    }
  }

  /** Draining a single item: look it up, compare, erase. */
  lemma {:induction false} DrainOne<V>(k: PathString, v: V, s: DrainState<V>, same: (V, V) -> bool)
    ensures Drain([(k, v)], s, same) ==
            if k !in s.prev then s.(changed := true)
            else DrainState(s.prev - {k}, s.changed || !same(v, s.prev[k]))
  {
    assert [(k, v)][..0] == [];
  }

  /** Item `i` sets the change flag: its path was not stored, or it was stored but already
      erased by an earlier item with the same path, or its value does not match the stored
      one. */
  predicate Flagged<V>(items: seq<(PathString, V)>, i: nat, prev: map<PathString, V>, same: (V, V) -> bool)
    requires i < |items|
  {
    var k := items[i].0;
    k !in prev || (exists j :: 0 <= j < i && items[j].0 == k) || !same(items[i].1, prev[k])
  }

  /** Draining erases exactly the scanned paths. */
  lemma {:induction false} DrainPrev<V>(items: seq<(PathString, V)>, s: DrainState<V>, same: (V, V) -> bool)
    ensures Drain(items, s, same).prev == s.prev - Keys(items)
    decreases |items|
  {
    if items != [] {
      DrainPrev(items[..|items| - 1], s, same);
      KeysSnoc(items);
    }
  }

  /** The change flag ends up set exactly when it was set before or some item is
      flagged. */
  lemma {:induction false} DrainChanged<V>(items: seq<(PathString, V)>, s: DrainState<V>, same: (V, V) -> bool)
    ensures Drain(items, s, same).changed <==>
            s.changed || exists i :: 0 <= i < |items| && Flagged(items, i, s.prev, same)
    decreases |items|
  {
    if items != [] {
      var n := |items| - 1;
      var init := items[..n];
      DrainChanged(init, s, same);
      DrainPrev(init, s, same);
      var k := items[n].0;
      assert forall i :: 0 <= i < n ==> init[i] == items[i];
      assert forall i :: 0 <= i < n ==> Flagged(init, i, s.prev, same) == Flagged(items, i, s.prev, same);
      assert k in Keys(init) <==> exists j :: 0 <= j < n && items[j].0 == k by {
        if k in Keys(init) {
          var j :| 0 <= j < n && init[j].0 == k;
          assert items[j].0 == k;
        }
        if exists j :: 0 <= j < n && items[j].0 == k {
          var j :| 0 <= j < n && items[j].0 == k;
          assert init[j].0 == k;
        }
      }
      var r := Drain(init, s, same);
      if k in r.prev {
        assert r.prev[k] == s.prev[k];
      }
      assert Drain(items, s, same).changed <==> r.changed || Flagged(items, n, s.prev, same);
    }
  }

  /** All paths of `items` differ. */
  predicate DistinctKeys<V>(items: seq<(PathString, V)>) {
    forall i, j :: 0 <= i < j < |items| ==> items[i].0 != items[j].0
  }

  /** `std::map::insert`: a path already present keeps its value. */
  function Insert<V>(m: map<PathString, V>, k: PathString, v: V): (r: map<PathString, V>)
    ensures r.Keys == m.Keys + {k}
    ensures k in m ==> r == m
    ensures k !in m ==> r[k] == v && forall j :: j in m ==> r[j] == m[j]
  {
    if k in m then m else m[k := v]
  }

  /** `m` after `insert`ing each item in turn. */
  function InsertAll<V>(m: map<PathString, V>, items: seq<(PathString, V)>): (r: map<PathString, V>)
    ensures r.Keys == m.Keys + Keys(items)
    decreases |items|
  {
    if items == [] then m
    else
      var r := InsertAll(m, items[..|items| - 1]);
      KeysSnoc(items);
      Insert(r, items[|items| - 1].0, items[|items| - 1].1)
  }

  /** Inserting one item more extends the items inserted. */
  lemma {:induction false} InsertStep<V>(acc: seq<(PathString, V)>, m: map<PathString, V>, k: PathString, v: V)
    requires m == InsertAll(map[], acc)
    ensures Insert(m, k, v) == InsertAll(map[], acc + [(k, v)])
  {
    assert (acc + [(k, v)])[..|acc|] == acc;
  }

  /** Inserting paths that all differ into an empty map stores each item's value. */
  lemma {:induction false} InsertAllDistinct<V>(items: seq<(PathString, V)>)
    requires DistinctKeys(items)
    ensures forall i :: 0 <= i < |items| ==> InsertAll(map[], items)[items[i].0] == items[i].1
    decreases |items|
  {
    if items != [] {
      var n := |items| - 1;
      var init := items[..n];
      InsertAllDistinct(init);
      forall i | 0 <= i < n
        ensures InsertAll(map[], items)[items[i].0] == items[i].1
      {
        assert init[i] == items[i];
        assert items[i].0 != items[n].0;
      }
      assert forall j :: 0 <= j < n ==> init[j].0 != items[n].0;
    }
  }

  /** A path stored twice keeps the first value. */
  lemma {:induction false} InsertKeepsFirst<V>(k: PathString, v1: V, v2: V)
    ensures InsertAll(map[], [(k, v1), (k, v2)]) == map[k := v1]
  {
    var items := [(k, v1), (k, v2)];
    assert items[..1] == [(k, v1)];
    assert items[..1][..0] == items[..0];
  }

  /** Two pairs sequences with the same paths in the same order. */
  predicate SameKeys<V>(a: seq<(PathString, V)>, b: seq<(PathString, V)>) {
    |a| == |b| && forall i :: 0 <= i < |a| ==> a[i].0 == b[i].0
  }

  /** Scanning again what was stored, when no path repeats and every value matches what is
      stored for it, erases the whole map and flags nothing. */
  lemma {:induction false} DrainOwnSnapshot<V>(items: seq<(PathString, V)>, stored: seq<(PathString, V)>, same: (V, V) -> bool)
    requires SameKeys(items, stored) && DistinctKeys(stored)
    requires forall i :: 0 <= i < |items| ==> same(items[i].1, stored[i].1)
    ensures Drain(items, DrainState(InsertAll(map[], stored), false), same) == DrainState(map[], false)
  {
    var prev := InsertAll(map[], stored);
    InsertAllDistinct(stored);
    DrainPrev(items, DrainState(prev, false), same);
    DrainChanged(items, DrainState(prev, false), same);
    assert Keys(items) == Keys(stored) by {
      forall k | k in Keys(stored) ensures k in Keys(items) {
        var i :| 0 <= i < |stored| && stored[i].0 == k;
        assert items[i].0 == k;
      }
    }
    forall i | 0 <= i < |items|
      ensures !Flagged(items, i, prev, same)
    {
      assert items[i].0 == stored[i].0;
      assert items[i].0 in Keys(stored);
      assert forall j :: 0 <= j < i ==> items[j].0 == stored[j].0 != stored[i].0;
    }
  }

  /** Against an empty snapshot, any scanned item is a change. */
  lemma {:induction false} DrainEmptySnapshot<V>(items: seq<(PathString, V)>, same: (V, V) -> bool)
    requires items != []
    ensures Drain(items, DrainState(map[], false), same).changed
  {
    DrainChanged(items, DrainState(map[], false), same);
    assert Flagged(items, 0, map[], same);
  }

  /** A path scanned twice is always a change: the second lookup misses. */
  lemma {:induction false} DrainRepeatedPath<V>(items: seq<(PathString, V)>, i: nat, j: nat, s: DrainState<V>, same: (V, V) -> bool)
    requires i < j < |items| && items[i].0 == items[j].0
    ensures Drain(items, s, same).changed
  {
    DrainChanged(items, s, same);
    assert Flagged(items, j, s.prev, same);
  }
}
