/** The ordered dictionary both supervisors keep outcomes in, and what "least
    recently used" comes to over any sequence of calls. */
module LruCache {
  import opened Ordering

  /** A digest over everything an outcome depends on. */
  datatype Key = Key(digest: string)

  function Without(order: seq<Key>, k: Key): seq<Key> {
    if order == [] then []
    else (if order[0] == k then [] else [order[0]]) + Without(order[1..], k)
  }

  /** Moves `k` to the end, or adds it there. */
  function Touch(order: seq<Key>, k: Key): seq<Key> {
    Without(order, k) + [k]
  }

  /** The distinct keys of a history of touches, the latest touched last. */
  function Recent(touches: seq<Key>): seq<Key> {
    if touches == [] then [] else Touch(Recent(touches[..|touches| - 1]), touches[|touches| - 1])
  }

  ghost predicate NoRepeats(order: seq<Key>) {
    forall i, j :: 0 <= i < j < |order| ==> order[i] != order[j]
  }

  lemma {:induction false} WithoutAt(order: seq<Key>, k: Key, i: nat)
    requires NoRepeats(order) && i < |order| && order[i] == k
    ensures Without(order, k) == order[..i] + order[i + 1..]
  {
    if i == 0 {
      WithoutAbsent(order[1..], k);
    } else {
      WithoutAt(order[1..], k, i - 1);
      assert order[..i] == [order[0]] + order[1..][..i - 1];
    }
  }

  lemma {:induction false} WithoutAbsent(order: seq<Key>, k: Key)
    requires k !in order
    ensures Without(order, k) == order
  {
    if order != [] {
      assert order[0] in order;
      assert forall x :: x in order[1..] ==> x in order;
      WithoutAbsent(order[1..], k);
      assert order == [order[0]] + order[1..];
    }
  }

  lemma {:induction false} WithoutMembers(order: seq<Key>, k: Key)
    ensures forall x :: x in Without(order, k) <==> x in order && x != k
  {
    if order != [] {
      WithoutMembers(order[1..], k);
      assert forall x :: x in order <==> x == order[0] || x in order[1..];
    }
  }

  lemma {:induction false} WithoutRepeats(order: seq<Key>, k: Key)
    requires NoRepeats(order)
    ensures NoRepeats(Without(order, k))
  {
    if order != [] {
      var tail := Without(order[1..], k);
      WithoutRepeats(order[1..], k);
      WithoutMembers(order[1..], k);
      assert forall j :: 0 <= j < |tail| ==> tail[j] in tail;
      assert forall x :: x in order[1..] ==> x != order[0];
    }
  }

  lemma TouchDistinct(order: seq<Key>, k: Key)
    requires NoRepeats(order)
    ensures NoRepeats(Touch(order, k))
    ensures forall x :: x in Touch(order, k) <==> x in order || x == k
  {
    WithoutMembers(order, k);
    WithoutRepeats(order, k);
    var rest := Without(order, k);
    assert forall j :: 0 <= j < |rest| ==> rest[j] in rest;
  }

  lemma TouchNotShorter(order: seq<Key>, k: Key)
    requires NoRepeats(order)
    ensures |Touch(order, k)| >= |order|
  {
    if k in order {
      var i :| 0 <= i < |order| && order[i] == k;
      WithoutAt(order, k, i);
    } else {
      WithoutAbsent(order, k);
    }
  }

  lemma LatestOfTail(order: seq<Key>, capacity: nat)
    requires |order| > capacity
    ensures Latest(order, capacity) == Latest(order[1..], capacity)
  {}

  /** Forgetting what did not fit costs nothing: touching a trimmed order and trimming
      again is touching the whole order and trimming once. */
  lemma {:induction false} TrimmedTouch(order: seq<Key>, k: Key, capacity: nat)
    requires NoRepeats(order)
    ensures Latest(Touch(Latest(order, capacity), k), capacity) == Latest(Touch(order, k), capacity)
  {
    if |order| > capacity {
      var tail := order[1..];
      LatestOfTail(order, capacity);
      TrimmedTouch(tail, k, capacity);
      TouchNotShorter(tail, k);
      if order[0] == k {
        assert Touch(order, k) == Touch(tail, k);
      } else {
        assert Touch(order, k) == [order[0]] + Touch(tail, k);
        LatestOfTail(Touch(order, k), capacity);
      }
    }
  }

  lemma {:induction false} RecentDistinct(touches: seq<Key>)
    ensures NoRepeats(Recent(touches))
    ensures forall x :: x in Recent(touches) <==> x in touches
  {
    if touches != [] {
      var n := |touches| - 1;
      RecentDistinct(touches[..n]);
      TouchDistinct(Recent(touches[..n]), touches[n]);
      assert touches == touches[..n] + [touches[n]];
    }
  }

  // ---- Seen from the history ----------------------------------------------------

  /** The keys touched after the last touch of `k`. */
  function LaterKeys(touches: seq<Key>, k: Key): set<Key> {
    if touches == [] || touches[|touches| - 1] == k then {}
    else LaterKeys(touches[..|touches| - 1], k) + {touches[|touches| - 1]}
  }

  /** What stands behind `k` in an order. */
  function Behind(order: seq<Key>, k: Key): set<Key> {
    if order == [] then {}
    else if order[0] == k then set x | x in order[1..]
    else Behind(order[1..], k)
  }

  lemma {:induction false} BehindLast(order: seq<Key>, k: Key)
    requires k !in order
    ensures Behind(order + [k], k) == {}
  {
    if order != [] {
      assert order[0] in order && (order + [k])[1..] == order[1..] + [k];
      assert forall x :: x in order[1..] ==> x in order;
      BehindLast(order[1..], k);
    }
  }

  lemma {:induction false} BehindTouch(order: seq<Key>, x: Key, k: Key)
    requires k in order && x != k
    ensures Behind(Touch(order, x), k) == Behind(order, k) + {x}
  {
    var rest := order[1..];
    var t := Touch(order, x);
    if order[0] == k {
      WithoutMembers(rest, x);
      assert t[0] == k && t[1..] == Without(rest, x) + [x];
    } else {
      BehindTouch(rest, x, k);
      if order[0] == x {
        assert t == Touch(rest, x);
      } else {
        assert t == [order[0]] + Touch(rest, x);
      }
    }
  }

  lemma {:induction false} BehindIsLater(touches: seq<Key>, k: Key)
    requires k in touches
    ensures Behind(Recent(touches), k) == LaterKeys(touches, k)
  {
    var n := |touches| - 1;
    var before, x := touches[..n], touches[n];
    assert touches == before + [x];
    if x == k {
      WithoutMembers(Recent(before), k);
      BehindLast(Without(Recent(before), k), k);
    } else {
      BehindIsLater(before, k);
      RecentDistinct(before);
      BehindTouch(Recent(before), x, k);
    }
  }

  lemma {:induction false} DistinctCount(xs: seq<Key>)
    requires NoRepeats(xs)
    ensures |set x | x in xs| == |xs|
  {
    if xs != [] {
      DistinctCount(xs[1..]);
      assert (set x | x in xs) == (set x | x in xs[1..]) + {xs[0]};
      assert xs[0] !in xs[1..];
    }
  }

  lemma {:induction false} KeptIffFewBehind(order: seq<Key>, k: Key, capacity: nat)
    requires NoRepeats(order) && k in order
    ensures k in Latest(order, capacity) <==> |Behind(order, k)| < capacity
  {
    var rest := order[1..];
    if order[0] == k {
      DistinctCount(rest);
      assert forall j :: 1 <= j < |order| ==> order[j] != k;
    } else {
      KeptIffFewBehind(rest, k, capacity);
      if |order| <= capacity {
        assert Latest(rest, capacity) == rest && k in rest;
      } else {
        assert Latest(rest, capacity) == Latest(order, capacity);
      }
    }
  }

  /** A key is kept exactly when fewer than `capacity` other keys have been touched
      since it last was. */
  lemma KeptIffFewLater(touches: seq<Key>, k: Key, capacity: nat)
    requires capacity > 0
    ensures k in Latest(Recent(touches), capacity) <==> k in touches && |LaterKeys(touches, k)| < capacity
  {
    RecentDistinct(touches);
    var order := Recent(touches);
    if k in touches {
      BehindIsLater(touches, k);
      KeptIffFewBehind(order, k, capacity);
    }
    assert forall x :: x in Latest(order, capacity) ==> x in order;
  }

  // ---- The dictionary -------------------------------------------------------------

  class Cache<V> {
    var order: seq<Key>
    var entries: map<Key, V>
    ghost var touches: seq<Key>

    ghost predicate Valid()
      reads this
    {
      NoRepeats(order) && forall k :: k in entries <==> k in order
    }

    /** Exactly the `capacity` most recently touched keys are held. */
    ghost predicate Lru(capacity: nat)
      reads this
    {
      order == Latest(Recent(touches), capacity)
    }

    constructor ()
      ensures Valid() && entries == map[] && touches == [] && forall capacity :: Lru(capacity)
    {
      order, entries, touches := [], map[], [];
    }

    method MoveToEnd(k: Key, ghost capacity: nat)
      requires Valid() && k in entries
      modifies this`order, this`touches
      ensures Valid() && touches == old(touches) + [k]
      ensures capacity > 0 && old(Lru(capacity)) ==> Lru(capacity)
    {
      TouchDistinct(order, k);
      RecentDistinct(touches);
      if capacity > 0 { TrimmedTouch(Recent(touches), k, capacity); }
      assert (touches + [k])[..|touches|] == touches;
      ghost var held := order;
      order := Touch(order, k);
      touches := touches + [k];
      SameLength(held, k);
    }

    /** Stores an outcome and evicts from the front while there is too much. */
    method Put(k: Key, v: V, capacity: nat)
      requires Valid() && capacity > 0
      modifies this
      ensures Valid() && touches == old(touches) + [k]
      ensures old(Lru(capacity)) ==> Lru(capacity)
      ensures forall x :: x in entries ==> if x == k then entries[x] == v else x in old(entries) && entries[x] == old(entries)[x]
      ensures k in entries
    {
      TouchDistinct(order, k);
      RecentDistinct(touches);
      TrimmedTouch(Recent(touches), k, capacity);
      assert (touches + [k])[..|touches|] == touches;
      entries := entries[k := v];
      order := Touch(order, k);
      touches := touches + [k];
      Evict(capacity);
      assert order[|order| - 1] == k;
    }

    method Evict(capacity: nat)
      requires Valid() && capacity > 0
      modifies this`order, this`entries
      ensures Valid() && order == Latest(old(order), capacity)
      ensures forall x :: x in entries ==> x in old(entries) && entries[x] == old(entries)[x]
    {
      ghost var whole := order;
      ghost var cut := 0;
      while |order| > capacity
        invariant cut <= |whole| && order == whole[cut..] && (cut > 0 ==> |order| >= capacity)
        invariant forall k :: k in entries <==> k in order
        invariant forall x :: x in entries ==> x in old(entries) && entries[x] == old(entries)[x]
      {
        FirstGone(order);
        entries := entries - {order[0]};
        order := order[1..];
        cut := cut + 1;
      }
    }
  }

  lemma FirstGone(order: seq<Key>)
    requires order != [] && NoRepeats(order)
    ensures NoRepeats(order[1..]) && forall x :: x in order[1..] <==> x in order && x != order[0]
  {
    assert order == [order[0]] + order[1..];
  }

  lemma SameLength(order: seq<Key>, k: Key)
    requires NoRepeats(order) && k in order
    ensures |Touch(order, k)| == |order|
  {
    var i :| 0 <= i < |order| && order[i] == k;
    WithoutAt(order, k, i);
  }
}
