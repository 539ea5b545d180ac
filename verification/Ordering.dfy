/** Shared vocabulary: optional values, the code-point order Python uses to
    compare `str`, and a stable sort by a string key. */
module Ordering {

  datatype Option<+T> = None | Some(value: T)

  predicate Leq(a: string, b: string) {
    if a == [] then true
    else if b == [] then false
    else if a[0] != b[0] then a[0] < b[0]
    else Leq(a[1..], b[1..])
  }

  lemma {:induction false} LeqTotal(a: string, b: string)
    ensures Leq(a, b) || Leq(b, a)
  {
    if a != [] && b != [] && a[0] == b[0] { LeqTotal(a[1..], b[1..]); }
  }

  lemma {:induction false} LeqAntisymmetric(a: string, b: string)
    requires Leq(a, b) && Leq(b, a)
    ensures a == b
  {
    if a != [] && b != [] {
      LeqAntisymmetric(a[1..], b[1..]);
      assert a == [a[0]] + a[1..] && b == [b[0]] + b[1..];
    }
  }

  lemma {:induction false} LeqTransitive(a: string, b: string, c: string)
    requires Leq(a, b) && Leq(b, c)
    ensures Leq(a, c)
  {
    if a != [] && b != [] && c != [] && a[0] == b[0] == c[0] { LeqTransitive(a[1..], b[1..], c[1..]); }
  }

  ghost predicate SortedBy<T>(xs: seq<T>, key: T -> string) {
    forall i, j :: 0 <= i < j < |xs| ==> Leq(key(xs[i]), key(xs[j]))
  }

  ghost predicate DistinctBy<T>(xs: seq<T>, key: T -> string) {
    forall i, j :: 0 <= i < j < |xs| ==> key(xs[i]) != key(xs[j])
  }

  function Insert<T>(x: T, xs: seq<T>, key: T -> string): seq<T> {
    if xs == [] || Leq(key(x), key(xs[0])) then [x] + xs
    else [xs[0]] + Insert(x, xs[1..], key)
  }

  /** Python's `sorted(xs, key=key)`: equal keys keep their original order. */
  function SortBy<T>(xs: seq<T>, key: T -> string): seq<T> {
    if xs == [] then [] else Insert(xs[0], SortBy(xs[1..], key), key)
  }

  lemma {:induction false} InsertKeeps<T>(x: T, xs: seq<T>, key: T -> string)
    ensures multiset(Insert(x, xs, key)) == multiset(xs) + multiset{x}
  {
    if xs != [] && !Leq(key(x), key(xs[0])) {
      InsertKeeps(x, xs[1..], key);
      assert xs == [xs[0]] + xs[1..];
    }
  }

  lemma {:induction false} InsertSorted<T>(x: T, xs: seq<T>, key: T -> string)
    requires SortedBy(xs, key)
    ensures SortedBy(Insert(x, xs, key), key)
  {
    if xs == [] {
    } else if Leq(key(x), key(xs[0])) {
      forall j | 0 <= j < |xs| ensures Leq(key(x), key(xs[j])) {
        if j > 0 { LeqTransitive(key(x), key(xs[0]), key(xs[j])); }
      }
    } else {
      LeqTotal(key(x), key(xs[0]));
      InsertSorted(x, xs[1..], key);
      InsertKeeps(x, xs[1..], key);
      var rest := Insert(x, xs[1..], key);
      forall j | 0 <= j < |rest| ensures Leq(key(xs[0]), key(rest[j])) {
        assert rest[j] in multiset(rest);
        if rest[j] != x {
          assert rest[j] in multiset(xs[1..]);
          var i :| 0 <= i < |xs[1..]| && xs[1..][i] == rest[j];
          assert rest[j] == xs[i + 1];
        }
      }
    }
  }

  lemma {:induction false} SortByIsSort<T>(xs: seq<T>, key: T -> string)
    ensures multiset(SortBy(xs, key)) == multiset(xs)
    ensures SortedBy(SortBy(xs, key), key)
  {
    if xs != [] {
      SortByIsSort(xs[1..], key);
      InsertKeeps(xs[0], SortBy(xs[1..], key), key);
      InsertSorted(xs[0], SortBy(xs[1..], key), key);
      assert xs == [xs[0]] + xs[1..];
    }
  }

  lemma {:induction false} SortOfSorted<T>(xs: seq<T>, key: T -> string)
    requires SortedBy(xs, key)
    ensures SortBy(xs, key) == xs
  {
    if xs != [] {
      assert SortedBy(xs[1..], key);
      SortOfSorted(xs[1..], key);
      if xs[1..] != [] { assert Leq(key(xs[0]), key(xs[1])); }
      assert xs == [xs[0]] + xs[1..];
    }
  }

  lemma DistinctMember<T>(xs: seq<T>, ys: seq<T>, key: T -> string)
    requires multiset(xs) == multiset(ys) && DistinctBy(xs, key)
    ensures DistinctBy(ys, key)
  {
    forall i, j | 0 <= i < j < |ys| ensures key(ys[i]) != key(ys[j]) {
      if key(ys[i]) == key(ys[j]) {
        assert ys[i] in multiset(xs) && ys[j] in multiset(xs);
        var a :| 0 <= a < |xs| && xs[a] == ys[i];
        var b :| 0 <= b < |xs| && xs[b] == ys[j];
        assert a == b;
        TwiceCounted(ys, i, j);
        OnceCounted(xs, a, key);
      }
    }
  }

  lemma TwiceCounted<T>(xs: seq<T>, i: nat, j: nat)
    requires i < j < |xs| && xs[i] == xs[j]
    ensures multiset(xs)[xs[i]] >= 2
  {
    assert xs == xs[..j] + xs[j..];
    assert xs[i] in xs[..j] && xs[j] in xs[j..];
  }

  lemma OnceCounted<T>(xs: seq<T>, a: nat, key: T -> string)
    requires a < |xs| && DistinctBy(xs, key)
    ensures multiset(xs)[xs[a]] == 1
  {
    assert xs == xs[..a] + [xs[a]] + xs[a + 1..];
    assert xs[a] !in xs[..a] && xs[a] !in xs[a + 1..];
  }

  lemma SameLeast<T>(xs: seq<T>, ys: seq<T>, key: T -> string)
    requires SortedBy(xs, key) && SortedBy(ys, key) && DistinctBy(xs, key)
    requires xs != [] && ys != [] && xs[0] in ys && ys[0] in xs
    ensures xs[0] == ys[0]
  {
    var i :| 0 <= i < |xs| && xs[i] == ys[0];
    var j :| 0 <= j < |ys| && ys[j] == xs[0];
    if i != 0 && j != 0 { LeqAntisymmetric(key(xs[0]), key(ys[0])); }
  }

  lemma TailBags<T>(xs: seq<T>, ys: seq<T>)
    requires xs != [] && ys != [] && xs[0] == ys[0] && multiset(xs) == multiset(ys)
    ensures multiset(xs[1..]) == multiset(ys[1..])
  {
    assert xs == [xs[0]] + xs[1..] && ys == [ys[0]] + ys[1..];
    assert multiset(xs[1..]) == multiset(xs) - multiset{xs[0]};
    assert multiset(ys[1..]) == multiset(ys) - multiset{xs[0]};
  }

  lemma Tails<T>(xs: seq<T>, key: T -> string)
    requires xs != [] && SortedBy(xs, key)
    ensures SortedBy(xs[1..], key) && (DistinctBy(xs, key) ==> DistinctBy(xs[1..], key))
  {}

  lemma SameBagSameSize<T>(xs: seq<T>, ys: seq<T>)
    requires multiset(xs) == multiset(ys)
    ensures |xs| == |ys| && forall x :: x in xs <==> x in ys
  {
    assert |multiset(xs)| == |xs| && |multiset(ys)| == |ys|;
    assert forall x :: x in xs <==> x in multiset(xs);
  }

  /** A sorted sequence with distinct keys is determined by its elements. */
  lemma {:induction false} SortedUnique<T>(xs: seq<T>, ys: seq<T>, key: T -> string)
    requires SortedBy(xs, key) && SortedBy(ys, key) && DistinctBy(xs, key)
    requires multiset(xs) == multiset(ys)
    ensures xs == ys
  {
    SameBagSameSize(xs, ys);
    if xs != [] {
      assert ys[0] in ys && xs[0] in xs;
      SameLeast(xs, ys, key);
      TailBags(xs, ys);
      Tails(xs, key);
      Tails(ys, key);
      SortedUnique(xs[1..], ys[1..], key);
      assert xs == [xs[0]] + xs[1..] && ys == [ys[0]] + ys[1..];
    }
  }

  lemma BagWithout<T>(xs: seq<T>, i: nat)
    requires i < |xs|
    ensures multiset(xs) == multiset(xs[..i] + xs[i + 1..]) + multiset{xs[i]}
  {
    assert xs == xs[..i] + [xs[i]] + xs[i + 1..];
  }

  /** Taking out an element before the last leaves the last in place. */
  lemma RemovedBeforeLast<T>(xs: seq<T>, i: nat)
    requires i + 1 < |xs|
    ensures var n := |xs| - 1;
      var less := xs[..i] + xs[i + 1..];
      |less| == n && less[n - 1] == xs[n] && less[..n - 1] == xs[..n][..i] + xs[..n][i + 1..]
  {}

  /** Where the last element of a permutation is, and what remains without it. */
  lemma LastElsewhere<T>(xs: seq<T>, ys: seq<T>) returns (i: nat)
    requires multiset(xs) == multiset(ys) && xs != []
    ensures |ys| == |xs| && i < |ys| && ys[i] == xs[|xs| - 1]
    ensures multiset(xs[..|xs| - 1]) == multiset(ys[..i] + ys[i + 1..])
  {
    SameBagSameSize(xs, ys);
    assert xs[|xs| - 1] in ys;
    i :| 0 <= i < |ys| && ys[i] == xs[|xs| - 1];
    var n := |xs| - 1;
    BagWithout(xs, n);
    BagWithout(ys, i);
    assert xs[..n] + xs[n + 1..] == xs[..n];
    SameBesides(multiset(xs[..n]), multiset(ys[..i] + ys[i + 1..]), xs[n]);
  }

  lemma SameBesides<T>(a: multiset<T>, b: multiset<T>, x: T)
    requires a + multiset{x} == b + multiset{x}
    ensures a == b
  {
    assert a == (a + multiset{x}) - multiset{x} && b == (b + multiset{x}) - multiset{x};
  }

  lemma SortIgnoresOrder<T>(xs: seq<T>, ys: seq<T>, key: T -> string)
    requires multiset(xs) == multiset(ys) && DistinctBy(xs, key)
    ensures SortBy(xs, key) == SortBy(ys, key)
  {
    SortByIsSort(xs, key);
    SortByIsSort(ys, key);
    DistinctMember(xs, SortBy(xs, key), key);
    SortedUnique(SortBy(xs, key), SortBy(ys, key), key);
  }

  /** Python's `xs[-n:]` for a positive `n`. */
  function Latest<T>(xs: seq<T>, n: nat): seq<T> {
    if |xs| <= n then xs else xs[|xs| - n..]
  }

  /** What is kept of a list that may only hold `n`: all of it, or its last `n`. */
  ghost predicate KeepsLast<T>(kept: seq<T>, all: seq<T>, n: nat) {
    |kept| <= n && |kept| <= |all| && kept == all[|all| - |kept|..] && (|kept| < n ==> kept == all)
  }

  lemma LatestKeepsLast<T>(xs: seq<T>, n: nat)
    ensures KeepsLast(Latest(xs, n), xs, n)
  {}

  lemma WholeSequence<T>(xs: seq<T>)
    ensures xs[..|xs|] == xs
  {}

  // ---- Python's `sorted(set(xs))` -----------------------------------------

  const Itself: string -> string := (x: string) => x

  function Distinct(xs: seq<string>): seq<string> {
    if xs == [] then []
    else if xs[0] in xs[1..] then Distinct(xs[1..])
    else [xs[0]] + Distinct(xs[1..])
  }

  function SortedDistinct(xs: seq<string>): seq<string> {
    SortBy(Distinct(xs), Itself)
  }

  lemma {:induction false} DistinctMembers(xs: seq<string>)
    ensures forall x :: x in Distinct(xs) <==> x in xs
    ensures DistinctBy(Distinct(xs), Itself)
  {
    if xs != [] {
      DistinctMembers(xs[1..]);
      assert forall x :: x in xs <==> x == xs[0] || x in xs[1..];
      assert forall j :: 0 <= j < |Distinct(xs[1..])| ==> Distinct(xs[1..])[j] in xs[1..];
    }
  }

  lemma SortedDistinctIs(xs: seq<string>)
    ensures forall x :: x in SortedDistinct(xs) <==> x in xs
    ensures DistinctBy(SortedDistinct(xs), Itself) && SortedBy(SortedDistinct(xs), Itself)
  {
    DistinctMembers(xs);
    SortByIsSort(Distinct(xs), Itself);
    DistinctMember(Distinct(xs), SortedDistinct(xs), Itself);
    assert forall x :: x in SortedDistinct(xs) <==> x in multiset(SortedDistinct(xs));
    assert forall x :: x in Distinct(xs) <==> x in multiset(Distinct(xs));
  }

  lemma SortedDistinctAgain(xs: seq<string>)
    ensures SortedDistinct(SortedDistinct(xs)) == SortedDistinct(xs)
  {
    var ys := SortedDistinct(xs);
    SortedDistinctIs(xs);
    forall i, j | 0 <= i < j < |ys| ensures ys[i] != ys[j] { assert Itself(ys[i]) != Itself(ys[j]); }
    AlreadyDistinct(ys);
    SortOfSorted(ys, Itself);
  }

  lemma {:induction false} AlreadyDistinct(xs: seq<string>)
    requires forall i, j :: 0 <= i < j < |xs| ==> xs[i] != xs[j]
    ensures Distinct(xs) == xs
  {
    if xs != [] {
      var rest := xs[1..];
      assert forall j :: 0 <= j < |rest| ==> rest[j] == xs[j + 1] && xs[j + 1] != xs[0];
      AlreadyDistinct(rest);
      assert xs == [xs[0]] + rest;
    }
  }

  // ---- The keys of a dict, sorted ---------------------------------------------

  predicate Least(keys: set<string>, k: string) {
    k in keys && forall j :: j in keys ==> Leq(k, j)
  }

  lemma {:induction false} LeastExists(keys: set<string>)
    requires keys != {}
    ensures exists k :: Least(keys, k)
  {
    var x :| x in keys;
    if keys == {x} {
      LeqTotal(x, x);
      assert Least(keys, x);
    } else {
      LeastExists(keys - {x});
      var k :| Least(keys - {x}, k);
      LeqTotal(x, k);
      LeqTotal(x, x);
      if Leq(k, x) {
        assert Least(keys, k);
      } else {
        forall j | j in keys ensures Leq(x, j) {
          if j != x { LeqTransitive(x, k, j); }
        }
        assert Least(keys, x);
      }
    }
  }

  lemma LeastUnique(keys: set<string>, k: string, l: string)
    requires Least(keys, k) && Least(keys, l)
    ensures k == l
  {
    LeqAntisymmetric(k, l);
  }

  function LeastOf(keys: set<string>): (k: string)
    requires keys != {}
    ensures Least(keys, k)
  {
    LeastExists(keys);
    assert forall k, l :: Least(keys, k) && Least(keys, l) ==> k == l by {
      forall k, l | Least(keys, k) && Least(keys, l) ensures k == l { LeastUnique(keys, k, l); }
    }
    var k :| Least(keys, k);
    k
  }

  function Listed(keys: set<string>): seq<string> {
    if keys == {} then [] else [LeastOf(keys)] + Listed(keys - {LeastOf(keys)})
  }

  lemma {:induction false} ListedIs(keys: set<string>)
    ensures forall k :: k in Listed(keys) <==> k in keys
    ensures forall i, j :: 0 <= i < j < |Listed(keys)| ==> Listed(keys)[i] != Listed(keys)[j]
  {
    if keys != {} {
      var k := LeastOf(keys);
      var rest := Listed(keys - {k});
      ListedIs(keys - {k});
      assert Listed(keys) == [k] + rest;
      assert forall j :: 0 <= j < |rest| ==> rest[j] in rest;
    }
  }

  lemma {:induction false} ListedSorted(keys: set<string>)
    ensures SortedBy(Listed(keys), Itself)
  {
    if keys != {} {
      var k := LeastOf(keys);
      var rest := Listed(keys - {k});
      ListedSorted(keys - {k});
      ListedIs(keys - {k});
      assert forall j :: 0 <= j < |rest| ==> rest[j] in rest && Leq(k, rest[j]);
      assert Listed(keys) == [k] + rest;
      forall i, j | 0 <= i < j < |Listed(keys)| ensures Leq(Itself(Listed(keys)[i]), Itself(Listed(keys)[j])) {
        if i > 0 { assert Leq(Itself(rest[i - 1]), Itself(rest[j - 1])); }
      }
    }
  }
}
