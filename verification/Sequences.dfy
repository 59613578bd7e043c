/** Filtering, summing and stable sorting of sequences. */
module Sequences {

  function Filter<T>(xs: seq<T>, keep: T -> bool): (r: seq<T>) {
    if xs == [] then [] else (if keep(xs[0]) then [xs[0]] else []) + Filter(xs[1..], keep)
  }

  lemma {:induction false} FilterMembers<T>(xs: seq<T>, keep: T -> bool)
    ensures forall x :: x in Filter(xs, keep) <==> x in xs && keep(x)
  {
    if xs != [] {
      FilterMembers(xs[1..], keep);
      assert xs == [xs[0]] + xs[1..];
    }
  }

  lemma FilterCons<T>(x: T, xs: seq<T>, keep: T -> bool)
    ensures Filter([x] + xs, keep) == (if keep(x) then [x] else []) + Filter(xs, keep)
  {
    assert ([x] + xs)[1..] == xs;
  }

  lemma {:induction false} FilterConcat<T>(xs: seq<T>, ys: seq<T>, keep: T -> bool)
    ensures Filter(xs + ys, keep) == Filter(xs, keep) + Filter(ys, keep)
  {
    if xs == [] {
      assert xs + ys == ys;
    } else {
      var x, rest := xs[0], xs[1..];
      FilterConcat(rest, ys, keep);
      assert xs + ys == [x] + (rest + ys);
      FilterCons(x, rest + ys, keep);
      Associative(if keep(x) then [x] else [], Filter(rest, keep), Filter(ys, keep));
    }
  }

  lemma FilterSnoc<T>(xs: seq<T>, x: T, keep: T -> bool)
    ensures Filter(xs + [x], keep) == Filter(xs, keep) + if keep(x) then [x] else []
  {
    FilterConcat(xs, [x], keep);
    assert [x] == [x] + [];
    FilterCons(x, [], keep);
  }

  lemma Associative<T>(a: seq<T>, b: seq<T>, c: seq<T>)
    ensures a + (b + c) == (a + b) + c
  {
  }

  lemma {:induction false} FilterAll<T>(xs: seq<T>, keep: T -> bool)
    requires forall x :: x in xs ==> keep(x)
    ensures Filter(xs, keep) == xs
  {
    if xs != [] { FilterAll(xs[1..], keep); }
  }

  lemma {:induction false} FilterNone<T>(xs: seq<T>, keep: T -> bool)
    requires forall x :: x in xs ==> !keep(x)
    ensures Filter(xs, keep) == []
  {
    if xs != [] { FilterNone(xs[1..], keep); }
  }

  /** Filtering from position i where everything before c goes and the rest stays. */
  lemma {:induction false} FilterFrom<T>(xs: seq<T>, i: nat, c: nat, keep: T -> bool)
    requires i <= c <= |xs|
    requires forall j :: i <= j < |xs| ==> (keep(xs[j]) <==> c <= j)
    ensures Filter(xs[i..], keep) == xs[c..]
    decreases c - i
  {
    if i < c {
      FilterFrom(xs, i + 1, c, keep);
      assert xs[i..] == [xs[i]] + xs[i + 1..];
      FilterCons(xs[i], xs[i + 1..], keep);
    } else {
      FilterAll(xs[i..], keep);
    }
  }

  /** Filtering by a weaker test first changes nothing. */
  lemma {:induction false} FilterTwice<T>(xs: seq<T>, weak: T -> bool, strong: T -> bool)
    requires forall x :: x in xs && strong(x) ==> weak(x)
    ensures Filter(Filter(xs, weak), strong) == Filter(xs, strong)
  {
    if xs != [] {
      FilterTwice(xs[1..], weak, strong);
      var rest := Filter(xs[1..], weak);
      assert Filter(xs, weak) == (if weak(xs[0]) then [xs[0]] + rest else rest);
      assert ([xs[0]] + rest)[1..] == rest;
      assert xs[0] in xs;
    }
  }

  lemma {:induction false} FilterCommutes<T>(xs: seq<T>, p: T -> bool, q: T -> bool)
    ensures Filter(Filter(xs, p), q) == Filter(Filter(xs, q), p)
  {
    if xs != [] {
      var x, rest := xs[0], xs[1..];
      FilterCommutes(rest, p, q);
      FilterCons(x, Filter(rest, p), q);
      FilterCons(x, Filter(rest, q), p);
      assert Filter(xs, p) == if p(x) then [x] + Filter(rest, p) else Filter(rest, p);
      assert Filter(xs, q) == if q(x) then [x] + Filter(rest, q) else Filter(rest, q);
    }
  }

  /** Takes one occurrence of x out of a permutation of [x] + rest. */
  lemma SplitPermuted<T>(x: T, rest: seq<T>, ys: seq<T>) returns (a: seq<T>, b: seq<T>)
    requires multiset([x] + rest) == multiset(ys)
    ensures ys == a + ([x] + b) && multiset(rest) == multiset(a + b)
  {
    assert x in multiset([x] + rest);
    assert x in multiset(ys);
    var i :| 0 <= i < |ys| && ys[i] == x;
    a, b := ys[..i], ys[i + 1..];
    assert ys == a + ([x] + b);
    assert multiset(rest) == multiset([x] + rest) - multiset([x]);
    assert multiset(a + b) == multiset(ys) - multiset([x]);
  }

  lemma FilterInsertedLength<T>(a: seq<T>, x: T, b: seq<T>, keep: T -> bool)
    ensures |Filter(a + ([x] + b), keep)| == |Filter(a + b, keep)| + if keep(x) then 1 else 0
  {
    FilterConcat(a, [x] + b, keep);
    FilterConcat(a, b, keep);
    FilterCons(x, b, keep);
  }

  /** A filter keeps as many elements of every permutation. */
  lemma {:induction false} FilterPermuted<T>(xs: seq<T>, ys: seq<T>, keep: T -> bool)
    requires multiset(xs) == multiset(ys)
    ensures |Filter(xs, keep)| == |Filter(ys, keep)|
  {
    if xs == [] {
      SameMultisetSameLength(xs, ys);
    } else {
      assert xs == [] + ([xs[0]] + xs[1..]);
      var a, b := SplitPermuted(xs[0], xs[1..], ys);
      FilterPermuted(xs[1..], a + b, keep);
      FilterInsertedLength(a, xs[0], b, keep);
    }
  }

  function Map<T, U>(xs: seq<T>, f: T -> U): (r: seq<U>)
    ensures |r| == |xs| && forall i :: 0 <= i < |xs| ==> r[i] == f(xs[i])
  {
    seq(|xs|, i requires 0 <= i < |xs| => f(xs[i]))
  }

  function Sum(xs: seq<real>): real {
    if xs == [] then 0.0 else Sum(xs[..|xs| - 1]) + xs[|xs| - 1]
  }

  lemma {:induction false} SumConcat(xs: seq<real>, ys: seq<real>)
    ensures Sum(xs + ys) == Sum(xs) + Sum(ys)
    ensures forall x :: Sum([x]) == x
  {
    if ys == [] {
      assert xs + ys == xs;
    } else {
      var n := |ys| - 1;
      SumConcat(xs, ys[..n]);
      assert (xs + ys)[..|xs| + n] == xs + ys[..n];
    }
    forall x ensures Sum([x]) == x { assert [x][..0] == []; }
  }

  function SumInt(xs: seq<int>): int { if xs == [] then 0 else xs[0] + SumInt(xs[1..]) }

  lemma {:induction false} SumIntConcat(xs: seq<int>, ys: seq<int>)
    ensures SumInt(xs + ys) == SumInt(xs) + SumInt(ys)
    ensures forall x :: SumInt([x]) == x
  {
    if xs == [] {
      assert xs + ys == ys;
    } else {
      assert (xs + ys)[1..] == xs[1..] + ys;
      SumIntConcat(xs[1..], ys);
    }
    forall x ensures SumInt([x]) == x { assert [x][1..] == []; }
  }

  // ----- Stable sorting, as Python's `sorted`

  predicate SortedBy<T>(xs: seq<T>, key: T -> real) {
    forall i, j :: 0 <= i < j < |xs| ==> key(xs[i]) <= key(xs[j])
  }

  function Insert<T>(x: T, xs: seq<T>, key: T -> real): (r: seq<T>)
    ensures multiset(r) == multiset{x} + multiset(xs)
  {
    if xs == [] || key(x) <= key(xs[0]) then [x] + xs
    else
      assert xs == [xs[0]] + xs[1..];
      [xs[0]] + Insert(x, xs[1..], key)
  }

  function StableSort<T>(xs: seq<T>, key: T -> real): (r: seq<T>)
    ensures multiset(r) == multiset(xs) && |r| == |xs|
    ensures SortedBy(r, key)
  {
    if xs == [] then []
    else
      assert xs == [xs[0]] + xs[1..];
      var rest := StableSort(xs[1..], key);
      InsertSorted(xs[0], rest, key);
      var r := Insert(xs[0], rest, key);
      SameMultisetSameLength(r, xs);
      r
  }

  lemma SameMultisetSameLength<T>(xs: seq<T>, ys: seq<T>)
    requires multiset(xs) == multiset(ys)
    ensures |xs| == |ys|
  {
    assert |multiset(xs)| == |xs|;
    assert |multiset(ys)| == |ys|;
  }

  lemma {:induction false} InsertSorted<T>(x: T, xs: seq<T>, key: T -> real)
    requires SortedBy(xs, key)
    ensures SortedBy(Insert(x, xs, key), key)
  {
    if xs != [] && key(x) > key(xs[0]) {
      InsertSorted(x, xs[1..], key);
      var r := Insert(x, xs[1..], key);
      forall y | y in r ensures key(xs[0]) <= key(y) {
        assert y in multiset(r);
        assert y == x || y in xs[1..];
      }
    }
  }

  function HasKey<T>(key: T -> real, k: real): T -> bool { x => key(x) == k }

  /** Elements with equal keys keep their order. */
  lemma {:induction false} StableSortIsStable<T>(xs: seq<T>, key: T -> real, k: real)
    ensures Filter(StableSort(xs, key), HasKey(key, k)) == Filter(xs, HasKey(key, k))
  {
    if xs != [] {
      StableSortIsStable(xs[1..], key, k);
      InsertIsStable(xs[0], StableSort(xs[1..], key), key, k);
    }
  }

  lemma {:induction false} InsertIsStable<T>(x: T, xs: seq<T>, key: T -> real, k: real)
    requires SortedBy(xs, key)
    ensures Filter(Insert(x, xs, key), HasKey(key, k))
         == (if key(x) == k then [x] else []) + Filter(xs, HasKey(key, k))
  {
    var same := HasKey(key, k);
    if xs == [] || key(x) <= key(xs[0]) {
      FilterCons(x, xs, same);
    } else {
      var y, rest := xs[0], xs[1..];
      InsertIsStable(x, rest, key, k);
      FilterCons(y, Insert(x, rest, key), same);
      assert !same(x) || !same(y);
      assert Filter(xs, same) == (if same(y) then [y] else []) + Filter(rest, same);
    }
  }

  lemma SortMembers<T>(xs: seq<T>, key: T -> real)
    ensures forall i :: 0 <= i < |xs| ==> StableSort(xs, key)[i] in xs
  {
    var sorted := StableSort(xs, key);
    forall i | 0 <= i < |xs| ensures sorted[i] in xs {
      assert sorted[i] in multiset(sorted);
    }
  }

  function SetOf<T>(xs: seq<T>): set<T> { set x | x in xs }

  /** The key of numbers that are sorted by themselves. */
  function Itself(x: real): real { x }

  predicate Unique<T(==)>(xs: seq<T>) { forall i, j :: 0 <= i < j < |xs| ==> xs[i] != xs[j] }

  lemma {:induction false} UniqueCount<T>(xs: seq<T>, x: T)
    requires Unique(xs)
    ensures multiset(xs)[x] <= 1
  {
    if xs != [] {
      var n := |xs| - 1;
      UniqueCount(xs[..n], x);
      assert xs == xs[..n] + [xs[n]];
      if x == xs[n] { assert x !in xs[..n]; }
    }
  }

  lemma RepeatedCount<T>(xs: seq<T>, i: nat, j: nat)
    requires i < j < |xs| && xs[i] == xs[j]
    ensures multiset(xs)[xs[i]] >= 2
  {
    assert xs == xs[..j] + [xs[j]] + xs[j + 1..];
    assert xs[..j][i] == xs[i];
    assert xs[i] in multiset(xs[..j]);
  }

  lemma UniquePermuted<T>(xs: seq<T>, ys: seq<T>)
    requires Unique(xs) && multiset(xs) == multiset(ys)
    ensures Unique(ys)
  {
    forall i, j | 0 <= i < j < |ys| ensures ys[i] != ys[j] {
      UniqueCount(xs, ys[i]);
      if ys[i] == ys[j] { RepeatedCount(ys, i, j); }
    }
  }

  lemma ImagesCons<T, U>(x: T, xs: seq<T>, f: T -> U)
    ensures multiset(Map([x] + xs, f)) == multiset{f(x)} + multiset(Map(xs, f))
  {
    MapCons(x, xs, f);
  }

  lemma ImagesOfHead<T, U>(xs: seq<T>, f: T -> U)
    requires xs != []
    ensures multiset(Map(xs, f)) == multiset{f(xs[0])} + multiset(Map(xs[1..], f))
  {
    assert xs == [xs[0]] + xs[1..];
    ImagesCons(xs[0], xs[1..], f);
  }

  lemma {:induction false} InsertKeepsImages<T, U>(x: T, xs: seq<T>, f: T -> U, key: T -> real)
    ensures multiset(Map(Insert(x, xs, key), f)) == multiset{f(x)} + multiset(Map(xs, f))
  {
    if xs == [] || key(x) <= key(xs[0]) {
      ImagesCons(x, xs, f);
    } else {
      InsertKeepsImages(x, xs[1..], f, key);
      ImagesCons(xs[0], Insert(x, xs[1..], key), f);
      ImagesOfHead(xs, f);
    }
  }

  /** Sorting permutes the images of any map. */
  lemma {:induction false} SortKeepsImages<T, U>(xs: seq<T>, f: T -> U, key: T -> real)
    ensures multiset(Map(StableSort(xs, key), f)) == multiset(Map(xs, f))
  {
    if xs != [] {
      SortKeepsImages(xs[1..], f, key);
      SortStepKeepsImages(xs, f, key);
    }
  }

  lemma SortStepKeepsImages<T, U>(xs: seq<T>, f: T -> U, key: T -> real)
    requires xs != [] && multiset(Map(StableSort(xs[1..], key), f)) == multiset(Map(xs[1..], f))
    ensures multiset(Map(StableSort(xs, key), f)) == multiset(Map(xs, f))
  {
    InsertKeepsImages(xs[0], StableSort(xs[1..], key), f, key);
    ImagesOfHead(xs, f);
  }

  /** Sorting commutes with a map that keeps the keys. */
  lemma {:induction false} SortOfMap<T, U>(xs: seq<T>, f: T -> U, key: T -> real, mapped: U -> real)
    requires forall x :: x in xs ==> mapped(f(x)) == key(x)
    ensures Map(StableSort(xs, key), f) == StableSort(Map(xs, f), mapped)
  {
    if xs != [] {
      SortOfMap(xs[1..], f, key, mapped);
      assert Map(xs, f)[1..] == Map(xs[1..], f);
      var rest := StableSort(xs[1..], key);
      forall x | x in rest ensures mapped(f(x)) == key(x) { assert x in multiset(rest); assert x in xs[1..]; }
      InsertOfMap(xs[0], rest, f, key, mapped);
    }
  }

  lemma {:induction false} InsertOfMap<T, U>(x: T, xs: seq<T>, f: T -> U, key: T -> real, mapped: U -> real)
    requires mapped(f(x)) == key(x) && forall y :: y in xs ==> mapped(f(y)) == key(y)
    ensures Map(Insert(x, xs, key), f) == Insert(f(x), Map(xs, f), mapped)
  {
    var ys := Map(xs, f);
    if xs == [] || key(x) <= key(xs[0]) {
      MapCons(x, xs, f);
    } else {
      InsertOfMap(x, xs[1..], f, key, mapped);
      assert ys[1..] == Map(xs[1..], f);
      MapCons(xs[0], Insert(x, xs[1..], key), f);
      assert Insert(f(x), ys, mapped) == [ys[0]] + Insert(f(x), ys[1..], mapped);
    }
  }

  lemma MapCons<T, U>(x: T, xs: seq<T>, f: T -> U)
    ensures Map([x] + xs, f) == [f(x)] + Map(xs, f)
  {
  }
}
