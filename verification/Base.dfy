/** Shared result types and sums over finite maps. */
module Base {

  datatype Option<+T> = None | Some(value: T)

  datatype Result<+T, +E> = Success(value: T) | Failure(error: E)

  /** Every value occurs once. */
  ghost predicate NoDuplicates<T>(s: seq<T>) {
    forall i, j | 0 <= i < j < |s| :: s[i] != s[j]
  }
}

/** The sum of a weight over the entries of a finite map. */
module Totals {
  import opened Base

  /** n times c, by repeated addition. */
  function Times(c: nat, n: nat): nat {
    if n == 0 then 0 else c + Times(c, n - 1)
  }

  lemma {:induction false} TimesIsProduct(c: nat, n: nat)
    ensures Times(c, n) == c * n
  {
    if n > 0 {
      TimesIsProduct(c, n - 1);
      assert c * n == c + c * (n - 1);
    }
  }

  lemma {:induction false} TimesSum(c: nat, a: nat, b: nat)
    ensures Times(c, a + b) == Times(c, a) + Times(c, b)
  {
    if a > 0 { TimesSum(c, a - 1, b); }
  }

  ghost function Sum<T>(keys: set<string>, m: map<string, T>, weight: T -> nat): nat
    requires keys <= m.Keys
  {
    if keys == {} then 0
    else
      var k :| k in keys;
      weight(m[k]) + Sum(keys - {k}, m, weight)
  }

  ghost function Total<T>(m: map<string, T>, weight: T -> nat): nat {
    Sum(m.Keys, m, weight)
  }

  /** The sum does not depend on the order in which entries are taken. */
  lemma {:induction false} SumRemove<T>(keys: set<string>, m: map<string, T>, weight: T -> nat, k: string)
    requires k in keys && keys <= m.Keys
    ensures Sum(keys, m, weight) == weight(m[k]) + Sum(keys - {k}, m, weight)
    decreases keys
  {
    var first :| first in keys && Sum(keys, m, weight) == weight(m[first]) + Sum(keys - {first}, m, weight);
    if first != k {
      SumRemove(keys - {first}, m, weight, k);
      SumRemove(keys - {k}, m, weight, first);
      assert keys - {first} - {k} == keys - {k} - {first};
    }
  }

  lemma {:induction false} SumUnion<T>(left: set<string>, right: set<string>, m: map<string, T>, weight: T -> nat)
    requires left !! right && left + right <= m.Keys
    ensures Sum(left + right, m, weight) == Sum(left, m, weight) + Sum(right, m, weight)
    decreases left
  {
    if left == {} {
      assert left + right == right;
    } else {
      var k :| k in left;
      SumRemove(left, m, weight, k);
      SumRemove(left + right, m, weight, k);
      assert left + right - {k} == (left - {k}) + right;
      SumUnion(left - {k}, right, m, weight);
    }
  }

  lemma {:induction false} SumConstant<T>(keys: set<string>, m: map<string, T>, weight: T -> nat, each: nat)
    requires keys <= m.Keys && forall k | k in keys :: weight(m[k]) == each
    ensures Sum(keys, m, weight) == Times(each, |keys|)
    decreases keys
  {
    if keys != {} {
      var k :| k in keys;
      SumRemove(keys, m, weight, k);
      SumConstant(keys - {k}, m, weight, each);
      assert |keys| == |keys - {k}| + 1;
    }
  }

  /** Raising exactly the entries of a set, each by one, raises the sum by their number. */
  lemma {:induction false} SumRises<T>(keys: set<string>, m: map<string, T>, m': map<string, T>, weight: T -> nat, raised: set<string>)
    requires raised <= keys <= m.Keys && keys <= m'.Keys
    requires forall k | k in keys :: weight(m'[k]) == weight(m[k]) + if k in raised then 1 else 0
    ensures Sum(keys, m', weight) == Sum(keys, m, weight) + |raised|
    decreases keys
  {
    if keys == {} {
      assert raised == {};
    } else {
      var k :| k in keys;
      SumRemove(keys, m, weight, k);
      SumRemove(keys, m', weight, k);
      SumRises(keys - {k}, m, m', weight, raised - {k});
      assert raised - {k} == raised || |raised - {k}| == |raised| - 1;
    }
  }

  /** A smaller weight gives a smaller sum, also across two maps. */
  lemma {:induction false} SumCompare<S, T>(keys: set<string>, m: map<string, S>, m': map<string, T>, low: S -> nat, high: T -> nat)
    requires keys <= m.Keys && keys <= m'.Keys
    requires forall k | k in keys :: low(m[k]) <= high(m'[k])
    ensures Sum(keys, m, low) <= Sum(keys, m', high)
    decreases keys
  {
    if keys != {} {
      var k :| k in keys;
      SumRemove(keys, m, low, k);
      SumRemove(keys, m', high, k);
      SumCompare(keys - {k}, m, m', low, high);
    }
  }

  /** Lowering some entries, each by at least one, lowers the sum by at least their number. */
  lemma {:induction false} SumDrops<T>(keys: set<string>, m: map<string, T>, m': map<string, T>, weight: T -> nat, dropped: set<string>)
    requires dropped <= keys <= m.Keys && keys <= m'.Keys
    requires forall k | k in keys :: weight(m'[k]) + (if k in dropped then 1 else 0) <= weight(m[k])
    ensures Sum(keys, m', weight) + |dropped| <= Sum(keys, m, weight)
    decreases keys
  {
    if keys == {} {
      assert dropped == {};
    } else {
      var k :| k in keys;
      SumRemove(keys, m, weight, k);
      SumRemove(keys, m', weight, k);
      SumDrops(keys - {k}, m, m', weight, dropped - {k});
      assert dropped - {k} == dropped || |dropped - {k}| == |dropped| - 1;
    }
  }

  lemma SameSize<S, T>(m: map<string, S>, m': map<string, T>)
    requires m.Keys == m'.Keys
    ensures |m| == |m'|
  {
    assert |m| == |m.Keys| && |m'| == |m'.Keys|;
  }

  lemma GrownBy<T>(m: map<string, T>, m': map<string, T>)
    requires m.Keys <= m'.Keys
    ensures |m'| - |m| == |m'.Keys - m.Keys|
  {
    assert |m| == |m.Keys| && |m'| == |m'.Keys|;
    assert m'.Keys == m.Keys + (m'.Keys - m.Keys);
  }

  /** Added entries that all weigh the same. */
  lemma TotalExtend<T>(m: map<string, T>, m': map<string, T>, weight: T -> nat, each: nat)
    requires m.Keys <= m'.Keys
    requires forall k | k in m :: m'[k] == m[k]
    requires forall k | k in m' && k !in m :: weight(m'[k]) == each
    ensures Total(m', weight) == Total(m, weight) + Times(each, |m'.Keys - m.Keys|)
  {
    var added := m'.Keys - m.Keys;
    assert Sum(m'.Keys, m', weight) == Sum(m.Keys, m', weight) + Sum(added, m', weight) by {
      assert m'.Keys == m.Keys + added;
      SumUnion(m.Keys, added, m', weight);
    }
    SumConstant(added, m', weight, each);
    SumRises(m.Keys, m, m', weight, {});
  }

  /** A weight bounded by c sums to at most c per entry. */
  lemma TotalBound<T>(m: map<string, T>, weight: T -> nat, c: nat)
    requires forall k | k in m :: weight(m[k]) <= c
    ensures Total(m, weight) <= Times(c, |m|)
  {
    SumCompare(m.Keys, m, m, weight, (t: T) => c);
    SumConstant(m.Keys, m, (t: T) => c, c);
    assert |m| == |m.Keys|;
  }

  /** As many keys as places, when no key occurs twice. */
  lemma {:induction false} DistinctCount(keys: seq<string>)
    requires NoDuplicates(keys)
    ensures |set k | k in keys| == |keys|
  {
    if keys != [] {
      var front, last := keys[..|keys| - 1], keys[|keys| - 1];
      DistinctCount(front);
      assert keys == front + [last];
      assert (set k | k in keys) == (set k | k in front) + {last};
    }
  }
}
