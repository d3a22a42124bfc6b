/** Order-preserving selection from a sequence (`Array.prototype.filter`) and
    sorting by a key, largest key first. */
module Seqs {

  /** `r` is obtained from `s` by deleting elements, keeping the order of
      the rest (matched greedily from the left). */
  predicate Subsequence<T(==)>(r: seq<T>, s: seq<T>)
    decreases |s|
  {
    if r == [] then true
    else if s == [] then false
    else if r[0] == s[0] then Subsequence(r[1..], s[1..])
    else Subsequence(r, s[1..])
  }

  /** `s.filter(p)`: the elements of `s` satisfying `p`, each as often as in
      `s`, in their order in `s`. */
  function Filter<T(==,!new)>(s: seq<T>, p: T -> bool): (r: seq<T>)
    ensures |r| <= |s|
    ensures forall i :: 0 <= i < |r| ==> p(r[i])
    ensures forall x :: multiset(r)[x] == if p(x) then multiset(s)[x] else 0
    ensures Subsequence(r, s)
  {
    if s == [] then []
    else
      assert s == [s[0]] + s[1..];
      assert ([s[0]] + Filter(s[1..], p))[1..] == Filter(s[1..], p);
      if p(s[0]) then [s[0]] + Filter(s[1..], p) else Filter(s[1..], p)
  }

  /** Filtering distributes over concatenation: the kept elements stay in order. */
  lemma {:induction false} FilterConcat<T(!new)>(a: seq<T>, b: seq<T>, p: T -> bool)
    ensures Filter(a + b, p) == Filter(a, p) + Filter(b, p)
  {
    if a == [] {
      assert a + b == b;
      assert Filter(a, p) == [];
    } else {
      var ab := a + b;
      assert ab != [] && ab[0] == a[0] && ab[1..] == a[1..] + b;
      FilterConcat(a[1..], b, p);
    }
  }

  /** When every element qualifies, filtering keeps the whole sequence. */
  lemma {:induction false} FilterKeepsAll<T(!new)>(s: seq<T>, p: T -> bool)
    requires forall i :: 0 <= i < |s| ==> p(s[i])
    ensures Filter(s, p) == s
  {
    if s != [] {
      FilterKeepsAll(s[1..], p);
    }
  }

  /** Filtering by two predicates that agree on the elements gives the same
      result. */
  lemma {:induction false} FilterAgree<T(!new)>(s: seq<T>, p: T -> bool, q: T -> bool)
    requires forall i :: 0 <= i < |s| ==> p(s[i]) == q(s[i])
    ensures Filter(s, p) == Filter(s, q)
  {
    if s != [] {
      FilterAgree(s[1..], p, q);
    }
  }

  /** When exactly the element at `i` fails `p`, filtering removes that element. */
  lemma FilterRemovesOne<T(!new)>(s: seq<T>, i: nat, p: T -> bool)
    requires i < |s| && !p(s[i])
    requires forall j :: 0 <= j < |s| && j != i ==> p(s[j])
    ensures Filter(s, p) == s[..i] + s[i + 1..]
  {
    var head, rest := s[..i], s[i..];
    assert s == head + rest;
    FilterConcat(head, rest, p);
    forall k | 0 <= k < |head| ensures p(head[k]) {
      assert head[k] == s[k];
    }
    FilterKeepsAll(head, p);
    SuffixKept(s, i, p);
  }

  lemma SuffixKept<T(!new)>(s: seq<T>, i: nat, p: T -> bool)
    requires i < |s| && !p(s[i])
    requires forall j :: i < j < |s| ==> p(s[j])
    ensures Filter(s[i..], p) == s[i + 1..]
  {
    var tail := s[i + 1..];
    assert s[i..][0] == s[i] && s[i..][1..] == tail;
    forall k | 0 <= k < |tail| ensures p(tail[k]) {
      assert tail[k] == s[i + 1 + k];
    }
    FilterKeepsAll(tail, p);
  }

  /** No element is followed by one with a larger key. */
  predicate DescendingBy<T>(s: seq<T>, key: T -> int) {
    forall i, j :: 0 <= i < j < |s| ==> key(s[i]) >= key(s[j])
  }

  /** `x` placed into a descending sequence before the first element whose key
      is not larger than its own. */
  function InsertDescending<T(==)>(x: T, s: seq<T>, key: T -> int): (r: seq<T>)
    requires DescendingBy(s, key)
    ensures |r| == |s| + 1 && (r[0] == x || (s != [] && r[0] == s[0]))
    ensures DescendingBy(r, key)
    ensures multiset(r) == multiset(s) + multiset{x}
  {
    if s == [] || key(x) >= key(s[0]) then [x] + s
    else
      var rest := InsertDescending(x, s[1..], key);
      assert s == [s[0]] + s[1..];
      assert key(rest[0]) <= key(s[0]);
      [s[0]] + rest
  }

  /** The elements of `s`, each as often as in `s`, largest key first. */
  function SortDescending<T(==)>(s: seq<T>, key: T -> int): (r: seq<T>)
    ensures DescendingBy(r, key)
    ensures multiset(r) == multiset(s)
  {
    if s == [] then []
    else
      assert s == [s[0]] + s[1..];
      InsertDescending(s[0], SortDescending(s[1..], key), key)
  }

  /** Selecting from a descending sequence keeps it descending. */
  lemma {:induction false} FilterDescending<T(!new)>(s: seq<T>, p: T -> bool, key: T -> int)
    requires DescendingBy(s, key)
    ensures DescendingBy(Filter(s, p), key)
  {
    if s != [] {
      FilterDescending(s[1..], p, key);
      var rest := Filter(s[1..], p);
      forall y | y in rest ensures key(y) <= key(s[0]) {
        assert y in multiset(rest);
        var k :| 0 <= k < |s[1..]| && s[1..][k] == y;
        assert s[k + 1] == y;
      }
    }
  }
}
