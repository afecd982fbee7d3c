/** The list operations the pages apply to their state: `list.filter(keep)`,
    `list.filter(x => key(x) === k).length` and `list.map(f)`. */
module Seqs {

  /** `s.filter(keep)`: the elements of `s` that satisfy `keep`, in their order. */
  function Filter<T(==)>(s: seq<T>, keep: T -> bool): (r: seq<T>)
    ensures |r| <= |s|
    ensures forall x :: x in r ==> x in s && keep(x)
    ensures forall x :: x in s && keep(x) ==> x in r
    ensures forall x :: x in s ==> multiset(r)[x] == if keep(x) then multiset(s)[x] else 0
  {
    if s == [] then []
    else
      assert s == [s[0]] + s[1..];
      (if keep(s[0]) then [s[0]] else []) + Filter(s[1..], keep)
  }

  /** `s.map(f)`. */
  function MapSeq<T, K>(s: seq<T>, f: T -> K): seq<K>
  {
    seq(|s|, i requires 0 <= i < |s| => f(s[i]))
  }

  /** Mapping distributes over appending one element. */
  lemma MapSeqAppend<T, K>(s: seq<T>, x: T, f: T -> K)
    ensures MapSeq(s + [x], f) == MapSeq(s, f) + [f(x)]
  {
    var l := MapSeq(s + [x], f);
    var r := MapSeq(s, f) + [f(x)];
    forall i | 0 <= i < |l|
      ensures l[i] == r[i]
    {
      if i < |s| {
        assert (s + [x])[i] == s[i];
      }
    }
  }

  /** `a` can be obtained from `b` by deleting elements: matched greedily from the front. */
  predicate IsSubsequence<T(==)>(a: seq<T>, b: seq<T>)
    decreases |b|
  {
    if a == [] then true
    else if b == [] then false
    else if a[0] == b[0] then IsSubsequence(a[1..], b[1..])
    else IsSubsequence(a, b[1..])
  }

  /** Filtering deletes elements and keeps the order of the rest. */
  lemma {:induction false} FilterIsSubsequence<T>(s: seq<T>, keep: T -> bool)
    ensures IsSubsequence(Filter(s, keep), s)
  {
    if s != [] {
      FilterIsSubsequence(s[1..], keep);
      var rest := Filter(s[1..], keep);
      if !keep(s[0]) {
        assert Filter(s, keep) == rest;
        if rest != [] {
          assert rest[0] in rest && rest[0] != s[0];
        }
      }
    }
  }

  /** A predicate that holds of every element keeps the whole list. */
  lemma {:induction false} FilterKeepsAll<T>(s: seq<T>, keep: T -> bool)
    requires forall x :: x in s ==> keep(x)
    ensures Filter(s, keep) == s
  {
    if s != [] {
      var tail := s[1..];
      forall x | x in tail ensures keep(x) {
        assert x in s;
      }
      FilterKeepsAll(tail, keep);
      assert s[0] in s;
    }
  }

  /** Two predicates that agree on the elements filter alike. */
  lemma {:induction false} FilterAgrees<T>(s: seq<T>, p: T -> bool, q: T -> bool)
    requires forall x :: x in s ==> p(x) == q(x)
    ensures Filter(s, p) == Filter(s, q)
  {
    if s != [] {
      assert forall x :: x in s[1..] ==> x in s;
      FilterAgrees(s[1..], p, q);
    }
  }

  /** `s.filter(x => key(x) === k).length`. */
  function CountKey<T(==), K(==)>(s: seq<T>, key: T -> K, k: K): (r: nat)
    ensures r <= |s|
    ensures r == 0 <==> forall i :: 0 <= i < |s| ==> key(s[i]) != k
  {
    var kept := Filter(s, (x: T) => key(x) == k);
    assert forall i :: 0 <= i < |s| && key(s[i]) == k ==> s[i] in kept;
    assert |kept| > 0 ==> kept[0] in kept;
    |kept|
  }

  lemma CountKeyUnfold<T, K>(s: seq<T>, key: T -> K, k: K)
    requires s != []
    ensures CountKey(s, key, k) == (if key(s[0]) == k then 1 else 0) + CountKey(s[1..], key, k)
  {
  }

  /** The count is the multiplicity of `k` among the keys of `s`. */
  lemma {:induction false} CountKeyIsMultiplicity<T, K>(s: seq<T>, key: T -> K, k: K)
    ensures CountKey(s, key, k) == multiset(MapSeq(s, key))[k]
  {
    if s != [] {
      CountKeyUnfold(s, key, k);
      CountKeyIsMultiplicity(s[1..], key, k);
      var keys := MapSeq(s, key);
      var rest := MapSeq(s[1..], key);
      forall i | 0 <= i < |keys|
        ensures keys[i] == ([key(s[0])] + rest)[i]
      {
        if i > 0 {
          assert s[1..][i - 1] == s[i];
        }
      }
      assert keys == [key(s[0])] + rest;
      assert multiset(keys) == multiset{key(s[0])} + multiset(rest);
    }
  }

  /** Appending one element adds one to the count of its key and nothing to the others. */
  lemma {:induction false} CountKeyAppend<T, K>(s: seq<T>, x: T, key: T -> K, k: K)
    ensures CountKey(s + [x], key, k) == CountKey(s, key, k) + (if key(x) == k then 1 else 0)
  {
    if s == [] {
      CountKeyUnfold([x], key, k);
    } else {
      assert (s + [x])[1..] == s[1..] + [x];
      CountKeyUnfold(s + [x], key, k);
      CountKeyUnfold(s, key, k);
      CountKeyAppend(s[1..], x, key, k);
    }
  }

  /** Replacing the element at `j` moves one unit of count from its old key to its new one. */
  lemma {:induction false} CountKeyReplace<T, K>(s: seq<T>, j: nat, x: T, key: T -> K, k: K)
    requires j < |s|
    ensures CountKey(s[j := x], key, k) + (if key(s[j]) == k then 1 else 0)
         == CountKey(s, key, k) + (if key(x) == k then 1 else 0)
  {
    CountKeyUnfold(s, key, k);
    CountKeyUnfold(s[j := x], key, k);
    if j > 0 {
      assert s[j := x][1..] == s[1..][j - 1 := x];
      CountKeyReplace(s[1..], j - 1, x, key, k);
    } else {
      assert s[j := x][1..] == s[1..];
    }
  }
}
