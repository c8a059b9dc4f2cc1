/** Sequence operations shared by the list pages: `Array.prototype.filter`,
    subsequences, de-duplication through a `Set`, and `join`/`split`. */
module Seqs {

  /** `s.filter(p)`: the elements of `s` satisfying `p`, in their original order. */
  function Filter<T>(s: seq<T>, p: T -> bool): (r: seq<T>)
    ensures |r| <= |s|
    ensures forall k :: 0 <= k < |r| ==> p(r[k])
    decreases |s|
  {
    if |s| == 0 then []
    else if p(s[0]) then [s[0]] + Filter(s[1..], p)
    else Filter(s[1..], p)
  }

  /** Everything `filter` returns comes from `s`, and every element of `s` that
      passes is returned. */
  lemma {:induction false} FilterMembers<T>(s: seq<T>, p: T -> bool)
    ensures forall k :: 0 <= k < |Filter(s, p)| ==> Filter(s, p)[k] in s
    ensures forall i :: 0 <= i < |s| && p(s[i]) ==> s[i] in Filter(s, p)
    decreases |s|
  {
    if |s| > 0 {
      FilterMembers(s[1..], p);
      var rest := Filter(s[1..], p);
      assert forall k :: 0 <= k < |rest| ==> rest[k] in s by {
        forall k | 0 <= k < |rest| ensures rest[k] in s {
          assert rest[k] in s[1..];
        }
      }
      forall i | 0 <= i < |s| && p(s[i]) ensures s[i] in Filter(s, p) {
        if i > 0 {
          assert s[i] == s[1..][i - 1];
        }
      }
    }
  }

  /** `idx` lists positions of `s`, strictly increasing, at which the elements of `t` sit. */
  ghost predicate SubsequenceBy<T>(t: seq<T>, s: seq<T>, idx: seq<nat>) {
    && |idx| == |t|
    && (forall k :: 0 <= k < |idx| ==> idx[k] < |s| && t[k] == s[idx[k]])
    && (forall k, l :: 0 <= k < l < |idx| ==> idx[k] < idx[l])
  }

  /** `t` is obtained from `s` by deleting elements, without reordering. */
  ghost predicate IsSubsequence<T>(t: seq<T>, s: seq<T>) {
    exists idx :: SubsequenceBy(t, s, idx)
  }

  /** The positions `j >= i` of `s` whose element satisfies `p`, in increasing order. */
  function KeptFrom<T>(s: seq<T>, p: T -> bool, i: nat): seq<nat>
    requires i <= |s|
    decreases |s| - i
  {
    if i == |s| then []
    else if p(s[i]) then [i] + KeptFrom(s, p, i + 1)
    else KeptFrom(s, p, i + 1)
  }

  /** `KeptFrom` lists positions of `s[i..]`, strictly increasing. */
  lemma {:induction false} KeptFromIncreasing<T>(s: seq<T>, p: T -> bool, i: nat)
    requires i <= |s|
    ensures forall k :: 0 <= k < |KeptFrom(s, p, i)| ==> i <= KeptFrom(s, p, i)[k] < |s|
    ensures forall k, l :: 0 <= k < l < |KeptFrom(s, p, i)| ==> KeptFrom(s, p, i)[k] < KeptFrom(s, p, i)[l]
    decreases |s| - i
  {
    if i < |s| {
      KeptFromIncreasing(s, p, i + 1);
    }
  }

  /** `KeptFrom` lists exactly the positions of `s[i..]` whose element satisfies `p`. */
  lemma {:induction false} KeptFromExact<T>(s: seq<T>, p: T -> bool, i: nat)
    requires i <= |s|
    ensures forall j :: i <= j < |s| ==> (j in KeptFrom(s, p, i) <==> p(s[j]))
    decreases |s| - i
  {
    if i < |s| {
      KeptFromExact(s, p, i + 1);
      KeptFromIncreasing(s, p, i + 1);
    }
  }

  /** The element `Filter` keeps at rank `k` from `s[i..]` sits at the `k`-th kept position. */
  lemma {:induction false} KeptFromLocatesFilter<T>(s: seq<T>, p: T -> bool, i: nat)
    requires i <= |s|
    ensures |KeptFrom(s, p, i)| == |Filter(s[i..], p)|
    ensures forall k :: 0 <= k < |KeptFrom(s, p, i)| ==>
      KeptFrom(s, p, i)[k] < |s| && Filter(s[i..], p)[k] == s[KeptFrom(s, p, i)[k]]
    decreases |s| - i
  {
    if i < |s| {
      KeptFromLocatesFilter(s, p, i + 1);
      assert s[i..] == [s[i]] + s[i + 1..];
    }
  }

  /** The positions kept from the whole of `s` witness that the filtered list is a
      subsequence of `s`, and they are exactly the positions satisfying `p`. */
  lemma FilterPositions<T>(s: seq<T>, p: T -> bool)
    ensures SubsequenceBy(Filter(s, p), s, KeptFrom(s, p, 0))
    ensures forall j :: 0 <= j < |s| ==> (j in KeptFrom(s, p, 0) <==> p(s[j]))
  {
    KeptFromIncreasing(s, p, 0);
    KeptFromExact(s, p, 0);
    KeptFromLocatesFilter(s, p, 0);
    assert s[0..] == s;
  }

  /** Filtering deletes elements but never adds or reorders them. */
  lemma FilterIsSubsequence<T>(s: seq<T>, p: T -> bool)
    ensures IsSubsequence(Filter(s, p), s)
  {
    FilterPositions(s, p);
  }

  /** A filter whose predicate holds everywhere returns its input unchanged. */
  lemma {:induction false} FilterAll<T>(s: seq<T>, p: T -> bool)
    requires forall i :: 0 <= i < |s| ==> p(s[i])
    ensures Filter(s, p) == s
    decreases |s|
  {
    if |s| > 0 {
      FilterAll(s[1..], p);
    }
  }

  /** The same, stated for any input: when every element passes, nothing is removed. */
  lemma FilterKeepsPassing<T>(s: seq<T>, p: T -> bool)
    ensures (forall i :: 0 <= i < |s| ==> p(s[i])) ==> Filter(s, p) == s
  {
    if forall i :: 0 <= i < |s| ==> p(s[i]) {
      FilterAll(s, p);
    }
  }

  /** Filtering a sequence in which exactly the element at `m` fails removes just
      that element. */
  lemma {:induction false} FilterDropsOne<T>(s: seq<T>, p: T -> bool, m: nat)
    requires m < |s| && !p(s[m])
    requires forall i :: 0 <= i < |s| && i != m ==> p(s[i])
    ensures Filter(s, p) == s[..m] + s[m + 1..]
    decreases m
  {
    var tail := s[1..];
    if m == 0 {
      assert forall i :: 0 <= i < |tail| ==> p(tail[i]) by {
        forall i | 0 <= i < |tail| ensures p(tail[i]) {
          assert tail[i] == s[i + 1];
        }
      }
      FilterAll(tail, p);
    } else {
      assert forall i :: 0 <= i < |tail| && i != m - 1 ==> p(tail[i]) by {
        forall i | 0 <= i < |tail| && i != m - 1 ensures p(tail[i]) {
          assert tail[i] == s[i + 1];
        }
      }
      FilterDropsOne(tail, p, m - 1);
      assert [s[0]] + tail[..m - 1] == s[..m];
      assert tail[m..] == s[m + 1..];
    }
  }

  /** Filtering with two predicates that agree on every element gives the same list. */
  lemma {:induction false} FilterCongruent<T>(s: seq<T>, p: T -> bool, q: T -> bool)
    requires forall i :: 0 <= i < |s| ==> p(s[i]) == q(s[i])
    ensures Filter(s, p) == Filter(s, q)
    decreases |s|
  {
    if |s| > 0 {
      FilterCongruent(s[1..], p, q);
    }
  }

  /** Filtering distributes over concatenation. */
  lemma {:induction false} FilterAppend<T>(a: seq<T>, b: seq<T>, p: T -> bool)
    ensures Filter(a + b, p) == Filter(a, p) + Filter(b, p)
    decreases |a|
  {
    if |a| > 0 {
      FilterAppend(a[1..], b, p);
      assert (a + b)[1..] == a[1..] + b;
      assert (a + b)[0] == a[0];
      if p(a[0]) {
        assert Filter(a + b, p) == [a[0]] + Filter(a[1..] + b, p);
        assert Filter(a, p) == [a[0]] + Filter(a[1..], p);
      } else {
        assert Filter(a + b, p) == Filter(a[1..] + b, p);
        assert Filter(a, p) == Filter(a[1..], p);
      }
    } else {
      assert a + b == b;
    }
  }

  /** Two successive filters are one filter with the conjoined predicate `pq`. */
  lemma {:induction false} FilterTwice<T>(s: seq<T>, p: T -> bool, q: T -> bool, pq: T -> bool)
    requires forall i :: 0 <= i < |s| ==> pq(s[i]) == (p(s[i]) && q(s[i]))
    ensures Filter(Filter(s, p), q) == Filter(s, pq)
    decreases |s|
  {
    if |s| > 0 {
      FilterTwice(s[1..], p, q, pq);
    }
  }

  /** The order in which two filters are applied does not change the result. */
  lemma FilterCommutes<T>(s: seq<T>, p: T -> bool, q: T -> bool)
    ensures Filter(Filter(s, p), q) == Filter(Filter(s, q), p)
  {
    var pq := x => p(x) && q(x);
    FilterTwice(s, p, q, pq);
    FilterTwice(s, q, p, pq);
  }

  ghost predicate NoDuplicates<T>(s: seq<T>) {
    forall i, j :: 0 <= i < j < |s| ==> s[i] != s[j]
  }

  /** The position of the first occurrence of `x` in `s`. */
  function FirstIndex<T(==)>(s: seq<T>, x: T): (i: nat)
    requires x in s
    ensures i < |s| && s[i] == x
    ensures forall j :: 0 <= j < i ==> s[j] != x
  {
    if s[0] == x then 0 else 1 + FirstIndex(s[1..], x)
  }

  /** `[...new Set(s)]`: each distinct element once, in order of first occurrence. */
  function Distinct<T(==)>(s: seq<T>): (r: seq<T>)
    ensures forall k :: 0 <= k < |r| ==> r[k] in s
    ensures forall i :: 0 <= i < |s| ==> s[i] in r
    ensures NoDuplicates(r)
    decreases |s|
  {
    if |s| == 0 then []
    else
      var d := Distinct(s[..|s| - 1]);
      if s[|s| - 1] in d then d else d + [s[|s| - 1]]
  }

  /** `Distinct` lists the elements in the order of their first occurrence in `s`. */
  lemma {:induction false} DistinctKeepsFirstOccurrenceOrder<T>(s: seq<T>)
    ensures forall k, l :: 0 <= k < l < |Distinct(s)| ==>
      FirstIndex(s, Distinct(s)[k]) < FirstIndex(s, Distinct(s)[l])
    decreases |s|
  {
    if |s| > 0 {
      var front := s[..|s| - 1];
      var d := Distinct(front);
      DistinctKeepsFirstOccurrenceOrder(front);
      forall x | x in front ensures FirstIndex(s, x) == FirstIndex(front, x) {
        FirstIndexOfPrefix(s, front, x);
      }
      if s[|s| - 1] !in d {
        assert s[|s| - 1] !in front;
        assert FirstIndex(s, s[|s| - 1]) == |s| - 1;
      }
    }
  }

  lemma {:induction false} FirstIndexOfPrefix<T>(s: seq<T>, front: seq<T>, x: T)
    requires front <= s && x in front
    ensures x in s && FirstIndex(s, x) == FirstIndex(front, x)
    decreases |front|
  {
    if front[0] != x {
      FirstIndexOfPrefix(s[1..], front[1..], x);
    }
  }

  /** `xs.join(sep)`: the elements separated by `sep`; the empty list joins to the empty sequence. */
  function Join<T>(xs: seq<seq<T>>, sep: seq<T>): seq<T>
    decreases |xs|
  {
    if |xs| == 0 then []
    else if |xs| == 1 then xs[0]
    else xs[0] + sep + Join(xs[1..], sep)
  }

  /** Joining introduces no element found in neither the pieces nor the separator. */
  lemma {:induction false} JoinFree<T>(xs: seq<seq<T>>, sep: seq<T>, c: T)
    requires c !in sep && forall i :: 0 <= i < |xs| ==> c !in xs[i]
    ensures c !in Join(xs, sep)
    decreases |xs|
  {
    if |xs| > 1 { JoinFree(xs[1..], sep, c); }
  }

  /** `s.split(c)` for a one-element separator: the maximal runs between occurrences
      of `c`; there is always at least one piece. */
  function Split<T(==)>(s: seq<T>, c: T): (r: seq<seq<T>>)
    ensures |r| > 0
    decreases |s|
  {
    if |s| == 0 then [[]]
    else if s[0] == c then [[]] + Split(s[1..], c)
    else
      var rest := Split(s[1..], c);
      [[s[0]] + rest[0]] + rest[1..]
  }

  /** A sequence free of the separator splits into itself. */
  lemma {:induction false} SplitWithout<T>(s: seq<T>, c: T)
    requires c !in s
    ensures Split(s, c) == [s]
    decreases |s|
  {
    if |s| > 0 {
      SplitWithout(s[1..], c);
      assert [s[0]] + s[1..] == s;
    }
  }

  /** Splitting at the first separator peels off the piece before it. */
  lemma {:induction false} SplitAtFirst<T>(a: seq<T>, c: T, b: seq<T>)
    requires c !in a
    ensures Split(a + [c] + b, c) == [a] + Split(b, c)
    decreases |a|
  {
    if |a| == 0 {
      assert a + [c] + b == [c] + b;
      assert ([c] + b)[1..] == b;
    } else {
      SplitAtFirst(a[1..], c, b);
      assert (a + [c] + b)[1..] == a[1..] + [c] + b;
      assert [a[0]] + a[1..] == a;
    }
  }

  /** Splitting undoes joining when no piece contains the separator and there is a piece. */
  lemma {:induction false} SplitJoin<T>(xs: seq<seq<T>>, c: T)
    requires |xs| > 0
    requires forall i :: 0 <= i < |xs| ==> c !in xs[i]
    ensures Split(Join(xs, [c]), c) == xs
    decreases |xs|
  {
    if |xs| == 1 {
      SplitWithout(xs[0], c);
    } else {
      SplitJoin(xs[1..], c);
      SplitAtFirst(xs[0], c, Join(xs[1..], [c]));
      assert [xs[0]] + xs[1..] == xs;
    }
  }

  /** The index `Array.prototype.slice` resolves `k` to: negative values count from the end. */
  function SliceIndex(k: int, len: nat): (r: nat)
    ensures r <= len
  {
    if k < 0 then (if len + k < 0 then 0 else len + k)
    else if k > len then len
    else k
  }

  /** `s.slice(start, end)`, including its clamping and negative indices. */
  function Slice<T>(s: seq<T>, start: int, end: int): (r: seq<T>)
    ensures 0 <= start <= end ==> r == s[Min(start, |s|)..Min(end, |s|)]
  {
    var a := SliceIndex(start, |s|);
    var b := SliceIndex(end, |s|);
    if a < b then s[a..b] else []
  }

  function Min(a: int, b: int): int { if a <= b then a else b }
}
