/**
 The two array operations the to-do component builds every new list with:
 `Array.prototype.filter` (keep the elements a predicate accepts, in order) and
 `Array.prototype.map` (transform every element, keeping length and order).
 Both are modelled on immutable sequences, as the component only ever builds
 fresh arrays from them.
 */
module ArrayOps {

  /** `s.filter(p)`: the elements of `s` that satisfy `p`, in their original order. */
  function Filter<T>(s: seq<T>, p: T -> bool): (r: seq<T>)
    ensures |r| <= |s|
    ensures forall k :: 0 <= k < |r| ==> r[k] in s && p(r[k])
    ensures forall i :: 0 <= i < |s| && p(s[i]) ==> s[i] in r
    decreases |s|
  {
    if s == [] then []
    else (if p(s[0]) then [s[0]] else []) + Filter(s[1..], p)
  }

  /** `s.map(f)`: one transformed element per element of `s`, at the same index. */
  function Map<T, U>(s: seq<T>, f: T -> U): (r: seq<U>)
    ensures |r| == |s|
    ensures forall i :: 0 <= i < |s| ==> r[i] == f(s[i])
    decreases |s|
  {
    if s == [] then [] else [f(s[0])] + Map(s[1..], f)
  }

  /** Strictly increasing sequence of indices. */
  ghost predicate Increasing(idx: seq<nat>)
  {
    forall k, l :: 0 <= k < l < |idx| ==> idx[k] < idx[l]
  }

  /**
   `r` is the selection of `s` by `p` through the index sequence `idx`: the
   indices are increasing (order is kept), `r[k]` is the element of `s` at
   `idx[k]`, and `idx` holds exactly the positions of `s` whose element
   satisfies `p` (nothing accepted is lost, nothing rejected is kept).
   */
  ghost predicate SelectedAt<T>(r: seq<T>, s: seq<T>, p: T -> bool, idx: seq<nat>)
  {
    && |idx| == |r|
    && Increasing(idx)
    && (forall k :: 0 <= k < |idx| ==> idx[k] < |s| && r[k] == s[idx[k]])
    && (forall i :: 0 <= i < |s| ==> (p(s[i]) <==> i in idx))
  }

  /** Every index shifted one place to the right. */
  ghost function Shift(idx: seq<nat>): (r: seq<nat>)
    ensures |r| == |idx|
    ensures forall k :: 0 <= k < |idx| ==> r[k] == idx[k] + 1
  {
    seq(|idx|, k requires 0 <= k < |idx| => idx[k] + 1)
  }

  /** The positions of `s` whose element satisfies `p`, in increasing order. */
  ghost function Positions<T>(s: seq<T>, p: T -> bool): seq<nat>
    decreases |s|
  {
    if s == [] then []
    else (if p(s[0]) then [0] else []) + Shift(Positions(s[1..], p))
  }

  /** Shifting keeps a sequence increasing and moves membership by one. */
  lemma ShiftFacts(idx: seq<nat>)
    requires Increasing(idx)
    ensures Increasing(Shift(idx))
    ensures forall i: nat :: i in idx <==> i + 1 in Shift(idx)
    ensures 0 !in Shift(idx)
  {
    var sh := Shift(idx);
    forall i: nat | i + 1 in sh ensures i in idx {
      var k :| 0 <= k < |sh| && sh[k] == i + 1;
    }
    forall i: nat | i in idx ensures i + 1 in sh {
      var k :| 0 <= k < |idx| && idx[k] == i;
      assert sh[k] == i + 1;
    }
  }

  /** The `k`-th kept element sits at the `k`-th accepted position. */
  lemma {:induction false} PositionsIndex<T>(s: seq<T>, p: T -> bool)
    ensures |Positions(s, p)| == |Filter(s, p)|
    ensures forall k :: 0 <= k < |Positions(s, p)| ==>
      Positions(s, p)[k] < |s| && Filter(s, p)[k] == s[Positions(s, p)[k]]
    decreases |s|
  {
    if s != [] {
      var tail, tailIdx := Filter(s[1..], p), Positions(s[1..], p);
      PositionsIndex(s[1..], p);
      var sh := Shift(tailIdx);
      forall k | 0 <= k < |sh| ensures sh[k] < |s| && tail[k] == s[sh[k]] {
        assert s[1..][tailIdx[k]] == s[sh[k]];
      }
      if p(s[0]) {
        var r, idx := Filter(s, p), Positions(s, p);
        assert r == [s[0]] + tail && idx == [0] + sh;
        forall k | 0 < k < |idx| ensures idx[k] < |s| && r[k] == s[idx[k]] {
          assert idx[k] == sh[k - 1] && r[k] == tail[k - 1];
        }
      }
    }
  }

  /** The accepted positions are listed in strictly increasing order. */
  lemma {:induction false} PositionsIncreasing<T>(s: seq<T>, p: T -> bool)
    ensures Increasing(Positions(s, p))
    ensures forall k :: 0 <= k < |Positions(s, p)| ==> Positions(s, p)[k] < |s|
    decreases |s|
  {
    if s != [] {
      var tailIdx := Positions(s[1..], p);
      PositionsIncreasing(s[1..], p);
      ShiftFacts(tailIdx);
      var sh := Shift(tailIdx);
      if p(s[0]) {
        var idx := Positions(s, p);
        assert idx == [0] + sh;
        forall k, l | 0 <= k < l < |idx| ensures idx[k] < idx[l] {
          assert idx[l] == sh[l - 1];
          if k > 0 {
            assert idx[k] == sh[k - 1];
          }
        }
      }
    }
  }

  /** A position is listed exactly when its element is accepted. */
  lemma {:induction false} PositionsExact<T>(s: seq<T>, p: T -> bool)
    ensures forall i :: 0 <= i < |s| ==> (p(s[i]) <==> i in Positions(s, p))
    decreases |s|
  {
    if s != [] {
      var tailIdx := Positions(s[1..], p);
      PositionsExact(s[1..], p);
      PositionsIncreasing(s[1..], p);
      ShiftFacts(tailIdx);
      var sh := Shift(tailIdx);
      var head: seq<nat> := if p(s[0]) then [0] else [];
      var idx := Positions(s, p);
      assert idx == head + sh;
      assert forall i :: i in idx <==> i in head || i in sh;
      forall i | 0 <= i < |s| ensures p(s[i]) <==> i in idx {
        if i > 0 {
          assert s[i] == s[1..][i - 1];
          assert (i - 1 in tailIdx) <==> (i in sh);
          assert i !in head;
        }
      }
    }
  }

  /** Filtering is exactly the ordered selection of the accepted positions. */
  lemma FilterSelects<T>(s: seq<T>, p: T -> bool)
    ensures SelectedAt(Filter(s, p), s, p, Positions(s, p))
  {
    PositionsIndex(s, p);
    PositionsIncreasing(s, p);
    PositionsExact(s, p);
  }

  /** Filtering distributes over concatenation: it never reorders. */
  lemma {:induction false} FilterAppend<T>(a: seq<T>, b: seq<T>, p: T -> bool)
    ensures Filter(a + b, p) == Filter(a, p) + Filter(b, p)
    decreases |a|
  {
    if a != [] {
      assert (a + b)[1..] == a[1..] + b;
      FilterAppend(a[1..], b, p);
    } else {
      assert a + b == b;
    }
  }

  /** When `p` accepts every element, filtering returns the sequence itself. */
  lemma {:induction false} FilterKeepsAll<T>(s: seq<T>, p: T -> bool)
    requires forall x :: x in s ==> p(x)
    ensures Filter(s, p) == s
    decreases |s|
  {
    if s != [] {
      assert forall x :: x in s[1..] ==> x in s;
      FilterKeepsAll(s[1..], p);
    }
  }

  /** When `p` rejects the element at `i` alone, filtering drops exactly that element. */
  lemma {:induction false} FilterDropsOne<T>(s: seq<T>, i: nat, p: T -> bool)
    requires i < |s| && !p(s[i])
    requires forall j :: 0 <= j < |s| && j != i ==> p(s[j])
    ensures Filter(s, p) == s[..i] + s[i + 1..]
    decreases |s|
  {
    var tail := s[1..];
    if i == 0 {
      forall x | x in tail ensures p(x) {
        var k :| 0 <= k < |tail| && tail[k] == x;
        assert x == s[k + 1];
      }
      FilterKeepsAll(tail, p);
    } else {
      forall j | 0 <= j < |tail| && j != i - 1 ensures p(tail[j]) {
        assert tail[j] == s[j + 1];
      }
      calc {
        Filter(s, p);
        [s[0]] + Filter(tail, p);
        { FilterDropsOne(tail, i - 1, p); }
        [s[0]] + (tail[..i - 1] + tail[i..]);
        { CutAfterHead(s, i); }
        s[..i] + s[i + 1..];
      }
    }
  }

  /** Cutting out position `i > 0` of `s` keeps the head and cuts `i - 1` out of the tail. */
  lemma CutAfterHead<T>(s: seq<T>, i: nat)
    requires 0 < i < |s|
    ensures s[..i] + s[i + 1..] == [s[0]] + (s[1..][..i - 1] + s[1..][i..])
  {
    assert s[..i] == [s[0]] + s[1..][..i - 1];
    assert s[i + 1..] == s[1..][i..];
  }

  /** Filtering depends only on which elements the predicate accepts. */
  lemma {:induction false} FilterExtensional<T>(s: seq<T>, p: T -> bool, q: T -> bool)
    requires forall i :: 0 <= i < |s| ==> p(s[i]) == q(s[i])
    ensures Filter(s, p) == Filter(s, q)
    decreases |s|
  {
    if s != [] {
      assert forall i :: 0 <= i < |s[1..]| ==> s[1..][i] == s[i + 1];
      FilterExtensional(s[1..], p, q);
    }
  }

  /** Filtering twice by the same predicate is filtering once. */
  lemma FilterIdempotent<T>(s: seq<T>, p: T -> bool)
    ensures Filter(Filter(s, p), p) == Filter(s, p)
  {
    FilterKeepsAll(Filter(s, p), p);
  }

  /**
   Filtering by a predicate and by its negation splits the sequence: the two
   parts have the lengths and the elements of the whole, with multiplicity.
   */
  lemma {:induction false} FilterPartition<T>(s: seq<T>, p: T -> bool, q: T -> bool)
    requires forall x :: q(x) == !p(x)
    ensures |Filter(s, p)| + |Filter(s, q)| == |s|
    ensures multiset(Filter(s, p)) + multiset(Filter(s, q)) == multiset(s)
    decreases |s|
  {
    if s != [] {
      FilterPartition(s[1..], p, q);
      assert s == [s[0]] + s[1..];
    }
  }

  /** The positions of `s` whose element `p` accepts, as a set. */
  ghost function IndicesWhere<T>(s: seq<T>, p: T -> bool): set<int>
  {
    set i | 0 <= i < |s| && p(s[i])
  }

  /** The number of kept elements is the number of positions whose element `p` accepts. */
  lemma {:induction false} FilterCount<T>(s: seq<T>, p: T -> bool)
    ensures |Filter(s, p)| == |IndicesWhere(s, p)|
    decreases |s|
  {
    if s != [] {
      var n := |s| - 1;
      var init := s[..n];
      FilterCount(init, p);
      FilterAppend(init, [s[n]], p);
      assert init + [s[n]] == s;
      assert Filter([s[n]], p) == if p(s[n]) then [s[n]] else [];
      var before, all := IndicesWhere(init, p), IndicesWhere(s, p);
      assert n !in before;
      forall i ensures i in all <==> i in before || (i == n && p(s[n])) {
        if 0 <= i < n {
          assert init[i] == s[i];
        }
      }
      if p(s[n]) {
        assert all == before + {n};
      } else {
        assert all == before;
      }
    }
  }

  /** A filtered sequence keeps a key that is injective over the input injective. */
  lemma FilterKeepsDistinct<T, K>(s: seq<T>, p: T -> bool, key: T -> K)
    requires forall i, j :: 0 <= i < j < |s| ==> key(s[i]) != key(s[j])
    ensures forall i, j :: 0 <= i < j < |Filter(s, p)| ==> key(Filter(s, p)[i]) != key(Filter(s, p)[j])
  {
    FilterSelects(s, p);
  }
}
