/**
  `Array.prototype.filter` and the facts every filter in the service relies
  on: it keeps exactly the elements that pass, in their original order.
*/
module Seqs {

  function Filter<T(==)>(s: seq<T>, p: T -> bool): (r: seq<T>)
    ensures |r| <= |s|
    ensures forall x :: x in r ==> x in s && p(x)
    ensures forall x :: x in s && p(x) ==> x in r
    decreases |s|
  {
    if s == [] then [] else (if p(s[0]) then [s[0]] else []) + Filter(s[1..], p)
  }

  ghost predicate Increasing(idx: seq<nat>) {
    forall a, b :: 0 <= a < b < |idx| ==> idx[a] < idx[b]
  }

  function Shift(idx: seq<nat>): (r: seq<nat>)
    ensures |r| == |idx|
    ensures forall k :: 0 <= k < |idx| ==> r[k] == idx[k] + 1
  {
    seq(|idx|, k requires 0 <= k < |idx| => idx[k] + 1)
  }

  /** The positions of `s` whose element passes `p`, in increasing order. */
  ghost function Positions<T>(s: seq<T>, p: T -> bool): seq<nat>
    decreases |s|
  {
    if s == [] then [] else (if p(s[0]) then [0] else []) + Shift(Positions(s[1..], p))
  }

  lemma {:induction false} PositionsPick<T>(s: seq<T>, p: T -> bool)
    ensures |Positions(s, p)| == |Filter(s, p)|
    ensures forall k :: 0 <= k < |Positions(s, p)| ==>
              Positions(s, p)[k] < |s| && Filter(s, p)[k] == s[Positions(s, p)[k]]
    decreases |s|
  {
    if s != [] {
      PositionsPick(s[1..], p);
      var rest, tail := Positions(s[1..], p), Filter(s[1..], p);
      var pos, kept := Positions(s, p), Filter(s, p);
      if p(s[0]) {
        assert kept == [s[0]] + tail;
        assert pos == [0] + Shift(rest);
        forall k | 0 <= k < |pos| ensures pos[k] < |s| && kept[k] == s[pos[k]] {
          if k > 0 {
            assert pos[k] == rest[k - 1] + 1 && kept[k] == tail[k - 1];
            assert s[1..][rest[k - 1]] == tail[k - 1];
          }
        }
      } else {
        assert kept == tail;
        assert pos == Shift(rest);
        forall k | 0 <= k < |pos| ensures pos[k] < |s| && kept[k] == s[pos[k]] {
          assert pos[k] == rest[k] + 1;
          assert s[1..][rest[k]] == tail[k];
        }
      }
    }
  }

  lemma {:induction false} PositionsIncreasing<T>(s: seq<T>, p: T -> bool)
    ensures Increasing(Positions(s, p))
    decreases |s|
  {
    if s != [] {
      PositionsIncreasing(s[1..], p);
      var shifted := Shift(Positions(s[1..], p));
      assert Increasing(shifted);
      assert forall k :: 0 <= k < |shifted| ==> shifted[k] >= 1;
    }
  }

  lemma {:induction false} PositionsExact<T>(s: seq<T>, p: T -> bool)
    ensures forall i :: 0 <= i < |s| ==> (p(s[i]) <==> i in Positions(s, p))
    decreases |s|
  {
    if s != [] {
      PositionsExact(s[1..], p);
      var rest := Positions(s[1..], p);
      var shifted := Shift(rest);
      assert Positions(s, p) == (if p(s[0]) then [0] else []) + shifted;
      assert 0 !in shifted;
      forall i | 1 <= i < |s| ensures p(s[i]) <==> i in Positions(s, p) {
        assert s[i] == s[1..][i - 1];
        if i in shifted {
          var k :| 0 <= k < |shifted| && shifted[k] == i;
          assert rest[k] == i - 1;
        }
        if i - 1 in rest {
          var k :| 0 <= k < |rest| && rest[k] == i - 1;
          assert shifted[k] == i;
        }
      }
    }
  }

  /**
    The filter is an order-preserving subsequence: the returned indices pick
    its elements out of `s` in increasing order, and they are exactly the
    positions whose element passes `p`.
  */
  lemma FilterSelects<T>(s: seq<T>, p: T -> bool) returns (idx: seq<nat>)
    ensures |idx| == |Filter(s, p)|
    ensures Increasing(idx)
    ensures forall k :: 0 <= k < |idx| ==> idx[k] < |s| && Filter(s, p)[k] == s[idx[k]]
    ensures forall i :: 0 <= i < |s| ==> (p(s[i]) <==> i in idx)
  {
    idx := Positions(s, p);
    PositionsPick(s, p);
    PositionsIncreasing(s, p);
    PositionsExact(s, p);
  }

  /** Filtering a concatenation filters each part, keeping their order. */
  lemma {:induction false} FilterAppend<T>(a: seq<T>, b: seq<T>, p: T -> bool)
    ensures Filter(a + b, p) == Filter(a, p) + Filter(b, p)
    decreases |a|
  {
    if a != [] {
      assert (a + b)[1..] == a[1..] + b;
      FilterAppend(a[1..], b, p);
      var head := if p(a[0]) then [a[0]] else [];
      assert Filter(a + b, p) == head + Filter(a[1..] + b, p);
      assert Filter(a, p) == head + Filter(a[1..], p);
    } else {
      assert a + b == b;
    }
  }

  /** A filter every element passes keeps the whole sequence. */
  lemma {:induction false} FilterAllPass<T>(s: seq<T>, p: T -> bool)
    requires forall i :: 0 <= i < |s| ==> p(s[i])
    ensures Filter(s, p) == s
    decreases |s|
  {
    if s != [] {
      FilterAllPass(s[1..], p);
    }
  }

  /** A filter that rejects exactly one position removes just that element. */
  lemma FilterDropsOne<T>(s: seq<T>, p: T -> bool, k: nat)
    requires k < |s| && !p(s[k])
    requires forall i :: 0 <= i < |s| && i != k ==> p(s[i])
    ensures Filter(s, p) == s[..k] + s[k + 1..]
  {
    SplitAt(s, k);
    SidesPass(s, p, k, s[..k], s[k + 1..]);
    FilterAround(s[..k], s[k], s[k + 1..], p);
  }

  lemma SplitAt<T>(s: seq<T>, k: nat)
    requires k < |s|
    ensures s == s[..k] + ([s[k]] + s[k + 1..])
  {
  }

  lemma SidesPass<T>(s: seq<T>, p: T -> bool, k: nat, before: seq<T>, after: seq<T>)
    requires k < |s| && forall i :: 0 <= i < |s| && i != k ==> p(s[i])
    requires before == s[..k] && after == s[k + 1..]
    ensures forall i :: 0 <= i < |before| ==> p(before[i])
    ensures forall i :: 0 <= i < |after| ==> p(after[i])
  {
    assert forall i :: 0 <= i < |before| ==> before[i] == s[i];
    assert forall i :: 0 <= i < |after| ==> after[i] == s[k + 1 + i];
  }

  lemma FilterAround<T>(before: seq<T>, x: T, after: seq<T>, p: T -> bool)
    requires forall i :: 0 <= i < |before| ==> p(before[i])
    requires !p(x) && forall i :: 0 <= i < |after| ==> p(after[i])
    ensures Filter(before + ([x] + after), p) == before + after
  {
    FilterDropsHead(x, after, p);
    FilterAllPass(before, p);
    FilterAppend(before, [x] + after, p);
  }

  lemma FilterDropsHead<T>(x: T, after: seq<T>, p: T -> bool)
    requires !p(x) && forall i :: 0 <= i < |after| ==> p(after[i])
    ensures Filter([x] + after, p) == after
  {
    assert ([x] + after)[1..] == after;
    FilterAllPass(after, p);
  }
}
