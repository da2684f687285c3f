/**
 Generic facts about sequences used by the screening pipeline: order-preserving
 filtering (Python's `[x for x in xs if p(x)]`) described by the positions it keeps,
 and the size of the set of values a collection produces.
 */
module Seqs {

  /** The elements of `s` that satisfy `p`, in their original order. */
  function Filter<T>(p: T -> bool, s: seq<T>): (r: seq<T>)
    ensures |r| <= |s|
    ensures forall k :: 0 <= k < |r| ==> p(r[k]) && r[k] in s
    ensures (forall k :: 0 <= k < |s| ==> p(s[k])) ==> r == s
  {
    if |s| == 0 then []
    else (if p(s[0]) then [s[0]] else []) + Filter(p, s[1..])
  }

  /** Adds one to every position. */
  function Shifted(idx: seq<nat>): (r: seq<nat>)
    ensures |r| == |idx|
    ensures forall i :: 0 <= i < |idx| ==> r[i] == idx[i] + 1
  {
    seq(|idx|, i requires 0 <= i < |idx| => idx[i] + 1)
  }

  /** The positions of `s` whose element satisfies `p`, in increasing order. */
  function Positions<T>(p: T -> bool, s: seq<T>): seq<nat>
  {
    if |s| == 0 then []
    else (if p(s[0]) then [0] else []) + Shifted(Positions(p, s[1..]))
  }

  /** `a` consists of the elements of `s` at the strictly increasing positions `idx`. */
  ghost predicate SelectedBy<T>(a: seq<T>, s: seq<T>, idx: seq<nat>)
  {
    && |idx| == |a|
    && (forall i :: 0 <= i < |idx| ==> idx[i] < |s| && a[i] == s[idx[i]])
    && (forall i, j :: 0 <= i < j < |idx| ==> idx[i] < idx[j])
  }

  /** The positions `Positions` reports are in range and strictly increasing. */
  lemma {:induction false} PositionsIncrease<T>(p: T -> bool, s: seq<T>)
    ensures forall i :: 0 <= i < |Positions(p, s)| ==> Positions(p, s)[i] < |s|
    ensures forall i, j :: 0 <= i < j < |Positions(p, s)| ==> Positions(p, s)[i] < Positions(p, s)[j]
  {
    if |s| > 0 {
      PositionsIncrease(p, s[1..]);
      IncreaseStep(p(s[0]), Positions(p, s[1..]), |s| - 1);
    }
  }

  /** One step of `PositionsIncrease`, on the positions alone. */
  lemma IncreaseStep(keep: bool, pt: seq<nat>, n: nat)
    requires forall i :: 0 <= i < |pt| ==> pt[i] < n
    requires forall i, j :: 0 <= i < j < |pt| ==> pt[i] < pt[j]
    ensures var q := (if keep then [0] else []) + Shifted(pt);
      && (forall i :: 0 <= i < |q| ==> q[i] < n + 1)
      && (forall i, j :: 0 <= i < j < |q| ==> q[i] < q[j])
  {
  }

  /** `Filter` takes its elements from exactly the positions `Positions` reports. */
  lemma {:induction false} FilterAtPositions<T>(p: T -> bool, s: seq<T>)
    ensures |Filter(p, s)| == |Positions(p, s)|
    ensures forall i :: 0 <= i < |Positions(p, s)| ==>
              Positions(p, s)[i] < |s| && Filter(p, s)[i] == s[Positions(p, s)[i]]
  {
    if |s| > 0 {
      FilterAtPositions(p, s[1..]);
      assert s == [s[0]] + s[1..];
      AtPositionsStep(s[0], s[1..], Filter(p, s[1..]), Positions(p, s[1..]), p(s[0]));
    }
  }

  /** One step of `FilterAtPositions`, on plain sequences. */
  lemma AtPositionsStep<T>(x: T, tail: seq<T>, ft: seq<T>, pt: seq<nat>, keep: bool)
    requires |ft| == |pt|
    requires forall i :: 0 <= i < |pt| ==> pt[i] < |tail| && ft[i] == tail[pt[i]]
    ensures var f := (if keep then [x] else []) + ft;
            var q := (if keep then [0] else []) + Shifted(pt);
      && |f| == |q|
      && forall i :: 0 <= i < |q| ==> q[i] < |tail| + 1 && f[i] == ([x] + tail)[q[i]]
  {
    var f := (if keep then [x] else []) + ft;
    var q := (if keep then [0] else []) + Shifted(pt);
    var h := if keep then 1 else 0;
    forall i | h <= i < |q|
      ensures q[i] < |tail| + 1 && f[i] == ([x] + tail)[q[i]]
    {
      assert q[i] == pt[i - h] + 1;
      assert f[i] == ft[i - h];
    }
  }

  /** A position is among `Positions(p, s)` exactly when its element satisfies `p`. */
  lemma {:induction false} PositionsExactly<T>(p: T -> bool, s: seq<T>)
    ensures forall j :: 0 <= j < |s| ==> (p(s[j]) <==> j in Positions(p, s))
  {
    if |s| > 0 {
      PositionsExactly(p, s[1..]);
      assert s == [s[0]] + s[1..];
      ExactlyStep(p, s[0], s[1..], Positions(p, s[1..]));
    }
  }

  /** One step of `PositionsExactly`, on plain sequences. */
  lemma ExactlyStep<T>(p: T -> bool, x: T, tail: seq<T>, pt: seq<nat>)
    requires forall j :: 0 <= j < |tail| ==> (p(tail[j]) <==> j in pt)
    ensures var idx := (if p(x) then [0] else []) + Shifted(pt);
      forall j :: 0 <= j < |tail| + 1 ==> (p(([x] + tail)[j]) <==> j in idx)
  {
    var s := [x] + tail;
    var sh := Shifted(pt);
    var hidx: seq<nat> := if p(x) then [0] else [];
    var idx := hidx + sh;
    forall j | 0 <= j < |s|
      ensures p(s[j]) <==> j in idx
    {
      if j == 0 {
        assert forall i :: 0 <= i < |sh| ==> sh[i] >= 1;
      } else {
        assert s[j] == tail[j - 1];
        if j - 1 in pt {
          var i :| 0 <= i < |pt| && pt[i] == j - 1;
          assert idx[|hidx| + i] == j;
        }
        if j in idx {
          var i :| 0 <= i < |idx| && idx[i] == j;
          assert sh[i - |hidx|] == j;
          assert pt[i - |hidx|] == j - 1;
        }
      }
    }
  }

  /** Filtering keeps exactly the elements at the positions where `p` holds,
      in their original order: the result is a subsequence of the input, and
      a position is kept if and only if its element satisfies `p`. */
  lemma FilterSelectsExactly<T>(p: T -> bool, s: seq<T>)
    ensures SelectedBy(Filter(p, s), s, Positions(p, s))
    ensures forall j :: 0 <= j < |s| ==> (p(s[j]) <==> j in Positions(p, s))
  {
    PositionsIncrease(p, s);
    FilterAtPositions(p, s);
    PositionsExactly(p, s);
  }

  /** A set whose every element is the image of some element of `s` under
      `f` has no more elements than `s`. */
  lemma {:induction false} ImageNoLarger<A, B>(s: set<A>, f: A -> B, img: set<B>)
    requires forall y :: y in img ==> exists x :: x in s && f(x) == y
    ensures |img| <= |s|
    decreases |s|
  {
    if s != {} {
      var x :| x in s;
      var rest := s - {x};
      var imgRest := img - {f(x)};
      forall y | y in imgRest
        ensures exists z :: z in rest && f(z) == y
      {
        var z :| z in s && f(z) == y;
        assert z in rest;
      }
      ImageNoLarger(rest, f, imgRest);
      assert img <= imgRest + {f(x)};
      SubsetNoLarger(img, imgRest + {f(x)});
    }
  }

  /** A union is no larger than its parts together. */
  lemma UnionNoLarger<T>(a: set<T>, b: set<T>)
    ensures |a + b| <= |a| + |b|
  {
    assert |a + b| == |a| + |b| - |a * b|;
  }

  /** A subset is no larger than its superset. */
  lemma SubsetNoLarger<T>(a: set<T>, b: set<T>)
    requires a <= b
    ensures |a| <= |b|
  {
    assert b == a + (b - a);
    assert a * (b - a) == {};
  }
}
