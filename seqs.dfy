/** Boolean-mask selection on sequences: what `frame[mask]` does to the rows
    of a DataFrame. */
module Seqs {

  /** The elements of `s` that satisfy `p`, in their original order. */
  function Select<T>(s: seq<T>, p: T -> bool): (r: seq<T>)
    ensures |r| <= |s|
    ensures forall k :: 0 <= k < |r| ==> p(r[k])
    ensures s == [] ==> r == []
  {
    if s == [] then []
    else (if p(s[0]) then [s[0]] else []) + Select(s[1..], p)
  }

  /** `idx` lists, in strictly increasing order, positions of `b` whose
      elements spell out `a`: `a` is an order-preserving subsequence of `b`. */
  ghost predicate Embeds<T>(a: seq<T>, b: seq<T>, idx: seq<int>)
  {
    && |idx| == |a|
    && (forall k :: 0 <= k < |idx| ==> 0 <= idx[k] < |b| && a[k] == b[idx[k]])
    && (forall k, l :: 0 <= k < l < |idx| ==> idx[k] < idx[l])
  }

  function Shift(idx: seq<int>): (r: seq<int>)
    ensures |r| == |idx| && forall k :: 0 <= k < |idx| ==> r[k] == idx[k] + 1
  {
    seq(|idx|, k requires 0 <= k < |idx| => idx[k] + 1)
  }

  /** The positions of `s` whose element satisfies `p`, ascending. */
  function KeptIndices<T>(s: seq<T>, p: T -> bool): seq<int>
  {
    if s == [] then []
    else (if p(s[0]) then [0] else []) + Shift(KeptIndices(s[1..], p))
  }

  /** `Select` keeps exactly the positions that satisfy `p`, in order, and
      changes none of the elements it keeps. */
  lemma {:induction false} SelectKeepsInOrder<T>(s: seq<T>, p: T -> bool)
    ensures Embeds(Select(s, p), s, KeptIndices(s, p))
    ensures forall i :: i in KeptIndices(s, p) <==> 0 <= i < |s| && p(s[i])
  {
    if s != [] {
      SelectKeepsInOrder(s[1..], p);
      EmbedsTail(Select(s[1..], p), s, KeptIndices(s[1..], p));
      if p(s[0]) {
        EmbedsCons(Select(s[1..], p), s, Shift(KeptIndices(s[1..], p)));
      } else {
        assert Select(s, p) == Select(s[1..], p);
        assert KeptIndices(s, p) == Shift(KeptIndices(s[1..], p));
      }
      KeptIndicesStep(s, p);
    }
  }

  lemma KeptIndicesStep<T>(s: seq<T>, p: T -> bool)
    requires s != []
    requires forall i :: i in KeptIndices(s[1..], p) <==> 0 <= i < |s| - 1 && p(s[1..][i])
    ensures forall i :: i in KeptIndices(s, p) <==> 0 <= i < |s| && p(s[i])
  {
    var rest := KeptIndices(s[1..], p);
    ShiftMembers(rest);
    forall i ensures i in Shift(rest) <==> 0 < i < |s| && p(s[i]) {
      if 0 < i < |s| {
        assert s[1..][i - 1] == s[i];
      }
    }
    KeptIndicesUnfold(s, p);
  }

  lemma KeptIndicesUnfold<T>(s: seq<T>, p: T -> bool)
    requires s != []
    ensures forall i :: i in KeptIndices(s, p) <==> (i == 0 && p(s[0])) || i in Shift(KeptIndices(s[1..], p))
  {
    var head := if p(s[0]) then [0] else [];
    var tail := Shift(KeptIndices(s[1..], p));
    assert KeptIndices(s, p) == head + tail;
    forall i ensures i in head + tail <==> i in head || i in tail {
    }
  }

  lemma ShiftMembers(idx: seq<int>)
    ensures forall i :: i in Shift(idx) <==> i - 1 in idx
  {
    forall i ensures i in Shift(idx) <==> i - 1 in idx {
      if i in Shift(idx) {
        var k :| 0 <= k < |idx| && Shift(idx)[k] == i;
        assert idx[k] == i - 1;
      }
      if i - 1 in idx {
        var k :| 0 <= k < |idx| && idx[k] == i - 1;
        assert Shift(idx)[k] == i;
      }
    }
  }

  /** An embedding into the tail of `b` is an embedding into `b`, one place on. */
  lemma EmbedsTail<T>(a: seq<T>, b: seq<T>, idx: seq<int>)
    requires b != [] && Embeds(a, b[1..], idx)
    ensures Embeds(a, b, Shift(idx))
  {
    forall k | 0 <= k < |idx| ensures a[k] == b[Shift(idx)[k]] {
      assert b[1..][idx[k]] == b[idx[k] + 1];
    }
  }

  lemma EmbedsCons<T>(a: seq<T>, b: seq<T>, idx: seq<int>)
    requires b != [] && Embeds(a, b, idx)
    requires forall k :: 0 <= k < |idx| ==> idx[k] > 0
    ensures Embeds([b[0]] + a, b, [0] + idx)
  {
  }

  /** Selecting what already all satisfies `p` changes nothing. */
  lemma {:induction false} SelectAll<T>(s: seq<T>, p: T -> bool)
    requires forall k :: 0 <= k < |s| ==> p(s[k])
    ensures Select(s, p) == s
  {
    if s != [] {
      SelectAll(s[1..], p);
      assert s == [s[0]] + s[1..];
    }
  }

  /** Two masks that agree on every element select the same rows. */
  lemma {:induction false} SelectSame<T>(s: seq<T>, p: T -> bool, q: T -> bool)
    requires forall k :: 0 <= k < |s| ==> p(s[k]) == q(s[k])
    ensures Select(s, p) == Select(s, q)
  {
    if s != [] {
      SelectSame(s[1..], p, q);
    }
  }

  /** Masking twice is masking once with the conjunction. */
  lemma {:induction false} SelectSelect<T>(s: seq<T>, p: T -> bool, q: T -> bool, pq: T -> bool)
    requires forall k :: 0 <= k < |s| ==> pq(s[k]) == (p(s[k]) && q(s[k]))
    ensures Select(Select(s, p), q) == Select(s, pq)
  {
    if s != [] {
      SelectSelect(s[1..], p, q, pq);
      var head := if p(s[0]) then [s[0]] else [];
      assert Select(s, p) == head + Select(s[1..], p);
      SelectAppend(head, Select(s[1..], p), q);
    }
  }

  lemma {:induction false} SelectAppend<T>(a: seq<T>, b: seq<T>, p: T -> bool)
    ensures Select(a + b, p) == Select(a, p) + Select(b, p)
  {
    if a != [] {
      assert (a + b)[1..] == a[1..] + b;
      SelectAppend(a[1..], b, p);
    } else {
      assert a + b == b;
    }
  }

  /** An element that satisfies `p` is kept. */
  lemma {:induction false} SelectContains<T>(s: seq<T>, p: T -> bool, i: int)
    requires 0 <= i < |s| && p(s[i])
    ensures s[i] in Select(s, p)
  {
    if i > 0 {
      assert s[1..][i - 1] == s[i];
      SelectContains(s[1..], p, i - 1);
    }
  }

  /** Column extraction: `f` applied to every element. */
  function MapSeq<T, U>(s: seq<T>, f: T -> U): (r: seq<U>)
    ensures |r| == |s| && forall i :: 0 <= i < |s| ==> r[i] == f(s[i])
  {
    seq(|s|, i requires 0 <= i < |s| => f(s[i]))
  }

  /** Masking a column selects as many entries as masking the rows it came from. */
  lemma {:induction false} SelectMapLength<T, U>(s: seq<T>, f: T -> U, p: U -> bool, pf: T -> bool)
    requires forall k :: 0 <= k < |s| ==> pf(s[k]) == p(f(s[k]))
    ensures |Select(MapSeq(s, f), p)| == |Select(s, pf)|
  {
    if s != [] {
      assert MapSeq(s, f)[1..] == MapSeq(s[1..], f);
      SelectMapLength(s[1..], f, p, pf);
    }
  }
}
