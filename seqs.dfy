/**
 * Order-preserving selection from a sequence, the shape of a `for x in xs: if keep(x): out.append(x)`
 * loop, and counting the elements a predicate selects.
 */
module Seqs {

  /** The elements of `s` that `keep` accepts, in their order in `s`. */
  function Retain<T>(s: seq<T>, keep: T -> bool): (r: seq<T>)
    ensures |r| <= |s|
    ensures forall k :: 0 <= k < |r| ==> keep(r[k])
  {
    if s == [] then []
    else Retain(s[..|s| - 1], keep) + (if keep(s[|s| - 1]) then [s[|s| - 1]] else [])
  }

  /** The number of elements of `s` that `p` accepts. */
  function Count<T>(s: seq<T>, p: T -> bool): (n: nat)
    ensures n <= |s|
  {
    if s == [] then 0
    else Count(s[..|s| - 1], p) + (if p(s[|s| - 1]) then 1 else 0)
  }

  /**
   * `r` is obtained from `s` by keeping exactly the positions `keep` accepts, in order:
   * `idx` lists those positions in increasing order, and `r[k]` is `s[idx[k]]`.
   */
  ghost predicate SelectedBy<T>(r: seq<T>, s: seq<T>, keep: T -> bool, idx: seq<nat>) {
    && |idx| == |r|
    && (forall k :: 0 <= k < |idx| ==> idx[k] < |s| && r[k] == s[idx[k]])
    && (forall k, l :: 0 <= k < l < |idx| ==> idx[k] < idx[l])
    && (forall i :: 0 <= i < |s| ==> (keep(s[i]) <==> i in idx))
  }

  /** Appending one element to `s` extends a selection of `s` to a selection of `s + [x]`. */
  lemma SelectedByAppend<T>(r: seq<T>, s: seq<T>, keep: T -> bool, idx: seq<nat>, x: T)
    requires SelectedBy(r, s, keep, idx)
    ensures keep(x) ==> SelectedBy(r + [x], s + [x], keep, idx + [|s|])
    ensures !keep(x) ==> SelectedBy(r, s + [x], keep, idx)
  {
    var s' := s + [x];
    if keep(x) {
      var r', idx' := r + [x], idx + [|s|];
      forall i | 0 <= i < |s'| ensures keep(s'[i]) <==> i in idx' {
        if i < |s| {
          assert s'[i] == s[i];
          assert i in idx' <==> i in idx;
        }
      }
      forall k | 0 <= k < |idx'| ensures idx'[k] < |s'| && r'[k] == s'[idx'[k]] {
        if k < |idx| {
          assert idx'[k] == idx[k];
        }
      }
    } else {
      forall i | 0 <= i < |s'| ensures keep(s'[i]) <==> i in idx {
        if i < |s| {
          assert s'[i] == s[i];
        } else {
          assert forall k :: 0 <= k < |idx| ==> idx[k] < |s|;
        }
      }
    }
  }

  /** `Retain` keeps every accepted element, drops every other one, and preserves their order. */
  lemma {:induction false} RetainSelectsInOrder<T>(s: seq<T>, keep: T -> bool)
    ensures exists idx :: SelectedBy(Retain(s, keep), s, keep, idx)
  {
    if s == [] {
      assert SelectedBy(Retain(s, keep), s, keep, []);
    } else {
      var init, x := s[..|s| - 1], s[|s| - 1];
      assert s == init + [x];
      RetainSelectsInOrder(init, keep);
      var idx: seq<nat> :| SelectedBy(Retain(init, keep), init, keep, idx);
      SelectedByAppend(Retain(init, keep), init, keep, idx, x);
      if keep(x) {
        assert SelectedBy(Retain(s, keep), s, keep, idx + [|init|]);
      } else {
        assert SelectedBy(Retain(s, keep), s, keep, idx);
      }
    }
  }

  /** An element is retained exactly when it occurs in `s` and is accepted. */
  lemma {:induction false} RetainMembership<T>(s: seq<T>, keep: T -> bool, x: T)
    ensures x in Retain(s, keep) <==> x in s && keep(x)
  {
    if s != [] {
      var init := s[..|s| - 1];
      RetainMembership(init, keep, x);
      assert s == init + [s[|s| - 1]];
    }
  }

  /** The number of retained elements is the number of accepted ones. */
  lemma {:induction false} RetainLength<T>(s: seq<T>, keep: T -> bool)
    ensures |Retain(s, keep)| == Count(s, keep)
  {
    if s != [] {
      RetainLength(s[..|s| - 1], keep);
    }
  }

  /** A predicate that is the disjoint union of two others counts as many elements as both together. */
  lemma {:induction false} CountSplit<T>(s: seq<T>, p: T -> bool, q: T -> bool, r: T -> bool)
    requires forall x :: p(x) <==> q(x) || r(x)
    requires forall x :: !(q(x) && r(x))
    ensures Count(s, p) == Count(s, q) + Count(s, r)
  {
    if s != [] {
      CountSplit(s[..|s| - 1], p, q, r);
    }
  }

  /** Selecting from a concatenation selects from each part. */
  lemma {:induction false} RetainAppend<T>(a: seq<T>, b: seq<T>, keep: T -> bool)
    ensures Retain(a + b, keep) == Retain(a, keep) + Retain(b, keep)
    decreases |b|
  {
    if b != [] {
      var b', y := b[..|b| - 1], b[|b| - 1];
      assert (a + b)[..|a + b| - 1] == a + b';
      RetainAppend(a, b', keep);
    } else {
      assert a + b == a;
    }
  }

  /** Counting over a concatenation adds the counts of its parts. */
  lemma {:induction false} CountAppend<T>(a: seq<T>, b: seq<T>, p: T -> bool)
    ensures Count(a + b, p) == Count(a, p) + Count(b, p)
    decreases |b|
  {
    if b != [] {
      assert (a + b)[..|a + b| - 1] == a + b[..|b| - 1];
      CountAppend(a, b[..|b| - 1], p);
    } else {
      assert a + b == a;
    }
  }
}
