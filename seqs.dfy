/**
 * The two array combinators the task list is built from, as functions on
 * sequences: `Array.prototype.map` and `Array.prototype.filter`. Both return a
 * new sequence and leave their argument alone.
 */
module Seqs {

  /** `s.map(f)`: same length, element k is `f(s[k])`. */
  function Map<A, B>(f: A -> B, s: seq<A>): (r: seq<B>)
    ensures |r| == |s|
    ensures forall k :: 0 <= k < |s| ==> r[k] == f(s[k])
  {
    if s == [] then [] else [f(s[0])] + Map(f, s[1..])
  }

  /** `s.filter(p)`: the elements of `s` that satisfy `p`, and only those. */
  function Filter<A(==)>(p: A -> bool, s: seq<A>): (r: seq<A>)
    ensures |r| <= |s|
    ensures forall k :: 0 <= k < |r| ==> p(r[k])
  {
    if s == [] then [] else (if p(s[0]) then [s[0]] else []) + Filter(p, s[1..])
  }

  /** An element is kept exactly when it occurs in `s` and passes `p`. */
  lemma {:induction false} FilterMembers<A>(p: A -> bool, s: seq<A>, x: A)
    ensures x in Filter(p, s) <==> x in s && p(x)
  {
    if s != [] {
      FilterMembers(p, s[1..], x);
      assert s == [s[0]] + s[1..];
    }
  }

  /** Filtering keeps relative order: it distributes over concatenation. */
  lemma {:induction false} FilterConcat<A>(p: A -> bool, a: seq<A>, b: seq<A>)
    ensures Filter(p, a + b) == Filter(p, a) + Filter(p, b)
  {
    if a == [] {
      assert a + b == b;
    } else {
      assert (a + b)[1..] == a[1..] + b;
      FilterConcat(p, a[1..], b);
    }
  }

  /** When every element passes, filtering returns the sequence unchanged. */
  lemma {:induction false} FilterAll<A>(p: A -> bool, s: seq<A>)
    requires forall k :: 0 <= k < |s| ==> p(s[k])
    ensures Filter(p, s) == s
  {
    if s != [] {
      FilterAll(p, s[1..]);
    }
  }

  /** When no element passes, filtering returns the empty sequence. */
  lemma {:induction false} FilterNone<A>(p: A -> bool, s: seq<A>)
    requires forall k :: 0 <= k < |s| ==> !p(s[k])
    ensures Filter(p, s) == []
  {
    if s != [] {
      FilterNone(p, s[1..]);
    }
  }

  /** Filtering twice by the same predicate is filtering once. */
  lemma {:induction false} FilterIdempotent<A>(p: A -> bool, s: seq<A>)
    ensures Filter(p, Filter(p, s)) == Filter(p, s)
  {
    var r := Filter(p, s);
    FilterAll(p, r);
  }

  /** Filters by two predicates may be applied in either order. */
  lemma {:induction false} FilterCommutes<A>(p: A -> bool, q: A -> bool, s: seq<A>)
    ensures Filter(p, Filter(q, s)) == Filter(q, Filter(p, s))
  {
    if s != [] {
      var h, t := s[0], s[1..];
      FilterCommutes(p, q, t);
      var fq := if q(h) then [h] else [];
      var fp := if p(h) then [h] else [];
      assert [h][1..] == [];
      FilterConcat(p, fq, Filter(q, t));
      FilterConcat(q, fp, Filter(p, t));
      assert Filter(p, fq) == Filter(q, fp);
    }
  }

  /**
   * Removing the one element that fails the predicate: the result is the
   * sequence with that position cut out.
   */
  lemma {:induction false} FilterDropsOne<A>(p: A -> bool, s: seq<A>, k: nat)
    requires k < |s| && !p(s[k])
    requires forall j :: 0 <= j < |s| && j != k ==> p(s[j])
    ensures Filter(p, s) == s[..k] + s[k + 1..]
  {
    var t := s[1..];
    if k == 0 {
      FilterAll(p, t);
    } else {
      FilterDropsOne(p, t, k - 1);
      assert t[..k - 1] + t[k..] == s[1..k] + s[k + 1..];
      assert s[..k] == [s[0]] + s[1..k];
    }
  }
}
