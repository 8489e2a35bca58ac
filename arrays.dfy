/** The two JavaScript array operations the views use to rewrite their
    lists, `Array.prototype.map` and `Array.prototype.filter`, on sequences,
    with the selection they make stated through index embeddings. */
module Arrays {

  /** `s.map(f)`: same length, element i is f of element i. */
  function Map<T, U>(f: T -> U, s: seq<T>): (r: seq<U>)
    ensures |r| == |s|
    ensures forall i :: 0 <= i < |s| ==> r[i] == f(s[i])
  {
    if s == [] then [] else [f(s[0])] + Map(f, s[1..])
  }

  /** `s.filter(p)`: the elements that satisfy p, in their original order. */
  function Filter<T(!new)>(p: T -> bool, s: seq<T>): (r: seq<T>)
    ensures |r| <= |s|
    ensures forall x :: x in r <==> x in s && p(x)
  {
    if s == [] then []
    else if p(s[0]) then [s[0]] + Filter(p, s[1..])
    else Filter(p, s[1..])
  }

  /** idx lists, in strictly increasing order, positions of s whose
      elements, in that order, make up r. */
  ghost predicate Embedding<T>(idx: seq<nat>, r: seq<T>, s: seq<T>)
  {
    && |idx| == |r|
    && (forall j :: 0 <= j < |idx| ==> idx[j] < |s| && r[j] == s[idx[j]])
    && (forall j, k :: 0 <= j < k < |idx| ==> idx[j] < idx[k])
  }

  /** r is an order-preserving subsequence of s. */
  ghost predicate IsSubsequence<T>(r: seq<T>, s: seq<T>)
  {
    exists idx :: Embedding(idx, r, s)
  }

  /** The positions in idx are exactly those whose element satisfies p. */
  ghost predicate Selects<T>(p: T -> bool, idx: seq<nat>, s: seq<T>)
  {
    forall i :: 0 <= i < |s| ==> (i in idx <==> p(s[i]))
  }

  /** Every position moved one place right, for a sequence that gained a head. */
  function Shift(idx: seq<nat>): (r: seq<nat>)
    ensures |r| == |idx|
    ensures forall j :: 0 <= j < |idx| ==> r[j] == idx[j] + 1
  {
    seq(|idx|, j requires 0 <= j < |idx| => idx[j] + 1)
  }

  lemma ShiftMembers(idx: seq<nat>)
    ensures 0 !in Shift(idx)
    ensures forall i :: i in Shift(idx) <==> i > 0 && i - 1 in idx
  {
    var r := Shift(idx);
    forall i | i in r ensures i > 0 && i - 1 in idx {
      var j :| 0 <= j < |r| && r[j] == i;
      assert idx[j] == i - 1;
    }
    forall i | i > 0 && i - 1 in idx ensures i in r {
      var j :| 0 <= j < |idx| && idx[j] == i - 1;
      assert r[j] == i;
    }
  }

  lemma ShiftEmbedding<T>(idx: seq<nat>, r: seq<T>, s: seq<T>)
    requires s != [] && Embedding(idx, r, s[1..])
    ensures Embedding(Shift(idx), r, s)
    ensures Embedding([0] + Shift(idx), [s[0]] + r, s)
  {
  }

  lemma ShiftSelects<T>(p: T -> bool, idx: seq<nat>, s: seq<T>)
    requires s != [] && Selects(p, idx, s[1..])
    ensures p(s[0]) ==> Selects(p, [0] + Shift(idx), s)
    ensures !p(s[0]) ==> Selects(p, Shift(idx), s)
  {
    ShiftMembers(idx);
    forall i | 0 < i < |s| ensures p(s[i]) <==> i - 1 in idx {
      assert s[i] == s[1..][i - 1];
    }
  }

  /** The positions Filter keeps: exactly those whose element satisfies p,
      in increasing order. */
  lemma {:induction false} FilterIndices<T(!new)>(p: T -> bool, s: seq<T>) returns (idx: seq<nat>)
    ensures Embedding(idx, Filter(p, s), s)
    ensures Selects(p, idx, s)
  {
    if s == [] {
      idx := [];
    } else {
      var rest := FilterIndices(p, s[1..]);
      ShiftEmbedding(rest, Filter(p, s[1..]), s);
      ShiftSelects(p, rest, s);
      idx := if p(s[0]) then [0] + Shift(rest) else Shift(rest);
    }
  }

  /** Dropping position i > 0 of s is keeping the head and dropping
      position i - 1 of the tail. */
  lemma SpliceTail<T>(s: seq<T>, i: nat)
    requires 0 < i < |s|
    ensures s[1..][i - 1] == s[i]
    ensures s[..i] + s[i + 1..] == [s[0]] + (s[1..][..i - 1] + s[1..][i..])
  {
    assert s[..i] == [s[0]] + s[1..][..i - 1];
    assert s[i + 1..] == s[1..][i..];
  }

  /** Filter keeps exactly the positions whose element satisfies p, and
      keeps them in order. */
  lemma FilterSelects<T(!new)>(p: T -> bool, s: seq<T>)
    ensures exists idx :: Embedding(idx, Filter(p, s), s) && Selects(p, idx, s)
  {
    var idx := FilterIndices(p, s);
  }

  /** Filter returns an order-preserving subsequence of its input. */
  lemma FilterIsSubsequence<T(!new)>(p: T -> bool, s: seq<T>)
    ensures IsSubsequence(Filter(p, s), s)
  {
    FilterSelects(p, s);
  }

  /** A predicate every element satisfies keeps the whole sequence. */
  lemma {:induction false} FilterAll<T(!new)>(p: T -> bool, s: seq<T>)
    requires forall x :: x in s ==> p(x)
    ensures Filter(p, s) == s
  {
    if s != [] {
      FilterAll(p, s[1..]);
    }
  }

  /** Filtering by a stronger predicate p after a weaker q is filtering by
      p alone; so Filter(p, s) is a subsequence of Filter(q, s). */
  lemma {:induction false} FilterNarrows<T(!new)>(p: T -> bool, q: T -> bool, s: seq<T>)
    requires forall x :: x in s && p(x) ==> q(x)
    ensures Filter(p, Filter(q, s)) == Filter(p, s)
    ensures IsSubsequence(Filter(p, s), Filter(q, s))
  {
    if s != [] {
      FilterNarrows(p, q, s[1..]);
      if q(s[0]) {
        assert Filter(q, s) == [s[0]] + Filter(q, s[1..]);
        assert Filter(q, s)[1..] == Filter(q, s[1..]);
      }
    }
    FilterIsSubsequence(p, Filter(q, s));
  }
}
