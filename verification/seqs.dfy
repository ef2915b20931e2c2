/** Sequence combinators standing for the Java collection idioms the source
    uses: stream `filter`/`map`, `StringBuilder` loops, subsequences. */
module Seqs {

  /** The elements of `xs` that satisfy `p`, in their original order
      (`stream().filter(p)`). */
  function Filter<T>(xs: seq<T>, p: T -> bool): (r: seq<T>)
    ensures |r| <= |xs|
    ensures forall x :: x in r ==> x in xs && p(x)
    ensures forall x :: x in xs && p(x) ==> x in r
  {
    if xs == [] then []
    else
      assert forall x :: x in xs[1..] ==> x in xs;
      (if p(xs[0]) then [xs[0]] else []) + Filter(xs[1..], p)
  }

  /** `f` applied to every element (`stream().map(f)`). */
  function Map<T, U>(xs: seq<T>, f: T -> U): (r: seq<U>)
    ensures |r| == |xs|
    ensures forall i :: 0 <= i < |xs| ==> r[i] == f(xs[i])
  {
    seq(|xs|, i requires 0 <= i < |xs| => f(xs[i]))
  }

  /** The renderings of the elements of `xs`, concatenated in order (a
      `StringBuilder` appended to once per element). */
  function Flatten<T>(xs: seq<T>, render: T -> string): string
  {
    if xs == [] then [] else render(xs[0]) + Flatten(xs[1..], render)
  }

  /** No element occurs twice. */
  predicate NoDup<T(==)>(xs: seq<T>) {
    forall i, j :: 0 <= i < j < |xs| ==> xs[i] != xs[j]
  }

  /** `a` is obtained from `b` by deleting elements (order is kept). */
  predicate IsSubseq<T(==)>(a: seq<T>, b: seq<T>)
    decreases |b|
  {
    if a == [] then true
    else if b == [] then false
    else (a[0] == b[0] && IsSubseq(a[1..], b[1..])) || IsSubseq(a, b[1..])
  }

  /** The first occurrence of every element, in order of first occurrence. */
  function Dedup<T(==)>(xs: seq<T>): (r: seq<T>)
    ensures forall x :: x in r ==> x in xs
    ensures forall x :: x in xs ==> x in r
    ensures NoDup(r)
    ensures |r| <= |xs|
    decreases |xs|
  {
    if xs == [] then []
    else
      var init := xs[..|xs| - 1];
      var last := xs[|xs| - 1];
      assert xs == init + [last];
      var d := Dedup(init);
      if last in init then d else d + [last]
  }

  lemma {:induction false} FilterAppend<T>(a: seq<T>, b: seq<T>, p: T -> bool)
    ensures Filter(a + b, p) == Filter(a, p) + Filter(b, p)
  {
    if a == [] {
      assert a + b == b;
    } else {
      assert (a + b)[0] == a[0];
      assert (a + b)[1..] == a[1..] + b;
      FilterAppend(a[1..], b, p);
    }
  }

  /** A filter that rejects every element yields nothing. */
  lemma FilterNone<T>(xs: seq<T>, p: T -> bool)
    requires forall x :: x in xs ==> !p(x)
    ensures Filter(xs, p) == []
  {
  }

  /** Filtering an already filtered sequence changes nothing. */
  lemma {:induction false} FilterIdempotent<T>(xs: seq<T>, p: T -> bool)
    ensures Filter(Filter(xs, p), p) == Filter(xs, p)
  {
    if xs != [] {
      FilterIdempotent(xs[1..], p);
      if !p(xs[0]) {
        assert Filter(xs, p) == Filter(xs[1..], p);
      } else {
        assert Filter([xs[0]] + Filter(xs[1..], p), p)
            == Filter([xs[0]], p) + Filter(Filter(xs[1..], p), p) by {
          FilterAppend([xs[0]], Filter(xs[1..], p), p);
        }
      }
    }
  }

  /** A filtered sequence is a subsequence of its source. */
  lemma {:induction false} FilterIsSubseq<T>(xs: seq<T>, p: T -> bool)
    ensures IsSubseq(Filter(xs, p), xs)
  {
    if xs != [] {
      FilterIsSubseq(xs[1..], p);
      if p(xs[0]) {
        assert Filter(xs, p)[1..] == Filter(xs[1..], p);
      } else {
        assert Filter(xs, p) == Filter(xs[1..], p);
        SubseqCons(Filter(xs, p), xs[1..], xs[0]);
        assert [xs[0]] + xs[1..] == xs;
      }
    }
  }

  lemma MapAppend<T, U>(a: seq<T>, b: seq<T>, f: T -> U)
    ensures Map(a + b, f) == Map(a, f) + Map(b, f)
  {
  }

  lemma {:induction false} FlattenAppend<T>(a: seq<T>, b: seq<T>, render: T -> string)
    ensures Flatten(a + b, render) == Flatten(a, render) + Flatten(b, render)
  {
    if a == [] {
      assert a + b == b;
    } else {
      assert (a + b)[0] == a[0];
      assert (a + b)[1..] == a[1..] + b;
      FlattenAppend(a[1..], b, render);
    }
  }

  /** A fixed prefix followed by the renderings of two sequences is the
      prefix with the first rendering, followed by the second. */
  lemma PrefixedFlattenAppend<T>(prefix: string, a: seq<T>, b: seq<T>, render: T -> string)
    ensures prefix + Flatten(a + b, render) == (prefix + Flatten(a, render)) + Flatten(b, render)
  {
    FlattenAppend(a, b, render);
  }

  /** The rendering of element `i` sits, intact, right after the renderings of
      the elements before it. */
  lemma {:induction false} FlattenAt<T>(xs: seq<T>, i: nat, render: T -> string)
    requires i < |xs|
    ensures Flatten(xs, render)
         == Flatten(xs[..i], render) + render(xs[i]) + Flatten(xs[i + 1..], render)
  {
    var head := render(xs[0]);
    assert Flatten(xs, render) == head + Flatten(xs[1..], render);
    if i == 0 {
      assert xs[..0] == [];
      assert xs[1..] == xs[i + 1..];
    } else {
      var tail := xs[1..];
      FlattenAt(tail, i - 1, render);
      assert tail[i - 1] == xs[i];
      assert tail[i..] == xs[i + 1..];
      assert xs[..i][0] == xs[0] && xs[..i][1..] == tail[..i - 1];
      assert Flatten(xs[..i], render) == head + Flatten(tail[..i - 1], render);
    }
  }

  /** Prepending an element to the larger sequence keeps a subsequence. */
  lemma SubseqCons<T>(a: seq<T>, b: seq<T>, x: T)
    requires IsSubseq(a, b)
    ensures IsSubseq(a, [x] + b)
  {
    assert ([x] + b)[1..] == b;
  }

  /** Prepending the same element to both sides keeps a subsequence. */
  lemma SubseqConsBoth<T>(a: seq<T>, b: seq<T>, x: T)
    requires IsSubseq(a, b)
    ensures IsSubseq([x] + a, [x] + b)
  {
    assert ([x] + a)[1..] == a;
    assert ([x] + b)[1..] == b;
  }

  /** A subsequence is never longer than its source. */
  lemma {:induction false} SubseqLength<T>(a: seq<T>, b: seq<T>)
    requires IsSubseq(a, b)
    ensures |a| <= |b|
    decreases |b|
  {
    if a != [] {
      if a[0] == b[0] && IsSubseq(a[1..], b[1..]) {
        SubseqLength(a[1..], b[1..]);
      } else {
        SubseqLength(a, b[1..]);
      }
    }
  }

  /** Every element of a subsequence occurs in its source. */
  lemma {:induction false} SubseqMembers<T>(a: seq<T>, b: seq<T>)
    requires IsSubseq(a, b)
    ensures forall x :: x in a ==> x in b
    decreases |b|
  {
    if a != [] {
      if a[0] == b[0] && IsSubseq(a[1..], b[1..]) {
        SubseqMembers(a[1..], b[1..]);
        assert a == [a[0]] + a[1..];
        assert b == [b[0]] + b[1..];
      } else {
        SubseqMembers(a, b[1..]);
        assert b == [b[0]] + b[1..];
      }
    }
  }

  /** Appending an element extends the first occurrences exactly when the
      element is new. */
  lemma DedupSnoc<T>(xs: seq<T>, x: T)
    ensures Dedup(xs + [x]) == if x in xs then Dedup(xs) else Dedup(xs) + [x]
  {
    assert (xs + [x])[..|xs|] == xs;
  }

  /** A sequence without duplicates is its own first occurrences. */
  lemma {:induction false} DedupOfNoDup<T>(xs: seq<T>)
    requires NoDup(xs)
    ensures Dedup(xs) == xs
    decreases |xs|
  {
    if xs != [] {
      var init := xs[..|xs| - 1];
      assert NoDup(init);
      DedupOfNoDup(init);
      assert xs[|xs| - 1] !in init;
      assert xs == init + [xs[|xs| - 1]];
    }
  }
}
