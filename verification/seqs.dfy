/** Sequence helpers standing for the JavaScript array methods the source
    uses: `filter` and `join`. */
module Seqs {

  /** `xs.filter(p)`: the elements satisfying `p`, in their original order. */
  function Filter<T>(p: T -> bool, xs: seq<T>): (r: seq<T>)
    ensures |r| <= |xs|
    ensures forall i :: 0 <= i < |r| ==> r[i] in xs && p(r[i])
    ensures forall i :: 0 <= i < |xs| && p(xs[i]) ==> xs[i] in r
  {
    if |xs| == 0 then []
    else if p(xs[0]) then [xs[0]] + Filter(p, xs[1..])
    else Filter(p, xs[1..])
  }

  /** Filtering distributes over concatenation, so order is preserved. */
  lemma {:induction false} FilterAppend<T>(p: T -> bool, xs: seq<T>, ys: seq<T>)
    ensures Filter(p, xs + ys) == Filter(p, xs) + Filter(p, ys)
  {
    if |xs| == 0 {
      assert xs + ys == ys;
    } else {
      assert (xs + ys)[1..] == xs[1..] + ys;
      FilterAppend(p, xs[1..], ys);
    }
  }

  /** An element kept by `p` and an element kept by its complement together
      account for every element exactly once. */
  lemma {:induction false} FilterPartition<T>(p: T -> bool, q: T -> bool, xs: seq<T>)
    requires forall x :: q(x) <==> !p(x)
    ensures |Filter(p, xs)| + |Filter(q, xs)| == |xs|
  {
    if |xs| > 0 {
      FilterPartition(p, q, xs[1..]);
    }
  }

  /** The head of a filter is the first element that satisfies `p`. */
  lemma {:induction false} FilterFirst<T>(p: T -> bool, xs: seq<T>, k: nat)
    requires k < |xs| && p(xs[k])
    requires forall j :: 0 <= j < k ==> !p(xs[j])
    ensures |Filter(p, xs)| > 0 && Filter(p, xs)[0] == xs[k]
  {
    if k > 0 {
      assert !p(xs[0]);
      FilterFirst(p, xs[1..], k - 1);
    }
  }

  /** Filtering a sequence with a known head keeps the head iff it
      satisfies `p`. */
  lemma FilterCons<T>(p: T -> bool, x: T, rest: seq<T>)
    ensures Filter(p, [x] + rest) == (if p(x) then [x] else []) + Filter(p, rest)
  {
    assert ([x] + rest)[1..] == rest;
  }

  /** Regrouping a concatenation; `PushFirst` needs it spelled out. */
  lemma AppendAssoc<T>(a: seq<T>, b: seq<T>, c: seq<T>)
    ensures (a + b) + c == a + (b + c)
  {
  }

  /** The filter is empty exactly when no element satisfies `p`. */
  lemma FilterEmpty<T>(p: T -> bool, xs: seq<T>)
    ensures |Filter(p, xs)| == 0 <==> forall i :: 0 <= i < |xs| ==> !p(xs[i])
  {
    if |Filter(p, xs)| == 0 {
      forall i | 0 <= i < |xs|
        ensures !p(xs[i])
      {
        assert xs[i] in xs;
      }
    } else {
      assert Filter(p, xs)[0] in Filter(p, xs);
    }
  }

  /** `xs.map(f)`. */
  function Map<T, U>(f: T -> U, xs: seq<T>): (r: seq<U>)
    ensures |r| == |xs|
    ensures forall i :: 0 <= i < |xs| ==> r[i] == f(xs[i])
  {
    if |xs| == 0 then [] else [f(xs[0])] + Map(f, xs[1..])
  }

  /** Total number of characters in a list of strings. */
  function TotalLength(xs: seq<string>): nat
  {
    if |xs| == 0 then 0 else |xs[0]| + TotalLength(xs[1..])
  }

  /** `xs.join(sep)`: the empty string for no elements, otherwise the
      elements with `sep` between neighbours. */
  function Join(xs: seq<string>, sep: string): (r: string)
    ensures |xs| > 0 ==> |r| == TotalLength(xs) + |sep| * (|xs| - 1)
    ensures |xs| > 0 ==> r[..|xs[0]|] == xs[0]
    ensures |xs| == 0 ==> r == ""
  {
    if |xs| == 0 then ""
    else if |xs| == 1 then xs[0]
    else xs[0] + sep + Join(xs[1..], sep)
  }
}
