/** Order-preserving filtering, the shape of every `for e in xs: if p(e):
    ys.append(e)` loop in the manager, and concatenation of byte chunks. */
module Seqs {

  /** The elements of `s` that satisfy `p`, in their original order. */
  function Filter<T>(s: seq<T>, p: T -> bool): (r: seq<T>)
    ensures |r| <= |s|
  {
    if |s| == 0 then []
    else Filter(s[..|s| - 1], p) + (if p(s[|s| - 1]) then [s[|s| - 1]] else [])
  }

  /** Filtering distributes over concatenation; with `Filter([x], p)` this
      determines `Filter` completely. */
  lemma {:induction false} FilterAppend<T>(a: seq<T>, b: seq<T>, p: T -> bool)
    ensures Filter(a + b, p) == Filter(a, p) + Filter(b, p)
    decreases |b|
  {
    if |b| > 0 {
      var b' := b[..|b| - 1];
      assert (a + b)[..|a + b| - 1] == a + b';
      FilterAppend(a, b', p);
    } else {
      assert a + b == a;
    }
  }

  /** An element is kept exactly when it occurs in `s` and satisfies `p`. */
  lemma {:induction false} FilterMembers<T>(s: seq<T>, p: T -> bool, x: T)
    ensures x in Filter(s, p) <==> x in s && p(x)
  {
    if |s| > 0 {
      FilterMembers(s[..|s| - 1], p, x);
      assert s == s[..|s| - 1] + [s[|s| - 1]];
    }
  }

  /** Filtering a sequence whose every element satisfies `p` changes nothing. */
  lemma {:induction false} FilterKeepsAll<T>(s: seq<T>, p: T -> bool)
    requires forall i :: 0 <= i < |s| ==> p(s[i])
    ensures Filter(s, p) == s
  {
    if |s| > 0 {
      FilterKeepsAll(s[..|s| - 1], p);
      assert s == s[..|s| - 1] + [s[|s| - 1]];
    }
  }

  /** Every kept element satisfies `p`. */
  lemma {:induction false} FilterAllSatisfy<T>(s: seq<T>, p: T -> bool, i: nat)
    requires i < |Filter(s, p)|
    ensures Filter(s, p)[i] in s && p(Filter(s, p)[i])
  {
    FilterMembers(s, p, Filter(s, p)[i]);
  }

  /** The first kept element: every earlier element of `s` was rejected. */
  lemma {:induction false} FilterFirst<T>(s: seq<T>, p: T -> bool, k: nat)
    requires k < |s| && p(s[k])
    requires forall j :: 0 <= j < k ==> !p(s[j])
    ensures |Filter(s, p)| > 0 && Filter(s, p)[0] == s[k]
  {
    assert s == s[..k] + s[k..];
    assert s[k..] == [s[k]] + s[k + 1..];
    FilterAppend(s[..k], s[k..], p);
    FilterAppend([s[k]], s[k + 1..], p);
    NoneKept(s[..k], p);
    assert Filter([s[k]], p) == [s[k]] by {
      assert [s[k]][..0] == [];
    }
  }

  /** Nothing is kept from a sequence whose elements all fail `p`. */
  lemma {:induction false} NoneKept<T>(s: seq<T>, p: T -> bool)
    requires forall j :: 0 <= j < |s| ==> !p(s[j])
    ensures Filter(s, p) == []
  {
    if |s| > 0 {
      NoneKept(s[..|s| - 1], p);
    }
  }

  /** The concatenation of the chunks, in order. */
  function Concat<T>(chunks: seq<seq<T>>): seq<T>
  {
    if |chunks| == 0 then [] else Concat(chunks[..|chunks| - 1]) + chunks[|chunks| - 1]
  }

  /** The sum of the chunks' lengths. */
  function SumLengths<T>(chunks: seq<seq<T>>): nat
  {
    if |chunks| == 0 then 0 else SumLengths(chunks[..|chunks| - 1]) + |chunks[|chunks| - 1]|
  }

  /** The lengths of the chunks add up to the length of their concatenation. */
  lemma {:induction false} SumLengthsConcat<T>(chunks: seq<seq<T>>)
    ensures SumLengths(chunks) == |Concat(chunks)|
  {
    if |chunks| > 0 {
      SumLengthsConcat(chunks[..|chunks| - 1]);
    }
  }

  /** Concatenating a prefix of the chunks gives a prefix of the whole. */
  lemma {:induction false} ConcatPrefix<T>(chunks: seq<seq<T>>, k: nat)
    requires k <= |chunks|
    ensures Concat(chunks[..k]) <= Concat(chunks)
    decreases |chunks|
  {
    if k < |chunks| {
      var init := chunks[..|chunks| - 1];
      assert chunks[..k] == init[..k];
      ConcatPrefix(init, k);
    } else {
      assert chunks[..k] == chunks;
    }
  }

  /** Concatenation taken from the front. */
  lemma {:induction false} ConcatCons<T>(x: seq<T>, rest: seq<seq<T>>)
    ensures Concat([x] + rest) == x + Concat(rest)
    decreases |rest|
  {
    if |rest| == 0 {
      assert [x] + rest == [x];
      assert [x][..0] == [];
    } else {
      var init := rest[..|rest| - 1];
      assert ([x] + rest)[..|rest|] == [x] + init;
      ConcatCons(x, init);
    }
  }

  /** One more chunk appends that chunk. */
  lemma ConcatStep<T>(chunks: seq<seq<T>>, k: nat)
    requires k < |chunks|
    ensures Concat(chunks[..k + 1]) == Concat(chunks[..k]) + chunks[k]
  {
    assert chunks[..k + 1][..k] == chunks[..k];
  }
}
