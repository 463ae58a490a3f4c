/**
 A small shared vocabulary: optional values, results, and facts about sequences
 and sets that several modules need.

 Sequences stand for the lists of the source. Those without repeats (node ids,
 ordered keys) are Distinct, ToSet forgets their order, and Filter keeps it.
 Lemmas here are the steps by which loops over such lists are followed, one
 element at a time.
 */
module Prelude {

  datatype Option<+T> = None | Some(value: T)

  datatype Result<+T, +E> = Ok(value: T) | Err(error: E)

  ghost predicate Distinct<T>(xs: seq<T>) {
    forall i, j :: 0 <= i < j < |xs| ==> xs[i] != xs[j]
  }

  lemma DistinctTail<T>(xs: seq<T>)
    requires xs != [] && Distinct(xs)
    ensures Distinct(xs[1..]) && xs[0] !in xs[1..]
  {
  }

  function ToSet<T>(xs: seq<T>): set<T> {
    set x | x in xs
  }

  lemma DistinctCons<T>(x: T, xs: seq<T>)
    requires Distinct(xs) && x !in xs
    ensures Distinct([x] + xs)
  {
    var all := [x] + xs;
    forall i, j | 0 <= i < j < |all|
      ensures all[i] != all[j]
    {
      assert all[j] == xs[j - 1];
    }
  }

  lemma TakeOne<T>(xs: seq<T>, j: nat)
    requires Distinct(xs) && j < |xs|
    ensures ToSet(xs[..j + 1]) == ToSet(xs[..j]) + {xs[j]} && xs[j] !in ToSet(xs[..j])
  {
    assert xs[..j + 1] == xs[..j] + [xs[j]];
  }

  /** The elements of xs that satisfy p, in their order. */
  function Filter<T(!new)>(xs: seq<T>, p: T -> bool): (r: seq<T>)
    ensures forall x :: x in r <==> x in xs && p(x)
    ensures Distinct(xs) ==> Distinct(r)
  {
    if xs == [] then []
    else if p(xs[0]) then [xs[0]] + Filter(xs[1..], p)
    else Filter(xs[1..], p)
  }

  lemma {:induction false} FilterSame<T(!new)>(xs: seq<T>, p: T -> bool, q: T -> bool)
    requires forall x :: x in xs ==> p(x) == q(x)
    ensures Filter(xs, p) == Filter(xs, q)
  {
    if xs != [] {
      FilterSame(xs[1..], p, q);
    }
  }

  lemma {:induction false} FilterWhole<T(!new)>(xs: seq<T>, p: T -> bool)
    requires forall x :: x in xs ==> p(x)
    ensures Filter(xs, p) == xs
  {
    if xs != [] {
      FilterWhole(xs[1..], p);
    }
  }

  lemma {:induction false} FilterSingle<T(!new)>(xs: seq<T>, p: T -> bool, x: T)
    requires Distinct(xs) && x in xs && forall y :: y in xs ==> (p(y) <==> y == x)
    ensures Filter(xs, p) == [x]
  {
    DistinctTail(xs);
    if xs[0] == x {
      EmptySeq(Filter(xs[1..], p));
    } else {
      FilterSingle(xs[1..], p, x);
    }
  }

  lemma {:induction false} FilterConcat<T(!new)>(xs: seq<T>, ys: seq<T>, p: T -> bool)
    ensures Filter(xs + ys, p) == Filter(xs, p) + Filter(ys, p)
  {
    if xs == [] {
      assert xs + ys == ys;
    } else {
      assert (xs + ys)[1..] == xs[1..] + ys;
      FilterConcat(xs[1..], ys, p);
    }
  }

  lemma SubsetCard<T>(a: set<T>, b: set<T>)
    requires a <= b
    ensures |a| <= |b| && (a != b ==> |a| < |b|)
  {
    assert b == a + (b - a);
    assert a * (b - a) == {};
    if a != b {
      var x :| x in b - a;
      assert |b - a| >= 1;
    }
  }

  lemma {:induction false} DistinctCard<T>(xs: seq<T>)
    requires Distinct(xs)
    ensures |ToSet(xs)| == |xs|
  {
    if xs != [] {
      var n := |xs| - 1;
      DistinctCard(xs[..n]);
      assert xs == xs[..n] + [xs[n]];
      assert ToSet(xs) == ToSet(xs[..n]) + {xs[n]};
    }
  }

  lemma Inhabited<T>(xs: seq<T>)
    requires xs != []
    ensures exists x :: x in xs
  {
    assert xs[0] in xs;
  }

  lemma EmptySeq<T>(xs: seq<T>)
    requires forall x :: x !in xs
    ensures xs == []
  {
    if xs != [] {
      Inhabited(xs);
    }
  }

  /** The characters str.strip removes at the ends. */
  predicate IsSpace(c: char) {
    '\t' <= c <= '\r' || '\U{1c}' <= c <= ' ' || c == '\U{85}' || c == '\U{a0}' || c == '\U{1680}'
    || '\U{2000}' <= c <= '\U{200a}' || c == '\U{2028}' || c == '\U{2029}' || c == '\U{202f}' || c == '\U{205f}' || c == '\U{3000}'
  }

  function TrimRight(s: string): string {
    if s != "" && IsSpace(s[|s| - 1]) then TrimRight(s[..|s| - 1]) else s
  }

  function Trim(s: string): string {
    if s != "" && IsSpace(s[0]) then Trim(s[1..]) else TrimRight(s)
  }

  lemma {:induction false} TrimRightShorter(s: string)
    ensures |TrimRight(s)| <= |s| && (|TrimRight(s)| == |s| ==> TrimRight(s) == s)
  {
    if s != "" && IsSpace(s[|s| - 1]) {
      TrimRightShorter(s[..|s| - 1]);
    }
  }

  lemma {:induction false} TrimShorter(s: string)
    ensures |Trim(s)| <= |s| && (|Trim(s)| == |s| ==> Trim(s) == s)
  {
    if s != "" && IsSpace(s[0]) {
      TrimShorter(s[1..]);
    } else {
      TrimRightShorter(s);
    }
  }
}
