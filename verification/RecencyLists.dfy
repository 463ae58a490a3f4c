/**
 Lists of different elements, least recently used first.

 Using an element takes it out, if it is there, and puts it at the end. A bounded table
 that drops its oldest elements holds the newest part of the full list; using an element
 keeps it so. Both sliding-window limiters are such tables, one of keys, the other of
 address buckets, and both use the lemmas below, one step at a time.
 */
module RecencyLists {
  import opened Prelude

  function Without<T(==,!new)>(xs: seq<T>, x: T): seq<T> {
    Filter(xs, y => y != x)
  }

  /** x becomes the most recent. */
  function Recalled<T(==,!new)>(all: seq<T>, x: T): seq<T> {
    Without(all, x) + [x]
  }

  /** The last `count` elements, or all of them if there are fewer. */
  function Newest<T>(xs: seq<T>, count: nat): seq<T> {
    if |xs| <= count then xs else xs[|xs| - count..]
  }

  /** Taking one element out of a list of different ones takes at most one. */
  lemma {:induction false} WithoutCount<T(!new)>(xs: seq<T>, x: T)
    requires Distinct(xs)
    ensures |Without(xs, x)| == |xs| - if x in xs then 1 else 0
  {
    if xs != [] {
      DistinctTail(xs);
      WithoutCount(xs[1..], x);
      assert xs == [xs[0]] + xs[1..];
    }
  }

  lemma {:induction false} WithoutNone<T(!new)>(xs: seq<T>, x: T)
    requires x !in xs
    ensures Without(xs, x) == xs
  {
    if xs != [] {
      WithoutNone(xs[1..], x);
      assert xs == [xs[0]] + xs[1..];
    }
  }

  lemma WithoutConcat<T(!new)>(xs: seq<T>, ys: seq<T>, x: T)
    ensures Without(xs + ys, x) == Without(xs, x) + Without(ys, x)
  {
    FilterConcat(xs, ys, y => y != x);
  }

  lemma NewestOfSuffix<T>(before: seq<T>, after: seq<T>, count: nat)
    requires |after| >= count
    ensures Newest(before + after, count) == Newest(after, count)
  {
  }

  lemma NewestTouched<T(!new)>(older: seq<T>, kept: seq<T>, x: T, count: nat)
    requires Distinct(kept) && |kept| == count >= 1
    ensures Newest(Recalled(kept, x), count) == Newest(Recalled(older + kept, x), count)
    ensures x in kept ==> |Without(kept, x)| < count
  {
    WithoutCount(kept, x);
    WithoutConcat(older, kept, x);
    NewestOfSuffix(Without(older, x), Without(kept, x) + [x], count);
    assert Without(older, x) + (Without(kept, x) + [x]) == Without(older + kept, x) + [x];
  }

  /** Using an element keeps the newest ones of the full list. */
  lemma TouchNewest<T(!new)>(all: seq<T>, x: T, count: nat)
    requires Distinct(all) && count >= 1
    ensures var kept := Newest(all, count);
      && Newest(Recalled(kept, x), count) == Newest(Recalled(all, x), count)
      && (x in kept ==> |Recalled(kept, x)| <= count)
  {
    var kept := Newest(all, count);
    if |all| > count {
      assert all == all[..|all| - count] + kept;
      NewestTouched(all[..|all| - count], kept, x, count);
    } else {
      WithoutCount(all, x);
    }
  }

  lemma RecalledDistinct<T(!new)>(all: seq<T>, x: T)
    requires Distinct(all)
    ensures Distinct(Recalled(all, x))
  {
    assert x !in Without(all, x);
  }

  lemma NewestLast<T(!new)>(all: seq<T>, x: T, count: nat)
    requires count >= 1
    ensures x in Newest(Recalled(all, x), count)
  {
    var newest := Newest(Recalled(all, x), count);
    assert newest[|newest| - 1] == x;
  }

  lemma NewestWithin<T>(all: seq<T>, x: T, count: nat)
    ensures x in Newest(all, count) ==> x in all
  {
  }
}
