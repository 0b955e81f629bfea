/** `Array.prototype.filter` and the order-preserving sub-list relation it establishes. */
module Lists {

  /** `s` with the elements of `sub` appearing in it in the same order. */
  predicate IsSubsequence<T(==)>(sub: seq<T>, s: seq<T>)
    decreases |s|
  {
    sub == [] || (s != [] && ((sub[0] == s[0] && IsSubsequence(sub[1..], s[1..])) || IsSubsequence(sub, s[1..])))
  }

  /** `s.filter(p)`: the elements satisfying `p`, in their original order. */
  function Filter<T(==)>(s: seq<T>, p: T -> bool): (r: seq<T>)
    ensures |r| <= |s|
    ensures IsSubsequence(r, s)
    ensures forall i :: 0 <= i < |r| ==> r[i] in s && p(r[i])
    ensures forall i :: 0 <= i < |s| && p(s[i]) ==> s[i] in r
    decreases |s|
  {
    if s == [] then []
    else if p(s[0]) then [s[0]] + Filter(s[1..], p)
    else Filter(s[1..], p)
  }

  /**
   * Filtering keeps every passing element as many times as it occurs and drops
   * every failing one: the counts are exact, not only the membership.
   */
  lemma {:induction false} FilterCounts<T>(s: seq<T>, p: T -> bool)
    ensures forall y :: multiset(Filter(s, p))[y] == if p(y) then multiset(s)[y] else 0
    decreases |s|
  {
    if s != [] {
      FilterCounts(s[1..], p);
      calc {
        multiset(s);
      == { assert s == [s[0]] + s[1..]; }
        multiset([s[0]]) + multiset(s[1..]);
      }
    }
  }

  /** Filtering distributes over concatenation, so a filter can be built element by element. */
  lemma {:induction false} FilterAppend<T>(a: seq<T>, b: seq<T>, p: T -> bool)
    ensures Filter(a + b, p) == Filter(a, p) + Filter(b, p)
    decreases |a|
  {
    if a == [] {
      assert a + b == b;
    } else {
      assert (a + b)[1..] == a[1..] + b;
      FilterAppend(a[1..], b, p);
    }
  }

  /** Filtering twice keeps the elements that pass both tests: it is one filter by their conjunction. */
  lemma {:induction false} FilterFilter<T>(s: seq<T>, p: T -> bool, q: T -> bool, both: T -> bool)
    requires forall i :: 0 <= i < |s| ==> both(s[i]) == (p(s[i]) && q(s[i]))
    ensures Filter(Filter(s, p), q) == Filter(s, both)
    decreases |s|
  {
    if s != [] {
      FilterFilter(s[1..], p, q, both);
    }
  }

  /** A filter that lets everything through returns its input. */
  lemma {:induction false} FilterAll<T>(s: seq<T>, p: T -> bool)
    requires forall x :: x in s ==> p(x)
    ensures Filter(s, p) == s
    decreases |s|
  {
    if s != [] {
      FilterAll(s[1..], p);
    }
  }

  /** `s.filter(y => y !== x)`. */
  function Remove<T(==)>(s: seq<T>, x: T): (r: seq<T>)
    ensures IsSubsequence(r, s)
    ensures x !in r
    ensures forall i :: 0 <= i < |s| && s[i] != x ==> s[i] in r
    ensures forall i :: 0 <= i < |r| ==> r[i] in s
  {
    Filter(s, y => y != x)
  }

  /** Removing `x` keeps every other element as many times as it occurs. */
  lemma RemoveCounts<T>(s: seq<T>, x: T)
    ensures forall y :: multiset(Remove(s, x))[y] == if y == x then 0 else multiset(s)[y]
  {
    FilterCounts(s, y => y != x);
  }

  /** No element occurs twice. */
  predicate NoDuplicates<T(==)>(s: seq<T>) {
    forall i, j :: 0 <= i < j < |s| ==> s[i] != s[j]
  }

  /** Removing an element that was just appended to a list without it restores the list. */
  lemma RemoveAppended<T>(s: seq<T>, x: T)
    requires x !in s
    ensures Remove(s + [x], x) == s
  {
    FilterAppend(s, [x], y => y != x);
    FilterAll(s, y => y != x);
  }

  /** Removing an absent element changes nothing. */
  lemma RemoveAbsent<T>(s: seq<T>, x: T)
    requires x !in s
    ensures Remove(s, x) == s
  {
    FilterAll(s, y => y != x);
  }

  /** A sub-list of a duplicate-free list is duplicate-free. */
  lemma {:induction false} SubsequenceNoDuplicates<T>(sub: seq<T>, s: seq<T>)
    requires IsSubsequence(sub, s) && NoDuplicates(s)
    ensures NoDuplicates(sub)
    decreases |s|
  {
    if sub != [] {
      if sub[0] == s[0] && IsSubsequence(sub[1..], s[1..]) {
        SubsequenceNoDuplicates(sub[1..], s[1..]);
        SubsequenceMembers(sub[1..], s[1..]);
        forall j | 0 < j < |sub| ensures sub[0] != sub[j] {
          assert sub[j] == sub[1..][j - 1];
          assert sub[j] in s[1..];
          var k :| 0 <= k < |s[1..]| && s[1..][k] == sub[j];
          assert s[k + 1] == sub[j];
        }
      } else {
        SubsequenceNoDuplicates(sub, s[1..]);
      }
    }
  }

  /** Every element of a sub-list occurs in the list. */
  lemma {:induction false} SubsequenceMembers<T>(sub: seq<T>, s: seq<T>)
    requires IsSubsequence(sub, s)
    ensures forall x :: x in sub ==> x in s
    decreases |s|
  {
    if sub != [] {
      if sub[0] == s[0] && IsSubsequence(sub[1..], s[1..]) {
        SubsequenceMembers(sub[1..], s[1..]);
        assert sub == [sub[0]] + sub[1..];
      } else {
        SubsequenceMembers(sub, s[1..]);
      }
    }
  }

  /** Every list is a sub-list of itself. */
  lemma {:induction false} SubsequenceRefl<T>(s: seq<T>)
    ensures IsSubsequence(s, s)
    decreases |s|
  {
    if s != [] {
      SubsequenceRefl(s[1..]);
    }
  }

  /** A sub-list of a sub-list is a sub-list. */
  lemma {:induction false} SubsequenceTrans<T>(a: seq<T>, b: seq<T>, c: seq<T>)
    requires IsSubsequence(a, b) && IsSubsequence(b, c)
    ensures IsSubsequence(a, c)
    decreases |c|
  {
    if a != [] {
      if b[0] == c[0] && IsSubsequence(b[1..], c[1..]) {
        if a[0] == b[0] && IsSubsequence(a[1..], b[1..]) {
          SubsequenceTrans(a[1..], b[1..], c[1..]);
        } else {
          SubsequenceTrans(a, b[1..], c[1..]);
        }
      } else {
        SubsequenceTrans(a, b, c[1..]);
      }
    }
  }

  /** Two tests that agree on every element filter alike. */
  lemma {:induction false} FilterSame<T>(s: seq<T>, p: T -> bool, q: T -> bool)
    requires forall i :: 0 <= i < |s| ==> p(s[i]) == q(s[i])
    ensures Filter(s, p) == Filter(s, q)
    decreases |s|
  {
    if s != [] {
      FilterSame(s[1..], p, q);
    }
  }

  /** The items from lo (inclusive) to hi (exclusive), cut at the end of the list. */
  function Window<T>(items: seq<T>, lo: nat, hi: nat): (r: seq<T>)
    ensures |r| <= |items|
  {
    if lo < |items| && lo <= hi then items[lo..if hi < |items| then hi else |items|] else []
  }

  /** Moving the upper end one place on adds the item there, if there is one. */
  lemma WindowExtend<T>(items: seq<T>, lo: nat, hi: nat)
    requires lo <= hi
    ensures Window(items, lo, hi + 1) == if hi < |items| then Window(items, lo, hi) + [items[hi]] else Window(items, lo, hi)
  {
  }

  /** The first `n` items, or all of them when there are fewer. */
  function Take<T>(items: seq<T>, n: nat): (r: seq<T>)
    ensures |r| == if n < |items| then n else |items|
    ensures r <= items
  {
    items[..if n < |items| then n else |items|]
  }

  /** The items before `lo` followed by the window from `lo` to `hi` are the items before `hi`. */
  lemma PrefixThenWindow<T>(items: seq<T>, lo: nat, hi: nat)
    requires lo <= hi
    ensures Take(items, lo) + Window(items, lo, hi) == Take(items, hi)
  {
  }

  /** The first i + 1 items are the first i followed by item i. */
  lemma PrefixSnoc<T>(s: seq<T>, i: nat)
    requires i < |s|
    ensures s[..i + 1] == s[..i] + [s[i]]
  {
  }

  /** A non-empty list is its first item followed by the rest. */
  lemma HeadTail<T>(s: seq<T>)
    requires s != []
    ensures s == [s[0]] + s[1..]
  {
  }
}
