/** Sequence operations behind the client's array idioms: `filter` and `reverse`. */
module Seqs {

  /** `Array.prototype.filter`: the elements satisfying `p`, in their original order. */
  function Filter<T(==,!new)>(p: T -> bool, s: seq<T>): (r: seq<T>)
    ensures |r| <= |s|
  {
    if |s| == 0 then []
    else
      var rest := Filter(p, s[1..]);
      assert s == [s[0]] + s[1..];
      if p(s[0]) then [s[0]] + rest else rest
  }

  /** The filter keeps exactly the elements satisfying `p`. */
  lemma {:induction false} FilterMembers<T(!new)>(p: T -> bool, s: seq<T>)
    ensures forall x :: x in Filter(p, s) <==> x in s && p(x)
  {
    if |s| > 0 {
      FilterMembers(p, s[1..]);
      assert s == [s[0]] + s[1..];
    }
  }

  /** Each kept value is kept as often as it occurs; the others not at all. */
  lemma {:induction false} FilterCounts<T(!new)>(p: T -> bool, s: seq<T>)
    ensures forall x :: multiset(Filter(p, s))[x] == if p(x) then multiset(s)[x] else 0
  {
    if |s| > 0 {
      FilterCounts(p, s[1..]);
      assert s == [s[0]] + s[1..];
    }
  }

  /** Filtering distributes over concatenation, which is what "original order" means. */
  lemma {:induction false} FilterAppend<T(!new)>(p: T -> bool, a: seq<T>, b: seq<T>)
    ensures Filter(p, a + b) == Filter(p, a) + Filter(p, b)
  {
    if |a| > 0 {
      var ab := a + b;
      assert ab[0] == a[0] && ab[1..] == a[1..] + b;
      FilterAppend(p, a[1..], b);
      assert Filter(p, ab) == (if p(a[0]) then [a[0]] else []) + Filter(p, ab[1..]);
      assert Filter(p, a) == (if p(a[0]) then [a[0]] else []) + Filter(p, a[1..]);
    } else {
      assert a + b == b;
    }
  }

  /** A filter that rejects nothing is the identity. */
  lemma {:induction false} FilterKeepsAll<T(!new)>(p: T -> bool, s: seq<T>)
    requires forall i :: 0 <= i < |s| ==> p(s[i])
    ensures Filter(p, s) == s
  {
    if |s| > 0 {
      FilterKeepsAll(p, s[1..]);
      assert s == [s[0]] + s[1..];
    }
  }

  /** A run of kept elements `s[i..j]` passes through whole. */
  lemma {:induction false} FilterKeepsRun<T(!new)>(p: T -> bool, s: seq<T>, i: nat, j: nat)
    requires i <= j <= |s|
    requires forall k :: i <= k < j ==> p(s[k])
    ensures Filter(p, s[i..]) == s[i..j] + Filter(p, s[j..])
    decreases j - i
  {
    if i < j {
      assert s[i..][0] == s[i] && s[i..][1..] == s[i + 1..];
      assert Filter(p, s[i..]) == [s[i]] + Filter(p, s[i + 1..]);
      FilterKeepsRun(p, s, i + 1, j);
      assert s[i..j] == [s[i]] + s[i + 1..j];
    }
  }

  /** A run of rejected elements `s[i..j]` vanishes. */
  lemma {:induction false} FilterDropsRun<T(!new)>(p: T -> bool, s: seq<T>, i: nat, j: nat)
    requires i <= j <= |s|
    requires forall k :: i <= k < j ==> !p(s[k])
    ensures Filter(p, s[i..]) == Filter(p, s[j..])
    decreases j - i
  {
    if i < j {
      assert s[i..][0] == s[i] && s[i..][1..] == s[i + 1..];
      FilterDropsRun(p, s, i + 1, j);
    }
  }

  /** Filtering a sequence whose first `i` elements are kept and whose next
      ones, up to `j`, are dropped. */
  lemma FilterSlices<T(!new)>(p: T -> bool, s: seq<T>, i: nat, j: nat)
    requires i <= j <= |s|
    requires forall k :: 0 <= k < i ==> p(s[k])
    requires forall k :: i <= k < j ==> !p(s[k])
    ensures Filter(p, s) == s[..i] + Filter(p, s[j..])
  {
    calc {
      Filter(p, s);
      { assert s[0..] == s; }
      Filter(p, s[0..]);
      { FilterKeepsRun(p, s, 0, i); }
      s[0..i] + Filter(p, s[i..]);
      { FilterDropsRun(p, s, i, j); }
      s[..i] + Filter(p, s[j..]);
    }
  }

  /** `Array.prototype.reverse`. */
  function Reverse<T>(s: seq<T>): (r: seq<T>)
    ensures |r| == |s|
    ensures forall i :: 0 <= i < |s| ==> r[i] == s[|s| - 1 - i]
  {
    if |s| == 0 then [] else [s[|s| - 1]] + Reverse(s[..|s| - 1])
  }

  /** Reversing twice gives the original back. */
  lemma ReverseInvolution<T>(s: seq<T>)
    ensures Reverse(Reverse(s)) == s
  {
  }
}
