/** `Array.prototype.filter` on sequences, and what it preserves. */
module Seqs {

  /** The elements of `s` that satisfy `p`, in their order in `s`. */
  function Keep<T>(s: seq<T>, p: T -> bool): (r: seq<T>)
    ensures |r| <= |s|
    ensures forall i :: 0 <= i < |r| ==> r[i] in s && p(r[i])
    ensures forall i :: 0 <= i < |s| && p(s[i]) ==> s[i] in r
    ensures multiset(r) <= multiset(s)
  {
    if s == [] then []
    else
      assert s == [s[0]] + s[1..];
      if p(s[0]) then [s[0]] + Keep(s[1..], p) else Keep(s[1..], p)
  }

  /** `a` is `b` with some elements left out and the rest in order. */
  predicate IsSubsequence<T(==)>(a: seq<T>, b: seq<T>) {
    if a == [] then true
    else if b == [] then false
    else if a[0] == b[0] then IsSubsequence(a[1..], b[1..])
    else IsSubsequence(a, b[1..])
  }

  lemma {:induction false} KeepSubsequence<T>(s: seq<T>, p: T -> bool)
    ensures IsSubsequence(Keep(s, p), s)
  {
    if s != [] {
      KeepSubsequence(s[1..], p);
      if !p(s[0]) {
        SubsequenceSkip(Keep(s[1..], p), s[0], s[1..]);
      }
    }
  }

  lemma {:induction false} SubsequenceSkip<T>(a: seq<T>, x: T, b: seq<T>)
    requires IsSubsequence(a, b)
    ensures IsSubsequence(a, [x] + b)
    decreases |a| + |b|, 1
  {
    if a != [] && a[0] == x {
      assert ([x] + b)[1..] == b;
      SubsequenceDropHead(a, b);
    }
  }

  lemma {:induction false} SubsequenceDropHead<T>(a: seq<T>, b: seq<T>)
    requires a != [] && IsSubsequence(a, b)
    ensures IsSubsequence(a[1..], b)
    decreases |a| + |b|, 0
  {
    if b != [] {
      if a[0] == b[0] {
        SubsequenceSkip(a[1..], b[0], b[1..]);
        assert [b[0]] + b[1..] == b;
      } else {
        SubsequenceDropHead(a, b[1..]);
        SubsequenceSkip(a[1..], b[0], b[1..]);
        assert [b[0]] + b[1..] == b;
      }
    }
  }

  /** Filtering is determined by the predicate's values alone. */
  lemma {:induction false} KeepExtensional<T>(s: seq<T>, p: T -> bool, q: T -> bool)
    requires forall x :: p(x) == q(x)
    ensures Keep(s, p) == Keep(s, q)
  {
    if s != [] {
      KeepExtensional(s[1..], p, q);
    }
  }

  lemma {:induction false} KeepEverything<T>(s: seq<T>, p: T -> bool)
    requires forall i :: 0 <= i < |s| ==> p(s[i])
    ensures Keep(s, p) == s
  {
    if s != [] {
      KeepEverything(s[1..], p);
      assert [s[0]] + s[1..] == s;
    }
  }

  lemma {:induction false} KeepNothing<T>(s: seq<T>, p: T -> bool)
    requires forall i :: 0 <= i < |s| ==> !p(s[i])
    ensures Keep(s, p) == []
  {
    if s != [] {
      KeepNothing(s[1..], p);
    }
  }

  /** Two filters in a row are one filter by the conjunction. */
  lemma {:induction false} KeepKeep<T>(s: seq<T>, p: T -> bool, q: T -> bool, both: T -> bool)
    requires forall x :: both(x) == (p(x) && q(x))
    ensures Keep(Keep(s, p), q) == Keep(s, both)
  {
    if s != [] {
      KeepKeep(s[1..], p, q, both);
    }
  }

  lemma {:induction false} KeepAppend<T>(a: seq<T>, b: seq<T>, p: T -> bool)
    ensures Keep(a + b, p) == Keep(a, p) + Keep(b, p)
  {
    if a != [] {
      assert a + b == [a[0]] + (a[1..] + b);
      assert a == [a[0]] + a[1..];
      KeepCons(a[0], a[1..] + b, p);
      KeepCons(a[0], a[1..], p);
      KeepAppend(a[1..], b, p);
    } else {
      assert a + b == b;
    }
  }

  /** A stronger predicate keeps a subsequence of what a weaker one keeps. */
  lemma {:induction false} KeepMonotone<T>(s: seq<T>, weak: T -> bool, strong: T -> bool)
    requires forall x :: strong(x) ==> weak(x)
    ensures IsSubsequence(Keep(s, strong), Keep(s, weak))
    ensures |Keep(s, strong)| <= |Keep(s, weak)|
  {
    if s != [] {
      KeepMonotone(s[1..], weak, strong);
      if weak(s[0]) && !strong(s[0]) {
        SubsequenceSkip(Keep(s[1..], strong), s[0], Keep(s[1..], weak));
      }
    }
  }

  /** An element kept or dropped: together the two filters account for
      every element once. */
  lemma {:induction false} KeepSplitsLength<T>(s: seq<T>, p: T -> bool, notP: T -> bool)
    requires forall x :: notP(x) == !p(x)
    ensures |Keep(s, p)| + |Keep(s, notP)| == |s|
  {
    if s != [] {
      KeepSplitsLength(s[1..], p, notP);
    }
  }

  /** One conditional filter pass on top of a filter already applied: the
      result is the filter by the accumulated conjunction. */
  lemma KeepStage<T>(s: seq<T>, acc: T -> bool, active: bool, q: T -> bool, next: T -> bool)
    requires forall x :: next(x) == (acc(x) && (!active || q(x)))
    ensures (if active then Keep(Keep(s, acc), q) else Keep(s, acc)) == Keep(s, next)
  {
    if active {
      KeepKeep(s, acc, q, next);
    } else {
      KeepExtensional(s, acc, next);
    }
  }

  /** Filtering a list with a head: the head, if it passes, then the rest. */
  lemma KeepCons<T>(x: T, s: seq<T>, p: T -> bool)
    ensures Keep([x] + s, p) == (if p(x) then [x] else []) + Keep(s, p)
  {
    assert ([x] + s)[1..] == s;
  }
}
