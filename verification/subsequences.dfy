/** Order-preserving subsequences, the relation every filtering step of the
    configurator keeps between what it returns and what it was given. */
module Subsequences {

  /** `a` can be obtained from `b` by deleting elements. */
  predicate IsSubseq<T(==)>(a: seq<T>, b: seq<T>)
    decreases |b|
  {
    a == [] || (b != [] && ((a[0] == b[0] && IsSubseq(a[1..], b[1..])) || IsSubseq(a, b[1..])))
  }

  lemma {:induction false} SubseqRefl<T>(a: seq<T>)
    ensures IsSubseq(a, a)
    decreases |a|
  {
    if a != [] {
      SubseqRefl(a[1..]);
    }
  }

  lemma {:induction false} SubseqMembers<T>(a: seq<T>, b: seq<T>)
    requires IsSubseq(a, b)
    ensures forall x :: x in a ==> x in b
    decreases |b|
  {
    if a != [] {
      assert a == [a[0]] + a[1..] && b == [b[0]] + b[1..];
      if a[0] == b[0] && IsSubseq(a[1..], b[1..]) {
        SubseqMembers(a[1..], b[1..]);
      } else {
        SubseqMembers(a, b[1..]);
      }
    }
  }

  lemma {:induction false} SubseqTrans<T>(a: seq<T>, b: seq<T>, c: seq<T>)
    requires IsSubseq(a, b) && IsSubseq(b, c)
    ensures IsSubseq(a, c)
    decreases |c|
  {
    if a == [] {
    } else if b == [] {
    } else if c == [] {
    } else if b[0] == c[0] && IsSubseq(b[1..], c[1..]) {
      if a[0] == b[0] && IsSubseq(a[1..], b[1..]) {
        SubseqTrans(a[1..], b[1..], c[1..]);
      } else {
        SubseqTrans(a, b[1..], c[1..]);
      }
    } else {
      SubseqTrans(a, b, c[1..]);
    }
  }

  /** Extra elements after `b` do not break a subsequence. */
  lemma {:induction false} SubseqAppend<T>(a: seq<T>, b: seq<T>, tail: seq<T>)
    requires IsSubseq(a, b)
    ensures IsSubseq(a, b + tail)
    decreases |b|
  {
    if a != [] {
      assert (b + tail)[1..] == b[1..] + tail;
      if a[0] == b[0] && IsSubseq(a[1..], b[1..]) {
        SubseqAppend(a[1..], b[1..], tail);
      } else {
        SubseqAppend(a, b[1..], tail);
      }
    }
  }

  /** Extra elements before `b` do not break a subsequence. */
  lemma {:induction false} SubseqPrepend<T>(a: seq<T>, head: seq<T>, b: seq<T>)
    requires IsSubseq(a, b)
    ensures IsSubseq(a, head + b)
    decreases |head|
  {
    if head == [] {
      assert head + b == b;
    } else {
      SubseqPrepend(a, head[1..], b);
      assert (head + b)[1..] == head[1..] + b;
    }
  }

  /** Any contiguous slice of `s` is a subsequence of it. */
  lemma SliceIsSubseq<T>(s: seq<T>, i: int, j: int)
    requires 0 <= i <= j <= |s|
    ensures IsSubseq(s[i..j], s)
  {
    SubseqRefl(s[i..j]);
    SubseqAppend(s[i..j], s[i..j], s[j..]);
    SubseqPrepend(s[i..j], s[..i], s[i..j] + s[j..]);
    assert s[..i] + (s[i..j] + s[j..]) == s;
  }
}
