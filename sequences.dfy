/**
  Small facts about sequence concatenation and slicing, stated for any
  element type so that the renderers' proofs can use them on lines of text
  without unfolding the text itself.
 */
module Sequences {

  lemma AppendTwo<T>(m: seq<T>, a: T, b: T)
    ensures m + [a] + [b] == m + [a, b]
  {
  }

  lemma AppendFour<T>(m: seq<T>, a: T, b: T, c: T, d: T)
    ensures m + [a] + [b] + [c] + [d] == m + [a, b, c, d]
  {
  }

  lemma AppendAssoc<T>(m: seq<T>, a: seq<T>, b: seq<T>, c: seq<T>, d: seq<T>)
    ensures m + a + b + c + d == m + (a + b + c + d)
  {
  }

  lemma AppendEmpty<T>(s: seq<T>)
    ensures s + [] == s
  {
  }

  /** A non-empty sequence is its front followed by its last element. */
  lemma FrontLast<T>(s: seq<T>)
    requires s != []
    ensures s == s[..|s| - 1] + [s[|s| - 1]]
  {
  }

  /** A prefix grown by one element. */
  lemma ExtendPrefix<T>(m: seq<T>, s: seq<T>, i: nat)
    requires i < |s|
    ensures m + s[..i] + [s[i]] == m + s[..i + 1]
  {
    assert s[..i + 1] == s[..i] + [s[i]];
  }

  lemma DropLast<T>(m: seq<T>, x: T)
    ensures (m + [x])[..|m|] == m
  {
  }

  lemma Assoc3<T>(a: seq<T>, b: seq<T>, c: seq<T>)
    ensures a + b + c == a + (b + c)
  {
  }

  lemma Assoc4<T>(m: seq<T>, a: seq<T>, b: seq<T>, c: seq<T>)
    ensures m + a + b + c == m + (a + b + c)
  {
  }

  /** Where each part of a three-part concatenation sits. */
  lemma InFirst<T>(a: seq<T>, b: seq<T>, c: seq<T>, k: nat)
    requires k < |a|
    ensures (a + b + c)[k] == a[k]
  {
  }

  lemma InSecond<T>(a: seq<T>, b: seq<T>, c: seq<T>, k: nat)
    requires k < |b|
    ensures (a + b + c)[|a| + k] == b[k]
  {
  }

  lemma InThird<T>(a: seq<T>, b: seq<T>, c: seq<T>, k: nat)
    requires k < |c|
    ensures (a + b + c)[|a| + |b| + k] == c[k]
  {
  }

  /** The last element of a concatenation with a non-empty second part. */
  lemma LastOfAppend<T>(a: seq<T>, b: seq<T>)
    requires b != []
    ensures (a + b)[|a + b| - 1] == b[|b| - 1]
  {
  }

  /** The middle part of a three-part concatenation, found at offset `off`. */
  lemma InMiddle<T>(lines: seq<T>, a: seq<T>, b: seq<T>, c: seq<T>, off: nat)
    requires lines == a + b + c && off == |a|
    ensures |lines| == |a| + |b| + |c|
    ensures forall i :: 0 <= i < |b| ==> lines[off + i] == b[i]
  {
  }

  /** Slices of a suffix are slices of the whole. */
  lemma SuffixSlices<T>(s: seq<T>, i: nat, j: nat)
    requires i + j <= |s|
    ensures s[i..][..j] == s[i..i + j]
    ensures s[i..][j..] == s[i + j..]
  {
  }
}
