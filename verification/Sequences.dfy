/** Facts about sequences that several proofs regroup by. */
module Sequences {

  lemma Assoc<T>(a: seq<T>, b: seq<T>, c: seq<T>)
    ensures a + b + c == a + (b + c)
  {
  }

  /** Some of the elements of w, behind a and c, go over to c. */
  lemma Moved<T>(a: seq<T>, c: seq<T>, w: seq<T>, k: nat)
    requires k <= |w|
    ensures a + (c + w[..k]) + w[k..] == a + c + w
  {
  }

  /** The first k elements of c go over to a. */
  lemma Taken<T>(a: seq<T>, c: seq<T>, w: seq<T>, k: nat)
    requires k <= |c|
    ensures a + c[..k] + c[k..] + w == a + c + w
  {
    assert c[..k] + c[k..] == c;
    Assoc(a, c[..k], c[k..]);
  }

  lemma PrefixOfMore<T>(x: T, a: seq<T>, b: seq<T>)
    ensures a <= b ==> [x] + a <= [x] + b
    ensures [x] + a == [x] + b ==> a == b
  {
    if [x] + a == [x] + b {
      assert a == ([x] + a)[1..] && b == ([x] + b)[1..];
    }
  }

  /** A prefix of a concatenation ends in the first part or in the second. */
  lemma SplitPrefix<T>(w: seq<T>, t: seq<T>, part: seq<T>)
    requires part <= w + t
    ensures |part| < |w| ==> part == w[..|part|]
    ensures |part| >= |w| ==> part == w + part[|w|..] && part[|w|..] <= t
  {
  }

  /** The sequence with one element taken out. */
  function Without<T>(s: seq<T>, i: nat): (r: seq<T>)
    requires i < |s|
    ensures |r| == |s| - 1 && forall j | 0 <= j < |r| :: r[j] == s[if j < i then j else j + 1]
  {
    s[..i] + s[i + 1..]
  }
}
