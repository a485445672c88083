/** Two sequence operations the JavaScript source gets from `Array.prototype`. */
module Seqs {

  /**
   * `s.findIndex(p)`: the index of the first element satisfying `p`, or -1 when
   * there is none.
   */
  function FirstIndex<T>(s: seq<T>, p: T -> bool): (i: int)
    ensures -1 <= i < |s|
    ensures i == -1 <==> forall j :: 0 <= j < |s| ==> !p(s[j])
    ensures 0 <= i ==> p(s[i]) && forall j :: 0 <= j < i ==> !p(s[j])
  {
    if s == [] then -1
    else if p(s[0]) then 0
    else
      var i := FirstIndex(s[1..], p);
      if i == -1 then -1 else i + 1
  }

  /**
   * `s` without the element at index `i` (the `forEach` that skips one index);
   * `s` itself when `i` is not an index of `s`.
   */
  function Without<T>(s: seq<T>, i: int): (r: seq<T>)
    ensures 0 <= i < |s| ==> |r| == |s| - 1 && multiset(r) + multiset{s[i]} == multiset(s)
    ensures !(0 <= i < |s|) ==> r == s
  {
    if 0 <= i < |s| then
      assert s == s[..i] + [s[i]] + s[i + 1..];
      s[..i] + s[i + 1..]
    else s
  }

  /** How `Without` grows as a loop walks `s` from left to right. */
  lemma WithoutPrefixStep<T>(s: seq<T>, k: nat, i: int)
    requires k < |s|
    ensures k == i ==> Without(s[..k + 1], i) == Without(s[..k], i)
    ensures k != i ==> Without(s[..k + 1], i) == Without(s[..k], i) + [s[k]]
  {
    var a, b := s[..k], s[..k + 1];
    assert b == a + [s[k]];
    if 0 <= i < k {
      assert b[..i] == a[..i];
      assert b[i + 1..] == a[i + 1..] + [s[k]];
    }
  }
}
