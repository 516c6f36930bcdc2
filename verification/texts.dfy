/** Dividing texts at the first of some characters. */
module Texts {
  /** Where one of `chars` first is, or the length. */
  function Find(s: string, chars: set<char>): (i: nat)
    ensures i <= |s| && (i < |s| ==> s[i] in chars) && forall j :: 0 <= j < i ==> s[j] !in chars
  {
    if s == "" || s[0] in chars then 0 else 1 + Find(s[1..], chars)
  }

  /** A text is divided at the first of some characters. */
  lemma FindAfter(a: string, b: string, chars: set<char>)
    requires forall i :: 0 <= i < |a| ==> a[i] !in chars
    requires b == "" || b[0] in chars
    ensures Find(a + b, chars) == |a| && (a + b)[..|a|] == a
    ensures b != "" ==> |a| < |a + b| && (a + b)[|a| + 1..] == b[1..]
  {
    assert forall i :: 0 <= i < |a| ==> (a + b)[i] == a[i];
    assert b != "" ==> (a + b)[|a|] == b[0];
  }
}
