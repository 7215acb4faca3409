/** Ways to take a sequence apart. */
module Sequences {

  lemma SplitSeq<T>(s: seq<T>, i: nat)
    requires i <= |s|
    ensures s == s[..i] + s[i..]
    ensures i < |s| ==> s == s[..i] + [s[i]] + s[i + 1..]
  {
  }

  lemma SplitLast<T>(s: seq<T>)
    requires s != []
    ensures s == s[..|s| - 1] + [s[|s| - 1]]
  {
  }

  lemma CutOfLonger<T>(a: seq<T>, b: seq<T>, n: nat)
    requires n <= |a|
    ensures (a + b)[..n] == a[..n] && (a + b)[n..] == a[n..] + b
  {
  }

  lemma Regroup<T>(a: seq<T>, b: seq<T>, c: seq<T>)
    ensures a + b + c == a + (b + c)
  {
  }

  lemma SplitHead<T>(a: seq<T>, c: seq<T>)
    requires c != []
    ensures a + c == a + [c[0]] + c[1..]
  {
  }
}
