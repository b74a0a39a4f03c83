/** What several modules share: an optional value, and how a sequence comes apart at either end. */
module Wrappers {
  datatype Option<+T> = None | Some(value: T)

  /** What holds of the tail is put behind the head again. */
  lemma HeadAndTail<T>(s: seq<T>, a: seq<T>, b: seq<T>)
    requires s != [] && s[1..] == a + b
    ensures s == [s[0]] + a + b
  {
    assert s == [s[0]] + s[1..];
  }

  lemma CutAt<T>(s: seq<T>, n: nat) returns (a: seq<T>, b: seq<T>)
    requires n <= |s|
    ensures s == a + b && a == s[..n] && b == s[n..]
  {
    a, b := s[..n], s[n..];
  }

  lemma Associative<T>(a: seq<T>, b: seq<T>, c: seq<T>)
    ensures a + (b + c) == a + b + c
  {
  }

  lemma Regroup<T>(a: seq<T>, b: seq<T>, c: seq<T>, d: seq<T>)
    ensures a + b + c + d == a + (b + (c + d))
  {
  }

  lemma SplitFirst<T>(s: seq<T>) returns (first: T, rest: seq<T>)
    requires s != []
    ensures s == [first] + rest && |rest| < |s|
    ensures first == s[0] && forall i :: 0 <= i < |rest| ==> rest[i] == s[i + 1]
  {
    first, rest := s[0], s[1..];
  }

  lemma SplitLast<T>(s: seq<T>) returns (init: seq<T>, last: T)
    requires s != []
    ensures s == init + [last] && |init| < |s|
    ensures last == s[|init|] && forall i :: 0 <= i < |init| ==> init[i] == s[i]
  {
    init, last := s[..|s| - 1], s[|s| - 1];
  }
}
