module Wrappers {
  datatype Option<+T> = None | Some(value: T)

  // `push`: the sequence with one more element.
  function Add<T>(s: seq<T>, x: T): (r: seq<T>)
    ensures |r| == |s| + 1 && r[|s|] == x && forall i | 0 <= i < |s| :: r[i] == s[i]
  {
    seq(|s| + 1, i requires 0 <= i <= |s| => if i < |s| then s[i] else x)
  }

  lemma AddPrefix<T>(s: seq<T>, x: T)
    ensures Add(s, x)[..|s|] == s
  {
  }

  lemma AddBack<T>(s: seq<T>)
    requires s != []
    ensures s == Add(s[..|s| - 1], s[|s| - 1])
  {
  }

  lemma AddHas<T>(s: seq<T>, x: T)
    ensures forall y :: y in Add(s, x) <==> y in s || y == x
  {
    forall y | y in s ensures y in Add(s, x) {
      var i :| 0 <= i < |s| && s[i] == y;
      assert Add(s, x)[i] == y;
    }
    assert Add(s, x)[|s|] == x;
  }

  // The sequence without the element at a position.
  function RemoveAt<T>(s: seq<T>, k: nat): (r: seq<T>)
    requires k < |s|
    ensures |r| == |s| - 1 && forall i | 0 <= i < |r| :: r[i] == s[if i < k then i else i + 1]
  {
    seq(|s| - 1, i requires 0 <= i < |s| - 1 => if i < k then s[i] else s[i + 1])
  }

  lemma RemoveAtPrefix<T>(s: seq<T>, k: nat)
    requires k < |s|
    ensures var n := |s| - 1;
      if k == n then RemoveAt(s, k) == s[..n] else RemoveAt(s, k)[..n - 1] == RemoveAt(s[..n], k) && RemoveAt(s, k)[n - 1] == s[n]
  {
  }
}
