/** Reading the most recent part of a room's history. */
module History {

  /** `s.slice(-n)` for n >= 1: the last n elements of `s`, or all of `s` when it is
      shorter (with n = 0 this keeps nothing, unlike JavaScript's `slice(-0)`,
      which the server never calls). */
  function SliceLast<T>(s: seq<T>, n: nat): (r: seq<T>)
    ensures |r| == if |s| < n then |s| else n
    ensures s[..|s| - |r|] + r == s
  {
    if |s| <= n then s else s[|s| - n..]
  }

  /** After one more append, the window of the last n elements ends with the new
      element, and the rest of it is the window of the last n - 1 elements before. */
  lemma {:induction false} SliceLastAppend<T>(s: seq<T>, x: T, n: nat)
    requires n > 0
    ensures var w := SliceLast(s + [x], n);
      |w| > 0 && w[|w| - 1] == x && w[..|w| - 1] == SliceLast(s, n - 1)
  {
    if |s| < n {
      assert SliceLast(s + [x], n) == s + [x];
      assert SliceLast(s, n - 1) == s;
      assert (s + [x])[..|s|] == s;
    } else {
      var k := |s| + 1 - n;
      assert SliceLast(s + [x], n) == (s + [x])[k..];
      assert (s + [x])[k..] == s[k..] + [x];
      assert SliceLast(s, n - 1) == s[k..];
      assert (s[k..] + [x])[..|s[k..]|] == s[k..];
    }
  }
}
