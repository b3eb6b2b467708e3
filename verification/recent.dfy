/** The "keep only the most recent entries" window that both sides apply to a
    conversation history: JavaScript's `list.slice(-n)` for a positive `n`. */
module Recent {

  /** The last `n` elements of `s`, or all of `s` when it is shorter. */
  function Last<T>(s: seq<T>, n: nat): (r: seq<T>)
    requires 0 < n
    ensures |r| == if |s| <= n then |s| else n
    ensures s == s[..|s| - |r|] + r
  {
    if |s| <= n then s else s[|s| - n..]
  }

  /** The window keeps the order of the history: its k-th element is the
      element that sits `|r| - k` places from the end of the whole history. */
  lemma LastInOrder<T>(s: seq<T>, n: nat, k: nat)
    requires 0 < n && k < |Last(s, n)|
    ensures Last(s, n)[k] == s[|s| - |Last(s, n)| + k]
  {
    var r := Last(s, n);
    assert s[|s| - |r|..] == r;
  }

  /** Appending one more entry and taking the window again is the old window
      shifted by one: the oldest entry drops out once the window is full. */
  lemma LastAppend<T>(s: seq<T>, x: T, n: nat)
    requires 0 < n
    ensures Last(s + [x], n) == if |s| < n then s + [x] else Last(s, n)[1..] + [x]
  {
    if |s| >= n {
      assert (s + [x])[|s| + 1 - n..] == s[|s| - n..][1..] + [x];
    }
  }

  /** A history that already fits the window is passed on unchanged; in
      particular a narrower window taken first survives a wider one. */
  lemma LastWithin<T>(s: seq<T>, n: nat, m: nat)
    requires 0 < n <= m
    ensures |s| <= m ==> Last(s, m) == s
    ensures Last(Last(s, n), m) == Last(s, n)
  {
  }
}
