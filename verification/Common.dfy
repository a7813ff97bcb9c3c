/** Small definitions shared by the other modules. */
module Common {

  datatype Option<+T> = None | Some(value: T)

  /** The last `n` elements of `s`, or all of them when there are fewer. */
  function LastN<T>(n: nat, s: seq<T>): seq<T> {
    if |s| <= n then s else s[|s| - n..]
  }

  /** It is the end of `s`, of length `n` or as long as `s` if that is shorter. */
  lemma LastNIsTheEnd<T>(n: nat, s: seq<T>)
    ensures |LastN(n, s)| == if n < |s| then n else |s|
    ensures s == s[..|s| - |LastN(n, s)|] + LastN(n, s)
  {}

  /** Appending keeps the tail window consistent: cut, append, cut again is append, cut. */
  lemma LastNAppend<T>(n: nat, s: seq<T>, x: T)
    ensures LastN(n, LastN(n, s) + [x]) == LastN(n, s + [x])
  {
    if |s| > n {
      assert LastN(n, s) + [x] == (s + [x])[|s| - n..];
    }
  }
}
