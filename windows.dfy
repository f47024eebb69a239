/**
 * Trailing-window extraction, pandas' `tail(n)`: the last min(n, L) rows of a
 * table of L rows, in their original order.
 */
module Windows {

  /** The last n elements of s, or all of s when it has no more than n. */
  function Tail<T>(s: seq<T>, n: nat): (t: seq<T>)
    ensures |t| == if n < |s| then n else |s|
    ensures forall k :: 0 <= k < |t| ==> t[k] == s[|s| - |t| + k]
  {
    if n >= |s| then s else s[|s| - n..]
  }

  /** Asking for at least as many rows as there are returns the table unchanged. */
  lemma TailOfShort<T>(s: seq<T>, n: nat)
    requires n >= |s|
    ensures Tail(s, n) == s
  {
  }

  /** The tail is a suffix: the rows it drops, followed by it, are the whole table. */
  lemma TailIsSuffix<T>(s: seq<T>, n: nat)
    ensures s[..|s| - |Tail(s, n)|] + Tail(s, n) == s
  {
    var t := Tail(s, n);
    var d := |s| - |t|;
    assert t == s[d..];
    assert s[..d] + s[d..] == s;
  }

  /** A shorter tail of a tail is the shorter tail of the whole table. */
  lemma TailOfTail<T>(s: seq<T>, m: nat, n: nat)
    requires m <= n
    ensures Tail(Tail(s, n), m) == Tail(s, m)
  {
  }
}
