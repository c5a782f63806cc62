/**
  * The detector's sliding window, a double-ended queue with a maximum length:
  * appending to a full queue first drops the oldest value, so the queue always
  * holds the newest `maxlen` values appended to it, in arrival order.
  */
module SlidingWindow {

  /** The newest `n` values of `s`, oldest first (all of `s` when it is shorter). */
  function Newest(s: seq<real>, n: nat): seq<real>
  {
    if |s| <= n then s else s[|s| - n..]
  }

  /**
    * The queue holds min(|s|, n) values: never more than `n`, and exactly `n`
    * once at least `n` have been appended.
    */
  lemma NewestLength(s: seq<real>, n: nat)
    ensures |Newest(s, n)| == if |s| < n then |s| else n
  {
  }

  /** What the queue holds is the stream's last values, in arrival order. */
  lemma NewestIsSuffix(s: seq<real>, n: nat)
    ensures forall i :: 0 <= i < |Newest(s, n)| ==> Newest(s, n)[i] == s[|s| - |Newest(s, n)| + i]
  {
  }

  /**
    * Appending one value to the newest `n` values of a stream gives, after the
    * eviction, the newest `n` values of the extended stream: the queue's update
    * keeps it equal to the tail of everything it was ever given.
    */
  lemma NewestAppend(s: seq<real>, n: nat, x: real)
    requires n > 0
    ensures Newest(Newest(s, n) + [x], n) == Newest(s + [x], n)
  {
    if |s| >= n {
      var w := s[|s| - n..];
      assert Newest(s, n) == w;
      assert Newest(w + [x], n) == (w + [x])[1..] == w[1..] + [x];
      assert w[1..] == s[|s| + 1 - n..];
      assert Newest(s + [x], n) == (s + [x])[|s| + 1 - n..] == s[|s| + 1 - n..] + [x];
    }
  }

  /**
    * Appending to the queue: below capacity the value is added at the end; at
    * capacity the oldest value (the first) is evicted and the value added at
    * the end.
    */
  lemma AppendEvictsOldest(w: seq<real>, n: nat, x: real)
    requires 0 < n && |w| <= n
    ensures |w| < n ==> Newest(w + [x], n) == w + [x]
    ensures |w| == n ==> Newest(w + [x], n) == w[1..] + [x]
  {
  }
}
