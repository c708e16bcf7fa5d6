/** The newest elements of a sequence, which is what bounded queues and rings keep. */
module Sequences {
  function LastN<T>(s: seq<T>, n: nat): (r: seq<T>)
    ensures |r| == if |s| <= n then |s| else n
  { if |s| <= n then s else s[|s| - n..] }

  /** Keeping the newest twice keeps the newest of the smaller count. */
  lemma {:induction false} LastNTwice<T>(s: seq<T>, m: nat, n: nat)
    ensures LastN(LastN(s, m), n) == LastN(s, if m <= n then m else n)
  {
  }

  /** Appending to a bounded queue: the oldest makes room when it is full. */
  lemma {:induction false} LastNPush<T>(s: seq<T>, x: T, n: nat)
    requires n >= 1
    ensures LastN(s + [x], n) == if |LastN(s, n)| < n then LastN(s, n) + [x] else LastN(s, n)[1..] + [x]
  {
  }
}
