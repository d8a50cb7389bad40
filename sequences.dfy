/** Identities about slicing and concatenating sequences, each proved on its own so that
    the proofs using them need not rediscover them. */
module Sequences {

  lemma DropAppend<T>(a: seq<T>, b: seq<T>, n: nat)
    requires n <= |a|
    ensures (a + b)[n..] == a[n..] + b
  {
  }

  lemma TakeAppend<T>(a: seq<T>, b: seq<T>, n: nat)
    requires n <= |a|
    ensures (a + b)[..n] == a[..n]
  {
  }

  lemma AppendAssoc<T>(x: seq<T>, y: seq<T>, z: seq<T>)
    ensures x + (y + z) == (x + y) + z
  {
  }

  lemma AppendEmpty<T>(a: seq<T>)
    ensures a + [] == a && [] + a == a
  {
  }

  lemma TakeDrop<T>(a: seq<T>, n: nat)
    requires n <= |a|
    ensures a[..n] + a[n..] == a
  {
  }

  /** A longer prefix is a shorter prefix followed by the front of what remains. */
  lemma TakeSplit<T>(a: seq<T>, n: nat, k: nat)
    requires n + k <= |a|
    ensures a[..n + k] == a[..n] + a[n..][..k]
    ensures a[n..][..k] == a[n..n + k]
  {
  }

  lemma DropSplit<T>(a: seq<T>, n: nat, m: nat)
    requires n <= m <= |a|
    ensures a[n..] == a[n..m] + a[m..]
  {
  }

  lemma LastDrop<T>(a: seq<T>)
    requires a != []
    ensures a[|a| - 1..] == [a[|a| - 1]]
  {
  }

  lemma TailOfTake<T>(a: seq<T>, n: nat)
    requires 1 <= n <= |a|
    ensures a[..n][1..] == a[1..n]
    ensures a[..n] == [a[0]] + a[1..n]
  {
  }

  lemma HeadTail<T>(a: seq<T>)
    requires a != []
    ensures a == [a[0]] + a[1..]
  {
  }

  lemma ConsTail<T>(x: T, a: seq<T>)
    ensures ([x] + a)[0] == x && ([x] + a)[1..] == a
  {
  }

  lemma DropPrefix<T>(a: seq<T>, b: seq<T>)
    ensures (a + b)[|a|..] == b && (a + b)[..|a|] == a
  {
  }

  lemma DropDrop<T>(a: seq<T>, n: nat, m: nat)
    requires n + m <= |a|
    ensures a[n..][m..] == a[n + m..]
  {
  }
}
