/**
 Generic facts about sequence concatenation, stated once over any element
 type so that their uses on sequences of strings stay cheap.
 */
module Seqs {

  lemma Assoc<T>(x: seq<T>, y: seq<T>, z: seq<T>)
    ensures x + (y + z) == (x + y) + z
  {
  }

  /** A non-empty sequence is its head followed by its tail. */
  lemma HeadTail<T>(s: seq<T>)
    requires |s| > 0
    ensures s == [s[0]] + s[1..]
  {
  }

  /** Head and tail of a concatenation with a non-empty front. */
  lemma ConcatHeadTail<T>(a: seq<T>, b: seq<T>)
    requires |a| > 0
    ensures (a + b)[0] == a[0] && (a + b)[1..] == a[1..] + b
  {
  }

  lemma AppendEmpty<T>(s: seq<T>)
    ensures [] + s == s && s + [] == s
  {
  }

  /** A sequence is its prefix, a middle slice and the rest. */
  lemma Slices<T>(s: seq<T>, k: int, n: int)
    requires 0 <= k <= k + n <= |s|
    ensures s == s[..k] + (s[k..k + n] + s[k + n..])
  {
  }
}
