/** Two generic facts about sequences that the proofs cite by name. */
module Seqs {

  /** A non-empty sequence is its front followed by its last element. */
  lemma LastSplit<T>(s: seq<T>)
    requires |s| > 0
    ensures s == s[..|s| - 1] + [s[|s| - 1]]
  {
  }

  /** A non-empty sequence is its first element followed by the rest. */
  lemma HeadSplit<T>(s: seq<T>)
    requires |s| > 0
    ensures s == [s[0]] + s[1..]
  {
  }

  /** A sequence of three elements is the display of them. */
  lemma ThreeElements<T>(s: seq<T>)
    requires |s| == 3
    ensures s == [s[0], s[1], s[2]]
  {
  }

  /** Past an index, a suffix continues with the next suffix. */
  lemma SuffixStep<T>(s: seq<T>, i: nat)
    requires i < |s|
    ensures s[i..][0] == s[i] && s[i..][1..] == s[i + 1..]
  {
  }

  /** The element after a prefix moves into the prefix. */
  lemma MoveHead<T>(done: seq<T>, rest: seq<T>)
    requires |rest| > 0
    ensures (done + rest)[|done|] == rest[0]
    ensures done + rest == (done + [rest[0]]) + rest[1..]
  {
  }

  /** Overwriting the element after a prefix moves the new one into it. */
  lemma UpdateAfter<T>(done: seq<T>, rest: seq<T>, x: T)
    requires |rest| > 0
    ensures (done + rest)[|done| := x] == (done + [x]) + rest[1..]
  {
  }

  /** Adding at the end of a sequence with a first element. */
  lemma AppendAssoc<T>(a: seq<T>, b: seq<T>, c: seq<T>)
    ensures (a + b) + c == a + (b + c)
  {
  }

  lemma ConsAppend<T>(x: T, s: seq<T>, y: T)
    ensures [x] + s + [y] == [x] + (s + [y])
    ensures y in [x] + s <==> y == x || y in s
  {
  }
}
