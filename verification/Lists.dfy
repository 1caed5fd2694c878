/** Sequences that stand for linked lists. */
module Lists {
  /** The sequence without the element at `at`. */
  function Cut<T>(s: seq<T>, at: nat): (r: seq<T>)
    requires at < |s|
    ensures |r| == |s| - 1
    ensures forall i | 0 <= i < |r| :: r[i] == s[if i < at then i else i + 1]
  {
    s[..at] + s[at + 1..]
  }
}
