/** Reversal of a sequence, the `list.reverse()` of the label unmangler and the
    coordinate reversal of the line processor. */
module Seqs {
  function Reverse<T>(s: seq<T>): (r: seq<T>)
    ensures |r| == |s|
    ensures forall i :: 0 <= i < |s| ==> r[i] == s[|s| - 1 - i]
  {
    if |s| == 0 then [] else Reverse(s[1..]) + [s[0]]
  }

  /** Reversing twice gives the sequence back. */
  lemma ReverseReverse<T>(s: seq<T>)
    ensures Reverse(Reverse(s)) == s
  {
    assert forall i :: 0 <= i < |s| ==> Reverse(Reverse(s))[i] == s[i];
  }

  /** Dropping the first `d` elements of a reversal is reversing all but the
      last `d` elements. */
  lemma {:induction false} ReverseDrop<T>(s: seq<T>, d: nat)
    requires d <= |s|
    ensures Reverse(s)[d..] == Reverse(s[..|s| - d])
  {
    var a, b := Reverse(s)[d..], Reverse(s[..|s| - d]);
    forall i | 0 <= i < |s| - d
      ensures a[i] == b[i]
    {
      assert a[i] == Reverse(s)[d + i] == s[|s| - 1 - d - i];
      assert b[i] == s[..|s| - d][|s| - d - 1 - i];
    }
  }
}
