/**
 * Swap an array element with the element after it. An index for which
 * there is no following element leaves the array as it is.
 */
module SwapExtension {

  /** Whether index i has an element after it in a sequence of length n. */
  predicate InRange(i: int, n: int)
  {
    0 <= i <= n - 2
  }

  /** The sequence with elements i and i + 1 exchanged, when both exist. */
  function Swapped<T>(s: seq<T>, i: int): (r: seq<T>)
    ensures |r| == |s|
    ensures multiset(r) == multiset(s)
    ensures InRange(i, |s|) ==> r[i] == s[i + 1] && r[i + 1] == s[i]
    ensures forall k :: 0 <= k < |s| && (!InRange(i, |s|) || (k != i && k != i + 1)) ==> r[k] == s[k]
  {
    if InRange(i, |s|) then
      var r := s[i := s[i + 1]][i + 1 := s[i]];
      assert s == s[..i] + [s[i], s[i + 1]] + s[i + 2..];
      assert r == s[..i] + [s[i + 1], s[i]] + s[i + 2..];
      r
    else
      s
  }

  /** Swapping twice at the same index gives back the original sequence. */
  lemma SwappedInvolution<T>(s: seq<T>, i: int)
    ensures Swapped(Swapped(s, i), i) == s
  {
    var t := Swapped(Swapped(s, i), i);
    assert forall k :: 0 <= k < |s| ==> t[k] == s[k];
  }

  /** Out-of-range indices, and every sequence shorter than two, are left alone. */
  lemma SwappedOutOfRange<T>(s: seq<T>, i: int)
    requires i < 0 || i > |s| - 2
    ensures Swapped(s, i) == s
  {
    var t := Swapped(s, i);
    assert forall k :: 0 <= k < |s| ==> t[k] == s[k];
  }

  /** With the default index 0 the first two elements change places. */
  lemma SwappedDefault<T>(s: seq<T>)
    requires |s| >= 2
    ensures Swapped(s, 0) == [s[1], s[0]] + s[2..]
  {
    var t, u := Swapped(s, 0), [s[1], s[0]] + s[2..];
    assert forall k :: 0 <= k < |s| ==> t[k] == u[k];
  }

  /** The extension method `Swap`: exchanges v[i] and v[i + 1] in place. */
  method Swap<T>(v: array<T>, i: int := 0)
    modifies v
    ensures v[..] == Swapped(old(v[..]), i)
    ensures InRange(i, v.Length) ==> v[i] == old(v[i + 1]) && v[i + 1] == old(v[i])
    ensures forall k :: 0 <= k < v.Length && k != i && k != i + 1 ==> v[k] == old(v[k])
    ensures !InRange(i, v.Length) ==> v[..] == old(v[..])
    ensures multiset(v[..]) == multiset(old(v[..]))
  {
    if i >= 0 && i <= v.Length - 2 {
      var temp := v[i];
      v[i] := v[i + 1];
      v[i + 1] := temp;
    }
  }
}
