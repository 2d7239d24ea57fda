/**
  The three LINQ queries the controller relies on, over sequences:
  `FirstOrDefault(pred)` (as the index of the first match), `SelectMany`
  and `Max(selector)`. `Max` over an empty sequence throws in .NET; here it
  yields `None` and the caller decides what that means.
 */
module Linq {

  datatype Option<+T> = None | Some(value: T)

  /** Index of the first element satisfying `p`, or `None` when no element does. */
  function FirstIndex<T>(s: seq<T>, p: T -> bool): (r: Option<nat>)
    ensures r.None? <==> forall i :: 0 <= i < |s| ==> !p(s[i])
    ensures r.Some? ==> r.value < |s| && p(s[r.value])
    ensures r.Some? ==> forall i :: 0 <= i < r.value ==> !p(s[i])
  {
    if |s| == 0 then None
    else if p(s[0]) then Some(0)
    else
      match FirstIndex(s[1..], p)
      case None => None
      case Some(i) => Some(i + 1)
  }

  /**
    The concatenation, in order, of `f(x)` for every `x` in `s`. The contract
    states membership only, both ways, which is all a `Max` over it needs.
   */
  function SelectMany<T, U>(s: seq<T>, f: T -> seq<U>): (r: seq<U>)
    ensures forall i, j :: 0 <= i < |s| && 0 <= j < |f(s[i])| ==> f(s[i])[j] in r
    ensures forall y :: y in r ==> exists i :: 0 <= i < |s| && y in f(s[i])
  {
    if |s| == 0 then []
    else
      var rest := SelectMany(s[1..], f);
      assert forall i :: 1 <= i < |s| ==> s[i] == s[1..][i - 1];
      f(s[0]) + rest
  }

  /** The largest `key(x)` over `s`, or `None` for an empty sequence. */
  function MaxOf<T>(s: seq<T>, key: T -> int): (r: Option<int>)
    ensures r.None? <==> |s| == 0
    ensures r.Some? ==> exists i :: 0 <= i < |s| && key(s[i]) == r.value
    ensures r.Some? ==> forall i :: 0 <= i < |s| ==> key(s[i]) <= r.value
  {
    if |s| == 0 then None
    else
      match MaxOf(s[1..], key)
      case None => Some(key(s[0]))
      case Some(m) =>
        assert forall i :: 1 <= i < |s| ==> s[i] == s[1..][i - 1];
        Some(if m <= key(s[0]) then key(s[0]) else m)
  }
}
