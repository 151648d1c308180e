/** The linear "first match" scan of `Array.prototype.find`, returning the index found. */
module ArraySearch {
  import opened Wrappers

  /** The index of the first element of `s`, in order, that satisfies `p`; `None` when none does. */
  function FindIndex<T>(s: seq<T>, p: T -> bool): (r: Option<nat>)
    ensures r.None? <==> forall i :: 0 <= i < |s| ==> !p(s[i])
    ensures r.Some? ==> r.value < |s| && p(s[r.value]) && forall i :: 0 <= i < r.value ==> !p(s[i])
  {
    if s == [] then None
    else if p(s[0]) then Some(0)
    else match FindIndex(s[1..], p)
      case None => None
      case Some(j) => Some(j + 1)
  }

  /** Each element of `s`, mapped to the last position that holds it. */
  function LastPlaces<T(==)>(s: seq<T>): (m: map<T, nat>)
    ensures m.Keys == set x | x in s
    ensures forall x | x in m :: m[x] < |s|
  {
    if s == [] then map[] else LastPlaces(s[..|s| - 1])[s[|s| - 1] := |s| - 1]
  }

  /** `LastPlaces` maps each element to a position that holds it, after which it does not occur again. */
  lemma {:induction false} LastPlacesAreLast<T>(s: seq<T>, x: T)
    requires x in s
    ensures LastPlaces(s)[x] < |s| && s[LastPlaces(s)[x]] == x
    ensures forall j :: LastPlaces(s)[x] < j < |s| ==> s[j] != x
  {
    if s[|s| - 1] != x {
      var t := s[..|s| - 1];
      assert x in t by {
        var k :| 0 <= k < |s| && s[k] == x;
        assert t[k] == x;
      }
      LastPlacesAreLast(t, x);
    }
  }

  /** The scan's answer is determined by its contract: position `k` is found when it is the first match. */
  lemma {:induction false} FindIndexIsFirst<T>(s: seq<T>, p: T -> bool, k: nat)
    requires k < |s| && p(s[k])
    requires forall i :: 0 <= i < k ==> !p(s[i])
    ensures FindIndex(s, p) == Some(k)
  {
    var r := FindIndex(s, p);
    assert r.Some?;
    assert !(r.value < k);
  }

  /** Appending an element never changes an existing first match, and the new element is found only when nothing before it matches. */
  lemma {:induction false} FindIndexAppend<T>(s: seq<T>, x: T, p: T -> bool)
    ensures FindIndex(s + [x], p) == if FindIndex(s, p).Some? then FindIndex(s, p)
                                     else if p(x) then Some(|s|) else None
  {
    var t := s + [x];
    assert forall i :: 0 <= i < |s| ==> t[i] == s[i];
    assert t[|s|] == x;
    match FindIndex(s, p)
    case Some(k) =>
      FindIndexIsFirst(t, p, k);
    case None =>
      if p(x) {
        FindIndexIsFirst(t, p, |s|);
      }
  }

  /** The scan depends only on which positions match. */
  lemma {:induction false} FindIndexSameMatches<T>(s: seq<T>, t: seq<T>, p: T -> bool, q: T -> bool)
    requires |s| == |t|
    requires forall i :: 0 <= i < |s| ==> p(s[i]) == q(t[i])
    ensures FindIndex(s, p) == FindIndex(t, q)
  {
    if FindIndex(s, p).Some? {
      FindIndexIsFirst(t, q, FindIndex(s, p).value);
    }
  }

  /** Overwriting the first match with another matching element leaves the first match where it was. */
  lemma {:induction false} FindIndexOverwrite<T>(s: seq<T>, i: nat, x: T, p: T -> bool)
    requires FindIndex(s, p) == Some(i)
    requires p(x)
    ensures FindIndex(s[i := x], p) == Some(i)
  {
    var t := s[i := x];
    assert forall k :: 0 <= k < i ==> t[k] == s[k];
    FindIndexIsFirst(t, p, i);
  }
}
