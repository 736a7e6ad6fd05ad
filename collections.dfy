/** Small collection helpers shared by the game modules: an optional value and
    the first-occurrence removal that C#'s List.Remove performs. */
module Collections {

  datatype Option<T> = None | Some(value: T)

  predicate NoDuplicates<T(==)>(s: seq<T>)
  {
    forall i, j :: 0 <= i < j < |s| ==> s[i] != s[j]
  }

  /** Position of the first element equal to x. */
  function FirstIndex<T(==)>(s: seq<T>, x: T): (k: nat)
    requires x in s
    ensures k < |s| && s[k] == x && x !in s[..k]
  {
    if s[0] == x then 0
    else
      assert x in s[1..];
      var k := FirstIndex(s[1..], x);
      assert s[..k + 1] == [s[0]] + s[1..][..k];
      k + 1
  }

  /** List.Remove: drops the first element equal to x; the list is unchanged when x is absent. */
  function RemoveFirst<T(==)>(s: seq<T>, x: T): (r: seq<T>)
    ensures x !in s ==> r == s
    ensures x in s ==> |r| == |s| - 1
  {
    if x in s then s[..FirstIndex(s, x)] + s[FirstIndex(s, x) + 1..] else s
  }

  /** Element i of the shortened list is element i of the original before the removed
      position and element i + 1 from there on. */
  lemma RemoveFirstAt<T>(s: seq<T>, x: T, i: nat)
    requires x in s && i < |s| - 1
    ensures RemoveFirst(s, x)[i] == if i < FirstIndex(s, x) then s[i] else s[i + 1]
  {
  }

  /** Removing an element keeps a duplicate-free list duplicate-free, takes exactly
      that element out and keeps every other one. */
  lemma RemoveFirstNoDuplicates<T>(s: seq<T>, x: T)
    requires NoDuplicates(s)
    ensures NoDuplicates(RemoveFirst(s, x))
    ensures forall y :: y in RemoveFirst(s, x) <==> y in s && y != x
  {
    if x in s {
      var k := FirstIndex(s, x);
      var r := RemoveFirst(s, x);
      forall i, j | 0 <= i < j < |r|
        ensures r[i] != r[j]
      {
        RemoveFirstAt(s, x, i);
        RemoveFirstAt(s, x, j);
      }
      forall y | y in r
        ensures y in s && y != x
      {
        var i :| 0 <= i < |r| && r[i] == y;
        RemoveFirstAt(s, x, i);
      }
      forall y | y in s && y != x
        ensures y in r
      {
        var j :| 0 <= j < |s| && s[j] == y;
        var i := if j < k then j else j - 1;
        RemoveFirstAt(s, x, i);
        assert r[i] == y;
      }
    }
  }

  /** Appending an absent element and removing it again gives back the original list. */
  lemma RemoveFirstAppended<T>(s: seq<T>, x: T)
    requires x !in s
    ensures RemoveFirst(s + [x], x) == s
  {
    var t := s + [x];
    assert t[|s|] == x && t[..|s|] == s;
    var k := FirstIndex(t, x);
    assert k == |s|;
  }
}
