// Putting items into sequences and taking them out.
module Sequences {
  function Inserted<T>(s: seq<T>, i: int, x: T): (r: seq<T>)
    requires 0 <= i <= |s|
    ensures |r| == |s| + 1 && r[i] == x
    ensures forall j :: 0 <= j < i ==> r[j] == s[j]
    ensures forall j :: i <= j < |s| ==> r[j + 1] == s[j]
  {
    s[..i] + [x] + s[i..]
  }

  function Without<T>(s: seq<T>, i: int): (r: seq<T>)
    requires 0 <= i < |s|
    ensures |r| == |s| - 1 && forall k :: 0 <= k < |r| ==> r[k] == if k < i then s[k] else s[k + 1]
  {
    s[..i] + s[i + 1..]
  }

  lemma WithoutMembers<T>(s: seq<T>, i: int)
    requires 0 <= i < |s| && forall j, k :: 0 <= j < k < |s| ==> s[j] != s[k]
    ensures forall x :: x in Without(s, i) <==> x in s && x != s[i]
    ensures forall j, k :: 0 <= j < k < |s| - 1 ==> Without(s, i)[j] != Without(s, i)[k]
  {
    var r := Without(s, i);
    forall x | x in s && x != s[i] ensures x in r {
      var k :| 0 <= k < |s| && s[k] == x;
      assert r[if k < i then k else k - 1] == x;
    }
  }

  // Without the last occurrence of an item.
  function RemoveLast<T(==)>(s: seq<T>, x: T): seq<T> {
    if s == [] then []
    else if s[|s| - 1] == x then s[..|s| - 1]
    else RemoveLast(s[..|s| - 1], x) + [s[|s| - 1]]
  }

  lemma {:induction false} RemoveLastMembers<T>(s: seq<T>, x: T)
    requires forall j, k :: 0 <= j < k < |s| ==> s[j] != s[k]
    ensures var r := RemoveLast(s, x);
      (forall j, k :: 0 <= j < k < |r| ==> r[j] != r[k]) && forall y :: y in r <==> y in s && y != x
  {
    if s != [] {
      var init, last := s[..|s| - 1], s[|s| - 1];
      assert s == init + [last];
      assert last !in init;
      RemoveLastMembers(init, x);
    }
  }

  // Searches from the end.
  method WithoutLast<T(==)>(s: seq<T>, x: T) returns (r: seq<T>)
    ensures r == RemoveLast(s, x)
  {
    var i := |s| - 1;
    assert s[..|s|] == s;
    while i >= 0
      invariant -1 <= i < |s|
      invariant RemoveLast(s, x) == RemoveLast(s[..i + 1], x) + s[i + 1..]
    {
      assert s[..i + 1][..i] == s[..i];
      if s[i] == x {
        return s[..i] + s[i + 1..];
      }
      assert [s[i]] + s[i + 1..] == s[i..];
      i := i - 1;
    }
    return s;
  }
}
