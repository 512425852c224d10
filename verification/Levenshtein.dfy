// Edit distance: the table, the recursion it fills in, and what both measure.
module Levenshtein {
  import opened Options

  function Min3(x: nat, y: nat, z: nat): nat {
    var m := if y < x then y else x;
    if z < m then z else m
  }

  function Cost(x: char, y: char): nat {
    if x == y then 0 else 1
  }

  function Init(a: string): string
    requires a != []
  {
    a[..|a| - 1]
  }

  function Last(a: string): char
    requires a != []
  {
    a[|a| - 1]
  }

  function Distance(a: string, b: string): nat
    decreases |a| + |b|
  {
    if a == [] then |b|
    else if b == [] then |a|
    else Min3(Distance(Init(a), b) + 1, Distance(a, Init(b)) + 1, Distance(Init(a), Init(b)) + Cost(Last(a), Last(b)))
  }

  // The distance between two prefixes.
  function Between(a: string, i: int, b: string, j: int): nat
    requires 0 <= i <= |a| && 0 <= j <= |b|
  {
    Distance(a[..i], b[..j])
  }

  lemma BetweenStep(a: string, i: int, b: string, j: int)
    requires 1 <= i <= |a| && 1 <= j <= |b|
    ensures Between(a, i, b, j) ==
      Min3(Between(a, i - 1, b, j) + 1, Between(a, i, b, j - 1) + 1,
           Between(a, i - 1, b, j - 1) + Cost(a[i - 1], b[j - 1]))
  {
    assert Init(a[..i]) == a[..i - 1] && Init(b[..j]) == b[..j - 1];
  }

  lemma BetweenEdges(a: string, b: string)
    ensures forall i :: 0 <= i <= |a| ==> Between(a, i, b, 0) == i
    ensures forall j :: 0 <= j <= |b| ==> Between(a, 0, b, j) == j
    ensures Between(a, |a|, b, |b|) == Distance(a, b)
  {
    assert a[..|a|] == a && b[..|b|] == b;
  }

  // The table of the distances between all prefixes of the two words.
  method Levenshtein(a: string, b: string) returns (d: nat)
    ensures d == Distance(a, b)
  {
    if |a| == 0 {
      return |b|;
    }
    if |b| == 0 {
      return |a|;
    }
    var dp := new nat[|a| + 1, |b| + 1];
    BetweenEdges(a, b);
    for i := 0 to |a| + 1
      invariant forall k :: 0 <= k < i ==> dp[k, 0] == Between(a, k, b, 0)
    {
      dp[i, 0] := i;
    }
    for j := 0 to |b| + 1
      invariant forall k :: 0 <= k <= |a| ==> dp[k, 0] == Between(a, k, b, 0)
      invariant forall l :: 0 <= l < j ==> dp[0, l] == Between(a, 0, b, l)
    {
      dp[0, j] := j;
    }
    for i := 1 to |a| + 1
      invariant forall k :: 0 <= k <= |a| ==> dp[k, 0] == Between(a, k, b, 0)
      invariant forall k, l :: 0 <= k < i && 0 <= l <= |b| ==> dp[k, l] == Between(a, k, b, l)
    {
      for j := 1 to |b| + 1
        invariant forall k :: 0 <= k <= |a| ==> dp[k, 0] == Between(a, k, b, 0)
        invariant forall k, l :: 0 <= k < i && 0 <= l <= |b| ==> dp[k, l] == Between(a, k, b, l)
        invariant forall l :: 0 <= l < j ==> dp[i, l] == Between(a, i, b, l)
      {
        var cost := 1;
        if a[i - 1] == b[j - 1] {
          cost := 0;
        }
        BetweenStep(a, i, b, j);
        dp[i, j] := Min3(dp[i - 1, j] + 1, dp[i, j - 1] + 1, dp[i - 1, j - 1] + cost);
      }
    }
    return dp[|a|, |b|];
  }

  // A metric --------------------------------------------------------------------------

  lemma {:induction false} Symmetric(a: string, b: string)
    ensures Distance(a, b) == Distance(b, a)
    decreases |a| + |b|
  {
    if a != [] && b != [] {
      Symmetric(Init(a), b);
      Symmetric(a, Init(b));
      Symmetric(Init(a), Init(b));
    }
  }

  lemma {:induction false} ZeroIffEqual(a: string, b: string)
    ensures Distance(a, b) == 0 <==> a == b
    decreases |a| + |b|
  {
    if a != [] && b != [] {
      ZeroIffEqual(Init(a), Init(b));
      assert a == Init(a) + [Last(a)] && b == Init(b) + [Last(b)];
    }
  }

  lemma {:induction false} LengthBounds(a: string, b: string)
    ensures |a| - |b| <= Distance(a, b) && |b| - |a| <= Distance(a, b) <= |a| + |b|
    decreases |a| + |b|
  {
    if a != [] && b != [] {
      LengthBounds(Init(a), b);
      LengthBounds(a, Init(b));
      LengthBounds(Init(a), Init(b));
    }
  }

  // The three ways to a distance, each an upper bound and one of them exact.
  lemma ThreeWays(a: string, b: string)
    requires a != [] && b != []
    ensures var (x, y, z) := (Distance(Init(a), b) + 1, Distance(a, Init(b)) + 1,
                              Distance(Init(a), Init(b)) + Cost(Last(a), Last(b)));
      Distance(a, b) <= x && Distance(a, b) <= y && Distance(a, b) <= z &&
      (Distance(a, b) == x || Distance(a, b) == y || Distance(a, b) == z)
  {
  }

  lemma {:induction false} Triangle(a: string, b: string, c: string)
    ensures Distance(a, c) <= Distance(a, b) + Distance(b, c)
    decreases |a| + |b| + |c|
  {
    if a == [] || b == [] || c == [] {
      LengthBounds(a, b);
      LengthBounds(b, c);
      LengthBounds(a, c);
    } else {
      ThreeWays(a, b);
      ThreeWays(b, c);
      ThreeWays(a, c);
      if Distance(a, b) == Distance(Init(a), b) + 1 {
        Triangle(Init(a), b, c);
      } else if Distance(b, c) == Distance(b, Init(c)) + 1 {
        Triangle(a, b, Init(c));
      } else if Distance(a, b) == Distance(a, Init(b)) + 1 {
        if Distance(b, c) == Distance(Init(b), c) + 1 {
          Triangle(a, Init(b), c);
        } else {
          Triangle(a, Init(b), Init(c));
        }
      } else if Distance(b, c) == Distance(Init(b), c) + 1 {
        Triangle(Init(a), Init(b), c);
      } else {
        Triangle(Init(a), Init(b), Init(c));
      }
    }
  }

  // Edit scripts ------------------------------------------------------------------------

  datatype Edit = Insert(at: nat, c: char) | Delete(at: nat) | Replace(at: nat, c: char)

  function Edited(w: string, e: Edit): Option<string> {
    match e
    case Insert(i, c) => if i <= |w| then Some(w[..i] + [c] + w[i..]) else None
    case Delete(i) => if i < |w| then Some(w[..i] + w[i + 1..]) else None
    case Replace(i, c) => if i < |w| then Some(w[..i] + [c] + w[i + 1..]) else None
  }

  // The word a script makes of another, edit by edit.
  function Play(w: string, script: seq<Edit>): Option<string> {
    if script == [] then Some(w)
    else
      var r := Play(w, script[..|script| - 1]);
      if r.None? then None else Edited(r.value, script[|script| - 1])
  }

  // A common ending adds nothing to the distance.
  lemma {:induction false} CommonEnding(p: string, q: string, s: string)
    ensures Distance(p + s, q + s) <= Distance(p, q)
  {
    if s == [] {
      assert p + s == p && q + s == q;
    } else {
      assert Init(p + s) == p + Init(s) && Init(q + s) == q + Init(s);
      CommonEnding(p, q, Init(s));
    }
  }

  lemma OneMore(p: string, c: char)
    ensures Distance(p, p + [c]) <= 1 && Distance(p + [c], p) <= 1
  {
    ZeroIffEqual(p, p);
    assert Init(p + [c]) == p;
    Symmetric(p, p + [c]);
  }

  lemma OneOther(p: string, c: char, d: char)
    ensures Distance(p + [c], p + [d]) <= 1
  {
    ZeroIffEqual(p, p);
    assert Init(p + [c]) == p && Init(p + [d]) == p;
  }

  lemma OneEdit(w: string, e: Edit)
    requires Edited(w, e).Some?
    ensures Distance(w, Edited(w, e).value) <= 1
  {
    match e {
      case Insert(i, c) => OneInsert(w[..i], c, w[i..]);
        assert w == w[..i] + w[i..];
      case Delete(i) => OneInsert(w[..i], w[i], w[i + 1..]);
        assert w == w[..i] + [w[i]] + w[i + 1..];
      case Replace(i, c) =>
        OneReplace(w[..i], w[i], c, w[i + 1..]);
        assert w == w[..i] + [w[i]] + w[i + 1..];
    }
  }

  lemma OneReplace(p: string, c: char, d: char, s: string)
    ensures Distance(p + [c] + s, p + [d] + s) <= 1
  {
    OneOther(p, c, d);
    CommonEnding(p + [c], p + [d], s);
  }

  lemma OneInsert(p: string, c: char, s: string)
    ensures Distance(p + s, p + [c] + s) <= 1 && Distance(p + [c] + s, p + s) <= 1
  {
    OneMore(p, c);
    CommonEnding(p, p + [c], s);
    CommonEnding(p + [c], p, s);
  }

  // No script from a to b is shorter than the distance.
  lemma {:induction false} NoneShorter(a: string, script: seq<Edit>)
    requires Play(a, script).Some?
    ensures Distance(a, Play(a, script).value) <= |script|
  {
    if script == [] {
      ZeroIffEqual(a, a);
    } else {
      var init := script[..|script| - 1];
      var w := Play(a, init).value;
      NoneShorter(a, init);
      OneEdit(w, script[|script| - 1]);
      Triangle(a, w, Play(a, script).value);
    }
  }

  lemma {:induction false} PlayAppend(w: string, s: seq<Edit>, t: seq<Edit>)
    requires Play(w, s).Some?
    ensures Play(w, s + t) == Play(Play(w, s).value, t)
  {
    if t == [] {
      assert s + t == s;
    } else {
      assert (s + t)[..|s + t| - 1] == s + t[..|t| - 1];
      PlayAppend(w, s, t[..|t| - 1]);
    }
  }

  lemma PlayOne(w: string, e: Edit)
    ensures Play(w, [e]) == Edited(w, e)
  {
    assert [e][..0] == [];
  }

  // A script works as well on a word with one more letter at the end.
  lemma {:induction false} PlayBefore(w: string, script: seq<Edit>, c: char)
    requires Play(w, script).Some?
    ensures Play(w + [c], script) == Some(Play(w, script).value + [c])
  {
    if script != [] {
      var init, e := script[..|script| - 1], script[|script| - 1];
      PlayBefore(w, init, c);
      EditBefore(Play(w, init).value, e, c);
    }
  }

  lemma EditBefore(v: string, e: Edit, c: char)
    requires Edited(v, e).Some?
    ensures Edited(v + [c], e) == Some(Edited(v, e).value + [c])
  {
    var i := e.at;
    assert (v + [c])[..i] == v[..i];
    match e {
      case Insert(_, d) =>
        assert (v + [c])[i..] == v[i..] + [c];
        assert v[..i] + [d] + (v[i..] + [c]) == (v[..i] + [d] + v[i..]) + [c];
      case Delete(_) =>
        assert (v + [c])[i + 1..] == v[i + 1..] + [c];
        assert v[..i] + (v[i + 1..] + [c]) == (v[..i] + v[i + 1..]) + [c];
      case Replace(_, d) =>
        assert (v + [c])[i + 1..] == v[i + 1..] + [c];
        assert v[..i] + [d] + (v[i + 1..] + [c]) == (v[..i] + [d] + v[i + 1..]) + [c];
    }
  }

  // A script of the length of the distance.
  lemma {:induction false} Shortest(a: string, b: string) returns (script: seq<Edit>)
    ensures Play(a, script) == Some(b) && |script| == Distance(a, b)
    decreases |a| + |b|
  {
    if a == [] && b == [] {
      script := [];
    } else if b == [] || (a != [] && Distance(a, b) == Distance(Init(a), b) + 1) {
      var rest := Shortest(Init(a), b);
      script := DropLast(a, b, rest);
    } else if a == [] || Distance(a, b) == Distance(a, Init(b)) + 1 {
      var rest := Shortest(a, Init(b));
      script := AddLast(a, b, rest);
    } else {
      var rest := Shortest(Init(a), Init(b));
      script := SwapLast(a, b, rest);
    }
  }

  lemma DropLast(a: string, b: string, rest: seq<Edit>) returns (script: seq<Edit>)
    requires a != [] && Play(Init(a), rest) == Some(b)
    ensures Play(a, script) == Some(b) && |script| == |rest| + 1
  {
    var e := Delete(|a| - 1);
    script := [e] + rest;
    PlayOne(a, e);
    assert a[..|a| - 1] + a[|a|..] == Init(a);
    PlayAppend(a, [e], rest);
  }

  lemma AddLast(a: string, b: string, rest: seq<Edit>) returns (script: seq<Edit>)
    requires b != [] && Play(a, rest) == Some(Init(b))
    ensures Play(a, script) == Some(b) && |script| == |rest| + 1
  {
    var e := Insert(|b| - 1, Last(b));
    script := rest + [e];
    PlayOne(Init(b), e);
    assert Init(b)[..|b| - 1] + [Last(b)] + Init(b)[|b| - 1..] == b;
    PlayAppend(a, rest, [e]);
  }

  lemma SwapLast(a: string, b: string, rest: seq<Edit>) returns (script: seq<Edit>)
    requires a != [] && b != [] && Play(Init(a), rest) == Some(Init(b))
    ensures Play(a, script) == Some(b) && |script| == |rest| + Cost(Last(a), Last(b))
  {
    assert a == Init(a) + [Last(a)] && b == Init(b) + [Last(b)];
    PlayBefore(Init(a), rest, Last(a));
    if Last(a) == Last(b) {
      script := rest;
    } else {
      var e := Replace(|b| - 1, Last(b));
      var w := Init(b) + [Last(a)];
      script := rest + [e];
      PlayOne(w, e);
      assert w[..|b| - 1] + [Last(b)] + w[|b|..] == b;
      PlayAppend(a, rest, [e]);
    }
  }

  // The distance is the least number of edits that turn one word into the other.
  lemma LeastEdits(a: string, b: string, n: nat)
    ensures n == Distance(a, b) <==>
      (exists s :: |s| == n && Play(a, s) == Some(b)) && forall s :: Play(a, s) == Some(b) ==> |s| >= n
  {
    var script := Shortest(a, b);
    forall s | Play(a, s) == Some(b) ensures |s| >= Distance(a, b) {
      NoneShorter(a, s);
    }
  }
}
