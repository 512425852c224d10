// The order of suggestions and the list of the best few.
module Suggestions {
  import opened Sequences

  datatype Suggestion = Suggestion(word: string, frequency: int)

  // Words in dictionary order.
  function LexLess(a: string, b: string): bool {
    if b == [] then false
    else if a == [] then true
    else if a[0] != b[0] then a[0] < b[0]
    else LexLess(a[1..], b[1..])
  }

  // The more frequent first, ties in dictionary order.
  predicate Better(l: Suggestion, r: Suggestion) {
    if l.frequency == r.frequency then LexLess(l.word, r.word) else l.frequency > r.frequency
  }

  // a stands before b in a dictionary: the first letter that differs decides, and a word
  // comes before those it begins.
  ghost predicate Earlier(a: string, b: string) {
    exists i :: DiffersAt(a, b, i)
  }

  ghost predicate DiffersAt(a: string, b: string, i: int) {
    0 <= i <= |a| && i < |b| && a[..i] == b[..i] && (i < |a| ==> a[i] < b[i])
  }

  lemma {:induction false} LexIsDictionary(a: string, b: string)
    ensures LexLess(a, b) <==> Earlier(a, b)
  {
    if b != [] && a == [] {
      assert DiffersAt(a, b, 0);
    } else if b != [] && a[0] != b[0] {
      if a[0] < b[0] {
        assert DiffersAt(a, b, 0);
      }
      forall i | DiffersAt(a, b, i) ensures i == 0 {
        FirstAgrees(a, b, i);
      }
    } else if b != [] {
      LexIsDictionary(a[1..], b[1..]);
      if i :| DiffersAt(a[1..], b[1..], i) {
        assert a[..i + 1] == [a[0]] + a[1..][..i] && b[..i + 1] == [b[0]] + b[1..][..i];
        assert DiffersAt(a, b, i + 1);
      }
      if i :| DiffersAt(a, b, i) {
        assert a[1..][..i - 1] == a[..i][1..] && b[1..][..i - 1] == b[..i][1..];
        assert DiffersAt(a[1..], b[1..], i - 1);
      }
    }
  }

  lemma FirstAgrees(a: string, b: string, i: int)
    requires DiffersAt(a, b, i)
    ensures i > 0 ==> a[0] == b[0]
  {
    if i > 0 {
      assert a[..i][0] == b[..i][0];
    }
  }

  // A better suggestion is more frequent, or as frequent and earlier in the dictionary.
  lemma BetterMeans(l: Suggestion, r: Suggestion)
    ensures Better(l, r) <==>
      l.frequency > r.frequency || (l.frequency == r.frequency && Earlier(l.word, r.word))
  {
    LexIsDictionary(l.word, r.word);
  }

  lemma {:induction false} LexTotal(a: string, b: string)
    ensures a == b || LexLess(a, b) || LexLess(b, a)
    ensures !(LexLess(a, b) && LexLess(b, a)) && !LexLess(a, a)
  {
    if a != [] && b != [] {
      LexTotal(a[1..], b[1..]);
      assert a == [a[0]] + a[1..] && b == [b[0]] + b[1..];
    }
    if a != [] {
      LexTotal(a[1..], a[1..]);
    }
  }

  lemma {:induction false} LexTransitive(a: string, b: string, c: string)
    requires LexLess(a, b) && LexLess(b, c)
    ensures LexLess(a, c)
  {
    if a != [] && a[0] == b[0] == c[0] {
      LexTransitive(a[1..], b[1..], c[1..]);
    }
  }

  lemma BetterOrders(a: Suggestion, b: Suggestion, c: Suggestion)
    ensures a == b || Better(a, b) || Better(b, a)
    ensures !(Better(a, b) && Better(b, a)) && !Better(a, a)
    ensures Better(a, b) && Better(b, c) ==> Better(a, c)
  {
    LexTotal(a.word, b.word);
    LexTotal(a.word, a.word);
    if LexLess(a.word, b.word) && LexLess(b.word, c.word) {
      LexTransitive(a.word, b.word, c.word);
    }
  }

  ghost predicate Ranked(list: seq<Suggestion>) {
    forall i, j :: 0 <= i < j < |list| ==> Better(list[i], list[j])
  }

  // The list holds the first `limit` of the suggestions seen, in order.
  ghost predicate IsTop(list: seq<Suggestion>, seen: set<Suggestion>, limit: int) {
    && |list| <= limit && Ranked(list)
    && (forall i :: 0 <= i < |list| ==> list[i] in seen)
    && (forall s :: s in seen && s !in list ==> |list| == limit)
    && (forall s, i :: s in seen && s !in list && 0 <= i < |list| ==> Better(list[i], s))
  }

  // The first place where the candidate is better.
  method InsertTopSuggestion(list: seq<Suggestion>, candidate: Suggestion, limit: int, ghost seen: set<Suggestion>)
    returns (r: seq<Suggestion>)
    requires limit > 0 && IsTop(list, seen, limit) && candidate !in seen
    ensures IsTop(r, seen + {candidate}, limit)
  {
    var at := |list|;
    for i := 0 to |list|
      invariant at == |list| && forall j :: 0 <= j < i ==> !Better(candidate, list[j])
    {
      if Better(candidate, list[i]) {
        at := i;
        break;
      }
    }
    PlaceFound(list, candidate, at);
    if at == |list| {
      if |list| < limit {
        InsertedTop(list, candidate, limit, seen, at);
        assert list + [candidate] == Inserted(list, at, candidate);
        return list + [candidate];
      }
      return list;
    }
    r := list[..at] + [candidate] + list[at..];
    assert r == Inserted(list, at, candidate);
    if |r| > limit {
      InsertedFull(list, candidate, limit, seen, at);
      TrimmedTop(r, seen + {candidate}, limit);
      r := r[..limit];
    } else {
      InsertedTop(list, candidate, limit, seen, at);
    }
  }

  // Everything before the place is better than the candidate, and everything from it on
  // is not.
  lemma PlaceFound(list: seq<Suggestion>, candidate: Suggestion, at: int)
    requires Ranked(list) && candidate !in list && 0 <= at <= |list|
    requires forall j :: 0 <= j < at ==> !Better(candidate, list[j])
    requires at < |list| ==> Better(candidate, list[at])
    ensures Place(list, candidate, at)
  {
    forall j | 0 <= j < at ensures Better(list[j], candidate) {
      BetterOrders(candidate, list[j], candidate);
    }
    forall j | at <= j < |list| ensures Better(candidate, list[j]) {
      if j > at {
        BetterOrders(candidate, list[at], list[j]);
      }
    }
  }

  ghost predicate Place(list: seq<Suggestion>, candidate: Suggestion, at: int) {
    && 0 <= at <= |list|
    && (forall j :: 0 <= j < at ==> Better(list[j], candidate))
    && (forall j :: at <= j < |list| ==> Better(candidate, list[j]))
  }

  lemma InsertedMembers(list: seq<Suggestion>, candidate: Suggestion, at: int)
    requires 0 <= at <= |list|
    ensures forall s :: s in Inserted(list, at, candidate) <==> s in list || s == candidate
  {
    var r := Inserted(list, at, candidate);
    assert r[at] == candidate;
    forall k | 0 <= k < |list| ensures list[k] in r {
      assert r[if k < at then k else k + 1] == list[k];
    }
  }

  // With room for one more, the candidate goes in at its place.
  lemma InsertedTop(list: seq<Suggestion>, candidate: Suggestion, limit: int, seen: set<Suggestion>, at: int)
    requires IsTop(list, seen, limit) && |list| < limit && Place(list, candidate, at)
    ensures IsTop(Inserted(list, at, candidate), seen + {candidate}, limit)
  {
    InsertedMembers(list, candidate, at);
  }

  // In a full list it pushes the others back.
  lemma InsertedFull(list: seq<Suggestion>, candidate: Suggestion, limit: int, seen: set<Suggestion>, at: int)
    requires IsTop(list, seen, limit) && |list| == limit && Place(list, candidate, at) && at < |list|
    ensures Ranked(Inserted(list, at, candidate)) && Covers(Inserted(list, at, candidate), seen + {candidate}, limit)
  {
    var r := Inserted(list, at, candidate);
    InsertedMembers(list, candidate, at);
    forall s, i | s in seen + {candidate} && s !in r && 0 <= i < |r| ensures Better(r[i], s) {
      if i == at {
        BetterOrders(candidate, list[at], s);
      }
    }
  }

  // As IsTop, but perhaps one too long.
  ghost predicate Covers(list: seq<Suggestion>, seen: set<Suggestion>, limit: int) {
    && |list| == limit + 1
    && (forall i :: 0 <= i < |list| ==> list[i] in seen)
    && (forall s, i :: s in seen && s !in list && 0 <= i < |list| ==> Better(list[i], s))
  }

  lemma TrimmedTop(list: seq<Suggestion>, seen: set<Suggestion>, limit: int)
    requires limit > 0 && Ranked(list) && Covers(list, seen, limit)
    ensures IsTop(list[..limit], seen, limit)
  {
    var r := list[..limit];
    forall k | 0 <= k < limit ensures list[k] in r {
      assert r[k] == list[k];
    }
    forall s, i | s in seen && s !in r && 0 <= i < |r| ensures Better(r[i], s) {
      if k :| 0 <= k < |list| && list[k] == s {
        assert k >= limit;
      }
    }
  }

  // There is only one such list.
  lemma TopUnique(l: seq<Suggestion>, r: seq<Suggestion>, seen: set<Suggestion>, limit: int)
    requires IsTop(l, seen, limit) && IsTop(r, seen, limit)
    ensures l == r
  {
    SamePrefix(l, r, seen, limit, if |l| <= |r| then |l| else |r|);
    if |l| <= |r| {
      SameLength(l, r, seen, limit);
    } else {
      SameLength(r, l, seen, limit);
    }
  }

  lemma SameLength(l: seq<Suggestion>, r: seq<Suggestion>, seen: set<Suggestion>, limit: int)
    requires IsTop(l, seen, limit) && IsTop(r, seen, limit) && |l| <= |r| && r[..|l|] == l
    ensures |l| == |r|
  {
    if |l| < |r| {
      NotAgain(r, |l|);
    }
  }

  // What stands at place m of a ranked list does not stand earlier.
  lemma NotAgain(r: seq<Suggestion>, m: nat)
    requires Ranked(r) && m < |r|
    ensures r[m] !in r[..m]
  {
    BetterOrders(r[m], r[m], r[m]);
  }

  lemma {:induction false} SamePrefix(l: seq<Suggestion>, r: seq<Suggestion>, seen: set<Suggestion>, limit: int, n: nat)
    requires IsTop(l, seen, limit) && IsTop(r, seen, limit) && n <= |l| && n <= |r|
    ensures l[..n] == r[..n]
  {
    if n > 0 {
      SamePrefix(l, r, seen, limit, n - 1);
      var x, y := l[n - 1], r[n - 1];
      BetterOrders(x, y, x);
      if Better(x, y) {
        NotEarlier(l, r, seen, limit, n - 1);
      } else if Better(y, x) {
        NotEarlier(r, l, seen, limit, n - 1);
      }
      assert l[..n] == l[..n - 1] + [x] && r[..n] == r[..n - 1] + [y];
    }
  }

  lemma NotEarlier(l: seq<Suggestion>, r: seq<Suggestion>, seen: set<Suggestion>, limit: int, i: nat)
    requires IsTop(l, seen, limit) && IsTop(r, seen, limit) && i < |l| && i < |r| && l[..i] == r[..i]
    ensures !Better(l[i], r[i])
  {
    var x, y := l[i], r[i];
    BetterOrders(x, y, x);
    forall k | 0 <= k < i ensures r[k] != x {
      assert r[k] == r[..i][k] && l[k] == l[..i][k];
      BetterOrders(x, x, x);
    }
    if k :| 0 <= k < |r| && r[k] == x {
      assert k >= i;
    }
  }
}
