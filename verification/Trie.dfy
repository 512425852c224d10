// The spellchecker's trie: nodes reached by prefixes, pruned when a word is deleted.
module Trie {
  import opened Suggestions

  class Node {
    var children: map<char, Node>
    var isWord: bool
    var frequency: int

    constructor ()
      ensures children == map[] && !isWord && frequency == 0
    {
      children, isWord, frequency := map[], false, 0;
    }
  }

  function Child(p: string, c: char): (q: string)
    ensures |q| == |p| + 1 && q[..|p|] == p && q[|p|] == c && p <= q
  {
    p + [c]
  }

  // The words after a word is inserted with a frequency, on top of what it had.
  function Added(words: map<string, int>, word: string, frequency: int): (more: map<string, int>)
    ensures more.Keys == words.Keys + if word == "" then {} else {word}
    ensures forall w :: w in words && w != word ==> more[w] == words[w]
  {
    if word == "" then words
    else if word in words then words[word := words[word] + frequency]
    else words[word := frequency]
  }

  // Some stored word begins with p.
  ghost predicate Leads(words: map<string, int>, p: string) {
    exists w :: w in words && p <= w
  }

  // The words that begin with p, with their frequencies.
  ghost function Below(words: map<string, int>, p: string): set<Suggestion> {
    set w | w in words && p <= w :: Suggestion(w, words[w])
  }

  function FrequencyOf(words: map<string, int>, w: string): int {
    if w in words then words[w] else 0
  }

  lemma LeadsAdded(words: map<string, int>, p: string, word: string, f: int)
    requires word != "" && (Leads(words, p) || p <= word)
    ensures Leads(Added(words, word, f), p)
  {
    var more := Added(words, word, f);
    if p <= word {
      assert word in more;
    } else {
      var w :| w in words && p <= w;
      assert w in more;
    }
  }

  lemma LeadsWithout(words: map<string, int>, p: string, word: string)
    requires Leads(words, p) && !(p <= word)
    ensures Leads(words - {word}, p)
  {
    var w :| w in words && p <= w;
    assert w in words - {word};
  }

  lemma LeadsUp(words: map<string, int>, p: string, q: string)
    requires Leads(words, q) && p <= q
    ensures Leads(words, p)
  {
    var w :| w in words && q <= w;
    assert p <= w;
  }

  class Trie {
    const root: Node
    // Each node with the prefix that reaches it, the node above each, and the words.
    ghost var path: map<Node, string>
    ghost var up: map<Node, Node>
    ghost var words: map<string, int>

    // A node's children are reached by one letter more.
    ghost predicate Downward()
      reads this`path, path.Keys`children
    {
      forall n, c :: n in path && c in n.children ==>
        n.children[c] in path && path[n.children[c]] == Child(path[n], c)
    }

    // Every node but the root is a child of the node above it.
    ghost predicate Upward()
      reads this`path, this`up, path.Keys`children
    {
      && root in path && path[root] == ""
      && forall n {:trigger Hangs(n)} :: n in path && n != root ==> Hangs(n)
    }

    ghost predicate Hangs(n: Node)
      requires n in path
      reads this`path, this`up, path.Keys`children
    {
      && n in up && up[n] in path && path[n] != ""
      && path[n][|path[n]| - 1] in up[n].children && up[n].children[path[n][|path[n]| - 1]] == n
    }

    // The marked nodes are those of the words.
    ghost predicate Marked()
      reads this`path, this`words, path.Keys`isWord, path.Keys`frequency
    {
      && "" !in words
      && (forall w {:trigger Reached(w)} :: w in words ==> Reached(w))
      && (forall n :: n in path ==> (n.isWord <==> path[n] in words))
      && (forall n :: n in path ==> n.frequency == FrequencyOf(words, path[n]))
    }

    ghost predicate Reached(p: string)
      reads this`path
    {
      exists n :: n in path && path[n] == p
    }

    ghost predicate Shape()
      reads this`path, this`up, path.Keys`children
    {
      Downward() && Upward()
    }

    // All nodes lead to a word, but perhaps those on the way to p.
    ghost predicate LeadBut(p: string)
      reads this`path, this`words
    {
      forall n :: n in path && n != root ==> Leads(words, path[n]) || path[n] <= p
    }

    // Every node but the root leads to a word.
    ghost predicate Pruned()
      reads this`path, this`words
    {
      forall n :: n in path && n != root ==> Leads(words, path[n])
    }

    ghost predicate Valid()
      reads this, path.Keys
    {
      Shape() && Marked() && Pruned()
    }

    constructor ()
      ensures Valid() && words == map[] && fresh(path.Keys)
    {
      root := new Node();
      words, up := map[], map[];
      new;
      path := map[root := ""];
    }

    // One prefix, one node.
    lemma Unique(n: Node, m: Node)
      requires Shape() && n in path && m in path && path[n] == path[m]
      ensures n == m
      decreases |path[n]|
    {
      if n != root {
        assert Hangs(n);
      }
      if m != root {
        assert Hangs(m);
      }
      if n != root && m != root {
        assert path[n] == Child(path[up[n]], path[n][|path[n]| - 1]);
        assert path[m] == Child(path[up[m]], path[m][|path[m]| - 1]);
        Unique(up[n], up[m]);
      }
    }

    // The node of a shorter prefix.
    lemma Ancestor(n: Node, k: nat) returns (m: Node)
      requires Shape() && n in path && k <= |path[n]|
      ensures m in path && path[m] == path[n][..k]
      decreases |path[n]|
    {
      m := n;
      if k < |path[n]| {
        assert Hangs(n);
        assert path[n] == Child(path[up[n]], path[n][|path[n]| - 1]);
        m := Ancestor(up[n], k);
      }
    }

    // Where there is no child for the next letter, no node goes on.
    lemma NoFurther(curr: Node, p: string, i: nat)
      requires Shape() && curr in path && i < |p| && path[curr] == p[..i] && p[i] !in curr.children
      ensures !Reached(p)
    {
      if n :| n in path && path[n] == p {
        var m := Ancestor(n, i + 1);
        assert Hangs(m);
        assert path[m] == Child(path[up[m]], path[m][|path[m]| - 1]);
        Unique(up[m], curr);
      }
    }

    // The child for a letter, made if need be.
    method Descend(curr: Node, c: char) returns (child: Node)
      requires Shape() && Marked() && curr in path
      modifies this`path, this`up, curr`children
      ensures Shape() && Marked() && child in path && curr in path && path[child] == Child(path[curr], c)
      ensures forall n :: n in old(path) ==> n in path && path[n] == old(path)[n]
      ensures forall n :: n in path && n !in old(path) ==> n == child && fresh(n)
    {
      if c in curr.children {
        return curr.children[c];
      }
      child := AddChild(curr, c);
    }

    method AddChild(curr: Node, c: char) returns (child: Node)
      requires Shape() && Marked() && curr in path && c !in curr.children
      modifies this`path, this`up, curr`children
      ensures Shape() && Marked() && fresh(child) && path == old(path)[child := Child(old(path)[curr], c)]
    {
      Unreached(curr, c);
      child := LinkChild(curr, c);
      forall w | w in words ensures Reached(w) {
        assert old(Reached(w));
        var n :| n in old(path) && old(path)[n] == w;
        assert n in path;
      }
      assert Child(old(path)[curr], c) !in words;
    }

    method LinkChild(curr: Node, c: char) returns (child: Node)
      requires Shape() && curr in path && c !in curr.children
      modifies this`path, this`up, curr`children
      ensures Shape() && fresh(child) && path == old(path)[child := Child(old(path)[curr], c)]
      ensures !child.isWord && child.frequency == 0
    {
      child := new Node();
      curr.children := curr.children[c := child];
      path, up := path[child := Child(path[curr], c)], up[child := curr];
      assert Hangs(child);
      forall n | n in path && n != root && n != child ensures Hangs(n) {
        assert old(Hangs(n));
      }
    }

    lemma Unreached(curr: Node, c: char)
      requires Shape() && curr in path && c !in curr.children
      ensures !Reached(Child(path[curr], c))
    {
      NoFurther(curr, Child(path[curr], c), |path[curr]|);
    }

    method Insert(word: string, frequency: int)
      requires Valid()
      modifies this, path.Keys
      ensures Valid() && words == Added(old(words), word, frequency)
      ensures word != "" ==> words.Keys == old(words).Keys + {word}
      ensures word != "" ==> words[word] == (if word in old(words) then old(words)[word] else 0) + frequency
      ensures forall w :: w in old(words) && w != word ==> words[w] == old(words)[w]
      ensures fresh(path.Keys - old(path.Keys))
    {
      if word == "" {
        return;
      }
      var curr := root;
      for i := 0 to |word|
        invariant Shape() && Marked() && words == old(words) && curr in path && path[curr] == word[..i]
        invariant fresh(path.Keys - old(path.Keys)) && LeadBut(word)
      {
        assert Child(word[..i], word[i]) == word[..i + 1];
        curr := Descend(curr, word[i]);
      }
      assert word[..|word|] == word;
      Alone(curr);
      LeadsAfter(word, frequency);
      MarkWord(curr, frequency);
    }

    // No other node has the same prefix.
    lemma Alone(node: Node)
      requires Shape() && node in path
      ensures forall n :: n in path && n != node ==> path[n] != path[node]
    {
      forall n | n in path && path[n] == path[node] ensures n == node {
        Unique(n, node);
      }
    }

    lemma LeadsAfter(word: string, frequency: int)
      requires word != "" && LeadBut(word)
      ensures forall n :: n in path && n != root ==> Leads(Added(words, word, frequency), path[n])
    {
      forall n | n in path && n != root ensures Leads(Added(words, word, frequency), path[n]) {
        LeadsAdded(words, path[n], word, frequency);
      }
    }

    // The node becomes a word.
    method MarkWord(node: Node, frequency: int)
      requires Marked() && node in path && path[node] != ""
      requires forall n :: n in path && n != node ==> path[n] != path[node]
      modifies this`words, node`isWord, node`frequency
      ensures Marked() && words == Added(old(words), path[node], frequency)
    {
      node.isWord := true;
      node.frequency := node.frequency + frequency;
      words := Added(words, path[node], frequency);
      forall w | w in words ensures Reached(w) {
        assert w != path[node] ==> old(Reached(w));
      }
    }

    // The node a word or prefix reaches, if there is one; none for the empty prefix.
    method FindNode(p: string) returns (node: Node?)
      requires Shape()
      ensures node == null <==> p == "" || !Reached(p)
      ensures node != null ==> node in path && path[node] == p
    {
      if p == "" {
        return null;
      }
      var curr := root;
      for i := 0 to |p|
        invariant curr in path && path[curr] == p[..i]
      {
        assert Child(p[..i], p[i]) == p[..i + 1];
        if p[i] !in curr.children {
          NoFurther(curr, p, i);
          return null;
        }
        curr := curr.children[p[i]];
      }
      assert p[..|p|] == p;
      return curr;
    }

    method Search(word: string) returns (found: bool)
      requires Valid()
      ensures found <==> word in words
    {
      if word == "" {
        return false;
      }
      var node := FindNode(word);
      assert word in words ==> Reached(word);
      return node != null && node.isWord;
    }

    // Some stored word extends the prefix.
    method StartsWith(prefix: string) returns (found: bool)
      requires Valid()
      ensures found <==> prefix != "" && Leads(words, prefix)
    {
      if prefix == "" {
        return false;
      }
      var node := FindNode(prefix);
      if w :| w in words && prefix <= w {
        ReachedBelow(w, prefix);
      }
      return node != null;
    }

    method Frequency(word: string) returns (f: int)
      requires Valid()
      ensures f == if word in words then words[word] else 0
    {
      if word == "" {
        return 0;
      }
      var node := FindNode(word);
      assert word in words ==> Reached(word);
      if node == null || !node.isWord {
        return 0;
      }
      return node.frequency;
    }

    method Delete(word: string) returns (deleted: bool)
      requires Valid()
      modifies this, path.Keys
      ensures Valid() && words == old(words) - {word} && (deleted <==> word in old(words))
      ensures path.Keys <= old(path.Keys)
    {
      if word == "" {
        assert words - {word} == words;
        return false;
      }
      var prune;
      prune, deleted := DeleteWord(root, word, 0);
      forall n | n in path && n != root ensures Leads(words, path[n]) {
        assert Hangs(n);
      }
    }

    // Deletes below the node of the first `index` letters. Nodes on the way that lead
    // nowhere any more are taken out on the way back, this one excepted.
    method DeleteWord(node: Node, word: string, index: nat) returns (prune: bool, deleted: bool)
      requires Shape() && Marked() && Pruned()
      requires word != "" && index <= |word| && node in path && path[node] == word[..index]
      modifies this`path, this`words, path.Keys
      ensures Shape() && Marked() && words == old(words) - {word} && (deleted <==> word in old(words))
      ensures forall n :: n in path ==> n in old(path) && path[n] == old(path)[n]
      ensures forall n :: n in old(path) && |old(path)[n]| <= index ==> n in path
      ensures LeadBut(word[..index])
      ensures prune ==> word[..index] !in words && node.children == map[]
      ensures !prune && index > 0 ==> Leads(words, word[..index])
      decreases |word| - index
    {
      if index == |word| {
        assert word[..index] == word;
        prune, deleted := Unmark(node, word);
        return;
      }
      var c := word[index];
      assert Child(word[..index], c) == word[..index + 1];
      if c !in node.children {
        Absent(node, word, index);
        return false, false;
      }
      var child := node.children[c];
      var childPrune;
      childPrune, deleted := DeleteWord(child, word, index + 1);
      prune := ComeBack(node, child, word, index, childPrune);
    }

    // On the way back the child goes if it leads nowhere any more.
    method ComeBack(node: Node, child: Node, word: string, index: nat, childPrune: bool) returns (prune: bool)
      requires Shape() && Marked() && index < |word| && LeadBut(word[..index + 1])
      requires node in path && path[node] == word[..index] && child in path && path[child] == word[..index + 1]
      requires if childPrune then path[child] !in words && child.children == map[] else Leads(words, path[child])
      modifies this`path, node`children
      ensures Shape() && Marked()
      ensures path == if childPrune then old(path) - {child} else old(path)
      ensures LeadBut(word[..index])
      ensures prune ==> word[..index] !in words && node.children == map[]
      ensures !prune && index > 0 ==> Leads(words, word[..index])
    {
      var c := word[index];
      assert Child(word[..index], c) == word[..index + 1];
      Alone(child);
      if childPrune {
        StillChild(node, child, c);
        RemoveLeaf(node, c);
      }
      OneBack(child, word, index);
      prune := Barren(node, word[..index]);
    }

    // Whether the node leads nowhere.
    method Barren(node: Node, ghost p: string) returns (prune: bool)
      requires Shape() && Marked() && node in path && path[node] == p && LeadBut(p)
      ensures prune ==> p !in words && node.children == map[]
      ensures !prune && p != "" ==> Leads(words, p)
    {
      prune := !node.isWord && |node.children| == 0;
      if !prune && p != "" {
        NodeLeads(node);
      }
    }

    lemma StillChild(node: Node, child: Node, c: char)
      requires Shape() && node in path && child in path && path[child] == Child(path[node], c)
      ensures c in node.children && node.children[c] == child
    {
      assert Hangs(child);
      assert path[child] == Child(path[up[child]], c);
      Unique(up[child], node);
    }

    // A word whose path stops here is not stored.
    lemma Absent(node: Node, word: string, i: nat)
      requires Shape() && Marked() && Pruned() && node in path && i < |word| && path[node] == word[..i]
      requires word[i] !in node.children
      ensures word !in words && words - {word} == words && LeadBut(word[..i])
      ensures i > 0 ==> Leads(words, word[..i])
    {
      NoFurther(node, word, i);
      assert word in words ==> Reached(word);
    }

    // Back from the child for the next letter: what is left leads to a word or lies on
    // the way here.
    lemma OneBack(child: Node, word: string, i: nat)
      requires i < |word| && LeadBut(word[..i + 1])
      requires forall n :: n in path && path[n] == word[..i + 1] ==> n == child
      requires child in path ==> Leads(words, word[..i + 1])
      ensures LeadBut(word[..i])
    {
      forall n | n in path && n != root ensures Leads(words, path[n]) || path[n] <= word[..i] {
        if path[n] <= word[..i + 1] && |path[n]| <= i {
          assert path[n] == word[..i + 1][..|path[n]|] == word[..i][..|path[n]|];
        }
      }
    }

    // A node that is a word, or has a child, leads to a word.
    lemma NodeLeads(node: Node)
      requires Shape() && Marked() && node in path && LeadBut(path[node])
      requires node.isWord || node.children != map[]
      ensures Leads(words, path[node])
    {
      var p := path[node];
      if node.isWord {
        assert p in words;
      } else {
        var c :| c in node.children;
        var child := node.children[c];
        assert path[child] == Child(p, c) && !(Child(p, c) <= p) && child != root;
        LeadsUp(words, p, path[child]);
      }
    }

    // The node of the word itself.
    method Unmark(node: Node, ghost word: string) returns (prune: bool, deleted: bool)
      requires Shape() && Marked() && Pruned() && node in path && path[node] == word && word != ""
      modifies this`words, node`isWord, node`frequency
      ensures Shape() && Marked() && words == old(words) - {word} && (deleted <==> word in old(words))
      ensures LeadBut(word)
      ensures prune ==> word !in words && node.children == map[]
      ensures !prune ==> Leads(words, word)
    {
      if !node.isWord {
        assert words - {word} == words;
        return false, false;
      }
      Alone(node);
      LeadsAfterDelete(word);
      ClearMark(node);
      prune := |node.children| == 0;
      if !prune {
        NodeLeads(node);
      }
      return prune, true;
    }

    lemma LeadsAfterDelete(word: string)
      requires Pruned()
      ensures forall n :: n in path && n != root ==> Leads(words - {word}, path[n]) || path[n] <= word
    {
      forall n | n in path && n != root && !(path[n] <= word) ensures Leads(words - {word}, path[n]) {
        LeadsWithout(words, path[n], word);
      }
    }

    method ClearMark(node: Node)
      requires Marked() && node in path
      requires forall n :: n in path && n != node ==> path[n] != path[node]
      modifies this`words, node`isWord, node`frequency
      ensures Marked() && words == old(words) - {path[node]}
    {
      node.isWord := false;
      node.frequency := 0;
      words := words - {path[node]};
      forall w | w in words ensures Reached(w) {
        assert old(Reached(w));
      }
    }

    // A childless node that is no word is taken out.
    method RemoveLeaf(node: Node, c: char)
      requires Shape() && Marked() && node in path && c in node.children
      requires node.children[c].children == map[] && path[node.children[c]] !in words
      modifies this`path, node`children
      ensures Shape() && Marked() && path == old(path) - {old(node.children[c])}
      ensures node.children == old(node.children) - {c}
    {
      UnlinkLeaf(node, c);
      forall w | w in words ensures Reached(w) {
        assert old(Reached(w));
        var n :| n in old(path) && old(path)[n] == w;
        assert n in path;
      }
    }

    method UnlinkLeaf(node: Node, c: char)
      requires Shape() && node in path && c in node.children && node.children[c].children == map[]
      modifies this`path, node`children
      ensures Shape() && path == old(path) - {old(node.children[c])}
      ensures node.children == old(node.children) - {c}
    {
      ghost var child := node.children[c];
      assert child in path && path[child] == Child(path[node], c);
      Parents(child);
      node.children := node.children - {c};
      path := path - {child};
      forall n | n in path && n != root ensures Hangs(n) {
        assert old(Hangs(n));
      }
    }

    // Nothing hangs from a childless node.
    lemma Parents(leaf: Node)
      requires Shape() && leaf in path && leaf.children == map[]
      ensures forall n :: n in path && n != root ==> n in up && up[n] != leaf
      ensures forall n, c :: n in path && c in n.children && n.children[c] == leaf ==>
        leaf != root && n == up[leaf] && c == path[leaf][|path[leaf]| - 1]
    {
      forall n | n in path && n != root ensures n in up && up[n] != leaf {
        assert Hangs(n);
      }
      forall n, c | n in path && c in n.children && n.children[c] == leaf
        ensures leaf != root && n == up[leaf] && c == path[leaf][|path[leaf]| - 1]
      {
        assert path[leaf] == Child(path[n], c);
        assert Hangs(leaf);
        assert path[leaf] == Child(path[up[leaf]], c);
        Unique(n, up[leaf]);
      }
    }

    // The best `limit` of the words that begin with the prefix.
    method AutoComplete(prefix: string, limit: int) returns (r: seq<Suggestion>)
      requires Valid()
      ensures prefix == "" || limit <= 0 ==> r == []
      ensures prefix != "" && limit > 0 ==> IsTop(r, Below(words, prefix), limit)
      ensures prefix != "" && limit > 0 ==> Completes(words, prefix, limit, r)
    {
      if prefix == "" || limit <= 0 {
        return [];
      }
      var node := FindNode(prefix);
      if node == null {
        NoneBelow(prefix);
        TopCompletes(words, prefix, limit, []);
        return [];
      }
      ghost var depth := Deepest(path);
      r := CollectTopWords(node, prefix, [], limit, {}, depth);
      assert {} + Below(words, prefix) == Below(words, prefix);
      TopCompletes(words, prefix, limit, r);
    }

    // The node of a prefix, in a trie no deeper than this.
    ghost predicate NodeOf(node: Node, word: string, depth: nat)
      reads this, path.Keys
    {
      Shape() && Marked() && node in path && path[node] == word && forall n :: n in path ==> |path[n]| <= depth
    }

    // Adds a node's word and the words below it to the best of those seen, visiting the
    // children in any order.
    method CollectTopWords(node: Node, word: string, list: seq<Suggestion>, limit: int, ghost seen: set<Suggestion>,
                           ghost depth: nat) returns (r: seq<Suggestion>)
      requires NodeOf(node, word, depth) && limit > 0
      requires IsTop(list, seen, limit) && seen !! Below(words, word)
      ensures IsTop(r, seen + Below(words, word), limit)
      decreases depth - |word|, 3
    {
      r := list;
      OwnFirst(words, word, seen);
      if node.isWord {
        r := InsertTopSuggestion(r, Suggestion(word, node.frequency), limit, seen);
      }
      r := CollectChildren(node, word, r, limit, seen, depth);
      AllThroughChildren(node);
    }

    // The best of those seen before, the word itself, and the words through children cs.
    ghost predicate Collected(list: seq<Suggestion>, word: string, cs: set<char>, seen: set<Suggestion>, limit: int)
      reads this
    {
      IsTop(list, Gathered(words, word, cs, seen), limit)
    }

    method CollectChildren(node: Node, word: string, list: seq<Suggestion>, limit: int, ghost seen: set<Suggestion>,
                           ghost depth: nat) returns (r: seq<Suggestion>)
      requires NodeOf(node, word, depth) && limit > 0
      requires Collected(list, word, {}, seen, limit) && seen !! Below(words, word)
      ensures Collected(r, word, node.children.Keys, seen, limit)
      decreases depth - |word|, 2
    {
      r := list;
      var todo := node.children.Keys;
      ghost var done: set<char> := {};
      while exists c :: c in todo
        invariant Split(todo, done, node.children.Keys)
        invariant Collected(r, word, done, seen, limit)
        decreases |todo|
      {
        r, todo, done := VisitNext(node, word, todo, r, limit, seen, done, depth);
      }
      SplitEnds(todo, done, node.children.Keys);
    }

    method VisitNext(node: Node, word: string, todo: set<char>, list: seq<Suggestion>, limit: int,
                     ghost seen: set<Suggestion>, ghost done: set<char>, ghost depth: nat)
      returns (r: seq<Suggestion>, rest: set<char>, ghost visited: set<char>)
      requires NodeOf(node, word, depth) && limit > 0 && seen !! Below(words, word) && exists c :: c in todo
      requires Split(todo, done, node.children.Keys) && Collected(list, word, done, seen, limit)
      ensures Split(rest, visited, node.children.Keys) && Collected(r, word, visited, seen, limit) && |rest| < |todo|
      decreases depth - |word|, 1
    {
      var c :| c in todo;
      SplitNext(todo, done, node.children.Keys, c);
      r := VisitChild(node, word, c, list, limit, seen, done, depth);
      rest, visited := todo - {c}, done + {c};
    }

    method VisitChild(node: Node, word: string, c: char, list: seq<Suggestion>, limit: int,
                      ghost seen: set<Suggestion>, ghost done: set<char>, ghost depth: nat) returns (r: seq<Suggestion>)
      requires NodeOf(node, word, depth) && c in node.children && limit > 0
      requires c !in done && seen !! Below(words, word) && Collected(list, word, done, seen, limit)
      ensures Collected(r, word, done + {c}, seen, limit)
      decreases depth - |word|, 0
    {
      var child := node.children[c];
      assert child in path && path[child] == Child(word, c);
      OneChildMore(words, word, done, c, seen);
      r := CollectTopWords(child, Child(word, c), list, limit, Gathered(words, word, done, seen), depth);
    }

    // Every longer word below a node goes through one of its children.
    lemma AllThroughChildren(node: Node)
      requires Shape() && Marked() && node in path
      ensures Own(words, path[node]) + Through(words, path[node], node.children.Keys) == Below(words, path[node])
      ensures forall seen :: Gathered(words, path[node], node.children.Keys, seen) == seen + Below(words, path[node])
    {
      var p := path[node];
      forall w | w in words && p <= w && |p| < |w| ensures w[|p|] in node.children {
        assert Reached(w);
        var n :| n in path && path[n] == w;
        var m := Ancestor(n, |p| + 1);
        assert path[m] == Child(p, w[|p|]);
        StillChild(node, m, w[|p|]);
      }
      forall s | s in Below(words, p) ensures s in Own(words, p) + Through(words, p, node.children.Keys) {
        if |s.word| == |p| {
          assert s.word == p;
        }
      }
    }

    lemma NoneBelow(prefix: string)
      requires Shape() && Marked() && !Reached(prefix)
      ensures Below(words, prefix) == {}
    {
      if w :| w in words && prefix <= w {
        ReachedBelow(w, prefix);
      }
    }

    lemma ReachedBelow(w: string, prefix: string)
      requires Shape() && Marked() && w in words && prefix <= w
      ensures Reached(prefix)
    {
      assert Reached(w);
      var n :| n in path && path[n] == w;
      var m := Ancestor(n, |prefix|);
      assert path[m] == prefix;
    }
  }

  // Of the stored words that begin with the prefix, the most frequent ones with their
  // frequencies: more frequent words first, equally frequent ones in dictionary order.
  ghost predicate Completes(words: map<string, int>, prefix: string, limit: int, r: seq<Suggestion>) {
    && |r| <= limit
    && (forall i :: 0 <= i < |r| ==>
          r[i].word in words && prefix <= r[i].word && r[i].frequency == words[r[i].word])
    && (forall i, j :: 0 <= i < j < |r| ==>
          r[i].frequency > r[j].frequency || (r[i].frequency == r[j].frequency && Earlier(r[i].word, r[j].word)))
    && (forall w :: w in words && prefix <= w && !Suggested(r, w) ==> |r| == limit)
    && (forall w, i :: w in words && prefix <= w && !Suggested(r, w) && 0 <= i < |r| ==>
          r[i].frequency > words[w] || (r[i].frequency == words[w] && Earlier(r[i].word, w)))
  }

  ghost predicate Suggested(r: seq<Suggestion>, w: string) {
    exists i :: 0 <= i < |r| && r[i].word == w
  }

  lemma TopCompletes(words: map<string, int>, prefix: string, limit: int, r: seq<Suggestion>)
    requires IsTop(r, Below(words, prefix), limit)
    ensures Completes(words, prefix, limit, r)
  {
    forall i | 0 <= i < |r|
      ensures r[i].word in words && prefix <= r[i].word && r[i].frequency == words[r[i].word]
    {
      assert r[i] in Below(words, prefix);
    }
    forall i, j | 0 <= i < j < |r|
      ensures r[i].frequency > r[j].frequency || (r[i].frequency == r[j].frequency && Earlier(r[i].word, r[j].word))
    {
      BetterMeans(r[i], r[j]);
    }
    forall w | w in words && prefix <= w && !Suggested(r, w)
      ensures Suggestion(w, words[w]) in Below(words, prefix) && Suggestion(w, words[w]) !in r
    {}
    forall w, i | w in words && prefix <= w && !Suggested(r, w) && 0 <= i < |r|
      ensures r[i].frequency > words[w] || (r[i].frequency == words[w] && Earlier(r[i].word, w))
    {
      BetterMeans(r[i], Suggestion(w, words[w]));
    }
  }

  ghost predicate Split(todo: set<char>, done: set<char>, all: set<char>) {
    (forall c :: c in all <==> c in todo || c in done) && forall c :: c in todo ==> c !in done
  }

  lemma SplitNext(todo: set<char>, done: set<char>, all: set<char>, c: char)
    requires Split(todo, done, all) && c in todo
    ensures c in all && c !in done && Split(todo - {c}, done + {c}, all)
  {
  }

  lemma SplitEnds(todo: set<char>, done: set<char>, all: set<char>)
    requires Split(todo, done, all) && todo == {}
    ensures done == all
  {
  }

  // The suggestion of p itself, if it is a word.
  ghost function Own(words: map<string, int>, p: string): set<Suggestion> {
    if p in words then {Suggestion(p, words[p])} else {}
  }

  // The suggestions below p whose next letter is one of cs.
  ghost function Through(words: map<string, int>, p: string, cs: set<char>): set<Suggestion> {
    set w | w in words && p <= w && |p| < |w| && w[|p|] in cs :: Suggestion(w, words[w])
  }

  // What was seen before, p itself, and what is below the children cs.
  ghost function Gathered(words: map<string, int>, p: string, cs: set<char>, seen: set<Suggestion>): set<Suggestion> {
    seen + Own(words, p) + Through(words, p, cs)
  }

  lemma OwnFirst(words: map<string, int>, p: string, seen: set<Suggestion>)
    ensures Gathered(words, p, {}, seen) == seen + Own(words, p)
    ensures Own(words, p) <= Below(words, p)
  {
  }

  lemma OneChildMore(words: map<string, int>, p: string, cs: set<char>, c: char, seen: set<Suggestion>)
    requires c !in cs && seen !! Below(words, p)
    ensures Gathered(words, p, cs + {c}, seen) == Gathered(words, p, cs, seen) + Below(words, Child(p, c))
    ensures Gathered(words, p, cs, seen) !! Below(words, Child(p, c))
  {
    forall w | w in words ensures Child(p, c) <= w <==> p <= w && |p| < |w| && w[|p|] == c {
      if p <= w && |p| < |w| && w[|p|] == c {
        assert w[..|p| + 1] == Child(p, c);
      }
      if Child(p, c) <= w {
        assert w[..|p|] == Child(p, c)[..|p|] == p;
      }
    }
    assert Through(words, p, cs + {c}) == Through(words, p, cs) + Below(words, Child(p, c));
  }

  // No path is longer than this.
  lemma Deepest(path: map<Node, string>) returns (depth: nat)
    ensures forall n :: n in path ==> |path[n]| <= depth
    decreases |path|
  {
    depth := 0;
    if n :| n in path {
      depth := Deepest(path - {n});
      assert forall m :: m in path && m != n ==> m in path - {n} && (path - {n})[m] == path[m];
      if depth < |path[n]| {
        depth := |path[n]|;
      }
    }
  }
}
