// The editor's four operations and its history, as values. Text is a sequence of bytes.
module EditModel {
  import opened Sequences

  datatype Format = Format(position: int, length: int, bold: bool, italic: bool)

  datatype Doc = Doc(text: string, formats: seq<Format>)

  datatype Operation =
    | Insert(position: int, text: string)
    | Delete(position: int, length: int, deletedText: string)
    | Replace(position: int, oldText: string, newText: string)
    | Reformat(format: Format)

  datatype Outcome = Applied(doc: Doc, op: Operation) | Rejected

  datatype Reversal = Reversed(doc: Doc) | Refused

  const EMPTY: Doc := Doc("", [])

  // Whether text[from..from + length] lies within the text.
  predicate Within(text: string, from: int, length: int) {
    0 <= from <= |text| && from + length <= |text|
  }

  function Splice(text: string, from: int, length: int, put: string): string
    requires Within(text, from, length) && length >= 0
  {
    text[..from] + put + text[from + length..]
  }

  // The document after an operation, and the operation with what it has to remember.
  function Apply(d: Doc, op: Operation): Outcome {
    match op
    case Insert(p, text) =>
      if !Within(d.text, p, 0) then Rejected else Applied(d.(text := Splice(d.text, p, 0, text)), op)
    case Delete(p, n, _) =>
      if n <= 0 || !Within(d.text, p, n) then Rejected
      else Applied(d.(text := Splice(d.text, p, n, "")), op.(deletedText := d.text[p..p + n]))
    case Replace(p, o, n) =>
      if o == "" || !Within(d.text, p, |o|) || d.text[p..p + |o|] != o then Rejected
      else Applied(d.(text := Splice(d.text, p, |o|, n)), op)
    case Reformat(f) =>
      if f.length <= 0 || !Within(d.text, f.position, f.length) then Rejected
      else Applied(d.(formats := d.formats + [f]), op)
  }

  // Which operations are accepted, and what becomes of the document then.
  lemma ApplyMeans(d: Doc, op: Operation)
    ensures var r, n := Apply(d, op), |d.text|;
      match op
      case Insert(p, text) =>
        && (r.Applied? <==> 0 <= p <= n)
        && (r.Applied? ==> r.op == op && r.doc.formats == d.formats)
        && (r.Applied? ==> r.doc.text == d.text[..p] + text + d.text[p..] && |r.doc.text| == n + |text|)
      case Delete(p, k, _) =>
        && (r.Applied? <==> 0 <= p && 0 < k <= n - p)
        && (r.Applied? ==> r.op == Delete(p, k, d.text[p..p + k]) && r.doc.formats == d.formats)
        && (r.Applied? ==> r.doc.text == d.text[..p] + d.text[p + k..] && |r.doc.text| == n - k)
      case Replace(p, was, now) =>
        && (r.Applied? <==> 0 <= p && 0 < |was| <= n - p && d.text[p..p + |was|] == was)
        && (r.Applied? ==> r.op == op && r.doc.formats == d.formats)
        && (r.Applied? ==> r.doc.text == d.text[..p] + now + d.text[p + |was|..] && |r.doc.text| == n - |was| + |now|)
      case Reformat(f) =>
        && (r.Applied? <==> 0 <= f.position && 0 < f.length <= n - f.position)
        && (r.Applied? ==> r.op == op && r.doc == Doc(d.text, d.formats + [f]))
  {
  }

  function Reverse(d: Doc, op: Operation): Reversal {
    match op
    case Insert(p, text) =>
      if !Within(d.text, p, |text|) then Refused else Reversed(d.(text := Splice(d.text, p, |text|, "")))
    case Delete(p, _, deleted) =>
      if !Within(d.text, p, 0) then Refused else Reversed(d.(text := Splice(d.text, p, 0, deleted)))
    case Replace(p, o, n) =>
      if !Within(d.text, p, |n|) || d.text[p..p + |n|] != n then Refused
      else Reversed(d.(text := Splice(d.text, p, |n|, o)))
    case Reformat(f) => Reversed(d.(formats := RemoveLast(d.formats, f)))
  }

  // Which operations can be taken back, and what becomes of the document then.
  lemma ReverseMeans(d: Doc, op: Operation)
    ensures var r, n := Reverse(d, op), |d.text|;
      match op
      case Insert(p, text) =>
        && (r.Reversed? <==> 0 <= p && p + |text| <= n)
        && (r.Reversed? ==> r.doc == Doc(d.text[..p] + d.text[p + |text|..], d.formats))
      case Delete(p, _, was) =>
        && (r.Reversed? <==> 0 <= p <= n)
        && (r.Reversed? ==> r.doc == Doc(d.text[..p] + was + d.text[p..], d.formats))
      case Replace(p, was, now) =>
        && (r.Reversed? <==> 0 <= p && p + |now| <= n && d.text[p..p + |now|] == now)
        && (r.Reversed? ==> r.doc == Doc(d.text[..p] + was + d.text[p + |now|..], d.formats))
      case Reformat(_) => r.Reversed? && r.doc.text == d.text
  {
  }

  lemma SpliceBack(text: string, from: int, length: int, put: string)
    requires Within(text, from, length) && length >= 0
    ensures var t := Splice(text, from, length, put);
      && Within(t, from, |put|) && t[from..from + |put|] == put
      && Splice(t, from, |put|, text[from..from + length]) == text
  {
    var t := Splice(text, from, length, put);
    assert t[from + |put|..] == text[from + length..];
    assert text == text[..from] + text[from..from + length] + text[from + length..];
  }

  // Reversing what was applied gives back the document, text and formats; applying it
  // again changes nothing about it.
  lemma ReverseUndoes(d: Doc, op: Operation)
    requires Apply(d, op).Applied?
    ensures Reverse(Apply(d, op).doc, Apply(d, op).op) == Reversed(d)
    ensures Apply(d, Apply(d, op).op) == Apply(d, op)
  {
    match op
    case Insert(p, text) =>
      SpliceBack(d.text, p, 0, text);
      assert d.text[p..p] == "";
    case Delete(p, n, _) => SpliceBack(d.text, p, n, "");
    case Replace(p, o, n) => SpliceBack(d.text, p, |o|, n);
    case Reformat(f) => assert (d.formats + [f])[..|d.formats|] == d.formats;
  }

  // A deletion gives the document back iff it still remembers the text it deleted.
  lemma DeleteRemembers(d: Doc, op: Operation, text: string)
    requires op.Delete? && Apply(d, op).Applied?
    ensures var o := Apply(d, op).op;
      Reverse(Apply(d, op).doc, o.(deletedText := text)) == Reversed(d) <==> text == o.deletedText
  {
    ReverseUndoes(d, op);
    var p := op.position;
    var t := Apply(d, op).doc.text;
    var back := Splice(t, p, 0, text);
    if back == d.text {
      assert |back| == |t| + |text|;
      assert back[p..p + |text|] == text;
    }
  }

  // The history ------------------------------------------------------------------------

  // current counts the operations that are applied; those after it are undone.
  datatype State = State(doc: Doc, ops: seq<Operation>, current: nat)

  datatype Replayed = Reaches(doc: Doc) | Fails

  // The operations replayed from a document, each unchanged by being applied.
  function Replay(d: Doc, ops: seq<Operation>): Replayed
    decreases |ops|
  {
    if ops == [] then Reaches(d)
    else
      var first := Apply(d, ops[0]);
      if first.Rejected? || first.op != ops[0] then Fails else Replay(first.doc, ops[1..])
  }

  // The whole history can be replayed, and the document is where `current` stands in it.
  ghost predicate Consistent(s: State) {
    && s.current <= |s.ops|
    && Replay(EMPTY, s.ops).Reaches?
    && Replay(EMPTY, s.ops[..s.current]) == Reaches(s.doc)
  }

  function ApplyOperation(s: State, op: Operation): (State, bool)
    requires s.current <= |s.ops|
  {
    var r := Apply(s.doc, op);
    if r.Rejected? then (s, false) else (State(r.doc, s.ops[..s.current] + [r.op], s.current + 1), true)
  }

  function Undo(s: State): (State, bool)
    requires s.current <= |s.ops|
  {
    if s.current == 0 then (s, false)
    else
      var r := Reverse(s.doc, s.ops[s.current - 1]);
      if r.Refused? then (s, false) else (State(r.doc, s.ops, s.current - 1), true)
  }

  function Redo(s: State): (State, bool)
    requires s.current <= |s.ops|
  {
    if s.current == |s.ops| then (s, false)
    else
      var r := Apply(s.doc, s.ops[s.current]);
      if r.Rejected? then (s, false) else (State(r.doc, s.ops[s.current := r.op], s.current + 1), true)
  }

  lemma {:induction false} ReplaySplit(d: Doc, ops: seq<Operation>, more: seq<Operation>)
    ensures Replay(d, ops + more) ==
      if Replay(d, ops).Fails? then Fails else Replay(Replay(d, ops).doc, more)
    decreases |ops|
  {
    if ops == [] {
      assert ops + more == more;
    } else {
      assert (ops + more)[1..] == ops[1..] + more;
      var first := Apply(d, ops[0]);
      if first.Applied? {
        ReplaySplit(first.doc, ops[1..], more);
      }
    }
  }

  lemma ReplayOne(d: Doc, op: Operation)
    ensures Replay(d, [op]) ==
      if Apply(d, op).Applied? && Apply(d, op).op == op then Reaches(Apply(d, op).doc) else Fails
  {
    assert [op][1..] == [];
  }

  // One operation more of the history, from where it stands.
  lemma ReplayNext(s: State)
    requires Consistent(s) && s.current < |s.ops|
    ensures var op := s.ops[s.current];
      Apply(s.doc, op).Applied? && Apply(s.doc, op).op == op
    ensures Replay(EMPTY, s.ops[..s.current + 1]) == Reaches(Apply(s.doc, s.ops[s.current]).doc)
  {
    var k := s.current;
    assert s.ops[..k + 1] == s.ops[..k] + [s.ops[k]];
    assert s.ops == s.ops[..k + 1] + s.ops[k + 1..];
    ReplaySplit(EMPTY, s.ops[..k], [s.ops[k]]);
    ReplaySplit(EMPTY, s.ops[..k + 1], s.ops[k + 1..]);
    ReplayOne(s.doc, s.ops[k]);
  }

  // A new edit keeps what is applied and discards exactly what was undone.
  lemma EditKeeps(s: State, op: Operation)
    requires Consistent(s)
    ensures Consistent(ApplyOperation(s, op).0)
    ensures ApplyOperation(s, op).1 <==> Apply(s.doc, op).Applied?
    ensures ApplyOperation(s, op).1 ==> ApplyOperation(s, op).0.ops[..s.current] == s.ops[..s.current]
    ensures ApplyOperation(s, op).1 ==> |ApplyOperation(s, op).0.ops| == s.current + 1
  {
    var (t, ok) := ApplyOperation(s, op);
    if ok {
      var r := Apply(s.doc, op);
      ReverseUndoes(s.doc, op);
      ReplaySplit(EMPTY, s.ops[..s.current], [r.op]);
      ReplayOne(s.doc, r.op);
      assert t.ops[..t.current] == t.ops;
    }
  }

  // Undo with something applied never fails, steps back one document, and redo takes it
  // back, history included.
  lemma UndoWorks(s: State)
    requires Consistent(s) && s.current > 0
    ensures Undo(s).1 && Consistent(Undo(s).0) && Undo(s).0.ops == s.ops && Undo(s).0.current == s.current - 1
    ensures Redo(Undo(s).0) == (s, true)
  {
    var k := s.current - 1;
    assert s.ops[..k + 1] == s.ops[..k] + [s.ops[k]];
    ReplaySplit(EMPTY, s.ops[..k], [s.ops[k]]);
    var before := State(Replay(EMPTY, s.ops[..k]).doc, s.ops, k);
    ReplayOne(before.doc, s.ops[k]);
    ReverseUndoes(before.doc, s.ops[k]);
    assert Undo(s).0 == before;
    assert s.ops[k := s.ops[k]] == s.ops;
  }

  // Redo with something undone never fails, and undo takes it back.
  lemma RedoWorks(s: State)
    requires Consistent(s) && s.current < |s.ops|
    ensures Redo(s).1 && Consistent(Redo(s).0) && Redo(s).0.ops == s.ops && Redo(s).0.current == s.current + 1
    ensures Undo(Redo(s).0) == (s, true)
  {
    ReplayNext(s);
    ReverseUndoes(s.doc, s.ops[s.current]);
    assert s.ops[s.current := s.ops[s.current]] == s.ops;
  }

  // Operations applied again -----------------------------------------------------------

  // An operation is an object. Where it stands in the history, the text it deleted is
  // overwritten when it is applied again.
  function Rewritten(ops: seq<Operation>, at: set<nat>, op: Operation): (r: seq<Operation>)
    ensures |r| == |ops| && forall i :: 0 <= i < |ops| ==> r[i] == if i in at then op else ops[i]
  {
    if ops == [] then []
    else
      var last := |ops| - 1;
      Rewritten(ops[..last], at, op) + [if last in at then op else ops[last]]
  }

  // Applying the object that stands at the places `at` of the history.
  function ApplyAgain(s: State, at: set<nat>, op: Operation): (State, bool)
    requires s.current <= |s.ops|
  {
    var r := Apply(s.doc, op);
    if r.Rejected? then (s, false)
    else (State(r.doc, Rewritten(s.ops[..s.current], at, r.op) + [r.op], s.current + 1), true)
  }

  // It makes no difference whether the undone operations are rewritten before they go.
  lemma RewrittenThenCut(s: State, at: set<nat>, op: Operation)
    requires s.current <= |s.ops|
    ensures var r := Apply(s.doc, op);
      ApplyAgain(s, at, op) == if r.Rejected? then (s, false)
        else (State(r.doc, Rewritten(s.ops, at, r.op)[..s.current] + [r.op], s.current + 1), true)
  {
    var r := Apply(s.doc, op);
    if r.Applied? {
      assert Rewritten(s.ops, at, r.op)[..s.current] == Rewritten(s.ops[..s.current], at, r.op);
    }
  }

  // Redoing the operation whose object stands at the places `at`.
  function RedoAgain(s: State, at: set<nat>): (State, bool)
    requires s.current < |s.ops|
  {
    var r := Apply(s.doc, s.ops[s.current]);
    if r.Rejected? then (s, false) else (State(r.doc, Rewritten(s.ops, at, r.op), s.current + 1), true)
  }

  // The places of the history that are applied and hold this operation.
  ghost predicate Holding(s: State, at: set<nat>, op: Operation)
    requires s.current <= |s.ops|
  {
    forall i :: i in at && i < s.current ==> s.ops[i] == op
  }

  // The object is not among those still applied, or deletes the same text once more.
  ghost predicate Harmless(s: State, at: set<nat>, op: Operation) {
    (forall i :: i in at ==> i >= s.current) || Apply(s.doc, op).Rejected? || Apply(s.doc, op).op == op
  }

  lemma {:induction false} ReplayFailsAt(ops: seq<Operation>, i: nat)
    requires i < |ops| && Replay(EMPTY, ops[..i]).Reaches?
    requires var e := Replay(EMPTY, ops[..i]).doc; Apply(e, ops[i]).Rejected? || Apply(e, ops[i]).op != ops[i]
    ensures Replay(EMPTY, ops).Fails?
  {
    assert ops == ops[..i] + ([ops[i]] + ops[i + 1..]);
    ReplaySplit(EMPTY, ops[..i], [ops[i]] + ops[i + 1..]);
  }

  // Applying an object again leaves a history that can be undone and redone iff this is
  // harmless; then it is like applying a new operation.
  lemma ApplyAgainKeepsIff(s: State, at: set<nat>, op: Operation)
    requires Consistent(s) && Holding(s, at, op)
    ensures Consistent(ApplyAgain(s, at, op).0) <==> Harmless(s, at, op)
    ensures Harmless(s, at, op) ==> ApplyAgain(s, at, op) == ApplyOperation(s, op)
  {
    var r := Apply(s.doc, op);
    if Harmless(s, at, op) {
      assert r.Applied? ==> Rewritten(s.ops[..s.current], at, r.op) == s.ops[..s.current];
      EditKeeps(s, op);
    } else {
      var i := PlaceFrom(s, at, 0);
      var now := ApplyAgain(s, at, op).0.ops;
      assert s.ops[..i] == now[..i];
      ReplayUpTo(s, i);
      assert now[i] == r.op && s.ops[i] == op;
      ReplayFailsAt(now, i);
    }
  }

  // In a history that can be replayed, the object's text is already the one it deletes.
  lemma RedoAgainIsRedo(s: State, at: set<nat>)
    requires Consistent(s) && s.current < |s.ops| && forall i :: i in at && i < |s.ops| ==> s.ops[i] == s.ops[s.current]
    ensures RedoAgain(s, at) == Redo(s)
  {
    ReplayNext(s);
    RewrittenAlready(s.ops, at, s.ops[s.current]);
    assert s.ops[s.current := s.ops[s.current]] == s.ops;
  }

  lemma RewrittenAlready(ops: seq<Operation>, at: set<nat>, op: Operation)
    requires forall i :: i in at && i < |ops| ==> ops[i] == op
    ensures Rewritten(ops, at, op) == ops
  {
  }

  // The first place from i on.
  function PlaceFrom(s: State, at: set<nat>, i: nat): (k: nat)
    requires exists j :: i <= j < s.current && j in at
    requires forall j :: j in at ==> i <= j
    ensures k in at && k < s.current && forall j :: j in at ==> k <= j
    decreases s.current - i
  {
    if i in at then i else PlaceFrom(s, at, i + 1)
  }

  // Up to any operation the history can be replayed, that operation included.
  lemma ReplayUpTo(s: State, i: nat)
    requires Consistent(s) && i < |s.ops|
    ensures var e := Replay(EMPTY, s.ops[..i]);
      e.Reaches? && Apply(e.doc, s.ops[i]).Applied? && Apply(e.doc, s.ops[i]).op == s.ops[i]
  {
    assert s.ops == s.ops[..i] + s.ops[i..];
    ReplaySplit(EMPTY, s.ops[..i], s.ops[i..]);
    assert s.ops[i..][0] == s.ops[i];
  }

  // A text was entered, then the same object deleted the first letter n times.
  function Deleted(text: string, n: nat): State
    requires n <= 2 <= |text|
  {
    var entered := Insert(0, text);
    if n == 0 then State(Doc(text, []), [entered], 1)
    else if n == 1 then State(Doc(text[1..], []), [entered, Delete(0, 1, [text[0]])], 2)
    else State(Doc(text[2..], []), [entered, Delete(0, 1, [text[1]]), Delete(0, 1, [text[1]])], 3)
  }

  lemma Entered(text: string)
    requires |text| >= 2
    ensures Run([Edit(Insert(0, text))]) == Deleted(text, 0)
  {
    var cs := [Edit(Insert(0, text))];
    assert Splice("", 0, 0, text) == text;
    assert cs[..0] == [] && Run([]) == State(EMPTY, [], 0);
  }

  lemma DeletedOnce(text: string)
    requires |text| >= 2
    ensures ApplyAgain(Deleted(text, 0), {}, Delete(0, 1, "")) == (Deleted(text, 1), true)
  {
    var s := Deleted(text, 0);
    assert Splice(text, 0, 1, "") == text[1..] && text[0..1] == [text[0]];
    assert Rewritten(s.ops[..1], {}, Delete(0, 1, [text[0]])) + [Delete(0, 1, [text[0]])] == Deleted(text, 1).ops;
  }

  lemma DeletedAgain(text: string)
    requires |text| >= 2
    ensures ApplyAgain(Deleted(text, 1), {1}, Delete(0, 1, [text[0]])) == (Deleted(text, 2), true)
  {
    var s := Deleted(text, 1);
    assert Splice(text[1..], 0, 1, "") == text[2..] && text[1..][0..1] == [text[1]];
    assert Rewritten(s.ops[..2], {1}, Delete(0, 1, [text[1]])) + [Delete(0, 1, [text[1]])] == Deleted(text, 2).ops;
  }

  // Applied twice to a text whose first two letters differ, the deletion has forgotten
  // the first of them: undoing both does not give the text back.
  lemma DeletedTwice(text: string)
    requires |text| >= 2 && text[0] != text[1]
    ensures Run([Edit(Insert(0, text))]) == Deleted(text, 0)
    ensures ApplyAgain(Deleted(text, 0), {}, Delete(0, 1, "")) == (Deleted(text, 1), true)
    ensures ApplyAgain(Deleted(text, 1), {1}, Deleted(text, 1).ops[1]) == (Deleted(text, 2), true)
    ensures Consistent(Deleted(text, 1)) && !Consistent(Deleted(text, 2))
    ensures UndoTwice(Deleted(text, 2)) ==
      (State(Doc([text[1], text[1]] + text[2..], []), Deleted(text, 2).ops, 1), true)
    ensures [text[1], text[1]] + text[2..] != text
  {
    Entered(text);
    RunConsistent([Edit(Insert(0, text))]);
    DeletedOnce(text);
    ApplyAgainKeepsIff(Deleted(text, 0), {}, Delete(0, 1, ""));
    DeletedAgain(text);
    ApplyAgainKeepsIff(Deleted(text, 1), {1}, Delete(0, 1, [text[0]]));
    UndoneTwice(text);
  }

  function UndoTwice(s: State): (State, bool)
    requires s.current <= |s.ops|
  {
    var (t, ok) := Undo(s);
    var (u, also) := Undo(t);
    (u, ok && also)
  }

  lemma UndoneTwice(text: string)
    requires |text| >= 2
    ensures UndoTwice(Deleted(text, 2)) ==
      (State(Doc([text[1], text[1]] + text[2..], []), Deleted(text, 2).ops, 1), true)
  {
    var s := Deleted(text, 2);
    assert Splice(text[2..], 0, 0, [text[1]]) == [text[1]] + text[2..];
    assert Undo(s) == (State(Doc([text[1]] + text[2..], []), s.ops, 2), true);
    assert Splice([text[1]] + text[2..], 0, 0, [text[1]]) == [text[1], text[1]] + text[2..];
  }

  // Runs of the editor -----------------------------------------------------------------

  datatype Command = Edit(op: Operation) | UndoIt | RedoIt

  function Step(s: State, c: Command): (t: State)
    requires s.current <= |s.ops|
    ensures t.current <= |t.ops|
  {
    match c
    case Edit(op) => ApplyOperation(s, op).0
    case UndoIt => Undo(s).0
    case RedoIt => Redo(s).0
  }

  function Run(cs: seq<Command>): (s: State)
    ensures s.current <= |s.ops|
  {
    if cs == [] then State(EMPTY, [], 0) else Step(Run(cs[..|cs| - 1]), cs[|cs| - 1])
  }

  // In every reachable state the document is the history replayed up to the current
  // operation, and nothing that is undone has become impossible to redo.
  lemma {:induction false} RunConsistent(cs: seq<Command>)
    ensures Consistent(Run(cs))
  {
    if cs != [] {
      var s := Run(cs[..|cs| - 1]);
      RunConsistent(cs[..|cs| - 1]);
      match cs[|cs| - 1] {
        case Edit(op) => EditKeeps(s, op);
        case UndoIt =>
          if s.current > 0 {
            UndoWorks(s);
          }
        case RedoIt =>
          if s.current < |s.ops| {
            RedoWorks(s);
          }
      }
    }
  }

  // Undoing everything empties the document and keeps the history.
  function UndoAll(s: State): (t: State)
    requires s.current <= |s.ops|
    ensures t.current <= |t.ops|
    decreases s.current
  {
    if s.current == 0 || !Undo(s).1 then s else UndoAll(Undo(s).0)
  }

  lemma {:induction false} UndoAllEmpties(s: State)
    requires Consistent(s)
    ensures UndoAll(s) == State(EMPTY, s.ops, 0)
    decreases s.current
  {
    if s.current > 0 {
      UndoWorks(s);
      UndoAllEmpties(Undo(s).0);
    }
  }
}
