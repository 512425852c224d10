// The editor's objects: operations that remember what they deleted, the document they
// edit, and a linked history with a cursor.
module Editor {
  import opened Sequences
  import opened EditModel
  import LinkedNodes

  class Document {
    var text: string
    var formats: seq<Format>

    ghost function State(): Doc
      reads this
    {
      Doc(text, formats)
    }

    constructor ()
      ensures State() == EMPTY
    {
      text, formats := "", [];
    }
  }

  // An operation's shape is fixed; only the text it deleted is written.
  class EditOperation {
    const shape: Operation
    var deletedText: string

    ghost function State(): Operation
      reads this
    {
      if shape.Delete? then shape.(deletedText := deletedText) else shape
    }

    constructor (op: Operation)
      ensures State() == op
    {
      shape := op;
      deletedText := if op.Delete? then op.deletedText else "";
    }

    method Apply(doc: Document) returns (ok: bool)
      modifies doc, this`deletedText
      ensures match EditModel.Apply(old(doc.State()), old(State()))
              case Rejected => !ok && doc.State() == old(doc.State()) && State() == old(State())
              case Applied(d, op) => ok && doc.State() == d && State() == op
    {
      match shape {
        case Insert(p, text) =>
          if p < 0 || p > |doc.text| {
            return false;
          }
          doc.text := doc.text[..p] + text + doc.text[p..];
        case Delete(p, n, _) =>
          if p < 0 || p > |doc.text| || n <= 0 || p + n > |doc.text| {
            return false;
          }
          deletedText := doc.text[p..p + n];
          assert doc.text[..p] + "" + doc.text[p + n..] == doc.text[..p] + doc.text[p + n..];
          doc.text := doc.text[..p] + doc.text[p + n..];
        case Replace(p, o, n) =>
          if p < 0 || p > |doc.text| || o == "" || p + |o| > |doc.text| || doc.text[p..p + |o|] != o {
            return false;
          }
          doc.text := doc.text[..p] + n + doc.text[p + |o|..];
        case Reformat(f) =>
          if f.position < 0 || f.position > |doc.text| || f.length <= 0 || f.position + f.length > |doc.text| {
            return false;
          }
          doc.formats := doc.formats + [f];
      }
      return true;
    }

    method Reverse(doc: Document) returns (ok: bool)
      modifies doc
      ensures match EditModel.Reverse(old(doc.State()), State())
              case Refused => !ok && doc.State() == old(doc.State())
              case Reversed(d) => ok && doc.State() == d
    {
      match shape {
        case Insert(p, text) =>
          if p < 0 || p + |text| > |doc.text| {
            return false;
          }
          assert doc.text[..p] + "" + doc.text[p + |text|..] == doc.text[..p] + doc.text[p + |text|..];
          doc.text := doc.text[..p] + doc.text[p + |text|..];
        case Delete(p, _, _) =>
          if p < 0 || p > |doc.text| {
            return false;
          }
          doc.text := doc.text[..p] + deletedText + doc.text[p..];
        case Replace(p, o, n) =>
          if p < 0 || p > |doc.text| || p + |n| > |doc.text| || doc.text[p..p + |n|] != n {
            return false;
          }
          doc.text := doc.text[..p] + o + doc.text[p + |n|..];
        case Reformat(f) =>
          doc.formats := WithoutLast(doc.formats, f);
      }
      return true;
    }
  }

  class TextEditor {
    const doc: Document
    const history: LinkedNodes.List<EditOperation>
    var current: LinkedNodes.Node?<EditOperation>
    ghost var applied: nat
    ghost var ops: seq<Operation>

    ghost predicate Linked()
      reads this, history, history.nodes
    {
      && history.Valid() && applied <= |history.values|
      && current == LinkedNodes.At(history.nodes, applied - 1)
    }

    // The history's objects hold the operations of ops.
    ghost predicate Holds()
      reads this, history, history.values
    {
      |ops| == |history.values| && forall i :: 0 <= i < |ops| ==> history.values[i].State() == ops[i]
    }

    ghost predicate Valid()
      reads this, history, history.nodes, history.values
    {
      Linked() && Holds()
    }

    ghost function View(): State
      reads this, doc
    {
      State(doc.State(), ops, applied)
    }

    constructor ()
      ensures Valid() && View() == State(EMPTY, [], 0) && Consistent(View())
      ensures fresh(doc) && fresh(history) && history.nodes == [] && history.values == []
    {
      doc := new Document();
      history := new LinkedNodes.List();
      current, applied, ops := null, 0, [];
    }

    // Where the object stands in the history.
    ghost function Places(op: EditOperation): set<nat>
      reads history
    {
      set i: nat | i < |history.values| && history.values[i] == op
    }

    // Afterwards everything can still be undone and redone iff the object is not among
    // those applied or deletes what it deleted before.
    method ApplyOperation(op: EditOperation) returns (ok: bool)
      requires Valid()
      modifies this, doc, history, history.nodes, op`deletedText
      ensures Valid() && (View(), ok) == ApplyAgain(old(View()), old(Places(op)), old(op.State()))
      ensures old(Consistent(View())) ==>
        (Consistent(View()) <==> Harmless(old(View()), old(Places(op)), old(op.State())))
      ensures history.values == if ok then old(history.values)[..old(applied)] + [op] else old(history.values)
      ensures forall i :: 0 <= i < |history.nodes| ==> history.nodes[i] in old(history.nodes) || fresh(history.nodes[i])
    {
      ghost var s, at := View(), Places(op);
      if Consistent(s) {
        ApplyAgainKeepsIff(s, at, op.State());
      }
      ok := Perform(op);
    }

    // Applies the operation and enters it into the history.
    method Perform(op: EditOperation) returns (ok: bool)
      requires Valid()
      modifies this, doc, history, history.nodes, op`deletedText
      ensures Valid() && (View(), ok) == ApplyAgain(old(View()), old(Places(op)), old(op.State()))
      ensures history.values == if ok then old(history.values)[..old(applied)] + [op] else old(history.values)
      ensures forall i :: 0 <= i < |history.nodes| ==> history.nodes[i] in old(history.nodes) || fresh(history.nodes[i])
    {
      RewrittenThenCut(View(), Places(op), op.State());
      ok := Execute(op);
      if ok {
        Accept(op);
      }
    }

    // Applies the operation, wherever it stands in the history.
    method Execute(op: EditOperation) returns (ok: bool)
      requires Valid()
      modifies this`ops, doc, op`deletedText
      ensures Valid() && ok == EditModel.Apply(old(doc.State()), old(op.State())).Applied?
      ensures !ok ==> View() == old(View()) && op.State() == old(op.State())
      ensures ok ==> EditModel.Apply(old(doc.State()), old(op.State())) == Applied(doc.State(), op.State())
      ensures ok ==> ops == Rewritten(old(ops), old(Places(op)), op.State())
    {
      ghost var at := Places(op);
      ok := op.Apply(doc);
      if ok {
        ops := Rewritten(ops, at, op.State());
      }
    }

    // An operation that was applied enters the history.
    method Accept(op: EditOperation)
      requires Valid()
      modifies this`current, this`applied, this`ops, history, history.nodes
      ensures Valid() && ops == old(ops)[..old(applied)] + [op.State()] && applied == old(applied) + 1
      ensures history.values == old(history.values)[..old(applied)] + [op]
      ensures forall i :: 0 <= i < |history.nodes| ==> history.nodes[i] in old(history.nodes) || fresh(history.nodes[i])
    {
      Record(op);
      ops := ops[..applied - 1] + [op.State()];
    }

    // What was undone goes, the new operation comes last.
    method Record(op: EditOperation)
      requires Linked()
      modifies this`current, this`applied, history, history.nodes
      ensures Linked() && history.values == old(history.values)[..old(applied)] + [op] && applied == old(applied) + 1
      ensures forall i :: 0 <= i < |history.nodes| ==> history.nodes[i] in old(history.nodes) || fresh(history.nodes[i])
    {
      if current != history.tail {
        history.RemoveAfter(current, applied - 1);
      }
      current := history.PushBack(op);
      applied := applied + 1;
    }

    method Undo() returns (ok: bool)
      requires Valid()
      modifies this, doc
      ensures Valid() && (View(), ok) == EditModel.Undo(old(View()))
      ensures old(Consistent(View())) ==> Consistent(View()) && (ok <==> old(applied) > 0)
    {
      if Consistent(View()) && applied > 0 {
        UndoWorks(View());
      }
      ok := Retreat();
    }

    // Reverses the current operation, if there is one.
    method Retreat() returns (ok: bool)
      requires Valid()
      modifies this, doc
      ensures Valid() && (View(), ok) == EditModel.Undo(old(View()))
    {
      if current == null {
        return false;
      }
      ok := current.value.Reverse(doc);
      if !ok {
        return;
      }
      MoveTo(current.prev, applied - 1);
    }

    method Redo() returns (ok: bool)
      requires Valid()
      modifies this, doc, history.values`deletedText
      ensures Valid()
      ensures old(applied) == |old(ops)| ==> !ok && View() == old(View())
      ensures old(applied) < |old(ops)| ==>
        (View(), ok) == RedoAgain(old(View()), old(Places(history.values[applied])))
      ensures old(Consistent(View())) ==> (View(), ok) == EditModel.Redo(old(View())) && Consistent(View())
      ensures old(Consistent(View())) ==> (ok <==> old(applied) < |old(ops)|)
    {
      var next := if current == null then history.head else current.next;
      if next == null {
        return false;
      }
      ghost var s, at := View(), Places(next.value);
      if Consistent(s) {
        RedoWorks(s);
        RedoAgainIsRedo(s, at);
      }
      ok := Advance(next);
    }

    // Applies the operation after the current one.
    method Advance(next: LinkedNodes.Node<EditOperation>) returns (ok: bool)
      requires Valid() && applied < |ops| && next == history.nodes[applied]
      modifies this, doc, next.value`deletedText
      ensures Valid() && (View(), ok) == RedoAgain(old(View()), old(Places(next.value)))
    {
      ok := Execute(next.value);
      if ok {
        MoveTo(next, applied + 1);
      }
    }

    // The operation at this node becomes the last one applied.
    method MoveTo(node: LinkedNodes.Node?<EditOperation>, ghost n: nat)
      requires Valid() && n <= |ops| && node == LinkedNodes.At(history.nodes, n - 1)
      modifies this`current, this`applied
      ensures Valid() && applied == n
    {
      current := node;
      applied := n;
    }
  }
}
