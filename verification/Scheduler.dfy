// The priority queue of waiting tasks, aged so that no task waits for ever.
module Scheduler {
  import opened Options
  import opened Heap

  // Priority 1 is the most urgent, 10 the least. The ticket tells one waiting task from
  // another, as its address does; process IDs may repeat.
  datatype Task = Task(ticket: int, pid: int, priority: int, arrival: int)

  predicate LessTask(a: Task, b: Task) {
    if a.priority != b.priority then a.priority < b.priority else a.arrival < b.arrival
  }

  // A task may be popped before another one that waits: it is more urgent, or as urgent and
  // arrived no later.
  predicate GoesFirst(a: Task, b: Task) {
    a.priority < b.priority || (a.priority == b.priority && a.arrival <= b.arrival)
  }

  function Age(t: Task): Task {
    if t.priority > 1 then t.(priority := t.priority - 1) else t
  }

  function AgeAll(s: seq<Task>): seq<Task> {
    if s == [] then [] else [Age(s[0])] + AgeAll(s[1..])
  }

  lemma {:induction false} AgeAllAppend(s: seq<Task>, t: Task)
    ensures AgeAll(s + [t]) == AgeAll(s) + [Age(t)]
  {
    if s != [] {
      assert (s + [t])[1..] == s[1..] + [t];
      AgeAllAppend(s[1..], t);
    } else {
      assert [t][1..] == [];
    }
  }

  function AgeMap(w: map<int, Task>): map<int, Task> {
    map p | p in w :: Age(w[p])
  }

  // The queue ------------------------------------------------------------------------

  // The heap q holds exactly the tasks of w, each once.
  ghost predicate Holds(q: multiset<Task>, w: map<int, Task>) {
    && (forall p :: p in w ==> w[p].ticket == p)
    && (forall t :: q[t] == if t.ticket in w && w[t.ticket] == t then 1 else 0)
  }

  lemma HoldsAdd(q: multiset<Task>, w: map<int, Task>, t: Task)
    requires Holds(q, w) && t.ticket !in w
    ensures Holds(q + multiset{t}, w[t.ticket := t])
  {
  }

  lemma HoldsRemove(q: multiset<Task>, w: map<int, Task>, t: Task)
    requires Holds(q + multiset{t}, w)
    ensures t.ticket in w && w[t.ticket] == t && Holds(q, w - {t.ticket})
  {
    assert (q + multiset{t})[t] == q[t] + 1;
    forall u ensures q[u] == if u.ticket in w - {t.ticket} && w[u.ticket] == u then 1 else 0 {
      assert (q + multiset{t})[u] == q[u] + if u == t then 1 else 0;
    }
  }

  lemma {:induction false} HoldsAged(s: seq<Task>, w: map<int, Task>)
    requires Holds(multiset(s), w)
    ensures Holds(multiset(AgeAll(s)), AgeMap(w))
  {
    if s != [] {
      var t := s[0];
      assert s == [t] + s[1..];
      assert multiset(s) == multiset(s[1..]) + multiset{t};
      HoldsRemove(multiset(s[1..]), w, t);
      HoldsAged(s[1..], w - {t.ticket});
      HoldsAdd(multiset(AgeAll(s[1..])), AgeMap(w - {t.ticket}), Age(t));
      assert AgeMap(w - {t.ticket})[t.ticket := Age(t)] == AgeMap(w);
    } else {
      Emptied(s, w);
    }
  }

  class SafeTaskHeap {
    const heap: MinHeap<Task>
    var pushed: int
    ghost var waiting: map<int, Task>

    ghost predicate Valid()
      reads this, heap
    {
      && heap.Valid() && heap.less == LessTask && Holds(multiset(heap.items), waiting)
      && forall p :: p in waiting ==> p <= pushed
    }

    constructor ()
      ensures Valid() && waiting == map[] && fresh(heap)
    {
      heap := new MinHeap(LessTask);
      waiting, pushed := map[], 0;
    }

    // Every push is a task of its own, whatever its process ID.
    method Push(pid: int, priority: int, arrival: int)
      requires Valid()
      modifies this, heap
      ensures Valid() && pushed == old(pushed) + 1 && pushed !in old(waiting)
      ensures Next(old(waiting), Event.Push(Task(pushed, pid, priority, arrival)), waiting)
    {
      pushed := pushed + 1;
      var t := Task(pushed, pid, priority, arrival);
      HoldsAdd(multiset(heap.items), waiting, t);
      heap.Push(t);
      waiting := waiting[t.ticket := t];
    }

    method Pop() returns (t: Option<Task>)
      requires Valid()
      modifies this, heap
      ensures Valid() && pushed == old(pushed)
      ensures t.None? ==> waiting == old(waiting) == map[]
      ensures t.Some? ==> t.value.ticket in old(waiting) && old(waiting)[t.value.ticket] == t.value
      ensures t.Some? ==> Next(old(waiting), Event.Pop(t.value.ticket), waiting)
      ensures t.Some? ==> forall p :: p in old(waiting) ==> GoesFirst(t.value, old(waiting)[p])
    {
      ghost var was := heap.items;
      t := heap.Pop();
      if t.Some? {
        HoldsRemove(multiset(heap.items), waiting, t.value);
        forall p | p in waiting ensures GoesFirst(t.value, waiting[p]) {
          HoldsKey(multiset(was), waiting, p);
          assert !LessTask(waiting[p], t.value);
        }
        waiting := waiting - {t.value.ticket};
      } else {
        Emptied(was, waiting);
      }
    }

    method AgeWaitingTasks()
      requires Valid()
      modifies this, heap
      ensures Valid() && pushed == old(pushed) && Next(old(waiting), Aging, waiting)
    {
      var tasks := DrainAged();
      PushAll(tasks);
      waiting := AgeMap(waiting);
    }

    method PushAll(tasks: seq<Task>)
      requires heap.Valid() && heap.items == []
      modifies heap
      ensures heap.Valid() && multiset(heap.items) == multiset(tasks)
    {
      for i := 0 to |tasks|
        invariant heap.Valid() && multiset(heap.items) + multiset(tasks[i..]) == multiset(tasks)
      {
        assert tasks[i..] == [tasks[i]] + tasks[i + 1..];
        heap.Push(tasks[i]);
      }
    }

    // Pops every task, one level more urgent.
    method DrainAged() returns (tasks: seq<Task>)
      requires Valid()
      modifies heap
      ensures heap.Valid() && heap.items == [] && Holds(multiset(tasks), AgeMap(waiting))
    {
      tasks := [];
      ghost var taken: seq<Task> := [];
      while |heap.items| > 0
        invariant heap.Valid() && tasks == AgeAll(taken)
        invariant multiset(heap.items) + multiset(taken) == multiset(old(heap.items))
        decreases |heap.items|
      {
        var top := heap.Pop();
        AgeAllAppend(taken, top.value);
        taken := taken + [top.value];
        tasks := tasks + [Age(top.value)];
      }
      assert multiset(taken) == multiset(old(heap.items));
      HoldsAged(taken, waiting);
    }
  }

  lemma Emptied(s: seq<Task>, w: map<int, Task>)
    requires Holds(multiset(s), w) && s == []
    ensures w == map[]
  {
    forall p | p in w ensures false {
      HoldsKey(multiset(s), w, p);
    }
  }

  lemma HoldsKey(q: multiset<Task>, w: map<int, Task>, p: int)
    requires Holds(q, w) && p in w
    ensures w[p] in q && w[p].ticket == p
  {
    assert q[w[p]] == 1;
  }

  // Runs of the queue ------------------------------------------------------------

  datatype Event = Push(task: Task) | Pop(ticket: int) | Aging

  // One event on the waiting tasks. A pop takes any task that may go first of all.
  ghost predicate Next(w: map<int, Task>, e: Event, v: map<int, Task>) {
    match e
    case Push(t) => t.ticket !in w && v == w[t.ticket := t]
    case Pop(p) => p in w && v == w - {p} && forall q :: q in w ==> GoesFirst(w[p], w[q])
    case Aging => v == AgeMap(w)
  }

  // No ticket is given out twice.
  ghost predicate IsRun(ws: seq<map<int, Task>>, es: seq<Event>) {
    && |ws| == |es| + 1 && (forall k :: 0 <= k < |es| ==> Next(ws[k], es[k], ws[k + 1]))
    && (forall k :: 0 <= k < |es| && es[k].Push? ==> es[k].task.ticket !in ws[0])
    && (forall j, k :: 0 <= j < k < |es| && es[j].Push? && es[k].Push? ==> es[j].task.ticket != es[k].task.ticket)
  }

  ghost predicate Legal(w: map<int, Task>) {
    forall p :: p in w ==> 1 <= w[p].priority <= 10
  }

  // Tasks pushed have a legal priority and arrive after the given time.
  ghost predicate Later(es: seq<Event>, arrival: int) {
    forall k :: 0 <= k < |es| && es[k].Push? ==> es[k].task.arrival > arrival && 1 <= es[k].task.priority <= 10
  }

  // The number of agings, and of pops, among events i up to j.
  function Agings(es: seq<Event>, i: int, j: int): nat
    requires 0 <= i <= j <= |es|
    decreases j
  {
    if i == j then 0 else Agings(es, i, j - 1) + if es[j - 1].Aging? then 1 else 0
  }

  function Pops(es: seq<Event>, i: int, j: int): nat
    requires 0 <= i <= j <= |es|
    decreases j
  {
    if i == j then 0 else Pops(es, i, j - 1) + if es[j - 1].Pop? then 1 else 0
  }

  // The tasks other than p that arrived no later than p.
  ghost function Rivals(w: map<int, Task>, p: int): set<int>
    requires p in w
  {
    set q | q in w && q != p && w[q].arrival <= w[p].arrival
  }

  // A task that still waits at the end has waited all along.
  lemma {:induction false} Waited(ws: seq<map<int, Task>>, es: seq<Event>, p: int, k: nat)
    requires IsRun(ws, es) && k <= |es| && p in ws[0] && p in ws[|es|]
    ensures p in ws[k]
    decreases |es| - k
  {
    if k < |es| {
      Waited(ws, es, p, k + 1);
      assert Next(ws[k], es[k], ws[k + 1]);
    }
  }

  // It keeps its arrival time and loses one level of priority with every aging.
  lemma {:induction false} Ages(ws: seq<map<int, Task>>, es: seq<Event>, p: int, k: nat)
    requires IsRun(ws, es) && k <= |es| && p in ws[|es|] && p in ws[0] && Legal(ws[0])
    requires Later(es, ws[0][p].arrival)
    ensures Legal(ws[k]) && p in ws[k] && ws[k][p].arrival == ws[0][p].arrival
    ensures var left := ws[0][p].priority - Agings(es, 0, k);
      ws[k][p].priority == if left < 1 then 1 else left
  {
    Waited(ws, es, p, k);
    if k > 0 {
      Ages(ws, es, p, k - 1);
      assert Next(ws[k - 1], es[k - 1], ws[k]);
    }
  }

  // At the top priority, only rivals are popped before it, each for good.
  lemma {:induction false} RivalsLeave(ws: seq<map<int, Task>>, es: seq<Event>, p: int, i: nat, j: nat)
    requires IsRun(ws, es) && i <= j <= |es| && p in ws[|es|] && p in ws[0] && Legal(ws[0])
    requires Later(es, ws[0][p].arrival) && Agings(es, 0, i) >= 9
    ensures p in ws[i] && p in ws[j]
    ensures Pops(es, i, j) + |Rivals(ws[j], p)| <= |Rivals(ws[i], p)|
    ensures Agings(es, 0, j) >= 9
    decreases j
  {
    Ages(ws, es, p, j);
    if i < j {
      RivalsLeave(ws, es, p, i, j - 1);
      Ages(ws, es, p, j - 1);
      OneEvent(ws[j - 1], es[j - 1], ws[j], p);
    }
  }

  lemma OneEvent(w: map<int, Task>, e: Event, v: map<int, Task>, p: int)
    requires Next(w, e, v) && Legal(w) && p in w && p in v && w[p].priority == 1
    requires e.Push? ==> e.task.arrival > w[p].arrival && e.task.ticket != p
    ensures (if e.Pop? then 1 else 0) + |Rivals(v, p)| <= |Rivals(w, p)|
  {
    match e {
      case Pop(q) =>
        assert GoesFirst(w[q], w[p]);
        assert Rivals(v, p) == Rivals(w, p) - {q};
      case _ =>
        assert Rivals(v, p) == Rivals(w, p);
    }
  }

  // Nine agings on, a task that still waits has seen at most as many pops of others as
  // there were rivals then: one pop more and it is gone.
  lemma NoStarvation(ws: seq<map<int, Task>>, es: seq<Event>, p: int, i: nat)
    requires IsRun(ws, es) && i <= |es| && p in ws[0] && Legal(ws[0])
    requires Later(es, ws[0][p].arrival) && Agings(es, 0, i) >= 9
    ensures p in ws[|es|] ==> p in ws[i] && Pops(es, i, |es|) <= |Rivals(ws[i], p)|
  {
    if p in ws[|es|] {
      RivalsLeave(ws, es, p, i, |es|);
    }
  }
}
