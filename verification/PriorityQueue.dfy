/** The in-process priority queue: per-key serial execution over one heap and many workers. */
module PriorityQueue {
  import opened Jobs

  /** A heap entry; `seq` is the submission number, unique per queue. */
  datatype Task = Task(priority: int, number: nat, key: Option<string>)

  predicate Less(a: Task, b: Task) {
    a.priority < b.priority || (a.priority == b.priority && a.number < b.number)
  }

  /** The heap as the order in which `heappop` would empty it. */
  ghost predicate Sorted(heap: seq<Task>) {
    forall i, j | 0 <= i < j < |heap| :: Less(heap[i], heap[j])
  }

  /** `heappush`. */
  function Insert(heap: seq<Task>, t: Task): seq<Task> {
    if heap == [] || Less(t, heap[0]) then [t] + heap else [heap[0]] + Insert(heap[1..], t)
  }

  lemma {:induction false} InsertBetween(a: seq<Task>, t: Task, b: seq<Task>)
    requires Sorted(a + [t] + b)
    ensures Insert(a + b, t) == a + [t] + b
  {
    var all := a + [t] + b;
    if a == [] {
      assert a + b == b && all == [t] + b;
      if b != [] { assert Less(all[0], all[1]); }
    } else {
      assert Less(all[0], all[|a|]);
      assert (a + b)[1..] == a[1..] + b;
      assert all[1..] == a[1..] + [t] + b;
      InsertBetween(a[1..], t, b);
    }
  }

  predicate Free(t: Task, busy: set<string>) {
    t.key.None? || t.key.value !in busy
  }

  /** The position of the least task whose key is free, or the length of the heap. */
  function FirstFree(heap: seq<Task>, busy: set<string>): (i: nat)
    ensures i <= |heap|
    ensures forall k | 0 <= k < i :: !Free(heap[k], busy)
    ensures i < |heap| ==> Free(heap[i], busy)
  {
    if heap == [] || Free(heap[0], busy) then 0 else 1 + FirstFree(heap[1..], busy)
  }

  function Occupy(busy: set<string>, t: Task): set<string> {
    if t.key.Some? then busy + {t.key.value} else busy
  }

  function Vacate(busy: set<string>, t: Task): set<string> {
    if t.key.Some? then busy - {t.key.value} else busy
  }

  class SessionPriorityQueue {
    var heap: seq<Task>
    var nextNumber: nat
    var busy: set<string>
    var closed: bool
    var failures: nat

    constructor ()
      ensures heap == [] && nextNumber == 0 && busy == {} && !closed && failures == 0
    {
      heap, nextNumber, busy, closed, failures := [], 0, {}, false, 0;
    }

    /** `ok` is false where the source raises because the queue is closed. */
    method Submit(priority: int, key: Option<string>) returns (ok: bool)
      modifies this`heap, this`nextNumber
      ensures ok <==> !closed
      ensures ok ==> heap == Insert(old(heap), Task(priority, old(nextNumber), key)) && nextNumber == old(nextNumber) + 1
      ensures !ok ==> heap == old(heap) && nextNumber == old(nextNumber)
    {
      if closed {
        return false;
      }
      heap := Insert(heap, Task(priority, nextNumber, key));
      nextNumber := nextNumber + 1;
      return true;
    }

    /** Pops tasks until one with a free key turns up; `held` is what was popped before it. */
    method PopFree() returns (held: seq<Task>, t: Option<Task>)
      modifies this`heap
      ensures var i := FirstFree(old(heap), busy);
              && held == old(heap)[..i]
              && (if i < |old(heap)| then t == Some(old(heap)[i]) && heap == old(heap)[i + 1..] else t == None && heap == [])
    {
      ghost var all, first := heap, FirstFree(heap, busy);
      held, t := [], None;
      while heap != [] && t == None
        invariant |held| <= first && held == all[..|held|]
        invariant t.None? ==> heap == all[|held|..]
        invariant t.Some? ==> |held| == first < |all| && heap == all[first + 1..] && t.value == all[first]
        decreases |heap|, t == None
      {
        var item := heap[0];
        heap := heap[1..];
        if item.key.Some? && item.key.value in busy {
          held := held + [item];
        } else {
          t := Some(item);
        }
      }
    }

    /** Pushes the tasks that were popped over back onto the heap. */
    method PushBack(held: seq<Task>)
      requires Sorted(held + heap)
      modifies this`heap
      ensures heap == held + old(heap)
    {
      ghost var rest := heap;
      var i := 0;
      while i < |held|
        invariant 0 <= i <= |held|
        invariant heap == held[..i] + rest
      {
        assert held[..i] + [held[i]] + rest == held[..i + 1] + rest;
        SortedWithout(held, i, rest);
        InsertBetween(held[..i], held[i], rest);
        heap := Insert(heap, held[i]);
        i := i + 1;
      }
      assert held[..i] == held;
    }

    /** The least task whose key is free leaves the heap, and everything else stays where it was. */
    method Claim() returns (t: Option<Task>)
      requires Sorted(heap)
      modifies this`heap, this`busy
      ensures var i := FirstFree(old(heap), old(busy));
              if i < |old(heap)| then
                t == Some(old(heap)[i]) && heap == old(heap)[..i] + old(heap)[i + 1..] && busy == Occupy(old(busy), old(heap)[i])
              else
                t == None && heap == old(heap) && busy == old(busy)
    {
      ghost var all, first := heap, FirstFree(heap, busy);
      var held;
      held, t := PopFree();
      assert first == |all| ==> held + heap == all;
      PushBack(held);
      if t.Some? && t.value.key.Some? {
        busy := busy + {t.value.key.value};
      }
    }

    /** The worker's `finally`, after the task returned or raised. */
    method Finish(t: Task, raised: bool)
      modifies this`busy, this`failures
      ensures busy == Vacate(old(busy), t)
      ensures failures == old(failures) + if raised then 1 else 0
    {
      if raised {
        failures := failures + 1;
      }
      if t.key.Some? {
        busy := busy - {t.key.value};
      }
    }

    method Close()
      modifies this`closed
      ensures closed
    {
      closed := true;
    }
  }

  /**
   * What a claim takes has a free key, and every other such task has a larger priority number, or the same one and
   * came later; a claim takes nothing only when every key is busy.
   */
  lemma ClaimTakesLeastFree(heap: seq<Task>, busy: set<string>)
    requires Sorted(heap)
    ensures
      var i := FirstFree(heap, busy);
      if i < |heap| then
        && (heap[i].key.Some? ==> heap[i].key.value !in busy)
        && forall x | x in heap && x != heap[i] && (x.key.Some? ==> x.key.value !in busy) ::
             heap[i].priority < x.priority || (heap[i].priority == x.priority && heap[i].number < x.number)
      else forall x | x in heap :: x.key.Some? && x.key.value in busy
  {
  }

  lemma SortedWithout(held: seq<Task>, i: nat, rest: seq<Task>)
    requires i < |held| && Sorted(held + rest)
    ensures Sorted(held[..i] + [held[i]] + rest)
  {
    var all, some := held + rest, held[..i] + [held[i]] + rest;
    forall a, b | 0 <= a < b < |some| ensures Less(some[a], some[b]) {
      var a' := if a <= i then a else a - i - 1 + |held|;
      var b' := if b <= i then b else b - i - 1 + |held|;
      assert some[a] == all[a'] && some[b] == all[b'] && a' < b';
    }
  }

  /** The queue and everything its workers have taken, over a whole run. */
  datatype State = State(heap: seq<Task>, nextNumber: nat, busy: set<string>, closed: bool,
                         running: set<Task>, finished: seq<Task>, exited: bool)

  /** One critical section of a submitter or of a worker. */
  datatype Event = Submit(priority: int, key: Option<string>) | Claim | Finish(task: Task) | Close | Exit

  const INITIAL := State([], 0, {}, false, {}, [], false)

  function Step(s: State, e: Event): State {
    match e
    case Submit(priority, key) =>
      if s.closed then s
      else s.(heap := Insert(s.heap, Task(priority, s.nextNumber, key)), nextNumber := s.nextNumber + 1)
    case Claim =>
      var i := FirstFree(s.heap, s.busy);
      if i == |s.heap| then s
      else s.(heap := s.heap[..i] + s.heap[i + 1..], busy := Occupy(s.busy, s.heap[i]), running := s.running + {s.heap[i]})
    case Finish(t) =>
      if t !in s.running then s
      else s.(busy := Vacate(s.busy, t), running := s.running - {t}, finished := s.finished + [t])
    case Close => s.(closed := true)
    // A worker returns only where `_closed and not self._heap` holds.
    case Exit => if s.closed && s.heap == [] then s.(exited := true) else s
  }

  /** The queue object is in the state `s`, as far as it knows. */
  ghost predicate Shows(q: SessionPriorityQueue, s: State)
    reads q
  {
    q.heap == s.heap && q.nextNumber == s.nextNumber && q.busy == s.busy && q.closed == s.closed
  }

  /** Every critical section of the queue object is one step of the run. */
  method Perform(q: SessionPriorityQueue, e: Event, raised: bool, ghost s: State) returns (took: Option<Task>)
    requires Shows(q, s) && Sorted(s.heap) && (e.Finish? ==> e.task in s.running)
    modifies q
    ensures Shows(q, Step(s, e))
    ensures e.Claim? ==> Step(s, e).running == if took.Some? then s.running + {took.value} else s.running
  {
    took := None;
    match e {
      case Submit(priority, key) => var _ := q.Submit(priority, key);
      case Claim => took := q.Claim();
      case Finish(task) => q.Finish(task, raised);
      case Close => q.Close();
      case Exit =>
    }
  }

  function Run(es: seq<Event>): State {
    if es == [] then INITIAL else Step(Run(es[..|es| - 1]), es[|es| - 1])
  }

  predicate Taken(s: State, t: Task) {
    t in s.running || t in s.finished
  }

  predicate Known(s: State, t: Task) {
    t in s.heap || Taken(s, t)
  }

  ghost predicate SameLane(a: Task, b: Task) {
    a.key.Some? && a.key == b.key && a.priority == b.priority && a.number < b.number
  }

  /** Every submitted task is in exactly one place, under its own number. */
  ghost predicate Placed(s: State) {
    && Sorted(s.heap)
    && (forall t | Known(s, t) :: t.number < s.nextNumber)
    && (forall a, b | Known(s, a) && Known(s, b) && a.number == b.number :: a == b)
    && (forall t | t in s.heap :: !Taken(s, t))
    && (forall t | t in s.running :: t !in s.finished)
    && (forall i, j | 0 <= i < j < |s.finished| :: s.finished[i] != s.finished[j])
    && |s.heap| + |s.running| + |s.finished| == s.nextNumber
  }

  /** The busy keys are the keys of the running tasks, and no key has two. */
  ghost predicate Serial(s: State) {
    && (forall t | t in s.running && t.key.Some? :: t.key.value in s.busy)
    && (forall k | k in s.busy :: exists t :: t in s.running && t.key == Some(k))
    && (forall a, b | a in s.running && b in s.running && a.key.Some? && a.key == b.key :: a == b)
  }

  /** A task is taken only when every earlier task of its key and priority has finished; they finish in that order. */
  ghost predicate InOrder(s: State) {
    && (forall a, b | Known(s, a) && Taken(s, b) && SameLane(a, b) :: a in s.finished)
    && (forall i, j | 0 <= i < |s.finished| && 0 <= j < |s.finished| && SameLane(s.finished[i], s.finished[j]) :: i < j)
  }

  ghost predicate Inv(s: State) {
    Placed(s) && Serial(s) && InOrder(s) && (s.exited ==> s.closed && s.heap == [])
  }

  lemma {:induction false} InsertMeaning(heap: seq<Task>, t: Task)
    ensures |Insert(heap, t)| == |heap| + 1
    ensures forall x :: x in Insert(heap, t) <==> x == t || x in heap
    ensures Sorted(heap) && (forall x | x in heap :: x.number != t.number) ==> Sorted(Insert(heap, t))
  {
    if heap != [] && !Less(t, heap[0]) {
      InsertMeaning(heap[1..], t);
      if Sorted(heap) && forall x | x in heap :: x.number != t.number {
        assert forall x | x in heap[1..] :: Less(heap[0], x);
        assert forall x | x in Insert(heap[1..], t) :: Less(heap[0], x);
      }
    }
  }

  lemma SubmitKeeps(s: State, priority: int, key: Option<string>)
    requires Inv(s)
    ensures Inv(Step(s, Submit(priority, key)))
  {
    var t := Task(priority, s.nextNumber, key);
    InsertMeaning(s.heap, t);
  }

  lemma RemoveMeaning(heap: seq<Task>, i: nat)
    requires Sorted(heap) && i < |heap|
    ensures var rest := heap[..i] + heap[i + 1..];
            && Sorted(rest) && heap[i] !in rest && heap[i] in heap
            && forall x :: x in heap <==> x in rest || x == heap[i]
  {
    var rest := heap[..i] + heap[i + 1..];
    forall k | 0 <= k < |rest| ensures rest[k] == heap[if k < i then k else k + 1] {}
    forall x | x in heap && x != heap[i] ensures x in rest {
      var k :| 0 <= k < |heap| && heap[k] == x;
      assert rest[if k < i then k else k - 1] == x;
    }
  }

  lemma ClaimSplits(s: State)
    requires Inv(s) && FirstFree(s.heap, s.busy) < |s.heap|
    ensures
      var i := FirstFree(s.heap, s.busy);
      var s' := Step(s, Claim);
      && Sorted(s'.heap) && |s'.heap| + 1 == |s.heap|
      && s.heap[i] !in s'.heap && (forall x :: x in s.heap <==> x in s'.heap || x == s.heap[i])
      && s'.running == s.running + {s.heap[i]} && |s'.running| == |s.running| + 1
      && forall x :: Known(s', x) <==> Known(s, x)
  {
    var i := FirstFree(s.heap, s.busy);
    RemoveMeaning(s.heap, i);
    assert !Taken(s, s.heap[i]);
  }

  lemma ClaimKeeps(s: State)
    requires Inv(s)
    ensures Inv(Step(s, Claim))
  {
    if FirstFree(s.heap, s.busy) < |s.heap| {
      ClaimKeepsPlaced(s);
      ClaimKeepsSerial(s);
      ClaimKeepsOrder(s);
    }
  }

  lemma ClaimKeepsPlaced(s: State)
    requires Inv(s) && FirstFree(s.heap, s.busy) < |s.heap|
    ensures Placed(Step(s, Claim))
  {
    ClaimSplits(s);
  }

  lemma ClaimKeepsSerial(s: State)
    requires Inv(s) && FirstFree(s.heap, s.busy) < |s.heap|
    ensures Serial(Step(s, Claim))
  {
    var t, s' := s.heap[FirstFree(s.heap, s.busy)], Step(s, Claim);
    assert s'.running == s.running + {t};
    forall k | k in s'.busy ensures exists x :: x in s'.running && x.key == Some(k) {
      if k in s.busy {
        var x :| x in s.running && x.key == Some(k);
        assert x in s'.running;
      } else {
        assert t in s'.running && t.key == Some(k);
      }
    }
  }

  lemma ClaimKeepsOrder(s: State)
    requires Inv(s) && FirstFree(s.heap, s.busy) < |s.heap|
    ensures InOrder(Step(s, Claim))
  {
    var b := s.heap[FirstFree(s.heap, s.busy)];
    var s' := Step(s, Claim);
    ClaimSplits(s);
    ClaimTakesLeastFree(s.heap, s.busy);
    forall a | Known(s', a) && SameLane(a, b) ensures a in s.finished {
      assert Known(s, a);
    }
  }

  lemma FinishKeeps(s: State, t: Task)
    requires Inv(s) && t in s.running
    ensures Inv(Step(s, Finish(t)))
  {
    var s' := Step(s, Finish(t));
    assert forall x :: Known(s', x) <==> Known(s, x);
    forall k | k in s'.busy ensures exists x :: x in s'.running && x.key == Some(k) {
      var x :| x in s.running && x.key == Some(k);
      assert x in s'.running;
    }
    FinishKeepsOrder(s, t);
  }

  lemma FinishKeepsOrder(s: State, t: Task)
    requires Inv(s) && t in s.running
    ensures InOrder(Step(s, Finish(t)))
  {
    var s' := Step(s, Finish(t));
    assert s'.finished == s.finished + [t];
    assert Taken(s, t);
    forall a, b | Known(s', a) && Taken(s', b) && SameLane(a, b) ensures a in s'.finished {
      assert Known(s, a) && Taken(s, b);
    }
    forall j | 0 <= j < |s.finished| ensures !SameLane(t, s.finished[j]) { NotBehind(s, t, j); }
    forall i, j | 0 <= i < |s'.finished| && 0 <= j < |s'.finished| && SameLane(s'.finished[i], s'.finished[j]) ensures i < j {
    }
  }

  /** A running task is not ahead of a finished one of its lane. */
  lemma NotBehind(s: State, t: Task, j: nat)
    requires Inv(s) && t in s.running && j < |s.finished|
    ensures !SameLane(t, s.finished[j])
  {
    assert Known(s, t) && Taken(s, s.finished[j]);
  }

  /** Every reachable state, for any submitters and any number of workers in any interleaving. */
  lemma {:induction false} InvHolds(es: seq<Event>)
    ensures Inv(Run(es))
  {
    if es != [] {
      var s, e := Run(es[..|es| - 1]), es[|es| - 1];
      InvHolds(es[..|es| - 1]);
      match e
      case Submit(priority, key) => SubmitKeeps(s, priority, key);
      case Claim => ClaimKeeps(s);
      case Finish(t) => if t in s.running { FinishKeeps(s, t); }
      case Close =>
      case Exit =>
    }
  }

  /** At most one task of a key runs at any time. */
  lemma KeysRunSerially(es: seq<Event>, a: Task, b: Task)
    requires a in Run(es).running && b in Run(es).running && a.key.Some? && a.key == b.key
    ensures a == b
  {
    InvHolds(es);
  }

  /** Tasks of one key and priority finish in the order in which they were submitted, without gaps. */
  lemma LanesFinishInOrder(es: seq<Event>, a: Task, j: nat)
    requires j < |Run(es).finished| && Known(Run(es), a) && SameLane(a, Run(es).finished[j])
    ensures exists i :: 0 <= i < j && Run(es).finished[i] == a
  {
    InvHolds(es);
    var s := Run(es);
    assert Taken(s, s.finished[j]);
    var i :| 0 <= i < |s.finished| && s.finished[i] == a;
  }

  /** Nothing is lost or duplicated: what was submitted is queued, running or finished. */
  lemma TasksAreConserved(es: seq<Event>)
    ensures Run(es).nextNumber == |Run(es).heap| + |Run(es).running| + |Run(es).finished|
  {
    InvHolds(es);
  }

  /** A worker exits exactly where the queue is closed and drained. */
  lemma WorkersMayExitIff(es: seq<Event>)
    requires !Run(es).exited
    ensures Run(es + [Exit]).exited <==> Run(es).closed && Run(es).heap == []
  {
    assert (es + [Exit])[..|es|] == es;
  }

  /** A worker that has exited saw a closed and drained queue, and the queue stays closed and drained. */
  lemma WorkersExitOnlyWhenDrained(es: seq<Event>)
    requires Run(es).exited
    ensures Run(es).closed && Run(es).heap == []
  {
    InvHolds(es);
  }
}
