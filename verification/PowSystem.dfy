/** The proof-of-work queue under concurrency (powmgr/pow.go): enqueuers and any
    number of workers, each section under the mutex one atomic step. */
module PowSystem {
  /** What a worker is about to do: take an order, compute and then dequeue
      again, or start the completion callback. */
  datatype Phase<T> = Top | Computing(order: T) | Removed(order: T)

  /** `enqueued`, `completed` and `discarded` record the history. */
  datatype System<T> = System(
    queue: seq<T>,
    workers: seq<Phase<T>>,
    enqueued: seq<T>,
    completed: seq<T>,
    discarded: seq<T>)

  datatype Step<T> =
    | Enqueue(order: T) // enqueue; starts a worker if the queue was empty
    | Take(w: nat)      // the dequeue at the top of the loop; the worker ends on an empty queue
    | Drop(w: nat)      // the dequeue after the work is done
    | Complete(w: nat)  // the start of the completion callback

  function Init<T>(): System<T> {
    System([], [], [], [], [])
  }

  predicate Enabled<T>(s: System<T>, step: Step<T>) {
    match step
    case Enqueue(_) => true
    case Take(w) => w < |s.workers| && s.workers[w].Top?
    case Drop(w) => w < |s.workers| && s.workers[w].Computing?
    case Complete(w) => w < |s.workers| && s.workers[w].Removed?
  }

  function Next<T>(s: System<T>, step: Step<T>): System<T>
    requires Enabled(s, step)
  {
    match step
    case Enqueue(order) =>
      s.(queue := s.queue + [order], enqueued := s.enqueued + [order],
         workers := if s.queue == [] then s.workers + [Top] else s.workers)
    case Take(w) =>
      if s.queue == [] then s.(workers := s.workers[..w] + s.workers[w + 1..])
      else s.(queue := s.queue[1..], workers := s.workers[w := Computing(s.queue[0])])
    case Drop(w) =>
      var t := s.(workers := s.workers[w := Removed(s.workers[w].order)]);
      if s.queue == [] then t
      else t.(queue := s.queue[1..], discarded := s.discarded + [s.queue[0]])
    case Complete(w) =>
      s.(workers := s.workers[w := Top], completed := s.completed + [s.workers[w].order])
  }

  /** A run: every step is enabled where it is taken. */
  ghost predicate Runs<T>(s: System<T>, steps: seq<Step<T>>, t: System<T>)
    decreases |steps|
  {
    if steps == [] then s == t
    else Enabled(s, steps[0]) && Runs(Next(s, steps[0]), steps[1..], t)
  }

  // What every step keeps.

  /** How many workers hold the order x. */
  ghost function Tally<T>(workers: seq<Phase<T>>, x: T): nat {
    if workers == [] then 0 else Tally(workers[..|workers| - 1], x) + Holds(workers[|workers| - 1], x)
  }

  ghost function Holds<T>(p: Phase<T>, x: T): nat {
    if !p.Top? && p.order == x then 1 else 0
  }

  /** How many workers hold an order, and how many of them are past their second
      dequeue. */
  function Busy<T>(workers: seq<Phase<T>>): nat {
    if workers == [] then 0
    else Busy(workers[..|workers| - 1]) + if workers[|workers| - 1].Top? then 0 else 1
  }

  function Removing<T>(workers: seq<Phase<T>>): nat {
    if workers == [] then 0
    else Removing(workers[..|workers| - 1]) + if workers[|workers| - 1].Removed? then 1 else 0
  }

  ghost function Count<T>(q: seq<T>, x: T): nat {
    multiset(q)[x]
  }

  /** The order x is in as many places as it was enqueued times; a queue that is
      not empty has a worker; and no more orders are discarded than there were
      rounds of work. */
  ghost predicate Inv<T>(s: System<T>, x: T) {
    && Count(s.enqueued, x) == Count(s.queue, x) + Tally(s.workers, x) + Count(s.completed, x) + Count(s.discarded, x)
    && |s.enqueued| == |s.queue| + Busy(s.workers) + |s.completed| + |s.discarded|
    && (s.queue != [] ==> s.workers != [])
    && |s.discarded| <= |s.completed| + Removing(s.workers)
  }

  lemma {:induction false} SetWorker<T>(workers: seq<Phase<T>>, w: nat, p: Phase<T>, x: T)
    requires w < |workers|
    ensures var r, was := workers[w := p], workers[w];
      && Tally(r, x) + Holds(was, x) == Tally(workers, x) + Holds(p, x)
      && Busy(r) + (if was.Top? then 0 else 1) == Busy(workers) + (if p.Top? then 0 else 1)
      && Removing(r) + (if was.Removed? then 1 else 0) == Removing(workers) + (if p.Removed? then 1 else 0)
  {
    var n := |workers| - 1;
    var r := workers[w := p];
    if w == n {
      assert r[..n] == workers[..n];
    } else {
      SetWorker(workers[..n], w, p, x);
      assert r[..n] == workers[..n][w := p];
    }
  }

  lemma {:induction false} CutWorker<T>(workers: seq<Phase<T>>, w: nat, x: T)
    requires w < |workers| && workers[w].Top?
    ensures var r := workers[..w] + workers[w + 1..];
      Tally(r, x) == Tally(workers, x) && Busy(r) == Busy(workers) && Removing(r) == Removing(workers)
  {
    var n := |workers| - 1;
    var r := workers[..w] + workers[w + 1..];
    if w == n {
      assert r == workers[..n];
    } else {
      var front := workers[..n];
      CutWorker(front, w, x);
      assert r[..n - 1] == front[..w] + front[w + 1..];
      assert r[n - 1] == workers[n];
    }
  }

  lemma StartWorker<T>(workers: seq<Phase<T>>, x: T)
    ensures var r := workers + [Top];
      Tally(r, x) == Tally(workers, x) && Busy(r) == Busy(workers) && Removing(r) == Removing(workers)
  {
    assert (workers + [Top])[..|workers|] == workers;
  }

  lemma Shift<T>(q: seq<T>, x: T)
    requires q != []
    ensures Count(q, x) == Count(q[1..], x) + if q[0] == x then 1 else 0
  {
    assert q == [q[0]] + q[1..];
  }

  lemma Append<T>(q: seq<T>, y: T, x: T)
    ensures Count(q + [y], x) == Count(q, x) + if y == x then 1 else 0
  {
  }

  lemma NextKeepsInv<T>(s: System<T>, step: Step<T>, x: T)
    requires Inv(s, x) && Enabled(s, step)
    ensures Inv(Next(s, step), x)
  {
    hide Tally, Busy, Removing, Count;
    match step
    case Enqueue(order) =>
      StartWorker(s.workers, x);
      Append(s.queue, order, x);
      Append(s.enqueued, order, x);
    case Take(w) =>
      if s.queue == [] {
        CutWorker(s.workers, w, x);
      } else {
        SetWorker(s.workers, w, Computing(s.queue[0]), x);
        Shift(s.queue, x);
      }
    case Drop(w) =>
      SetWorker(s.workers, w, Removed(s.workers[w].order), x);
      if s.queue != [] {
        Shift(s.queue, x);
        Append(s.discarded, s.queue[0], x);
      }
    case Complete(w) =>
      SetWorker(s.workers, w, Top, x);
      Append(s.completed, s.workers[w].order, x);
  }

  lemma {:induction false} RunKeepsInv<T>(s: System<T>, steps: seq<Step<T>>, t: System<T>, x: T)
    requires Inv(s, x) && Runs(s, steps, t)
    ensures Inv(t, x)
    decreases |steps|
  {
    if steps != [] {
      NextKeepsInv(s, steps[0], x);
      RunKeepsInv(Next(s, steps[0]), steps[1..], t, x);
    }
  }

  /** In every run a non-empty queue has a live worker, each enqueued order is in
      exactly one of queued, in progress, completed or discarded, and so the
      callback of an order that is enqueued once runs at most once. */
  lemma EveryRun<T>(steps: seq<Step<T>>, t: System<T>, x: T)
    requires Runs(Init(), steps, t)
    ensures t.queue != [] ==> t.workers != []
    ensures Count(t.queue, x) + Tally(t.workers, x) + Count(t.completed, x) + Count(t.discarded, x)
         == Count(t.enqueued, x)
    ensures Count(t.enqueued, x) <= 1 ==> Count(t.completed, x) <= 1
  {
    RunKeepsInv(Init(), steps, t, x);
  }

  // First in, first out.

  /** The number of orders that have left the queue. */
  function Left<T>(s: System<T>): int {
    |s.enqueued| - |s.queue|
  }

  /** The queue holds the orders enqueued last. */
  ghost predicate Fifo<T>(s: System<T>) {
    0 <= Left(s) && s.queue == s.enqueued[Left(s)..]
  }

  lemma {:induction false} RunFifo<T>(s: System<T>, steps: seq<Step<T>>, t: System<T>)
    requires Fifo(s) && Runs(s, steps, t)
    ensures Fifo(t)
    decreases |steps|
  {
    if steps != [] {
      NextFifo(s, steps[0]);
      RunFifo(Next(s, steps[0]), steps[1..], t);
    }
  }

  /** What leaves the queue in a step is the oldest order in it: it is taken up by the
      worker at the top of its loop, and discarded by the second dequeue. */
  lemma NextFifo<T>(s: System<T>, step: Step<T>)
    requires Fifo(s) && Enabled(s, step)
    ensures var t := Next(s, step);
      && Fifo(t)
      && Left(t) == Left(s) + (if (step.Take? || step.Drop?) && s.queue != [] then 1 else 0)
      && t.enqueued == s.enqueued + (if step.Enqueue? then [step.order] else [])
      && (step.Take? && s.queue != [] ==> t.workers == s.workers[step.w := Computing(s.enqueued[Left(s)])])
      && t.discarded == s.discarded + (if step.Drop? && s.queue != [] then [s.enqueued[Left(s)]] else [])
      && t.completed == s.completed + (if step.Complete? then [s.workers[step.w].order] else [])
  {
  }

  /** In every interleaving the orders leave the queue in the order in which they were
      enqueued. */
  lemma FirstInFirstOut<T>(steps: seq<Step<T>>, t: System<T>)
    requires Runs(Init(), steps, t)
    ensures |t.queue| <= |t.enqueued| && t.queue == t.enqueued[|t.enqueued| - |t.queue|..]
  {
    RunFifo(Init(), steps, t);
  }

  // Termination and what is lost.

  function Cost<T>(p: Phase<T>): nat {
    match p case Top => 1 case Computing(_) => 3 case Removed(_) => 2
  }

  function Effort<T>(workers: seq<Phase<T>>): nat {
    if workers == [] then 0 else Effort(workers[..|workers| - 1]) + Cost(workers[|workers| - 1])
  }

  lemma {:induction false} SetEffort<T>(workers: seq<Phase<T>>, w: nat, p: Phase<T>)
    requires w < |workers|
    ensures Effort(workers[w := p]) + Cost(workers[w]) == Effort(workers) + Cost(p)
  {
    var n := |workers| - 1;
    var r := workers[w := p];
    if w == n {
      assert r[..n] == workers[..n];
    } else {
      SetEffort(workers[..n], w, p);
      assert r[..n] == workers[..n][w := p];
    }
  }

  lemma {:induction false} CutEffort<T>(workers: seq<Phase<T>>, w: nat)
    requires w < |workers|
    ensures Effort(workers[..w] + workers[w + 1..]) + Cost(workers[w]) == Effort(workers)
  {
    var n := |workers| - 1;
    var r := workers[..w] + workers[w + 1..];
    if w == n {
      assert r == workers[..n];
    } else {
      var front := workers[..n];
      CutEffort(front, w);
      assert r[..n - 1] == front[..w] + front[w + 1..];
      assert r[n - 1] == workers[n];
    }
  }

  /** What the workers still have to do. */
  function Work<T>(s: System<T>): nat {
    4 * |s.queue| + Effort(s.workers)
  }

  /** An enqueue adds at most five units of work; every other step does some. */
  lemma StepWorks<T>(s: System<T>, step: Step<T>)
    requires Enabled(s, step)
    ensures if step.Enqueue? then Work(Next(s, step)) <= Work(s) + 5 else Work(Next(s, step)) < Work(s)
  {
    var t := Next(s, step);
    match step
    case Enqueue(order) =>
      if s.queue == [] { assert t.workers[..|s.workers|] == s.workers; }
    case Take(w) =>
      if s.queue == [] { CutEffort(s.workers, w); } else { SetEffort(s.workers, w, Computing(s.queue[0])); }
    case Drop(w) =>
      SetEffort(s.workers, w, Removed(s.workers[w].order));
    case Complete(w) =>
      SetEffort(s.workers, w, Top);
  }

  function Enqueues<T>(steps: seq<Step<T>>): nat {
    if steps == [] then 0 else (if steps[0].Enqueue? then 1 else 0) + Enqueues(steps[1..])
  }

  /** However the steps are interleaved, there are at most five worker steps for
      each enqueue. */
  lemma {:induction false} WorkersStop<T>(s: System<T>, steps: seq<Step<T>>, t: System<T>)
    requires Runs(s, steps, t)
    ensures |steps| - Enqueues(steps) + Work(t) <= Work(s) + 5 * Enqueues(steps)
    decreases |steps|
  {
    if steps != [] {
      StepWorks(s, steps[0]);
      WorkersStop(Next(s, steps[0]), steps[1..], t);
    }
  }

  /** A queue that is not empty has a worker. */
  predicate Live<T>(s: System<T>) {
    s.queue == [] || s.workers != []
  }

  /** The step that a worker is about to take. */
  function StepOf<T>(p: Phase<T>, w: nat): Step<T> {
    match p case Top => Take(w) case Computing(_) => Drop(w) case Removed(_) => Complete(w)
  }

  /** From every such state the workers can go on until none is left, and then the
      queue is empty. WorkersStop says that they cannot go on for ever. */
  lemma {:induction false} Drains<T>(s: System<T>) returns (steps: seq<Step<T>>, t: System<T>)
    requires Live(s)
    ensures Runs(s, steps, t) && Enqueues(steps) == 0 && t.workers == [] && t.queue == []
    decreases Work(s)
  {
    if s.workers == [] {
      steps, t := [], s;
    } else {
      var step := StepOf(s.workers[0], 0);
      StepWorks(s, step);
      var rest;
      rest, t := Drains(Next(s, step));
      steps := [step] + rest;
      assert steps[1..] == rest;
    }
  }

  /** When the workers have stopped, every order was either completed or
      discarded, and at least half of them were completed. */
  lemma AtLeastHalf<T>(steps: seq<Step<T>>, t: System<T>, x: T)
    requires Runs(Init(), steps, t) && t.workers == []
    ensures Count(t.enqueued, x) == Count(t.completed, x) + Count(t.discarded, x)
    ensures |t.enqueued| <= 2 * |t.completed|
  {
    RunKeepsInv(Init(), steps, t, x);
  }

  predicate SomeComputing<T>(workers: seq<Phase<T>>) {
    exists w :: 0 <= w < |workers| && workers[w].Computing?
  }

  /** An order waits, and there is a worker in a round of work or another order. */
  predicate AtRisk<T>(s: System<T>) {
    s.queue != [] && (SomeComputing(s.workers) || |s.queue| >= 2)
  }

  /** Nothing waits, and no worker is in a round of work. */
  predicate Idle<T>(s: System<T>) {
    s.queue == [] && !SomeComputing(s.workers)
  }

  /** Every enqueue of the run is made in an idle state. */
  ghost predicate Polite<T>(s: System<T>, steps: seq<Step<T>>)
    decreases |steps|
  {
    steps != [] && Enabled(s, steps[0]) ==>
      (steps[0].Enqueue? ==> Idle(s)) && Polite(Next(s, steps[0]), steps[1..])
  }

  /** In every run, however interleaved, in which orders are enqueued in idle states
      only, no order is lost. */
  lemma {:induction false} PoliteRunsLoseNothing<T>(s: System<T>, steps: seq<Step<T>>, t: System<T>)
    requires Runs(s, steps, t) && Polite(s, steps) && !AtRisk(s)
    ensures t.discarded == s.discarded && !AtRisk(t)
    decreases |steps|
  {
    if steps != [] {
      SafeStep(s, steps[0]);
      PoliteRunsLoseNothing(Next(s, steps[0]), steps[1..], t);
    }
  }

  lemma SafeStep<T>(s: System<T>, step: Step<T>)
    requires Enabled(s, step) && !AtRisk(s) && (step.Enqueue? ==> Idle(s))
    ensures !AtRisk(Next(s, step)) && Next(s, step).discarded == s.discarded
  {
  }

  lemma {:induction false} WithoutEnqueues<T>(s: System<T>, steps: seq<Step<T>>)
    requires Enqueues(steps) == 0
    ensures Polite(s, steps)
    decreases |steps|
  {
    if steps != [] && Enabled(s, steps[0]) { WithoutEnqueues(Next(s, steps[0]), steps[1..]); }
  }

  lemma Prepend<T>(s: System<T>, step: Step<T>, steps: seq<Step<T>>, t: System<T>)
    requires Enabled(s, step) && !step.Enqueue? && Runs(Next(s, step), steps, t) && Enqueues(steps) == 0
    ensures Runs(s, [step] + steps, t) && Enqueues([step] + steps) == 0
  {
    assert ([step] + steps)[1..] == steps;
  }

  lemma CanLose<T>(s: System<T>) returns (steps: seq<Step<T>>, t: System<T>)
    requires Live(s) && AtRisk(s)
    ensures Runs(s, steps, t) && Enqueues(steps) == 0 && |t.discarded| == |s.discarded| + 1
  {
    if w :| 0 <= w < |s.workers| && s.workers[w].Computing? {
      t := Next(s, Drop(w));
      Prepend(s, Drop(w), [], t);
      steps := [Drop(w)] + [];
    } else if s.workers[0].Top? {
      steps, t := TakeAndLose(s);
    } else {
      var rest;
      rest, t := TakeAndLose(Next(s, Complete(0)));
      Prepend(s, Complete(0), rest, t);
      steps := [Complete(0)] + rest;
    }
  }

  lemma TakeAndLose<T>(s: System<T>) returns (steps: seq<Step<T>>, t: System<T>)
    requires s.workers != [] && s.workers[0].Top? && |s.queue| >= 2
    ensures Runs(s, steps, t) && Enqueues(steps) == 0 && |t.discarded| == |s.discarded| + 1
  {
    var s1 := Next(s, Take(0));
    t := Next(s1, Drop(0));
    Prepend(s1, Drop(0), [], t);
    Prepend(s, Take(0), [Drop(0)] + [], t);
    steps := [Take(0)] + ([Drop(0)] + []);
  }

  /** With nothing more enqueued, the workers may lose an order if and only if one
      is waiting, and a worker is in a round of work or a second one is waiting. */
  lemma LossPossible<T(!new)>(s: System<T>)
    requires Live(s)
    ensures AtRisk(s) <==>
      exists steps: seq<Step<T>>, t: System<T> ::
        Runs(s, steps, t) && Enqueues(steps) == 0 && t.discarded != s.discarded
  {
    if AtRisk(s) {
      var steps, t := CanLose(s);
      assert t.discarded != s.discarded;
    } else {
      forall steps: seq<Step<T>>, t: System<T> | Runs(s, steps, t) && Enqueues(steps) == 0
        ensures t.discarded == s.discarded
      {
        WithoutEnqueues(s, steps);
        PoliteRunsLoseNothing(s, steps, t);
      }
    }
  }

  /** What an enqueuer can test before: a further order is safe, and puts none at
      risk, if and only if the state is idle. */
  lemma EnqueueSafe<T(!new)>(s: System<T>, order: T)
    requires Live(s)
    ensures Idle(s) <==>
      forall steps: seq<Step<T>>, t: System<T> ::
        Runs(Next(s, Enqueue(order)), steps, t) && Enqueues(steps) == 0 ==> t.discarded == s.discarded
  {
    var q := Next(s, Enqueue(order));
    LossPossible(q);
    assert SomeComputing(q.workers) <==> SomeComputing(s.workers) by {
      if w :| 0 <= w < |q.workers| && q.workers[w].Computing? { assert s.workers[w].Computing?; }
      if w :| 0 <= w < |s.workers| && s.workers[w].Computing? { assert q.workers[w].Computing?; }
    }
  }

  /** Two orders, one worker: the second is lost. */
  lemma SecondOrderLost<T>(a: T, b: T) returns (t: System<T>)
    ensures Runs(Init(), [Enqueue(a), Enqueue(b), Take(0), Drop(0), Complete(0), Take(0)], t)
    ensures t.queue == [] && t.workers == [] && t.completed == [a] && t.discarded == [b]
  {
    var s0: System<T> := Init();
    var s1 := Next(s0, Enqueue(a));
    var s2 := Next(s1, Enqueue(b));
    var s3 := Next(s2, Take(0));
    var s4 := Next(s3, Drop(0));
    var s5 := Next(s4, Complete(0));
    t := Next(s5, Take(0));
    var steps := [Enqueue(a), Enqueue(b), Take(0), Drop(0), Complete(0), Take(0)];
    assert Runs(t, steps[6..], t);
    assert Runs(s5, steps[5..], t) by { assert steps[5..][1..] == steps[6..]; }
    assert Runs(s4, steps[4..], t) by { assert steps[4..][1..] == steps[5..]; }
    assert Runs(s3, steps[3..], t) by { assert steps[3..][1..] == steps[4..]; }
    assert Runs(s2, steps[2..], t) by { assert steps[2..][1..] == steps[3..]; }
    assert Runs(s1, steps[1..], t) by { assert steps[1..][1..] == steps[2..]; }
    assert Runs(s0, steps, t) by { assert steps[0..] == steps; }
  }
}
