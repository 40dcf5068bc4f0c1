/** The proof-of-work manager over its linked list (powmgr/pow.go): each section under
    the mutex does to the list what the step of the transition system does. */
module PowRuns {
  import opened PowQueue
  import opened PowSystem

  class Manager<T> {
    const queue: Queue<T>
    var workers: seq<Phase<T>>

    ghost var enqueued: seq<T>
    ghost var completed: seq<T>
    ghost var discarded: seq<T>

    ghost function Footprint(): set<object>
      reads this, queue
    {
      {this, queue} + set n | n in queue.nodes
    }

    ghost predicate Valid()
      reads Footprint()
    {
      queue.Valid()
    }

    ghost function State(): System<T>
      reads this, queue
    {
      System(queue.Contents(), workers, enqueued, completed, discarded)
    }

    constructor ()
      ensures Valid() && State() == Init() && fresh(Footprint())
    {
      queue := new Queue();
      workers, enqueued, completed, discarded := [], [], [], [];
    }

    method Enqueue(order: T)
      requires Valid()
      modifies Footprint()
      ensures Valid() && State() == Next(old(State()), Step.Enqueue(order))
      ensures fresh(Footprint() - old(Footprint()))
    {
      hide Queue.Valid;
      var startWorker := queue.Enqueue(order);
      enqueued := enqueued + [order];
      if startWorker {
        workers := workers + [Top];
      }
    }

    /** The dequeue at the top of a worker's loop. */
    method Take(w: nat)
      requires Valid() && Enabled(State(), Step.Take(w))
      modifies Footprint()
      ensures Valid() && State() == Next(old(State()), Step.Take(w))
      ensures fresh(Footprint() - old(Footprint()))
    {
      hide Queue.Valid;
      var order := queue.Dequeue();
      if order.Nothing? {
        workers := workers[..w] + workers[w + 1..];
        return;
      }
      workers := workers[w := Computing(order.order)];
    }

    /** The dequeue after a worker's job. */
    method Drop(w: nat)
      requires Valid() && Enabled(State(), Step.Drop(w))
      modifies Footprint()
      ensures Valid() && State() == Next(old(State()), Step.Drop(w))
      ensures fresh(Footprint() - old(Footprint()))
    {
      hide Queue.Valid;
      var lost := queue.Dequeue();
      workers := workers[w := Removed(workers[w].order)];
      if lost.Order? {
        discarded := discarded + [lost.order];
      }
    }

    method Complete(w: nat)
      requires Valid() && Enabled(State(), Step.Complete(w))
      modifies this
      ensures Valid() && State() == Next(old(State()), Step.Complete(w)) && Footprint() == old(Footprint())
    {
      completed := completed + [workers[w].order];
      workers := workers[w := Top];
    }
  }

  method Perform<T>(mgr: Manager<T>, step: Step<T>)
    requires mgr.Valid() && Enabled(mgr.State(), step)
    modifies mgr.Footprint()
    ensures mgr.Valid() && mgr.State() == Next(old(mgr.State()), step)
    ensures fresh(mgr.Footprint() - old(mgr.Footprint()))
  {
    match step {
      case Enqueue(order) => mgr.Enqueue(order);
      case Take(w) => mgr.Take(w);
      case Drop(w) => mgr.Drop(w);
      case Complete(w) => mgr.Complete(w);
    }
  }

  /** Any interleaving, from any state, on the list: it ends in the state that the
      transition system ends in. */
  method Replay<T>(mgr: Manager<T>, steps: seq<Step<T>>, ghost t: System<T>)
    requires mgr.Valid() && Runs(mgr.State(), steps, t)
    modifies mgr.Footprint()
    ensures mgr.Valid() && mgr.State() == t
    ensures fresh(mgr.Footprint() - old(mgr.Footprint()))
    decreases |steps|
  {
    hide PowSystem.Next;
    if |steps| > 0 {
      Perform(mgr, steps[0]);
      Replay(mgr, steps[1..], t);
    }
  }

  /** From the start, the list then holds the orders enqueued last, in their order. */
  method ReplayFromStart<T>(steps: seq<Step<T>>, ghost t: System<T>) returns (mgr: Manager<T>)
    requires Runs(Init(), steps, t)
    ensures mgr.Valid() && mgr.State() == t
    ensures var q := mgr.queue.Contents();
      |q| <= |mgr.enqueued| && q == mgr.enqueued[|mgr.enqueued| - |q|..]
  {
    FirstInFirstOut(steps, t);
    mgr := new Manager();
    Replay(mgr, steps, t);
  }
}
