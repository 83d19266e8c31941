/** The queueMu sections of Manager in pkg/apk/apk.go as methods over mutable
    state, each proved against the function the step system of ApkScheduler uses. */
module ApkManager {
  import opened Prelude
  import opened ApkScheduler

  class Operation {
    const id: string
    var state: OpState

    constructor (id: string, state: OpState)
      ensures this.id == id && this.state == state
    {
      this.id := id;
      this.state := state;
    }

    /** The last statements of runMutating and runQueued, after queueMu is released. */
    method Publish(ok: bool)
      modifies this`state
      ensures state == (if ok then Completed else Failed) && Final(state)
    {
      if !ok {
        state := Failed;
      } else {
        state := Completed;
      }
    }
  }

  class Manager {
    var running: Operation?
    var queue: seq<Operation>
    var history: seq<Operation>
    const lim: Limits

    constructor (lim: Limits)
      ensures View() == Core(None, [], []) && this.lim == lim
    {
      this.lim := lim;
      running := null;
      queue, history := [], [];
    }

    /** The guarded fields as a value. */
    ghost function View(): Core<Operation>
      reads this
    {
      Core(if running == null then None else Some(running), queue, history)
    }

    /** The order in which GetOperation searches. */
    ghost function Known(): seq<Operation>
      reads this
    {
      OptSeq(View().running) + queue + history
    }

    ghost predicate IsFirst(id: string, op: Operation, k: nat)
      requires k < |Known()|
      reads this
    {
      Known()[k] == op && forall j :: 0 <= j < k ==> Known()[j].id != id
    }

    method ArchiveOp(op: Operation?)
      modifies this`history
      ensures op == null ==> history == old(history)
      ensures op != null ==>
        var all := old(history) + [op];
        history == if |all| > lim.maxHistory then all[|all| - lim.maxHistory..] else all
      ensures history == Archive(old(history), if op == null then None else Some(op), lim.maxHistory)
    {
      if op == null {
        return;
      }
      history := history + [op];
      if |history| > lim.maxHistory {
        history := history[|history| - lim.maxHistory..];
      }
    }

    method FlushQueue() returns (n: nat)
      modifies this`queue
      ensures queue == [] && n == |old(queue)|
      ensures View() == Flush(old(View()))
    {
      n := |queue|;
      queue := [];
    }

    /** The first section of runMutating. A null result is the queue-full error; an operation
        in state Pending was queued; one in state Running is to be executed by the caller. */
    method Submit(id: string) returns (op: Operation?)
      modifies this
      ensures op == null <==> old(running) != null && |old(queue)| >= lim.maxQueue
      ensures history == old(history)
      ensures op == null ==> running == old(running) && queue == old(queue)
      ensures op != null ==> fresh(op) && op.id == id
      ensures op != null && old(running) == null ==>
        op.state == Running && running == op && queue == old(queue)
      ensures op != null && old(running) != null ==>
        op.state == Pending && running == old(running) && queue == old(queue) + [op]
      ensures op != null ==> View() == Admit(old(View()), op, lim)
      ensures op == null <==> Decide(old(View()), lim) == Refused
    {
      if running != null {
        if |queue| >= lim.maxQueue {
          return null;
        }
        op := new Operation(id, Pending);
        queue := queue + [op];
        return;
      }
      op := new Operation(id, Running);
      running := op;
    }

    /** The section that ends both runMutating and runQueued. A non-null result is the
        promoted operation, for which a new worker is started. */
    method FinishSection() returns (next: Operation?)
      modifies this, queue
      ensures next == running && (next == null <==> old(queue) == [])
      ensures next != null ==> next.state == Running && old(queue) == [next] + queue
      ensures next == null ==> queue == []
      ensures old(running) == null ==> history == old(history)
      ensures old(running) != null ==>
        var all := old(history) + [old(running)];
        history == if |all| > lim.maxHistory then all[|all| - lim.maxHistory..] else all
      ensures View() == Retire(old(View()), lim)
      ensures forall o :: o in old(queue) && o != next ==> o.state == old(o.state)
    {
      ArchiveOp(running);
      running := null;
      next := null;
      if |queue| > 0 {
        next := queue[0];
        queue := queue[1..];
        running := next;
        next.state := Running;
      }
    }

    /** The first operation carrying the identifier, looking at the running slot,
        then the queue, then the history. */
    method GetOperation(id: string) returns (op: Operation?)
      ensures op == null <==> forall k :: 0 <= k < |Known()| ==> Known()[k].id != id
      ensures op != null ==> op.id == id && exists k :: 0 <= k < |Known()| && IsFirst(id, op, k)
    {
      ghost var first := OptSeq(View().running);
      if running != null && running.id == id {
        assert IsFirst(id, running, 0);
        return running;
      }
      for i := 0 to |queue|
        invariant forall j :: 0 <= j < |first| + i ==> Known()[j].id != id
      {
        assert Known()[|first| + i] == queue[i];
        if queue[i].id == id {
          assert IsFirst(id, queue[i], |first| + i);
          return queue[i];
        }
      }
      for i := 0 to |history|
        invariant forall j :: 0 <= j < |first| + |queue| + i ==> Known()[j].id != id
      {
        assert Known()[|first| + |queue| + i] == history[i];
        if history[i].id == id {
          assert IsFirst(id, history[i], |first| + |queue| + i);
          return history[i];
        }
      }
      return null;
    }
  }
}
