/**
 * The server's task queue: a singly linked FIFO of tasks with a head, a
 * tail and a size, from which the worker threads take work. The mutex and
 * the condition variable are not modelled; a dequeue that would wait for
 * work is excluded by its precondition instead.
 */
module TaskQueue {
  import opened Wrappers

  /** One link of the chain: a task and the next link, or null at the tail. */
  class Node<T> {
    var task: T
    var next: Node?<T>

    constructor (task: T)
      ensures this.task == task && next == null
    {
      this.task := task;
      next := null;
    }
  }

  class Queue<T> {
    var head: Node?<T>
    var tail: Node?<T>
    var size: int

    /** The links from head to tail, in order. */
    ghost var nodes: seq<Node<T>>
    /** The queued tasks, first to be dequeued first. */
    ghost var Contents: seq<T>
    ghost var Repr: set<object>

    /**
     * `size` counts the links, head is null exactly when the queue is
     * empty and so is tail, the links are chained head to tail, the tail's
     * next is null and no link appears twice.
     */
    ghost predicate Valid()
      reads this, Repr
    {
      && this in Repr
      && (forall k | 0 <= k < |nodes| :: nodes[k] in Repr)
      && size == |nodes| == |Contents|
      && (head == null <==> size == 0)
      && (tail == null <==> size == 0)
      && (size > 0 ==> head == nodes[0] && tail == nodes[size - 1] && tail.next == null)
      && (forall k | 0 <= k < |nodes| - 1 :: nodes[k].next == nodes[k + 1])
      && (forall k | 0 <= k < |nodes| :: nodes[k].task == Contents[k])
      && (forall k, l | 0 <= k < l < |nodes| :: nodes[k] != nodes[l])
    }

    /** `queue_init`: an empty queue. */
    constructor ()
      ensures Valid() && fresh(Repr)
      ensures Contents == [] && head == null && tail == null && size == 0
    {
      head, tail, size := null, null, 0;
      nodes, Contents := [], [];
      Repr := {this};
    }

    /** `queue_enqueue`: links a new node after the tail and reports success. */
    method Enqueue(task: T) returns (r: int)
      requires Valid()
      modifies Repr
      ensures Valid() && fresh(Repr - old(Repr))
      ensures r == 0
      ensures Contents == old(Contents) + [task]
    {
      var n := new Node(task);
      if tail == null {
        head, tail := n, n;
      } else {
        tail.next := n;
        tail := n;
      }
      size := size + 1;
      nodes := nodes + [n];
      Contents := Contents + [task];
      Repr := Repr + {n};
      r := 0;
    }

    /**
     * `queue_dequeue`: with work queued it unlinks the head and returns its
     * task whatever the stop flag says, so queued work drains before
     * shutdown; with none queued and the stop flag raised it reports -1 and
     * no task, leaving the queue as it was.
     */
    method Dequeue(stop: bool) returns (r: int, task: Option<T>)
      requires Valid()
      requires size > 0 || stop
      modifies this
      ensures Valid() && Repr <= old(Repr)
      ensures old(Contents) == [] ==> r == -1 && task == None && Contents == []
      ensures old(Contents) != [] ==>
        r == 0 && task == Some(old(Contents)[0]) && Contents == old(Contents)[1..]
    {
      if size == 0 && stop {
        return -1, None;
      }
      var n := head;
      assert size == 1 ==> n == tail;
      assert size > 1 ==> n.next == nodes[1];
      task := Some(n.task);
      head := n.next;
      if head == null {
        tail := null;
      }
      size := size - 1;
      nodes := nodes[1..];
      Contents := Contents[1..];
      r := 0;
    }

    /**
     * The walk of `queue_destroy`: it follows the chain from the head until
     * it reaches null, so it visits every queued link once and stops.
     */
    method Destroy() returns (released: nat)
      requires Valid()
      ensures released == |Contents|
    {
      var cur := head;
      released := 0;
      while cur != null
        invariant released <= |nodes|
        invariant cur == null <==> released == |nodes|
        invariant cur != null ==> cur == nodes[released]
        decreases |nodes| - released
      {
        assert released + 1 < |nodes| ==> cur.next == nodes[released + 1];
        assert released + 1 == |nodes| ==> cur == tail;
        cur := cur.next;
        released := released + 1;
      }
    }
  }

  /** A fresh queue holding the given tasks, enqueued one after the other. */
  method Filled<T>(tasks: seq<T>) returns (q: Queue<T>)
    ensures q.Valid() && fresh(q.Repr)
    ensures q.Contents == tasks
  {
    q := new Queue<T>();
    for i := 0 to |tasks|
      invariant q.Valid() && fresh(q.Repr)
      invariant q.Contents == tasks[..i]
    {
      var r := q.Enqueue(tasks[i]);
      assert tasks[..i + 1] == tasks[..i] + [tasks[i]];
    }
    assert tasks[..|tasks|] == tasks;
  }

  /**
   * The order check of the queue test: tasks enqueued one after the other
   * into a fresh queue come out of as many dequeues in the same order.
   */
  method EnqueueThenDequeue<T>(tasks: seq<T>) returns (out: seq<T>)
    ensures out == tasks
  {
    var q := Filled(tasks);
    out := [];
    for i := 0 to |tasks|
      invariant q.Valid() && fresh(q.Repr)
      invariant out == tasks[..i] && q.Contents == tasks[i..]
    {
      var r, t := q.Dequeue(false);
      out := out + [t.value];
      assert tasks[..i + 1] == tasks[..i] + [tasks[i]];
    }
  }

  /**
   * A worker that keeps dequeuing after the stop flag is raised receives
   * every queued task, in order, and then the shutdown status -1.
   */
  method DrainOnShutdown<T>(tasks: seq<T>) returns (out: seq<T>, last: int)
    ensures out == tasks && last == -1
  {
    var q := Filled(tasks);
    out := [];
    var t;
    last, t := q.Dequeue(true);
    while last == 0
      invariant q.Valid() && fresh(q.Repr)
      invariant last == 0 || last == -1
      invariant last == 0 ==> t.Some? && out + [t.value] + q.Contents == tasks
      invariant last == -1 ==> out == tasks
      decreases |q.Contents|, last + 1
    {
      out := out + [t.value];
      last, t := q.Dequeue(true);
    }
  }
}
