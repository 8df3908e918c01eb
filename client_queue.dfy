/**
 * The client connection queue of the client thread pool: a fixed-capacity
 * circular array of accepted sockets with `front`, `rear` and `count`,
 * which the acceptor fills and the client workers empty. The capacity is a
 * positive constructor parameter; the mutex and the condition variable are
 * not modelled, and a dequeue that would wait is excluded by its
 * precondition.
 */
module ClientQueue {

  /** The slot k places after `front` in a ring of n slots, for k <= n. */
  function Slot(front: int, k: int, n: int): (i: int)
    requires 0 <= front < n && 0 <= k <= n
    ensures 0 <= i < n
  {
    if front + k < n then front + k else front + k - n
  }

  /** Reducing a value below 2n modulo n subtracts n at most once. */
  lemma ModOnce(x: int, n: int)
    requires 0 <= x < 2 * n
    ensures x % n == if x < n then x else x - n
  {
    if x >= n {
      assert x == 1 * n + (x - n);
    }
  }

  /** Counting round the ring is addition modulo its size. */
  lemma SlotIsModular(front: int, k: int, n: int)
    requires 0 <= front < n && 0 <= k <= n
    ensures Slot(front, k, n) == (front + k) % n
  {
    ModOnce(front + k, n);
  }

  /** The step `(x + 1) % n` of `enqueue` and `dequeue`, for a slot x. */
  lemma NextSlot(x: int, n: int)
    requires 0 <= x < n
    ensures (x + 1) % n == if x + 1 < n then x + 1 else 0
  {
    ModOnce(x + 1, n);
  }

  class Ring {
    const queue: array<int>
    var front: int
    var rear: int
    var count: int

    /** The queued sockets, the next to be served first. */
    ghost var Contents: seq<int>

    /**
     * `count` slots starting at `front` (wrapping round) hold the contents
     * in order, and `rear` is the slot after the last of them.
     */
    ghost predicate Valid()
      reads this, queue
    {
      && queue.Length > 0
      && 0 <= front < queue.Length
      && 0 <= rear < queue.Length
      && 0 <= count <= queue.Length
      && count == |Contents|
      && rear == Slot(front, count, queue.Length)
      && (forall k | 0 <= k < count :: Contents[k] == queue[Slot(front, k, queue.Length)])
    }

    /** The zero-initialisation in `init_client_threadpool`. */
    constructor (capacity: nat)
      requires capacity > 0
      ensures Valid() && fresh(queue)
      ensures queue.Length == capacity && Contents == []
      ensures front == 0 && rear == 0 && count == 0
    {
      queue := new int[capacity];
      front, rear, count := 0, 0, 0;
      Contents := [];
    }

    /**
     * `enqueue`: a socket arriving at a full queue is dropped (its
     * connection closed) and nothing changes; otherwise it is written at
     * `rear`, which advances round the ring.
     */
    method Enqueue(clientSock: int) returns (dropped: bool)
      requires Valid()
      modifies this, queue
      ensures Valid()
      ensures dropped <==> old(count) == queue.Length
      ensures dropped ==>
        && Contents == old(Contents) && queue[..] == old(queue[..])
        && front == old(front) && rear == old(rear) && count == old(count)
      ensures !dropped ==>
        && Contents == old(Contents) + [clientSock] && front == old(front)
        && rear == (old(rear) + 1) % queue.Length && count == old(count) + 1
    {
      if count == queue.Length {
        return true;
      }
      queue[rear] := clientSock;
      NextSlot(rear, queue.Length);
      rear := (rear + 1) % queue.Length;
      count := count + 1;
      Contents := Contents + [clientSock];
      dropped := false;
    }

    /** `dequeue`: takes the socket at `front`, which advances round the ring. */
    method Dequeue() returns (clientSock: int)
      requires Valid()
      requires count > 0
      modifies this
      ensures Valid()
      ensures clientSock == old(Contents)[0] && Contents == old(Contents)[1..]
      ensures front == (old(front) + 1) % queue.Length && rear == old(rear) && count == old(count) - 1
    {
      assert Contents[0] == queue[Slot(front, 0, queue.Length)];
      clientSock := queue[front];
      ghost var f := front;
      NextSlot(front, queue.Length);
      front := (front + 1) % queue.Length;
      count := count - 1;
      Contents := Contents[1..];
      forall k | 0 <= k < count
        ensures Contents[k] == queue[Slot(front, k, queue.Length)]
      {
        assert Slot(front, k, queue.Length) == Slot(f, k + 1, queue.Length);
      }
    }

    /**
     * The client worker, run until the queue is empty: every socket is
     * dequeued in order, and the ones that are not positive are skipped
     * rather than handled.
     */
    method Work() returns (handled: seq<int>)
      requires Valid()
      modifies this
      ensures Valid() && Contents == []
      ensures handled == Served(old(Contents))
    {
      handled := [];
      ghost var taken: seq<int> := [];
      while count > 0
        invariant Valid()
        invariant taken + Contents == old(Contents)
        invariant handled == Served(taken)
        decreases count
      {
        var clientSock := Dequeue();
        ServedSnoc(taken, clientSock);
        taken := taken + [clientSock];
        if clientSock <= 0 {
          continue;
        }
        handled := handled + [clientSock];
      }
      assert taken == old(Contents);
    }
  }

  /** In a valid ring, `rear` is `count` places after `front`, modulo the capacity. */
  lemma RearIsModular(q: Ring)
    requires q.Valid()
    ensures q.rear == (q.front + q.count) % q.queue.Length
  {
    SlotIsModular(q.front, q.count, q.queue.Length);
  }

  /** The sockets the worker hands on: the positive ones, in order. */
  function Served(socks: seq<int>): (r: seq<int>)
    ensures |r| <= |socks|
    ensures forall k | 0 <= k < |r| :: r[k] > 0
  {
    if socks == [] then []
    else if socks[|socks| - 1] <= 0 then Served(socks[..|socks| - 1])
    else Served(socks[..|socks| - 1]) + [socks[|socks| - 1]]
  }

  lemma ServedSnoc(socks: seq<int>, x: int)
    ensures Served(socks + [x]) == if x <= 0 then Served(socks) else Served(socks) + [x]
  {
    assert (socks + [x])[..|socks|] == socks;
  }

  /** A socket is handed on exactly when it was queued and is positive. */
  lemma {:induction false} ServedMembers(socks: seq<int>, x: int)
    ensures x in Served(socks) <==> x in socks && x > 0
    decreases |socks|
  {
    if socks != [] {
      var init := socks[..|socks| - 1];
      assert socks == init + [socks[|socks| - 1]];
      ServedMembers(init, x);
    }
  }

  /** How many of n connections offered to an empty ring of the given capacity it keeps. */
  function Kept(n: nat, capacity: nat): nat {
    if n < capacity then n else capacity
  }

  /**
   * Connections offered one after the other to an empty ring of the given
   * capacity: the first ones are kept, in order, until it is full, and every
   * later one is dropped.
   */
  method Offer(q: Ring, socks: seq<int>) returns (dropped: seq<int>)
    requires q.Valid() && q.Contents == []
    modifies q, q.queue
    ensures q.Valid()
    ensures var n := Kept(|socks|, q.queue.Length);
      q.Contents == socks[..n] && dropped == socks[n..]
  {
    dropped := [];
    for i := 0 to |socks|
      invariant q.Valid()
      invariant q.Contents + dropped == socks[..i]
      invariant |q.Contents| == Kept(i, q.queue.Length)
      invariant dropped != [] ==> |q.Contents| == q.queue.Length
    {
      var d := q.Enqueue(socks[i]);
      if d {
        dropped := dropped + [socks[i]];
      }
      assert socks[..i + 1] == socks[..i] + [socks[i]];
    }
    assert socks[..|socks|] == socks;
  }

  /**
   * The acceptor offering a burst of connections to a fresh pool whose
   * worker then runs until the queue is empty: once the queue is full the
   * rest are dropped, and of the ones kept the positive sockets are handled,
   * in arrival order.
   */
  method AcceptThenServe(capacity: nat, socks: seq<int>) returns (handled: seq<int>, dropped: seq<int>)
    requires capacity > 0
    ensures var n := Kept(|socks|, capacity);
      handled == Served(socks[..n]) && dropped == socks[n..]
  {
    var q := new Ring(capacity);
    dropped := Offer(q, socks);
    handled := q.Work();
  }
}
