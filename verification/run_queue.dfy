/**
 Per-CPU run queues: intrusive lists with head, tail and length.  Every operation is specified by
 the sequence of threads it leaves in each queue.
 */
module RunQueues {
  import opened Basics
  import opened Word64
  import opened QueueSteps

  datatype ThreadState = Free | Ready | Running | Blocked | Dying

  class Thread {
    var state: ThreadState
    var next: Thread?
    /** The CPU whose queue the thread is on. */
    var runQueue: Cpu?
    /** The CPU the thread was last placed on. */
    var home: Cpu?
    var userMode: bool
    var affinity: Word
    var lastMigration: Word
    /** The next waiter behind this thread. */
    var waitLink: Thread?

    constructor (userMode: bool, affinity: Word)
      ensures state == Blocked && next == null && runQueue == null && home == null && waitLink == null
      ensures this.userMode == userMode && this.affinity == affinity && lastMigration == 0
    {
      state, next, runQueue, home, waitLink := Blocked, null, null, null, null;
      this.userMode, this.affinity, lastMigration := userMode, affinity, 0;
    }
  }

  class Cpu {
    const id: nat
    var booted: bool
    var head: Thread?
    var tail: Thread?
    var length: nat
    var enqueues: nat
    var dequeues: nat
    var migrateIn: nat
    var migrateOut: nat
    var current: Thread?
    var idle: Thread?
    /** The threads on the run queue, first to last. */
    ghost var queue: seq<Thread>

    constructor (id: nat)
      ensures this.id == id && !booted && queue == [] && idle == null && current == null && Linked()
    {
      this.id, booted, head, tail, length, enqueues, dequeues := id, false, null, null, 0, 0, 0;
      migrateIn, migrateOut, current, idle, queue := 0, 0, null, null, [];
    }

    /** The links spell out `queue`, every thread on it says so, and the counters agree. */
    ghost predicate Linked()
      reads this, queue
    {
      && Distinct(queue)
      && length == |queue| && enqueues == dequeues + length
      && head == At(queue, 0) && tail == At(queue, |queue| - 1)
      && forall i: nat {:trigger NodeOk(i)} | i < |queue| :: NodeOk(i)
    }

    ghost predicate NodeOk(i: nat)
      requires i < |queue|
      reads this, queue
    {
      queue[i].next == At(queue, i + 1) && queue[i].runQueue == this
    }

    /** `run_queue_append_locked` and `append_ready_thread_locked` for a thread on no queue. */
    method Append(t: Thread)
      requires Linked() && t.runQueue == null
      modifies this`head, this`tail, this`length, this`enqueues, this`queue, t`next, t`runQueue, queue`next
      ensures Linked() && queue == old(queue) + [t]
    {
      NotQueued(t);
      t.next := null;
      if tail != null {
        tail.next := t;
      } else {
        head := t;
      }
      tail := t;
      t.runQueue := this;
      length := length + 1;
      enqueues := enqueues + 1;
      queue := queue + [t];
      forall i: nat | i < |queue| ensures NodeOk(i) {
        if i + 1 < |queue| { assert old(NodeOk(i)); }
      }
    }

    lemma NotQueued(t: Thread)
      requires Linked() && t.runQueue != this
      ensures t !in queue
    {
      forall i: nat | i < |queue| ensures queue[i] != t { assert NodeOk(i); }
    }

    /** `dequeue_ready_thread`: the head leaves. */
    method Dequeue() returns (t: Thread?)
      requires Linked()
      modifies this`head, this`tail, this`length, this`dequeues, this`queue, queue`next, queue`runQueue
      ensures Linked() && t == At(old(queue), 0) && queue == if t == null then old(queue) else old(queue)[1..]
      ensures t != null ==> t.next == null && t.runQueue == null
    {
      t := head;
      if t == null { return; }
      assert NodeOk(0);
      head := t.next;
      if head == null { tail := null; }
      t.next := null;
      t.runQueue := null;
      if length != 0 { length := length - 1; }
      dequeues := dequeues + 1;
      queue := queue[1..];
      forall i: nat | i < |queue| ensures NodeOk(i) { assert old(NodeOk(i + 1)); }
    }

    /** Unlink the thread at position `k`, whose predecessor is known. */
    method Unlink(t: Thread, previous: Thread?, ghost k: nat)
      requires Linked() && k < |queue| && queue[k] == t && previous == At(queue, k - 1)
      modifies this`head, this`tail, this`length, this`dequeues, this`queue, queue`next, queue`runQueue
      ensures Linked() && queue == Without(old(queue), k)
      ensures t.next == null && t.runQueue == null
    {
      assert NodeOk(k);
      if k > 0 { assert NodeOk(k - 1); }
      var next := t.next;
      if previous != null {
        previous.next := next;
      } else {
        head := next;
      }
      if tail == t { tail := previous; }
      t.next := null;
      t.runQueue := null;
      if length != 0 { length := length - 1; }
      dequeues := dequeues + 1;
      queue := Without(queue, k);
      forall i: nat | i < |queue| ensures NodeOk(i) {
        var o := if i < k then i else i + 1;
        assert queue[i] == old(queue)[o] && old(NodeOk(o));
      }
    }

    /** `run_queue_remove_locked`: nothing happens for a thread that is not on this queue. */
    method Remove(t: Thread)
      requires Linked()
      modifies this`head, this`tail, this`length, this`dequeues, this`queue, queue`next, queue`runQueue
      ensures Linked()
      ensures t !in old(queue) ==> queue == old(queue) && t.runQueue == old(t.runQueue)
      ensures t in old(queue) ==> t.runQueue == null && exists k: nat ::
                k < |old(queue)| && old(queue)[k] == t && queue == Without(old(queue), k)
    {
      var previous, candidate, k := Find(t);
      if candidate != null { Unlink(t, previous, k); }
    }

    /** The search of `run_queue_remove_locked`. */
    method Find(t: Thread) returns (previous: Thread?, candidate: Thread?, ghost k: nat)
      requires Linked()
      ensures candidate == null ==> t !in queue
      ensures candidate != null ==> candidate == t && k < |queue| && queue[k] == t && previous == At(queue, k - 1)
    {
      previous, candidate, k := null, head, 0;
      while candidate != null && candidate != t
        invariant k <= |queue| && candidate == At(queue, k) && previous == At(queue, k - 1)
        invariant forall i: nat | i < k :: queue[i] != t
        decreases |queue| - k
      {
        assert NodeOk(k);
        previous := candidate;
        candidate := candidate.next;
        k := k + 1;
      }
    }

    /** The search of `detach_last_migratable_thread_locked`. */
    method FindLastMigratable(id: nat, now: Word) returns (candidate: Thread?, before: Thread?, ghost k: nat)
      requires Linked()
      ensures candidate == null ==> forall i: nat | i < |queue| :: !Migratable(queue[i], id, now)
      ensures candidate != null ==>
                k < |queue| && queue[k] == candidate && before == At(queue, k - 1) &&
                Migratable(candidate, id, now)
      ensures candidate != null ==> forall i: nat | k < i < |queue| :: !Migratable(queue[i], id, now)
    {
      var previous: Thread? := null;
      candidate, before, k := null, null, 0;
      var thread := head;
      ghost var n := 0;
      while thread != null
        invariant n <= |queue| && thread == At(queue, n) && previous == At(queue, n - 1)
        invariant candidate == null ==> forall i: nat | i < n :: !Migratable(queue[i], id, now)
        invariant candidate != null ==>
                    k < n && queue[k] == candidate && before == At(queue, k - 1) &&
                    Migratable(candidate, id, now)
        invariant candidate != null ==> forall i: nat | k < i < n :: !Migratable(queue[i], id, now)
        decreases |queue| - n
      {
        assert NodeOk(n);
        if Migratable(thread, id, now) {
          before, candidate, k := previous, thread, n;
        }
        previous, thread, n := thread, thread.next, n + 1;
      }
    }

    /** `detach_last_migratable_thread_locked` */
    method DetachLastMigratable(id: nat, now: Word) returns (t: Thread?, ghost k: nat)
      requires Linked()
      modifies this`head, this`tail, this`length, this`dequeues, this`queue, queue`next, queue`runQueue
      ensures Linked()
      ensures t == null ==> queue == old(queue) && forall i: nat | i < |queue| :: !Migratable(queue[i], id, now)
      ensures t != null ==>
                k < |old(queue)| && old(queue)[k] == t && queue == Without(old(queue), k) && t.runQueue == null
      ensures t != null ==> old(Migratable(t, id, now)) && forall i: nat | k < i < |old(queue)| ::
                !old(Migratable(queue[i], id, now))
    {
      var before;
      t, before, k := FindLastMigratable(id, now);
      if t != null { Unlink(t, before, k); }
    }
  }

  const MIGRATION_COOLDOWN: nat := 64

  /** `thread_allows_cpu` */
  predicate Allows(affinity: Word, id: nat)
  {
    id >= 64 || Bit(affinity, id)
  }

  /** `now - then`, in 64 bits. */
  function Elapsed(now: Word, then_: Word): Word
  {
    (now - then_ + WORD_LIMIT) % WORD_LIMIT
  }

  /** `thread_is_migratable` */
  predicate Migratable(t: Thread, id: nat, now: Word)
    reads t
  {
    t.state == Ready && Allows(t.affinity, id) &&
    (t.lastMigration == 0 || Elapsed(now, t.lastMigration) >= MIGRATION_COOLDOWN)
  }

  /** CPUs 0 to 63 are tested in the affinity mask, and later ones are always allowed. */
  lemma AllowsIs(affinity: Word, id: nat)
    ensures Allows(affinity, id) <==> id >= 64 || BitAnd(affinity, Shl(1, id)) != 0
  {
    if id < 64 {
      var masked := BitAnd(affinity, Shl(1, id));
      forall i: nat ensures Bit(masked, i) == (i == id && Bit(affinity, id)) {
        AndBit(affinity, Shl(1, id), i);
        MaskBit(id, i);
      }
      ZeroBit(id);
      if !Bit(affinity, id) {
        forall i: nat | i < 64 ensures Bit(masked, i) == Bit(0, i) { ZeroBit(i); }
        WordsEqual(masked, 0);
      }
    }
  }

  /** The 64-bit difference is the ticks that passed, also across a wrap of the tick counter. */
  lemma ElapsedIs(m: nat, n: nat)
    requires m <= n < m + WORD_LIMIT
    ensures Elapsed(n % WORD_LIMIT, m % WORD_LIMIT) == n - m
  {
    var d := n - m;
    assert n % WORD_LIMIT == if m % WORD_LIMIT + d < WORD_LIMIT then m % WORD_LIMIT + d
                             else m % WORD_LIMIT + d - WORD_LIMIT;
  }

  /**
   A thread that moved at tick `m` may move again at tick `n` exactly if it is ready, allowed there,
   and 64 ticks have passed; a stamp of zero counts as never having moved.
   */
  lemma CoolsDown(t: Thread, id: nat, m: nat, n: nat)
    requires t.lastMigration == m % WORD_LIMIT && m <= n < m + WORD_LIMIT
    ensures Migratable(t, id, n % WORD_LIMIT) <==>
              t.state == Ready && (id >= 64 || BitAnd(t.affinity, Shl(1, id)) != 0) &&
              (m % WORD_LIMIT == 0 || n - m >= 64)
  {
    AllowsIs(t.affinity, id);
    ElapsedIs(m, n);
  }

  function At(q: seq<Thread>, i: int): Thread?
  {
    if 0 <= i < |q| then q[i] else null
  }
}
