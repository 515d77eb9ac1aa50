/**
 * src/class/queue.ts: a queue that collects requests and dispatches them in
 * batches of at most `batch_size`, one batch each time its timer fires.
 *
 * The pending `setTimeout` is the boolean `timer` (armed or not), and the
 * timer firing is a call of `Process`, which returns the batch it
 * dispatched. Entries are opaque tokens: dispatching one only places it in
 * the returned batch.
 */
module BatchQueue {
  import Arith

  /** A queued request: the work function and the two callbacks of its promise. */
  datatype Entry<F, S> = Entry(fn: F, resolve: S, reject: S)

  /** `QueueConfig`: the largest batch, and the delay before a batch is dispatched. */
  datatype QueueConfig = QueueConfig(batchSize: nat, batchIval: nat)

  function Min(a: nat, b: nat): nat
  {
    if a <= b then a else b
  }

  /**
   * What one firing does to a buffer `q`: the batch it dispatches and the
   * buffer it leaves. A buffer no longer than `b` goes out whole; a longer
   * one loses its first `b` entries.
   */
  function Flush<E>(q: seq<E>, b: nat): (r: (seq<E>, seq<E>))
    ensures r.0 + r.1 == q
    ensures |r.0| == Min(|q|, b)
    ensures r.1 != [] <==> |q| > b
  {
    if |q| <= b then (q, []) else (q[..b], q[b..])
  }

  class Queue<F, S> {
    const config: QueueConfig
    /** `_queue`: the requests waiting, oldest first. */
    var queue: seq<Entry<F, S>>
    /** `_timer`: whether a firing is scheduled. */
    var timer: bool

    /** A firing is scheduled exactly when requests are waiting. */
    ghost predicate Valid()
      reads this
    {
      timer <==> |queue| > 0
    }

    constructor (config: QueueConfig)
      ensures this.config == config && queue == [] && !timer
      ensures Valid()
    {
      this.config := config;
      queue := [];
      timer := false;
    }

    /** `_schedule`: arm the timer unless it is armed already, so at most one is ever pending. */
    method Schedule()
      modifies this
      ensures timer
      ensures queue == old(queue)
    {
      if !timer {
        timer := true;
      }
    }

    /**
     * `_process`, run when the timer fires: disarm, then dispatch the whole
     * buffer if it fits in a batch, or else its first `batch_size` entries,
     * keeping the rest and re-arming. An empty buffer dispatches nothing.
     */
    method Process() returns (batch: seq<Entry<F, S>>)
      modifies this
      ensures (batch, queue) == Flush(old(queue), config.batchSize)
      ensures timer <==> |old(queue)| > config.batchSize
      ensures Valid()
    {
      timer := false;
      if |queue| == 0 {
        return [];
      }
      if |queue| <= config.batchSize {
        batch := queue;
        queue := [];
      } else {
        var index := Min(|queue|, config.batchSize);
        batch := queue[..index];
        queue := queue[index..];
        Schedule();
      }
    }

    /** `push`: append the request and make sure a firing is scheduled. */
    method Push(fn: F, resolve: S, reject: S)
      modifies this
      ensures queue == old(queue) + [Entry(fn, resolve, reject)]
      ensures timer
      ensures Valid()
    {
      queue := queue + [Entry(fn, resolve, reject)];
      Schedule();
    }
  }

  /** The batches that successive firings dispatch from `q` when nothing more is pushed. */
  function Batches<E>(q: seq<E>, b: nat): (bs: seq<seq<E>>)
    requires b >= 1
    decreases |q|
  {
    if q == [] then [] else [Flush(q, b).0] + Batches(Flush(q, b).1, b)
  }

  /** The concatenation of a sequence of batches. */
  function Concat<E>(bs: seq<seq<E>>): seq<E>
  {
    if bs == [] then [] else bs[0] + Concat(bs[1..])
  }

  /** Draining loses, duplicates and reorders nothing: the batches put together are the buffer. */
  lemma {:induction false} DrainKeepsOrder<E>(q: seq<E>, b: nat)
    requires b >= 1
    ensures Concat(Batches(q, b)) == q
    decreases |q|
  {
    if q != [] {
      var (head, rest) := Flush(q, b);
      DrainKeepsOrder(rest, b);
      assert Batches(q, b)[1..] == Batches(rest, b);
    }
  }

  /** Every batch but the last is full, and none is empty. */
  lemma {:induction false} DrainBatchSizes<E>(q: seq<E>, b: nat)
    requires b >= 1
    ensures var bs := Batches(q, b);
      forall i :: 0 <= i < |bs| ==> 0 < |bs[i]| <= b && (i < |bs| - 1 ==> |bs[i]| == b)
    decreases |q|
  {
    if q != [] {
      var (head, rest) := Flush(q, b);
      DrainBatchSizes(rest, b);
      var bs := Batches(q, b);
      assert bs[1..] == Batches(rest, b);
      forall i | 0 < i < |bs|
        ensures 0 < |bs[i]| <= b && (i < |bs| - 1 ==> |bs[i]| == b)
      {
        assert bs[i] == Batches(rest, b)[i - 1];
      }
      if rest != [] {
        assert |bs| > 1;
      }
    }
  }

  /** A buffer of `n` entries drains in `ceil(n / b)` firings. */
  lemma {:induction false} DrainCount<E>(q: seq<E>, b: nat)
    requires b >= 1
    ensures |Batches(q, b)| == (|q| + b - 1) / b
    decreases |q|
  {
    if q == [] {
      Arith.DivModUnique(b - 1, b, 0, b - 1);
    } else if |q| <= b {
      Arith.DivModUnique(|q| + b - 1, b, 1, |q| - 1);
    } else {
      var rest := Flush(q, b).1;
      DrainCount(rest, b);
      assert |Batches(q, b)| == 1 + |Batches(rest, b)|;
      assert |rest| + b - 1 == |q| - 1;
      DivAddDivisor(|q| - 1, b);
    }
  }

  /** Adding the divisor adds one to the quotient. */
  lemma DivAddDivisor(x: nat, b: nat)
    requires b >= 1
    ensures (x + b) / b == x / b + 1
  {
    var q, r := x / b, x % b;
    assert x == q * b + r;
    assert (q + 1) * b == q * b + b;
    Arith.DivModUnique(x + b, b, q + 1, r);
  }

  /** With a batch size of 0 a firing dispatches nothing and keeps the timer armed, forever. */
  lemma ZeroBatchNeverDrains<E>(q: seq<E>)
    requires q != []
    ensures Flush(q, 0) == ([], q)
  {
  }
}
