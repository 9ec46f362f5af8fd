/** The thread pool (src/threadpool.rs) with its workers' loops
    (src/worker.rs), run sequentially. The channel is a FIFO sequence of
    messages. Every receive in the source goes through one mutex, so the
    workers' receives happen one after another; which running worker
    receives next is left to the caller of `Step`, or chosen arbitrarily
    while the pool waits for a worker to finish. */
module ThreadPool {
  import opened Wrappers
  import opened Workers

  /** The number of workers whose loop is still running. */
  function CountRunning(ws: seq<Worker>): (n: nat)
    ensures n <= |ws|
  {
    if ws == [] then 0
    else (if ws[0].state == Running then 1 else 0) + CountRunning(ws[1..])
  }

  /** The number of `Terminate` messages in a queue. */
  function CountTerminate(q: seq<Message>): (n: nat)
    ensures n <= |q|
  {
    if q == [] then 0
    else (if q[0].Terminate? then 1 else 0) + CountTerminate(q[1..])
  }

  /** The jobs of a queue, in queue order. */
  function PendingJobs(q: seq<Message>): (jobs: seq<JobId>)
    ensures |jobs| + CountTerminate(q) == |q|
  {
    if q == [] then []
    else (if q[0].NewJob? then [q[0].job] else []) + PendingJobs(q[1..])
  }

  /** `n` terminate messages in a row. */
  function Terminates(n: nat): seq<Message>
  {
    seq(n, _ => Terminate)
  }

  /** No job waits behind a `Terminate`. */
  ghost predicate JobsThenTerminates(q: seq<Message>)
  {
    forall i, j :: 0 <= i < j < |q| && q[i].Terminate? ==> q[j].Terminate?
  }

  lemma {:induction false} CountsAppend(a: seq<Message>, b: seq<Message>)
    ensures CountTerminate(a + b) == CountTerminate(a) + CountTerminate(b)
    ensures PendingJobs(a + b) == PendingJobs(a) + PendingJobs(b)
  {
    if a == [] {
      assert a + b == b;
    } else {
      assert (a + b)[1..] == a[1..] + b;
      CountsAppend(a[1..], b);
    }
  }

  lemma {:induction false} TerminatesCounts(n: nat)
    ensures CountTerminate(Terminates(n)) == n
    ensures PendingJobs(Terminates(n)) == []
  {
    if n > 0 {
      assert Terminates(n)[1..] == Terminates(n - 1);
      TerminatesCounts(n - 1);
    }
  }

  /** A queue with no `Terminate` holds only jobs. */
  lemma {:induction false} NoTerminateOnlyJobs(q: seq<Message>)
    requires CountTerminate(q) == 0
    ensures forall i :: 0 <= i < |q| ==> q[i].NewJob?
  {
    if q != [] {
      NoTerminateOnlyJobs(q[1..]);
      forall i | 0 < i < |q| ensures q[i].NewJob? {
        assert q[i] == q[1..][i - 1];
      }
    }
  }

  /** A queue that starts with `Terminate` and keeps jobs in front of
      terminates holds no job. */
  lemma {:induction false} TerminateFirstNoJobs(q: seq<Message>)
    requires q != [] && q[0].Terminate? && JobsThenTerminates(q)
    ensures PendingJobs(q) == []
  {
    if |q| > 1 {
      assert q[1..][0] == q[1];
      TerminateFirstNoJobs(q[1..]);
    }
  }

  /** A queue with neither jobs nor terminates is empty. */
  lemma EmptyQueue(q: seq<Message>)
    requires PendingJobs(q) == [] && CountTerminate(q) == 0
    ensures q == []
  {
  }

  /** Changing one worker changes the count of running workers by the
      change of its state alone. */
  lemma {:induction false} CountRunningUpdate(ws: seq<Worker>, i: nat, w: Worker)
    requires i < |ws|
    ensures CountRunning(ws[i := w]) + (if ws[i].state == Running then 1 else 0)
         == CountRunning(ws) + (if w.state == Running then 1 else 0)
  {
    if i > 0 {
      assert ws[i := w][1..] == ws[1..][i - 1 := w];
      CountRunningUpdate(ws[1..], i - 1, w);
    }
  }

  /** Every worker is running exactly when the count says so. */
  lemma {:induction false} CountRunningAll(ws: seq<Worker>)
    ensures CountRunning(ws) == |ws| <==> forall k :: 0 <= k < |ws| ==> ws[k].state == Running
  {
    if ws != [] {
      CountRunningAll(ws[1..]);
      if forall k :: 0 <= k < |ws| ==> ws[k].state == Running {
        assert forall k :: 0 <= k < |ws| - 1 ==> ws[1..][k].state == Running;
      } else if ws[0].state == Running {
        var k :| 0 <= k < |ws| && ws[k].state != Running;
        assert ws[1..][k - 1].state != Running;
      }
    }
  }

  /** No worker is running exactly when the count is zero. */
  lemma {:induction false} CountRunningNone(ws: seq<Worker>)
    ensures CountRunning(ws) == 0 <==> forall k :: 0 <= k < |ws| ==> ws[k].state == Stopped
  {
    if ws != [] {
      CountRunningNone(ws[1..]);
      if forall k :: 0 <= k < |ws| ==> ws[k].state == Stopped {
        assert forall k :: 0 <= k < |ws| - 1 ==> ws[1..][k].state == Stopped;
      } else if ws[0].state == Stopped {
        var k :| 0 <= k < |ws| && ws[k].state != Stopped;
        assert ws[1..][k - 1].state != Stopped;
      }
    }
  }

  class ThreadPool {
    /** The workers, in the order they were spawned. */
    var workers: seq<Worker>
    /** The channel, oldest message first. */
    var queue: seq<Message>
    /** The jobs received so far, in the order workers received them; each
        is executed by the worker that received it. */
    var ran: seq<JobId>
    /** Whether, until teardown, the channel's receiving end is held by
        some worker. `new` drops its own reference to the receiver when it
        returns, so with no workers the receiver is gone and every send
        fails. After teardown the workers have dropped their references
        too; the field is not updated then, since no send follows. */
    var connected: bool
    /** Whether teardown has sent its terminate messages. */
    var dropped: bool
    /** Every job ever submitted, in submission order. */
    ghost var submitted: seq<JobId>

    /** Worker `k` has id `k`; the channel is connected exactly when there
        is a worker; every submitted job is either received or still
        queued, in order; before teardown every worker runs and no
        `Terminate` is queued; after it, the terminates trail the jobs, one
        is queued for every running worker, and a worker stops only once
        no job is left. */
    ghost predicate Valid()
      reads this
    {
      && (forall k :: 0 <= k < |workers| ==> workers[k].id == k)
      && (connected <==> |workers| > 0)
      && submitted == ran + PendingJobs(queue)
      && (!dropped ==>
            && (forall k :: 0 <= k < |workers| ==>
                  workers[k].state == Running && workers[k].thread == Some(JoinHandle(k)))
            && CountTerminate(queue) == 0)
      && (dropped ==>
            && JobsThenTerminates(queue)
            && CountTerminate(queue) == CountRunning(workers)
            && (CountRunning(workers) < |workers| ==> PendingJobs(queue) == []))
    }

    /** `ThreadPool::new`: spawns `size` workers with ids 0 to size - 1
        sharing one empty channel. A size of zero is not refused here, but
        then no worker holds the receiver and the channel is disconnected. */
    constructor (size: nat)
      ensures Valid() && !dropped
      ensures connected <==> size > 0
      ensures |workers| == size
      ensures forall k :: 0 <= k < size ==> workers[k] == Workers.New(k)
      ensures queue == [] && ran == [] && submitted == []
    {
      var ws: seq<Worker> := [];
      for id := 0 to size
        invariant |ws| == id
        invariant forall k :: 0 <= k < id ==> ws[k] == Workers.New(k)
      {
        ws := ws + [Workers.New(id)];
      }
      workers, queue, ran, dropped := ws, [], [], false;
      connected := size > 0;
      submitted := [];
    }

    /** `execute`: hands the job to `dispatch_job`; `sent` is false where
        the source's `unwrap` panics. */
    method Execute(job: JobId) returns (sent: bool)
      requires Valid() && !dropped
      modifies this
      ensures Valid() && !dropped
      ensures sent <==> connected
      ensures sent ==> queue == old(queue) + [NewJob(job)] && submitted == old(submitted) + [job]
      ensures !sent ==> queue == old(queue) && submitted == old(submitted)
      ensures workers == old(workers) && ran == old(ran) && connected == old(connected)
    {
      sent := DispatchJob(job);
    }

    /** `dispatch_job`: sends one job message at the back of the channel.
        The send fails, and `unwrap` panics, when the receiver is gone,
        which is exactly the pool without workers; then nothing is sent. */
    method DispatchJob(job: JobId) returns (sent: bool)
      requires Valid() && !dropped
      modifies this
      ensures Valid() && !dropped
      ensures sent <==> connected
      ensures sent ==> queue == old(queue) + [NewJob(job)] && submitted == old(submitted) + [job]
      ensures !sent ==> queue == old(queue) && submitted == old(submitted)
      ensures workers == old(workers) && ran == old(ran) && connected == old(connected)
    {
      sent := connected;
      if sent {
        CountsAppend(queue, [NewJob(job)]);
        queue := queue + [NewJob(job)];
        submitted := submitted + [job];
      }
    }

    /** One pass of worker `i`'s loop. A running worker takes the message at
        the head of the channel: it executes a job and keeps running, or it
        stops on `Terminate`. A stopped worker receives nothing, and on an
        empty channel the worker waits, so nothing changes. */
    method Step(i: nat)
      requires Valid() && i < |workers|
      modifies this
      ensures Valid()
      ensures dropped == old(dropped) && submitted == old(submitted)
      ensures |workers| == old(|workers|) && connected == old(connected)
      ensures old(workers[i].state) == Stopped || old(queue) == [] ==>
        queue == old(queue) && workers == old(workers) && ran == old(ran)
      ensures old(workers[i].state) == Running && old(queue) != [] ==>
        && queue == old(queue)[1..]
        && (old(queue)[0].NewJob? ==> workers == old(workers) && ran == old(ran) + [old(queue)[0].job])
        && (old(queue)[0].Terminate? ==>
              workers == old(workers)[i := old(workers)[i].(state := Stopped)] && ran == old(ran))
    {
      if workers[i].state == Running && queue != [] {
        var message := queue[0];
        var q := queue;
        queue := queue[1..];
        var r := Receive(workers[i], message);
        CountRunningUpdate(workers, i, r.0);
        if message.Terminate? {
          TerminateFirstNoJobs(q);
        }
        workers := workers[i := r.0];
        if r.1.Some? {
          ran := ran + [r.1.value];
        }
      }
    }

    /** The first loop of `drop`: one `Terminate` per worker, sent after
        everything already queued. */
    method SendTerminates()
      requires Valid() && !dropped
      modifies this
      ensures Valid() && dropped
      ensures queue == old(queue) + Terminates(|workers|)
      ensures workers == old(workers) && ran == old(ran) && submitted == old(submitted)
    {
      for n := 0 to |workers|
        invariant queue == old(queue) + Terminates(n)
        invariant workers == old(workers) && ran == old(ran) && submitted == old(submitted)
        invariant dropped == old(dropped) && connected == old(connected)
      {
        queue := queue + [Terminate];
      }
      dropped := true;
      NoTerminateOnlyJobs(old(queue));
      CountsAppend(old(queue), Terminates(|workers|));
      TerminatesCounts(|workers|);
      CountRunningAll(workers);
    }

    /** `thread.join()` on worker `i`: workers take messages until worker
        `i` has stopped. Worker `i` running means a `Terminate` is still
        queued, so some running worker always has a message to take, and
        each such step shortens the channel. */
    method Join(i: nat)
      requires Valid() && dropped && i < |workers|
      modifies this
      ensures Valid() && dropped
      ensures |workers| == old(|workers|) && submitted == old(submitted)
      ensures workers[i].state == Stopped
      ensures forall k :: 0 <= k < |workers| ==> workers[k].thread == old(workers[k].thread)
      ensures forall k :: 0 <= k < |workers| && old(workers[k].state) == Stopped ==>
                workers[k].state == Stopped
    {
      while workers[i].state == Running
        invariant Valid() && dropped
        invariant |workers| == old(|workers|) && submitted == old(submitted)
        invariant forall k :: 0 <= k < |workers| ==> workers[k].thread == old(workers[k].thread)
        invariant forall k :: 0 <= k < |workers| && old(workers[k].state) == Stopped ==>
                    workers[k].state == Stopped
        decreases |queue|
      {
        CountRunningNone(workers);
        assert queue != [];
        var j :| 0 <= j < |workers| && workers[j].state == Running;
        Step(j);
      }
    }

    /** The second loop of `drop`: takes each worker's handle, leaving
        `None`, and joins its thread, in worker order. */
    method JoinAll()
      requires Valid() && dropped
      requires forall k :: 0 <= k < |workers| ==> workers[k].thread.Some?
      modifies this
      ensures Valid() && dropped
      ensures |workers| == old(|workers|) && submitted == old(submitted)
      ensures forall k :: 0 <= k < |workers| ==> workers[k].thread == None && workers[k].state == Stopped
      ensures |workers| == 0 ==> queue == old(queue) && ran == old(ran)
    {
      for k := 0 to |workers|
        invariant Valid() && dropped
        invariant |workers| == old(|workers|) && submitted == old(submitted)
        invariant forall m :: 0 <= m < k ==> workers[m].thread == None && workers[m].state == Stopped
        invariant forall m :: k <= m < |workers| ==> workers[m].thread.Some?
        invariant |workers| == 0 ==> queue == old(queue) && ran == old(ran)
      {
        var thread := workers[k].thread;
        CountRunningUpdate(workers, k, workers[k].(thread := None));
        workers := workers[k := workers[k].(thread := None)];
        if thread.Some? {
          Join(k);
        }
      }
    }

    /** `Drop::drop`. With at least one worker, every job queued before
        teardown has been received exactly once, in queue order (the order
        of execution is not modelled), and the channel is empty; every
        worker has stopped and given up its handle. A pool without workers
        receives nothing. */
    method Drop()
      requires Valid() && !dropped
      modifies this
      ensures Valid() && dropped
      ensures |workers| == old(|workers|) && submitted == old(submitted)
      ensures forall k :: 0 <= k < |workers| ==> workers[k] == Worker(k, None, Stopped)
      ensures |workers| > 0 ==> queue == [] && ran == old(ran) + PendingJobs(old(queue))
      ensures |workers| == 0 ==> queue == old(queue) && ran == old(ran)
    {
      SendTerminates();
      JoinAll();
      CountRunningNone(workers);
      if |workers| > 0 {
        EmptyQueue(queue);
      }
    }
  }
}
