/** A worker of the pool (src/worker.rs): its identity, the handle of the
    thread it spawned, and the status of that thread's receive loop. A job
    is an opaque identifier; running it is recorded, not performed. */
module Workers {
  import opened Wrappers

  type JobId = nat

  /** What travels on the pool's channel. */
  datatype Message = NewJob(job: JobId) | Terminate

  /** Whether the worker's thread is still in its loop or has left it. */
  datatype LoopState = Running | Stopped

  /** The join handle of the thread spawned for worker `worker`. */
  datatype JoinHandle = JoinHandle(worker: nat)

  /** `Worker { id, thread }`, together with the state of its thread. */
  datatype Worker = Worker(id: nat, thread: Option<JoinHandle>, state: LoopState)

  /** `Worker::new`: spawns the thread, whose loop starts running, and keeps
      its handle. */
  function New(id: nat): (w: Worker)
    ensures w.id == id && w.thread.Some? && w.thread.value.worker == id
    ensures w.state == Running
  {
    Worker(id, Some(JoinHandle(id)), Running)
  }

  /** One pass of the loop of a running worker on the message it received:
      a job is executed once and the loop goes on; `Terminate` ends the
      loop. The result is the worker afterwards and the job it executed. */
  function Receive(w: Worker, m: Message): (r: (Worker, Option<JobId>))
    requires w.state == Running
    ensures r.0.id == w.id && r.0.thread == w.thread
    ensures r.0.state == Stopped <==> m.Terminate?
    ensures r.1.Some? <==> m.NewJob?
    ensures m.NewJob? ==> r.1 == Some(m.job)
  {
    match m
    case NewJob(job) => (w, Some(job))
    case Terminate => (w.(state := Stopped), None)
  }
}
