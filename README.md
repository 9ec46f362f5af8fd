# A verified model of rustbook-httpserver's response logic and thread pool

The repository is a small multi-threaded HTTP server. This project models
two parts of it.

1. **Canned responses.** A request is read into a zero-filled 512-byte
   buffer. `get_response` compares the buffer with two literal request
   lines, `GET / HTTP/1.1` and `GET /sleep HTTP/1.1` (request lines in the
   sense of section 3 of RFC 9112). It picks `200 OK` with `hello.html` or
   `404 NOT FOUND` with `404.html`. `format_response` lays out the status
   line `HTTP/1.1 <status>` (section 4 of RFC 9112), an empty header section
   and the page as the body. `WebServer` and `ConnectionHandler` each carry
   their own copy of both functions. The modules are `Http` (bytes, prefix
   tests, literals and two reference parsers), `WebServer` and
   `ConnectionHandler`.
2. **The thread pool.** `ThreadPool::new` spawns the workers. `execute`
   sends a job on the channel. Each worker loops on "receive the next
   message; run the job, or stop on `Terminate`". Dropping the pool sends one
   `Terminate` per worker and then joins every thread. The modules are
   `Workers` (messages, the worker record, one pass of the loop) and
   `ThreadPool` (the pool as a class).

The pool is modelled sequentially. The channel is a FIFO `seq<Message>`.
Every receive in the source goes through one mutex (src/worker.rs:17), so
receives happen one at a time. `Step(i)` is one pass of worker `i`'s loop.
Which running worker steps next is left to the caller, or chosen arbitrarily
while `Join` waits. The object invariant `ThreadPool.ThreadPool.Valid`
states:
- every job ever submitted has either been received by a worker or is
  still queued, in order;
- before teardown, every worker is running and no `Terminate` is queued;
- after teardown starts, the terminates come after all jobs, the number of
  queued terminates equals the number of running workers, and a worker
  stops only when no job is left in the queue.

This invariant is why each `join` in `drop` returns. While the awaited
worker is running, a `Terminate` is still queued. So some running worker
always has a message to take, and every such step shortens the queue.

Choices the code forces:
- `src/threadpool.rs` sends `Message::RunJob` from a `message` module, but
  `message` is not part of this model. `src/worker.rs` defines `Message`
  with a `NewJob` variant. The model has a single type,
  `Message = NewJob(job) | Terminate`.
- `ThreadPool::new` accepts a size of zero and then builds a pool with no
  workers (src/threadpool.rs:14-27). The model follows the code, not the
  stricter "size must be positive" intent. Only `Options::new` refuses zero
  workers. With no workers, no worker holds the channel's receiver, and
  `new` drops its own reference when it returns. So the channel is
  disconnected (`connected` is false), every `execute` fails its
  `send(..).unwrap()` (src/threadpool.rs:37) and panics (`sent` is false),
  and `WebServer.Run` aborts at the first connection.
- `Http.IndexOf` (first occurrence of a pattern), `Http.RequestLine` and
  `Http.ParseResponse` are reference definitions that state what the
  source's functions mean. They model no source line of their own.
- Integers are unbounded `nat`. The source's `usize` only counts workers and
  indexes them, so it never wraps.

## Model

| member | source | states |
|---|---|---|
| `WebServer.GetResponse` | src/webserver.rs:31-43 | the status is `200 OK` or `404 NOT FOUND`; the page is `hello.html` exactly for `200 OK` and `404.html` exactly for `404 NOT FOUND`; `200 OK` is returned exactly when the buffer starts with one of the two recognised request lines |
| `WebServer.GetResponseByRequestLine` | src/webserver.rs:31-43 | checked against an independent parser: the answer is the hello page exactly when the bytes before the first CRLF are `GET / HTTP/1.1` or `GET /sleep HTTP/1.1`; any other line, and a buffer with no CRLF (such as the all-zero buffer of an empty read), gets the not-found page |
| `WebServer.GetResponseCheckOrder` | src/webserver.rs:35-41 | testing `/sleep` before `/` gives the same answer for every buffer |
| `Http.RequestLinesExclusive` | src/webserver.rs:32-33 | no buffer starts with both recognised request lines (they differ at byte 5) |
| `Http.StartsWithRequestLine` | src/webserver.rs:35-37 | for a line with no carriage return, a buffer starts with that line plus CRLF exactly when that line is its request line |
| `WebServer.FormatResponse` | src/webserver.rs:57-60 | the response has length 9 + (length of status) + 4 + (length of contents), starts with `HTTP/1.1 ` + status + CRLF CRLF, and ends with the contents unchanged |
| `WebServer.FormatResponseRoundTrip` | src/webserver.rs:57-60 | if the status has no CR, splitting the response at its first CRLF CRLF and removing `HTTP/1.1 ` gives back exactly the status and the contents |
| `WebServer.ParseResponseIsFormat` | src/webserver.rs:57-60 | every text that parses as a response is the formatting of the status and body parsed from it |
| `WebServer.Run` | src/webserver.rs:14-22 | for every schedule of worker steps interleaved with the submissions: with at least one worker nothing aborts, and after the pool is dropped every connection's job has been received exactly once, in submission order; with zero workers the first submission aborts (so the run aborts exactly when there is a connection) and no job is received |
| `ConnectionHandler.GetResponse` | src/handler.rs:18-30 | the same outcome properties as `WebServer.GetResponse` |
| `ConnectionHandler.FormatResponse` | src/handler.rs:44-47 | the same layout properties as `WebServer.FormatResponse` |
| `ConnectionHandler.GetResponseAgrees` | src/handler.rs:18-30 | the handler's copy answers every buffer exactly as `WebServer.GetResponse` |
| `ConnectionHandler.FormatResponseAgrees` | src/handler.rs:44-47 | the handler's copy lays out every response exactly as `WebServer.FormatResponse` |
| `Options.New` | src/options.rs:7-14 | the result exists exactly when `workers > 0` (the `assert!` aborts otherwise); it holds the given address and worker count, so its pool has at least one worker |
| `Workers.New` | src/worker.rs:12-36 | the new worker has the given id, holds the handle of its own thread, and its loop is running |
| `Workers.Receive` | src/worker.rs:19-28 | on `NewJob(j)` exactly job `j` is executed and the worker keeps running; on `Terminate` no job is executed and the worker stops; the id and handle are unchanged |
| `ThreadPool.ThreadPool.constructor` | src/threadpool.rs:14-27 | exactly `size` workers with ids 0 to size - 1 in order, each running and holding its handle; the channel is empty; size 0 is accepted, and the channel is connected exactly when size > 0 |
| `ThreadPool.ThreadPool.Execute` | src/threadpool.rs:29-32 | the send succeeds exactly when the channel is connected (the pool has a worker); it then appends exactly one `NewJob` at the back of the channel, and otherwise (the panic of `unwrap`) nothing changes; workers and run log are unchanged; the invariant is kept |
| `ThreadPool.ThreadPool.DispatchJob` | src/threadpool.rs:34-38 | succeeds exactly when the receiver is still alive (at least one worker); then sends exactly one `NewJob` after everything already queued, otherwise sends nothing; nothing else changes |
| `ThreadPool.ThreadPool.Step` | src/worker.rs:16-29 | a running worker removes exactly the head message; a job is appended to the run log once and the worker keeps running; a `Terminate` stops that worker only; a stopped worker, or any worker facing an empty channel, changes nothing, so no worker consumes a second `Terminate`; the invariant is kept |
| `ThreadPool.ThreadPool.SendTerminates` | src/threadpool.rs:45-47 | the channel becomes the old channel followed by exactly one `Terminate` message per worker, and afterwards running workers equal queued terminates |
| `ThreadPool.ThreadPool.Join` | src/threadpool.rs:54-56 | the wait for worker `i` ends, with `i` stopped; handles are unchanged; a stopped worker stays stopped; the invariant is kept |
| `ThreadPool.ThreadPool.JoinAll` | src/threadpool.rs:51-57 | every worker's handle is taken (left `None`) and every worker is stopped; the worker count is unchanged |
| `ThreadPool.ThreadPool.Drop` | src/threadpool.rs:42-58 | with at least one worker, every job queued before teardown is received exactly once, in queue order, and the channel ends empty; every worker ends as `Worker(k, None, Stopped)` with its id kept; with no workers nothing is received and the channel is untouched |
| `ThreadPool.CountsAppend` | src/threadpool.rs:45-47 | sending messages after a queue adds their terminates to the count and their jobs after the pending jobs |
| `ThreadPool.TerminatesCounts` | src/threadpool.rs:45-47 | `n` terminate messages count `n` terminates and hold no job |
| `ThreadPool.TerminateFirstNoJobs` | src/worker.rs:24-27 | when a `Terminate` is at the head and jobs precede terminates, no job is pending, so stopping a worker loses no job |
| `ThreadPool.CountRunningUpdate` | src/worker.rs:24-27 | changing one worker changes the running count only by the change in that worker's state |
| `ThreadPool.CountRunningAll` | src/threadpool.rs:17-21 | the running count equals the worker count exactly when every worker is running |
| `ThreadPool.CountRunningNone` | src/threadpool.rs:51-57 | the running count is zero exactly when every worker has stopped |

## Left out

- Socket and file I/O: `read`, `write_response`, `get_file_contents`, `handle_connection`, `ConnectionHandler::handle` and the listener in `WebServer::run`. The 512-byte zero-filled buffer of `read` is the input type of `GetResponse`. `Run` takes the accepted connections as a finite sequence of job ids, and does not model what a connection's job does.
- The accept loop: `listener.incoming()` never ends (src/webserver.rs:18), so the source's `run` drops its pool only while unwinding from a panic. `WebServer.Run` describes a scenario, a finite run of connections followed by `Drop`, rather than the endless loop.
- Running a job is treated as happening at the moment the job is received. In the source, the mutex guard covers only `recv` (src/worker.rs:17) and is released before `job.execute()` (src/worker.rs:22). Received jobs then run concurrently on different workers, so the order in which jobs start and finish is not modelled. `ran` records the order in which jobs are received.
- Strings are modelled as sequences of characters, not as UTF-8 byte strings. `|status|` in `FormatResponse` counts characters where Rust's `len` counts bytes. The fixed parts of the layout are ASCII, so the layout is the same.
- `thread::sleep` in the `/sleep` branch: it is timing, not behaviour, so only its result is modelled.
- Real threads, the `Arc<Mutex<Receiver>>` and blocking `recv`/`join`. They are replaced by `Step` and an arbitrary choice of the next running worker. A blocking `recv` on an empty channel is a `Step` that changes nothing.
- Failures of `unwrap` on `lock`, `recv` and `join`, and jobs that panic and take their worker down: these failures are not part of this model.
- The `println!` logging in src/threadpool.rs and src/worker.rs: output only.
- src/job.rs and `Executor::execute` (src/worker.rs:39-49): boxed closures are opaque, so a job is a `JobId`. The one-shot property of `Executor::execute` shows up as the pool's bookkeeping: `Step` removes a message from the channel as it runs that message's job, and the invariant `submitted == ran + PendingJobs(queue)` means each submitted job runs at most once.
- `Execute` and `DispatchJob` require that teardown has not started. In the source, `drop` consumes the pool, so nothing can submit afterwards.
- src/bin/main.rs and src/lib.rs: only wiring and module declarations.
- `Http.Ascii` reduces characters modulo 256. Every literal it is applied to is ASCII, so nothing is reduced.
- `ThreadPool.ThreadPool.Join`: states which worker it waits for and that the invariant holds, but not which messages the other workers took meanwhile. That depends on the arbitrary schedule.
