/** The canned-response logic of `WebServer` (src/webserver.rs): choosing a
    status and a page from the first bytes of a request, and laying out the
    response text. Reading the socket, opening the page and writing the
    answer are I/O and are not part of this module. */
module WebServer {
  import opened Wrappers
  import opened Http
  import Options
  import ThreadPool
  import Workers

  /** `get_response`: the status and page for a request buffer. Only the two
      literal request lines are recognised; every other buffer is answered
      with the not-found page. The five-second sleep of the "/sleep" branch
      does not change the answer and is not modelled. */
  function GetResponse(buffer: Buffer): (r: (string, string))
    ensures r.0 == Ok || r.0 == NotFound
    ensures r.1 == NotFoundPage <==> r.0 == NotFound
    ensures r.1 == HelloPage <==> r.0 == Ok
    ensures r.0 == Ok <==> StartsWith(buffer, RootRequestLine) || StartsWith(buffer, SleepRequestLine)
  {
    var get := Ascii("GET / HTTP/1.1\r\n");
    var sleep := Ascii("GET /sleep HTTP/1.1\r\n");
    if StartsWith(buffer, get) then
      ("200 OK", "hello.html")
    else if StartsWith(buffer, sleep) then
      ("200 OK", "hello.html")
    else
      ("404 NOT FOUND", "404.html")
  }

  /** The answer is decided by the request line alone: the hello page for
      exactly "GET / HTTP/1.1" and "GET /sleep HTTP/1.1", the not-found page
      for any other line and for a buffer without a CRLF. */
  lemma GetResponseByRequestLine(buffer: Buffer)
    ensures GetResponse(buffer) ==
      if RequestLine(buffer) == Some(RootLine) || RequestLine(buffer) == Some(SleepLine)
      then (Ok, HelloPage) else (NotFound, NotFoundPage)
  {
    RootRequestLineSplit();
    SleepRequestLineSplit();
    StartsWithRequestLine(buffer, RootLine);
    StartsWithRequestLine(buffer, SleepLine);
  }

  /** The two prefix tests exclude each other, so testing "/sleep" first
      would give the same answer for every buffer. */
  lemma GetResponseCheckOrder(buffer: Buffer)
    ensures GetResponse(buffer) ==
      if StartsWith(buffer, SleepRequestLine) then (Ok, HelloPage)
      else if StartsWith(buffer, RootRequestLine) then (Ok, HelloPage)
      else (NotFound, NotFoundPage)
  {
  }

  /** `format_response`: the status line "HTTP/1.1 <status>", an empty
      header section and the contents as the body. */
  function FormatResponse(status: string, contents: string): (r: string)
    ensures |r| == 9 + |status| + 4 + |contents|
    ensures StartsWith(r, StatusPrefix + status + EmptyLine)
    ensures r[|r| - |contents|..] == contents
  {
    var httpVersion := "HTTP/1.1";
    httpVersion + " " + status + "\r\n\r\n" + contents
  }

  /** A status without a carriage return is read back unchanged, and so is
      every body, whatever it holds. */
  lemma FormatResponseRoundTrip(status: string, contents: string)
    requires '\r' !in status
    ensures ParseResponse(FormatResponse(status, contents)) == Some((status, contents))
  {
    var r := FormatResponse(status, contents);
    var k := |StatusPrefix| + |status|;
    assert r == StatusPrefix + status + EmptyLine + contents;
    assert r[k..k + 4] == EmptyLine;
    forall j | 0 <= j < k ensures r[j] != EmptyLine[0] {
      if j < |StatusPrefix| {
        assert r[j] == StatusPrefix[j];
      } else {
        assert r[j] == status[j - |StatusPrefix|];
      }
    }
    FirstOccurrence(r, EmptyLine, k);
    assert r[..k] == StatusPrefix + status;
    assert (StatusPrefix + status)[|StatusPrefix|..] == status;
    assert r[k + 4..] == contents;
  }

  /** Conversely, every text a client accepts as a response is the layout of
      the status and body it reads from it. */
  lemma ParseResponseIsFormat(response: string)
    ensures ParseResponse(response).Some? ==>
      FormatResponse(ParseResponse(response).value.0, ParseResponse(response).value.1) == response
  {
  }

  /** The pool side of `WebServer::run`: a pool of `options.workers`
      workers, one job submitted per accepted connection, and the pool
      dropped at the end. The listener's connections are a finite sequence
      of job identifiers. After the n-th submission, the workers listed in
      `schedule[n]` each take one pass of their loop (an index that names
      no worker is skipped), so any interleaving of receives with
      submissions can be described. A failed send panics in the source:
      `aborted` reports it, the accept loop stops, and the pool is dropped
      while unwinding. `handled` is the jobs in the order the workers
      received them. */
  method Run(options: Options.Options, connections: seq<Workers.JobId>, schedule: seq<seq<nat>>)
    returns (handled: seq<Workers.JobId>, aborted: bool)
    ensures options.workers > 0 ==> !aborted && handled == connections
    ensures options.workers == 0 ==> handled == [] && (aborted <==> connections != [])
  {
    var pool := new ThreadPool.ThreadPool(options.workers);
    aborted := false;
    var n := 0;
    while n < |connections|
      invariant 0 <= n <= |connections|
      invariant fresh(pool) && pool.Valid() && !pool.dropped
      invariant |pool.workers| == options.workers && pool.submitted == connections[..n]
      invariant options.workers == 0 ==> n == 0 && pool.ran == []
      invariant aborted ==> options.workers == 0 && n < |connections|
    {
      var sent := pool.Execute(connections[n]);
      if !sent {
        aborted := true;
        break;
      }
      assert connections[..n + 1] == connections[..n] + [connections[n]];
      if n < |schedule| {
        for m := 0 to |schedule[n]|
          invariant pool.Valid() && !pool.dropped
          invariant |pool.workers| == options.workers && pool.submitted == connections[..n + 1]
        {
          if schedule[n][m] < |pool.workers| {
            pool.Step(schedule[n][m]);
          }
        }
      }
      n := n + 1;
    }
    assert !aborted ==> pool.submitted == connections;
    pool.Drop();
    handled := pool.ran;
  }
}
