/** The server's start-up options (src/options.rs). */
module Options {
  import opened Wrappers

  /** The listening address and the size of the worker pool. */
  datatype Options = Options(addr: string, workers: nat)

  /** `Options::new`. Its `assert!(workers > 0)` aborts the program for an
      empty pool; the abort is the `None` result. This is the only place
      where a pool without workers is refused. */
  function New(addr: string, workers: nat): (r: Option<Options>)
    ensures r.Some? <==> workers > 0
    ensures r.Some? ==> r.value.addr == addr && r.value.workers == workers
    ensures r.Some? ==> r.value.workers > 0
  {
    if workers > 0 then Some(Options(addr, workers)) else None
  }
}
