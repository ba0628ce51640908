/**
 * The crawler's main loop: the first `k` rows of the ranked-domain CSV are
 * read in chunks of `SAVE_EVERY`; for every chunk, every name server's
 * worker starts from an empty store, runs `collect` on each sub-batch of
 * `BATCH` domains and saves its store as `"{first}-{last}.txt"` in the
 * server's directory. The workers of one chunk are independent (each owns
 * its store), so they run one after the other here.
 */
module Crawler {
  import opened Text
  import opened Dns
  import opened Collect
  import opened Batching
  import opened Rows

  const REPEAT: nat := 10
  const BATCH: nat := 100
  const SAVE_EVERY: nat := 1000

  // ---------------------------------------------------------------------
  // Snapshot file names
  // ---------------------------------------------------------------------

  /** `format!("{}-{}.txt", first, last)`. */
  function FileName(first: nat, last: nat): string
  {
    DecimalString(first) + "-" + DecimalString(last) + ".txt"
  }

  lemma DecimalStringInjective(a: nat, b: nat)
    requires DecimalString(a) == DecimalString(b)
    ensures a == b
  {
    DecimalStringValue(a);
    DecimalStringValue(b);
  }

  /** Where the first '-' of a string is (its length when it has none). */
  function FirstDash(s: string): nat
  {
    if s == [] || s[0] == '-' then 0 else 1 + FirstDash(s[1..])
  }

  lemma {:induction false} FirstDashAfterDigits(x: string, u: string)
    requires AllDigits(x)
    ensures FirstDash(x + "-" + u) == |x|
  {
    if x != [] {
      assert (x + "-" + u)[1..] == x[1..] + "-" + u;
      FirstDashAfterDigits(x[1..], u);
    }
  }

  /** A string of digits followed by '-' can be cut at the dash in one way only. */
  lemma SplitAtDash(x: string, u: string, y: string, v: string)
    requires AllDigits(x) && AllDigits(y)
    requires x + "-" + u == y + "-" + v
    ensures x == y && u == v
  {
    var s := x + "-" + u;
    FirstDashAfterDigits(x, u);
    FirstDashAfterDigits(y, v);
    assert x == s[..|x|] == y;
    assert u == s[|x| + 1..] == v;
  }

  /** Different ranges give different file names, so no snapshot overwrites another. */
  lemma FileNameInjective(a: nat, b: nat, c: nat, d: nat)
    requires FileName(a, b) == FileName(c, d)
    ensures a == c && b == d
  {
    var da, db, dc, dd := DecimalString(a), DecimalString(b), DecimalString(c), DecimalString(d);
    assert FileName(a, b) == da + "-" + (db + ".txt");
    assert FileName(c, d) == dc + "-" + (dd + ".txt");
    SplitAtDash(da, db + ".txt", dc, dd + ".txt");
    assert |db| == |dd|;
    assert db == (db + ".txt")[..|db|] == (dd + ".txt")[..|dd|] == dd;
    DecimalStringInjective(a, c);
    DecimalStringInjective(b, d);
  }

  // ---------------------------------------------------------------------
  // Workers
  // ---------------------------------------------------------------------

  /**
   * One run of `dig`, as `collect` issues it: the server, the batch, the
   * record type, the progress index of the batch and the repeat number.
   */
  datatype QueryCall = QueryCall(host: string, names: seq<string>, recordType: RecordType, progress: nat, round: nat)

  /** What `dig` answers to each run. */
  type Backend = QueryCall -> DigOutput

  /** The `REPEAT` outputs of `collect(server, batch, A, REPEAT, ...)` for batch number `progress`. */
  function Outputs(backend: Backend, host: string, batch: seq<string>, progress: nat): seq<DigOutput>
  {
    seq(REPEAT, r requires 0 <= r < REPEAT => backend(QueryCall(host, batch, RecordType.A, progress, r)))
  }

  /** The valid records one batch contributes: repeat after repeat, line after line. */
  function BatchRecords(p: Parsers, host: string, batch: seq<string>, progress: nat, backend: Backend): seq<Record>
  {
    ValidOf(Rounds(p, batch, Outputs(backend, host, batch, progress)))
  }

  /** The valid lines of the first `n` runs of `dig` for one batch, run after run. */
  function RepeatRecords(p: Parsers, host: string, batch: seq<string>, progress: nat, backend: Backend, n: nat): seq<Record>
  {
    if n == 0 then []
    else RepeatRecords(p, host, batch, progress, backend, n - 1)
           + ValidIn(Responses(p, batch, backend(QueryCall(host, batch, RecordType.A, progress, n - 1))))
  }

  lemma {:induction false} RepeatPrefix(p: Parsers, host: string, batch: seq<string>, progress: nat, backend: Backend, n: nat)
    requires n <= REPEAT
    ensures ValidOf(Rounds(p, batch, Outputs(backend, host, batch, progress))[..n])
            == RepeatRecords(p, host, batch, progress, backend, n)
  {
    var rounds := Rounds(p, batch, Outputs(backend, host, batch, progress));
    if n == 0 {
      assert rounds[..0] == [];
    } else {
      var out := backend(QueryCall(host, batch, RecordType.A, progress, n - 1));
      RepeatPrefix(p, host, batch, progress, backend, n - 1);
      RoundsStep(rounds, n - 1);
      assert Outputs(backend, host, batch, progress)[n - 1] == out;
      assert rounds[n - 1] == Responses(p, batch, out);
    }
  }

  /**
   * What one batch contributes is what `REPEAT` runs of `dig` for record
   * type A on that server, batch and progress index answer, run after run
   * and line after line, keeping the lines that parse.
   */
  lemma BatchRecordsByRepeat(p: Parsers, host: string, batch: seq<string>, progress: nat, backend: Backend)
    ensures BatchRecords(p, host, batch, progress, backend) == RepeatRecords(p, host, batch, progress, backend, REPEAT)
  {
    var rounds := Rounds(p, batch, Outputs(backend, host, batch, progress));
    RepeatPrefix(p, host, batch, progress, backend, REPEAT);
    assert rounds[..REPEAT] == rounds;
  }

  /** The valid records a worker enters for its first `count` batches, in order. */
  function WorkerRecords(p: Parsers, host: string, batches: seq<seq<string>>, count: nat, first: nat, backend: Backend): seq<Record>
    requires count <= |batches|
  {
    if count == 0 then []
    else WorkerRecords(p, host, batches, count - 1, first, backend)
           + BatchRecords(p, host, batches[count - 1], first + count - 1, backend)
  }

  /**
   * The store a worker saves: starting from an empty store, every batch
   * collected in order, batch `i` with progress index `first + i`.
   */
  function WorkerSpec(p: Parsers, host: string, batches: seq<seq<string>>, first: nat, backend: Backend): Store
  {
    ObserveAll(map[], WorkerRecords(p, host, batches, |batches|, first, backend))
  }

  lemma WorkerStep(p: Parsers, host: string, batches: seq<seq<string>>, i: nat, first: nat, backend: Backend, m: Store)
    requires i < |batches|
    requires m == ObserveAll(map[], WorkerRecords(p, host, batches, i, first, backend))
    ensures CollectSpec(m, p, batches[i], Outputs(backend, host, batches[i], first + i))
      == ObserveAll(map[], WorkerRecords(p, host, batches, i + 1, first, backend))
  {
    ObserveAllAppend(map[], WorkerRecords(p, host, batches, i, first, backend),
      BatchRecords(p, host, batches[i], first + i, backend));
  }

  /** A saved store is well formed, and its counts add up to the valid records the worker saw. */
  lemma WorkerSpecTotal(p: Parsers, host: string, batches: seq<seq<string>>, first: nat, backend: Backend)
    ensures WellFormed(WorkerSpec(p, host, batches, first, backend))
    ensures Total(WorkerSpec(p, host, batches, first, backend)) == |WorkerRecords(p, host, batches, |batches|, first, backend)|
  {
    var rs := WorkerRecords(p, host, batches, |batches|, first, backend);
    ObserveAllWellFormed(map[], rs);
    ObserveAllTotal(map[], rs);
  }

  /**
   * The worker thread of one server for one chunk: a fresh `AllDomains`,
   * then `collect` on every sub-batch of `BATCH` domains, the i-th labelled
   * `first + i`.
   */
  method RunWorker(p: Parsers, server: NameServer, chunk: seq<string>, first: nat, backend: Backend)
    returns (store: AllDomains)
    ensures fresh(store) && store.Valid()
    ensures store.entries == WorkerSpec(p, server.host, Chunks(chunk, BATCH), first, backend)
  {
    store := new AllDomains();
    var batches := Chunks(chunk, BATCH);
    for i := 0 to |batches|
      invariant store.Valid()
      invariant store.entries == ObserveAll(map[], WorkerRecords(p, server.host, batches, i, first, backend))
    {
      WorkerStep(p, server.host, batches, i, first, backend, store.entries);
      var outputs := Outputs(backend, server.host, batches[i], first + i);
      var _, _, _ := Collect.Collect(p, batches[i], REPEAT, outputs, store);
    }
  }

  // ---------------------------------------------------------------------
  // The chunk loop
  // ---------------------------------------------------------------------

  /** The chunks the main loop processes, and whether it ended normally (not by a panic in `take_n`). */
  datatype Run = Run(chunks: seq<seq<string>>, completed: bool)

  /** `take_n(SAVE_EVERY, ...)` repeated until it returns nothing or panics. */
  function ChunkRun(rows: seq<CsvRow>): (run: Run)
    ensures forall c :: 0 <= c < |run.chunks| ==> 0 < |run.chunks[c]| <= SAVE_EVERY
    decreases |rows|
  {
    var t := TakeSpec(rows, SAVE_EVERY);
    if !t.ok then Run([], false)
    else if t.names == [] then Run([], true)
    else
      var rest := ChunkRun(rows[t.consumed..]);
      Run([t.names] + rest.chunks, rest.completed)
  }

  /** The loop ends normally exactly when every row read has a domain. */
  lemma {:induction false} ChunkRunCompleted(rows: seq<CsvRow>)
    ensures ChunkRun(rows).completed <==> forall i :: 0 <= i < |rows| ==> HasDomain(rows[i])
    decreases |rows|
  {
    var t := TakeSpec(rows, SAVE_EVERY);
    TakeOkIff(rows, SAVE_EVERY);
    if t.ok && t.names != [] {
      var rest := rows[t.consumed..];
      ChunkRunCompleted(rest);
      forall i | 0 <= i < |rest| ensures rest[i] == rows[t.consumed + i] { }
      if ChunkRun(rest).completed {
        forall i | 0 <= i < |rows| ensures HasDomain(rows[i]) {
          if i >= t.consumed {
            assert rows[i] == rest[i - t.consumed];
          }
        }
      }
    } else if t.ok {
      assert |rows| == 0;
    }
  }

  /**
   * On well-formed rows the loop's chunks are the chunks of `SAVE_EVERY`
   * of the domain column: they put back together to all domains, in order,
   * and all but the last are full.
   */
  lemma {:induction false} ChunkRunChunks(rows: seq<CsvRow>)
    requires forall i :: 0 <= i < |rows| ==> HasDomain(rows[i])
    ensures ChunkRun(rows) == Run(Chunks(Domains(rows), SAVE_EVERY), true)
    decreases |rows|
  {
    TakeOfDomains(rows, SAVE_EVERY);
    var ds := Domains(rows);
    if |rows| > SAVE_EVERY {
      var rest := rows[SAVE_EVERY..];
      ChunkRunChunks(rest);
      assert ds[SAVE_EVERY..] == Domains(rest);
    } else if rows != [] {
      assert ds[..|rows|] == ds;
      assert rows[|rows|..] == [];
      assert ChunkRun([]) == Run([], true);
    }
  }

  /** `batch_counter` before a chunk: 1, plus ceil(len / BATCH) for every earlier chunk. */
  function ProgressBase(before: seq<seq<string>>): (b: nat)
    ensures b >= 1
  {
    if before == [] then 1
    else ProgressBase(before[..|before| - 1]) + CeilDiv(|before[|before| - 1]|, BATCH)
  }

  /** The snapshot one server's worker saves for the chunk after `before`. */
  function SnapshotAt(p: Parsers, server: NameServer, before: seq<seq<string>>, chunk: seq<string>, backend: Backend): Snapshot
  {
    var done := |Concat(before)|;
    Snapshot(server.name, FileName(done + 1, done + |chunk|),
      WorkerSpec(p, server.host, Chunks(chunk, BATCH), ProgressBase(before), backend))
  }

  /** `snapshots[c][s]` is what server `s` saved for chunk `c`, for every chunk and server. */
  ghost predicate Saved(p: Parsers, servers: seq<NameServer>, chunks: seq<seq<string>>, snapshots: seq<seq<Snapshot>>, backend: Backend)
  {
    && |snapshots| == |chunks|
    && (forall c :: 0 <= c < |chunks| ==> |snapshots[c]| == |servers|)
    && (forall c, s :: 0 <= c < |chunks| && 0 <= s < |servers| ==>
          snapshots[c][s] == SnapshotAt(p, servers[s], chunks[..c], chunks[c], backend))
  }

  lemma SavedAppend(p: Parsers, servers: seq<NameServer>, chunks: seq<seq<string>>, snapshots: seq<seq<Snapshot>>,
                    backend: Backend, names: seq<string>, row: seq<Snapshot>)
    requires Saved(p, servers, chunks, snapshots, backend)
    requires |row| == |servers|
    requires forall s :: 0 <= s < |servers| ==> row[s] == SnapshotAt(p, servers[s], chunks, names, backend)
    ensures Saved(p, servers, chunks + [names], snapshots + [row], backend)
  {
    var chunks', snapshots' := chunks + [names], snapshots + [row];
    forall c, s | 0 <= c < |chunks'| && 0 <= s < |servers|
      ensures snapshots'[c][s] == SnapshotAt(p, servers[s], chunks'[..c], chunks'[c], backend)
    {
      assert chunks'[..c] == chunks[..c] || c == |chunks|;
      if c == |chunks| {
        assert chunks'[..c] == chunks;
      }
    }
  }

  /** One more `take_n(SAVE_EVERY, ...)` of the main loop, from row `pos` on, after `chunks`. */
  lemma ChunkRunAdvance(input: seq<CsvRow>, pos: nat, chunks: seq<seq<string>>)
    requires pos <= |input|
    requires ChunkRun(input) == Run(chunks + ChunkRun(input[pos..]).chunks, ChunkRun(input[pos..]).completed)
    ensures var t := TakeSpec(input[pos..], SAVE_EVERY);
      && (!t.ok ==> ChunkRun(input) == Run(chunks, false))
      && (t.ok && t.names == [] ==> ChunkRun(input) == Run(chunks, true))
      && (t.ok && t.names != [] ==>
            var rest := ChunkRun(input[pos + t.consumed..]);
            ChunkRun(input) == Run((chunks + [t.names]) + rest.chunks, rest.completed))
  {
    var here := input[pos..];
    var t := TakeSpec(here, SAVE_EVERY);
    if !t.ok || t.names == [] {
      ChunkRunStops(here, chunks);
    } else {
      ChunkRunGoesOn(input, pos, chunks);
    }
  }

  lemma ChunkRunStops(here: seq<CsvRow>, chunks: seq<seq<string>>)
    requires var t := TakeSpec(here, SAVE_EVERY); !t.ok || t.names == []
    ensures chunks + ChunkRun(here).chunks == chunks
    ensures ChunkRun(here).completed == TakeSpec(here, SAVE_EVERY).ok
  {
    ChunkRunStep(here);
    assert chunks + [] == chunks;
  }

  lemma ChunkRunGoesOn(input: seq<CsvRow>, pos: nat, chunks: seq<seq<string>>)
    requires pos <= |input|
    requires var t := TakeSpec(input[pos..], SAVE_EVERY); t.ok && t.names != []
    ensures var t := TakeSpec(input[pos..], SAVE_EVERY);
      var rest := ChunkRun(input[pos + t.consumed..]);
      && chunks + ChunkRun(input[pos..]).chunks == (chunks + [t.names]) + rest.chunks
      && ChunkRun(input[pos..]).completed == rest.completed
  {
    var here := input[pos..];
    var t := TakeSpec(here, SAVE_EVERY);
    ChunkRunStep(here);
    assert here[t.consumed..] == input[pos + t.consumed..];
    var rest := ChunkRun(input[pos + t.consumed..]);
    assert chunks + ([t.names] + rest.chunks) == (chunks + [t.names]) + rest.chunks;
  }

  lemma ChunkRunStep(rows: seq<CsvRow>)
    ensures var t := TakeSpec(rows, SAVE_EVERY);
      && (!t.ok ==> ChunkRun(rows) == Run([], false))
      && (t.ok && t.names == [] ==> ChunkRun(rows) == Run([], true))
      && (t.ok && t.names != [] ==>
            var rest := ChunkRun(rows[t.consumed..]);
            ChunkRun(rows) == Run([t.names] + rest.chunks, rest.completed))
  {
  }

  /** The running counters after one more chunk. */
  lemma CountersAppend(chunks: seq<seq<string>>, names: seq<string>)
    ensures |Concat(chunks + [names])| == |Concat(chunks)| + |names|
    ensures ProgressBase(chunks + [names]) == ProgressBase(chunks) + CeilDiv(|names|, BATCH)
  {
    ConcatAppend(chunks, [names]);
    assert Concat([names]) == names + Concat<string>([]);
    assert (chunks + [names])[..|chunks|] == chunks;
  }

  /** A saved file: the server's directory, the file name and the store in it. */
  datatype Snapshot = Snapshot(dir: string, file: string, store: Store)

  /** One server's worker for the chunk after `before`, and the snapshot it saves. */
  method SaveServer(p: Parsers, server: NameServer, ghost before: seq<seq<string>>, names: seq<string>,
                    batchCounter: nat, accumulated: nat, backend: Backend)
    returns (snap: Snapshot)
    requires accumulated == |Concat(before)| && batchCounter == ProgressBase(before)
    ensures snap == SnapshotAt(p, server, before, names, backend)
  {
    var store := RunWorker(p, server, names, batchCounter, backend);
    var file := FileName(accumulated + 1, accumulated + |names|);
    snap := Snapshot(server.name, file, store.entries);
  }

  /**
   * The workers of all servers for one chunk, given the running
   * `batch_counter` and `accumulated` of the chunks before it.
   */
  method SaveChunk(p: Parsers, servers: seq<NameServer>, ghost before: seq<seq<string>>, names: seq<string>,
                   batchCounter: nat, accumulated: nat, backend: Backend)
    returns (row: seq<Snapshot>)
    requires accumulated == |Concat(before)| && batchCounter == ProgressBase(before)
    ensures |row| == |servers|
    ensures forall s :: 0 <= s < |servers| ==> row[s] == SnapshotAt(p, servers[s], before, names, backend)
  {
    ghost var expected := seq(|servers|, s requires 0 <= s < |servers| => SnapshotAt(p, servers[s], before, names, backend));
    row := [];
    for s := 0 to |servers|
      invariant row == expected[..s]
    {
      var snap := SaveServer(p, servers[s], before, names, batchCounter, accumulated, backend);
      row := row + [snap];
    }
  }

  /**
   * The state of `main`'s loop after `chunks`, with the iterator at row
   * `pos` of the `k` rows: the chunks still to come are those of the rest
   * of the rows, every snapshot so far was saved, and the two counters hold
   * the number of rows and (plus one) of batches done.
   */
  ghost predicate LoopState(p: Parsers, servers: seq<NameServer>, input: seq<CsvRow>, pos: nat,
                            chunks: seq<seq<string>>, snapshots: seq<seq<Snapshot>>,
                            accumulated: nat, batchCounter: nat, backend: Backend)
  {
    && pos <= |input|
    && ChunkRun(input) == Run(chunks + ChunkRun(input[pos..]).chunks, ChunkRun(input[pos..]).completed)
    && Saved(p, servers, chunks, snapshots, backend)
    && accumulated == |Concat(chunks)|
    && batchCounter == ProgressBase(chunks)
  }

  lemma LoopStart(p: Parsers, servers: seq<NameServer>, input: seq<CsvRow>, backend: Backend)
    ensures LoopState(p, servers, input, 0, [], [], 0, 1, backend)
  {
    assert input[0..] == input;
    assert [] + ChunkRun(input).chunks == ChunkRun(input).chunks;
  }

  lemma LoopStep(p: Parsers, servers: seq<NameServer>, input: seq<CsvRow>, pos: nat,
                 chunks: seq<seq<string>>, snapshots: seq<seq<Snapshot>>,
                 accumulated: nat, batchCounter: nat, backend: Backend, row: seq<Snapshot>)
    requires LoopState(p, servers, input, pos, chunks, snapshots, accumulated, batchCounter, backend)
    requires var t := TakeSpec(input[pos..], SAVE_EVERY); t.ok && t.names != []
    requires |row| == |servers|
    requires forall s :: 0 <= s < |servers| ==>
      row[s] == SnapshotAt(p, servers[s], chunks, TakeSpec(input[pos..], SAVE_EVERY).names, backend)
    ensures var t := TakeSpec(input[pos..], SAVE_EVERY);
      LoopState(p, servers, input, pos + t.consumed, chunks + [t.names], snapshots + [row],
                accumulated + |t.names|, batchCounter + CeilDiv(|t.names|, BATCH), backend)
  {
    var t := TakeSpec(input[pos..], SAVE_EVERY);
    ChunkRunAdvance(input, pos, chunks);
    SavedAppend(p, servers, chunks, snapshots, backend, t.names, row);
    CountersAppend(chunks, t.names);
  }

  lemma LoopEnd(p: Parsers, servers: seq<NameServer>, input: seq<CsvRow>, pos: nat,
                chunks: seq<seq<string>>, snapshots: seq<seq<Snapshot>>,
                accumulated: nat, batchCounter: nat, backend: Backend)
    requires LoopState(p, servers, input, pos, chunks, snapshots, accumulated, batchCounter, backend)
    requires var t := TakeSpec(input[pos..], SAVE_EVERY); !t.ok || t.names == []
    ensures ChunkRun(input) == Run(chunks, TakeSpec(input[pos..], SAVE_EVERY).ok)
  {
    ChunkRunAdvance(input, pos, chunks);
  }

  /**
   * One turn of `main`'s loop: take the next chunk and, unless it is empty
   * or `take_n` panicked, have every server save its snapshot of it.
   */
  method CrawlStep(p: Parsers, servers: seq<NameServer>, iter: RecordIter, ghost input: seq<CsvRow>,
                   ghost chunks: seq<seq<string>>, ghost snapshots: seq<seq<Snapshot>>,
                   accumulated: nat, batchCounter: nat, backend: Backend)
    returns (stop: bool, ok: bool, names: seq<string>, row: seq<Snapshot>)
    requires iter.Valid() && iter.rows == input
    requires LoopState(p, servers, input, iter.pos, chunks, snapshots, accumulated, batchCounter, backend)
    modifies iter
    ensures iter.Valid() && iter.rows == input
    ensures stop ==> ChunkRun(input) == Run(chunks, ok)
    ensures !stop ==> (old(iter.pos) < iter.pos &&
      LoopState(p, servers, input, iter.pos, chunks + [names], snapshots + [row],
                accumulated + |names|, batchCounter + CeilDiv(|names|, BATCH), backend))
  {
    ghost var pos := iter.pos;
    names, ok := iter.TakeN(SAVE_EVERY);
    if !ok || names == [] {
      LoopEnd(p, servers, input, pos, chunks, snapshots, accumulated, batchCounter, backend);
      return true, ok, names, [];
    }
    stop := false;
    row := SaveChunk(p, servers, chunks, names, batchCounter, accumulated, backend);
    LoopStep(p, servers, input, pos, chunks, snapshots, accumulated, batchCounter, backend, row);
  }

  /**
   * `main`'s loop over chunks, for the first `k` rows. `snapshots[c][s]` is
   * what server `s` saved for chunk `c`; `completed == false` stands for the
   * panic in `take_n`, after which nothing more is saved. `batches` is the
   * final `batch_counter - 1` and `nBatches` the `n_batches` shown in the
   * progress lines.
   */
  method Crawl(p: Parsers, servers: seq<NameServer>, rows: seq<CsvRow>, k: nat, backend: Backend)
    returns (snapshots: seq<seq<Snapshot>>, completed: bool, batches: nat, nBatches: nat)
    ensures var run := ChunkRun(rows[..Min(k, |rows|)]);
      && completed == run.completed
      && Saved(p, servers, run.chunks, snapshots, backend)
      && batches + 1 == ProgressBase(run.chunks)
    ensures nBatches == CeilDiv(k, BATCH)
  {
    nBatches := (k + BATCH - 1) / BATCH;
    ghost var input := rows[..Min(k, |rows|)];
    var iter := new RecordIter(rows[..Min(k, |rows|)]);
    var batchCounter: nat, accumulated: nat := 1, 0;
    ghost var chunks: seq<seq<string>> := [];
    snapshots := [];
    LoopStart(p, servers, input, backend);
    while true
      invariant iter.Valid() && iter.rows == input
      invariant LoopState(p, servers, input, iter.pos, chunks, snapshots, accumulated, batchCounter, backend)
      decreases |input| - iter.pos
    {
      var stop, ok, names, row := CrawlStep(p, servers, iter, input, chunks, snapshots, accumulated, batchCounter, backend);
      if stop {
        completed := ok;
        batches := batchCounter - 1;
        return;
      }
      snapshots := snapshots + [row];
      chunks := chunks + [names];
      batchCounter := batchCounter + CeilDiv(|names|, BATCH);
      accumulated := accumulated + |names|;
    }
  }

  // ---------------------------------------------------------------------
  // Ranges and progress indices of a full crawl
  // ---------------------------------------------------------------------

  /**
   * The file of chunk `c` covers rows `SAVE_EVERY * c + 1` to
   * `min(SAVE_EVERY * (c + 1), N)`: the first file starts at 1, each starts
   * right after the previous one ends, and the last ends at N.
   */
  lemma FileRange(ds: seq<string>, c: nat)
    requires c < |Chunks(ds, SAVE_EVERY)|
    ensures var chunks := Chunks(ds, SAVE_EVERY);
      var done := |Concat(chunks[..c])|;
      && done == SAVE_EVERY * c
      && done + |chunks[c]| == Min(SAVE_EVERY * c + SAVE_EVERY, |ds|)
      && (c == |chunks| - 1 ==> done + |chunks[c]| == |ds|)
  {
    var chunks := Chunks(ds, SAVE_EVERY);
    ChunksPrefix(ds, SAVE_EVERY, c);
    ChunkAt(ds, SAVE_EVERY, c);
    ChunkStartIsProduct(SAVE_EVERY, c);
    if c == |chunks| - 1 {
      ChunksPrefix(ds, SAVE_EVERY, c + 1);
      ChunkStartFromSecond(SAVE_EVERY, c + 1);
      ChunksConcat(ds, SAVE_EVERY);
      assert chunks[..c + 1] == chunks;
    }
  }

  /** `batch_counter` counts the sub-batches of the chunks before. */
  lemma {:induction false} ProgressBaseCounts(before: seq<seq<string>>)
    ensures ProgressBase(before) == 1 + |SubChunks(before, BATCH)|
  {
    if before != [] {
      var i := |before| - 1;
      ProgressBaseCounts(before[..i]);
      SubChunksAppend(before[..i], [before[i]], BATCH);
      assert before[..i] + [before[i]] == before;
      ChunksCount(before[i], BATCH);
      assert SubChunks([before[i]], BATCH) == Chunks(before[i], BATCH) + SubChunks<string>([], BATCH);
    }
  }

  /**
   * Progress index `batch_counter + i` of sub-batch `i` of chunk `c` is the
   * position (counted from 1) of that sub-batch among the batches of 100 of
   * all domains, so the indices run 1, 2, ... without gaps or repeats.
   */
  lemma BatchLabel(ds: seq<string>, c: nat, i: nat)
    requires c < |Chunks(ds, SAVE_EVERY)|
    requires i < |Chunks(Chunks(ds, SAVE_EVERY)[c], BATCH)|
    ensures var chunks := Chunks(ds, SAVE_EVERY);
      var index := ProgressBase(chunks[..c]) + i;
      && 1 <= index <= |Chunks(ds, BATCH)|
      && Chunks(chunks[c], BATCH)[i] == Chunks(ds, BATCH)[index - 1]
  {
    var chunks := Chunks(ds, SAVE_EVERY);
    NestedChunks(ds, BATCH, 10);
    ChunkStartIsProduct(BATCH, 10);
    assert SubChunks(chunks, BATCH) == Chunks(ds, BATCH);
    ProgressBaseCounts(chunks[..c]);
    SubChunkAt(chunks, BATCH, c, i);
  }

  /**
   * After the last chunk, `batch_counter - 1` is the number of batches of
   * 100 of the N domains crawled, which is at most `n_batches`, and equal to
   * it when the file has at least `k` rows.
   */
  lemma BatchesBound(ds: seq<string>, k: nat)
    requires |ds| <= k
    ensures ProgressBase(Chunks(ds, SAVE_EVERY)) - 1 == CeilDiv(|ds|, BATCH) <= CeilDiv(k, BATCH)
    ensures |ds| == k ==> ProgressBase(Chunks(ds, SAVE_EVERY)) - 1 == CeilDiv(k, BATCH)
  {
    NestedChunks(ds, BATCH, 10);
    ChunkStartIsProduct(BATCH, 10);
    ProgressBaseCounts(Chunks(ds, SAVE_EVERY));
    ChunksCount(ds, BATCH);
    CeilDivMonotone(|ds|, k, BATCH);
  }

  /**
   * A crawl of the first `k` rows, all with a domain, ends normally, its
   * chunks cover the first min(k, rows) domains in order, and its final
   * `batch_counter - 1` is within `n_batches`.
   */
  lemma CrawlCoverage(rows: seq<CsvRow>, k: nat)
    requires forall i :: 0 <= i < Min(k, |rows|) ==> HasDomain(rows[i])
    ensures var input := rows[..Min(k, |rows|)];
      var run := ChunkRun(input);
      && run.completed
      && Concat(run.chunks) == Domains(input)
      && ProgressBase(run.chunks) - 1 <= CeilDiv(k, BATCH)
  {
    var input := rows[..Min(k, |rows|)];
    assert forall i :: 0 <= i < |input| ==> input[i] == rows[i];
    ChunkRunChunks(input);
    ChunksConcat(Domains(input), SAVE_EVERY);
    BatchesBound(Domains(input), k);
  }
}
