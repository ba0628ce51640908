# dns-collect, modelled in Dafny

dns-collect measures how consistently public DNS resolvers answer. The
crawler reads the first `k` domains of a ranked CSV in chunks of 1000. For
every chunk and every configured name server, a worker starts from an empty
`AllDomains` store. It runs `collect` on each sub-batch of 100 domains:
`dig` is queried 10 times and every answer line is parsed into a record.
Every valid record is counted under its owner name and its TTL-free
identity. The worker then saves the store as `"{first}-{last}.txt"` in the
server's directory.

The reader merges each server's snapshots back into one store. It counts,
per bin of 100 top domains, how many domains each server answered. It
compares the servers' owner-name sets by union and by two- and three-way
intersection.

The project models that core:

| file | module | models |
|---|---|---|
| `wrappers.dfy` | `Wrappers` | `Option` and `Result` |
| `text.dfy` | `Text` | the std string helpers the code relies on: `split_ascii_whitespace`, `lines`, `u32::from_str`, decimal formatting, UTF-8 bytes |
| `dns.dfy` | `Dns` | names, record types (with the codes of section 3.2.2 of RFC 1035), rdata, records; the four borrowed parsers as a `Parsers` value |
| `record_wrapper.dfy` | `RecordWrappers` | `RecordWrapper`: equality and hash without the TTL |
| `collect.dfy` | `Collect` | the answer-line parser, `parse_record_data`, `query`, the `AllDomains` store and `collect` |
| `batching.dfy` | `Batching` | `slice::chunks` and the arithmetic of nested chunking |
| `rows.dfy` | `Rows` | the CSV row stream and `take_n` (the same code in both programs) |
| `crawler.dfy` | `Crawler` | the crawler's chunk loop, workers, file names and progress counters |
| `reader.dfy` | `Reader` | `DnsAnswers::eq`, `read_from_dir`, `print_dist` and `print_overlaps` |

The mutable parts are imperative Dafny:

- **`AllDomains`** is a class whose `entries` field `collect` updates in
  place.
- **`take_n`** is a method on a `RecordIter` object that advances a read
  position.
- **Loops** such as the crawler's chunk loop, the workers, `read_from_dir`,
  `print_dist` and the `print_overlaps` loops are methods with loop
  invariants.
- **Pure parts** are functions and lemmas: the line parser, the record
  identity, the bin counts and `DnsAnswers::eq`.

Each method is proved against a specification function. Examples:
`CollectSpec` for `collect`, `WorkerSpec` for a worker, `ChunkRun` and
`SnapshotAt` for the crawl, `MergeByExtend` for `read_from_dir`. Lemmas
then prove what the program promises about those functions.

What the models take as given:

- **`dig`:** the outcome of each run is given, either as its standard
  output or as a launch or UTF-8 failure. In the crawler it is a function
  `Backend` of the call (server, batch, record type, batch index, repeat).
- **The trust_dns and std parsers:** `Name::from_str_relaxed`,
  `Name::from_str` + `set_fqdn`, `RecordType::from_str` and
  `IpAddr::from_str` are total functions to `Option`. They are fields of
  `Parsers`.

## Model

| member | source | states |
|---|---|---|
| `Text.SplitAsciiWhitespace` | src/collect.rs:105 | every field is a non-empty run without ASCII whitespace |
| `Text.SplitLayoutRoundTrip` | src/collect.rs:105 | fields written out with any runs of ASCII whitespace between them (spaces, tabs, several at once) and optional whitespace before and after split back into exactly those fields |
| `Text.SplitLayout` | src/collect.rs:105 | every line is its own fields laid out with the whitespace it has: the fields are the maximal runs of non-whitespace |
| `Text.Lines` | src/collect.rs:102-103 | no line contains a line feed |
| `Text.LinesJoinRoundTrip` | src/collect.rs:102-103 | lines printed one per line are read back by `lines()` unchanged, one per line and in order |
| `Text.ParseU32` | src/collect.rs:111-113 | a TTL parses iff, after an optional leading '+', it is a non-empty string of ASCII digits whose value is below 2^32, and then its value is that number; leading zeros are allowed and no minus sign is |
| `Text.ParseU32RejectsNonDigit` | src/collect.rs:111-113 | any character other than a digit (or a leading '+') makes the TTL fail, e.g. "12a" |
| `Text.ParseU32LeadingZero` | src/collect.rs:111-113 | a decimal with a leading zero, such as "007", parses to its number |
| `Text.ParseU32OfDecimal` | src/collect.rs:111-113 | every decimal below 2^32 parses to itself, with or without '+'; 2^32 and above are rejected |
| `Text.DecimalString` | app/crawler.rs:91-95 | the formatted number is digits only, with no leading zero |
| `Text.DecimalStringValue` | app/crawler.rs:91-95 | reading the formatted digits back gives the number |
| `Text.Utf8` | src/collect.rs:153 | the byte string of a text is between one and four bytes per character |
| `Text.EncodeCharDecodes` | src/collect.rs:153 | the lead byte of a character's encoding gives its length, and decoding the bytes gives the character back |
| `Text.EncodeCharInjective` | src/collect.rs:153 | different characters have different encodings |
| `Text.Utf8Injective` | src/collect.rs:153 | different rdata texts give different byte strings, so the stored bytes determine the text |
| `Text.Utf8Ascii` | src/collect.rs:153 | an ASCII text is stored as its character codes, one byte each |
| `RecordWrappers.Eq` | src/record_wrapper.rs:35-43 | two wrappers are equal iff name, type, class and rdata agree, i.e. iff their TTL-free identities agree |
| `RecordWrappers.UnwrapNew` | src/record_wrapper.rs:10-16 | `unwrap(new(r))` is `r`, TTL included |
| `RecordWrappers.TtlIgnored` | src/record_wrapper.rs:19-43 | records differing only in TTL are equal and feed the hasher identical data |
| `RecordWrappers.EqIsEquivalence` | src/record_wrapper.rs:36-41 | wrapper equality is reflexive, symmetric and transitive |
| `RecordWrappers.HashConsistentWithEq` | src/record_wrapper.rs:19-43 | equal wrappers feed the hasher the same name, type, class and rdata bytes, for any rdata encoder |
| `Collect.ParseRecordData` | src/collect.rs:126-163 | A/AAAA succeed iff the literal is an address, and the literal picks A or AAAA; ANAME/CNAME/NS/PTR fail only with `InvalidName` of that type; every other type never fails and keeps the text's bytes, as `NULL` rdata exactly when the type is NULL and as unknown rdata otherwise |
| `Collect.AddressTypesInterchangeable` | src/collect.rs:128-134 | requesting A or AAAA gives the same result for every rdata text |
| `Collect.ParseAnswerLine` | src/collect.rs:104-120 | each error holds iff all earlier checks passed and its own failed, in the order: field count 5, name, TTL, type, rdata; a success carries the parsed name, TTL and rdata, class IN and the rdata's type |
| `Collect.WrongFieldCountRejected` | src/collect.rs:105-107 | any line of other than five fields, however it is spaced, gives `NotEnoughArguments`, whatever its fields say |
| `Collect.SpacedRDataRejected` | src/collect.rs:105-107 | an rdata written as several words, with any whitespace between them, makes the line `NotEnoughArguments` |
| `Collect.ClassFieldIgnored` | src/collect.rs:109-118 | replacing the class field of a five-field line, however spaced, never changes the result |
| `Collect.ParseFaultIsolation` | src/collect.rs:102-122 | one result per line, in line order; changing one line changes that line's result and no other |
| `Collect.Query` | src/collect.rs:80-124 | succeeds iff every domain encodes and `dig` ran and gave UTF-8; the domains are checked before the run; a failure is never a line error; a success is the per-line parse of the output, one result per line and in order |
| `Collect.Observe` | src/collect.rs:58-65 | the name and identity entries exist afterwards; the stat's count rises by exactly one and its TTL set gains the TTL; every other identity of the name and every other name is unchanged |
| `Collect.ObserveStat` | src/collect.rs:58-65 | after one record, the stat of its name and identity is the old stat (or the default) with count + 1 and the TTL added; every other stat is unchanged |
| `Collect.ObserveAllStat` | src/collect.rs:56-66 | after a run of records, each stat has counted exactly the records of its name and identity and holds exactly their TTLs, on top of what it had |
| `Collect.ObserveAllNames` | src/collect.rs:58-60 | the store's names are the old names plus the names of the observed records |
| `Collect.ObserveWellFormed` | src/collect.rs:58-65 | one update keeps the store invariant: no empty inner map, every stat counted at least once and holding between one TTL and `counts` TTLs |
| `Collect.ObserveAllWellFormed` | src/collect.rs:43-66 | the store invariant holds after any run of updates |
| `Collect.TtlVariantsCollapse` | src/collect.rs:58-65 | two records differing only in TTL land on one stat, with count 2 and both TTLs |
| `Collect.ObserveTotal` | src/collect.rs:57-64 | one valid record adds exactly one to the sum of all counts |
| `Collect.ObserveAllTotal` | src/collect.rs:56-66 | the counts added to the store equal the number of valid records entered |
| `Collect.ValidIn` | src/collect.rs:47-55 | a repeat has no more valid records than lines |
| `Collect.Rounds` | src/collect.rs:43-46 | one list of line results per repeat, the parse of that repeat's `dig` output, empty when the query failed |
| `Collect.ValidAtMostLines` | src/collect.rs:46-57 | `response_valid <= response_count` for any sequence of repeats |
| `Collect.FailedRepeatAddsNothing` | src/collect.rs:45-69 | a repeat whose query failed adds no response and no record: dropping it changes neither count |
| `Collect.AllDomains.constructor` | src/collect.rs:16 | `AllDomains::new()` is empty and satisfies the store invariant |
| `Collect.ObserveResponse` | src/collect.rs:47-66 | the store after one response is the old store with its valid records entered in order; the returned count is their number |
| `Collect.Collect` | src/collect.rs:33-78 | the store becomes the old store with every valid record of every repeat entered in order, and keeps the invariant; reported queries = `len * repeat`, responses = the lines of the successful repeats, valid = records entered <= responses; the total count rises by exactly `valid` |
| `Batching.Chunks` | app/crawler.rs:72-76 | no chunk is empty or longer than `n`; every chunk but the last is full |
| `Batching.ChunksConcat` | app/crawler.rs:72-76 | the chunks concatenate back to the list |
| `Batching.ChunksCount` | app/crawler.rs:105 | there are `ceil(len / n)` chunks |
| `Batching.ChunkAt` | app/crawler.rs:72-76 | chunk `i` is the slice from `n * i` to `min(n * (i + 1), len)` |
| `Batching.ChunksPrefix` | app/crawler.rs:106 | the chunks before chunk `i` hold exactly the first `min(n * i, len)` elements |
| `Batching.ChunksSplit` | app/crawler.rs:72-76 | cutting the list at a chunk boundary leaves every chunk as it was |
| `Batching.NestedChunks` | app/crawler.rs:60-76 | cutting chunks of `q * n` into chunks of `n` gives exactly the chunks of `n` of the whole list |
| `Batching.CeilDivMonotone` | app/crawler.rs:54 | a shorter list never has more chunks |
| `Batching.SubChunkAt` | app/crawler.rs:76-82 | sub-batch `i` of chunk `c` sits right after all sub-batches of the chunks before `c` |
| `Rows.TakeSpec` | app/crawler.rs:18-35 | at most `n` names; a normal return has pulled `min(n, rows)` rows, one name each; a panic has pulled one row more than the names it kept |
| `Rows.TakeNames` | app/crawler.rs:26-27 | the names are column 1 of the rows pulled, in order; a panic is on the first row without column 1 |
| `Rows.TakeOkIff` | app/crawler.rs:24-31 | `take_n` returns normally iff every row in its window has a column 1 |
| `Rows.ShortTakeMeansExhausted` | app/crawler.rs:29-31 | fewer than `n` names without a panic means the stream ran out |
| `Rows.Domains` | app/crawler.rs:26 | the domain column of rows that all have one, position by position |
| `Rows.TakeOfDomains` | app/crawler.rs:18-35 | on well-formed rows, `take_n` returns the first `min(n, rows)` domains |
| `Rows.RecordIter.constructor` | app/crawler.rs:55 | a new stream is at its first row |
| `Rows.RecordIter.TakeN` | app/crawler.rs:18-35 | `take_n` (also app/reader.rs:49-66): the names and panic flag are those of `TakeSpec` on the unread rows, and the read position advances by the rows pulled |
| `Crawler.FileNameInjective` | app/crawler.rs:91-95 | different row ranges give different file names, so no snapshot overwrites another |
| `Crawler.BatchRecordsByRepeat` | app/crawler.rs:83-89 | the records one batch enters are the lines that parse in the answers of `REPEAT` runs of `dig` for record type A on that server, batch and batch index, run after run and line after line; a failed run adds none |
| `Crawler.WorkerStep` | app/crawler.rs:76-90 | `collect` on sub-batch `i` takes the worker store of the first `i` sub-batches to that of the first `i + 1` |
| `Crawler.WorkerSpecTotal` | app/crawler.rs:71-90 | a saved store is well formed, and its counts add up to the valid records its worker saw |
| `Crawler.RunWorker` | app/crawler.rs:70-90 | a worker starts from a fresh empty store and ends with every sub-batch of 100 collected in order, sub-batch `i` labelled `first + i`, with record type A and 10 repeats |
| `Crawler.ChunkRun` | app/crawler.rs:59-63 | every chunk the loop processes has 1 to 1000 domains |
| `Crawler.ChunkRunCompleted` | app/crawler.rs:59-63 | the loop ends without a panic iff every row read has a domain |
| `Crawler.ChunkRunChunks` | app/crawler.rs:55-63 | on well-formed rows the chunks are the chunks of 1000 of the domain column: they concatenate to all domains in order and all but the last are full |
| `Crawler.ProgressBase` | app/crawler.rs:56 | `batch_counter` starts at 1 and never goes below it |
| `Crawler.CountersAppend` | app/crawler.rs:105-106 | after a chunk, `accumulated` grows by its length and `batch_counter` by `ceil(len / 100)` |
| `Crawler.SaveServer` | app/crawler.rs:70-100 | the snapshot a server's worker saves is its directory, the file `"{accumulated+1}-{accumulated+len}.txt"` and the worker's store |
| `Crawler.SaveChunk` | app/crawler.rs:64-104 | one snapshot per server, in server order, each the one that server saves for the chunk |
| `Crawler.CrawlStep` | app/crawler.rs:59-106 | one turn of the loop stops exactly when `take_n` panics or returns no domain, and the run then ends there; otherwise the stream moves forward and the chunk, every server's snapshot of it and both counters are added to the loop state |
| `Crawler.Crawl` | app/crawler.rs:54-107 | the chunks are those of `ChunkRun` on the first `min(k, rows)` rows, and a panic ends the loop; every server saved exactly its snapshot of every chunk; the final `batch_counter` is 1 plus the sub-batches done; `n_batches = ceil(k / 100)` |
| `Crawler.FileRange` | app/crawler.rs:91-95 | the file of chunk `c` covers rows `1000c + 1` to `min(1000(c + 1), N)`: files start at 1, are contiguous, do not overlap and end at N |
| `Crawler.ProgressBaseCounts` | app/crawler.rs:56-105 | `batch_counter` before a chunk is 1 plus the number of sub-batches of the chunks before it |
| `Crawler.BatchLabel` | app/crawler.rs:76-82 | the progress index `batch_counter + i` of a sub-batch is its position among the batches of 100 of all domains, so the indices run 1, 2, ... without gaps or repeats |
| `Crawler.BatchesBound` | app/crawler.rs:54 | the last progress index is `ceil(N / 100)`, at most `n_batches`, and equal to it when at least `k` rows exist |
| `Crawler.CrawlCoverage` | app/crawler.rs:55-107 | on well-formed rows the crawl completes, its chunks concatenate to the first `min(k, rows)` domains in order, and the batches stay within `n_batches` |
| `Reader.AnswersEqShares` | app/reader.rs:13-17 | `DnsAnswers` equality holds iff the two sets share a record |
| `Reader.AnswersEqSymmetric` | app/reader.rs:13-17 | the relation is symmetric and false whenever a side is empty |
| `Reader.AnswersEqNotTransitive` | app/reader.rs:13-17 | `{x} ~ {x, y} ~ {y}` while `{x}` and `{y}` are unrelated, so the relation is not transitive |
| `Reader.AnswersEqReflexive` | app/reader.rs:13-17 | reflexive on the answer sets of a well-formed store (never empty) |
| `Reader.ReadFromDir` | app/reader.rs:35-47 | a fresh store holding the snapshots merged with `extend` in directory order |
| `Reader.MergeKeys` | app/reader.rs:38-42 | the merged names are the union of the snapshots' names |
| `Reader.MergeLastWins` | app/reader.rs:38-42 | a name keeps the inner map of the last snapshot that has it |
| `Reader.MergeWellFormed` | app/reader.rs:38-42 | merging well-formed snapshots gives a well-formed store |
| `Reader.ExtendDropsEarlierCounts` | app/reader.rs:41 | counts are not summed: a name seen with different records in two snapshots loses the first snapshot's stats |
| `Reader.BinCount` | app/reader.rs:89-99 | a bin's count is at most the bin's length |
| `Reader.BinCountSingle` | app/reader.rs:89-99 | a one-domain bin counts 1 if the domain's fully qualified name is a key of the store and 0 if not, and panics if the domain is not a name |
| `Reader.BinCountAppend` | app/reader.rs:89-99 | the count of two bins together is the sum of their counts, and it panics iff either part does |
| `Reader.BinCountValue` | app/reader.rs:89-99 | a count that does not panic is exactly the number of positions in the bin whose domain is a key of the store |
| `Reader.BinCountMeaning` | app/reader.rs:89-99 | the count panics iff a domain is not a name; otherwise it is the bin length iff every domain is a key of the store, and 0 iff none is |
| `Reader.BinCountPanicAnyStore` | app/reader.rs:91 | whether a bin panics does not depend on the server's store |
| `Reader.BinCounts` | app/reader.rs:86-101 | one count per server, in server order, each that server's `BinCount` |
| `Reader.BinCountsPanic` | app/reader.rs:86-101 | a line panics iff there is a server and the bin holds a domain that is not a name |
| `Reader.PrintDist` | app/reader.rs:68-109 | a `take_n` panic prints nothing; otherwise one line per bin of 100 of the first 100000 domains until a bin panics; all `ceil(len / 100)` lines without a panic; each line has one count per server, each at most 100 |
| `Reader.UnionUpToMembers` | app/reader.rs:119-127 | a name is in the union of the first `n` sets iff one of them holds it |
| `Reader.PairRowMembers` | app/reader.rs:135-142 | the intersections of set `i` with the sets `i < j < e` hold exactly the names set `i` shares with one of them |
| `Reader.PairsUpToMembers` | app/reader.rs:134-143 | the pair loops up to `i < n` hold exactly the names of some pair `i < j` with `i < n` |
| `Reader.TripleCellMembers` | app/reader.rs:152-168 | the innermost loop holds exactly the names in sets `i`, `j` and some `k < e` |
| `Reader.TripleRowMembers` | app/reader.rs:151-169 | the middle loop holds exactly the names in sets `i`, some `j < e` and some `k > j` |
| `Reader.TriplesUpToMembers` | app/reader.rs:150-177 | the triple loops up to `i < n` hold exactly the names of some triple `i < j < k` with `i < n` |
| `Reader.IntersectionCard` | app/reader.rs:136-139 | every printed intersection size is at most the size of either set |
| `Reader.UnionAll` | app/reader.rs:119-127 | the `union1` loop joins every key set |
| `Reader.PairUnion` | app/reader.rs:132-146 | the `union2` loops join `S_i ∩ S_j` for every `i < j` in loop order |
| `Reader.TripleUnion` | app/reader.rs:148-177 | the `union3` loops join `S_i ∩ S_j ∩ S_k` for every `i < j < k` in loop order |
| `Reader.OverlapBoundsUnderflow` | app/reader.rs:134 | the bounds `len() - 1` and `len() - 2` underflow exactly below one and two servers |
| `Reader.Overlaps` | app/reader.rs:111-183 | `union1` holds the names some server has, `union2` those two servers share, `union3` those three share; `union3 ⊆ union2 ⊆ union1`, and `union1` is at least as large as every server's set |

## Left out

- `dig` itself (src/collect.rs:94-101): the command is not run. Each run's outcome is an input: `DigOutput` in `Collect`, the `Backend` function in `Crawler`.
- The error log file and every `println!`/`eprintln!`: this is output only. `collect`'s three counters are returned instead of printed. The header line of `print_dist` and the text lines of `print_overlaps` are not produced. `print_dist`'s counts are returned as a table.
- Threads (app/crawler.rs:64-104): each worker owns its store, so the workers of a chunk run one after the other. Their order cannot change a snapshot.
- bincode and the trust_dns wire format (src/record_wrapper.rs:60-95, app/crawler.rs:99, app/reader.rs:40): a saved snapshot holds the store value itself, and `read_from_dir` receives the stores. The rdata encoder of `hash` is a parameter.
- The foreign parsers: `Name::from_str_relaxed`, `Name::from_str` + `set_fqdn`, `RecordType::from_str` and `IpAddr::from_str` are parameters, so their grammars are not modelled. trust_dns `Name` key equality (which ignores case) is equality of the parsed values.
- `print_overlaps_record` and `DnsAnswers::hash` (app/reader.rs:19-28, 185-255): that hash walks a `HashSet` in its internal order and is inconsistent with the "shares an element" equality. Set membership there depends on hashing, so only the equality predicate is modelled.
- dns_analysis/plot.py (floating-point plotting) and src/name_server.rs (JSON loading): a name server is a plain `{name, host}` value.
- Both `main`s' argument handling, directory creation and the "is not a directory" / file-open / deserialise panics. Two wiring slips are not modelled. At app/crawler.rs:84 `collect` receives `&name_server.host` where it takes a `&NameServer`; the model makes the intended call with the server. At app/reader.rs:280 `print_dist` is handed `args[0]`, the program's own path, instead of the CSV; the model passes the CSV rows.
- The CSV reader's header handling: the rows given are the records after any header. The crawler's reader takes the first line as a header; the reader's `print_dist` does not.
- `read_dir` order: unspecified by the platform; the snapshots arrive as a sequence in whatever order it listed them.
- The TTL on the key kept in the inner `HashMap` (the first record seen) is not kept: the key is the TTL-free identity, and all TTLs are in `ttls`.
- `Collect.Collect`: does not model `usize` overflow of `counts`, `response_count` and `response_valid`, because the counters are unbounded naturals here. The same holds for `batch_counter` and `accumulated` in `Crawler.Crawl`, and for `n_batches = (k + BATCH - 1) / BATCH` (app/crawler.rs:54): for `k` within 99 of `usize::MAX` a debug build panics before any row is read and a release build wraps to a small `n_batches`.
- `RecordWrappers.Eq` and `RecordWrappers.HashConsistentWithEq`: names are compared as values, i.e. structurally. trust_dns compares `Name`s without regard to case, so `Example.com.` and `example.com.` are one wrapper there and two here; the stored snapshot keeps whichever spelling was seen first.
- `Rows.RecordIter.TakeN`: the panic on a row without column 1 is the result `ok == false`, after which the callers stop. The program would abort there instead.
- `Crawler.BatchesBound`: proves that the last progress index equals `n_batches` when at least `k` rows exist, but not the converse. The converse is false: with `k = 150` and 120 rows, both are 2.
- `Reader.Overlaps`: loop bounds that would underflow are taken as 0 (see Findings). The printed per-pair and per-triple sizes are only bounded (`IntersectionCard`), not returned.

## Findings

| source | as written | input that shows it | evidently intended | confidence | as-written member | corrected member |
|---|---|---|---|---|---|---|
| app/reader.rs:134 | `for i in 0..all_ns.len() - 1` and `for i in 0..all_ns.len() - 2` (line 150) subtract on `usize` | a source directory with no server directory (`len() == 0`) for the pair loop, or with exactly one (`len() == 1`) for the triple loop: a debug build panics with "attempt to subtract with overflow"; a release build wraps and runs the outer loop about 2^64 times with an empty body | no pair or triple, so `union2` and `union3` are empty | medium; not executed | `Reader.OverlapBoundsUnderflow` | `Reader.Overlaps` |
