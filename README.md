# github-crawler: the crawl core, modelled in Dafny

This project models the crawl logic of `crawl_stars.py`. The crawler lists
every GitHub repository with at least 10 stars. GitHub search returns at most
1000 results per query, so the crawler splits the star counts into ten bands
(`STAR_RANGES`). It pages through each band with the search API's opaque
cursor and upserts every page into the PostgreSQL table `repositories`.

The project has four modules:

- `Wrappers` (`wrappers.dfy`): the `Option` type used for Python's `None`.
- `StarRanges` (`star_ranges.dfy`): the literal `STAR_RANGES` table. It has a
  parser and a printer for the `stars:a..b` and `stars:>n` qualifiers. It
  proves that the ten qualifiers denote bands that cover every star count from
  10 upwards exactly once.
- `Repositories` (`repositories.dfy`): the table as a map from `repo_id` to a
  row. `Upsert` and `ApplyBatch` give the meaning of one `INSERT ... ON
  CONFLICT DO UPDATE` statement and of one transaction. The class
  `RepositoryTable` holds the rows and the logical clock behind `NOW()`. Its
  method `SaveToDb` is `save_to_db`: a loop inside a transaction that either
  commits the whole batch or rolls back.
- `Crawl` (`crawl.dfy`): `fetch_repos` becomes a scripted oracle
  (`ScriptedFetcher`): the k-th fetch of a run gets the k-th scripted
  response. A response is a failure, an exception raised by the call, or a page. The
  method `Crawl` is `crawl`: a `for` loop over `STAR_RANGES` with a
  `while true` loop inside, using `continue` and `break` as the source does.
  It is proved to compute `Walk`, a recursive function that follows the same
  two loops. Lemmas about `Walk` then state what every run does.

Three behaviours of the code shape the model:

- On conflict only `stars_count` and `last_updated` are overwritten; `name`
  and `owner` are not refreshed (crawl_stars.py:84-86). The model keeps the
  old `name` and `owner`.
- Only a non-200 status or a `null` `data.search` makes `fetch_repos` return
  `None`, which `crawl` retries (crawl_stars.py:64-68, 104-108); this is the
  `Fail` response. Every exception raised inside `fetch_repos` propagates
  out of `crawl` uncaught: a transport error or timeout of `session.post`
  (crawl_stars.py:63), a body that is not JSON (crawl_stars.py:69), and a
  missing or `null` `data` or a missing `search` (crawl_stars.py:70). None
  of these is retried. The model gives them the single response `Raises`,
  which ends the run with `FetchRaised`.
- Re-applying a batch is not a no-op: `last_updated` moves on. The model
  states this exactly. Re-applying gives the same table as one application
  at the later time.

## Model

| member | source | states |
|---|---|---|
| StarRanges.ParseShowRange | crawl_stars.py:24-35 | Printing a band as a `stars:a..b` or `stars:>n` qualifier and parsing the result gives back the same band. `>n` means at least n+1. |
| StarRanges.ParseRange | crawl_stars.py:24-35 | The meaning of a qualifier: `stars:a..b` is the counts from a to b inclusive, and `stars:>n` the counts from n+1 up without end. Any other text is rejected. A text that parses starts with `stars:`, and an unbounded band starts above 0. |
| StarRanges.StarRangesParse | crawl_stars.py:24-35 | Each of the ten qualifiers of `STAR_RANGES` parses to the band listed beside it, from `10..50` up to the unbounded `>100000`. |
| StarRanges.TilingCovers | crawl_stars.py:23-35 | For bands that are non-empty, where each upper end is one below the next lower end and only the last is unbounded: a count is at or above the first lower end if and only if some band contains it, and no two bands contain it. |
| StarRanges.StarRangesPartition | crawl_stars.py:23-35 | The table's bands tile the counts from 10 upwards: each upper end is one below the next lower end, and only the last band (`>100000`) is unbounded. A star count n lies in some band if and only if n ≥ 10, and it never lies in two. Every band ends below the start of each later band. |
| Repositories.Upsert | crawl_stars.py:81-86 | One `INSERT ... ON CONFLICT DO UPDATE` at time `now`. A new id gets a row with the edge's name, owner and stars. On conflict only the star count and the timestamp change; name and owner are kept. No other row changes. |
| Repositories.ApplyBatch | crawl_stars.py:78-87 | The statements of one transaction, one per edge in batch order, all at the same `NOW()`. BatchRow, BatchUntouched and BatchKeys state the resulting table. |
| Repositories.FirstEdge | crawl_stars.py:79-87 | The edge returned carries the id and comes before every other edge of the batch with that id. |
| Repositories.LastEdge | crawl_stars.py:79-87 | The edge returned carries the id and comes after every other edge of the batch with that id. |
| Repositories.BatchRow | crawl_stars.py:79-87 | After a batch, each id it mentions has one row. The row's star count comes from the batch's last edge with that id, and its timestamp is the transaction's. Its name and owner are those of the row that existed before, or else those of the first edge with that id. |
| Repositories.BatchUntouched | crawl_stars.py:79-87 | An id the batch does not mention keeps its exact row, or stays absent. With BatchKeys this means an empty batch changes nothing. |
| Repositories.BatchKeys | crawl_stars.py:81-87 | The ids after a batch are the ids before it plus the ids the batch mentions. The map keeps one row per `repo_id`, the primary key. |
| Repositories.BatchIdempotent | crawl_stars.py:81-86 | Applying a batch again at a later time gives the same table as applying it once at that later time. Ids, names, owners and star counts do not change; only `last_updated` moves. |
| Repositories.BatchContent | crawl_stars.py:81-86 | Leaving timestamps aside, what a batch stores does not depend on when it runs. |
| Repositories.BatchConcat | crawl_stars.py:79-87 | Running two batches as one transaction gives the same table as running the first and then the second. |
| Repositories.RepositoryTable.SaveToDb | crawl_stars.py:76-87 | One transaction (clock + 1). Without a fault, the rows become ApplyBatch of the old rows at the old clock. When a statement or the commit raises, the error is reported and the rows are left exactly as they were. |
| Crawl.ScriptedFetcher.FetchRepos | crawl_stars.py:41-70 | Each call gets the next scripted response and logs the request (qualifier, cursor). Once the script is used up, a call returns None and logs nothing. |
| Crawl.Crawl | crawl_stars.py:93-123 | The run's outcome, its fetch log and its `total_repos` equal those of `Run`. The final rows are the committed writes applied in order, one clock tick each. A failed write still uses up a tick. |
| Crawl.Walk | crawl_stars.py:99-117 | A run only appends to the fetches already issued. It issues at most one fetch per scripted response. |
| Crawl.Run | crawl_stars.py:93-117 | `crawl` from its start: the first qualifier, a null cursor, no pages, no fetches. It issues at most one fetch per scripted response. |
| Crawl.RunSound | crawl_stars.py:76-117 | Every run has these properties. Each fetch names a qualifier of the table, and the first is for qualifier 0 with a null cursor. Each fetch is followed by the fetch its response calls for. The committed writes are exactly the pages served before any write error, each with its page number. Every committed write's transaction met no storage fault, so the first failing `save_to_db` ends the run. Finished means the last band's last page was served. Unfinished means the script ran out, and conversely: a run that ends on a raising fetch is FetchRaised, and a run whose last fetch served the last band's last page is Finished, never Unfinished. FetchRaised means the last fetch raised. WriteRaised means the last response was a page whose write failed. |
| Crawl.WalkFaultFree | crawl_stars.py:76-117 | From any state whose writes met no fault, the run commits only pages whose transaction met no fault. A storage error raised out of `save_to_db` ends the crawl instead of being skipped. |
| Crawl.RunStartsAtFirstRange | crawl_stars.py:99-104 | A run's first fetch is for the first qualifier, with a null cursor. |
| Crawl.RunRetriesFailure | crawl_stars.py:104-108 | After a failed fetch, the next fetch has the same qualifier and the same cursor. The failed fetch adds no write. |
| Crawl.RunAdvancesCursor | crawl_stars.py:110-119 | After a page that has a next page, the next fetch is for the same qualifier, from that page's `endCursor`. |
| Crawl.RunNextRangeFresh | crawl_stars.py:99-117 | After a page without a next page, the next fetch is for the next qualifier of the table, with a null cursor. No cursor carries over from one band to the next. |
| Crawl.RunRaisesLast | crawl_stars.py:63-70 | Only the last fetch of a run can raise: an exception out of `fetch_repos` (transport error, non-JSON body, missing `data.search`) ends the crawl. |
| Crawl.RunRangesInOrder | crawl_stars.py:99-117 | Bands are fetched in table order: a later fetch never goes back to an earlier band. |
| Crawl.RunClosedRangeStaysClosed | crawl_stars.py:116-117 | Once a band has served a page without a next page, no later fetch is for that band. |
| Crawl.ServedPerPart | crawl_stars.py:102-111 | For any fetches, the writes for a band number exactly the pages served to that band: one write per page, none per failure. |
| Crawl.RunPagesPerRange | crawl_stars.py:102-117 | If a band's last page is the k-th response, the band gets no more pages after it. The write for that page carries the band's total page count as its `page_count`. |
| Crawl.RunWritesPerRange | crawl_stars.py:102-117 | If a band's last page is the k-th response, the run commits exactly as many writes for that band as pages were served to it. |
| Crawl.RunTotal | crawl_stars.py:95-111 | `total_repos` is the number of edges over all pages committed, across all bands. It counts edges, so a repository seen twice is counted twice. |
| Crawl.TwoPageScenario | crawl_stars.py:99-117 | The first band is served as two pages, of 2 edges and then 1. It is fetched first from the null cursor, then from `c1`. Two writes are numbered pages 1 and 2, and the total is 3. |
| Crawl.TwoPageStored | crawl_stars.py:79-117 | Starting from an empty table, the two pages of that scenario over three different repositories store exactly three rows, each with the fetched name, owner and star count. The first page's rows carry the first transaction's time and the second page's row the next. |
| Crawl.RetryScenario | crawl_stars.py:99-117 | On the crawler's own table: the first band gets one empty last page. The second band then fails twice and gets a last page. That gives one fetch for the first band and three identical null-cursor fetches for the second. The two writes are each numbered page 1. The run then stops at the third band when the script runs out. |
| Crawl.Commit | crawl_stars.py:110 | The run's successive `save_to_db` calls: the j-th committed write is applied as one transaction at time `clock0 + j`. |
| Crawl.CommitAsOneBatch | crawl_stars.py:110 | Leaving timestamps aside, the writes of a run leave the table as one batch of all their edges would. |
| Crawl.CommitStoresLastSeen | crawl_stars.py:79-87 | After a run, every repository seen has one row. Its star count is the last one fetched. A row that existed before the run keeps its name and owner. |
| Crawl.CommitUntouched | crawl_stars.py:79-87 | A run leaves every repository it did not see exactly as it was. |

## Left out

- The HTTP transport of `fetch_repos` is not modelled: the GraphQL query text, the `aiohttp` session, the bearer header and JSON decoding (crawl_stars.py:10-13, 41-70). The endpoint is the response script. A non-200 status and a `null` search payload are `Fail`. Every exception the call raises is `Raises`: a network error or timeout, a body that is not JSON, and a missing or `null` `data` or a missing `search`.
- Reading the environment (`load_dotenv`, `DB_CONFIG`) is not modelled. Neither are creating and closing the `asyncpg` pool or the SQL engine (crawl_stars.py:8-21, 97, 121). The table is a map, and storage errors come from a fault script.
- `setup_db.py` is not part of this model. Its only contributions are `repo_id` as the primary key, which the map keys capture, and `last_updated DEFAULT NOW()`, which the logical clock captures.
- `repo_id` is declared `BIGINT` (setup_db.py:17), but the search API's `id` is a string, which crawl_stars.py:87 binds to it unchanged. The driver is not modelled, so it is not shown here whether it rejects that string. If it does, every non-empty batch fails to write, and the first non-empty page of a run ends it with `WriteRaised`. An empty page runs no statement, so its transaction commits. The model keys rows by the string id. The fault script covers such a conversion error.
- `stars_count` is a 32-bit `INT` column; the model uses unbounded integers.
- `asyncio.sleep` is not modelled: neither the 15 s back-off nor the 1.5 s pacing. Neither are async/await, wall-clock time, or the `print` progress and summary lines (crawl_stars.py:94, 100, 106-107, 113, 119, 122-123). `page_count` is kept: the model records it in each write, because its only use is the progress line.
- `last_updated = NOW()` is a logical clock: the number of transactions begun. PostgreSQL's `NOW()` is the transaction's start time, so one timestamp covers a whole call of `save_to_db`.
- The payload is assumed to carry `pageInfo` with `endCursor` and `hasNextPage`, which the search schema declares non-null. Without it, `result["pageInfo"]` (crawl_stars.py:115) would raise after the page was already written and counted (crawl_stars.py:110-112). `Response` has no case for an exception after a commit.
- Edges whose node lacks `id`, `name`, `owner.login` or `stargazerCount` would raise a `KeyError`. The model assumes every edge is complete.
- A response can carry a `null` `endCursor` together with `hasNextPage = true`. The model then fetches again from the null cursor, as the code does, and does not judge it.
- Neither retrying nor pagination has a bound in the source. The model's script is finite, and a run that uses it up ends as `Unfinished`. Such a run stands for a crawl that would still be fetching.
- The 1000-result cap per band (crawl_stars.py:23) depends on GitHub's data. It is not provable from the code and is not modelled.
- `StarRanges.ParseRange` accepts only the two qualifier forms the table uses. GitHub's other forms (`>=`, `<`, `*..n`) are rejected.
- `fetch_repos`'s default `star_filter="stars:>10"` is never used, because `crawl` always passes a qualifier.
- `Request.part` (the position of the qualifier in the table) is recorded with each fetch for the statements above. The real call carries only the qualifier and the cursor.
