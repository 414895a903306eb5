# Aztea verification models

Dafny models of the parts of Aztea (AnayGarodia/aztea) whose correctness is not
visible in any single function: the mandate lifecycle under concurrent callers,
the bounded crawl, the two caches, the shared signing key, and the printers,
parsers and evaluators of the analysis agents. `dafny verify dfyconfig.toml`
checks everything.

## What is modelled

**Action mandates** (`IsoTime`, `Mandates`, `MandateRuns`, `WebActor`, `MandateId`).
`Mandates.MandateStore` is the table; each UPDATE is one WHERE clause (`Selects`)
and one SET clause (`Assigned`). `MandateRuns` interleaves any number of clients.
A client reads the clock in one step and sends its UPDATE in a later one, so a
statement carries a reading that may be old; `run` fetches the row and checks the
URL before it reads the clock at all. The log of a run is read mandate by mandate:
`Story` keeps the events that changed one row, and the main result is that every
story, in every run, is *created; perhaps authorized; perhaps ended once*. The
guards compare text; `IsoTime.IsoOrder` shows that the text order of `isoformat()`
values is the order of the instants they name, over the whole calendar of years 1
to 9999 and although a zero fraction is left out ('+' sorts below '.').

**The crawl** (`Crawler`). `Crawl` has the fields and the loop of the source; the
web is an arbitrary, possibly infinite graph given by functions, URL normalisation
among them. A page is named by what a pop visits: a link normalised once more.
Distance is defined independently by chains of links (`ReachIn`, `Distance`).

**KEV feed** (`KevFeed`). Threads run `kev_entries` one shared read, write, clock
reading or lock operation at a time; a fetch leaves an entry or raises.

**CVE cache** (`CveCache`). Records are heap objects; the cache returns the stored
object and each call normalises and stamps it in place, under the catalogue of that
call. `Aged` is what a record looks like after any number of calls. `After` is the
cache as a history: a fold over calls, ids and clock readings that says what is
cached, until when, and since which call; the dictionary is what it says, and
`Since` reads off it which call fetched a reported record.

**Signing key** (`SigningKey`). Processes race on an exclusive create; a read may
see any beginning of a file that is still being written; processes may crash.

**Printers, parsers, evaluators.** The unified-diff line machine (`DiffParser`),
package URLs and deduplication (`Purl`), JSON Pointer (`JsonPointer`), the constant
folder and the allocation check (`ConstFold`, `MemoryCheck`), SPDX expressions
(`Spdx`), line and column by bisection (`LineIndex`), load statistics
(`LoadStats`). `Text` holds the string operations they share.

## Where the code and its description part

Each of these comes with the condition under which the property does hold, proved
for all inputs, and where it fails with an input or a run that shows it.

- An UPDATE's expiry guard speaks of the moment the clock was read. For every expiry
  and every later moment some run consumes at that moment (`MandateRuns.LateCommit`);
  in every run the guard's reading left some time, and a consume is late by less than
  its delay since that reading (`MandateRuns.Lateness`).
- `_normalize` is not idempotent: it strips before it drops the fragment. A link
  spelled like a visited page is skipped although following it may lead elsewhere, so
  a page can be lost (`Crawler.LostPage`). Where no link is spelled like an earlier
  page without leading to it (`NamesSettle`), none is; and on every site a crawl that
  emptied its queue was exact if and only if the links of what it visited were
  followed, which can be read off its result (`Crawler.Certificate`).
- Two KEV fetches can start at the same instant: the entry is dated by a reading
  taken before the lock was waited for. After a fetch that left an entry the spacing
  is at least its lifetime minus that delay (`KevFeed.FetchSpacing`), and for every
  delay some run has exactly that spacing (`KevFeed.BackToBack`). After a fetch that
  raised (a JSON body of another shape) nothing is stored, and the next fetch may
  follow after any time or none (`KevFeed.AfterRaise`).
- A cached CVE record differs from an uncached one exactly when a call since its
  fetch asked for it under a catalogue that listed it, the present catalogue does not
  list it or is unavailable, and no keyword speaks for it (`CveCache.RunCalls`,
  `CveCache.CatalogueDrift`); `CveCache.DriftingRun` is such a run. It lasts less than
  an hour after the fetch (`CveCache.DriftIsRecent`), and under one catalogue every
  reply is the uncached answer (`CveCache.RunCalls`).
- Processes agree on the private key but not on the public one. A reader holds the
  winner's public part as far as it read (`SigningKey.PublicPart`), and a run can cut
  it anywhere (`SigningKey.ShortenedPublicPart`).
- A diff round-trips exactly when no added text starts with "++" and no removed
  text with "--" (`DiffParser.RoundTrip`). A `+++` block gets no record exactly when
  another one follows before the next "diff --git" line, so a plain unified diff of
  several files keeps only the last (`DiffParser.RecordsExactly`, `DiffParser.NoBlockLost`).
- The folder is sound exactly when no folded exponent is negative
  (`ConstFold.FoldIsSound`), and it raises exactly when it folds zero to a negative
  power that fits a float (`ConstFold.FoldRaises`, `ConstFold.ZeroToMinusOne`).
- The allocation check gives false alarms for empty literals, sets, `array.array`,
  calls with further arguments, sizes the interpreter cannot build and negative
  exponents, and for nothing else it fires on (`MemoryCheck.FiringIsReal`).
- The empty error path and the path of one empty token print alike
  (`JsonPointer.PrintIsInjective`).
- The histogram misses negative latencies, and only those (`LoadStats.BuildHistogram`).

## Model

| member | source | states |
|---|---|---|
| IsoTime.IsoOrder | core/action_mandates.py:87-88 | For any two UTC datetimes of years 1 to 9999, text order of `isoformat()` is instant order, and equal texts mean equal instants |
| IsoTime.Layout | core/action_mandates.py:88 | The text of every datetime: date, "T", time, the fraction only when it is not zero, and the offset |
| IsoTime.LessTotal | core/action_mandates.py:197 | The database's text order is total and strict, so "expires_at <= now" is the negation of "expires_at > now" |
| IsoTime.YearLength | core/action_mandates.py:87-88 | The calendar behind the instants: counted year by year, the days before a year are datetime's closed form 365(y-1) + (y-1)/4 - (y-1)/100 + (y-1)/400, and the step to the next year is the sum of its month lengths |
| IsoTime.Plus | core/action_mandates.py:155 | A datetime plus a lifetime is a datetime, and only one, as long as it does not pass the end of year 9999 |
| Mandates.MandateStore.AuthorizeMandate | core/action_mandates.py:188-200 | The guarded UPDATE from issued to authorized; true exactly when one row was hit |
| Mandates.MandateStore.ConsumeMandate | core/action_mandates.py:203-216 | The guarded UPDATE from authorized to consumed, clearing the nonce; true exactly when one row was hit |
| Mandates.MandateStore.RevokeMandate | core/action_mandates.py:219-227 | Only a live mandate is revoked; true exactly when one row was hit |
| Mandates.MandateStore.ExpireDue | core/action_mandates.py:230-239 | Every live mandate past the given time expires, and the count is their number |
| Mandates.MandateStore.Insert | core/action_mandates.py:164-178 | A new row is issued with its nonce; a second row with the same key is refused |
| Mandates.StepKeepsRows | core/action_mandates.py:60-75 | Any statement on any table: a status moves only along an allowed transition, terminal rows are frozen, grant and expiry never change, the nonce is gone exactly when consumed and resolved_at is set exactly when terminal |
| Mandates.UsableOrSweepable | core/action_mandates.py:195-198 | At any clock reading a live row can be used or can be swept, never both and never neither, as instants |
| Mandates.HitsOne | core/action_mandates.py:200 | A statement naming a mandate touches at most that one row |
| MandateRuns.Lifecycle | core/action_mandates.py:188-239 | In every interleaving the history of every mandate is created, perhaps authorized, perhaps ended once, and its row is what that history says |
| MandateRuns.CommitSafety | core/action_mandates.py:203-216 | A successful consume is the only one for its mandate; a creation and then a successful authorize with the same nonce precede it; both guards' clock readings are before the expiry as instants and not after the statements they guard; its URL is in the granted domains |
| MandateRuns.CommitWithinDomains | agents/web_actor.py:272-295 | In every interleaving a commit made through `run` was for a URL whose host is an allowed domain or a subdomain of one |
| MandateRuns.Lateness | core/action_mandates.py:209-215 | In every run the guard's reading is before the expiry and not after the consume, which is late by less than the delay between them |
| MandateRuns.LateCommit | core/action_mandates.py:209-215 | For every expiry, earlier reading and later moment, some run from the empty table consumes at that moment on that reading |
| MandateRuns.AuditOrder | core/action_mandates.py:211-213 | In every run a consumed row was resolved before its expiry and an expired row was not |
| MandateRuns.EndingsAddUp | core/action_mandates.py:216-239 | True consumes plus true revokes plus all sweep counts equals the number of terminal mandates |
| MandateRuns.HitTells | core/action_mandates.py:60-67 | A statement that hits a row extends its history by one legal event |
| WebActor.Run | agents/web_actor.py:247-295 | A call commits exactly under the stated gates; every other call leaves the table as it was; preview and dry_run show the row's own grant |
| MandateId.NewId | core/action_mandates.py:78-84 | For every 128-bit value the id is the prefix and exactly 22 base-62 digits that decode to the value |
| MandateId.Room | core/action_mandates.py:84 | 62^22 exceeds 2^128 |
| MandateId.DecodeIsInjective | core/action_mandates.py:78-84 | Distinct values have distinct ids, and an id has one spelling |
| Crawler.RunCrawl | agents/broken_link_crawler.py:417-445 | On every site every visited page is reached over the recorded number of links, no page is fetched twice and no link checked twice, and visited is fetched plus robots hits. When links spelled like earlier pages lead to them: if the queue empties, the visited set is exactly the pages within max_depth links of the seed through allowed pages, each at its shortest distance; if the crawl is stopped at depth d, every page nearer than d is visited |
| Crawler.Crawl.Loop | agents/broken_link_crawler.py:343-373 | The same for the loop, which terminates on every graph |
| Crawler.Crawl.ProcessPage | agents/broken_link_crawler.py:265-294 | Exactly the unvisited same-origin links are queued one level deeper, below the depth cap only |
| Crawler.Crawl.CandidateLinkTargets | agents/broken_link_crawler.py:201-218 | Exactly the qualifying links not checked before are picked, each once |
| Crawler.Frontier | agents/broken_link_crawler.py:349-362 | Everything reachable over k links is visited unless the queue still holds an entry at depth k or less |
| Crawler.HeadIsNearest | agents/broken_link_crawler.py:352-356 | A new page is popped at its shortest distance |
| Crawler.VisitKeeps | agents/broken_link_crawler.py:285-288 | Visiting a page keeps the queue ordered by depth and every recorded depth reached; and, where names settle, every depth a distance and every link of an expanded page accounted for |
| Crawler.Certificate | agents/broken_link_crawler.py:343-373 | On every site, a crawl with an empty queue visited exactly the reachable pages, each at its distance, if and only if every link of a visited page above the cap leads to a visited page at most one level deeper |
| Crawler.IdempotentSettles | agents/broken_link_crawler.py:87-93 | An idempotent normalisation is enough for the crawl to be exact |
| Crawler.LostPage | agents/broken_link_crawler.py:87-93 | A page whose link `/a #f` is normalised to its own spelling: the crawl ends without the page one link away |
| Crawler.PopKeeps | agents/broken_link_crawler.py:354-355 | Dropping a duplicate entry loses no page |
| KevFeed.FetchesAreNeeded | agents/_kev_feed.py:95-100 | A fetch starts only under the lock and only when the cell is empty or expired at that instant |
| KevFeed.OneFetchAtATime | agents/_kev_feed.py:96-103 | At most one fetch runs at a time, and a thread reaching the final read finds a filled cell |
| KevFeed.FetchSpacing | agents/_kev_feed.py:94-102 | After a fetch that left an entry the next one starts at least the entry's lifetime later (six hours, or 300 seconds after a failure), minus the fetcher's delay since its clock reading |
| KevFeed.AnswersAreFresh | agents/_kev_feed.py:94-103 | What a call returns was fetched less than its lifetime before the call's own first clock reading: six hours, or 300 seconds for a failure |
| KevFeed.BackToBack | agents/_kev_feed.py:94-102 | The spacing bound is exact: for every delay some run has two fetches exactly that far apart, none at all once the delay is the lifetime |
| KevFeed.AfterRaise | agents/_kev_feed.py:69-83 | After a fetch that raised there is no spacing: for every gap some run has two fetches that far apart |
| KevFeed.StepKeeps | agents/_kev_feed.py:93-103 | Every step of every thread, a raise included, keeps the lock discipline and the fetch history in order |
| CveCache.RunCalls | agents/cve_lookup.py:665-686 | Over any sequence of calls through one cache, with any catalogues and clock readings, a reported record differs from an uncached answer exactly when a call since the one that fetched it (by TTL, eviction and refetch) asked for it under a catalogue that listed it, the present one does not, and no keyword speaks for it; under one catalogue throughout every reply is the uncached answer |
| CveCache.DriftIsRecent | agents/cve_lookup.py:509-536 | A reply that differs was looked up less than an hour after the clock reading that followed the fetch of its record |
| CveCache.SinceIsRecent | agents/cve_lookup.py:509-536 | A record that an earlier call fetched was fetched there for the same id, and is used for less than an hour |
| CveCache.Lookup.RunCveIdMode | agents/cve_lookup.py:665-686 | One call on any cache: the same, with the billing, the degraded flag and the mirrored first record that an uncached call gives; cache and fetching calls afterwards are what the history says; records outside the reply are untouched |
| CveCache.Lookup.Hydrate | agents/cve_lookup.py:398-417 | Package mode merges the source's own fields into its row, whatever was stamped on the shared record; a failed lookup leaves the row |
| CveCache.Lookup.CacheGet | agents/cve_lookup.py:509-524 | An unexpired entry is returned as the stored object; an expired one is dropped; the history agrees |
| CveCache.Lookup.CachePut | agents/cve_lookup.py:527-536 | A full cache drops its oldest entry, and only then; an id still there keeps its place; the history agrees |
| CveCache.Lookup.FetchCve | agents/cve_lookup.py:539-553 | An unexpired entry is returned as the stored object; otherwise the record is new, and stored for an hour when NVD has it; a failure is never cached |
| CveCache.Lookup.FetchWithFallback | agents/cve_lookup.py:634-641 | A transient NVD failure is answered by OSV when OSV has the record |
| CveCache.Lookup.NormalizeInPlace | agents/cve_lookup.py:644-654 | Every record of the call has both keys, also one that occurs twice, and nothing else changes |
| CveCache.Lookup.ApplyExploitIntel | agents/cve_lookup.py:820-845 | Every row is settled under the catalogue of the call, also one that occurs twice; degraded exactly when the catalogue was needed and unavailable |
| CveCache.Lookup.StampAll | agents/cve_lookup.py:665-686 | After the stamping every record of the reply, and every record still cached, is what all calls for it since its fetch make of it |
| CveCache.FinalSays | agents/cve_lookup.py:820-845 | What a reported record, from NVD or OSV, says of the catalogue, the keyword heuristic and its ids |
| CveCache.SettleIsIdempotent | agents/cve_lookup.py:831-844 | Normalising and stamping twice is doing it once, and leaves the source's fields alone |
| CveCache.CatalogueDrift | agents/cve_lookup.py:833-844 | A record stamped under any sequence of catalogues differs from a fresh one exactly when one of them listed it, the present one does not, and no keyword speaks for it |
| CveCache.OneCatalogue | agents/cve_lookup.py:833-844 | Under one catalogue nothing drifts |
| CveCache.DriftingRun | agents/cve_lookup.py:833-844 | Two calls through a new cache: listed at first, gone from the catalogue at the second, and the second reply is not the uncached answer |
| SigningKey.Agreement | agents/compliance_attestor.py:469-498 | In every interleaving all readers hold one private key; the winner agrees with them exactly when the marker first occurs after its private part |
| SigningKey.PublicPart | agents/compliance_attestor.py:473-475 | In every interleaving a process that read the winner's file holds the winner's public part as far as it read, hence the winner's key exactly when it read the whole file |
| SigningKey.ShortenedPublicPart | agents/compliance_attestor.py:473-475 | For every beginning of the public part some run from no file ends with the winner holding its key and a reader holding that beginning |
| SigningKey.SplitOfPrefix | agents/compliance_attestor.py:473-474 | Splitting a beginning of the file gives the same private part as splitting all of it |
| SigningKey.SplitOfContent | agents/compliance_attestor.py:488-490 | Splitting what was written gives the private part back exactly when it is clean |
| SigningKey.FileStays | agents/compliance_attestor.py:484-490 | Once created, the file keeps its writer and its final text |
| DiffParser.ParseDiffLines | agents/diff_analyzer.py:154-233 | The loop computes the fold of the line machine over the lines |
| DiffParser.RoundTrip | agents/diff_analyzer.py:151-233 | Parsing a rendered list of file diffs gives the same files in order with exact counts and added lines, exactly when no change looks like a path line |
| DiffParser.AdditionsAreLines | agents/diff_analyzer.py:224-226 | On every input each file's additions equal its number of added lines |
| DiffParser.ParsedChurn | agents/diff_analyzer.py:224-228 | On every input no more changes are counted than there are change lines |
| DiffParser.RecordsExactly | agents/diff_analyzer.py:170-233 | On every input there is one record, in order, for each header and each `+++` line not followed by another `+++` line before the next header, with the paths read at that line and exactly the changes from there to the next header or `+++` line |
| DiffParser.NoBlockLost | agents/diff_analyzer.py:198-209 | Every `+++` line starts a returned record exactly when a header stands between any two of them; without any header at most one record is returned |
| DiffParser.HeaderFound | agents/diff_analyzer.py:151 | The header expression captures both paths of a rendered header |
| DiffParser.FileFold | agents/diff_analyzer.py:170-228 | A rendered file flushes the previous one and leaves its own expected record, for all four kinds of path block |
| Purl.PurlRoundTrip | agents/sbom_generator.py:60-85 | A package URL can be read back to canonical name and version, scoped npm names and empty versions included |
| Purl.PurlIsIdentity | agents/sbom_generator.py:60-85 | Within an ecosystem two components share a package URL exactly when canonical name and version agree |
| Purl.EcosystemsApart | agents/sbom_generator.py:60-85 | No package URL belongs to two ecosystems |
| Purl.QuoteRoundTrip | agents/sbom_generator.py:62 | Percent-encoding loses nothing |
| Purl.DedupComponents | agents/sbom_generator.py:170-186 | First occurrences are kept in order, the others warned about in order, and kept plus warned equals parsed |
| Purl.KeptExactly | agents/sbom_generator.py:170-186 | A component is kept exactly when no earlier one has its canonical name and version |
| Purl.NothingLost | agents/sbom_generator.py:170-186 | Every component has a kept one with its identity |
| ConstFold.FoldIsSound | agents/python_executor.py:418-449 | A folded value is Python's value exactly when no exponent in the expression folds below zero |
| ConstFold.FoldRaises | agents/python_executor.py:436-440 | The folder raises exactly when it folds a power of zero whose negative exponent fits a float; never when exponents are non-negative |
| ConstFold.ZeroToMinusOne | agents/python_executor.py:436-440 | Zero to the power minus one makes the folder raise; two to the power minus one does not |
| ConstFold.FoldIsBounded | agents/python_executor.py:418-449 | A folded value has at most the literals' bits plus 121 per power and one per other operator |
| ConstFold.FloorDivideIsFloor | agents/python_executor.py:447-448 | The quotient is rounded toward minus infinity for every sign of the operands |
| MemoryCheck.HasObviousMemoryBomb | agents/python_executor.py:495-526 | The breadth-first walk is quiet exactly when every node of the tree is, and otherwise stops at a node that is not |
| MemoryCheck.FiringIsReal | agents/python_executor.py:502-525 | When a node fires, evaluating it builds a sequence or buffer over the limit exactly when it is plain |
| MemoryCheck.RaisesExactly | agents/python_executor.py:502-525 | At which nodes, and for which operands, the check itself raises |
| JsonPointer.PointerRoundTrip | agents/openapi_validator.py:120-122 | Splitting a printed pointer and decoding it in the order of section 4 of RFC 6901 gives every non-empty path back |
| JsonPointer.PrintIsInjective | agents/openapi_validator.py:120-123 | Two paths print alike only when equal or both among the empty path and the path of one empty token |
| JsonPointer.EscapeIsOneMap | agents/openapi_validator.py:121 | The two replacements equal one character map, and its output holds no "/" |
| Spdx.LeastOfGreatest | agents/dependency_auditor.py:403-424 | For every OR of ANDs of identifiers, with or without exceptions, groups bare or parenthesised, the risk is the greatest of some alternative and no alternative's greatest is less |
| Spdx.LicenseRisk | agents/dependency_auditor.py:412-424 | The loop over the branches computes the specified value on every text |
| Spdx.OrSplits | agents/dependency_auditor.py:416 | The OR split finds exactly the alternatives |
| Spdx.BodySplits | agents/dependency_auditor.py:417 | The AND split finds exactly the identifiers |
| Spdx.PadKeepsRisk | agents/dependency_auditor.py:386-400 | Spaces left by dropped parentheses do not change an identifier's bucket |
| LineIndex.LineCol | agents/secret_scanner.py:348-354 | The bisection form agrees with reading the text character by character at every offset, and the offset can be read back |
| LineIndex.BuildNewlineIndex | agents/secret_scanner.py:344-345 | All newline positions and no others, in order |
| LineIndex.BisectLeft | agents/secret_scanner.py:351 | The leftmost insertion point |
| LoadStats.PercentileIsNearestRank | agents/load_tester.py:87-92 | The reported value is, within 0.005, a sample value that at least p percent of the sample do not exceed and less than p percent are below |
| LoadStats.PercentilesAreOrdered | agents/load_tester.py:271-283 | min <= p50 <= p75 <= p95 <= p99 <= max, as reported after rounding |
| LoadStats.BuildHistogram | agents/load_tester.py:95-110 | Each bucket counts the values between its bounds; the counts sum to the sample size exactly when no latency is negative |

## Left out

- All I/O: HTTP, the browser, robots.txt fetching, SQLite, the file system and the clock appear as functions, parameters or nondeterministic steps.
- The database's TEXT order is modelled as comparison by character, which is SQLite's default; a PostgreSQL collation that is not byte-wise is not covered.
- Mandate creation's validation and clamping, the signed sigil, `resolution_note` and `job_id`: no guard reads them.
- IsoTime.Plus: the creation time and the lifetime are not parameters of the table; a mandate is created with any expiry.
- MandateRuns.AuditOrder, MandateRuns.CommitSafety, MandateRuns.Lateness: clock readings never go back, neither in one client nor between clients.
- WebActor.Run: the trimming of the payload and the reading of a host off a URL are parameters; the browser session is a given outcome.
- Crawler.RunCrawl: a page's links do not change during the crawl (each page is fetched once); a link whose port is no port number, on which `_same_origin` raises and the crawl fails as a whole, is not modelled; nor are the contents of the broken, redirect, mixed-content and alt-text reports; the HEAD requests stand for the links handed to the checker.
- KevFeed: clock readings never go back; `reset_cache` and the parsing of the catalogue are not modelled.
- CveCache.Lookup.RunCveIdMode: ids are already upper-case, as the input validation leaves them; upstream answers do not change between calls; one call runs at a time; callers do not alter the records they are given; a catalogue fetch that raises, and with it the call, is modelled in `KevFeed` only.
- CveCache.Lookup.Hydrate: the upper-casing of the cache key is not modelled, an id has one spelling; severity and score are part of the body.
- SigningKey: the file is not removed or replaced while processes run; a partial read is a beginning of the final text.
- DiffParser.RoundTrip: paths contain no whitespace and the extra header lines are ones no branch reacts to; risk flags, statuses and totals are not modelled.
- Purl: names and versions are UTF-8 bytes and lower-casing is ASCII, which the requirements expression guarantees for PyPI names; the manifest parsers are not modelled.
- ConstFold.FoldIsSound: a boolean literal is its int value; floats are only "not an int".
- MemoryCheck.FiringIsReal: the elements of a literal are taken to evaluate, one object each (no starred elements), names are not shadowed, an unpacked `*` or `**` argument is taken to supply an argument, sizes are weighed as the check weighs them, and the largest sizes that can be built are parameters.
- Spdx.LeastOfGreatest: an identifier is words between single spaces, without parentheses and none of them AND or OR; nesting other than an OR of ANDs is outside what the code promises; lower-casing is ASCII.
- LoadStats: mean and deviation; latencies are reals, so the rank and the rounding to two decimals are exact.
- Regular expressions of the secret scanner, CVSS tables, grading tables, sandboxing, settlement and the scaffold agents are not part of this model.
