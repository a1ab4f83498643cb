# Verified models of a trading platform's self-contained algorithms

The platform's engine talks to brokers, a database and GitHub. Around it stand a number of small programs whose answers
matter and whose correctness is not obvious from reading one function: the rate limiter and shared-price simulator of the
data hub's probe, the CRC and PNG writer of a drawn chart, the seeding and cleanup of a load-test organisation, the
rollback-safety check of the migration graph, the deploy gate, the bar builder of the fake broker, the request body limit,
the load generator's schedule, the metrics summary and the CI clock. This project models them in Dafny and proves what
they are for, on all inputs and over all runs.

| files | what they model |
|---|---|
| `HubLimiter`, `HubLimiterInvariant`, `HubLimiterBounds`, `HubWindows` | the limiter: sliding windows and a lazily refilled token bucket; the object updated in place, the step it takes, and an independent reference that reads the whole history of accepted calls |
| `HubMarket`, `HubBudgets`, `HubReads`, `HubTimetable`, `HubSimulator` | the simulator: bounded price histories, two budgets in front of one broker, what each poll does as values, when a run does it and what that costs with and without the hub, and the object with its step loop |
| `Crc32`, `PngChunks`, `PngPixels` | CRC-32 by table against section 3.4 of RFC 2083, chunk framing against section 3.2, the pixel buffer |
| `OrgStore`, `OrgSafety`, `OrgMeaning`, `OrgCleanup`, `OrgSeed` | the load-test organisation: the store as values, what a cleanup may take away, what proof and cleanup come to in rows and columns alone, the program on a database object, seeding and the whole life |
| `Reachability`, `RollbackCheck`, `MigrationBodies`, `RollbackLint` | the migration graph search, the call closure of `upgrade()`, the lint |
| `RollbackRuns`, `RollbackTruth`, `RollbackPlain`, `RollbackMisses` | what a migration does when it runs - its tables, columns and constraints by alembic's operations, not by what the lint reads - and what lint and check are worth then: exactly what is always found, and inputs that are not |
| `DeployGate`, `GatePairs` | the deploy gate's verdict and its settings |
| `FakeBars`, `FakeBroker` | bars of a session, and the cache that answers per minute |
| `BodyLimit` | the body limit around an arbitrary application |
| `LoadSchedule`, `MetricsHistogram`, `CiClock` | the sharded load schedule, counters and merged histograms between two scrapes, the clock search |
| `Wrappers`, `Sequences` | shared result types, distinctness and numerals |

Conventions. Times, rates and tokens are `real`, minutes and days `int`, bytes `bv8`, the CRC register `bv32`. What a program
cannot see into is an arbitrary function or value: the random walk, a price at a minute, the audit chain's hash, GitHub's
answers, a foreign key's refusal, the client and the application on the two sides of the body limit. A method stands for
code that works step by step and is proved equal to a function, or to a predicate, that the lemmas then speak about. What
such a function rests on - who is named by a row, where a reason comes from, the prices of a bar, what is on the stream, the
generator of the CRC - is stated once more by lemmas that do not use it, on the source's own columns, statements and numbers.

## Where the code and its documentation part

The models follow the code; each of these is proved.

- A rollback over a merge can be refused though every migration new to the older release is safe: an ancestor the target
  has too counts when it is reached around the target (`RollbackCheck.MergeRefused`, exact condition in `AcceptsExactly`).
  Without branches this does not happen (`LinearExact`).
- The lint says it errs on "risky". A documented operation is found in every run, if and only if the lint flags the call
  anyway or the call passes a check anyone can make on the file (`RollbackTruth.FoundExactly`, `RollbackRuns.Checked`): the
  table of a constraint is made under the same name and schema by a `create_table` that is always run; an added column is
  written out in the call, may be null or has a default, and brings no UNIQUE, CHECK or FOREIGN KEY of its own to an old
  table; no `nullable`, `server_default` or `unique` hides in a variable or in `**`. Otherwise some run is missed: an inline
  UNIQUE or FOREIGN KEY, a default written `None`, a column passed by name, a table of another schema, a batch name used
  twice, a table made under a condition, two unreadable names, `nullable` from a variable (all in `RollbackMisses`). The
  inline FOREIGN KEY on an old table stands in the repository's own migrations, declared safe without a reason:
  `b4d6f8a1c3e5` (`trades`), `c9e5a3b1d4a8` (`custom_strategies`) and `f2c4a6e8b012` (`copilot_chat_turns`).
- The lint judges the first plain `def upgrade`; what runs is the last value of the name. A second definition or an
  assignment is not seen (`RollbackMisses.TwoUpgradesPass`, `AssignedUpgradePasses`), nor what a decorator makes of the
  first; exact condition in `RollbackTruth.CoveredExactly`.
- A `CI_GATE_REQUIRED` of separators alone, such as one comma, is not replaced by the default and not refused: nothing is
  required and every commit passes (`GatePairs.CommaRequiresNothing`, exactly those settings).
- A restarted counter that has passed its old value is taken for one that went on, so "a value below its before is all new"
  can miss requests; `MetricsHistogram.DeltaOfRun` says exactly when a delta is right.
- A declared length of superscript digits passes `isdigit` and then fails in `int`: neither a 413 nor the application
  (`BodyLimit.Serve`, outcome `HeaderError`; `BodyLimit.SuperscriptUnreadable`).
- A seeding checked just inside the stamp's quarter of an hour whose record is written just outside succeeds, and is then
  refused by every cleanup (`OrgSeed.SlowSeedUnproved`, exact conditions in `SeedIdentifies`).

## Model

| member | source | states |
|---|---|---|
| HubLimiterInvariant.StepExact | backend/scripts/hub_probe.py:117-133 | one `take` answers as the whole history of accepted calls does - room in every window, a token in the bucket - and keeps the invariant that every queue holds exactly the accepted calls still live |
| HubLimiterBounds.FaithfulRun | backend/scripts/hub_probe.py:117-133 | over every run with times in order the answers are those computed from the full history, never purged and never stored |
| HubLimiterBounds.WindowBound | backend/scripts/hub_probe.py:117-133 | at most `limit` accepted calls lie in any (x, x + seconds], for all windows of the limiter at once, in any run |
| HubLimiterBounds.BucketBound | backend/scripts/hub_probe.py:124-130 | at most capacity + rate (b - a) calls are accepted in [a, b], in any run |
| HubLimiterBounds.TakenPlusLeft | backend/scripts/hub_probe.py:124-130 | what was taken since a and what is left never exceed one full bucket and the refill since a |
| HubLimiterBounds.TokensInRange | backend/scripts/hub_probe.py:124-130 | the stored token count stays between empty and full, on refusals too |
| HubLimiterBounds.RefusedInvisible | backend/scripts/hub_probe.py:117-133 | erasing every refused call from a run leaves every other answer, every later answer, and the state up to purging and refill |
| HubWindows.Windows.Take | backend/scripts/hub_probe.py:117-133 | the object's new state and answer are those of one step; in time order the answer is the reference's and the invariant is kept |
| HubMarket.Market.Move | backend/scripts/hub_probe.py:90-96 | every symbol gets exactly the next move, the oldest falling out of a full history |
| HubMarket.Market.Advance | backend/scripts/hub_probe.py:90-96 | all moves due by an instant are made, none after it |
| HubMarket.Market.At | backend/scripts/hub_probe.py:98-104 | the newest kept move at or before the instant, the oldest kept one before that; where the history reaches back, the market's price at that instant |
| HubBudgets.ChargeBalanced | backend/scripts/hub_probe.py:186-202 | every call attempted is counted exactly once; what is counted by consumer, by side and by the broker's own limiter is the same number; what the broker served after any instant the budgets had granted after it |
| HubBudgets.GrantedIsServed | backend/scripts/hub_probe.py:64-64 | with shares that fit and a paced worker, a call its own budget grants is never refused at the broker's published limits per second, minute and half hour |
| HubBudgets.CycleGranted | backend/scripts/hub_probe.py:160-160 | the worker's budget grants each read of a cycle, whatever its history of paced cycles |
| HubBudgets.PacedDemand | backend/scripts/hub_probe.py:292-295 | a worker of three reads a minute and one authorise call makes at most 124 calls in any half hour |
| HubBudgets.UpstoxFits | backend/app/market_data/api_budget.py:107-118 | the repository's shares for the probe's broker satisfy what the two lines above ask |
| HubReads.ReadingIsFresh | backend/scripts/hub_probe.py:205-266 | every price a page gets was the market's own at most 8 seconds ago, every price the engine gets at most the stream's latency ago |
| HubReads.SamplesInvisible | backend/scripts/hub_probe.py:276-328 | a run without a single sample makes the same calls with the same answers, ends with the same counters and keeps the same prices: sampling leaves no trace in any run |
| HubReads.LtpAsks | backend/scripts/hub_probe.py:216-230 | a poll asks exactly once for a symbol that is neither streamed with the hub on nor cached at most `ttl` ago, and never for another |
| HubReads.QuotesAsk | backend/scripts/hub_probe.py:232-250 | a list asks exactly once iff it holds such a symbol |
| HubReads.EngineAsks | backend/scripts/hub_probe.py:259-266 | the engine asks exactly once for a symbol that is not streamed, cached or not |
| HubReads.ChainAsks | backend/scripts/hub_probe.py:252-257 | a chain read asks unless the hub's copy is young, and a copy is always the price of the instant it was fetched |
| HubTimetable.LtpKeeps | backend/scripts/hub_probe.py:226-230 | a poll whose call the broker serves keeps the price of now for four seconds and changes no other quote; any other poll keeps nothing |
| HubTimetable.QuotesKeep | backend/scripts/hub_probe.py:242-250 | a served list keeps the price of now, for eight seconds, of exactly the symbols it had to ask for |
| HubTimetable.DoneAt | backend/scripts/hub_probe.py:278-302 | in any run each task is done exactly once for every instant of its timetable, at the first step not before it: charts every 5 s, lists every 10, chains every 15, the worker every 60, the Copilot every 300 from 30, samples every 7 from 3.5 |
| HubTimetable.StepsAre | backend/scripts/hub_probe.py:278-281 | a run looks at every twentieth of a second up to its length, once if that is just under zero, never if it is less |
| HubTimetable.StreamedRun | backend/scripts/hub_probe.py:276-302 | with every symbol on the stream a run of any length serves no call of a chart, a list or the engine, asks nothing through the worker's budget and caches no quote |
| HubTimetable.HubAsksNoMore | backend/scripts/hub_probe.py:276-302 | and never asks for more than the same run without the hub, refused calls included, whatever the shares, the prices and what was kept before |
| HubSimulator.Sim.constructor | backend/scripts/hub_probe.py:147-169 | all invariants hold at the start; with the hub on exactly one call, the authorise call, has been made |
| HubSimulator.Sim.Call | backend/scripts/hub_probe.py:186-202 | counters and the three histories change as one charge does; the answer is that of both limiters' histories; conservation and coverage are kept |
| HubSimulator.Sim.Ltp | backend/scripts/hub_probe.py:216-230 | a symbol on the stream answers its price of 0.2 s ago, one with a live cached quote that quote, each without a call; any other makes exactly one call and answers the price of now or nothing; the books and the cache change as the poll's definition says, only a served call is cached, an uncounted read changes nothing; the price is at most 8 seconds old |
| HubSimulator.Sim.Quotes | backend/scripts/hub_probe.py:232-250 | each symbol's own reading, and exactly one call iff some symbol is neither streamed nor cached; all that are missing are cached if it is served; every price is at most 8 seconds old |
| HubSimulator.Sim.Chain | backend/scripts/hub_probe.py:252-257 | with the hub on a young copy saves the call; a served call replaces the copy with the price of that instant |
| HubSimulator.Sim.EngineLtp | backend/scripts/hub_probe.py:259-266 | the stream's price of 0.2 s ago without a call, else exactly one call through the worker's budget, no cache, and the price of now or nothing; the price is at most the stream's latency old |
| HubSimulator.Sim.CopilotQuote | backend/scripts/hub_probe.py:268-273 | exactly one call whenever counted, and always a price: the stream's of 0.2 s ago or that of now |
| HubSimulator.Sim.Sample | backend/scripts/hub_probe.py:320-328 | the spread of the four readers is the distance between the pages' and the engine's price, zero for a streamed symbol; no budget, cache or counter changes |
| HubSimulator.Sim.WorkerCycle | backend/scripts/hub_probe.py:292-295 | the three reads in order; the worker's history stays paced, and neither its budget nor the broker refuses a call of it |
| HubSimulator.Sim.Due | backend/scripts/hub_probe.py:282-302 | everything due at a step, in the loop's order, and each task due again one interval later |
| HubSimulator.Sim.Run | backend/scripts/hub_probe.py:276-302 | the run is its definition step by step; for shares that fit no broker 429 and no refused worker call; with the hub streaming the symbol one price everywhere in every sample; all invariants at the end |
| HubSimulator.Measure | backend/scripts/hub_probe.py:276-318 | the same for the repository's limits, any prices, any streamed symbols and any length of run |
| Crc32.LookupIsRfc | frontend/e2e/drawnChart.ts:4-4 | a table entry is eight steps of the bitwise division of section 3.4 of RFC 2083 by the generator made of its exponents |
| Crc32.RegisterIsRfc | frontend/e2e/drawnChart.ts:5-5 | the table-driven register is the bit-at-a-time one for every byte sequence; that one takes its generator from the exponents of section 3.4 |
| Crc32.RegisterInjective | frontend/e2e/drawnChart.ts:5-5 | the same bytes take two different registers to two different registers |
| Crc32.BurstDetected | frontend/e2e/drawnChart.ts:5-5 | messages that differ inside at most four neighbouring bytes never have the same CRC |
| Crc32.MakeTable | frontend/e2e/drawnChart.ts:4-4 | the table built in place holds every byte's entry |
| Crc32.Compute | frontend/e2e/drawnChart.ts:5-5 | the loop over the bytes yields the CRC of section 3.4, of the generator made of its exponents |
| Crc32.PolynomialIsGenerator | frontend/e2e/drawnChart.ts:4-4 | the table's constant is the generator with the exponents 32, 26, 23, 22, 16, 12, 11, 10, 8, 7, 5, 4, 2, 1, 0 of section 3.4, written with its bits reversed |
| Crc32.EndChunk | frontend/e2e/drawnChart.ts:5-5 | the letters IEND have the published CRC |
| PngChunks.RoundTrip | frontend/e2e/drawnChart.ts:6-10 | a reader of the section 3.2 layout recovers every type and data block, in order, and accepts every CRC |
| PngChunks.ReadOnlyWritten | frontend/e2e/drawnChart.ts:6-10 | whatever a reader accepts is the writer's output for the chunks read |
| PngChunks.DamageRefused | frontend/e2e/drawnChart.ts:6-10 | a chunk changed inside four neighbouring bytes of type or data is refused |
| PngChunks.HeaderReads | frontend/e2e/drawnChart.ts:24-24 | the header's width and height read back, and its last five bytes are eight bits, RGB and no interlacing |
| PngChunks.DrawnFileReads | frontend/e2e/drawnChart.ts:24-25 | the drawn file reads as its signature and exactly three chunks, whatever the compressor made |
| PngChunks.LastChunk | frontend/e2e/drawnChart.ts:6-10 | the last chunk is the twelve bytes every PNG ends with |
| PngChunks.WriteBig | frontend/e2e/drawnChart.ts:7-8 | four bytes are written in place and no other; a value past 32 bits is refused and writes nothing |
| PngChunks.WriteName | frontend/e2e/drawnChart.ts:7-7 | the type field holds the first four letters, padded with zeros |
| PngChunks.WriteChunk | frontend/e2e/drawnChart.ts:6-10 | the assembled chunk, or the error of a length past 32 bits |
| PngPixels.PixelInBounds | frontend/e2e/drawnChart.ts:12-14 | the three bytes of every pixel lie inside the buffer |
| PngPixels.Apart | frontend/e2e/drawnChart.ts:12-14 | two pixels never share a byte and no pixel covers a filter byte |
| PngPixels.ScanlineOrder | frontend/e2e/drawnChart.ts:12-14 | scanline after scanline: a filter byte, then three bytes a pixel from left to right |
| PngPixels.Canvas.Set | frontend/e2e/drawnChart.ts:14-14 | exactly the addressed pixel changes, none when it is outside, and no filter byte |
| PngPixels.Canvas.Fill | frontend/e2e/drawnChart.ts:20-21 | exactly the pixels of the box change |
| PngPixels.Canvas.Draw | frontend/e2e/drawnChart.ts:15-23 | every pixel is the later stroke's, else the grid's, and every scanline's filter byte is still 0 |
| PngPixels.ChartIs | frontend/e2e/drawnChart.ts:15-23 | what is drawn, in real intervals and closed form: twenty candles side by side, every third red and the others green, each before a longer one-column wick, and elsewhere grid lines 64 columns and 60 rows apart |
| OrgStore.EmailForIsOurs | backend/scripts/loadtest_org.py:92-97 | every address the seed gives is one the cleanup recognises |
| OrgSafety.RowsSafe | backend/scripts/loadtest_org.py:374-411 | under any refused deletes: a row that is gone was of an allowlisted table and owned by the organisation, no row is altered, no ledger loses or changes one, at most one audit row appears |
| OrgSafety.UsersSafe | backend/scripts/loadtest_org.py:390-403 | a user that is gone was of the organisation, and then no row left holds it in a column that references users or in a plain `user_id`, and no organisation's own row does; a member that is kept is held by one, unless the users' delete was refused; everybody else's user is untouched; those kept are inert |
| OrgSafety.TenantsSafe | backend/scripts/loadtest_org.py:405-406 | only this organisation's status and reason change, none is deleted |
| OrgSafety.RefusedDeletesNothing | backend/scripts/loadtest_org.py:357-373 | a run refused for foreign rows keeps every row and user, and makes the organisation inert |
| OrgSafety.RefusalRepeats | backend/scripts/loadtest_org.py:360-369 | a repeated refusal adds no audit row and changes hashes only |
| OrgSafety.NamedAfter | backend/scripts/loadtest_org.py:304-315 | the cleanup's own audit row names nobody: who is named at the end was named after the deletes |
| OrgSafety.IdentifiedAgain | backend/scripts/loadtest_org.py:183-220 | after any cleanup the same record proves the organisation with the members left, and refuses only if none is |
| OrgSafety.CleanState | backend/scripts/loadtest_org.py:413-426 | what a clean report means: nothing but ledger rows owned, everybody left named by some row and inert |
| OrgSafety.CleanupIdempotent | backend/scripts/loadtest_org.py:334-426 | after a clean run a second one, with any refusals and any new secret, refuses for want of members or deletes nothing, writes no audit row, changes tombstone hashes only and reports clean again |
| OrgMeaning.ProvenExactly | backend/scripts/loadtest_org.py:183-220 | which organisation is proven: there is exactly one seed record for the stamp, its hash is right, it names the organisation and no user and lies within 15 minutes of the stamp; the organisation has the stamp's name and, like every unlisted member, lies within 5 minutes of the record; it has members, all with the stamp's addresses and listed if there is a list; in every other case none is |
| OrgMeaning.OwnsExactly | backend/scripts/loadtest_org.py:277-284 | a row is the organisation's by `tenant_id` where its table has that column, only otherwise by `user_id` |
| OrgMeaning.RowsGone | backend/scripts/loadtest_org.py:375-389 | an owned row of an allowlisted table is gone unless its table's delete was refused in all three passes |
| OrgMeaning.KeptAreTombstones | backend/scripts/loadtest_org.py:401-403 | whoever is kept has the same organisation, address and age, and nothing left to log in with |
| OrgMeaning.AuditedExactly | backend/scripts/loadtest_org.py:404-410 | the audit row is written iff a row or a user is gone, the organisation was not suspended, or a member was still seen active: a run that changes nothing of that leaves no trace |
| OrgCleanup.Database.Identify | backend/scripts/loadtest_org.py:183-220 | success exactly for one intact seed record at the stamp's time, its organisation unrenamed and as old, and members all the seed's; otherwise the first refusal in order |
| OrgCleanup.Database.Pass | backend/scripts/loadtest_org.py:376-389 | one pass over the pending tables empties those not refused and keeps the rest pending and failed, the rest of the store unchanged |
| OrgCleanup.Database.RunPasses | backend/scripts/loadtest_org.py:375-389 | three passes leave exactly the tables refused each time, with the counts of what was deleted |
| OrgCleanup.Database.DropUsers | backend/scripts/loadtest_org.py:390-400 | users no row left refers to are deleted, or all kept if that is refused: said of columns, rows and organisations alone, both ways |
| OrgCleanup.Database.RemoveAndSuspend | backend/scripts/loadtest_org.py:374-411 | the whole new state of a cleanup that is not refused |
| OrgCleanup.Cleanup | backend/scripts/loadtest_org.py:334-426 | which of the four ends a run has, and the store in each: unchanged when nothing was seeded or identify refuses, inert when foreign rows are found, cleaned otherwise - and then nobody gone is referred to by what is left, and everybody kept is unless the users' delete was refused |
| OrgSeed.Seed | backend/scripts/loadtest_org.py:223-258 | the five refusals in their order, each leaving the store unchanged; otherwise the whole seeding |
| OrgSeed.SeedIdentifies | backend/scripts/loadtest_org.py:183-258 | straight after a seeding identify proves exactly its organisation and users, with the organisation file or without, iff the record was written near the stamp and the organisation (and, without the file, every user) near the record; else which refusal |
| OrgSeed.SlowSeedUnproved | backend/scripts/loadtest_org.py:231-232 | a seeding accepted on the edge of the stamp's quarter of an hour whose record comes later is never proved |
| OrgSeed.SeedThenCleanup | backend/scripts/loadtest_org.py:223-411 | with no delete refused, seeding and then cleaning up restores every user and every table but for two audit rows and the suspended organisation |
| OrgSeed.SeedThenCleanupIsClean | backend/scripts/loadtest_org.py:413-426 | and that cleanup reports clean with nobody left |
| RollbackCheck.Check | backend/scripts/migration_rollback_safety.py:197-230 | the worklist ends; `descendant` holds iff the target is an ancestor; `between` is, each once, exactly what is reached without passing the target; `unsafe` is its part without a True flag |
| RollbackCheck.AcceptedIsSafe | backend/scripts/migration_rollback_safety.py:246-248 | exit 0 implies that every migration the older release does not know declares ROLLBACK_SAFE = True |
| RollbackCheck.AcceptsExactly | backend/scripts/migration_rollback_safety.py:197-230 | exit 0 iff the target is a known ancestor and both the new migrations and those reached around the target declare it |
| RollbackCheck.LinearNotBypassed | backend/scripts/migration_rollback_safety.py:213-228 | on a history without branches nothing is reached around the target |
| RollbackCheck.LinearExact | backend/scripts/migration_rollback_safety.py:197-230 | so there the check accepts exactly the safe rollbacks |
| RollbackCheck.MergeRefused | backend/scripts/migration_rollback_safety.py:213-228 | a merge over an old unsafe base: nothing new is unsafe and the check refuses |
| MigrationBodies.ReachableBodies | backend/scripts/migration_rollback_safety.py:74-87 | exactly the functions `upgrade()` reaches through calls by name, each once, in the order the worklist takes them |
| RollbackLint.RiskyOperations | backend/scripts/migration_rollback_safety.py:95-151 | the findings are those of all calls in the call closure of the first plain `upgrade`, none without one |
| RollbackLint.FoundNothing | backend/scripts/migration_rollback_safety.py:95-151 | no finding iff no call in `upgrade()` or in any helper it reaches is flagged |
| RollbackLint.Lint | backend/scripts/migration_rollback_safety.py:165-187 | the problems are exactly those the files have, each with its findings and said of the file's statements: the last constant for ROLLBACK_SAFE is neither True nor False, or it is True, the last one for ROLLBACK_SAFE_REASON is not truthy and something in the judged upgrade is flagged; none iff no file is so |
| RollbackLint.UnreasonedIsReported | backend/scripts/migration_rollback_safety.py:165-187 | a file in which no assignment names ROLLBACK_SAFE_REASON, whose last constant for ROLLBACK_SAFE is True and whose judged upgrade holds a flagged call is reported |
| RollbackRuns.HarmlessExactly | backend/scripts/migration_rollback_safety.py:12-18 | a call that is no drop, shows no rename or new type and runs no SQL but a mild literal does none of the documented things in any run iff it passes `Checked`; for runs in which a variable names one table throughout, and for runs in which it need not |
| RollbackTruth.FoundExactly | backend/scripts/migration_rollback_safety.py:95-151 | a call is found in every run in which it does one of the documented things iff the lint flags it anyway or it passes `RollbackRuns.Checked`; for both kinds of runs |
| RollbackPlain.PlainExactly | backend/scripts/migration_rollback_safety.py:95-151 | for a call written plainly - arguments spelled out, flags and table names literals, no schema, no constraint inside an added column - the lint has a finding iff the call can do one of the documented things in some run: no miss and no false alarm |
| RollbackTruth.SameNameFound | backend/scripts/migration_rollback_safety.py:121-129 | where no schema is in play and the lint reads the name that is meant, a constraint is missed only if its table is unreadable beside an unreadable `create_table` and not written like one |
| RollbackTruth.OneBatchIsRead | backend/scripts/migration_rollback_safety.py:105-113 | where every batch the upgrade gives the name to is the enclosing one, the lint reads the table that is meant |
| RollbackTruth.QuietExactly | backend/scripts/migration_rollback_safety.py:95-151 | an upgrade without a finding does none of the documented things in any run iff each of its calls passes `RollbackRuns.Checked` |
| RollbackTruth.CoveredExactly | backend/scripts/migration_rollback_safety.py:97-98 | what runs is what the lint judged iff nothing binds `upgrade`, or its first plain definition is the last thing that does, or an async one is, and no decorator stands before it |
| RollbackTruth.SettledDefs | backend/scripts/migration_rollback_safety.py:76-76 | the helpers the lint follows are those that run iff no function's name is given to something else later or decorated |
| RollbackTruth.LintAndCheck | backend/scripts/migration_rollback_safety.py:165-230 | a clean lint and an accepted check, for every migration between and every one new to the older release: the last constant it gives ROLLBACK_SAFE is True, and nothing judged is flagged unless the last constant it gives ROLLBACK_SAFE_REASON is truthy; where the judged upgrade is the one that runs, it does none of the documented things in any run iff each of its calls passes `RollbackRuns.Checked` |
| RollbackMisses.InlineUniquePasses | backend/scripts/migration_rollback_safety.py:141-144 | an added column that is UNIQUE by itself: in every run a constraint on an old table, and nothing is found |
| RollbackMisses.InlineForeignKeyPasses | backend/alembic/versions/b4d6f8a1c3e5_add_routing_policies.py:26-27 | the foreign key inside `add_column` in a batch: in every run a constraint on an old table, and nothing is found |
| RollbackMisses.NoneDefaultPasses | backend/scripts/migration_rollback_safety.py:143-143 | `nullable=False, server_default=None`: in every run NOT NULL without a default, and nothing is found |
| RollbackMisses.KeywordColumnPasses | backend/scripts/migration_rollback_safety.py:142-142 | a NOT NULL column passed as `column=`: nothing is found |
| RollbackMisses.OtherSchemaPasses | backend/scripts/migration_rollback_safety.py:103-129 | a table made in one schema hides a constraint on its namesake in another, in every run |
| RollbackMisses.ReusedBatchNamePasses | backend/scripts/migration_rollback_safety.py:106-113 | with one name for two batches, in every run the constraint's table is old, only the other is created, and nothing is found |
| RollbackMisses.ConditionalTablePasses | backend/scripts/migration_rollback_safety.py:104-104 | a run in which a table that is made under a condition was there before: a constraint on it is not found |
| RollbackMisses.UnreadableTablePasses | backend/scripts/migration_rollback_safety.py:90-92 | a run in which the constraint's table is old, another one is created, and nothing is found, though each variable keeps its value |
| RollbackMisses.VariableNotNullPasses | backend/scripts/migration_rollback_safety.py:136-137 | a run in which `nullable` read from a variable makes a column NOT NULL and nothing is found |
| RollbackMisses.TwoUpgradesPass | backend/scripts/migration_rollback_safety.py:98-98 | defined twice, the first idle: the lint passes and the migration drops a table |
| RollbackMisses.AssignedUpgradePasses | backend/scripts/migration_rollback_safety.py:98-100 | an assigned `upgrade` is never judged |
| DeployGate.LatestIs | deploy/ci_gate.py:85-96 | of all runs of the commit and workflow the one with the highest id |
| DeployGate.LatestRuns | deploy/ci_gate.py:85-96 | one run a required workflow, the newest, and no other |
| DeployGate.PassExactly | deploy/ci_gate.py:99-144 | pass iff every required workflow's newest run is complete, every required job succeeded, and every other job is complete and has not ended badly - in failure, cancelled, timed out, waiting for action, failed to start or stale - or is known red |
| DeployGate.FailExactly | deploy/ci_gate.py:99-144 | Fail iff a required workflow has no run, a required job is missing from a complete run or finished without success, or another job of such a workflow is bad and not known red; Pending iff none of these and some run, required job or other job not known red is under way |
| DeployGate.MoreKnownRed | deploy/ci_gate.py:128-139 | a longer known-red list never lowers the verdict |
| DeployGate.MoreRequired | deploy/ci_gate.py:99-144 | two evaluations of one commit, each reading only what it requires: requiring more never raises the verdict |
| DeployGate.MoreRequiredUnread | deploy/ci_gate.py:85-144 | if only the longer list cannot be read, it is the jobs of a workflow only it requires that are missing |
| DeployGate.MoreRequiredPasses | deploy/ci_gate.py:99-144 | a commit that passes the longer list can be read under the shorter one and passes it |
| DeployGate.NothingRequired | deploy/ci_gate.py:99-144 | with nothing required every commit passes |
| DeployGate.Evaluate | deploy/ci_gate.py:99-144 | the three-valued verdict of the answers, or that GitHub could not be read |
| DeployGate.NewestPassed | deploy/ci_gate.py:147-160 | the first of at most three distinct other commits, in the order listed, that passes, and none before it |
| DeployGate.Gate | deploy/ci_gate.py:163-199 | exit 2 iff a job is both required and known red, 3 iff GitHub cannot be read, 0 iff the commit passes; a commit proposed instead passes |
| GatePairs.Pairs | deploy/ci_gate.py:43-52 | the pairs of all pieces in order, or the first piece that is not workflow-file:job |
| GatePairs.RefusedExactly | deploy/ci_gate.py:43-52 | a setting is refused iff some piece of it is not workflow-file:job |
| GatePairs.RoundTrip | deploy/ci_gate.py:43-52 | a list written with any commas and white space between, each of the 29 characters of `\s` taken one by one, is read back pair for pair |
| GatePairs.CommaRequiresNothing | deploy/ci_gate.py:171-172 | the required list is empty, and every commit passes, iff the setting is there and made of separators alone |
| FakeBars.BarsTruncated | deploy/ci/fake_broker.py:131-138 | bars at an instant are the bars at its minute |
| FakeBars.BarsInOrder | deploy/ci/fake_broker.py:142-169 | each bar starts where the one before ends or opens a session, none starts after the instant |
| FakeBars.StartsIncrease | deploy/ci/fake_broker.py:142-169 | the starts strictly increase, each bar over before the next |
| FakeBars.BarsTile | deploy/ci/fake_broker.py:142-169 | every minute of a session up to the instant lies in exactly one bar |
| FakeBars.NeverRepaints | deploy/ci/fake_broker.py:142-169 | at a later instant every bar is at its place, and every bar over by one minute past the earlier instant is identical |
| FakeBars.OnlyNewestOpen | deploy/ci/fake_broker.py:142-169 | all bars but the newest are over |
| FakeBars.NoLookAhead | deploy/ci/fake_broker.py:156-166 | no intraday bar depends on a price later than one minute past the instant, no daily bar on a later one at all |
| FakeBars.BarsSound | deploy/ci/fake_broker.py:153-166 | low is never above open or close, high never below |
| FakeBars.BarsPriced | deploy/ci/fake_broker.py:142-169 | every bar is one of a weekday asked for; it opens at the price of its first minute (a daily bar of 09:15), closes at the price of its end or of the minute after the instant (a daily bar at 15:30 or the instant's), whichever is first, and its high and low are the highest and lowest price over the sampled minutes from the first to the last, each attained |
| FakeBars.DailyExactly | deploy/ci/fake_broker.py:144-155 | the daily bars are those of the weekdays asked for whose session has opened, one each, in order |
| FakeBroker.BarsPerMinute | deploy/ci/fake_broker.py:142-169 | the two loops build exactly the bars of the definition |
| FakeBroker.IntradayLoop | deploy/ci/fake_broker.py:157-167 | one session's buckets |
| FakeBroker.BarCache.Answer | deploy/ci/fake_broker.py:131-142 | whatever was asked before, the answer is the direct one for the very instant asked for; only the least recently used entry of a full cache is dropped |
| BodyLimit.DeliveredBounded | backend/app/main.py:279-286 | however often the application reads, the body bytes it gets never exceed the limit, and within the limit it gets them all |
| BodyLimit.RefusedForGood | backend/app/main.py:279-286 | after the first refusal every later request message is refused, an empty one too |
| BodyLimit.SmallBodyUnchanged | backend/app/main.py:279-286 | a body within the limit passes message by message |
| BodyLimit.Exchange.CountedReceive | backend/app/main.py:279-286 | the application observes what the limit lets through of the next message |
| BodyLimit.Exchange.TrackedSend | backend/app/main.py:288-292 | every message goes out as it is |
| BodyLimit.RunApp | backend/app/main.py:294-301 | for any application and any number of its steps: what it observed is faithful and bounded, what began outward is what it began, and the 413 is added exactly when it let the refusal out with nothing begun |
| BodyLimit.Serve | backend/app/main.py:264-301 | a declared oversize length means exactly one 413 and an application never called; otherwise the above |
| BodyLimit.SuperscriptUnreadable | backend/app/main.py:270-271 | a length of one superscript two passes the digit test and cannot be read as a number |
| BodyLimit.DecimalValueOf | backend/app/main.py:270-272 | a length as printed passes the digit test and has its own value |
| BodyLimit.OneResponse | backend/app/main.py:288-301 | an application that begins at most one response never makes two begin |
| BodyLimit.NoRequestAfterRefusal | backend/app/main.py:279-286 | in any run no request message is observed after a refusal |
| LoadSchedule.ProbeOffsets | backend/scripts/loadtest.py:282-294 | nothing for an empty window or period; otherwise exactly the shard's own slots that lie in the window |
| LoadSchedule.ShardsPartition | backend/scripts/loadtest.py:282-294 | over all shards every slot of the window is probed exactly once, by its own shard at its own turn, and nothing else is |
| LoadSchedule.OneShardsRate | backend/scripts/loadtest.py:282-294 | any half-open interval holds at most ceil(length / (every x shards)) of one shard's probes |
| LoadSchedule.TwoAMinute | backend/scripts/loadtest.py:283-285 | in the documented profile at most two logins a minute from one address |
| LoadSchedule.StartsPartition | backend/scripts/loadtest.py:440-447 | over all shards a user starts at every point of one even grid over the ramp |
| LoadSchedule.StartsOnGrid | backend/scripts/loadtest.py:440-447 | and every start is such a point, a different one for each shard and user |
| MetricsHistogram.DeltaOfRun | deploy/ci/metrics_summary.py:42-44 | over any run of counting and restarts a delta is never negative and never more than was counted, and is exact iff there was no restart, or nothing was lost in one and the value is below its old one (or there was none) |
| MetricsHistogram.DeltaOfScrapes | deploy/ci/metrics_summary.py:42-44 | the same for all counters of two scrapes |
| MetricsHistogram.RestartCaughtUp | deploy/ci/metrics_summary.py:42-44 | five before, a restart, seven counted: a delta of two |
| MetricsHistogram.AddUp | deploy/ci/metrics_summary.py:65-66 | the sum over all wanted label sets, in whatever order they come |
| MetricsHistogram.PerBound | deploy/ci/metrics_summary.py:67-71 | one entry a bound that occurs, the sum over the label sets that have it |
| MetricsHistogram.OtherRoutes | deploy/ci/metrics_summary.py:61-72 | the label sets added up are all those of the name with that route and no other, a bucket's all those of its bound; series of other routes never change a route's sum or histogram |
| MetricsHistogram.Histogram | deploy/ci/metrics_summary.py:61-72 | count, sum, and the merged buckets by rising bound |
| MetricsHistogram.Quantile | deploy/ci/metrics_summary.py:47-55 | the first bucket that reaches the target, the last if none does, zero for an empty histogram |
| MetricsHistogram.DeltaObserved | deploy/ci/metrics_summary.py:42-44 | without a restart the delta of two scrapes of a histogram is, bucket by bucket, the histogram of what was observed in between |
| MetricsHistogram.AtMostCounts | deploy/ci/metrics_summary.py:42-44 | a cumulative bucket is the number of observations at or under its bound, the infinite one all of them |
| MetricsHistogram.MergedIsPooled | deploy/ci/metrics_summary.py:42-72 | merging that delta over the label sets gives the cumulative histogram of everything observed in between, pooled |
| MetricsHistogram.QuantileIsLeast | deploy/ci/metrics_summary.py:47-55 | the quantile is the least bound that covers that share of all the observations |
| MetricsHistogram.MergedQuantile | deploy/ci/metrics_summary.py:75-101 | from two scrapes to the printed bound: the least one that covers that share of everything observed between them |
| CiClock.Pick | deploy/ci/ci_clock.py:48-62 | `at` if given; now in real mode or inside the window; otherwise ten o'clock of the latest trading day before now, or a failure iff none of the 30 days searched is one |
| CiClock.FoundIsLatest | deploy/ci/ci_clock.py:55-61 | no other trading day's ten o'clock lies between the one picked and now |
| CiClock.Weekdays | deploy/ci/ci_clock.py:44-45 | trading days are Monday to Friday without the holidays, counted from ordinal 1, a Monday |
| CiClock.WindowIs | deploy/ci/ci_clock.py:52-54 | the window is such a day from 09:30 to 14:00 in India, both inclusive |
| CiClock.OffsetShowsTarget | deploy/ci/ci_clock.py:65-72 | the shifted clock is within half a second of its target |
| CiClock.OffsetIs | deploy/ci/ci_clock.py:65-72 | a shift of up to four and a half seconds is none, a longer one the nearest whole second |
| CiClock.ShiftIsBackwards | deploy/ci/ci_clock.py:48-69 | outside the window the clock goes at least four hours back, so a zero offset means the real clock |

## Left out

- The trading engine itself, the web pages, their tests, deployment scripts, certificates and router registration.
- Floating point: times, rates, prices and offsets are exact reals, so rounding to 6, 4 or 2 decimals and sums of floats are not modelled.
- `hub_probe.Market.start` and the random walk: prices are an arbitrary function of symbol and move; `report` figures, `load_probe`, the stream's reconnect and token expiry runs.
- The result of `plan_symbols` and `session_cap`: the set of streamed symbols is a parameter, and so is the chain snapshot's time to live.
- HubBudgets.GrantedIsServed: one direction only; the worker's pace is needed because the two budgets alone allow more than 2000 calls in half an hour.
- HubSimulator.Sim.Run: nothing is claimed of refusals by the API budget, which do occur with the hub off.
- `deflateSync`: the compressed pixels are any bytes; a fractional or negative size of the drawn chart.
- `loadtest_org`: password hashing, the audit chain's own verification, `counts`, `list`, the command line and the organisation file's format; the posture check is one boolean.
- OrgSafety.RowsSafe: what a foreign key with ON DELETE does by itself is not modelled; a delete takes the named rows or is refused.
- OrgSafety.CleanupIdempotent: whether the session sees the users it has just updated as inactive is an arbitrary boolean, and nothing else writes to the store between two runs.
- OrgSeed.Seed: the ids, hashes and the instant of every row are parameters; the roles of the users are not kept.
- RollbackTruth.FoundExactly: a batch object made outside the call's own `with` statements, one handed to a helper say, counts as a table nobody can read; a call in a loop is made once, calls in any order; SQLAlchemy goes by `sa` or `sqlalchemy`.
- RollbackRuns.HarmlessExactly: the documented operations are alembic's by their names and SQL that matches the lint's pattern; exclusion constraints, `op.invoke`, a batch's own `table_args` and SQL run other than by `execute` and `exec_driver_sql` are none; a server default that is itself NULL counts as one.
- RollbackTruth.LintAndCheck: code behind a name that is imported or assigned is not followed, by the lint or here, and an operation called by such a name is none.
- `migration_rollback_safety`: Python's parser (a file is its syntax tree, which also says of a call which `with` statements it stands in and whether it is always made), alembic's partial revision ids, the risky-SQL pattern (an arbitrary predicate), sorting of problem texts.
- `ci_gate`: the texts of details, JSON, curl, pages past the first, the shape checks of the repository name and the commit on the command line.
- BodyLimit.Serve: Python's own limit on the digits of an integer, and the bytes of the 413's body.
- FakeBroker.BarCache.Answer: threads; volumes carry no property.
- `loadtest`: sessions, think times, `Stats`, `percentile` and the report.
- `metrics_summary.parse`: the text format; label sets that repeat a label name.
- CiClock.Pick: reading the holiday lists from the migrations, and days before the calendar's first.
