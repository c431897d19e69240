# PulseCore sampling and persistence core, in Dafny

PulseCore is a desktop telemetry engine. This project models its core in Dafny and proves properties of that model. The core consists of:

- **The telemetry loop** (`app.rs`). It runs forever. Each pass collects a snapshot, records it, publishes it, advances a saturating tick counter, prunes the history on every 180th tick, and sleeps. The sleep is the interval of the current mode, clamped to [100, 10000] ms. This is module `TelemetryLoop`, with class `TelemetryLoop` holding the counter and a trace of what the loop did.
- **The sampler** (`system_collector.rs`). It turns a reading of the host into a snapshot. The volumes are listed once, when the sampler is built, and every snapshot reports the disk figures of that list. CPU frequency is the floor mean. Memory and disk usage percentages are guarded against zero totals. Network rates are measured against the counters and instant of the previous call. Interface counters are summed with u64 saturation. This is module `Collectors`, with class `SystemCollector`.
- **The network probe** (`ping.rs`). It runs `ping` and scans its output for round-trip samples (`time=`/`time<` … `ms`) and a packet-loss figure. It then summarises the samples as minimum, maximum, mean and jitter. This is module `Ping`.
- **The history store** (`db/mod.rs`). The `speed_tests` table is keyed by task id, and inserting is an upsert. The store also keeps the single settings row. It serves paginated, time-filtered queries newest first, exports CSV, and prunes rows older than a number of days. This is module `HistoryStore`, with class `Database` holding the table as a sequence of rows in rowid order and the settings row as an option.
- **The hardware description** (`device_info/mod.rs`). It reports the CPU brand, memory size, disk models, GPU, motherboard and vendor. Values are read from `wmic … /value` output where possible, and each field has a fixed fallback. This is module `DeviceInfo`.

Shared modules:
- `Wrappers` holds Option, Result and Outcome.
- `Numeric` holds the u64 range, clamping and saturating arithmetic.
- `Text` holds Rust's `trim`, `lines`, `split_once`, `strip_prefix` and decimal digits.
- `Types` holds the settings and the mode.

Timestamps in the store are held as their RFC 3339 text. That text is what the table stores and what SQLite compares, in code-point order (`TextLe`).

CSV export asks `query_history` for page 1 with a page size of 10 000 (src-tauri/src/db/mod.rs:188-194). `query_history` clamps the page size to 200 (src-tauri/src/db/mod.rs:115). So an export holds the newest `min(matching, 200)` rows, not every row in the range: see `HistoryStore.ExportRows` and `HistoryStore.Database.ExportHistoryCsv`.

Jitter is the sum of the absolute steps between consecutive samples divided by the number of steps. For samples 23.4, 25.1 and 24.0 ms it is (1.7 + 1.1) / 2 = 1.4: see `Ping.JitterExample`.

## Model

| member | source | states |
|---|---|---|
| HistoryStore.SqliteUrlRoundTrip | src-tauri/src/db/mod.rs:20-25 | The connection URL has the `sqlite://` scheme. It names the database path with every backslash turned into a slash and nothing else changed, whether or not a third slash was added for a drive letter. |
| HistoryStore.TextLeTotal | src-tauri/src/db/mod.rs:147 | The text order SQLite uses for `started_at` is total, so any two timestamps are comparable. |
| HistoryStore.TextLeTransitive | src-tauri/src/db/mod.rs:147 | The text order is transitive. |
| HistoryStore.TextLeAntisymmetric | src-tauri/src/db/mod.rs:147 | The text order is antisymmetric. |
| HistoryStore.TextLtIffNotLe | src-tauri/src/db/mod.rs:221 | `started_at < cutoff` holds exactly when `cutoff <= started_at` does not. |
| HistoryStore.Filter | src-tauri/src/db/mod.rs:121-134 | A WHERE clause keeps exactly the rows that satisfy it, and never more rows than the table holds. |
| HistoryStore.FilterAppend | src-tauri/src/db/mod.rs:121-134 | Filtering distributes over concatenation of row sequences. |
| HistoryStore.FilterKeepsAll | src-tauri/src/db/mod.rs:121-134 | A condition every row satisfies keeps the table unchanged. |
| HistoryStore.FilterIdempotent | src-tauri/src/db/mod.rs:221 | Applying the same condition twice equals applying it once. |
| HistoryStore.FilterUnique | src-tauri/src/db/mod.rs:44-45 | Deleting rows keeps task ids unique (the primary key). |
| HistoryStore.TableAppend | src-tauri/src/db/mod.rs:85-111 | Appending a row maps its task id to it and leaves every other id's row as it was. |
| HistoryStore.TableWithout | src-tauri/src/db/mod.rs:87 | Removing the rows with an id removes exactly that key from the table's map view. |
| HistoryStore.UpsertExactlyOne | src-tauri/src/db/mod.rs:85-111 | After `INSERT OR REPLACE`, ids stay unique, the new row is last in rowid order, and no other row has its id. |
| HistoryStore.UpsertTable | src-tauri/src/db/mod.rs:85-111 | As a map, the table after the upsert is the old map with the id bound to the new row. |
| HistoryStore.UpsertKeepsOthers | src-tauri/src/db/mod.rs:85-111 | A row with a different id is in the table after the upsert exactly when it was before. |
| HistoryStore.UpsertIdempotent | src-tauri/src/db/mod.rs:85-111 | Inserting the same result twice gives the same table as inserting it once. |
| HistoryStore.Upsert | src-tauri/src/db/mod.rs:85-111 | The new row is last. A row is in the table afterwards exactly when it is the new row or was there before with another id. |
| HistoryStore.NormalizedPage | src-tauri/src/db/mod.rs:114 | The page is at least 1: a page below 1 becomes 1, and any other page is kept. |
| HistoryStore.NormalizedPageSize | src-tauri/src/db/mod.rs:115 | The page size is clamped to [1, 200], and a size already in range is kept. |
| HistoryStore.PageOffset | src-tauri/src/db/mod.rs:116 | Page 1 or below starts at offset 0, and a later page starts at least one page size in. |
| HistoryStore.PageOffsetNext | src-tauri/src/db/mod.rs:114-116 | Each following page starts exactly one normalised page size further on. |
| HistoryStore.Matching | src-tauri/src/db/mod.rs:121-134 | The matching rows are exactly the stored rows whose `started_at` lies within the given bounds, each bound inclusive and optional. |
| HistoryStore.EmptyRangeMatchesNothing | src-tauri/src/db/mod.rs:121-134 | With `to` before `from`, no row matches. |
| HistoryStore.InsertDesc | src-tauri/src/db/mod.rs:147 | Inserting into the ordered result adds exactly that row: the multiset grows by one element. |
| HistoryStore.InsertDescSorted | src-tauri/src/db/mod.rs:147 | Inserting into a newest-first sequence keeps it newest first. |
| HistoryStore.SortDesc | src-tauri/src/db/mod.rs:147 | `ORDER BY started_at DESC` returns a permutation of the matching rows. |
| HistoryStore.SortDescSorted | src-tauri/src/db/mod.rs:147 | The ordered rows are newest first. |
| HistoryStore.WindowSpec | src-tauri/src/db/mod.rs:148 | `LIMIT size OFFSET offset` returns `max(0, min(size, n - offset))` rows, keeps the order, and only returns rows of its input. |
| HistoryStore.PageRowsSpec | src-tauri/src/db/mod.rs:113-158 | A page holds `max(0, min(size, matching - offset))` rows, newest first. Each one is a stored row whose `started_at` lies within the inclusive from/to bounds. |
| HistoryStore.PageRows | src-tauri/src/db/mod.rs:144-158 | A page holds at most the normalised page size and at most the matching rows. |
| HistoryStore.WindowsAdjacent | src-tauri/src/db/mod.rs:148 | Two adjacent windows of the same size together form the double-size window. |
| HistoryStore.ConsecutivePages | src-tauri/src/db/mod.rs:114-116 | Pages `p` and `p+1` are adjacent slices of the ordered rows: no row is skipped or repeated. |
| HistoryStore.Decode | src-tauri/src/db/mod.rs:160-178 | A read-back row keeps every column but `started_at`. A `started_at` that parses becomes the UTC RFC 3339 text of its instant; one that does not parse is replaced by the current time. |
| HistoryStore.DecodeCanonical | src-tauri/src/db/mod.rs:163-165 | A row stored with the canonical UTC text of its instant reads back unchanged. |
| HistoryStore.DecodeAll | src-tauri/src/db/mod.rs:160-178 | Reading back the rows decodes each one in order, one item per row. |
| HistoryStore.CsvFields | src-tauri/src/db/mod.rs:198-209 | A CSV line has one field per header column. |
| HistoryStore.CsvFieldsWithout | src-tauri/src/db/mod.rs:198-209 | A character that is neither a digit nor `-`, and is absent from the text fields and from the number formatting, appears in no field. |
| HistoryStore.RenderCsv | src-tauri/src/db/mod.rs:196-210 | The CSV built by the loop is the header followed by one line per item, in item order. |
| HistoryStore.ExportRows | src-tauri/src/db/mod.rs:188-194 | Export reads `min(matching, 200)` rows, because the query clamps the page size of 10 000. They are the newest matching rows, newest first. |
| HistoryStore.ColumnsPlain | src-tauri/src/db/mod.rs:196 | No header column name holds a comma or a newline. |
| HistoryStore.HeaderOneLine | src-tauri/src/db/mod.rs:196 | The header is exactly one line. |
| HistoryStore.CsvHeaderColumns | src-tauri/src/db/mod.rs:196 | Splitting the header line at commas gives back the nine column names in order. |
| HistoryStore.CsvLinesCount | src-tauri/src/db/mod.rs:197-210 | If no field holds a newline, the item lines hold exactly one newline per item. |
| HistoryStore.CsvLineCount | src-tauri/src/db/mod.rs:196-210 | Under the same condition, the exported text holds one line for the header plus one per item. |
| HistoryStore.CsvLineFields | src-tauri/src/db/mod.rs:198-209 | If no field holds a comma, splitting a line at commas gives back its fields. An optional column is empty exactly when the value is absent. |
| HistoryStore.CutoffInstant | src-tauri/src/db/mod.rs:219-221 | The cutoff lies at least one day before now: `keep_days` days before now, or one day for `keep_days` below 1. |
| HistoryStore.Pruned | src-tauri/src/db/mod.rs:221-226 | The rows kept are exactly the stored rows whose `started_at` is not before the cutoff. |
| HistoryStore.PruneSpec | src-tauri/src/db/mod.rs:219-226 | Pruning keeps exactly the rows with `started_at` not before the cutoff. Ids stay unique, and pruning again with the same cutoff deletes nothing. |
| HistoryStore.Database.constructor | src-tauri/src/db/mod.rs:15-57 | The store has the URL built from the path. Tables are created only if missing, so the rows and the settings row already in the file are kept (none for a new file). |
| HistoryStore.Database.LoadSettings | src-tauri/src/db/mod.rs:62-74 | Returns the stored settings row, or `None` if there is none. |
| HistoryStore.Database.SaveSettings | src-tauri/src/db/mod.rs:76-83 | The settings row becomes the given settings, inserted or overwritten, and the table is untouched. |
| HistoryStore.Database.InsertSpeedTest | src-tauri/src/db/mod.rs:85-111 | The table becomes the upsert of the result. Ids stay unique, the map view binds the id to the result, and the settings are untouched. |
| HistoryStore.Database.QueryHistory | src-tauri/src/db/mod.rs:113-181 | `total` counts all matching rows. `items` is the decoded page of those rows, newest first, of at most the normalised page size and never more than `total`. |
| HistoryStore.Database.ExportHistoryCsv | src-tauri/src/db/mod.rs:183-217 | The CSV is the header plus one line per exported item. The reported row count is `min(matching, 200)`, and the reported path is the export path. |
| HistoryStore.Database.PruneOldHistory | src-tauri/src/db/mod.rs:219-226 | Deletes exactly the rows older than `now - max(keep_days, 1)` days, keeps ids unique, and leaves the settings untouched. |
| Ping.ProbeCount | src-tauri/src/core/network_test/ping.rs:8 | The count is clamped to [1, 20]: 0 becomes 1, above 20 becomes 20, and anything else is kept. |
| Ping.PingArgs | src-tauri/src/core/network_test/ping.rs:10-31 | The command is `ping`, then `-n` or `-c`, then the clamped count in decimal, then the target. |
| Ping.DecimalNumber | src-tauri/src/core/network_test/ping.rs:70 | A parsed number is non-negative, and a number without a fraction is the integer the digits spell. |
| Ping.DecimalNumberScaled | src-tauri/src/core/network_test/ping.rs:70 | `digits.fraction` reads as the integer all its digits spell, divided by ten to the number of fraction digits. Its integer part is the value of the whole digits. |
| Ping.DecimalAppend | src-tauri/src/core/network_test/ping.rs:70 | Appending digits shifts the value of the first digits left by one decimal place per appended digit. |
| Ping.SampleAt | src-tauri/src/core/network_test/ping.rs:67 | A sample match starts with `time`, ends within the output, and captures a non-negative number. |
| Ping.SampleAtIff | src-tauri/src/core/network_test/ping.rs:67 | The scanner reports a match at `i` ending at `e` with value `v` exactly when `time`, `=` or `<`, digits, an optional `.` and fraction digits, white space and `ms` follow each other from `i` to `e`, and `v` is the number the digits spell. |
| Ping.ParsePingSamples | src-tauri/src/core/network_test/ping.rs:66-75 | The loop over the matches collects exactly the samples the scan finds, in output order. |
| Ping.SamplesEmptyIff | src-tauri/src/core/network_test/ping.rs:66-75 | There are no samples exactly when the pattern matches nowhere. |
| Ping.SamplesNonNegative | src-tauri/src/core/network_test/ping.rs:66-75 | Every sample is non-negative. |
| Ping.SamplesSkip | src-tauri/src/core/network_test/ping.rs:69 | Positions where no match starts contribute nothing: the samples from `i` are those from `j` when no match starts in [i, j). |
| Ping.NextSample | src-tauri/src/core/network_test/ping.rs:69-73 | When the first match after `i` starts at `k`, ends at `e` and captures `v`, the samples from `i` are `v` followed by the samples from `e`. |
| Ping.SamplesFrom | src-tauri/src/core/network_test/ping.rs:69 | The search from `i` yields at most one sample per remaining character. |
| Ping.SamplesInOutputOrder | src-tauri/src/core/network_test/ping.rs:67-73 | `time=2ms time<1.5 ms` gives the samples [2, 1.5]: both `=` and `<` count, white space before `ms` is allowed, and order is kept. |
| Ping.LossAt | src-tauri/src/core/network_test/ping.rs:78 | A loss match starts at a digit. |
| Ping.LossAtIff | src-tauri/src/core/network_test/ping.rs:78 | The scanner reports the loss `v` at `i` exactly when digits run from `i` to a `%`, followed by white space and `loss` or `packet loss`, and those digits spell `v`. |
| Ping.LeftmostLoss | src-tauri/src/core/network_test/ping.rs:77-81 | When the first loss match starts at `k` and captures `v`, the packet loss is `v`. |
| Ping.LossFrom | src-tauri/src/core/network_test/ping.rs:78-79 | The match found is the leftmost one, and `None` means no position matches. |
| Ping.PacketLoss | src-tauri/src/core/network_test/ping.rs:77-81 | The loss is `None` exactly when no `N% loss` or `N% packet loss` appears. Otherwise it is non-negative. |
| Ping.LossCapturesDigitsBeforePercent | src-tauri/src/core/network_test/ping.rs:78 | `3.25% loss` gives 25: the capture is the run of digits directly before `%`. |
| Ping.Minimum | src-tauri/src/core/network_test/ping.rs:37 | Present exactly when there are samples, and then the least of them. |
| Ping.Maximum | src-tauri/src/core/network_test/ping.rs:38 | Present exactly when there are samples, and then the greatest of them. |
| Ping.Mean | src-tauri/src/core/network_test/ping.rs:39-43 | Present exactly when there are samples. |
| Ping.SumBounds | src-tauri/src/core/network_test/ping.rs:42 | The sum of n samples within [lo, hi] lies within [n·lo, n·hi]. |
| Ping.MeanWithin | src-tauri/src/core/network_test/ping.rs:39-43 | The mean of samples within [lo, hi] lies within [lo, hi]. |
| Ping.MeanBetweenExtremes | src-tauri/src/core/network_test/ping.rs:37-43 | The mean lies between the minimum and the maximum. |
| Ping.DiffSum | src-tauri/src/core/network_test/ping.rs:48-51 | The summed absolute steps are non-negative. |
| Ping.JitterOf | src-tauri/src/core/network_test/ping.rs:45-53 | Jitter is absent exactly for at most one sample. Otherwise it is non-negative. |
| Ping.Jitter | src-tauri/src/core/network_test/ping.rs:45-53 | The `windows(2)` loop computes the mean absolute step. |
| Ping.DiffSumBound | src-tauri/src/core/network_test/ping.rs:48-51 | With samples within [lo, hi], the summed steps are at most (n−1)·(hi−lo). |
| Ping.JitterWithin | src-tauri/src/core/network_test/ping.rs:45-53 | With samples within [lo, hi], the jitter is at most hi−lo. |
| Ping.JitterWithinSpread | src-tauri/src/core/network_test/ping.rs:45-53 | Jitter never exceeds the maximum minus the minimum. |
| Ping.SteadySamplesNoJitter | src-tauri/src/core/network_test/ping.rs:45-53 | Samples that never change have a jitter of 0. |
| Ping.JitterExample | src-tauri/src/core/network_test/ping.rs:45-53 | Samples 23.4, 25.1 and 24.0 have a jitter of 1.4. |
| Ping.RunPing | src-tauri/src/core/network_test/ping.rs:7-64 | Fails with "failed to run ping" exactly when the process cannot be run. Otherwise it returns the target, the extrema, the mean, the jitter, the loss and the samples of that output. Zero samples is still a success. |
| Collectors.SaturatingTotalIsCappedSum | src-tauri/src/core/collectors/system_collector.rs:118-126 | The saturating sum of the interface counters equals the true sum capped at u64::MAX. |
| Collectors.NetworkTotals | src-tauri/src/core/collectors/system_collector.rs:118-126 | The loop returns the saturating totals of bytes received and transmitted. |
| Collectors.Elapsed | src-tauri/src/core/collectors/system_collector.rs:76 | The elapsed time is at least 1 ms, and a longer interval is kept as it is. |
| Collectors.Rate | src-tauri/src/core/collectors/system_collector.rs:77-78 | A rate is non-negative. Times the elapsed time it gives the counter growth, and it is 0 when the counter did not grow (for example after a reset). |
| Collectors.AverageFrequency | src-tauri/src/core/collectors/system_collector.rs:46-51 | Absent exactly when there are no CPUs. Otherwise it is the floor of the sum divided by the number of CPUs. |
| Collectors.DivisionFloor | src-tauri/src/core/collectors/system_collector.rs:50 | Integer division rounds down: q·b ≤ a < (q+1)·b. |
| Collectors.UsagePct | src-tauri/src/core/collectors/system_collector.rs:55-59 | With a positive total the percentage times the total is 100 times the used part. A zero total gives 0. |
| Collectors.UsagePctBounds | src-tauri/src/core/collectors/system_collector.rs:55-59 | A usage percentage with used ≤ total lies within [0, 100]. |
| Collectors.VolumeUsed | src-tauri/src/core/collectors/system_collector.rs:64-67 | Used space of a volume, `max(total − available, 0)`, lies within [0, total]. |
| Collectors.DiskUsedWithinTotal | src-tauri/src/core/collectors/system_collector.rs:61-73 | Summed used space lies within [0, summed capacity]. |
| Collectors.MemorySpec | src-tauri/src/core/collectors/system_collector.rs:53-59 | Memory usage is 0 when the total is 0, and lies within [0, 100] when used ≤ total. |
| Collectors.SnapshotSpec | src-tauri/src/core/collectors/system_collector.rs:84-115 | Disk used ≤ total, disk usage lies within [0, 100] and is 0 for no capacity, and rates are non-negative. Frequency is absent exactly when there are no CPUs. Temperature, GPU, disk I/O, latency and power are absent. |
| Collectors.SystemCollector.constructor | src-tauri/src/core/collectors/system_collector.rs:20-38 | The volumes are the list read at construction. The previous counters are the current totals, and the previous instant is now. |
| Collectors.SystemCollector.Collect | src-tauri/src/core/collectors/system_collector.rs:40-116 | The snapshot is computed from the refreshed reading, the volumes listed at construction, and the counters and instant of the previous call. The state becomes the new totals and the current instant. |
| Collectors.CollectTwice | src-tauri/src/core/collectors/system_collector.rs:20-82 | The second call's rates are the growth since the first call's totals, divided by the time between the calls. Both calls report the same disk figures, those of the volumes listed at construction. |
| TelemetryLoop.NextTick | src-tauri/src/app.rs:25 | The counter goes up by one and stays at u64::MAX instead of wrapping. |
| TelemetryLoop.IntervalMs | src-tauri/src/app.rs:38-44 | The sleep is the period of the current mode clamped to [100, 10000] ms, and an in-range period is kept. |
| TelemetryLoop.IterationOrder | src-tauri/src/app.rs:17-47 | A pass collects, records and then publishes. A prune and any warning come after publishing and before mode and settings are read. The pass ends with the sleep of that mode, and a failed publish is only logged. |
| TelemetryLoop.PruneOnSchedule | src-tauri/src/app.rs:25-36 | A prune is requested exactly when the new counter is a multiple of 180. A `history_prune` warning carrying the error text is raised exactly when that prune fails. |
| TelemetryLoop.IterationPrunes | src-tauri/src/app.rs:25-27 | A pass requests one prune when it is due, and none otherwise. |
| TelemetryLoop.IterationEffects | src-tauri/src/app.rs:18-46 | Every pass has at least five effects and ends with the sleep of the current mode, whatever failed. |
| TelemetryLoop.RunPrunes | src-tauri/src/app.rs:17-36 | The effects of n passes hold exactly as many prune requests as due ticks among the n counter values. |
| TelemetryLoop.TickAfterIsCapped | src-tauri/src/app.rs:15-25 | After n passes the counter is `min(start + n, u64::MAX)`. |
| TelemetryLoop.PrunesEvery180th | src-tauri/src/app.rs:15-36 | From a fresh counter, the first n passes prune exactly n / 180 times. |
| TelemetryLoop.SaturatedCounterNeverPrunes | src-tauri/src/app.rs:25-26 | Once saturated, the counter stays at u64::MAX, which is not a multiple of 180, so no later pass prunes. |
| TelemetryLoop.TelemetryLoop.constructor | src-tauri/src/app.rs:15 | The counter starts at 0, and nothing has happened yet. |
| TelemetryLoop.TelemetryLoop.Iterate | src-tauri/src/app.rs:18-46 | One pass advances the counter and appends exactly that pass's effects to the trace. |
| TelemetryLoop.TelemetryLoop.Run | src-tauri/src/app.rs:17-47 | After n passes the counter has advanced n saturating steps, and the trace has grown by exactly the effects of those passes, in order, each with its own counter value. So it holds one more prune request per due tick. |
| DeviceInfo.RunWmic | src-tauri/src/core/device_info/mod.rs:78-93 | Output is present exactly on Windows when `wmic` could be spawned and exited successfully, and it is then its standard output. |
| DeviceInfo.ModelValue | src-tauri/src/core/device_info/mod.rs:51-55 | A line names a model exactly when it starts with `Model=` and the rest is not blank. The model is that rest, trimmed. |
| DeviceInfo.PickedComplete | src-tauri/src/core/device_info/mod.rs:50-57 | Every value a line offers is collected. |
| DeviceInfo.PickedSound | src-tauri/src/core/device_info/mod.rs:50-57 | Every collected value is offered by some line. |
| DeviceInfo.PickedAppend | src-tauri/src/core/device_info/mod.rs:50-57 | Collecting over concatenated lines concatenates what is collected, in line order. |
| DeviceInfo.Picked | src-tauri/src/core/device_info/mod.rs:50-57 | At most one value per line is collected. |
| DeviceInfo.DiskModelsOf | src-tauri/src/core/device_info/mod.rs:47-63 | `None` exactly when no line names a model. Otherwise it is the non-empty list of models in line order, each non-empty and found on some line. |
| DeviceInfo.DiskModels | src-tauri/src/core/device_info/mod.rs:47-63 | The loop over the `wmic diskdrive` lines returns that list, or `None` if `wmic` gave nothing. |
| DeviceInfo.WmicValue | src-tauri/src/core/device_info/mod.rs:68-72 | A line without `=` offers nothing. A value offered is non-empty. |
| DeviceInfo.WmicValueTrimmed | src-tauri/src/core/device_info/mod.rs:68-70 | The value is trimmed, and a blank text after the first `=` offers nothing. |
| DeviceInfo.WmicValueOfPair | src-tauri/src/core/device_info/mod.rs:68-72 | For `key=value` with no `=` in the key, the line offers the trimmed value. Later `=` signs stay in the value, and a blank value offers nothing. |
| DeviceInfo.FirstPicked | src-tauri/src/core/device_info/mod.rs:67-74 | The index found is the first line that offers a value, or the number of lines if none does. |
| DeviceInfo.FirstIsEarliest | src-tauri/src/core/device_info/mod.rs:67-74 | A line offering a value, with no earlier line offering one, is the line found. |
| DeviceInfo.FirstOf | src-tauri/src/core/device_info/mod.rs:67-75 | `None` exactly when no line offers a value. Otherwise it is a value some line offers. |
| DeviceInfo.FirstIn | src-tauri/src/core/device_info/mod.rs:67-75 | The loop with its early return yields the value of the first line that offers one. |
| DeviceInfo.FirstValue | src-tauri/src/core/device_info/mod.rs:65-76 | `None` exactly when no line has a non-blank value after `=`. A value found is non-empty. |
| DeviceInfo.FirstWmicValue | src-tauri/src/core/device_info/mod.rs:65-76 | `None` if `wmic` gave nothing. Otherwise it is the first non-blank value in its output. |
| DeviceInfo.CpuModel | src-tauri/src/core/device_info/mod.rs:11-16 | The first CPU's brand, untrimmed. "Unknown CPU" when there is no CPU or the brand is blank. |
| DeviceInfo.MemoryGib | src-tauri/src/core/device_info/mod.rs:18 | Memory in GiB is at least 1, and exact from 1 GiB up. |
| DeviceInfo.RamSpec | src-tauri/src/core/device_info/mod.rs:18-19 | The memory text is the rounded GiB figure followed by ` GB`. |
| DeviceInfo.DiskList | src-tauri/src/core/device_info/mod.rs:21-39 | Never empty. It is the wmic models if any, else the volume names if `wmic` gave no list, else "Unknown disk". |
| DeviceInfo.CollectHardwareInfo | src-tauri/src/core/device_info/mod.rs:7-45 | Each field is its reading or its fallback ("Unknown CPU", "N/A", "Unknown disk", "Unknown motherboard", "Unknown vendor"). Off Windows, GPU, board and vendor are always the fallbacks. |
| Text.TrimEmptyIffBlank | src-tauri/src/core/device_info/mod.rs:15 | Trimming leaves nothing exactly when the text is all white space. Otherwise the result neither starts nor ends with white space. |
| Text.TrimIdempotent | src-tauri/src/core/device_info/mod.rs:52 | Trimming twice is trimming once. |
| Text.SplitOnceFirst | src-tauri/src/core/device_info/mod.rs:68 | `split_once` splits at the first separator. |
| Text.DecimalRoundTrip | src-tauri/src/core/network_test/ping.rs:15 | The decimal text of a count reads back as that count. |

## Left out

- I/O and platform calls are parameters or left out: SQL text, the connection pool, table creation, directory creation, the file write of the export, JSON (de)serialisation of settings, process spawning (`run` and `spawn` parameters), the sysinfo refreshes (a `HostReading` value for what `collect` refreshes, and the volume list given to the constructor), the Tauri event bus, `RwLock` reads and the async runtime.
- Database failures (`?` on a query) are not modelled. Every database operation succeeds.
- Clocks are parameters. `Collect` reads one `now` for both the elapsed time and the new previous instant; the source reads `Instant::now()` a second time, microseconds later.
- `Utc::now()` in `query_history` is the `now` text parameter. `to_rfc3339`, RFC 3339 parsing and `{:.4}` / `{:.0}` number formatting are function parameters (`render`, `parse`, `fmt`, `fmt0`).
- Floating point is modelled as exact reals. NaN, rounding of `f64` arithmetic and rounding when parsing decimals into `f64` are not captured.
- `String::from_utf8_lossy` is not modelled: process output is already text.
- The infinite telemetry loop is modelled by `Run` over a finite list of pass inputs.
- Snapshot sampling and recording (`collect_snapshot`, `record_snapshot`) and `prune_history` are collaborators outside this model; their results are inputs of a pass.
- The order of rows with equal `started_at` under `ORDER BY … DESC` is unspecified in SQLite; the model keeps table order for ties.
- Collectors.SystemCollector.Collect: the per-core frequencies are part of each call's reading. Whether sysinfo's `refresh_cpu_usage` also refreshes them, or `cpu.frequency()` keeps the values read by `refresh_all` in `new`, depends on the sysinfo library, which is not part of this model; a caller models the latter by passing the same frequencies on every call.
- Collectors.AverageFrequency: the u64 `.sum()` of CPU frequencies is treated as exact, so its overflow behaviour (a panic in debug builds, wrap-around in release builds) is not modelled.
- HistoryStore.CutoffInstant: the panic of `Duration::days` for a huge `keep_days` is not modelled: integers are unbounded.
- HistoryStore.PageOffset: the i64 range of the offset `(page - 1) * page_size` is not modelled: integers are unbounded.
- HistoryStore.Decode: `parse` stands for RFC 3339 parsing, conversion to UTC and `to_rfc3339` together; the calendar arithmetic of that conversion is not modelled.
- HistoryStore.Database.constructor: the contents of an existing database file are parameters (`stored`, `saved`); reading them from disk is not modelled.
- Interfaces are summed in a fixed sequence order, whereas the source iterates a hash map. The order does not change the total: `SaturatingTotalIsCappedSum` shows it is the capped true sum.
- `Regex::new` errors are not modelled: both patterns are constants that compile.
- The remaining settings fields are kept as one opaque value, because no modelled code inspects them.
