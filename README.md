# Aegis forensic monitor — verified model of the per-tick core

Aegis replays a batch of federal award records as a live feed. It fetches the
records once, lengthens each award identifier, and annotates every record with
an outlier flag and the leading digit of its amount. The dashboard callback
`update_system` then shows one record per timer tick and cycles through the
batch. Each tick it:

- reports the record as PASSED, FLAGGED or MONITORED;
- appends the report to a feed log capped at 1000 entries;
- records new outliers, deduplicated by award identifier, in an append-only
  anomaly ledger;
- accumulates the "capital analysed";
- computes the observed leading-digit profile of the records shown in the
  current pass;
- splits the scatter plot into grey background points and highlighted ledger
  points.

This project models that core in Dafny and proves its properties.

| module | file | models |
|---|---|---|
| `Amounts` | amounts.dfy | exact decimal amounts, their printed numeral and the leading-digit class |
| `AwardIds` | award_ids.dfy | the long identifier `W91-<10 upper-case hex>-<short id>` |
| `Forensics` | forensics.dfy | the annotated batch and its placeholder |
| `Replay` | replay.dfy | the cyclic cursor and the capital analysed |
| `Ledger` | ledger.dfy | the status of a row and the deduplicated anomaly ledger |
| `Feed` | feed.dfy | log entries and the bounded log |
| `Benford` | benford.dfy | the observed digit profile |
| `Dashboard` | dashboard.dfy | one tick: `Tick`, the frame it specifies, and the method `UpdateSystem` that computes it step by step |
| `Wrappers` | wrappers.dfy | `Option`, for stores that were never written |

Modelling choices:

- An amount is `Decimal(units, scale)`, the exact value `units / 10^scale`.
- Sums of capital and digit frequencies are `real`.
- MD5 is a parameter `md5: string -> HexDigest`, where a `HexDigest` is 32
  lower-case hex characters.
- The outlier detector's output is a parameter: one flag, -1 or 1, per record.
- The clock reading is a parameter `now`.
- The replayed batch is a parameter. It stands for the global `df_master`.
- The two browser stores that may hold `None` are `Option` values.
- `UpdateSystem` is imperative like the callback. It copies and appends the
  ledger, appends to the log and drops its oldest entry. Its `ensures` ties the
  frame it builds to the function `Tick`, and the lemmas state what `Tick`
  guarantees.

Two consequences of the code that a reader might not expect:

- Observed frequencies. `value_counts(normalize=True)` at aegis_final.py:294
  divides the count of each digit by the whole prefix, zero-digit rows
  included. The profile covers rows 0..step of the current pass only and
  starts again at row 0 after every wrap. So the nine frequencies add up to
  less than 1 exactly while a zero-amount row is among the rows shown in the
  current pass (`Benford.ObservedTotal`).
- Capital at the wrap. The first tick of pass 1 adds only `amount[0]` to the
  capital of the tick before (aegis_final.py:261, `Replay.CapitalWraps`).

## Model

| member | source | states |
|---|---|---|
| Amounts.LeadingDigit | aegis_final.py:56 | the digit class of an amount is in 0..9, and it is 0 exactly when the amount is zero |
| Amounts.Render | aegis_final.py:56 | `str(abs(float(x)))` as the exact decimal; what it prints is stated by `Amounts.RenderedDigits` |
| Amounts.RemovePoint | aegis_final.py:56 | `.replace('.', '')`: the result is no longer than the input and holds no '.'; `RemovePointAppend`, `RemovePointDigits` and `DropPoint` state that it keeps every other character in order |
| Amounts.StripZeros | aegis_final.py:56 | `.lstrip('0')`: the result is a suffix of the input, does not start with '0', and every character dropped before it is a '0' |
| Amounts.LeadingDigitIsMostSignificant | aegis_final.py:56 | dropping the point and leading zeros of the printed magnitude leaves the first digit of `abs(units)`: the class is its most significant digit |
| Amounts.MostSignificantBounds | aegis_final.py:56 | the most significant digit d of n > 0 satisfies d·10^k <= n < (d+1)·10^k, where n has k+1 digits |
| Amounts.DigitsOfRoundTrip | aegis_final.py:56 | the digit string of n, read back as a numeral, is n |
| Amounts.RenderedDigits | aegis_final.py:56 | after the point and the leading zeros are removed, the printed numeral of a non-zero amount begins with the digits of its magnitude |
| Amounts.LeadingDigitIgnoresSignAndScale | aegis_final.py:56 | the class depends neither on the sign nor on the position of the decimal point |
| Amounts.LeadingDigitExamples | aegis_final.py:56 | amounts whose digits are 0, -987, 1234 or 56, with the decimal point anywhere (0, -987.0, 12.34, 0.056, ...), have the classes 0, 9, 1 and 5 |
| AwardIds.Upper | aegis_final.py:35 | upper-casing keeps the length and upper-cases every character |
| AwardIds.MakeLongId | aegis_final.py:33-36 | the long id is "W91-", then the first 10 digest characters upper-cased (upper-case hex), then "-", then the short id; its length is 15 + \|short id\| |
| AwardIds.MakeLongIdInjective | aegis_final.py:33-36 | two short ids with the same long id are equal, whatever the hash function |
| AwardIds.LongIdIsNotPlaceholder | aegis_final.py:36 | no long id equals the placeholder's "N/A" |
| Forensics.AssignIds | aegis_final.py:38 | every record keeps its name and amount, and its id becomes the long id of its short id |
| Forensics.AssignIdsKeepsIdsDistinct | aegis_final.py:38 | pairwise distinct short ids give pairwise distinct long ids |
| Forensics.RunForensics | aegis_final.py:47-56 | every row keeps its record's id, name and amount and carries the detector's flag; its digit is `LeadingDigit` of its amount, so in 0..9 and 0 exactly for a zero amount; an empty batch stays empty |
| Forensics.MasterBatch | aegis_final.py:63-71 | the replayed batch is never empty: the annotated rows, or exactly `[Placeholder]`, the single row "N/A", when there are none |
| Dashboard.MasterBatchHasData | aegis_final.py:63-71 | ticks see real data exactly when the fetch returned at least one record |
| Replay.Advance | aegis_final.py:258-259 | loops·size + step = n and step < size |
| Replay.AdvanceNext | aegis_final.py:258-259 | one tick later the cursor is on the next row of the same pass, or on row 0 of the next pass |
| Replay.Capital | aegis_final.py:261 | loops·sum(amounts) + sum(amounts[0..step]); its meaning is stated by `Replay.CapitalIsCyclicTotal` and `Replay.CapitalNext` |
| Replay.CapitalIsCyclicTotal | aegis_final.py:261 | the closed form loops·sum(batch) + sum(batch[0..step]) equals the sum of amount[i mod size] over the ticks i = 0..n |
| Replay.CapitalNext | aegis_final.py:261 | capital(n+1) = capital(n) + amount[(n+1) mod size] |
| Replay.CapitalMonotone | aegis_final.py:261 | with non-negative amounts, capital never decreases from one tick to a later one |
| Replay.CapitalCanDecrease | aegis_final.py:261 | with a negative amount the capital falls, so monotonicity needs non-negative amounts |
| Replay.CapitalBeforeWrap | aegis_final.py:261 | before the first wrap the capital is the sum of the rows shown so far |
| Replay.CapitalWraps | aegis_final.py:261 | the last tick of pass 0 has the batch total; the next tick adds only amount[0] |
| Dashboard.CapitalAnalysed | aegis_final.py:258-261 | the capital the callback computes is `Replay.Capital` of the batch amounts at tick n |
| Ledger.Ids | aegis_final.py:271 | the set `existing_ids` of the ids in the ledger; `Ledger.Observe` and `Ledger.LengthIsDistinctCount` state how it evolves |
| Ledger.StatusOf | aegis_final.py:264-274 | PASSED exactly for an inlier; FLAGGED exactly for an outlier whose id is not yet in the ledger; MONITORED exactly for an outlier whose id is already there |
| Dashboard.FeedStatus | aegis_final.py:264-274 | the status the callback assigns, and then overwrites, is `StatusOf` |
| Ledger.Observe | aegis_final.py:286-288 | the old ledger is a prefix of the new one, which is at most one entry longer; it grows exactly when the status is FLAGGED, and then the row is appended; the ids become the old ids plus the row's id if it is an outlier |
| Dashboard.RecordAnomaly | aegis_final.py:286-288 | copying the ledger and appending a new outlier yields `Observe` |
| Ledger.ObservePreservesLedger | aegis_final.py:286-288 | observing keeps the ids pairwise distinct and admits only outliers |
| Ledger.ObserveIdempotent | aegis_final.py:264-288 | observing the same row again changes nothing, and its status is then MONITORED, or PASSED for an inlier |
| Ledger.ObserveTwiceFromEmpty | aegis_final.py:264-288 | an outlier shown twice from an empty ledger is FLAGGED and recorded, then MONITORED and not recorded again |
| Ledger.LengthIsDistinctCount | aegis_final.py:290 | with distinct ids, the anomaly count (the ledger length) is the number of distinct ids |
| Feed.Truncate | aegis_final.py:276 | `s[:k]` is a prefix of s of length at most k: s itself when it is short enough, otherwise exactly its first k characters |
| Feed.StatusColor | aegis_final.py:268-274 | the colour of FLAGGED, PASSED and MONITORED; used only for display |
| Feed.NewEntry | aegis_final.py:276 | the entry keeps the time and status, its colour is the status colour, and its name is the whole recipient name when it fits in 35 characters, otherwise exactly its first 35 |
| Feed.PushLog | aegis_final.py:277-278 | the new entry is last; a log of at most 1000 entries stays within 1000; the result is the old log plus the entry with only the oldest entry dropped, and only when the cap is exceeded |
| Dashboard.AppendToLog | aegis_final.py:277-278 | appending and then popping the oldest entry past the cap yields `PushLog` |
| Feed.PushAllKeepsNewest | aegis_final.py:277-278 | from a log of at most 1000 entries, any run of pushes leaves exactly the newest 1000 entries of everything logged, in order |
| Benford.Count | aegis_final.py:294 | the count is at most the length, and it is zero exactly when the digit does not occur |
| Benford.CountIsMultiplicity | aegis_final.py:294 | the count of a digit is its multiplicity in the column |
| Benford.Share | aegis_final.py:294 | a frequency lies in [0, 1] and is 1 exactly when the digit accounts for every row |
| Benford.Observed | aegis_final.py:293-294 | the profile has exactly the keys 1..9, and every value lies in [0, 1] |
| Benford.ObservedValues | aegis_final.py:293-294 | the frequency of each digit 1..9 is its multiplicity among rows 0..step divided by step + 1 |
| Benford.CountsCoverDigits | aegis_final.py:294 | the counts of the digits 0..9 in a digit column add up to its length |
| Benford.ProfileSumIsShare | aegis_final.py:293-294 | the nine frequencies add up to the share of rows 0..step whose digit is not 0 |
| Benford.ObservedTotal | aegis_final.py:293-294 | the nine frequencies add up to at most 1, and to exactly 1 exactly when no zero-amount row is among rows 0..step |
| Dashboard.Background | aegis_final.py:302 | the grey points; stated by `Dashboard.BackgroundIsSeenRows` |
| Dashboard.SeenRows | aegis_final.py:302 | the background the callback selects is `Background` |
| Dashboard.BackgroundIsSeenRows | aegis_final.py:302 | the background is the first min(n+1, size) rows: the rows shown so far in pass 0, the whole batch afterwards |
| Dashboard.Highlighted | aegis_final.py:310-311 | the indices of the rows whose id is recorded; stated by `Dashboard.HighlightedIndices` |
| Dashboard.HighlightedIndices | aegis_final.py:310-311 | the highlighted points are exactly the batch indices whose id is in the ledger, each once, in increasing order |
| Dashboard.HasData | aegis_final.py:253-255 | the negation of the guard `batch_size == 0 or df_master.iloc[0]['Award ID'] == 'N/A'`; `Dashboard.MasterBatchHasData` states when it holds |
| Dashboard.Tick | aegis_final.py:250-311 | without real data (empty batch, or the "N/A" placeholder first) the frame is the empty "no data" frame; otherwise it has a status, and the anomaly count is the ledger length |
| Dashboard.UpdateSystem | aegis_final.py:250-311 | the frame the callback builds step by step is `Tick` of the same inputs |
| Dashboard.TickFrame | aegis_final.py:250-311 | on real data the frame shows the row under the cursor with its `StatusOf` status; the stored ledger is `Observe` of the old one: it extends it by that row, exactly when the row is FLAGGED; the capital is the running total of every tick so far; the log is `PushLog` of the old log and the new entry, ending with it and staying within 1000; the observed profile is `Observed` of the digit column up to the cursor; the background is the rows seen so far; a row is highlighted exactly when its id is in the new ledger, and the highlighted indices are batch indices, each once and in increasing order |
| Dashboard.TickPreservesLedgerInvariant | aegis_final.py:286-290 | a tick keeps the ledger made of the batch's outliers with pairwise distinct ids, and the anomaly count equals the number of distinct recorded ids |
| Dashboard.TickStoresObserved | aegis_final.py:250-290 | on real data the ledger a tick stores is the previous ledger (empty when none was stored) after observing the row under the cursor |
| Dashboard.TicksBuildLedgerAfter | aegis_final.py:250-290 | consecutive ticks, each given the ledger the previous one stored, build the ledger of the whole session |
| Dashboard.LedgerAfter | aegis_final.py:286-290 | after ticks 0..n the ledger holds exactly the ids of the outliers among the rows shown so far, each once, and only outliers, however often the replay revisits them |
| Dashboard.CountSettlesAfterFirstPass | aegis_final.py:290 | once the first pass is complete, the anomaly count is the number of distinct outlier ids in the batch |

## Left out

- Fetching the records over HTTP and building the data frame from JSON (aegis_final.py:14-45, except `make_long_id`): network I/O.
- MD5 (aegis_final.py:34): a library call. It is a parameter returning 32 lower-case hex characters.
- The Isolation Forest detector (aegis_final.py:52-53): a randomised, floating-point library model. Its flags are an input, one -1 or 1 per record.
- The expected Benford curve `log10(1 + 1/d)` (aegis_final.py:73): transcendental floating-point values that no modelled operation depends on.
- Currency formatting "$...,.2f" of the amounts and of the capital (aegis_final.py:59, 328): text presentation. The "no data" frame carries capital 0 and count 0, not the strings "$0.00" and "0".
- Amounts.Render: prints the exact decimal, not the shortest float repr that `str(float(x))` produces, and never uses exponent notation. An exponent form still begins with the first significant digit, so the leading-digit class is the same either way. The model can give a different class for an amount with more significant digits than a double holds, where float rounding can change the first digit, or whose magnitude is outside a double's range: an amount that underflows to 0.0 gets class 0 at aegis_final.py:56, and one that overflows to `inf` makes the `int(...)` there raise, an error path the model does not have.
- Floating-point rounding in the sums of amounts: the model sums exactly.
- The wall-clock time string (aegis_final.py:256, 265, 326): it is the parameter `now`, and the " UTC" clock output of the callback is not modelled.
- The Dash layout, CSS, Plotly figures, console markup, the ticker style that reuses the status colour, and the auto-scroll script (aegis_final.py:76-249, 280-283, 296-300, 304-309, 312-351): presentation. The frame keeps the data these show: the log, the capital, the count, the profile, and the two scatter partitions.
- The global `df_master` (aegis_final.py:63-71): it is an immutable batch parameter. Adding the flag and digit columns in place (aegis_final.py:53, 56) is modelled as building a new sequence of rows.
- The ledger export of full row dictionaries (aegis_final.py:288): ledger entries are the modelled rows, which carry the id, the name, the amount, the flag and the digit.
