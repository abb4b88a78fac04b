# Installment fines and order numbers of a Laravel shop, modelled in Dafny

This project models two pieces of business logic from a Laravel e-commerce
application.

**The installment fine job** (`cron:calculate-installment-fine`). A scheduled
run selects every installment item that is overdue: its plan is `repaying`,
its due date is not after now, and it is unpaid. It walks these items in
id-ordered chunks of 1000. For each one it computes a late fine with exact
decimals: (base + fee) × overdue days × the plan's daily fine rate / 100,
kept to two places and rounded away from zero (Brick\Math `RoundingMode::UP`),
and capped at base + fee. Only the item's `fine` column is written.

**Order numbers** (`App\Models\Order`). An order number is a
`YmdHis` timestamp followed by a random six-digit, zero-padded suffix. Up to
ten candidates are tried until one is unused, otherwise generation fails.
The `creating` hook fills an empty number and aborts creation on failure.
Refund numbers are UUID hex strings drawn until one is unused. The refund and
shipping status codes each map to one display label.

Modules:

- `Options` (options.dfy): the optional value used for PHP's `false`/`null` results.
- `Decimal` (decimal.dfy): fixed-point helpers; `DivUp` is division rounded away from zero.
- `InstallmentFine` (installment_fine.dfy): items, plans, the selection predicate `Overdue`, `DiffInDays`, and the per-item fine `ItemFine` with its lemmas.
- `FineJob` (fine_job.dfy): the batch pass over an `array<Item>` (the table in primary-key order), modified in place. `FetchChunk` models the chunk query and `UpdateChunk` the chunk callback. `Handle` is proved against the specification function `Recalculated`.
- `Digits` (digits.dfy): PHP integer-to-string, `str_pad(..., STR_PAD_LEFT)`, and reading digits back.
- `Orders` (orders.dfy): status codes and label maps, `YmdHis`, `FindAvailableNo`, `GetAvailableRefundNo`, and the class `Order` whose `Creating` method is the `creating` hook.

Representation choices:

- Money (`base`, `fee`, `fine`) is integer cents. The columns are taken to hold two decimal places.
- A plan's `fine_rate` is a percentage `Rate(units, scale)`, meaning units / 10^scale. The raw fine in cents is then `DivUp(total * days * units, 100 * 10^scale)`.
- Times are integer seconds. `diffInDays` is the absolute difference in whole days (seconds / 86400, rounded down).
- The clock, the random draws (`random_int`, UUIDs) and the contents of the orders table are inputs.
- The job's chunk cursor is the position just after the last row of the previous chunk. The table is an array in ascending, duplicate-free id order (`IdsAscending`), so "id greater than the last id" is the same as "positions after it" (lemma `CursorIsIdCursor`).

Where the code and the model differ:

- The code reads the clock twice: `Carbon::now()` for the filter (CalculateInstallmentFine.php:54) and again for every item (line 64). The model uses one `now` for both, which is the evident intent.
- The day count is Carbon's absolute `diffInDays` (CalculateInstallmentFine.php:64), and `DiffInDays` is absolute too. Lemma `OverdueDays` shows that on selected items it equals (now − due date) / 86400, rounded down.
- The code has no per-item error handling: an exception ends the run. The model has no failure path per item, because its inputs are always well-formed numbers.
- The query at CalculateInstallmentFine.php:43 is `Installment::query()`, but the fields it reads (`base`, `fee`, `due_date`, `paid_at`, `->installment`) are those of an installment item. The model follows that evident intent: its rows are items that point to a plan.

## Model

| member | source | states |
|---|---|---|
| FineJob.MatchingMembers | app/Console/Commands/Cron/CalculateInstallmentFine.php:46-56 | A row is selected if and only if its plan exists and is `repaying`, its due date is not after `now`, and `paid_at` is null. |
| FineJob.MatchingIncreasing | app/Console/Commands/Cron/CalculateInstallmentFine.php:58-60 | The selected positions are strictly ascending and within the table, so no row is listed twice. |
| FineJob.MatchingIdsAscending | app/Console/Commands/Cron/CalculateInstallmentFine.php:58-60 | In a table kept in id order, the selection lists its rows in strictly ascending id order (the `chunkById` order). |
| FineJob.MatchingFrame | app/Console/Commands/Cron/CalculateInstallmentFine.php:58-60 | A chunk query after a cursor depends only on the rows after the cursor, so updates to earlier rows do not change it. |
| FineJob.MatchingAfter | app/Console/Commands/Cron/CalculateInstallmentFine.php:58-60 | What remains of the selection after its first m rows is the selection starting just after the m-th row (the next chunk's cursor). |
| FineJob.ChunkCovers | app/Console/Commands/Cron/CalculateInstallmentFine.php:58-62 | Up to a chunk's last row, a row is in the chunk if and only if it is overdue. |
| FineJob.ChunkShape | app/Console/Commands/Cron/CalculateInstallmentFine.php:58-62 | A chunk lists distinct overdue rows in ascending order, all at or after the cursor. |
| FineJob.ChunkSplit | app/Console/Commands/Cron/CalculateInstallmentFine.php:58-60 | The selection is the chunk followed by the selection after the chunk; after a short chunk nothing is left. |
| FineJob.BatchesStep | app/Console/Commands/Cron/CalculateInstallmentFine.php:58-60 | The chunks processed so far plus the rest of the selection make up the whole selection, before and after each chunk. |
| FineJob.ChunkStep | app/Console/Commands/Cron/CalculateInstallmentFine.php:58-80 | Processing one chunk extends the recalculated prefix of the table to the chunk's last row, or to the whole table after a short chunk. |
| FineJob.NothingLeft | app/Console/Commands/Cron/CalculateInstallmentFine.php:58-60 | When the chunk query comes back empty, no later row would be changed by the job. |
| FineJob.FlattenAppend | app/Console/Commands/Cron/CalculateInstallmentFine.php:58-62 | Processing one more chunk appends exactly its rows to the rows processed so far. |
| FineJob.Take | app/Console/Commands/Cron/CalculateInstallmentFine.php:58-59 | A chunk query returns at most 1000 rows, and the leading ones in order. |
| FineJob.FetchChunk | app/Console/Commands/Cron/CalculateInstallmentFine.php:43-60 | One chunk query returns exactly the first at most 1000 overdue rows after the cursor, in id order. |
| FineJob.UpdateChunk | app/Console/Commands/Cron/CalculateInstallmentFine.php:60-80 | The callback overwrites only the `fine` of each row in the chunk with its computed fine. Every other row is unchanged. |
| FineJob.RunChunk | app/Console/Commands/Cron/CalculateInstallmentFine.php:58-81 | One fetch-then-callback round moves the table from "recalculated before the cursor" to "recalculated before the next cursor". |
| FineJob.Handle | app/Console/Commands/Cron/CalculateInstallmentFine.php:41-84 | After a run the table is `Recalculated` from the old table. The chunks are non-empty and hold at most 1000 rows each. Laid end to end, they are exactly the selection `Matching`, so every overdue row is processed once, in table order (ascending id order by `MatchingIdsAscending`). |
| FineJob.RefreshOnlyFine | app/Console/Commands/Cron/CalculateInstallmentFine.php:75-79 | Processing a row changes its `fine` and no other column, and does not change whether it is selected. |
| FineJob.RecalculatedRows | app/Console/Commands/Cron/CalculateInstallmentFine.php:46-79 | A run leaves non-overdue rows unchanged. It sets each overdue row's fine to `ItemFine` for its plan's rate, and changes no other column. |
| FineJob.RecalculatedCapped | app/Console/Commands/Cron/CalculateInstallmentFine.php:72-79 | After a run every processed row's fine is at most its base + fee. |
| FineJob.RecalculatedIdempotent | app/Console/Commands/Cron/CalculateInstallmentFine.php:64-79 | A second run with the same `now` and no payments leaves the table as the first run left it. |
| FineJob.CursorIsIdCursor | app/Console/Commands/Cron/CalculateInstallmentFine.php:58-60 | In a table kept in id order, the rows whose id is greater than that of row p are exactly the rows after position p, so the position cursor is `chunkById`'s id cursor. |
| FineJob.Refresh | app/Console/Commands/Cron/CalculateInstallmentFine.php:62-79 | Processing a row changes no column but `fine`, and a row that is not selected is left as it is. |
| FineJob.Recalculated | app/Console/Commands/Cron/CalculateInstallmentFine.php:41-84 | A run keeps every row of the table, and a table in id order stays in id order. |
| InstallmentFine.Overdue | app/Console/Commands/Cron/CalculateInstallmentFine.php:46-56 | A selected item has its plan, so the callback's `$item->installment->fine_rate` is defined, and its due date is not after now. |
| InstallmentFine.RawFine | app/Console/Commands/Cron/CalculateInstallmentFine.php:66-71 | With a non-negative rate, the unclamped fine has the sign of base + fee: non-negative for a non-negative total, non-positive for a non-positive one. |
| InstallmentFine.ClampFine | app/Console/Commands/Cron/CalculateInstallmentFine.php:72-74 | The `compareTo(...) === 1` test keeps the smaller of the raw fine and the total, so the result never exceeds the total. |
| InstallmentFine.ItemFine | app/Console/Commands/Cron/CalculateInstallmentFine.php:64-74 | The fine written for an item never exceeds its base + fee. |
| InstallmentFine.DiffInDays | app/Console/Commands/Cron/CalculateInstallmentFine.php:64 | The overdue day count is a natural number: the whole days in the absolute time between now and the due date. |
| InstallmentFine.OverdueDays | app/Console/Commands/Cron/CalculateInstallmentFine.php:54-64 | For a selected item (due date not after now), the day count is (now − due date) / 86400, rounded down. |
| InstallmentFine.RawFineBounds | app/Console/Commands/Cron/CalculateInstallmentFine.php:66-71 | For non-negative amounts and rate, the raw fine is at least the exact value (base+fee)·days·rate/100 and less than one cent above it. |
| InstallmentFine.RawFineAwayFromZero | app/Console/Commands/Cron/CalculateInstallmentFine.php:68-71 | Rounding is away from zero: negating the amount negates the raw fine. |
| InstallmentFine.RawFineExact | app/Console/Commands/Cron/CalculateInstallmentFine.php:68-71 | When the exact fine is a whole number of cents, it is not rounded. |
| InstallmentFine.FineCapped | app/Console/Commands/Cron/CalculateInstallmentFine.php:72-74 | The written fine is min(raw, base + fee). It never exceeds base + fee, equals it when raw is strictly greater, and equals raw otherwise. |
| InstallmentFine.FineZero | app/Console/Commands/Cron/CalculateInstallmentFine.php:64-74 | With zero overdue days or a zero rate the fine is min(0, base + fee), which is 0 for a non-negative total. |
| InstallmentFine.FineWithinTotal | app/Console/Commands/Cron/CalculateInstallmentFine.php:66-74 | For non-negative amounts and rate, 0 ≤ fine ≤ base + fee. |
| InstallmentFine.FineMonotoneInDays | app/Console/Commands/Cron/CalculateInstallmentFine.php:64-74 | For non-negative amounts and rate, a fine never decreases as more overdue days pass. |
| InstallmentFine.ExampleNoClamp | app/Console/Commands/Cron/CalculateInstallmentFine.php:66-74 | 100.00 + 5.00 over 3 days at 1% gives 3.15, below the cap. |
| InstallmentFine.ExampleClamp | app/Console/Commands/Cron/CalculateInstallmentFine.php:66-74 | 10.00 over 1000 days at 50% gives a raw 5000.00, which is capped to 10.00. |
| InstallmentFine.ExampleRoundUp | app/Console/Commands/Cron/CalculateInstallmentFine.php:68-71 | An exact fine of 2.001 is rounded up to 2.01. |
| Decimal.DivUp | app/Console/Commands/Cron/CalculateInstallmentFine.php:71 | `dividedBy(..., UP)` at the integer level: for n ≥ 0 the result q has n/d ≤ q < n/d + 1; for n ≤ 0, n/d − 1 < q ≤ n/d. |
| Decimal.CeilDiv | app/Console/Commands/Cron/CalculateInstallmentFine.php:71 | For non-negative n, the ceiling q of n/d satisfies n ≤ q·d < n + d. |
| Decimal.DivUpOdd | app/Console/Commands/Cron/CalculateInstallmentFine.php:71 | Rounding away from zero is symmetric under negation. |
| Decimal.DivUpExact | app/Console/Commands/Cron/CalculateInstallmentFine.php:71 | An exact quotient is returned unrounded. |
| Decimal.DivUpMonotone | app/Console/Commands/Cron/CalculateInstallmentFine.php:71 | Rounding away from zero is monotone in the dividend. |
| Digits.NatToString | app/Models/Order.php:143 | PHP's integer-to-string conversion yields a non-empty string of decimal digits. |
| Digits.StrPadLeft | app/Models/Order.php:143 | Left padding keeps the original string as a suffix, pads only with the pad character, and returns a longer string unchanged. |
| Digits.ParseDigits | app/Models/Order.php:143 | A digit string reads as zero exactly when every digit is `0`. |
| Digits.PadDigits | app/Models/Order.php:143 | The padded text is digits only and at least `width` characters long. |
| Digits.ParseNatToString | app/Models/Order.php:143 | Reading back the decimal text of n gives n. |
| Digits.NatToStringLength | app/Models/Order.php:142-143 | A draw below 10^k has at most k digits, so it fits the six-digit field. |
| Digits.ParseLeadingZeros | app/Models/Order.php:143 | Zero padding does not change the value of a digit string. |
| Digits.PadDigitsRoundTrip | app/Models/Order.php:143 | A number below 10^width, zero-padded to width, is exactly width digits long and reads back as the number. |
| Digits.PadDigitsInjective | app/Models/Order.php:143 | Different draws give different six-digit suffixes. |
| Orders.YmdHisDigits | app/Models/Order.php:140 | The `YmdHis` prefix is 14 decimal digits. |
| Orders.YmdHisFields | app/Models/Order.php:140 | Year, month, day, hour, minute and second each read back from a fixed place in the prefix. |
| Orders.SixFields | app/Models/Order.php:140 | Six digit fields of widths 4, 2, 2, 2, 2, 2 form a 14-digit string in which each field sits at its fixed offset. |
| Orders.YmdHis | app/Models/Order.php:140 | The prefix is at least 14 characters long, whatever the clock says. |
| Orders.Candidate | app/Models/Order.php:143 | A candidate starts with the prefix and has at least six more characters. |
| Orders.FirstFresh | app/Models/Order.php:141-150 | A number the search returns is one of the candidates and is not already taken. |
| Orders.CandidateFormat | app/Models/Order.php:143 | A candidate is the prefix followed by exactly six digits that read back as the draw. |
| Orders.Candidates | app/Models/Order.php:141-143 | The i-th attempt builds the candidate from the i-th draw. |
| Orders.FirstFreshSpec | app/Models/Order.php:141-150 | The search returns the earliest candidate not already taken, and returns nothing exactly when every candidate is taken. |
| Orders.FindAvailableNo | app/Models/Order.php:137-151 | It makes at most 10 attempts. A returned number is unused, 20 digits long, the timestamp followed by one draw's padded digits, and the first unused candidate. It fails exactly when all 10 candidates exist. |
| Orders.GetAvailableRefundNo | app/Models/Order.php:158-166 | It returns the first drawn UUID hex string not already used as a refund number. Such a result is unused and is 32 lower-case hex digits. |
| Orders.Falsy | app/Models/Order.php:91 | PHP's `!$model->no` holds exactly for a string of at most one character that is `0` if present, that is `""` or `"0"`. |
| Orders.RefundStatusCode | app/Models/Order.php:16-20 | Every refund status constant is a key of `$refundStatusMap`. |
| Orders.ShipStatusCode | app/Models/Order.php:22-24 | Every shipping status constant is a key of `$shipStatusMap`. |
| Orders.Order.Creating | app/Models/Order.php:89-99 | An order that has a number keeps it. Otherwise it gets the first free candidate, or creation is aborted and the number left empty when there is none. |
| Orders.RefundStatusLabel | app/Models/Order.php:31-37 | Every refund status code has a non-empty entry in `$refundStatusMap`. |
| Orders.ShipStatusLabel | app/Models/Order.php:44-48 | Every shipping status code has a non-empty entry in `$shipStatusMap`. |
| Orders.RefundStatusMapExact | app/Models/Order.php:16-37 | The five refund status codes are distinct and are exactly the keys of the label map, which therefore has five entries. |
| Orders.ShipStatusMapExact | app/Models/Order.php:22-48 | The three shipping status codes are distinct and are exactly the keys of the label map, which therefore has three entries. |

## Left out

- Database I/O, transactions, the chunk cursor's SQL, eager loading (`with`), `whereHas` as SQL, and console command registration. Only their logical effect is modelled, as predicates and updates over in-memory rows.
- Calendar and time-zone effects on `diffInDays` (daylight-saving days, local midnight). A day is 86400 seconds.
- The two separate `Carbon::now()` reads. One `now` serves both the filter and the day count.
- The as-written selection `Installment::query()` with `whereHas('installment')` (CalculateInstallmentFine.php:43-52) over plans. The model selects installment items by their plan, as the fields the callback reads imply.
- Per-item failures (malformed decimals, a failing update) and the logging of `findAvailableNo` (`\Log::warning`). They are not modelled because the model's inputs are always well-formed.
- Overlapping runs of the job. This is a concurrency concern; the model is one sequential pass.
- The `big_number` helper and Brick\Math internals. Decimals are integers at a fixed scale, and the money columns are assumed to have two places.
- `random_int`, UUID version 4 generation and `date('YmdHis')`. Their results are inputs: a list of draws, a list of UUID hex strings, and a `DateTime`.
- Orders.GetAvailableRefundNo: the source loops until it draws an unused UUID. The model stops when the supplied draws run out and returns None.
- The plan statuses other than `repaying` come from the installment model, which is not part of this model. `Pending` and `Finished` stand for them.
- The order's relations (`user`, `items`, `couponCode`), `$fillable`, `$casts` and `$dates`. They are framework configuration with no logic.
- The CSRF exclusion list in app/Http/Middleware/VerifyCsrfToken.php. The matching logic lives in the framework's parent class.
