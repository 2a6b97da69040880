# BlipMonitor analytics core, modelled in Dafny

BlipMonitor is a backend that reports activity metrics for Soroban smart
contracts. Users save the contracts they care about, give them nicknames and
pick a default one. The backend compares each metric for a chosen time range
with the window of the same length just before it, and an hourly job e-mails
each user the alerts raised for the contracts they saved.

The model covers these parts of the backend:

- **Comparison** (`comparison.dfy`). `roundTo` is JavaScript's
  `Math.round` applied to the scaled value. `calculateChanges` produces the
  triple (previous value, absolute change, percentage change) attached to
  every comparable figure.
- **TimeRanges** (`time_ranges.dfy`). The thirteen time-range selectors. Each
  maps to the interval of its current window and of its previous window, and
  to a bucket: rows are grouped by the hour or by the calendar day.
- **ContractIds** (`contract_ids.dfy`). The contract-ID validator. It trims
  the input and upper-cases it, then accepts only `C` followed by 55
  characters from A-Z and 0-9. Anything else is BAD_REQUEST.
- **RequestParsers** (`request_parsers.dfy`). `parseLimit`, including the
  prefix reading of JavaScript's `parseInt`.
- **Metrics** (`metrics.dfy`). The row shaping of every metric: volume,
  success rate, unique users, fees, top events and top users. The warehouse
  rows are the input.
- **SavedContractTable** (`saved_contract_table.dfy`). The user-saved-contract
  table as a value. It holds the invariant the service keeps: one row per
  (user, contract) key, creation times in table order, valid IDs, and exactly
  one default row for every user who has rows. It also gives the new table
  each operation produces, and the listing and pagination.
- **SavedContracts** (`saved_contracts.dfy`). The saved-contract service as a
  class. Its methods change the rows in place, one database statement at a
  time. Each method is proved to produce the table described in
  SavedContractTable and to keep the invariant.
- **AlertDigest** (`alert_digest.dfy`). The hourly alert job:
  - the window it asks about;
  - the nested loop that groups alerts by the users who saved the alerting
    contract;
  - the dispatch loop that sends each user one digest.

  Both loops are methods proved against specification functions.

Numbers are exact: `real` stands for JavaScript numbers and `nat` for counts.
An undefined result of a division by zero is `None`, which the service
serialises as null. Each service error is a `Status` in a `Result`.

The alert job does not pass its alerts through the comparison primitives.
It only groups and addresses them. The model follows the code in this.

## Model

| member | source | states |
|---|---|---|
| Comparison.RoundTo | src/services/metrics.service.ts:109-111 | the result has `d` decimal places and lies in the half-open unit window (v·10^d − 1/2, v·10^d + 1/2] |
| Comparison.RoundToUnique | src/services/metrics.service.ts:109-111 | those two properties determine the rounded value: any grid point in the window is it |
| Comparison.RoundToIdempotent | src/services/metrics.service.ts:109-111 | rounding a rounded value changes nothing |
| Comparison.RoundToMonotone | src/services/metrics.service.ts:109-111 | rounding is monotone |
| Comparison.RoundToHalves | src/services/metrics.service.ts:109-111 | halves round toward +infinity, negative values included (−2.5 → −2, 2.5 → 3) |
| Comparison.RoundedSign | src/services/metrics.service.ts:109-111 | rounding keeps zero and never flips the sign |
| Comparison.CalculateChanges | src/services/metrics.service.ts:96-101 | previous value and absolute change are reported as given; the percentage change is null exactly when the previous value is 0; otherwise it is the relative change in percent rounded to two places, with its sign kept |
| Comparison.SuccessRateExample | src/services/metrics.service.ts:96-101 | 95 against 80 is a change of 15 and of 18.75% |
| TimeRanges.CurrentInterval | src/utils/bigqueryHelpers.ts:8-33 | a mapped selector reaches back exactly its nominal length, in hours up to a day and in days above; HOUR_6, DAY_3 and ALL_TIME fall back to 7 days |
| TimeRanges.PreviousInterval | src/utils/bigqueryHelpers.ts:40-65 | twice the current interval in the same unit; the fallback is 14 days |
| TimeRanges.Windows | src/utils/bigqueryHelpers.ts:8-65 | the previous window has the current window's length and ends where the current one starts |
| TimeRanges.GroupBy | src/utils/bigqueryHelpers.ts:72-83 | hourly buckets exactly for the selectors naming at most a day (HOUR_6 included); for mapped selectors, exactly when the interval is counted in hours |
| TimeRanges.FallbackIsWeek | src/utils/bigqueryHelpers.ts:8-65 | an unmapped selector gets the WEEK_1 intervals |
| ContractIds.Trim | src/utils/contractValidation.ts:16 | the result neither starts nor ends with whitespace |
| ContractIds.TrimSlice | src/utils/contractValidation.ts:16 | the trimmed string is the input minus its surrounding whitespace: a contiguous slice of the input that starts after the leading whitespace, with only whitespace before and after it |
| ContractIds.ToUpper | src/utils/contractValidation.ts:16 | same length, each letter a-z upper-cased, every other character kept |
| ContractIds.ValidateAndSanitize | src/utils/contractValidation.ts:6-21 | accepted exactly when the trimmed, upper-cased input matches `^C[A-Z0-9]{55}$`, and then returns that form; otherwise BAD_REQUEST |
| ContractIds.NormalizeFixesContractId | src/utils/contractValidation.ts:6-21 | a well-formed ID is its own normal form |
| ContractIds.ValidateIdempotent | src/utils/contractValidation.ts:15-21 | validating an accepted ID again returns it unchanged |
| ContractIds.ValidateDependsOnNormalForm | src/utils/contractValidation.ts:15-21 | inputs with the same normal form get the same verdict |
| ContractIds.AcceptsPaddedLowerCase | src/utils/contractValidation.ts:15-21 | a lower-case ID wrapped in whitespace is accepted as the upper-case ID |
| RequestParsers.ClampLimit | src/utils/requestParsers.ts:19-22 | NaN or a value ≤ 0 gives the default; any other value is capped at the maximum and never raised |
| RequestParsers.ParseLimit | src/utils/requestParsers.ts:8-23 | a string goes through `parseInt`, a number is taken as it is, anything else counts as NaN; the result is the default or at most the maximum |
| RequestParsers.ParseLimitPositive | src/utils/requestParsers.ts:8-23 | with a positive default and maximum the limit is positive |
| RequestParsers.NonNumericTextGivesDefault | src/utils/requestParsers.ts:11-21 | text whose first non-blank character does not start a number gives the default |
| RequestParsers.ParseIntReadsNumeral | src/utils/requestParsers.ts:11-12 | `parseInt` reads back a decimal numeral whatever non-digit text follows it |
| RequestParsers.ParseLimitOfNumeral | src/utils/requestParsers.ts:8-23 | the numeral of n, with 0 < n ≤ maximum, gives n |
| Metrics.ReduceIsSum | src/services/metrics.service.ts:139-142 | the service's left fold equals the sum of the bucket counts |
| Metrics.GetTxVolume | src/services/metrics.service.ts:119-157 | one interval per row in row order; the total is the sum of the bucket counts, compared with the first row's previous total; no rows is an internal error |
| Metrics.Rate | src/services/metrics.service.ts:194-203 | null exactly when the total is 0; otherwise the percentage rounded to two places, between 0 and 100 for a part of the total |
| Metrics.RatesComplement | src/services/metrics.service.ts:194-195 | when a bucket's successful and failed counts add up to its transaction count (one operation per transaction), the two rates add up to 100 or 100.01 |
| Metrics.RatesOverlapExample | src/services/metrics.service.ts:194-195 | 1 in 800 gives 0.13% and 99.88%, which add up to 100.01 |
| Metrics.CompareRates | src/services/metrics.service.ts:205-212 | two rates are compared only when both are defined |
| Metrics.GetTxSuccessRate | src/services/metrics.service.ts:165-233 | per-bucket rates in row order; totals from the first row; the overall rates are compared after rounding both sides; no rows is an internal error |
| Metrics.GetUniqueUsers | src/services/metrics.service.ts:241-275 | per-bucket counts in row order; the total is the first row's distinct count, not a sum; no rows is an internal error |
| Metrics.GetTxFees | src/services/metrics.service.ts:283-333 | per-bucket averages rounded to two places; the rounded overall average is compared with the rounded previous one; no rows is an internal error |
| Metrics.AvgFeeChangeOnGrid | src/services/metrics.service.ts:324-327 | the average-fee change is a whole number of hundredths |
| Metrics.LookupNickname | src/services/metrics.service.ts:370-372 | no lookup without a user; otherwise the user's nickname for the contract, failing on a malformed ID |
| Metrics.LookupAll | src/services/metrics.service.ts:357-381 | all lookups in order, or a failure exactly when one lookup fails |
| Metrics.GetTopEvents | src/services/metrics.service.ts:343-383 | one entry per row in row order, each with its nickname and its comparison; fails exactly when a lookup fails |
| Metrics.GetTopUsers | src/services/metrics.service.ts:393-433 | the same shaping for the top callers |
| Metrics.AnonymousTopEventsSucceed | src/services/metrics.service.ts:370-372 | without a user the top list cannot fail and carries no nicknames |
| Metrics.TopEventsKeepOrder | src/services/metrics.service.ts:357-381 | rows ordered by current count stay ordered |
| SavedContractTable.Find | src/services/savedContract.service.ts:133-143 | the first row with the (user, contract) key, or none when no row has it |
| SavedContractTable.Latest | src/services/savedContract.service.ts:227-230 | the user's last row in table order, none exactly when the user has no rows |
| SavedContractTable.LatestIsMostRecent | src/services/savedContract.service.ts:227-230 | in a chronological table that row is the user's most recently created one |
| SavedContractTable.Locate | src/services/savedContract.service.ts:128-152 | found exactly when the ID is valid and the row exists; BAD_REQUEST for a malformed ID, otherwise NOT_FOUND |
| SavedContractTable.LocateSanitized | src/services/savedContract.service.ts:166-167 | validating twice, as update does, finds the same row |
| SavedContractTable.NicknameOf | src/services/savedContract.service.ts:288-300 | fails exactly on a malformed ID; a nickname is that of the user's row for the contract; null only when there is no such row |
| SavedContractTable.NicknameOrDefault | src/services/savedContract.service.ts:47 | a non-empty nickname is kept; otherwise "Contract " and the first eight characters of the ID |
| SavedContractTable.NewEntry | src/services/savedContract.service.ts:41-49 | the new row has the key and creation time given, the given nickname or its default (`NicknameOrDefault`), and is the default exactly when the user had no rows |
| SavedContractTable.Created | src/services/savedContract.service.ts:17-66 | a new row exactly when the ID is valid and not yet saved by the user; BAD_REQUEST or CONFLICT otherwise |
| SavedContractTable.AfterDelete | src/services/savedContract.service.ts:200-245 | exactly that row is removed; removal alone when it was not the default; otherwise only the user's most recent remaining row may change, and it becomes the default; other users' rows are unchanged |
| SavedContractTable.AfterSetDefault | src/services/savedContract.service.ts:253-280 | the target is the user's only default; other users' rows are unchanged; keys, nicknames and times are kept |
| SavedContractTable.Renamed | src/services/savedContract.service.ts:172-185 | only the target row's nickname changes |
| SavedContractTable.ListingContents | src/services/savedContract.service.ts:96-105 | the listing holds exactly the user's rows |
| SavedContractTable.ListingSorted | src/services/savedContract.service.ts:93-104 | the listing is strictly ordered by creation time, ascending or descending (the default) |
| SavedContractTable.CeilDiv | src/services/savedContract.service.ts:117 | the least number of pages of `limit` entries that hold `total` entries |
| SavedContractTable.Paginate | src/services/savedContract.service.ts:93-118 | the entries after (page − 1)·limit in order: min(limit, remaining) of them, none past the end; the total and the page count |
| SavedContractTable.CreateKeepsWellFormed | src/services/savedContract.service.ts:32-49 | adding a fresh, valid key with a later time keeps the invariant |
| SavedContractTable.DeleteKeepsWellFormed | src/services/savedContract.service.ts:216-243 | deleting a row keeps the invariant, one default per user included |
| SavedContractTable.SetDefaultKeepsWellFormed | src/services/savedContract.service.ts:265-274 | setting a default keeps the invariant |
| SavedContractTable.RenameKeepsWellFormed | src/services/savedContract.service.ts:172-185 | renaming keeps the invariant |
| SavedContractTable.DeletePromotesMostRecent | src/services/savedContract.service.ts:225-243 | when the deleted default leaves the user rows, the most recently created one becomes the default |
| SavedContracts.SavedContractStore.FindRow | src/services/savedContract.service.ts:133-143 | the loop finds the row `Find` specifies |
| SavedContracts.SavedContractStore.HasAnyRow | src/services/savedContract.service.ts:41 | the loop answers whether the user has any row |
| SavedContracts.SavedContractStore.MostRecentRow | src/services/savedContract.service.ts:227-230 | the loop finds the user's most recent row, as `Latest` specifies |
| SavedContracts.SavedContractStore.Create | src/services/savedContract.service.ts:17-66 | on error nothing changes; otherwise the contract record exists and the row `Created` gives is appended; the invariant is kept |
| SavedContracts.SavedContractStore.Query | src/services/savedContract.service.ts:78-120 | page 1, the default limit and newest first when absent; the page of the user's listing that `Paginate` gives |
| SavedContracts.SavedContractStore.GetById | src/services/savedContract.service.ts:128-152 | the located row, or the error `Locate` gives |
| SavedContracts.SavedContractStore.Update | src/services/savedContract.service.ts:161-192 | on error nothing changes; otherwise only the nickname of the located row changes; the invariant is kept |
| SavedContracts.SavedContractStore.Delete | src/services/savedContract.service.ts:200-245 | on error nothing changes; otherwise the table becomes `AfterDelete`; the invariant is kept |
| SavedContracts.SavedContractStore.ClearUserDefaults | src/services/savedContract.service.ts:265-268 | every row of the user loses its default flag and nothing else changes |
| SavedContracts.SavedContractStore.SetDefault | src/services/savedContract.service.ts:253-280 | on error nothing changes; otherwise the table becomes `AfterSetDefault`; the invariant is kept |
| SavedContracts.SavedContractStore.GetContractNickname | src/services/savedContract.service.ts:288-300 | the result `NicknameOf` specifies |
| AlertDigest.TruncateContractId | src/schedulers/alertEmailScheduler.ts:11-16 | IDs up to 10 characters are kept; longer ones become the first six characters, "..." and the last four |
| AlertDigest.TruncatedContractId | src/schedulers/alertEmailScheduler.ts:11-16 | a valid ID is shown as 13 characters starting with 'C' |
| AlertDigest.AlertWindow | src/schedulers/alertEmailScheduler.ts:133-134 | the hour ending 30 minutes before now |
| AlertDigest.HourlyRunsTile | src/schedulers/alertEmailScheduler.ts:133-134 | runs an hour apart ask about back-to-back windows |
| AlertDigest.WatchedIds | src/schedulers/alertEmailScheduler.ts:140-142 | every saved ID is validated in order; one malformed ID fails the whole step |
| AlertDigest.FindContract | src/schedulers/alertEmailScheduler.ts:152 | the first saved contract with the alert's ID, or none |
| AlertDigest.FirstSeenMembers | src/schedulers/alertEmailScheduler.ts:149-166 | a user is a key of the dictionary exactly when some alert reached that user |
| AlertDigest.FirstSeenDistinct | src/schedulers/alertEmailScheduler.ts:149-166 | each user appears once among the keys |
| AlertDigest.AlertsForConcat | src/schedulers/alertEmailScheduler.ts:151-166 | each user's list follows the alert order |
| AlertDigest.SingleAlert | src/schedulers/alertEmailScheduler.ts:151-164 | one alert reaches each user of its saved contract once, with that user's nickname; an unmatched alert reaches nobody |
| AlertDigest.Push | src/schedulers/alertEmailScheduler.ts:155-163 | the list is created on first use, then the alert is appended to it |
| AlertDigest.Deliver | src/schedulers/alertEmailScheduler.ts:154-164 | the inner loop gives the dictionary and key order that `PushAll` and `AppendNew` specify |
| AlertDigest.GroupsOfSnoc | src/schedulers/alertEmailScheduler.ts:151-166 | one more alert grows the dictionary by what the inner loop pushes for it |
| AlertDigest.GroupByUser | src/schedulers/alertEmailScheduler.ts:149-166 | the nested loop builds the dictionary `GroupsOf` and the key order `FirstSeen` |
| AlertDigest.DisplayName | src/schedulers/alertEmailScheduler.ts:172 | the first name when it is non-empty, otherwise "User" |
| AlertDigest.EmailAddress | src/schedulers/alertEmailScheduler.ts:173 | the first address when it exists and is non-empty |
| AlertDigest.Addressed | src/schedulers/alertEmailScheduler.ts:176-180 | each alert gets the user's name and address, and nothing else changes |
| AlertDigest.SendAlertEmail | src/schedulers/alertEmailScheduler.ts:62-127 | nothing for an empty list; otherwise one e-mail to the address on the first alert, carrying all alerts |
| AlertDigest.Digest | src/schedulers/alertEmailScheduler.ts:169-188 | an e-mail exactly when the user is known and has an address; it goes to that address and carries the user's alerts |
| AlertDigest.OutboxHasDigests | src/schedulers/alertEmailScheduler.ts:169-188 | every visited user's digest is sent |
| AlertDigest.OutboxOnlyDigests | src/schedulers/alertEmailScheduler.ts:169-188 | every e-mail sent is the digest of a visited user |
| AlertDigest.Dispatch | src/schedulers/alertEmailScheduler.ts:169-188 | the loop sends exactly the e-mails `Outbox` specifies, in key order |
| AlertDigest.RunAlertEmailScheduler | src/schedulers/alertEmailScheduler.ts:132-192 | the window, then grouping and dispatch; nothing is sent when a stored ID is malformed |
| AlertDigest.ReachedUserGetsDigest | src/schedulers/alertEmailScheduler.ts:149-188 | a user reached by an alert, known and with an address, is sent an e-mail with exactly that user's alerts in alert order |

## Left out

- IEEE floating point is left out. Numbers are exact reals and no value is NaN or Infinity, except that a rate over a zero total is absent (null).
- Comparison.RoundTo: the source appends an exponent to the number's string form. That string is already in exponent form for magnitudes of 1e21 and above and for non-zero magnitudes below 1e-6 (for example "1e-7e2"). The source then yields NaN, serialised as null, where the model rounds (a percentage change below 1e-6 % becomes 0). This is not modelled.
- Metrics.CompareRates: when only the current rate is NaN, the source still reports the finite previous rate beside a NaN change. The model makes the whole comparison absent instead.
- `parseInt` is modelled on ASCII whitespace and decimal digits only; infinities are not modelled.
- The contract-ID validator trims and upper-cases ASCII only. Unicode whitespace and non-ASCII case mappings are left out.
- Each metric's warehouse query, its SQL text and a failing fetch (`logAndFetch`, `logAndFetchWithLimit`: INTERNAL_SERVER_ERROR) are left out. The rows are the input.
- An empty result makes the service read `data[0]` of an empty array. This is modelled as an internal error.
- The row `date` is taken as a string. The warehouse's `{ value }` wrapper is not modelled.
- `querySavedContracts` sorts only by `createdAt` in the model. Other `sortBy` fields are left out.
- Page and limit are taken as positive whole numbers. The caller's parsing of them is not part of this model.
- Creation times come from a clock owned by the store that grows with each row. Database timestamps, and ties between them, are left out.
- Results carry the contract ID, the default flag and the nickname. The other fields of the global contract record are left out.
- A database failure is not modelled. This covers the catch-all INTERNAL_SERVER_ERROR of `createSavedContract` and the failure of `getAllSavedContractsWithUsers`. `getAllSavedContractsWithUsers` itself is an input, a list of saved contracts with their users. Transactions are modelled as atomic.
- The defensive NOT_FOUND after the update in `setDefaultContract` is left out. It cannot happen once the row has been found in the same transaction.
- `DEFAULT_LIMIT` and `MAX_LIMIT` are parameters. The configuration file is not part of this model.
- The alert job leaves out several parts:
  - the cron schedule;
  - the clock, which is a parameter;
  - the alert service and its fetch failures;
  - the user directory, which is a map from user ID to profile;
  - a directory lookup that throws;
  - the mailer and a failed send, which is logged and skipped;
  - the HTML and text bodies of the e-mail;
  - logging;
  - the `await` ordering.
- A user ID such as `__proto__` collides with an `Object.prototype` key. This is not modelled.
- `Object.entries` visits integer-like keys first, in numeric order, and only then the others in insertion order. The model uses insertion order throughout, which matches the directory's `user_…` IDs but not integer-like ones.
- A missing nickname (`undefined` or `null`) is modelled as absent (`None`).
