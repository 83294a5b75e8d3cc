# TorCOIN virtual cards — a Dafny model

This project models the virtual-card engine of the TorCOIN wallet
(`torcoin_wallet.py`). The engine has two classes.

- `VirtualCardAI` keeps the set of card numbers already issued and a pool of
  pre-generated, unissued numbers of the form `8948` + eight random digits +
  `2241`. It fills the pool by rejection sampling: a fresh pool of 1,000,000
  each day, and expansions of 100,000. It hands out one pooled number per new
  card, expanding first when fewer than 1,000 remain and topping up when fewer
  than 50,000 remain. It also builds the initial card record: a ten-year
  expiry, the `MM/YY` text, the CVV, limits of $1,000 a day and $5,000 a
  month, and status `pending_activation` with an activation code.
- `VirtualCardManager` stores the cards by id (`vc_<token>`). It activates a
  card with its code, resends a code, validates and books purchases, posts
  credits and debits, and replaces cards. Replacement is limited to two per
  calendar month, counted from the `date` of each replacement record.

The model is split into modules that follow the code:

- `CardFormat`: number generation, the format check and the Luhn helper.
- `CardRecords`: the card record and its initial value.
- `Ledger`: the balance log, the expiry test, purchase validation and the two
  ways a balance changes.
- `Lifecycle`: activation and resend.
- `Replacements`: the monthly quota.
- `CardPool`: the class `VirtualCardAI`.
- `CardManager`: the class `VirtualCardManager`.
- `Text` and `Calendar`: the Python string and `datetime` behaviour the code
  relies on.

The two classes are Dafny classes whose methods update their fields. The pool
is a `set<string>`, the cards a `map<string, CardRecord>` and the replacement
log a `seq`. Each method's postcondition ties the new state to the
specification functions, and lemmas prove the properties of those functions.

Inputs stand in for what the code draws at run time:

- A sequence of eight-digit draws stands for the `random.randint` stream of
  the sampling loops.
- The clock reading, the `secrets.token_hex` tokens, the CVV draw and the
  activation-code draw are parameters.
- Money is a whole number of cents.

How the model differs from the code as written:

- Line 383 calls `self.generate_verification_code()` on `VirtualCardAI`. That
  method exists only on `VirtualCardManager` (line 502), so as written
  `generate_card_details` raises `AttributeError`. The model takes the
  activation code as an input, as the manager's generator would produce it.
- Line 515 reads `card_data['activation_code']` before it checks that the key
  exists. On a card that has no code, which is a card that was active and
  then replaced, this raises `KeyError`. The model reports that case as the
  outcome `MissingCode`.
- Line 206 keeps a pool file from today as it is. The model keeps only its well-formed, unissued numbers (see Findings).
- The replacement quota counts `date[:7]` of each record, not its stored
  `month` field, and the model does the same.

## Model

| member | source | states |
|---|---|---|
| CardFormat.GenerateCardNumberRaw | torcoin_wallet.py:265-272 | a candidate number has sixteen characters |
| CardFormat.GeneratedNumbersAreWellFormed | torcoin_wallet.py:265-272 | every candidate the generator builds passes `validate_card_format` |
| CardFormat.ValidateCardFormat | torcoin_wallet.py:329-345 | a number that passes the check has sixteen characters, all of them ASCII digits |
| CardFormat.WellFormedNumbersAreGenerated | torcoin_wallet.py:329-345 | every number the format check accepts, with `isdigit` read as ASCII digits, is the candidate built from its own middle eight digits |
| CardFormat.FormatAcceptsExactlyGenerated | torcoin_wallet.py:329-345 | with `isdigit` read as ASCII digits, the format check accepts a string if and only if some eight-digit draw generates it |
| CardFormat.GenerateCardNumberRawInjective | torcoin_wallet.py:265-272 | different draws give different numbers |
| CardFormat.CalculateLuhnCheckDigit | torcoin_wallet.py:351-364 | the returned digit brings the code's checksum of its input to a multiple of ten |
| CardFormat.ChecksumIsLuhnSum | torcoin_wallet.py:356-362 | the odd/even split of the digits is the Luhn sum with the rightmost input digit undoubled |
| CardFormat.CheckDigitCompletesUndoubledSum | torcoin_wallet.py:351-364 | the code's digit completes its input under the Luhn sum that leaves the input's last digit undoubled |
| CardFormat.IsoCheckDigitCompletesNumber | torcoin_wallet.py:351-364 | a payload followed by its corrected check digit passes the Luhn check |
| CardFormat.IsoCheckDigitIsShiftedCodeDigit | torcoin_wallet.py:351-364 | the corrected digit is what the code computes on the payload with a 0 appended |
| CardFormat.CodeCheckDigitIsNotIsoDigit | torcoin_wallet.py:351-364 | for payload 7992739871 the code returns 4, 79927398714 fails the Luhn check, and the correct digit is 3 |
| CardFormat.IsoLuhnCheckDigit | torcoin_wallet.py:351-364 | the corrected digit brings the Luhn sum of the payload, with its rightmost digit doubled, to a multiple of ten |
| CardPool.CandidatesAreWellFormed | torcoin_wallet.py:231-237 | every number a run of draws proposes passes the format check |
| CardPool.DrawTaken | torcoin_wallet.py:236-238 | keeping a fresh draw uses up at most one of the fresh candidates still ahead |
| CardPool.DrawRejected | torcoin_wallet.py:236 | rejecting an issued or pooled draw loses none of the fresh candidates ahead |
| CardPool.UsablePool | torcoin_wallet.py:206 | the kept part of a stored pool holds exactly its well-formed numbers that were never issued |
| CardPool.CleanPoolIsKeptWhole | torcoin_wallet.py:206 | a pool file whose numbers are well formed and unissued is kept whole, as line 206 keeps it |
| CardPool.IssueAsWritten | torcoin_wallet.py:313-316 | popping a number adds it to the issued set, which grows only when the number was not issued before |
| CardPool.KeptFromFileAsWritten | torcoin_wallet.py:206-215 | as written, a pool file from today stays in the pool whole, whatever its size, and a file from another day contributes nothing |
| CardPool.StalePoolFileReissuesNumber | torcoin_wallet.py:206-215 | a pool file from today listing an issued number stays in the pool as written, so `pop()` can hand the number out again without the issued set growing; the usable part leaves it out |
| CardPool.VirtualCardAI.constructor | torcoin_wallet.py:192-197 | for any pool file, the issued set is the loaded numbers; the pool is what the corrected `initialize_card_pool` leaves, and it is well formed and disjoint from the issued numbers |
| CardPool.VirtualCardAI.InitializeCardPool | torcoin_wallet.py:199-220 | no readable file or a file from another day gives a full regeneration; the usable part of a file from today is kept, and expanded by exactly 100,000 when it has fewer than 100,000 numbers; the pool invariant holds afterwards whatever the file held |
| CardPool.VirtualCardAI.DrawFreshNumbers | torcoin_wallet.py:228-238 | the sampling loop adds exactly `target` fresh numbers, all proposed by the draws and none issued, keeping what was pooled |
| CardPool.VirtualCardAI.RegenerateDailyPool | torcoin_wallet.py:222-246 | the new pool has exactly 1,000,000 numbers, all drawn, none issued, all well formed |
| CardPool.VirtualCardAI.ExpandCardPool | torcoin_wallet.py:248-263 | the pool keeps every number and grows by exactly 100,000 drawn numbers that were never issued |
| CardPool.VirtualCardAI.GenerateUniqueCardNumber | torcoin_wallet.py:301-327 | the number was never issued before, is well formed, is now issued and no longer pooled; the pool shrinks by one and grows by 100,000 when it held at most 50,000 |
| CardPool.VirtualCardAI.TakeFromPool | torcoin_wallet.py:313-316 | the popped number leaves the pool and joins the issued set, so issued plus pooled is unchanged |
| CardPool.VirtualCardAI.GenerateCardDetails | torcoin_wallet.py:366-403 | exactly one new number is issued; a record exists exactly when the ten-year expiry exists, and it is the initial record for that number, which is well formed and was pooled or drawn; the pool keeps its unissued numbers, gains only drawn ones, and shrinks by one or grows by 99,999 as an issue makes it |
| CardRecords.InitialRecord | torcoin_wallet.py:370-403 | the record exists if and only if `replace(year=+10)` succeeds; it is pending with its code, holds the upper-cased name, a zero balance, an empty log, the two limits, the instant ten years on (which is after issue) and its `MM/YY` text |
| CardRecords.FormatExpiry | torcoin_wallet.py:377 | the `%m/%y` text has five characters with the slash in the middle |
| Calendar.AddYears | torcoin_wallet.py:372 | `replace(year=...)` gives a valid date-time when it does not raise |
| Calendar.AddYearsIsLater | torcoin_wallet.py:372 | ten years on is strictly later, and the step fails exactly past year 9999 or from 29 February into a common year |
| Calendar.PreviousDay | torcoin_wallet.py:494-496 | one day back from a valid date is a valid date |
| Calendar.LastDayOfMonth | torcoin_wallet.py:491-496 | when the computation does not raise it gives a valid date-time in the same year and month |
| Calendar.LastDayOfMonthIsMonthEnd | torcoin_wallet.py:491-496 | the first-of-next-month-minus-one-day computation lands on midnight of the month's last day, and fails only for invalid months and December 9999 |
| Calendar.MonthStamp | torcoin_wallet.py:610 | `strftime("%Y-%m")` has seven characters |
| Calendar.Stamp | torcoin_wallet.py:452 | `strftime("%Y-%m-%d %H:%M:%S")` has nineteen characters |
| Calendar.StampStartsWithMonth | torcoin_wallet.py:617 | the first seven characters of a `%Y-%m-%d %H:%M:%S` stamp are its `%Y-%m` stamp |
| Calendar.MonthStampInjective | torcoin_wallet.py:610 | two instants with the same month stamp are in the same year and month |
| Text.ZeroPadRoundTrip | torcoin_wallet.py:377 | a zero-padded number parses back to itself |
| Text.ZeroPadLength | torcoin_wallet.py:377 | a number below 10^width is padded to exactly `width` characters |
| Text.ParseNat | torcoin_wallet.py:488-489 | `int()` on a string without spaces, signs, underscores or non-ASCII digits succeeds exactly when the string is a non-empty run of ASCII digits |
| Text.Split | torcoin_wallet.py:487 | `split` yields at least one part, and the whole string when the separator is absent |
| Text.Upper | torcoin_wallet.py:387 | ASCII upper-casing keeps the length and upper-cases each character |
| Text.Title | torcoin_wallet.py:456 | ASCII title-casing keeps the length |
| Text.UpperIdempotent | torcoin_wallet.py:659-660 | re-using an upper-cased holder name for a replacement card leaves it unchanged |
| Ledger.ExpiryDateRoundTrip | torcoin_wallet.py:487-489 | the `MM/YY` text a new card stores parses back to its month and two-digit year |
| Ledger.ParseExpiryDate | torcoin_wallet.py:487-489 | reading `MM/YY` succeeds if and only if there are at least two `/`-separated parts and the first two are ASCII digit runs |
| Ledger.IsCardExpired | torcoin_wallet.py:478-500 | with a stored instant, a card is expired exactly when now is past it; without one, an expiry text that does not parse, or whose month is outside 1..12, never counts as expired |
| Ledger.FallbackExpiryIsMonthEnd | torcoin_wallet.py:483-500 | without a stored instant, a card with an expiry in 2000..2099 is expired exactly after midnight of the last day of the expiry month |
| Ledger.FallbackExpiresDuringLastDay | torcoin_wallet.py:491-498 | by that rule the card already counts as expired at noon on the last day of its month |
| Ledger.NewCardExpiresAfterValidity | torcoin_wallet.py:480-482 | a new card is expired at a given time exactly when that time is past the instant ten years after issue |
| Ledger.NewCardNotExpired | torcoin_wallet.py:480-482 | a card is not expired at the instant it is issued |
| Ledger.AppendKeepsLedgerConsistent | torcoin_wallet.py:450-458 | appending an entry that records the balance it produces keeps every entry equal to the running balance |
| Ledger.LastEntryShowsBalance | torcoin_wallet.py:455 | in a consistent log the last entry shows the card's current balance |
| Ledger.BalanceUpdate | torcoin_wallet.py:438-458 | a debit larger than the balance is refused; otherwise credits add, debits subtract, other labels keep the balance, exactly one entry showing the new balance is appended, nothing else changes, and the log stays consistent |
| Ledger.NetFlowIsCreditsMinusDebits | torcoin_wallet.py:441-447 | the net effect of a log is its credits minus its debits |
| Ledger.ValidateCardTransaction | torcoin_wallet.py:554-578 | a purchase is approved if and only if the card exists, is active, is not expired, and the amount is within the balance and both limits |
| Ledger.ValidationFollowsCheckOrder | torcoin_wallet.py:556-576 | the verdict is that of the first failing check in the order not-found, not-active, expired, balance, daily, monthly |
| Ledger.Debited | torcoin_wallet.py:586-603 | the amount leaves the balance, one approved debit entry showing the new balance is appended, nothing else changes, and the log stays consistent |
| Ledger.ApprovedPurchaseKeepsBalanceNonNegative | torcoin_wallet.py:567-589 | an approved purchase never drives the balance below zero |
| Lifecycle.Activated | torcoin_wallet.py:518-524 | an activated record is active without a code, with balance and log unchanged, and stays well formed |
| Lifecycle.WithNewCode | torcoin_wallet.py:539-540 | a resend stores exactly the new code and keeps the status and well-formedness |
| Lifecycle.MarkedReplaced | torcoin_wallet.py:669-672 | the old record is marked replaced, points at its successor and is dated, while its number, balance, log and code are kept |
| Lifecycle.ActivationSucceedsOnce | torcoin_wallet.py:512-524 | after a successful activation every further attempt, with any code, reports "already active" |
| Lifecycle.ActivationSucceedsIffCodeMatches | torcoin_wallet.py:508-516 | activation succeeds if and only if the card exists, is not active and stores exactly the given code |
| Lifecycle.ResendInvalidatesOtherCodes | torcoin_wallet.py:538-540 | after a resend exactly the new code activates the card, and every other code, the old one included, is rejected |
| Lifecycle.MissingCodeOnlyWhenReplaced | torcoin_wallet.py:515 | on a well-formed record, the missing-code failure happens only to a replaced card |
| Lifecycle.ReplacedCardCanBeActivated | torcoin_wallet.py:512-516 | a replaced card that still holds its code is activated, since only `active` is refused |
| Lifecycle.CheckActivation | torcoin_wallet.py:508-516 | the failure is `not found` exactly for an unknown id, `already active` exactly for an active card, and the missing code exactly for an inactive card without one |
| Lifecycle.CheckResend | torcoin_wallet.py:531-536 | a resend goes ahead exactly on a stored card that is not active; otherwise it reports not found or already active |
| Replacements.CountIsNumberOfMatches | torcoin_wallet.py:616-619 | the monthly count is the number of log positions whose `date[:7]` is the month |
| Replacements.CountInMonth | torcoin_wallet.py:616-619 | the monthly count never exceeds the number of records |
| Replacements.QuotaAvailable | torcoin_wallet.py:623-625 | a log with fewer than two records always leaves a replacement available |
| Replacements.CountAppend | torcoin_wallet.py:639 | appending a record adds one to its own month's count and nothing to any other month's |
| Replacements.ThirdReplacementRefused | torcoin_wallet.py:623-625 | after two replacements in a month, no further one is allowed that month |
| Replacements.NewMonthHasFullQuota | torcoin_wallet.py:623-625 | a month with no records has its full quota, whatever earlier months used |
| Replacements.StampedRecordCountsInItsMonth | torcoin_wallet.py:632-637 | a record stamped at `now` is counted in the month of `now` and in no other |
| Replacements.DaysLeftAsWritten | torcoin_wallet.py:646 | as written, the waiting time is missing (the code raises) exactly in December |
| Replacements.DecemberRefusalRaises | torcoin_wallet.py:646 | on 10 December 2025 the code raises, where 22 days was meant |
| Replacements.DaysUntilNextMonth | torcoin_wallet.py:646 | corrected waiting time, to the same clock time on the first of the next month: between one day and the length of the month |
| Replacements.DaysUntilNextMonthEndsWithMonth | torcoin_wallet.py:646 | the corrected wait runs to the first of the next month: one day less lands on the month's last day, computed independently |
| Replacements.DaysLeftAsWrittenAgreesOutsideDecember | torcoin_wallet.py:646 | outside December, for one clock reading, the code's figure equals the corrected one |
| CardManager.GenerateVerificationCode | torcoin_wallet.py:502-504 | a draw from 100000..999999 gives a six-digit code that parses back to the draw |
| CardManager.AddingFreshCardKeepsNumbersUnique | torcoin_wallet.py:313-316 | storing a card whose number was never issued keeps all stored numbers distinct and recorded as issued |
| CardManager.SameNumberKeepsNumbersUnique | torcoin_wallet.py:438-458 | updating a stored card without changing its number keeps the stored numbers distinct and unchanged |
| CardManager.InitialRecordIsWellFormed | torcoin_wallet.py:394-401 | a new record is pending with a code and has a consistent, empty log |
| CardManager.HolderFor | torcoin_wallet.py:658-660 | the new holder is the given name or the old holder, and it is empty only when the old holder is |
| CardManager.VirtualCardManager.constructor | torcoin_wallet.py:408-410 | for any pool file, the generator is built over the stored cards, whose numbers become the issued set, and its pool is what the corrected initialisation leaves |
| CardManager.VirtualCardManager.CreateVirtualCard | torcoin_wallet.py:412-425 | one number is consumed; when the expiry exists, the initial record for a never-issued, well-formed number that was pooled or drawn is stored under `vc_<token>` and that number is the one added to the issued set, otherwise nothing is stored; the pool changes exactly as an issue changes it: no unissued number is lost, additions are drawn, and its size is stated |
| CardManager.VirtualCardManager.UpdateCardBalance | torcoin_wallet.py:435-462 | the call succeeds exactly on a stored card whose update is not an uncovered debit, and the card becomes that update; the invariant of unique, well-formed cards is kept |
| CardManager.VirtualCardManager.ActivateVirtualCard | torcoin_wallet.py:506-527 | the outcome is that of the ordered activation checks; only success changes the card, to its activated form |
| CardManager.VirtualCardManager.ResendActivationCode | torcoin_wallet.py:529-552 | a card that exists and is not active gets a fresh six-digit code and the "New code sent via" message; otherwise nothing changes |
| CardManager.VirtualCardManager.ProcessCardTransaction | torcoin_wallet.py:580-606 | the verdict is the validation verdict; only an approval changes the card, by the debit |
| CardManager.VirtualCardManager.GetMonthlyReplacements | torcoin_wallet.py:608-621 | the loop returns the number of records dated in the month of `now` |
| CardManager.VirtualCardManager.CanReplaceCard | torcoin_wallet.py:623-625 | a replacement is allowed exactly when fewer than two were dated this month |
| CardManager.VirtualCardManager.RecordCardReplacement | torcoin_wallet.py:627-640 | one record stamped `now` is appended, and this month's count rises by one |
| CardManager.VirtualCardManager.ReplaceVirtualCard | torcoin_wallet.py:642-681 | a used-up quota refuses with the days left and changes nothing, the generator included; an unknown old card changes nothing either; otherwise the replacement is completed, with the issued set and the pool as an issue leaves them |
| CardManager.VirtualCardManager.CompleteReplacement | torcoin_wallet.py:658-679 | a new card for the given or the old holder's name is stored, its well-formed number, pooled or drawn, is the one added to the issued set, the replacement is logged and the old card is marked replaced with its balance kept; when the new expiry does not exist nothing is stored but exactly one number is still consumed; in both cases the pool changes exactly as an issue changes it, size included |
| CardManager.VirtualCardManager.FinishReplacement | torcoin_wallet.py:667-672 | one record stamped `now` is logged and the stored old card is marked replaced, unless the new card has taken its id, in which case the stored cards stay as they are |
| CardManager.VirtualCardManager.StoreRecord | torcoin_wallet.py:438-458 | storing a changed record that keeps its card number keeps the stored cards consistent with the issued numbers |
| CardManager.VirtualCardManager.NewGenerator | torcoin_wallet.py:410 | for any pool file, the generator built over the stored cards is new, satisfies the pool invariant, has their numbers as its issued set and the pool the corrected initialisation leaves |

## Left out

- Reading and writing `card_pool.json` and saving the wallet (lines 203-207, 274-287, and each `save_wallet`) are file I/O. A missing or unreadable pool file is the snapshot `None`.
- The `except` at lines 218-220 regenerates the pool after any error. The model covers only the parse failure, as the snapshot `None`.
- `print` and `messagebox` output (lines 219, 224, 242, 246, 263, 287, 305, 309, 546-550, 647-649, 655) is user interface.
- The background thread at line 325 is concurrency. The top-up runs before `GenerateUniqueCardNumber` returns.
- Each `datetime.now()` call reads the clock again. The model uses one instant per operation, for example for the three readings on line 646.
- `Replacements.DaysLeftAsWrittenAgreesOutsideDecember` holds for one clock reading only. With the three readings of line 646, the figure is one day lower whenever the clock moves between the first reading and the third.
- `random.randint` and `secrets.token_hex` are randomness, so their results are inputs.
- The sampling loops at lines 231 and 254 never end when too few fresh numbers exist. The model requires draws that propose enough fresh numbers, so a non-terminating run is not modelled.
- Money is a float of dollars in the code and whole cents here. The `:,.2f` texts of the messages are not modelled; the verdicts carry the figures they report.
- `get_user_cards`, `get_card_details` and `export_card_data` (lines 427-433, 464-476) are plain lookups and an export of stored data with the wallet address.
- `generate_valid_luhn_prefix` (lines 347-349) only calls `generate_unique_card_number`.
- `load_existing_cards` is defined twice (lines 289-299). Both definitions are identical; the constructor loads the stored numbers once.
- `CardPool.VirtualCardAI.GenerateUniqueCardNumber` never returns the `None` of lines 308-310. That branch is unreachable, because the expansion before it always adds 100,000 numbers.
- `CardManager.VirtualCardManager.ReplaceVirtualCard` never returns the `None` of line 681. That branch is unreachable, because `create_virtual_card` either returns a non-empty id with a non-empty record or raises. The raise is the `NoExpiryDate` result.
- `CardManager.VirtualCardManager.ReplaceVirtualCard` reports the corrected waiting time, where the code raises in December (see Findings).
- `CardPool.VirtualCardAI.GenerateCardDetails` takes the activation code as an input. As written, line 383 raises `AttributeError`, as explained above.
- `CardRecords.InitialRecord` takes any natural number as the CVV draw. The code draws from 100..999.
- `CardManager.VirtualCardManager.constructor` requires stored cards with distinct numbers and consistent logs, as these operations produce them. The code accepts any wallet file.
- `Text.Title` states only that the length is kept, and covers ASCII letters only. It shapes only the description text of a balance entry.
- `CardFormat.ValidateCardFormat` reads `isdigit` as the ASCII digits `0`-`9`. Python also accepts other Unicode digits, such as superscript two, so the code accepts `8948²²²²²²²²2241` and the model does not. Unicode character classes are not modelled.
- `CardFormat.WellFormedNumbersAreGenerated` and `CardFormat.FormatAcceptsExactlyGenerated` hold for the ASCII reading of `isdigit` only. With Unicode digits the code accepts numbers that no draw generates. No number the engine itself produces contains such a digit.
- `Text.ParseNat` models `int()` on ASCII digit runs only. Python's `int()` also accepts surrounding spaces, a sign, underscores between digits and other Unicode digits (`" 30"`, `"+7"`, `"-5"`, `"1_2"`, `"٣"`), so the model does not capture those forms.
- `Ledger.IsCardExpired` therefore treats such an expiry text as unparsable, and the card as never expired. In the code a card stored with expiry `12/ 30` and no stored instant counts as expired after 31 December 2030. The engine itself always writes `MM/YY` with ASCII digits.
- `Text.Upper` upper-cases ASCII letters only and keeps the length. Python's `upper()` also maps other letters, and can change the length (`straße` becomes `STRASSE`), so the card holder of a non-ASCII name differs.
- The stored `expiry_datetime` is an ISO text read with `fromisoformat` in the code. The model keeps it as a date-time value.

## Findings

| source | as written | input that shows it | evidently intended | confidence | as-written member | corrected member |
|---|---|---|---|---|---|---|
| torcoin_wallet.py:351-364 | the check digit is computed on the payload without shifting it one place left, so the rightmost payload digit is left undoubled | payload 7992739871: the code returns 4, and 79927398714 fails the Luhn check | the Luhn check digit of ISO/IEC 7812-1 Annex B, which is 3 for that payload; nothing in the engine calls this helper, so no other member depends on it | not executed | CardFormat.CalculateLuhnCheckDigit, CardFormat.CodeCheckDigitIsNotIsoDigit | CardFormat.IsoLuhnCheckDigit, CardFormat.IsoCheckDigitCompletesNumber |
| torcoin_wallet.py:206 | a pool file from today is loaded unfiltered, so numbers already issued or malformed in the file stay in the pool | a same-day file still listing an issued number (a save at line 319 that failed silently, or the background expansion of line 325 writing a copy taken before a later pop): `pop()` at line 313 may hand that number out again, to a second card | load only the well-formed numbers of the file that are not issued yet, so the pool invariant holds after any load and every issued number is new, as the comment at line 315 demands | not executed; needs a stale pool file | CardPool.KeptFromFileAsWritten, CardPool.IssueAsWritten, CardPool.StalePoolFileReissuesNumber | CardPool.UsablePool, CardPool.VirtualCardAI.InitializeCardPool |
| torcoin_wallet.py:646 | the refusal notice builds the first of the next month with `replace(day=1, month=month + 1)`, which raises `ValueError` for month 13 | a third replacement requested on 2025-12-10 raises instead of showing the notice | the number of days until 1 January, which is 22 for that date | not executed | Replacements.DaysLeftAsWritten, Replacements.DecemberRefusalRaises | Replacements.DaysUntilNextMonth, Replacements.DaysUntilNextMonthEndsWithMonth |
