# Utility-bill SMS ledger: a verified model

The service receives SMS and MMS messages through a webhook. A photo of a
utility bill is read by OCR: a dollar amount, a kWh value and a capture
time are taken from it, and the amount is credited to the sender's ledger
for the current month. Text messages are commands. Users ask for their
current-month, last-month and all-time totals. The administrator can make
a backup, add an entry by hand, see the totals of every phone for the
month, and see one phone's history.

This project models two parts of that service and proves properties of
them.

- **The ledger store (`database.py`).** `Ledger.LedgerStore` is a class
  with two tables: `amounts`, an append-only sequence of rows, and
  `imageHashes`, a sequence of image fingerprints whose hash column is
  UNIQUE. Each query is a method with a loop. It is proved against a
  specification function over the tables: `MonthlyTotal`, `PhonesIn`,
  `RowsOf`, `HasTransaction` or `HashesOf`. The queries have no `modifies`
  clause, so they cannot change either table.
- **The decision logic of `app.py`.** This covers:
  - phone normalisation, the allow-list and the administrator test
    (`Phones`);
  - the OCR date parser and the EXIF tag priority (`Datetimes`);
  - the conversion of the money and kWh matches (`Extraction`, `Numerals`);
  - the acceptance policy (`Extraction.Decide`);
  - command parsing (`Commands`);
  - the per-month aggregation and the reports (`Reports`);
  - the handlers `handle_user_command`, `handle_admin_command` and
    `handle_sms` (`Service`).

  The handlers run against the store class. The clock, the outcome of the
  backup step, and everything the image pipeline computes (SHA-256 digest,
  EXIF tags, regex matches) are parameters. Replies are datatypes that
  carry the values the reply texts show.

Points where the model chooses between readings of the source:

- **`add_amount` arity.** `database.py:62` takes `(phone, month, amount)`,
  but both callers (`app.py:273`, `app.py:381`) pass six arguments:
  phone, month, amount, kWh, OCR time and EXIF time. The model follows
  the callers. A `Ledger.Row` holds all six values, and
  `LedgerStore.AddAmount` takes all six.
- **`check_duplicate_transaction`.** It is imported at `app.py:15` but not
  defined in `database.py`. The model assumes the reading the reply texts
  at `app.py:266` and `app.py:375` suggest: some stored row has the same
  phone, the same amount and the same kWh.
- **`check_image_hash` arity.** `app.py:366` passes `(hash, phone)`, but
  `database.py:128` takes only the hash and searches every phone. The
  model follows `database.py`: the check is global.
  `Service.ResubmittedImageRefused` shows the consequence. Once an image
  is accepted, the same image is refused whoever sends it next.
- **Row order.** `ORDER BY timestamp DESC` is modelled as reverse
  insertion order. `CURRENT_TIMESTAMP` has a resolution of one second, and
  SQLite promises no order among rows inserted in the same second. Newest
  first among such ties is the model's choice, not something the program
  guarantees.
- **Month sorting.** Months are `Common.YearMonth` values ordered by
  `Common.Before`. The source sorts `'%Y-%m'` strings. The two orders agree
  for the years 1000 to 9999, which include every year `datetime.now()`
  gives; see "Left out" for earlier years.

## Model

| member | source | states |
|---|---|---|
| Ledger.LedgerStore.constructor | database.py:17-59 | a fresh database has empty `amounts` and `image_hashes` tables, and the hash column is duplicate-free |
| Ledger.LedgerStore.AddAmount | database.py:62-74 | the `amounts` table gains exactly one row at its end; existing rows and the hash table are unchanged |
| Ledger.LedgerStore.GetMonthlyTotal | database.py:77-91 | the result is the sum of `amount` over the rows with phone `p` and month `m`, or 0.0 when there are none |
| Ledger.LedgerStore.GetAllTotals | database.py:94-108 | one entry per phone with at least one row in month `m`, and each entry is that phone's total for `m` |
| Ledger.LedgerStore.GetUserHistory | database.py:111-125 | the result is the rows of phone `p`, newest first |
| Ledger.LedgerStore.CheckDuplicateTransaction | app.py:372-376 | true exactly when some row of the phone has the same amount and the same kWh |
| Ledger.LedgerStore.CheckImageHash | database.py:128-142 | true exactly when the hash is stored, under any phone |
| Ledger.LedgerStore.AddImageHash | database.py:145-161 | a new hash adds one record; a stored hash trips the UNIQUE constraint and leaves the table as it was; hashes stay pairwise distinct; the `amounts` table is unchanged |
| Ledger.LedgerStore.GetImageHashHistory | database.py:164-177 | every hash record, newest first |
| Ledger.MonthlyTotalAppend | database.py:62-91 | one more row raises the total of its own phone and month by its amount, and no other total changes |
| Ledger.MonthlyTotalAbsent | database.py:91 | a phone with no row in month `m` has total 0.0 for `m` |
| Ledger.MonthlyTotalConcat | database.py:84 | totals are additive over the table |
| Ledger.PhonesInAppend | database.py:101 | one more row adds its phone to the month's groups when it belongs to that month, and nothing otherwise |
| Ledger.RowsOfMembers | database.py:117-118 | a row is selected for `p` exactly when it is stored and belongs to `p` |
| Ledger.ReverseAt | database.py:118 | position `k` of the history is the row inserted `k` places before the newest |
| Ledger.HistoryMembers | database.py:111-125 | the history of `p` contains every row of `p` and no other row |
| Common.BeforeIsStrictTotalOrder | app.py:233 | the month order used for sorting is irreflexive, asymmetric, transitive and total |
| Common.Strip | app.py:217 | `strip()` gives a slice of the input that neither starts nor ends with whitespace, and everything it cuts off is whitespace |
| Common.StripIdempotent | app.py:217 | stripping twice is stripping once |
| Common.Lower | app.py:217 | `lower()` keeps the length and lowers every character |
| Common.LowerIdempotent | app.py:217 | lowering twice is lowering once |
| Common.Words | app.py:258 | `split()` gives non-empty words without whitespace |
| Common.WordsEmpty | app.py:258 | `split()` gives no words exactly when the text is all whitespace |
| Common.WordsCons | app.py:258 | after leading whitespace, a word ended by whitespace or by the end of the text is the first word, and the remaining words are those of the rest |
| Common.WordsKeepNonSpace | app.py:258 | the words, put back together, are exactly the non-whitespace characters of the text, in order |
| Common.SplitOnPieces | app.py:31 | `split(',')` gives one more piece than there are commas |
| Common.SplitOnJoin | app.py:31 | `split(',')` of comma-free pieces joined with commas gives the pieces back |
| Common.RemoveAllConcat | app.py:192-194 | removing one character works piece by piece over a concatenation |
| Common.RemoveAllDrops | app.py:192-194 | removing a character drops it wherever it stands |
| Common.RemoveAllKeepsOther | app.py:192-194 | removing a character keeps every other character where it stands |
| Common.RemoveAllAbsent | app.py:258 | `replace(pat, '')` leaves a string that cannot contain `pat` unchanged |
| Common.DigitsAppend | app.py:42 | deleting the non-digits distributes over concatenation |
| Phones.ParseWhitelist | app.py:31-32 | every allow-list entry is non-empty, has no surrounding whitespace and contains no comma, and there are at most as many entries as comma-separated pieces |
| Phones.ParseWhitelistRoundTrip | app.py:31-32 | every listed number is kept: numbers joined by commas parse back to exactly those numbers, in order |
| Phones.ConfigFromEnv | app.py:25-32 | the administrator is `ADMIN_PHONE` when set and the built-in number otherwise; the allow-list is `ParseWhitelist` of `WHITELIST_NUMBERS`, its entries trimmed and comma-free |
| Phones.UnsetEnvironment | app.py:25-60 | with neither variable set, every number is admitted, the built-in number is the administrator, and `ADMIN_ADD_USER` is not |
| Phones.IsWhitelisted | app.py:50-55 | definition (no contract): an empty allow-list admits every number; otherwise exact membership |
| Phones.IsAdmin | app.py:58-60 | definition (no contract): exact comparison of the raw sender with `ADMIN_PHONE`, without normalisation |
| Phones.BlankEnvFailsOpen | app.py:50-55 | an unset or blank `WHITELIST_NUMBERS` (only commas and whitespace) gives an empty allow-list, which admits every number |
| Phones.NormalizePhone | app.py:40-47 | the result starts with `+`; ten digits give `+1` and the digits, even after a `+`; any other digit count without a leading `+` gives `+` and the digits (fewer than ten included); a `+` number with any other digit count is kept as written |
| Phones.NormalizeKeepsDigits | app.py:40-47 | normalisation keeps every digit of the input, and adds a `1` in front exactly in the ten-digit case |
| Phones.NormalizeIdempotent | app.py:40-47 | normalising a normalised number changes nothing |
| Numerals.NatOfPad | app.py:270 | reading back a zero-padded field gives the number |
| Numerals.PadNatOf | app.py:95 | a digit field is the zero-padded form of its value |
| Numerals.UnsignedDecimal | app.py:192 | a value read from an unsigned numeral is non-negative |
| Numerals.ParseDecimal | app.py:192-194 | `float` fails on blank text, and a value is negative only when the stripped text starts with a minus sign |
| Numerals.ParseHundredths | app.py:261-262 | `float` reads an amount written with two decimals (such as "12.95") as that amount |
| Datetimes.ConvertHour | app.py:115-120 | without AM/PM the hour stands; on the hours 1 to 12, AM lands in 0..11 and PM in 12..23 |
| Datetimes.FromMatch | app.py:113-121 | the datetime has the matched year, month, day and minute, zero seconds, and an hour inside the day when a 12-hour reading carries AM/PM |
| Datetimes.ConvertHourRoundTrip | app.py:113-120 | on the hours 1 to 12, AM maps into 0..11 and PM into 12..23, and reading the result on a 12-hour clock gives the input back |
| Datetimes.To12HourRoundTrip | app.py:113-120 | every hour of the day is the conversion of exactly one 12-hour reading |
| Datetimes.FirstValid | app.py:107-123 | a datetime found by the parser satisfies the ranges of `datetime(...)` |
| Datetimes.FirstValidSpec | app.py:107-123 | the parser returns None exactly when no pattern gives a valid datetime; otherwise it returns the datetime of the earliest pattern that does |
| Datetimes.ExtractDatetimeFromOcr | app.py:101-123 | the loop over the three patterns returns the first valid datetime, or None |
| Datetimes.SlashFirst | app.py:107-109 | a valid match of the first (slash, AM/PM) pattern wins over the dash pattern |
| Datetimes.AfternoonExample | app.py:113-121 | "01/15/2024 3:45 PM" reads as 15:45 on 15 January 2024 |
| Datetimes.OutOfRangePmFallsBack | app.py:101-123 | "13:45 PM" makes the first pattern's datetime invalid, and the third pattern then reads the same text as 13:45 |
| Datetimes.FormatStamp | app.py:361-362 | a formatted timestamp has 19 characters |
| Datetimes.ParseStamp | app.py:95 | `strptime` succeeds only on a valid datetime |
| Datetimes.FormatThenParse | app.py:95 | parsing a formatted valid datetime gives it back |
| Datetimes.ParseThenFormat | app.py:95 | a string that parses is exactly the formatting of its value |
| Datetimes.FirstTagTime | app.py:92-95 | a time found among the tags is a valid datetime |
| Datetimes.ExifTime | app.py:87-98 | the EXIF time, when there is one, is a valid datetime |
| Datetimes.ExtractDatetimeFromExif | app.py:87-98 | the loop over the tags 36867 and 306 returns `ExifTime`: the first tag present decides |
| Datetimes.ExifTimePriority | app.py:92-95 | tag 36867 decides when present; otherwise tag 306 decides; with neither tag the result is None |
| Datetimes.OriginalTagWins | app.py:92-95 | a well-formed tag 36867 is the EXIF time even when tag 306 holds something else |
| Datetimes.UnparsableOriginalNoFallback | app.py:92-98 | an unparsable tag 36867 gives None, without trying tag 306 |
| Datetimes.ModifyTimeFallback | app.py:92-95 | without tag 36867, a well-formed tag 306 is the EXIF time |
| Extraction.ConvertAll | app.py:191-194 | the conversion succeeds exactly when every match converts, and then it gives one value per match, in order |
| Extraction.MoneyValue | app.py:192 | dollar signs and commas are ignored (a match without them converts as plain `float`), and only a minus sign in the match gives a negative amount |
| Extraction.KwhValue | app.py:194 | commas are ignored (a match without them converts as plain `float`), and only a minus sign in the match gives a negative value |
| Extraction.MoneyValueIgnoresComma | app.py:192 | a comma anywhere in a money match does not change its value |
| Extraction.MoneyValueIgnoresDollar | app.py:192 | a dollar sign anywhere in a money match does not change its value |
| Extraction.KwhValueIgnoresComma | app.py:194 | a comma anywhere in a kWh match does not change its value |
| Extraction.MoneyValueOfGrouped | app.py:192 | "$a,b" converts as `float` of "ab", so "$1,234.56" reads as 1234.56 |
| Extraction.KwhValueOfGrouped | app.py:194 | "a,b" converts as `float` of "ab" |
| Extraction.CleanedMatch | app.py:192-194 | the cleaned text is the match itself when it holds none of the removed characters, and it holds no minus sign the match did not |
| Extraction.ExtractCandidates | app.py:161-199 | an amount (kWh) list is present exactly when the image is readable, has money (kWh) matches and every match of both kinds converts; it then holds each match's converted value, in order |
| Extraction.DistinctAtMostOne | app.py:346-353 | `len(set(values)) > 1` holds exactly when the values are not all equal |
| Extraction.Decide | app.py:341-359 | a missing field is "not found"; then several distinct amounts are ambiguous, checked before kWh; then several distinct kWh values are ambiguous; otherwise the reading is accepted and every candidate equals the accepted value |
| Extraction.TwoAmountsAmbiguous | app.py:346-350 | two different amounts in one image are ambiguous, whatever the kWh values are |
| Extraction.MoneyValueOfNumeral | app.py:192 | a match such as "$12.95" converts to its amount |
| Extraction.KwhValueOfNumeral | app.py:194 | a match such as "34.90" converts to its kWh value |
| Extraction.SingleReadingAccepted | app.py:341-359 | one money match and one kWh match that convert are accepted with exactly those values |
| Commands.ParseUserCommand | app.py:215-240 | definition (no contract): the stripped, lower-cased text compared with the three commands; see `Commands.UserCommandBranches` |
| Commands.ParseAdminCommand | app.py:243-320 | definition (no contract): the branch order backup, `add `, status, `user `; see `Commands.AdminCommandBranches` |
| Commands.ParseAdd | app.py:257-285 | `add` gives the manual entry exactly when there are at least two tokens and the first two read as numbers; the first is then the kWh value and the second the amount; otherwise it gives the usage reply |
| Commands.AdminCommandBranches | app.py:243-320 | every normalised admin text falls into exactly one branch, in the order backup, `add `, status, `user `, unknown; `user` looks up the normalised phone |
| Commands.UserCommandBranches | app.py:215-240 | a user text is one of the three exact commands, or unknown |
| Commands.UserCommandIgnoresCaseAndPadding | app.py:217 | surrounding whitespace and letter case do not change which user command a text is |
| Commands.PreviousMonth | app.py:224 | "last month" is a valid month before the current one; January goes to December of the previous year |
| Commands.PreviousMonthIsAdjacent | app.py:224 | no month lies strictly between last month and this month |
| Commands.AddOfNumerals | app.py:257-262 | "add x y", with two numerals, is the manual entry of kWh x and amount y |
| Commands.HundredthsNumeral | app.py:261-262 | a two-decimal amount such as "34.90" is a numeral that `float` reads as its value |
| Commands.TwoWords | app.py:258 | two numerals separated by a space split into exactly those two tokens |
| Reports.UserMonthTotals | app.py:202-212 | the keys are exactly the months in the user's history, and each maps to that month's sum, which equals `get_monthly_total` for the same user and month |
| Reports.BucketByMonth | app.py:205-211 | the loop leaves one bucket per month of the history, holding that month's sum |
| Reports.BucketStep | app.py:207-211 | one loop step (create the bucket at zero if missing, then add the amount) keeps the buckets equal to the month sums |
| Reports.HistoryMonthSum | app.py:202-212 | summing a month over the history gives the store's monthly total for that user and month |
| Reports.LatestExists | app.py:233 | a non-empty set of months has a latest month |
| Reports.AllMonthsReport | app.py:227-238 | "No transactions found." exactly when there are no totals; otherwise each month once, latest first, each with its total, and the grand total is the sum of the listed totals |
| Reports.GrandTotalIsHistorySum | app.py:231-237 | summing the month sums over a listing that covers every month gives the sum of the whole history |
| Reports.GetAllGrandTotal | app.py:227-238 | the grand total of "get all" is the sum of every amount the user ever recorded |
| Reports.HistorySumReverse | app.py:307-316 | the order of the history does not change its sum |
| Reports.UserHistoryReport | app.py:300-317 | "No transactions found" exactly when the phone has no rows; otherwise the rows newest first and the total of all of them |
| Service.StampOrNone | app.py:361-362 | the stored text reads back as the time it records, and "None" reads as no time |
| Service.TransactionPhone | app.py:364 | definition (no contract): `ADMIN_ADD_USER` for the administrator, the sender otherwise |
| Service.OcrTimeOrNow | app.py:180-182 | the OCR time, or the current time when no pattern matched, is a valid datetime |
| Reports.MonthsOfEmpty | app.py:229 | the history is empty exactly when it has no month |
| Service.HandleUserCommand | app.py:215-240 | `UserAnswer`: "get total" and "get last total" give the store's total for the current and the previous month; "get all" gives the report above for the sender's rows; anything else is unknown; nothing is written |
| Service.AdminAdd | app.py:257-284 | a duplicate for `ADMIN_ADD_USER` is refused without writing; otherwise one row for the current month is appended, stamped with the time and "None", and the reply carries the new month total |
| Service.AdminStatus | app.py:287-298 | the month's total for every phone with rows except `ADMIN_PHONE`, or "No transactions this month." when no phone has rows |
| Service.HandleAdminCommand | app.py:243-320 | `AdminAnswer`: each branch replies as described above; only an `add` that parses writes; the usage reply, status, user and unknown commands write nothing; the hash table is never touched |
| Service.RecordSubmission | app.py:364-389 | the hash check runs first, then the duplicate check; either refusal writes nothing; otherwise exactly one hash record and then one amount row are written, and the reply carries the new month total |
| Service.HandleImage | app.py:337-389 | `ImageAnswer`: the reply is "not found", ambiguous amounts, ambiguous kWh, duplicate image, duplicate transaction or added, exactly as the acceptance policy and the two checks decide; only "added" writes; an added reading is credited to `ADMIN_ADD_USER` for the administrator and carries the OCR time (or now) and `ExifTime`, and the new row stores both stamps |
| Service.ResubmittedImageRefused | app.py:366-370 | after an image is accepted, the same image is refused as a duplicate for any sender |
| Service.HandleSms | app.py:323-407 | a sender outside the allow-list is denied; media is handled before text; non-blank text goes to the admin handler for the administrator and to the user handler otherwise; blank text gets the prompt; each routed branch carries the full contract of its handler (`ImageAnswer`, `AdminAnswer`, `UserAnswer`); only an accepted image or a manual entry writes |

## Left out

- HTTP and SMS plumbing is not modelled: Flask routes, `request.form`,
  Twilio `MessagingResponse`, `send_admin_notification`, the
  `/status` and `/health` routes, and the catch-all exception reply of
  `handle_sms` (app.py:409-413).
- The image pipeline is not modelled; its results are inputs:
  - the download;
  - Tesseract OCR;
  - PIL and piexif EXIF decoding (`extract_exif_data`);
  - the SHA-256 digest, which is an uninterpreted string.
- The money, kWh and date regular expressions are not modelled. Their
  matches are inputs. The third date pattern is the first without the
  optional AM/PM group, so its leftmost match is derived from the first
  pattern's match by dropping the suffix.
- The lock and the per-call sqlite connections are not modelled, because
  the model is single-threaded. The DDL and the indexes are not modelled
  either.
- `create_backup` is not part of this model. Its success or failure is the
  `backupOk` parameter.
- Float arithmetic is not modelled. Amounts and kWh values are exact
  `real`s. The `:.2f` formatting of the reply texts is not modelled,
  because replies are tags.
- Numerals.ParseDecimal: models `float()` only on decimal text (optional
  sign, digits, one optional point). Exponents, `inf`, `nan` and
  underscores are rejected, where Python would accept them.
- Common.Lower: lowers only ASCII letters, not the full Unicode case
  mapping of `str.lower()`. The commands and numerals are ASCII.
- Datetimes.ParseStamp: models `strptime` as a strict fixed-width parser.
  `strptime` also accepts fields with fewer digits than the width, and it
  matches the space of the format against any run of whitespace.
- Common.IsDigit: only the ASCII digits are digits. The `\D` of
  `normalize_phone` and Python's `float` also accept other Unicode decimal
  digits; `Common.Digits`, `Phones.NormalizePhone` and
  `Numerals.ParseDecimal` do not.
- Common.Before: for years before 1000, `strftime('%Y')` does not pad to
  four digits, so the source's string sort can disagree with this order.
  `datetime.now()` never gives such a year.
- `datetime.now()` is the `now` parameter: the current month, or the
  current date and time.
- Ledger.LedgerStore.GetAllTotals: returns a map from phone to total,
  not a list of `{phone_number, total}` dictionaries. The list has one
  entry per phone, so nothing is lost.
- Service.ResubmittedImageRefused: states only the second reply and the
  row count. It does not restate the full effects of the two calls,
  which `Service.HandleImage` gives.
- Commands.AddOfNumerals: covers a concrete text such as
  "add 34.90 12.95" through `Commands.HundredthsNumeral`, not as a lemma
  about the literal string.
- `replace('add ', '')` (app.py:258) removes every occurrence of "add ",
  not only the prefix. `Common.RemoveAll` models this as written.
