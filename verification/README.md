# pgnpg in Dafny

A Dafny model of the core of pgnpg. pgnpg is a service that keeps a rolling record of each member's daily PIX, in two snapshots of one design: `server/` and the older `api/`. The model covers:

- **PGN tiers** (`PgnLevels`): classification of a rolling PIX total into eight tiers, the tier bounds, saturating shifts by a signed step, and the tier names.
- **Closed-enum codecs and the grade parser** (`DegreeCodec`, `LevelCodec`, `SexCodec`, `Grades`, `Decimal`): the text forms of degrees, staff levels, sexes and grades such as `B3`, including the high-school (`高…`) and alumni (`OB - …卒`) rewrites. `GradeAsWritten` is the grade split exactly as the code slices it.
- **Record decoding** (`RecordDates`, `Records`): the byte-level `YYYY-MM-DD` fast path of the optional-date decoder, the daily-amount map decoder, and the derivation of a student row from a record.
- **The reconciliation store** (`Tables`, `Extremes`, `Store`):
  - the tables as maps keyed by their primary keys;
  - the all-or-nothing batch insert, with row-ordered upserts and pix rows written in chunks of at most 512, popped from the back;
  - the "latest batch" queries. The server keys a batch by a ULID; the api keys it by an auto-increment `refresh_log` row.
- **The profile query** (`Profiles`): the 28 most recent pix rows of a user, their total, tier and progress metrics.
- **The refresh task** (`Refresh`): the guard flag, the 30-minute rate limit, the fetch window, the one-shot completeness re-fetch, the insert, and the `/refresh/` handler.

`Snapshot = Server | Api` selects between the two designs wherever they differ:

- `DAYS_COUNT` is 30 or 28;
- the batch key is a ULID or a log id;
- the calendar day is local time or UTC;
- the insert time is a second clock reading or the refresh's own.

Inputs from outside the model are parameters:

- the clock;
- the day of an instant (server);
- the ULID randomness;
- the remote API, as a function of the attempt number and the window;
- which insert statements the database fails.

Store-level definitions are ghost, because they choose the greatest element of a set.

## Model

| member | source | states |
|---|---|---|
| PgnLevels.FromStr | entity/src/pgn_level.rs:45-61 | Accepts exactly the eight tier names: `Ok(l)` only for the name of `l`, and otherwise `Err("invalid value")`. |
| PgnLevels.NameRoundTrip | entity/src/pgn_level.rs:24-61 | Parsing a tier's name gives the tier back, and no two tiers share a name. |
| PgnLevels.MinPix | server/src/usecase.rs:82-90 | A tier's floor lies below its bound, and is 0 exactly for Iron (an assumption, see Left out). |
| PgnLevels.MaxPixStrictlyIncreasing | entity/src/pgn_level.rs:97-121 | Tier bounds grow strictly with tier order, and GrandMaster's bound is `u32::MAX`. |
| PgnLevels.From | entity/src/pgn_level.rs:123-138 | The tier of a total is the first whose bound exceeds it: every lower tier's bound is at most the total, and the total is at least the tier's floor. |
| PgnLevels.ClassifyExactlyOne | entity/src/pgn_level.rs:98-138 | `From(t) == l` iff `MinPix(l) <= t` and `t` is below `l`'s bound (or `l` is GrandMaster): no gaps, no overlaps. |
| PgnLevels.ClassifyMonotone | entity/src/pgn_level.rs:123-138 | A larger total never gets a lower tier. |
| PgnLevels.Cast | entity/src/pgn_level.rs:63-69 | Clamps an `i8` discriminant into 0..7. |
| PgnLevels.Add | entity/src/pgn_level.rs:71-76 | `l + k` is the tier with discriminant `clamp(ord(l) + k, 0, 7)` for every integer `k`, through both `i8` saturations. |
| PgnLevels.Sub | entity/src/pgn_level.rs:84-89 | `l - k` is the tier with discriminant `clamp(ord(l) - k, 0, 7)`. |
| PgnLevels.AddAssign | entity/src/pgn_level.rs:78-82 | `+=` leaves the same tier as `+`. |
| PgnLevels.SubAssign | entity/src/pgn_level.rs:91-95 | `-=` leaves the same tier as `-`. |
| PgnLevels.ShiftSaturates | entity/src/pgn_level.rs:63-89 | GrandMaster + 1 is GrandMaster and Iron - 1 is Iron. One step up from a non-top tier is the next tier, whose floor is this tier's bound. |
| DegreeCodec.FromStr | entity/src/degree.rs:21-32 | Accepts only a degree's text, and otherwise fails with "invalid degree step". |
| DegreeCodec.RoundTrip | entity/src/degree.rs:21-45 | `from_str(to_string(d)) == Ok(d)`; `Display` is injective; `from_str(s) == Ok(d)` iff `s` is `d`'s text. |
| LevelCodec.FromStr | entity/src/level.rs:20-32 | Accepts only 新人, アシスタント, ノーマル or リード, and rejects every other string. |
| LevelCodec.RoundTrip | entity/src/level.rs:20-46 | Round trip, injectivity, and `from_str(s) == Ok(l)` iff `s` is `l`'s text. |
| SexCodec.FromStr | entity/src/sex.rs:16-26 | Accepts only 男性 or 女性, and rejects every other string. |
| SexCodec.RoundTrip | entity/src/sex.rs:16-38 | Round trip, injectivity, and `from_str(s) == Ok(x)` iff `s` is `x`'s text. |
| Decimal.ValueOfFormat | entity/src/grade.rs:14-18 | Reading back the decimal text of a number gives the number. |
| Decimal.ParseU16 | entity/src/grade.rs:58 | `u16` parsing: `Some` exactly for a non-empty digit string, optionally after one `+`, whose value fits in 16 bits, and then that value. The empty string, a lone `+` and any other leading character give `None`. |
| Decimal.ParseU16OfFormat | entity/src/grade.rs:14-18 | Every `u16` survives rendering and parsing. |
| Grades.Display | entity/src/grade.rs:14-18 | The text is a degree letter, the degree's own text, followed by a digit string whose value is the year. |
| Grades.SplitAlphaNumeric | entity/src/grade.rs:20-29 | `a + n == s`; `a` has no ASCII digit; `n` is empty or starts with one (the corrected split, see Findings). |
| Grades.SplitUnique | entity/src/grade.rs:20-29 | Those three properties determine the split. |
| Grades.Rewrite | entity/src/grade.rs:37-54 | Text starting with neither 高 nor `OB - …卒` is passed through unchanged. The only error is "invalid grade", from the 高 branch. A 高 text that survives becomes `H1`, `H2` or `H3`. An `OB - …卒` text still starts with `O`. |
| Grades.FromStr | entity/src/grade.rs:31-63 | An accepted grade came from a non-empty string that does not start with 高. |
| Grades.AcceptedExactly | entity/src/grade.rs:31-63 | `from_str` accepts exactly: one degree letter, then a digit-led `u16` numeral (with no high-school or alumni rewrite); it returns that degree and number. |
| Grades.AcceptedPlain | entity/src/grade.rs:56-63 | On an input no rewrite touches, `from_str` accepts exactly a degree letter followed by digits of value at most 65535, returning that degree and value. |
| Grades.RewrittenNotAccepted | entity/src/grade.rs:37-57 | An input starting with 高 or of the form `OB - ...卒` is rejected and does not start with a degree letter. |
| Grades.RoundTrip | entity/src/grade.rs:14-18 | `from_str(to_string(Grade{d, n})) == Ok(Grade{d, n})` for every degree and every `u16`. |
| Grades.BadPrefixRejected | entity/src/grade.rs:56-57 | An alpha prefix other than exactly `B`, `M` or `D` is rejected with "invalid degree step". |
| Grades.HighSchoolAlwaysRejected | entity/src/grade.rs:38-57 | Every input starting with 高 is rejected: "invalid grade" for an unknown numeral, "invalid degree step" after the `H1`..`H3` rewrite. |
| Grades.HighSchoolYearForm | entity/src/grade.rs:38-48 | `高校` + numeral + `年生` loses both words, and the numeral picks the tier: `1`/`一` gives `H1`, `2`/`二` gives `H2`, `3`/`三` gives `H3`, and any other character gives "invalid grade". |
| Grades.HighSchoolShortForm | entity/src/grade.rs:38-48 | `高校` + numeral, with no `年生`, maps the numeral the same way. |
| Grades.HighSchoolBareRejected | entity/src/grade.rs:38-47 | Only `高校` is deleted, so `高` + numeral is "invalid grade". |
| Grades.AlumniAlwaysRejected | entity/src/grade.rs:51-57 | Every `OB - …卒` input is rejected with "invalid degree step". |
| Grades.RemoveAllKeepsHead | entity/src/grade.rs:52 | Deleting a pattern that does not start with the text's first character keeps that character first. |
| Grades.EmptyYearRejected | entity/src/grade.rs:58 | `"B"` is rejected with "invalid grade". |
| Grades.NonNumericYearRejected | entity/src/grade.rs:58 | `"B3a"` is rejected with "invalid grade". |
| Grades.OversizedYearRejected | entity/src/grade.rs:58 | `"B70000"` is rejected with "invalid grade". |
| GradeAsWritten.ByteLen | entity/src/grade.rs:24 | `str::len` is at least the character count, and equal exactly for ASCII text. |
| GradeAsWritten.CharIndexAt | entity/src/grade.rs:26-27 | Finds the character index of a byte offset, or reports that the offset cuts a character (the slicing panic). |
| GradeAsWritten.SplitAsWritten | entity/src/grade.rs:20-29 | Panics iff the first digit's character index, used as a byte offset, falls inside a character. Otherwise the halves rejoin to the input, and the prefix's UTF-8 length is that index. |
| GradeAsWritten.FromStrAsWritten | entity/src/grade.rs:31-63 | The rewrite's "invalid grade" is returned before any split. A panic needs a non-ASCII character before the first digit of the rewritten text. |
| GradeAsWritten.PanicNeedsNonAsciiPrefix | entity/src/grade.rs:20-29 | The slicing panic needs a non-ASCII character before the first digit. |
| GradeAsWritten.PanicsOnNonAsciiPrefix | entity/src/grade.rs:20-29 | `学1` panics as written, where the corrected parser answers "invalid degree step". |
| GradeAsWritten.SplitAgreesOnAsciiPrefix | entity/src/grade.rs:20-29 | With an ASCII prefix, the as-written split is the corrected one. |
| GradeAsWritten.AgreesUnlessPanic | entity/src/grade.rs:20-63 | Whenever the as-written parser returns, it returns what the corrected one does. |
| RecordDates.ParseShaped | entity/src/record.rs:119-120 | On the fast path the first ten bytes give `Some` iff they spell a valid calendar date, and then that date. |
| RecordDates.DecodeOptionalDate | entity/src/record.rs:102-129 | Null or empty gives `Ok(None)`, never an error. A shaped string gives `Ok` iff its first ten bytes spell a valid date. Any other string goes to the RFC 3339 parser, and its failure is the only error there. |
| RecordDates.FastPathIgnoresSuffix | entity/src/record.rs:110-120 | Two shaped strings that agree on their first ten bytes decode alike, so a time suffix is ignored. |
| RecordDates.SpelledDigits | entity/src/record.rs:111-116 | The year, month and day a shaped string spells, digit by digit. |
| RecordDates.MonthThirteenRejected | entity/src/record.rs:118-124 | `2024-13-01` is an error, not `None`. |
| RecordDates.FebruaryThirtiethRejected | entity/src/record.rs:118-124 | `2024-02-30` is an error. |
| RecordDates.LeapDayOnlyInLeapYears | entity/src/record.rs:118-124 | `2023-02-29` is an error and `2024-02-29` is accepted. |
| RecordDates.DecodeDateMap | entity/src/record.rs:131-142 | The map fails iff some key is not a date. Otherwise every key's date carries the key's amount unchanged, and every date in the result comes from such a key. |
| RecordDates.FormatDate | entity/src/record.rs:138 | `%Y-%m-%d` of a date with a year of at most four digits is ten bytes of date shape. |
| RecordDates.Value4 | entity/src/record.rs:114 | Four digit bytes denote a number below 10000, and zero-padding it gives the same bytes back. |
| RecordDates.FormatThenParse | entity/src/record.rs:138 | A formatted valid date parses back to itself. |
| RecordDates.ParseThenFormat | entity/src/record.rs:138 | A key the ten-byte reader accepts is the formatting of its date. |
| RecordDates.KeysAreCanonical | entity/src/record.rs:131-142 | Every key the ten-byte reader accepts is the canonical text of its date, so two keys it accepts never give one date (see Left out: chrono accepts more spellings). |
| Records.CreateStudent | server/src/usecase.rs:168-188 | `Some` iff grade, course, level, sex, join date, office, email, 4nonome email, university, major, active and Slack id are all present; leave date and Discord id are copied as they are. |
| Records.CreateStudentRoundTrip | api/src/usecase.rs:153-173 | Every student row comes from the record carrying its fields, whatever the other fields hold. A record with all fields is rebuilt from its row. |
| Records.Wallets | server/src/lib.rs:82-83 | The wallet set of a batch contains each record's wallet and nothing else. |
| Tables.UpsertLastWins | server/src/usecase.rs:322-330 | After a multi-row upsert a key holds its last row's value, keys no row mentions keep theirs, and none is deleted. |
| Tables.LastValueIndex | server/src/usecase.rs:322-330 | The last row for a key, by position: no later row has that key. |
| Tables.UpsertAppend | server/src/usecase.rs:370-388 | Upserting chunk after chunk is upserting their concatenation. |
| Tables.LastValueOfReverse | server/src/usecase.rs:373 | The last row of the popped order is the first row of the pending vector. |
| Tables.Chunks | server/src/usecase.rs:370-388 | The chunks together hand out every pending item exactly once, in pop order. |
| Tables.ChunksWellSized | server/src/usecase.rs:26 | Every chunk is non-empty with at most 512 items, and only the last may be short. There are ⌈n/512⌉ chunks. |
| Tables.PopOne | server/src/usecase.rs:372-373 | One more `pop` and `push` appends the next item from the back to the chunk. |
| Tables.PopChunk | server/src/usecase.rs:371-378 | The inner `for` loop pops the next chunk off the back and shrinks the vector. |
| Tables.SplitIntoChunks | api/src/usecase.rs:271-289 | The `while` loop produces exactly the well-sized chunks, covering every pending item once. |
| Extremes.Max | server/src/usecase.rs:127-131 | `ORDER BY … DESC LIMIT 1`: a member of the set, and no smaller than any other member. |
| Extremes.Latest | server/src/usecase.rs:55-56 | The latest date of a set: every other member is before it. |
| Store.UlidKey | server/src/usecase.rs:290 | `Ulid::from_datetime(now)`: the random part is kept in the low 80 bits, and the time read back is `now` truncated to the millisecond. |
| Store.UlidClock | server/src/usecase.rs:161-164 | The ULID's time is the creation time truncated to the millisecond. A later millisecond gives a greater ULID. |
| Store.LatestBatch | api/src/usecase.rs:121-129 | `None` iff there is no batch. Otherwise it is the greatest ULID (server) or the log row with the greatest `updated_at` (api). |
| Store.LastUpdatedAt | server/src/usecase.rs:152-166 | `None` iff there is no batch. Otherwise it is the latest batch's time, which no other batch's time exceeds. |
| Store.ActiveUsers | server/src/usecase.rs:126-150 | `None` iff there is no batch. Otherwise it is exactly the users with a membership row in the latest batch. |
| Store.UpsertUsers | server/src/usecase.rs:322-330 | A successful users upsert is the row-ordered upsert. It fails iff some row's pgrit id is held by another wallet in the table the earlier rows left, and the error names such a row. |
| Store.UpsertUsersKeepsUnique | migration/src/m20240410_000001_create_table.rs:21-24 | A successful users upsert keeps pgrit ids unique. |
| Store.UpsertChunks | server/src/usecase.rs:370-388 | The pix statements succeed iff no chunk's statement fails, and then they apply the concatenated chunks. |
| Store.NewBatchKey | api/src/usecase.rs:216-221 | The api's new log id is not a stored one. |
| Store.Insert | server/src/usecase.rs:285-395 | The transaction commits iff no executed statement fails, the users upsert keeps pgrit ids unique, and (api) `now` is not already a log time. |
| Store.InsertParts | api/src/usecase.rs:180-222 | A committed insert's tables, statement by statement: users and students are the row-ordered upserts, members gain the new batch's rows, the api's `refresh_log` gains the new key at `now` (the server's logs are unchanged), and pix is the chunked upsert. |
| Store.FirstDailyIndex | server/src/usecase.rs:307-317 | The first record reporting a wallet and day, by position. |
| Store.CommittedUser | server/src/usecase.rs:299-302 | After a commit every batch wallet holds the pgrit id of its last record. Other users keep theirs, and none is deleted. |
| Store.CommittedStudent | server/src/usecase.rs:331-355 | A wallet gets the whole row of its last complete record. Other student rows are kept. |
| Store.CommittedPix | server/src/usecase.rs:307-314 | A wallet and day gets the amount of the first record reporting it, replacing rather than adding. Other pix rows are kept. |
| Store.CommittedMembers | server/src/usecase.rs:303-306 | The new batch holds exactly the batch's wallets. No other batch changes. |
| Store.InsertPreservesValid | server/src/usecase.rs:299-355 | A committed insert keeps every clause of `Valid`. Only two are enforced by the schema, through `unique_key` on `pgrit_id` (migration/src/m20240410_000001_create_table.rs:23) and on `updated_at` (line 109): unique pgrit ids and (api) unique log times. The schema declares no foreign keys. The others hold because `insert` writes them together: student, member and pix rows belong to a user, every pix owner is in some batch, and (api) every batch is a log row. |
| Store.NewBatchIsLatest | api/src/usecase.rs:180-222 | A batch with a new greatest key (server) or latest time (api) becomes the latest batch. |
| Store.NewBatchQueries | server/src/usecase.rs:126-166 | After such a batch, `get_last_updated_at` reports its time and `active_users` reports exactly its wallets. |
| Store.EmptyBatch | server/src/usecase.rs:356-367 | An empty batch leaves the server's store unchanged, while the api still logs a batch with no members. |
| Profiles.RecentDates | server/src/usecase.rs:55-56 | `ORDER BY date DESC LIMIT n` returns min(n, total) dates, strictly descending. Each is later than every date left out. |
| Profiles.WindowMap | server/src/usecase.rs:51-77 | The `daily` map holds at most 28 of the user's dates, the latest ones, with their stored amounts. |
| Profiles.WindowKeepsLatest | server/src/usecase.rs:56 | A user with at most 28 rows has all of them in the profile. |
| Profiles.ComputeMetrics | server/src/usecase.rs:80-104 | `on_level = total - floor` never underflows. Below GrandMaster: `target` is the next tier's floor (this tier's bound), `level_length = target - floor`, `behind_next = target - total > 0`, `on_level + behind_next == level_length`, and progress is `on_level / level_length` in [0,1). All four options are `None` iff the tier is GrandMaster. |
| Profiles.RowsImplyBatch | server/src/usecase.rs:114 | In a valid store a user with pix rows implies a batch, so `get_last_updated_at(..).unwrap()` cannot panic. |
| Profiles.Profile | api/src/usecase.rs:41-119 | `None` iff no user with the pgrit id has pix rows. Otherwise: that user, its student row, the window's amounts and total, the metrics of that total, and the latest batch time. |
| Refresh.Fetch | server/src/usecase.rs:28-31 | `InvalidDateRange` iff `start >= end`, before any request. Otherwise the remote's answer. |
| Refresh.FullWindow | server/src/lib.rs:74 | The first-ever window spans `DAYS_COUNT` days ending today. |
| Refresh.FirstWindow | server/src/lib.rs:55-75 | The window ends today and is never inverted. Before the first batch it is the full window. Afterwards it starts the day after the last batch, but no later than yesterday. |
| Refresh.RefreshAsWritten | server/src/lib.rs:43-101 | Flag set: Busy with nothing changed. TooSoon iff the last batch is under 30 minutes old, and then the flag is cleared and nothing fetched. At most two fetches, neither inverted, the second always the full window. A commit clears the flag. A panic leaves the flag set and the store unchanged. |
| Refresh.Refresh | server/src/lib.rs:43-101 | The corrected task (see Findings): the same outcome, fetches and store as written, but a panic leaves the store unchanged and clears the flag, so the flag is clear afterwards whenever it was clear before. |
| Refresh.Handle | api/src/lib.rs:120-134 | "Already running" iff the flag is set. |
| Refresh.StartedRefreshIsNotBusy | server/src/lib.rs:192-204 | A refresh the handler spawns (flag clear) is never the Busy no-op, as written or corrected. |
| Refresh.FlagStuckAsWritten | server/src/lib.rs:78-100 | With the remote down, the first refresh panics and leaves the flag set, after which every refresh is Busy and the handler refuses forever. The corrected task leaves the flag clear. |
| Refresh.SingleRefetch | server/src/lib.rs:81-96 | The full window is re-fetched iff the fetched wallets differ from the latest batch's users. The re-fetched records are inserted without a second check. |
| Refresh.RefreshPreservesValid | server/src/lib.rs:96-98 | A refresh keeps the store's invariants. |
| Refresh.ApiRefreshIsNewest | api/src/lib.rs:39-44 | In the api snapshot a refresh past the rate limit is later than every stored batch. |
| Refresh.RefreshThenTooSoon | api/src/lib.rs:32-44 | Right after a committed newest batch, a refresh within 30 minutes of the insert time is turned away (1 ms less on the server, for the ULID's truncation). |
| Refresh.EmptyServerBatchLeavesNoTrace | server/src/lib.rs:96-98 | On the server a refresh that fetches no records leaves the store, and the latest batch time, as they were. |

## Left out

- PgnLevels.MinPix: `min_pix` is called by the use cases (server/src/usecase.rs:82 and 90) but is not defined in entity/src/pgn_level.rs beside `max_pix`. The model assumes it is 0 for Iron and the bound of the tier below otherwise, which is the floor `From<u32>` implies.
- `Grade::from_str` on the high-school and alumni branches is modelled as written. Every such input is rejected, because `H` and `OB` are not degrees; the model records this but does not guess an intended behaviour.
- RecordDates.DecodeOptionalDate: requires the byte offsets 4, 5, 7, 8 and 10 of a non-empty string to fall on character boundaries, because slicing there panics in the source. The RFC 3339 fallback (section 5.6 of RFC 3339) is an opaque parameter.
- RecordDates.DecodeDateMap: a daily key is read as exactly ten bytes `YYYY-MM-DD`. chrono's `parse_from_str(k, "%Y-%m-%d")` accepts more. It skips spaces before each number. It reads `%m` and `%d` as one or two digits and an unsigned `%Y` as one to four digits, so `2024-1-5` is 2024-01-05. A year with a `+` or `-` sign may have more digits. The model rejects these spellings: it assumes the remote sends zero-padded ten-byte keys.
- RecordDates.KeysAreCanonical: holds only for the ten-byte reader. Under chrono `2024-1-5` and `2024-01-05` decode to the same date, and `.collect()` keeps whichever the `HashMap` yields last.
- Profiles.Profile: requires the window's total to fit in `u32`, because `.sum()` overflows otherwise. It also requires a valid store: the pgrit id is unique by the schema, and a user with pix rows belongs to some batch only because `insert` writes them together.
- `progress` is an `f32` quotient in the source; `Profiles.ComputeMetrics` gives it as the exact ratio `on_level / level_length`.
- Refresh.RefreshAsWritten: the `unwrap()`s on the database reads (`get_last_updated_at`, `active_users`) are taken to succeed. `succ_opt().unwrap()` at the last representable date is not modelled.
- The server's local time zone is an arbitrary function from instants to day numbers, with no DST model. The api's UTC day is `t / 86_400_000_000_000`.
- The check-then-set of `RUNNING_REFRESH` is not atomic, so two handlers may both spawn a refresh. The model is sequential.
- Store.Insert: statement failures are an input set of stages. Database read failures and I/O are not modelled. A ULID's 48-bit millisecond field is taken never to overflow.
- The ULID's Crockford text is modelled as the number `millis · 2^80 + random`, whose order it shares. The api's auto-increment id is the greatest stored id plus one.
- `HashMap` iteration order: a record's daily rows are taken in an arbitrary order. Nothing proved depends on it, since a record has at most one amount per day.
- The student `grade` column is `u8` in the entity declaration but receives the grade's `u16`; the model keeps `u16`.
- The use cases build `PgnInfo`, while `entity/src/user_profile.rs` declares `PgnSubstract` with the same fields. `api/src/lib.rs` calls `fetch` with two arguments against a three-argument signature. The server use case reads and writes a `refreshed_users::Column::Ulid` column (server/src/usecase.rs:128, 143, 154 and 360), while entity/src/refreshed_users.rs declares `refresh_log_id`. The model follows the use cases.
- Out of scope:
  - OAuth sign-up and the Mastodon token store;
  - HTTP routing, sessions, middleware and static files;
  - URL building and JSON decoding;
  - the migration tooling (its two `unique_key` columns are the only invariants the schema enforces; the model's other invariants are kept by `insert`);
  - the TypeScript client;
  - the binary's start-up.

## Findings

| source | as written | input that shows it | evidently intended | confidence | as-written member | corrected member |
|---|---|---|---|---|---|---|
| entity/src/grade.rs:20-29 | the split index is a character position, from `chars().position`, but is used to slice at a byte offset | `学1`: the digit is character 1 but byte 3, so `&s[..1]` cuts `学` and panics | split at the first digit's byte offset, so a non-ASCII prefix is rejected as an invalid degree | high; not executed | GradeAsWritten.PanicsOnNonAsciiPrefix | Grades.SplitAlphaNumeric |
| server/src/lib.rs:78-100 | a failed fetch or insert is `unwrap()`ed, ending the task before `RUNNING_REFRESH` is cleared (api/src/lib.rs:59-79 does the same) | the remote is down during the first refresh | every exit of `refresh` clears the flag, as the TooSoon and success paths do | medium; not executed | Refresh.FlagStuckAsWritten | Refresh.Refresh |
