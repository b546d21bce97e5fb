# Verified models of time-series aggregation, policies, datasets, ingestion and scheduling

The project models six parts of the system and proves what each is for.

* **Time-series queries** (`Calendar`, `RangeSplit`, `Summaries`, `Overcounts`, `RollupTables`, `DayRollups`,
  `RepeatedSamples`, `Order`, `Aggregation`, `BucketTables`, `CountedRows`, `AggregateQueries`, `SeriesQueries`,
  `MultiQueries`, `SpoiltAnswers`, `Conservation`, `BucketValues`, `RawQueries`). An aggregate query cuts its range into whole UTC days or
  hours, read from tables the database maintains with triggers, and raw fringes, and merges both into calendar buckets.
  Instants are microseconds since the start of year 1, values are reals, and a table maps (series, instant) to a mergeable
  summary. The triggers are modelled too. They keep the hourly table exact in every run, and so queries by the hour return
  what aggregating every sample would return. The daily table they do not keep exact: an insert that both opens a new hour
  and updates an old hour of one day is counted twice there, until a later statement updates that day or deletes from it. `DayRollups` states exactly which days
  are wrong after a run, `RepeatedSamples` by which samples they are off, and `SpoiltAnswers` which answers that spoils:
  minima and maxima never, unfiltered counts always, sums and averages unless the repeated samples cancel out.
* **Policies** (`Text`, `LikePatterns`, `Policies`, `Coverage`, `AccessControl`, `Shadowing`, `DecisionCache`). SQL LIKE with escapes as a relation,
  the greedy matcher against it, coverage and shadowing against first-match evaluation, the list filter, and the cache in
  front of the evaluator. Coverage is sound for every resource that validation accepts, escapes included. It is exact for
  resources without wildcards and for those with one at their end alone, and too narrow for every other: the matcher
  answers no to some matches when a pattern continues after its last wildcard, and patterns with wildcards are compared by
  prefix only. That makes rejection weaker, not wrong.
* **MQTT ingestion** (`Topics`, `RegexTopics`, `RegexFragment`, `Subscriptions`). Topic matching as in
  section 4.7.1 of MQTT 3.1.1, and the derivation of a subscription from a regex. A regex that is not anchored at both ends
  is accepted, though its subscription then loses messages: `Subscriptions.LosesNothingIffAnchored` makes that exact. An
  expression with a # in a literal is accepted too; it finds no topic name, so its route takes none of the messages that
  its subscription brings.
* **The batching writer** (`Inserts`, `Flushes`, `WriterRuns`, `WriterProgress`, `WriterObject`). Producers, a bounded queue, the writer loop,
  its ticker and the database as steps that interleave in any order, and the writer object whose methods are those steps.
  A cancelled context is refused by the database connection, so the flush that ends the loop stores nothing.
* **The program cache** (`ProgramCache`). Refreshes as mark and sweep over objects that own cron entries.
* **Datasets and uploads** (`ObjectKeys`, `Datasets`, `Uploads`, `DatasetService`). Rows, part files and an object store
  that together behave like one map from ids to datasets. What every state keeps are the keys and checks of the tables;
  whether a record is true of its bytes, and whether a session is sound, is said of each one by itself, since a part
  number beyond int32 spoils its own session and no other.

`Wrappers` holds the option and result types. Where the source updates in place the model is a class or a method with
loops, proved against functions; what the source promises is proved of those functions. The steps of a trigger, of a
flush and of the ranked query are functions of the tables.

A method that can fail in the source because the database, the disk or the object store fails is modelled for the runs
in which they answer, except in the writer, the decision cache and the program refresh, where failures are inputs.

Where the comment of the part upload handler (`api/aapije/dataset.go:389`) speaks of parts of at most 5 MB, the API description
and the code ask for at least 5 MiB of every part but the last; the model follows the code.

## Model

| member | source | states |
|---|---|---|
| Calendar.DayOfDate | internal/services/timeseries.go:1312-1353 | Date and day number are inverse for every valid Gregorian date, before and after year 1, so the civil arithmetic the truncation rests on is a bijection. |
| Calendar.DateOfDay | internal/services/timeseries.go:1312-1353 | Every day number has a valid date that gives it back. |
| Calendar.MonthLengths | internal/services/timeseries.go:1340-1341 | From the first of any month to the first of the next are 31, 30, 28 or, in leap years, 29 days, as the Gregorian calendar has it in every year. |
| Calendar.DatesThereAre | internal/services/timeseries.go:1338-1343 | The valid dates, with the lengths of the months and the leap years in figures. |
| Calendar.DaysAndUnits | internal/services/timeseries.go:1312-1337 | Where the calendar is anchored: 1 January of year 1 is day 0, the Unix epoch is day 719162 and a Thursday, the days of the week follow each other, and days, hours, minutes and seconds are as long as they are. |
| Calendar.TruncateIsFloor | internal/services/timeseries.go:1312-1366 | For every precision and instant, truncation yields the greatest boundary of that precision not after the instant if and only if the year arithmetic rounds down there; it states boundaries declaratively (midnights, Mondays, firsts of months, January firsts of stride years, multiples of minutes). |
| Calendar.RoundsDownFromYearOne | internal/services/timeseries.go:1312-1353 | From year 1 on the condition of the floor theorem always holds; before it, decades, centuries and millennia round towards year 0. |
| Calendar.TruncateLaws | internal/services/timeseries.go:1312-1366 | From year 1 on truncation is idempotent, monotone and never after its input. |
| Calendar.ConstantOnDay | internal/services/timeseries.go:1312-1366 | Day, week, month, year, decade, century and millennia are constant on each UTC day. |
| Calendar.ThroughDay | internal/services/timeseries.go:1203-1216 | Truncating first to the day and then to a coarser precision is truncating to that precision at once, which is what lets daily rows stand for samples. |
| Calendar.ThroughHour | internal/services/timeseries.go:1203-1216 | The same for hours. |
| RangeSplit.SplitDailyRollupRanges | internal/services/timeseries.go:1229-1268 | Every microsecond instant of [start, end] lies in exactly one raw range or rollup bucket and no other instant does, every bucket used is a whole UTC day inside the range, and every whole day inside the range is used; nothing is covered if end < start. |
| RangeSplit.SplitHourlyRollupRanges | internal/services/timeseries.go:1274-1310 | The same for whole UTC hours. |
| Summaries.MergeSound | internal/services/timeseries.go:1111-1131 | Merging two (count, sum, min, max) summaries keeps min * count <= sum <= max * count. |
| Summaries.TotalUnion | internal/services/timeseries.go:1111-1131 | The summary of a disjoint union is the merge of the summaries, whatever the order of accumulation. |
| Summaries.RollUpUnion | internal/services/timeseries.go:862-883 | Rolling up two disjoint sets of entries separately and merging the tables is rolling up their union. |
| Summaries.RollUpOfMerged | internal/services/timeseries.go:862-883 | The same for entries with common keys: rolling up what two tables hold together is merging their rollups. |
| Summaries.RollUpCompose | internal/services/timeseries.go:694-747 | Rolling up a rollup along a coarser truncation is rolling up the samples along it. |
| Summaries.RollUpConserves | internal/services/timeseries.go:794-860 | The summary over all buckets is the summary over all samples. |
| RollupTables.InsertKeepsHourly | postgres/migrations/000016_create_tsdata_hourly_rollups.up.sql:92-121 | An insert keeps the hourly table equal to the rollup of all samples. |
| RollupTables.PointsAfter | internal/insamlare/writer.go:18-23 | The samples after a statement, key by key: an insert that ignores conflicts leaves what is there and adds the rest, one that does not is refused as a whole if it has a conflict and then changes no table, and a delete removes exactly its keys. |
| RollupTables.InsertIntoDaily | postgres/migrations/000018_create_tsdata_daily_rollups.up.sql:92-133 | What an insert makes of an exact daily table: the exact table plus a second copy of the samples in new hours of days where another hour was updated by the same statement, because PostgreSQL runs the update trigger of an upsert, which sees the new hours already, before its insert trigger. |
| RollupTables.InsertKeepsDailyIff | postgres/migrations/000018_create_tsdata_daily_rollups.up.sql:92-133 | An insert keeps both tables exact if and only if it does not open a new hour of a day while updating another hour of that day. |
| RollupTables.DeleteKeepsHourly | postgres/migrations/000016_create_tsdata_hourly_rollups.up.sql:16-48 | A delete keeps the hourly table exact. |
| RollupTables.DeleteKeepsExact | postgres/migrations/000018_create_tsdata_daily_rollups.up.sql:16-48 | A delete keeps both tables exact. |
| RollupTables.RunKeepsHourly | postgres/migrations/000016_create_tsdata_hourly_rollups.up.sql:117-133 | In every state reachable by inserts and deletes the hourly table is exact. |
| RollupTables.AlwaysExactIff | postgres/migrations/000018_create_tsdata_daily_rollups.up.sql:117-133 | Both tables stay exact throughout a run if and only if no insert of the run mixes old and new hours of one day. |
| DayRollups.InsertDayIff | postgres/migrations/000018_create_tsdata_daily_rollups.up.sql:50-121 | Whatever the daily table was: an insert that updates an hour of a day makes the day right if it opens no other hour of it and wrong if it does; an insert that does not leaves the day as right or wrong as it was. The row of a day is missing only if the day has no samples, its minimum and maximum stay right, and its count never falls short. |
| DayRollups.DeleteDayIff | postgres/migrations/000018_create_tsdata_daily_rollups.up.sql:16-48 | Whatever the daily table was: a delete makes the days it removes samples from right and leaves the others as they were. |
| DayRollups.RunDayIff | postgres/migrations/000018_create_tsdata_daily_rollups.up.sql:16-133 | After any run a day is right if and only if the last statement that updated an hour of it or deleted from it is not an insert that also opened one; otherwise its count is too high, and its bounds are right. |
| DayRollups.RunDaily | postgres/migrations/000018_create_tsdata_daily_rollups.up.sql:117-133 | After any run the daily table has a row for each day with samples and for no other, each with the right bounds and at least the right count. |
| RepeatedSamples.ReachableCountsAgain | postgres/migrations/000018_create_tsdata_daily_rollups.up.sql:16-133 | How far off: after any run the daily table is the rollup of all samples merged with the rollup of the samples of Again, which the run determines, all of them in the table, and with nothing else. |
| RepeatedSamples.LastDecides | postgres/migrations/000018_create_tsdata_daily_rollups.up.sql:16-133 | Which these are: on a day whose last deciding statement is an insert, the samples it put into hours it opened, so that the row of the day is the right one merged with their summary; after a delete from the day there are none. |
| RepeatedSamples.NeverDecided | postgres/migrations/000018_create_tsdata_daily_rollups.up.sql:16-133 | A day of which no hour was updated and nothing deleted is right. |
| DayRollups.BatchCountedTwice | postgres/migrations/000018_create_tsdata_daily_rollups.up.sql:50-121 | Two statements after which the row of a day counts four samples where there are three, and a third that repairs it. |
| Overcounts.RollUpAtLeast | postgres/migrations/000018_create_tsdata_daily_rollups.up.sql:92-115 | Rolling up summaries of which some count samples twice keeps bounds right and counts not too low, and gives the right table if and only if every summary was right. |
| AggregateQueries.ReachableIsReady | postgres/migrations/000016_create_tsdata_hourly_rollups.up.sql:117-133 | After any run of inserts and deletes the database is what every query asks for: the hourly table exact, the daily one at least right; and a day is right exactly if the last statement to update or delete in it opened no other hour of it. |
| Aggregation.GetTsDataRange | postgres/tsdata.sql.go:143-164 | The rows read enumerate exactly the samples of the series in the range, in some order. |
| Aggregation.GetRollupRange | postgres/tsdata.sql.go:93-113 | The rollup rows read enumerate exactly the buckets of the series in the range. |
| Aggregation.FoldedIsRollUp | internal/services/timeseries.go:794-860 | Accumulating entries one by one, in any order, gives the rollup of what they enumerate. |
| Aggregation.SliceOfRollUp | internal/services/timeseries.go:694-747 | In an exact rollup table the rows of the whole buckets of a range are the rollup of exactly the samples of those buckets. |
| Aggregation.RangesAndBuckets | internal/services/timeseries.go:694-747 | The raw ranges read exactly the samples of the range that lie in no whole bucket, and the rollup range exactly the rows of the whole buckets. |
| Aggregation.FastPathReads | internal/services/timeseries.go:862-883 | Whatever the rollup table holds, accumulating fringe samples and its rows groups exactly what was read. |
| Aggregation.FastPathIsExact | internal/services/timeseries.go:862-883 | Fringe samples and rows of an exact rollup table, truncated and merged, give the rollup of every sample of the range, for every precision the grain serves. |
| Aggregation.FastPathIsRightIff | internal/services/timeseries.go:862-883 | From a table that may count samples twice they give that rollup if and only if every row read is right. |
| BucketTables.BucketTable.Accumulate | internal/services/timeseries.go:1111-1159 | The bucket map after one accumulation is the table before merged with the one summary, and the key lists name each bucket once. |
| BucketTables.BucketTable.BuildRows | internal/services/timeseries.go:1073-1109 | The rows built are the filtered, converted values of the buckets of the series in increasing time, or the first error. |
| AggregateQueries.AccumulateData | internal/services/timeseries.go:794-860 | After the rows the table holds the fold of everything read, or the precision is unsupported and there was a row. |
| AggregateQueries.AccumulateRollups | internal/services/timeseries.go:862-883 | The same for rollup rows. |
| AggregateQueries.GetRawRanges | internal/services/timeseries.go:694-747 | The raw ranges together yield each of their samples once. |
| AggregateQueries.LoadAggregateSources | internal/services/timeseries.go:694-747 | The rows loaded for the fast path, folded, are the rollup of the samples of the fringe and the table rows of the whole days or hours. |
| SeriesQueries.AggregateSingleSourceRows | internal/services/timeseries.go:794-860 | The raw path returns the declarative result, including its error. |
| SeriesQueries.AggregateSingleSourceFromSources | internal/services/timeseries.go:862-883 | The fast path returns the same declarative result. |
| SeriesQueries.AnswerIsRightIff | internal/services/timeseries.go:643-662 | In every reachable state, for every range, precision, filter and conversion: the answer is that of the raw path whenever hours or nothing but samples are read, whenever the days read are right, and always for minima and maxima; for unfiltered counts it is that answer if and only if every whole day of the range is right. |
| CountedRows.SameBounds | internal/services/timeseries.go:1073-1109 | Minima and maxima do not show what was counted twice. |
| CountedRows.SameCountsIff | internal/services/timeseries.go:1073-1109 | Unfiltered counts show it always. |
| CountedRows.SameValuesIff | internal/services/timeseries.go:1073-1109 | Unfiltered rows agree if and only if the aggregates of all buckets do, for every aggregate and every injective conversion. |
| SeriesQueries.QuerySingleSourceAggregatedData | internal/services/timeseries.go:643-662 | The query returns the answer of AnswerIsRightIff, whatever order rows are read in: right from every reachable state but for days counted too high, and then exactly as said there. Buckets are those of UTC; a query in another zone, which uses no rollups, is bucketed in UTC here and in that zone by the source. |
| SpoiltAnswers.BucketsRead | internal/services/timeseries.go:694-747 | What a query by days or coarser buckets accumulates in every reachable state: the buckets of the samples of the range merged with those of the repeated samples in its whole days. |
| SpoiltAnswers.ReachableIsSpoiltByAgain | postgres/migrations/000016_create_tsdata_hourly_rollups.up.sql:117-133 | After any run of inserts and deletes the database is what the theorems about answers ask for, with the repeated samples the run determines. |
| SpoiltAnswers.SpoiltAnswerIff | internal/services/timeseries.go:643-662 | So an unfiltered answer from the daily table is the raw one if and only if in each bucket what is counted twice is harmless: for a sum it sums to zero, for an average it averages to what the bucket does, for a count there is none of it; minima and maxima are always right. |
| SeriesQueries.WrongCount | internal/services/timeseries.go:643-662 | After the two statements of BatchCountedTwice a count of the day returns four, and three without rollups. |
| SeriesQueries.RawSingleSourceRows | internal/services/timeseries.go:518-541 | The loop fails exactly if some value does not convert, and otherwise finds the converted values within the bounds, each once. |
| SeriesQueries.QuerySingleSourceData | internal/services/timeseries.go:466-559 | Aggregated or not. The raw branch returns the samples of the range whose converted values pass the filter, each once; an error exactly if a value does not convert, or nothing is left and the series does not exist, or more than a positive limit is left. The aggregate branch is the aggregate query with the same two last errors. |
| MultiQueries.VisitSeries | internal/services/timeseries.go:1037-1068 | One series of the loop over the map: the verdict so far is that of the series visited. |
| MultiQueries.BuildMultiSourceResult | internal/services/timeseries.go:1037-1071 | For every iteration order of the map the result is the same: an error for an unsupported aggregate, else an error if and only if a series or the total exceeds an enabled limit, else all rows of all series. |
| MultiQueries.AggregateMultiSourceRows | internal/services/timeseries.go:938-1014 | The raw path of many series returns the declarative result. |
| MultiQueries.AggregateMultiSourceFromSources | internal/services/timeseries.go:1016-1071 | The fast path of many series returns the same result. |
| MultiQueries.MultiAnswerIsRightIff | internal/services/timeseries.go:664-683 | The same for many series: right days give the raw answer, minima and maxima are always right, and unfiltered counts within the limits are right if and only if the days read are. |
| MultiQueries.QueryMultiSourceAggregatedData | internal/services/timeseries.go:664-683 | As for one series, from every reachable state, with buckets of UTC; row order and iteration order change nothing. |
| SpoiltAnswers.SpoiltMultiAnswerIff | internal/services/timeseries.go:664-683 | The condition of SpoiltAnswerIff for many series, unless a limit is exceeded, which repeated samples do not change. |
| MultiQueries.LimitExceeded | internal/services/timeseries.go:1168-1176 | Stopping early is sound: a limit exceeded by some of the series is exceeded by all of them. |
| Conservation.BucketsConserve | internal/services/timeseries.go:794-860 | Over all buckets the counts sum to the number of samples and the sums to their total, and every bucket is sound. |
| Conservation.AverageIsBetween | internal/services/timeseries.go:1178-1196 | The average of every bucket lies between its minimum and its maximum. |
| BucketValues.RowsAreAggregates | internal/services/timeseries.go:1073-1109 | What an aggregate query returns, said of the samples without buckets: rows are strictly increasing in time, and a row is there if and only if samples of the series are truncated to its time and its value is their aggregate, converted, provided it passes the filter. The aggregate is, for a minimum, the value of one of these samples that none of them is below; for a maximum the same the other way round; for a count how many they are; for a sum the sum of their values; for an average the number that times their count is that sum. |
| BucketValues.PlainRows | internal/services/timeseries.go:1178-1196 | Without filter and conversion there is one row for each time that samples are truncated to, with that aggregate, and the query does not fail. |
| BucketValues.AnswerFailsIff | internal/services/timeseries.go:1073-1109 | The query fails if and only if the precision is unknown and there is a sample, or samples of the series have an aggregate that is unknown or does not convert; and which of these errors it is. |
| BucketValues.MultiRowsAreAggregates | internal/services/timeseries.go:938-1071 | For many series: the mapping has exactly the series with such rows, each with exactly these. |
| Conservation.CountsAndSumsAddUp | internal/services/timeseries.go:1073-1131 | Without value filters the rows of a count query add up to the number of samples, and those of a sum query to their sum. |
| RawQueries.FiltersAgreeIff | internal/services/timeseries.go:39-70 | The SQL filter and the filter in the loop agree on every value if and only if the two bounds are not both set with the upper below the lower. |
| RawQueries.TotalRowNumMeaning | postgres/tsdata.sql.go:270-294 | The total row number is the number of rows not after the row in query order. |
| RawQueries.SeriesRowNumMeaning | postgres/tsdata.sql.go:270-294 | The series row number is the number of rows of the series not after the row. |
| RawQueries.StreamedVerdict | internal/services/timeseries.go:914-936 | Streaming over all filtered rows stops with an error exactly if some enabled limit is exceeded in the end. |
| RawQueries.FirstExceeded | internal/services/timeseries.go:914-936 | Which limit is told: the first row that exceeds one decides, and at that row the limit of a series comes before that of all. |
| RawQueries.AppendRawMultiSourceLimitedRows | internal/services/timeseries.go:914-936 | Over the rows of the ranked query, fetched up to one past each limit, the loop gives the verdict and the mapping it would give over all filtered rows. |
| RawQueries.QueryLimited | internal/services/timeseries.go:588-605 | The limited branch fails exactly if the filtered data exceeds a limit and otherwise returns all of it, for every mix of enabled and disabled limits; the limit it tells is exceeded. |
| RawQueries.AppendRawMultiSourceRows | internal/services/timeseries.go:885-912 | The unlimited loop groups and sorts exactly the rows its filter keeps. |
| RawQueries.QueryUnlimited | internal/services/timeseries.go:606-618 | The branch without limits returns all filtered data. |
| RawQueries.QueryMultiSourceData | internal/services/timeseries.go:575-619 | Unless the value bounds cross, both branches answer the same question exactly. |
| Text.SpaceCharacters | internal/services/policy_validation.go:35-37 | White space is that of Unicode, in code points. |
| LikePatterns.MatchByScanning | internal/services/policy_validation.go:128-157 | The loop over the parts of a pattern accepts exactly when its specification does. |
| LikePatterns.MatchImpliesLike | internal/services/policy_validation.go:128-157 | For patterns without backslash a positive answer implies LIKE. |
| LikePatterns.LikeImpliesMatch | internal/services/policy_validation.go:128-157 | For patterns without _ and backslash that end in a wildcard or have none, LIKE implies a positive answer: taking the leftmost occurrence never loses a match. |
| LikePatterns.MatcherExactIff | internal/services/policy_validation.go:128-157 | For patterns without _ and backslash the matcher decides LIKE on every resource if and only if the pattern ends in a wildcard or has none. |
| LikePatterns.Missed | internal/services/policy_validation.go:149-156 | For every other such pattern, resources that LIKE matches and the matcher does not, one for each character to stand for the wildcards. |
| LikePatterns.MatcherMisses | internal/services/policy_validation.go:149-156 | A concrete pattern and resource of that kind. |
| LikePatterns.LikeByCharacters | postgres/access.sql.go:15-38 | LIKE itself, without % and backslash: same length, and at each position _ or the same character. |
| LikePatterns.LikeOfPercent | postgres/access.sql.go:15-38 | LIKE itself, at a wildcard that is not escaped: what stands before it matches a beginning and what follows it an end that does not overlap. |
| LikePatterns.EscapedIsLiteral | postgres/access.sql.go:15-38 | LIKE itself, with backslashes: a text with every character escaped matches itself and nothing else. |
| Policies.ValidatePolicyResource | internal/services/policy_validation.go:27-54 | Accepts exactly the resources made of non-empty segments without white space in which a wildcard stands alone. |
| Policies.CoverageIsSound | internal/services/policy_validation.go:108-126 | For every validated pattern, escapes and wildcards included: what a covered pattern matches under LIKE, the covering one matches. |
| Policies.EscapedWildcardCoversTooMuch | internal/services/policy_validation.go:108-126 | Validation is needed: an escaped wildcard would cover a pattern whose matches it does not have. |
| Coverage.CoverageIsExact | internal/services/policy_validation.go:108-126 | Coverage is matching: for resources without _ and backslash, the covering one covers the other if and only if LIKE matches with it whatever LIKE matches with the other, when it has no wildcard, or one at its end alone, or ends in one and the other has none; and every resource covers itself. |
| Coverage.CoverageExactIff | internal/services/policy_validation.go:108-126 | For no other resource is that so: it is exact against all resources without _ and backslash if and only if it has no wildcard or one at its end alone, and every other misses one that it could cover. |
| Coverage.PlainCoverageExactIff | internal/services/policy_validation.go:108-126 | Against resources without wildcards it is exact if and only if the covering one ends in a wildcard or has none. |
| Coverage.TextDecides | internal/services/policy_validation.go:120-123 | Why comparing the texts of two patterns can decide it: all that a pattern matches is matched by another if and only if its text is. |
| AccessControl.FirstMatchExists | postgres/access.sql.go:118-135 | If a policy applies there is a first one. |
| AccessControl.FirstMatchesAgree | postgres/access.sql.go:118-135 | All policies the ordered query may return first have the same effect, so the decision does not depend on how ties are broken. |
| AccessControl.AccessMeaning | postgres/access.sql.go:15-38 | Access is granted exactly if some allow applies and no deny of the same or an earlier priority does. |
| AccessControl.ShadowedDecidesNothing | internal/services/policy_validation.go:89-106 | Adding a shadowed rule to any policies that contain the shadowing one changes no user's decision on any resource, rules whose resource ends in a lone escape excepted: PostgreSQL refuses those as patterns, and here they match nothing. |
| AccessControl.ValidatePolicyRule | internal/services/policy_validation.go:64-87 | Rejects exactly rules of negative priority, else those of bad shape, else those that a rule of the group and action shadows, and names the first of these. |
| AccessControl.RejectionIsHarmless | internal/services/policy_validation.go:64-87 | A rule rejected as shadowed would have changed no decision, rules whose resource ends in a lone escape excepted: PostgreSQL refuses those as patterns, and here they match nothing. |
| Shadowing.RejectsIff | internal/services/policy_validation.go:89-106 | Where coverage is exact: an existing rule of the group rejects a new one if and only if no decision of any database that has the first changes when the second is added; that is, it has its action, matches all that it matches, and comes earlier, or at the same priority denies or has the same effect. |
| Shadowing.OpposingDecides | internal/services/policy_validation.go:89-106 | Otherwise a database in which the new rule decides: one user, the existing rule, and an opposite rule right behind the new one. |
| AccessControl.ListedIff | postgres/datasets.sql.go:299-316 | A dataset passes the list filter exactly if an allow applies and no deny does; then the evaluator allows it, and it hides an allowed dataset exactly if a deny applies behind the deciding allow. |
| DecisionCache.CacheKeyInjective | internal/services/policy_check.go:91-93 | Equal keys mean equal token, action and resource, for one token or NUL-free tokens, whatever the resources contain. |
| DecisionCache.CacheKeyCollides | internal/services/policy_check.go:91-93 | With a NUL in a token, keys of two tokens can be equal; one cache serves one request with one token, for which they are not. |
| DecisionCache.KeysMeetIff | internal/services/policy_check.go:91-93 | Keys of two tokens can meet if and only if token and action of one, each with its NUL, start those of the other. |
| DecisionCache.ExplainOne | postgres/access.sql.go:95-136 | The row for one resource is a first match if a policy applies, and a denial without policy if none does. |
| DecisionCache.ExplainUserTokenAccessMany | postgres/access.sql.go:95-136 | One row for each resource of a known token, and none for an unknown one. |
| DecisionCache.DedupeStrings | internal/services/policy_check.go:218-230 | Each string once, none lost, in lexicographic order. |
| DecisionCache.LessIsLexicographic | internal/services/policy_check.go:218-230 | The order of the list: a proper prefix comes first, and otherwise the first character that differs decides. |
| DecisionCache.PolicyDecisionCache.StoreMany | internal/services/policy_check.go:74-89 | Stores each answer under its key, touches no other entry, and keeps every cached decision right. |
| DecisionCache.ExplainUserAccessMany | internal/services/policy_check.go:139-216 | From any cache reachable under the policies: position by position and with duplicates the answers are those of the policies, unknown tokens are denied, entries never change, and a failed query, which happens only if something was not cached, leaves the cache as it was. |
| DecisionCache.UserHasManyAccess | internal/services/policy_check.go:104-121 | True exactly if the list is not empty and every resource is allowed. |
| DecisionCache.ValidForOtherTokens | internal/services/policy_check.go:62-93 | A cache that is right for one NUL-free token is right for all of them. |
| Topics.NewWildcardMatcher | internal/insamlare/route.go:126-141 | Accepts exactly the filters of section 4.7.1 of MQTT 3.1.1, stated on characters. |
| Topics.WildcardMatcher.Match | internal/insamlare/route.go:143-168 | Matches exactly level by level; on success there is one capture for each +, and the pattern with the captures filled in is the topic, up to a final #. |
| Topics.LevelsMatchIsMatches | internal/insamlare/route.go:143-168 | Level by level matching is the character by character rule of the standard, the parent level of a # included. |
| Topics.FilterLevels | internal/insamlare/route.go:126-141 | The segment-wise check of a filter is the character-wise one. |
| Topics.MatchTopic | internal/insamlare/route.go:126-168 | Compiling and matching: refused exactly if malformed, matched exactly if the standard says so. |
| RegexTopics.SplitRegexPath | internal/insamlare/config.go:238-275 | Fails exactly on a dangling escape or an unterminated class, in that order, and otherwise yields the segments. |
| RegexTopics.SegmentsJoin | internal/insamlare/config.go:238-275 | The segments joined by separators are the expression. |
| RegexTopics.CutsAreMeetings | internal/insamlare/config.go:238-275 | Segments meet at exactly the separators that are neither escaped nor in a class. |
| RegexTopics.DeriveSubscriptionTopicFromRegex | internal/insamlare/config.go:205-236 | Succeeds exactly on the accepted expressions, with the filter that has + for each capture; otherwise tells which condition fails first. |
| RegexTopics.ValidSubscriptionIff | internal/insamlare/config.go:192-203 | A topic to subscribe to passes exactly if it has something but white space in it and no # before its last character. |
| Text.TrimmedStretch | internal/insamlare/config.go:205-208 | Trimming leaves exactly the stretch from the first to the last character that is no white space. |
| RegexFragment.RunCut | internal/insamlare/config.go:277-288 | A run of a concatenation splits into runs of its parts, the basis of reading a regex segment by segment; RunJoin is its inverse. |
| RegexFragment.RunJoin | internal/insamlare/config.go:277-288 | Runs of two parts that meet make a run of their concatenation. |
| RegexFragment.ParseAppend | internal/insamlare/config.go:277-288 | The regex of a concatenation is the concatenation of the regexes, so the cutting at separators respects the regex. |
| Subscriptions.BodyRun | internal/insamlare/config.go:205-236 | The body of an accepted regex takes exactly the texts whose levels its segments take one by one. |
| Subscriptions.CapturesTake | internal/insamlare/config.go:281-288 | What a segment takes: itself if it has no special character, any level if it is one of the six forms of a capture, the empty level only if that ends in a star. |
| Subscriptions.FindsMeaning | internal/insamlare/config.go:205-236 | An accepted regex finds a topic exactly if its body takes some stretch of it, placed as anchors and surrounding white space demand. |
| Subscriptions.DerivedIsWellFormedIff | internal/insamlare/config.go:192-236 | The derived subscription is a filter a broker accepts exactly if no literal has a # in it, save a last segment that is # alone. |
| Subscriptions.NothingIsLost | internal/insamlare/config.go:205-236 | Every topic an anchored regex finds is matched by its derived filter. |
| Subscriptions.ExactDifference | internal/insamlare/config.go:205-236 | For a regex with both anchors and no # the two differ exactly on topics with an empty level where the regex asks for at least one character. |
| Subscriptions.LosesNothingIffAnchored | internal/insamlare/config.go:205-236 | Over topic names, which have no wildcard characters: a derived subscription loses no message the regex would take if and only if the regex is anchored at both ends, or cut off from an end so that it finds nothing, or has a # in a literal. |
| Subscriptions.HashFindsNothing | internal/insamlare/config.go:205-236 | In the last case it takes no message at all: a final # is a wildcard to the broker and a character to the regex, so the subscription brings messages and the route refuses each. |
| Inserts.InsertCounts | internal/insamlare/writer.go:18-23 | An insert that skips conflicts adds at most one row for each point, and exactly one for each if and only if no two keys meet. |
| Inserts.FirstIsStored | internal/insamlare/writer.go:18-23 | A row that is there stays, and otherwise the first point of a key is its row. |
| Inserts.InsertBySeries | internal/insamlare/writer.go:90-135 | The row at a key depends only on the points of its series, in their order. |
| Inserts.GroupsHoldAll | internal/insamlare/writer.go:118-125 | Grouping by series neither loses nor doubles a point. |
| Flushes.GroupsAreKnown | internal/insamlare/writer.go:138-141 | Groups of buffered points are never empty, so in every reachable state a flush makes one statement for each of them. |
| Flushes.FlushOnlyAdds | internal/insamlare/writer.go:137-162 | A flush, failed or not, changes no row that was there and adds only buffered points. |
| Flushes.FlushStoresInOrder | internal/insamlare/writer.go:137-162 | A flush that succeeds stores what row by row inserts in order of arrival would have stored, for every iteration order of the map. |
| Flushes.FlushCounts | internal/insamlare/writer.go:137-162 | Inserted and failed points of a flush never exceed the points buffered, and equal them if and only if nothing failed but the last series, counted, and no stored row conflicted. |
| Flushes.FlushCounters | internal/insamlare/writer.go:137-162 | Inserted counts are rows that were added, all of them if the flush succeeds, and each flush counts as a success or as at most one failure. |
| Flushes.FlushStopsAt | internal/insamlare/writer.go:137-162 | A flush that fails is that of the groups before the failure, and then: if encoding or statement failed, that group is not stored, its points count as failed and one failed flush is counted; if only the count could not be read, it is stored and nothing is counted. |
| WriterRuns.StepKeepsGood | internal/insamlare/writer.go:78-135 | Every step of a producer, the writer or the ticker keeps the invariant. |
| WriterRuns.RunKeepsGood | internal/insamlare/writer.go:78-162 | Every state of every interleaving has it: the buffer is the pending points grouped in order and short of a batch, every point taken is pending or in exactly one flush, producers keep their order, counters are bounded, and the table is exact while every flush succeeded. |
| WriterRuns.PointsAreConserved | internal/insamlare/writer.go:78-135 | What was sent is what was flushed, then what is buffered, then what is queued, in this order. |
| WriterRuns.SuccessfulRunStoresAll | internal/insamlare/writer.go:90-162 | If every flush succeeded the table is the base with all points inserted in order, and all points tried are counted if and only if no keys met. |
| WriterRuns.NothingStoredAfterCancel | internal/insamlare/writer.go:116-117 | Once the context is cancelled nothing more is stored: the final table, after the last flush of the loop included, is that of the flushes before, and no point then buffered, queued or unsent gets a row. |
| WriterProgress.NothingIsStuck | internal/insamlare/writer.go:78-135 | From every state of every run that is not cancelled the run can be completed: all producers return having sent all they were given, everything sent is flushed, and if no flush has failed so far the table has it all, in the order it was sent. |
| WriterProgress.CancelledLoopEnds | internal/insamlare/writer.go:116-117 | A cancelled loop can always end, whatever is buffered, by a last flush that is refused and stores nothing. |
| WriterObject.Writer.FlushGroups | internal/insamlare/writer.go:137-162 | The loop over the groups has exactly the effect of its specification on table and counters. |
| WriterObject.Writer.FlushBuffer | internal/insamlare/writer.go:97-112 | The flush of the object is that of its specification, and failed or not it empties the buffer. |
| WriterObject.Writer.SendPoint | internal/insamlare/writer.go:78-88 | Keeps the invariant of RunKeepsGood: the point is last in the queue, within its bound, what its producer has sent stays a prefix of what it was given, and nothing of any other producer moves. |
| WriterObject.Writer.CountPoint | internal/insamlare/writer.go:78-88 | Keeps the invariant: the counter and the producers that have not counted yet together are the number of points sent. |
| WriterObject.Writer.ReceivePoint | internal/insamlare/writer.go:122-133 | Keeps the invariant: the first point of the queue becomes the last one pending and the table stays as it is, unless that makes a batch of exactly the batch size, which is tried at once, adds only its own points, all of them in order if the flush succeeds, and leaves the buffer empty. |
| WriterObject.Writer.TickerFires | internal/insamlare/writer.go:118-121 | Keeps the invariant: with nothing pending nothing changes; otherwise what is pending is tried, and is in the table in order if the flush succeeds. |
| WriterObject.Writer.StopRun | internal/insamlare/writer.go:116-117 | Keeps the invariant: the last flush empties the buffer and, its context being cancelled, stores nothing of it; the loop ends. |
| ProgramCache.GetIdInjective | api/juvuln/program_revisions.go:137-139 | Ids of different program revisions differ, whatever the domain is called. |
| ProgramCache.EqualsIsEquality | api/juvuln/program_revisions.go:66-76 | Programs under one id are equal for the cache if and only if they are equal in every field, the revision included, which the comparison leaves out. |
| ProgramCache.Cron.AddFunc | api/juvuln/program_revisions.go:78-88 | A schedule that parses gets a fresh positive id and an entry, another one the id 0 and none. |
| ProgramCache.ProgramRevision.Start | api/juvuln/program_revisions.go:78-88 | A routine whose schedule parses gets an entry with its schedule, under the id it remembers; anything else gets none. |
| ProgramCache.ProgramRevision.Stop | api/juvuln/program_revisions.go:129-135 | Only the routine's own entry goes. |
| ProgramCache.StopOne | api/juvuln/program_cache.go:33-36 | Taking one program out and stopping it leaves entries and cached routines matched. |
| ProgramCache.StartOne | api/juvuln/program_cache.go:39-43 | So does starting a new one. |
| ProgramCache.Cache.Begin | api/juvuln/program_cache.go:46-55 | Every cached id is marked. |
| ProgramCache.Cache.Add | api/juvuln/program_cache.go:19-44 | The id is unmarked; a program equal in every field keeps its object and its entry; otherwise the new object takes its place; the live entries stay exactly those of cached routines. |
| ProgramCache.Cache.Commit | api/juvuln/program_cache.go:57-69 | Exactly the marked programs go, with their entries. |
| ProgramCache.UpdateProgramCache | api/juvuln/api.go:165-205 | A refresh that sees all databases leaves exactly the programs listed, each equal to the last one listed under its id, and those listed only as they were keep their object; one that fails adds what it saw and removes nothing. |
| ObjectKeys.ContentKeyIsOwn | internal/services/dataset_storage.go:126-174 | Whatever prefix and domain are configured, path cleaning included, the content key of a dataset ends in its own id and "content". |
| ObjectKeys.ContentKeyIs | internal/services/dataset_storage.go:126-174 | With a prefix of one segment or none the key is prefix, or datasets, then the domain if there is one, then the id, then content. |
| ObjectKeys.CleanDots | internal/services/dataset_storage.go:126-174 | What cleaning a path does to empty segments and dots. |
| ObjectKeys.KeysAreDistinct | internal/services/dataset_storage.go:162-174 | Such keys of different datasets differ. |
| Datasets.OtherDatasetsUntouched | internal/services/dataset.go:374-470 | Storing or deleting an object of one dataset changes no other dataset. |
| Datasets.StoreBytes | internal/services/dataset.go:374-470 | New bytes for a dataset, inline or as an object, with the object they replace deleted: its record is true, every other record is as true or false as it was, objects stay under their datasets' keys, and the catalogue changes in that dataset alone. |
| Datasets.RemoveDataset | internal/services/dataset.go:473-493 | Without its row a dataset may lose its object; no other dataset notices. |
| DatasetService.Service.AddDataset | internal/services/dataset.go:78-137 | Fails exactly if there is no store and the content does not fit the column, and then changes nothing; otherwise adds one dataset to the catalogue, its bytes in the store if there is one and there are any, else in its row, with a true record, and leaves the records of all others as they were. |
| DatasetService.Service.GetDatasetContentByUuid | internal/services/dataset.go:317-350 | From any state: succeeds exactly if the bytes are there, and returns them. If the record is true the checksum is theirs, and the size is if and only if they are inline or below 2 GiB. |
| DatasetService.Service.UpdateDatasetByUuid | internal/services/dataset.go:360-471 | Fails exactly if there is no such dataset, or there is no store and new content does not fit the column. Success is the update of one dataset in the catalogue; a metadata update touches no object; a content update puts the bytes where AddDataset would, deletes the object they replace, and nothing else, and makes the record true, even one that was not; every other record is as it was, so that runs of successes keep all records true; failure leaves every dataset as it was. |
| DatasetService.Service.DeleteDataset | internal/services/dataset.go:473-493 | Removes the dataset, its sessions and its object, and nothing else. |
| DatasetService.Service.CreateUpload | internal/services/dataset_upload.go:71-121 | A session for an existing dataset, at the store if there is one; it starts sound and every other session is as sound as it was. |
| DatasetService.Service.ReadUploadBody | internal/services/dataset_upload.go:420-441 | Accepts a body exactly if it is within the limit and has the digest expected. |
| DatasetService.Service.UploadPart | internal/services/dataset_upload.go:123-176 | From any state: accepts exactly what is for a session of the dataset, within the limit, of the digest expected, and not refused by the store (its multipart upload is gone or the int32 number below 1) or by the checks of the table, and says which of these it was; the store has the part before the table is asked. An accepted body is recorded as the part of its int32 number, no other session becomes more or less sound, and this one stays sound exactly if PartInPlace: the number is an int32, or the store keeps the part, or the file of the row is missing or happens to be right. A refused part changes no row; the file under its number, be it of an earlier accepted body, is lost exactly if the part goes to disk and the checks of the table refuse it. |
| DatasetService.Service.CancelUpload | internal/services/dataset_upload.go:205-235 | Ends exactly one session, sound or not, and leaves every other as sound as it was. |
| DatasetService.Service.CheckParts | internal/services/dataset_upload.go:252-264 | Passes exactly the sessions with parts 1 to n, all but the last of at least 5 MiB, and otherwise tells the first fault: no parts, a number missing that others follow, or a part too small for others to follow. |
| DatasetService.Service.AssembleInlineUpload | internal/services/dataset_upload.go:370-418 | Succeeds exactly if all files are there, their total is within the limit and the digest is the one expected, with their concatenation; otherwise the limit, if the files up to one exceed it, comes before a missing file, and that before the digest. |
| DatasetService.Service.AssembleUpload | internal/services/dataset_upload.go:237-368 | From any state: succeeds if and only if the session is of the dataset, has parts 1 to n, all but the last large enough, what is stored for them is all there and of the digest expected, and, when inline, it is within the total limit and what the column holds, or, at the store, the store still has each part under its ETag; otherwise it says which of these failed. Success makes the dataset the concatenation of what is stored for parts 1 to n, kept where the session put it, with the object it replaces deleted; if the session is sound these are the bodies last accepted, all but the last at least 5 MiB. The session is gone, every other is as sound and every other record as true as it was. Failure changes no row and no session; only a digest refused after the store has put the parts together leaves a trace, the object under the session's key and an ended multipart upload; the dataset notices exactly if its row refers to that key, and then it has the new bytes. |
| Uploads.DigestOkIff | internal/services/dataset_upload.go:436-440 | A digest passes exactly if none is expected or it is the one expected but for the case of letters. |
| Uploads.PartKeepsSessionsIff | internal/services/dataset_upload.go:157-175 | An accepted part leaves every other session as sound as it was, and keeps its own sound if and only if its body is in place. |
| Uploads.EndDataset | internal/services/dataset.go:473-493 | With a dataset its sessions and their parts go, and every other session is as sound as it was. |
| Uploads.WrappedPartIsLost | internal/services/dataset_upload.go:165-168 | A part number beyond int32 that overwrites the record of part 1 but not its file. |
| Uploads.AcceptedParts | internal/services/dataset_upload.go:252-264 | In a sound session part files and ETags stand for the accepted bodies, which have at least the sizes recorded. |

## Left out

- Zones other than UTC: rollups are disabled there, and the calendar is UTC only; the session zone of the triggers is taken to be UTC.
- Floating point: sums and averages are reals, without rounding, NaN or float32 narrowing.
- Unit conversion is a partial function given with the query; looking units up is not part of the model.
- Bounds finer than a microsecond: the database stores microseconds.
- The two maps of the multi-series aggregation, by series and then by bucket, are one map keyed by both; buckets are values in it, not shared objects.
- Arranging the mapping of the multi-series query by the order of the requested ids would add easy members only.
- Updates of samples in place, and deleting a series with its samples: no statement of the services updates samples.
- Error texts: limits share one error in the aggregate queries, and messages are not modelled.
- Tokens stand for their SHA-256 hashes, which are taken to identify them.
- Characters stand for bytes and runes alike; invalid UTF-8 is not modelled.
- A LIKE pattern that ends in a lone escape is an error in PostgreSQL and matches nothing here.
- The `$` rule of section 4.7.2 and the length rule of section 4.7.3 of MQTT 3.1.1, which the matcher does not implement.
- Regexes beyond literals, single-level captures and anchors: nothing else can be derived from. Capture templates are left out.
- WriterRuns: counters do not wrap at 64 bits; the writer's time is the order of its steps; the `created_by` column is left out.
- Program execution, worker selection, and looking up modules by name.
- Refreshes that overlap: the source runs them one at a time.
- Dataset sizes, owners, creation times and the policies created with a dataset; the thing a dataset belongs to is not checked to exist.
- The percent-encoding of domains in object keys: a domain comes in its encoded form, of which nothing is assumed.
- Inline content beyond what a bytea column holds is refused by the database; no other failure of database, disk or store is modelled for datasets.
- DatasetService.Service.UploadPart: the store's own limits on part numbers above 1 and part sizes are not modelled.
- An ETag is taken to identify the body it was returned for.
- Changing the storage configuration while a session is open: rows and objects of earlier configurations are covered, sessions are not.
- HTTP handlers, generated code, configuration loading, logging and the clients of MQTT, S3 and PostgreSQL.
