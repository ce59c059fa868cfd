# GitHub trending analytics: result cache and query service

This project is a Dafny model of the analytics query layer of the GitHub
trending archive. It covers two parts, with proofs.

- **The result cache** (`py/gh_trending_analytics/cache.py`). This is a bounded
  LRU cache with per-entry expiry and usage counters. It is modelled
  imperatively as the class `Cache.ResultCache`. Its fields are:
  - a recency `order` of keys, least recently used first;
  - a key-to-entry `data` map;
  - a `CacheStats` object that the methods update in place.

  The wall clock becomes an explicit integer `now` parameter.
- **The query service** (`py/gh_trending_analytics/query.py`). It has three layers:
  - Request validation: supported kinds and presences, date parsing, manifest
    look-ups, and language checks, each failing with `InvalidRequest` or
    `NotFound`.
  - Six public queries: `get_day`, `top_reappearing`, `top_owners`,
    `top_languages`, `top_newcomers` and `top_streaks`.
  - The SQL each query runs against the raw trend-entry tables. It is
    modelled as pure functions over a sequence of `Entry` rows: a `WHERE`
    filter, a `GROUP BY` with `COUNT(*)`, `COUNT(DISTINCT ...)` and `MIN(...)`,
    the gaps-and-islands streak computation, and `ORDER BY ... LIMIT`.

Modules:

| module | file | content |
|---|---|---|
| `Prelude` | prelude.dfy | `Option`, `NoDuplicates`, `Min` |
| `Cache` | cache.dfy | `CacheEntry`, `CacheStats`, `ResultCache`, and the eviction order as a function |
| `Validation` | validation.dfy | kinds, presences, manifest, date and language checks, `list_dates`, `list_languages` |
| `Ordering` | ordering.dfy | the sort keys of the `ORDER BY` clauses, a selection sort `OrderLimit`, and its top-k specification |
| `Grouping` | grouping.dfy | `GROUP BY` with the aggregates |
| `Streaks` | streaks.dfy | runs of consecutive dates and the longest run of an identity |
| `Queries` | queries.dfy | the raw-table query of each public operation |
| `Service` | service.dfy | the public operations: checks in source order, then the rollup or the raw path |

What the proofs establish:

- **The cache.**
  - Every stored key appears exactly once in the recency order.
  - A hit moves its key to the most-recent end.
  - An expired entry is dropped and counted.
  - After `set`, the order is the old order with the key moved to the end,
    minus the least recent keys that do not fit.
  - The eviction counter rises by exactly the number of keys dropped.
- **The queries.** Every ranked query returns the first `limit` rows of its
  groups in the order of its `ORDER BY`. Each row is the aggregate the SQL
  defines:
  - distinct dates or occurrences, and the best rank (`top_reappearing`);
  - distinct repositories per owner (`top_owners`);
  - entries per language, with the all-kinds count being the sum over the two
    tables (`top_languages`);
  - first appearance over the whole filtered log, inside the window
    (`top_newcomers`);
  - the longest run of consecutive dates, the later run winning a tie, with
    the best rank within it (`top_streaks`).
- **The service.**
  - The error each operation raises is stated exactly.
  - A rollup read that fails gives the same answer as the raw path.
  - A language filter, or occurrence counting, always reads the raw tables.

## Model

| member | source | states |
|---|---|---|
| `Cache.CacheStats.constructor` | py/gh_trending_analytics/cache.py:15-23 | all seven counters start at zero |
| `Cache.ResultCache.constructor` | py/gh_trending_analytics/cache.py:26-31 | a new cache is empty, consistent, keeps the given capacity and default lifetime, and has fresh zeroed counters |
| `Cache.Without` | py/gh_trending_analytics/cache.py:40 | taking a key out of the order leaves exactly the other keys, keeps the order duplicate-free, and changes nothing when the key is absent |
| `Cache.WithoutLength` | py/gh_trending_analytics/cache.py:51-52 | on a duplicate-free order, taking a key out shortens it by one exactly when the key is present |
| `Cache.OverwriteKeepsSize` | py/gh_trending_analytics/cache.py:51-54 | overwriting a stored key never makes the store larger than it was |
| `Cache.Kept` | py/gh_trending_analytics/cache.py:59 | the number of surviving keys is at most the number there were, and at most a non-negative capacity |
| `Cache.Evicted` | py/gh_trending_analytics/cache.py:58-61 | the eviction loop as a function of the order: the result is never longer than the input |
| `Cache.EvictedSuffix` | py/gh_trending_analytics/cache.py:58-61 | eviction keeps exactly the `Kept` most recent keys, as a suffix of the order |
| `Cache.EvictedKeepsNewest` | py/gh_trending_analytics/cache.py:48-61 | after eviction the store fits a non-negative capacity, and with room for one key the key just set survives |
| `Cache.ResultCache.Get` | py/gh_trending_analytics/cache.py:33-46 | miss on an absent key: nothing changes but `misses`. Expired entry: removed from order and map, counted as a miss and an expiration. Live entry: its value is returned, its key moved to the most-recent end, counted as a hit |
| `Cache.ResultCache.Set` | py/gh_trending_analytics/cache.py:48-56 | the new order is the old one with the key moved to the end, then evicted to capacity. Every other surviving key keeps its entry; the key, if it survives, holds the new value and `now` plus the given or default lifetime. `sets` rises by one and `evictions` by the number of keys dropped. It fails exactly when the capacity is negative |
| `Cache.ResultCache.Store` | py/gh_trending_analytics/cache.py:51-54 | the key is stored with its entry at the most-recent end. Other keys keep their entries. The store grows by one exactly when the key was new |
| `Cache.ResultCache.EvictIfNeeded` | py/gh_trending_analytics/cache.py:58-61 | the loop leaves the order `Evicted` describes. Survivors keep their entries. `evictions` rises by the number dropped. It fails, after emptying the store, exactly when the capacity is negative |
| `Cache.ResultCache.Size` | py/gh_trending_analytics/cache.py:63-64 | the size is the number of stored entries, which equals the length of the recency order |
| `Cache.ResultCache.Clear` | py/gh_trending_analytics/cache.py:66-67 | the store is emptied and the counters are left alone |
| `Cache.ResultCache.Keys` | py/gh_trending_analytics/cache.py:69-70 | the keys are listed least recently used first, each once, and are exactly the stored ones |
| `Cache.DefaultCacheScenario` | py/gh_trending_analytics/cache.py:27-56 | a cache built with the default capacity and lifetime keeps the first value set, returns it just before its default lifetime ends, and misses once it has |
| `Cache.StoredAlpha` | py/tests/test_cache.py:10-11 | a two-slot cache with a one-unit lifetime holds `alpha`, expiring at time 1, after a set at time 0 |
| `Cache.TtlExpiryScenario` | py/tests/test_cache.py:9-14 | a lookup after the lifetime has passed misses and counts one expiration |
| `Validation.ValidateKind` | py/gh_trending_analytics/query.py:39-41 | passes exactly for `repository` and `developer`, the members of `VALID_KINDS`; any other kind is an invalid request |
| `Validation.ValidatePresence` | py/gh_trending_analytics/query.py:43-45 | passes exactly for `day` and `occurrence`, the members of `VALID_PRESENCE`; any other presence is an invalid request |
| `Validation.ManifestKindOf` | py/gh_trending_analytics/query.py:47-51 | an unsupported kind is an invalid request; a supported kind missing from the manifest is not found; otherwise the manifest's record is returned |
| `Validation.CheckDateExists` | py/gh_trending_analytics/query.py:53-56 | passes exactly when the kind is supported, present and lists the date; an invalid request exactly for an unsupported kind |
| `Validation.CheckLanguage` | py/gh_trending_analytics/query.py:58-70 | no language or `__all__` always passes. Any other language passes exactly when the manifest lists it, per date when a date is given and per-date languages exist. A missing kind is not found |
| `Validation.LanguageOnDate` | py/gh_trending_analytics/query.py:61-67 | with per-date languages, a language is accepted on a date exactly when that date lists it |
| `Validation.NormalizeLanguage` | py/gh_trending_analytics/query.py:78-81 | no language filter exactly for no language or `__all__`; any other value is kept |
| `Validation.ParseDate` | py/gh_trending_analytics/query.py:72-76 | a date that does not parse is an invalid request; otherwise its value is returned |
| `Validation.ListDates` | py/gh_trending_analytics/query.py:94-96 | the manifest's dates for a supported, present kind; the errors of the kind look-up otherwise |
| `Validation.ListLanguages` | py/gh_trending_analytics/query.py:98-100 | the manifest's languages for a supported, present kind; the errors of the kind look-up otherwise |
| `Ordering.StrLessIrreflexive` | py/gh_trending_analytics/query.py:190 | the name tie-break `full_name ASC` never puts a name before itself |
| `Ordering.StrLessTransitive` | py/gh_trending_analytics/query.py:190 | the name order is transitive |
| `Ordering.StrLessTotal` | py/gh_trending_analytics/query.py:190 | any two distinct names are ordered one way or the other |
| `Ordering.BeforeIrreflexive` | py/gh_trending_analytics/query.py:190 | the composite `ORDER BY count DESC, best_rank ASC, name ASC` key never precedes itself |
| `Ordering.BeforeTransitive` | py/gh_trending_analytics/query.py:190 | the composite order is transitive |
| `Ordering.BeforeTotal` | py/gh_trending_analytics/query.py:190 | any two distinct keys are ordered, so the composite order is a strict total order |
| `Ordering.BeforeAsymmetric` | py/gh_trending_analytics/query.py:190 | no two keys precede each other |
| `Ordering.BestIndex` | py/gh_trending_analytics/query.py:190 | the selected row is one that no other row of the input precedes |
| `Ordering.Remove` | py/gh_trending_analytics/query.py:190-191 | removing a selected row shortens the input by one |
| `Ordering.OrderLimit` | py/gh_trending_analytics/query.py:190-191 | `ORDER BY ... LIMIT n` returns `min(n, rows)` rows |
| `Ordering.OrderBy` | py/gh_trending_analytics/query.py:116 | `ORDER BY` without a limit keeps every row |
| `Ordering.OrderLimitFrom` | py/gh_trending_analytics/query.py:190-191 | every returned row comes from the input |
| `Ordering.OrderLimitSorted` | py/gh_trending_analytics/query.py:190-191 | the returned rows are in key order |
| `Ordering.OrderLimitIsPrefix` | py/gh_trending_analytics/query.py:190-191 | `LIMIT n` is the first `n` rows of the full ordering |
| `Ordering.OrderByPermutes` | py/gh_trending_analytics/query.py:116 | sorting keeps each row exactly as often as it occurs |
| `Ordering.OrderLimitIsTopK` | py/gh_trending_analytics/query.py:190-191 | when keys are unique: `min(n, rows)` input rows, strictly ordered, and preceding every input row left out |
| `Grouping.GroupsOf` | py/gh_trending_analytics/query.py:189 | `GROUP BY` yields each group present in the rows exactly once |
| `Grouping.OfGroup` | py/gh_trending_analytics/query.py:189 | the rows of a group are exactly the input rows with that group |
| `Grouping.OfGroupConcat` | py/gh_trending_analytics/query.py:387-393 | a group's rows in a `UNION ALL` are its rows from each side, in turn |
| `Grouping.DistinctCount` | py/gh_trending_analytics/query.py:182 | `COUNT(DISTINCT date)`, computed row by row, is the number of distinct values the group takes |
| `Grouping.DistinctAtMostCount` | py/gh_trending_analytics/query.py:182 | a group's distinct-value count never exceeds its row count |
| `Grouping.MinRank` | py/gh_trending_analytics/query.py:184 | `MIN(rank)` is a rank of some row and at most every row's rank |
| `Grouping.MinItem` | py/gh_trending_analytics/query.py:436 | `MIN(date)` is a date of some row and at most every row's date |
| `Grouping.MinRankOfGroup` | py/gh_trending_analytics/query.py:184 | the minimum over a present group's rows is that group's best rank |
| `Queries.Select` | py/gh_trending_analytics/query.py:186-188 | keeps exactly the rows in the window, of the language if one is given, and with a language unless `include_all_languages` |
| `Queries.SelectConcat` | py/gh_trending_analytics/query.py:387-390 | filtering a `UNION ALL` filters each side |
| `Queries.NullLanguageIgnored` | py/gh_trending_analytics/query.py:188 | without `include_all_languages`, inserting a row with no language anywhere leaves the selection unchanged |
| `Queries.DaySelect` | py/gh_trending_analytics/query.py:115 | keeps exactly the rows of the date whose language matches, or with no language when `__all__` is asked, each as many times as the log holds it |
| `Queries.DayEntriesSpec` | py/gh_trending_analytics/query.py:111-117 | `get_day` returns each matching row exactly as many times as it occurs in the log, nothing else, in ascending rank |
| `Queries.TallyOfIs` | py/gh_trending_analytics/query.py:182-184 | the row built for a present group is its aggregate: the right count and its best rank |
| `Queries.Tallies` | py/gh_trending_analytics/query.py:181-189 | one aggregate row per group, each with the group's count and best rank |
| `Queries.TalliesKeyed` | py/gh_trending_analytics/query.py:189-190 | no two aggregate rows tie on the sort key |
| `Queries.TalliesComplete` | py/gh_trending_analytics/query.py:181-189 | every group of the filtered rows has an aggregate row |
| `Queries.ReappearingIsTopK` | py/gh_trending_analytics/query.py:181-224 | `top_reappearing` returns the first `limit` aggregate rows in `ORDER BY` order |
| `Queries.DayPresenceAtMostOccurrences` | py/gh_trending_analytics/query.py:182 | an identity's day presence never exceeds its occurrence presence |
| `Queries.OwnersIsTopK` | py/gh_trending_analytics/query.py:337-346 | `top_owners` returns the first `limit` owners by distinct repositories, best rank and name |
| `Queries.LanguageRows` | py/gh_trending_analytics/query.py:372-377 | one row per language present, including the no-language group, with its entry count |
| `Queries.LanguagesIsTopK` | py/gh_trending_analytics/query.py:368-395 | `top_languages` returns the first `limit` languages by entries, then language with no language last |
| `Queries.LanguagesExcludeNull` | py/gh_trending_analytics/query.py:375 | without `include_all_languages` no row is about entries without a language |
| `Queries.UnionCountsAdd` | py/gh_trending_analytics/query.py:383-395 | across both kinds a language's entry count is its repository count plus its developer count |
| `Queries.FirstSeenRowIs` | py/gh_trending_analytics/query.py:435-441 | the row built for a present identity holds its earliest date and its best rank |
| `Queries.FirstSeenRows` | py/gh_trending_analytics/query.py:435-441 | the `first_seen` CTE has one row per identity, with its earliest date and best rank |
| `Queries.FirstSeenIn` | py/gh_trending_analytics/query.py:444 | keeps exactly the identities first seen inside the window, still one per identity |
| `Queries.NewcomersIsTopK` | py/gh_trending_analytics/query.py:434-482 | `top_newcomers` returns the first `limit` rows, latest first. Each identity was first seen inside the window, counting its whole filtered history |
| `Queries.StreakRows` | py/gh_trending_analytics/query.py:560-571 | one row per identity, holding its longest streak |
| `Queries.StreaksIsTopK` | py/gh_trending_analytics/query.py:543-573 | `top_streaks` returns the first `limit` identities in `ORDER BY` order. Each row's streak is the identity's longest run of consecutive dates, the later run winning a tie |
| `Queries.StreakWithinWindow` | py/gh_trending_analytics/query.py:547 | every reported streak starts and ends inside the requested window |
| `Streaks.Runs` | py/gh_trending_analytics/query.py:550-559 | splitting days into runs gives at most one run per day, and the first run starts on the first day |
| `Streaks.RunsTile` | py/gh_trending_analytics/query.py:550-563 | the runs are ordered and separated by gaps. Each is a maximal stretch of consecutive dates. Together they cover every date. Each carries the least day-best rank within it |
| `Streaks.Longest` | py/gh_trending_analytics/query.py:565-571 | `rn = 1` picks a run no other run beats on length, the later end winning a tie |
| `Streaks.LongestStreak` | py/gh_trending_analytics/query.py:543-571 | the chosen run is a stretch of consecutive dates no other stretch beats, with the best rank of its days |
| `Streaks.TiledLongest` | py/gh_trending_analytics/query.py:561-571 | over a tiling by maximal runs, the longest run is the longest stretch of the dates |
| `Streaks.InsertDate` | py/gh_trending_analytics/query.py:544-546 | inserting a date keeps the list strictly increasing and adds exactly that date |
| `Streaks.SortedDates` | py/gh_trending_analytics/query.py:544-546 | the distinct dates of the rows, strictly increasing |
| `Streaks.OnDate` | py/gh_trending_analytics/query.py:545 | keeps exactly the rows of one date |
| `Streaks.DayOn` | py/gh_trending_analytics/query.py:545 | a date's `base` row holds the least rank of that date, which some row has |
| `Streaks.DaysOf` | py/gh_trending_analytics/query.py:544-553 | the `base` rows of an identity are in date order, one per date it appears on, each with that date's best rank |
| `Streaks.StreakOfGroup` | py/gh_trending_analytics/query.py:543-571 | an identity's reported streak is its longest stretch of consecutive dates, the later one on a tie. Its best rank is the least rank the identity holds within it, and some row has it |
| `Service.RangeOf` | py/gh_trending_analytics/query.py:153-156 | a window is accepted exactly when both ends parse and start is not after end; every failure is an invalid request |
| `Service.GetDay` | py/gh_trending_analytics/query.py:102-137 | kind, then date format, then date presence, then language are checked in that order, each with its error. Success exactly when all pass. The rows are then the day's entries for that language |
| `Service.GetDayRefusesUnknownLanguage` | py/gh_trending_analytics/query.py:103-107 | a language not listed for the date, such as an injection attempt, is an invalid request |
| `Service.GetDayAllLanguages` | py/gh_trending_analytics/query.py:106-117 | with no language or `__all__`, the day succeeds and lists the entries that have no language |
| `Service.TopReappearing` | py/gh_trending_analytics/query.py:139-245 | fails exactly for an unsupported kind or presence, a bad window, or a refused language, with the source's error. It answers with the rollup's rows when the rollup is eligible and its read returns, and from the raw query otherwise |
| `Service.ReappearingFallback` | py/gh_trending_analytics/query.py:162-179 | a rollup read that raises gives exactly the answer of the raw path |
| `Service.ReappearingRawUnlessEligible` | py/gh_trending_analytics/query.py:162-167 | occurrence presence or a language filter never consults the rollups |
| `Service.TopOwners` | py/gh_trending_analytics/query.py:319-351 | fails exactly for a bad window (an invalid request) or a refused language, with the error the language check raises: not found when the manifest has no repository section, an invalid request for an unlisted language. Otherwise the owners query on the repository table |
| `Service.TopLanguages` | py/gh_trending_analytics/query.py:353-411 | only ever fails with an invalid request: a bad window, or a non-empty unsupported kind. Otherwise the languages query over one table or both |
| `Service.AllKindsCountAdds` | py/gh_trending_analytics/query.py:383-395 | the all-kinds entry count of a language is the sum of its per-kind counts |
| `Service.TopNewcomers` | py/gh_trending_analytics/query.py:413-503 | fails exactly for an unsupported kind or a bad window (an invalid request each) or a refused language, with the error the language check raises: not found for a missing manifest section, an invalid request for an unlisted language. Otherwise the newcomers query |
| `Service.TopStreaks` | py/gh_trending_analytics/query.py:505-652 | fails exactly for an unsupported kind or a bad window (an invalid request each) or a refused language, with the error the language check raises: not found for a missing manifest section, an invalid request for an unlisted language. It answers with the rollup's rows when the rollup is eligible and its read returns, and from the raw query otherwise |
| `Service.StreaksFallback` | py/gh_trending_analytics/query.py:524-539 | a rollup read that raises gives exactly the answer of the raw path |
| `Service.StreaksRawUnlessEligible` | py/gh_trending_analytics/query.py:524-528 | a language filter never consults the rollups |
| `Service.ReversedWindowRefused` | py/gh_trending_analytics/query.py:153-156 | every ranked query refuses a window whose start is after its end. The same check is at lines 329-332, 362-365, 425-428 and 517-520 |

## Left out

- DuckDB, parquet files and glob paths (`_connect`, `_parquet_glob`, `_rollup_glob`) are not modelled. Each kind's table is a sequence of `Entry` rows.
- `_top_reappearing_rollup` and `_top_streaks_rollup`, and the rollup builder, are not part of this model. Their result arrives as a parameter: `Some(rows)` when the read returns, `None` when it raises. The proofs therefore say nothing about the rollup rows themselves.
- `Manifest.load` and `load_manifest` are not modelled: the manifest is a value. Reading it from disk is I/O.
- `date.fromisoformat` is not modelled. A date argument arrives as `Option<int>`, a day number or `None` for text that does not parse.
- The rendering of result rows is left out: `isoformat` strings, dictionary keys, and the `owner` output column. The model groups by identity only. `owner` is taken to be determined by `full_name`, as it is for a GitHub repository.
- Wall-clock time and float lifetimes are not modelled: `time.time()` is an integer `now` parameter and lifetimes are integers.
- `CacheKey`, the prewarm protocol and its counters' updates, concurrency, the HTTP API, the performance tests and the legacy CLI lie outside the modelled core.
- `Cache.ResultCache.Set`: Python raises `KeyError` when `popitem` meets an empty store under a negative capacity. The model returns `ok == false` after emptying the store instead.
- `Service.TopReappearing`: a negative `LIMIT` is not modelled, because `limit` is a `nat`.
- `Service.TopOwners`: a negative `LIMIT` is not modelled, because `limit` is a `nat`.
- `Service.TopLanguages`: a negative `LIMIT` is not modelled, because `limit` is a `nat`.
- `Service.TopNewcomers`: a negative `LIMIT` is not modelled, because `limit` is a `nat`.
- `Service.TopStreaks`: a negative `LIMIT` is not modelled, because `limit` is a `nat`.
- `Service.GetDay`: SQL leaves the order of rows with equal rank unspecified. The model keeps log order for them, and its contract fixes only ascending rank.
- `Service.TopLanguages`: `if kind:` is modelled as a present, non-empty kind, the values Python treats as true for a string argument.
