/**
 * The public operations of `DuckDBQueryService`
 * (py/gh_trending_analytics/query.py:30-37, 102-245, 319-652): each runs its
 * checks in the source's order, stops at the first that fails, and otherwise
 * answers from the pre-aggregated rollups when it may and they can be read,
 * and from the raw entry tables in every other case.
 *
 * The rollup path itself is not part of this model: its result arrives as a
 * parameter, `Some(rows)` when it returns and `None` when it raises.
 */
module Service {
  import opened Prelude
  import opened Validation
  import opened Queries

  /** The parquet entry tables of both kinds. */
  datatype Store = Store(repositories: seq<Entry>, developers: seq<Entry>)

  /** `QueryConfig.use_rollups`, and whether the `rollups` directory exists. */
  datatype Config = Config(useRollups: bool, rollupsExist: bool)

  /**
   * `_parquet_glob` for a supported kind. An unsupported kind would name a
   * path of its own, but every caller has refused such a kind before this.
   */
  function LogOf(store: Store, kind: string): seq<Entry>
  {
    if kind == "repository" then store.repositories else store.developers
  }

  /**
   * Parses both ends of a date window and checks `start <= end`. Every
   * failure is an `InvalidRequest`.
   */
  function RangeOf(start: Option<int>, end: Option<int>): (r: Outcome<Span>)
    ensures r.Ok? <==> start.Some? && end.Some? && start.value <= end.value
    ensures r.Ok? ==> r.value == Span(start.value, end.value)
    ensures r.Fail? ==> r.error == InvalidRequest
  {
    match ParseDate(start)
    case Fail(e) => Fail(e)
    case Ok(s) =>
      match ParseDate(end)
      case Fail(e) => Fail(e)
      case Ok(t) => if s > t then Fail(InvalidRequest) else Ok(Span(s, t))
  }

  /** The language value `get_day` filters on: no language means all of them. */
  function DayLanguage(language: Option<string>): string
  {
    if language.None? then AllLanguages else language.value
  }

  /** `get_day`: the entries of one date and language, by ascending rank. */
  function GetDay(m: Manifest, store: Store, kind: string, day: Option<int>, language: Option<string>): (r: Outcome<seq<Entry>>)
    ensures !ValidKind(kind) ==> r == Fail(InvalidRequest)
    ensures ValidKind(kind) && day.None? ==> r == Fail(InvalidRequest)
    ensures ValidKind(kind) && day.Some? && (kind !in m.kinds || day.value !in m.kinds[kind].dates) ==>
      r == Fail(NotFound)
    ensures r.Ok? <==>
      && ValidKind(kind) && day.Some? && kind in m.kinds && day.value in m.kinds[kind].dates
      && (language == None || language == Some(AllLanguages)
          || language in AllowedLanguages(m.kinds[kind], day))
    ensures r.Ok? ==> r.value == DayEntries(LogOf(store, kind), day.value, DayLanguage(language))
  {
    if !ValidKind(kind) then Fail(InvalidRequest)
    else
      match ParseDate(day)
      case Fail(e) => Fail(e)
      case Ok(d) =>
        match CheckDateExists(m, kind, d)
        case Some(e) => Fail(e)
        case None =>
          var lv := DayLanguage(language);
          match CheckLanguage(m, kind, Some(lv), Some(d))
          case Some(e) => Fail(e)
          case None => Ok(DayEntries(LogOf(store, kind), d, lv))
  }

  /**
   * A language the manifest does not list for the date, such as text
   * crafted to break out of a SQL string, is refused before any query runs.
   */
  lemma GetDayRefusesUnknownLanguage(m: Manifest, store: Store, kind: string, day: int, language: string)
    requires ValidKind(kind) && kind in m.kinds && day in m.kinds[kind].dates
    requires language != AllLanguages && Some(language) !in AllowedLanguages(m.kinds[kind], Some(day))
    ensures GetDay(m, store, kind, Some(day), Some(language)) == Fail(InvalidRequest)
  {
  }

  /** `get_day` with no language, or the all-languages value, lists the entries without one. */
  lemma GetDayAllLanguages(m: Manifest, store: Store, kind: string, day: int, language: Option<string>)
    requires language == None || language == Some(AllLanguages)
    requires ValidKind(kind) && kind in m.kinds && day in m.kinds[kind].dates
    ensures var r := GetDay(m, store, kind, Some(day), language);
      && r.Ok?
      && forall e :: e in LogOf(store, kind) && e.date == day && e.language == None ==> e in r.value
  {
    DayEntriesSpec(LogOf(store, kind), day, AllLanguages);
  }

  /**
   * `top_reappearing`: identities ranked by presence in a window. The
   * rollups are consulted only for day presence with no language filter.
   */
  function TopReappearing(m: Manifest, store: Store, cfg: Config, kind: string,
                          start: Option<int>, end: Option<int>, language: Option<string>,
                          presence: string, includeAll: bool, limit: nat,
                          rollup: Option<seq<Tally>>): (r: Outcome<seq<Tally>>)
    ensures !ValidKind(kind) || !ValidPresence(presence) ==> r == Fail(InvalidRequest)
    ensures ValidKind(kind) && RangeOf(start, end).Fail? ==> r == Fail(InvalidRequest)
    ensures r.Fail? <==>
      !ValidKind(kind) || !ValidPresence(presence) || RangeOf(start, end).Fail?
      || CheckLanguage(m, kind, NormalizeLanguage(language), None).Some?
    ensures r == Fail(NotFound) <==>
      && ValidKind(kind) && ValidPresence(presence) && RangeOf(start, end).Ok?
      && NormalizeLanguage(language).Some? && kind !in m.kinds
    ensures r.Ok? && cfg.useRollups && cfg.rollupsExist && presence == "day"
              && NormalizeLanguage(language).None? && rollup.Some? ==>
      r.value == rollup.value
    ensures r.Ok? && !(cfg.useRollups && cfg.rollupsExist && presence == "day"
                       && NormalizeLanguage(language).None? && rollup.Some?) ==>
      r.value == ReappearingQuery(LogOf(store, kind), start.value, end.value,
                                  NormalizeLanguage(language), presence == "day", includeAll, limit)
  {
    if !ValidKind(kind) || !ValidPresence(presence) then Fail(InvalidRequest)
    else
      var lang := NormalizeLanguage(language);
      match RangeOf(start, end)
      case Fail(e) => Fail(e)
      case Ok(span) =>
        match CheckLanguage(m, kind, lang, None)
        case Some(e) => Fail(e)
        case None =>
          if cfg.useRollups && presence == "day" && lang.None? && cfg.rollupsExist && rollup.Some? then
            Ok(rollup.value)
          else
            Ok(ReappearingQuery(LogOf(store, kind), span.first, span.last, lang, presence == "day", includeAll, limit))
  }

  /** A rollup read that raises gives the same answer as not using rollups at all. */
  lemma ReappearingFallback(m: Manifest, store: Store, cfg: Config, kind: string,
                            start: Option<int>, end: Option<int>, language: Option<string>,
                            presence: string, includeAll: bool, limit: nat, rollup: Option<seq<Tally>>)
    ensures TopReappearing(m, store, cfg, kind, start, end, language, presence, includeAll, limit, None)
         == TopReappearing(m, store, cfg.(useRollups := false), kind, start, end, language, presence, includeAll, limit, rollup)
  {
  }

  /** Occurrence counting, or a language filter, always reads the raw tables. */
  lemma ReappearingRawUnlessEligible(m: Manifest, store: Store, cfg: Config, kind: string,
                                     start: Option<int>, end: Option<int>, language: Option<string>,
                                     presence: string, includeAll: bool, limit: nat, rollup: Option<seq<Tally>>)
    requires presence != "day" || NormalizeLanguage(language).Some?
    ensures TopReappearing(m, store, cfg, kind, start, end, language, presence, includeAll, limit, rollup)
         == TopReappearing(m, store, cfg.(useRollups := false), kind, start, end, language, presence, includeAll, limit, None)
  {
  }

  /** `top_owners`: owners ranked by how many distinct repositories they had in a window. */
  function TopOwners(m: Manifest, store: Store, start: Option<int>, end: Option<int>,
                     language: Option<string>, includeAll: bool, limit: nat): (r: Outcome<seq<Tally>>)
    ensures RangeOf(start, end).Fail? ==> r == Fail(InvalidRequest)
    ensures r.Fail? <==>
      RangeOf(start, end).Fail? || CheckLanguage(m, "repository", NormalizeLanguage(language), None).Some?
    ensures RangeOf(start, end).Ok? && r.Fail? ==>
      Some(r.error) == CheckLanguage(m, "repository", NormalizeLanguage(language), None)
    ensures r.Ok? ==>
      r.value == OwnersQuery(store.repositories, start.value, end.value, NormalizeLanguage(language), includeAll, limit)
  {
    var lang := NormalizeLanguage(language);
    match RangeOf(start, end)
    case Fail(e) => Fail(e)
    case Ok(span) =>
      match CheckLanguage(m, "repository", lang, None)
      case Some(e) => Fail(e)
      case None => Ok(OwnersQuery(store.repositories, span.first, span.last, lang, includeAll, limit))
  }

  /**
   * The rows `top_languages` counts: one kind's table when a non-empty kind
   * is given, both tables one after the other otherwise.
   */
  function LanguageSource(store: Store, kind: Option<string>): seq<Entry>
  {
    if kind.Some? && kind.value != "" then LogOf(store, kind.value)
    else store.repositories + store.developers
  }

  /**
   * `top_languages`: languages ranked by entry count in a window. The
   * manifest is never consulted, so the only error is an invalid request.
   */
  function TopLanguages(store: Store, start: Option<int>, end: Option<int>, kind: Option<string>,
                        includeAll: bool, limit: nat): (r: Outcome<seq<LanguageRow>>)
    ensures r.Fail? ==> r.error == InvalidRequest
    ensures r.Fail? <==> RangeOf(start, end).Fail? || (kind.Some? && kind.value != "" && !ValidKind(kind.value))
    ensures r.Ok? ==> r.value == LanguagesQuery(LanguageSource(store, kind), start.value, end.value, includeAll, limit)
  {
    match RangeOf(start, end)
    case Fail(e) => Fail(e)
    case Ok(span) =>
      if kind.Some? && kind.value != "" && !ValidKind(kind.value) then Fail(InvalidRequest)
      else Ok(LanguagesQuery(LanguageSource(store, kind), span.first, span.last, includeAll, limit))
  }

  /** Across both kinds, a language's count is its repository count plus its developer count. */
  lemma AllKindsCountAdds(store: Store, start: int, end: int, includeAll: bool, language: Option<string>)
    ensures var f := LanguageFilter(start, end, includeAll);
      Grouping.CountOf(LanguageFacts(Select(LanguageSource(store, None), f)), language)
      == Grouping.CountOf(LanguageFacts(Select(store.repositories, f)), language)
       + Grouping.CountOf(LanguageFacts(Select(store.developers, f)), language)
  {
    UnionCountsAdd(store.repositories, store.developers, LanguageFilter(start, end, includeAll), language);
  }

  /** `top_newcomers`: identities first seen inside a window, latest first. */
  function TopNewcomers(m: Manifest, store: Store, kind: string, start: Option<int>, end: Option<int>,
                        language: Option<string>, includeAll: bool, limit: nat): (r: Outcome<seq<NewcomerRow>>)
    ensures !ValidKind(kind) ==> r == Fail(InvalidRequest)
    ensures ValidKind(kind) && RangeOf(start, end).Fail? ==> r == Fail(InvalidRequest)
    ensures r.Fail? <==>
      !ValidKind(kind) || RangeOf(start, end).Fail? || CheckLanguage(m, kind, NormalizeLanguage(language), None).Some?
    ensures ValidKind(kind) && RangeOf(start, end).Ok? && r.Fail? ==>
      Some(r.error) == CheckLanguage(m, kind, NormalizeLanguage(language), None)
    ensures r.Ok? ==>
      r.value == NewcomersQuery(LogOf(store, kind), start.value, end.value, NormalizeLanguage(language), includeAll, limit)
  {
    if !ValidKind(kind) then Fail(InvalidRequest)
    else
      var lang := NormalizeLanguage(language);
      match RangeOf(start, end)
      case Fail(e) => Fail(e)
      case Ok(span) =>
        match CheckLanguage(m, kind, lang, None)
        case Some(e) => Fail(e)
        case None => Ok(NewcomersQuery(LogOf(store, kind), span.first, span.last, lang, includeAll, limit))
  }

  /**
   * `top_streaks`: identities ranked by their longest run of consecutive
   * days in a window. The rollups are consulted whenever no language filter
   * is given.
   */
  function TopStreaks(m: Manifest, store: Store, cfg: Config, kind: string,
                      start: Option<int>, end: Option<int>, language: Option<string>,
                      includeAll: bool, limit: nat, rollup: Option<seq<StreakRow>>): (r: Outcome<seq<StreakRow>>)
    ensures !ValidKind(kind) ==> r == Fail(InvalidRequest)
    ensures ValidKind(kind) && RangeOf(start, end).Fail? ==> r == Fail(InvalidRequest)
    ensures r.Fail? <==>
      !ValidKind(kind) || RangeOf(start, end).Fail? || CheckLanguage(m, kind, NormalizeLanguage(language), None).Some?
    ensures ValidKind(kind) && RangeOf(start, end).Ok? && r.Fail? ==>
      Some(r.error) == CheckLanguage(m, kind, NormalizeLanguage(language), None)
    ensures r.Ok? && cfg.useRollups && cfg.rollupsExist && NormalizeLanguage(language).None? && rollup.Some? ==>
      r.value == rollup.value
    ensures r.Ok? && !(cfg.useRollups && cfg.rollupsExist && NormalizeLanguage(language).None? && rollup.Some?) ==>
      r.value == StreaksQuery(LogOf(store, kind), start.value, end.value, NormalizeLanguage(language), includeAll, limit)
  {
    if !ValidKind(kind) then Fail(InvalidRequest)
    else
      var lang := NormalizeLanguage(language);
      match RangeOf(start, end)
      case Fail(e) => Fail(e)
      case Ok(span) =>
        match CheckLanguage(m, kind, lang, None)
        case Some(e) => Fail(e)
        case None =>
          if cfg.useRollups && lang.None? && cfg.rollupsExist && rollup.Some? then Ok(rollup.value)
          else Ok(StreaksQuery(LogOf(store, kind), span.first, span.last, lang, includeAll, limit))
  }

  /** A rollup read that raises gives the same answer as not using rollups at all. */
  lemma StreaksFallback(m: Manifest, store: Store, cfg: Config, kind: string,
                        start: Option<int>, end: Option<int>, language: Option<string>,
                        includeAll: bool, limit: nat, rollup: Option<seq<StreakRow>>)
    ensures TopStreaks(m, store, cfg, kind, start, end, language, includeAll, limit, None)
         == TopStreaks(m, store, cfg.(useRollups := false), kind, start, end, language, includeAll, limit, rollup)
  {
  }

  /** A language filter always reads the raw tables. */
  lemma StreaksRawUnlessEligible(m: Manifest, store: Store, cfg: Config, kind: string,
                                 start: Option<int>, end: Option<int>, language: Option<string>,
                                 includeAll: bool, limit: nat, rollup: Option<seq<StreakRow>>)
    requires NormalizeLanguage(language).Some?
    ensures TopStreaks(m, store, cfg, kind, start, end, language, includeAll, limit, rollup)
         == TopStreaks(m, store, cfg.(useRollups := false), kind, start, end, language, includeAll, limit, None)
  {
  }

  /**
   * Every ranked query refuses a window whose start is after its end, before
   * looking at the manifest: whatever its dates and languages, whatever the
   * rollups do. Only an unsupported kind or presence is reported first.
   */
  lemma ReversedWindowRefused(m: Manifest, store: Store, cfg: Config, kind: string, presence: string,
                              start: int, end: int, language: Option<string>, languagesKind: Option<string>,
                              includeAll: bool, limit: nat,
                              tallies: Option<seq<Tally>>, streaks: Option<seq<StreakRow>>)
    requires ValidKind(kind) && ValidPresence(presence) && start > end
    ensures TopReappearing(m, store, cfg, kind, Some(start), Some(end), language, presence, includeAll, limit, tallies) == Fail(InvalidRequest)
    ensures TopOwners(m, store, Some(start), Some(end), language, includeAll, limit) == Fail(InvalidRequest)
    ensures TopLanguages(store, Some(start), Some(end), languagesKind, includeAll, limit) == Fail(InvalidRequest)
    ensures TopNewcomers(m, store, kind, Some(start), Some(end), language, includeAll, limit) == Fail(InvalidRequest)
    ensures TopStreaks(m, store, cfg, kind, Some(start), Some(end), language, includeAll, limit, streaks) == Fail(InvalidRequest)
  {
  }
}
