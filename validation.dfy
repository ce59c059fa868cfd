/**
 * Request validation of `DuckDBQueryService`
 * (py/gh_trending_analytics/query.py:14-15, 39-81, 94-100).
 *
 * Each check either passes or names the error the service raises:
 * `InvalidRequest` for a malformed request, `NotFound` for data the
 * manifest does not have (py/gh_trending_analytics/errors.py).
 */
module Validation {
  import opened Prelude

  /** The two exception classes a query can raise. */
  datatype QueryError = InvalidRequest | NotFound

  /** What a query returns: its rows, or the error it raises. */
  datatype Outcome<T> = Ok(value: T) | Fail(error: QueryError)

  /** The language value meaning "every language, and entries without one". */
  const AllLanguages: string := "__all__"

  /** `VALID_KINDS` and `VALID_PRESENCE`. */
  const ValidKinds: set<string> := {"repository", "developer"}
  const ValidPresences: set<string> := {"day", "occurrence"}

  predicate ValidKind(kind: string)
  {
    kind in ValidKinds
  }

  predicate ValidPresence(presence: string)
  {
    presence in ValidPresences
  }

  /** `_validate_kind`: only repositories and developers are served. */
  function ValidateKind(kind: string): (e: Option<QueryError>)
    ensures e == None <==> kind == "repository" || kind == "developer"
    ensures e.Some? ==> e.value == InvalidRequest
  {
    if kind !in ValidKinds then Some(InvalidRequest) else None
  }

  /** `_validate_presence`: presence is counted by day or by occurrence. */
  function ValidatePresence(presence: string): (e: Option<QueryError>)
    ensures e == None <==> presence == "day" || presence == "occurrence"
    ensures e.Some? ==> e.value == InvalidRequest
  {
    if presence !in ValidPresences then Some(InvalidRequest) else None
  }

  /**
   * The manifest's record of one kind: the dates it holds, the languages seen
   * (a `None` stands for entries without a language), and, when the manifest
   * has them, the languages seen on each date.
   */
  datatype ManifestKind = ManifestKind(
    dates: seq<int>,
    languages: seq<Option<string>>,
    languagesByDate: map<int, seq<string>>)

  datatype Manifest = Manifest(kinds: map<string, ManifestKind>)

  /** `_manifest_kind`: the kind is checked first, then looked up. */
  function ManifestKindOf(m: Manifest, kind: string): (r: Outcome<ManifestKind>)
    ensures r.Ok? <==> ValidKind(kind) && kind in m.kinds
    ensures r.Ok? ==> r.value == m.kinds[kind]
    ensures r == Fail(InvalidRequest) <==> !ValidKind(kind)
  {
    match ValidateKind(kind)
    case Some(err) => Fail(err)
    case None => if kind !in m.kinds then Fail(NotFound) else Ok(m.kinds[kind])
  }

  /** `_validate_date_exists`: `None` when the manifest lists `day` for `kind`. */
  function CheckDateExists(m: Manifest, kind: string, day: int): (e: Option<QueryError>)
    ensures e == None <==> ValidKind(kind) && kind in m.kinds && day in m.kinds[kind].dates
    ensures e == Some(InvalidRequest) <==> !ValidKind(kind)
  {
    match ManifestKindOf(m, kind)
    case Fail(err) => Some(err)
    case Ok(mk) => if day in mk.dates then None else Some(NotFound)
  }

  /** The languages `language` is checked against, for a date when one is given. */
  function AllowedLanguages(mk: ManifestKind, day: Option<int>): seq<Option<string>>
  {
    if day.Some? && |mk.languagesByDate| > 0 then
      var ls := if day.value in mk.languagesByDate then mk.languagesByDate[day.value] else [];
      seq(|ls|, i requires 0 <= i < |ls| => Some(ls[i]))
    else mk.languages
  }

  /**
   * `_validate_language`: no language, or the all-languages value, passes
   * without consulting the manifest. Any other language must be listed for
   * the date when one is given and the manifest has per-date languages, and
   * among the kind's languages otherwise.
   */
  function CheckLanguage(m: Manifest, kind: string, language: Option<string>, day: Option<int>): (e: Option<QueryError>)
    ensures language == None || language == Some(AllLanguages) ==> e == None
    ensures e == None <==>
      || language == None || language == Some(AllLanguages)
      || (ValidKind(kind) && kind in m.kinds && language in AllowedLanguages(m.kinds[kind], day))
    ensures e == Some(NotFound) <==>
      language != None && language != Some(AllLanguages) && ValidKind(kind) && kind !in m.kinds
  {
    if language == None || language == Some(AllLanguages) then None
    else
      match ManifestKindOf(m, kind)
      case Fail(err) => Some(err)
      case Ok(mk) => if language in AllowedLanguages(mk, day) then None else Some(InvalidRequest)
  }

  /** With per-date languages, a language is accepted on a date exactly when it is listed for it. */
  lemma LanguageOnDate(mk: ManifestKind, day: int, language: string)
    requires |mk.languagesByDate| > 0
    ensures Some(language) in AllowedLanguages(mk, Some(day)) <==>
      day in mk.languagesByDate && language in mk.languagesByDate[day]
  {
    var allowed := AllowedLanguages(mk, Some(day));
    if day in mk.languagesByDate && language in mk.languagesByDate[day] {
      var ls := mk.languagesByDate[day];
      var i :| 0 <= i < |ls| && ls[i] == language;
      assert allowed[i] == Some(language);
    }
  }

  /** `_normalize_language_param`: the all-languages value means no language filter. */
  function NormalizeLanguage(language: Option<string>): (r: Option<string>)
    ensures r == None <==> language == None || language == Some(AllLanguages)
    ensures r.Some? ==> r == language
  {
    if language == None || language == Some(AllLanguages) then None else language
  }

  /**
   * `_parse_date`: a date argument arrives already parsed to a day number,
   * `None` standing for text that is not a valid ISO date.
   */
  function ParseDate(day: Option<int>): (r: Outcome<int>)
    ensures r.Ok? <==> day.Some?
    ensures r.Ok? ==> r.value == day.value
    ensures r.Fail? ==> r.error == InvalidRequest
  {
    if day.None? then Fail(InvalidRequest) else Ok(day.value)
  }

  /** `list_dates`: the dates the manifest holds for `kind`. */
  function ListDates(m: Manifest, kind: string): (r: Outcome<seq<int>>)
    ensures r.Ok? <==> ValidKind(kind) && kind in m.kinds
    ensures r.Ok? ==> r.value == m.kinds[kind].dates
    ensures r.Fail? ==> (r.error == InvalidRequest <==> !ValidKind(kind))
  {
    match ManifestKindOf(m, kind)
    case Fail(err) => Fail(err)
    case Ok(mk) => Ok(mk.dates)
  }

  /** `list_languages`: the languages the manifest holds for `kind`. */
  function ListLanguages(m: Manifest, kind: string): (r: Outcome<seq<Option<string>>>)
    ensures r.Ok? <==> ValidKind(kind) && kind in m.kinds
    ensures r.Ok? ==> r.value == m.kinds[kind].languages
    ensures r.Fail? ==> (r.error == InvalidRequest <==> !ValidKind(kind))
  {
    match ManifestKindOf(m, kind)
    case Fail(err) => Fail(err)
    case Ok(mk) => Ok(mk.languages)
  }
}
