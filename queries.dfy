/**
 * The raw-table query paths of `DuckDBQueryService`
 * (py/gh_trending_analytics/query.py:102-245, 319-652): each is a filter over
 * the trend-entry log of one kind, a `GROUP BY` with its aggregates, and an
 * `ORDER BY ... LIMIT`.
 *
 * An `Entry` is one row of a trend-entry table. `name` is the identity the
 * queries group by (`full_name` for repositories, `username` for
 * developers); `owner` is only read by `top_owners`.
 */
module Queries {
  import opened Prelude
  import opened Ordering
  import opened Grouping
  import opened Streaks
  import opened Validation

  datatype Entry = Entry(date: int, language: Option<string>, rank: int, name: string, owner: string)

  /**
   * The `WHERE` clause shared by the ranked queries: an optional
   * `date BETWEEN first AND last`, `(? IS NULL OR language = ?)` and
   * `(? OR language IS NOT NULL)`.
   */
  datatype Filter = Filter(span: Option<Span>, language: Option<string>, includeAll: bool)
  datatype Span = Span(first: int, last: int)

  predicate Keeps(f: Filter, e: Entry)
  {
    && (f.span.None? || f.span.value.first <= e.date <= f.span.value.last)
    && (f.language.None? || e.language == f.language)
    && (f.includeAll || e.language.Some?)
  }

  /** The rows of `log` the filter keeps, in log order and with repetitions. */
  function Select(log: seq<Entry>, f: Filter): (r: seq<Entry>)
    ensures forall e :: e in r <==> e in log && Keeps(f, e)
    ensures |r| <= |log|
  {
    if log == [] then []
    else if Keeps(f, log[0]) then [log[0]] + Select(log[1..], f)
    else Select(log[1..], f)
  }

  /** Filtering a concatenation filters each part: `UNION ALL` keeps every row of both. */
  lemma {:induction false} SelectConcat(a: seq<Entry>, b: seq<Entry>, f: Filter)
    ensures Select(a + b, f) == Select(a, f) + Select(b, f)
  {
    if a != [] {
      assert (a + b)[1..] == a[1..] + b;
      SelectConcat(a[1..], b, f);
    } else {
      assert a + b == b;
    }
  }

  /**
   * Unless `include_all_languages` is set, a row without a language is
   * invisible: inserting one anywhere leaves what every query selects unchanged.
   */
  lemma NullLanguageIgnored(a: seq<Entry>, b: seq<Entry>, e: Entry, f: Filter)
    requires e.language == None && !f.includeAll
    ensures Select(a + [e] + b, f) == Select(a + b, f)
  {
    SelectConcat(a + [e], b, f);
    SelectConcat(a, [e], f);
    SelectConcat(a, b, f);
    assert Select([e], f) == [] by {
      assert [e][1..] == [];
    }
  }

  /** Rows seen as (identity, date, rank). */
  function DateFacts(es: seq<Entry>): seq<Fact<string, int>>
  {
    seq(|es|, i requires 0 <= i < |es| => Fact(es[i].name, es[i].date, es[i].rank))
  }

  /** Rows seen as (owner, repository, rank). */
  function OwnerFacts(es: seq<Entry>): seq<Fact<string, string>>
  {
    seq(|es|, i requires 0 <= i < |es| => Fact(es[i].owner, es[i].name, es[i].rank))
  }

  /** Rows seen as (language, date, rank). */
  function LanguageFacts(es: seq<Entry>): seq<Fact<Option<string>, int>>
  {
    seq(|es|, i requires 0 <= i < |es| => Fact(es[i].language, es[i].date, es[i].rank))
  }

  // ---------------------------------------------------------------- get_day

  /**
   * `WHERE date = day AND (language = lv OR (language IS NULL AND lv = '__all__'))`.
   */
  predicate OnDay(e: Entry, day: int, lv: string)
  {
    e.date == day && (e.language == Some(lv) || (e.language == None && lv == AllLanguages))
  }

  /** The matching rows of `log`, each as often as it occurs there: nothing is de-duplicated. */
  function DaySelect(log: seq<Entry>, day: int, lv: string): (r: seq<Entry>)
    ensures forall e :: e in r <==> e in log && OnDay(e, day, lv)
    ensures forall e :: multiset(r)[e] == if OnDay(e, day, lv) then multiset(log)[e] else 0
  {
    if log == [] then []
    else
      assert log == [log[0]] + log[1..];
      if OnDay(log[0], day, lv) then [log[0]] + DaySelect(log[1..], day, lv)
      else DaySelect(log[1..], day, lv)
  }

  /** `ORDER BY rank ASC`: ties keep log order. */
  function RankKey(e: Entry): SortKey
  {
    SortKey(0, e.rank, None)
  }

  /** The entries `get_day` lists for one date and language value. */
  function DayEntries(log: seq<Entry>, day: int, lv: string): seq<Entry>
  {
    OrderBy(DaySelect(log, day, lv), RankKey)
  }

  /** `get_day` lists exactly the matching entries, each as often as it occurs, by ascending rank. */
  lemma DayEntriesSpec(log: seq<Entry>, day: int, lv: string)
    ensures multiset(DayEntries(log, day, lv)) == multiset(DaySelect(log, day, lv))
    ensures forall e :: multiset(DayEntries(log, day, lv))[e] == if OnDay(e, day, lv) then multiset(log)[e] else 0
    ensures forall e :: e in DayEntries(log, day, lv) <==> e in log && OnDay(e, day, lv)
    ensures var r := DayEntries(log, day, lv);
      forall i, j :: 0 <= i < j < |r| ==> r[i].rank <= r[j].rank
  {
    var s := DaySelect(log, day, lv);
    var r := DayEntries(log, day, lv);
    OrderByPermutes(s, RankKey);
    OrderLimitSorted(s, RankKey, |s|);
    forall e ensures e in r <==> e in s {
      assert e in r <==> e in multiset(r);
      assert e in s <==> e in multiset(s);
    }
    forall i, j | 0 <= i < j < |r| ensures r[i].rank <= r[j].rank {
      assert !Before(RankKey(r[j]), RankKey(r[i]));
    }
  }

  // ------------------------------------------- top_reappearing, top_owners

  /** One row of `top_reappearing` (`days_present`) or `top_owners` (`repos_present`). */
  datatype Tally = Tally(name: string, count: nat, best: int)

  /** `ORDER BY count DESC, best_rank ASC, name ASC`. */
  function TallyKey(t: Tally): SortKey
  {
    SortKey(t.count, t.best, Some(t.name))
  }

  /**
   * `t` is the aggregate row of its group: `COUNT(DISTINCT item)` when
   * `distinct`, `COUNT(*)` otherwise, and `MIN(rank)`.
   */
  ghost predicate IsTally<I(!new)>(fs: seq<Fact<string, I>>, distinct: bool, t: Tally)
  {
    && t.name in GroupSet(fs)
    && t.count == (if distinct then |ItemsOf(fs, t.name)| else |OfGroup(fs, t.name)|)
    && IsBestRank(fs, t.name, t.best)
  }

  /** The aggregate row of group `g`: its count and `MIN(rank)`. */
  function TallyOf<I(==,!new)>(fs: seq<Fact<string, I>>, distinct: bool, g: string): Tally
    requires |OfGroup(fs, g)| > 0
  {
    Tally(g, if distinct then DistinctCount(fs, g) else CountOf(fs, g), MinRank(OfGroup(fs, g)))
  }

  /** The row built for a group present in the rows is its aggregate. */
  lemma TallyOfIs<I(!new)>(fs: seq<Fact<string, I>>, distinct: bool, g: string)
    requires g in GroupSet(fs)
    ensures |OfGroup(fs, g)| > 0 && IsTally(fs, distinct, TallyOf(fs, distinct, g))
  {
    MinRankOfGroup(fs, g);
  }

  /** One aggregate row per group present. */
  function Tallies<I(==,!new)>(fs: seq<Fact<string, I>>, distinct: bool): (ts: seq<Tally>)
    ensures |ts| == |GroupsOf(fs)|
    ensures forall i :: 0 <= i < |ts| ==> ts[i].name == GroupsOf(fs)[i]
    ensures forall t :: t in ts ==> IsTally(fs, distinct, t)
  {
    var gs := GroupsOf(fs);
    forall i | 0 <= i < |gs| ensures |OfGroup(fs, gs[i])| > 0 && IsTally(fs, distinct, TallyOf(fs, distinct, gs[i])) {
      TallyOfIs(fs, distinct, gs[i]);
    }
    seq(|gs|, i requires 0 <= i < |gs| && |OfGroup(fs, gs[i])| > 0 => TallyOf(fs, distinct, gs[i]))
  }

  /** Group names are unique, so no two rows tie on the sort key. */
  lemma TalliesKeyed<I(!new)>(fs: seq<Fact<string, I>>, distinct: bool)
    ensures Keyed(Tallies(fs, distinct), TallyKey)
  {
    var ts := Tallies(fs, distinct);
    var gs := GroupsOf(fs);
    forall i, j | 0 <= i < |ts| && 0 <= j < |ts| && i != j ensures TallyKey(ts[i]) != TallyKey(ts[j]) {
      assert gs[i] != gs[j];
    }
  }

  /** Every group of the filtered rows has a row. */
  lemma TalliesComplete<I(!new)>(fs: seq<Fact<string, I>>, distinct: bool, g: string)
    requires g in GroupSet(fs)
    ensures exists t :: t in Tallies(fs, distinct) && t.name == g
  {
    var gs := GroupsOf(fs);
    var i :| 0 <= i < |gs| && gs[i] == g;
    assert Tallies(fs, distinct)[i] in Tallies(fs, distinct);
  }

  function ReappearingFilter(start: int, end: int, language: Option<string>, includeAll: bool): Filter
  {
    Filter(Some(Span(start, end)), language, includeAll)
  }

  /** All `top_reappearing` rows before `LIMIT`; `day` selects `COUNT(DISTINCT date)`. */
  function ReappearingRows(log: seq<Entry>, start: int, end: int, language: Option<string>,
                           day: bool, includeAll: bool): seq<Tally>
  {
    Tallies(DateFacts(Select(log, ReappearingFilter(start, end, language, includeAll))), day)
  }

  /** The raw path of `top_reappearing`. */
  function ReappearingQuery(log: seq<Entry>, start: int, end: int, language: Option<string>,
                       day: bool, includeAll: bool, limit: nat): seq<Tally>
  {
    OrderLimit(ReappearingRows(log, start, end, language, day, includeAll), TallyKey, limit)
  }

  /** `top_reappearing` returns the first `limit` rows of its groups in key order. */
  lemma ReappearingIsTopK(log: seq<Entry>, start: int, end: int, language: Option<string>,
                          day: bool, includeAll: bool, limit: nat)
    ensures IsTopK(ReappearingQuery(log, start, end, language, day, includeAll, limit),
                   ReappearingRows(log, start, end, language, day, includeAll), TallyKey, limit)
  {
    var fs := DateFacts(Select(log, ReappearingFilter(start, end, language, includeAll)));
    TalliesKeyed(fs, day);
    OrderLimitIsTopK(ReappearingRows(log, start, end, language, day, includeAll), TallyKey, limit);
  }

  /** Presence by day never exceeds presence by occurrence for the same identity. */
  lemma DayPresenceAtMostOccurrences(fs: seq<Fact<string, int>>, g: string)
    requires g in GroupSet(fs)
    ensures exists d, o :: d in Tallies(fs, true) && o in Tallies(fs, false) && d.name == g && o.name == g && d.count <= o.count
  {
    TalliesComplete(fs, true, g);
    TalliesComplete(fs, false, g);
    var d :| d in Tallies(fs, true) && d.name == g;
    var o :| o in Tallies(fs, false) && o.name == g;
    DistinctAtMostCount(fs, g);
  }

  /** All `top_owners` rows before `LIMIT`: `COUNT(DISTINCT full_name)` per owner. */
  function OwnerRows(log: seq<Entry>, start: int, end: int, language: Option<string>, includeAll: bool): seq<Tally>
  {
    Tallies(OwnerFacts(Select(log, ReappearingFilter(start, end, language, includeAll))), true)
  }

  /** The query of `top_owners`. */
  function OwnersQuery(log: seq<Entry>, start: int, end: int, language: Option<string>,
                  includeAll: bool, limit: nat): seq<Tally>
  {
    OrderLimit(OwnerRows(log, start, end, language, includeAll), TallyKey, limit)
  }

  lemma OwnersIsTopK(log: seq<Entry>, start: int, end: int, language: Option<string>,
                     includeAll: bool, limit: nat)
    ensures IsTopK(OwnersQuery(log, start, end, language, includeAll, limit),
                   OwnerRows(log, start, end, language, includeAll), TallyKey, limit)
  {
    TalliesKeyed(OwnerFacts(Select(log, ReappearingFilter(start, end, language, includeAll))), true);
    OrderLimitIsTopK(OwnerRows(log, start, end, language, includeAll), TallyKey, limit);
  }

  // ---------------------------------------------------------- top_languages

  /** One row of `top_languages`; `None` is the group of entries without a language. */
  datatype LanguageRow = LanguageRow(language: Option<string>, entries: nat)

  /** `ORDER BY entries DESC, language ASC` (NULL last). */
  function LanguageKey(r: LanguageRow): SortKey
  {
    SortKey(r.entries, 0, r.language)
  }

  /** `COUNT(*)` per language, one row per language present. */
  function LanguageRows(es: seq<Entry>): (rs: seq<LanguageRow>)
    ensures |rs| == |GroupsOf(LanguageFacts(es))|
    ensures forall i :: 0 <= i < |rs| ==> rs[i].language == GroupsOf(LanguageFacts(es))[i]
    ensures forall r :: r in rs ==>
      r.language in GroupSet(LanguageFacts(es)) && r.entries == |OfGroup(LanguageFacts(es), r.language)|
  {
    var fs := LanguageFacts(es);
    var gs := GroupsOf(fs);
    var rs := seq(|gs|, i requires 0 <= i < |gs| => LanguageRow(gs[i], CountOf(fs, gs[i])));
    forall r | r in rs ensures r.language in GroupSet(fs) {
      var i :| 0 <= i < |rs| && rs[i] == r;
      assert gs[i] in gs;
    }
    rs
  }

  function LanguageFilter(start: int, end: int, includeAll: bool): Filter
  {
    Filter(Some(Span(start, end)), None, includeAll)
  }

  /** The query of `top_languages` over the rows `es` of the kinds asked for. */
  function LanguagesQuery(es: seq<Entry>, start: int, end: int, includeAll: bool, limit: nat): seq<LanguageRow>
  {
    OrderLimit(LanguageRows(Select(es, LanguageFilter(start, end, includeAll))), LanguageKey, limit)
  }

  lemma LanguagesIsTopK(es: seq<Entry>, start: int, end: int, includeAll: bool, limit: nat)
    ensures IsTopK(LanguagesQuery(es, start, end, includeAll, limit),
                   LanguageRows(Select(es, LanguageFilter(start, end, includeAll))), LanguageKey, limit)
  {
    var rs := LanguageRows(Select(es, LanguageFilter(start, end, includeAll)));
    var gs := GroupsOf(LanguageFacts(Select(es, LanguageFilter(start, end, includeAll))));
    forall i, j | 0 <= i < |rs| && 0 <= j < |rs| && i != j ensures LanguageKey(rs[i]) != LanguageKey(rs[j]) {
      assert gs[i] != gs[j];
    }
    OrderLimitIsTopK(rs, LanguageKey, limit);
  }

  /** Without `include_all_languages` no row counts the entries lacking a language. */
  lemma LanguagesExcludeNull(es: seq<Entry>, start: int, end: int)
    ensures forall r :: r in LanguageRows(Select(es, LanguageFilter(start, end, false))) ==> r.language.Some?
  {
    var s := Select(es, LanguageFilter(start, end, false));
    var fs := LanguageFacts(s);
    forall r | r in LanguageRows(s) ensures r.language.Some? {
      var f :| f in fs && f.group == r.language;
      var i :| 0 <= i < |fs| && fs[i] == f;
      assert s[i] in s;
    }
  }

  /** Facts are taken row by row, so they split along a concatenation. */
  lemma LanguageFactsConcat(a: seq<Entry>, b: seq<Entry>)
    ensures LanguageFacts(a + b) == LanguageFacts(a) + LanguageFacts(b)
  {
    var l := LanguageFacts(a + b);
    assert forall i :: 0 <= i < |l| ==> l[i] == (LanguageFacts(a) + LanguageFacts(b))[i];
  }

  /**
   * The all-kinds count of a language is the repository count plus the
   * developer count: `UNION ALL` neither drops nor merges rows.
   */
  lemma UnionCountsAdd(repos: seq<Entry>, devs: seq<Entry>, f: Filter, language: Option<string>)
    ensures CountOf(LanguageFacts(Select(repos + devs, f)), language)
         == CountOf(LanguageFacts(Select(repos, f)), language) + CountOf(LanguageFacts(Select(devs, f)), language)
  {
    SelectConcat(repos, devs, f);
    var a := Select(repos, f);
    var b := Select(devs, f);
    LanguageFactsConcat(a, b);
    OfGroupConcat(LanguageFacts(a), LanguageFacts(b), language);
  }

  // ---------------------------------------------------------- top_newcomers

  /** One row of `top_newcomers`. */
  datatype NewcomerRow = NewcomerRow(name: string, firstSeen: int, best: int)

  /** `ORDER BY first_seen DESC, best_rank ASC, name ASC`. */
  function NewcomerKey(r: NewcomerRow): SortKey
  {
    SortKey(r.firstSeen, r.best, Some(r.name))
  }

  /** `r` is the `first_seen` row of its identity: earliest date and best rank over all its rows. */
  ghost predicate IsFirstSeen(fs: seq<Fact<string, int>>, r: NewcomerRow)
  {
    && (exists f :: f in fs && f.group == r.name && f.item == r.firstSeen)
    && (forall f :: f in fs && f.group == r.name ==> r.firstSeen <= f.item)
    && IsBestRank(fs, r.name, r.best)
  }

  /** The `first_seen` row of identity `g`: `MIN(date)` and `MIN(rank)` over its rows. */
  function FirstSeenRow(fs: seq<Fact<string, int>>, g: string): NewcomerRow
    requires |OfGroup(fs, g)| > 0
  {
    NewcomerRow(g, MinItem(OfGroup(fs, g)), MinRank(OfGroup(fs, g)))
  }

  /** The `first_seen` CTE: earliest date and best rank per identity. */
  function FirstSeenRows(fs: seq<Fact<string, int>>): (rs: seq<NewcomerRow>)
    ensures |rs| == |GroupsOf(fs)|
    ensures forall i :: 0 <= i < |rs| ==> rs[i].name == GroupsOf(fs)[i]
    ensures forall r :: r in rs ==> IsFirstSeen(fs, r)
  {
    var gs := GroupsOf(fs);
    forall i | 0 <= i < |gs| ensures |OfGroup(fs, gs[i])| > 0 && IsFirstSeen(fs, FirstSeenRow(fs, gs[i])) {
      FirstSeenRowIs(fs, gs[i]);
    }
    seq(|gs|, i requires 0 <= i < |gs| && |OfGroup(fs, gs[i])| > 0 => FirstSeenRow(fs, gs[i]))
  }

  /** The row built for an identity present in the log is its `first_seen` row. */
  lemma FirstSeenRowIs(fs: seq<Fact<string, int>>, g: string)
    requires g in GroupSet(fs)
    ensures |OfGroup(fs, g)| > 0 && IsFirstSeen(fs, FirstSeenRow(fs, g))
  {
    MinRankOfGroup(fs, g);
    FirstSeenOf(fs, g);
  }

  lemma FirstSeenOf(fs: seq<Fact<string, int>>, g: string)
    requires |OfGroup(fs, g)| > 0
    ensures var m := MinItem(OfGroup(fs, g));
      && (exists f :: f in fs && f.group == g && f.item == m)
      && (forall f :: f in fs && f.group == g ==> m <= f.item)
  {
    var r := OfGroup(fs, g);
    var m := MinItem(r);
    var i :| 0 <= i < |r| && r[i].item == m;
    assert r[i] in r;
    forall f | f in fs && f.group == g ensures m <= f.item {
      assert f in r;
      var j :| 0 <= j < |r| && r[j] == f;
    }
  }

  /** No two rows are about the same identity. */
  ghost predicate DistinctNames(rs: seq<NewcomerRow>)
  {
    forall i, j :: 0 <= i < j < |rs| ==> rs[i].name != rs[j].name
  }

  /** `WHERE first_seen BETWEEN start AND end`, keeping order. */
  function FirstSeenIn(rs: seq<NewcomerRow>, start: int, end: int): (r: seq<NewcomerRow>)
    ensures forall x :: x in r <==> x in rs && start <= x.firstSeen <= end
    ensures DistinctNames(rs) ==> DistinctNames(r)
  {
    if rs == [] then []
    else
      var rest := FirstSeenIn(rs[1..], start, end);
      if start <= rs[0].firstSeen <= end then
        assert DistinctNames(rs) ==> forall x :: x in rest ==> x.name != rs[0].name by {
          if DistinctNames(rs) {
            forall x | x in rest ensures x.name != rs[0].name {
              var k :| 1 <= k < |rs| && rs[k] == x;
            }
          }
        }
        [rs[0]] + rest
      else rest
  }

  /** The language filter of `first_seen`: no date range, the whole log counts. */
  function NewcomerFilter(language: Option<string>, includeAll: bool): Filter
  {
    Filter(None, language, includeAll)
  }

  /** All `top_newcomers` rows before `LIMIT`. */
  function NewcomerRows(log: seq<Entry>, start: int, end: int, language: Option<string>, includeAll: bool): seq<NewcomerRow>
  {
    FirstSeenIn(FirstSeenRows(DateFacts(Select(log, NewcomerFilter(language, includeAll)))), start, end)
  }

  /** The raw query of `top_newcomers`. */
  function NewcomersQuery(log: seq<Entry>, start: int, end: int, language: Option<string>,
                     includeAll: bool, limit: nat): seq<NewcomerRow>
  {
    OrderLimit(NewcomerRows(log, start, end, language, includeAll), NewcomerKey, limit)
  }

  /**
   * `top_newcomers` returns the first `limit` newcomers in key order; each
   * was first seen, over the whole filtered log and not just the window,
   * inside the window.
   */
  lemma NewcomersIsTopK(log: seq<Entry>, start: int, end: int, language: Option<string>,
                        includeAll: bool, limit: nat)
    ensures var fs := DateFacts(Select(log, NewcomerFilter(language, includeAll)));
      && IsTopK(NewcomersQuery(log, start, end, language, includeAll, limit),
                NewcomerRows(log, start, end, language, includeAll), NewcomerKey, limit)
      && (forall r :: r in NewcomerRows(log, start, end, language, includeAll) ==>
            IsFirstSeen(fs, r) && start <= r.firstSeen <= end)
  {
    var fs := DateFacts(Select(log, NewcomerFilter(language, includeAll)));
    var all := FirstSeenRows(fs);
    var rs := NewcomerRows(log, start, end, language, includeAll);
    var gs := GroupsOf(fs);
    assert DistinctNames(all) by {
      forall i, j | 0 <= i < j < |all| ensures all[i].name != all[j].name {
        assert gs[i] != gs[j];
      }
    }
    NewcomerRowsKeyed(all, start, end);
    OrderLimitIsTopK(rs, NewcomerKey, limit);
  }

  lemma NewcomerRowsKeyed(all: seq<NewcomerRow>, start: int, end: int)
    requires DistinctNames(all)
    ensures Keyed(FirstSeenIn(all, start, end), NewcomerKey)
  {
    var rs := FirstSeenIn(all, start, end);
    forall i, j | 0 <= i < |rs| && 0 <= j < |rs| && i != j ensures NewcomerKey(rs[i]) != NewcomerKey(rs[j]) {
      if i > j {
        assert rs[j].name != rs[i].name;
      }
    }
  }

  // ------------------------------------------------------------ top_streaks

  /** One row of `top_streaks`. */
  datatype StreakRow = StreakRow(name: string, run: Run)

  /** `ORDER BY streak_len DESC, best_rank ASC, name ASC`. */
  function StreakKey(r: StreakRow): SortKey
  {
    SortKey(r.run.len, r.run.best, Some(r.name))
  }

  /** The `longest` CTE at `rn = 1`: each identity's longest streak. */
  function StreakRows(fs: seq<Fact<string, int>>): (rs: seq<StreakRow>)
    ensures |rs| == |GroupsOf(fs)|
    ensures forall i :: 0 <= i < |rs| ==> rs[i].name == GroupsOf(fs)[i] && rs[i].name in GroupSet(fs)
    ensures forall r :: r in rs ==> r.name in GroupSet(fs) && r.run == StreakOf(fs, r.name)
  {
    var gs := GroupsOf(fs);
    var rs := seq(|gs|, i requires 0 <= i < |gs| && gs[i] in GroupSet(fs) => StreakRow(gs[i], StreakOf(fs, gs[i])));
    forall i | 0 <= i < |gs| ensures gs[i] in GroupSet(fs) {
      assert gs[i] in gs;
    }
    rs
  }

  /** All `top_streaks` rows before `LIMIT`. */
  function AllStreakRows(log: seq<Entry>, start: int, end: int, language: Option<string>, includeAll: bool): seq<StreakRow>
  {
    StreakRows(DateFacts(Select(log, ReappearingFilter(start, end, language, includeAll))))
  }

  /** The raw query of `top_streaks`. */
  function StreaksQuery(log: seq<Entry>, start: int, end: int, language: Option<string>,
                   includeAll: bool, limit: nat): seq<StreakRow>
  {
    OrderLimit(AllStreakRows(log, start, end, language, includeAll), StreakKey, limit)
  }

  /**
   * `top_streaks` returns the first `limit` identities by their longest
   * streak, and each streak is the identity's longest run of consecutive
   * dates within the window, with the best rank held during it.
   */
  lemma StreaksIsTopK(log: seq<Entry>, start: int, end: int, language: Option<string>,
                      includeAll: bool, limit: nat)
    ensures var fs := DateFacts(Select(log, ReappearingFilter(start, end, language, includeAll)));
      && IsTopK(StreaksQuery(log, start, end, language, includeAll, limit),
                AllStreakRows(log, start, end, language, includeAll), StreakKey, limit)
      && (forall r :: r in AllStreakRows(log, start, end, language, includeAll) ==>
            IsLongestStretch(ItemsOf(fs, r.name), r.run))
  {
    var fs := DateFacts(Select(log, ReappearingFilter(start, end, language, includeAll)));
    var rs := StreakRows(fs);
    var gs := GroupsOf(fs);
    forall i, j | 0 <= i < |rs| && 0 <= j < |rs| && i != j ensures StreakKey(rs[i]) != StreakKey(rs[j]) {
      assert gs[i] != gs[j];
    }
    OrderLimitIsTopK(rs, StreakKey, limit);
    forall r | r in rs ensures IsLongestStretch(ItemsOf(fs, r.name), r.run) {
      StreakOfGroup(fs, r.name);
    }
  }

  /** A streak lies inside the requested window. */
  lemma StreakWithinWindow(log: seq<Entry>, start: int, end: int, language: Option<string>, includeAll: bool)
    ensures forall r :: r in AllStreakRows(log, start, end, language, includeAll) ==>
      start <= r.run.start && r.run.end <= end
  {
    var s := Select(log, ReappearingFilter(start, end, language, includeAll));
    var fs := DateFacts(s);
    forall r | r in StreakRows(fs) ensures start <= r.run.start && r.run.end <= end {
      WindowDates(s, start, end, r.name);
      StreakInside(fs, r.name, start, end);
    }
  }

  lemma WindowDates(s: seq<Entry>, start: int, end: int, g: string)
    requires forall e :: e in s ==> start <= e.date <= end
    ensures forall d :: d in ItemsOf(DateFacts(s), g) ==> start <= d <= end
  {
    var fs := DateFacts(s);
    forall d | d in ItemsOf(fs, g) ensures start <= d <= end {
      var f :| f in fs && f.group == g && f.item == d;
      var i :| 0 <= i < |fs| && fs[i] == f;
      assert s[i] in s;
    }
  }

  lemma StreakInside(fs: seq<Fact<string, int>>, g: string, lo: int, hi: int)
    requires g in GroupSet(fs)
    requires forall d :: d in ItemsOf(fs, g) ==> lo <= d <= hi
    ensures lo <= StreakOf(fs, g).start && StreakOf(fs, g).end <= hi
  {
    StreakOfGroup(fs, g);
    var l := StreakOf(fs, g);
    assert l.start in ItemsOf(fs, g) && l.end in ItemsOf(fs, g);
  }
}
