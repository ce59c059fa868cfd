/**
 * The gaps-and-islands computation of `top_streaks`
 * (py/gh_trending_analytics/query.py:543-573).
 *
 * For one identity: collapse its rows to one `Day` per date carrying the best
 * rank of that date (`base`), walk the days in date order and start a new run
 * whenever the gap to the previous day is not exactly one (`ordered`,
 * `groups`), summarise each run (`streaks`), and keep the longest run, the
 * later end winning a tie in length (`longest`, `rn = 1`).
 */
module Streaks {
  import opened Prelude
  import opened Grouping

  /** One row of `base`: a date on which the identity appears, and its best rank that day. */
  datatype Day = Day(date: int, best: int)

  /** One row of `streaks`: a run's first and last date, its row count and its best rank. */
  datatype Run = Run(start: int, end: int, len: nat, best: int)

  /** Strictly increasing dates, as `ORDER BY date` over `GROUP BY date` yields them. */
  ghost predicate Ascending(days: seq<Day>)
  {
    forall i, j :: 0 <= i < j < |days| ==> days[i].date < days[j].date
  }

  ghost function Dates(days: seq<Day>): set<int>
  {
    set x | x in days :: x.date
  }

  /** Every day from `a` to `b` is in `dates`. */
  ghost predicate Consecutive(dates: set<int>, a: int, b: int)
  {
    forall d :: a <= d <= b ==> d in dates
  }

  /**
   * Puts day `d` in front of the runs of the later days: `d` joins the first
   * run exactly when the gap to its first day is one day, and starts a run of
   * its own otherwise.
   */
  function Extend(d: Day, rest: seq<Run>): (rs: seq<Run>)
  {
    if |rest| > 0 && rest[0].start - d.date == 1 then
      [Run(d.date, rest[0].end, rest[0].len + 1, Min(d.best, rest[0].best))] + rest[1..]
    else
      [Run(d.date, d.date, 1, d.best)] + rest
  }

  /** Splits ascending days into runs of consecutive days. */
  function Runs(days: seq<Day>): (rs: seq<Run>)
    ensures |rs| <= |days|
    ensures |days| > 0 ==> |rs| > 0 && rs[0].start == days[0].date
  {
    if days == [] then [] else Extend(days[0], Runs(days[1..]))
  }

  ghost function DaySet(days: seq<Day>): set<Day>
  {
    set x | x in days
  }

  /** Runs are ordered, separated by a gap, and `len` counts their calendar days. */
  ghost predicate Formed(rs: seq<Run>)
  {
    && (forall i :: 0 <= i < |rs| ==> rs[i].start <= rs[i].end && rs[i].len == rs[i].end - rs[i].start + 1)
    && (forall i, j :: 0 <= i < j < |rs| ==> rs[i].end + 1 < rs[j].start)
  }

  /** Every run lies within `dates`, and every date lies within a run. */
  ghost predicate Covers(dates: set<int>, rs: seq<Run>)
  {
    Inside(dates, rs) && Reaches(dates, rs)
  }

  ghost predicate Inside(dates: set<int>, rs: seq<Run>)
  {
    forall i :: 0 <= i < |rs| ==> Consecutive(dates, rs[i].start, rs[i].end)
  }

  ghost predicate Reaches(dates: set<int>, rs: seq<Run>)
  {
    forall d :: d in dates ==> exists i :: 0 <= i < |rs| && rs[i].start <= d <= rs[i].end
  }

  /** No run could be extended by a date on either side. */
  ghost predicate Maximal(dates: set<int>, rs: seq<Run>)
  {
    forall i :: 0 <= i < |rs| ==> rs[i].start - 1 !in dates && rs[i].end + 1 !in dates
  }

  /** Each run's best rank is the least day-best within it, and some day has it. */
  ghost predicate BestOf(ds: set<Day>, rs: seq<Run>)
  {
    BestBound(ds, rs) && BestWitness(ds, rs)
  }

  ghost predicate BestBound(ds: set<Day>, rs: seq<Run>)
  {
    forall i, x :: 0 <= i < |rs| && x in ds && rs[i].start <= x.date <= rs[i].end ==> rs[i].best <= x.best
  }

  ghost predicate BestWitness(ds: set<Day>, rs: seq<Run>)
  {
    forall i :: 0 <= i < |rs| ==> exists x :: x in ds && rs[i].start <= x.date <= rs[i].end && x.best == rs[i].best
  }

  /** `d` comes strictly before every date of `dates`. */
  ghost predicate Below(d: Day, dates: set<int>)
  {
    forall x :: x in dates ==> d.date < x
  }

  lemma ExtendFormed(d: Day, rest: seq<Run>, dates: set<int>)
    requires Formed(rest) && Covers(dates, rest) && Below(d, dates)
    ensures Formed(Extend(d, rest))
  {
    var rs := Extend(d, rest);
    if |rest| > 0 {
      assert rest[0].start in dates;
      forall j | 0 < j < |rest| ensures rest[0].start < rest[j].start {
        assert rest[0].end + 1 < rest[j].start;
      }
    }
    if |rest| > 0 && rest[0].start - d.date == 1 {
      forall i, j | 0 <= i < j < |rs| ensures rs[i].end + 1 < rs[j].start {
        assert rs[j] == rest[j];
        if i > 0 {
          assert rs[i] == rest[i];
        }
      }
    } else {
      forall i, j | 0 <= i < j < |rs| ensures rs[i].end + 1 < rs[j].start {
        assert rs[j] == rest[j - 1];
        if i > 0 {
          assert rs[i] == rest[i - 1];
        }
      }
    }
  }

  lemma ExtendInside(d: Day, rest: seq<Run>, dates: set<int>)
    requires Inside(dates, rest)
    ensures Inside(dates + {d.date}, Extend(d, rest))
  {
    var rs := Extend(d, rest);
    var all := dates + {d.date};
    if |rest| > 0 && rest[0].start - d.date == 1 {
      assert Consecutive(dates, rest[0].start, rest[0].end);
      forall i | 0 < i < |rs| ensures Consecutive(all, rs[i].start, rs[i].end) {
        assert rs[i] == rest[i];
        assert Consecutive(dates, rest[i].start, rest[i].end);
      }
    } else {
      forall i | 0 < i < |rs| ensures Consecutive(all, rs[i].start, rs[i].end) {
        assert rs[i] == rest[i - 1];
        assert Consecutive(dates, rest[i - 1].start, rest[i - 1].end);
      }
    }
  }

  lemma ExtendReaches(d: Day, rest: seq<Run>, dates: set<int>)
    requires Formed(rest) && Reaches(dates, rest)
    ensures Reaches(dates + {d.date}, Extend(d, rest))
  {
    if |rest| > 0 && rest[0].start - d.date == 1 {
      MergedReaches(d, rest, dates);
    } else {
      SeparateReaches(d, rest, dates);
    }
  }

  /** `d` joins the first run: every date still lies within a run. */
  lemma MergedReaches(d: Day, rest: seq<Run>, dates: set<int>)
    requires Formed(rest) && Reaches(dates, rest)
    requires |rest| > 0 && rest[0].start - d.date == 1
    ensures Reaches(dates + {d.date}, Extend(d, rest))
  {
    var rs := Extend(d, rest);
    forall x | x in dates + {d.date} ensures exists i :: 0 <= i < |rs| && rs[i].start <= x <= rs[i].end {
      if x == d.date {
        assert rest[0].start <= rest[0].end;
        assert rs[0].start <= x <= rs[0].end;
      } else {
        var i :| 0 <= i < |rest| && rest[i].start <= x <= rest[i].end;
        if i > 0 {
          assert rs[i] == rest[i];
        } else {
          assert rs[0].start <= x <= rs[0].end;
        }
      }
    }
  }

  /** `d` opens a run of its own: every date still lies within a run. */
  lemma SeparateReaches(d: Day, rest: seq<Run>, dates: set<int>)
    requires Reaches(dates, rest)
    requires !(|rest| > 0 && rest[0].start - d.date == 1)
    ensures Reaches(dates + {d.date}, Extend(d, rest))
  {
    var rs := Extend(d, rest);
    forall x | x in dates + {d.date} ensures exists i :: 0 <= i < |rs| && rs[i].start <= x <= rs[i].end {
      if x == d.date {
        assert rs[0].start <= x <= rs[0].end;
      } else {
        var i :| 0 <= i < |rest| && rest[i].start <= x <= rest[i].end;
        assert rs[i + 1] == rest[i];
      }
    }
  }

  lemma ExtendMaximal(d: Day, rest: seq<Run>, dates: set<int>)
    requires Formed(rest) && Covers(dates, rest) && Maximal(dates, rest) && Below(d, dates)
    ensures Maximal(dates + {d.date}, Extend(d, rest))
  {
    RestAfter(d, rest, dates);
    NextDayOpensRest(d, rest, dates);
    if |rest| > 0 && rest[0].start - d.date == 1 {
      MergedMaximal(d, rest, dates);
    } else {
      SeparateMaximal(d, rest, dates);
    }
  }

  /** When the day after `d` is a date, the first later run starts on it. */
  lemma NextDayOpensRest(d: Day, rest: seq<Run>, dates: set<int>)
    requires Formed(rest) && Reaches(dates, rest)
    requires forall i :: 0 <= i < |rest| ==> d.date < rest[i].start
    ensures d.date + 1 in dates ==> |rest| > 0 && rest[0].start == d.date + 1
  {
    if d.date + 1 in dates {
      var i :| 0 <= i < |rest| && rest[i].start <= d.date + 1 <= rest[i].end;
    }
  }

  /** `d` joins the first run: the merged run and the later ones stay maximal. */
  lemma MergedMaximal(d: Day, rest: seq<Run>, dates: set<int>)
    requires Formed(rest) && Maximal(dates, rest) && Below(d, dates)
    requires |rest| > 0 && rest[0].start - d.date == 1
    ensures Maximal(dates + {d.date}, Extend(d, rest))
  {
    var rs := Extend(d, rest);
    forall i | 0 <= i < |rs| ensures rs[i].start - 1 !in dates + {d.date} && rs[i].end + 1 !in dates + {d.date} {
      if i > 0 {
        assert rs[i] == rest[i];
        assert rest[0].end + 1 < rest[i].start;
      }
    }
  }

  /** `d` opens a run of its own: it and the later runs stay maximal. */
  lemma SeparateMaximal(d: Day, rest: seq<Run>, dates: set<int>)
    requires Formed(rest) && Maximal(dates, rest) && Below(d, dates)
    requires forall i :: 0 <= i < |rest| ==> d.date < rest[i].start
    requires d.date + 1 !in dates
    requires !(|rest| > 0 && rest[0].start - d.date == 1)
    ensures Maximal(dates + {d.date}, Extend(d, rest))
  {
    var rs := Extend(d, rest);
    forall i | 0 <= i < |rs| ensures rs[i].start - 1 !in dates + {d.date} && rs[i].end + 1 !in dates + {d.date} {
      if i > 1 {
        assert rs[i] == rest[i - 1];
        assert rest[0].end + 1 < rest[i - 1].start;
      } else if i == 1 {
        assert rs[1] == rest[0];
      }
    }
  }

  /** Every run of `rest` starts after `d`. */
  lemma RestAfter(d: Day, rest: seq<Run>, dates: set<int>)
    requires Formed(rest) && Inside(dates, rest) && Below(d, dates)
    ensures forall i :: 0 <= i < |rest| ==> d.date < rest[i].start
  {
    forall i | 0 <= i < |rest| ensures d.date < rest[i].start {
      assert Consecutive(dates, rest[i].start, rest[i].end);
      assert rest[i].start in dates;
    }
  }

  lemma ExtendBestBound(d: Day, rest: seq<Run>, dates: set<int>, ds: set<Day>)
    requires BestBound(ds, rest) && Below(d, dates)
    requires forall i :: 0 <= i < |rest| ==> d.date < rest[i].start
    requires forall x :: x in ds ==> x.date in dates
    ensures BestBound(ds + {d}, Extend(d, rest))
  {
    var rs := Extend(d, rest);
    var merged := |rest| > 0 && rest[0].start - d.date == 1;
    forall i, x | 0 <= i < |rs| && x in ds + {d} && rs[i].start <= x.date <= rs[i].end
      ensures rs[i].best <= x.best
    {
      if i > 0 && merged {
        assert rs[i] == rest[i];
      } else if i > 0 {
        assert rs[i] == rest[i - 1];
      } else if x != d {
        assert x.date in dates;
      }
    }
  }

  lemma ExtendBestWitness(d: Day, rest: seq<Run>, ds: set<Day>)
    requires BestWitness(ds, rest)
    ensures BestWitness(ds + {d}, Extend(d, rest))
  {
    var rs := Extend(d, rest);
    var all := ds + {d};
    var merged := |rest| > 0 && rest[0].start - d.date == 1;
    forall i | 0 <= i < |rs| ensures exists x :: x in all && rs[i].start <= x.date <= rs[i].end && x.best == rs[i].best {
      if i == 0 && (!merged || rs[0].best == d.best) {
        assert d in all;
      } else {
        var k := if merged then i else i - 1;
        assert rs[i].end == rest[k].end && rs[i].best == rest[k].best && rs[i].start <= rest[k].start;
        var x :| x in ds && rest[k].start <= x.date <= rest[k].end && x.best == rest[k].best;
        assert x in all;
      }
    }
  }

  lemma DaysTail(days: seq<Day>)
    requires Ascending(days) && |days| > 0
    ensures Dates(days) == Dates(days[1..]) + {days[0].date}
    ensures DaySet(days) == DaySet(days[1..]) + {days[0]}
    ensures Below(days[0], Dates(days[1..]))
    ensures Ascending(days[1..])
  {
    assert days == [days[0]] + days[1..];
  }

  /** The runs of ascending days tile their dates into maximal runs with their best ranks. */
  lemma {:induction false} RunsTile(days: seq<Day>)
    requires Ascending(days)
    ensures var rs := Runs(days);
      Formed(rs) && Covers(Dates(days), rs) && Maximal(Dates(days), rs) && BestOf(DaySet(days), rs)
  {
    if days != [] {
      var rest := Runs(days[1..]);
      DaysTail(days);
      RunsTile(days[1..]);
      var dates := Dates(days[1..]);
      assert forall x :: x in DaySet(days[1..]) ==> x.date in dates;
      ExtendFormed(days[0], rest, dates);
      ExtendInside(days[0], rest, dates);
      ExtendReaches(days[0], rest, dates);
      ExtendMaximal(days[0], rest, dates);
      RestAfter(days[0], rest, dates);
      ExtendBestBound(days[0], rest, dates, DaySet(days[1..]));
      ExtendBestWitness(days[0], rest, DaySet(days[1..]));
    }
  }

  /** `ROW_NUMBER() OVER (ORDER BY streak_len DESC, streak_end DESC) = 1`. */
  function Longest(rs: seq<Run>): (l: Run)
    requires |rs| > 0
    ensures l in rs
    ensures forall r :: r in rs ==> r.len < l.len || (r.len == l.len && r.end <= l.end)
  {
    if |rs| == 1 then rs[0]
    else
      var l := Longest(rs[1..]);
      assert forall r :: r in rs ==> r == rs[0] || r in rs[1..];
      if rs[0].len > l.len || (rs[0].len == l.len && rs[0].end > l.end) then rs[0] else l
  }

  /** `l` spans a maximal stretch of consecutive `dates` and `len` counts its dates. */
  ghost predicate IsStretch(dates: set<int>, l: Run)
  {
    && l.len == l.end - l.start + 1
    && Consecutive(dates, l.start, l.end)
    && l.start - 1 !in dates && l.end + 1 !in dates
  }

  /** No stretch of consecutive `dates` is longer than `l`, and none as long ends later. */
  ghost predicate NoneLonger(dates: set<int>, l: Run)
  {
    forall a, b :: a <= b && Consecutive(dates, a, b) ==>
      b - a + 1 < l.len || (b - a + 1 == l.len && b <= l.end)
  }

  ghost predicate IsLongestStretch(dates: set<int>, l: Run)
  {
    IsStretch(dates, l) && NoneLonger(dates, l)
  }

  /** `l.best` is the least day-best within `l`, attained on one of its days. */
  ghost predicate BestWithin(ds: set<Day>, l: Run)
  {
    && (forall x :: x in ds && l.start <= x.date <= l.end ==> l.best <= x.best)
    && (exists x :: x in ds && l.start <= x.date <= l.end && x.best == l.best)
  }

  ghost predicate IsLongestRun(dates: set<int>, ds: set<Day>, l: Run)
  {
    IsLongestStretch(dates, l) && BestWithin(ds, l)
  }

  /** The streak `top_streaks` reports for a non-empty list of ascending days is their longest run. */
  lemma LongestStreak(days: seq<Day>)
    requires Ascending(days) && |days| > 0
    ensures IsLongestRun(Dates(days), DaySet(days), Longest(Runs(days)))
  {
    RunsTile(days);
    TiledLongest(Dates(days), DaySet(days), Runs(days));
  }

  /** The run `Longest` picks from a tiling is the longest run. */
  lemma TiledLongest(dates: set<int>, ds: set<Day>, rs: seq<Run>)
    requires Formed(rs) && Covers(dates, rs) && Maximal(dates, rs) && BestOf(ds, rs)
    requires |rs| > 0
    ensures IsLongestRun(dates, ds, Longest(rs))
  {
    var l := Longest(rs);
    var i :| 0 <= i < |rs| && rs[i] == l;
    RunFacts(dates, ds, rs, i);
    NothingLonger(dates, rs, l);
  }

  /** What the tiling predicates say about one run. */
  lemma RunFacts(dates: set<int>, ds: set<Day>, rs: seq<Run>, i: nat)
    requires Formed(rs) && Inside(dates, rs) && Maximal(dates, rs) && BestOf(ds, rs)
    requires i < |rs|
    ensures IsStretch(dates, rs[i]) && BestWithin(ds, rs[i])
  {
  }

  /** A stretch of consecutive dates fits inside the run holding its first date. */
  lemma NothingLonger(dates: set<int>, rs: seq<Run>, l: Run)
    requires Formed(rs) && Reaches(dates, rs) && Maximal(dates, rs)
    requires forall r :: r in rs ==> r.len < l.len || (r.len == l.len && r.end <= l.end)
    ensures NoneLonger(dates, l)
  {
    forall a, b | a <= b && Consecutive(dates, a, b)
      ensures b - a + 1 < l.len || (b - a + 1 == l.len && b <= l.end)
    {
      assert a in dates;
      var j :| 0 <= j < |rs| && rs[j].start <= a <= rs[j].end;
      assert rs[j] in rs;
      var e := rs[j].end;
      assert e < b ==> e + 1 in dates;
    }
  }

  ghost predicate StrictlyIncreasing(s: seq<int>)
  {
    forall i, j :: 0 <= i < j < |s| ==> s[i] < s[j]
  }

  /** Inserts `d` into a strictly increasing list unless it is there already. */
  function InsertDate(d: int, s: seq<int>): (r: seq<int>)
    requires StrictlyIncreasing(s)
    ensures StrictlyIncreasing(r)
    ensures forall x :: x in r <==> x == d || x in s
  {
    if s == [] then [d]
    else if d < s[0] then [d] + s
    else if d == s[0] then s
    else
      var rest := InsertDate(d, s[1..]);
      assert forall x :: x in s <==> x == s[0] || x in s[1..];
      assert forall i :: 0 <= i < |rest| ==> s[0] < rest[i] by {
        forall i | 0 <= i < |rest| ensures s[0] < rest[i] {
          assert rest[i] in rest;
        }
      }
      [s[0]] + rest
  }

  /** The distinct dates of `fs`, ascending: `GROUP BY date ORDER BY date`. */
  function SortedDates<G(==,!new)>(fs: seq<Fact<G, int>>): (r: seq<int>)
    ensures StrictlyIncreasing(r)
    ensures forall x :: x in r <==> exists f :: f in fs && f.item == x
  {
    if fs == [] then []
    else
      assert forall f :: f in fs <==> f == fs[0] || f in fs[1..] by {
        assert fs == [fs[0]] + fs[1..];
      }
      InsertDate(fs[0].item, SortedDates(fs[1..]))
  }

  /** The rows of `fs` dated `d`. */
  function OnDate<G(==,!new)>(fs: seq<Fact<G, int>>, d: int): (r: seq<Fact<G, int>>)
    ensures forall f :: f in r <==> f in fs && f.item == d
  {
    if fs == [] then []
    else if fs[0].item == d then [fs[0]] + OnDate(fs[1..], d)
    else OnDate(fs[1..], d)
  }

  /** `x.best` is the least rank of group `g` on `x.date`, and a row has it. */
  ghost predicate DayBestIs<G(!new)>(fs: seq<Fact<G, int>>, g: G, x: Day)
  {
    && (forall f :: f in fs && f.group == g && f.item == x.date ==> x.best <= f.rank)
    && (exists f :: f in fs && f.group == g && f.item == x.date && f.rank == x.best)
  }

  /** The `base` rows of group `g`: one per date, with its best rank, in date order. */
  function DaysOf<G(==,!new)>(fs: seq<Fact<G, int>>, g: G): (days: seq<Day>)
    ensures Ascending(days)
    ensures Dates(days) == ItemsOf(fs, g)
    ensures forall x :: x in days ==> DayBestIs(fs, g, x)
  {
    var r := OfGroup(fs, g);
    var ds := SortedDates(r);
    forall i | 0 <= i < |ds| ensures |OnDate(r, ds[i])| > 0 {
      assert ds[i] in ds;
      var f :| f in r && f.item == ds[i];
      assert f in OnDate(r, ds[i]);
    }
    var days := seq(|ds|, i requires 0 <= i < |ds| && |OnDate(r, ds[i])| > 0 => DayOn(r, ds[i]));
    DatesOfDays(fs, g, ds, days);
    forall x | x in days ensures DayBestIs(fs, g, x) {
      var i :| 0 <= i < |days| && days[i] == x;
      assert days[i] == DayOn(r, ds[i]);
    }
    days
  }

  lemma DatesOfDays<G(!new)>(fs: seq<Fact<G, int>>, g: G, ds: seq<int>, days: seq<Day>)
    requires ds == SortedDates(OfGroup(fs, g))
    requires |days| == |ds| && forall i :: 0 <= i < |ds| ==> days[i].date == ds[i]
    ensures Ascending(days)
    ensures Dates(days) == ItemsOf(fs, g)
  {
    var r := OfGroup(fs, g);
    forall d ensures d in Dates(days) <==> d in ItemsOf(fs, g) {
      if d in ItemsOf(fs, g) {
        var f :| f in fs && f.group == g && f.item == d;
        assert f in r;
        assert d in ds;
        var i :| 0 <= i < |ds| && ds[i] == d;
        assert days[i] in days;
      }
      if d in Dates(days) {
        var x :| x in days && x.date == d;
        var i :| 0 <= i < |days| && days[i] == x;
        assert ds[i] in ds;
      }
    }
  }

  /** The `base` row of the rows `r` on date `d`, one of their dates. */
  function DayOn<G(==,!new)>(r: seq<Fact<G, int>>, d: int): (x: Day)
    requires |OnDate(r, d)| > 0
    ensures x.date == d
    ensures forall f :: f in r && f.item == d ==> x.best <= f.rank
    ensures exists f :: f in r && f.item == d && f.rank == x.best
  {
    var on := OnDate(r, d);
    var m := MinRank(on);
    var i :| 0 <= i < |on| && on[i].rank == m;
    assert on[i] in on;
    assert forall f :: f in on ==> m <= f.rank by {
      forall f | f in on ensures m <= f.rank {
        var j :| 0 <= j < |on| && on[j] == f;
      }
    }
    Day(d, m)
  }

  /**
   * The streak row of identity `g`: `streak_start`, `streak_end`,
   * `streak_len` and `best_rank` of its longest run.
   */
  function StreakOf<G(==,!new)>(fs: seq<Fact<G, int>>, g: G): (l: Run)
    requires g in GroupSet(fs)
  {
    var days := DaysOf(fs, g);
    var f :| f in fs && f.group == g;
    assert f.item in Dates(days);
    Longest(Runs(days))
  }

  /**
   * The streak reported for identity `g` is its longest run of consecutive
   * dates, the later one on a tie, and its best rank is the least rank `g`
   * holds on any date of that run.
   */
  lemma StreakOfGroup<G(!new)>(fs: seq<Fact<G, int>>, g: G)
    requires g in GroupSet(fs)
    ensures var l := StreakOf(fs, g);
      && IsLongestStretch(ItemsOf(fs, g), l)
      && (forall f :: f in fs && f.group == g && l.start <= f.item <= l.end ==> l.best <= f.rank)
      && (exists f :: f in fs && f.group == g && l.start <= f.item <= l.end && f.rank == l.best)
  {
    var days := DaysOf(fs, g);
    var l := StreakOf(fs, g);
    LongestStreak(days);
    assert BestWithin(DaySet(days), l);
    forall f | f in fs && f.group == g && l.start <= f.item <= l.end ensures l.best <= f.rank {
      assert f.item in Dates(days);
      var x :| x in days && x.date == f.item;
      assert DayBestIs(fs, g, x);
      assert x in DaySet(days);
    }
    var x :| x in DaySet(days) && l.start <= x.date <= l.end && x.best == l.best;
    assert DayBestIs(fs, g, x);
  }
}
