/**
 * `GROUP BY` with `COUNT(*)`, `COUNT(DISTINCT ...)` and `MIN(...)`.
 *
 * Each ranked query of py/gh_trending_analytics/query.py first filters the
 * entry log and then aggregates per group. A `Fact` is one filtered row seen
 * through the query: the column it groups by, the column it counts distinct
 * values of (a date, a repository name, ...), and its rank.
 */
module Grouping {
  import opened Prelude

  datatype Fact<G, I> = Fact(group: G, item: I, rank: int)

  /** The groups present among `fs`. */
  ghost function GroupSet<G, I>(fs: seq<Fact<G, I>>): set<G>
  {
    set f | f in fs :: f.group
  }

  /** One entry per distinct group of `fs`. */
  function GroupsOf<G(==,!new), I(!new)>(fs: seq<Fact<G, I>>): (gs: seq<G>)
    ensures NoDuplicates(gs)
    ensures forall g :: g in gs <==> g in GroupSet(fs)
  {
    if fs == [] then []
    else
      var rest := GroupsOf(fs[1..]);
      assert forall g :: g in GroupSet(fs) <==> g == fs[0].group || g in GroupSet(fs[1..]) by {
        assert fs == [fs[0]] + fs[1..];
      }
      if fs[0].group in rest then rest
      else
        assert forall i :: 0 <= i < |rest| ==> rest[i] != fs[0].group;
        [fs[0].group] + rest
  }

  /** The rows of group `g`, in log order. */
  function OfGroup<G(==,!new), I(!new)>(fs: seq<Fact<G, I>>, g: G): (r: seq<Fact<G, I>>)
    ensures forall f :: f in r <==> f in fs && f.group == g
    ensures |r| <= |fs|
  {
    if fs == [] then []
    else if fs[0].group == g then [fs[0]] + OfGroup(fs[1..], g)
    else OfGroup(fs[1..], g)
  }

  /** The rows of a group in a `UNION ALL` are its rows in each part, one part after the other. */
  lemma {:induction false} OfGroupConcat<G(!new), I(!new)>(a: seq<Fact<G, I>>, b: seq<Fact<G, I>>, g: G)
    ensures OfGroup(a + b, g) == OfGroup(a, g) + OfGroup(b, g)
  {
    if a != [] {
      assert (a + b)[1..] == a[1..] + b;
      OfGroupConcat(a[1..], b, g);
    } else {
      assert a + b == b;
    }
  }

  /** `COUNT(*)` of group `g`. */
  function CountOf<G(==,!new), I(!new)>(fs: seq<Fact<G, I>>, g: G): nat
  {
    |OfGroup(fs, g)|
  }

  /** The distinct values group `g` takes in the counted column. */
  ghost function ItemsOf<G, I>(fs: seq<Fact<G, I>>, g: G): set<I>
  {
    set f | f in fs && f.group == g :: f.item
  }

  /** `COUNT(DISTINCT item)` of group `g`, computed one row at a time. */
  function DistinctCount<G(==,!new), I(==,!new)>(fs: seq<Fact<G, I>>, g: G): (n: nat)
    ensures n == |ItemsOf(fs, g)|
  {
    var r := OfGroup(fs, g);
    DistinctItems(r, {}, g);
    assert ItemsOf(fs, g) == set f | f in r :: f.item;
    |Distinct(r, {})|
  }

  /** `seen` plus the counted values of `fs`. */
  function Distinct<G, I(==)>(fs: seq<Fact<G, I>>, seen: set<I>): (r: set<I>)
  {
    if fs == [] then seen else Distinct(fs[1..], seen + {fs[0].item})
  }

  lemma {:induction false} DistinctItems<G(!new), I(!new)>(fs: seq<Fact<G, I>>, seen: set<I>, g: G)
    requires forall f :: f in fs ==> f.group == g
    ensures Distinct(fs, seen) == seen + set f | f in fs :: f.item
  {
    if fs != [] {
      DistinctItems(fs[1..], seen + {fs[0].item}, g);
      assert (set f | f in fs :: f.item) == {fs[0].item} + set f | f in fs[1..] :: f.item by {
        assert fs == [fs[0]] + fs[1..];
      }
    }
    else {
      assert (set f | f in fs :: f.item) == {};
    }
    assert (set f | f in fs :: f.item) == (set f | f in fs && f.group == g :: f.item);
  }

  /** A group never holds more distinct values than rows: day presence is at most occurrence presence. */
  lemma {:induction false} DistinctAtMostCount<G(!new), I(!new)>(fs: seq<Fact<G, I>>, g: G)
    ensures DistinctCount(fs, g) <= CountOf(fs, g)
  {
    var r := OfGroup(fs, g);
    DistinctAtMostRows(r);
    assert ItemsOf(fs, g) == set f | f in r :: f.item;
  }

  lemma {:induction false} DistinctAtMostRows<G, I>(fs: seq<Fact<G, I>>)
    ensures |set f | f in fs :: f.item| <= |fs|
  {
    if fs != [] {
      DistinctAtMostRows(fs[1..]);
      assert (set f | f in fs :: f.item) == {fs[0].item} + set f | f in fs[1..] :: f.item by {
        assert fs == [fs[0]] + fs[1..];
      }
    } else {
      assert (set f | f in fs :: f.item) == {};
    }
  }

  /** `MIN(rank)` over a non-empty run of rows. */
  function MinRank<G, I>(fs: seq<Fact<G, I>>): (m: int)
    requires |fs| > 0
    ensures exists i :: 0 <= i < |fs| && fs[i].rank == m
    ensures forall i :: 0 <= i < |fs| ==> m <= fs[i].rank
  {
    if |fs| == 1 then fs[0].rank
    else
      var m := MinRank(fs[1..]);
      assert forall i :: 1 <= i < |fs| ==> fs[1..][i - 1] == fs[i];
      if fs[0].rank <= m then fs[0].rank else m
  }

  /** `MIN(item)` over a non-empty run of rows whose counted column is a date. */
  function MinItem<G>(fs: seq<Fact<G, int>>): (m: int)
    requires |fs| > 0
    ensures exists i :: 0 <= i < |fs| && fs[i].item == m
    ensures forall i :: 0 <= i < |fs| ==> m <= fs[i].item
  {
    if |fs| == 1 then fs[0].item
    else
      var m := MinItem(fs[1..]);
      assert forall i :: 1 <= i < |fs| ==> fs[1..][i - 1] == fs[i];
      if fs[0].item <= m then fs[0].item else m
  }

  /** `b` is the least rank among the rows of group `g`, and one of them has it. */
  ghost predicate IsBestRank<G, I>(fs: seq<Fact<G, I>>, g: G, b: int)
  {
    && (exists f :: f in fs && f.group == g && f.rank == b)
    && (forall f :: f in fs && f.group == g ==> b <= f.rank)
  }

  /** The minimum over the rows of a group is its best rank. */
  lemma MinRankOfGroup<G(!new), I(!new)>(fs: seq<Fact<G, I>>, g: G)
    requires g in GroupSet(fs)
    ensures |OfGroup(fs, g)| > 0
    ensures IsBestRank(fs, g, MinRank(OfGroup(fs, g)))
  {
    var r := OfGroup(fs, g);
    var f :| f in fs && f.group == g;
    assert f in r;
    var m := MinRank(r);
    var i :| 0 <= i < |r| && r[i].rank == m;
    assert r[i] in fs;
    forall f' | f' in fs && f'.group == g ensures m <= f'.rank {
      assert f' in r;
      var j :| 0 <= j < |r| && r[j] == f';
    }
  }
}
