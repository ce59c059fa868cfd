/**
 * The `ORDER BY ... LIMIT n` clauses of the analytics queries.
 *
 * Every ranked query of py/gh_trending_analytics/query.py orders by a count
 * descending, then a rank ascending, then a name ascending. `SortKey` is that
 * triple and `Before` the strict order it induces; `OrderLimit` sorts and
 * truncates. Names compare by code point, which is the byte order of their
 * UTF-8 encoding (DuckDB's default collation); a NULL name sorts last.
 */
module Ordering {
  import opened Prelude

  /** Code-point lexicographic order: a proper prefix comes first. */
  predicate StrLess(a: string, b: string)
    decreases |a|
  {
    if |a| == 0 then |b| > 0
    else if |b| == 0 then false
    else a[0] < b[0] || (a[0] == b[0] && StrLess(a[1..], b[1..]))
  }

  lemma {:induction false} StrLessIrreflexive(a: string)
    ensures !StrLess(a, a)
    decreases |a|
  {
    if |a| > 0 {
      StrLessIrreflexive(a[1..]);
    }
  }

  lemma {:induction false} StrLessTransitive(a: string, b: string, c: string)
    requires StrLess(a, b) && StrLess(b, c)
    ensures StrLess(a, c)
    decreases |a|
  {
    if |a| > 0 && a[0] == b[0] && b[0] == c[0] {
      StrLessTransitive(a[1..], b[1..], c[1..]);
    }
  }

  lemma {:induction false} StrLessTotal(a: string, b: string)
    ensures a == b || StrLess(a, b) || StrLess(b, a)
    decreases |a|
  {
    if |a| > 0 && |b| > 0 && a[0] == b[0] {
      StrLessTotal(a[1..], b[1..]);
      if a[1..] == b[1..] {
        assert a == [a[0]] + a[1..] && b == [b[0]] + b[1..];
      }
    }
  }

  /** Ascending order of a nullable text column, NULL last. */
  predicate TagLess(a: Option<string>, b: Option<string>)
  {
    match (a, b)
    case (Some(x), Some(y)) => StrLess(x, y)
    case (Some(_), None) => true
    case _ => false
  }

  /** The key `major DESC, minor ASC, tag ASC` of one result row. */
  datatype SortKey = SortKey(major: int, minor: int, tag: Option<string>)

  /** Row key `a` is listed strictly before row key `b`. */
  predicate Before(a: SortKey, b: SortKey)
  {
    || a.major > b.major
    || (a.major == b.major && a.minor < b.minor)
    || (a.major == b.major && a.minor == b.minor && TagLess(a.tag, b.tag))
  }

  lemma BeforeIrreflexive(a: SortKey)
    ensures !Before(a, a)
  {
    if a.tag.Some? {
      StrLessIrreflexive(a.tag.value);
    }
  }

  lemma BeforeTransitive(a: SortKey, b: SortKey, c: SortKey)
    requires Before(a, b) && Before(b, c)
    ensures Before(a, c)
  {
    if a.major == b.major == c.major && a.minor == b.minor == c.minor
      && a.tag.Some? && b.tag.Some? && c.tag.Some?
    {
      StrLessTransitive(a.tag.value, b.tag.value, c.tag.value);
    }
  }

  /** Any two different keys are ordered one way or the other. */
  lemma BeforeTotal(a: SortKey, b: SortKey)
    ensures a == b || Before(a, b) || Before(b, a)
  {
    if a.tag.Some? && b.tag.Some? {
      StrLessTotal(a.tag.value, b.tag.value);
    }
  }

  lemma BeforeAsymmetric(a: SortKey, b: SortKey)
    requires Before(a, b)
    ensures !Before(b, a)
  {
    if Before(b, a) {
      BeforeTransitive(a, b, a);
      BeforeIrreflexive(a);
    }
  }

  /** No row is listed after a row that should follow it. */
  ghost predicate SortedBy<T>(r: seq<T>, key: T -> SortKey)
  {
    forall i, j :: 0 <= i < j < |r| ==> !Before(key(r[j]), key(r[i]))
  }

  /** No two rows share a key: the ORDER BY leaves no tie to chance. */
  ghost predicate Keyed<T>(s: seq<T>, key: T -> SortKey)
  {
    forall i, j :: 0 <= i < |s| && 0 <= j < |s| && i != j ==> key(s[i]) != key(s[j])
  }

  /** Position of the first row that no other row precedes. */
  function BestIndex<T>(s: seq<T>, key: T -> SortKey): (m: nat)
    requires |s| > 0
    ensures m < |s|
    ensures forall i :: 0 <= i < |s| ==> !Before(key(s[i]), key(s[m]))
    decreases |s|
  {
    if |s| == 1 then (BeforeIrreflexive(key(s[0])); 0)
    else
      var m := BestIndex(s[..|s| - 1], key);
      var last := |s| - 1;
      if Before(key(s[last]), key(s[m])) then
        assert forall i :: 0 <= i < last ==> !Before(key(s[i]), key(s[last])) by {
          forall i | 0 <= i < last ensures !Before(key(s[i]), key(s[last])) {
            assert s[..last][i] == s[i];
            if Before(key(s[i]), key(s[last])) {
              BeforeTransitive(key(s[i]), key(s[last]), key(s[m]));
            }
          }
        }
        BeforeIrreflexive(key(s[last]));
        last
      else
        assert forall i :: 0 <= i < last ==> s[..last][i] == s[i];
        m
  }

  /** `s` without its element at position `m`. */
  function Remove<T>(s: seq<T>, m: nat): (r: seq<T>)
    requires m < |s|
    ensures |r| == |s| - 1
  {
    s[..m] + s[m + 1..]
  }

  /**
   * `ORDER BY key LIMIT limit` over `s`: repeatedly take the first row that
   * no other row precedes. Among rows with equal keys the one earlier in `s`
   * comes first.
   */
  function OrderLimit<T>(s: seq<T>, key: T -> SortKey, limit: nat): (r: seq<T>)
    ensures |r| == Min(limit, |s|)
    decreases |s|
  {
    if limit == 0 || |s| == 0 then []
    else
      var m := BestIndex(s, key);
      [s[m]] + OrderLimit(Remove(s, m), key, limit - 1)
  }

  /** `ORDER BY key` with no limit. */
  function OrderBy<T>(s: seq<T>, key: T -> SortKey): (r: seq<T>)
    ensures |r| == |s|
  {
    OrderLimit(s, key, |s|)
  }

  /** Every row of a result comes from the input. */
  lemma {:induction false} OrderLimitFrom<T>(s: seq<T>, key: T -> SortKey, limit: nat)
    ensures forall x :: x in OrderLimit(s, key, limit) ==> x in s
    decreases |s|
  {
    if limit != 0 && |s| != 0 {
      var m := BestIndex(s, key);
      var s' := Remove(s, m);
      OrderLimitFrom(s', key, limit - 1);
      assert forall x :: x in s' ==> x in s;
    }
  }

  /** A result never lists a row after one that should follow it. */
  lemma {:induction false} OrderLimitSorted<T>(s: seq<T>, key: T -> SortKey, limit: nat)
    ensures SortedBy(OrderLimit(s, key, limit), key)
    decreases |s|
  {
    if limit != 0 && |s| != 0 {
      var m := BestIndex(s, key);
      var s' := Remove(s, m);
      var rest := OrderLimit(s', key, limit - 1);
      var r := [s[m]] + rest;
      OrderLimitSorted(s', key, limit - 1);
      OrderLimitFrom(s', key, limit - 1);
      assert forall x :: x in s' ==> x in s;
      forall i, j | 0 <= i < j < |r| ensures !Before(key(r[j]), key(r[i])) {
        assert r[j] == rest[j - 1] && r[j] in s;
        if i > 0 {
          assert r[i] == rest[i - 1];
        }
      }
    }
  }

  /** A limited result is a prefix of the fully ordered one. */
  lemma {:induction false} OrderLimitIsPrefix<T>(s: seq<T>, key: T -> SortKey, limit: nat)
    ensures OrderLimit(s, key, limit) == OrderBy(s, key)[..Min(limit, |s|)]
    decreases |s|
  {
    if limit != 0 && |s| != 0 {
      var m := BestIndex(s, key);
      var s' := Remove(s, m);
      OrderLimitIsPrefix(s', key, limit - 1);
      assert OrderBy(s, key) == [s[m]] + OrderLimit(s', key, |s| - 1);
      assert |s'| == |s| - 1;
    }
  }

  /** Ordering loses and invents no row. */
  lemma {:induction false} OrderByPermutes<T>(s: seq<T>, key: T -> SortKey)
    ensures multiset(OrderBy(s, key)) == multiset(s)
    decreases |s|
  {
    if |s| != 0 {
      var m := BestIndex(s, key);
      var s' := Remove(s, m);
      var rest := OrderBy(s', key);
      OrderByPermutes(s', key);
      assert OrderBy(s, key) == [s[m]] + rest;
      assert s == s[..m] + [s[m]] + s[m + 1..];
      calc {
        multiset(OrderBy(s, key));
        multiset([s[m]]) + multiset(rest);
        multiset([s[m]]) + multiset(s[..m]) + multiset(s[m + 1..]);
        multiset(s[..m] + [s[m]] + s[m + 1..]);
      }
    }
  }

  /**
   * `r` is what `ORDER BY key LIMIT limit` over `all` must return when keys
   * are unique: `limit` rows (or all of them), taken from `all`, in strictly
   * increasing key order, and every row left out comes after every row kept.
   */
  ghost predicate IsTopK<T>(r: seq<T>, all: seq<T>, key: T -> SortKey, limit: nat)
  {
    && |r| == Min(limit, |all|)
    && (forall i :: 0 <= i < |r| ==> r[i] in all)
    && (forall i, j :: 0 <= i < j < |r| ==> Before(key(r[i]), key(r[j])))
    && (forall x, i :: x in all && x !in r && 0 <= i < |r| ==> Before(key(r[i]), key(x)))
  }

  lemma {:induction false} RemoveKeyed<T>(s: seq<T>, key: T -> SortKey, m: nat)
    requires m < |s| && Keyed(s, key)
    ensures Keyed(Remove(s, m), key)
    ensures forall x :: x in Remove(s, m) ==> key(x) != key(s[m])
  {
    var r := Remove(s, m);
    forall i, j | 0 <= i < |r| && 0 <= j < |r| && i != j
      ensures key(r[i]) != key(r[j])
    {
      assert r[i] == s[if i < m then i else i + 1];
      assert r[j] == s[if j < m then j else j + 1];
    }
    forall x | x in r ensures key(x) != key(s[m]) {
      var i :| 0 <= i < |r| && r[i] == x;
      assert r[i] == s[if i < m then i else i + 1];
    }
  }

  /** Ordering keeps keys unique. */
  lemma {:induction false} OrderLimitKeyed<T>(s: seq<T>, key: T -> SortKey, limit: nat)
    requires Keyed(s, key)
    ensures Keyed(OrderLimit(s, key, limit), key)
    decreases |s|
  {
    if limit != 0 && |s| != 0 {
      var m := BestIndex(s, key);
      var s' := Remove(s, m);
      var rest := OrderLimit(s', key, limit - 1);
      RemoveKeyed(s, key, m);
      OrderLimitKeyed(s', key, limit - 1);
      OrderLimitFrom(s', key, limit - 1);
      var r := [s[m]] + rest;
      forall i, j | 0 <= i < |r| && 0 <= j < |r| && i != j ensures key(r[i]) != key(r[j]) {
        if i > 0 && j > 0 {
          assert r[i] == rest[i - 1] && r[j] == rest[j - 1];
        } else if i == 0 {
          assert r[j] == rest[j - 1] && rest[j - 1] in s';
        } else {
          assert r[i] == rest[i - 1] && rest[i - 1] in s';
        }
      }
    }
  }

  /** A sorted sequence with unique keys is strictly increasing. */
  lemma StrictlySorted<T>(r: seq<T>, key: T -> SortKey)
    requires SortedBy(r, key) && Keyed(r, key)
    ensures forall i, j :: 0 <= i < j < |r| ==> Before(key(r[i]), key(r[j]))
  {
    forall i, j | 0 <= i < j < |r| ensures Before(key(r[i]), key(r[j])) {
      BeforeTotal(key(r[i]), key(r[j]));
    }
  }

  /** With unique keys, `OrderLimit` returns exactly the top `limit` rows. */
  lemma OrderLimitIsTopK<T>(s: seq<T>, key: T -> SortKey, limit: nat)
    requires Keyed(s, key)
    ensures IsTopK(OrderLimit(s, key, limit), s, key, limit)
  {
    var r := OrderLimit(s, key, limit);
    var full := OrderBy(s, key);
    OrderLimitFrom(s, key, limit);
    assert forall i :: 0 <= i < |r| ==> r[i] in s;
    assert forall i, j :: 0 <= i < j < |r| ==> Before(key(r[i]), key(r[j])) by {
      OrderLimitSorted(s, key, limit);
      OrderLimitKeyed(s, key, limit);
      StrictlySorted(r, key);
    }
    assert forall i, j :: 0 <= i < j < |full| ==> Before(key(full[i]), key(full[j])) by {
      OrderLimitSorted(s, key, |s|);
      OrderLimitKeyed(s, key, |s|);
      StrictlySorted(full, key);
    }
    OrderLimitIsPrefix(s, key, limit);
    OrderByPermutes(s, key);
    forall x, i | x in s && x !in r && 0 <= i < |r| ensures Before(key(r[i]), key(x)) {
      assert x in multiset(full);
      var j :| 0 <= j < |full| && full[j] == x;
      assert r[i] == full[i];
      assert x !in full[..|r|];
      assert j >= |r|;
    }
  }
}
