/**
 SUM, GROUP BY and their algebra. A scan is a table's rows in whatever order the database visits
 them; a grouping lists each key of the matching rows once, in whatever order.
 */
module Aggregates {

  /** SUM(f) over the rows where p holds; 0 when there are none, as COALESCE makes it. */
  function Sum<R>(rows: seq<R>, p: R -> bool, f: R -> int): int {
    if rows == [] then 0 else (if p(rows[0]) then f(rows[0]) else 0) + Sum(rows[1..], p, f)
  }

  function One<R>(): R -> int { (r: R) => 1 }

  /** COUNT(*) */
  function Count<R>(rows: seq<R>, p: R -> bool): int { Sum(rows, p, One()) }

  predicate Matches<R>(rows: seq<R>, p: R -> bool) { exists i :: 0 <= i < |rows| && p(rows[i]) }

  lemma {:induction false} CountIsPositive<R>(rows: seq<R>, p: R -> bool)
    ensures Count(rows, p) >= 0 && (Count(rows, p) > 0 <==> Matches(rows, p))
  {
    if rows != [] {
      CountIsPositive(rows[1..], p);
      if Matches(rows[1..], p) {
        var i :| 0 <= i < |rows[1..]| && p(rows[1..][i]);
        assert p(rows[i + 1]);
      }
      if Matches(rows, p) && !p(rows[0]) {
        var i :| 0 <= i < |rows| && p(rows[i]);
        assert p(rows[1..][i - 1]);
      }
    }
  }

  lemma {:induction false} SumNone<R>(rows: seq<R>, p: R -> bool, f: R -> int)
    requires forall i :: 0 <= i < |rows| ==> !p(rows[i])
    ensures Sum(rows, p, f) == 0
  {
    if rows != [] { SumNone(rows[1..], p, f); }
  }

  lemma {:induction false} SumSame<R>(rows: seq<R>, p: R -> bool, q: R -> bool, f: R -> int)
    requires forall i :: 0 <= i < |rows| ==> p(rows[i]) == q(rows[i])
    ensures Sum(rows, p, f) == Sum(rows, q, f)
  {
    if rows != [] { SumSame(rows[1..], p, q, f); }
  }

  /** A condition that splits into two disjoint cases splits the sum. */
  lemma {:induction false} SumSplit<R>(rows: seq<R>, p: R -> bool, q: R -> bool, q': R -> bool, f: R -> int)
    requires forall i :: 0 <= i < |rows| ==> p(rows[i]) == (q(rows[i]) || q'(rows[i])) && !(q(rows[i]) && q'(rows[i]))
    ensures Sum(rows, p, f) == Sum(rows, q, f) + Sum(rows, q', f)
  {
    if rows != [] { SumSplit(rows[1..], p, q, q', f); }
  }

  lemma {:induction false} SumConcat<R>(a: seq<R>, b: seq<R>, p: R -> bool, f: R -> int)
    ensures Sum(a + b, p, f) == Sum(a, p, f) + Sum(b, p, f)
  {
    if a == [] {
      assert a + b == b;
    } else {
      SumConcat(a[1..], b, p, f);
      assert (a + b)[1..] == a[1..] + b;
    }
  }

  lemma TakeOut<R>(x: R, rest: seq<R>, before: seq<R>, after: seq<R>)
    requires multiset([x] + rest) == multiset(before + [x] + after)
    ensures multiset(rest) == multiset(before + after)
  {
    assert multiset([x] + rest) == multiset{x} + multiset(rest);
    assert multiset(before + [x] + after) == multiset{x} + multiset(before + after);
    assert multiset(rest) == multiset([x] + rest) - multiset{x};
  }

  lemma SumPutIn<R>(x: R, before: seq<R>, after: seq<R>, p: R -> bool, f: R -> int)
    ensures Sum(before + [x] + after, p, f) == Sum([x], p, f) + Sum(before + after, p, f)
  {
    SumConcat(before, after, p, f);
    SumConcat(before + [x], after, p, f);
    SumConcat(before, [x], p, f);
  }

  /** One more row anywhere in the scan adds its own term, when the condition holds of it. */
  lemma SumGrows<R>(a: seq<R>, x: R, b: seq<R>, p: R -> bool, f: R -> int)
    ensures Sum(a + [x] + b, p, f) == Sum(a + b, p, f) + if p(x) then f(x) else 0
  {
    SumPutIn(x, a, b, p, f);
    assert [x][1..] == [];
  }

  lemma MatchesGrows<R>(a: seq<R>, x: R, b: seq<R>, p: R -> bool)
    ensures Matches(a + [x] + b, p) <==> Matches(a + b, p) || p(x)
  {
    var rows, others := a + [x] + b, a + b;
    if Matches(others, p) {
      var i :| 0 <= i < |others| && p(others[i]);
      assert rows[if i < |a| then i else i + 1] == others[i];
    }
    if p(x) { assert rows[|a|] == x; }
    if Matches(rows, p) {
      var i :| 0 <= i < |rows| && p(rows[i]);
      if i < |a| { assert others[i] == rows[i]; }
      if i > |a| { assert others[i - 1] == rows[i]; }
    }
  }

  lemma PositionOf<R>(x: R, rest: seq<R>, b: seq<R>) returns (before: seq<R>, after: seq<R>)
    requires multiset([x] + rest) == multiset(b)
    ensures b == before + [x] + after
  {
    assert x in [x] + rest;
    assert x in multiset(b);
    var i :| 0 <= i < |b| && b[i] == x;
    before, after := b[..i], b[i + 1..];
  }

  /** The order of the scan does not matter. */
  lemma {:induction false} ScanOrderIrrelevant<R>(a: seq<R>, b: seq<R>, p: R -> bool, f: R -> int)
    requires multiset(a) == multiset(b)
    ensures Sum(a, p, f) == Sum(b, p, f)
    decreases |a|
  {
    if a == [] {
      assert |multiset(b)| == 0;
    } else {
      var x, rest := a[0], a[1..];
      assert a == [x] + rest;
      var before, after := PositionOf(x, rest, b);
      TakeOut(x, rest, before, after);
      ScanOrderIrrelevant(rest, before + after, p, f);
      SumPutIn(x, before, after, p, f);
      SumConcat([x], rest, p, f);
    }
  }

  /** A sum of non-negative terms is zero exactly when every term is. */
  lemma {:induction false} SumIsZero<R>(rows: seq<R>, p: R -> bool, f: R -> int)
    requires forall i :: 0 <= i < |rows| ==> f(rows[i]) >= 0
    ensures Sum(rows, p, f) >= 0
    ensures Sum(rows, p, f) == 0 <==> forall i :: 0 <= i < |rows| && p(rows[i]) ==> f(rows[i]) == 0
  {
    if rows != [] {
      SumIsZero(rows[1..], p, f);
      assert rows == [rows[0]] + rows[1..];
      assert (forall i :: 0 <= i < |rows| && p(rows[i]) ==> f(rows[i]) == 0)
        <==> (p(rows[0]) ==> f(rows[0]) == 0)
             && forall i :: 0 <= i < |rows[1..]| && p(rows[1..][i]) ==> f(rows[1..][i]) == 0;
    }
  }

  // ---------------------------------------------------------------- GROUP BY

  function KeyIs<R, K(==)>(p: R -> bool, k: R -> K, key: K): R -> bool { (r: R) => p(r) && k(r) == key }

  function KeyAmong<R, K(==)>(p: R -> bool, k: R -> K, keys: seq<K>): R -> bool { (r: R) => p(r) && k(r) in keys }

  predicate Distinct<K(==)>(keys: seq<K>) { forall i, j :: 0 <= i < j < |keys| ==> keys[i] != keys[j] }

  /** The keys of GROUP BY k over the rows where p holds. */
  predicate IsGrouping<R, K(==)>(rows: seq<R>, p: R -> bool, k: R -> K, keys: seq<K>) {
    && Distinct(keys)
    && (forall i :: 0 <= i < |rows| && p(rows[i]) ==> k(rows[i]) in keys)
    && (forall j :: 0 <= j < |keys| ==> Matches(rows, KeyIs(p, k, keys[j])))
  }

  /** The sum over the groups of each group's SUM(f). */
  function SumOfGroups<R, K(==)>(rows: seq<R>, p: R -> bool, k: R -> K, f: R -> int, keys: seq<K>): int {
    if keys == [] then 0 else SumOfGroups(rows, p, k, f, keys[1..]) + Sum(rows, KeyIs(p, k, keys[0]), f)
  }

  lemma {:induction false} GroupsOfKeys<R, K>(rows: seq<R>, p: R -> bool, k: R -> K, f: R -> int, keys: seq<K>)
    requires Distinct(keys)
    ensures SumOfGroups(rows, p, k, f, keys) == Sum(rows, KeyAmong(p, k, keys), f)
  {
    if keys == [] {
      SumNone(rows, KeyAmong(p, k, keys), f);
    } else {
      GroupsOfKeys(rows, p, k, f, keys[1..]);
      assert forall i :: 0 < i < |keys| ==> keys[i] == keys[1..][i - 1];
      SumSplit(rows, KeyAmong(p, k, keys), KeyAmong(p, k, keys[1..]), KeyIs(p, k, keys[0]), f);
    }
  }

  /** Groups partition the rows: any aggregate over all groups is the aggregate over the rows. */
  lemma GroupsPartition<R, K>(rows: seq<R>, p: R -> bool, k: R -> K, f: R -> int, keys: seq<K>)
    requires IsGrouping(rows, p, k, keys)
    ensures SumOfGroups(rows, p, k, f, keys) == Sum(rows, p, f)
  {
    GroupsOfKeys(rows, p, k, f, keys);
    SumSame(rows, p, KeyAmong(p, k, keys), f);
  }

  /** Every scan has a grouping, so statements about all groupings are not empty. */
  lemma {:induction false} GroupingExists<R, K>(rows: seq<R>, p: R -> bool, k: R -> K) returns (keys: seq<K>)
    ensures IsGrouping(rows, p, k, keys)
  {
    if rows == [] {
      keys := [];
    } else {
      var before := rows[..|rows| - 1];
      var last := rows[|rows| - 1];
      keys := GroupingExists(before, p, k);
      assert forall i :: 0 <= i < |before| ==> rows[i] == before[i];
      forall j | 0 <= j < |keys| ensures Matches(rows, KeyIs(p, k, keys[j])) {
        var i :| 0 <= i < |before| && KeyIs(p, k, keys[j])(before[i]);
        assert KeyIs(p, k, keys[j])(rows[i]);
      }
      if p(last) && k(last) !in keys {
        keys := keys + [k(last)];
        assert KeyIs(p, k, k(last))(rows[|rows| - 1]);
      }
    }
  }

  /** Two answers to the same GROUP BY have the same keys. */
  lemma SameKeys<R, K>(rows: seq<R>, p: R -> bool, k: R -> K, a: seq<K>, b: seq<K>, key: K)
    requires IsGrouping(rows, p, k, a) && IsGrouping(rows, p, k, b)
    ensures key in a <==> Matches(rows, KeyIs(p, k, key))
    ensures key in a <==> key in b
  {
  }
}
