/** Python's `list.sort(key=lambda x: x[1], reverse=True)` on a list of
    (key, score) pairs: a stable sort by descending score.  It is modelled as
    an insertion sort in which an earlier element goes in front of every later
    element whose score is not greater, so equal scores keep their order. */
module Ranking {
  import opened Seqs

  predicate NonIncreasing<T>(s: seq<(T, real)>) {
    forall i, j :: 0 <= i < j < |s| ==> s[i].1 >= s[j].1
  }

  /** Inserts `x` in front of the first element whose score is at most its own. */
  function Insert<T(==, !new)>(x: (T, real), r: seq<(T, real)>): (q: seq<(T, real)>)
    ensures |q| == |r| + 1
    ensures multiset(q) == multiset(r) + multiset{x}
  {
    if r == [] then [x]
    else if r[0].1 <= x.1 then [x] + r
    else
      assert r == [r[0]] + r[1..];
      [r[0]] + Insert(x, r[1..])
  }

  lemma {:induction false} InsertNonIncreasing<T(!new)>(x: (T, real), r: seq<(T, real)>)
    requires NonIncreasing(r)
    ensures NonIncreasing(Insert(x, r))
  {
    if r != [] && r[0].1 > x.1 {
      var r' := r[1..];
      InsertNonIncreasing(x, r');
      assert forall i :: 0 <= i < |r'| ==> r'[i] == r[i + 1];
      InsertBelow(x, r', r[0].1);
      ConsNonIncreasing(r[0], Insert(x, r'));
    } else if r != [] {
      ConsNonIncreasing(x, r);
    }
  }

  /** Inserting below a bound everything already respects keeps the bound. */
  lemma InsertBelow<T(!new)>(x: (T, real), r: seq<(T, real)>, b: real)
    requires x.1 <= b && forall i :: 0 <= i < |r| ==> r[i].1 <= b
    ensures forall i :: 0 <= i < |Insert(x, r)| ==> Insert(x, r)[i].1 <= b
  {
    var q := Insert(x, r);
    forall i | 0 <= i < |q| ensures q[i].1 <= b {
      assert q[i] in multiset(q);
      if q[i] != x {
        assert q[i] in multiset(r);
        var m :| 0 <= m < |r| && r[m] == q[i];
      }
    }
  }

  lemma ConsNonIncreasing<T>(h: (T, real), q: seq<(T, real)>)
    requires NonIncreasing(q) && forall i :: 0 <= i < |q| ==> q[i].1 <= h.1
    ensures NonIncreasing([h] + q)
  {
    var full := [h] + q;
    forall i, j | 0 <= i < j < |full| ensures full[i].1 >= full[j].1 {
      assert full[j] == q[j - 1];
      if i > 0 {
        assert full[i] == q[i - 1];
      }
    }
  }

  /** The stable descending sort. */
  function SortDesc<T(==, !new)>(s: seq<(T, real)>): (r: seq<(T, real)>)
    ensures |r| == |s|
    ensures multiset(r) == multiset(s)
    ensures NonIncreasing(r)
  {
    if s == [] then []
    else
      assert s == [s[0]] + s[1..];
      InsertNonIncreasing(s[0], SortDesc(s[1..]));
      Insert(s[0], SortDesc(s[1..]))
  }

  /** The elements of `s` whose score is exactly `k`, in their order in `s`. */
  function Tied<T>(s: seq<(T, real)>, k: real): seq<(T, real)> {
    if s == [] then []
    else (if s[0].1 == k then [s[0]] else []) + Tied(s[1..], k)
  }

  lemma {:induction false} InsertTied<T(!new)>(x: (T, real), r: seq<(T, real)>, k: real)
    ensures Tied(Insert(x, r), k) == (if x.1 == k then [x] else []) + Tied(r, k)
  {
    if r == [] {
    } else if r[0].1 <= x.1 {
      TiedCons(x, r, k);
    } else {
      var q := Insert(x, r[1..]);
      InsertTied(x, r[1..], k);
      assert Insert(x, r) == [r[0]] + q;
      TiedCons(r[0], q, k);
      assert r == [r[0]] + r[1..];
      TiedCons(r[0], r[1..], k);
      if r[0].1 == k {
        assert x.1 != k;
      }
    }
  }

  lemma TiedCons<T>(h: (T, real), q: seq<(T, real)>, k: real)
    ensures Tied([h] + q, k) == (if h.1 == k then [h] else []) + Tied(q, k)
  {
    assert ([h] + q)[1..] == q;
  }

  /** Stability: for every score, the elements with that score appear in the
      sorted list in the same order as in the input. */
  lemma {:induction false} SortDescStable<T(!new)>(s: seq<(T, real)>, k: real)
    ensures Tied(SortDesc(s), k) == Tied(s, k)
  {
    if s != [] {
      SortDescStable(s[1..], k);
      InsertTied(s[0], SortDesc(s[1..]), k);
    }
  }

  /** The entries are listed in strictly increasing `rank` of their keys
      (for instance catalog positions). */
  predicate KeysIncreasing<T>(s: seq<(T, real)>, rank: T -> int) {
    forall i, j :: 0 <= i < j < |s| ==> rank(s[i].0) < rank(s[j].0)
  }

  /** Entries with equal scores are listed in increasing `rank`. */
  predicate TiesByKey<T>(s: seq<(T, real)>, rank: T -> int) {
    forall i, j :: 0 <= i < j < |s| && s[i].1 == s[j].1 ==> rank(s[i].0) < rank(s[j].0)
  }

  lemma {:induction false} InsertKeepsTiesByKey<T(!new)>(x: (T, real), r: seq<(T, real)>, rank: T -> int)
    requires NonIncreasing(r) && TiesByKey(r, rank)
    requires forall y :: y in r ==> rank(x.0) < rank(y.0)
    ensures TiesByKey(Insert(x, r), rank)
  {
    if r == [] {
    } else if r[0].1 > x.1 {
      var r' := r[1..];
      forall y | y in r' ensures rank(x.0) < rank(y.0) {
        assert y in r by {
          assert r == [r[0]] + r';
        }
      }
      assert TiesByKey(r', rank);
      InsertKeepsTiesByKey(x, r', rank);
      var q := Insert(x, r');
      forall j | 0 <= j < |q| && r[0].1 == q[j].1 ensures rank(r[0].0) < rank(q[j].0) {
        HeadBeforeTie(x, r, q[j], rank);
      }
      ConsTiesByKey(r[0], q, rank);
    } else {
      forall j | 0 <= j < |r| ensures rank(x.0) < rank(r[j].0) {
        assert r[j] in r;
      }
      ConsTiesByKey(x, r, rank);
    }
  }

  lemma ConsTiesByKey<T>(h: (T, real), q: seq<(T, real)>, rank: T -> int)
    requires TiesByKey(q, rank)
    requires forall j :: 0 <= j < |q| && h.1 == q[j].1 ==> rank(h.0) < rank(q[j].0)
    ensures TiesByKey([h] + q, rank)
  {
    var full := [h] + q;
    forall i, j | 0 <= i < j < |full| && full[i].1 == full[j].1 ensures rank(full[i].0) < rank(full[j].0) {
      if i == 0 {
        assert full[j] == q[j - 1];
      } else {
        assert full[i] == q[i - 1] && full[j] == q[j - 1];
      }
    }
  }

  lemma HeadBeforeTie<T(!new)>(x: (T, real), r: seq<(T, real)>, y: (T, real), rank: T -> int)
    requires r != [] && r[0].1 > x.1 && TiesByKey(r, rank)
    requires y in multiset(Insert(x, r[1..])) && r[0].1 == y.1
    ensures rank(r[0].0) < rank(y.0)
  {
    assert y != x;
    assert y in multiset(r[1..]);
    var m :| 0 <= m < |r[1..]| && r[1..][m] == y;
    assert r[m + 1] == y;
  }

  /** When the input lists its keys in increasing rank (catalog positions,
      or the order in which a dict received its keys), the sorted list
      orders equal scores by rank. */
  lemma {:induction false} SortDescKeepsTiesByKey<T(!new)>(s: seq<(T, real)>, rank: T -> int)
    requires KeysIncreasing(s, rank)
    ensures TiesByKey(SortDesc(s), rank)
  {
    if s != [] {
      var t := s[1..];
      assert KeysIncreasing(t, rank);
      SortDescKeepsTiesByKey(t, rank);
      forall y | y in SortDesc(t) ensures rank(s[0].0) < rank(y.0) {
        assert y in multiset(SortDesc(t));
        assert y in t;
        var m :| 0 <= m < |t| && t[m] == y;
        assert s[m + 1] == y;
      }
      InsertKeepsTiesByKey(s[0], SortDesc(t), rank);
    }
  }

  /** In a non-increasing list, what lies past position `k` scores no more
      than what lies before it. */
  lemma OutsidePrefix<T>(t: seq<(T, real)>, k: nat, x: (T, real), y: (T, real))
    requires NonIncreasing(t) && k <= |t|
    requires x in t[..k] && y in multiset(t) - multiset(t[..k])
    ensures y.1 <= x.1
  {
    var p := t[..k];
    var rest := t[k..];
    assert y in rest by {
      assert t == p + rest;
      assert multiset(t) == multiset(p) + multiset(rest);
    }
    var j :| 0 <= j < |rest| && rest[j] == y;
    var i :| 0 <= i < k && p[i] == x;
    assert t[i] == x && t[k + j] == y;
  }

  /** `sorted(s, key=score, reverse=True)[:n]`: elements of `s`, best
      first, and none left out scores above one kept. */
  lemma TopChosen<T(!new)>(s: seq<(T, real)>, n: int)
    ensures var top := Take(SortDesc(s), n);
      && (forall p :: p in top ==> p in s)
      && (forall i, j :: 0 <= i < j < |top| ==> top[i].1 >= top[j].1)
      && (forall x, y :: x in top && y in multiset(s) - multiset(top) ==> y.1 <= x.1)
  {
    var sorted := SortDesc(s);
    var top := Take(sorted, n);
    assert top == sorted[..|top|];
    forall p | p in top ensures p in s {
      assert p in multiset(sorted);
    }
    forall x: (T, real), y: (T, real) | x in top && y in multiset(s) - multiset(top) ensures y.1 <= x.1 {
      OutsidePrefix(sorted, |top|, x, y);
    }
  }
}
