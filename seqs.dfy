/** Sequence helpers shared by the recommenders: duplicate-free sequences,
    first-occurrence deduplication and Python's prefix slice. */
module Seqs {

  predicate NoDuplicates<T(==)>(s: seq<T>) {
    forall i, j :: 0 <= i < j < |s| ==> s[i] != s[j]
  }

  function Elements<T>(s: seq<T>): set<T> {
    set x | x in s
  }

  /** First-occurrence deduplication: the order in which a Python dict or
      Counter first sees its keys, and the order of pandas' `unique()`. */
  function Distinct<T(==, !new)>(s: seq<T>): (r: seq<T>)
    ensures forall x :: x in r <==> x in s
    ensures NoDuplicates(r)
    ensures |r| <= |s|
  {
    if s == [] then []
    else
      var d := Distinct(s[..|s| - 1]);
      var x := s[|s| - 1];
      assert s == s[..|s| - 1] + [x];
      if x in d then d else d + [x]
  }

  /** A sequence without duplicates is as long as its set of elements. */
  lemma {:induction false} NoDuplicatesSize<T>(s: seq<T>)
    requires NoDuplicates(s)
    ensures |Elements(s)| == |s|
  {
    if s != [] {
      var p := s[..|s| - 1];
      var x := s[|s| - 1];
      assert NoDuplicates(p);
      NoDuplicatesSize(p);
      assert s == p + [x];
      assert Elements(s) == Elements(p) + {x};
      assert x !in Elements(p);
    }
  }

  /** Removing one element of a duplicate-free sequence. */
  lemma RemoveAt<T>(b: seq<T>, k: int)
    requires NoDuplicates(b) && 0 <= k < |b|
    ensures NoDuplicates(b[..k] + b[k + 1..])
    ensures forall t :: t in b[..k] + b[k + 1..] <==> t in b && t != b[k]
  {
    var b' := b[..k] + b[k + 1..];
    forall i, j | 0 <= i < j < |b'| ensures b'[i] != b'[j] {
      var i' := if i < k then i else i + 1;
      var j' := if j < k then j else j + 1;
      assert b'[i] == b[i'] && b'[j] == b[j'];
    }
    forall t ensures t in b' <==> t in b && t != b[k] {
      if t in b' {
        var i :| 0 <= i < |b'| && b'[i] == t;
        var i' := if i < k then i else i + 1;
        assert b[i'] == t && i' != k;
      }
      if t in b && t != b[k] {
        var i :| 0 <= i < |b| && b[i] == t;
        assert i != k;
        assert b'[if i < k then i else i - 1] == t;
      }
    }
  }

  /** The first components of a sequence of pairs: the keys of a dict's
      items, the ids of a list of (id, score) pairs. */
  function Firsts<T, U>(s: seq<(T, U)>): (r: seq<T>)
    ensures |r| == |s| && forall i :: 0 <= i < |s| ==> r[i] == s[i].0
  {
    seq(|s|, i requires 0 <= i < |s| => s[i].0)
  }

  /** The position of the first occurrence of `x` in `s`, or `|s|` when it
      does not occur: `s.index(x)`, made total. */
  function PositionIn<T(==)>(s: seq<T>, x: T): (k: nat)
    ensures k <= |s|
    ensures k < |s| <==> x in s
    ensures k < |s| ==> s[k] == x && forall j :: 0 <= j < k ==> s[j] != x
  {
    if s == [] then 0
    else
      var pre := s[..|s| - 1];
      assert s == pre + [s[|s| - 1]];
      if x in pre then PositionIn(pre, x)
      else if s[|s| - 1] == x then |s| - 1
      else |s|
  }

  /** Extending a sequence keeps the positions of its elements. */
  lemma PositionInPrefix<T>(s: seq<T>, y: T, x: T)
    requires x in s
    ensures PositionIn(s + [y], x) == PositionIn(s, x) < |s|
  {
    assert (s + [y])[..|s|] == s;
  }

  /** An element new to a sequence is found where it is appended. */
  lemma PositionInLast<T>(s: seq<T>, x: T)
    requires x !in s
    ensures PositionIn(s + [x], x) == |s|
  {
    assert (s + [x])[..|s|] == s;
  }

  /** Deduplicating a duplicate-free sequence leaves it as it is. */
  lemma {:induction false} DistinctNoDuplicates<T(!new)>(s: seq<T>)
    requires NoDuplicates(s)
    ensures Distinct(s) == s
  {
    if s != [] {
      var pre := s[..|s| - 1];
      assert NoDuplicates(pre);
      DistinctNoDuplicates(pre);
      assert s[|s| - 1] !in pre;
      assert s == pre + [s[|s| - 1]];
    }
  }

  /** Deduplicating one more element. */
  lemma DistinctSnoc<T(!new)>(s: seq<T>, x: T)
    ensures Distinct(s + [x]) == if x in Distinct(s) then Distinct(s) else Distinct(s) + [x]
  {
    assert (s + [x])[..|s + [x]| - 1] == s;
  }

  /** Deduplicating in two stages is deduplicating once: the keys of a dict
      filled from `a` and then from `b`. */
  lemma {:induction false} DistinctAppend<T(!new)>(a: seq<T>, b: seq<T>)
    ensures Distinct(Distinct(a) + b) == Distinct(a + b)
  {
    if b == [] {
      assert Distinct(a) + b == Distinct(a) && a + b == a;
      DistinctNoDuplicates(Distinct(a));
    } else {
      var b' := b[..|b| - 1];
      var x := b[|b| - 1];
      DistinctAppend(a, b');
      assert Distinct(a) + b == (Distinct(a) + b') + [x];
      assert a + b == (a + b') + [x];
      DistinctSnoc(Distinct(a) + b', x);
      DistinctSnoc(a + b', x);
    }
  }

  /** Deduplication keeps elements in the order of their first occurrence. */
  lemma {:induction false} DistinctKeepsFirstOrder<T(!new)>(s: seq<T>, a: T, b: T)
    requires a in s && b in s
    ensures PositionIn(Distinct(s), a) < PositionIn(Distinct(s), b) <==> PositionIn(s, a) < PositionIn(s, b)
  {
    var pre := s[..|s| - 1];
    var x := s[|s| - 1];
    assert s == pre + [x];
    if a in pre && b in pre {
      DistinctKeepsFirstOrder(pre, a, b);
    }
    DistinctFirstOrderStep(pre, x, a, b);
  }

  /** One step of `DistinctKeepsFirstOrder`, given its claim for `pre`
      whenever both elements occur there. */
  lemma DistinctFirstOrderStep<T(!new)>(pre: seq<T>, x: T, a: T, b: T)
    requires a in pre + [x] && b in pre + [x]
    requires a in pre && b in pre ==>
      (PositionIn(Distinct(pre), a) < PositionIn(Distinct(pre), b) <==> PositionIn(pre, a) < PositionIn(pre, b))
    ensures PositionIn(Distinct(pre + [x]), a) < PositionIn(Distinct(pre + [x]), b) <==>
            PositionIn(pre + [x], a) < PositionIn(pre + [x], b)
  {
    var d := Distinct(pre);
    DistinctSnoc(pre, x);
    if a in pre {
      PositionInPrefix(pre, x, a);
      if x !in d {
        PositionInPrefix(d, x, a);
      }
    }
    if b in pre {
      PositionInPrefix(pre, x, b);
      if x !in d {
        PositionInPrefix(d, x, b);
      }
    }
    if x !in pre {
      PositionInLast(pre, x);
      PositionInLast(d, x);
    }
  }

  /** Python's prefix slice `s[:n]`; a negative `n` drops that many
      elements from the end. */
  function Take<T>(s: seq<T>, n: int): (r: seq<T>)
    ensures |r| <= |s| && r == s[..|r|]
    ensures n >= 0 ==> |r| == if n <= |s| then n else |s|
    ensures n < 0 ==> |r| == if -n <= |s| then |s| + n else 0
  {
    if n >= 0 then (if n <= |s| then s[..n] else s)
    else if -n <= |s| then s[..|s| + n]
    else []
  }
}
