/** User-based collaborative filtering (project.py,
    `collaborative_recommendations`): find the users whose ratings correlate
    with the target's, let the ten best vote for the well-rated movies the
    target has not seen, and predict each candidate's rating as the
    similarity-weighted mean of the votes. */
module Collaborative {
  import opened Wrappers
  import opened Seqs
  import opened Ranking
  import opened Catalog

  /** A neighbour must share at least this many rated movies with the target. */
  const MinCommon: nat := 5
  /** Only this many of the best-correlated neighbours vote. */
  const MaxNeighbours: nat := 10
  /** A neighbour votes for the movies it rated at least this high. */
  const HighRating: real := 4.0

  // ---------------------------------------------------------------------
  // Reading the rating log

  function UserColumn(ratings: seq<Rating>): (c: seq<int>)
    ensures |c| == |ratings| && forall i :: 0 <= i < |ratings| ==> c[i] == ratings[i].userId
  {
    seq(|ratings|, i requires 0 <= i < |ratings| => ratings[i].userId)
  }

  /** `ratings_df['userId'].unique()`, in order of first appearance. */
  function Users(ratings: seq<Rating>): (us: seq<int>)
    ensures NoDuplicates(us)
    ensures forall u :: u in us <==> exists r :: r in ratings && r.userId == u
  {
    var c := UserColumn(ratings);
    forall u ensures u in c <==> exists r :: r in ratings && r.userId == u {
      if u in c {
        var i :| 0 <= i < |c| && c[i] == u;
        assert ratings[i] in ratings;
      }
      if r :| r in ratings && r.userId == u {
        var i :| 0 <= i < |ratings| && ratings[i] == r;
        assert c[i] == u;
      }
    }
    Distinct(c)
  }

  /** `ratings_df[ratings_df['userId'] == u]`, in log order. */
  function RatingsBy(ratings: seq<Rating>, u: int): (rs: seq<Rating>)
    ensures forall r :: r in rs <==> r in ratings && r.userId == u
  {
    if ratings == [] then []
    else
      var prev := RatingsBy(ratings[..|ratings| - 1], u);
      var r := ratings[|ratings| - 1];
      assert ratings == ratings[..|ratings| - 1] + [r];
      if r.userId == u then prev + [r] else prev
  }

  /** The filter keeps each of `u`'s rows as often as the log holds it. */
  lemma {:induction false} RatingsByCounts(ratings: seq<Rating>, u: int)
    ensures forall r :: multiset(RatingsBy(ratings, u))[r] == if r.userId == u then multiset(ratings)[r] else 0
  {
    if ratings != [] {
      var pre := ratings[..|ratings| - 1];
      assert ratings == pre + [ratings[|ratings| - 1]];
      RatingsByCounts(pre, u);
    }
  }

  /** `set(ratings_df[ratings_df['userId'] == u]['movieId'])`. */
  function RatedBy(ratings: seq<Rating>, u: int): set<int> {
    set r | r in ratings && r.userId == u :: r.movieId
  }

  /** The movie ids of `rs` that lie in `keep`, in the order of `rs`. */
  function MoviesIn(rs: seq<Rating>, keep: set<int>): (ms: seq<int>)
    ensures forall m :: m in ms <==> m in keep && exists r :: r in rs && r.movieId == m
  {
    if rs == [] then []
    else
      var prev := MoviesIn(rs[..|rs| - 1], keep);
      var r := rs[|rs| - 1];
      assert rs == rs[..|rs| - 1] + [r];
      if r.movieId in keep then prev + [r.movieId] else prev
  }

  /** `set(other_ratings['movieId']) & user_rated_movies`. A Python set has
      no defined order; this one is listed in the order `v` rated them. */
  function CommonMovies(ratings: seq<Rating>, u: int, v: int): (c: seq<int>)
    ensures NoDuplicates(c)
    ensures forall m :: m in c <==> m in RatedBy(ratings, u) && m in RatedBy(ratings, v)
  {
    var ms := MoviesIn(RatingsBy(ratings, v), RatedBy(ratings, u));
    forall m ensures (exists r :: r in RatingsBy(ratings, v) && r.movieId == m) <==> m in RatedBy(ratings, v) {
      if m in RatedBy(ratings, v) {
        var r :| r in ratings && r.userId == v && r.movieId == m;
        assert r in RatingsBy(ratings, v);
      }
    }
    Distinct(ms)
  }

  /** `rs[rs['movieId'] == m]['rating'].values[0]`: the first rating of `m`. */
  function FirstRating(rs: seq<Rating>, m: int): (x: real)
    requires exists r :: r in rs && r.movieId == m
    ensures exists i :: 0 <= i < |rs| && rs[i].movieId == m && rs[i].rating == x &&
                        forall j :: 0 <= j < i ==> rs[j].movieId != m
  {
    if rs[0].movieId == m then rs[0].rating
    else
      assert exists r :: r in rs[1..] && r.movieId == m by {
        var r :| r in rs && r.movieId == m;
        var i :| 0 <= i < |rs| && rs[i] == r;
        assert rs[1..][i - 1] == r;
      }
      var x := FirstRating(rs[1..], m);
      var i :| 0 <= i < |rs[1..]| && rs[1..][i].movieId == m && rs[1..][i].rating == x &&
               forall j :: 0 <= j < i ==> rs[1..][j].movieId != m;
      assert rs[i + 1] == rs[1..][i];
      assert forall j :: 0 <= j < i + 1 ==> rs[j].movieId != m by {
        forall j | 0 < j < i + 1 ensures rs[j].movieId != m {
          assert rs[j] == rs[1..][j - 1];
        }
      }
      x
  }

  /** The rating `u` gave `m` (`values[0]` of `u`'s rows about `m`). */
  function UserRating(ratings: seq<Rating>, u: int, m: int): real
    requires m in RatedBy(ratings, u)
  {
    RatedWitness(ratings, u, m);
    FirstRating(RatingsBy(ratings, u), m)
  }

  /** That rating is the one in the first row of the log in which `u`
      rated `m`. */
  lemma UserRatingIsFirst(ratings: seq<Rating>, u: int, m: int)
    requires m in RatedBy(ratings, u)
    ensures exists i :: FirstRowAt(ratings, u, m, i) && ratings[i].rating == UserRating(ratings, u, m)
  {
    RatedWitness(ratings, u, m);
    FirstOfFilter(ratings, u, m);
  }

  /** `u` rated `m` in row `i` of `ratings`, and in no earlier row. */
  predicate FirstRowAt(ratings: seq<Rating>, u: int, m: int, i: int) {
    && 0 <= i < |ratings| && ratings[i].userId == u && ratings[i].movieId == m
    && forall j :: 0 <= j < i ==> !(ratings[j].userId == u && ratings[j].movieId == m)
  }

  /** Filtering the log by user keeps its order, so the first row for `m`
      among `u`'s rows is the first row of the log by `u` about `m`. */
  lemma {:induction false} FirstOfFilter(ratings: seq<Rating>, u: int, m: int)
    requires exists r :: r in RatingsBy(ratings, u) && r.movieId == m
    ensures exists i :: FirstRowAt(ratings, u, m, i) && ratings[i].rating == FirstRating(RatingsBy(ratings, u), m)
  {
    var pre := ratings[..|ratings| - 1];
    var last := ratings[|ratings| - 1];
    assert ratings == pre + [last];
    var ps := RatingsBy(pre, u);
    if exists r :: r in ps && r.movieId == m {
      FirstOfFilter(pre, u, m);
      var i :| FirstRowAt(pre, u, m, i) && pre[i].rating == FirstRating(ps, m);
      FirstInPrefix(pre, last, u, m, i);
    } else {
      FirstIsLast(pre, last, u, m);
    }
  }

  /** The first row is already in `pre`: appending `last` moves nothing. */
  lemma FirstInPrefix(pre: seq<Rating>, last: Rating, u: int, m: int, i: int)
    requires exists r :: r in RatingsBy(pre, u) && r.movieId == m
    requires FirstRowAt(pre, u, m, i) && pre[i].rating == FirstRating(RatingsBy(pre, u), m)
    ensures exists r :: r in RatingsBy(pre + [last], u) && r.movieId == m
    ensures FirstRowAt(pre + [last], u, m, i)
    ensures (pre + [last])[i].rating == FirstRating(RatingsBy(pre + [last], u), m)
  {
    var ratings := pre + [last];
    assert ratings[..|ratings| - 1] == pre;
    var ps := RatingsBy(pre, u);
    var rs := RatingsBy(ratings, u);
    assert rs == ps + (if last.userId == u then [last] else []);
    FirstRatingExtend(ps, if last.userId == u then [last] else [], m);
    assert ratings[i] == pre[i];
    assert forall j :: 0 <= j < i ==> ratings[j] == pre[j];
  }

  /** `pre` has no row by `u` about `m`, so `last` is the first one. */
  lemma FirstIsLast(pre: seq<Rating>, last: Rating, u: int, m: int)
    requires exists r :: r in RatingsBy(pre + [last], u) && r.movieId == m
    requires !exists r :: r in RatingsBy(pre, u) && r.movieId == m
    ensures FirstRowAt(pre + [last], u, m, |pre|)
    ensures last.rating == FirstRating(RatingsBy(pre + [last], u), m)
  {
    var ratings := pre + [last];
    assert ratings[..|ratings| - 1] == pre;
    var ps := RatingsBy(pre, u);
    var rs := RatingsBy(ratings, u);
    assert rs == ps + (if last.userId == u then [last] else []);
    assert last.userId == u && last.movieId == m;
    FirstRatingLast(ps, last, m);
    forall j | 0 <= j < |pre| ensures !(ratings[j].userId == u && ratings[j].movieId == m) {
      assert ratings[j] == pre[j] && pre[j] in pre;
    }
  }

  /** Rows after the first one for `m` do not change its first rating. */
  lemma FirstRatingExtend(rs: seq<Rating>, extra: seq<Rating>, m: int)
    requires exists r :: r in rs && r.movieId == m
    ensures FirstRating(rs + extra, m) == FirstRating(rs, m)
  {
    var all := rs + extra;
    var x := FirstRating(all, m);
    var i :| 0 <= i < |all| && all[i].movieId == m && all[i].rating == x &&
             forall j :: 0 <= j < i ==> all[j].movieId != m;
    var y := FirstRating(rs, m);
    var k :| 0 <= k < |rs| && rs[k].movieId == m && rs[k].rating == y &&
             forall j :: 0 <= j < k ==> rs[j].movieId != m;
    assert all[k] == rs[k];
    assert i <= k;
    assert all[i] == rs[i];
  }

  /** When `rs` has no row for `m`, the first rating of `rs + [r]` is `r`'s. */
  lemma FirstRatingLast(rs: seq<Rating>, r: Rating, m: int)
    requires forall q :: q in rs ==> q.movieId != m
    requires r.movieId == m
    ensures FirstRating(rs + [r], m) == r.rating
  {
    var all := rs + [r];
    assert all[|rs|] == r;
    forall j | 0 <= j < |rs| ensures all[j].movieId != m {
      assert all[j] == rs[j] && rs[j] in rs;
    }
    var x := FirstRating(all, m);
    var i :| 0 <= i < |all| && all[i].movieId == m && all[i].rating == x &&
             forall j :: 0 <= j < i ==> all[j].movieId != m;
  }

  lemma RatedWitness(ratings: seq<Rating>, u: int, m: int)
    requires m in RatedBy(ratings, u)
    ensures exists r :: r in RatingsBy(ratings, u) && r.movieId == m
  {
    var r :| r in ratings && r.userId == u && r.movieId == m;
    assert r in RatingsBy(ratings, u);
  }

  /** `user_ratings_array` and `other_ratings_array`: the two users' ratings
      of their common movies, paired position by position. */
  function Paired(ratings: seq<Rating>, u: int, v: int): (p: (seq<real>, seq<real>))
    ensures var c := CommonMovies(ratings, u, v);
      |p.0| == |c| && |p.1| == |c| &&
      forall i :: 0 <= i < |c| ==> p.0[i] == UserRating(ratings, u, c[i]) && p.1[i] == UserRating(ratings, v, c[i])
  {
    var c := CommonMovies(ratings, u, v);
    (seq(|c|, i requires 0 <= i < |c| => UserRating(ratings, u, c[i])),
     seq(|c|, i requires 0 <= i < |c| => UserRating(ratings, v, c[i])))
  }

  /** The paired sequences handed to `corrcoef` have equal length, namely
      the number of movies both users rated. */
  lemma PairedLength(ratings: seq<Rating>, u: int, v: int)
    ensures |Paired(ratings, u, v).0| == |Paired(ratings, u, v).1| == |RatedBy(ratings, u) * RatedBy(ratings, v)|
  {
    var c := CommonMovies(ratings, u, v);
    NoDuplicatesSize(c);
    assert Elements(c) == RatedBy(ratings, u) * RatedBy(ratings, v);
  }

  // ---------------------------------------------------------------------
  // Neighbours

  /** The correlation `v` is kept with, if any: a different user, at least
      `MinCommon` common movies, and a correlation that is not NaN. */
  function Similarity(ratings: seq<Rating>, u: int, v: int,
                      corrcoef: (seq<real>, seq<real>) -> Option<real>): Option<real>
  {
    if v == u || |CommonMovies(ratings, u, v)| < MinCommon then None
    else
      var p := Paired(ratings, u, v);
      corrcoef(p.0, p.1)
  }

  /** `similar_users` after scanning the users in `users`. */
  function NeighboursOver(ratings: seq<Rating>, u: int, users: seq<int>,
                          corrcoef: (seq<real>, seq<real>) -> Option<real>): (ns: seq<(int, real)>)
    ensures |ns| <= |users|
  {
    if users == [] then []
    else
      var prev := NeighboursOver(ratings, u, users[..|users| - 1], corrcoef);
      var v := users[|users| - 1];
      match Similarity(ratings, u, v, corrcoef)
      case None => prev
      case Some(s) => prev + [(v, s)]
  }

  /** A scanned user is kept, with similarity `s`, exactly when its
      similarity to the target is `Some(s)`. */
  lemma {:induction false} NeighboursOverMembers(ratings: seq<Rating>, u: int, users: seq<int>,
                                                 corrcoef: (seq<real>, seq<real>) -> Option<real>)
    ensures forall p :: p in NeighboursOver(ratings, u, users, corrcoef) <==>
                        p.0 in users && Similarity(ratings, u, p.0, corrcoef) == Some(p.1)
  {
    if users != [] {
      var init := users[..|users| - 1];
      var v := users[|users| - 1];
      assert users == init + [v];
      NeighboursOverMembers(ratings, u, init, corrcoef);
      NeighboursOverSnoc(ratings, u, users, |users| - 1, corrcoef);
      assert users[..|users|] == users;
    }
  }

  /** `similar_users` after one more user: the previous list, and the new
      user at the end when its similarity is defined. */
  lemma NeighboursOverSnoc(ratings: seq<Rating>, u: int, users: seq<int>, i: int,
                           corrcoef: (seq<real>, seq<real>) -> Option<real>)
    requires 0 <= i < |users|
    ensures NeighboursOver(ratings, u, users[..i + 1], corrcoef) ==
              NeighboursOver(ratings, u, users[..i], corrcoef) +
              var sim := Similarity(ratings, u, users[i], corrcoef);
              if sim.Some? then [(users[i], sim.value)] else []
  {
    assert users[..i + 1][..i] == users[..i];
  }

  function Neighbours(ratings: seq<Rating>, u: int,
                      corrcoef: (seq<real>, seq<real>) -> Option<real>): seq<(int, real)>
  {
    NeighboursOver(ratings, u, Users(ratings), corrcoef)
  }

  lemma {:induction false} NeighboursOverDistinct(ratings: seq<Rating>, u: int, users: seq<int>,
                                                  corrcoef: (seq<real>, seq<real>) -> Option<real>)
    requires NoDuplicates(users)
    ensures NoDuplicates(Firsts(NeighboursOver(ratings, u, users, corrcoef)))
  {
    if users != [] {
      var init := users[..|users| - 1];
      var v := users[|users| - 1];
      assert NoDuplicates(init);
      NeighboursOverDistinct(ratings, u, init, corrcoef);
      var prev := NeighboursOver(ratings, u, init, corrcoef);
      NeighboursOverMembers(ratings, u, init, corrcoef);
      forall p | p in prev ensures p.0 != v {
        assert p.0 in init;
      }
    }
  }

  /** A pair `(v, s)` is a neighbour exactly when `v` appears in the log, is
      not the target, shares at least `MinCommon` movies with it, and their
      paired ratings correlate to `s`; no user is listed twice. */
  lemma NeighbourCharacterised(ratings: seq<Rating>, u: int,
                               corrcoef: (seq<real>, seq<real>) -> Option<real>, v: int, s: real)
    ensures (v, s) in Neighbours(ratings, u, corrcoef) <==>
      && v in Users(ratings) && v != u
      && |RatedBy(ratings, u) * RatedBy(ratings, v)| >= MinCommon
      && corrcoef(Paired(ratings, u, v).0, Paired(ratings, u, v).1) == Some(s)
    ensures NoDuplicates(Firsts(Neighbours(ratings, u, corrcoef)))
  {
    PairedLength(ratings, u, v);
    NeighboursOverMembers(ratings, u, Users(ratings), corrcoef);
    NeighboursOverDistinct(ratings, u, Users(ratings), corrcoef);
  }

  /** `similar_users[:10]` after the stable descending sort. */
  function TopNeighbours(ratings: seq<Rating>, u: int,
                         corrcoef: (seq<real>, seq<real>) -> Option<real>): seq<(int, real)>
  {
    Take(SortDesc(Neighbours(ratings, u, corrcoef)), MaxNeighbours)
  }

  /** At most ten neighbours vote, best first, and none left out correlates
      better than one kept. */
  lemma TopNeighboursChosen(ratings: seq<Rating>, u: int,
                            corrcoef: (seq<real>, seq<real>) -> Option<real>)
    ensures var top := TopNeighbours(ratings, u, corrcoef);
      && |top| <= MaxNeighbours
      && (forall p :: p in top ==> p in Neighbours(ratings, u, corrcoef))
      && (forall i, j :: 0 <= i < j < |top| ==> top[i].1 >= top[j].1)
      && (forall x, y :: x in top && y in multiset(Neighbours(ratings, u, corrcoef)) - multiset(top) ==> y.1 <= x.1)
  {
    TopChosen(Neighbours(ratings, u, corrcoef), MaxNeighbours);
  }

  // ---------------------------------------------------------------------
  // Candidate tally

  /** `similar_user_ratings[similar_user_ratings['rating'] >= 4.0]`: the
      rows in which `v` rated, at least `HighRating`, a movie outside `rated`. */
  function HighRated(ratings: seq<Rating>, v: int, rated: set<int>): (h: seq<Rating>)
    ensures forall r :: r in h <==>
      r in ratings && r.userId == v && r.movieId !in rated && r.rating >= HighRating
  {
    if ratings == [] then []
    else
      var prev := HighRated(ratings[..|ratings| - 1], v, rated);
      var r := ratings[|ratings| - 1];
      assert ratings == ratings[..|ratings| - 1] + [r];
      if r.userId == v && r.movieId !in rated && r.rating >= HighRating then prev + [r] else prev
  }

  /** The filter keeps each high rating as often as the log holds it, so a
      repeated row is credited once per occurrence. */
  lemma {:induction false} HighRatedCounts(ratings: seq<Rating>, v: int, rated: set<int>)
    ensures forall r :: multiset(HighRated(ratings, v, rated))[r] ==
                        if r.userId == v && r.movieId !in rated && r.rating >= HighRating
                        then multiset(ratings)[r] else 0
  {
    if ratings != [] {
      var pre := ratings[..|ratings| - 1];
      assert ratings == pre + [ratings[|ratings| - 1]];
      HighRatedCounts(pre, v, rated);
    }
  }

  /** The filter keeps log order: filtering a log that is `a` followed by
      `b` gives the rows kept from `a`, then those kept from `b`. */
  lemma {:induction false} HighRatedAppend(a: seq<Rating>, b: seq<Rating>, v: int, rated: set<int>)
    ensures HighRated(a + b, v, rated) == HighRated(a, v, rated) + HighRated(b, v, rated)
  {
    if b == [] {
      assert a + b == a;
    } else {
      var b' := b[..|b| - 1];
      HighRatedAppend(a, b', v, rated);
      assert (a + b)[..|a + b| - 1] == a + b';
      assert (a + b)[|a + b| - 1] == b[|b| - 1];
    }
  }

  /** The `movieId` column of some rating rows. */
  function MovieIds(rows: seq<Rating>): (ms: seq<int>)
    ensures |ms| == |rows|
  {
    if rows == [] then [] else MovieIds(rows[..|rows| - 1]) + [rows[|rows| - 1].movieId]
  }

  /** One entry of `candidate_movies`. */
  datatype Entry = Entry(score: real, weightedSum: real)

  /** `candidate_movies`: its keys in insertion order, and its entries. */
  datatype Tally = Tally(order: seq<int>, entries: map<int, Entry>)

  /** A dict keeps each key once, and lists exactly the keys it holds. */
  ghost predicate WellFormed(t: Tally) {
    NoDuplicates(t.order) && forall m :: m in t.order <==> m in t.entries
  }

  /** The entry of `m`, or the `{'score': 0, 'weighted_sum': 0}` it starts from. */
  function EntryOf(t: Tally, m: int): Entry {
    if m in t.entries then t.entries[m] else Entry(0.0, 0.0)
  }

  /** `rating * similarity`, one vote's contribution to `weighted_sum`. */
  function Vote(rating: real, sim: real): real {
    rating * sim
  }

  /** One iteration of the `iterrows` loop: create the entry if it is new,
      then add the vote and the similarity. */
  function Credit(t: Tally, m: int, rating: real, sim: real): (t': Tally)
    ensures WellFormed(t) ==> WellFormed(t')
    ensures WellFormed(t) ==> forall x :: x in t'.order <==> x in t.order || x == m
    ensures WellFormed(t) ==> t'.order == if m in t.order then t.order else t.order + [m]
    ensures EntryOf(t', m) == Entry(EntryOf(t, m).score + sim, EntryOf(t, m).weightedSum + Vote(rating, sim))
    ensures forall x :: x != m ==> EntryOf(t', x) == EntryOf(t, x)
  {
    var e := EntryOf(t, m);
    Tally(if m in t.entries then t.order else t.order + [m],
          t.entries[m := Entry(e.score + sim, e.weightedSum + Vote(rating, sim))])
  }

  /** `candidate_movies` after crediting the rows `rows` with similarity `sim`. */
  function CreditRows(t: Tally, rows: seq<Rating>, sim: real): Tally {
    if rows == [] then t
    else
      var r := rows[|rows| - 1];
      Credit(CreditRows(t, rows[..|rows| - 1], sim), r.movieId, r.rating, sim)
  }

  /** Crediting one more row of a list. */
  lemma CreditRowsPrefix(t: Tally, rows: seq<Rating>, k: int, sim: real)
    requires 0 <= k < |rows|
    ensures CreditRows(t, rows[..k + 1], sim) ==
            Credit(CreditRows(t, rows[..k], sim), rows[k].movieId, rows[k].rating, sim)
  {
    assert rows[..k + 1][..k] == rows[..k];
  }

  /** The keys of `candidate_movies` after one neighbour's votes: the old
      keys, then each newly voted movie in the order of its first row. */
  lemma {:induction false} CreditRowsOrder(t: Tally, rows: seq<Rating>, sim: real)
    ensures WellFormed(t) ==> CreditRows(t, rows, sim).order == Distinct(t.order + MovieIds(rows))
  {
    if WellFormed(t) {
      if rows == [] {
        assert t.order + MovieIds(rows) == t.order;
        DistinctNoDuplicates(t.order);
      } else {
        CreditRowsOrder(t, rows[..|rows| - 1], sim);
        CreditRowsTally(t, rows[..|rows| - 1], sim);
        CreditOrderStep(t, rows, sim);
      }
    }
  }

  /** One step of `CreditRowsOrder`. */
  lemma CreditOrderStep(t: Tally, rows: seq<Rating>, sim: real)
    requires rows != []
    requires WellFormed(CreditRows(t, rows[..|rows| - 1], sim))
    requires CreditRows(t, rows[..|rows| - 1], sim).order == Distinct(t.order + MovieIds(rows[..|rows| - 1]))
    ensures CreditRows(t, rows, sim).order == Distinct(t.order + MovieIds(rows))
  {
    var init := rows[..|rows| - 1];
    var m := rows[|rows| - 1].movieId;
    var pre := t.order + MovieIds(init);
    assert MovieIds(rows) == MovieIds(init) + [m];
    assert t.order + MovieIds(rows) == pre + [m];
    DistinctSnoc(pre, m);
  }

  /** `candidate_movies` after the neighbours `ns` have voted. */
  function TallyOver(ratings: seq<Rating>, rated: set<int>, ns: seq<(int, real)>): Tally {
    if ns == [] then Tally([], map[])
    else
      var last := ns[|ns| - 1];
      CreditRows(TallyOver(ratings, rated, ns[..|ns| - 1]), HighRated(ratings, last.0, rated), last.1)
  }

  // Reference sums: what the tally of one movie should come to.

  /** The similarity added for `m`, once per row of `rows` about `m`. */
  function RowScore(rows: seq<Rating>, m: int, sim: real): real {
    if rows == [] then 0.0
    else
      var r := rows[|rows| - 1];
      RowScore(rows[..|rows| - 1], m, sim) + (if r.movieId == m then sim else 0.0)
  }

  /** The votes added for `m` by the rows of `rows`. */
  function RowWeighted(rows: seq<Rating>, m: int, sim: real): real {
    if rows == [] then 0.0
    else
      var r := rows[|rows| - 1];
      RowWeighted(rows[..|rows| - 1], m, sim) + (if r.movieId == m then Vote(r.rating, sim) else 0.0)
  }

  /** The sum, over the voting neighbours, of their similarity once per high
      rating they gave `m`. */
  function ScoreOf(ratings: seq<Rating>, rated: set<int>, ns: seq<(int, real)>, m: int): real {
    if ns == [] then 0.0
    else
      var last := ns[|ns| - 1];
      ScoreOf(ratings, rated, ns[..|ns| - 1], m) + RowScore(HighRated(ratings, last.0, rated), m, last.1)
  }

  /** The sum, over the voting neighbours, of `rating * similarity` for each
      high rating they gave `m`. */
  function WeightedOf(ratings: seq<Rating>, rated: set<int>, ns: seq<(int, real)>, m: int): real {
    if ns == [] then 0.0
    else
      var last := ns[|ns| - 1];
      WeightedOf(ratings, rated, ns[..|ns| - 1], m) + RowWeighted(HighRated(ratings, last.0, rated), m, last.1)
  }

  /** Some neighbour among `ns` rated `m` highly (and the target did not). */
  predicate Voted(ratings: seq<Rating>, rated: set<int>, ns: seq<(int, real)>, m: int) {
    exists p, r :: p in ns && r in HighRated(ratings, p.0, rated) && r.movieId == m
  }

  lemma {:induction false} CreditRowsTally(t: Tally, rows: seq<Rating>, sim: real)
    ensures WellFormed(t) ==> WellFormed(CreditRows(t, rows, sim))
    ensures WellFormed(t) ==> forall m :: m in CreditRows(t, rows, sim).order <==>
                                 m in t.order || exists r :: r in rows && r.movieId == m
    ensures forall m :: EntryOf(CreditRows(t, rows, sim), m) ==
                        Entry(EntryOf(t, m).score + RowScore(rows, m, sim), EntryOf(t, m).weightedSum + RowWeighted(rows, m, sim))
  {
    if rows != [] {
      var init := rows[..|rows| - 1];
      var r := rows[|rows| - 1];
      assert rows == init + [r];
      CreditRowsTally(t, init, sim);
    }
  }

  /** The voted movie ids in the order the nested loops cast the votes:
      neighbour by neighbour, and each neighbour's high ratings in log order. */
  function VoteStream(ratings: seq<Rating>, rated: set<int>, ns: seq<(int, real)>): seq<int> {
    if ns == [] then []
    else VoteStream(ratings, rated, ns[..|ns| - 1]) + MovieIds(HighRated(ratings, ns[|ns| - 1].0, rated))
  }

  /** The keys of `candidate_movies` are the voted movies in the order of
      their first vote. */
  lemma {:induction false} TallyOrder(ratings: seq<Rating>, rated: set<int>, ns: seq<(int, real)>)
    ensures TallyOver(ratings, rated, ns).order == Distinct(VoteStream(ratings, rated, ns))
  {
    if ns != [] {
      var init := ns[..|ns| - 1];
      var rows := HighRated(ratings, ns[|ns| - 1].0, rated);
      TallyOrder(ratings, rated, init);
      TallyOverSums(ratings, rated, init);
      CreditRowsOrder(TallyOver(ratings, rated, init), rows, ns[|ns| - 1].1);
      DistinctAppend(VoteStream(ratings, rated, init), MovieIds(rows));
    }
  }

  /** The tally holds each voted-for movie once, and its entry is the
      reference sum of its votes. */
  lemma {:induction false} TallyOverSums(ratings: seq<Rating>, rated: set<int>, ns: seq<(int, real)>)
    ensures WellFormed(TallyOver(ratings, rated, ns))
    ensures forall m :: m in TallyOver(ratings, rated, ns).order <==> Voted(ratings, rated, ns, m)
    ensures forall m :: EntryOf(TallyOver(ratings, rated, ns), m) ==
                        Entry(ScoreOf(ratings, rated, ns, m), WeightedOf(ratings, rated, ns, m))
  {
    if ns != [] {
      var init := ns[..|ns| - 1];
      var last := ns[|ns| - 1];
      TallyOverSums(ratings, rated, init);
      var rows := HighRated(ratings, last.0, rated);
      CreditRowsTally(TallyOver(ratings, rated, init), rows, last.1);
      forall m ensures Voted(ratings, rated, ns, m) <==>
                       Voted(ratings, rated, init, m) || exists r :: r in rows && r.movieId == m {
        VotedSnoc(ratings, rated, ns, m);
      }
    }
  }

  lemma VotedSnoc(ratings: seq<Rating>, rated: set<int>, ns: seq<(int, real)>, m: int)
    requires ns != []
    ensures Voted(ratings, rated, ns, m) <==>
      || Voted(ratings, rated, ns[..|ns| - 1], m)
      || exists r :: r in HighRated(ratings, ns[|ns| - 1].0, rated) && r.movieId == m
  {
    var init := ns[..|ns| - 1];
    var last := ns[|ns| - 1];
    assert ns == init + [last];
    if r :| r in HighRated(ratings, last.0, rated) && r.movieId == m {
      assert last in ns;
    }
  }

  // ---------------------------------------------------------------------
  // Predictions and the result

  /** `predictions` after visiting the tally keys `order`: every movie with a
      positive score, predicted at `weighted_sum / score`. */
  function PredictionsOver(t: Tally, order: seq<int>): (ps: seq<(int, real)>)
    ensures |ps| <= |order|
    ensures forall p :: p in ps <==>
      p.0 in order && EntryOf(t, p.0).score > 0.0 && p.1 == Mean(EntryOf(t, p.0).weightedSum, EntryOf(t, p.0).score)
  {
    if order == [] then []
    else
      var prev := PredictionsOver(t, order[..|order| - 1]);
      var m := order[|order| - 1];
      assert order == order[..|order| - 1] + [m];
      var e := EntryOf(t, m);
      if e.score > 0.0 then prev + [(m, Mean(e.weightedSum, e.score))] else prev
  }

  /** The position of movie `m` among the tally keys `order`. */
  function KeyRank(order: seq<int>): int -> int {
    m => PositionIn(order, m)
  }

  /** `predictions` lists its movies in the order of the tally keys. */
  lemma {:induction false} PredictionsInOrder(t: Tally, order: seq<int>)
    requires NoDuplicates(order)
    ensures KeysIncreasing(PredictionsOver(t, order), KeyRank(order))
  {
    if order != [] {
      var pre := order[..|order| - 1];
      var m := order[|order| - 1];
      assert order == pre + [m];
      assert NoDuplicates(pre);
      assert m !in pre;
      PredictionsInOrder(t, pre);
      PredictionsStep(t, pre, m);
    }
  }

  /** One step of `PredictionsInOrder`: appending a new key keeps the
      order, given that the earlier keys are in order. */
  lemma PredictionsStep(t: Tally, pre: seq<int>, m: int)
    requires m !in pre
    requires KeysIncreasing(PredictionsOver(t, pre), KeyRank(pre))
    ensures KeysIncreasing(PredictionsOver(t, pre + [m]), KeyRank(pre + [m]))
  {
    var prev := PredictionsOver(t, pre);
    var ps := PredictionsOver(t, pre + [m]);
    PredictionsSnoc(t, pre, m);
    forall i | 0 <= i < |prev|
      ensures PositionIn(pre + [m], prev[i].0) == PositionIn(pre, prev[i].0) < |pre|
    {
      assert prev[i] in prev;
      PositionInPrefix(pre, m, prev[i].0);
    }
    PositionInLast(pre, m);
    forall i, j | 0 <= i < j < |ps|
      ensures KeyRank(pre + [m])(ps[i].0) < KeyRank(pre + [m])(ps[j].0)
    {
      assert ps[i] == prev[i];
      if j < |prev| {
        assert ps[j] == prev[j];
      }
    }
  }

  /** `predictions` after one more tally key: the previous list, and the new
      movie at the end when its score is positive. */
  lemma PredictionsSnoc(t: Tally, pre: seq<int>, m: int)
    ensures var e := EntryOf(t, m);
            PredictionsOver(t, pre + [m]) ==
              PredictionsOver(t, pre) + if e.score > 0.0 then [(m, Mean(e.weightedSum, e.score))] else []
  {
    assert (pre + [m])[..|pre|] == pre;
  }

  /** `data['weighted_sum'] / data['score']`. */
  function Mean(weightedSum: real, score: real): real
    requires score > 0.0
  {
    weightedSum / score
  }

  /** One row of the returned frame. */
  datatype CollabRow = CollabRow(title: string, genres: string, predictedRating: real)

  /** `movies_df[movies_df['movieId'] == m]`, first row, if any. */
  function FindMovie(movies: seq<Movie>, m: int): (found: Option<Movie>)
    ensures found.Some? ==> found.value in movies && found.value.movieId == m
    ensures found.None? <==> forall mv :: mv in movies ==> mv.movieId != m
    ensures found.Some? ==> exists i :: 0 <= i < |movies| && movies[i] == found.value &&
                                        forall j :: 0 <= j < i ==> movies[j].movieId != m
  {
    if movies == [] then None
    else if movies[0].movieId == m then Some(movies[0])
    else
      assert forall mv :: mv in movies ==> mv == movies[0] || mv in movies[1..];
      var later := FindMovie(movies[1..], m);
      assert later.Some? ==> exists i :: 0 <= i < |movies| && movies[i] == later.value &&
                                         forall j :: 0 <= j < i ==> movies[j].movieId != m by {
        if later.Some? {
          var i :| 0 <= i < |movies[1..]| && movies[1..][i] == later.value &&
                   forall j :: 0 <= j < i ==> movies[1..][j].movieId != m;
          assert movies[i + 1] == later.value;
          assert forall j :: 0 <= j < i + 1 ==> movies[j].movieId != m;
        }
      }
      later
  }

  /** The rows for the predictions `top`, skipping movies not in the catalog. */
  function RowsFor(movies: seq<Movie>, top: seq<(int, real)>): (rows: seq<CollabRow>)
    ensures |rows| <= |top|
  {
    if top == [] then []
    else
      var prev := RowsFor(movies, top[..|top| - 1]);
      var p := top[|top| - 1];
      match FindMovie(movies, p.0)
      case None => prev
      case Some(mv) => prev + [CollabRow(mv.title, mv.genres, p.1)]
  }

  /** `predictions`, in the insertion order of `candidate_movies`. */
  function Predictions(ratings: seq<Rating>, u: int,
                       corrcoef: (seq<real>, seq<real>) -> Option<real>): seq<(int, real)>
  {
    var t := TallyOver(ratings, RatedBy(ratings, u), TopNeighbours(ratings, u, corrcoef));
    PredictionsOver(t, t.order)
  }

  /** `top_movies`: the best `n` predictions, before the catalog lookup. */
  function TopPredictions(ratings: seq<Rating>, u: int, n: int,
                          corrcoef: (seq<real>, seq<real>) -> Option<real>): seq<(int, real)>
  {
    Take(SortDesc(Predictions(ratings, u, corrcoef)), n)
  }

  /** `predictions.sort(key=lambda x: x[1], reverse=True)` is stable: among
      the returned movies, two with the same predicted rating appear in the
      key order of `candidate_movies`. */
  lemma PredictionTies(ratings: seq<Rating>, u: int, n: int,
                       corrcoef: (seq<real>, seq<real>) -> Option<real>)
    ensures var t := TallyOver(ratings, RatedBy(ratings, u), TopNeighbours(ratings, u, corrcoef));
            var top := TopPredictions(ratings, u, n, corrcoef);
            forall i, j :: 0 <= i < j < |top| && top[i].1 == top[j].1 ==>
              PositionIn(t.order, top[i].0) < PositionIn(t.order, top[j].0)
  {
    var t := TallyOver(ratings, RatedBy(ratings, u), TopNeighbours(ratings, u, corrcoef));
    TallyOverSums(ratings, RatedBy(ratings, u), TopNeighbours(ratings, u, corrcoef));
    var ps := PredictionsOver(t, t.order);
    PredictionsInOrder(t, t.order);
    SortDescKeepsTiesByKey(ps, KeyRank(t.order));
    var sorted := SortDesc(ps);
    var top := Take(sorted, n);
    assert top == sorted[..|top|];
    forall i, j | 0 <= i < j < |top| && top[i].1 == top[j].1
      ensures PositionIn(t.order, top[i].0) < PositionIn(t.order, top[j].0)
    {
      assert top[i] == sorted[i] && top[j] == sorted[j];
    }
  }

  /** Two returned movies with the same predicted rating appear in the order
      of their first vote: the first high rating of them by a voting
      neighbour, neighbours taken in similarity order and each neighbour's
      ratings in log order. */
  lemma PredictionTiesByFirstVote(ratings: seq<Rating>, u: int, n: int,
                                  corrcoef: (seq<real>, seq<real>) -> Option<real>)
    ensures var votes := VoteStream(ratings, RatedBy(ratings, u), TopNeighbours(ratings, u, corrcoef));
            var top := TopPredictions(ratings, u, n, corrcoef);
            forall i, j :: 0 <= i < j < |top| && top[i].1 == top[j].1 ==>
              PositionIn(votes, top[i].0) < PositionIn(votes, top[j].0)
  {
    var rated := RatedBy(ratings, u);
    var ns := TopNeighbours(ratings, u, corrcoef);
    var votes := VoteStream(ratings, rated, ns);
    var top := TopPredictions(ratings, u, n, corrcoef);
    var order := TallyOver(ratings, rated, ns).order;
    PredictionTies(ratings, u, n, corrcoef);
    TallyOrder(ratings, rated, ns);
    forall i, j | 0 <= i < j < |top| && top[i].1 == top[j].1
      ensures PositionIn(votes, top[i].0) < PositionIn(votes, top[j].0)
    {
      TopKeyVoted(ratings, u, n, corrcoef, i);
      TopKeyVoted(ratings, u, n, corrcoef, j);
      DistinctKeepsFirstOrder(votes, top[i].0, top[j].0);
    }
  }

  /** Every returned movie is a key of `candidate_movies`. */
  lemma TopKeyVoted(ratings: seq<Rating>, u: int, n: int,
                    corrcoef: (seq<real>, seq<real>) -> Option<real>, k: int)
    requires 0 <= k < |TopPredictions(ratings, u, n, corrcoef)|
    ensures TopPredictions(ratings, u, n, corrcoef)[k].0 in
            TallyOver(ratings, RatedBy(ratings, u), TopNeighbours(ratings, u, corrcoef)).order
  {
    var ps := Predictions(ratings, u, corrcoef);
    var sorted := SortDesc(ps);
    var top := TopPredictions(ratings, u, n, corrcoef);
    assert top == sorted[..|top|];
    assert top[k] == sorted[k];
    assert sorted[k] in multiset(sorted);
    assert top[k] in ps;
  }

  /** What `collaborative_recommendations(ratings_df, movies_df, user_id, n)`
      returns; the empty DataFrame is the empty sequence. */
  function CollabRanking(ratings: seq<Rating>, movies: seq<Movie>, u: int, n: int,
                         corrcoef: (seq<real>, seq<real>) -> Option<real>): seq<CollabRow>
  {
    if u !in Users(ratings) then []
    else RowsFor(movies, TopPredictions(ratings, u, n, corrcoef))
  }

  /** The `for movie_id in common_movies` loop filling the two arrays. */
  method PairRatings(ratings: seq<Rating>, u: int, v: int, common: seq<int>)
    returns (userArray: seq<real>, otherArray: seq<real>)
    requires common == CommonMovies(ratings, u, v)
    ensures (userArray, otherArray) == Paired(ratings, u, v)
  {
    userArray := [];
    otherArray := [];
    var k := 0;
    while k < |common|
      invariant 0 <= k <= |common|
      invariant |userArray| == k && |otherArray| == k
      invariant forall j :: 0 <= j < k ==>
        userArray[j] == UserRating(ratings, u, common[j]) && otherArray[j] == UserRating(ratings, v, common[j])
    {
      userArray := userArray + [UserRating(ratings, u, common[k])];
      otherArray := otherArray + [UserRating(ratings, v, common[k])];
      k := k + 1;
    }
    assert userArray == Paired(ratings, u, v).0 && otherArray == Paired(ratings, u, v).1;
  }

  /** The `for other_user in ratings_df['userId'].unique()` loop. */
  method FindSimilarUsers(ratings: seq<Rating>, u: int, corrcoef: (seq<real>, seq<real>) -> Option<real>)
    returns (similarUsers: seq<(int, real)>)
    ensures similarUsers == Neighbours(ratings, u, corrcoef)
  {
    var users := Users(ratings);
    similarUsers := [];
    var i := 0;
    while i < |users|
      invariant 0 <= i <= |users|
      invariant similarUsers == NeighboursOver(ratings, u, users[..i], corrcoef)
    {
      var other := users[i];
      NeighboursOverSnoc(ratings, u, users, i, corrcoef);
      var similarity := ScanUser(ratings, u, other, corrcoef);
      if similarity.Some? {
        similarUsers := similarUsers + [(other, similarity.value)];
      }
      i := i + 1;
    }
    assert users[..i] == users;
  }

  /** The body of the scanning loop for one user: skip the target and users
      sharing fewer than `MinCommon` movies, otherwise correlate the paired
      ratings. */
  method ScanUser(ratings: seq<Rating>, u: int, other: int,
                  corrcoef: (seq<real>, seq<real>) -> Option<real>)
    returns (similarity: Option<real>)
    ensures similarity == Similarity(ratings, u, other, corrcoef)
  {
    similarity := None;
    if other != u {
      var common := CommonMovies(ratings, u, other);
      if |common| >= MinCommon {
        var userArray, otherArray := PairRatings(ratings, u, other, common);
        similarity := corrcoef(userArray, otherArray);
      }
    }
  }

  /** The `iterrows` loop over one neighbour's high ratings, updating
      `candidate_movies` (held as its key order and its entries). */
  method CreditNeighbour(order0: seq<int>, entries0: map<int, Entry>, highRated: seq<Rating>, sim: real)
    returns (order: seq<int>, entries: map<int, Entry>)
    ensures Tally(order, entries) == CreditRows(Tally(order0, entries0), highRated, sim)
  {
    order, entries := order0, entries0;
    var k := 0;
    while k < |highRated|
      invariant 0 <= k <= |highRated|
      invariant Tally(order, entries) == CreditRows(Tally(order0, entries0), highRated[..k], sim)
    {
      var movieId := highRated[k].movieId;
      var rating := highRated[k].rating;
      ghost var before := Tally(order, entries);
      if movieId !in entries {
        order := order + [movieId];
        entries := entries[movieId := Entry(0.0, 0.0)];
      }
      entries := entries[movieId := entries[movieId].(weightedSum := entries[movieId].weightedSum + Vote(rating, sim))];
      entries := entries[movieId := entries[movieId].(score := entries[movieId].score + sim)];
      assert entries[movieId] == Entry(EntryOf(before, movieId).score + sim, EntryOf(before, movieId).weightedSum + Vote(rating, sim));
      assert entries == before.entries[movieId := entries[movieId]];
      assert Tally(order, entries) == Credit(before, movieId, rating, sim);
      CreditRowsPrefix(Tally(order0, entries0), highRated, k, sim);
      k := k + 1;
    }
    assert highRated[..k] == highRated;
  }

  /** The `for similar_user, similarity in similar_users[:10]` loop. */
  method CollectCandidates(ratings: seq<Rating>, rated: set<int>, top: seq<(int, real)>)
    returns (order: seq<int>, entries: map<int, Entry>)
    ensures Tally(order, entries) == TallyOver(ratings, rated, top)
  {
    order, entries := [], map[];
    var j := 0;
    while j < |top|
      invariant 0 <= j <= |top|
      invariant Tally(order, entries) == TallyOver(ratings, rated, top[..j])
    {
      var (v, sim) := top[j];
      assert top[..j + 1][..j] == top[..j];
      order, entries := CreditNeighbour(order, entries, HighRated(ratings, v, rated), sim);
      j := j + 1;
    }
    assert top[..j] == top;
  }

  /** The `for movie_id, data in candidate_movies.items()` loop. */
  method Predict(order: seq<int>, entries: map<int, Entry>) returns (predictions: seq<(int, real)>)
    requires forall m :: m in order ==> m in entries
    ensures predictions == PredictionsOver(Tally(order, entries), order)
  {
    predictions := [];
    var j := 0;
    while j < |order|
      invariant 0 <= j <= |order|
      invariant predictions == PredictionsOver(Tally(order, entries), order[..j])
    {
      var movieId := order[j];
      var data := entries[movieId];
      assert order[..j + 1][..j] == order[..j];
      if data.score > 0.0 {
        predictions := predictions + [(movieId, Mean(data.weightedSum, data.score))];
      }
      j := j + 1;
    }
    assert order[..j] == order;
  }

  /** The `for movie_id, pred_rating in top_movies` loop. */
  method LookUpMovies(movies: seq<Movie>, topMovies: seq<(int, real)>) returns (result: seq<CollabRow>)
    ensures result == RowsFor(movies, topMovies)
  {
    result := [];
    var j := 0;
    while j < |topMovies|
      invariant 0 <= j <= |topMovies|
      invariant result == RowsFor(movies, topMovies[..j])
    {
      var (movieId, predicted) := topMovies[j];
      assert topMovies[..j + 1][..j] == topMovies[..j];
      var movie := FindMovie(movies, movieId);
      if movie.Some? {
        result := result + [CollabRow(movie.value.title, movie.value.genres, predicted)];
      }
      j := j + 1;
    }
    assert topMovies[..j] == topMovies;
  }

  /** `collaborative_recommendations`. */
  method CollaborativeRecommendations(ratings: seq<Rating>, movies: seq<Movie>, userId: int, n: int,
                                      corrcoef: (seq<real>, seq<real>) -> Option<real>)
    returns (result: seq<CollabRow>)
    ensures result == CollabRanking(ratings, movies, userId, n, corrcoef)
  {
    if userId !in Users(ratings) {
      return [];
    }
    var rated := RatedBy(ratings, userId);
    var similarUsers := FindSimilarUsers(ratings, userId, corrcoef);
    similarUsers := SortDesc(similarUsers);
    var top := Take(similarUsers, MaxNeighbours);
    var order, entries := CollectCandidates(ratings, rated, top);
    TallyOverSums(ratings, rated, top);
    var predictions := Predict(order, entries);
    predictions := SortDesc(predictions);
    var topMovies := Take(predictions, n);
    result := LookUpMovies(movies, topMovies);
  }

  // ---------------------------------------------------------------------
  // Properties of the recommender

  /** An unknown user gets the empty result. */
  lemma CollabUnknownUser(ratings: seq<Rating>, movies: seq<Movie>, u: int, n: int,
                          corrcoef: (seq<real>, seq<real>) -> Option<real>)
    requires forall r :: r in ratings ==> r.userId != u
    ensures CollabRanking(ratings, movies, u, n, corrcoef) == []
  {
  }

  /** The predictions made from the votes of `ns`, movie by movie. */
  lemma TallyPredictions(ratings: seq<Rating>, rated: set<int>, ns: seq<(int, real)>, m: int, x: real)
    ensures var t := TallyOver(ratings, rated, ns);
      (m, x) in PredictionsOver(t, t.order) <==>
        && Voted(ratings, rated, ns, m)
        && ScoreOf(ratings, rated, ns, m) > 0.0
        && x == Mean(WeightedOf(ratings, rated, ns, m), ScoreOf(ratings, rated, ns, m))
    ensures var t := TallyOver(ratings, rated, ns);
      (m, x) in PredictionsOver(t, t.order) ==>
        && m !in rated
        && exists p, r :: p in ns && r in ratings && r.userId == p.0 && r.movieId == m && r.rating >= HighRating
  {
    var t := TallyOver(ratings, rated, ns);
    TallyOverSums(ratings, rated, ns);
    if (m, x) in PredictionsOver(t, t.order) {
      var p, r :| p in ns && r in HighRated(ratings, p.0, rated) && r.movieId == m;
      assert r in ratings && r.userId == p.0 && r.rating >= HighRating;
    }
  }

  /** A movie is predicted exactly when some voting neighbour rated it at
      least `HighRating` and the accumulated similarity is positive; the
      prediction is the accumulated `weighted_sum / score`, and the movie is
      one the target has not rated. */
  lemma PredictionCharacterised(ratings: seq<Rating>, u: int,
                                corrcoef: (seq<real>, seq<real>) -> Option<real>, m: int, x: real)
    ensures var rated := RatedBy(ratings, u);
      var ns := TopNeighbours(ratings, u, corrcoef);
      (m, x) in Predictions(ratings, u, corrcoef) <==>
        && Voted(ratings, rated, ns, m)
        && ScoreOf(ratings, rated, ns, m) > 0.0
        && x == Mean(WeightedOf(ratings, rated, ns, m), ScoreOf(ratings, rated, ns, m))
    ensures (m, x) in Predictions(ratings, u, corrcoef) ==>
      && m !in RatedBy(ratings, u)
      && exists p, r :: p in TopNeighbours(ratings, u, corrcoef) && r in ratings &&
           r.userId == p.0 && r.movieId == m && r.rating >= HighRating
  {
    TallyPredictions(ratings, RatedBy(ratings, u), TopNeighbours(ratings, u, corrcoef), m, x);
  }

  /** At most `n` predictions are kept, best first, and none dropped is
      better than one kept. */
  lemma TopPredictionsChosen(ratings: seq<Rating>, u: int, n: int,
                             corrcoef: (seq<real>, seq<real>) -> Option<real>)
    ensures var top := TopPredictions(ratings, u, n, corrcoef);
      var ps := Predictions(ratings, u, corrcoef);
      && (n >= 0 ==> |top| <= n)
      && (forall p :: p in top ==> p in ps)
      && (forall i, j :: 0 <= i < j < |top| ==> top[i].1 >= top[j].1)
      && (forall x, y :: x in top && y in multiset(ps) - multiset(top) ==> y.1 <= x.1)
  {
    TopChosen(Predictions(ratings, u, corrcoef), n);
  }

  /** `row` is the result row for prediction `p`: its movie's first catalog
      entry, with the predicted rating. */
  predicate RowFrom(movies: seq<Movie>, p: (int, real), row: CollabRow) {
    match FindMovie(movies, p.0)
    case None => false
    case Some(mv) => row == CollabRow(mv.title, mv.genres, p.1)
  }

  /** The positions of `top` whose movie is in the catalog. */
  function Found(movies: seq<Movie>, top: seq<(int, real)>): (ks: seq<int>)
    ensures forall j :: 0 <= j < |ks| ==> 0 <= ks[j] < |top|
  {
    if top == [] then []
    else
      var prev := Found(movies, top[..|top| - 1]);
      if FindMovie(movies, top[|top| - 1].0).Some? then prev + [|top| - 1] else prev
  }

  /** The result keeps, in order, exactly the predictions whose movie is in
      the catalog, each with that movie's title and genres. */
  lemma {:induction false} FoundPositions(movies: seq<Movie>, top: seq<(int, real)>)
    ensures var ks := Found(movies, top);
      && (forall i, j :: 0 <= i < j < |ks| ==> ks[i] < ks[j])
      && (forall k :: 0 <= k < |top| ==> (k in ks <==> FindMovie(movies, top[k].0).Some?))
  {
    if top != [] {
      var init := top[..|top| - 1];
      FoundPositions(movies, init);
      assert forall k :: 0 <= k < |init| ==> init[k] == top[k];
    }
  }

  lemma {:induction false} RowsForFound(movies: seq<Movie>, top: seq<(int, real)>)
    ensures var rows := RowsFor(movies, top);
      var ks := Found(movies, top);
      && |rows| == |ks|
      && (forall j :: 0 <= j < |ks| ==> RowFrom(movies, top[ks[j]], rows[j]))
  {
    if top != [] {
      RowsForFound(movies, top[..|top| - 1]);
      RowsForFoundStep(movies, top);
    }
  }

  /** One step of `RowsForFound`, given its claim for all but the last
      prediction. */
  lemma RowsForFoundStep(movies: seq<Movie>, top: seq<(int, real)>)
    requires top != []
    requires var rows := RowsFor(movies, top[..|top| - 1]);
      var ks := Found(movies, top[..|top| - 1]);
      && |rows| == |ks|
      && (forall j :: 0 <= j < |ks| ==> RowFrom(movies, top[..|top| - 1][ks[j]], rows[j]))
    ensures var rows := RowsFor(movies, top);
      var ks := Found(movies, top);
      && |rows| == |ks|
      && (forall j :: 0 <= j < |ks| ==> RowFrom(movies, top[ks[j]], rows[j]))
  {
    var init := top[..|top| - 1];
    var last := top[|top| - 1];
    var prev := RowsFor(movies, init);
    var pks := Found(movies, init);
    var rows := RowsFor(movies, top);
    var ks := Found(movies, top);
    var f := FindMovie(movies, last.0);
    if f.Some? {
      assert rows == prev + [CollabRow(f.value.title, f.value.genres, last.1)];
      assert ks == pks + [|top| - 1];
    } else {
      assert rows == prev && ks == pks;
    }
    forall j | 0 <= j < |ks|
      ensures RowFrom(movies, top[ks[j]], rows[j])
    {
      if j < |pks| {
        assert ks[j] == pks[j] && rows[j] == prev[j] && top[pks[j]] == init[pks[j]];
      }
    }
  }

  /** The output has at most `n` rows, in non-increasing predicted rating. */
  lemma CollabRankingOrder(ratings: seq<Rating>, movies: seq<Movie>, u: int, n: int,
                           corrcoef: (seq<real>, seq<real>) -> Option<real>)
    ensures var r := CollabRanking(ratings, movies, u, n, corrcoef);
      && (n >= 0 ==> |r| <= n)
      && forall i, j :: 0 <= i < j < |r| ==> r[i].predictedRating >= r[j].predictedRating
  {
    if u in Users(ratings) {
      var top := TopPredictions(ratings, u, n, corrcoef);
      TopPredictionsChosen(ratings, u, n, corrcoef);
      FoundPositions(movies, top);
      RowsForFound(movies, top);
    }
  }
}
