/** Content-based filtering (project.py, `content_based_recommendations`):
    resolve a title, vectorise every movie's genres, rank all other movies by
    cosine similarity to the resolved one and keep the first `n`. */
module Content {
  import opened Wrappers
  import opened Seqs
  import opened Ranking
  import opened Text
  import opened TfIdf
  import opened Catalog

  // ---------------------------------------------------------------------
  // Title resolution

  datatype MatchKind = Exact | Partial

  /** `title.lower() == movie_title.lower()` for an exact match,
      `movie_title.lower() in title.lower()` for a partial one. */
  predicate TitleMatches(kind: MatchKind, title: string, query: string) {
    match kind
    case Exact => Lower(title) == Lower(query)
    case Partial => Contains(Lower(title), Lower(query))
  }

  /** An exact match is also a partial one, since every title contains
      itself: the substring search, run alone, would stop no later than the
      exact one. */
  lemma PartialNoLaterThanExact(titles: seq<string>, query: string, j: int)
    requires 0 <= j < |titles| && TitleMatches(Exact, titles[j], query)
    ensures FirstMatch(Partial, titles, query, 0).Some?
    ensures FirstMatch(Partial, titles, query, 0).value <= j
  {
  }

  /** The first index at or after `from` whose title matches. */
  function FirstMatch(kind: MatchKind, titles: seq<string>, query: string, from: nat): (r: Option<nat>)
    requires from <= |titles|
    ensures r.Some? ==> from <= r.value < |titles| && TitleMatches(kind, titles[r.value], query)
    ensures r.Some? ==> forall j :: from <= j < r.value ==> !TitleMatches(kind, titles[j], query)
    ensures r.None? ==> forall j :: from <= j < |titles| ==> !TitleMatches(kind, titles[j], query)
    decreases |titles| - from
  {
    if from == |titles| then None
    else if TitleMatches(kind, titles[from], query) then Some(from)
    else FirstMatch(kind, titles, query, from + 1)
  }

  /** The catalog index a query resolves to: the first exact
      case-insensitive match, else the first title containing the query,
      else none. */
  function Resolve(titles: seq<string>, query: string): (r: Option<nat>)
    ensures r.Some? ==> r.value < |titles|
    ensures (exists j :: 0 <= j < |titles| && TitleMatches(Exact, titles[j], query)) ==>
      r.Some? && TitleMatches(Exact, titles[r.value], query) &&
      forall j :: 0 <= j < r.value ==> !TitleMatches(Exact, titles[j], query)
    ensures (forall j :: 0 <= j < |titles| ==> !TitleMatches(Exact, titles[j], query)) ==>
      (r.Some? <==> exists j :: 0 <= j < |titles| && TitleMatches(Partial, titles[j], query)) &&
      (r.Some? ==> TitleMatches(Partial, titles[r.value], query) &&
                   forall j :: 0 <= j < r.value ==> !TitleMatches(Partial, titles[j], query))
  {
    match FirstMatch(Exact, titles, query, 0)
    case Some(k) => Some(k)
    case None => FirstMatch(Partial, titles, query, 0)
  }

  /** The two search loops of `content_based_recommendations`, each left at
      its first hit. */
  method ResolveTitle(titles: seq<string>, query: string) returns (k: Option<nat>)
    ensures k == Resolve(titles, query)
  {
    var q := Lower(query);
    k := None;
    var i := 0;
    while i < |titles|
      invariant 0 <= i <= |titles|
      invariant forall j :: 0 <= j < i ==> !TitleMatches(Exact, titles[j], query)
    {
      if Lower(titles[i]) == q {
        k := Some(i);
        break;
      }
      i := i + 1;
    }
    if k.None? {
      i := 0;
      while i < |titles|
        invariant 0 <= i <= |titles|
        invariant forall j :: 0 <= j < i ==> !TitleMatches(Partial, titles[j], query)
      {
        if Contains(Lower(titles[i]), q) {
          k := Some(i);
          break;
        }
        i := i + 1;
      }
    }
  }

  // ---------------------------------------------------------------------
  // Ranking

  /** One row of the returned frame; `index` is the catalog position that
      `iloc` keeps as the row label. */
  datatype ContentRow = ContentRow(index: int, title: string, genres: string, similarity: real)

  function Titles(rows: seq<Movie>): (ts: seq<string>)
    ensures |ts| == |rows| && forall i :: 0 <= i < |rows| ==> ts[i] == rows[i].title
  {
    seq(|rows|, i requires 0 <= i < |rows| => rows[i].title)
  }

  /** The `genres_text` column: `genres.str.replace('|', ' ')`. */
  function GenresColumn(rows: seq<Movie>): (gs: seq<string>)
    ensures |gs| == |rows| && forall i :: 0 <= i < |rows| ==> gs[i] == Replace(rows[i].genres, '|', ' ')
  {
    seq(|rows|, i requires 0 <= i < |rows| => Replace(rows[i].genres, '|', ' '))
  }

  /** A pipe-separated tag list vectorises over exactly its tags. */
  lemma GenreTerms(tags: seq<string>)
    requires forall i :: 0 <= i < |tags| ==> IsWord(tags[i]) && '|' !in tags[i]
    ensures Tokens(Replace(Join(tags, '|'), '|', ' ')) == tags
  {
    ReplaceJoin(tags, '|', ' ');
    TokensOfJoin(tags);
  }

  /** A catalog index ranks by itself. */
  function Position(i: int): int {
    i
  }

  /** `[(i, cosine_similarity(vectors[k], vec)) ...]` without entry `k`. */
  function Scores(vectors: seq<Vector>, k: int, sqrt: real -> real): (s: seq<(int, real)>)
    requires 0 <= k < |vectors|
    ensures |s| == |vectors| - 1
    ensures forall j :: 0 <= j < |s| ==> s[j].0 == if j < k then j else j + 1
    ensures forall j :: 0 <= j < |s| ==> s[j].1 == CosineSimilarity(vectors[k], vectors[s[j].0], sqrt)
    ensures KeysIncreasing(s, Position)
  {
    var all := seq(|vectors|, i requires 0 <= i < |vectors| => (i, CosineSimilarity(vectors[k], vectors[i], sqrt)));
    all[..k] + all[k + 1..]
  }

  lemma ScoresIndices(vectors: seq<Vector>, k: int, sqrt: real -> real, p: (int, real))
    requires 0 <= k < |vectors|
    requires p in multiset(Scores(vectors, k, sqrt))
    ensures 0 <= p.0 < |vectors| && p.0 != k
    ensures p.1 == CosineSimilarity(vectors[k], vectors[p.0], sqrt)
  {
    var s := Scores(vectors, k, sqrt);
    var j :| 0 <= j < |s| && s[j] == p;
  }

  function RowAt(rows: seq<Movie>, p: (int, real)): ContentRow
    requires 0 <= p.0 < |rows|
  {
    ContentRow(p.0, rows[p.0].title, rows[p.0].genres, p.1)
  }

  /** The first `n` scores, best first. */
  function TopScores(vectors: seq<Vector>, k: int, n: int, sqrt: real -> real): (top: seq<(int, real)>)
    requires 0 <= k < |vectors|
    ensures forall p :: p in top ==> 0 <= p.0 < |vectors| && p.0 != k
  {
    var sorted := SortDesc(Scores(vectors, k, sqrt));
    var top := Take(sorted, n);
    forall p | p in top ensures 0 <= p.0 < |vectors| && p.0 != k {
      assert p in multiset(sorted);
      ScoresIndices(vectors, k, sqrt, p);
    }
    top
  }

  /** The rows for the best `n` movies other than `k`, given one vector per
      catalog row. */
  function Ranked(rows: seq<Movie>, vectors: seq<Vector>, k: int, n: int, sqrt: real -> real): seq<ContentRow>
    requires |vectors| == |rows| && 0 <= k < |rows|
  {
    var top := TopScores(vectors, k, n, sqrt);
    seq(|top|, j requires 0 <= j < |top| => RowAt(rows, top[j]))
  }

  /** What `content_based_recommendations(movies_df, movie_title, n)` returns. */
  function ContentRanking(rows: seq<Movie>, query: string, n: int, ln: real -> real, sqrt: real -> real)
    : seq<ContentRow>
  {
    match Resolve(Titles(rows), query)
    case None => []
    case Some(k) => Ranked(rows, TfIdfVectors(GenresColumn(rows), ln), k, n, sqrt)
  }

  /** `content_based_recommendations`: writes the `genres_text` column into
      the caller's table, then ranks. */
  method ContentBasedRecommendations(table: MovieTable, query: string, n: int, ln: real -> real, sqrt: real -> real)
    returns (recs: seq<ContentRow>)
    modifies table
    ensures table.rows == old(table.rows)
    ensures table.genresText == Some(GenresColumn(table.rows))
    ensures recs == ContentRanking(table.rows, query, n, ln, sqrt)
  {
    var rows := table.rows;
    var texts := GenresColumn(rows);
    table.genresText := Some(texts);
    var vectors := ComputeTfIdf(texts, ln);
    var k := ResolveTitle(Titles(rows), query);
    if k.None? {
      return [];
    }
    var idx := k.value;
    var similarities := seq(|vectors|, i requires 0 <= i < |vectors| =>
      (i, CosineSimilarity(vectors[idx], vectors[i], sqrt)));
    similarities := similarities[..idx] + similarities[idx + 1..];
    assert similarities == Scores(vectors, idx, sqrt);
    similarities := SortDesc(similarities);
    var top := Take(similarities, n);
    assert top == TopScores(vectors, idx, n, sqrt);
    recs := seq(|top|, j requires 0 <= j < |top| => RowAt(rows, top[j]));
  }

  // ---------------------------------------------------------------------
  // Properties of the ranking

  /** An unresolvable title gives the empty result. */
  lemma ContentNotFound(rows: seq<Movie>, query: string, n: int, ln: real -> real, sqrt: real -> real)
    requires forall j :: 0 <= j < |rows| ==>
      !TitleMatches(Exact, rows[j].title, query) && !TitleMatches(Partial, rows[j].title, query)
    ensures ContentRanking(rows, query, n, ln, sqrt) == []
  {
    var titles := Titles(rows);
    assert forall j :: 0 <= j < |titles| ==> !TitleMatches(Exact, titles[j], query);
    assert Resolve(titles, query).None?;
  }

  lemma RankedRows(rows: seq<Movie>, vectors: seq<Vector>, k: int, n: int, sqrt: real -> real)
    requires |vectors| == |rows| && 0 <= k < |rows|
    ensures var r := Ranked(rows, vectors, k, n, sqrt);
      && (n >= 0 ==> |r| == if n <= |rows| - 1 then n else |rows| - 1)
      && forall j :: 0 <= j < |r| ==>
           && 0 <= r[j].index < |rows| && r[j].index != k
           && r[j].title == rows[r[j].index].title && r[j].genres == rows[r[j].index].genres
           && r[j].similarity == CosineSimilarity(vectors[k], vectors[r[j].index], sqrt)
  {
    var top := TopScores(vectors, k, n, sqrt);
    var r := Ranked(rows, vectors, k, n, sqrt);
    forall j | 0 <= j < |r|
      ensures r[j].similarity == CosineSimilarity(vectors[k], vectors[r[j].index], sqrt)
    {
      assert r[j] == RowAt(rows, top[j]);
      assert top[j] in multiset(SortDesc(Scores(vectors, k, sqrt)));
      ScoresIndices(vectors, k, sqrt, top[j]);
    }
  }

  lemma RankedOrder(rows: seq<Movie>, vectors: seq<Vector>, k: int, n: int, sqrt: real -> real)
    requires |vectors| == |rows| && 0 <= k < |rows|
    ensures var r := Ranked(rows, vectors, k, n, sqrt);
      && (forall i, j :: 0 <= i < j < |r| ==> r[i].similarity >= r[j].similarity)
      && (forall i, j :: 0 <= i < j < |r| && r[i].similarity == r[j].similarity ==> r[i].index < r[j].index)
  {
    var scores := Scores(vectors, k, sqrt);
    var sorted := SortDesc(scores);
    var top := TopScores(vectors, k, n, sqrt);
    var r := Ranked(rows, vectors, k, n, sqrt);
    assert top == sorted[..|top|];
    SortDescKeepsTiesByKey(scores, Position);
    forall i, j | 0 <= i < j < |r|
      ensures r[i].similarity >= r[j].similarity
      ensures r[i].similarity == r[j].similarity ==> r[i].index < r[j].index
    {
      assert r[i] == RowAt(rows, top[i]) && r[j] == RowAt(rows, top[j]);
      assert top[i] == sorted[i] && top[j] == sorted[j];
    }
  }

  lemma RankedTop(rows: seq<Movie>, vectors: seq<Vector>, k: int, n: int, sqrt: real -> real, i: int)
    requires |vectors| == |rows| && 0 <= k < |rows|
    requires 0 <= i < |rows| && i != k
    requires forall j :: 0 <= j < |Ranked(rows, vectors, k, n, sqrt)| ==> Ranked(rows, vectors, k, n, sqrt)[j].index != i
    ensures forall j :: 0 <= j < |Ranked(rows, vectors, k, n, sqrt)| ==>
      CosineSimilarity(vectors[k], vectors[i], sqrt) <= Ranked(rows, vectors, k, n, sqrt)[j].similarity
  {
    var scores := Scores(vectors, k, sqrt);
    var top := TopScores(vectors, k, n, sqrt);
    var r := Ranked(rows, vectors, k, n, sqrt);
    var y := (i, CosineSimilarity(vectors[k], vectors[i], sqrt));
    assert y in multiset(scores) by {
      var pos := if i < k then i else i - 1;
      assert scores[pos].0 == i;
      assert scores[pos] == y;
    }
    assert y !in multiset(top) by {
      forall j | 0 <= j < |top| ensures top[j] != y {
        assert r[j].index == top[j].0;
      }
    }
    var sorted := SortDesc(scores);
    assert top == sorted[..|top|];
    forall j | 0 <= j < |r| ensures y.1 <= r[j].similarity {
      OutsidePrefix(sorted, |top|, top[j], y);
    }
  }

  /** The ranking from a resolved index `k`: `min(n, N - 1)` rows for a
      non-negative `n`, each a catalog movie other than `k` with its own
      title and genres and its cosine similarity to `k`. */
  lemma ContentRankingRows(rows: seq<Movie>, query: string, n: int, ln: real -> real, sqrt: real -> real)
    requires Resolve(Titles(rows), query).Some?
    ensures var k := Resolve(Titles(rows), query).value;
      var vectors := TfIdfVectors(GenresColumn(rows), ln);
      var r := ContentRanking(rows, query, n, ln, sqrt);
      && (n >= 0 ==> |r| == if n <= |rows| - 1 then n else |rows| - 1)
      && forall j :: 0 <= j < |r| ==>
           && 0 <= r[j].index < |rows| && r[j].index != k
           && r[j].title == rows[r[j].index].title && r[j].genres == rows[r[j].index].genres
           && r[j].similarity == CosineSimilarity(vectors[k], vectors[r[j].index], sqrt)
  {
    RankedRows(rows, TfIdfVectors(GenresColumn(rows), ln), Resolve(Titles(rows), query).value, n, sqrt);
  }

  /** Best first, and equal similarities keep catalog order (the sort is
      stable and the scores are listed by index). */
  lemma ContentRankingOrder(rows: seq<Movie>, query: string, n: int, ln: real -> real, sqrt: real -> real)
    requires Resolve(Titles(rows), query).Some?
    ensures var r := ContentRanking(rows, query, n, ln, sqrt);
      && (forall i, j :: 0 <= i < j < |r| ==> r[i].similarity >= r[j].similarity)
      && (forall i, j :: 0 <= i < j < |r| && r[i].similarity == r[j].similarity ==> r[i].index < r[j].index)
  {
    RankedOrder(rows, TfIdfVectors(GenresColumn(rows), ln), Resolve(Titles(rows), query).value, n, sqrt);
  }

  /** The kept rows are the most similar: a movie other than `k` that was
      left out is no more similar than any returned row. */
  lemma ContentTopIsHighest(rows: seq<Movie>, query: string, n: int, ln: real -> real, sqrt: real -> real, i: int)
    requires Resolve(Titles(rows), query).Some?
    requires 0 <= i < |rows| && i != Resolve(Titles(rows), query).value
    requires forall j :: 0 <= j < |ContentRanking(rows, query, n, ln, sqrt)| ==>
      ContentRanking(rows, query, n, ln, sqrt)[j].index != i
    ensures var k := Resolve(Titles(rows), query).value;
      var vectors := TfIdfVectors(GenresColumn(rows), ln);
      forall j :: 0 <= j < |ContentRanking(rows, query, n, ln, sqrt)| ==>
        CosineSimilarity(vectors[k], vectors[i], sqrt) <= ContentRanking(rows, query, n, ln, sqrt)[j].similarity
  {
    var vectors := TfIdfVectors(GenresColumn(rows), ln);
    var k := Resolve(Titles(rows), query).value;
    assert ContentRanking(rows, query, n, ln, sqrt) == Ranked(rows, vectors, k, n, sqrt);
    RankedTop(rows, vectors, k, n, sqrt, i);
  }
}
