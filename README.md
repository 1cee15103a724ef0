# Movie recommender core, modelled in Dafny

This project models the two recommenders in `project.py`, a small MovieLens
recommendation program, together with the hand-written TF-IDF and cosine
similarity code they rest on.

* **TF-IDF** (`compute_tfidf`). Each document is split on whitespace. The
  document frequency of a term is the number of documents that contain it.
  Each document becomes a sparse vector of `count * log(N / (1 + df))`
  weights, keyed by its distinct terms in order of first occurrence.
* **Cosine similarity** (`cosine_similarity`). The result is 0 when the two
  key sets are disjoint or either magnitude is 0. Otherwise it is the dot
  product over the common terms divided by the product of the full-vector
  magnitudes.
* **Content-based recommendations** (`content_based_recommendations`).
  * It writes a `genres_text` column (genre tags joined by spaces) into the
    caller's movie table and vectorises that column.
  * It resolves the query title: the first case-insensitive exact match,
    else the first case-insensitive substring match, else an empty result.
  * It scores every other movie against the resolved one, sorts stably by
    descending similarity and keeps the first `n`.
* **Collaborative recommendations** (`collaborative_recommendations`).
  * An unknown user gets an empty result.
  * Every other user with at least 5 co-rated movies and a defined Pearson
    correlation is a neighbour. The 10 best-correlated neighbours vote.
  * Each vote is a neighbour's rating of at least 4.0 for a movie the target
    has not rated. The vote adds `rating * sim` to the movie's weighted sum
    and `sim` to its score.
  * Movies with a positive score are predicted at `weighted_sum / score`.
    They are sorted stably by descending prediction and the first `n` are
    kept. Movies missing from the catalog are dropped.

Scores are `real`. The primitives `math.log`, `math.sqrt` and
`np.corrcoef` are parameters of the model: `ln: real -> real`,
`sqrt: real -> real` and
`corrcoef: (seq<real>, seq<real>) -> Option<real>`, where `None` stands for
a NaN correlation. Every property below therefore holds for any choice of
these functions.

Modules, in dependency order:

| file | module | contents |
|---|---|---|
| `wrappers.dfy` | `Wrappers` | `Option` |
| `seqs.dfy` | `Seqs` | distinct elements and their order, duplicate-freedom, first components of pairs, `list.index`, Python's `s[:n]` |
| `text.dfy` | `Text` | `str.split()`, `str.replace`, ASCII `str.lower()`, substring test |
| `ranking.dfy` | `Ranking` | `list.sort(key=score, reverse=True)` as a stable insertion sort; top-n lemmas |
| `tfidf.dfy` | `TfIdf` | `compute_tfidf` (imperative) and `cosine_similarity` (pure) |
| `catalog.dfy` | `Catalog` | movie and rating records; the mutable movie table |
| `content.dfy` | `Content` | `content_based_recommendations` |
| `collaborative.dfy` | `Collaborative` | `collaborative_recommendations` |

Each loop of the source is a method with loop invariants. Its `ensures`
ties the result to a specification function, and lemmas about that
function state what the source promises. The in-place write of the
`genres_text` column is a field update on the `Catalog.MovieTable` class.

Iteration orders the source leaves to Python's `set` or pandas are fixed as
follows:

* `unique()` is the order of first appearance.
* `common_movies` is iterated in the order of the other user's ratings.
* The common terms of two vectors are taken in the first vector's key order.
* The `set(tokens)` loop picks its next term with `:|`, so any order is
  accepted.

Two behaviours of the code are worth noting:

* Weights are not clamped. Every distinct term of a document keeps its
  entry, whatever weight `log(N / (1 + df))` gives it. A term in every
  document gets `count * log(N / (N + 1))`, which is negative when the
  logarithm is negative below 1 (`TfIdf.UbiquitousTermWeight`).
* An empty catalog is accepted and gives an empty result.

The comment at `project.py:57` writes the idf without the `+ 1` that the
code on line 58 uses; the model follows line 58.

## Model

| member | source | states |
|---|---|---|
| `Text.Split` | project.py:37 | whitespace splitting yields only non-empty tokens free of whitespace |
| `Text.TokensOfJoin` | project.py:37 | splitting words joined by single spaces gives back exactly those words |
| `Text.TokensEmpty` | project.py:37 | a document has no tokens exactly when it is all whitespace |
| `TfIdf.Corpus` | project.py:37 | one token list per document, each the document's split |
| `TfIdf.DocumentFrequencies` | project.py:40-43 | the counting loop leaves, for every term, the number of documents containing it |
| `TfIdf.DocFreqIsHolderCount` | project.py:40-43 | document frequency is the size of the set of documents containing the term |
| `TfIdf.DocFreqBounds` | project.py:40-46 | document frequency is at most the number of documents; it is 0 exactly when no document has the term, and equals N exactly when every document has it |
| `TfIdf.WeighDocument` | project.py:50-61 | the per-document loop builds that document's vector from the document frequencies |
| `TfIdf.ComputeTfIdf` | project.py:34-63 | the whole function returns the specified vectors |
| `TfIdf.TfIdfVectors` | project.py:49-63 | one vector per document |
| `TfIdf.VectorKeys` | project.py:52-59 | a vector's keys are exactly the document's distinct tokens, each once, one entry per distinct token |
| `TfIdf.VectorWeight` | project.py:56-59 | the weight of a token of the document is its raw count times `ln(N / (1 + df))`, unclamped |
| `TfIdf.TfIdfShape` | project.py:37-63 | each document's vector is keyed by exactly its distinct tokens; an empty document gives an empty vector |
| `TfIdf.UbiquitousTermWeight` | project.py:46-59 | a term in every document has df = N and keeps its entry; when `ln` is negative below 1 its weight is negative, since nothing clamps it |
| `TfIdf.CommonTerms` | project.py:68 | contains exactly the terms keyed in both vectors, each once |
| `TfIdf.CosineSimilarity` | project.py:65-85 | 0 for disjoint key sets and 0 when either magnitude is 0 |
| `TfIdf.CosineValue` | project.py:75-85 | otherwise the result is the dot product over the common terms divided by the product of the full-vector magnitudes |
| `TfIdf.DotOverCommonTerms` | project.py:75 | the dot product over the common terms equals the product summed over the first vector's keys, with absent weights read as 0 |
| `TfIdf.DotPermutation` | project.py:68-75 | the dot product does not depend on the order in which the common terms are visited |
| `TfIdf.DotSwap` | project.py:75 | swapping the vectors leaves the dot product unchanged |
| `TfIdf.CosineSymmetric` | project.py:65-85 | cosine similarity is symmetric |
| `Catalog.MovieTable.constructor` | project.py:89-92 | a movie table holds the given rows and no `genres_text` column yet |
| `Text.Replace` | project.py:92 | every occurrence of the old character becomes the new one, and every other character stays |
| `Text.ReplaceJoin` | project.py:92 | replacing the separator of joined words that do not contain it re-joins them with the new separator |
| `Content.GenresColumn` | project.py:92 | the new column holds each movie's genres with each pipe character replaced by a space |
| `Content.GenreTerms` | project.py:92-95 | for non-empty tags free of whitespace and of the pipe character, the terms of a movie's `genres_text` are exactly its genre tags, in order |
| `Content.Titles` | project.py:99 | the title column, position by position |
| `Text.Lower` | project.py:100 | lower-casing keeps the length, turns each ASCII capital into its small letter and changes nothing else |
| `Text.Contains` | project.py:107 | Python's `in` on strings: true exactly when the needle occurs at some position |
| `Content.FirstMatch` | project.py:98-110 | the first matching position from a start, with no match before it, or none when nothing matches |
| `Content.PartialNoLaterThanExact` | project.py:98-110 | an exact match is also a substring match, so the substring search alone would stop at or before the first exact match |
| `Content.Resolve` | project.py:98-115 | the first exact match wins; only if there is none, the first substring match; if neither exists, no index |
| `Content.ResolveTitle` | project.py:98-110 | the two `break` loops compute that resolution |
| `Content.Scores` | project.py:118-122 | one score per other movie, in catalog order, excluding the resolved index, each the cosine similarity with the resolved movie |
| `Content.ScoresIndices` | project.py:118-122 | every scored pair names a valid index other than the resolved one, carrying its similarity |
| `Content.TopScores` | project.py:122-126 | the kept indices are valid and never the resolved one |
| `Content.ContentBasedRecommendations` | project.py:89-130 | writes the `genres_text` column in place, leaves the rows unchanged, and returns the specified ranking |
| `Content.ContentNotFound` | project.py:112-115 | when no title matches, exactly or as a substring, the result is empty |
| `Content.RankedRows` | project.py:118-130 | for `n >= 0` the result has `min(n, N - 1)` rows; each carries the catalog title and genres of a valid index other than the resolved one, with its similarity |
| `Content.RankedOrder` | project.py:123-128 | similarities are non-increasing, and equal similarities appear in catalog order |
| `Content.RankedTop` | project.py:123-127 | an unresolved movie left out of the result scores no higher than any movie kept |
| `Content.ContentRankingRows` | project.py:89-130 | the row shape above, for the resolved title and the genre vectors |
| `Content.ContentRankingOrder` | project.py:121-128 | the ordering above, for the resolved title |
| `Content.ContentTopIsHighest` | project.py:121-127 | the top-n property above, for the resolved title |
| `Ranking.Insert` | project.py:123 | one insertion step keeps every element and adds one |
| `Ranking.InsertNonIncreasing` | project.py:123 | inserting into a non-increasing list keeps it non-increasing |
| `Ranking.SortDesc` | project.py:123 | the sort is a permutation of its input, in non-increasing score order |
| `Ranking.InsertTied` | project.py:123 | an insertion step adds the element to its own score class and changes no other class |
| `Ranking.SortDescStable` | project.py:123 | stability: elements with the same score keep their input order |
| `Ranking.InsertKeepsTiesByKey` | project.py:123 | inserting a key smaller than all present keeps equal scores in key order |
| `Ranking.SortDescKeepsTiesByKey` | project.py:121-123 | sorting pairs listed in increasing key order leaves equal scores in key order |
| `Ranking.TopChosen` | project.py:123-126 | the first n of the sorted list come from the input, in non-increasing order, and are the highest |
| `Seqs.Take` | project.py:126 | Python's `s[:n]` is a prefix, of length `min(n, len)` for `n >= 0` and shortened by `-n` for negative `n` |
| `Seqs.Distinct` | project.py:140 | `unique()` keeps each element once and no other |
| `Seqs.NoDuplicatesSize` | project.py:156-158 | a duplicate-free list has as many elements as its set |
| `Seqs.DistinctNoDuplicates` | project.py:199-200 | deduplicating a sequence that already has no duplicates changes nothing |
| `Seqs.DistinctAppend` | project.py:185-200 | deduplicating `a`, appending `b` and deduplicating again is deduplicating `a + b`, as a dict filled in two rounds |
| `Seqs.DistinctKeepsFirstOrder` | project.py:199-200 | deduplication orders two elements as their first occurrences are ordered |
| `Seqs.PositionIn` | project.py:199-200 | the position of the first occurrence of a key, equal to the length exactly when the key is absent |
| `Collaborative.Users` | project.py:140 | the distinct users, each once, exactly those with a rating |
| `Collaborative.RatingsBy` | project.py:145 | exactly the target's rating rows |
| `Collaborative.RatingsByCounts` | project.py:145 | the filter keeps every row of the user as often as the log has it, and no other row |
| `Collaborative.MoviesIn` | project.py:156 | the movies of a rating list that lie in a given set |
| `Collaborative.CommonMovies` | project.py:156 | exactly the movies both users rated, each once |
| `Collaborative.FirstRating` | project.py:169-170 | `values[0]`: the rating of the first row for that movie |
| `Collaborative.FirstOfFilter` | project.py:145-170 | the first row for a movie among a user's filtered rows is that user's first row for the movie in the whole log |
| `Collaborative.UserRatingIsFirst` | project.py:162-170 | the rating used for a user and a movie is the one on the earliest log row with that user and that movie |
| `Collaborative.Paired` | project.py:162-173 | two arrays as long as the common set, position `i` holding each user's rating of the `i`-th common movie |
| `Collaborative.PairedLength` | project.py:156-173 | both arrays have the size of the intersection of the two rated sets |
| `Collaborative.PairRatings` | project.py:165-173 | the array-filling loop computes those arrays |
| `Collaborative.NeighboursOver` | project.py:150-178 | no more neighbours than scanned users |
| `Collaborative.NeighboursOverMembers` | project.py:150-178 | a scanned user is kept, with similarity `s`, exactly when `Similarity` is `Some(s)` |
| `Collaborative.NeighboursOverDistinct` | project.py:150-178 | scanning distinct users keeps each at most once |
| `Collaborative.NeighbourCharacterised` | project.py:150-178 | `(v, s)` is a neighbour exactly when `v` has ratings, differs from the target, shares at least 5 movies, and `corrcoef` of the paired arrays is `Some(s)`; no user appears twice |
| `Collaborative.ScanUser` | project.py:151-177 | one pass of the scanning loop yields exactly the user's `Similarity`: none for the target or for fewer than 5 common movies, otherwise the correlation of the paired arrays |
| `Collaborative.FindSimilarUsers` | project.py:149-178 | the scanning loop computes that neighbour list |
| `Collaborative.TopNeighboursChosen` | project.py:181-186 | at most 10 neighbours vote; they are neighbours, in non-increasing similarity, and none left out is more similar than one kept |
| `Collaborative.HighRated` | project.py:187-193 | exactly the neighbour's ratings of at least 4.0 for movies the target has not rated |
| `Collaborative.HighRatedAppend` | project.py:187-195 | the filter keeps log order: the kept rows of a log `a + b` are those of `a` followed by those of `b` |
| `Collaborative.HighRatedCounts` | project.py:187-195 | each such rating row is kept as often as the log has it, so a repeated row votes again; no other row is kept |
| `Collaborative.Credit` | project.py:199-204 | one vote adds `sim` to the movie's score and `rating * sim` to its weighted sum, creating the entry at 0 when new and appending it after the existing keys; other movies are unchanged |
| `Collaborative.CreditRowsTally` | project.py:195-204 | after one neighbour's votes each movie's entry grew by that neighbour's sums, and the candidates are the old ones plus the voted movies |
| `Collaborative.CreditRowsOrder` | project.py:195-200 | after one neighbour's votes the keys are the old keys, then each newly voted movie in the order of its first row |
| `Collaborative.CreditNeighbour` | project.py:195-204 | the inner loop performs those credits on the dictionary |
| `Collaborative.TallyOverSums` | project.py:185-205 | the candidates are exactly the movies some voting neighbour rated highly, each entry holding the sums over all votes |
| `Collaborative.TallyOrder` | project.py:185-204 | the keys of `candidate_movies` are the voted movie ids, deduplicated in the order of their first vote |
| `Collaborative.CollectCandidates` | project.py:185-205 | the nested loops compute that tally |
| `Collaborative.PredictionsOver` | project.py:207-211 | a candidate is predicted exactly when its score is positive, at `weighted_sum / score` |
| `Collaborative.PredictionsInOrder` | project.py:206-211 | predictions follow the key order of `candidate_movies` |
| `Collaborative.Predict` | project.py:207-211 | the prediction loop computes those predictions |
| `Collaborative.TallyPredictions` | project.py:185-211 | a movie is predicted at `x` exactly when it was voted for, its score is positive and `x` is the weighted mean; such a movie is unrated by the target and some voting neighbour rated it at least 4.0 |
| `Collaborative.PredictionCharacterised` | project.py:139-211 | the same, for the target's rated set and its 10 best neighbours |
| `Collaborative.TopPredictionsChosen` | project.py:214-215 | at most `n` predictions are kept, in non-increasing order, and none left out is above one kept |
| `Collaborative.PredictionTies` | project.py:199-215 | two kept movies with the same predicted rating appear in the key order of `candidate_movies` |
| `Collaborative.PredictionTiesByFirstVote` | project.py:185-215 | two kept movies with the same predicted rating appear in the order of their first vote: neighbours in the order of `similar_users[:10]`, each neighbour's high ratings in log order |
| `Collaborative.FindMovie` | project.py:220-223 | the first catalog row with the movie id, and none exactly when the catalog lacks it |
| `Collaborative.RowsFor` | project.py:218-224 | no more rows than top predictions |
| `Collaborative.Found` | project.py:219-221 | positions of top predictions that are in the catalog |
| `Collaborative.FoundPositions` | project.py:219-221 | those positions increase, and are exactly the ones whose movie the catalog has |
| `Collaborative.RowsForFound` | project.py:218-224 | each result row carries, in order, the catalog title and genres and the predicted rating of a top prediction found in the catalog; missing movies are dropped |
| `Collaborative.LookUpMovies` | project.py:218-224 | the lookup loop computes those rows |
| `Collaborative.CollabUnknownUser` | project.py:139-142 | a user with no ratings gets an empty result |
| `Collaborative.CollabRankingOrder` | project.py:213-231 | at most `n` rows for `n >= 0`, in non-increasing predicted rating |
| `Collaborative.CollaborativeRecommendations` | project.py:134-231 | the whole function body computes the specified result |

## Left out

- `download_movielens_data` and `main`: network access, zip extraction, file
  writes, CSV loading, the interactive prompt loop, display rounding with
  `.round` and the catch-all exception handler.
- The `print` messages of the recommenders: only the returned data is
  modelled.
- Floating point: scores are exact `real`s. `math.log`, `math.sqrt` and
  `np.corrcoef` are arbitrary functions passed in, with a NaN correlation as
  `None`.
- Numeric facts that depend on what those functions compute, such as a
  self-similarity of 1 or a correlation between -1 and 1.
- Text.Lower: lower-cases ASCII letters only. Python's `str.lower()` also
  lower-cases other Unicode letters.
- The iteration order of Python sets and of `unique()`: each is fixed as
  stated above. No property depends on it beyond the stability of the sorts.
- `TfIdf.DocumentFrequencies` may visit a document's distinct terms in any
  order. The model does not single out the order Python's `set` would use.
- `user_id = int(user_id)`: the model takes the user id as an integer.
- `top_similar_users`: it is computed but never used, so it is not
  modelled.
- pandas internals. Filtering, `isin`, `iterrows` and `iloc` are modelled
  over sequences of records. The content result's `index` is a position in
  the catalog, which is what `iloc` returns on a default index.
- Content.ContentBasedRecommendations: the result lists the title, genres
  and similarity, plus the catalog position. It does not model the DataFrame
  index labels pandas carries along.
- The three empty results built by `pd.DataFrame()` (project.py:115, 142
  and 231) have no columns. The model gives the empty sequence for each.
- Content.ContentBasedRecommendations: when `similarities[:n]` is empty, the
  code returns an empty frame that still has the `title`, `genres` and
  `similarity` columns (project.py:127-130). This happens for `n = 0`, for a
  catalog of one movie, or for a negative `n` that removes every entry. The
  model returns the empty sequence here as well, so it does not tell this
  frame apart from the column-less one.
- The default `n=5` of both recommenders (project.py:89 and 134): in the
  model `n` is a required parameter.
