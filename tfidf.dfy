/** The hand-written TF-IDF vectoriser and the cosine similarity of two of
    its sparse vectors (project.py, `compute_tfidf` and `cosine_similarity`).
    The natural logarithm and the square root are parameters: the model
    assumes nothing about them. */
module TfIdf {
  import opened Seqs
  import opened Text

  /** A sparse vector: the entries (term, weight) of a Python dict, in the
      order the dict received its keys. */
  type Vector = seq<(string, real)>

  function Keys(v: Vector): set<string> {
    set i | 0 <= i < |v| :: v[i].0
  }

  /** A vector read from a dict: no key appears twice. */
  predicate UniqueKeys(v: Vector) {
    NoDuplicates(Firsts(v))
  }

  lemma KeysCons(v: Vector)
    requires v != []
    ensures Keys(v) == {v[0].0} + Keys(v[1..])
    ensures UniqueKeys(v) ==> UniqueKeys(v[1..]) && v[0].0 !in Keys(v[1..])
  {
    forall t | t in Keys(v) ensures t in {v[0].0} + Keys(v[1..]) {
      var i :| 0 <= i < |v| && v[i].0 == t;
      if i > 0 {
        assert v[1..][i - 1].0 == t;
      }
    }
    forall t | t in Keys(v[1..]) ensures t in Keys(v) {
      var i :| 0 <= i < |v[1..]| && v[1..][i].0 == t;
      assert v[i + 1].0 == t;
    }
    if UniqueKeys(v) {
      forall i, j | 0 <= i < j < |v[1..]| ensures v[1..][i].0 != v[1..][j].0 {
        assert v[1..][i] == v[i + 1] && v[1..][j] == v[j + 1];
      }
      forall i | 0 <= i < |v[1..]| ensures v[1..][i].0 != v[0].0 {
        assert v[1..][i] == v[i + 1];
      }
    }
  }

  /** The dict lookup `vec[term]`. */
  function Lookup(v: Vector, t: string): real
    requires t in Keys(v)
  {
    KeysCons(v);
    if v[0].0 == t then v[0].1 else Lookup(v[1..], t)
  }

  /** In a vector with distinct keys, looking up an entry's term gives its weight. */
  lemma {:induction false} LookupAt(v: Vector, i: int)
    requires UniqueKeys(v) && 0 <= i < |v|
    ensures v[i].0 in Keys(v) && Lookup(v, v[i].0) == v[i].1
  {
    KeysCons(v);
    if i > 0 {
      assert v[1..][i - 1] == v[i];
      LookupAt(v[1..], i - 1);
    }
  }

  // ---------------------------------------------------------------------
  // Document statistics

  /** Raw occurrence count of `t` among a document's tokens (`Counter(tokens)[t]`). */
  function Count(tokens: seq<string>, t: string): nat {
    multiset(tokens)[t]
  }

  /** Number of documents whose token set contains `t` (the final value of
      `term_doc_freq[t]`). */
  function DocFreq(corpus: seq<seq<string>>, t: string): nat {
    if corpus == [] then 0
    else DocFreq(corpus[..|corpus| - 1], t) + (if t in corpus[|corpus| - 1] then 1 else 0)
  }

  /** `math.log(n_docs / (1 + df))`. */
  function Idf(nDocs: nat, df: nat, ln: real -> real): real {
    ln((nDocs as real) / ((1 + df) as real))
  }

  /** The tokenised documents, `[doc.split() for doc in documents]`. */
  function Corpus(documents: seq<string>): (c: seq<seq<string>>)
    ensures |c| == |documents|
    ensures forall d :: 0 <= d < |documents| ==> c[d] == Tokens(documents[d])
  {
    seq(|documents|, d requires 0 <= d < |documents| => Tokens(documents[d]))
  }

  /** The weight of term `t` in a document: raw count times idf. */
  function Weight(tokens: seq<string>, corpus: seq<seq<string>>, t: string, ln: real -> real): real {
    (Count(tokens, t) as real) * Idf(|corpus|, DocFreq(corpus, t), ln)
  }

  /** The vector of one document: its distinct terms in first-occurrence
      order, each with its weight. */
  function VectorOf(tokens: seq<string>, corpus: seq<seq<string>>, ln: real -> real): Vector {
    var terms := Distinct(tokens);
    seq(|terms|, k requires 0 <= k < |terms| => (terms[k], Weight(tokens, corpus, terms[k], ln)))
  }

  /** What `compute_tfidf(documents)` returns. */
  function TfIdfVectors(documents: seq<string>, ln: real -> real): (vs: seq<Vector>)
    ensures |vs| == |documents|
  {
    var corpus := Corpus(documents);
    seq(|documents|, d requires 0 <= d < |documents| => VectorOf(corpus[d], corpus, ln))
  }

  /** `defaultdict(int)` read: a missing key reads as 0. */
  function Get(m: map<string, nat>, t: string): nat {
    if t in m then m[t] else 0
  }

  /** The document-frequency loop of `compute_tfidf`: every document adds
      one to each term of its token set. */
  method DocumentFrequencies(corpus: seq<seq<string>>) returns (df: map<string, nat>)
    ensures forall t :: Get(df, t) == DocFreq(corpus, t)
  {
    df := map[];
    var i := 0;
    while i < |corpus|
      invariant 0 <= i <= |corpus|
      invariant forall t :: Get(df, t) == DocFreq(corpus[..i], t)
    {
      var doc := corpus[i];
      var pending := Elements(doc);
      while pending != {}
        invariant pending <= Elements(doc)
        invariant forall t :: Get(df, t) == DocFreq(corpus[..i], t) + (if t in doc && t !in pending then 1 else 0)
        decreases pending
      {
        var t :| t in pending;
        df := df[t := Get(df, t) + 1];
        pending := pending - {t};
      }
      assert corpus[..i + 1][..i] == corpus[..i];
      i := i + 1;
    }
    assert corpus[..|corpus|] == corpus;
  }

  /** The per-document loop of `compute_tfidf` over `term_freq.items()`:
      one entry per distinct term, raw count times idf. */
  method WeighDocument(tokens: seq<string>, corpus: seq<seq<string>>, df: map<string, nat>, ln: real -> real)
    returns (vector: Vector)
    requires forall t :: Get(df, t) == DocFreq(corpus, t)
    ensures vector == VectorOf(tokens, corpus, ln)
  {
    var terms := Distinct(tokens);
    vector := [];
    var k := 0;
    while k < |terms|
      invariant 0 <= k <= |terms|
      invariant |vector| == k
      invariant forall e :: 0 <= e < k ==> vector[e] == (terms[e], Weight(tokens, corpus, terms[e], ln))
    {
      var term := terms[k];
      var idf := Idf(|corpus|, Get(df, term), ln);
      var w := (Count(tokens, term) as real) * idf;
      assert w == Weight(tokens, corpus, term, ln);
      vector := vector + [(term, w)];
      k := k + 1;
    }
  }

  /** `compute_tfidf`: tokenises, counts document frequencies with set
      semantics, then builds one vector per document. */
  method ComputeTfIdf(documents: seq<string>, ln: real -> real) returns (vectors: seq<Vector>)
    ensures vectors == TfIdfVectors(documents, ln)
  {
    var corpus := Corpus(documents);
    var df := DocumentFrequencies(corpus);
    vectors := [];
    var d := 0;
    while d < |corpus|
      invariant 0 <= d <= |corpus|
      invariant |vectors| == d
      invariant forall e :: 0 <= e < d ==> vectors[e] == VectorOf(corpus[e], corpus, ln)
    {
      var vector := WeighDocument(corpus[d], corpus, df, ln);
      vectors := vectors + [vector];
      d := d + 1;
    }
  }

  // ---------------------------------------------------------------------
  // Properties of the vectoriser

  /** A document's vector has one entry per distinct token of the document,
      with no key twice. */
  lemma VectorKeys(tokens: seq<string>, corpus: seq<seq<string>>, ln: real -> real)
    ensures Keys(VectorOf(tokens, corpus, ln)) == Elements(tokens)
    ensures UniqueKeys(VectorOf(tokens, corpus, ln))
    ensures |VectorOf(tokens, corpus, ln)| == |Elements(tokens)|
  {
    var v := VectorOf(tokens, corpus, ln);
    var terms := Distinct(tokens);
    forall t | t in Elements(tokens) ensures t in Keys(v) {
      var k :| 0 <= k < |terms| && terms[k] == t;
      assert v[k].0 == t;
    }
    NoDuplicatesSize(terms);
    assert Elements(terms) == Elements(tokens);
  }

  /** Each weight is the raw count of the term times `log(N / (1 + df))`. */
  lemma VectorWeight(tokens: seq<string>, corpus: seq<seq<string>>, ln: real -> real, t: string)
    requires t in tokens
    ensures t in Keys(VectorOf(tokens, corpus, ln))
    ensures Lookup(VectorOf(tokens, corpus, ln), t) == Weight(tokens, corpus, t, ln)
  {
    var v := VectorOf(tokens, corpus, ln);
    var terms := Distinct(tokens);
    assert t in terms;
    var k :| 0 <= k < |terms| && terms[k] == t;
    VectorKeys(tokens, corpus, ln);
    assert v[k] == (t, Weight(tokens, corpus, t, ln));
    LookupAt(v, k);
  }

  /** `compute_tfidf` returns one vector per document; the vector of a
      document has exactly its distinct tokens as keys, with the weights of
      `VectorWeight`. A document with no tokens gets the empty vector. */
  lemma TfIdfShape(documents: seq<string>, ln: real -> real, d: int)
    requires 0 <= d < |documents|
    ensures |TfIdfVectors(documents, ln)| == |documents|
    ensures Keys(TfIdfVectors(documents, ln)[d]) == Elements(Tokens(documents[d]))
    ensures UniqueKeys(TfIdfVectors(documents, ln)[d])
    ensures Tokens(documents[d]) == [] ==> TfIdfVectors(documents, ln)[d] == []
  {
    var corpus := Corpus(documents);
    VectorKeys(corpus[d], corpus, ln);
  }

  function Holders(corpus: seq<seq<string>>, t: string): set<int> {
    set d | 0 <= d < |corpus| && t in corpus[d]
  }

  /** The document frequency is the number of documents that contain the term. */
  lemma {:induction false} DocFreqIsHolderCount(corpus: seq<seq<string>>, t: string)
    ensures DocFreq(corpus, t) == |Holders(corpus, t)|
  {
    if corpus != [] {
      var n := |corpus| - 1;
      var p := corpus[..n];
      DocFreqIsHolderCount(p, t);
      assert Holders(corpus, t) == Holders(p, t) + (if t in corpus[n] then {n} else {});
      assert n !in Holders(p, t);
    }
  }

  /** Document-frequency bounds: zero exactly when no document has the term,
      otherwise between 1 and the number of documents, and equal to it
      exactly when every document has the term. */
  lemma {:induction false} DocFreqBounds(corpus: seq<seq<string>>, t: string)
    ensures DocFreq(corpus, t) <= |corpus|
    ensures DocFreq(corpus, t) == 0 <==> forall d :: 0 <= d < |corpus| ==> t !in corpus[d]
    ensures DocFreq(corpus, t) == |corpus| <==> forall d :: 0 <= d < |corpus| ==> t in corpus[d]
  {
    if corpus != [] {
      var n := |corpus| - 1;
      var p := corpus[..n];
      DocFreqBounds(p, t);
      assert forall d :: 0 <= d < n ==> p[d] == corpus[d];
    }
  }

  /** A term in every document has document frequency `N`, so its weight is
      `count * log(N / (N + 1))`: the idf is not clamped, and a logarithm that
      is negative below 1 makes the weight negative. */
  lemma UbiquitousTermWeight(documents: seq<string>, ln: real -> real, d: int, t: string)
    requires 0 <= d < |documents|
    requires forall e :: 0 <= e < |documents| ==> t in Tokens(documents[e])
    ensures DocFreq(Corpus(documents), t) == |documents|
    ensures t in Keys(TfIdfVectors(documents, ln)[d])
    ensures Lookup(TfIdfVectors(documents, ln)[d], t) == Weight(Tokens(documents[d]), Corpus(documents), t, ln)
    ensures (forall x :: 0.0 < x < 1.0 ==> ln(x) < 0.0) ==> Lookup(TfIdfVectors(documents, ln)[d], t) < 0.0
  {
    var corpus := Corpus(documents);
    var tokens := corpus[d];
    assert tokens in corpus;
    assert TfIdfVectors(documents, ln)[d] == VectorOf(tokens, corpus, ln);
    assert forall e :: 0 <= e < |corpus| ==> t in corpus[e];
    FullFrequencyWeight(tokens, corpus, ln, t);
  }

  lemma FullFrequencyWeight(tokens: seq<string>, corpus: seq<seq<string>>, ln: real -> real, t: string)
    requires tokens in corpus && t in tokens
    requires forall e :: 0 <= e < |corpus| ==> t in corpus[e]
    ensures DocFreq(corpus, t) == |corpus|
    ensures t in Keys(VectorOf(tokens, corpus, ln))
    ensures Lookup(VectorOf(tokens, corpus, ln), t) == Weight(tokens, corpus, t, ln)
    ensures (forall x :: 0.0 < x < 1.0 ==> ln(x) < 0.0) ==> Weight(tokens, corpus, t, ln) < 0.0
  {
    VectorWeight(tokens, corpus, ln, t);
    assert DocFreq(corpus, t) == |corpus| by {
      DocFreqBounds(corpus, t);
    }
    assert Count(tokens, t) >= 1 by {
      assert t in multiset(tokens);
    }
    if forall y :: 0.0 < y < 1.0 ==> ln(y) < 0.0 {
      var idf := Idf(|corpus|, DocFreq(corpus, t), ln);
      assert idf < 0.0 by {
        var x := (|corpus| as real) / ((1 + |corpus|) as real);
        FractionBelowOne(|corpus|);
        assert idf == ln(x);
      }
      NegativeWeight(tokens, corpus, t, ln);
    }
  }

  lemma FractionBelowOne(n: nat)
    requires n >= 1
    ensures 0.0 < (n as real) / ((1 + n) as real) < 1.0
  {
  }

  lemma NegativeWeight(tokens: seq<string>, corpus: seq<seq<string>>, t: string, ln: real -> real)
    requires Count(tokens, t) >= 1 && Idf(|corpus|, DocFreq(corpus, t), ln) < 0.0
    ensures Weight(tokens, corpus, t, ln) < 0.0
  {
    ProductSign(Count(tokens, t) as real, Idf(|corpus|, DocFreq(corpus, t), ln));
  }

  lemma ProductSign(c: real, l: real)
    requires c >= 1.0 && l < 0.0
    ensures c * l < 0.0
  {
  }

  // ---------------------------------------------------------------------
  // Cosine similarity

  /** `set(vec1.keys()) & set(vec2.keys())`, iterated in `vec1`'s key order. */
  function CommonTerms(v1: Vector, v2: Vector): (r: seq<string>)
    ensures forall t :: t in r <==> t in Keys(v1) && t in Keys(v2)
    ensures UniqueKeys(v1) ==> NoDuplicates(r)
  {
    if v1 == [] then []
    else
      KeysCons(v1);
      var rest := CommonTerms(v1[1..], v2);
      var r := (if v1[0].0 in Keys(v2) then [v1[0].0] else []) + rest;
      assert forall i :: 0 < i < |r| ==> r[i] in rest;
      r
  }

  /** `sum(vec1[term] * vec2[term] for term in terms)`. */
  function Dot(v1: Vector, v2: Vector, terms: seq<string>): real
    requires forall t :: t in terms ==> t in Keys(v1) && t in Keys(v2)
  {
    if terms == [] then 0.0
    else Term(v1, v2, terms[0]) + Dot(v1, v2, terms[1..])
  }

  /** `vec1[term] * vec2[term]`. */
  function Term(v1: Vector, v2: Vector, t: string): real
    requires t in Keys(v1) && t in Keys(v2)
  {
    Lookup(v1, t) * Lookup(v2, t)
  }

  /** `sum(val**2 for val in vec.values())`. */
  function SumSquares(v: Vector): real {
    if v == [] then 0.0 else v[0].1 * v[0].1 + SumSquares(v[1..])
  }

  /** `cosine_similarity(vec1, vec2)`. */
  function CosineSimilarity(v1: Vector, v2: Vector, sqrt: real -> real): (r: real)
    ensures Keys(v1) * Keys(v2) == {} ==> r == 0.0
    ensures sqrt(SumSquares(v1)) == 0.0 || sqrt(SumSquares(v2)) == 0.0 ==> r == 0.0
  {
    var common := CommonTerms(v1, v2);
    if common == [] then 0.0
    else
      assert common[0] in Keys(v1) * Keys(v2);
      var dot := Dot(v1, v2, common);
      var mag1 := sqrt(SumSquares(v1));
      var mag2 := sqrt(SumSquares(v2));
      if mag1 == 0.0 || mag2 == 0.0 then 0.0 else Quotient(dot, mag1, mag2)
  }

  /** `dot / (mag1 * mag2)`. */
  function Quotient(dot: real, mag1: real, mag2: real): real
    requires mag1 != 0.0 && mag2 != 0.0
  {
    dot / (mag1 * mag2)
  }

  /** The weight of `t` in `v`, or 0 when `v` has no entry for it. */
  function WeightOrZero(v: Vector, t: string): real {
    if t in Keys(v) then Lookup(v, t) else 0.0
  }

  /** The dot product of `v1` with `v2` taken over all of `v1`'s entries,
      a term missing from `v2` counting as 0. */
  function DenseDot(v1: Vector, v2: Vector): real {
    if v1 == [] then 0.0 else v1[0].1 * WeightOrZero(v2, v1[0].0) + DenseDot(v1[1..], v2)
  }

  lemma {:induction false} DotDropHead(v1: Vector, v2: Vector, terms: seq<string>)
    requires v1 != []
    requires forall t :: t in terms ==> t in Keys(v1[1..]) && t in Keys(v2) && t != v1[0].0
    ensures forall t :: t in terms ==> t in Keys(v1)
    ensures Dot(v1, v2, terms) == Dot(v1[1..], v2, terms)
  {
    KeysCons(v1);
    if terms != [] {
      assert forall t :: t in terms[1..] ==> t in terms;
      DotDropHead(v1, v2, terms[1..]);
    }
  }

  /** Summing over the common terms only is the full dot product in which a
      term unique to one side contributes 0. */
  lemma {:induction false} DotOverCommonTerms(v1: Vector, v2: Vector)
    requires UniqueKeys(v1)
    ensures Dot(v1, v2, CommonTerms(v1, v2)) == DenseDot(v1, v2)
  {
    if v1 != [] {
      KeysCons(v1);
      var rest := CommonTerms(v1[1..], v2);
      DotOverCommonTerms(v1[1..], v2);
      DotDropHead(v1, v2, rest);
      var k := v1[0].0;
      if k in Keys(v2) {
        LookupAt(v1, 0);
        var terms := [k] + rest;
        assert terms[0] == k && terms[1..] == rest;
        assert CommonTerms(v1, v2) == terms;
      } else {
        assert CommonTerms(v1, v2) == rest;
      }
    }
  }

  lemma {:induction false} DotAppend(v1: Vector, v2: Vector, a: seq<string>, b: seq<string>)
    requires forall t :: t in a + b ==> t in Keys(v1) && t in Keys(v2)
    ensures forall t :: t in a ==> t in Keys(v1) && t in Keys(v2)
    ensures forall t :: t in b ==> t in Keys(v1) && t in Keys(v2)
    ensures Dot(v1, v2, a + b) == Dot(v1, v2, a) + Dot(v1, v2, b)
  {
    assert forall t :: t in a ==> t in a + b;
    assert forall t :: t in b ==> t in a + b;
    if a != [] {
      assert (a + b)[0] == a[0] && (a + b)[1..] == a[1..] + b;
      DotAppend(v1, v2, a[1..], b);
    } else {
      assert a + b == b;
    }
  }

  /** The dot product does not depend on the order in which the common
      terms are visited. */
  lemma {:induction false} DotPermutation(v1: Vector, v2: Vector, a: seq<string>, b: seq<string>)
    requires NoDuplicates(a) && NoDuplicates(b)
    requires forall t :: t in a <==> t in b
    requires forall t :: t in a ==> t in Keys(v1) && t in Keys(v2)
    ensures Dot(v1, v2, a) == Dot(v1, v2, b)
    decreases |a|
  {
    if a == [] {
      assert forall i :: 0 <= i < |b| ==> b[i] in b;
    } else {
      var x := a[0];
      assert x in b;
      var k :| 0 <= k < |b| && b[k] == x;
      var b' := b[..k] + b[k + 1..];
      DotWithout(v1, v2, b, k);
      RemoveAt(b, k);
      RemoveAt(a, 0);
      assert a[..0] + a[1..] == a[1..];
      forall t ensures t in a[1..] <==> t in b' {
        assert t in a[1..] <==> t in a && t != x;
      }
      DotPermutation(v1, v2, a[1..], b');
    }
  }

  /** Taking one term out of the sum. */
  lemma DotWithout(v1: Vector, v2: Vector, b: seq<string>, k: int)
    requires 0 <= k < |b|
    requires forall t :: t in b ==> t in Keys(v1) && t in Keys(v2)
    ensures forall t :: t in b[..k] + b[k + 1..] ==> t in Keys(v1) && t in Keys(v2)
    ensures Dot(v1, v2, b) == Term(v1, v2, b[k]) + Dot(v1, v2, b[..k] + b[k + 1..])
  {
    var x := b[k];
    assert b == b[..k] + ([x] + b[k + 1..]);
    DotAppend(v1, v2, b[..k], [x] + b[k + 1..]);
    assert ([x] + b[k + 1..])[1..] == b[k + 1..];
    DotAppend(v1, v2, b[..k], b[k + 1..]);
  }

  lemma {:induction false} DotSwap(v1: Vector, v2: Vector, terms: seq<string>)
    requires forall t :: t in terms ==> t in Keys(v1) && t in Keys(v2)
    ensures Dot(v1, v2, terms) == Dot(v2, v1, terms)
  {
    if terms != [] {
      assert forall t :: t in terms[1..] ==> t in terms;
      DotSwap(v1, v2, terms[1..]);
    }
  }

  /** Cosine similarity is symmetric. */
  lemma CosineSymmetric(v1: Vector, v2: Vector, sqrt: real -> real)
    requires UniqueKeys(v1) && UniqueKeys(v2)
    ensures CosineSimilarity(v1, v2, sqrt) == CosineSimilarity(v2, v1, sqrt)
  {
    var a := CommonTerms(v1, v2);
    var b := CommonTerms(v2, v1);
    if a != [] {
      assert a[0] in b;
      DotSwap(v1, v2, a);
      DotPermutation(v2, v1, a, b);
      var m1 := sqrt(SumSquares(v1));
      var m2 := sqrt(SumSquares(v2));
      assert m1 * m2 == m2 * m1;
    }
  }

  /** When the key sets meet and both magnitudes are non-zero, the cosine is
      the full dot product over the product of the two magnitudes, each
      magnitude taken over all of its vector's weights. */
  lemma CosineValue(v1: Vector, v2: Vector, sqrt: real -> real)
    requires UniqueKeys(v1)
    requires Keys(v1) * Keys(v2) != {}
    requires sqrt(SumSquares(v1)) != 0.0 && sqrt(SumSquares(v2)) != 0.0
    ensures CosineSimilarity(v1, v2, sqrt) == Quotient(DenseDot(v1, v2), sqrt(SumSquares(v1)), sqrt(SumSquares(v2)))
  {
    var common := CommonTerms(v1, v2);
    var t :| t in Keys(v1) * Keys(v2);
    assert t in common;
    var dot := Dot(v1, v2, common);
    var mag1 := sqrt(SumSquares(v1));
    var mag2 := sqrt(SumSquares(v2));
    assert CosineSimilarity(v1, v2, sqrt) == Quotient(dot, mag1, mag2);
    DotOverCommonTerms(v1, v2);
  }
}
