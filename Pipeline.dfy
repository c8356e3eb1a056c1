/**
 * The two stages together: the TF-IDF matrix the extractor produces,
 * handed to the similarity checker.
 */
module Pipeline {
  import opened Numerics
  import opened FeatureExtraction
  import opened Similarity

  /** The extractor's matrix satisfies the checker's premise: no weight is negative. */
  lemma TfIdfVectorsNonNegative(docs: seq<Document>, vocab: seq<string>, log10: real -> real)
    requires IsLog10(log10)
    ensures AllNonNegative(TfIdfVectors(docs, vocab, log10))
  {
    TfIdfNonNegative(docs, vocab, log10);
  }

  /** Every score computed over a TF-IDF matrix lies in [0, 1]. */
  lemma ScoresInUnitRange(docs: seq<Document>, vocab: seq<string>, log10: real -> real, sqrt: real -> real, i: int, j: int)
    requires IsLog10(log10) && IsSqrt(sqrt)
    ensures 0.0 <= Cosine(TfIdfVectors(docs, vocab, log10), i, j, sqrt) <= 1.0
  {
    TfIdfVectorsNonNegative(docs, vocab, log10);
    CosineInUnitRange(TfIdfVectors(docs, vocab, log10), i, j, sqrt);
  }

  /** Some term of doc is missing from some document of the corpus. */
  ghost predicate HasDistinctiveTerm(docs: seq<Document>, doc: Document) {
    exists t, e :: t in doc && e in docs && t !in e
  }

  /**
   * Two different documents with the same tokens, in any order, score 1 when
   * one of their terms is missing from some document, and 0 when every one
   * of their terms occurs in every document (all their weights are then 0).
   */
  lemma IdenticalDocuments(docs: seq<Document>, vocab: seq<string>, log10: real -> real, sqrt: real -> real, i: int, j: int)
    requires IsLog10(log10) && IsSqrt(sqrt) && IsVocabularyOf(vocab, docs)
    requires 0 <= i < |docs| && 0 <= j < |docs| && i != j && multiset(docs[i]) == multiset(docs[j])
    ensures Cosine(TfIdfVectors(docs, vocab, log10), i, j, sqrt)
      == if HasDistinctiveTerm(docs, docs[i]) then 1.0 else 0.0
  {
    var vectors := TfIdfVectors(docs, vocab, log10);
    var doc, v := docs[i], vectors[i];
    assert v == TfIdfVector(docs, doc, vocab, log10);
    assert vectors[j] == v by {
      assert vectors[j] == TfIdfVector(docs, docs[j], vocab, log10);
      TfIdfVectorOfPermutation(docs, docs[i], docs[j], vocab, log10);
    }
    NormZero(v, sqrt);
    if HasDistinctiveTerm(docs, doc) {
      var t, e :| t in doc && e in docs && t !in e;
      assert InCorpus(docs, t);
      assert t in v;
      TfIdfWeightProperties(docs, doc, t, log10);
      assert v[t] != 0.0;
      CosineOfEqualVectors(vectors, i, j, sqrt);
    } else {
      forall t | t in v ensures v[t] == 0.0 {
        TfIdfWeightProperties(docs, doc, t, log10);
      }
      CosineOfZeroVector(vectors, i, j, sqrt);
    }
  }

  /**
   * The TF-IDF vectors of two documents without a common term are orthogonal.
   * They share every key (the vocabulary), but each key weighs 0 in at least
   * one of them.
   */
  lemma DisjointDocumentsOrthogonal(docs: seq<Document>, d1: Document, d2: Document, vocab: seq<string>, log10: real -> real)
    requires IsLog10(log10) && d1 in docs && d2 in docs
    requires forall t :: !(t in d1 && t in d2)
    ensures Dot(TfIdfVector(docs, d1, vocab, log10), TfIdfVector(docs, d2, vocab, log10)) == 0.0
  {
    var a, b := TfIdfVector(docs, d1, vocab, log10), TfIdfVector(docs, d2, vocab, log10);
    forall t | t in a.Keys * b.Keys ensures Product(a, b)(t) == 0.0 {
      ProductAt(a, b, t);
      TfIdfWeightProperties(docs, d1, t, log10);
      TfIdfWeightProperties(docs, d2, t, log10);
    }
    SetSumNonNegative(a.Keys * b.Keys, Product(a, b));
  }

  /** Two different documents without a common term score 0. */
  lemma DisjointDocumentsScoreZero(docs: seq<Document>, vocab: seq<string>, log10: real -> real, sqrt: real -> real, i: int, j: int)
    requires IsLog10(log10)
    requires 0 <= i < |docs| && 0 <= j < |docs| && i != j
    requires forall t :: !(t in docs[i] && t in docs[j])
    ensures Cosine(TfIdfVectors(docs, vocab, log10), i, j, sqrt) == 0.0
  {
    var vectors := TfIdfVectors(docs, vocab, log10);
    assert vectors[i] == TfIdfVector(docs, docs[i], vocab, log10);
    assert vectors[j] == TfIdfVector(docs, docs[j], vocab, log10);
    DisjointDocumentsOrthogonal(docs, docs[i], docs[j], vocab, log10);
    CosineOfOrthogonalVectors(vectors, i, j, sqrt);
  }

  /** An empty document (no token survives cleaning) scores 0 against every other document. */
  lemma EmptyDocumentScoresZero(docs: seq<Document>, vocab: seq<string>, log10: real -> real, sqrt: real -> real, i: int, j: int)
    requires IsLog10(log10) && IsSqrt(sqrt)
    requires 0 <= i < |docs| && docs[i] == [] && i != j
    ensures Cosine(TfIdfVectors(docs, vocab, log10), i, j, sqrt) == 0.0
    ensures Cosine(TfIdfVectors(docs, vocab, log10), j, i, sqrt) == 0.0
  {
    var vectors := TfIdfVectors(docs, vocab, log10);
    var v := vectors[i];
    assert v == TfIdfVector(docs, docs[i], vocab, log10);
    forall t | t in v ensures v[t] == 0.0 {
      TfIdfWeightProperties(docs, docs[i], t, log10);
    }
    CosineOfZeroVector(vectors, i, j, sqrt);
  }

  /** Two copies of the one-word document "a", alone in the corpus, score 0 and not 1. */
  lemma TwoIdenticalDocumentsScoreZero(log10: real -> real, sqrt: real -> real)
    requires IsLog10(log10) && IsSqrt(sqrt)
    ensures Cosine(TfIdfVectors([["a"], ["a"]], ["a"], log10), 0, 1, sqrt) == 0.0
  {
    var docs: seq<Document> := [["a"], ["a"]];
    forall w ensures w in ["a"] <==> InCorpus(docs, w) {
      if w in ["a"] {
        assert docs[0] in docs;
      }
    }
    assert IsVocabularyOf(["a"], docs);
    assert !HasDistinctiveTerm(docs, docs[0]);
    IdenticalDocuments(docs, ["a"], log10, sqrt, 0, 1);
  }
}
