/**
 * TF-IDF feature extraction over a corpus of tokenised documents: the
 * corpus vocabulary, term frequency, inverse document frequency and the
 * per-document TF-IDF weight vectors.
 */
module FeatureExtraction {
  import opened Lexicographic
  import opened Numerics

  /** A cleaned document: its tokens in order. */
  type Document = seq<string>

  /** A std::map<std::string, double> from terms to weights. */
  type WeightVector = map<string, real>

  /** The term occurs in some document of the corpus. */
  ghost predicate InCorpus(docs: seq<Document>, w: string) {
    exists d :: d in docs && w in d
  }

  lemma InCorpusAppend(docs: seq<Document>, d: Document, w: string)
    ensures InCorpus(docs + [d], w) <==> InCorpus(docs, w) || w in d
  {
    assert d in docs + [d];
    if InCorpus(docs + [d], w) && !(w in d) {
      var e :| e in docs + [d] && w in e;
      assert e in docs;
    }
  }

  /** The vocabulary of a corpus: every term it contains, each once, in increasing order. */
  ghost predicate IsVocabularyOf(vocab: seq<string>, docs: seq<Document>) {
    StrictlySorted(vocab) && forall w :: w in vocab <==> InCorpus(docs, w)
  }

  /** A corpus has exactly one vocabulary. */
  lemma VocabularyUnique(v1: seq<string>, v2: seq<string>, docs: seq<Document>)
    requires IsVocabularyOf(v1, docs) && IsVocabularyOf(v2, docs)
    ensures v1 == v2
  {
    SortedUnique(v1, v2);
  }

  /** The vocabulary is empty exactly when every document is. */
  lemma EmptyVocabulary(vocab: seq<string>, docs: seq<Document>)
    requires IsVocabularyOf(vocab, docs)
    ensures vocab == [] <==> forall d :: d in docs ==> d == []
  {
    if vocab == [] {
      forall d | d in docs ensures d == [] {
        if d != [] {
          assert d[0] in d;
          assert InCorpus(docs, d[0]);
        }
      }
    } else {
      assert vocab[0] in vocab;
      var d :| d in docs && vocab[0] in d;
    }
  }

  /** The number of occurrences of t in the document. */
  function Count(doc: Document, t: string): nat {
    multiset(doc)[t]
  }

  lemma {:induction false} CountBounds(doc: Document, t: string)
    ensures Count(doc, t) <= |doc|
    ensures 0 < Count(doc, t) <==> t in doc
    decreases |doc|
  {
    if doc != [] {
      var init := doc[..|doc| - 1];
      assert doc == init + [doc[|doc| - 1]];
      assert multiset(doc) == multiset(init) + multiset{doc[|doc| - 1]};
      CountBounds(init, t);
    }
  }

  /**
   * Term frequency: each term of the document mapped to the fraction of the
   * document's tokens that are that term; nothing for an empty document.
   */
  function TermFrequency(doc: Document): WeightVector {
    if doc == [] then map[]
    else map t | t in doc :: Count(doc, t) as real / |doc| as real
  }

  /** The keys of the term frequency are the document's terms, and each weight is in (0, 1]. */
  lemma TermFrequencyProperties(doc: Document)
    ensures TermFrequency(doc).Keys == set t | t in doc
    ensures forall t :: t in TermFrequency(doc) ==>
      TermFrequency(doc)[t] == Count(doc, t) as real / |doc| as real
    ensures forall t :: t in TermFrequency(doc) ==> 0.0 < TermFrequency(doc)[t] <= 1.0
  {
    forall t | t in TermFrequency(doc)
      ensures 0.0 < TermFrequency(doc)[t] <= 1.0
    {
      CountBounds(doc, t);
      FractionBounds(Count(doc, t), |doc|);
    }
  }

  /** Term frequency sees only which tokens occur how often, not their order. */
  lemma TermFrequencyOfPermutation(d1: Document, d2: Document)
    requires multiset(d1) == multiset(d2)
    ensures TermFrequency(d1) == TermFrequency(d2)
  {
    assert |d1| == |multiset(d1)| == |multiset(d2)| == |d2|;
    forall t ensures t in d1 <==> t in d2 {
      assert t in d1 <==> t in multiset(d1);
      assert t in d2 <==> t in multiset(d2);
    }
  }

  lemma FractionBounds(c: nat, n: nat)
    requires 0 < c <= n
    ensures 0.0 < c as real / n as real <= 1.0
  {
  }

  lemma RatioAtLeastOne(n: nat, d: nat)
    requires 0 < d <= n
    ensures 1.0 <= n as real / d as real
    ensures n as real / d as real == 1.0 <==> n == d
  {
  }

  /** The number of documents of the corpus that contain t. */
  function DocCount(docs: seq<Document>, t: string): (n: nat)
    ensures n <= |docs|
  {
    if docs == [] then 0
    else DocCount(docs[..|docs| - 1], t) + (if t in docs[|docs| - 1] then 1 else 0)
  }

  /** Some document contains t exactly when the count is positive; all do exactly when it is |docs|. */
  lemma {:induction false} DocCountProperties(docs: seq<Document>, t: string)
    ensures 0 < DocCount(docs, t) <==> InCorpus(docs, t)
    ensures DocCount(docs, t) == |docs| <==> forall d :: d in docs ==> t in d
    decreases |docs|
  {
    if docs != [] {
      var init, last := docs[..|docs| - 1], docs[|docs| - 1];
      assert docs == init + [last];
      DocCountProperties(init, t);
      InCorpusAppend(init, last, t);
      if DocCount(docs, t) == |docs| {
        forall d | d in docs ensures t in d {
          if d != last {
            assert d in init;
          }
        }
      }
      if forall d :: d in docs ==> t in d {
        assert last in docs;
        forall d | d in init ensures t in d {
          assert d in docs;
        }
      }
    }
  }

  /** The IDF weight of t: log10 of the corpus size over t's document count, or 0 if no document has t. */
  function IdfValue(docs: seq<Document>, t: string, log10: real -> real): real {
    var n := DocCount(docs, t);
    if n > 0 then log10(|docs| as real / n as real) else 0.0
  }

  /** An IDF weight is never negative, and it is zero exactly for a term in no document or in all of them. */
  lemma IdfValueProperties(docs: seq<Document>, t: string, log10: real -> real)
    requires IsLog10(log10)
    ensures 0.0 <= IdfValue(docs, t, log10)
    ensures IdfValue(docs, t, log10) == 0.0 <==>
      DocCount(docs, t) == 0 || DocCount(docs, t) == |docs|
  {
    var n := DocCount(docs, t);
    if n > 0 {
      RatioAtLeastOne(|docs|, n);
      Log10NonNegative(log10, |docs| as real / n as real);
    }
  }

  /** The IDF map: one weight per vocabulary term, and nothing for an empty corpus. */
  function InverseDocumentFrequency(docs: seq<Document>, vocab: seq<string>, log10: real -> real): WeightVector {
    if docs == [] then map[]
    else map t | t in vocab :: IdfValue(docs, t, log10)
  }

  /** Looks a term up in a weight vector, reading a missing term as 0. */
  function Weight(v: WeightVector, t: string): real {
    if t in v then v[t] else 0.0
  }

  /** TF-IDF weight of t in the document doc of the corpus. */
  function TfIdfWeight(docs: seq<Document>, doc: Document, t: string, log10: real -> real): real {
    Weight(TermFrequency(doc), t) * IdfValue(docs, t, log10)
  }

  /** The TF-IDF vector of one document: a weight for every vocabulary term. */
  function TfIdfVector(docs: seq<Document>, doc: Document, vocab: seq<string>, log10: real -> real): WeightVector {
    map t | t in vocab :: TfIdfWeight(docs, doc, t, log10)
  }

  /** Documents with the same tokens, in any order, get the same TF-IDF vector. */
  lemma TfIdfVectorOfPermutation(docs: seq<Document>, d1: Document, d2: Document, vocab: seq<string>, log10: real -> real)
    requires multiset(d1) == multiset(d2)
    ensures TfIdfVector(docs, d1, vocab, log10) == TfIdfVector(docs, d2, vocab, log10)
  {
    TermFrequencyOfPermutation(d1, d2);
    forall t | t in vocab ensures TfIdfWeight(docs, d1, t, log10) == TfIdfWeight(docs, d2, t, log10) {
    }
  }

  /** One TF-IDF vector per document, in corpus order. */
  function TfIdfVectors(docs: seq<Document>, vocab: seq<string>, log10: real -> real): seq<WeightVector> {
    seq(|docs|, i requires 0 <= i < |docs| => TfIdfVector(docs, docs[i], vocab, log10))
  }

  /** Extending the vocabulary prefix by one term adds that term's weight. */
  lemma TfIdfVectorSnoc(docs: seq<Document>, doc: Document, vocab: seq<string>, k: nat, log10: real -> real)
    requires k < |vocab|
    ensures TfIdfVector(docs, doc, vocab[..k + 1], log10)
      == TfIdfVector(docs, doc, vocab[..k], log10)[vocab[k] := TfIdfWeight(docs, doc, vocab[k], log10)]
  {
    assert vocab[..k + 1] == vocab[..k] + [vocab[k]];
  }

  /** Extending the vocabulary prefix by one term adds that term's IDF weight. */
  lemma IdfSnoc(docs: seq<Document>, vocab: seq<string>, k: nat, log10: real -> real)
    requires docs != [] && k < |vocab|
    ensures InverseDocumentFrequency(docs, vocab[..k + 1], log10)
      == InverseDocumentFrequency(docs, vocab[..k], log10)[vocab[k] := IdfValue(docs, vocab[k], log10)]
  {
    assert vocab[..k + 1] == vocab[..k] + [vocab[k]];
  }

  /**
   * A TF-IDF weight of a document of the corpus is never negative; it is
   * zero when the document lacks the term, and positive exactly when the
   * document has the term and some other document does not.
   */
  lemma TfIdfWeightProperties(docs: seq<Document>, doc: Document, t: string, log10: real -> real)
    requires IsLog10(log10) && doc in docs
    ensures 0.0 <= TfIdfWeight(docs, doc, t, log10)
    ensures t !in doc ==> TfIdfWeight(docs, doc, t, log10) == 0.0
    ensures 0.0 < TfIdfWeight(docs, doc, t, log10) <==>
      t in doc && exists e :: e in docs && t !in e
  {
    TermFrequencyProperties(doc);
    IdfValueProperties(docs, t, log10);
    DocCountProperties(docs, t);
    var tf, idf := Weight(TermFrequency(doc), t), IdfValue(docs, t, log10);
    assert 0.0 <= tf;
    if t in doc {
      assert t in TermFrequency(doc);
      assert InCorpus(docs, t);
      if DocCount(docs, t) < |docs| {
        PositiveProduct(tf, idf);
      } else {
        assert idf == 0.0;
      }
    }
  }

  /** The TF-IDF matrix has a row per document and, in each row, a key per vocabulary term. */
  lemma TfIdfShape(docs: seq<Document>, vocab: seq<string>, log10: real -> real)
    ensures |TfIdfVectors(docs, vocab, log10)| == |docs|
    ensures forall i :: 0 <= i < |docs| ==>
      TfIdfVectors(docs, vocab, log10)[i].Keys == set t | t in vocab
  {
  }

  /** Every TF-IDF weight the matrix holds is non-negative. */
  lemma TfIdfNonNegative(docs: seq<Document>, vocab: seq<string>, log10: real -> real)
    requires IsLog10(log10)
    ensures forall i, t :: 0 <= i < |docs| && t in TfIdfVectors(docs, vocab, log10)[i] ==>
      0.0 <= TfIdfVectors(docs, vocab, log10)[i][t]
  {
    forall i, t | 0 <= i < |docs| && t in TfIdfVectors(docs, vocab, log10)[i]
      ensures 0.0 <= TfIdfVectors(docs, vocab, log10)[i][t]
    {
      TfIdfWeightProperties(docs, docs[i], t, log10);
    }
  }

  /**
   * The extractor: the corpus it was built over, its vocabulary (built on
   * construction) and the TF-IDF matrix, empty until ComputeTfIdf fills it.
   * `log10` stands for std::log10.
   */
  class FeatureExtractor {
    const documents: seq<Document>
    const log10: real -> real
    var vocabulary: seq<string>
    var tfidfVectors: seq<WeightVector>

    ghost predicate Valid()
      reads this
    {
      IsLog10(log10)
      && IsVocabularyOf(vocabulary, documents)
      && (tfidfVectors == [] || tfidfVectors == TfIdfVectors(documents, vocabulary, log10))
    }

    constructor(docs: seq<Document>, log10: real -> real)
      requires IsLog10(log10)
      ensures Valid()
      ensures documents == docs && this.log10 == log10
      ensures IsVocabularyOf(vocabulary, docs) && tfidfVectors == []
    {
      documents := docs;
      this.log10 := log10;
      vocabulary := [];
      tfidfVectors := [];
      new;
      BuildVocabulary();
    }

    /** Collects every term of every document into an ordered set, then stores its enumeration. */
    method BuildVocabulary()
      modifies this`vocabulary
      ensures IsVocabularyOf(vocabulary, documents)
    {
      var vocabSet: seq<string> := [];
      for i := 0 to |documents|
        invariant StrictlySorted(vocabSet)
        invariant forall w :: w in vocabSet <==> InCorpus(documents[..i], w)
      {
        var doc := documents[i];
        for k := 0 to |doc|
          invariant StrictlySorted(vocabSet)
          invariant forall w :: w in vocabSet <==> InCorpus(documents[..i], w) || w in doc[..k]
        {
          assert doc[..k + 1] == doc[..k] + [doc[k]];
          vocabSet := Insert(vocabSet, doc[k]);
        }
        assert doc[..|doc|] == doc;
        assert documents[..i + 1] == documents[..i] + [doc];
        forall w ensures InCorpus(documents[..i + 1], w) <==> InCorpus(documents[..i], w) || w in doc {
          InCorpusAppend(documents[..i], doc, w);
        }
      }
      assert documents[..|documents|] == documents;
      vocabulary := vocabSet;
    }

    /** Counts each term, then divides every count by the document length. */
    method ComputeTf(document: Document) returns (tf: WeightVector)
      ensures tf == TermFrequency(document)
    {
      tf := map[];
      if document == [] {
        return;
      }
      var termCount: map<string, nat> := map[];
      for i := 0 to |document|
        invariant forall t :: t in termCount <==> t in document[..i]
        invariant forall t :: t in termCount ==> termCount[t] == Count(document[..i], t)
      {
        var term := document[i];
        assert document[..i + 1] == document[..i] + [term];
        termCount := termCount[term := (if term in termCount then termCount[term] else 0) + 1];
      }
      assert document[..|document|] == document;
      var totalTerms := |document| as real;
      var pending := termCount.Keys;
      while pending != {}
        invariant pending <= termCount.Keys
        invariant forall t :: t in tf <==> t in termCount && t !in pending
        invariant forall t :: t in tf ==> tf[t] == termCount[t] as real / totalTerms
        decreases pending
      {
        var t :| t in pending;
        tf := tf[t := termCount[t] as real / totalTerms];
        pending := pending - {t};
      }
    }

    /** Counts, for each vocabulary term, the documents containing it, and takes log10(N / count). */
    method ComputeIdf() returns (idf: WeightVector)
      ensures idf == InverseDocumentFrequency(documents, vocabulary, log10)
    {
      idf := map[];
      if documents == [] {
        return;
      }
      var totalDocs := |documents| as real;
      for k := 0 to |vocabulary|
        invariant idf == InverseDocumentFrequency(documents, vocabulary[..k], log10)
      {
        var term := vocabulary[k];
        var docCount := 0;
        for d := 0 to |documents|
          invariant docCount == DocCount(documents[..d], term)
        {
          assert documents[..d + 1][..d] == documents[..d];
          if term in documents[d] {
            docCount := docCount + 1;
          }
        }
        assert documents[..|documents|] == documents;
        IdfSnoc(documents, vocabulary, k, log10);
        if docCount > 0 {
          idf := idf[term := log10(totalDocs / docCount as real)];
        } else {
          idf := idf[term := 0.0];
        }
      }
      assert vocabulary[..|vocabulary|] == vocabulary;
    }

    /** Recomputes the TF-IDF matrix: for each document, TF times IDF of every vocabulary term. */
    method ComputeTfIdf()
      requires Valid()
      modifies this`tfidfVectors
      ensures Valid()
      ensures tfidfVectors == TfIdfVectors(documents, vocabulary, log10)
    {
      tfidfVectors := [];
      if documents == [] {
        return;
      }
      var idf := ComputeIdf();
      for i := 0 to |documents|
        invariant |tfidfVectors| == i
        invariant forall m :: 0 <= m < i ==>
          tfidfVectors[m] == TfIdfVector(documents, documents[m], vocabulary, log10)
      {
        var doc := documents[i];
        var tf := ComputeTf(doc);
        var tfidf := WeighTerms(doc, tf, idf);
        tfidfVectors := tfidfVectors + [tfidf];
      }
    }

    /** The inner loop of ComputeTfIdf: one document's TF value times the IDF value, per vocabulary term. */
    method WeighTerms(doc: Document, tf: WeightVector, idf: WeightVector) returns (tfidf: WeightVector)
      requires documents != []
      requires tf == TermFrequency(doc)
      requires idf == InverseDocumentFrequency(documents, vocabulary, log10)
      ensures tfidf == TfIdfVector(documents, doc, vocabulary, log10)
    {
      tfidf := map[];
      for k := 0 to |vocabulary|
        invariant tfidf == TfIdfVector(documents, doc, vocabulary[..k], log10)
      {
        var term := vocabulary[k];
        assert term in vocabulary;
        var tfValue := if term in tf then tf[term] else 0.0;
        var idfValue := idf[term];
        assert tfValue * idfValue == TfIdfWeight(documents, doc, term, log10) by {
          assert tfValue == Weight(TermFrequency(doc), term);
          assert idfValue == IdfValue(documents, term, log10);
        }
        TfIdfVectorSnoc(documents, doc, vocabulary, k, log10);
        tfidf := tfidf[term := tfValue * idfValue];
      }
      assert vocabulary[..|vocabulary|] == vocabulary;
    }

    /**
     * The TF-IDF vector of document docIndex, or an empty map when the index
     * is out of range (or the matrix has not been computed).
     */
    function GetTfIdfVector(docIndex: int): (v: WeightVector)
      reads this
      requires Valid()
      ensures 0 <= docIndex < |tfidfVectors| ==>
        v == TfIdfVector(documents, documents[docIndex], vocabulary, log10)
        && v.Keys == (set t | t in vocabulary)
        && forall t :: t in v ==> 0.0 <= v[t]
      ensures !(0 <= docIndex < |tfidfVectors|) ==> v == map[]
    {
      if 0 <= docIndex < |tfidfVectors| then
        TfIdfNonNegative(documents, vocabulary, log10);
        tfidfVectors[docIndex]
      else map[]
    }

    /** The whole matrix: empty, or one vector per document. */
    function GetAllTfIdfVectors(): (vs: seq<WeightVector>)
      reads this
      requires Valid()
      ensures vs == [] || vs == TfIdfVectors(documents, vocabulary, log10)
      ensures vs != [] ==> |vs| == |documents|
    {
      tfidfVectors
    }

    /** The vocabulary: the corpus's distinct terms in increasing order. */
    function GetVocabulary(): (v: seq<string>)
      reads this
      requires Valid()
      ensures IsVocabularyOf(v, documents)
    {
      vocabulary
    }
  }
}
