# Assignment plagiarism checker: a Dafny model of its core

The checker turns a set of student submissions into pairwise similarity
scores in three stages:

- **TextCleaner** normalises each document:
  - it lower-cases the text;
  - it turns every character that is neither alphanumeric nor white space into a space;
  - it splits the result on white space;
  - it drops empty tokens and a fixed set of English stop words.
- **FeatureExtractor** builds the corpus vocabulary. It then computes term frequency, inverse document frequency and one TF-IDF weight map per document.
- **SimilarityChecker** scores pairs of documents by cosine similarity under three guard rules:
  - an index out of range scores 0;
  - a document compared with itself scores 1;
  - a vector of length 0 scores 0.

  It lists every pair i < j with display names.

The model has one module per source component (`TextCleaning`, `FeatureExtraction`, `Similarity`) and four support modules:

- `CType`: the "C"-locale `<ctype.h>` classification and `tolower` on ASCII (ISO/IEC 9899, section 7.4).
- `Lexicographic`: the `std::string` order that `std::set` keeps.
- `Decimal`: `std::to_string` of a non-negative integer.
- `Numerics`: the laws assumed of `sqrt` and `log10`, and finite sums over sets of terms.

A fifth module, `Pipeline`, connects the extractor's output to the checker.

Each C++ class becomes a Dafny class with the same fields. Each method that loops in the source is a Dafny method with the same loop. Each such method is proved equal to a function that states the result on whole values, for example:

- `Tokenize` returns `Tokens(text)`;
- `ComputeTfIdf` leaves `tfidfVectors == TfIdfVectors(documents, vocabulary, log10)`;
- `CompareAll` returns `Comparisons(...)`.

Lemmas then prove what the source promises about those functions.

### How the model represents the source

- **Weights** are `real`, not IEEE doubles.
- **`std::sqrt` and `std::log10`** are function-valued parameters, with only these laws:
  - `IsSqrt`: for x ≥ 0, sqrt(x) ≥ 0 and sqrt(x)·sqrt(x) = x.
  - `IsLog10`: log10(1) = 0, and log10(x) > 0 for x > 1.

  `SimilarityChecker` and `FeatureExtractor` take them as constructor arguments where the C++ calls the library.
- **A `std::map<std::string, double>`** is a `map<string, real>`. Sums over its entries (`Numerics.SetSum`) are taken over its key set, one element at a time. `SetSumRemove` proves that the element taken out first does not change the sum, so the result does not depend on the map's iteration order.
- **The vocabulary's `std::set<std::string>`** is a strictly increasing `seq<string>`, built by `Lexicographic.Insert`.
- **Text stays ASCII.** Characters are Dafny `char`s classified as in the "C" locale, so any character outside ASCII falls in no class.

## Model

| member | source | states |
|---|---|---|
| CType.ToLower | TextCleaner.cpp:90-94 | an upper-case letter maps to the lower-case letter 32 code points above it; every other character is unchanged |
| CType.ToLowerProperties | TextCleaner.cpp:90-94 | tolower never yields an upper-case letter, keeps whether a character is alphanumeric or white space, and is idempotent |
| Lexicographic.LessIrreflexive | FeatureExtractor.cpp:31 | the string order of std::set is irreflexive |
| Lexicographic.LessTransitive | FeatureExtractor.cpp:31 | the string order is transitive |
| Lexicographic.LessTotal | FeatureExtractor.cpp:31 | two different strings are always ordered one way or the other |
| Lexicographic.LessAsymmetric | FeatureExtractor.cpp:31 | the string order is asymmetric |
| Lexicographic.SortedDistinct | FeatureExtractor.h:40-41 | a strictly sorted sequence holds no term twice |
| Lexicographic.Insert | FeatureExtractor.cpp:36 | inserting into the ordered set keeps it strictly sorted, adds exactly the word, and grows it by one exactly when the word was absent |
| Lexicographic.SortedUnique | FeatureExtractor.cpp:41 | two strictly sorted sequences with the same members are equal, so the enumeration of a set is unique |
| Decimal.DecimalString | SimilarityChecker.cpp:194 | std::to_string of k is non-empty, all decimal digits, and has no leading zero unless it is "0" |
| Decimal.DecimalRoundTrip | SimilarityChecker.cpp:194 | reading the decimal form back gives the number |
| Decimal.DecimalInjective | SimilarityChecker.cpp:194 | different numbers have different decimal forms |
| Numerics.SetSumRemove | SimilarityChecker.cpp:60-69 | a sum over a set equals any one of its terms plus the sum over the rest, so it does not depend on iteration order |
| Numerics.SetSumNonNegative | SimilarityChecker.cpp:98-101 | a sum of non-negative terms is non-negative, and is zero exactly when every term is |
| Numerics.Log10NonNegative | FeatureExtractor.cpp:107 | log10 of a value at least 1 is non-negative, and zero exactly at 1 |
| TextCleaning.LoweredProperties | TextCleaner.cpp:90-94 | lower-casing keeps the length, maps each position through tolower, leaves no upper-case letter and is idempotent |
| TextCleaning.DepunctuatedProperties | TextCleaner.cpp:116-129 | removing punctuation keeps the length; position k keeps its character if it is alphanumeric or white space and is a space otherwise; the output is only alphanumerics and white space; a second pass changes nothing |
| TextCleaning.DepunctuatedKeepsCase | TextCleaner.cpp:223-229 | removing punctuation from lower-cased text brings back no upper case |
| TextCleaning.WordLength | TextCleaner.cpp:190 | the run operator>> extracts is as long as possible: free of white space and ended by white space or the end of the text |
| TextCleaning.TokensAreWords | TextCleaner.h:150 | every token is non-empty and free of white space, and its characters come from the text |
| TextCleaning.TokensSplit | TextCleaner.h:143-158 | a white-space character splits the tokens of the two sides apart, in order |
| TextCleaning.TokensOfWord | TextCleaner.cpp:184-197 | a single word tokenizes to itself |
| TextCleaning.TokensOfJoin | TextCleaner.cpp:184-197 | words joined by single spaces tokenize back to the same words |
| TextCleaning.TokensConcat | TextCleaner.cpp:184-197 | the tokens put back together are the input with its white space deleted |
| TextCleaning.NoTokens | TextCleaner.cpp:184-197 | the text has no tokens exactly when it is empty or all white space |
| TextCleaning.PunctuationSeparates | TextCleaner.h:121-123 | a punctuation mark, turned into a space, keeps the tokens on either side apart |
| TextCleaning.CommaSeparatedExample | TextCleaner.h:121-123 | "a,b" yields the two tokens "a" and "b" |
| TextCleaning.WithoutStopWordsAppend | TextCleaner.cpp:155-159 | filtering a concatenation filters each part |
| TextCleaning.WithoutStopWordsMembers | TextCleaner.h:134-136 | a token is in the output exactly when it is in the input, non-empty and not a stop word; the output is no longer than the input |
| TextCleaning.WithoutStopWordsIdempotent | TextCleaner.cpp:150-162 | removing stop words a second time removes nothing more |
| TextCleaning.PreprocessedTokens | TextCleaner.h:160-172 | every token of preprocess is non-empty, consists of lower-case letters and digits only, and is not a stop word |
| TextCleaning.TextCleaner.constructor | TextCleaner.cpp:28-31 | after construction the stop words are exactly the listed words, with the repeated "the" and "has" collapsed |
| TextCleaning.TextCleaner.InitializeStopWords | TextCleaner.cpp:52-69 | each listed word is added to the set, and nothing else is |
| TextCleaning.TextCleaner.ToLower | TextCleaner.cpp:90-94 | the copy transformed in place equals the text with tolower applied to each character |
| TextCleaning.TextCleaner.RemovePunctuation | TextCleaner.cpp:116-129 | the appended characters equal the text with each punctuation character replaced by a space |
| TextCleaning.TextCleaner.Tokenize | TextCleaner.cpp:184-197 | the tokens extracted are the maximal runs of non-white-space characters, in order |
| TextCleaning.TextCleaner.RemoveStopWords | TextCleaner.cpp:150-162 | the kept tokens are, in order, those that are non-empty and not stop words |
| TextCleaning.TextCleaner.Preprocess | TextCleaner.cpp:223-238 | preprocess applies lower-casing, punctuation removal, tokenizing and stop-word removal in that order; every token it returns is a non-empty lower-case alphanumeric non-stop-word |
| FeatureExtraction.VocabularyUnique | FeatureExtractor.cpp:30-42 | a corpus has exactly one sorted, duplicate-free enumeration of its terms |
| FeatureExtraction.EmptyVocabulary | FeatureExtractor.cpp:30-42 | the vocabulary is empty exactly when every document is empty, the empty corpus included |
| FeatureExtraction.CountBounds | FeatureExtractor.cpp:61-63 | a term's count is at most the document length, and positive exactly when the term occurs |
| FeatureExtraction.TermFrequencyProperties | FeatureExtractor.cpp:51-73 | TF keys are exactly the document's distinct terms; each value is count / length and lies in (0, 1]; an empty document gives the empty map |
| FeatureExtraction.DocCount | FeatureExtractor.cpp:96-103 | the document count of a term is at most the number of documents |
| FeatureExtraction.DocCountProperties | FeatureExtractor.cpp:96-103 | the document count is positive exactly when some document has the term, and equals the corpus size exactly when every document has it |
| FeatureExtraction.IdfValueProperties | FeatureExtractor.cpp:106-110 | IDF is never negative, and is 0 exactly for a term in no document (the fallback) or in every document |
| FeatureExtraction.TfIdfWeightProperties | FeatureExtractor.cpp:140-144 | a TF-IDF weight is non-negative, is 0 for a term absent from the document, and is positive exactly when the document has the term and some document lacks it |
| FeatureExtraction.TfIdfShape | FeatureExtractor.cpp:135-147 | the matrix has one vector per document, and each vector's keys are exactly the vocabulary |
| FeatureExtraction.TfIdfNonNegative | FeatureExtractor.cpp:140-144 | every weight in the matrix is non-negative |
| FeatureExtraction.FeatureExtractor.constructor | FeatureExtractor.cpp:13-16 | construction stores the documents, builds their vocabulary and leaves the TF-IDF matrix empty |
| FeatureExtraction.FeatureExtractor.BuildVocabulary | FeatureExtractor.cpp:30-42 | the vocabulary is strictly increasing and holds exactly the terms that occur in some document |
| FeatureExtraction.FeatureExtractor.ComputeTf | FeatureExtractor.cpp:51-73 | the counting loop and the division loop yield the term-frequency map of the document (empty for an empty document) |
| FeatureExtraction.FeatureExtractor.ComputeIdf | FeatureExtractor.cpp:86-114 | the map has one entry per vocabulary term holding log10(N / docCount), or 0 when no document has the term; an empty corpus gives the empty map |
| FeatureExtraction.FeatureExtractor.ComputeTfIdf | FeatureExtractor.cpp:126-148 | clears the matrix, then leaves exactly one TF-IDF vector per document in document order (none for an empty corpus); only tfidfVectors changes, so a second call gives the same matrix |
| FeatureExtraction.FeatureExtractor.WeighTerms | FeatureExtractor.cpp:139-144 | each vocabulary term gets TF (0 if absent) times IDF |
| FeatureExtraction.FeatureExtractor.GetTfIdfVector | FeatureExtractor.cpp:156-161 | a valid index gives that document's vector, keyed by the vocabulary with non-negative weights; any other index gives the empty map |
| FeatureExtraction.FeatureExtractor.GetAllTfIdfVectors | FeatureExtractor.cpp:169-171 | the matrix is empty (not yet computed) or one vector per document |
| FeatureExtraction.FeatureExtractor.GetVocabulary | FeatureExtractor.cpp:179-181 | the vocabulary returned is the corpus's distinct terms in increasing order |
| Similarity.CosineGuards | SimilarityChecker.cpp:132-139 | an index out of range gives 0 even when the indices are equal; a valid index compared with itself gives 1 whatever its vector holds |
| Similarity.CosineOfDistinctIndices | SimilarityChecker.cpp:141-155 | for distinct valid indices the score is 0 when either magnitude is 0, else dot / (mag1 · mag2) |
| Similarity.DotSymmetric | SimilarityChecker.cpp:57-58 | the dot product does not depend on which vector is iterated |
| Similarity.SumSquaresZero | SimilarityChecker.cpp:96-101 | the sum of squares is non-negative, and zero exactly when every weight is |
| Similarity.NormZero | SimilarityChecker.cpp:93-104 | the magnitude is non-negative, and zero exactly when every weight is 0 (the empty map included) |
| Similarity.CauchySchwarz | SimilarityChecker.h:130-131 | over any finite set of terms, the squared sum of products is at most the product of the sums of squares |
| Similarity.DotBound | SimilarityChecker.h:130-131 | the squared dot product is at most the product of the two sums of squares |
| Similarity.DotNonNegative | SimilarityChecker.h:130-131 | vectors with non-negative weights have a non-negative dot product |
| Similarity.DotDisjoint | SimilarityChecker.h:80-85 | vectors with no shared term have dot product 0, because only matching terms are multiplied |
| Similarity.DotSelf | SimilarityChecker.cpp:51-72 | a vector's dot product with itself is its sum of squares |
| Similarity.CosineOfVectorsInUnitRange | SimilarityChecker.cpp:155 | for non-negative vectors of non-zero length, dot / (mag1 · mag2) lies in [0, 1] |
| Similarity.CosineInUnitRange | SimilarityChecker.h:130-131 | with non-negative weights every score lies in [0, 1] |
| Similarity.CosineSymmetric | SimilarityChecker.cpp:130-156 | the score of (i, j) equals the score of (j, i) |
| Similarity.CosineOfEqualVectors | SimilarityChecker.h:136-138 | two documents with the same vector of non-zero length score 1 |
| Similarity.CosineOfOrthogonalVectors | SimilarityChecker.cpp:141-155 | two different documents whose vectors have dot product 0 score 0, whatever their magnitudes |
| Similarity.CosineOfDisjointVectors | SimilarityChecker.cpp:141-155 | two different documents whose weight maps have no key in common score 0. Extractor vectors all share the vocabulary as keys; for them see Pipeline.DisjointDocumentsScoreZero |
| Similarity.CosineOfZeroVector | SimilarityChecker.h:138 | a vector of length 0 scores 0 against every other document, in either position |
| Similarity.NameOf | SimilarityChecker.cpp:192-198 | a document's name is its given name when there is one; otherwise it is "Document" followed by a non-empty string of decimal digits whose value is the index |
| Similarity.FallbackNamesDistinct | SimilarityChecker.cpp:192-198 | different unnamed documents get different fallback names |
| Similarity.PairsUpToLength | SimilarityChecker.cpp:186-187 | the first b rows of the nested loops hold b(2n − b − 1)/2 pairs |
| Similarity.PairsUpToMembers | SimilarityChecker.cpp:186-187 | the first b rows hold exactly the pairs (i, j) with i < b and i < j < n |
| Similarity.PairsUpToOrdered | SimilarityChecker.cpp:186-187 | the nested loops list pairs in increasing lexicographic order |
| Similarity.PairsProperties | SimilarityChecker.cpp:186-202 | compareAll visits n(n−1)/2 pairs (none when n ≤ 1), each pair i < j < n exactly once, in lexicographic order |
| Similarity.ComparisonsProperties | SimilarityChecker.h:142-156 | result x names and scores the x-th pair; with non-negative weights every score lies in [0, 1] |
| Similarity.SimilarityChecker.constructor | SimilarityChecker.cpp:25-29 | the vectors and names are stored as given; the fields are constants, so no method changes them |
| Similarity.SimilarityChecker.DotProduct | SimilarityChecker.cpp:51-72 | iterating the smaller map (vec2 when the sizes are equal) gives the sum of a[k]·b[k] over the terms both maps hold |
| Similarity.SimilarityChecker.SumOfProducts | SimilarityChecker.cpp:60-69 | the loop over one map's terms, adding products only for terms the other map holds, gives the dot product |
| Similarity.SimilarityChecker.Magnitude | SimilarityChecker.cpp:93-104 | the loop returns sqrt of the sum of squared weights |
| Similarity.SimilarityChecker.CosineSimilarity | SimilarityChecker.cpp:130-156 | the score applies the guards in source order and otherwise the cosine formula; with non-negative weights it lies in [0, 1] |
| Similarity.SimilarityChecker.CompareAll | SimilarityChecker.cpp:179-205 | the nested loops return, for every pair i < j in order, the two display names and cosineSimilarity(i, j) |
| Pipeline.TfIdfVectorsNonNegative | FeatureExtractor.cpp:140-144 | the extractor's matrix satisfies the non-negativity that the checker's [0, 1] bound needs |
| Pipeline.ScoresInUnitRange | SimilarityChecker.h:130-131 | every score computed over a TF-IDF matrix lies in [0, 1] |
| FeatureExtraction.TermFrequencyOfPermutation | FeatureExtractor.cpp:51-73 | two documents with the same tokens, counted with multiplicity and in any order, have the same TF map |
| FeatureExtraction.TfIdfVectorOfPermutation | FeatureExtractor.cpp:136-144 | two documents with the same tokens, in any order, get the same TF-IDF vector |
| Pipeline.IdenticalDocuments | SimilarityChecker.cpp:151-155 | two different documents with the same tokens, counted with multiplicity and in any order, score 1 if one of their terms is missing from some document, and 0 if each of their terms occurs in every document |
| Pipeline.DisjointDocumentsOrthogonal | FeatureExtractor.cpp:140-144 | the TF-IDF vectors of two documents without a common term have dot product 0, since every vocabulary term weighs 0 in at least one of them |
| Pipeline.DisjointDocumentsScoreZero | SimilarityChecker.cpp:141-155 | two different documents of the corpus without a common term score 0 |
| Pipeline.EmptyDocumentScoresZero | FeatureExtractor.cpp:54-56 | an empty document has all TF-IDF weights 0, so it scores 0 against every other document, in either position (by the guard at SimilarityChecker.cpp:151-153) |
| Pipeline.TwoIdenticalDocumentsScoreZero | FeatureExtractor.cpp:106-107 | a corpus of two copies of ["a"] gives the pair score 0, since every IDF weight is log10(1) = 0 |

### Same tokens in two different documents

One might expect two different documents with the same tokens to score 1.0, as a document does against itself. The code promises 1.0 only when both indices are the same (SimilarityChecker.h:136-138). For two different documents with the same tokens the score depends on the rest of the corpus:

- **Some term is missing from another document.** When a term of the two documents is absent from some other document, they do score 1 (`Pipeline.IdenticalDocuments`).
- **Every term is everywhere.** When every term of the two documents occurs in every document, each IDF is log10(N/N) = 0. All their weights are then 0, both magnitudes are 0, and the guard makes the score 0.
- **Concrete case.** A corpus of just two identical documents scores 0 (`Pipeline.TwoIdenticalDocumentsScoreZero`).

This follows from the IDF formula as written and from the zero-magnitude guard. It is therefore not treated as a bug.

## Left out

- `main.cpp` is not part of this model. It holds the command-line handling, directory defaults, threshold parsing and console output.
- `FileReader.cpp` and `FileReader.h` are not part of this model. They cover directory listing and file reading (I/O).
- `ReportWriter.cpp` and `ReportWriter.h` are not part of this model. They cover report files and two-decimal formatting.
- The strict `similarity > threshold` flag in ReportWriter is not modelled.
- Floating point is not modelled: weights are reals, and no rounding, overflow or float associativity is modelled.
- `std::sqrt` and `std::log10` are abstract. The model assumes only the laws `IsSqrt` and `IsLog10`, and never their values.
  - `IsSqrt` demands sqrt(x)·sqrt(x) = x, not only "sqrt(x) = 0 exactly when x = 0". The upper bound 1 on a score needs it.
- `int` width is not modelled. Indices and counts are unbounded naturals, because corpus sizes never approach 2^31 in practice. `cosineSimilarity`'s int indices are Dafny `int`, which includes negatives.
- Locale-dependent classification, characters beyond ASCII, and the undefined behaviour of `::tolower` on negative `char` values are left out.
- TextCleaning.TextCleaner.constructor: the stop-word count (73 distinct words) is not stated as a number. The contract states equality with the set of the listed words instead.
- `std::unordered_set` and `std::map` performance, and the "iterate the smaller map" choice, are not modelled. Only the resulting values are.
- Iteration order over a map is not modelled. Sums are taken over key sets, and the sum does not depend on order (`Numerics.SetSumRemove`).
- Similarity.SimilarityChecker.constructor and FeatureExtraction.FeatureExtractor.constructor take `sqrt` and `log10` as arguments. The C++ calls the standard library instead.
- Similarity.SimilarityChecker.CosineSimilarity, Pipeline.ScoresInUnitRange, and Similarity.CosineInUnitRange state 0 ≤ score ≤ 1 only for non-negative weights. With negative weights a score can be negative. Every matrix the extractor produces has non-negative weights (`Pipeline.TfIdfVectorsNonNegative`).
- FeatureExtraction.FeatureExtractor.GetTfIdfVector, GetAllTfIdfVectors and GetVocabulary require the class invariant `Valid()`. It holds after construction and after `ComputeTfIdf`.
