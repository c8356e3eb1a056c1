/**
 * Text normalisation ahead of TF-IDF: lower-casing, punctuation to spaces,
 * splitting on white space, and stop-word removal. Each transform of the
 * TextCleaner class is a method with a loop, proved against a function
 * that states the transform on whole strings; the lemmas say what those
 * functions guarantee.
 */
module TextCleaning {
  import opened CType

  /** The words initializeStopWords inserts, in its order ("the" and "has" occur twice). */
  const StopWordList: seq<string> := [
    "a", "an", "and", "are", "as", "at", "be", "by", "for", "from",
    "has", "he", "in", "is", "it", "its", "of", "on", "that", "the",
    "to", "was", "will", "with", "the", "this", "but", "they", "have",
    "had", "what", "said", "each", "which", "their", "time", "if",
    "up", "out", "many", "then", "them", "these", "so", "some", "her",
    "would", "make", "like", "into", "him", "has", "two", "more",
    "very", "after", "words", "long", "than", "first", "been", "call",
    "who", "oil", "sit", "now", "find", "down", "day", "did", "get",
    "come", "made", "may", "part"
  ]

  /** The stop-word set: the listed words, each once. */
  function StopWords(): set<string> {
    set w | w in StopWordList
  }

  // ---------------------------------------------------------------------
  // Lower-casing and punctuation

  /** The text with every character passed through tolower. */
  function Lowered(s: string): string {
    seq(|s|, k requires 0 <= k < |s| => ToLower(s[k]))
  }

  /** What removePunctuation does to one character: keep it if alphanumeric or white space, else a space. */
  function KeepOrBlank(c: char): char {
    if IsAlnum(c) || IsSpace(c) then c else ' '
  }

  /** The text with every punctuation character replaced by a space. */
  function Depunctuated(s: string): string {
    seq(|s|, k requires 0 <= k < |s| => KeepOrBlank(s[k]))
  }

  /** Lower-casing keeps the length, leaves no upper-case letter, and a second pass changes nothing. */
  lemma LoweredProperties(s: string)
    ensures |Lowered(s)| == |s|
    ensures forall k :: 0 <= k < |s| ==> Lowered(s)[k] == ToLower(s[k])
    ensures forall c :: c in Lowered(s) ==> !IsUpper(c)
    ensures Lowered(Lowered(s)) == Lowered(s)
  {
  }

  /**
   * Punctuation removal keeps the length, keeps exactly the alphanumeric and
   * white-space characters, blanks the rest, and a second pass changes nothing.
   */
  lemma DepunctuatedProperties(s: string)
    ensures |Depunctuated(s)| == |s|
    ensures forall k :: 0 <= k < |s| ==>
      Depunctuated(s)[k] == (if IsAlnum(s[k]) || IsSpace(s[k]) then s[k] else ' ')
    ensures forall c :: c in Depunctuated(s) ==> IsAlnum(c) || IsSpace(c)
    ensures Depunctuated(Depunctuated(s)) == Depunctuated(s)
  {
  }

  /** Depunctuating does not bring back upper case. */
  lemma DepunctuatedKeepsCase(s: string)
    requires forall c :: c in s ==> !IsUpper(c)
    ensures forall c :: c in Depunctuated(s) ==> !IsUpper(c)
  {
    forall c | c in Depunctuated(s) ensures !IsUpper(c) {
      var k :| 0 <= k < |Depunctuated(s)| && Depunctuated(s)[k] == c;
      assert s[k] in s;
    }
  }

  // ---------------------------------------------------------------------
  // Tokens

  /** A token as operator>> extracts it: non-empty, without white space. */
  ghost predicate IsWord(w: string) {
    w != [] && forall c :: c in w ==> !IsSpace(c)
  }

  /** The length of the run of non-white-space characters at the start of s. */
  function WordLength(s: string): (n: nat)
    ensures n <= |s|
    ensures forall k :: 0 <= k < n ==> !IsSpace(s[k])
    ensures n == |s| || IsSpace(s[n])
    decreases |s|
  {
    if s == [] || IsSpace(s[0]) then 0 else 1 + WordLength(s[1..])
  }

  /** The maximal runs of non-white-space characters of s, in order. */
  function Tokens(s: string): seq<string>
    decreases |s|
  {
    if s == [] then []
    else if IsSpace(s[0]) then Tokens(s[1..])
    else
      var n := WordLength(s);
      [s[..n]] + Tokens(s[n..])
  }

  /** White space at i starts no token: the tokens from i are those from i + 1. */
  lemma TokensAfterSpace(text: string, i: nat)
    requires i < |text| && IsSpace(text[i])
    ensures Tokens(text[i..]) == Tokens(text[i + 1..])
  {
    assert text[i..][1..] == text[i + 1..];
  }

  /** A maximal run text[i..j] is the first token from i, followed by the tokens from j. */
  lemma TokensAfterWord(text: string, i: nat, j: nat)
    requires i < j <= |text|
    requires forall m :: i <= m < j ==> !IsSpace(text[m])
    requires j == |text| || IsSpace(text[j])
    ensures Tokens(text[i..]) == [text[i..j]] + Tokens(text[j..])
  {
    var s := text[i..];
    WordLengthIs(s, j - i);
    assert s[..j - i] == text[i..j] && s[j - i..] == text[j..];
  }

  /** A run that ends at white space or at the end of s is the run WordLength measures. */
  lemma {:induction false} WordLengthIs(s: string, n: nat)
    requires n <= |s|
    requires forall k :: 0 <= k < n ==> !IsSpace(s[k])
    requires n == |s| || IsSpace(s[n])
    ensures WordLength(s) == n
    decreases n
  {
    if n > 0 {
      WordLengthIs(s[1..], n - 1);
    }
  }

  /** What follows a run that ends inside a does not change its length. */
  lemma {:induction false} WordLengthAppend(a: string, rest: string)
    requires WordLength(a) < |a| || (rest != [] && IsSpace(rest[0]))
    ensures WordLength(a + rest) == WordLength(a)
    decreases |a|
  {
    if a == [] {
      assert a + rest == rest;
    } else {
      assert (a + rest)[0] == a[0];
      if !IsSpace(a[0]) {
        assert (a + rest)[1..] == a[1..] + rest;
        WordLengthAppend(a[1..], rest);
      }
    }
  }

  /** Every token is a word, and every character of it comes from the text. */
  lemma {:induction false} TokensAreWords(s: string)
    ensures forall t :: t in Tokens(s) ==> IsWord(t)
    ensures forall t, c :: t in Tokens(s) && c in t ==> c in s
    decreases |s|
  {
    if s == [] {
    } else if IsSpace(s[0]) {
      TokensAreWords(s[1..]);
    } else {
      var n := WordLength(s);
      TokensAreWords(s[n..]);
      assert s == s[..n] + s[n..];
      forall c | c in s[..n] ensures !IsSpace(c) {
        var k :| 0 <= k < n && s[..n][k] == c;
      }
    }
  }

  /** Splitting at a white-space character: the tokens of the two sides, in order. */
  lemma {:induction false} TokensSplit(a: string, c: char, b: string)
    requires IsSpace(c)
    ensures Tokens(a + [c] + b) == Tokens(a) + Tokens(b)
    decreases |a|
  {
    var rest := [c] + b;
    var s := a + rest;
    assert a + [c] + b == s;
    assert rest[1..] == b;
    if a == [] {
      assert s == rest;
    } else if IsSpace(a[0]) {
      assert s[0] == a[0];
      assert s[1..] == a[1..] + [c] + b;
      TokensSplit(a[1..], c, b);
    } else {
      assert s[0] == a[0];
      var n := WordLength(a);
      WordLengthAppend(a, rest);
      assert s[..n] == a[..n];
      assert s[n..] == a[n..] + rest;
      if n < |a| {
        assert a[n..] + rest == a[n..] + [c] + b;
        TokensSplit(a[n..], c, b);
      } else {
        assert a[..n] == a && a[n..] == [];
        assert s[n..] == rest;
      }
    }
  }

  /** A single word is its own one token. */
  lemma TokensOfWord(w: string)
    requires IsWord(w)
    ensures Tokens(w) == [w]
  {
    assert forall k :: 0 <= k < |w| ==> w[k] in w;
    WordLengthIs(w, |w|);
    assert w[..|w|] == w && w[|w|..] == [];
  }

  /** Words written out with one space between each. */
  function Join(ws: seq<string>): string
    decreases |ws|
  {
    if ws == [] then []
    else if |ws| == 1 then ws[0]
    else ws[0] + " " + Join(ws[1..])
  }

  /** Tokenizing words joined by spaces gives the words back. */
  lemma {:induction false} TokensOfJoin(ws: seq<string>)
    requires forall w :: w in ws ==> IsWord(w)
    ensures Tokens(Join(ws)) == ws
    decreases |ws|
  {
    if ws == [] {
    } else if |ws| == 1 {
      TokensOfWord(ws[0]);
    } else {
      TokensOfWord(ws[0]);
      TokensOfJoin(ws[1..]);
      TokensSplit(ws[0], ' ', Join(ws[1..]));
      assert ws[0] + " " + Join(ws[1..]) == ws[0] + [' '] + Join(ws[1..]);
      assert ws == [ws[0]] + ws[1..];
    }
  }

  /** The text with its white space deleted. */
  function NonSpace(s: string): string
    decreases |s|
  {
    if s == [] then [] else (if IsSpace(s[0]) then [] else [s[0]]) + NonSpace(s[1..])
  }

  /** The tokens one after another. */
  function Concat(ts: seq<string>): string
    decreases |ts|
  {
    if ts == [] then [] else ts[0] + Concat(ts[1..])
  }

  lemma {:induction false} NonSpaceAppend(a: string, b: string)
    ensures NonSpace(a + b) == NonSpace(a) + NonSpace(b)
    decreases |a|
  {
    if a == [] {
      assert a + b == b;
    } else {
      assert (a + b)[0] == a[0];
      assert (a + b)[1..] == a[1..] + b;
      NonSpaceAppend(a[1..], b);
    }
  }

  lemma {:induction false} NonSpaceOfWord(w: string)
    requires forall k :: 0 <= k < |w| ==> !IsSpace(w[k])
    ensures NonSpace(w) == w
    decreases |w|
  {
    if w != [] {
      NonSpaceOfWord(w[1..]);
    }
  }

  /** The tokens put back together are the text without its white space. */
  lemma {:induction false} TokensConcat(s: string)
    ensures Concat(Tokens(s)) == NonSpace(s)
    decreases |s|
  {
    if s == [] {
    } else if IsSpace(s[0]) {
      TokensConcat(s[1..]);
    } else {
      var n := WordLength(s);
      TokensConcat(s[n..]);
      assert s == s[..n] + s[n..];
      NonSpaceAppend(s[..n], s[n..]);
      NonSpaceOfWord(s[..n]);
      assert ([s[..n]] + Tokens(s[n..]))[1..] == Tokens(s[n..]);
    }
  }

  /** Empty or all-white-space text, and only such text, has no tokens. */
  lemma NoTokens(s: string)
    ensures Tokens(s) == [] <==> forall c :: c in s ==> IsSpace(c)
  {
    TokensConcat(s);
    NonSpaceEmpty(s);
    TokensAreWords(s);
    if Tokens(s) != [] {
      assert Tokens(s)[0] in Tokens(s);
      assert Concat(Tokens(s)) == Tokens(s)[0] + Concat(Tokens(s)[1..]);
    }
  }

  lemma {:induction false} NonSpaceEmpty(s: string)
    ensures NonSpace(s) == [] <==> forall c :: c in s ==> IsSpace(c)
    decreases |s|
  {
    if s != [] {
      NonSpaceEmpty(s[1..]);
      assert forall c :: c in s <==> c == s[0] || c in s[1..];
    }
  }

  /** A punctuation mark between two texts splits their tokens apart, as a space would. */
  lemma PunctuationSeparates(a: string, p: char, b: string)
    requires !IsAlnum(p) && !IsSpace(p)
    ensures Tokens(Depunctuated(a + [p] + b)) == Tokens(Depunctuated(a)) + Tokens(Depunctuated(b))
  {
    assert Depunctuated(a + [p] + b) == Depunctuated(a) + [' '] + Depunctuated(b);
    TokensSplit(Depunctuated(a), ' ', Depunctuated(b));
  }

  /** The example of the header: "a,b" becomes the two tokens "a" and "b". */
  lemma CommaSeparatedExample()
    ensures Tokens(Depunctuated("a,b")) == ["a", "b"]
  {
    assert "a,b" == "a" + [','] + "b";
    PunctuationSeparates("a", ',', "b");
    assert Depunctuated("a") == "a" && Depunctuated("b") == "b";
    TokensOfWord("a");
    TokensOfWord("b");
  }

  // ---------------------------------------------------------------------
  // Stop words

  /** A token removeStopWords keeps: non-empty and not a stop word. */
  predicate Kept(t: string, stops: set<string>) {
    t !in stops && t != []
  }

  /** The tokens that are kept, in their order. */
  function WithoutStopWords(ts: seq<string>, stops: set<string>): seq<string>
    decreases |ts|
  {
    if ts == [] then []
    else
      var last := ts[|ts| - 1];
      WithoutStopWords(ts[..|ts| - 1], stops) + (if Kept(last, stops) then [last] else [])
  }

  /** Filtering a concatenation filters each part. */
  lemma {:induction false} WithoutStopWordsAppend(a: seq<string>, b: seq<string>, stops: set<string>)
    ensures WithoutStopWords(a + b, stops) == WithoutStopWords(a, stops) + WithoutStopWords(b, stops)
    decreases |b|
  {
    if b == [] {
      assert a + b == a;
    } else {
      var n := |b| - 1;
      assert (a + b)[..|a + b| - 1] == a + b[..n];
      WithoutStopWordsAppend(a, b[..n], stops);
    }
  }

  /** A token is in the output exactly when it is in the input and is kept; the output is no longer. */
  lemma {:induction false} WithoutStopWordsMembers(ts: seq<string>, stops: set<string>)
    ensures forall t :: t in WithoutStopWords(ts, stops) <==> t in ts && Kept(t, stops)
    ensures |WithoutStopWords(ts, stops)| <= |ts|
    decreases |ts|
  {
    if ts != [] {
      var n := |ts| - 1;
      WithoutStopWordsMembers(ts[..n], stops);
      assert ts == ts[..n] + [ts[n]];
      assert forall t :: t in ts <==> t in ts[..n] || t == ts[n];
    }
  }

  /** Removing stop words twice removes nothing more. */
  lemma {:induction false} WithoutStopWordsIdempotent(ts: seq<string>, stops: set<string>)
    ensures WithoutStopWords(WithoutStopWords(ts, stops), stops) == WithoutStopWords(ts, stops)
    decreases |ts|
  {
    if ts != [] {
      var n := |ts| - 1;
      var last := ts[n];
      WithoutStopWordsIdempotent(ts[..n], stops);
      var tail := if Kept(last, stops) then [last] else [];
      WithoutStopWordsAppend(WithoutStopWords(ts[..n], stops), tail, stops);
      if Kept(last, stops) {
        assert WithoutStopWords(tail, stops) == WithoutStopWords([], stops) + tail by {
          assert tail[..0] == [];
        }
      }
    }
  }

  // ---------------------------------------------------------------------
  // The whole pipeline

  /** preprocess: lower-case, blank the punctuation, tokenize, remove the stop words. */
  function Preprocessed(text: string, stops: set<string>): seq<string> {
    WithoutStopWords(Tokens(Depunctuated(Lowered(text))), stops)
  }

  /** Every token preprocessing yields is non-empty, made of lower-case letters and digits, and not a stop word. */
  lemma PreprocessedTokens(text: string, stops: set<string>)
    ensures forall t :: t in Preprocessed(text, stops) ==>
      t != [] && t !in stops && forall c :: c in t ==> IsLower(c) || IsDigit(c)
  {
    var lowered := Lowered(text);
    var blanked := Depunctuated(lowered);
    LoweredProperties(text);
    DepunctuatedProperties(lowered);
    DepunctuatedKeepsCase(lowered);
    TokensAreWords(blanked);
    WithoutStopWordsMembers(Tokens(blanked), stops);
  }

  // ---------------------------------------------------------------------
  // The class

  class TextCleaner {
    var stopWords: set<string>

    /** Loads the stop words; nothing else ever changes the set. */
    constructor ()
      ensures stopWords == StopWords()
    {
      stopWords := {};
      new;
      InitializeStopWords();
    }

    /** Inserts every listed word into the set. */
    method InitializeStopWords()
      modifies this`stopWords
      ensures stopWords == old(stopWords) + StopWords()
    {
      var words := StopWordList;
      for i := 0 to |words|
        invariant stopWords == old(stopWords) + set k | 0 <= k < i :: words[k]
      {
        stopWords := stopWords + {words[i]};
      }
      assert (set k | 0 <= k < |words| :: words[k]) == StopWords() by {
        forall w | w in StopWords() ensures w in set k | 0 <= k < |words| :: words[k] {
          var k :| 0 <= k < |words| && words[k] == w;
        }
      }
    }

    /** toLower: a copy of the text, transformed in place character by character. */
    method ToLower(text: string) returns (result: string)
      ensures result == Lowered(text)
    {
      result := text;
      var k := 0;
      while k < |result|
        invariant 0 <= k <= |result| == |text|
        invariant forall m :: 0 <= m < k ==> result[m] == CType.ToLower(text[m])
        invariant forall m :: k <= m < |text| ==> result[m] == text[m]
      {
        result := result[k := CType.ToLower(result[k])];
        k := k + 1;
      }
    }

    /** removePunctuation: appends each character, or a space in place of punctuation. */
    method RemovePunctuation(text: string) returns (result: string)
      ensures result == Depunctuated(text)
    {
      result := "";
      for k := 0 to |text|
        invariant |result| == k
        invariant forall m :: 0 <= m < k ==> result[m] == KeepOrBlank(text[m])
      {
        var c := text[k];
        if IsAlnum(c) || IsSpace(c) {
          result := result + [c];
        } else {
          result := result + [' '];
        }
      }
    }

    /**
     * tokenize: extraction with operator>> from a string stream, which
     * skips white space and then reads up to the next white space.
     */
    method Tokenize(text: string) returns (tokens: seq<string>)
      ensures tokens == Tokens(text)
    {
      tokens := [];
      var i := 0;
      while i < |text|
        invariant 0 <= i <= |text|
        invariant tokens + Tokens(text[i..]) == Tokens(text)
      {
        if IsSpace(text[i]) {
          TokensAfterSpace(text, i);
          i := i + 1;
        } else {
          var j := i;
          while j < |text| && !IsSpace(text[j])
            invariant i <= j <= |text|
            invariant forall m :: i <= m < j ==> !IsSpace(text[m])
          {
            j := j + 1;
          }
          TokensAfterWord(text, i, j);
          var token := text[i..j];
          if token != [] {
            tokens := tokens + [token];
          }
          i := j;
        }
      }
      assert text[|text|..] == [];
    }

    /** removeStopWords: keeps, in order, the non-empty tokens that are not stop words. */
    method RemoveStopWords(tokens: seq<string>) returns (filtered: seq<string>)
      ensures filtered == WithoutStopWords(tokens, stopWords)
    {
      filtered := [];
      for k := 0 to |tokens|
        invariant filtered == WithoutStopWords(tokens[..k], stopWords)
      {
        assert tokens[..k + 1][..k] == tokens[..k];
        var token := tokens[k];
        if token !in stopWords && token != [] {
          filtered := filtered + [token];
        }
      }
      assert tokens[..|tokens|] == tokens;
    }

    /** preprocess: the four steps in order; what comes out is clean. */
    method Preprocess(text: string) returns (cleaned: seq<string>)
      ensures cleaned == Preprocessed(text, stopWords)
      ensures forall t :: t in cleaned ==>
        t != [] && t !in stopWords && forall c :: c in t ==> IsLower(c) || IsDigit(c)
    {
      var lowerText := ToLower(text);
      var noPunct := RemovePunctuation(lowerText);
      var tokens := Tokenize(noPunct);
      cleaned := RemoveStopWords(tokens);
      PreprocessedTokens(text, stopWords);
    }
  }
}
