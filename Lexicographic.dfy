/**
 * The ordering `std::string::operator<` puts on strings (lexicographic on
 * character codes, a proper prefix first), and the strictly increasing
 * sequences that an ordered `std::set<std::string>` enumerates.
 */
module Lexicographic {

  /** a < b as std::string compares them. */
  predicate Less(a: string, b: string)
    decreases |a|
  {
    if a == [] then b != []
    else if b == [] then false
    else a[0] < b[0] || (a[0] == b[0] && Less(a[1..], b[1..]))
  }

  lemma {:induction false} LessIrreflexive(a: string)
    ensures !Less(a, a)
    decreases |a|
  {
    if a != [] {
      LessIrreflexive(a[1..]);
    }
  }

  lemma {:induction false} LessTransitive(a: string, b: string, c: string)
    requires Less(a, b) && Less(b, c)
    ensures Less(a, c)
    decreases |a|
  {
    if a != [] && b != [] && c != [] && a[0] == b[0] == c[0] {
      LessTransitive(a[1..], b[1..], c[1..]);
    }
  }

  /** Two different strings are always ordered one way or the other. */
  lemma {:induction false} LessTotal(a: string, b: string)
    requires a != b
    ensures Less(a, b) || Less(b, a)
    decreases |a|
  {
    if a != [] && b != [] && a[0] == b[0] {
      assert a == [a[0]] + a[1..] && b == [b[0]] + b[1..];
      LessTotal(a[1..], b[1..]);
    }
  }

  lemma {:induction false} LessAsymmetric(a: string, b: string)
    requires Less(a, b)
    ensures !Less(b, a)
  {
    if Less(b, a) {
      LessTransitive(a, b, a);
      LessIrreflexive(a);
    }
  }

  /** Every element is smaller than every later one: sorted and without duplicates. */
  ghost predicate StrictlySorted(s: seq<string>) {
    forall i, j :: 0 <= i < j < |s| ==> Less(s[i], s[j])
  }

  /** A strictly sorted sequence holds no element twice. */
  lemma SortedDistinct(s: seq<string>)
    requires StrictlySorted(s)
    ensures forall i, j :: 0 <= i < j < |s| ==> s[i] != s[j]
  {
    forall i, j | 0 <= i < j < |s| ensures s[i] != s[j] {
      LessIrreflexive(s[i]);
    }
  }

  /**
   * std::set<std::string>::insert on the set's ordered enumeration: the word
   * joins at its place in the order, and nothing happens if it is there already.
   */
  function Insert(s: seq<string>, w: string): (r: seq<string>)
    requires StrictlySorted(s)
    ensures StrictlySorted(r)
    ensures forall x :: x in r <==> x in s || x == w
    ensures |r| == if w in s then |s| else |s| + 1
    decreases |s|
  {
    if s == [] then [w]
    else if w == s[0] then s
    else if Less(w, s[0]) then
      LessTransitiveFrom(w, s);
      [w] + s
    else
      LessTotal(w, s[0]);
      var rest := Insert(s[1..], w);
      assert forall x :: x in s[1..] ==> Less(s[0], x) by {
        forall x | x in s[1..] ensures Less(s[0], x) {
          var k :| 0 <= k < |s[1..]| && s[1..][k] == x;
          assert s[k + 1] == x;
        }
      }
      assert w !in s[1..] ==> w !in s;
      [s[0]] + rest
  }

  /** A word below the first element of a strictly sorted sequence is below all of it. */
  lemma LessTransitiveFrom(w: string, s: seq<string>)
    requires StrictlySorted(s) && s != [] && Less(w, s[0])
    ensures StrictlySorted([w] + s) && w !in s
  {
    forall j | 1 <= j < |s| ensures Less(w, s[j]) {
      LessTransitive(w, s[0], s[j]);
    }
    SortedDistinct([w] + s);
    forall k | 0 <= k < |s| ensures s[k] != w {
      assert ([w] + s)[0] == w && ([w] + s)[k + 1] == s[k];
    }
  }

  lemma HeadIsMember(s: seq<string>)
    ensures s != [] ==> s[0] in s
  {
  }

  /**
   * A strictly sorted sequence is determined by its elements: the ordered
   * enumeration of a set is unique.
   */
  lemma {:induction false} SortedUnique(s: seq<string>, t: seq<string>)
    requires StrictlySorted(s) && StrictlySorted(t)
    requires forall x :: x in s <==> x in t
    ensures s == t
    decreases |s|
  {
    if s == [] || t == [] {
      HeadIsMember(s);
      HeadIsMember(t);
    } else {
      if s[0] != t[0] {
        assert s[0] in t;
        var k :| 0 <= k < |t| && t[k] == s[0];
        assert t[0] in s;
        var m :| 0 <= m < |s| && s[m] == t[0];
        assert Less(t[0], s[0]);
        assert Less(s[0], t[0]);
        LessAsymmetric(s[0], t[0]);
      }
      forall x ensures x in s[1..] <==> x in t[1..] {
        SortedDistinct(s);
        SortedDistinct(t);
        if x in s[1..] {
          var k :| 0 <= k < |s[1..]| && s[1..][k] == x;
          assert x == s[k + 1] != s[0];
          assert x in t;
        }
        if x in t[1..] {
          var k :| 0 <= k < |t[1..]| && t[1..][k] == x;
          assert x == t[k + 1] != t[0];
          assert x in s;
        }
      }
      SortedUnique(s[1..], t[1..]);
      assert s == [s[0]] + s[1..] && t == [t[0]] + t[1..];
    }
  }
}
