/**
 * Character classification and case mapping of <ctype.h> in the "C" locale
 * (ISO/IEC 9899, section 7.4). Only the 128 ASCII codes belong to a class;
 * every other character is neither alphanumeric nor white space, and
 * `tolower` leaves it unchanged.
 */
module CType {

  /** isupper: 'A'..'Z'. */
  predicate IsUpper(c: char) {
    'A' <= c <= 'Z'
  }

  /** islower: 'a'..'z'. */
  predicate IsLower(c: char) {
    'a' <= c <= 'z'
  }

  /** isdigit: '0'..'9'. */
  predicate IsDigit(c: char) {
    '0' <= c <= '9'
  }

  /** isalpha in the "C" locale: exactly the upper- and lower-case letters. */
  predicate IsAlpha(c: char) {
    IsUpper(c) || IsLower(c)
  }

  /** isalnum: a letter or a decimal digit. */
  predicate IsAlnum(c: char) {
    IsAlpha(c) || IsDigit(c)
  }

  /** isspace in the "C" locale: space, '\t', '\n', '\v', '\f' and '\r' (codes 9 to 13). */
  predicate IsSpace(c: char) {
    c == ' ' || '\t' <= c <= '\r'
  }

  /** tolower: an upper-case letter becomes its lower-case letter, anything else is unchanged. */
  function ToLower(c: char): (r: char)
    ensures IsUpper(c) ==> IsLower(r) && r as int == c as int + 32
    ensures !IsUpper(c) ==> r == c
  {
    if IsUpper(c) then (c as int + 32) as char else c
  }

  /** tolower never yields an upper-case letter, keeps the character's class, and is idempotent. */
  lemma ToLowerProperties(c: char)
    ensures !IsUpper(ToLower(c))
    ensures IsAlnum(ToLower(c)) <==> IsAlnum(c)
    ensures IsSpace(ToLower(c)) <==> IsSpace(c)
    ensures ToLower(ToLower(c)) == ToLower(c)
  {
  }
}
