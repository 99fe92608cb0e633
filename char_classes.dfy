/**
 * The four character classes of the password meter, shared by the scorer
 * (which looks for them with regular-expression searches) and by the
 * generator (which draws from their literal alphabets).
 *
 * Only ASCII is modelled: the digit class is 0-9 and lower-casing maps
 * A-Z to a-z and leaves every other character alone.
 */
module CharClasses {

  datatype CharClass = Lower | Upper | Digit | Special

  /** The literal alphabets the generator draws from. */
  const Lowercase: string := "abcdefghijklmnopqrstuvwxyz"
  const Uppercase: string := "ABCDEFGHIJKLMNOPQRSTUVWXYZ"
  const Digits: string := "0123456789"
  const Specials: string := "!@#$%^&*"

  /** The union alphabet used for the filler characters. */
  const Chars: string := Lowercase + Uppercase + Digits + Specials

  /** Membership in a class, as the scorer's patterns `[a-z]`, `[A-Z]`, `\d`, `[!@#$%^&*]` test it. */
  predicate InClass(c: char, k: CharClass) {
    match k
    case Lower => 'a' <= c <= 'z'
    case Upper => 'A' <= c <= 'Z'
    case Digit => '0' <= c <= '9'
    case Special => c == '!' || c == '@' || c == '#' || c == '$' || c == '%' || c == '^' || c == '&' || c == '*'
  }

  /** The alphabet of a class, as the generator spells it out. */
  function Members(k: CharClass): string {
    match k
    case Lower => Lowercase
    case Upper => Uppercase
    case Digit => Digits
    case Special => Specials
  }

  /** A character of one of the four classes, that is, of the union alphabet. */
  predicate InAlphabet(c: char) {
    InClass(c, Lower) || InClass(c, Upper) || InClass(c, Digit) || InClass(c, Special)
  }

  /** Some character of `s` belongs to class `k`. */
  predicate HasClass(s: string, k: CharClass) {
    exists i :: 0 <= i < |s| && InClass(s[i], k)
  }

  /** Scans `s` from the left for a character of class `k`, as `re.search` does with a one-character class. */
  function Search(s: string, k: CharClass): (found: bool)
    ensures found <==> HasClass(s, k)
  {
    if s == [] then false
    else if InClass(s[0], k) then
      assert InClass(s[0], k) && 0 < |s|;
      true
    else
      var rest := Search(s[1..], k);
      assert forall i :: 0 < i < |s| ==> s[i] == s[1..][i - 1];
      assert rest ==> exists i :: 0 <= i < |s[1..]| && InClass(s[1..][i], k);
      rest
  }

  /** Position `i` of the upper-case alphabet holds the `i`-th letter from 'A', and likewise for lower case. */
  lemma AlphabetsAligned()
    ensures forall i :: 0 <= i < |Uppercase| ==> Uppercase[i] as int == 'A' as int + i
    ensures forall i :: 0 <= i < |Lowercase| ==> Lowercase[i] as int == 'a' as int + i
  {
  }

  /** ASCII lower-casing of one character: each upper-case letter becomes its own lower-case letter. */
  function LowerChar(c: char): (r: char)
    ensures forall i :: 0 <= i < |Uppercase| && c == Uppercase[i] ==> r == Lowercase[i]
    ensures !InClass(c, Upper) ==> r == c
  {
    AlphabetsAligned();
    if 'A' <= c <= 'Z' then (c as int - 'A' as int + 'a' as int) as char else c
  }

  /** ASCII upper-casing of one character: each lower-case letter becomes its own upper-case letter. */
  function UpperChar(c: char): (r: char)
    ensures forall i :: 0 <= i < |Lowercase| && c == Lowercase[i] ==> r == Uppercase[i]
    ensures !InClass(c, Lower) ==> r == c
  {
    AlphabetsAligned();
    if 'a' <= c <= 'z' then (c as int - 'a' as int + 'A' as int) as char else c
  }

  /** `p` spells `w`, each letter of `w` possibly written in upper case. */
  predicate MatchesIgnoringCase(p: string, w: string) {
    |p| == |w| && forall i :: 0 <= i < |p| ==> p[i] == w[i] || p[i] == UpperChar(w[i])
  }

  /** ASCII lower-casing of a string, character by character. */
  function ToLower(s: string): (r: string)
    ensures |r| == |s|
    ensures forall i :: 0 <= i < |s| ==> r[i] == LowerChar(s[i])
  {
    seq(|s|, i requires 0 <= i < |s| => LowerChar(s[i]))
  }

  /** Each character of the lower-case alphabet matches `[a-z]`, and every match is in it. */
  lemma LowercaseMatchesClass(c: char)
    ensures c in Lowercase <==> InClass(c, Lower)
  {
  }

  lemma UppercaseMatchesClass(c: char)
    ensures c in Uppercase <==> InClass(c, Upper)
  {
  }

  lemma DigitsMatchClass(c: char)
    ensures c in Digits <==> InClass(c, Digit)
  {
  }

  lemma SpecialsMatchClass(c: char)
    ensures c in Specials <==> InClass(c, Special)
  {
  }

  /** The literal alphabet of each class holds exactly the characters its pattern matches. */
  lemma MembersMatchClass(c: char, k: CharClass)
    ensures c in Members(k) <==> InClass(c, k)
  {
    match k
    case Lower => LowercaseMatchesClass(c);
    case Upper => UppercaseMatchesClass(c);
    case Digit => DigitsMatchClass(c);
    case Special => SpecialsMatchClass(c);
  }

  /** The union alphabet holds exactly the characters of the four classes. */
  lemma CharsMembership(c: char)
    ensures c in Chars <==> InAlphabet(c)
  {
    LowercaseMatchesClass(c);
    UppercaseMatchesClass(c);
    DigitsMatchClass(c);
    SpecialsMatchClass(c);
  }

  /** Lower-casing a password gives a word without capitals exactly when the password spells that word in any mix of cases. */
  lemma ToLowerMatch(p: string, w: string)
    requires forall i :: 0 <= i < |w| ==> !InClass(w[i], Upper)
    ensures ToLower(p) == w <==> MatchesIgnoringCase(p, w)
  {
    AlphabetsAligned();
    if ToLower(p) == w {
      forall i | 0 <= i < |p| ensures p[i] == w[i] || p[i] == UpperChar(w[i]) {
        assert w[i] == LowerChar(p[i]);
      }
    }
    if MatchesIgnoringCase(p, w) {
      forall i | 0 <= i < |p| ensures ToLower(p)[i] == w[i] {
        assert ToLower(p)[i] == LowerChar(p[i]);
      }
    }
  }

  /** Lower-casing never changes whether a character is special. */
  lemma LowerCharKeepsSpecial(c: char)
    ensures InClass(LowerChar(c), Special) <==> InClass(c, Special)
  {
  }
}
