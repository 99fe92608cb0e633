/**
 * The password generator. Randomness is not modelled: every `random.choice`
 * is an arbitrary pick from its alphabet and every index `random.shuffle`
 * draws is an arbitrary index in range, so each `ensures` below holds for
 * every outcome of the random source.
 */
module Generator {
  import opened CharClasses
  import Scorer

  /** The length actually produced: a request below 8 becomes 12. */
  function EffectiveLength(length: int): (n: nat)
    ensures length >= 8 ==> n == length
    ensures length < 8 ==> n == 12
    ensures n >= 8
  {
    if length < 8 then 12 else length
  }

  /** Every character of `s` is one the union alphabet holds. */
  predicate FromAlphabet(s: string) {
    forall i :: 0 <= i < |s| ==> InAlphabet(s[i])
  }

  /** `s` holds a character of each of the four classes. */
  predicate HasEveryClass(s: string) {
    HasClass(s, Lower) && HasClass(s, Upper) && HasClass(s, Digit) && HasClass(s, Special)
  }

  /** The list before shuffling: one lower, one upper, one digit, one special, then filler from the union. */
  predicate WellDrawn(drawn: string, n: nat) {
    |drawn| == n && n >= 4 &&
    InClass(drawn[0], Lower) && InClass(drawn[1], Upper) && InClass(drawn[2], Digit) && InClass(drawn[3], Special) &&
    FromAlphabet(drawn[4..])
  }

  /**
   * Shuffles `a` in place as Python's `random.shuffle` does: for `i` from the
   * last index down to 1, swap `a[i]` with `a[j]` for some `j` in `0..i`.
   */
  method Shuffle<T>(a: array<T>)
    modifies a
    ensures multiset(a[..]) == old(multiset(a[..]))
  {
    var i := a.Length - 1;
    while i > 0
      invariant i < a.Length
      invariant multiset(a[..]) == old(multiset(a[..]))
    {
      var j :| 0 <= j <= i;
      a[i], a[j] := a[j], a[i];
      i := i - 1;
    }
  }

  /** Picks some character of a non-empty alphabet, as `random.choice` does. */
  method Choice(alphabet: string) returns (c: char)
    requires |alphabet| > 0
    ensures c in alphabet
  {
    var i :| 0 <= i < |alphabet|;
    c := alphabet[i];
  }

  /**
   * Generates a password of `EffectiveLength(length)` characters. `drawn` is
   * the list as it stands before the shuffle.
   */
  method GenerateStrongPassword(length: int := 12) returns (password: string, ghost drawn: string)
    ensures WellDrawn(drawn, EffectiveLength(length))
    ensures multiset(password) == multiset(drawn)
    ensures |password| == EffectiveLength(length)
    ensures HasEveryClass(password)
    ensures FromAlphabet(password)
  {
    var n := length;
    if n < 8 {
      n := 12;
    }
    var lower := Choice(Lowercase);
    var upper := Choice(Uppercase);
    var digit := Choice(Digits);
    var special := Choice(Specials);
    LowercaseMatchesClass(lower);
    UppercaseMatchesClass(upper);
    DigitsMatchClass(digit);
    SpecialsMatchClass(special);
    var chosen := [lower, upper, digit, special];

    var filler: string := [];
    while |filler| < n - 4
      invariant |filler| <= n - 4
      invariant FromAlphabet(filler)
    {
      var c := Choice(Chars);
      CharsMembership(c);
      filler := filler + [c];
    }
    chosen := chosen + filler;
    assert chosen[4..] == filler;
    drawn := chosen;

    var buffer := new char[|chosen|](i requires 0 <= i < |chosen| => chosen[i]);
    assert buffer[..] == chosen;
    Shuffle(buffer);
    password := buffer[..];

    WellDrawnProperties(drawn, n, password);
  }

  /** A shuffle of a well-drawn list has the right length, every class, and only alphabet characters. */
  lemma WellDrawnProperties(drawn: string, n: nat, password: string)
    requires WellDrawn(drawn, n)
    requires multiset(password) == multiset(drawn)
    ensures |password| == n
    ensures HasEveryClass(password)
    ensures FromAlphabet(password)
  {
    assert |password| == |multiset(password)| == |multiset(drawn)| == n;
    ShuffleKeepsClasses(drawn, password);
    ShuffleKeepsAlphabet(drawn, password);
  }

  lemma ShuffleKeepsClasses(drawn: string, password: string)
    requires |drawn| >= 4
    requires InClass(drawn[0], Lower) && InClass(drawn[1], Upper) && InClass(drawn[2], Digit) && InClass(drawn[3], Special)
    requires multiset(password) == multiset(drawn)
    ensures HasEveryClass(password)
  {
    ShuffleKeeps(drawn, password, 0, Lower);
    ShuffleKeeps(drawn, password, 1, Upper);
    ShuffleKeeps(drawn, password, 2, Digit);
    ShuffleKeeps(drawn, password, 3, Special);
  }

  lemma ShuffleKeepsAlphabet(drawn: string, password: string)
    requires |drawn| >= 4
    requires InClass(drawn[0], Lower) && InClass(drawn[1], Upper) && InClass(drawn[2], Digit) && InClass(drawn[3], Special)
    requires FromAlphabet(drawn[4..])
    requires multiset(password) == multiset(drawn)
    ensures FromAlphabet(password)
  {
    assert FromAlphabet(drawn) by {
      forall k | 4 <= k < |drawn| ensures InAlphabet(drawn[k]) {
        assert drawn[k] == drawn[4..][k - 4];
      }
    }
    forall i | 0 <= i < |password| ensures InAlphabet(password[i]) {
      assert password[i] in multiset(drawn);
      var k :| 0 <= k < |drawn| && drawn[k] == password[i];
    }
  }

  /** A character of a class at position `k` of `drawn` is still somewhere in its permutation. */
  lemma ShuffleKeeps(drawn: string, password: string, k: nat, cls: CharClass)
    requires k < |drawn| && InClass(drawn[k], cls)
    requires multiset(password) == multiset(drawn)
    ensures HasClass(password, cls)
  {
    assert drawn[k] in multiset(password);
    var i :| 0 <= i < |password| && password[i] == drawn[k];
  }

  /** Every password the generator can produce passes all four rules and is not on the blocklist: it scores 4 with no suggestions. */
  lemma GeneratedPasswordIsStrong(password: string)
    requires |password| >= 8 && HasEveryClass(password)
    ensures !Scorer.IsCommon(password)
    ensures Scorer.ExpectedScore(password) == 4
    ensures Scorer.ExpectedFeedback(password) == []
  {
    var i :| 0 <= i < |password| && InClass(password[i], Special);
    var low := ToLower(password);
    LowerCharKeepsSpecial(password[i]);
    assert InClass(low[i], Special);
    if low in Scorer.CommonPasswords {
      Scorer.BlocklistHasNoSpecials(low);
      assert false;
    }
    Scorer.RulesUnfold(password);
  }
}
