/**
 * The password scorer: four structural rules, each worth a point or a
 * suggestion, followed by a case-insensitive blocklist check that adds a
 * warning and caps the score at 2.
 *
 * `ExpectedScore` and `ExpectedFeedback` give the result declaratively, from
 * the list of rules; `CheckPasswordStrength` computes it step by step as the
 * program does and is proved to agree with them.
 */
module Scorer {
  import opened CharClasses

  /** The structural rules, in the order they are evaluated. */
  datatype Rule = MinLength | MixedCase | HasDigit | HasSpecial

  const Rules: seq<Rule> := [MinLength, MixedCase, HasDigit, HasSpecial]

  const MinLengthMsg: string := "Password should be at least 8 characters long."
  const MixedCaseMsg: string := "Use both uppercase and lowercase letters."
  const DigitMsg: string := "Add at least one digit (0-9)."
  const SpecialMsg: string := "Include at least one special character (!@#$%^&*)."
  const TooCommonMsg: string := "This password is too common."

  /** The blocklist, compared against the lower-cased password as a whole. */
  const CommonPasswords: seq<string> := ["password", "123456", "qwerty", "password123", "admin"]

  predicate Satisfies(password: string, r: Rule) {
    match r
    case MinLength => |password| >= 8
    case MixedCase => HasClass(password, Upper) && HasClass(password, Lower)
    case HasDigit => HasClass(password, Digit)
    case HasSpecial => HasClass(password, Special)
  }

  /** The suggestion a failed rule adds. */
  function Suggestion(r: Rule): string {
    match r
    case MinLength => MinLengthMsg
    case MixedCase => MixedCaseMsg
    case HasDigit => DigitMsg
    case HasSpecial => SpecialMsg
  }

  /** Where a message stands in evaluation order: the four rules, then the blocklist; -1 for any other text. */
  function Position(msg: string): int {
    if msg == MinLengthMsg then 0
    else if msg == MixedCaseMsg then 1
    else if msg == DigitMsg then 2
    else if msg == SpecialMsg then 3
    else if msg == TooCommonMsg then 4
    else -1
  }

  function RuleIndex(r: Rule): nat {
    match r
    case MinLength => 0
    case MixedCase => 1
    case HasDigit => 2
    case HasSpecial => 3
  }

  /** The blocklist check: the lower-cased password equals an entry, that is, the password spells an entry in any mix of cases. */
  predicate IsCommon(password: string)
    ensures IsCommon(password) <==> exists w :: w in CommonPasswords && MatchesIgnoringCase(password, w)
  {
    BlocklistIgnoresCase(password);
    ToLower(password) in CommonPasswords
  }

  /** No blocklist entry contains a capital letter, so lower-casing can reach each of them. */
  lemma BlocklistHasNoCapitals(w: string)
    requires w in CommonPasswords
    ensures forall i :: 0 <= i < |w| ==> !InClass(w[i], Upper)
  {
  }

  /** No blocklist entry contains a special character. */
  lemma BlocklistHasNoSpecials(w: string)
    requires w in CommonPasswords
    ensures !HasClass(w, Special)
  {
  }

  /** Matching the lower-cased password against the blocklist is a case-insensitive whole-string match. */
  lemma BlocklistIgnoresCase(password: string)
    ensures ToLower(password) in CommonPasswords <==> exists w :: w in CommonPasswords && MatchesIgnoringCase(password, w)
  {
    forall w | w in CommonPasswords
      ensures ToLower(password) == w <==> MatchesIgnoringCase(password, w)
    {
      BlocklistHasNoCapitals(w);
      ToLowerMatch(password, w);
    }
  }

  /** The number of rules of `rs` that the password satisfies. */
  function Passed(password: string, rs: seq<Rule>): nat {
    if rs == [] then 0
    else (if Satisfies(password, rs[0]) then 1 else 0) + Passed(password, rs[1..])
  }

  /** The suggestions of the rules of `rs` that the password fails, in the order of `rs`. */
  function Unmet(password: string, rs: seq<Rule>): seq<string> {
    if rs == [] then []
    else (if Satisfies(password, rs[0]) then [] else [Suggestion(rs[0])]) + Unmet(password, rs[1..])
  }

  /** The score before the blocklist check. */
  function StructuralScore(password: string): nat {
    Passed(password, Rules)
  }

  function ExpectedScore(password: string): int {
    var s := StructuralScore(password);
    if IsCommon(password) then (if s < 2 then s else 2) else s
  }

  function ExpectedFeedback(password: string): seq<string> {
    Unmet(password, Rules) + (if IsCommon(password) then [TooCommonMsg] else [])
  }

  /** Scores a password: one point per satisfied rule, one suggestion per failed rule, then the blocklist. */
  method CheckPasswordStrength(password: string) returns (score: int, feedback: seq<string>)
    ensures score == ExpectedScore(password)
    ensures feedback == ExpectedFeedback(password)
  {
    RulesUnfold(password);
    score := 0;
    feedback := [];

    if |password| >= 8 {
      score := score + 1;
    } else {
      feedback := feedback + [MinLengthMsg];
    }

    if Search(password, Upper) && Search(password, Lower) {
      score := score + 1;
    } else {
      feedback := feedback + [MixedCaseMsg];
    }

    if Search(password, Digit) {
      score := score + 1;
    } else {
      feedback := feedback + [DigitMsg];
    }

    if Search(password, Special) {
      score := score + 1;
    } else {
      feedback := feedback + [SpecialMsg];
    }
    assert score == StructuralScore(password) && feedback == Unmet(password, Rules);

    if ToLower(password) in CommonPasswords {
      feedback := feedback + [TooCommonMsg];
      score := if score < 2 then score else 2;
    }
  }

  /** The rule list, unrolled: what the four `if` statements of the scorer compute one after another. */
  lemma RulesUnfold(password: string)
    ensures Passed(password, Rules) ==
      (if Satisfies(password, MinLength) then 1 else 0) + (if Satisfies(password, MixedCase) then 1 else 0) +
      (if Satisfies(password, HasDigit) then 1 else 0) + (if Satisfies(password, HasSpecial) then 1 else 0)
    ensures Unmet(password, Rules) ==
      (if Satisfies(password, MinLength) then [] else [MinLengthMsg]) +
      (if Satisfies(password, MixedCase) then [] else [MixedCaseMsg]) +
      (if Satisfies(password, HasDigit) then [] else [DigitMsg]) +
      (if Satisfies(password, HasSpecial) then [] else [SpecialMsg])
  {
    var r1, r2, r3: seq<Rule> := [MixedCase, HasDigit, HasSpecial], [HasDigit, HasSpecial], [HasSpecial];
    assert Rules[1..] == r1 && r1[1..] == r2 && r2[1..] == r3 && r3[1..] == [];
    assert Passed(password, r3) == (if Satisfies(password, HasSpecial) then 1 else 0);
    assert Unmet(password, r3) == (if Satisfies(password, HasSpecial) then [] else [SpecialMsg]);
    assert Passed(password, r2) == (if Satisfies(password, HasDigit) then 1 else 0) + Passed(password, r3);
    assert Unmet(password, r2) == (if Satisfies(password, HasDigit) then [] else [DigitMsg]) + Unmet(password, r3);
    assert Passed(password, r1) == (if Satisfies(password, MixedCase) then 1 else 0) + Passed(password, r2);
    assert Unmet(password, r1) == (if Satisfies(password, MixedCase) then [] else [MixedCaseMsg]) + Unmet(password, r2);
  }

  // ---------------------------------------------------------------------
  // Properties of the rule evaluation

  /** Every rule either adds a point or adds one suggestion, never both, never neither. */
  lemma {:induction false} PassedPlusUnmet(password: string, rs: seq<Rule>)
    ensures Passed(password, rs) + |Unmet(password, rs)| == |rs|
  {
    if rs != [] {
      PassedPlusUnmet(password, rs[1..]);
    }
  }

  /** A rule's suggestion is present exactly when the rule is listed and failed. */
  lemma {:induction false} UnmetMembership(password: string, rs: seq<Rule>, r: Rule)
    ensures Suggestion(r) in Unmet(password, rs) <==> r in rs && !Satisfies(password, r)
  {
    if rs != [] {
      UnmetMembership(password, rs[1..], r);
      assert rs == [rs[0]] + rs[1..];
    }
  }

  /** When every listed rule comes after position `b`, so do all their suggestions. */
  lemma {:induction false} UnmetAbove(password: string, rs: seq<Rule>, b: int)
    requires forall k :: 0 <= k < |rs| ==> b < RuleIndex(rs[k])
    ensures forall i :: 0 <= i < |Unmet(password, rs)| ==> b < Position(Unmet(password, rs)[i]) <= 3
  {
    if rs != [] {
      UnmetAbove(password, rs[1..], b);
      var head := if Satisfies(password, rs[0]) then [] else [Suggestion(rs[0])];
      var tail := Unmet(password, rs[1..]);
      var u := Unmet(password, rs);
      assert u == head + tail;
      forall i | 0 <= i < |u| ensures b < Position(u[i]) <= 3 {
        if i >= |head| {
          assert u[i] == tail[i - |head|];
        }
      }
    }
  }

  /** Rules listed in evaluation order give suggestions in evaluation order. */
  predicate InRuleOrder(rs: seq<Rule>) {
    forall i, j :: 0 <= i < j < |rs| ==> RuleIndex(rs[i]) < RuleIndex(rs[j])
  }

  predicate StrictlyOrdered(msgs: seq<string>) {
    forall i, j :: 0 <= i < j < |msgs| ==> 0 <= Position(msgs[i]) < Position(msgs[j])
  }

  lemma {:induction false} UnmetOrdered(password: string, rs: seq<Rule>)
    requires InRuleOrder(rs)
    ensures StrictlyOrdered(Unmet(password, rs))
    ensures forall i :: 0 <= i < |Unmet(password, rs)| ==> 0 <= Position(Unmet(password, rs)[i]) <= 3
  {
    UnmetAbove(password, rs, -1);
    if rs != [] {
      var rest := rs[1..];
      assert InRuleOrder(rest) by {
        forall i, j | 0 <= i < j < |rest| ensures RuleIndex(rest[i]) < RuleIndex(rest[j]) {
          assert rest[i] == rs[i + 1] && rest[j] == rs[j + 1];
        }
      }
      UnmetOrdered(password, rest);
      assert forall k :: 0 <= k < |rest| ==> RuleIndex(rs[0]) < RuleIndex(rest[k]) by {
        forall k | 0 <= k < |rest| ensures RuleIndex(rs[0]) < RuleIndex(rest[k]) {
          assert rest[k] == rs[k + 1];
        }
      }
      UnmetAbove(password, rest, RuleIndex(rs[0]));
      var tail := Unmet(password, rest);
      var head := if Satisfies(password, rs[0]) then [] else [Suggestion(rs[0])];
      var u := Unmet(password, rs);
      assert u == head + tail;
      if head != [] {
        OrderedCons(Suggestion(rs[0]), tail);
      } else {
        assert u == tail;
      }
    }
  }

  /** A strictly ordered list stays strictly ordered when a message placed before all of it is put in front. */
  lemma OrderedCons(msg: string, tail: seq<string>)
    requires 0 <= Position(msg)
    requires StrictlyOrdered(tail)
    requires forall j :: 0 <= j < |tail| ==> Position(msg) < Position(tail[j])
    ensures StrictlyOrdered([msg] + tail)
  {
    var u := [msg] + tail;
    forall i, j | 0 <= i < j < |u| ensures 0 <= Position(u[i]) < Position(u[j]) {
      assert u[j] == tail[j - 1];
      if 0 < i {
        assert u[i] == tail[i - 1];
      }
    }
  }

  lemma RulesInOrder()
    ensures InRuleOrder(Rules)
  {
  }

  // ---------------------------------------------------------------------
  // Properties of the scorer's result

  /** Before the blocklist check, score and suggestions together account for all four rules. */
  lemma StructuralBalance(password: string)
    ensures StructuralScore(password) + |Unmet(password, Rules)| == 4
  {
    PassedPlusUnmet(password, Rules);
  }

  /** The score always lies in 0..4. */
  lemma ScoreInRange(password: string)
    ensures 0 <= ExpectedScore(password) <= 4
  {
    PassedPlusUnmet(password, Rules);
  }

  /** Suggestions come in rule order, with the blocklist message, if any, last; no message repeats. */
  lemma FeedbackOrdered(password: string)
    ensures StrictlyOrdered(ExpectedFeedback(password))
  {
    RulesInOrder();
    UnmetOrdered(password, Rules);
    var u := Unmet(password, Rules);
    var f := ExpectedFeedback(password);
    forall i, j | 0 <= i < j < |f| ensures 0 <= Position(f[i]) < Position(f[j]) {
      if j < |u| {
        assert f[i] == u[i] && f[j] == u[j];
      } else {
        assert f[i] == u[i] && f[j] == TooCommonMsg;
      }
    }
  }

  /** A rule's suggestion is in the feedback exactly when the password fails that rule. */
  lemma FeedbackNamesFailedRules(password: string, r: Rule)
    ensures Suggestion(r) in ExpectedFeedback(password) <==> !Satisfies(password, r)
  {
    UnmetMembership(password, Rules, r);
    assert r in Rules;
  }

  /** On a blocklisted password the score is capped at 2 and the warning is the last suggestion;
      otherwise the score counts the satisfied rules and there is no warning. */
  lemma BlocklistClamp(password: string)
    ensures IsCommon(password) ==>
      ExpectedScore(password) <= 2 &&
      ExpectedScore(password) == (if StructuralScore(password) < 2 then StructuralScore(password) else 2) &&
      |ExpectedFeedback(password)| > 0 &&
      ExpectedFeedback(password)[|ExpectedFeedback(password)| - 1] == TooCommonMsg
    ensures !IsCommon(password) ==>
      ExpectedScore(password) == StructuralScore(password) &&
      ExpectedScore(password) + |ExpectedFeedback(password)| == 4 &&
      TooCommonMsg !in ExpectedFeedback(password)
  {
    PassedPlusUnmet(password, Rules);
    RulesInOrder();
    UnmetOrdered(password, Rules);
  }

  // ---------------------------------------------------------------------
  // Worked cases

  /** The empty password fails every rule and is not on the blocklist. */
  lemma EmptyPassword()
    ensures ExpectedScore("") == 0
    ensures ExpectedFeedback("") == [MinLengthMsg, MixedCaseMsg, DigitMsg, SpecialMsg]
  {
  }

  /** "Abcdef1!" satisfies every rule. */
  lemma StrongExample()
    ensures ExpectedScore("Abcdef1!") == 4
    ensures ExpectedFeedback("Abcdef1!") == []
  {
    var p := "Abcdef1!";
    assert InClass(p[0], Upper) && InClass(p[1], Lower) && InClass(p[6], Digit) && InClass(p[7], Special);
    assert ToLower(p) !in CommonPasswords by {
      assert |ToLower(p)| == 8 && ToLower(p)[7] == '!';
    }
  }

  /** "abcdefgh" only meets the length rule. */
  lemma LengthOnlyExample()
    ensures ExpectedScore("abcdefgh") == 1
    ensures ExpectedFeedback("abcdefgh") == [MixedCaseMsg, DigitMsg, SpecialMsg]
  {
    var p := "abcdefgh";
    assert !HasClass(p, Upper) && !HasClass(p, Digit) && !HasClass(p, Special) by {
      forall i | 0 <= i < |p| ensures 'a' <= p[i] <= 'z' { }
    }
    assert ToLower(p) == p;
  }

  /** The blocklist match ignores case: "Password123" is not an entry, yet it is blocklisted. */
  lemma CaseInsensitiveExample()
    ensures "Password123" !in CommonPasswords
    ensures IsCommon("Password123")
  {
    var p := "Password123";
    var low := ToLower(p);
    forall i | 0 <= i < |p| ensures low[i] == CommonPasswords[3][i] {
      assert low[i] == LowerChar(p[i]);
    }
    assert low == CommonPasswords[3];
  }

  /** The cap bites: "Password123" meets three rules but scores 2. */
  lemma ClampExample()
    ensures StructuralScore("Password123") == 3
    ensures ExpectedScore("Password123") == 2
    ensures ExpectedFeedback("Password123") == [SpecialMsg, TooCommonMsg]
  {
    var p := "Password123";
    assert Satisfies(p, MinLength);
    assert Satisfies(p, MixedCase) by {
      assert InClass(p[0], Upper) && InClass(p[1], Lower);
    }
    assert Satisfies(p, HasDigit) by {
      assert InClass(p[8], Digit);
    }
    assert !Satisfies(p, HasSpecial) by {
      forall i | 0 <= i < |p| ensures !InClass(p[i], Special) { }
    }
    RulesUnfold(p);
    CaseInsensitiveExample();
  }
}
