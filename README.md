# Password Strength Meter — a Dafny model of its core

The Password Strength Meter is a small Streamlit application. It has two
components worth modelling:

- The scorer. It awards a password up to four points: at least 8
  characters, both upper- and lower-case letters, a digit, and one of the
  special characters `!@#$%^&*`. Each rule the password fails adds one
  suggestion instead. A password whose lower-cased form equals
  `password`, `123456`, `qwerty`, `password123` or `admin` gets the extra
  message "This password is too common." and its score is capped at 2.
- The generator. It builds a password of the requested length, or of 12
  characters when fewer than 8 are asked for. It takes one character from
  each class, fills the rest from the union alphabet, and shuffles the
  result.

The model also covers the two score lookups of the presentation layer: the
gauge label and the success/warning/error framing.

Files:

- `char_classes.dfy` (module `CharClasses`): the four character classes.
  They appear twice: as the scorer's regular-expression patterns
  (`InClass`) and as the generator's literal alphabets (`Lowercase`,
  `Uppercase`, `Digits`, `Specials`, `Chars`). Lemmas prove the two forms
  agree. `Search` models `re.search` with a one-character class. `ToLower`
  models ASCII lower-casing.
- `scorer.dfy` (module `Scorer`): `CheckPasswordStrength` works like the
  original. It has four `if` statements that add to `score` or append to
  `feedback`, then the blocklist check. It is proved equal to a declarative
  reference. In that reference, `Passed` counts the satisfied rules and
  `Unmet` lists the failed rules' suggestions in rule order. The scorer's
  promises are lemmas about that reference.
- `generator.dfy` (module `Generator`): `GenerateStrongPassword` with the
  randomness left arbitrary. `Choice` returns some character of its
  alphabet. `Shuffle` is the Fisher–Yates loop of Python's `random.shuffle`:
  for `i` from the last index down to 1, it swaps `a[i]` with `a[j]` for
  some `j` in `0..i`. Every postcondition holds for every random outcome.
  `GeneratedPasswordIsStrong` connects the two components: every password
  the generator can produce scores 4 with no suggestions.
- `presentation.dfy` (module `Presentation`): the label table and the
  severity branch. Lemmas show how they relate to the scorer and the
  generator.

## Model

| member | source | states |
|---|---|---|
| CharClasses.Search | app.py:16-26 | the left-to-right scan for a class character succeeds exactly when some character of the password is in that class |
| CharClasses.AlphabetsAligned | app.py:44-45 | position i of the upper-case and of the lower-case alphabet holds the i-th letter, so the two alphabets pair each capital with its own small letter |
| CharClasses.LowerChar | app.py:32 | lower-casing turns each capital into its own small letter (the letter at the same position of the lower-case alphabet) and leaves every other character unchanged |
| CharClasses.UpperChar | app.py:32 | upper-casing turns each small letter into its own capital and leaves every other character unchanged; it states what a case-insensitive match accepts |
| CharClasses.ToLower | app.py:32 | lower-casing a string keeps its length and lower-cases each character in place |
| CharClasses.LowercaseMatchesClass | app.py:44 | a character is in the generator's lower-case alphabet exactly when it matches the scorer's `[a-z]` |
| CharClasses.UppercaseMatchesClass | app.py:45 | a character is in the upper-case alphabet exactly when it matches `[A-Z]` |
| CharClasses.DigitsMatchClass | app.py:46 | a character is in the digit alphabet exactly when it is an ASCII digit |
| CharClasses.SpecialsMatchClass | app.py:47 | a character is in the special alphabet exactly when it matches `[!@#$%^&*]` |
| CharClasses.MembersMatchClass | app.py:44-47 | for every class, its literal alphabet and its pattern accept the same characters |
| CharClasses.CharsMembership | app.py:42 | a character is in the generator's union alphabet exactly when it matches one of the four class patterns |
| CharClasses.ToLowerMatch | app.py:32 | for a word without capitals, the lower-cased password equals the word exactly when the password spells the word letter for letter, each letter in either case |
| CharClasses.LowerCharKeepsSpecial | app.py:32 | lower-casing never turns a special character into a non-special one, or the reverse |
| Scorer.IsCommon | app.py:31-32 | the blocklist check holds exactly when the password has the length of some entry and spells it with each letter in either case |
| Scorer.BlocklistHasNoCapitals | app.py:31 | no blocklist entry contains a capital letter |
| Scorer.BlocklistHasNoSpecials | app.py:31 | no blocklist entry contains a special character |
| Scorer.BlocklistIgnoresCase | app.py:31-32 | comparing the lower-cased password with the entries is a case-insensitive whole-string match against them |
| Scorer.CheckPasswordStrength | app.py:7-36 | the step-by-step scorer returns exactly the reference score and the reference feedback list |
| Scorer.RulesUnfold | app.py:11-29 | evaluating the rule list is the four rule checks one after another, each adding a point or its own suggestion |
| Scorer.PassedPlusUnmet | app.py:11-29 | for any list of rules, satisfied rules plus suggestions equals the number of rules |
| Scorer.UnmetMembership | app.py:11-29 | a rule's suggestion is present exactly when the rule is listed and the password fails it |
| Scorer.UnmetAbove | app.py:11-29 | suggestions are rule messages and never come before the rules that produce them |
| Scorer.OrderedCons | app.py:11-29 | putting a message in front of a strictly ordered feedback list keeps it strictly ordered when the message comes earlier in evaluation order than all of the list |
| Scorer.UnmetOrdered | app.py:11-29 | rules listed in evaluation order produce suggestions in strictly increasing evaluation order |
| Scorer.RulesInOrder | app.py:11-29 | the four rules are evaluated length, case, digit, special |
| Scorer.StructuralBalance | app.py:11-29 | before the blocklist check, score plus number of suggestions is exactly 4 |
| Scorer.ScoreInRange | app.py:8-34 | the final score always lies in 0..4 |
| Scorer.FeedbackOrdered | app.py:11-33 | the feedback has no repeats, lists rule suggestions in rule order, and puts "too common" after them |
| Scorer.FeedbackNamesFailedRules | app.py:11-29 | a rule's suggestion is in the feedback exactly when the password fails that rule |
| Scorer.BlocklistClamp | app.py:31-34 | a blocklisted password scores min(structural score, 2) and the last message is "too common"; any other password scores its satisfied-rule count, with score plus suggestions equal to 4 and no "too common" |
| Scorer.EmptyPassword | app.py:11-32 | the empty password scores 0 and gets exactly the four rule suggestions in order, with no "too common" |
| Scorer.StrongExample | app.py:11-34 | "Abcdef1!" scores 4 with no suggestions |
| Scorer.LengthOnlyExample | app.py:11-34 | "abcdefgh" scores 1 and gets the case, digit and special suggestions |
| Scorer.CaseInsensitiveExample | app.py:31-32 | "Password123" is not itself a blocklist entry, yet it is blocklisted |
| Scorer.ClampExample | app.py:31-34 | "Password123" meets three rules, so it would score 3, but it is capped at 2 and gets the special-character suggestion followed by "too common" |
| Generator.EffectiveLength | app.py:40-41 | a requested length below 8 becomes 12; any other length is kept |
| Generator.Choice | app.py:44-49 | each random pick is a character of the alphabet it is drawn from |
| Generator.Shuffle | app.py:50 | the in-place shuffle keeps the multiset of the list's elements |
| Generator.GenerateStrongPassword | app.py:39-51 | for every random outcome: the pre-shuffle list is one lower, one upper, one digit, one special, then effective-length-minus-4 alphabet characters; the password is a permutation of it, has the effective length, has every class, and uses only the union alphabet |
| Generator.WellDrawnProperties | app.py:43-50 | any permutation of a correctly drawn list has its length, every class and only alphabet characters |
| Generator.ShuffleKeepsClasses | app.py:43-50 | one character per class before the shuffle means every class is present after it |
| Generator.ShuffleKeepsAlphabet | app.py:42-50 | if every drawn character is in the union alphabet, every shuffled character is too |
| Generator.ShuffleKeeps | app.py:50 | a character of a class stays present after any permutation |
| Generator.GeneratedPasswordIsStrong | app.py:11-34 | a password of at least 8 characters holding every class is never on the blocklist, scores 4 and gets no suggestions |
| Presentation.Label | app.py:55-61 | the label lookup succeeds exactly for scores 0..4 and yields an entry of the table |
| Presentation.LabelDefinedForEveryScore | app.py:55-67 | looking up the label of any score the scorer returns never fails |
| Presentation.SeverityOf | app.py:99-104 | the verdict is a success exactly for score 4, a warning exactly for score 3 and an error for every other score |
| Presentation.SeverityAgreesWithLabel | app.py:99-104 | for scores 0..4: success exactly when the label is "Strong", warning exactly when it is "Moderate", error exactly when it is "Very Weak" or "Weak" |
| Presentation.CommonPasswordIsError | app.py:99-104 | a blocklisted password is always framed as an error and labelled weak |
| Presentation.GeneratedPasswordIsSuccess | app.py:99-104 | every generated password is framed as a success and labelled "Strong" |

## Left out

- Streamlit page set-up, input widgets, buttons and output (app.py:88-116) are I/O. The `if password:` guard only decides when the UI calls the scorer. The model's scorer accepts every string, including the empty one.
- The Plotly gauge (app.py:63-85) is a foreign library used only for drawing. Only its label lookup is modelled.
- The quality and uniformity of Python's pseudorandom source are not modelled. Each `random.choice` is an arbitrary character of its alphabet. Each index drawn by `random.shuffle` is an arbitrary index in range. No probabilistic claim is made.
- CharClasses.InClass: `\d` is modelled as the ASCII digits 0-9. Python's `\d` also matches other Unicode decimal digits, so a password whose only digit is, say, an Arabic-Indic digit scores the digit rule in the original but not in the model.
- CharClasses.ToLower: lower-casing is modelled as ASCII only (A-Z to a-z). Python's `str.lower()` is Unicode-aware. This matters only for a non-ASCII character whose lower case is ASCII. The Kelvin sign, which lower-cases to `k`, is one such character, and no blocklist entry contains `k`.
- Generator.GenerateStrongPassword: the model's `length` is an integer, with 12 as its default. In Python a non-integer `length` below 8 is replaced by 12. A non-integer of 8 or more makes `range` raise.
- Python's `min(score, 2)` is written as an explicit comparison. Integers are unbounded in both languages, so no width is modelled.
