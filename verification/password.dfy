/**
 * utils/passwordValidator.go: the registration password policy (ValidatePassword and
 * isCommonPassword) and the strength label (GetPasswordStrength).
 */
module PasswordValidator {
  import opened Wrappers
  import opened Text

  const MinPasswordLength := 12
  const UpperLetters := "ABCDEFGHIJKLMNOPQRSTUVWXYZ"
  const LowerLetters := "abcdefghijklmnopqrstuvwxyz"
  const Digits := "0123456789"
  const SpecialChars := "!@#$%^&*()_+-=[]{}|;:,.<>?"

  /** The weak substrings isCommonPassword looks for in the lower-cased password. */
  const CommonPatterns: seq<string> := [
    "123456", "password", "qwerty", "abc123", "111111", "000000", "admin",
    "letmein", "welcome", "monkey", "dragon", "master", "sunshine"
  ]

  predicate HasUpper(p: string) { ContainsAny(p, UpperLetters) }
  predicate HasLower(p: string) { ContainsAny(p, LowerLetters) }
  predicate HasDigit(p: string) { ContainsAny(p, Digits) }
  predicate HasSpecial(p: string) { ContainsAny(p, SpecialChars) }

  /** The loop of isCommonPassword: some pattern occurs in `s`. */
  function AnyPatternIn(patterns: seq<string>, s: string): (r: bool)
    ensures r <==> exists k | 0 <= k < |patterns| :: IsInfix(patterns[k], s)
  {
    if patterns == [] then false
    else IsInfix(patterns[0], s) || AnyPatternIn(patterns[1..], s)
  }

  /** isCommonPassword: a listed pattern occurs in the lower-cased password. */
  function IsCommonPassword(p: string): (r: bool)
    ensures r <==> exists k | 0 <= k < |CommonPatterns| :: IsInfix(CommonPatterns[k], ToLower(p))
  {
    AnyPatternIn(CommonPatterns, ToLower(p))
  }

  /** The check is blind to letter case. */
  lemma CommonIgnoresCase(p: string)
    ensures IsCommonPassword(p) == IsCommonPassword(ToLower(p))
  {
    ToLowerIdempotent(p);
  }

  datatype PasswordError =
    | TooShort(length: nat)
    | MissingUpper
    | MissingLower
    | MissingDigit
    | MissingSpecial
    | TooCommon

  /** ValidatePassword: the first failed rule, in the source's order, or None when all pass. */
  function ValidatePassword(p: string): (r: Option<PasswordError>)
    ensures |p| < MinPasswordLength ==> r == Some(TooShort(|p|))
    ensures r == None <==>
              && |p| >= MinPasswordLength
              && HasUpper(p) && HasLower(p) && HasDigit(p) && HasSpecial(p)
              && !IsCommonPassword(p)
    ensures r == Some(TooCommon) ==> IsCommonPassword(p)
  {
    if |p| < MinPasswordLength then Some(TooShort(|p|))
    else if !HasUpper(p) then Some(MissingUpper)
    else if !HasLower(p) then Some(MissingLower)
    else if !HasDigit(p) then Some(MissingDigit)
    else if !HasSpecial(p) then Some(MissingSpecial)
    else if IsCommonPassword(p) then Some(TooCommon)
    else None
  }

  /** The strength loop's `!unicode.IsLetter(r) && !unicode.IsDigit(r)`, on ASCII. */
  predicate HasNonAlnum(p: string) {
    exists i | 0 <= i < |p| :: !IsAlnum(p[i])
  }

  function Point(b: bool): nat { if b then 1 else 0 }

  /** The strength score: two length points and four variety points. */
  function StrengthScore(p: string): nat
  {
    Point(|p| >= 12) + Point(|p| >= 16)
    + Point(HasUpper(p)) + Point(HasLower(p)) + Point(HasDigit(p)) + Point(HasNonAlnum(p))
  }

  const VeryWeak := "Very Weak"
  const Weak := "Weak"
  const Fair := "Fair"
  const Good := "Good"
  const Strong := "Strong"
  const VeryStrong := "Very Strong"

  /** GetPasswordStrength: the label the score maps to; "Very Strong" is never produced. */
  function GetPasswordStrength(p: string): (r: string)
    ensures |p| < 8 ==> r == VeryWeak
    ensures r in {VeryWeak, Weak, Fair, Good, Strong}
  {
    if |p| < 8 then VeryWeak
    else
      var score := StrengthScore(p);
      if score <= 1 then VeryWeak
      else if score == 2 then Weak
      else if score == 3 then Fair
      else if score == 4 then Good
      else if score <= 7 then Strong
      else VeryStrong
  }

  /**
   * The score table: from 8 characters on, scores 0-1 are "Very Weak", 2 "Weak", 3 "Fair",
   * 4 "Good" and 5 or more "Strong"; each label is produced exactly for its scores.
   */
  lemma StrengthTable(p: string)
    ensures GetPasswordStrength(p) == VeryWeak <==> |p| < 8 || StrengthScore(p) <= 1
    ensures GetPasswordStrength(p) == Weak <==> |p| >= 8 && StrengthScore(p) == 2
    ensures GetPasswordStrength(p) == Fair <==> |p| >= 8 && StrengthScore(p) == 3
    ensures GetPasswordStrength(p) == Good <==> |p| >= 8 && StrengthScore(p) == 4
    ensures GetPasswordStrength(p) == Strong <==> |p| >= 8 && StrengthScore(p) >= 5
  {
  }

  /** Every score lies in 0..6. */
  lemma ScoreBound(p: string)
    ensures StrengthScore(p) <= 6
  {
  }

  /** "Strong" needs at least one length point, that is, 12 or more characters. */
  lemma StrongNeedsTwelve(p: string)
    requires GetPasswordStrength(p) == Strong
    ensures |p| >= 12
  {
  }

  lemma SpecialIsNotAlnum(c: char)
    requires c in SpecialChars
    ensures !IsAlnum(c)
  {
  }

  /** Every password the policy accepts is labelled "Strong". */
  lemma AcceptedIsStrong(p: string)
    requires ValidatePassword(p) == None
    ensures GetPasswordStrength(p) == Strong
  {
    var i :| 0 <= i < |p| && p[i] in SpecialChars;
    SpecialIsNotAlnum(p[i]);
    assert HasNonAlnum(p);
    assert StrengthScore(p) >= 5;
  }
}
