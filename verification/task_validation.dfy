/**
 * `validateTask`: classifies a candidate description. The checks run on the
 * trimmed text in a fixed order (empty, too short, too long, bad characters)
 * and the first failing one decides the message; `None` means valid.
 */
module TaskValidation {
  import opened Wrappers
  import opened JsString
  import opened Validation

  /** Some character of `s` lies outside the accepted class. */
  predicate HasInvalidChar(s: string) {
    exists i :: 0 <= i < |s| && !InPatternClass(s[i])
  }

  function ValidateTask(text: string): (r: Option<ErrorMessage>)
    ensures r == Some(OnlySpaces) <==> AllWhiteSpace(text)
    ensures r == Some(MinLength) <==> 0 < |Trim(text)| < MIN_LENGTH
    ensures r == Some(MaxLength) <==> |Trim(text)| > MAX_LENGTH
    ensures r == Some(InvalidChars) <==>
      MIN_LENGTH <= |Trim(text)| <= MAX_LENGTH && HasInvalidChar(Trim(text))
    ensures r == None <==>
      && MIN_LENGTH <= |Trim(text)| <= MAX_LENGTH
      && forall i :: 0 <= i < |Trim(text)| ==> InPatternClass(Trim(text)[i])
    ensures r != Some(Empty)
  {
    var trimmed := Trim(text);
    TrimEmpty(text);
    ClassifyOutcomes(trimmed);
    Classify(trimmed)
  }

  /** The ordered checks, applied to an already trimmed text. */
  function Classify(trimmed: string): Option<ErrorMessage> {
    if |trimmed| == 0 then Some(OnlySpaces)
    else if |trimmed| < MIN_LENGTH then Some(MinLength)
    else if |trimmed| > MAX_LENGTH then Some(MaxLength)
    else if !MatchesPattern(trimmed) then Some(InvalidChars)
    else None
  }

  /** Which length and character conditions lead to each verdict of the ordered checks. */
  lemma ClassifyOutcomes(t: string)
    ensures Classify(t) == Some(OnlySpaces) <==> |t| == 0
    ensures Classify(t) == Some(MinLength) <==> 0 < |t| < MIN_LENGTH
    ensures Classify(t) == Some(MaxLength) <==> |t| > MAX_LENGTH
    ensures Classify(t) == Some(InvalidChars) <==> MIN_LENGTH <= |t| <= MAX_LENGTH && HasInvalidChar(t)
    ensures Classify(t) == None <==>
      MIN_LENGTH <= |t| <= MAX_LENGTH && forall i :: 0 <= i < |t| ==> InPatternClass(t[i])
    ensures Classify(t) != Some(Empty)
  {
  }

  /** The verdict depends on the trimmed text only. */
  lemma ValidateIgnoresPadding(a: string, t: string, b: string)
    requires AllWhiteSpace(a) && AllWhiteSpace(b)
    ensures ValidateTask(a + t + b) == ValidateTask(t)
  {
    TrimIgnoresPadding(a, t, b);
  }

  /** Validating the trimmed text gives the same verdict as validating the raw text. */
  lemma ValidateTrimmed(text: string)
    ensures ValidateTask(Trim(text)) == ValidateTask(text)
  {
    var t := Trim(text);
    TrimIdempotent(text);
    assert ValidateTask(t) == Classify(Trim(t));
  }

  /** A valid text trims to a pattern match of 3 to 100 characters. */
  lemma ValidMeansMatch(text: string)
    requires ValidateTask(text) == None
    ensures MatchesPattern(Trim(text))
    ensures MIN_LENGTH <= |Trim(text)| <= MAX_LENGTH
  {
  }

  /** The length checks come before the character check. */
  lemma LengthBeforePattern(text: string)
    requires |Trim(text)| > MAX_LENGTH
    ensures ValidateTask(text) == Some(MaxLength)
  {
  }

  /** A text that is its own trimmed form. */
  lemma TrimOfTrimmed(s: string)
    requires IsTrimmed(s)
    ensures Trim(s) == s
  {
    var empty: string := [];
    assert empty + s + empty == s;
    TrimOfDecomposition(empty, s, empty);
  }

  /** The verdicts on five sample inputs. */
  lemma ValidateBlankExamples()
    ensures ValidateTask("") == Some(OnlySpaces)
    ensures ValidateTask("   ") == Some(OnlySpaces)
  {
    assert AllWhiteSpace("   ");
  }

  lemma ValidateShortExample()
    ensures ValidateTask("ab") == Some(MinLength)
  {
    TrimOfTrimmed("ab");
    assert ValidateTask("ab") == Classify("ab");
  }

  lemma ValidateAcceptedExample()
    ensures ValidateTask("hello!!") == None
  {
    var s := "hello!!";
    TrimOfTrimmed(s);
    assert MatchesPattern(s) by {
      forall i | 0 <= i < |s|
        ensures InPatternClass(s[i])
      {
        assert 'a' <= s[i] <= 'z' || s[i] == '!';
      }
    }
    assert ValidateTask(s) == Classify(s);
  }

  lemma ValidateRejectedExample()
    ensures ValidateTask("hi@#") == Some(InvalidChars)
  {
    var s := "hi@#";
    TrimOfTrimmed(s);
    assert !InPatternClass(s[2]);
    assert ValidateTask(s) == Classify(s);
  }

  lemma ValidateTooLongExample()
    ensures ValidateTask(seq(101, _ => 'a')) == Some(MaxLength)
  {
    var long := seq(101, _ => 'a');
    TrimOfTrimmed(long);
    assert ValidateTask(long) == Classify(long);
  }
}
