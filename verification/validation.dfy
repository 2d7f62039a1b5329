/**
 * The validation constants of the task input: the length bounds, the
 * accepted-character class of the pattern and the five error messages.
 */
module Validation {
  import opened JsString

  const MAX_LENGTH: nat := 100
  const MIN_LENGTH: nat := 3

  /** The five messages of the constants table; `Text` gives the exact wording. */
  datatype ErrorMessage = MinLength | MaxLength | InvalidChars | Empty | OnlySpaces {
    function Text(): string {
      match this
      case MinLength => "Task must be at least 3 characters"
      case MaxLength => "Task cannot exceed 100 characters"
      case InvalidChars => "Task contains invalid characters"
      case Empty => "Task cannot be empty"
      case OnlySpaces => "Task cannot be only spaces"
    }
  }

  /**
   * The literal characters of the class as they appear in the source file:
   * Hangul syllables that are the mis-decoded form of the accented vowels
   * á é í ó ú Á É Í Ó Ú ñ Ñ, followed by the final literal hyphen.
   */
  predicate IsLiteralChar(c: char) {
    || c == '\U{CC3C}' || c == '\U{CC55}' || c == '\U{CC60}' || c == '\U{CC98}'
    || c == '\U{CCAC}' || c == '\U{D681}' || c == '\U{D68B}' || c == '\U{D692}'
    || c == '\U{D699}' || c == '\U{D6A3}' || c == '\U{CC70}' || c == '\U{D697}'
    || c == '-'
  }

  /**
   * Membership in the class `[a-zA-Z0-9\sÀ-ſ.,!?...-]` (no flags,
   * so the letter ranges are case-sensitive).
   */
  predicate InPatternClass(c: char) {
    || ('a' <= c <= 'z')
    || ('A' <= c <= 'Z')
    || ('0' <= c <= '9')
    || IsWhiteSpace(c)
    || ('\U{00C0}' <= c <= '\U{017F}')
    || c == '.' || c == ',' || c == '!' || c == '?'
    || IsLiteralChar(c)
  }

  /** The anchored pattern `^[...]+$`: one or more characters, all in the class. */
  predicate MatchesPattern(s: string) {
    |s| > 0 && forall i :: 0 <= i < |s| ==> InPatternClass(s[i])
  }

  lemma LengthBoundsOrdered()
    ensures MIN_LENGTH == 3 && MAX_LENGTH == 100 && MIN_LENGTH < MAX_LENGTH
  {
  }

  /** The five messages are pairwise different texts. */
  lemma MessagesDistinct(m1: ErrorMessage, m2: ErrorMessage)
    ensures m1.Text() == m2.Text() <==> m1 == m2
  {
  }

  /** The class membership on the characters that matter for Spanish text and for the usual rejects. */
  lemma PatternClassMembers()
    ensures InPatternClass('\U{00E1}') && InPatternClass('\U{00F3}') && InPatternClass('\U{00D1}')
    ensures InPatternClass('-') && InPatternClass('\U{00A0}')
    ensures InPatternClass('\U{CC3C}') && InPatternClass('\U{CC55}') && InPatternClass('\U{CC60}')
    ensures InPatternClass('\U{CC98}') && InPatternClass('\U{CCAC}') && InPatternClass('\U{D681}')
    ensures InPatternClass('\U{D68B}') && InPatternClass('\U{D692}') && InPatternClass('\U{D699}')
    ensures InPatternClass('\U{D6A3}') && InPatternClass('\U{CC70}') && InPatternClass('\U{D697}')
    ensures !InPatternClass('@') && !InPatternClass('#') && !InPatternClass('(') && !InPatternClass('"')
    ensures !InPatternClass('\U{00BF}') && !InPatternClass('\U{0180}') && !InPatternClass('_')
    ensures !MatchesPattern("") && MatchesPattern("-")
  {
  }

  /** The pattern is a per-character test: it matches a concatenation exactly when it matches both parts. */
  lemma {:induction false} MatchesPatternConcat(s: string, t: string)
    requires |s| > 0 && |t| > 0
    ensures MatchesPattern(s + t) <==> MatchesPattern(s) && MatchesPattern(t)
  {
    if MatchesPattern(s + t) {
      forall k | 0 <= k < |s|
        ensures InPatternClass(s[k])
      {
        assert s[k] == (s + t)[k];
      }
      forall k | 0 <= k < |t|
        ensures InPatternClass(t[k])
      {
        assert t[k] == (s + t)[|s| + k];
      }
    }
    if MatchesPattern(s) && MatchesPattern(t) {
      forall k | 0 <= k < |s + t|
        ensures InPatternClass((s + t)[k])
      {
        if k >= |s| {
          assert (s + t)[k] == t[k - |s|];
        }
      }
    }
  }
}
