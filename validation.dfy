/**
 * Form and value validators (lib/utils/validation.ts). The form validators
 * fill an error dictionary field by field, a later assignment to the same
 * field overwriting an earlier one; `valid` is "no key was set".
 */
module Validation {
  import opened Common

  /** `ValidationResult`. */
  datatype ValidationResult = ValidationResult(valid: bool, errors: map<string, string>)

  /** The fields of `Partial<TheoryFormData>` the validator reads. */
  datatype TheoryFormData = TheoryFormData(title: Option<string>, claim: Option<string>, tldr: Option<string>)

  /** The fields of `Partial<EvidenceFormData>` the validator reads. */
  datatype EvidenceFormData = EvidenceFormData(content: Option<string>, stance: Option<string>, source: Option<string>)

  /** The field of `Partial<CommentFormData>` the validator reads. */
  datatype CommentFormData = CommentFormData(content: Option<string>)

  const TitleTooShort := "Title must be at least 5 characters"
  const TitleTooLong := "Title must be less than 200 characters"
  const ClaimTooShort := "Claim must be at least 10 characters"
  const ClaimTooLong := "Claim must be less than 2000 characters"
  const TldrTooShort := "TL;DR must be at least 10 characters"
  const TldrTooLong := "TL;DR must be less than 500 characters"
  const ContentTooShort := "Evidence must be at least 10 characters"
  const ContentTooLong := "Evidence must be less than 2000 characters"
  const InvalidStance := "Invalid stance"
  const SourceTooLong := "Source URL must be less than 500 characters"
  const CommentEmpty := "Comment cannot be empty"
  const CommentTooLong := "Comment must be less than 1000 characters"

  /** The lower-bound test: missing or empty, or shorter than `min` once trimmed. */
  predicate TooShort(v: Option<string>, min: nat) {
    !Truthy(v) || JsLength(Trim(v.value)) < min
  }

  /** The upper-bound test: present and longer than `max`, untrimmed. */
  predicate TooLong(v: Option<string>, max: nat) {
    Truthy(v) && JsLength(v.value) > max
  }

  /** The message a bounded field ends with: the upper-bound message wins. */
  predicate FieldReport(errors: map<string, string>, key: string, v: Option<string>,
                        min: nat, max: nat, shortMsg: string, longMsg: string) {
    && (key in errors <==> TooShort(v, min) || TooLong(v, max))
    && (TooLong(v, max) ==> errors[key] == longMsg)
    && (TooShort(v, min) && !TooLong(v, max) ==> errors[key] == shortMsg)
  }

  /** The two checks of one bounded field: the too-short test, then the too-long test. */
  method CheckBounded(errors: map<string, string>, key: string, v: Option<string>,
                      min: nat, max: nat, shortMsg: string, longMsg: string)
    returns (r: map<string, string>)
    ensures r.Keys <= errors.Keys + {key}
    ensures forall k :: k != key ==> (k in r <==> k in errors)
    ensures forall k :: k in errors && k != key ==> r[k] == errors[k]
    ensures key !in errors ==> FieldReport(r, key, v, min, max, shortMsg, longMsg)
  {
    r := errors;
    if !Truthy(v) || JsLength(Trim(v.value)) < min {
      r := r[key := shortMsg];
    }
    if Truthy(v) && JsLength(v.value) > max {
      r := r[key := longMsg];
    }
  }

  /** `validateTheoryForm`. */
  method ValidateTheoryForm(data: TheoryFormData) returns (r: ValidationResult)
    ensures r.errors.Keys <= {"title", "claim", "tldr"}
    ensures FieldReport(r.errors, "title", data.title, 5, 200, TitleTooShort, TitleTooLong)
    ensures FieldReport(r.errors, "claim", data.claim, 10, 2000, ClaimTooShort, ClaimTooLong)
    ensures FieldReport(r.errors, "tldr", data.tldr, 10, 500, TldrTooShort, TldrTooLong)
    ensures r.valid <==> r.errors == map[]
  {
    var errors: map<string, string> := map[];
    errors := CheckBounded(errors, "title", data.title, 5, 200, TitleTooShort, TitleTooLong);
    errors := CheckBounded(errors, "claim", data.claim, 10, 2000, ClaimTooShort, ClaimTooLong);
    errors := CheckBounded(errors, "tldr", data.tldr, 10, 500, TldrTooShort, TldrTooLong);
    r := ValidationResult(|errors| == 0, errors);
  }

  /** `validateEvidenceForm`. */
  method ValidateEvidenceForm(data: EvidenceFormData) returns (r: ValidationResult)
    ensures r.errors.Keys <= {"content", "stance", "source"}
    ensures FieldReport(r.errors, "content", data.content, 10, 2000, ContentTooShort, ContentTooLong)
    ensures "stance" in r.errors <==> !Truthy(data.stance) || data.stance.value !in ["FOR", "AGAINST"]
    ensures "stance" in r.errors ==> r.errors["stance"] == InvalidStance
    ensures "source" in r.errors <==> TooLong(data.source, 500)
    ensures "source" in r.errors ==> r.errors["source"] == SourceTooLong
    ensures r.valid <==> r.errors == map[]
  {
    var errors: map<string, string> := map[];
    errors := CheckBounded(errors, "content", data.content, 10, 2000, ContentTooShort, ContentTooLong);
    if !Truthy(data.stance) || data.stance.value !in ["FOR", "AGAINST"] {
      errors := errors["stance" := InvalidStance];
    }
    if Truthy(data.source) && JsLength(data.source.value) > 500 {
      errors := errors["source" := SourceTooLong];
    }
    r := ValidationResult(|errors| == 0, errors);
  }

  /** `validateCommentForm`. */
  method ValidateCommentForm(data: CommentFormData) returns (r: ValidationResult)
    ensures r.errors.Keys <= {"content"}
    ensures FieldReport(r.errors, "content", data.content, 1, 1000, CommentEmpty, CommentTooLong)
    ensures r.valid <==> r.errors == map[]
  {
    var errors: map<string, string> := map[];
    errors := CheckBounded(errors, "content", data.content, 1, 1000, CommentEmpty, CommentTooLong);
    r := ValidationResult(|errors| == 0, errors);
  }

  // ---------------------------------------------------------------------------
  // Lemmas about the form validators.

  /** A comment passes exactly when it has a non-blank character and at most 1000 code units. */
  lemma CommentAcceptance(content: string)
    ensures !TooShort(Some(content), 1) <==> !AllWhitespace(content)
    ensures !TooLong(Some(content), 1000) <==> JsLength(content) <= 1000
  {
    TrimEmptyIffAllWhitespace(content);
  }

  /** A blank title over 200 code units gets the too-long message, not the too-short one. */
  lemma {:induction false} BlankOverlongTitle(title: string)
    requires |title| > 200 && AllWhitespace(title)
    ensures TooShort(Some(title), 5) && TooLong(Some(title), 200)
  {
    TrimEmptyIffAllWhitespace(title);
  }

  // ---------------------------------------------------------------------------
  // Vote strength.

  /** `VOTE_STRENGTHS` (types/vote.ts). */
  const VoteStrengths: seq<int> := [0, 2, 5, 8, 10]

  /** `validateVoteStrength`. */
  predicate ValidateVoteStrength(strength: int) {
    strength in VoteStrengths
  }

  /** The scale is exactly the five values, all within 0..10. */
  lemma VoteStrengthScale(strength: int)
    ensures ValidateVoteStrength(strength) <==> strength in {0, 2, 5, 8, 10}
    ensures ValidateVoteStrength(strength) ==> 0 <= strength <= 10
  {
  }

  // ---------------------------------------------------------------------------
  // E-mail.

  /** One `[^\s@]+` segment of the e-mail pattern. */
  predicate EmailSegment(s: string) {
    |s| > 0 && forall i :: 0 <= i < |s| ==> !IsJsWhitespace(s[i]) && s[i] != '@'
  }

  /**
   * `validateEmail`: the whole string matches `^[^\s@]+@[^\s@]+\.[^\s@]+$`,
   * i.e. it splits at an '@' (index i) and a later '.' (index j) into three
   * non-empty segments.
   */
  predicate ValidateEmail(email: string) {
    exists i, j :: 0 <= i < j < |email| && email[i] == '@' && email[j] == '.'
      && EmailSegment(email[..i]) && EmailSegment(email[i + 1..j]) && EmailSegment(email[j + 1..])
  }

  /**
   * The shape the pattern accepts, stated directly: no whitespace, exactly one
   * '@', which is not the first character, and a '.' after it that is neither
   * the first nor the last character of the domain part.
   */
  predicate EmailShape(email: string) {
    && NoWhitespace(email)
    && exists i, k :: 0 < i && i + 1 < k < |email| - 1 && email[i] == '@' && email[k] == '.'
         && (forall m :: 0 <= m < |email| && email[m] == '@' ==> m == i)
  }

  /** The pattern accepts exactly the strings of that shape. */
  lemma EmailCharacterization(email: string)
    ensures ValidateEmail(email) <==> EmailShape(email)
  {
    if ValidateEmail(email) {
      ValidEmailHasShape(email);
    }
    if EmailShape(email) {
      EmailShapeIsValid(email);
    }
  }

  /** A matching string has one '@', no whitespace, and a '.' with text on both sides after the '@'. */
  lemma ValidEmailHasShape(email: string)
    requires ValidateEmail(email)
    ensures EmailShape(email)
  {
    var i, j :| 0 <= i < j < |email| && email[i] == '@' && email[j] == '.'
      && EmailSegment(email[..i]) && EmailSegment(email[i + 1..j]) && EmailSegment(email[j + 1..]);
    forall m | 0 <= m < |email| ensures !IsJsWhitespace(email[m]) && (email[m] == '@' ==> m == i) {
      if m < i {
        assert email[m] == email[..i][m];
      } else if i < m < j {
        assert email[m] == email[i + 1..j][m - i - 1];
      } else if j < m {
        assert email[m] == email[j + 1..][m - j - 1];
      }
    }
    assert 0 < i && i + 1 < j < |email| - 1;
  }

  /** A string of that shape matches the pattern. */
  lemma EmailShapeIsValid(email: string)
    requires EmailShape(email)
    ensures ValidateEmail(email)
  {
    var i, k :| 0 < i && i + 1 < k < |email| - 1 && email[i] == '@' && email[k] == '.'
      && (forall m :: 0 <= m < |email| && email[m] == '@' ==> m == i);
    var local, domain, top := email[..i], email[i + 1..k], email[k + 1..];
    forall m | 0 <= m < |local| ensures !IsJsWhitespace(local[m]) && local[m] != '@' {
      assert local[m] == email[m];
    }
    forall m | 0 <= m < |domain| ensures !IsJsWhitespace(domain[m]) && domain[m] != '@' {
      assert domain[m] == email[i + 1 + m];
    }
    forall m | 0 <= m < |top| ensures !IsJsWhitespace(top[m]) && top[m] != '@' {
      assert top[m] == email[k + 1 + m];
    }
    assert EmailSegment(local) && EmailSegment(domain) && EmailSegment(top);
  }

  /** Sample verdicts: a plain address passes; a second '@' or a trailing '.' fails. */
  lemma EmailExamples()
    ensures ValidateEmail("a@b.c")
    ensures !ValidateEmail("a@b@c.d")
    ensures !ValidateEmail("a@b.")
  {
    var ok := "a@b.c";
    assert ok[..1] == "a" && ok[2..3] == "b" && ok[4..] == "c";
    assert ok[1] == '@' && ok[3] == '.';
    var twoAts := "a@b@c.d";
    EmailCharacterization(twoAts);
    assert twoAts[1] == '@' && twoAts[3] == '@';
    EmailCharacterization("a@b.");
  }
}
