/**
 * Where the client's checks and the server's rules meet: the same password,
 * name and file-type rules on both sides, and the content rule on which they
 * differ.
 */
module ClientServer {
  import opened Text
  import opened Wrappers
  import Validators
  import Formatters
  import ValidationMiddleware
  import ResumeController

  /** On a password without presentation selectors, the server's rule is the client's `validatePassword`. */
  lemma PasswordRuleAgrees(password: string)
    ensures ValidationMiddleware.NoSelector(password) ==>
              (ValidationMiddleware.LengthIn(ValidationMiddleware.Given(Some(password)), 8, 50)
               <==> Validators.ValidatePassword(password))
  {
  }

  /** On a name without presentation selectors, the server's rule is the client's `validateName`. */
  lemma NameRuleAgrees(name: string)
    ensures ValidationMiddleware.NoSelector(Trim(name)) ==>
              (ValidationMiddleware.TrimmedLengthIn(Some(name), 2, 30) <==> Validators.ValidateName(name))
  {
  }

  /**
   * The client counts a presentation selector, the server does not: a
   * letter followed by U+FE0F passes `validateName` and fails the server's
   * name rule.
   */
  lemma SelectorSplitsNameRule()
    ensures Validators.ValidateName("a\U{FE0F}")
    ensures !ValidationMiddleware.TrimmedLengthIn(Some("a\U{FE0F}"), 2, 30)
  {
    TrimOfTrimmed("a\U{FE0F}");
    ValidationMiddleware.IsLengthCountConcat("a", "\U{FE0F}");
    assert "a" + "\U{FE0F}" == "a\U{FE0F}";
  }

  /**
   * The client's content rule counts characters as typed, the server's
   * after trimming: content the form accepts can be refused by the API.
   */
  lemma FormContentCanBeRefused(c: char)
    requires !IsSpace(c)
    ensures var content := [c] + "         ";
            Validators.CheckField(Validators.ResumeContentRule, content).None?
            && !ValidationMiddleware.ResumeTextValid(ValidationMiddleware.ResumeTextBody(Some("ab"), Some(content)))
  {
    var content := [c] + "         ";
    assert content == [c] + content[1..];
    assert AllSpace(content[1..]);
    TrimOfPadded([], [c], content[1..]);
    assert [] + [c] + content[1..] == content;
    TrimOfTrimmed([c]);
  }

  /**
   * The client and the server agree on the types: a readable upload the
   * client's type check passes is never refused as unsupported, and one it
   * fails always is.
   */
  lemma ClientTypesAreServerTypes(f: ResumeController.Upload)
    requires f.readable
    ensures Formatters.ValidateFileType(f.mimeType, Formatters.ResumeAllowedTypes)
            <==> ResumeController.UploadText(f) != ResumeController.Refused(ResumeController.Unsupported)
  {
  }
}
