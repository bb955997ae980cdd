/** `validateUserInput` in its two forms: the shared helper, which returns a
    400 response or nothing, and the copy local to the user route, which
    throws. Both demand five truthy fields and then an email matching
    `^[^\s@]+@[^\s@]+\.[^\s@]+$`; neither looks at `logintype`. */
module Validation {
  import opened Js
  import opened Http

  const AllFieldsRequired: string := "All fields are required"
  const InvalidEmailFormat: string := "Invalid email format"

  /** One of the five fields the validation insists on is falsy. */
  predicate MissingField(p: UserInput) {
    Falsy(p.firstname) || Falsy(p.lastname) || Falsy(p.username) || Falsy(p.email) || Falsy(p.password)
  }

  /** The character class `[^\s@]`. */
  predicate InClass(c: char) {
    c != '@' && !IsWhitespace(c)
  }

  predicate AllInClass(s: string) {
    forall i :: 0 <= i < |s| ==> InClass(s[i])
  }

  /** The regular expression read literally: `s` splits into a local part,
      `@`, a domain name, `.` and a last label, each part non-empty and made
      of `[^\s@]` characters, with nothing before or after. */
  ghost predicate MatchesRegex(s: string) {
    exists at, dot ::
      && 0 < at && at + 1 < dot && dot + 1 < |s|
      && s[at] == '@' && s[dot] == '.'
      && AllInClass(s[..at]) && AllInClass(s[at + 1..dot]) && AllInClass(s[dot + 1..])
  }

  /** The email test stated on the whole string: no white space, exactly one
      `@`, something before it, and a `.` after it that is neither the first
      nor the last character of the domain part. */
  predicate EmailAccepted(s: string) {
    && (forall i | 0 <= i < |s| :: !IsWhitespace(s[i]))
    && exists at | 0 < at < |s| ::
         && s[at] == '@'
         && (forall i | 0 <= i < |s| && s[i] == '@' :: i == at)
         && (exists dot | at + 1 < dot < |s| - 1 :: s[dot] == '.')
  }

  /** The regular expression accepts exactly the strings `EmailAccepted`
      describes. */
  lemma EmailAcceptedIffRegex(s: string)
    ensures EmailAccepted(s) <==> MatchesRegex(s)
  {
    if EmailAccepted(s) {
      var at :| 0 < at < |s| && s[at] == '@'
        && (forall i | 0 <= i < |s| && s[i] == '@' :: i == at)
        && (exists dot | at + 1 < dot < |s| - 1 :: s[dot] == '.');
      var dot :| at + 1 < dot < |s| - 1 && s[dot] == '.';
      forall i | 0 <= i < |s| && i != at ensures InClass(s[i]) {
      }
      assert AllInClass(s[..at]) by {
        forall i | 0 <= i < at ensures InClass(s[..at][i]) {
          assert s[..at][i] == s[i];
        }
      }
      var domain, last := s[at + 1..dot], s[dot + 1..];
      assert AllInClass(domain) by {
        forall i | 0 <= i < |domain| ensures InClass(domain[i]) {
          assert domain[i] == s[at + 1 + i];
        }
      }
      assert AllInClass(last) by {
        forall i | 0 <= i < |last| ensures InClass(last[i]) {
          assert last[i] == s[dot + 1 + i];
        }
      }
    }
    if MatchesRegex(s) {
      var at, dot :|
        && 0 < at && at + 1 < dot && dot + 1 < |s|
        && s[at] == '@' && s[dot] == '.'
        && AllInClass(s[..at]) && AllInClass(s[at + 1..dot]) && AllInClass(s[dot + 1..]);
      forall i | 0 <= i < |s| && i != at && i != dot ensures InClass(s[i]) {
        if i < at {
          assert s[i] == s[..at][i];
        } else if i < dot {
          assert s[i] == s[at + 1..dot][i - at - 1];
        } else {
          assert s[i] == s[dot + 1..][i - dot - 1];
        }
      }
      assert forall i | 0 <= i < |s| :: !IsWhitespace(s[i]);
      assert forall i | 0 <= i < |s| && s[i] == '@' :: i == at;
      assert at + 1 < dot < |s| - 1 && s[dot] == '.';
    }
  }

  /** The shared helper: nothing (`undefined`) for acceptable input, else a
      400 response naming the first rule that fails. */
  function ValidateUserInput(p: UserInput): (r: Option<Response>)
    ensures r.None? <==> !MissingField(p) && EmailAccepted(p.email.value)
    ensures MissingField(p) ==> r == Some(ErrorResponse(AllFieldsRequired, 400))
    ensures !MissingField(p) && !EmailAccepted(p.email.value) ==> r == Some(ErrorResponse(InvalidEmailFormat, 400))
  {
    if MissingField(p) then Some(ErrorResponse(AllFieldsRequired, 400))
    else if !EmailAccepted(p.email.value) then Some(ErrorResponse(InvalidEmailFormat, 400))
    else None
  }

  /** The user route's copy: returns normally for acceptable input, else
      throws a plain `Error` carrying the same message the helper would
      have put in its 400 response. */
  function ValidateOrThrow(p: UserInput): (r: Result<()>)
    ensures r.Ok? <==> ValidateUserInput(p).None?
    ensures r.Err? ==> r.error.code == None && ValidateUserInput(p) == Some(ErrorResponse(r.error.message, 400))
    ensures r.Err? ==> r.error.message == AllFieldsRequired || r.error.message == InvalidEmailFormat
  {
    if MissingField(p) then Err(Error(None, AllFieldsRequired))
    else if !EmailAccepted(p.email.value) then Err(Error(None, InvalidEmailFormat))
    else Ok(())
  }

  /** `logintype` plays no part in either form of the validation. */
  lemma LogintypeIgnored(p: UserInput, logintype: Field)
    ensures ValidateUserInput(p.(logintype := logintype)) == ValidateUserInput(p)
    ensures ValidateOrThrow(p.(logintype := logintype)) == ValidateOrThrow(p)
  {
  }
}
