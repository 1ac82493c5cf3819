/**
 * The email shape the user validators require, `EMAIL_REGEX`
 * (`^[^\s@]+@[^\s@]+\.[^\s@]+$`), once as the regular expression reads and once
 * as a plain string predicate, with a proof that the two accept the same strings.
 */
module Email {
  import opened JsValues

  /** A run the class `[^\s@]+` matches: non-empty, no whitespace, no `@`. */
  predicate PlainRun(s: string) {
    |s| > 0 && forall i :: 0 <= i < |s| ==> !IsSpace(s[i]) && s[i] != '@'
  }

  /**
   * The regular expression, read literally: a run, `@` at `at`, a run, a `.` at
   * `dot`, a run, and nothing else.
   */
  ghost predicate MatchesAt(s: string, at: int, dot: int) {
    && 0 <= at < dot < |s|
    && PlainRun(s[..at])
    && s[at] == '@'
    && PlainRun(s[at + 1..dot])
    && s[dot] == '.'
    && PlainRun(s[dot + 1..])
  }

  ghost predicate MatchesEmailRegex(s: string) {
    exists at, dot :: MatchesAt(s, at, dot)
  }

  /**
   * The same shape as a plain predicate: no whitespace, exactly one `@`, a
   * non-empty part before it, and a `.` in the part after it that is neither
   * that part's first nor its last character.
   */
  predicate IsEmail(s: string) {
    && (forall i :: 0 <= i < |s| ==> !IsSpace(s[i]))
    && exists at :: 0 < at < |s| && s[at] == '@'
         && (forall j :: 0 <= j < |s| && j != at ==> s[j] != '@')
         && exists dot :: at + 1 < dot < |s| - 1 && s[dot] == '.'
  }

  /** `EMAIL_REGEX.test(s)` holds exactly for the strings `IsEmail` accepts. */
  lemma EmailRegexIsEmail(s: string)
    ensures MatchesEmailRegex(s) <==> IsEmail(s)
  {
    if MatchesEmailRegex(s) {
      var at, dot :| MatchesAt(s, at, dot);
      forall i | 0 <= i < |s| ensures !IsSpace(s[i]) {
        if i < at {
          assert s[..at][i] == s[i];
        } else if at < i < dot {
          assert s[at + 1..dot][i - at - 1] == s[i];
        } else if dot < i {
          assert s[dot + 1..][i - dot - 1] == s[i];
        }
      }
      forall j | 0 <= j < |s| && j != at ensures s[j] != '@' {
        if j < at {
          assert s[..at][j] == s[j];
        } else if at < j < dot {
          assert s[at + 1..dot][j - at - 1] == s[j];
        } else if dot < j {
          assert s[dot + 1..][j - dot - 1] == s[j];
        }
      }
      assert at + 1 < dot < |s| - 1 && s[dot] == '.';
    }
    if IsEmail(s) {
      var at :| 0 < at < |s| && s[at] == '@'
         && (forall j :: 0 <= j < |s| && j != at ==> s[j] != '@')
         && exists dot :: at + 1 < dot < |s| - 1 && s[dot] == '.';
      var dot :| at + 1 < dot < |s| - 1 && s[dot] == '.';
      assert PlainRun(s[..at]);
      assert PlainRun(s[at + 1..dot]);
      assert PlainRun(s[dot + 1..]);
      assert MatchesAt(s, at, dot);
    }
  }

  /** The test account's address is an email. */
  lemma ExampleEmailAccepted()
    ensures IsEmail("test@example.com")
  {
    var s := "test@example.com";
    assert s[4] == '@' && s[12] == '.';
    assert forall i :: 0 <= i < |s| ==> !IsSpace(s[i]);
  }

  /** Text without an `@`, and an `@` without a dot after it, are not. */
  lemma ExampleEmailsRejected()
    ensures !IsEmail("invalid-email")
    ensures !IsEmail("a@b")
  {
    var t := "invalid-email";
    assert forall i :: 0 <= i < |t| ==> t[i] != '@';
  }
}
