/**
  The declarative field rules of the add-student and sign-in forms, as the
  form library applies them: `required` first, then the length, pattern or
  range rule, each with its own message.  A rule that passes gives `None`.
*/
module FormRules {
  import opened Wrappers

  predicate IsLetter(c: char) { 'A' <= c <= 'Z' || 'a' <= c <= 'z' }

  predicate IsDigit(c: char) { '0' <= c <= '9' }

  /** `[A-Z0-9._%+-]` under the `i` flag. */
  predicate LocalChar(c: char) {
    IsLetter(c) || IsDigit(c) || c == '.' || c == '_' || c == '%' || c == '+' || c == '-'
  }

  /** `[A-Z0-9.-]` under the `i` flag. */
  predicate DomainChar(c: char) {
    IsLetter(c) || IsDigit(c) || c == '.' || c == '-'
  }

  predicate AllLocal(s: string) { forall i :: 0 <= i < |s| ==> LocalChar(s[i]) }

  predicate AllDomain(s: string) { forall i :: 0 <= i < |s| ==> DomainChar(s[i]) }

  predicate AllLetters(s: string) { forall i :: 0 <= i < |s| ==> IsLetter(s[i]) }

  /**
    `s` splits as local part, `@` at `at`, domain, `.` at `dot`, and a
    top-level domain of at least two letters.
  */
  predicate ValidSplit(s: string, at: int, dot: int) {
    1 <= at && at + 2 <= dot && dot + 3 <= |s| &&
    s[at] == '@' && s[dot] == '.' &&
    AllLocal(s[..at]) && AllDomain(s[at + 1..dot]) && AllLetters(s[dot + 1..])
  }

  /**
    The language of `/^[A-Z0-9._%+-]+@[A-Z0-9.-]+\.[A-Z]{2,}$/i`: a non-empty
    local part, `@`, a non-empty domain, a dot, and a top-level domain of at
    least two letters.
  */
  ghost predicate EmailPattern(s: string) {
    exists at, dot :: ValidSplit(s, at, dot)
  }

  /** The first index of `c` in `s`, or -1 (see `FirstAt`). */
  function IndexOf(s: string, c: char): (r: int)
    ensures -1 <= r < |s|
  {
    if s == [] then -1
    else if s[0] == c then 0
    else
      var r := IndexOf(s[1..], c);
      if r < 0 then -1 else r + 1
  }

  /** The last index of `c` in `s`, or -1 (see `LastAt`). */
  function LastIndexOf(s: string, c: char): (r: int)
    ensures -1 <= r < |s|
  {
    if s == [] then -1
    else if s[|s| - 1] == c then |s| - 1
    else LastIndexOf(s[..|s| - 1], c)
  }

  /**
    The email check, computed: split at the first `@`, and split what
    follows at its last dot.  No character class of the pattern holds `@`,
    and the top-level domain cannot hold a dot, so these are the only splits
    that can match.
  */
  function CheckEmail(s: string): bool {
    var at := IndexOf(s, '@');
    at >= 0 && ValidSplit(s, at, at + 1 + LastIndexOf(s[at + 1..], '.'))
  }

  /** The computed check accepts exactly the strings the pattern matches. */
  lemma CheckEmailMatchesPattern(s: string)
    ensures CheckEmail(s) <==> EmailPattern(s)
  {
    if CheckEmail(s) {
      var at := IndexOf(s, '@');
      assert ValidSplit(s, at, at + 1 + LastIndexOf(s[at + 1..], '.'));
    }
    if EmailPattern(s) {
      var at, dot :| ValidSplit(s, at, dot);
      PatternSplitIsUnique(s, at, dot);
    }
  }

  /** A split the pattern accepts is the one the computed check finds. */
  lemma PatternSplitIsUnique(s: string, at: int, dot: int)
    requires ValidSplit(s, at, dot)
    ensures CheckEmail(s)
  {
    forall k | 0 <= k < at ensures s[k] != '@' {
      assert LocalChar(s[..at][k]);
    }
    FirstAt(s, '@', at);
    var rest := s[at + 1..];
    var d := dot - at - 1;
    forall k | d < k < |rest| ensures rest[k] != '.' {
      assert rest[k] == s[dot + 1..][k - d - 1];
      assert IsLetter(s[dot + 1..][k - d - 1]);
    }
    LastAt(rest, '.', d);
    CheckEmailAt(s, at, dot);
  }

  /** An occurrence of `c` with none before it is what `IndexOf` finds. */
  lemma {:induction false} FirstAt(s: string, c: char, i: nat)
    requires i < |s| && s[i] == c
    requires forall k :: 0 <= k < i ==> s[k] != c
    ensures IndexOf(s, c) == i
  {
    if i > 0 {
      assert s[0] != c;
      FirstAt(s[1..], c, i - 1);
    }
  }

  /** An occurrence of `c` with none after it is what `LastIndexOf` finds. */
  lemma {:induction false} LastAt(s: string, c: char, i: nat)
    requires i < |s| && s[i] == c
    requires forall k :: i < k < |s| ==> s[k] != c
    ensures LastIndexOf(s, c) == i
  {
    if i < |s| - 1 {
      assert s[|s| - 1] != c;
      LastAt(s[..|s| - 1], c, i);
    }
  }

  /** Once both indices are known, the computed check accepts the split at them. */
  lemma CheckEmailAt(s: string, at: nat, dot: int)
    requires ValidSplit(s, at, dot)
    requires IndexOf(s, '@') == at && LastIndexOf(s[at + 1..], '.') == dot - at - 1
    ensures CheckEmail(s)
  {
  }

  /** Name: required, then at least 2 characters. */
  function NameError(name: string): (r: Option<string>)
    ensures r.None? <==> |name| >= 2
  {
    if name == "" then Some("Name is required")
    else if |name| < 2 then Some("Name must be at least 2 characters")
    else None
  }

  /** Email: required, then the pattern. */
  function EmailError(email: string): (r: Option<string>)
    ensures r.None? <==> email != "" && CheckEmail(email)
  {
    if email == "" then Some("Email is required")
    else if !CheckEmail(email) then Some("Invalid email address")
    else None
  }

  /** An accepted email has the form local@domain.tld described by the pattern. */
  lemma AcceptedEmailsMatchPattern(email: string)
    ensures EmailError(email).None? <==> EmailPattern(email)
  {
    CheckEmailMatchesPattern(email);
  }

  /** Course: required; the empty placeholder option is rejected. */
  function CourseError(course: string): (r: Option<string>)
    ensures r.None? <==> course != ""
  {
    if course == "" then Some("Course is required") else None
  }

  /** The six courses the add-student form offers. */
  function AvailableCourses(): (r: seq<string>)
    ensures |r| == 6 && "" !in r
  {
    ["Computer Science", "Data Science", "Artificial Intelligence",
     "Cybersecurity", "Web Development", "Network Engineering"]
  }

  /** The values the course selector can produce: the placeholder, then the six courses. */
  function CourseOptions(): seq<string> {
    [""] + AvailableCourses()
  }

  /** Of the values the selector can produce, exactly the six listed courses pass. */
  lemma SelectableCoursesAccepted(course: string)
    requires course in CourseOptions()
    ensures CourseError(course).None? <==> course in AvailableCourses()
  {
  }

  /**
    GPA: the number input read as a number, `None` when it is empty.
    Required, then at least 0, then at most 4.
  */
  function GpaError(gpa: Option<real>): (r: Option<string>)
    ensures r.None? <==> gpa.Some? && 0.0 <= gpa.value <= 4.0
  {
    match gpa
    case None => Some("GPA is required")
    case Some(g) =>
      if g < 0.0 then Some("GPA must be at least 0")
      else if g > 4.0 then Some("GPA cannot exceed 4.0")
      else None
  }

  /** Password: required, then at least 6 characters. */
  function PasswordError(password: string): (r: Option<string>)
    ensures r.None? <==> |password| >= 6
  {
    if password == "" then Some("Password is required")
    else if |password| < 6 then Some("Password must be at least 6 characters")
    else None
  }
}
