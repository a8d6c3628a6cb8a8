/**
  The add-student page: its form rules, the record it hands to the
  repository, and the state flags its submit handler moves through.
*/
module AddStudentPage {
  import opened Wrappers
  import opened Values
  import opened StudentStore
  import opened FirestoreService
  import opened FormRules

  /** The form's fields; `gpa` is the number input read as a number, `None` when empty. */
  datatype StudentForm = StudentForm(name: string, email: string, course: string, gpa: Option<real>)

  /** The `errors` entry of one field: its message when its rule fails, nothing when it passes. */
  function ErrorEntry(field: string, e: Option<string>): (m: map<string, string>)
    ensures forall k :: k in m <==> e.Some? && k == field
    ensures e.Some? ==> m[field] == e.value
  {
    match e
    case Some(msg) => map[field := msg]
    case None => map[]
  }

  /** The `errors` object assembled from each field's rule outcome. */
  function ErrorsOf(name: Option<string>, email: Option<string>, course: Option<string>, gpa: Option<string>)
    : (errs: map<string, string>)
    ensures "name" in errs <==> name.Some?
    ensures "email" in errs <==> email.Some?
    ensures "course" in errs <==> course.Some?
    ensures "gpa" in errs <==> gpa.Some?
    ensures errs.Keys <= {"name", "email", "course", "gpa"}
  {
    ErrorEntry("name", name) + ErrorEntry("email", email) +
    ErrorEntry("course", course) + ErrorEntry("gpa", gpa)
  }

  /** The form's `errors` object: one message per field whose rule fails. */
  function FormErrors(f: StudentForm): (errs: map<string, string>)
    ensures "name" in errs <==> NameError(f.name).Some?
    ensures "email" in errs <==> EmailError(f.email).Some?
    ensures "course" in errs <==> CourseError(f.course).Some?
    ensures "gpa" in errs <==> GpaError(f.gpa).Some?
    ensures errs.Keys <= {"name", "email", "course", "gpa"}
  {
    ErrorsOf(NameError(f.name), EmailError(f.email), CourseError(f.course), GpaError(f.gpa))
  }

  /**
    The form is submitted exactly when the name has at least 2 characters,
    the email matches the pattern, a course is chosen and the GPA lies in
    [0, 4].
  */
  lemma {:induction false} FormAcceptedExactly(f: StudentForm)
    ensures FormErrors(f) == map[] <==>
      |f.name| >= 2 && EmailPattern(f.email) && f.course != "" &&
      f.gpa.Some? && 0.0 <= f.gpa.value <= 4.0
  {
    AcceptedEmailsMatchPattern(f.email);
    var errs := FormErrors(f);
    if errs != map[] {
      var k :| k in errs;
    }
  }

  /** The data the form passes to its submit handler. */
  function FormData(f: StudentForm): Doc
    requires f.gpa.Some?
  {
    map["name" := Str(f.name), "email" := Str(f.email), "course" := Str(f.course), "gpa" := Num(f.gpa.value)]
  }

  /**
    `{...data, addedBy: uid, addedByEmail: email}`: the signed-in user's
    identity wins over same-named fields of the data.
  */
  function Attributed(data: Doc, user: User): (r: Doc)
    ensures Get(r, "addedBy") == Str(user.uid)
    ensures Get(r, "addedByEmail") == Nullable(user.email)
    ensures forall k :: k != "addedBy" && k != "addedByEmail" ==> (k in r <==> k in data) && Get(r, k) == Get(data, k)
  {
    data + map["addedBy" := Str(user.uid), "addedByEmail" := Nullable(user.email)]
  }

  const LoginRequired := "You must be logged in to add a student"
  const AddFailed := "Failed to add student. Please try again."

  class Page {
    var isSubmitting: bool
    var submitError: Option<string>
    var submitSuccess: bool
    var showAuthModal: bool

    /** The page as first shown; without a user the sign-in modal opens at once. */
    constructor (user: Option<User>)
      ensures !isSubmitting && submitError == None && !submitSuccess
      ensures showAuthModal == user.None?
    {
      isSubmitting, submitError, submitSuccess := false, None, false;
      showAuthModal := user.None?;
    }

    /** The modal cannot be closed while nobody is signed in. */
    method CloseAuthModal(user: Option<User>)
      modifies this`showAuthModal
      ensures showAuthModal == (old(showAuthModal) && user.None?)
    {
      if user.None? {
        return;
      }
      showAuthModal := false;
    }

    /**
      `onSubmit`.  Without a user: an error, the sign-in modal, and no call
      to the repository.  With one: `addStudent` is called with the data
      attributed to the user, `isSubmitting` is on during the call and off
      after it; success sets `submitSuccess` with no error, failure sets the
      error message and leaves `submitSuccess` as it was.
    */
    method OnSubmit(data: Doc, user: Option<User>, students: StudentCollection,
                    today: string, newId: string, ok: bool)
      returns (called: bool, submittingDuringCall: bool)
      requires students.Valid() && newId !in Ids(students.entries)
      modifies this, students
      ensures students.Valid()
      ensures called <==> user.Some?
      ensures user.None? ==>
        && submitError == Some(LoginRequired) && showAuthModal
        && isSubmitting == old(isSubmitting) && submitSuccess == old(submitSuccess)
        && students.entries == old(students.entries)
      ensures user.Some? ==>
        && submittingDuringCall && !isSubmitting && showAuthModal == old(showAuthModal)
        && (ok ==> submitSuccess && submitError == None &&
                   students.entries == old(students.entries) +
                     [Entry(newId, Stamped(Attributed(data, user.value), today))])
        && (!ok ==> submitError == Some(AddFailed) && submitSuccess == old(submitSuccess) &&
                    students.entries == old(students.entries))
    {
      if user.None? {
        submitError := Some(LoginRequired);
        showAuthModal := true;
        return false, false;
      }
      submittingDuringCall := SubmitAs(data, user.value, students, today, newId, ok);
      called := true;
    }

    /** The signed-in path of `onSubmit`: the repository call and the flags around it. */
    method SubmitAs(data: Doc, user: User, students: StudentCollection,
                    today: string, newId: string, ok: bool)
      returns (submittingDuringCall: bool)
      requires students.Valid() && newId !in Ids(students.entries)
      modifies this`isSubmitting, this`submitError, this`submitSuccess, students
      ensures students.Valid()
      ensures submittingDuringCall && !isSubmitting
      ensures ok ==> submitSuccess && submitError == None &&
                     students.entries == old(students.entries) +
                       [Entry(newId, Stamped(Attributed(data, user), today))]
      ensures !ok ==> submitError == Some(AddFailed) && submitSuccess == old(submitSuccess) &&
                      students.entries == old(students.entries)
    {
      isSubmitting := true;
      submitError := None;
      submittingDuringCall := isSubmitting;
      var added := AddStudent(students, Attributed(data, user), today, newId, ok);
      if added.Ok? {
        submitSuccess := true;
      } else {
        submitError := Some(AddFailed);
      }
      isSubmitting := false;
    }

    /**
      `handleSubmit(onSubmit)`: the rules run first; on an invalid form
      nothing changes, and on a valid one the outcome is that of `onSubmit`
      with the form's data.
    */
    method HandleSubmit(form: StudentForm, user: Option<User>, students: StudentCollection,
                        today: string, newId: string, ok: bool)
      returns (errors: map<string, string>, called: bool)
      requires students.Valid() && newId !in Ids(students.entries)
      modifies this, students
      ensures students.Valid()
      ensures errors == FormErrors(form)
      ensures called <==> errors == map[] && user.Some?
      ensures errors != map[] ==>
        students.entries == old(students.entries) && submitError == old(submitError) &&
        submitSuccess == old(submitSuccess) && isSubmitting == old(isSubmitting) &&
        showAuthModal == old(showAuthModal)
      ensures errors == map[] && user.None? ==>
        && submitError == Some(LoginRequired) && showAuthModal
        && isSubmitting == old(isSubmitting) && submitSuccess == old(submitSuccess)
        && students.entries == old(students.entries)
      ensures errors == map[] && user.Some? ==>
        && !isSubmitting && showAuthModal == old(showAuthModal)
        && (ok ==> submitSuccess && submitError == None &&
                   students.entries == old(students.entries) +
                     [Entry(newId, Stamped(Attributed(FormData(form), user.value), today))])
        && (!ok ==> submitError == Some(AddFailed) && submitSuccess == old(submitSuccess) &&
                    students.entries == old(students.entries))
    {
      errors := FormErrors(form);
      if errors != map[] {
        return errors, false;
      }
      assert form.gpa.Some? by { assert GpaError(form.gpa).None?; }
      var busy;
      called, busy := OnSubmit(FormData(form), user, students, today, newId, ok);
    }
  }
}
