# Student roster: a Dafny model of its data and form logic

This project models the logic of a small student-roster web application.
The application keeps a `students` collection and a `users` collection in a
hosted document store, and it also ships an in-memory mock REST back end.
The model covers these parts:

- **The student repository.** It lists students (all, ordered by name, or
  one course, sorted by name), reads one student, adds, updates and
  deletes students, and lists the available courses. Reads fail soft: a
  failing read gives an empty or default value. Writes fail loud: the
  store's error comes back as `Err`. The model does not reproduce the
  store's rejection of `undefined` field values (see "Left out").
- **The mock back end.** A table of student objects. The POST handler
  appends to it in place with a generated id (max + 1). Two GET handlers
  read it, and a course-list function puts `'All'` first.
- **The seed-if-empty bootstrap.** It inserts seven sample students one at
  a time, only into an empty collection, with no rollback on a failure
  part-way.
- **The form rules and submit handlers** of the add-student page and the
  sign-in panel.
- **The user-profile panel.** It creates a profile with defaults, merges a
  loaded profile, edits one field, saves, counts the students a user
  added, and computes the avatar initial.

JavaScript objects are finite maps from field name to `Value`. Object
spread `{...a, ...b}` is the map union `a + b`, where the right operand wins
(`values.dfy`). The `students` collection is a `StudentCollection` object
whose `entries` the write methods replace (`student_store.dfy`). The
`users` collection is a `UserDirectory` object over a map from uid to
document.

Three kinds of input are parameters instead of being computed:

- **Store failures** are `ok` flags.
- **Store-generated ids** come with the requirement that they are new.
- **Clock readings** are strings such as `today` and `now`.

The identity provider's answer to a sign-in call is also a parameter.
Each page's state flags are fields of a class, and its handlers are
methods that change them.

Files:

- `values.dfy`: values, documents, truthiness.
- `name_order.dfy`: the name order and the sort by name.
- `distinct.dfy`: de-duplication in first-appearance order.
- `subsequence.dfy`: order-preserving selection.
- `student_store.dfy`: the `students` collection.
- `firestore_service.dfy`: the repository.
- `mock_api.dfy`: the mock back end.
- `seed_database.dfy`: the bootstrap.
- `form_rules.dfy`: field rules and the email pattern.
- `add_student_page.dfy`: the add-student page.
- `login_panel.dfy`: the sign-in panel.
- `user_profile.dfy`: the profile panel.

## Model

| member | source | states |
|---|---|---|
| NameOrder.NameLeReflexive | src/services/firestoreService.js:49 | the name order relates every name to itself |
| NameOrder.NameLeTotal | src/services/firestoreService.js:49 | any two names are ordered one way or the other |
| NameOrder.NameLeTransitive | src/services/firestoreService.js:49 | the name order is transitive, so sorting by it is well defined |
| NameOrder.InsertByName | src/services/firestoreService.js:49 | inserting into a name-sorted list keeps it sorted and adds exactly that record |
| NameOrder.SortByName | src/services/firestoreService.js:43-49 | the result is sorted by name and is a permutation of the input |
| Distinct.DedupSpec | src/services/firestoreService.js:127-137 | like `Array.from(new Set(xs))`: no duplicates, exactly the elements of the input, the first element first, and elements in order of first appearance |
| Distinct.DedupSnoc | src/services/firestoreService.js:133 | adding an element to the set appends it if it is new and changes nothing if it is already there |
| StudentStore.Lookup | src/services/firestoreService.js:59-61 | a document is found exactly when its id is in the collection, and what is found is that id's data |
| StudentStore.LookupAppend | src/services/firestoreService.js:57-82 | after an insert, the new id finds the inserted data and every id already present finds what it found before |
| StudentStore.Updated | src/services/firestoreService.js:97-100 | an update keeps the length and every id in place |
| StudentStore.Removed | src/services/firestoreService.js:114-115 | a delete removes exactly that id and adds nothing |
| StudentStore.RemovedExactlyOne | src/services/firestoreService.js:112-116 | deleting an existing id removes exactly its one document and keeps the others in order |
| StudentStore.RemovedAt | src/services/firestoreService.js:112-116 | deleting an id that only one position holds cuts out exactly that position and keeps the rest in order |
| StudentStore.RemovedKeepsDistinct | src/services/firestoreService.js:112-116 | ids stay unique after a delete |
| StudentStore.RemovedAbsent | src/services/firestoreService.js:112-116 | deleting an id that is not there changes nothing |
| StudentStore.StudentCollection.AddDoc | src/services/firestoreService.js:82 | an insert appends one document under a new id, or fails and changes nothing |
| StudentStore.StudentCollection.UpdateDoc | src/services/firestoreService.js:96-100 | a merge onto an existing document; a missing document or a store failure changes nothing |
| StudentStore.StudentCollection.DeleteDoc | src/services/firestoreService.js:114-115 | a delete removes that document, or fails and changes nothing |
| FirestoreService.InWithIds | src/services/firestoreService.js:23-26 | a record is in the listing if and only if it is `{id, ...data}` of some document |
| FirestoreService.HavingName | src/services/firestoreService.js:21 | the ordered query returns every document that has a `name` field, as many times as it is stored, and no other, in store order (a subsequence of the collection) |
| FirestoreService.GetAllStudents | src/services/firestoreService.js:19-31 | on success: every named document with its id, sorted by name, a permutation of the query result; on failure: `[]` |
| FirestoreService.CourseMatches | src/services/firestoreService.js:37-40 | the equality filter keeps every document whose course is the requested string, as many times as it is stored, and no other, in store order |
| FirestoreService.GetStudentsByCourse | src/services/firestoreService.js:34-54 | on success: a name-sorted permutation of exactly the matching documents with ids; on failure: `[]` |
| FirestoreService.ByCourseExactly | src/services/firestoreService.js:34-54 | a record is in the course listing if and only if it is `{id, ...data}` of a document with that course |
| FirestoreService.ByCourseWithinFullListing | src/services/firestoreService.js:19-54 | every named record of a course listing is also in the full listing |
| FirestoreService.NamelessOnlyByCourse | src/services/firestoreService.js:21-49 | in a collection holding a lone document without a name, that document is listed under its course but the full listing is empty |
| FirestoreService.StudentsForSelection | src/components/StudentList.jsx:32-36 | after a successful read the list is sorted by name and a record is in it iff it is `{id, ...data}` of a document that has a name (for `'All'`) or has the selected course (any other value); a failed read shows nothing |
| FirestoreService.AllExactly | src/services/firestoreService.js:19-31 | a successful full listing holds exactly the documents that have a name, each as `{id, ...data}` |
| FirestoreService.GetStudent | src/services/firestoreService.js:57-72 | a record is returned exactly when the read succeeds and the id exists, and it is that document with its id; not-found and failure both give `null` |
| FirestoreService.Stamped | src/services/firestoreService.js:77-81 | a truthy `enrollmentDate` is kept, otherwise it is today; `createdAt` is the server timestamp; every other field is unchanged |
| FirestoreService.AddStudent | src/services/firestoreService.js:75-91 | on success: one document appended under the new id, and the result is `{id, ...stored}`; on failure: an error and no change |
| FirestoreService.AddThenGet | src/services/firestoreService.js:57-91 | reading the new id right after an add gives exactly what the add returned; other ids read as before. The add returns the `serverTimestamp()` placeholder in `createdAt`, while a read returns the timestamp the store resolved it to; both are the one value `ServerTime` here |
| FirestoreService.CreateThenReadKeepsDraft | src/services/firestoreService.js:75-91 | every draft field other than `enrollmentDate` and `createdAt` reads back unchanged |
| FirestoreService.UpdateStudent | src/services/firestoreService.js:94-109 | succeeds exactly when the store is up and the document exists; the fields plus `updatedAt` are merged onto it, and the result is `{id, ...fields}`; otherwise an error and no change |
| FirestoreService.UpdateMerges | src/services/firestoreService.js:94-100 | after an update the named fields take the new values, unnamed fields keep theirs, `updatedAt` is set, and other documents are untouched |
| FirestoreService.DeleteStudent | src/services/firestoreService.js:112-121 | on success: returns the id, and exactly that id is gone; on failure: an error and no change |
| FirestoreService.TruthyCourses | src/services/firestoreService.js:130-135 | the truthy values of the course column, each as often as it occurs there, in document order (a subsequence of the column) |
| FirestoreService.TruthyCoursesSnoc | src/services/firestoreService.js:130-135 | one more document adds its course at the end exactly when that course is truthy |
| FirestoreService.CoursesStep | src/services/firestoreService.js:130-135 | one step of the loop adds a truthy course not yet in the set at the end, and otherwise leaves the list as it was |
| FirestoreService.GetAvailableCourses | src/services/firestoreService.js:124-142 | the loop builds the de-duplicated list of `"All"` followed by the truthy courses; on failure: `["All"]` |
| FirestoreService.AvailableCoursesShape | src/services/firestoreService.js:124-142 | `"All"` is first and appears once; each truthy course appears once and nothing else does; courses are in first-appearance order |
| FirestoreService.SeededDedupShape | src/services/firestoreService.js:127-137 | a set seeded with one value and then fed a list reads back that value first and once, then each other listed value once, in order of first appearance |
| MockApi.MaxId | src/services/mockApi.js:84 | `Math.max` over the ids is an upper bound attained by some row, and NaN when some id is not a number |
| MockApi.NextIdIsFresh | src/services/mockApi.js:84 | with numeric ids the generated id, in exact arithmetic, is greater than every stored id; a non-numeric id makes it NaN |
| MockApi.NewRecord | src/services/mockApi.js:86-90 | the stored object takes a submitted `id` over the generated one, always has today's `enrollmentDate`, and keeps every other submitted field |
| MockApi.RowsWithCourse | src/services/mockApi.js:63 | the filter keeps every row of that course, as many times as it occurs, and no other row, in table order (a subsequence of the table) |
| MockApi.ListStudents | src/services/mockApi.js:58-68 | no course, an empty one or `'All'` gives the whole table unchanged; any other course gives the filtered rows: each row of that course as often as in the table, none other, in table order |
| MockApi.FindStudent | src/services/mockApi.js:71-79 | found exactly when some row has that id, and then it is the first such row; otherwise a 404 with `'Student not found'` |
| MockApi.AvailableCourses | src/services/mockApi.js:97-100 | the list is non-empty and starts with `'All'` |
| MockApi.AvailableCoursesShape | src/services/mockApi.js:97-100 | after `'All'` comes each course value once, including falsy ones, in first-appearance order; a course named `'All'` is listed again |
| MockApi.StudentTable.constructor | src/services/mockApi.js:55 | the table starts as the five initial students |
| MockApi.StudentTable.Post | src/services/mockApi.js:82-94 | answers 201; exactly one new record is appended at the end, and earlier rows and their order are unchanged |
| MockApi.FirstPostGetsSix | src/services/mockApi.js:84 | on the initial table the first POST without an id receives id 6 |
| SeedDatabase.SampleStudents | src/utils/seedDatabase.js:5-55 | there are seven sample records |
| SeedDatabase.Tagged | src/utils/seedDatabase.js:70-74 | a seeded record has `addedBy` set to the actor and `createdAt` set to the server timestamp; every other sample field is unchanged |
| SeedDatabase.SeedEntries | src/utils/seedDatabase.js:69-76 | the i-th insert stores the i-th sample, tagged, under the i-th new id |
| SeedDatabase.SeedOnlyWhenEmpty | src/utils/seedDatabase.js:64-82 | a non-empty collection is never changed, and the call reports failure with the "already has students" message |
| SeedDatabase.SeedInsertsAllSamples | src/utils/seedDatabase.js:67-78 | a complete seed inserts all seven samples in list order and reports count 7 |
| SeedDatabase.ActorIsUserOrSystem | src/utils/seedDatabase.js:72 | the actor is the user id when it is truthy, otherwise `'system'` |
| SeedDatabase.SeedFailureKeepsPrefix | src/utils/seedDatabase.js:69-86 | a failed insert keeps exactly the earlier inserts (no rollback) and reports failure |
| SeedDatabase.CheckAndSeedIsIdempotent | src/utils/seedDatabase.js:90-99 | after a seed has inserted anything, a second check inserts nothing and reports success with the current size |
| SeedDatabase.SeedEntriesGrow | src/utils/seedDatabase.js:69-76 | each loop step extends the inserted prefix by the next tagged sample |
| SeedDatabase.Seed | src/utils/seedDatabase.js:58-87 | the loop's outcome and final collection are those of the seed specification |
| SeedDatabase.CheckAndSeed | src/utils/seedDatabase.js:90-104 | a non-empty collection reports its size; an empty one is seeded with the same user; a failure is reported |
| FormRules.CheckEmailMatchesPattern | src/components/AddStudent.jsx:173 | the computed email check accepts exactly the strings the pattern matches |
| FormRules.NameError | src/components/AddStudent.jsx:151-154 | a name passes if and only if it has at least 2 characters |
| FormRules.EmailError | src/components/AddStudent.jsx:170-176 | an email passes if and only if it is non-empty and passes the pattern check |
| FormRules.AcceptedEmailsMatchPattern | src/components/AddStudent.jsx:170-176 | an email passes if and only if it has the form local@domain.tld of the pattern |
| FormRules.CourseError | src/components/AddStudent.jsx:191 | a course passes if and only if one is chosen |
| FormRules.AvailableCourses | src/components/AddStudent.jsx:40-47 | six courses, none of them the empty placeholder |
| FormRules.SelectableCoursesAccepted | src/components/AddStudent.jsx:188-197 | of the selector's values, exactly the six listed courses pass |
| FormRules.GpaError | src/components/AddStudent.jsx:215-220 | a GPA passes if and only if it is given and lies in [0, 4] |
| FormRules.PasswordError | src/components/Login.jsx:135-141 | a password passes if and only if it has at least 6 characters |
| AddStudentPage.ErrorsOf | src/components/AddStudent.jsx:151-220 | the `errors` object has a key for exactly the fields whose rule gave a message, and no other key |
| AddStudentPage.FormErrors | src/components/AddStudent.jsx:151-220 | a field has an error message if and only if its rule fails, and only the four fields can have one |
| AddStudentPage.FormAcceptedExactly | src/components/AddStudent.jsx:151-220 | the form passes its rules if and only if the name has 2+ characters, the email matches, a course is chosen, and the GPA is in [0, 4] |
| AddStudentPage.Attributed | src/components/AddStudent.jsx:62-66 | `addedBy` is the uid and `addedByEmail` the user's email, overriding same-named form fields; other fields are unchanged |
| AddStudentPage.Page.constructor | src/components/AddStudent.jsx:16-20 | without a user, the sign-in modal is open from the start |
| AddStudentPage.Page.CloseAuthModal | src/components/AddStudent.jsx:23-29 | the modal closes only when someone is signed in |
| AddStudentPage.Page.OnSubmit | src/components/AddStudent.jsx:50-82 | without a user: an error and the modal, and no call; with one: the attributed record is added, `isSubmitting` is on during the call and off after it, success sets `submitSuccess`, and failure sets the error |
| AddStudentPage.Page.SubmitAs | src/components/AddStudent.jsx:57-81 | the signed-in path: `isSubmitting` on during the call and off after it; success appends the attributed, stamped record and sets `submitSuccess` with no error; failure sets the error and changes no document |
| AddStudentPage.Page.HandleSubmit | src/components/AddStudent.jsx:141 | the handler runs only on a form that passes its rules, otherwise nothing changes; on a passing form the flags and the collection are exactly those `onSubmit` gives for the form's data (no user, success, failed write) |
| LoginPanel.LoginErrors | src/components/Login.jsx:112-141 | email and password each have an error if and only if their rule fails |
| LoginPanel.LoginAcceptedExactly | src/components/Login.jsx:112-141 | the form passes its rules if and only if the email matches the pattern and the password has 6+ characters |
| LoginPanel.SubmitCall | src/components/Login.jsx:21-25 | sign-in mode calls `login`, otherwise `signup`, never both, with the entered credentials |
| LoginPanel.Panel.constructor | src/components/Login.jsx:7-8 | the panel starts in sign-in mode and is not loading |
| LoginPanel.Panel.OnSubmit | src/components/Login.jsx:15-32 | the call chosen by the mode; loading during the call and not after it; `onClose` only on success when one was given |
| LoginPanel.Panel.HandleSubmit | src/components/Login.jsx:101 | no call on an invalid form; otherwise the submit above |
| LoginPanel.Panel.GoogleSignIn | src/components/Login.jsx:35-43 | the popup call; loading during it and not after it; `onClose` only on success when one was given |
| LoginPanel.Panel.ToggleMode | src/components/Login.jsx:165 | the footer flips the mode |
| UserProfile.InitialProfile | src/components/UserProfile.jsx:9-17 | the provider's name, email and photo or `''`, role `'user'`, and empty bio, phone and department |
| UserProfile.NewProfile | src/components/UserProfile.jsx:42-49 | the created profile has exactly the identity fields, role `'user'` and the two timestamps; name, email and photo are the provider's, or `''` when it has none |
| UserProfile.Merged | src/components/UserProfile.jsx:36-39 | loaded fields override; fields only the current profile has are kept |
| UserProfile.CreatedProfileKeepsDefaults | src/components/UserProfile.jsx:41-55 | after creating a profile, the shown profile keeps every default and adds the two timestamps |
| UserProfile.Changed | src/components/UserProfile.jsx:76-82 | exactly the named field takes the value, and every other field is unchanged |
| UserProfile.SavePayload | src/components/UserProfile.jsx:95-98 | the whole profile plus `updatedAt` |
| UserProfile.SaveThenLoad | src/components/UserProfile.jsx:94-98 | reading a saved profile back over any state shows every saved field as saved |
| UserProfile.CountAddedBy | src/components/UserProfile.jsx:59-62 | the count never exceeds the number of records |
| UserProfile.CountAddedByIsCardinality | src/components/UserProfile.jsx:59-62 | the count is the number of records whose `addedBy` is the uid |
| UserProfile.CountAddedByConcat | src/components/UserProfile.jsx:59-62 | the count over two runs of records is the sum of their counts |
| UserProfile.CountAllMatching | src/components/UserProfile.jsx:59-62 | when every record is the user's, all of them count |
| UserProfile.AddedStudentCounts | src/components/AddStudent.jsx:62-66 | a student added on the add-student page raises its user's count by one |
| UserProfile.SeededStudentsCount | src/utils/seedDatabase.js:72 | a complete seed by a signed-in user counts seven students as theirs |
| UserProfile.Initial | src/components/UserProfile.jsx:126-130 | one character, never an ASCII lower-case letter; the first letter of the display name, else of the email, else `'U'` |
| UserProfile.InitialIgnoresOtherFields | src/components/UserProfile.jsx:126-130 | editing a field other than name and email keeps the initial |
| UserProfile.UserDirectory.GetDoc | src/components/UserProfile.jsx:31-34 | the stored profile, `None` when there is none, or an error |
| UserProfile.UserDirectory.SetDoc | src/components/UserProfile.jsx:51 | creates or replaces the document, or fails and changes nothing |
| UserProfile.UserDirectory.UpdateDoc | src/components/UserProfile.jsx:95-98 | merges onto an existing document; a missing document or a failure changes nothing |
| UserProfile.ProfilePanel.constructor | src/components/UserProfile.jsx:9-22 | the initial profile, loading, no error, no message, zero students |
| UserProfile.ProfilePanel.FetchProfile | src/components/UserProfile.jsx:26-73 | without a user: nothing; otherwise the stored profile, or a newly written one, is merged over the shown profile, and the user's students are counted; any failing call sets `'Failed to load user profile'`, keeps what was done so far, and clears loading |
| UserProfile.ProfilePanel.HandleChange | src/components/UserProfile.jsx:76-82 | exactly the named field is changed |
| UserProfile.ProfilePanel.HandleSubmit | src/components/UserProfile.jsx:85-114 | without a user: nothing; otherwise the profile plus `updatedAt` is merged onto the stored document; success leaves editing with the success message; failure sets the save error; loading is off either way |

Two behaviours of the code worth knowing:

- `getStudent` returns `null` both for a missing document and for a failed
  read, so the two cannot be told apart.
- The course list after `"All"` is in first-appearance order.

## Left out

- The hosted store and identity provider themselves are not modelled. This
  covers connection, security rules, the real id generator and the real
  server timestamp. Store failures are `ok` flags, and generated ids are
  parameters that must be new.
- `src/contexts/AuthContext.jsx` is not part of this model. Its behaviour
  belongs to the identity provider. The result of a sign-in call is an
  input, and the provider's error message is not modelled.
- Clock readings are not computed. "Today" and the ISO timestamps are
  string parameters.
- The two clock readings of a new profile are separate parameters, so
  they may differ, as they can in the code.
- Timers are not modelled: the 3-second clearing of the success messages
  and the 5-second expiry of sign-in errors.
- The add-student form's `reset()` after a successful submit is not
  modelled.
- Rendering and the pages that only render are not modelled: the app
  shell, dashboard, navigation bar, sign-in modal wrapper and theme
  handling. The student list's loading flags are also left out; only its
  `'All'`/course dispatch is modelled.
- The mock back end's HTTP routing, its 1000 ms delay and the `parseInt`
  of the URL are not modelled. The handlers take the id or course
  directly.
- Concurrent requests and their interleaving are not modelled. Every
  operation runs to completion in sequence.
- `updateDoc`'s reading of dotted field names as nested paths is not
  modelled. Keys are flat.
- Document ids are taken as single path segments; path validity is not
  modelled. The store joins the collection name and the id and splits the
  result on `/`, dropping empty segments. When the segment count comes out
  odd, as for `""` or `"a/b"`, `doc()` throws. Otherwise the call goes to
  another document: `"a/b/c"` names a document in a subcollection, and
  `"a/"` names document `a`.
- Fields whose value is `undefined` are not rejected by the model's writes.
  With the store's default settings (`ignoreUndefinedProperties` off),
  `addDoc`, `setDoc` and `updateDoc` reject such a field, and the write
  fails. The app's own forms never send `undefined`. The lines below name
  the members that do not model this.
- StudentStore.StudentCollection.AddDoc: stores a document holding an
  `Undefined` field value and reports success, where `addDoc` rejects it.
- StudentStore.StudentCollection.UpdateDoc: merges an `Undefined` field
  value and reports success, where `updateDoc` rejects it.
- FirestoreService.AddStudent: a draft holding an `Undefined` value is
  stored and returned as `Ok`, where `addDoc` throws and `addStudent`
  rethrows.
- FirestoreService.UpdateStudent: fields holding `Undefined` are merged and
  returned as `Ok`, where `updateDoc` throws and `updateStudent` rethrows.
- UserProfile.UserDirectory.SetDoc: stores a profile holding an `Undefined`
  value, where `setDoc` rejects it.
- UserProfile.UserDirectory.UpdateDoc: merges an `Undefined` value, where
  `updateDoc` rejects it.
- NameOrder.NameLe: `localeCompare` and the store's string ordering are
  modelled as lexicographic order on characters. Locale collation is not
  modelled.
- FirestoreService.GetAllStudents: the store orders non-string names by
  value type. The model sorts them as the empty string.
- FirestoreService.GetStudentsByCourse: a non-string `name` makes the
  client-side comparator throw. Whether it throws depends on the engine's
  comparison order, and when it does the listing degrades to `[]`. The
  model sorts such names as the empty string instead.
- MockApi.MaxId: `Math.max` converts a numeric string id such as `"7"` to
  a number. The model treats every string as NaN.
- MockApi.NextIdIsFresh: ids are exact real numbers, not IEEE doubles, so
  `max + 1` is always larger than `max`. In the code, from 2^53 on, `max + 1`
  can round back to `max`, and `Infinity + 1` is `Infinity`. Because a POST
  may submit its own `id`, a table can reach such an id: a POST of
  `{"id": 9007199254740992}` followed by a POST of `{}` stores two rows with
  the same id. The lemma's freshness holds for the code only while every
  stored id is below 2^53.
- FormRules.GpaError: the GPA is a real number, not an IEEE double. The
  input's `step="0.1"` is not enforced by the rules and is not modelled.
- FormRules.NameError: length is counted in characters. The browser counts
  UTF-16 code units.
- FormRules.PasswordError: length is counted in characters, while the
  form library's `minLength` counts UTF-16 code units. A password of three
  characters outside the Basic Multilingual Plane is 6 units long: the code
  accepts it and the model rejects it.
- The browser's own validation is not modelled. Before the form rules run,
  it can block a submit: `type="email"` (src/components/AddStudent.jsx:168,
  src/components/Login.jsx:109) and `min`/`max`/`step` on the GPA
  (src/components/AddStudent.jsx:211-213). So "passes its rules" in
  AddStudentPage.FormAcceptedExactly, LoginPanel.LoginAcceptedExactly,
  AddStudentPage.Page.HandleSubmit and LoginPanel.Panel.HandleSubmit is
  necessary for a submit but not always enough.
- FirestoreService.HavingName: the store returns query results ordered by
  document id (after the name, for the ordered query). The model keeps the
  order in which documents were added. The two differ for documents with
  equal names.
- FirestoreService.CourseMatches: the store returns the filtered documents
  ordered by document id; the model keeps the order in which they were
  added. After the client-side sort, this decides the order of equal names.
- FirestoreService.GetAvailableCourses: the unfiltered read returns the
  documents ordered by document id; the model reads them in the order they
  were added. This decides the order of the courses after `"All"`.
- Console logging (`console.error`, `console.log`) is not modelled. It has
  no effect on the returned values or the stored data.
- UserProfile.Initial: upper-casing is modelled for ASCII letters only. A
  display name or email that is truthy but not a string makes the code
  throw; the model treats it as empty. The model's first character stands
  for `charAt(0)`, which is the first UTF-16 code unit. The two differ when
  the first character lies outside the Basic Multilingual Plane: for a
  name starting with U+1F600 the code shows a lone high surrogate (U+D83D), while the model
  shows the whole emoji.
- UserProfile.ProfilePanel.FetchProfile: the code merges over the profile
  as it was when the effect was created. The model merges over the
  current profile.
