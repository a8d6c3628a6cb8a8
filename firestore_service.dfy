/**
  The student repository over the hosted `students` collection.  Reads fail
  soft: a failing store read yields an empty (or default) value.  Writes fail
  loud: the store's error is handed back to the caller as `Err`.
*/
module FirestoreService {
  import opened Wrappers
  import opened Values
  import opened NameOrder
  import opened Distinct
  import opened StudentStore
  import opened Subsequences

  /** `snapshot.docs.map(doc => ({id: doc.id, ...doc.data()}))` */
  function WithIds(es: seq<Entry>): seq<Doc> {
    seq(|es|, i requires 0 <= i < |es| => WithId(Str(es[i].id), es[i].data))
  }

  /**
    The documents an `orderBy("name")` query returns: every document that
    has a `name` field, each once, in store order.
  */
  function HavingName(es: seq<Entry>): (r: seq<Entry>)
    ensures forall e :: e in r <==> e in es && "name" in e.data
    ensures forall e :: multiset(r)[e] == if "name" in e.data then multiset(es)[e] else 0
    ensures IsSubsequence(r, es)
  {
    if es == [] then []
    else
      assert es == [es[0]] + es[1..];
      var rest := HavingName(es[1..]);
      if "name" in es[0].data then
        KeepFront(es[0], rest, es[1..]);
        [es[0]] + rest
      else
        DropFront(es[0], rest, es[1..]);
        rest
  }

  /**
    `getAllStudents`: every document that has a name, with its id, ordered
    by name; `[]` when the read fails.
  */
  function GetAllStudents(es: seq<Entry>, ok: bool): (r: seq<Doc>)
    ensures !ok ==> r == []
    ensures ok ==> SortedByName(r) && multiset(r) == multiset(WithIds(HavingName(es)))
  {
    if ok then SortByName(WithIds(HavingName(es))) else []
  }

  /**
    The documents the equality filter `where("course", "==", course)`
    selects: every document whose course is that string, each once, in
    store order.
  */
  function CourseMatches(es: seq<Entry>, course: string): (r: seq<Entry>)
    ensures forall e :: e in r <==> e in es && Get(e.data, "course") == Str(course)
    ensures forall e :: multiset(r)[e] ==
              if Get(e.data, "course") == Str(course) then multiset(es)[e] else 0
    ensures IsSubsequence(r, es)
  {
    if es == [] then []
    else
      assert es == [es[0]] + es[1..];
      var rest := CourseMatches(es[1..], course);
      if Get(es[0].data, "course") == Str(course) then
        KeepFront(es[0], rest, es[1..]);
        [es[0]] + rest
      else
        DropFront(es[0], rest, es[1..]);
        rest
  }

  /** `getStudentsByCourse`: the matching documents, sorted by name on the client; `[]` when the read fails. */
  function GetStudentsByCourse(es: seq<Entry>, course: string, ok: bool): (r: seq<Doc>)
    ensures !ok ==> r == []
    ensures ok ==> SortedByName(r) && multiset(r) == multiset(WithIds(CourseMatches(es, course)))
  {
    if ok then SortByName(WithIds(CourseMatches(es, course))) else []
  }

  /**
    A successful course listing holds exactly the documents whose `course` is
    the requested one, each as `{id, ...data}`.
  */
  lemma ByCourseExactly(es: seq<Entry>, course: string, d: Doc)
    ensures d in GetStudentsByCourse(es, course, true) <==>
            exists e :: e in es && Get(e.data, "course") == Str(course) && d == WithId(Str(e.id), e.data)
  {
    var m := CourseMatches(es, course);
    var r := GetStudentsByCourse(es, course, true);
    assert d in r <==> d in multiset(WithIds(m));
    InWithIds(m, d);
  }

  /**
    A successful full listing holds exactly the documents that have a name,
    each as `{id, ...data}`.
  */
  lemma AllExactly(es: seq<Entry>, d: Doc)
    ensures d in GetAllStudents(es, true) <==>
            exists e :: e in es && "name" in e.data && d == WithId(Str(e.id), e.data)
  {
    var m := HavingName(es);
    var r := GetAllStudents(es, true);
    assert d in r <==> d in multiset(WithIds(m));
    InWithIds(m, d);
  }

  /** A record is in `WithIds(es)` exactly when it is `{id, ...data}` of one of the documents. */
  lemma InWithIds(es: seq<Entry>, d: Doc)
    ensures d in WithIds(es) <==> exists e :: e in es && d == WithId(Str(e.id), e.data)
  {
    if d in WithIds(es) {
      var i :| 0 <= i < |es| && WithIds(es)[i] == d;
      assert es[i] in es;
    }
    if exists e :: e in es && d == WithId(Str(e.id), e.data) {
      var e :| e in es && d == WithId(Str(e.id), e.data);
      var i :| 0 <= i < |es| && es[i] == e;
      assert WithIds(es)[i] == d;
    }
  }

  /**
    Every record of a course listing that has a name is also in the full
    listing.  A record without a name shows up under its course but not in
    the full listing, which the name ordering leaves it out of.
  */
  lemma ByCourseWithinFullListing(es: seq<Entry>, course: string)
    ensures forall d :: d in GetStudentsByCourse(es, course, true) && "name" in d ==> d in GetAllStudents(es, true)
  {
    forall d | d in GetStudentsByCourse(es, course, true) && "name" in d
      ensures d in GetAllStudents(es, true)
    {
      ByCourseExactly(es, course, d);
      var e :| e in es && Get(e.data, "course") == Str(course) && d == WithId(Str(e.id), e.data);
      assert "name" in e.data;
      var named := HavingName(es);
      assert e in named;
      var i :| 0 <= i < |named| && named[i] == e;
      assert WithIds(named)[i] == d;
      assert d in multiset(WithIds(named));
    }
  }

  /** A record without a name is listed under its course and missing from the full listing. */
  lemma NamelessOnlyByCourse(id: string, course: string)
    ensures var es := [Entry(id, map["course" := Str(course)])];
      && GetAllStudents(es, true) == []
      && GetStudentsByCourse(es, course, true) == [WithId(Str(id), map["course" := Str(course)])]
  {
    var es := [Entry(id, map["course" := Str(course)])];
    assert HavingName(es[1..]) == [];
    assert CourseMatches(es[1..], course) == [];
    var d := WithId(Str(id), map["course" := Str(course)]);
    assert WithIds(CourseMatches(es, course)) == [d];
    var r := GetStudentsByCourse(es, course, true);
    assert |multiset(r)| == 1 && r[0] in multiset(r);
  }

  /**
    A document shown for a selector value: `'All'` shows every document that
    has a name (the ordered query's reach), any other value the documents of
    that course.
  */
  predicate ShownFor(e: Entry, selected: string) {
    if selected == "All" then "name" in e.data else Get(e.data, "course") == Str(selected)
  }

  /**
    The list a course selector shows: after a successful read, sorted by name
    and holding exactly the selected documents, each as `{id, ...data}`;
    nothing after a failed read.
  */
  function StudentsForSelection(es: seq<Entry>, selected: string, ok: bool): (r: seq<Doc>)
    ensures !ok ==> r == []
    ensures ok ==> SortedByName(r)
    ensures ok ==> forall d :: d in r <==>
              exists e :: e in es && ShownFor(e, selected) && d == WithId(Str(e.id), e.data)
  {
    var r := if selected == "All" then GetAllStudents(es, ok) else GetStudentsByCourse(es, selected, ok);
    assert ok ==> forall d :: d in r <==>
              exists e :: e in es && ShownFor(e, selected) && d == WithId(Str(e.id), e.data) by {
      if ok {
        forall d ensures d in r <==> exists e :: e in es && ShownFor(e, selected) && d == WithId(Str(e.id), e.data) {
          if selected == "All" { AllExactly(es, d); } else { ByCourseExactly(es, selected, d); }
        }
      }
    }
    r
  }

  /**
    `getStudent`: the document with its id when it exists, else `null`.  A
    failing read also gives `null`, so absence and failure look the same.
  */
  function GetStudent(es: seq<Entry>, id: string, ok: bool): (r: Option<Doc>)
    ensures r.Some? <==> ok && id in Ids(es)
    ensures r.Some? ==> exists d :: Entry(id, d) in es && r.value == WithId(Str(id), d)
  {
    if !ok then None
    else match Lookup(es, id)
      case Some(d) => Some(WithId(Str(id), d))
      case None => None
  }

  /**
    The document `addStudent` stores: the draft, with a truthy
    `enrollmentDate` kept and otherwise today's date, and `createdAt` set to
    the server timestamp.
  */
  function Stamped(student: Doc, today: string): (r: Doc)
    ensures Get(r, "enrollmentDate") ==
            if Truthy(Get(student, "enrollmentDate")) then Get(student, "enrollmentDate") else Str(today)
    ensures Get(r, "createdAt") == ServerTime
    ensures forall k :: k != "enrollmentDate" && k != "createdAt" ==>
              (k in r <==> k in student) && Get(r, k) == Get(student, k)
  {
    var date := Get(student, "enrollmentDate");
    student + map["enrollmentDate" := (if Truthy(date) then date else Str(today)),
                  "createdAt" := ServerTime]
  }

  /**
    `addStudent`: on success one document is appended under the fresh id and
    `{id, ...stored}` is returned; on failure nothing is stored and the error
    is rethrown.
  */
  method AddStudent(students: StudentCollection, student: Doc, today: string, newId: string, ok: bool)
    returns (r: Result<Doc, StoreError>)
    requires students.Valid() && newId !in Ids(students.entries)
    modifies students
    ensures students.Valid()
    ensures ok ==> r == Ok(WithId(Str(newId), Stamped(student, today)))
    ensures ok ==> students.entries == old(students.entries) + [Entry(newId, Stamped(student, today))]
    ensures !ok ==> r == Err(Unavailable) && students.entries == old(students.entries)
  {
    var stored := Stamped(student, today);
    var added := students.AddDoc(stored, newId, ok);
    match added
    case Ok(id) =>
      r := Ok(WithId(Str(id), stored));
    case Err(e) =>
      r := Err(e);
  }

  /**
    Reading back a document right after it was added gives the record the
    add returned; documents with other ids read as before.
  */
  lemma AddThenGet(es: seq<Entry>, newId: string, d: Doc, other: string)
    requires newId !in Ids(es)
    ensures GetStudent(es + [Entry(newId, d)], newId, true) == Some(WithId(Str(newId), d))
    ensures other != newId ==> GetStudent(es + [Entry(newId, d)], other, true) == GetStudent(es, other, true)
  {
    LookupAppend(es, Entry(newId, d), newId);
    LookupAppend(es, Entry(newId, d), other);
  }

  /**
    A draft created and read back keeps every field it had, except that an
    empty `enrollmentDate` becomes today and `createdAt` is the server's.
  */
  lemma CreateThenReadKeepsDraft(es: seq<Entry>, newId: string, draft: Doc, today: string, k: string)
    requires newId !in Ids(es)
    requires k in draft && k != "enrollmentDate" && k != "createdAt"
    ensures GetStudent(es + [Entry(newId, Stamped(draft, today))], newId, true).Some?
    ensures Get(GetStudent(es + [Entry(newId, Stamped(draft, today))], newId, true).value, k) == draft[k]
  {
    AddThenGet(es, newId, Stamped(draft, today), newId);
  }

  /**
    `updateStudent`: merges the fields onto the existing document and stamps
    `updatedAt`; returns `{id, ...fields}`.  A failing write, or a missing
    document, is rethrown and nothing changes.
  */
  method UpdateStudent(students: StudentCollection, id: string, fields: Doc, ok: bool)
    returns (r: Result<Doc, StoreError>)
    requires students.Valid()
    modifies students
    ensures students.Valid()
    ensures r.Ok? <==> ok && id in Ids(old(students.entries))
    ensures r.Ok? ==> r.value == WithId(Str(id), fields)
    ensures r.Ok? ==>
              students.entries == Updated(old(students.entries), id, fields + map["updatedAt" := ServerTime])
    ensures r.Err? ==> students.entries == old(students.entries)
  {
    var written := students.UpdateDoc(id, fields + map["updatedAt" := ServerTime], ok);
    match written
    case Ok(_) =>
      r := Ok(WithId(Str(id), fields));
    case Err(e) =>
      r := Err(e);
  }

  /**
    After an update the document keeps every field the update did not name,
    takes the named ones, and carries `updatedAt`; the other documents are
    untouched.
  */
  lemma UpdateMerges(es: seq<Entry>, id: string, fields: Doc, i: nat, k: string)
    requires i < |es|
    ensures var u := Updated(es, id, fields + map["updatedAt" := ServerTime]);
            if es[i].id == id then
              Get(u[i].data, "updatedAt") == ServerTime &&
              (k in fields && k != "updatedAt" ==> Get(u[i].data, k) == fields[k]) &&
              (k !in fields && k != "updatedAt" ==> Get(u[i].data, k) == Get(es[i].data, k))
            else u[i] == es[i]
  {
  }

  /** `deleteStudent`: removes that document and returns its id; a failure is rethrown. */
  method DeleteStudent(students: StudentCollection, id: string, ok: bool)
    returns (r: Result<string, StoreError>)
    requires students.Valid()
    modifies students
    ensures students.Valid()
    ensures r == if ok then Ok(id) else Err(Unavailable)
    ensures ok ==> students.entries == Removed(old(students.entries), id)
    ensures ok ==> Ids(students.entries) == Ids(old(students.entries)) - {id}
    ensures !ok ==> students.entries == old(students.entries)
  {
    var deleted := students.DeleteDoc(id, ok);
    match deleted
    case Ok(_) =>
      r := Ok(id);
    case Err(e) =>
      r := Err(e);
  }

  /** The `course` value of each document, in store order; a missing course reads as undefined. */
  function CourseColumn(es: seq<Entry>): seq<Value> {
    seq(|es|, i requires 0 <= i < |es| => Get(es[i].data, "course"))
  }

  /**
    The truthy `course` values of the documents: every truthy value of the
    course column, with as many copies as it has there, in store order.
  */
  function TruthyCourses(es: seq<Entry>): (r: seq<Value>)
    ensures forall v :: v in r <==> Truthy(v) && exists e :: e in es && Get(e.data, "course") == v
    ensures forall v :: multiset(r)[v] == if Truthy(v) then multiset(CourseColumn(es))[v] else 0
    ensures IsSubsequence(r, CourseColumn(es))
    decreases |es|
  {
    if es == [] then []
    else
      var last := es[|es| - 1];
      var c := Get(last.data, "course");
      var front := TruthyCourses(es[..|es| - 1]);
      assert forall e :: e in es <==> e in es[..|es| - 1] || e == last;
      assert CourseColumn(es) == CourseColumn(es[..|es| - 1]) + [c];
      if Truthy(c) then
        KeepBack(front, CourseColumn(es[..|es| - 1]), c);
        front + [c]
      else
        ExtendBack(front, CourseColumn(es[..|es| - 1]), c);
        front
  }

  /** One more document adds its course at the end when that course is truthy. */
  lemma TruthyCoursesSnoc(es: seq<Entry>, i: nat)
    requires i < |es|
    ensures var c := Get(es[i].data, "course");
      TruthyCourses(es[..i + 1]) == TruthyCourses(es[..i]) + (if Truthy(c) then [c] else [])
  {
    assert es[..i + 1][..i] == es[..i];
  }

  /** One pass of the loop: the next document's course joins the set when it is truthy. */
  lemma CoursesStep(es: seq<Entry>, i: nat)
    requires i < |es|
    ensures var c := Get(es[i].data, "course");
      var d := Dedup([Str("All")] + TruthyCourses(es[..i]));
      Dedup([Str("All")] + TruthyCourses(es[..i + 1])) == if Truthy(c) && c !in d then d + [c] else d
  {
    var c := Get(es[i].data, "course");
    TruthyCoursesSnoc(es, i);
    DedupGrow(Str("All"), TruthyCourses(es[..i]), c, Truthy(c));
  }

  /** The set seeded with `first` after the values `front`, then maybe one more value `c`. */
  lemma DedupGrow<T>(first: T, front: seq<T>, c: T, keep: bool)
    ensures var d := Dedup([first] + front);
      Dedup([first] + (front + if keep then [c] else [])) == if keep && c !in d then d + [c] else d
  {
    if keep {
      DedupSnoc([first] + front, c);
      assert [first] + (front + [c]) == ([first] + front) + [c];
    } else {
      assert front + [] == front;
    }
  }

  /**
    `getAvailableCourses`: a set seeded with "All", then every truthy course
    added in document order, returned in insertion order; `["All"]` when the
    read fails.
  */
  method GetAvailableCourses(es: seq<Entry>, ok: bool) returns (courses: seq<Value>)
    ensures !ok ==> courses == [Str("All")]
    ensures ok ==> courses == Dedup([Str("All")] + TruthyCourses(es))
  {
    if !ok {
      return [Str("All")];
    }
    courses := [Str("All")];
    assert TruthyCourses(es[..0]) == [];
    assert Dedup([Str("All")]) == [Str("All")];
    for i := 0 to |es|
      invariant courses == Dedup([Str("All")] + TruthyCourses(es[..i]))
    {
      var course := Get(es[i].data, "course");
      CoursesStep(es, i);
      if Truthy(course) && course !in courses {
        courses := courses + [course];
      }
    }
    assert es[..|es|] == es;
  }

  /**
    The course list starts with "All", holds it exactly once, holds each
    truthy course of the collection exactly once and nothing else, and lists
    courses in the order they first appear.
  */
  lemma AvailableCoursesShape(es: seq<Entry>)
    ensures var r := Dedup([Str("All")] + TruthyCourses(es));
      && |r| > 0 && r[0] == Str("All") && Str("All") !in r[1..]
      && NoDuplicates(r)
      && (forall v :: v in r[1..] <==>
            (v != Str("All") && Truthy(v) && exists e :: e in es && Get(e.data, "course") == v))
      && (forall i, j :: 0 <= i < j < |r| ==>
            r[i] in [Str("All")] + TruthyCourses(es) && r[j] in [Str("All")] + TruthyCourses(es) &&
            FirstIndex([Str("All")] + TruthyCourses(es), r[i]) <
            FirstIndex([Str("All")] + TruthyCourses(es), r[j]))
  {
    SeededDedupShape(Str("All"), TruthyCourses(es));
  }

  /** A set seeded with `first` and then fed `ys`, read back in insertion order. */
  lemma SeededDedupShape<T>(first: T, ys: seq<T>)
    ensures var r := Dedup([first] + ys);
      && |r| > 0 && r[0] == first && first !in r[1..]
      && NoDuplicates(r)
      && (forall v :: v in r[1..] <==> v != first && v in ys)
      && (forall i, j :: 0 <= i < j < |r| ==>
            r[i] in [first] + ys && r[j] in [first] + ys &&
            FirstIndex([first] + ys, r[i]) < FirstIndex([first] + ys, r[j]))
  {
    var xs := [first] + ys;
    DedupSpec(xs);
    var r := Dedup(xs);
    forall v | v in r[1..] ensures v != first {
      var j :| 1 <= j < |r| && r[j] == v;
    }
    forall v | v in xs && v != first ensures v in r[1..] {
      var j :| 0 <= j < |r| && r[j] == v;
      assert r[1..][j - 1] == v;
    }
    assert forall v :: v in xs <==> v == first || v in ys;
  }

}
