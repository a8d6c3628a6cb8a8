/**
  The mock REST back end: a module-level table of student objects that the
  POST handler appends to in place, two GET handlers that read it, and the
  course list built from it.  Request routing and the response delay are not
  part of the model; each handler takes its parameter directly.
*/
module MockApi {
  import opened Wrappers
  import opened Values
  import opened Distinct
  import opened Subsequences

  /** `Number(v)` where it is a finite number; `None` stands for NaN. */
  function ToNumber(v: Value): Option<real> {
    match v
    case Num(n) => Some(n)
    case Bool(b) => Some(if b then 1.0 else 0.0)
    case Null => Some(0.0)
    case _ => None
  }

  /** `Math.max(...rows.map(s => s.id))`, `None` when some id is NaN. */
  function MaxId(rows: seq<Doc>): (r: Option<real>)
    requires |rows| > 0
    ensures r.Some? <==> forall i :: 0 <= i < |rows| ==> ToNumber(Get(rows[i], "id")).Some?
    ensures r.Some? ==> forall i :: 0 <= i < |rows| ==> ToNumber(Get(rows[i], "id")).value <= r.value
    ensures r.Some? ==> exists i :: 0 <= i < |rows| && ToNumber(Get(rows[i], "id")).value == r.value
  {
    var first := ToNumber(Get(rows[0], "id"));
    if |rows| == 1 then first
    else
      var rest := MaxId(rows[1..]);
      assert forall i :: 1 <= i < |rows| ==> rows[i] == rows[1..][i - 1];
      if first.None? || rest.None? then
        assert rest.None? ==> exists i :: 1 <= i < |rows| && ToNumber(Get(rows[i], "id")).None? by {
          if rest.None? {
            var j :| 0 <= j < |rows[1..]| && ToNumber(Get(rows[1..][j], "id")).None?;
            assert rows[j + 1] == rows[1..][j];
          }
        }
        None
      else
        assert forall i :: 0 <= i < |rows| ==> ToNumber(Get(rows[i], "id")).Some? by {
          forall i | 0 <= i < |rows| ensures ToNumber(Get(rows[i], "id")).Some? {
            if i > 0 { assert rows[i] == rows[1..][i - 1]; }
          }
        }
        if first.value >= rest.value then
          first
        else
          assert exists i :: 1 <= i < |rows| && ToNumber(Get(rows[i], "id")).value == rest.value by {
            var j :| 0 <= j < |rows[1..]| && ToNumber(Get(rows[1..][j], "id")).value == rest.value;
            assert rows[j + 1] == rows[1..][j];
          }
          rest
  }

  /** The id the POST handler generates: one past the largest id, or 1 for an empty table. */
  function NextId(rows: seq<Doc>): Value {
    if |rows| > 0 then
      match MaxId(rows)
      case Some(m) => Num(m + 1.0)
      case None => NaN
    else Num(1.0)
  }

  /**
    When every stored id is a number the generated id is a number larger than
    all of them, so it differs from every stored id; a table with a
    non-numeric id makes the generated id NaN.  Ids are exact reals here, so
    `max + 1` never rounds back to `max` as a double from 2^53 on does.
  */
  lemma NextIdIsFresh(rows: seq<Doc>)
    ensures (forall i :: 0 <= i < |rows| ==> Get(rows[i], "id").Num?) ==>
              NextId(rows).Num? &&
              forall i :: 0 <= i < |rows| ==> Get(rows[i], "id").n < NextId(rows).n
    ensures (exists i :: 0 <= i < |rows| && ToNumber(Get(rows[i], "id")).None?) ==> NextId(rows) == NaN
  {
  }

  /**
    The object the POST handler stores: `{id, ...submitted, enrollmentDate: today}`.
    The generated id is overridden by a submitted `id`; the enrollment date
    is always today's.
  */
  function NewRecord(rows: seq<Doc>, submitted: Doc, today: string): (r: Doc)
    ensures Get(r, "id") == if "id" in submitted then submitted["id"] else NextId(rows)
    ensures Get(r, "enrollmentDate") == Str(today)
    ensures forall k :: k != "id" && k != "enrollmentDate" ==> (k in r <==> k in submitted) && Get(r, k) == Get(submitted, k)
  {
    WithId(NextId(rows), submitted) + map["enrollmentDate" := Str(today)]
  }

  /**
    `students.filter(student => student.course === course)`: every row whose
    `course` is exactly that string, each as often as in the table, in
    table order.
  */
  function RowsWithCourse(rows: seq<Doc>, course: string): (r: seq<Doc>)
    ensures forall d :: d in r <==> d in rows && Get(d, "course") == Str(course)
    ensures forall d :: multiset(r)[d] == if Get(d, "course") == Str(course) then multiset(rows)[d] else 0
    ensures IsSubsequence(r, rows)
  {
    if rows == [] then []
    else
      assert rows == [rows[0]] + rows[1..];
      var rest := RowsWithCourse(rows[1..], course);
      if Get(rows[0], "course") == Str(course) then
        KeepFront(rows[0], rest, rows[1..]);
        [rows[0]] + rest
      else
        DropFront(rows[0], rest, rows[1..]);
        rest
  }

  /**
    GET /api/students: with a course other than absent, empty or `'All'`, the
    rows of that course; otherwise the whole table.
  */
  function ListStudents(rows: seq<Doc>, course: Option<string>): (r: seq<Doc>)
    ensures (course.None? || course == Some("") || course == Some("All")) ==> r == rows
    ensures course.Some? && course.value != "" && course.value != "All" ==>
              r == RowsWithCourse(rows, course.value) &&
              (forall d :: multiset(r)[d] ==
                 if Get(d, "course") == Str(course.value) then multiset(rows)[d] else 0) &&
              IsSubsequence(r, rows)
  {
    match course
    case Some(c) => if c != "" && c != "All" then RowsWithCourse(rows, c) else rows
    case None => rows
  }

  datatype Response = Found(student: Doc) | NotFound(message: string)

  /** GET /api/students/:id: the first row whose id is that number, or a 404. */
  function FindStudent(rows: seq<Doc>, id: nat): (r: Response)
    ensures r.Found? <==> exists i :: 0 <= i < |rows| && Get(rows[i], "id") == Num(id as real)
    ensures r.Found? ==> exists i :: 0 <= i < |rows| && rows[i] == r.student &&
                           Get(rows[i], "id") == Num(id as real) &&
                           forall j :: 0 <= j < i ==> Get(rows[j], "id") != Num(id as real)
    ensures r.NotFound? ==> r.message == "Student not found"
  {
    if rows == [] then NotFound("Student not found")
    else if Get(rows[0], "id") == Num(id as real) then Found(rows[0])
    else
      var r := FindStudent(rows[1..], id);
      assert forall i :: 1 <= i < |rows| ==> rows[i] == rows[1..][i - 1];
      assert (exists i :: 0 <= i < |rows| && Get(rows[i], "id") == Num(id as real)) ==>
             (exists i :: 0 <= i < |rows[1..]| && Get(rows[1..][i], "id") == Num(id as real)) by {
        if exists i :: 0 <= i < |rows| && Get(rows[i], "id") == Num(id as real) {
          var i :| 0 <= i < |rows| && Get(rows[i], "id") == Num(id as real);
          assert rows[1..][i - 1] == rows[i];
        }
      }
      if r.Found? then
        var i :| 0 <= i < |rows[1..]| && rows[1..][i] == r.student &&
                 Get(rows[1..][i], "id") == Num(id as real) &&
                 forall j :: 0 <= j < i ==> Get(rows[1..][j], "id") != Num(id as real);
        assert rows[i + 1] == r.student;
        assert forall j :: 0 <= j < i + 1 ==> Get(rows[j], "id") != Num(id as real) by {
          forall j | 0 <= j < i + 1 ensures Get(rows[j], "id") != Num(id as real) {
            if j > 0 { assert rows[j] == rows[1..][j - 1]; }
          }
        }
        r
      else r
  }

  /** The course column, `students.map(s => s.course)`; a missing course reads as undefined. */
  function Courses(rows: seq<Doc>): seq<Value> {
    seq(|rows|, i requires 0 <= i < |rows| => Get(rows[i], "course"))
  }

  /** `['All', ...new Set(courses)]`: "All" first, then each course value once, in order. */
  function AvailableCourses(rows: seq<Doc>): (r: seq<Value>)
    ensures |r| > 0 && r[0] == Str("All")
  {
    [Str("All")] + Dedup(Courses(rows))
  }

  /**
    After "All", every course value of the table appears exactly once, falsy
    ones included, in first-appearance order.  "All" is not merged with a
    course literally named "All": such a table lists it twice.
  */
  lemma AvailableCoursesShape(rows: seq<Doc>)
    ensures var d := Dedup(Courses(rows));
      && AvailableCourses(rows) == [Str("All")] + d
      && NoDuplicates(d)
      && (forall v :: v in d <==> v in Courses(rows))
      && (forall v :: v in Courses(rows) <==> exists i :: 0 <= i < |rows| && Get(rows[i], "course") == v)
      && (forall i, j :: 0 <= i < j < |d| ==>
            d[i] in Courses(rows) && d[j] in Courses(rows) &&
            FirstIndex(Courses(rows), d[i]) < FirstIndex(Courses(rows), d[j]))
      && ((exists i :: 0 <= i < |rows| && Get(rows[i], "course") == Str("All")) ==> Str("All") in d)
  {
    DedupSpec(Courses(rows));
    forall v ensures v in Courses(rows) <==> exists i :: 0 <= i < |rows| && Get(rows[i], "course") == v {
      if v in Courses(rows) {
        var i :| 0 <= i < |rows| && Courses(rows)[i] == v;
      }
      if exists i :: 0 <= i < |rows| && Get(rows[i], "course") == v {
        var i :| 0 <= i < |rows| && Get(rows[i], "course") == v;
        assert Courses(rows)[i] == v;
      }
    }
  }

  class StudentTable {
    var students: seq<Doc>

    /** The five initial students. */
    constructor ()
      ensures students == InitialStudents()
    {
      students := InitialStudents();
    }

    /**
      POST /api/students: appends `{id, ...submitted, enrollmentDate: today}`
      at the end of the table and answers 201 with it; earlier rows and their
      order are unchanged.
    */
    method Post(submitted: Doc, today: string) returns (status: int, created: Doc)
      modifies this
      ensures status == 201
      ensures created == NewRecord(old(students), submitted, today)
      ensures students == old(students) + [created]
      ensures |students| == |old(students)| + 1 && students[..|old(students)|] == old(students)
    {
      created := NewRecord(students, submitted, today);
      students := students + [created];
      status := 201;
    }

    /** GET /api/students, over the current table. */
    function List(course: Option<string>): seq<Doc>
      reads this
    {
      ListStudents(students, course)
    }

    /** GET /api/students/:id, over the current table. */
    function Find(id: nat): Response
      reads this
    {
      FindStudent(students, id)
    }
  }

  function Student(id: real, name: string, email: string, course: string, date: string, gpa: real): Doc {
    map["id" := Num(id), "name" := Str(name), "email" := Str(email), "course" := Str(course),
        "enrollmentDate" := Str(date), "gpa" := Num(gpa)]
  }

  function InitialStudents(): seq<Doc> {
    [ Student(1.0, "John Doe", "john.doe@example.com", "Computer Science", "2023-09-01", 3.8),
      Student(2.0, "Jane Smith", "jane.smith@example.com", "Data Science", "2023-08-15", 3.9),
      Student(3.0, "Michael Johnson", "michael.johnson@example.com", "Artificial Intelligence", "2023-09-05", 3.7),
      Student(4.0, "Sarah Williams", "sarah.williams@example.com", "Computer Science", "2023-08-20", 3.6),
      Student(5.0, "Robert Brown", "robert.brown@example.com", "Cybersecurity", "2023-09-10", 3.5) ]
  }

  /** On the initial table the first POST without an id receives id 6. */
  lemma FirstPostGetsSix(submitted: Doc, today: string)
    requires "id" !in submitted
    ensures Get(NewRecord(InitialStudents(), submitted, today), "id") == Num(6.0)
  {
    var rows := InitialStudents();
    assert forall i :: 0 <= i < 5 ==> Get(rows[i], "id") == Num((i + 1) as real);
    var m := MaxId(rows);
    assert m.Some?;
    assert ToNumber(Get(rows[4], "id")).value == 5.0;
    var i :| 0 <= i < |rows| && ToNumber(Get(rows[i], "id")).value == m.value;
    assert m.value == 5.0;
  }
}
