/**
  Bootstrapping the `students` collection with seven sample records when it
  is empty.  The inserts are not transactional: a failure part-way leaves
  the records already inserted in place.
*/
module SeedDatabase {
  import opened Wrappers
  import opened Values
  import opened StudentStore

  function Sample(name: string, email: string, course: string, date: string, gpa: real): Doc {
    map["name" := Str(name), "email" := Str(email), "course" := Str(course),
        "enrollmentDate" := Str(date), "gpa" := Num(gpa)]
  }

  function SampleStudents(): (r: seq<Doc>)
    ensures |r| == 7
  {
    [ Sample("John Doe", "john.doe@example.com", "Computer Science", "2023-09-01", 3.8),
      Sample("Jane Smith", "jane.smith@example.com", "Data Science", "2023-08-15", 3.9),
      Sample("Michael Johnson", "michael.johnson@example.com", "Artificial Intelligence", "2023-09-05", 3.7),
      Sample("Sarah Williams", "sarah.williams@example.com", "Computer Science", "2023-08-20", 3.6),
      Sample("Robert Brown", "robert.brown@example.com", "Cybersecurity", "2023-09-10", 3.5),
      Sample("Emily Davis", "emily.davis@example.com", "Web Development", "2023-07-15", 3.9),
      Sample("David Wilson", "david.wilson@example.com", "Network Engineering", "2023-08-05", 3.4) ]
  }

  /** `userId || 'system'` */
  function Actor(userId: Option<string>): string {
    match userId
    case Some(u) => if u != "" then u else "system"
    case None => "system"
  }

  /** A sample record as inserted: `{...student, addedBy, createdAt: serverTimestamp()}`. */
  function Tagged(student: Doc, userId: Option<string>): (r: Doc)
    ensures Get(r, "addedBy") == Str(Actor(userId)) && Get(r, "createdAt") == ServerTime
    ensures forall k :: k != "addedBy" && k != "createdAt" ==> (k in r <==> k in student) && Get(r, k) == Get(student, k)
  {
    student + map["addedBy" := Str(Actor(userId)), "createdAt" := ServerTime]
  }

  /** The entries the first `|ids|` inserts create, the i-th under `ids[i]`. */
  function SeedEntries(ids: seq<string>, userId: Option<string>): (r: seq<Entry>)
    requires |ids| <= 7
    ensures |r| == |ids|
    ensures forall i :: 0 <= i < |ids| ==> r[i] == Entry(ids[i], Tagged(SampleStudents()[i], userId))
  {
    seq(|ids|, i requires 0 <= i < |ids| => Entry(ids[i], Tagged(SampleStudents()[i], userId)))
  }

  /** What a seeding call reports. */
  datatype SeedResult =
    | Seeded(count: nat)                   // {success: true, count}
    | Present(message: string, count: nat) // {success: true, message, count}: nothing to do
    | Skipped(message: string)             // {success: false, message}
    | Failed(error: StoreError)            // {success: false, error}
  {
    predicate Success() { Seeded? || Present? }
  }

  const AlreadyHasStudents := "Database already has students"

  /** The outcome of a seeding call and the collection it leaves. */
  datatype SeedRun = SeedRun(result: SeedResult, entries: seq<Entry>)

  /**
    `seedDatabase`, as a function of the collection before the call: a read
    that fails reports the error; a non-empty collection is left alone; on an
    empty one the seven samples go in one by one, and an insert `failAt`
    that fails stops the run with the earlier inserts kept.
  */
  function SeedSpec(entries: seq<Entry>, userId: Option<string>, readOk: bool, ids: seq<string>, failAt: nat): SeedRun
    requires |ids| == 7
  {
    if !readOk then SeedRun(Failed(Unavailable), entries)
    else if entries != [] then SeedRun(Skipped(AlreadyHasStudents), entries)
    else if failAt < 7 then SeedRun(Failed(Unavailable), SeedEntries(ids[..failAt], userId))
    else SeedRun(Seeded(7), SeedEntries(ids, userId))
  }

  /** `checkAndSeedDatabase`: a non-empty collection reports its size; an empty one is seeded. */
  function CheckAndSeedSpec(entries: seq<Entry>, userId: Option<string>, checkOk: bool, readOk: bool,
                            ids: seq<string>, failAt: nat): SeedRun
    requires |ids| == 7
  {
    if !checkOk then SeedRun(Failed(Unavailable), entries)
    else if entries != [] then SeedRun(Present(AlreadyHasStudents, |entries|), entries)
    else SeedSpec(entries, userId, readOk, ids, failAt)
  }

  /** Records go in only when the collection was empty; a non-empty collection is never changed. */
  lemma SeedOnlyWhenEmpty(entries: seq<Entry>, userId: Option<string>, readOk: bool, ids: seq<string>, failAt: nat)
    requires |ids| == 7
    ensures var run := SeedSpec(entries, userId, readOk, ids, failAt);
      && (entries != [] ==> run.entries == entries && !run.result.Success())
      && (entries != [] && readOk ==> run.result == Skipped(AlreadyHasStudents))
  {
  }

  /**
    A complete seed of an empty collection inserts the seven samples in list
    order, each tagged with the acting user or 'system', and reports 7.
  */
  lemma SeedInsertsAllSamples(userId: Option<string>, ids: seq<string>, failAt: nat)
    requires |ids| == 7 && failAt >= 7
    ensures var run := SeedSpec([], userId, true, ids, failAt);
      && run.result == Seeded(7) && run.result.Success()
      && |run.entries| == 7
      && forall i :: 0 <= i < 7 ==> run.entries[i] == Entry(ids[i], Tagged(SampleStudents()[i], userId))
  {
  }

  /** Every seeded record is attributed to the acting user when there is one, else to 'system'. */
  lemma ActorIsUserOrSystem(userId: Option<string>)
    ensures userId.Some? && userId.value != "" ==> Actor(userId) == userId.value
    ensures userId.None? || userId == Some("") ==> Actor(userId) == "system"
  {
  }

  /** A failure at insert `failAt` keeps exactly the inserts before it and reports failure. */
  lemma SeedFailureKeepsPrefix(userId: Option<string>, ids: seq<string>, failAt: nat)
    requires |ids| == 7 && failAt < 7
    ensures var run := SeedSpec([], userId, true, ids, failAt);
      && run.result == Failed(Unavailable) && !run.result.Success()
      && run.entries == SeedSpec([], userId, true, ids, 7).entries[..failAt]
  {
  }

  /**
    Once a seed has put anything in, checking again inserts nothing and
    reports success with the current size: repeated calls are no-ops.
  */
  lemma CheckAndSeedIsIdempotent(userId: Option<string>, ids: seq<string>, failAt: nat,
                                 userId': Option<string>, ids': seq<string>, failAt': nat, readOk': bool)
    requires |ids| == 7 && |ids'| == 7
    requires failAt > 0
    ensures var first := CheckAndSeedSpec([], userId, true, true, ids, failAt);
      var second := CheckAndSeedSpec(first.entries, userId', true, readOk', ids', failAt');
      && second.entries == first.entries
      && second.result == Present(AlreadyHasStudents, if failAt < 7 then failAt else 7)
  {
  }

  /**
    `seedDatabase`: inserts the samples with a `for` loop, counting them,
    after checking that the collection is empty.  `ids` are the ids the store
    generates for the seven inserts; the insert numbered `failAt` fails (none
    does when `failAt >= 7`).
  */
  method Seed(students: StudentCollection, userId: Option<string>, readOk: bool, ids: seq<string>, failAt: nat)
    returns (r: SeedResult)
    requires students.Valid()
    requires |ids| == 7 && DistinctIds(SeedEntries(ids, userId))
    modifies students
    ensures students.Valid()
    ensures SeedRun(r, students.entries) == SeedSpec(old(students.entries), userId, readOk, ids, failAt)
  {
    if !readOk {
      return Failed(Unavailable);
    }
    if students.entries != [] {
      return Skipped(AlreadyHasStudents);
    }
    var samples := SampleStudents();
    var addedCount := 0;
    for i := 0 to 7
      invariant students.Valid()
      invariant addedCount == i
      invariant i <= failAt
      invariant students.entries == SeedEntries(ids[..i], userId)
    {
      assert forall k :: 0 <= k < i ==> students.entries[k].id == SeedEntries(ids, userId)[k].id;
      NotInIds(students.entries, ids[i]);
      var added := students.AddDoc(Tagged(samples[i], userId), ids[i], i != failAt);
      if added.Err? {
        return Failed(added.error);
      }
      SeedEntriesGrow(ids, i, userId);
      addedCount := addedCount + 1;
    }
    assert ids[..7] == ids;
    r := Seeded(addedCount);
  }

  lemma SeedEntriesGrow(ids: seq<string>, i: nat, userId: Option<string>)
    requires i < |ids| <= 7
    ensures SeedEntries(ids[..i + 1], userId) ==
            SeedEntries(ids[..i], userId) + [Entry(ids[i], Tagged(SampleStudents()[i], userId))]
  {
  }

  /** `checkAndSeedDatabase`: reports the size of a non-empty collection, seeds an empty one. */
  method CheckAndSeed(students: StudentCollection, userId: Option<string>, checkOk: bool, readOk: bool,
                      ids: seq<string>, failAt: nat)
    returns (r: SeedResult)
    requires students.Valid()
    requires |ids| == 7 && DistinctIds(SeedEntries(ids, userId))
    modifies students
    ensures students.Valid()
    ensures SeedRun(r, students.entries) ==
            CheckAndSeedSpec(old(students.entries), userId, checkOk, readOk, ids, failAt)
  {
    if !checkOk {
      return Failed(Unavailable);
    }
    if students.entries == [] {
      r := Seed(students, userId, readOk, ids, failAt);
    } else {
      r := Present(AlreadyHasStudents, |students.entries|);
    }
  }
}
