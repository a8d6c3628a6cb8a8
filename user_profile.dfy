/**
  The user-profile panel: the profile record it starts from, the record it
  creates for a user who has none, how a loaded record is merged, the
  single-field edit, the save payload, the count of students a user added,
  and the avatar initial.  The `users` collection is a map from uid to
  profile document.
*/
module UserProfile {
  import opened Wrappers
  import opened Values
  import opened StudentStore
  import opened FirestoreService
  import opened SeedDatabase
  import opened AddStudentPage

  /** The fields the panel shows before anything is loaded. */
  function InitialProfile(user: Option<User>): (p: Doc)
    ensures p.Keys == {"displayName", "email", "photoURL", "role", "bio", "phone", "department"}
    ensures p["role"] == Str("user") && p["bio"] == Str("") && p["phone"] == Str("") && p["department"] == Str("")
    ensures user.None? ==> p["displayName"] == Str("") && p["email"] == Str("") && p["photoURL"] == Str("")
    ensures user.Some? ==>
      && p["displayName"] == Str(OrEmpty(user.value.displayName))
      && p["email"] == Str(OrEmpty(user.value.email))
      && p["photoURL"] == Str(OrEmpty(user.value.photoURL))
  {
    var u := match user case Some(u) => u case None => User("", None, None, None);
    map["displayName" := Str(OrEmpty(u.displayName)), "email" := Str(OrEmpty(u.email)),
        "photoURL" := Str(OrEmpty(u.photoURL)), "role" := Str("user"),
        "bio" := Str(""), "phone" := Str(""), "department" := Str("")]
  }

  /**
    The profile document written for a user who has none: the provider's
    name, email and photo or '', the role 'user', and the two clock readings.
  */
  function NewProfile(user: User, createdAt: string, lastLogin: string): (p: Doc)
    ensures p.Keys == {"displayName", "email", "photoURL", "role", "createdAt", "lastLogin"}
    ensures p["role"] == Str("user")
    ensures forall k :: k in p ==> p[k].Str?
    ensures p["createdAt"] == Str(createdAt) && p["lastLogin"] == Str(lastLogin)
    ensures p["displayName"] == Str(if user.displayName.Some? then user.displayName.value else "")
    ensures p["email"] == Str(if user.email.Some? then user.email.value else "")
    ensures p["photoURL"] == Str(if user.photoURL.Some? then user.photoURL.value else "")
  {
    map["displayName" := Str(OrEmpty(user.displayName)), "email" := Str(OrEmpty(user.email)),
        "photoURL" := Str(OrEmpty(user.photoURL)), "role" := Str("user"),
        "createdAt" := Str(createdAt), "lastLogin" := Str(lastLogin)]
  }

  /** `{...current, ...loaded}`: loaded fields win; fields only the current profile has are kept. */
  function Merged(current: Doc, loaded: Doc): (r: Doc)
    ensures r.Keys == current.Keys + loaded.Keys
    ensures forall k :: k in loaded ==> r[k] == loaded[k]
    ensures forall k :: k in current && k !in loaded ==> r[k] == current[k]
  {
    current + loaded
  }

  /**
    A first visit shows the provider's identity, the role 'user' and the
    two timestamps, with the other defaults ('' bio, phone and department)
    still in place.
  */
  lemma CreatedProfileKeepsDefaults(user: User, createdAt: string, lastLogin: string)
    ensures var p := Merged(InitialProfile(Some(user)), NewProfile(user, createdAt, lastLogin));
      && p.Keys == InitialProfile(Some(user)).Keys + {"createdAt", "lastLogin"}
      && (forall k :: k in InitialProfile(Some(user)) ==> p[k] == InitialProfile(Some(user))[k])
      && p["createdAt"] == Str(createdAt) && p["lastLogin"] == Str(lastLogin)
  {
  }

  /** `handleChange`: `{...profile, [name]: value}`. */
  function Changed(profile: Doc, name: string, value: string): (r: Doc)
    ensures r.Keys == profile.Keys + {name}
    ensures r[name] == Str(value)
    ensures forall k :: k in profile && k != name ==> r[k] == profile[k]
  {
    profile[name := Str(value)]
  }

  /** What a save writes: the whole profile plus `updatedAt`. */
  function SavePayload(profile: Doc, now: string): (r: Doc)
    ensures r.Keys == profile.Keys + {"updatedAt"}
    ensures r["updatedAt"] == Str(now)
    ensures forall k :: k in profile && k != "updatedAt" ==> r[k] == profile[k]
  {
    profile + map["updatedAt" := Str(now)]
  }

  /**
    After a save, loading the stored document over any profile shows every
    saved field as it was saved: merging the payload onto the stored
    document and reading it back is a round trip.
  */
  lemma SaveThenLoad(profile: Doc, stored: Doc, current: Doc, now: string)
    ensures var shown := Merged(current, stored + SavePayload(profile, now));
      forall k :: k in profile && k != "updatedAt" ==> shown[k] == profile[k]
  {
  }

  /** The record was added by `uid`: the `where('addedBy', '==', uid)` test. */
  predicate AddedBy(e: Entry, uid: string) {
    Get(e.data, "addedBy") == Str(uid)
  }

  /** How many student records carry `addedBy == uid`. */
  function CountAddedBy(es: seq<Entry>, uid: string): (n: nat)
    ensures n <= |es|
  {
    if es == [] then 0
    else CountAddedBy(es[..|es| - 1], uid) + (if AddedBy(es[|es| - 1], uid) then 1 else 0)
  }

  /** The count over two runs of records is the sum of their counts. */
  lemma {:induction false} CountAddedByConcat(a: seq<Entry>, b: seq<Entry>, uid: string)
    ensures CountAddedBy(a + b, uid) == CountAddedBy(a, uid) + CountAddedBy(b, uid)
    decreases |b|
  {
    if b == [] {
      assert a + b == a;
    } else {
      assert (a + b)[..|a + b| - 1] == a + b[..|b| - 1];
      CountAddedByConcat(a, b[..|b| - 1], uid);
    }
  }

  /** The positions of the records added by `uid`. */
  function AddedPositions(es: seq<Entry>, uid: string): set<nat> {
    set i: nat | i < |es| && AddedBy(es[i], uid)
  }

  lemma AddedPositionsSnoc(es: seq<Entry>, uid: string)
    requires es != []
    ensures var n := |es| - 1;
      AddedPositions(es, uid) == AddedPositions(es[..n], uid) + (if AddedBy(es[n], uid) then {n} else {})
  {
    var n := |es| - 1;
    assert forall i :: 0 <= i < n ==> es[..n][i] == es[i];
  }

  /** The count is exactly the number of matching records. */
  lemma {:induction false} CountAddedByIsCardinality(es: seq<Entry>, uid: string)
    ensures CountAddedBy(es, uid) == |AddedPositions(es, uid)|
  {
    if es != [] {
      var n := |es| - 1;
      CountAddedByIsCardinality(es[..n], uid);
      AddedPositionsSnoc(es, uid);
      assert n !in AddedPositions(es[..n], uid);
    }
  }

  /** A submit on the add-student page by a signed-in user raises that user's count by one. */
  lemma AddedStudentCounts(es: seq<Entry>, data: Doc, user: User, today: string, newId: string)
    ensures CountAddedBy(es + [Entry(newId, Stamped(Attributed(data, user), today))], user.uid) ==
            CountAddedBy(es, user.uid) + 1
  {
    var e := Entry(newId, Stamped(Attributed(data, user), today));
    assert (es + [e])[..|es + [e]| - 1] == es;
  }

  /** A complete seed by a signed-in user counts all seven samples as theirs. */
  lemma {:induction false} SeededStudentsCount(ids: seq<string>, uid: string)
    requires |ids| == 7 && uid != ""
    ensures CountAddedBy(SeedEntries(ids, Some(uid)), uid) == 7
  {
    var es := SeedEntries(ids, Some(uid));
    assert forall i :: 0 <= i < 7 ==> AddedBy(es[i], uid);
    CountAllMatching(es, uid);
  }

  /** When every record was added by `uid`, all of them count. */
  lemma {:induction false} CountAllMatching(es: seq<Entry>, uid: string)
    requires forall i :: 0 <= i < |es| ==> AddedBy(es[i], uid)
    ensures CountAddedBy(es, uid) == |es|
  {
    if es != [] {
      CountAllMatching(es[..|es| - 1], uid);
    }
  }

  /** The first letter shown in the avatar, upper-cased; characters outside a–z stay as they are. */
  function Upper(c: char): char {
    if 'a' <= c <= 'z' then (c as int - 32) as char else c
  }

  /** Two characters that are equal once lower-cased. */
  predicate SameLetter(a: char, b: char) {
    a == b || ('A' <= a <= 'Z' && b as int == a as int + 32) || ('A' <= b <= 'Z' && a as int == b as int + 32)
  }

  /**
    `getInitial`: the first character of the display name when it is set,
    else of the email, upper-cased; 'U' when both are empty.
  */
  function Initial(profile: Doc): (r: string)
    ensures |r| == 1 && !('a' <= r[0] <= 'z')
    ensures Text(profile, "displayName") != "" ==> SameLetter(r[0], Text(profile, "displayName")[0])
    ensures Text(profile, "displayName") == "" && Text(profile, "email") != "" ==>
              SameLetter(r[0], Text(profile, "email")[0])
    ensures Text(profile, "displayName") == "" && Text(profile, "email") == "" ==> r == "U"
  {
    var name := Text(profile, "displayName");
    var email := Text(profile, "email");
    if name != "" then [Upper(name[0])]
    else if email != "" then [Upper(email[0])]
    else "U"
  }

  /** The initial depends on the display name and email alone: editing any other field keeps it. */
  lemma InitialIgnoresOtherFields(profile: Doc, name: string, value: string)
    requires name != "displayName" && name != "email"
    ensures Initial(Changed(profile, name, value)) == Initial(profile)
  {
    assert Text(Changed(profile, name, value), "displayName") == Text(profile, "displayName");
    assert Text(Changed(profile, name, value), "email") == Text(profile, "email");
  }

  const LoadFailed := "Failed to load user profile"
  const SaveFailed := "Failed to update profile"
  const Saved := "Profile updated successfully!"

  /** The `users` collection: profile documents by uid. */
  class UserDirectory {
    var docs: map<string, Doc>

    constructor (initial: map<string, Doc>)
      ensures docs == initial
    {
      docs := initial;
    }

    /** `getDoc`: the document when it exists, `None` when it does not, an error when the store fails. */
    method GetDoc(uid: string, ok: bool) returns (r: Result<Option<Doc>, StoreError>)
      ensures !ok ==> r == Err(Unavailable)
      ensures ok && uid in docs ==> r == Ok(Some(docs[uid]))
      ensures ok && uid !in docs ==> r == Ok(None)
    {
      if !ok {
        return Err(Unavailable);
      }
      if uid in docs {
        r := Ok(Some(docs[uid]));
      } else {
        r := Ok(None);
      }
    }

    /** `setDoc`: creates or replaces the document. */
    method SetDoc(uid: string, d: Doc, ok: bool) returns (r: Result<(), StoreError>)
      modifies this
      ensures r == if ok then Ok(()) else Err(Unavailable)
      ensures docs == if ok then old(docs)[uid := d] else old(docs)
    {
      if !ok {
        return Err(Unavailable);
      }
      docs := docs[uid := d];
      r := Ok(());
    }

    /** `updateDoc`: merges the fields onto an existing document; fails when there is none. */
    method UpdateDoc(uid: string, fields: Doc, ok: bool) returns (r: Result<(), StoreError>)
      modifies this
      ensures r == if !ok then Err(Unavailable) else if uid !in old(docs) then Err(NoDocument) else Ok(())
      ensures docs == if r.Ok? then old(docs)[uid := old(docs)[uid] + fields] else old(docs)
    {
      if !ok {
        return Err(Unavailable);
      }
      if uid !in docs {
        return Err(NoDocument);
      }
      docs := docs[uid := docs[uid] + fields];
      r := Ok(());
    }
  }

  /** The profile shown after a successful load: the stored document, or the new one, over the current profile. */
  function Loaded(current: Doc, stored: Option<Doc>, user: User, createdAt: string, lastLogin: string): Doc {
    match stored
    case Some(d) => Merged(current, d)
    case None => Merged(current, NewProfile(user, createdAt, lastLogin))
  }

  class ProfilePanel {
    var profile: Doc
    var isEditing: bool
    var isLoading: bool
    var error: Option<string>
    var successMessage: string
    var studentsAdded: nat

    /** The panel as first shown: the provider's identity with defaults, loading. */
    constructor (user: Option<User>)
      ensures profile == InitialProfile(user)
      ensures !isEditing && isLoading && error == None && successMessage == "" && studentsAdded == 0
    {
      profile := InitialProfile(user);
      isEditing, isLoading, error, successMessage, studentsAdded := false, true, None, "", 0;
    }

    /**
      `fetchUserProfile`.  Without a user nothing happens.  Otherwise the
      stored profile is merged over the current one, or a new profile is
      created, written and merged; then the user's students are counted.
      Any failing store call sets the load error and stops, keeping what
      was already done; success leaves an earlier error in place.  The edit
      flag and the success message are outside its frame.
    */
    method FetchProfile(user: Option<User>, users: UserDirectory, students: StudentCollection,
                        createdAt: string, lastLogin: string, readOk: bool, writeOk: bool, countOk: bool)
      modifies this`profile, this`isLoading, this`error, this`studentsAdded, users
      ensures user.None? ==>
        && profile == old(profile) && isLoading == old(isLoading) && error == old(error)
        && studentsAdded == old(studentsAdded) && users.docs == old(users.docs)
      ensures user.Some? ==>
        var u := user.value;
        var stored := if u.uid in old(users.docs) then Some(old(users.docs)[u.uid]) else None;
        var loadedOk := readOk && (stored.Some? || writeOk);
        && !isLoading
        && users.docs == (if readOk && stored.None? && writeOk
                          then old(users.docs)[u.uid := NewProfile(u, createdAt, lastLogin)]
                          else old(users.docs))
        && profile == (if loadedOk then Loaded(old(profile), stored, u, createdAt, lastLogin) else old(profile))
        && studentsAdded == (if loadedOk && countOk then CountAddedBy(students.entries, u.uid) else old(studentsAdded))
        && error == (if loadedOk && countOk then old(error) else Some(LoadFailed))
    {
      if user.None? {
        return;
      }
      var u := user.value;
      isLoading := true;
      var read := users.GetDoc(u.uid, readOk);
      if read.Err? {
        error := Some(LoadFailed);
        isLoading := false;
        return;
      }
      if read.value.None? {
        var written := users.SetDoc(u.uid, NewProfile(u, createdAt, lastLogin), writeOk);
        if written.Err? {
          error := Some(LoadFailed);
          isLoading := false;
          return;
        }
      }
      profile := Loaded(profile, read.value, u, createdAt, lastLogin);
      if !countOk {
        error := Some(LoadFailed);
        isLoading := false;
        return;
      }
      studentsAdded := CountAddedBy(students.entries, u.uid);
      isLoading := false;
    }

    /** `handleChange`: exactly the named field takes the typed value. */
    method HandleChange(name: string, value: string)
      modifies this`profile
      ensures profile == Changed(old(profile), name, value)
    {
      profile := Changed(profile, name, value);
    }

    /**
      `handleSubmit`.  Without a user nothing happens.  Otherwise the whole
      profile plus `updatedAt` is merged onto the user's stored document;
      success leaves editing mode with the success message, failure sets the
      save error; loading is off either way.  The profile and the count are
      outside its frame.
    */
    method HandleSubmit(user: Option<User>, users: UserDirectory, now: string, ok: bool)
      modifies this`isEditing, this`isLoading, this`error, this`successMessage, users
      ensures user.None? ==>
        && isEditing == old(isEditing) && isLoading == old(isLoading) && error == old(error)
        && successMessage == old(successMessage) && users.docs == old(users.docs)
      ensures user.Some? ==>
        var uid := user.value.uid;
        var saved := ok && uid in old(users.docs);
        && !isLoading
        && users.docs == (if saved then old(users.docs)[uid := old(users.docs)[uid] + SavePayload(profile, now)]
                          else old(users.docs))
        && (saved ==> !isEditing && successMessage == Saved && error == None)
        && (!saved ==> isEditing == old(isEditing) && successMessage == old(successMessage) &&
                       error == Some(SaveFailed))
    {
      if user.None? {
        return;
      }
      isLoading := true;
      error := None;
      var r := users.UpdateDoc(user.value.uid, SavePayload(profile, now), ok);
      if r.Ok? {
        isEditing := false;
        successMessage := Saved;
      } else {
        error := Some(SaveFailed);
      }
      isLoading := false;
    }
  }
}
