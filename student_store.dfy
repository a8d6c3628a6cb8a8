/**
  The hosted `students` collection as an in-memory sequence of documents,
  each with its store-assigned id, and the three write primitives the
  repository uses on it: add with an auto-generated id, partial update of an
  existing document, delete by id.  A failing round trip to the store is an
  explicit `ok == false` argument.
*/
module StudentStore {
  import opened Wrappers
  import opened Values

  datatype Entry = Entry(id: string, data: Doc)

  datatype StoreError =
    | Unavailable   // the request to the store failed
    | NoDocument    // an update named a document that does not exist

  function Ids(es: seq<Entry>): set<string> {
    set e | e in es :: e.id
  }

  predicate DistinctIds(es: seq<Entry>) {
    forall i, j :: 0 <= i < j < |es| ==> es[i].id != es[j].id
  }

  /** The data of the document with that id, if there is one. */
  function Lookup(es: seq<Entry>, id: string): (r: Option<Doc>)
    ensures r.Some? <==> id in Ids(es)
    ensures r.Some? ==> Entry(id, r.value) in es
  {
    if es == [] then None
    else if es[0].id == id then Some(es[0].data)
    else
      assert forall e :: e in es[1..] ==> e in es;
      assert id in Ids(es) ==> id in Ids(es[1..]) by {
        if id in Ids(es) { var e :| e in es && e.id == id; assert e != es[0]; }
      }
      Lookup(es[1..], id)
  }

  /** Every document keeps its place; the one named `id` gets `fields` merged over its data. */
  function Updated(es: seq<Entry>, id: string, fields: Doc): (r: seq<Entry>)
    ensures |r| == |es|
    ensures forall i :: 0 <= i < |es| ==> r[i].id == es[i].id
  {
    seq(|es|, i requires 0 <= i < |es| =>
      if es[i].id == id then Entry(id, es[i].data + fields) else es[i])
  }

  /** The documents other than the one named `id`, in order. */
  function Removed(es: seq<Entry>, id: string): (r: seq<Entry>)
    ensures Ids(r) == Ids(es) - {id}
    ensures forall e :: e in r ==> e in es
  {
    if es == [] then []
    else
      var rest := Removed(es[1..], id);
      assert es == [es[0]] + es[1..];
      assert Ids(es) == {es[0].id} + Ids(es[1..]);
      IdsOfConcat([es[0]], rest);
      if es[0].id == id then rest else [es[0]] + rest
  }

  lemma NotInIds(es: seq<Entry>, id: string)
    requires forall k :: 0 <= k < |es| ==> es[k].id != id
    ensures id !in Ids(es)
  {
    forall e | e in es ensures e.id != id {
      var k :| 0 <= k < |es| && es[k] == e;
    }
  }

  /** Appending a document leaves earlier lookups alone and makes a new id find the appended data. */
  lemma {:induction false} LookupAppend(es: seq<Entry>, e: Entry, id: string)
    ensures Lookup(es + [e], id) ==
            if id in Ids(es) then Lookup(es, id) else if e.id == id then Some(e.data) else None
    decreases |es|
  {
    if es == [] {
      assert es + [e] == [e];
    } else {
      var es' := es + [e];
      assert es'[0] == es[0] && es'[1..] == es[1..] + [e];
      LookupAppend(es[1..], e, id);
      IdsOfConcat([es[0]], es[1..]);
      assert es == [es[0]] + es[1..];
    }
  }

  lemma IdsOfConcat(a: seq<Entry>, b: seq<Entry>)
    ensures Ids(a + b) == Ids(a) + Ids(b)
  {
    assert forall e :: e in a + b <==> e in a || e in b;
  }

  lemma {:induction false} RemovedKeepsDistinct(es: seq<Entry>, id: string)
    requires DistinctIds(es)
    ensures DistinctIds(Removed(es, id))
    decreases |es|
  {
    if es != [] {
      RemovedKeepsDistinct(es[1..], id);
      assert es[0].id !in Ids(es[1..]);
    }
  }

  /**
    With distinct ids, deleting a stored document removes exactly that one
    entry: what is left is the sequence with that position cut out.
  */
  lemma RemovedExactlyOne(es: seq<Entry>, k: nat)
    requires DistinctIds(es) && k < |es|
    ensures Removed(es, es[k].id) == es[..k] + es[k + 1..]
  {
    RemovedAt(es, k, es[k].id);
  }

  /** Deleting an id that only position `k` holds cuts out position `k`. */
  lemma {:induction false} RemovedAt(es: seq<Entry>, k: nat, id: string)
    requires k < |es| && es[k].id == id
    requires forall j :: 0 <= j < |es| && j != k ==> es[j].id != id
    ensures Removed(es, id) == es[..k] + es[k + 1..]
    decreases k
  {
    RemovedUnfold(es, id);
    var tail := es[1..];
    if k == 0 {
      NotInIds(tail, id);
      RemovedAbsent(tail, id);
      assert es[..0] + es[1..] == tail;
    } else {
      forall j | 0 <= j < |tail| && j != k - 1 ensures tail[j].id != id {
        assert tail[j] == es[j + 1];
      }
      RemovedAt(tail, k - 1, id);
      CutBehindHead(es, k);
    }
  }

  /** Cutting position `k >= 1` out of a sequence keeps its head in front. */
  lemma CutBehindHead<T>(xs: seq<T>, k: nat)
    requires 1 <= k < |xs|
    ensures xs[..k] + xs[k + 1..] == [xs[0]] + (xs[1..][..k - 1] + xs[1..][k..])
  {
    assert xs[..k] == [xs[0]] + xs[1..][..k - 1];
    assert xs[k + 1..] == xs[1..][k..];
  }

  lemma RemovedUnfold(es: seq<Entry>, id: string)
    requires es != []
    ensures Removed(es, id) == if es[0].id == id then Removed(es[1..], id) else [es[0]] + Removed(es[1..], id)
  {
  }

  lemma {:induction false} RemovedAbsent(es: seq<Entry>, id: string)
    requires id !in Ids(es)
    ensures Removed(es, id) == es
    decreases |es|
  {
    if es != [] {
      assert Ids(es) == {es[0].id} + Ids(es[1..]) by { assert es == [es[0]] + es[1..]; }
      RemovedAbsent(es[1..], id);
    }
  }

  class StudentCollection {
    var entries: seq<Entry>

    ghost predicate Valid()
      reads this
    {
      DistinctIds(entries)
    }

    constructor (initial: seq<Entry>)
      requires DistinctIds(initial)
      ensures Valid() && entries == initial
    {
      entries := initial;
    }

    /** `addDoc`: stores `data` under the fresh id the store generated. */
    method AddDoc(data: Doc, newId: string, ok: bool) returns (r: Result<string, StoreError>)
      requires Valid() && newId !in Ids(entries)
      modifies this
      ensures Valid()
      ensures r == if ok then Ok(newId) else Err(Unavailable)
      ensures entries == if ok then old(entries) + [Entry(newId, data)] else old(entries)
    {
      if !ok {
        return Err(Unavailable);
      }
      entries := entries + [Entry(newId, data)];
      r := Ok(newId);
    }

    /** `updateDoc`: merges `fields` onto an existing document; a missing document is an error. */
    method UpdateDoc(id: string, fields: Doc, ok: bool) returns (r: Result<(), StoreError>)
      requires Valid()
      modifies this
      ensures Valid()
      ensures r == if !ok then Err(Unavailable)
                   else if id !in Ids(old(entries)) then Err(NoDocument)
                   else Ok(())
      ensures entries == if r.Ok? then Updated(old(entries), id, fields) else old(entries)
    {
      if !ok {
        return Err(Unavailable);
      }
      if Lookup(entries, id).None? {
        return Err(NoDocument);
      }
      entries := Updated(entries, id, fields);
      r := Ok(());
    }

    /** `deleteDoc`: removes the document if it exists; deleting a missing one succeeds. */
    method DeleteDoc(id: string, ok: bool) returns (r: Result<(), StoreError>)
      requires Valid()
      modifies this
      ensures Valid()
      ensures r == if ok then Ok(()) else Err(Unavailable)
      ensures entries == if ok then Removed(old(entries), id) else old(entries)
    {
      if !ok {
        return Err(Unavailable);
      }
      RemovedKeepsDistinct(entries, id);
      entries := Removed(entries, id);
      r := Ok(());
    }
  }
}
