/**
 * An in-memory stand-in for the Mongoose model both services are given: a
 * table from document id to the document's fields. The Pokemon schema is
 * not part of this model; it is assumed to hold a unique index on `no`, so
 * that no two documents share a catalogue number and a violation is rejected
 * with MongoDB's duplicate-key error (code 11000).
 */
module Store {
  import opened Wrappers

  /** The _id of a document, as the string a caller passes around. */
  type Id = string

  /** The stored fields of one document. */
  datatype Pokemon = Pokemon(no: int, name: string)

  /** A document as callers see it: its id and its fields, with no version key. */
  datatype Entry = Entry(id: Id, no: int, name: string)

  /**
   * A document handed to a bulk insert before casting: `no` is None when the
   * value is not a number (NaN), which the schema's Number cast refuses.
   */
  datatype NewDoc = NewDoc(no: Option<int>, name: string)

  /** A partial update: the fields present are the ones written. */
  datatype Patch = Patch(no: Option<int>, name: Option<string>)

  /** The MongoDB server error code for a unique-index violation. */
  const DuplicateKeyCode := 11000

  /**
   * An error the store raises. A server error carries its code and, for a
   * duplicate key on `no`, the `no` value reported in `keyValue`; a cast error
   * is raised before anything reaches the server.
   */
  datatype StoreError =
    | ServerError(code: int, keyValueNo: Option<int>)
    | CastError

  predicate IsDuplicateKey(e: StoreError) {
    e.ServerError? && e.code == DuplicateKeyCode
  }

  function EntryAt(docs: map<Id, Pokemon>, id: Id): (e: Entry)
    requires id in docs
    ensures e.id == id && Pokemon(e.no, e.name) == docs[id]
  {
    Entry(id, docs[id].no, docs[id].name)
  }

  predicate IsEntryOf(docs: map<Id, Pokemon>, e: Entry) {
    e.id in docs && docs[e.id] == Pokemon(e.no, e.name)
  }

  /** Some document already holds catalogue number `no`. */
  predicate NoTaken(docs: map<Id, Pokemon>, no: int) {
    exists id :: id in docs && docs[id].no == no
  }

  /** The unique index on `no`: distinct documents hold distinct numbers. */
  predicate NosUnique(docs: map<Id, Pokemon>) {
    forall i, j :: i in docs && j in docs && docs[i].no == docs[j].no ==> i == j
  }

  // ---------------------------------------------------------------------------
  // Writes, as pure functions of the table
  // ---------------------------------------------------------------------------

  /**
   * Inserting one document under a given id: a clash on _id or on `no` is a
   * duplicate-key error (only the latter names the `no`), and the table is
   * otherwise extended by exactly that document.
   */
  function Insert(docs: map<Id, Pokemon>, id: Id, p: Pokemon): (r: Result<map<Id, Pokemon>, StoreError>)
    ensures r.Success? <==> id !in docs && !NoTaken(docs, p.no)
    ensures r.Success? ==> r.value == docs[id := p]
    ensures r.Failure? ==> IsDuplicateKey(r.error)
    ensures r.Failure? && id !in docs ==> r.error.keyValueNo == Some(p.no)
    ensures r.Success? && NosUnique(docs) ==> NosUnique(r.value)
  {
    if id in docs then Failure(ServerError(DuplicateKeyCode, None))
    else if NoTaken(docs, p.no) then Failure(ServerError(DuplicateKeyCode, Some(p.no)))
    else Success(docs[id := p])
  }

  /**
   * Inserting a batch document by document, stopping at the first error. Any
   * error is a duplicate key; a success keeps every earlier document as it
   * was, adds one document per batch element, and keeps `no` unique.
   */
  function InsertBatch(docs: map<Id, Pokemon>, batch: seq<Pokemon>, ids: seq<Id>): (r: Result<map<Id, Pokemon>, StoreError>)
    requires |ids| == |batch|
    ensures r.Failure? ==> IsDuplicateKey(r.error)
    ensures r.Success? ==> forall id :: id in docs ==> id in r.value && r.value[id] == docs[id]
    ensures r.Success? ==> |r.value| == |docs| + |batch|
    ensures r.Success? && NosUnique(docs) ==> NosUnique(r.value)
    decreases |batch|
  {
    if batch == [] then Success(docs)
    else
      match Insert(docs, ids[0], batch[0])
      case Failure(e) => Failure(e)
      case Success(next) => InsertBatch(next, batch[1..], ids[1..])
  }

  /** A batch fits a table when its ids and numbers clash neither with each other nor with the table. */
  predicate BatchFits(docs: map<Id, Pokemon>, batch: seq<Pokemon>, ids: seq<Id>)
    requires |ids| == |batch|
  {
    && (forall i :: 0 <= i < |batch| ==> ids[i] !in docs && !NoTaken(docs, batch[i].no))
    && (forall i, j :: 0 <= i < j < |batch| ==> ids[i] != ids[j] && batch[i].no != batch[j].no)
  }

  lemma NoTakenGrows(docs: map<Id, Pokemon>, id: Id, p: Pokemon, no: int)
    requires id !in docs
    ensures NoTaken(docs, no) ==> NoTaken(docs[id := p], no)
  {
    if NoTaken(docs, no) {
      var k :| k in docs && docs[k].no == no;
      assert docs[id := p][k] == docs[k];
    }
  }

  lemma BatchFitsStep(docs: map<Id, Pokemon>, batch: seq<Pokemon>, ids: seq<Id>)
    requires |ids| == |batch| > 0
    ensures BatchFits(docs, batch, ids) <==>
      ids[0] !in docs && !NoTaken(docs, batch[0].no) &&
      BatchFits(docs[ids[0] := batch[0]], batch[1..], ids[1..])
  {
    var next := docs[ids[0] := batch[0]];
    if BatchFits(docs, batch, ids) {
      forall i | 0 <= i < |batch| - 1
        ensures ids[1..][i] !in next && !NoTaken(next, batch[1..][i].no)
      {
        assert ids[0] != ids[i + 1] && batch[0].no != batch[i + 1].no;
      }
    }
    if ids[0] !in docs && !NoTaken(docs, batch[0].no) && BatchFits(next, batch[1..], ids[1..]) {
      forall i, j | 0 <= i < j < |batch|
        ensures ids[i] != ids[j] && batch[i].no != batch[j].no
      {
        if i == 0 {
          assert ids[1..][j - 1] !in next && !NoTaken(next, batch[1..][j - 1].no);
          assert next[ids[0]].no == batch[0].no;
        } else {
          assert ids[1..][i - 1] != ids[1..][j - 1];
          assert batch[1..][i - 1].no != batch[1..][j - 1].no;
        }
      }
      forall i | 0 <= i < |batch|
        ensures ids[i] !in docs && !NoTaken(docs, batch[i].no)
      {
        if i > 0 {
          assert ids[1..][i - 1] !in next && !NoTaken(next, batch[1..][i - 1].no);
          NoTakenGrows(docs, ids[0], batch[0], batch[i].no);
        }
      }
    }
  }

  /** A batch insert succeeds exactly when the batch fits; a failure is a duplicate-key error. */
  lemma {:induction false} InsertBatchSucceeds(docs: map<Id, Pokemon>, batch: seq<Pokemon>, ids: seq<Id>)
    requires |ids| == |batch|
    ensures InsertBatch(docs, batch, ids).Success? <==> BatchFits(docs, batch, ids)
    ensures InsertBatch(docs, batch, ids).Failure? ==> IsDuplicateKey(InsertBatch(docs, batch, ids).error)
    decreases |batch|
  {
    if batch != [] {
      BatchFitsStep(docs, batch, ids);
      var first := Insert(docs, ids[0], batch[0]);
      if first.Success? {
        InsertBatchSucceeds(first.value, batch[1..], ids[1..]);
      }
    }
  }

  /**
   * A successful batch insert adds every document of the batch under its id,
   * adds nothing else, keeps every earlier document and keeps `no` unique.
   */
  lemma {:induction false} InsertBatchContents(docs: map<Id, Pokemon>, batch: seq<Pokemon>, ids: seq<Id>)
    requires |ids| == |batch|
    requires InsertBatch(docs, batch, ids).Success?
    ensures var m := InsertBatch(docs, batch, ids).value;
      && (forall k :: k in m <==> k in docs || k in ids)
      && (forall k :: k in docs ==> m[k] == docs[k])
      && (forall i :: 0 <= i < |batch| ==> m[ids[i]] == batch[i])
      && (NosUnique(docs) ==> NosUnique(m))
    decreases |batch|
  {
    if batch != [] {
      var next := Insert(docs, ids[0], batch[0]).value;
      InsertBatchContents(next, batch[1..], ids[1..]);
      InsertBatchSucceeds(docs, batch, ids);
      var m := InsertBatch(docs, batch, ids).value;
      assert m == InsertBatch(next, batch[1..], ids[1..]).value;
      forall k ensures k in m <==> k in docs || k in ids {
        if k in ids && k != ids[0] {
          var i :| 0 <= i < |ids| && ids[i] == k;
          assert ids[1..][i - 1] == k;
        }
      }
      forall i | 0 <= i < |batch|
        ensures m[ids[i]] == batch[i]
      {
        if i == 0 {
          assert ids[0] !in ids[1..] by {
            forall j | 0 <= j < |ids| - 1 ensures ids[1..][j] != ids[0] {
              assert ids[1..][j] == ids[j + 1];
            }
          }
        } else {
          assert ids[1..][i - 1] == ids[i] && batch[1..][i - 1] == batch[i];
        }
      }
    }
  }

  /** The fields of a document after a partial update: present patch fields win. */
  function Apply(p: Pokemon, patch: Patch): Pokemon {
    Pokemon(patch.no.GetOr(p.no), patch.name.GetOr(p.name))
  }

  /**
   * Updating the document under `id`: a new `no` held by another document is
   * a duplicate-key error; an id not in the table matches nothing and changes
   * nothing.
   */
  function UpdateDoc(docs: map<Id, Pokemon>, id: Id, patch: Patch): (r: Result<map<Id, Pokemon>, StoreError>)
    ensures r.Failure? <==>
      id in docs && patch.no.Some? && exists k :: k in docs && k != id && docs[k].no == patch.no.value
    ensures r.Failure? ==> r.error == ServerError(DuplicateKeyCode, patch.no)
    ensures r.Success? && id in docs ==> r.value == docs[id := Apply(docs[id], patch)]
    ensures r.Success? && id !in docs ==> r.value == docs
    ensures r.Success? && NosUnique(docs) ==> NosUnique(r.value)
  {
    if id !in docs then Success(docs)
    else if patch.no.Some? && exists k :: k in docs && k != id && docs[k].no == patch.no.value then
      Failure(ServerError(DuplicateKeyCode, patch.no))
    else Success(docs[id := Apply(docs[id], patch)])
  }

  // ---------------------------------------------------------------------------
  // Reads in ascending order of `no`
  // ---------------------------------------------------------------------------

  /** The document under id has the smallest number in the table. */
  predicate IsMinNo(docs: map<Id, Pokemon>, id: Id) {
    id in docs && forall k :: k in docs ==> docs[id].no <= docs[k].no
  }

  lemma {:induction false} MinNoExists(docs: map<Id, Pokemon>)
    requires docs != map[]
    ensures exists id :: IsMinNo(docs, id)
    decreases |docs|
  {
    var k :| k in docs;
    var rest := docs - {k};
    assert rest.Keys == docs.Keys - {k};
    if rest == map[] {
      forall j | j in docs ensures j == k {
        assert j !in rest.Keys;
      }
      assert IsMinNo(docs, k);
    } else {
      MinNoExists(rest);
      var j :| IsMinNo(rest, j);
      forall i | i in docs ensures i == k || i in rest {}
      if docs[k].no <= docs[j].no {
        assert IsMinNo(docs, k);
      } else {
        assert IsMinNo(docs, j);
      }
    }
  }

  /** The documents of the table listed in ascending order of `no`: the order of `sort({no: 1})`. */
  ghost function Listing(docs: map<Id, Pokemon>): seq<Entry>
    decreases |docs|
  {
    if docs == map[] then []
    else
      MinNoExists(docs);
      var id :| IsMinNo(docs, id);
      assert (docs - {id}).Keys == docs.Keys - {id};
      [EntryAt(docs, id)] + Listing(docs - {id})
  }

  /** The listing starts with a document of smallest number and goes on with the listing of the others. */
  lemma ListingStep(docs: map<Id, Pokemon>)
    requires docs != map[]
    ensures exists id :: IsMinNo(docs, id) && Listing(docs) == [EntryAt(docs, id)] + Listing(docs - {id})
  {
    MinNoExists(docs);
  }

  /** The list holds the table's documents and nothing else. */
  ghost predicate ListsExactly(s: seq<Entry>, docs: map<Id, Pokemon>) {
    forall e :: e in s <==> IsEntryOf(docs, e)
  }

  predicate AscendingByNo(s: seq<Entry>) {
    forall i, j :: 0 <= i < j < |s| ==> s[i].no < s[j].no
  }

  lemma NosUniqueRemove(docs: map<Id, Pokemon>, id: Id)
    requires NosUnique(docs)
    ensures NosUnique(docs - {id})
  {
  }

  /** Under the unique index the smallest number belongs to one document, so the listing starts there. */
  lemma ListingUnfold(docs: map<Id, Pokemon>, id: Id)
    requires NosUnique(docs) && IsMinNo(docs, id)
    ensures Listing(docs) == [EntryAt(docs, id)] + Listing(docs - {id})
  {
    ListingStep(docs);
    var first :| IsMinNo(docs, first) && Listing(docs) == [EntryAt(docs, first)] + Listing(docs - {first});
    assert docs[first].no == docs[id].no;
  }

  /** The listing holds every document of the table once and nothing else. */
  lemma {:induction false} ListingContents(docs: map<Id, Pokemon>)
    ensures |Listing(docs)| == |docs|
    ensures forall e :: e in Listing(docs) <==> IsEntryOf(docs, e)
    decreases |docs|
  {
    if docs != map[] {
      ListingStep(docs);
      var id :| IsMinNo(docs, id) && Listing(docs) == [EntryAt(docs, id)] + Listing(docs - {id});
      var rest := docs - {id};
      assert rest.Keys == docs.Keys - {id};
      ListingContents(rest);
      forall e ensures e in Listing(docs) <==> IsEntryOf(docs, e) {
        if IsEntryOf(docs, e) && e.id != id {
          assert IsEntryOf(rest, e);
        }
      }
    }
  }

  /** Under the unique index the listing is strictly ascending in `no`. */
  lemma {:induction false} ListingAscending(docs: map<Id, Pokemon>)
    requires NosUnique(docs)
    ensures AscendingByNo(Listing(docs))
    decreases |docs|
  {
    if docs != map[] {
      ListingStep(docs);
      var id :| IsMinNo(docs, id) && Listing(docs) == [EntryAt(docs, id)] + Listing(docs - {id});
      var rest := docs - {id};
      assert rest.Keys == docs.Keys - {id};
      var tail := Listing(rest);
      NosUniqueRemove(docs, id);
      ListingAscending(rest);
      ListingContents(rest);
      forall j | 0 <= j < |tail| ensures docs[id].no < tail[j].no {
        assert IsEntryOf(rest, tail[j]);
        assert tail[j].id != id;
      }
      AscendingCons(EntryAt(docs, id), tail);
    }
  }

  /** An entry numbered below every entry of an ascending list can go in front of it. */
  lemma AscendingCons(e: Entry, tail: seq<Entry>)
    requires AscendingByNo(tail)
    requires forall j :: 0 <= j < |tail| ==> e.no < tail[j].no
    ensures AscendingByNo([e] + tail)
  {
    var s := [e] + tail;
    forall i, j | 0 <= i < j < |s| ensures s[i].no < s[j].no {
      assert s[j] == tail[j - 1];
      if i > 0 {
        assert s[i] == tail[i - 1];
      }
    }
  }

  /** An ascending list of exactly the table's documents starts with the document of smallest number. */
  lemma AscendingStartsAtMin(docs: map<Id, Pokemon>, s: seq<Entry>, id: Id)
    requires NosUnique(docs) && IsMinNo(docs, id)
    requires AscendingByNo(s)
    requires ListsExactly(s, docs)
    ensures |s| > 0 && s[0] == EntryAt(docs, id)
  {
    assert EntryAt(docs, id) in s;
    var k :| 0 <= k < |s| && s[k] == EntryAt(docs, id);
    assert IsEntryOf(docs, s[0]);
    if k > 0 {
      assert s[0].no < s[k].no;
    }
    assert docs[s[0].id].no == docs[id].no;
  }

  /** Past its first document, such a list holds exactly the other documents. */
  lemma AscendingTail(docs: map<Id, Pokemon>, s: seq<Entry>, id: Id)
    requires id in docs
    requires AscendingByNo(s)
    requires ListsExactly(s, docs)
    requires |s| > 0 && s[0] == EntryAt(docs, id)
    ensures AscendingByNo(s[1..])
    ensures ListsExactly(s[1..], docs - {id})
  {
    var rest := docs - {id};
    forall e | e in s[1..] ensures IsEntryOf(rest, e) {
      var k :| 1 <= k < |s| && s[k] == e;
      assert s[0].no < s[k].no;
      assert IsEntryOf(docs, e);
    }
    forall e | IsEntryOf(rest, e) ensures e in s[1..] {
      assert IsEntryOf(docs, e);
      var k :| 0 <= k < |s| && s[k] == e;
      assert s[1..][k - 1] == e;
    }
  }

  /** Any strictly ascending list of exactly the table's documents, each once, is the listing. */
  lemma {:induction false} ListingIsTheAscendingOrder(docs: map<Id, Pokemon>, s: seq<Entry>)
    requires NosUnique(docs)
    requires AscendingByNo(s)
    requires ListsExactly(s, docs) && |s| == |docs|
    ensures s == Listing(docs)
    decreases |docs|
  {
    if docs != map[] {
      MinNoExists(docs);
      var id :| IsMinNo(docs, id);
      ListingUnfold(docs, id);
      AscendingStartsAtMin(docs, s, id);
      AscendingTail(docs, s, id);
      NosUniqueRemove(docs, id);
      assert (docs - {id}).Keys == docs.Keys - {id};
      ListingIsTheAscendingOrder(docs - {id}, s[1..]);
      assert s == [s[0]] + s[1..];
    }
  }

  /**
   * A cursor window: skip the first `skip` entries, then keep at most `limit`
   * of the rest. A limit of 0 means no limit, as for a MongoDB cursor.
   */
  function Page(s: seq<Entry>, skip: nat, limit: nat): (r: seq<Entry>)
    ensures |r| == if skip >= |s| then 0 else if limit == 0 || |s| - skip <= limit then |s| - skip else limit
    ensures forall i :: 0 <= i < |r| ==> r[i] == s[skip + i]
  {
    var rest := if skip <= |s| then s[skip..] else [];
    if limit == 0 || |rest| <= limit then rest else rest[..limit]
  }

  // ---------------------------------------------------------------------------
  // The collection
  // ---------------------------------------------------------------------------

  /** The collection the services share, updated in place by their calls. */
  class Collection {
    var docs: map<Id, Pokemon>

    ghost predicate Valid()
      reads this
    {
      NosUnique(docs)
    }

    constructor (docs: map<Id, Pokemon>)
      requires NosUnique(docs)
      ensures Valid() && this.docs == docs
    {
      this.docs := docs;
    }

    /**
     * Model.create: store one document under the id the driver assigns.
     * `fault` is a server error the store raises whatever its contents.
     */
    method Create(doc: Pokemon, assignedId: Id, fault: Option<StoreError>) returns (r: Result<Entry, StoreError>)
      requires Valid()
      modifies this
      ensures Valid()
      ensures r.Failure? ==> docs == old(docs)
      ensures fault.Some? ==> r == Failure(fault.value)
      ensures fault.None? ==> match Insert(old(docs), assignedId, doc)
        case Failure(e) => r == Failure(e)
        case Success(m) => r == Success(Entry(assignedId, doc.no, doc.name)) && docs == m
    {
      if fault.Some? {
        return Failure(fault.value);
      }
      var inserted := Insert(docs, assignedId, doc);
      if inserted.Failure? {
        return Failure(inserted.error);
      }
      docs := inserted.value;
      r := Success(Entry(assignedId, doc.no, doc.name));
    }

    /** Model.findOne({no}): the document holding that number, if any. */
    method FindOneByNo(no: int) returns (r: Option<Entry>)
      ensures r.Some? <==> NoTaken(docs, no)
      ensures r.Some? ==> IsEntryOf(docs, r.value) && r.value.no == no
    {
      if id :| id in docs && docs[id].no == no {
        r := Some(EntryAt(docs, id));
      } else {
        r := None;
      }
    }

    /** Model.findById: the document with that id, if any. */
    method FindById(id: Id) returns (r: Option<Entry>)
      ensures r.Some? <==> id in docs
      ensures r.Some? ==> IsEntryOf(docs, r.value) && r.value.id == id
    {
      r := if id in docs then Some(EntryAt(docs, id)) else None;
    }

    /** Model.findOne({name}): some document whose name is exactly `name`, if any. */
    method FindOneByName(name: string) returns (r: Option<Entry>)
      ensures r.Some? <==> exists id :: id in docs && docs[id].name == name
      ensures r.Some? ==> IsEntryOf(docs, r.value) && r.value.name == name
    {
      if id :| id in docs && docs[id].name == name {
        r := Some(EntryAt(docs, id));
      } else {
        r := None;
      }
    }

    /** Model.find().sort({no: 1}).skip(skip).limit(limit). */
    method Find(skip: nat, limit: nat) returns (page: seq<Entry>)
      requires Valid()
      ensures page == Page(Listing(docs), skip, limit)
    {
      var rest := docs;
      var sorted: seq<Entry> := [];
      while rest != map[]
        invariant NosUnique(rest)
        invariant sorted + Listing(rest) == Listing(docs)
        decreases |rest|
      {
        MinNoExists(rest);
        var id :| id in rest && IsMinNo(rest, id);
        var e, next := EntryAt(rest, id), rest - {id};
        ListingUnfold(rest, id);
        NosUniqueRemove(rest, id);
        assert next.Keys == rest.Keys - {id};
        assert (sorted + [e]) + Listing(next) == sorted + ([e] + Listing(next));
        sorted, rest := sorted + [e], next;
      }
      assert Listing(rest) == [];
      page := Page(sorted, skip, limit);
    }

    /** Document.updateOne: write the patch to the document under `id`. */
    method UpdateOne(id: Id, patch: Patch, fault: Option<StoreError>) returns (o: Outcome<StoreError>)
      requires Valid()
      modifies this
      ensures Valid()
      ensures o.Fail? ==> docs == old(docs)
      ensures fault.Some? ==> o == Fail(fault.value)
      ensures fault.None? ==> match UpdateDoc(old(docs), id, patch)
        case Failure(e) => o == Fail(e)
        case Success(m) => o == Pass && docs == m
    {
      if fault.Some? {
        return Fail(fault.value);
      }
      var updated := UpdateDoc(docs, id, patch);
      if updated.Failure? {
        return Fail(updated.error);
      }
      docs := updated.value;
      o := Pass;
    }

    /** Model.deleteOne({_id}): remove the document with that id and report how many went. */
    method DeleteOne(id: Id) returns (deletedCount: nat)
      requires Valid()
      modifies this
      ensures Valid()
      ensures deletedCount == if id in old(docs) then 1 else 0
      ensures docs == old(docs) - {id}
    {
      deletedCount := if id in docs then 1 else 0;
      docs := docs - {id};
    }

    /** Model.deleteMany({}): remove every document. */
    method DeleteMany()
      modifies this
      ensures Valid()
      ensures docs == map[]
    {
      docs := map[];
    }

    /**
     * Model.insertMany, taken as all-or-nothing: every document is cast to the
     * schema first, then the batch is inserted with the i-th document under
     * the id idFor(i); on any error the table is left as it was.
     */
    method InsertMany(batch: seq<NewDoc>, idFor: nat -> Id, fault: Option<StoreError>) returns (o: Outcome<StoreError>)
      requires Valid()
      modifies this
      ensures Valid()
      ensures o.Fail? ==> docs == old(docs)
      ensures fault.Some? ==> o == Fail(fault.value)
      ensures fault.None? && !AllCast(batch) ==> o == Fail(CastError)
      ensures fault.None? && AllCast(batch) ==> match InsertBatch(old(docs), Casted(batch), Ids(idFor, |batch|))
        case Failure(e) => o == Fail(e)
        case Success(m) => o == Pass && docs == m
    {
      if fault.Some? {
        return Fail(fault.value);
      }
      if !AllCast(batch) {
        return Fail(CastError);
      }
      var ids := Ids(idFor, |batch|);
      var inserted := InsertBatch(docs, Casted(batch), ids);
      if inserted.Failure? {
        return Fail(inserted.error);
      }
      InsertBatchContents(docs, Casted(batch), ids);
      docs := inserted.value;
      o := Pass;
    }
  }

  /** Every document of the batch has a number. */
  predicate AllCast(batch: seq<NewDoc>) {
    forall i :: 0 <= i < |batch| ==> batch[i].no.Some?
  }

  /** The batch cast to stored documents. */
  function Casted(batch: seq<NewDoc>): (r: seq<Pokemon>)
    requires AllCast(batch)
    ensures |r| == |batch|
    ensures forall i :: 0 <= i < |batch| ==> r[i] == Pokemon(batch[i].no.value, batch[i].name)
  {
    seq(|batch|, i requires 0 <= i < |batch| => Pokemon(batch[i].no.value, batch[i].name))
  }

  /** The ids the driver assigns to a batch of n documents. */
  function Ids(idFor: nat -> Id, n: nat): (r: seq<Id>)
    ensures |r| == n
    ensures forall i :: 0 <= i < n ==> r[i] == idFor(i)
  {
    seq(n, i requires 0 <= i < n => idFor(i))
  }
}
