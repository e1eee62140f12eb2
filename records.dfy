/**
 * The record store of backend/models/Svg.js: one collection of SVG documents keyed by
 * ObjectId. The collection is the `records` field of `SvgStore`; the MongoDB calls
 * (`insertOne`, `find().sort({createdAt: -1})`, `findOne`, `updateOne` with `$set`,
 * `deleteOne`) are the functions over `seq<SvgRecord>` below. Whether the shared database
 * handle exists and whether a collection call goes through is a `DbStatus` parameter.
 */
module Records {
  import opened Wrappers
  import opened Text
  import Sorting

  /** What the upload route hands to `create`. */
  datatype SvgData = SvgData(
    name: string, description: string, content: string, fileSize: int, originalName: string)

  /** A stored document: the `svgData` fields, both timestamps (milliseconds) and `_id`. */
  datatype SvgRecord = SvgRecord(
    id: string, name: string, description: string, content: string, fileSize: int,
    originalName: string, createdAt: int, updatedAt: int)

  /** The fields given to `updateById`; `$set` writes the present ones and `updatedAt`. */
  datatype Patch = Patch(name: Option<string>, description: Option<string>)

  /**
   * `NotConnected`: `getDatabase()` throws before anything else happens.
   * `OperationFails`: the collection call itself throws with `message`.
   */
  datatype DbStatus = Connected | NotConnected | OperationFails(message: string)

  /** Everything a store operation can throw; it is rethrown to the route, never swallowed. */
  datatype StoreError = NotConnectedError | MalformedIdError(id: string) | CollectionError(message: string)

  const NOT_CONNECTED_MESSAGE := "Database not connected. Call connectToDatabase() first."
  /** Stands for the message of the driver's ObjectId parser. */
  const MALFORMED_ID_MESSAGE := "input must be a 24 character hex string, 12 byte Uint8Array, or an integer"

  /** `error.message` of a thrown store error. */
  function ErrorMessage(e: StoreError): string {
    match e
    case NotConnectedError => NOT_CONNECTED_MESSAGE
    case MalformedIdError(_) => MALFORMED_ID_MESSAGE
    case CollectionError(m) => m
  }

  predicate IsHexDigit(c: char) {
    ('0' <= c <= '9') || ('a' <= c <= 'f') || ('A' <= c <= 'F')
  }

  /** A string `new ObjectId(id)` accepts: 24 hexadecimal digits. */
  predicate IsObjectIdText(s: string) {
    |s| == 24 && forall i :: 0 <= i < |s| ==> IsHexDigit(s[i])
  }

  /** The lower-case form in which a stored `_id` appears. */
  predicate IsCanonicalId(s: string) {
    IsObjectIdText(s) && ToLower(s) == s
  }

  /**
   * `new ObjectId(id)`: throws on anything but 24 hex digits; otherwise yields the id,
   * which compares equal to every spelling of the same digits.
   */
  function ParseObjectId(id: string): (r: Result<string, StoreError>)
    ensures r.Ok? <==> IsObjectIdText(id)
    ensures r.Ok? ==> IsCanonicalId(r.value) && r.value == ToLower(id)
    ensures r.Err? ==> r.error == MalformedIdError(id)
  {
    if IsObjectIdText(id) then
      var key := ToLower(id);
      assert forall i :: 0 <= i < 24 ==> IsHexDigit(key[i]);
      assert ToLower(key) == key;
      Ok(key)
    else Err(MalformedIdError(id))
  }

  function Ids(rs: seq<SvgRecord>): set<string> {
    set i | 0 <= i < |rs| :: rs[i].id
  }

  lemma IdsCons(rs: seq<SvgRecord>)
    requires rs != []
    ensures Ids(rs) == {rs[0].id} + Ids(rs[1..])
  {
    forall x | x in Ids(rs) ensures x in {rs[0].id} + Ids(rs[1..]) {
      var i :| 0 <= i < |rs| && rs[i].id == x;
      if i > 0 {
        assert rs[1..][i - 1].id == x;
      }
    }
    forall x | x in Ids(rs[1..]) ensures x in Ids(rs) {
      var i :| 0 <= i < |rs| - 1 && rs[1..][i].id == x;
      assert rs[i + 1].id == x;
    }
  }

  predicate UniqueIds(rs: seq<SvgRecord>) {
    forall i, j :: 0 <= i < j < |rs| ==> rs[i].id != rs[j].id
  }

  /** `findOne({_id})`: the first record with that id, if any. */
  function Lookup(rs: seq<SvgRecord>, key: string): (r: Option<SvgRecord>)
    ensures r.None? <==> key !in Ids(rs)
    ensures r.Some? ==> r.value in rs && r.value.id == key
  {
    if rs == [] then None
    else if rs[0].id == key then Some(rs[0])
    else
      IdsCons(rs);
      Lookup(rs[1..], key)
  }

  /** With unique ids, looking up a stored record's id finds exactly that record. */
  lemma {:induction false} LookupFindsStored(rs: seq<SvgRecord>, i: int)
    requires UniqueIds(rs) && 0 <= i < |rs|
    ensures Lookup(rs, rs[i].id) == Some(rs[i])
  {
    if i > 0 {
      assert rs[1..][i - 1] == rs[i];
      LookupFindsStored(rs[1..], i - 1);
    }
  }

  /** The document `$set` leaves behind: supplied fields and `updatedAt` replaced, all else kept. */
  function Apply(rec: SvgRecord, p: Patch, now: int): (r: SvgRecord)
    ensures r.name == (if p.name.Some? then p.name.value else rec.name)
    ensures r.description == (if p.description.Some? then p.description.value else rec.description)
    ensures r.updatedAt == now
    ensures r.id == rec.id && r.content == rec.content && r.fileSize == rec.fileSize
    ensures r.originalName == rec.originalName && r.createdAt == rec.createdAt
  {
    var withName := if p.name.Some? then rec.(name := p.name.value) else rec;
    var withDescription :=
      if p.description.Some? then withName.(description := p.description.value) else withName;
    withDescription.(updatedAt := now)
  }

  /** `updateOne({_id}, {$set})`: rewrites the first record with that id. */
  function UpdateFirst(rs: seq<SvgRecord>, key: string, p: Patch, now: int): (r: seq<SvgRecord>)
    ensures |r| == |rs|
    ensures forall i :: 0 <= i < |rs| ==> r[i].id == rs[i].id
    ensures key !in Ids(rs) ==> r == rs
  {
    if rs == [] then []
    else if rs[0].id == key then
      var r := [Apply(rs[0], p, now)] + rs[1..];
      assert forall i :: 1 <= i < |rs| ==> r[i] == rs[i];
      r
    else
      var t := UpdateFirst(rs[1..], key, p, now);
      IdsCons(rs);
      Sorting.HeadTail(rs);
      var r := [rs[0]] + t;
      assert forall i :: 1 <= i < |rs| ==> r[i] == t[i - 1] && rs[i] == rs[1..][i - 1];
      r
  }

  /** With unique ids the update rewrites exactly the record with that id and keeps every other one. */
  lemma {:induction false} UpdateFirstPointwise(rs: seq<SvgRecord>, key: string, p: Patch, now: int)
    requires UniqueIds(rs)
    ensures forall i :: 0 <= i < |rs| ==>
      UpdateFirst(rs, key, p, now)[i] == if rs[i].id == key then Apply(rs[i], p, now) else rs[i]
  {
    if rs != [] {
      var r := UpdateFirst(rs, key, p, now);
      if rs[0].id == key {
        assert forall i :: 1 <= i < |rs| ==> rs[i].id != rs[0].id;
      } else {
        UpdateFirstPointwise(rs[1..], key, p, now);
        var t := UpdateFirst(rs[1..], key, p, now);
        assert r == [rs[0]] + t;
        forall i | 1 <= i < |rs|
          ensures r[i] == if rs[i].id == key then Apply(rs[i], p, now) else rs[i]
        {
          assert r[i] == t[i - 1] && rs[1..][i - 1] == rs[i];
        }
      }
    }
  }

  /**
   * The update keeps the set of ids and their uniqueness, and a re-read by that id finds
   * the patched record.
   */
  lemma UpdateFirstSpec(rs: seq<SvgRecord>, key: string, p: Patch, now: int)
    requires UniqueIds(rs)
    ensures var r := UpdateFirst(rs, key, p, now);
      && UniqueIds(r) && Ids(r) == Ids(rs)
      && Lookup(r, key) == (if key in Ids(rs) then Some(Apply(Lookup(rs, key).value, p, now)) else None)
  {
    var r := UpdateFirst(rs, key, p, now);
    assert UniqueIds(r);
    assert Ids(r) == Ids(rs) by {
      forall x | x in Ids(rs) ensures x in Ids(r) {
        var i :| 0 <= i < |rs| && rs[i].id == x;
        assert r[i].id == x;
      }
    }
    if key in Ids(rs) {
      var i :| 0 <= i < |rs| && rs[i].id == key;
      UpdateFirstPointwise(rs, key, p, now);
      LookupFindsStored(rs, i);
      LookupFindsStored(r, i);
    }
  }

  /** `deleteOne({_id})`: drops the first record with that id. */
  function RemoveFirst(rs: seq<SvgRecord>, key: string): (r: seq<SvgRecord>)
    ensures key !in Ids(rs) ==> r == rs
    ensures key in Ids(rs) ==> |r| == |rs| - 1
    ensures multiset(r) <= multiset(rs)
  {
    if rs == [] then []
    else if rs[0].id == key then
      Sorting.HeadTail(rs);
      rs[1..]
    else
      IdsCons(rs);
      Sorting.HeadTail(rs);
      [rs[0]] + RemoveFirst(rs[1..], key)
  }

  /** With unique ids, deleting keeps exactly the records with another id. */
  lemma {:induction false} RemoveFirstMembers(rs: seq<SvgRecord>, key: string)
    requires UniqueIds(rs)
    ensures forall x :: x in RemoveFirst(rs, key) <==> x in rs && x.id != key
  {
    if rs != [] {
      Sorting.HeadTail(rs);
      if rs[0].id == key {
        assert forall i :: 1 <= i < |rs| ==> rs[i].id != rs[0].id;
      } else {
        RemoveFirstMembers(rs[1..], key);
      }
    }
  }

  lemma UniqueCons(a: SvgRecord, t: seq<SvgRecord>)
    requires UniqueIds(t) && forall y :: y in t ==> y.id != a.id
    ensures UniqueIds([a] + t)
  {
    var r := [a] + t;
    forall i, j | 0 <= i < j < |r| ensures r[i].id != r[j].id {
      assert r[j] == t[j - 1];
      if i > 0 {
        assert r[i] == t[i - 1];
      }
    }
  }

  lemma {:induction false} RemoveFirstUnique(rs: seq<SvgRecord>, key: string)
    requires UniqueIds(rs)
    ensures UniqueIds(RemoveFirst(rs, key))
  {
    if rs != [] && rs[0].id != key {
      var rest := rs[1..];
      RemoveFirstUnique(rest, key);
      RemoveFirstMembers(rest, key);
      UniqueCons(rs[0], RemoveFirst(rest, key));
    }
  }

  /**
   * With unique ids, deleting removes exactly the record with that id: afterwards no record
   * has it, all other records remain, ids stay unique, and a second delete changes nothing.
   */
  lemma RemoveFirstSpec(rs: seq<SvgRecord>, key: string)
    requires UniqueIds(rs)
    ensures var r := RemoveFirst(rs, key);
      && key !in Ids(r) && UniqueIds(r)
      && (forall x :: x in r <==> x in rs && x.id != key)
      && RemoveFirst(r, key) == r
  {
    RemoveFirstMembers(rs, key);
    RemoveFirstUnique(rs, key);
  }

  function CreatedAt(r: SvgRecord): int {
    r.createdAt
  }

  /** `find({}).sort({createdAt: -1})`: all records, newest first. */
  function NewestFirst(rs: seq<SvgRecord>): (r: seq<SvgRecord>)
    ensures Sorting.SortedDesc(r, CreatedAt)
    ensures multiset(r) == multiset(rs)
  {
    Sorting.SortDesc(rs, CreatedAt)
  }

  /** The `$or` filter of `search`: the name or the description contains `q`, ignoring case. */
  predicate Matches(rec: SvgRecord, q: string) {
    ContainsIgnoringCase(rec.name, q) || ContainsIgnoringCase(rec.description, q)
  }

  /** The records of `rs` that match `q`, in the order of `rs`. */
  function FilterMatching(rs: seq<SvgRecord>, q: string): (r: seq<SvgRecord>)
    ensures forall x :: x in r <==> x in rs && Matches(x, q)
  {
    if rs == [] then []
    else if Matches(rs[0], q) then [rs[0]] + FilterMatching(rs[1..], q)
    else FilterMatching(rs[1..], q)
  }

  lemma {:induction false} FilterMatchingIsSubsequence(rs: seq<SvgRecord>, q: string)
    ensures Sorting.IsSubsequence(FilterMatching(rs, q), rs)
  {
    if rs != [] {
      FilterMatchingIsSubsequence(rs[1..], q);
    }
  }

  /** Each record occurs in the filtered list as often as in `rs` if it matches, else never. */
  lemma {:induction false} FilterMatchingCount(rs: seq<SvgRecord>, q: string, x: SvgRecord)
    ensures multiset(FilterMatching(rs, q))[x] == if Matches(x, q) then multiset(rs)[x] else 0
  {
    if rs != [] {
      Sorting.HeadTail(rs);
      FilterMatchingCount(rs[1..], q, x);
    }
  }

  lemma {:induction false} FilterMatchingSorted(rs: seq<SvgRecord>, q: string)
    requires Sorting.SortedDesc(rs, CreatedAt)
    ensures Sorting.SortedDesc(FilterMatching(rs, q), CreatedAt)
  {
    if rs != [] {
      FilterMatchingSorted(rs[1..], q);
      var t := FilterMatching(rs[1..], q);
      if Matches(rs[0], q) {
        forall y | y in t ensures CreatedAt(rs[0]) >= CreatedAt(y) {
          var j :| 0 <= j < |rs[1..]| && rs[1..][j] == y;
          assert rs[j + 1] == y;
        }
        Sorting.SortedCons(rs[0], t, CreatedAt);
      }
    }
  }

  /** What `search(q)` returns: the matching records, newest first, as `findAll` orders them. */
  function SearchResult(rs: seq<SvgRecord>, q: string): seq<SvgRecord> {
    FilterMatching(NewestFirst(rs), q)
  }

  /**
   * `search(q)` yields exactly the stored records that match `q` (each as often as it is
   * stored), newest first, and is an ordered subsequence of `findAll()`.
   */
  lemma SearchSpec(rs: seq<SvgRecord>, q: string)
    ensures var r := SearchResult(rs, q);
      && Sorting.SortedDesc(r, CreatedAt)
      && Sorting.IsSubsequence(r, NewestFirst(rs))
      && forall x :: multiset(r)[x] == if Matches(x, q) then multiset(rs)[x] else 0
  {
    FilterMatchingSorted(NewestFirst(rs), q);
    FilterMatchingIsSubsequence(NewestFirst(rs), q);
    forall x {
      FilterMatchingCount(NewestFirst(rs), q, x);
    }
  }

  /** The store itself does not special-case an empty query: it matches every record. */
  lemma {:induction false} EmptyQueryMatchesAll(rs: seq<SvgRecord>)
    ensures FilterMatching(rs, "") == rs
  {
    if rs != [] {
      ContainsEmpty(ToLower(rs[0].name));
      EmptyQueryMatchesAll(rs[1..]);
    }
  }

  /** Searching for any piece of a record's name, in any ASCII case, finds that record. */
  lemma SearchFindsNamePiece(rs: seq<SvgRecord>, rec: SvgRecord, q: string, i: int)
    requires rec in rs && OccursAt(ToLower(rec.name), ToLower(q), i)
    ensures rec in SearchResult(rs, q)
  {
    ContainsIff(ToLower(rec.name), ToLower(q));
    assert rec in multiset(NewestFirst(rs));
  }

  /** A collection as the driver keeps it: ids unique and in canonical form. */
  ghost predicate ValidRecords(rs: seq<SvgRecord>) {
    UniqueIds(rs) && forall i :: 0 <= i < |rs| ==> IsCanonicalId(rs[i].id)
  }

  /** An update keeps the collection well formed. */
  lemma UpdateKeepsValid(rs: seq<SvgRecord>, key: string, p: Patch, now: int)
    requires ValidRecords(rs)
    ensures ValidRecords(UpdateFirst(rs, key, p, now))
  {
    UpdateFirstSpec(rs, key, p, now);
  }

  /** A delete keeps the collection well formed. */
  lemma RemoveKeepsValid(rs: seq<SvgRecord>, key: string)
    requires ValidRecords(rs)
    ensures ValidRecords(RemoveFirst(rs, key))
  {
    var r := RemoveFirst(rs, key);
    RemoveFirstSpec(rs, key);
    forall i | 0 <= i < |r| ensures IsCanonicalId(r[i].id) {
      assert r[i] in rs;
    }
  }

  /** The collection: `records` in insertion order, ids unique and in canonical form. */
  class SvgStore {
    var records: seq<SvgRecord>

    ghost predicate Valid()
      reads this
    {
      ValidRecords(records)
    }

    constructor ()
      ensures Valid() && records == []
    {
      records := [];
    }

    /**
     * `create(svgData)`: stores the fields unchanged with both timestamps and the fresh id
     * the driver assigns, and returns the stored document.
     */
    method Create(data: SvgData, db: DbStatus, newId: string, createdAt: int, updatedAt: int)
      returns (r: Result<SvgRecord, StoreError>)
      requires Valid()
      requires IsCanonicalId(newId) && newId !in Ids(records)
      modifies this
      ensures Valid()
      ensures db == NotConnected ==> r == Err(NotConnectedError) && records == old(records)
      ensures db.OperationFails? ==> r == Err(CollectionError(db.message)) && records == old(records)
      ensures db == Connected ==> r.Ok? && records == old(records) + [r.value]
      ensures r.Ok? ==> r.value == SvgRecord(newId, data.name, data.description, data.content,
                                             data.fileSize, data.originalName, createdAt, updatedAt)
    {
      match db
      case NotConnected => r := Err(NotConnectedError);
      case OperationFails(m) => r := Err(CollectionError(m));
      case Connected =>
        var rec := SvgRecord(newId, data.name, data.description, data.content,
                             data.fileSize, data.originalName, createdAt, updatedAt);
        assert forall i :: 0 <= i < |records| ==> records[i].id in Ids(records);
        records := records + [rec];
        r := Ok(rec);
    }

    /** `findAll()`: every stored record, newest first. */
    method FindAll(db: DbStatus) returns (r: Result<seq<SvgRecord>, StoreError>)
      ensures db == NotConnected ==> r == Err(NotConnectedError)
      ensures db.OperationFails? ==> r == Err(CollectionError(db.message))
      ensures db == Connected ==> r.Ok? && multiset(r.value) == multiset(records)
      ensures r.Ok? ==> r.value == NewestFirst(records) && Sorting.SortedDesc(r.value, CreatedAt)
    {
      match db
      case NotConnected => r := Err(NotConnectedError);
      case OperationFails(m) => r := Err(CollectionError(m));
      case Connected => r := Ok(NewestFirst(records));
    }

    /**
     * `findById(id)`: a malformed id throws (after the handle is fetched, before the
     * collection is asked); otherwise the record with that id, or none.
     */
    method FindById(id: string, db: DbStatus) returns (r: Result<Option<SvgRecord>, StoreError>)
      requires Valid()
      ensures db == NotConnected ==> r == Err(NotConnectedError)
      ensures db != NotConnected && !IsObjectIdText(id) ==> r == Err(MalformedIdError(id))
      ensures db.OperationFails? && IsObjectIdText(id) ==> r == Err(CollectionError(db.message))
      ensures db == Connected && IsObjectIdText(id) ==> r.Ok?
      ensures r.Ok? ==> (r.value.Some? <==> ToLower(id) in Ids(records))
      ensures r.Ok? && r.value.Some? ==> r.value.value in records && r.value.value.id == ToLower(id)
    {
      if db == NotConnected {
        return Err(NotConnectedError);
      }
      var key := ParseObjectId(id);
      match key
      case Err(e) => r := Err(e);
      case Ok(k) =>
        if db.OperationFails? {
          r := Err(CollectionError(db.message));
        } else {
          r := Ok(Lookup(records, k));
        }
    }

    /**
     * `updateById(id, patch)`: no match gives none and changes nothing; a match `$set`s the
     * supplied fields and `updatedAt` on that record only, then re-reads it (`reread` is the
     * status of that second call, whose failure is thrown although the write has happened).
     */
    method UpdateById(id: string, p: Patch, now: int, db: DbStatus, reread: DbStatus)
      returns (r: Result<Option<SvgRecord>, StoreError>)
      requires Valid()
      modifies this
      ensures Valid()
      ensures db == NotConnected ==> r == Err(NotConnectedError) && records == old(records)
      ensures db != NotConnected && !IsObjectIdText(id) ==> r == Err(MalformedIdError(id)) && records == old(records)
      ensures db.OperationFails? && IsObjectIdText(id) ==> r == Err(CollectionError(db.message)) && records == old(records)
      ensures db == Connected && IsObjectIdText(id) && ToLower(id) !in Ids(old(records)) ==>
                r == Ok(None) && records == old(records)
      ensures db == Connected && IsObjectIdText(id) && ToLower(id) in Ids(old(records)) ==>
                && records == UpdateFirst(old(records), ToLower(id), p, now)
                && (reread == Connected ==> r == Ok(Some(Apply(Lookup(old(records), ToLower(id)).value, p, now))))
                && (reread == NotConnected ==> r == Err(NotConnectedError))
                && (reread.OperationFails? ==> r == Err(CollectionError(reread.message)))
    {
      if db == NotConnected {
        return Err(NotConnectedError);
      }
      var key := ParseObjectId(id);
      if key.Err? {
        return Err(key.error);
      }
      if db.OperationFails? {
        return Err(CollectionError(db.message));
      }
      ghost var before := records;
      var matchedCount := UpdateOne(key.value, p, now);
      if matchedCount == 0 {
        return Ok(None);
      }
      UpdateFirstSpec(before, key.value, p, now);
      r := FindById(id, reread);
    }

    /** `collection.updateOne({_id}, {$set})`: rewrites the record with that id and reports how many matched. */
    method UpdateOne(key: string, p: Patch, now: int) returns (matchedCount: nat)
      requires Valid()
      modifies this
      ensures Valid()
      ensures matchedCount == if key in Ids(old(records)) then 1 else 0
      ensures records == UpdateFirst(old(records), key, p, now)
      ensures forall i :: 0 <= i < |records| ==>
                records[i] == if old(records)[i].id == key then Apply(old(records)[i], p, now) else old(records)[i]
    {
      matchedCount := if key in Ids(records) then 1 else 0;
      UpdateFirstPointwise(records, key, p, now);
      UpdateKeepsValid(records, key, p, now);
      records := UpdateFirst(records, key, p, now);
    }

    /** `deleteById(id)`: true exactly when a record was removed; afterwards none has that id. */
    method DeleteById(id: string, db: DbStatus) returns (r: Result<bool, StoreError>)
      requires Valid()
      modifies this
      ensures Valid()
      ensures db == NotConnected ==> r == Err(NotConnectedError) && records == old(records)
      ensures db != NotConnected && !IsObjectIdText(id) ==> r == Err(MalformedIdError(id)) && records == old(records)
      ensures db.OperationFails? && IsObjectIdText(id) ==> r == Err(CollectionError(db.message)) && records == old(records)
      ensures db == Connected && IsObjectIdText(id) ==>
                && r == Ok(ToLower(id) in Ids(old(records)))
                && records == RemoveFirst(old(records), ToLower(id))
                && ToLower(id) !in Ids(records)
                && (forall x :: x in records <==> x in old(records) && x.id != ToLower(id))
    {
      if db == NotConnected {
        return Err(NotConnectedError);
      }
      var key := ParseObjectId(id);
      if key.Err? {
        return Err(key.error);
      }
      if db.OperationFails? {
        return Err(CollectionError(db.message));
      }
      var k := key.value;
      RemoveFirstSpec(records, k);
      RemoveKeepsValid(records, k);
      r := Ok(k in Ids(records));
      records := RemoveFirst(records, k);
    }

    /** `search(q)`: the records whose name or description contains `q`, ignoring case, newest first. */
    method Search(q: string, db: DbStatus) returns (r: Result<seq<SvgRecord>, StoreError>)
      ensures db == NotConnected ==> r == Err(NotConnectedError)
      ensures db.OperationFails? ==> r == Err(CollectionError(db.message))
      ensures db == Connected ==> r == Ok(SearchResult(records, q))
      ensures r.Ok? ==> (Sorting.SortedDesc(r.value, CreatedAt)
                         && forall x :: x in r.value <==> x in records && Matches(x, q))
    {
      match db
      case NotConnected => r := Err(NotConnectedError);
      case OperationFails(m) => r := Err(CollectionError(m));
      case Connected =>
        SearchSpec(records, q);
        r := Ok(SearchResult(records, q));
    }
  }
}
