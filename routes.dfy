/**
 * backend/routes/svgs.js: multer's file filter and size limit, and the six handlers'
 * checks, store calls and answers. Each handler is one atomic step over an `SvgStore`.
 */
module Routes {
  import opened Wrappers
  import opened Text
  import opened Records
  import opened Http

  /** multer's `limits.fileSize`: 5 MiB. */
  const MAX_FILE_SIZE := 5 * 1024 * 1024
  const SVG_MIME_TYPE := "image/svg+xml"
  const ONLY_SVG_MESSAGE := "Only SVG files are allowed"
  /** The code and message of the error multer raises for a file over the limit. */
  const LIMIT_FILE_SIZE := "LIMIT_FILE_SIZE"
  const FILE_TOO_LARGE_MESSAGE := "File too large"

  const REQUIRED_FOR_CREATE := "Name, description, and SVG file are required"
  const INVALID_CONTENT := "Invalid SVG file content"
  const SEARCH_QUERY_REQUIRED := "Search query is required"
  const REQUIRED_FOR_UPDATE := "Name and description are required"
  const NOT_FOUND := "SVG not found"

  /** The `svgFile` part as multer hands it over; `content` is its buffer read as UTF-8. */
  datatype Upload = Upload(mimetype: string, originalName: string, size: int, content: string)

  /** `fileFilter`: the declared type is SVG, or the lower-cased name ends in `.svg`. */
  predicate FileFilter(mimetype: string, originalName: string) {
    mimetype == SVG_MIME_TYPE || EndsWith(ToLower(originalName), ".svg")
  }

  /**
   * What multer does before the handler runs: the filter sees the file first, the size
   * limit is enforced while it is read. A request without a file goes through.
   */
  function ReceiveUpload(file: Option<Upload>): (r: Result<Option<Upload>, AppError>)
    ensures r.Ok? <==> file.None? || (FileFilter(file.value.mimetype, file.value.originalName)
                                     && file.value.size <= MAX_FILE_SIZE)
    ensures r.Ok? ==> r.value == file
    ensures file.Some? && !FileFilter(file.value.mimetype, file.value.originalName) ==>
              r == Err(AppError(None, ONLY_SVG_MESSAGE))
    ensures file.Some? && FileFilter(file.value.mimetype, file.value.originalName)
            && file.value.size > MAX_FILE_SIZE ==>
              r == Err(AppError(Some(LIMIT_FILE_SIZE), FILE_TOO_LARGE_MESSAGE))
  {
    match file
    case None => Ok(None)
    case Some(f) =>
      if !FileFilter(f.mimetype, f.originalName) then Err(AppError(None, ONLY_SVG_MESSAGE))
      else if f.size > MAX_FILE_SIZE then Err(AppError(Some(LIMIT_FILE_SIZE), FILE_TOO_LARGE_MESSAGE))
      else Ok(file)
  }

  /** The extension test ignores case, and either test alone lets a file through. */
  lemma FileFilterExamples()
    ensures FileFilter("text/plain", "LOGO.SVG")
    ensures FileFilter(SVG_MIME_TYPE, "notes.txt")
    ensures !FileFilter("text/plain", "notes.txt")
    ensures !FileFilter("text/plain", "logo.svg.txt")
  {
    assert ToLower("LOGO.SVG") == "logo.svg";
    assert ToLower("notes.txt")[5..] == ".txt";
    assert ToLower("logo.svg.txt")[8..] == ".txt";
  }

  /** An upload of exactly 5 MiB passes the limit; one byte more is refused with LIMIT_FILE_SIZE. */
  lemma SizeLimitBoundary(f: Upload)
    requires FileFilter(f.mimetype, f.originalName)
    ensures f.size == MAX_FILE_SIZE ==> ReceiveUpload(Some(f)) == Ok(Some(f))
    ensures f.size == MAX_FILE_SIZE + 1 ==>
              ReceiveUpload(Some(f)).Err? && ReceiveUpload(Some(f)).error.code == Some(LIMIT_FILE_SIZE)
  {
  }

  /** `!v` is false: the field is there and is not the empty string. */
  predicate Truthy(v: Option<string>) {
    v.Some? && v.value != ""
  }

  /**
   * The POST handler's checks in source order (fields and file first, on the untrimmed
   * values; then the content), and the document it hands to the store.
   */
  function ValidateCreate(name: Option<string>, description: Option<string>, file: Option<Upload>)
    : (r: Result<SvgData, Response>)
    ensures !(Truthy(name) && Truthy(description) && file.Some?) ==>
              r == Err(Failure(400, REQUIRED_FOR_CREATE))
    ensures Truthy(name) && Truthy(description) && file.Some? && !Contains(file.value.content, "<svg") ==>
              r == Err(Failure(400, INVALID_CONTENT))
    ensures r.Ok? <==> Truthy(name) && Truthy(description) && file.Some? && Contains(file.value.content, "<svg")
    ensures r.Ok? ==> r.value == SvgData(Trim(name.value), Trim(description.value), file.value.content,
                                         file.value.size, file.value.originalName)
  {
    if !Truthy(name) || !Truthy(description) || file.None? then
      Err(Failure(400, REQUIRED_FOR_CREATE))
    else if !Contains(file.value.content, "<svg") then
      Err(Failure(400, INVALID_CONTENT))
    else
      Ok(SvgData(Trim(name.value), Trim(description.value), file.value.content,
                 file.value.size, file.value.originalName))
  }

  /**
   * The required check looks at the untrimmed name: a name of spaces passes and is stored
   * as the empty string.
   */
  lemma BlankNamePassesCreate(description: string, file: Upload)
    requires description != "" && Contains(file.content, "<svg")
    ensures ValidateCreate(Some("   "), Some(description), Some(file)).Ok?
    ensures ValidateCreate(Some("   "), Some(description), Some(file)).value.name == ""
  {
    TrimEmptyIff("   ");
  }

  /** Whatever is stored has its name and description trimmed: trimming them again changes nothing. */
  lemma CreatedFieldsAreTrimmed(name: Option<string>, description: Option<string>, file: Option<Upload>)
    requires ValidateCreate(name, description, file).Ok?
    ensures var d := ValidateCreate(name, description, file).value;
      Trim(d.name) == d.name && Trim(d.description) == d.description
  {
    TrimIdempotent(name.value);
    TrimIdempotent(description.value);
  }

  /** The POST answer once the store was asked: 201 with the record, or 500. */
  function CreateResponse(r: Result<SvgRecord, StoreError>): (resp: Response)
    ensures resp.status == 201 <==> r.Ok?
    ensures r.Ok? ==> resp == Success(201, Some("SVG uploaded successfully"), Some(One(r.value)))
    ensures r.Err? ==> resp == ServerFault("Failed to upload SVG", ErrorMessage(r.error))
  {
    match r
    case Ok(rec) => Success(201, Some("SVG uploaded successfully"), Some(One(rec)))
    case Err(e) => ServerFault("Failed to upload SVG", ErrorMessage(e))
  }

  /** GET `/` and GET `/search` once the store answered: 200 with the list or 500 with `failure`. */
  function ListResponse(r: Result<seq<SvgRecord>, StoreError>, failure: string): (resp: Response)
    ensures resp.body.success <==> r.Ok?
    ensures r.Ok? ==> resp == Success(200, None, Some(Many(r.value)))
    ensures r.Err? ==> resp == ServerFault(failure, ErrorMessage(r.error))
  {
    match r
    case Ok(rs) => Success(200, None, Some(Many(rs)))
    case Err(e) => ServerFault(failure, ErrorMessage(e))
  }

  /** GET `/:id`: a missing record is 404, a thrown error (a malformed id included) is 500. */
  function LookupResponse(r: Result<Option<SvgRecord>, StoreError>): (resp: Response)
    ensures resp.status == 404 <==> r == Ok(None)
    ensures resp.status == 500 <==> r.Err?
    ensures resp.body.success <==> r.Ok? && r.value.Some?
    ensures r.Ok? && r.value.Some? ==> resp == Success(200, None, Some(One(r.value.value)))
    ensures r == Ok(None) ==> resp == Failure(404, NOT_FOUND)
    ensures r.Err? ==> resp == ServerFault("Failed to fetch SVG", ErrorMessage(r.error))
  {
    match r
    case Ok(None) => Failure(404, NOT_FOUND)
    case Ok(Some(rec)) => Success(200, None, Some(One(rec)))
    case Err(e) => ServerFault("Failed to fetch SVG", ErrorMessage(e))
  }

  /** A field of a JSON body: absent, a string, or another JSON value whose truthiness is given. */
  datatype FormValue = Absent | Text(s: string) | NonText(truthy: bool)

  predicate IsTruthy(v: FormValue) {
    match v
    case Absent => false
    case Text(s) => s != ""
    case NonText(t) => t
  }

  /**
   * The PUT handler's checks: both fields truthy, else 400; then `name.trim()` and
   * `description.trim()`, which throw (and give 500) on a value that is not a string.
   * The patch holds exactly the two trimmed fields.
   */
  function ValidateUpdate(name: FormValue, description: FormValue): (r: Result<Patch, Response>)
    ensures !(IsTruthy(name) && IsTruthy(description)) ==> r == Err(Failure(400, REQUIRED_FOR_UPDATE))
    ensures r.Ok? <==> name.Text? && description.Text? && name.s != "" && description.s != ""
    ensures r.Ok? ==> r.value == Patch(Some(Trim(name.s)), Some(Trim(description.s)))
    ensures IsTruthy(name) && IsTruthy(description) && !(name.Text? && description.Text?) ==>
              r.Err? && r.error.status == 500
  {
    if !IsTruthy(name) || !IsTruthy(description) then Err(Failure(400, REQUIRED_FOR_UPDATE))
    else if !name.Text? then Err(ServerFault("Failed to update SVG", "name.trim is not a function"))
    else if !description.Text? then Err(ServerFault("Failed to update SVG", "description.trim is not a function"))
    else Ok(Patch(Some(Trim(name.s)), Some(Trim(description.s))))
  }

  /** PUT `/:id` once the store answered: 200 with the refreshed record, 404, or 500. */
  function UpdateResponse(r: Result<Option<SvgRecord>, StoreError>): (resp: Response)
    ensures resp.status == 404 <==> r == Ok(None)
    ensures resp.status == 500 <==> r.Err?
    ensures r.Ok? && r.value.Some? ==> resp == Success(200, Some("SVG updated successfully"), Some(One(r.value.value)))
    ensures r == Ok(None) ==> resp == Failure(404, NOT_FOUND)
    ensures r.Err? ==> resp == ServerFault("Failed to update SVG", ErrorMessage(r.error))
  {
    match r
    case Ok(None) => Failure(404, NOT_FOUND)
    case Ok(Some(rec)) => Success(200, Some("SVG updated successfully"), Some(One(rec)))
    case Err(e) => ServerFault("Failed to update SVG", ErrorMessage(e))
  }

  /** DELETE `/:id` once the store answered: 200 if a record was removed, 404 if none, 500 on error. */
  function DeleteResponse(r: Result<bool, StoreError>): (resp: Response)
    ensures resp.status == 404 <==> r == Ok(false)
    ensures resp.status == 500 <==> r.Err?
    ensures r == Ok(true) ==> resp == Success(200, Some("SVG deleted successfully"), None)
    ensures r == Ok(false) ==> resp == Failure(404, NOT_FOUND)
    ensures r.Err? ==> resp == ServerFault("Failed to delete SVG", ErrorMessage(r.error))
  {
    match r
    case Ok(true) => Success(200, Some("SVG deleted successfully"), None)
    case Ok(false) => Failure(404, NOT_FOUND)
    case Err(e) => ServerFault("Failed to delete SVG", ErrorMessage(e))
  }

  /** GET `/`: every record, newest first. */
  method ListAll(store: SvgStore, db: DbStatus) returns (resp: Response)
    ensures db == Connected ==> resp == Success(200, None, Some(Many(NewestFirst(store.records))))
    ensures db != Connected ==> resp.status == 500 && resp.body.message == Some("Failed to fetch SVGs")
  {
    var r := store.FindAll(db);
    resp := ListResponse(r, "Failed to fetch SVGs");
  }

  /** GET `/search`: without a truthy `q` the answer is 400 whatever the store's state. */
  method Search(store: SvgStore, q: Option<string>, db: DbStatus) returns (resp: Response)
    ensures !Truthy(q) ==> resp == Failure(400, SEARCH_QUERY_REQUIRED)
    ensures Truthy(q) && db == Connected ==>
              resp == Success(200, None, Some(Many(SearchResult(store.records, q.value))))
    ensures Truthy(q) && db != Connected ==>
              resp.status == 500 && resp.body.message == Some("Failed to search SVGs")
  {
    if !Truthy(q) {
      return Failure(400, SEARCH_QUERY_REQUIRED);
    }
    var r := store.Search(q.value, db);
    resp := ListResponse(r, "Failed to search SVGs");
  }

  /** GET `/:id`: the record, 404 when there is none, and 500 for a malformed id. */
  method GetOne(store: SvgStore, id: string, db: DbStatus) returns (resp: Response)
    requires store.Valid()
    ensures db == Connected && IsObjectIdText(id) ==>
              (resp.status == 404 <==> ToLower(id) !in Ids(store.records))
    ensures db == Connected && IsObjectIdText(id) && ToLower(id) in Ids(store.records) ==>
              resp.status == 200 && resp.body.data.Some? && resp.body.data.value.One?
              && resp.body.data.value.svg in store.records && resp.body.data.value.svg.id == ToLower(id)
    ensures resp.status == 500 <==> db != Connected || !IsObjectIdText(id)
    ensures resp.status == 500 ==> resp.body.message == Some("Failed to fetch SVG") && !resp.body.success
  {
    var r := store.FindById(id, db);
    resp := LookupResponse(r);
  }

  /** POST `/` after multer: validate, then store the trimmed fields and the content verbatim. */
  method Create(store: SvgStore, name: Option<string>, description: Option<string>, file: Option<Upload>,
                db: DbStatus, newId: string, createdAt: int, updatedAt: int)
    returns (resp: Response)
    requires store.Valid()
    requires IsCanonicalId(newId) && newId !in Ids(store.records)
    modifies store
    ensures store.Valid()
    ensures ValidateCreate(name, description, file).Err? ==>
              resp == ValidateCreate(name, description, file).error && store.records == old(store.records)
    ensures ValidateCreate(name, description, file).Ok? && db != Connected ==>
              resp.status == 500 && store.records == old(store.records)
    ensures ValidateCreate(name, description, file).Ok? && db == Connected ==>
              var d := ValidateCreate(name, description, file).value;
              var rec := SvgRecord(newId, d.name, d.description, d.content, d.fileSize, d.originalName,
                                   createdAt, updatedAt);
              resp == Success(201, Some("SVG uploaded successfully"), Some(One(rec)))
              && store.records == old(store.records) + [rec]
  {
    var checked := ValidateCreate(name, description, file);
    if checked.Err? {
      return checked.error;
    }
    var r := store.Create(checked.value, db, newId, createdAt, updatedAt);
    resp := CreateResponse(r);
  }

  /**
   * An upload followed by a fetch of the id it was given: the fetch answers 200 with exactly
   * the record the upload answered with, holding the trimmed fields and the content verbatim.
   */
  method CreateThenGet(store: SvgStore, name: Option<string>, description: Option<string>, file: Option<Upload>,
                       newId: string, createdAt: int, updatedAt: int)
    returns (created: Response, fetched: Response)
    requires store.Valid()
    requires IsCanonicalId(newId) && newId !in Ids(store.records)
    requires ValidateCreate(name, description, file).Ok?
    modifies store
    ensures created.status == 201 && fetched.status == 200
    ensures fetched.body.data == created.body.data
    ensures fetched.body.data.Some? && fetched.body.data.value.One?
    ensures var rec := fetched.body.data.value.svg;
      && rec.id == newId && rec.name == Trim(name.value) && rec.description == Trim(description.value)
      && rec.content == file.value.content && rec.fileSize == file.value.size
  {
    created := Create(store, name, description, file, Connected, newId, createdAt, updatedAt);
    var rec := created.body.data.value.svg;
    assert store.records[|store.records| - 1] == rec;
    fetched := GetOne(store, newId, Connected);
    SameIdSameRecord(store.records, fetched.body.data.value.svg, rec);
  }

  /** With unique ids, two stored records with the same id are the same record. */
  lemma SameIdSameRecord(rs: seq<SvgRecord>, a: SvgRecord, b: SvgRecord)
    requires UniqueIds(rs) && a in rs && b in rs && a.id == b.id
    ensures a == b
  {
    var i :| 0 <= i < |rs| && rs[i] == a;
    var j :| 0 <= j < |rs| && rs[j] == b;
    assert i == j;
  }

  /** PUT `/:id`: validate, then `$set` the trimmed name and description on that record only. */
  method Update(store: SvgStore, id: string, name: FormValue, description: FormValue,
                now: int, db: DbStatus, reread: DbStatus)
    returns (resp: Response)
    requires store.Valid()
    modifies store
    ensures store.Valid()
    ensures ValidateUpdate(name, description).Err? ==>
              resp == ValidateUpdate(name, description).error && store.records == old(store.records)
    ensures ValidateUpdate(name, description).Ok? && (db != Connected || !IsObjectIdText(id)) ==>
              resp.status == 500 && resp.body.message == Some("Failed to update SVG")
              && store.records == old(store.records)
    ensures ValidateUpdate(name, description).Ok? ==>
              (resp.status == 500 <==>
                 db != Connected || !IsObjectIdText(id)
                 || (ToLower(id) in Ids(old(store.records)) && reread != Connected))
    ensures resp.status == 500 ==> resp.body.message == Some("Failed to update SVG")
    ensures ValidateUpdate(name, description).Ok? && db == Connected && IsObjectIdText(id) ==>
              var p := ValidateUpdate(name, description).value;
              && store.records == UpdateFirst(old(store.records), ToLower(id), p, now)
              && (ToLower(id) !in Ids(old(store.records)) ==> resp == Failure(404, NOT_FOUND))
              && (ToLower(id) in Ids(old(store.records)) && reread == Connected ==>
                    resp == Success(200, Some("SVG updated successfully"),
                                    Some(One(Apply(Lookup(old(store.records), ToLower(id)).value, p, now)))))
  {
    var checked := ValidateUpdate(name, description);
    if checked.Err? {
      return checked.error;
    }
    var r := store.UpdateById(id, checked.value, now, db, reread);
    resp := UpdateResponse(r);
  }

  /** DELETE `/:id`: 200 if a record went, 404 if none had that id, 500 on a thrown error. */
  method Delete(store: SvgStore, id: string, db: DbStatus) returns (resp: Response)
    requires store.Valid()
    modifies store
    ensures store.Valid()
    ensures db == Connected && IsObjectIdText(id) ==>
              && (resp.status == 200 <==> ToLower(id) in Ids(old(store.records)))
              && (resp.status == 404 <==> ToLower(id) !in Ids(old(store.records)))
              && store.records == RemoveFirst(old(store.records), ToLower(id))
    ensures resp.status == 500 <==> db != Connected || !IsObjectIdText(id)
    ensures resp.status == 500 ==>
              resp.body.message == Some("Failed to delete SVG") && store.records == old(store.records)
  {
    var r := store.DeleteById(id, db);
    resp := DeleteResponse(r);
  }

  /** The same id deleted twice: the first answer is 200, the second 404, and the store holds one record fewer. */
  method DeleteTwice(store: SvgStore, id: string) returns (first: Response, second: Response)
    requires store.Valid() && IsObjectIdText(id) && ToLower(id) in Ids(store.records)
    modifies store
    ensures first.status == 200 && second.status == 404
    ensures store.records == RemoveFirst(old(store.records), ToLower(id))
  {
    first := Delete(store, id, Connected);
    second := Delete(store, id, Connected);
    RemoveFirstSpec(old(store.records), ToLower(id));
  }
}
