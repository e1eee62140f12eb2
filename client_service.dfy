/**
 * svgholder/src/services/svgStorage.ts: the client's file checks, the mapping of a server
 * record to an `SvgItem`, and what each API call returns or throws for each outcome of its
 * HTTP request. The request itself is an `ApiOutcome` parameter.
 */
module ClientService {
  import opened Wrappers
  import opened Text
  import opened Records
  import opened Http
  import Sorting
  import Routes

  /** The client's record (types/svg.ts); `uploadDate` is in milliseconds. */
  datatype SvgItem = SvgItem(
    id: string, name: string, description: string, content: string, uploadDate: int, fileSize: int)

  /** The parts of a browser `File` the checks look at. */
  datatype FileInfo = FileInfo(name: string, mimeType: string, size: int)

  /** `{ isValid, error? }`. */
  datatype FileCheck = FileCheck(isValid: bool, error: Option<string>)

  const MAX_FILE_SIZE := 5 * 1024 * 1024
  const NO_FILE := "No file selected"
  const INVALID_TYPE := "Please select a valid SVG file"
  const TOO_LARGE := "File size must be less than 5MB"

  predicate HasSvgType(f: FileInfo) {
    f.mimeType == "image/svg+xml" || EndsWith(ToLower(f.name), ".svg")
  }

  /** `validateSvgFile`: no file, then the type, then the size; the first failure is reported. */
  function ValidateSvgFile(file: Option<FileInfo>): (r: FileCheck)
    ensures r.isValid <==> r.error.None?
    ensures r.isValid <==> file.Some? && HasSvgType(file.value) && file.value.size <= MAX_FILE_SIZE
    ensures file.None? ==> r.error == Some(NO_FILE)
    ensures file.Some? && !HasSvgType(file.value) ==> r.error == Some(INVALID_TYPE)
    ensures file.Some? && HasSvgType(file.value) && file.value.size > MAX_FILE_SIZE ==> r.error == Some(TOO_LARGE)
  {
    if file.None? then FileCheck(false, Some(NO_FILE))
    else if !HasSvgType(file.value) then FileCheck(false, Some(INVALID_TYPE))
    else if file.value.size > MAX_FILE_SIZE then FileCheck(false, Some(TOO_LARGE))
    else FileCheck(true, None)
  }

  /** The client accepts exactly the files the server's multer stage accepts. */
  lemma ClientAndServerAcceptSameFiles(f: FileInfo, content: string)
    ensures ValidateSvgFile(Some(f)).isValid
            <==> Routes.ReceiveUpload(Some(Routes.Upload(f.mimeType, f.name, f.size, content))).Ok?
  {
  }

  /** A file of exactly 5 MiB is accepted, one byte more is not. */
  lemma FiveMebibytesAccepted(name: string)
    ensures ValidateSvgFile(Some(FileInfo(name, "image/svg+xml", 5 * 1024 * 1024))).isValid
    ensures ValidateSvgFile(Some(FileInfo(name, "image/svg+xml", 5 * 1024 * 1024 + 1))).error == Some(TOO_LARGE)
  {
  }

  /**
   * `readSvgFile` once the reader is done: `read` is the text, or none when the reader
   * failed. Text without `<svg` is refused.
   */
  function ReadSvgFile(read: Option<string>): (r: Result<string, string>)
    ensures read.None? ==> r == Err("Failed to read file")
    ensures read.Some? ==> (r.Ok? <==> Contains(read.value, "<svg"))
    ensures r.Ok? ==> r.value == read.value
    ensures read.Some? && r.Err? ==> r.error == "Invalid SVG content"
  {
    match read
    case None => Err("Failed to read file")
    case Some(text) => if Contains(text, "<svg") then Ok(text) else Err("Invalid SVG content")
  }

  /** `transformSvgFromApi`: `_id` becomes `id`, `createdAt` becomes `uploadDate`. */
  function TransformSvgFromApi(a: SvgRecord): (r: SvgItem)
    ensures r.id == a.id && r.uploadDate == a.createdAt
    ensures r.name == a.name && r.description == a.description
    ensures r.content == a.content && r.fileSize == a.fileSize
  {
    SvgItem(a.id, a.name, a.description, a.content, a.createdAt, a.fileSize)
  }

  /** `updatedAt` and `originalName` are dropped: records differing only there look the same. */
  lemma TransformDropsServerOnlyFields(a: SvgRecord, updatedAt: int, originalName: string)
    ensures TransformSvgFromApi(a.(updatedAt := updatedAt, originalName := originalName))
            == TransformSvgFromApi(a)
  {
  }

  function TransformAll(rs: seq<SvgRecord>): (r: seq<SvgItem>)
    ensures |r| == |rs| && forall i :: 0 <= i < |rs| ==> r[i] == TransformSvgFromApi(rs[i])
  {
    seq(|rs|, i requires 0 <= i < |rs| => TransformSvgFromApi(rs[i]))
  }

  function UploadDate(item: SvgItem): int {
    item.uploadDate
  }

  /** A list the server sent newest first arrives newest first by `uploadDate`. */
  lemma TransformKeepsNewestFirst(rs: seq<SvgRecord>)
    requires Sorting.SortedDesc(rs, CreatedAt)
    ensures Sorting.SortedDesc(TransformAll(rs), UploadDate)
  {
    var r := TransformAll(rs);
    forall i, j | 0 <= i < j < |r| ensures UploadDate(r[i]) >= UploadDate(r[j]) {
      assert CreatedAt(rs[i]) >= CreatedAt(rs[j]);
    }
  }

  /**
   * How an axios request ends: a 2xx answer whose `data.data` may be missing, an error
   * answer whose `data.message` may be missing, or no answer at all.
   */
  datatype ApiOutcome<T> = Delivered(data: Option<T>) | Rejected(message: Option<string>) | NoResponse

  /** The outcome a client request sees for a server answer that carries a single record. */
  function RecordOutcome(resp: Response): (o: ApiOutcome<SvgRecord>)
    ensures o.Delivered? <==> 200 <= resp.status < 300
    ensures o.Rejected? ==> o.message == resp.body.message
  {
    if 200 <= resp.status < 300 then
      Delivered(match resp.body.data case Some(One(rec)) => Some(rec) case _ => None)
    else Rejected(resp.body.message)
  }

  /** The outcome a client request sees for a server answer that carries a list. */
  function ListOutcome(resp: Response): (o: ApiOutcome<seq<SvgRecord>>)
    ensures o.Delivered? <==> 200 <= resp.status < 300
  {
    if 200 <= resp.status < 300 then
      Delivered(match resp.body.data case Some(Many(rs)) => Some(rs) case _ => None)
    else Rejected(resp.body.message)
  }

  /** `getAllSvgs`: the mapped list, or the error `Failed to fetch SVGs`. */
  function GetAllSvgs(o: ApiOutcome<seq<SvgRecord>>): (r: Result<seq<SvgItem>, string>)
    ensures r.Ok? <==> o.Delivered? && o.data.Some?
    ensures r.Ok? ==> r.value == TransformAll(o.data.value)
    ensures r.Err? ==> r.error == "Failed to fetch SVGs"
  {
    match o
    case Delivered(Some(rs)) => Ok(TransformAll(rs))
    case _ => Err("Failed to fetch SVGs")
  }

  /** `searchSvgs`: the mapped list, or the error `Failed to search SVGs`. */
  function SearchSvgs(o: ApiOutcome<seq<SvgRecord>>): (r: Result<seq<SvgItem>, string>)
    ensures r.Ok? <==> o.Delivered? && o.data.Some?
    ensures r.Ok? ==> r.value == TransformAll(o.data.value)
    ensures r.Err? ==> r.error == "Failed to search SVGs"
  {
    match o
    case Delivered(Some(rs)) => Ok(TransformAll(rs))
    case _ => Err("Failed to search SVGs")
  }

  const SAVE_FAILED := "Failed to save SVG"

  /**
   * `saveSvg`: the mapped record; on an error answer its non-empty `message`, otherwise
   * `Failed to save SVG` (also when a 2xx answer has no record to map).
   */
  function SaveSvg(o: ApiOutcome<SvgRecord>): (r: Result<SvgItem, string>)
    ensures r.Ok? <==> o.Delivered? && o.data.Some?
    ensures r.Ok? ==> r.value == TransformSvgFromApi(o.data.value)
    ensures o.Rejected? && Routes.Truthy(o.message) ==> r == Err(o.message.value)
    ensures r.Err? && !(o.Rejected? && Routes.Truthy(o.message)) ==> r.error == SAVE_FAILED
    ensures r.Err? ==> r.error != ""
  {
    match o
    case Delivered(Some(rec)) => Ok(TransformSvgFromApi(rec))
    case Delivered(None) => Err(SAVE_FAILED)
    case Rejected(m) => Err(if Routes.Truthy(m) then m.value else SAVE_FAILED)
    case NoResponse => Err(SAVE_FAILED)
  }

  /** A refused upload shows the server's own reason, e.g. `Only SVG files are allowed`. */
  lemma SaveShowsServerReason(status: int, message: string)
    requires !(200 <= status < 300) && message != ""
    ensures SaveSvg(RecordOutcome(Failure(status, message))) == Err(message)
  {
  }

  /** `deleteSvg`: true for a 2xx answer and false otherwise; it never throws. */
  function DeleteSvg<T>(o: ApiOutcome<T>): (ok: bool)
    ensures ok <==> o.Delivered?
  {
    o.Delivered?
  }

  /** A 404 from the server (no such record) makes `deleteSvg` report false. */
  lemma DeleteOfMissingRecordIsFalse()
    ensures !DeleteSvg(RecordOutcome(Failure(404, Routes.NOT_FOUND)))
  {
  }

  /**
   * `deleteSvg` over the server's whole DELETE answer: true exactly when the store
   * removed a record, false for an unknown id and for every server fault.
   */
  lemma DeleteReportsRemoval(r: Result<bool, StoreError>)
    ensures DeleteSvg(RecordOutcome(Routes.DeleteResponse(r))) <==> r == Ok(true)
  {
  }

  /** `getSvgById`: the mapped record, or null for any failure. */
  function GetSvgById(o: ApiOutcome<SvgRecord>): (r: Option<SvgItem>)
    ensures r.Some? <==> o.Delivered? && o.data.Some?
    ensures r.Some? ==> r.value == TransformSvgFromApi(o.data.value)
  {
    match o
    case Delivered(Some(rec)) => Some(TransformSvgFromApi(rec))
    case _ => None
  }

  /** `updateSvg`: the mapped refreshed record, or null for any failure. */
  function UpdateSvg(o: ApiOutcome<SvgRecord>): (r: Option<SvgItem>)
    ensures r.Some? <==> o.Delivered? && o.data.Some?
    ensures r.Some? ==> r.value == TransformSvgFromApi(o.data.value)
  {
    match o
    case Delivered(Some(rec)) => Some(TransformSvgFromApi(rec))
    case _ => None
  }

  /**
   * `getSvgById` and `updateSvg` over the server's GET and PUT answers: the client view
   * of the record the store answered with, and null for an unknown id or a server fault.
   */
  lemma FetchAndUpdateReportStoreAnswer(r: Result<Option<SvgRecord>, StoreError>)
    ensures GetSvgById(RecordOutcome(Routes.LookupResponse(r)))
            == if r.Ok? && r.value.Some? then Some(TransformSvgFromApi(r.value.value)) else None
    ensures UpdateSvg(RecordOutcome(Routes.UpdateResponse(r)))
            == if r.Ok? && r.value.Some? then Some(TransformSvgFromApi(r.value.value)) else None
  {
  }

  /** Fetching a record the server has yields exactly that record's client view. */
  lemma GetSvgByIdOfFound(rec: SvgRecord)
    ensures GetSvgById(RecordOutcome(Success(200, None, Some(One(rec))))) == Some(TransformSvgFromApi(rec))
  {
  }
}
