/**
 * svgholder/src/pages/SvgImporter.tsx: the upload form as a class. Each handler is one atomic
 * step; what the browser's file reader and the save request deliver are parameters.
 */
module Importer {
  import opened Wrappers
  import opened Text
  import opened Records
  import opened ClientService
  import Routes

  datatype NoticeKind = SuccessNotice | ErrorNotice

  /** The banner under the form, `{ type, text }`. */
  datatype Notice = Notice(kind: NoticeKind, text: string)

  /** The `name` attribute of the input that changed. */
  datatype Field = NameField | DescriptionField

  /** The arguments `handleSubmit` passes to `saveSvg`. */
  datatype SaveRequest = SaveRequest(name: string, description: string, file: FileInfo)

  const MISSING_FIELDS := "Please fill in all fields and select a file"
  const UPLOADED := "SVG uploaded successfully!"
  const READ_FAILED := "Failed to read SVG file"
  const INVALID_FILE := "Invalid file"

  /** The guard of `handleSubmit`: a field blank once trimmed, or no file. */
  predicate GuardRejects(name: string, description: string, file: Option<FileInfo>) {
    Trim(name) == [] || Trim(description) == [] || file.None?
  }

  /** The `disabled` condition of the submit button. */
  predicate SubmitDisabled(loading: bool, name: string, description: string, file: Option<FileInfo>) {
    loading || file.None? || Trim(name) == [] || Trim(description) == []
  }

  /** The button is disabled exactly while loading or while the submit guard would refuse. */
  lemma SubmitDisabledMatchesGuard(loading: bool, name: string, description: string, file: Option<FileInfo>)
    ensures SubmitDisabled(loading, name, description, file) <==> loading || GuardRejects(name, description, file)
    ensures !loading ==> (SubmitDisabled(loading, name, description, file) <==>
                          AllWhitespace(name) || AllWhitespace(description) || file.None?)
  {
    TrimEmptyIff(name);
    TrimEmptyIff(description);
  }

  /**
   * A request the form lets through passes the server's multer stage and its required-field
   * check; it is stored exactly when the file's text contains `<svg`, with the name and
   * description the form sent.
   */
  lemma SubmittedFormPassesServerChecks(name: string, description: string, f: FileInfo, content: string)
    requires !GuardRejects(name, description, Some(f)) && ValidateSvgFile(Some(f)).isValid
    ensures var upload := Routes.Upload(f.mimeType, f.name, f.size, content);
      Routes.ReceiveUpload(Some(upload)) == Ok(Some(upload))
      && (Routes.ValidateCreate(Some(Trim(name)), Some(Trim(description)), Some(upload)).Ok?
          <==> Contains(content, "<svg"))
      && (Contains(content, "<svg") ==>
          Routes.ValidateCreate(Some(Trim(name)), Some(Trim(description)), Some(upload)).value
          == SvgData(Trim(name), Trim(description), content, f.size, f.name))
  {
    var upload := Routes.Upload(f.mimeType, f.name, f.size, content);
    ClientAndServerAcceptSameFiles(f, content);
    var n, d := Trim(name), Trim(description);
    TrimIdempotent(name);
    TrimIdempotent(description);
    assert Routes.Truthy(Some(n)) && Routes.Truthy(Some(d));
    var r := Routes.ValidateCreate(Some(n), Some(d), Some(upload));
    if Contains(content, "<svg") {
      assert r.value == SvgData(Trim(n), Trim(d), content, f.size, f.name);
    }
  }

  /**
   * What `handleSubmit` sends for the form's state: nothing when the guard refuses, otherwise
   * the trimmed name and description and the selected file.
   */
  function Submission(name: string, description: string, file: Option<FileInfo>): (r: Option<SaveRequest>)
    ensures r.None? <==> GuardRejects(name, description, file)
    ensures r.Some? ==> r.value == SaveRequest(Trim(name), Trim(description), file.value)
  {
    if GuardRejects(name, description, file) then None
    else Some(SaveRequest(Trim(name), Trim(description), file.value))
  }

  /** What a submitted request carries: trimmed non-blank fields and a file the client accepted. */
  predicate ReadyForServer(req: SaveRequest) {
    && Trim(req.name) == req.name && req.name != []
    && Trim(req.description) == req.description && req.description != []
    && ValidateSvgFile(Some(req.file)).isValid
  }

  /** Whatever the guard lets through is ready for the server, given a file the client accepted. */
  lemma SubmissionIsReady(name: string, description: string, file: Option<FileInfo>)
    requires file.Some? ==> ValidateSvgFile(file).isValid
    ensures Submission(name, description, file).Some? ==> ReadyForServer(Submission(name, description, file).value)
  {
    TrimIdempotent(name);
    TrimIdempotent(description);
  }

  /**
   * A request `handleSubmit` sends passes multer and is stored by the POST handler exactly
   * when the file's text holds `<svg`, with its fields as sent.
   */
  lemma ReadyRequestPassesServerChecks(req: SaveRequest, content: string)
    requires ReadyForServer(req)
    ensures var upload := Routes.Upload(req.file.mimeType, req.file.name, req.file.size, content);
      Routes.ReceiveUpload(Some(upload)) == Ok(Some(upload))
      && (Routes.ValidateCreate(Some(req.name), Some(req.description), Some(upload)).Ok?
          <==> Contains(content, "<svg"))
      && (Contains(content, "<svg") ==>
          Routes.ValidateCreate(Some(req.name), Some(req.description), Some(upload)).value
          == SvgData(req.name, req.description, content, req.file.size, req.file.name))
  {
    SubmittedFormPassesServerChecks(req.name, req.description, req.file, content);
  }

  /** The banner after a save: the success text, or the error `saveSvg` threw. */
  function SubmitNotice(saved: Result<SvgItem, string>): (n: Notice)
    ensures n.kind == SuccessNotice <==> saved.Ok?
    ensures saved.Err? ==> n.text == saved.error
  {
    match saved
    case Ok(_) => Notice(SuccessNotice, UPLOADED)
    case Err(e) => Notice(ErrorNotice, e)
  }

  class SvgImporter {
    var name: string
    var description: string
    var selectedFile: Option<FileInfo>
    var loading: bool
    var message: Option<Notice>
    var previewContent: Option<string>

    /** A selected file has always passed `validateSvgFile`. */
    ghost predicate Valid()
      reads this
    {
      selectedFile.Some? ==> ValidateSvgFile(selectedFile).isValid
    }

    constructor ()
      ensures Valid()
      ensures name == "" && description == "" && selectedFile == None
      ensures !loading && message == None && previewContent == None
    {
      name := "";
      description := "";
      selectedFile := None;
      loading := false;
      message := None;
      previewContent := None;
    }

    /** `handleInputChange`: only the field that changed is updated. */
    method HandleInputChange(field: Field, value: string)
      modifies this
      ensures name == if field == NameField then value else old(name)
      ensures description == if field == DescriptionField then value else old(description)
      ensures selectedFile == old(selectedFile) && loading == old(loading)
      ensures message == old(message) && previewContent == old(previewContent)
    {
      if field == NameField {
        name := value;
      } else {
        description := value;
      }
    }

    /**
     * `handleFileSelect(file)`; `read` is what the file reader delivers. An invalid file only
     * sets the error banner. A valid one is selected and the banner cleared; then the preview
     * shows its text, or, when the reader fails or there is no `<svg`, the banner says so and
     * the file stays selected.
     */
    method HandleFileSelect(file: FileInfo, read: Option<string>)
      requires Valid()
      modifies this
      ensures Valid()
      ensures var check := ValidateSvgFile(Some(file));
        !check.isValid ==>
          message == Some(Notice(ErrorNotice, check.error.value))
          && selectedFile == old(selectedFile) && previewContent == old(previewContent)
      ensures ValidateSvgFile(Some(file)).isValid ==> selectedFile == Some(file)
      ensures ValidateSvgFile(Some(file)).isValid && ReadSvgFile(read).Ok? ==>
        message == None && previewContent == Some(ReadSvgFile(read).value)
      ensures ValidateSvgFile(Some(file)).isValid && ReadSvgFile(read).Err? ==>
        message == Some(Notice(ErrorNotice, READ_FAILED)) && previewContent == old(previewContent)
      ensures name == old(name) && description == old(description) && loading == old(loading)
    {
      var validation := ValidateSvgFile(Some(file));
      if !validation.isValid {
        var text := if validation.error.Some? && validation.error.value != "" then validation.error.value else INVALID_FILE;
        message := Some(Notice(ErrorNotice, text));
        return;
      }
      selectedFile := Some(file);
      message := None;
      var content := ReadSvgFile(read);
      if content.Ok? {
        previewContent := Some(content.value);
      } else {
        message := Some(Notice(ErrorNotice, READ_FAILED));
      }
    }

    /**
     * `handleSubmit`; `o` is the outcome of the save request. A refused form only sets the
     * banner. Otherwise `request` is what is sent: the trimmed fields and the selected file.
     * On success the form is emptied and the success banner shown; on failure the form is
     * kept and the banner shows the error. `loading` is false afterwards.
     */
    method HandleSubmit(o: ApiOutcome<SvgRecord>) returns (request: Option<SaveRequest>)
      requires Valid()
      modifies this
      ensures Valid()
      ensures request == Submission(old(name), old(description), old(selectedFile))
      ensures request.Some? ==> ReadyForServer(request.value)
      ensures request.None? ==> message == Some(Notice(ErrorNotice, MISSING_FIELDS))
      ensures request.None? ==> unchanged(this`name, this`description, this`selectedFile, this`loading, this`previewContent)
      ensures request.Some? ==> !loading && message == Some(SubmitNotice(SaveSvg(o)))
      ensures request.Some? && SaveSvg(o).Ok? ==>
        name == "" && description == "" && selectedFile == None && previewContent == None
      ensures request.Some? && SaveSvg(o).Err? ==>
        name == old(name) && description == old(description)
        && selectedFile == old(selectedFile) && previewContent == old(previewContent)
    {
      SubmissionIsReady(name, description, selectedFile);
      request := Submission(name, description, selectedFile);
      if request.None? {
        message := Some(Notice(ErrorNotice, MISSING_FIELDS));
      } else {
        Save(SaveSvg(o));
      }
    }

    /**
     * The part of `handleSubmit` after the guard, given what `saveSvg` delivered: the banner
     * shows the outcome, a success empties the form, and `loading` ends false.
     */
    method Save(saved: Result<SvgItem, string>)
      requires Valid()
      modifies this
      ensures Valid()
      ensures !loading && message == Some(SubmitNotice(saved))
      ensures saved.Ok? ==> name == "" && description == "" && selectedFile == None && previewContent == None
      ensures saved.Err? ==>
        name == old(name) && description == old(description)
        && selectedFile == old(selectedFile) && previewContent == old(previewContent)
    {
      loading := true;
      message := None;
      message := Some(SubmitNotice(saved));
      if saved.Ok? {
        name, description := "", "";
        selectedFile := None;
        previewContent := None;
      }
      loading := false;
    }

    /** `clearFile`: drops the file and its preview; the fields and the banner stay. */
    method ClearFile()
      modifies this
      ensures Valid()
      ensures selectedFile == None && previewContent == None
      ensures name == old(name) && description == old(description)
      ensures loading == old(loading) && message == old(message)
    {
      selectedFile := None;
      previewContent := None;
    }
  }
}
