/** The per-session state and the decisions taken on every run of the
    page script (app.py sections "Session State" and "Main Logic"): a new
    document resets everything derived from the old one, local parsing
    runs while no text has been parsed, the file is uploaded only when the
    text is insufficient and fallback is allowed, and each action picks the
    text path, the file path, or reports that neither is available. */
module Orchestrator {
  import opened Wrappers
  import opened PyText
  import opened Ingest
  import opened Upload
  import opened Generation
  import opened Prompts

  /** MIN_TEXT_CHARS: below this many characters the parsed text is
      considered insufficient. */
  const MinTextChars: nat := 1200

  /** The `retries` both actions pass to generate_with_retry. */
  const ActionRetries: nat := 1

  /** An uploaded PDF: its file name and what the PDF reader makes of it,
      None when the reader rejects the document as a whole. */
  datatype UploadedFile = UploadedFile(name: string, pages: Option<seq<PageResult>>)

  /** The sidebar settings: model, character cap, and the two mode flags. */
  datatype Config = Config(model: string, maxChars: nat, preferLocalParse: bool, allowFileFallback: bool)

  /** The two generation actions; the quiz carries its question count. */
  datatype Action = Summary | Quiz(numQ: nat)

  /** What is sent to the model: a text prompt, or a file handle with a
      prompt, never both. */
  datatype Request =
    | TextRequest(model: string, prompt: string)
    | FileRequest(model: string, handle: FileHandle, prompt: string)

  /** What an action shows: the generated text, the error that ended the
      retries, or the "insufficient input" message. */
  datatype ActionOutcome = Rendered(text: string) | GenerationFailed(error: ErrorInfo) | Insufficient

  /** An action's outcome and the number of remote calls it made. */
  datatype ActionReport = ActionReport(outcome: ActionOutcome, calls: nat)

  /** One run of the page script: stopped for want of a document, or run
      with a parse error flag, the upload made (if any) and the action
      served (if any). */
  datatype RunReport =
    | NoDocument
    | Ran(parseError: bool, upload: Option<UploadOutcome>, action: Option<ActionReport>)

  /** Local parsing of a document the reader opened: the normalised page
      assembly and the page count. */
  method ParsePdf(pages: seq<PageResult>) returns (text: string, nPages: nat)
    ensures text == Normalize(Join(PageParts(pages), PageSeparator))
    ensures IsNormalized(text)
    ensures nPages == |pages|
  {
    var raw;
    raw, nPages := ExtractText(pages);
    text := NormalizeText(raw);
  }

  /** The instruction blocks of an action. */
  function Instructions(action: Action): string {
    match action
    case Summary => SummaryInstructions()
    case Quiz(q) => QuizInstructions(q)
  }

  /** The text-mode prompt of an action. */
  function TextPrompt(action: Action, docText: string): string {
    match action
    case Summary => SummaryPrompt(docText)
    case Quiz(q) => QuizPrompt(docText, q)
  }

  /** The file-mode prompt of an action. */
  function FilePrompt(action: Action): string {
    match action
    case Summary => FileSummaryPrompt()
    case Quiz(q) => FileQuizPrompt(q)
  }

  /** The dispatch of one action: the text path exactly when the parsed
      text is sufficient, with the text trimmed to the cap; otherwise the
      file path exactly when a handle exists; otherwise no request at all.
      The three cases exclude each other. */
  function ChooseRequest(parsedText: string, fileRef: Option<FileHandle>, action: Action, cfg: Config)
    : (r: Option<Request>)
    ensures (r.Some? && r.value.TextRequest?) <==> |parsedText| >= MinTextChars
    ensures (r.Some? && r.value.FileRequest?) <==> |parsedText| < MinTextChars && fileRef.Some?
    ensures r.None? <==> |parsedText| < MinTextChars && fileRef.None?
    ensures r.Some? ==> r.value.model == cfg.model
    ensures r.Some? && r.value.TextRequest? ==>
              r.value.prompt == TextPrompt(action, TrimText(parsedText, cfg.maxChars))
    ensures r.Some? && r.value.FileRequest? ==>
              r.value.handle == fileRef.value && r.value.prompt == FilePrompt(action)
  {
    if parsedText != "" && |parsedText| >= MinTextChars then
      Some(TextRequest(cfg.model, TextPrompt(action, TrimText(parsedText, cfg.maxChars))))
    else if fileRef.Some? then
      Some(FileRequest(cfg.model, fileRef.value, FilePrompt(action)))
    else
      None
  }

  /** On the text path the model receives the action's fixed preamble
      followed by the parsed text trimmed to the cap, verbatim, and that
      text is never longer than the cap plus the truncation marker. */
  lemma TextPathSendsTrimmedText(parsedText: string, fileRef: Option<FileHandle>, action: Action, cfg: Config)
    requires IsNormalized(parsedText) && |parsedText| >= MinTextChars
    ensures ChooseRequest(parsedText, fileRef, action, cfg)
         == Some(TextRequest(cfg.model, Preamble(Instructions(action)) + TrimText(parsedText, cfg.maxChars)))
    ensures |TrimText(parsedText, cfg.maxChars)| <= cfg.maxChars + |TruncationMarker|
  {
    TrimEndsInNonSpace(parsedText, cfg.maxChars);
    var docText := TrimText(parsedText, cfg.maxChars);
    match action
    case Summary => SummaryPromptShape(docText);
    case Quiz(q) => QuizPromptShape(docText, q);
  }

  /** On the file path the model receives the handle and the action's
      instruction blocks followed by the file-mode notice. */
  lemma FilePathSendsNotice(parsedText: string, handle: FileHandle, action: Action, cfg: Config)
    requires |parsedText| < MinTextChars
    ensures ChooseRequest(parsedText, Some(handle), action, cfg)
         == Some(FileRequest(cfg.model, handle, Instructions(action) + FileModeNotice))
  {
    match action
    case Summary =>
      SummaryPromptShape("x");
    case Quiz(q) =>
      QuizPromptShape("x", q);
  }

  /** What serving a request means: no remote call and the "insufficient"
      message when there is no request; otherwise at most one retry, every
      attempt but the last raised, and the first reply shown or the last
      error reported. */
  predicate Served(req: Option<Request>, remote: (Request, nat) -> Attempt, outcome: ActionOutcome, calls: nat) {
    && (outcome.Insufficient? <==> req.None?)
    && (req.None? ==> calls == 0)
    && (req.Some? ==>
          && 1 <= calls <= ActionRetries + 1
          && (forall k :: 0 <= k < calls - 1 ==> remote(req.value, k).Raised?)
          && (outcome.Rendered? <==> remote(req.value, calls - 1).Replied?)
          && (outcome.Rendered? ==> outcome.text == remote(req.value, calls - 1).text.GetOr(""))
          && (outcome.GenerationFailed? ==>
                calls == ActionRetries + 1 && outcome.error == remote(req.value, ActionRetries).error))
  }

  /** Serving one request: when there is one, it goes through the retry
      wrapper with one retry and each attempt sends the same request. */
  method Serve(req: Option<Request>, remote: (Request, nat) -> Attempt) returns (outcome: ActionOutcome, calls: nat)
    ensures Served(req, remote, outcome, calls)
  {
    if req.None? {
      return Insufficient, 0;
    }
    var request := req.value;
    var send: nat -> Attempt := (k: nat) => remote(request, k);
    var result, n, sleeps := GenerateWithRetry(send, ActionRetries);
    forall k | 0 <= k < n - 1 ensures remote(request, k).Raised? {
      assert send(k).Raised?;
    }
    calls := n;
    outcome := if result.Success? then Rendered(result.value) else GenerationFailed(result.error);
  }

  /** The state kept for one browser session. */
  class Session {
    var lastUploaded: Option<string>
    var parsedText: string
    var nPages: nat
    var fileRef: Option<FileHandle>

    /** The parsed text is always in normal form, and nothing is derived
        before a document has been seen. */
    ghost predicate Valid()
      reads this
    {
      && IsNormalized(parsedText)
      && (lastUploaded.None? ==> parsedText == "" && nPages == 0 && fileRef.None?)
    }

    /** The first run: every field at its initial value. */
    constructor ()
      ensures Valid()
      ensures lastUploaded == None && parsedText == "" && nPages == 0 && fileRef == None
    {
      lastUploaded, parsedText, nPages, fileRef := None, "", 0, None;
    }

    /** Seeing the uploaded file's name: a new name is recorded and resets
        the parsed text, the page count and the file handle; the same name
        leaves the state as it was. */
    method ObserveDocument(name: string)
      requires Valid()
      modifies this
      ensures Valid()
      ensures lastUploaded == Some(name)
      ensures old(lastUploaded) != Some(name) ==> parsedText == "" && nPages == 0 && fileRef == None
      ensures old(lastUploaded) == Some(name) ==>
                parsedText == old(parsedText) && nPages == old(nPages) && fileRef == old(fileRef)
    {
      if lastUploaded != Some(name) {
        lastUploaded := Some(name);
        parsedText, nPages, fileRef := "", 0, None;
      }
    }

    /** Local parsing: runs only when it is preferred and no text has been
        parsed yet. A document the reader rejects shows an error and
        changes nothing; otherwise the parsed text becomes the normalised
        page assembly and the page count the number of pages. */
    method ParseLocally(file: UploadedFile, preferLocalParse: bool) returns (parseError: bool)
      requires Valid() && lastUploaded.Some?
      modifies this
      ensures Valid()
      ensures lastUploaded == old(lastUploaded) && fileRef == old(fileRef)
      ensures parseError <==> preferLocalParse && old(parsedText) == "" && file.pages.None?
      ensures preferLocalParse && old(parsedText) == "" && file.pages.Some? ==>
                && parsedText == Normalize(Join(PageParts(file.pages.value), PageSeparator))
                && nPages == |file.pages.value|
      ensures !(preferLocalParse && old(parsedText) == "" && file.pages.Some?) ==>
                parsedText == old(parsedText) && nPages == old(nPages)
    {
      parseError := false;
      if preferLocalParse && parsedText == "" {
        if file.pages.None? {
          parseError := true;
        } else {
          var text, n := ParsePdf(file.pages.value);
          StoreParse(text, n);
        }
      }
    }

    /** Records a parse result for the current document: the text (in
        normal form) and the page count; nothing else changes. */
    method StoreParse(text: string, n: nat)
      requires Valid() && lastUploaded.Some? && IsNormalized(text)
      modifies this
      ensures Valid()
      ensures parsedText == text && nPages == n
      ensures lastUploaded == old(lastUploaded) && fileRef == old(fileRef)
    {
      parsedText, nPages := text, n;
    }

    /** The upload fallback: attempted exactly when the parsed text is
        insufficient, fallback is allowed and no handle exists yet; the
        handle becomes whatever the upload returns, so a failed upload
        leaves it None. Nothing else changes. */
    method UploadIfNeeded(allowFileFallback: bool, env: UploadEnv) returns (attempt: Option<UploadOutcome>)
      requires Valid() && lastUploaded.Some?
      modifies this
      ensures Valid()
      ensures attempt.Some? <==> |old(parsedText)| < MinTextChars && allowFileFallback && old(fileRef).None?
      ensures attempt.Some? ==> attempt.value == UploadPdf(env) && fileRef == UploadPdf(env).fileRef
      ensures attempt.Some? ==> fileRef == UploadAsWritten(env).fileRef
      ensures attempt.None? ==> fileRef == old(fileRef)
      ensures lastUploaded == old(lastUploaded) && parsedText == old(parsedText) && nPages == old(nPages)
    {
      attempt := None;
      var textInsufficient := |parsedText| < MinTextChars;
      if textInsufficient && allowFileFallback && fileRef.None? {
        var outcome := UploadPdf(env);
        fileRef := outcome.fileRef;
        attempt := Some(outcome);
      }
    }

    /** One generation action against the current state: the request
        chosen for it is served (see Serve); on the text path the prompt is
        the action's preamble followed by the parsed text trimmed to the
        cap, verbatim. */
    method RunAction(action: Action, cfg: Config, remote: (Request, nat) -> Attempt)
      returns (outcome: ActionOutcome, calls: nat)
      requires Valid()
      ensures Served(ChooseRequest(parsedText, fileRef, action, cfg), remote, outcome, calls)
      ensures var req := ChooseRequest(parsedText, fileRef, action, cfg);
        req.Some? && req.value.TextRequest? ==>
          req.value.prompt == Preamble(Instructions(action)) + TrimText(parsedText, cfg.maxChars)
    {
      if |parsedText| >= MinTextChars {
        TextPathSendsTrimmedText(parsedText, fileRef, action, cfg);
      }
      var req := ChooseRequest(parsedText, fileRef, action, cfg);
      outcome, calls := Serve(req, remote);
    }

    /** Local parsing followed by the upload fallback, for the document
        just recorded: parsing runs when it is preferred and no text is
        held; the upload is made exactly when the resulting text is
        insufficient, fallback is allowed and no handle is held, and the
        handle becomes its result. */
    method Prepare(file: UploadedFile, cfg: Config, env: UploadEnv)
      returns (parseError: bool, uploaded: Option<UploadOutcome>)
      requires Valid() && lastUploaded == Some(file.name)
      modifies this
      ensures Valid() && lastUploaded == Some(file.name)
      ensures var parses := cfg.preferLocalParse && old(parsedText) == "" && file.pages.Some?;
              && parseError == (cfg.preferLocalParse && old(parsedText) == "" && file.pages.None?)
              && parsedText == (if parses then Normalize(Join(PageParts(file.pages.value), PageSeparator))
                                else old(parsedText))
              && nPages == (if parses then |file.pages.value| else old(nPages))
      ensures uploaded.Some? <==> |parsedText| < MinTextChars && cfg.allowFileFallback && old(fileRef).None?
      ensures uploaded.Some? ==> uploaded.value == UploadPdf(env)
      ensures fileRef == (if uploaded.Some? then uploaded.value.fileRef else old(fileRef))
    {
      parseError := ParseLocally(file, cfg.preferLocalParse);
      uploaded := UploadIfNeeded(cfg.allowFileFallback, env);
    }

    /** The requested action, if any, served on the current state. An
        action reports "insufficient" exactly when the text is
        insufficient and no handle is held, which is exactly when it makes
        no remote call. */
    method ServeRequested(action: Option<Action>, cfg: Config, remote: (Request, nat) -> Attempt)
      returns (served: Option<ActionReport>)
      requires Valid()
      ensures served.Some? <==> action.Some?
      ensures action.Some? ==>
                Served(ChooseRequest(parsedText, fileRef, action.value, cfg), remote,
                       served.value.outcome, served.value.calls)
      ensures served.Some? ==>
                && (served.value.outcome.Insufficient? <==> |parsedText| < MinTextChars && fileRef.None?)
                && (served.value.outcome.Insufficient? <==> served.value.calls == 0)
    {
      served := None;
      if action.Some? {
        var outcome, calls := RunAction(action.value, cfg, remote);
        served := Some(ActionReport(outcome, calls));
      }
    }

    /** One run of the page script. Without a document it stops and
        changes nothing. Otherwise it records the document; a new name
        starts from empty text, no pages and no handle. It parses locally
        when parsing is preferred and no text is held yet, uploads exactly
        when the resulting text is insufficient, fallback is allowed and
        no handle is held, and serves the requested action on the
        resulting state. Hence an upload is never made for sufficient
        text, and never twice once a handle is held for the same
        document; an action reports "insufficient" exactly when it makes
        no remote call. */
    method Rerun(upload: Option<UploadedFile>, cfg: Config, env: UploadEnv, action: Option<Action>,
                 remote: (Request, nat) -> Attempt)
      returns (report: RunReport)
      requires Valid()
      modifies this
      ensures Valid()
      ensures upload.None? ==> report == NoDocument && unchanged(this)
      ensures upload.Some? ==> report.Ran? && lastUploaded == Some(upload.value.name)
      ensures report.Ran? && report.upload.Some? ==> |parsedText| < MinTextChars && cfg.allowFileFallback
      ensures report.Ran? && |parsedText| >= MinTextChars ==> report.upload.None?
      ensures upload.Some? && old(lastUploaded) == Some(upload.value.name) && old(fileRef).Some? ==>
                report.Ran? && report.upload.None? && fileRef == old(fileRef)
      ensures report.Ran? ==> (report.action.Some? <==> action.Some?)
      ensures report.Ran? && report.action.Some? ==>
                && (report.action.value.outcome.Insufficient? <==> |parsedText| < MinTextChars && fileRef.None?)
                && (report.action.value.outcome.Insufficient? <==> report.action.value.calls == 0)
      ensures upload.Some? ==>
                var file := upload.value;
                var isNew := old(lastUploaded) != Some(file.name);
                var t0 := if isNew then "" else old(parsedText);
                var n0 := if isNew then 0 else old(nPages);
                var h0 := if isNew then None else old(fileRef);
                var parses := cfg.preferLocalParse && t0 == "" && file.pages.Some?;
                && report.Ran?
                && report.parseError == (cfg.preferLocalParse && t0 == "" && file.pages.None?)
                && parsedText == (if parses then Normalize(Join(PageParts(file.pages.value), PageSeparator)) else t0)
                && nPages == (if parses then |file.pages.value| else n0)
                && (report.upload.Some? <==> |parsedText| < MinTextChars && cfg.allowFileFallback && h0.None?)
                && (report.upload.Some? ==> report.upload.value == UploadPdf(env))
                && fileRef == (if report.upload.Some? then report.upload.value.fileRef else h0)
                && (action.Some? ==>
                      && report.action.Some?
                      && Served(ChooseRequest(parsedText, fileRef, action.value, cfg), remote,
                                report.action.value.outcome, report.action.value.calls))
    {
      if upload.None? {
        return NoDocument;
      }
      var file := upload.value;
      ObserveDocument(file.name);
      var parseError, uploaded := Prepare(file, cfg, env);
      var served := ServeRequested(action, cfg, remote);
      report := Ran(parseError, uploaded, served);
    }
  }
}
