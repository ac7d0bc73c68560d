# KIHS report analyser: ingestion and prompting pipeline

This project models the logic in `app.py` that sits behind the user interface of a demo web app.

The app takes an uploaded PDF report and parses it locally into labelled page texts. It normalises and trims the text and builds a fixed Korean instruction prompt around it. It then asks a hosted model for a summary report or a multiple-choice quiz. When local parsing yields too little text (fewer than 1200 characters, `MIN_TEXT_CHARS`), the file fallback is allowed (`allow_file_fallback`) and no file handle is held yet, the PDF itself is uploaded and the model is asked to work from the file. Every generation call goes through a wrapper that retries once.

The Dafny modules follow the sections of `app.py`:

- `Wrappers`: `Option`, `Result`, and `ErrorInfo` (the message of a raised exception).
- `PyText`: the Python `str` operations the code relies on, stated character by character:
  - `str.isspace` with CPython's full whitespace set;
  - `strip()`, built from `lstrip`/`rstrip`;
  - `"\n\n".join`;
  - `str(n)`.
- `Ingest`:
  - `extract_text_from_pdf`: the PDF reader is a sequence of per-page results, and a failed page is `None`;
  - `normalize_text`: `str.replace` is modelled exactly, leftmost and non-overlapping;
  - `trim_text`.
- `Upload`: `upload_pdf_to_gemini_file_api`. The file system and the provider are a record of what each step does.
- `Generation`: `generate_with_retry`. The remote model is a function from the attempt number to the attempt's outcome.
- `Prompts`: the four prompt builders, with the real constant blocks.
- `Orchestrator`: the per-session state (`class Session`) and what one run of the page script does:
  - resetting on a new document;
  - local parsing;
  - the upload fallback;
  - each action's choice between the text path, the file path and the "insufficient" message.

The remote model, the provider's file registration and the PDF reader are outside the model. They appear only as parameters: `remote`, `UploadEnv`, and `UploadedFile.pages`.

## Model

| member | source | states |
|---|---|---|
| PyText.Strip | app.py:136 | `strip()` leaves no leading or trailing whitespace (CPython's `isspace` set), and a string already stripped comes back unchanged |
| PyText.StripIsSlice | app.py:136 | `strip()` returns the slice of its input between the leading and the trailing whitespace; only whitespace is dropped |
| PyText.Join | app.py:140 | `sep.join(parts)` starts with the first part's first character and ends with the last part's last character; no parts give `""` |
| PyText.NatToString | app.py:138 | the page number in `f"[PAGE {i+1}]"` is rendered as decimal digits with no leading zero |
| PyText.NatToStringRoundTrip | app.py:138 | reading the rendered digits back gives the number, so distinct pages get distinct labels |
| Ingest.KeptPages | app.py:131-138 | the pages that contribute a part are listed in strictly ascending order; they are exactly the pages whose stripped text is non-empty; a failed page never contributes |
| Ingest.PagePartsInOrder | app.py:130-138 | the k-th collected part is `[PAGE n]\n` followed by the stripped text of the k-th contributing page, where n is that page's own 1-based number |
| Ingest.JoinedPagesAreStripped | app.py:140 | the joined parts have no outer whitespace, so the final `.strip()` never changes the text |
| Ingest.ExtractText | app.py:126-140 | the loop reports the total page count, failed pages included, and returns the parts joined with a blank line |
| Ingest.ReplaceCR | app.py:144 | `replace("\r", "\n")` keeps the length, leaves no carriage return, and leaves a text without one unchanged |
| Ingest.ReplaceTriple | app.py:146 | `replace("\n\n\n", "\n\n")` never lengthens the text; it shortens it exactly when three newlines occur in a row; it adds no carriage return |
| Ingest.CollapseLeavesNoTriple | app.py:145-146 | the replace-until-stable loop leaves no three newlines in a row and changes nothing when there are none |
| Ingest.CollapseMatchesSqueeze | app.py:145-146 | the loop computes exactly an independent one-pass definition in which every run of three or more newlines becomes two and nothing else changes |
| Ingest.NormalizeProperties | app.py:143-147 | every result of `normalize_text` has no `\r`, no `"\n\n\n"`, and no leading or trailing whitespace |
| Ingest.NormalizeFixpoint | app.py:143-147 | `normalize_text` leaves a text unchanged exactly when the text already has that shape |
| Ingest.NormalizeIdempotent | app.py:143-147 | normalising twice is normalising once |
| Ingest.NormalizeText | app.py:143-147 | the `while` loop terminates because each pass that finds three newlines shortens the text; the result is the normal form |
| Ingest.TrimText | app.py:150-153 | a text within the cap is returned unchanged; a longer one becomes its first `max_chars` characters plus the marker, exactly `max_chars + len(marker)` long; no result exceeds that |
| Ingest.TrimIdempotent | app.py:150-153 | trimming a trimmed text changes nothing, so re-trimming never adds a second marker |
| Ingest.TrimEndsInNonSpace | app.py:153 | trimming keeps a text's last character non-whitespace, because the marker ends in `]` |
| Upload.UploadAsWritten | app.py:159-179 | as written: a handle is returned exactly when the temp file is created, the bytes are written and registration succeeds; otherwise an error is shown and None is returned; the temp file stays behind when removal fails or when the write raised |
| Upload.WriteFailureLeaksTempFile | app.py:162-164 | when the write raises, the temp file is left on disk even though removal would have succeeded |
| Upload.UploadPdf | app.py:159-179 | the same handle or error as the code as written, but the temp file is removed on every exit path unless the OS refuses the removal |
| Generation.GenerateWithRetry | app.py:185-195 | 1 to `retries+1` calls, stopping at the first reply; every earlier call raised; the reply text (or `""` for none) is returned; if every call raises, the last call's error is surfaced; exactly `calls-1` sleeps |
| Prompts.StripAroundDocument | app.py:202-211 | stripping a template whose document text ends in non-whitespace leaves the fixed preamble followed by the document text verbatim |
| Prompts.SummaryPromptShape | app.py:201-211 | the summary prompt is the summary preamble followed by the trimmed document, verbatim and last; the file-mode prompt is the same instruction blocks followed by the file-mode notice |
| Prompts.QuizPromptShape | app.py:214-225 | the same shape for the quiz prompts, with the requested question count substituted into the quiz format block |
| Orchestrator.ChooseRequest | app.py:327-344 | the text path is taken exactly when the parsed text has at least `MIN_TEXT_CHARS` characters, with the text trimmed to the cap; the file path exactly when it has fewer and a handle exists; no request exactly when it has fewer and there is no handle; the three are mutually exclusive and use the selected model |
| Orchestrator.TextPathSendsTrimmedText | app.py:327-331 | for normalised parsed text on the text path, the prompt is the action's preamble followed by `trim_text(parsed_text, max_chars)` verbatim, which is at most the cap plus the marker |
| Orchestrator.FilePathSendsNotice | app.py:334-341 | on the file path, the request carries the stored handle and the action's instruction blocks followed by the file-mode notice |
| Orchestrator.Serve | app.py:325-348 | without a request: the "insufficient" message and zero remote calls; with one: at most two calls using the same request; the first reply is shown, or the final error is reported |
| Orchestrator.ParsePdf | app.py:288-289 | local parsing yields the normalised page assembly, which is in normal form, and the page count |
| Orchestrator.Session.constructor | app.py:255-262 | the first run starts with no document, empty text, zero pages and no handle |
| Orchestrator.Session.ObserveDocument | app.py:277-281 | a new file name is recorded and resets the text, the page count and the handle; the same name leaves the state untouched |
| Orchestrator.Session.ParseLocally | app.py:285-294 | parsing runs only when preferred and while the parsed text is empty; a document the reader rejects shows an error and changes nothing; otherwise the state holds the normalised assembly and the page count |
| Orchestrator.Session.StoreParse | app.py:290-291 | storing a parse result sets exactly the text and the page count and keeps the session invariant |
| Orchestrator.Session.UploadIfNeeded | app.py:300-303 | an upload is attempted exactly when the text is insufficient, fallback is allowed and there is no handle; the handle becomes the upload's result, so a failed upload leaves it None; nothing else changes |
| Orchestrator.Session.RunAction | app.py:327-381 | the summary button (app.py:327-344) and the quiz button (app.py:363-381) each serve the request chosen from the current state and changes nothing; on the text path the prompt is the action's preamble followed by `trim_text(parsed_text, max_chars)` verbatim |
| Orchestrator.Session.Prepare | app.py:285-303 | after parsing, the text and page count are the normalised assembly and its page count when parsing was preferred and no text was held, and otherwise unchanged; the parse error is shown exactly when that parse found no readable document; the upload is made exactly when the resulting text is insufficient, fallback is allowed and no handle was held, and the handle is its result or else unchanged |
| Orchestrator.Session.ServeRequested | app.py:363-381 | a requested action is served on the request chosen from the state; it reports "insufficient" exactly when the text is insufficient and no handle is held, and exactly when it makes no remote call |
| Orchestrator.Session.Rerun | app.py:268-303 | no document: nothing changes. Otherwise the name is recorded and, starting from the old state for the same name or from empty text, no pages and no handle for a new one, the new text, page count and handle are stated exactly: parsed when preferred and no text was held, uploaded exactly when the text is insufficient, fallback is allowed and no handle was held. Hence no upload for sufficient text and none twice while a handle is held. The requested action is served on the request chosen from the new state, and reports "insufficient" exactly when it makes no remote call |

## Left out

- The Streamlit interface is not modelled, because it is presentation only. This covers:
  - page configuration, title and notices (app.py:14-29);
  - the sidebar widgets (app.py:231-249);
  - spinners, tabs, captions and the `st.error`/`st.exception`/`st.markdown` display;
  - `st.stop` on a missing file, which stops the run and is modelled as `NoDocument`.
- The parsing preview tab (app.py:308-313) is not modelled. It only displays `trim_text(parsed_text, 4000)`, which `Ingest.TrimText` covers.
- The slider ranges for the cap (8000-60000) and the question count (1-8) are not modelled. Both are any natural number in the model.
- The model list is not modelled, and the model name is an opaque string.
- Client construction and the API key check (app.py:100-121) are not modelled.
- The `genai` client and `client.files.upload` are network calls into a library this model does not include. Generation is a function from (request, attempt number) to an outcome. Registration is one field of `UploadEnv`.
- `PdfReader` internals are not modelled. Pages are an input sequence of `Option<string>`. A document-level reader failure (app.py:292-294) is `pages == None`.
- `time.sleep(sleep_s)` is not modelled: sleeps are counted, and the float duration is dropped.
- `normalize_text`'s `(text or "")` is not modelled, because the model's text is never `None`.
- Prompt placement uses the real constant blocks. Only the `{num_q}` placeholder of the quiz format block is substituted.
- The conversational mode with a bounded history window is not modelled, because `app.py` has no such mode.
- PyText.Join: its contract states only the first and last characters and the empty case, which is all the page assembly relies on. The rest of `sep.join` is its definition.
- Session.UploadIfNeeded: it calls the corrected `Upload.UploadPdf`, so the temp-file status it reports is the corrected program's; the handle and the error it shows are those of the code as written, which its contract also states.
- The upload is retried on every run after a failed upload. The code retries while the handle is None; upload is at most once per document only while a handle is held, and `Session.Rerun` states exactly that.

## Findings

| source | as written | input that shows it | evidently intended | confidence | as-written member | corrected member |
|---|---|---|---|---|---|---|
| app.py:162-164 | `tmp_path = tmp.name` is assigned after `tmp.write(...)`, so when the write raises, the `finally` sees `tmp_path is None` and does not remove the temporary file (created with `delete=False`) | temp file created, write raises, OS would allow removal | the temporary file is removed on every exit path, including a failed write | not executed | Upload.UploadAsWritten | Upload.UploadPdf |
